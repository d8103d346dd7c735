/**
 * The cameracapture tool: main's getopt fold into the recording settings, the
 * encoder and container each recorder is given, the max-duration parameter,
 * where each stream goes (a file under /sdcard or an HTTP POST), the POST
 * header httpPost builds, and the listener's test for the end of recording.
 * The camera, surface and MediaRecorder calls are recorded as values.
 */
module CameraCapture {
  import opened CLib

  // ---------------------------------------------------------------------------
  // Encoders and containers

  /** The video encoders startRecording chooses from. */
  datatype Encoder = H264 | Mpeg4Sp | H263

  /** The output formats main can set: THREE_GPP by default, MPEG_4 for the DASH container. */
  datatype OutputFormat = ThreeGpp | Mpeg4

  /** startRecording's switch on the codec: 2 is H263, 1 is MPEG_4_SP, 0 and every other value H264. */
  function EncoderFor(codec: int): (e: Encoder)
    ensures e == H263 <==> codec == 2
    ensures e == Mpeg4Sp <==> codec == 1
    ensures e == H264 <==> codec != 1 && codec != 2
  {
    if codec == 2 then H263 else if codec == 1 then Mpeg4Sp else H264
  }

  /** The codecs -v accepts (0 to 2) each select a different encoder, in the order the usage text lists them. */
  lemma CodecsSelectDistinctEncoders(a: int, b: int)
    requires 0 <= a <= 2 && 0 <= b <= 2
    ensures EncoderFor(a) == EncoderFor(b) <==> a == b
    ensures EncoderFor(0) == H264 && EncoderFor(1) == Mpeg4Sp && EncoderFor(2) == H263
  {
  }

  /** The container value of -c for DASH. */
  const ContainerDash := 1

  // ---------------------------------------------------------------------------
  // The option fold

  /** One option as typed: its letter and its argument (empty for -h). */
  datatype Opt = Opt(letter: char, arg: string)

  /** The letters of getopt's option string "a:b:c:f:i:n:w:t:l:p:s:v:h". */
  const OptionLetters := "abcfinwtlpsvh"

  /** What getopt returns for a letter: the letter when the option string has it, '?' otherwise. */
  function GetoptResult(letter: char): (r: char)
    ensures letter in OptionLetters ==> r == letter
    ensures letter !in OptionLetters ==> r == '?'
  {
    if letter in OptionLetters then letter else '?'
  }

  /** The four slots of streamNames. */
  const MaxStreams := 4

  /** main's settings after the option loop. */
  datatype Config = Config(
    frameRateFps: int,
    width: int,
    height: int,
    bitRateBps: int,
    iFramesIntervalSeconds: int,
    nFrames: int,
    codec: int,
    outputFormat: OutputFormat,
    fileName: string,
    hostname: Option<string>,
    streamNames: seq<string>,
    port: int)

  /** The settings main starts with. */
  const Defaults := Config(30, 720, 480, 300000, 1, 300, 0, ThreeGpp, "/sdcard/output.mp4", None, [], 80)

  /**
   * One pass of the option loop, on the letter getopt returns; None is the
   * usage exit, which 'h', 'l' and '?' reach.  getopt never returns 'o', so
   * its case is left out.  The -s case checks the slot count, which the
   * source does not (see StreamSlotAsWritten).
   */
  function Step(c: Config, res: char, arg: string): (r: Option<Config>)
    ensures r.Some? ==> |r.value.streamNames| <= |c.streamNames| + 1
    ensures r.Some? ==> r.value.fileName == c.fileName
  {
    match res
    case 'b' => Some(c.(bitRateBps := Atoi(arg)))
    case 'f' => Some(c.(frameRateFps := Atoi(arg)))
    case 'a' => Some(c.(hostname := Some(arg)))
    case 'i' => Some(c.(iFramesIntervalSeconds := Atoi(arg)))
    case 'n' => Some(c.(nFrames := Atoi(arg)))
    case 'p' => Some(c.(port := Atoi(arg)))
    case 's' => if |c.streamNames| >= MaxStreams then None else Some(c.(streamNames := c.streamNames + [arg]))
    case 'w' => Some(c.(width := Atoi(arg)))
    case 't' => Some(c.(height := Atoi(arg)))
    case 'v' =>
      var codec := Atoi(arg);
      if codec < 0 || codec > 2 then None else Some(c.(codec := codec))
    case 'c' =>
      var param := Atoi(arg);
      if param < 0 || param > 2 then None
      else if param == ContainerDash then Some(c.(outputFormat := Mpeg4))
      else Some(c)
    case _ => None
  }

  /** The settings after the options, or None for the usage exit. */
  function Fold(opts: seq<Opt>): Option<Config> {
    if opts == [] then Some(Defaults)
    else match Fold(opts[..|opts| - 1])
      case None => None
      case Some(c) => Step(c, opts[|opts| - 1].letter, opts[|opts| - 1].arg)
  }

  /** Passing the letter through getopt changes nothing: every letter outside its option string ends in the usage text like '?'. */
  lemma GetoptTransparent(c: Config, letter: char, arg: string)
    ensures Step(c, GetoptResult(letter), arg) == Step(c, letter, arg)
  {
  }

  /** Fold over one more option is one more Step, with the letter as getopt returns it. */
  lemma FoldNext(opts: seq<Opt>, k: nat, c: Config)
    requires k < |opts| && Fold(opts[..k]) == Some(c)
    ensures Fold(opts[..k + 1]) == Step(c, GetoptResult(opts[k].letter), opts[k].arg)
  {
    assert opts[..k + 1][..k] == opts[..k];
    GetoptTransparent(c, opts[k].letter, opts[k].arg);
  }

  /** An option that ends in the usage text by itself, whatever came before it. */
  predicate Rejected(o: Opt) {
    match o.letter
    case 'a' => false
    case 'b' => false
    case 'f' => false
    case 'i' => false
    case 'n' => false
    case 'p' => false
    case 's' => false
    case 'w' => false
    case 't' => false
    case 'v' => !(0 <= Atoi(o.arg) <= 2)
    case 'c' => !(0 <= Atoi(o.arg) <= 2)
    case _ => true
  }

  /** How many of the options are -s. */
  function StreamCount(opts: seq<Opt>): (n: nat)
    ensures n <= |opts|
  {
    if opts == [] then 0 else StreamCount(opts[..|opts| - 1]) + (if opts[|opts| - 1].letter == 's' then 1 else 0)
  }

  /** The arguments of the -s options, in order. */
  function StreamArgs(opts: seq<Opt>): (r: seq<string>)
    ensures |r| == StreamCount(opts)
  {
    if opts == [] then [] else StreamArgs(opts[..|opts| - 1]) + (if opts[|opts| - 1].letter == 's' then [opts[|opts| - 1].arg] else [])
  }

  /** The usage exit happens exactly when some option is rejected or more than four streams are named. */
  lemma {:induction false} UsageExactly(opts: seq<Opt>)
    ensures Fold(opts).None? <==> (exists o :: o in opts && Rejected(o)) || StreamCount(opts) > MaxStreams
    ensures Fold(opts).Some? ==> Fold(opts).value.streamNames == StreamArgs(opts)
  {
    if opts != [] {
      var init := opts[..|opts| - 1];
      var last := opts[|opts| - 1];
      assert opts == init + [last];
      UsageExactly(init);
      if Fold(init).Some? {
        StepUsage(Fold(init).value, last);
      }
    }
  }

  /** One option ends in the usage text when it is rejected or names a fifth stream; otherwise only -s adds a stream. */
  lemma StepUsage(c: Config, o: Opt)
    ensures Step(c, o.letter, o.arg).None? <==> Rejected(o) || (o.letter == 's' && |c.streamNames| >= MaxStreams)
    ensures Step(c, o.letter, o.arg).Some? ==>
      Step(c, o.letter, o.arg).value.streamNames == c.streamNames + (if o.letter == 's' then [o.arg] else [])
  {
  }

  /** -o is missing from getopt's option string and -l has no case: either ends in the usage text. */
  lemma DeadOptions(opts: seq<Opt>, arg: string)
    ensures Fold(opts + [Opt('o', arg)]).None?
    ensures Fold(opts + [Opt('l', arg)]).None?
  {
    assert (opts + [Opt('o', arg)])[..|opts|] == opts;
    assert (opts + [Opt('l', arg)])[..|opts|] == opts;
  }

  /** The output file name is never changed from its default. */
  lemma {:induction false} FileNameFixed(opts: seq<Opt>)
    ensures Fold(opts).Some? ==> Fold(opts).value.fileName == "/sdcard/output.mp4"
  {
    if opts != [] {
      FileNameFixed(opts[..|opts| - 1]);
    }
  }

  /** The letters of the options that set a number. */
  predicate IsNumberLetter(letter: char) {
    letter == 'b' || letter == 'f' || letter == 'i' || letter == 'n' || letter == 'p' || letter == 'w' || letter == 't' || letter == 'v'
  }

  /** The numeric setting an option letter sets. */
  function Setting(c: Config, letter: char): int {
    match letter
    case 'b' => c.bitRateBps
    case 'f' => c.frameRateFps
    case 'i' => c.iFramesIntervalSeconds
    case 'n' => c.nFrames
    case 'p' => c.port
    case 'w' => c.width
    case 't' => c.height
    case _ => c.codec
  }

  /** The argument of the last option with the letter. */
  function LastArg(opts: seq<Opt>, letter: char): (r: Option<string>)
    ensures r.Some? <==> exists k :: 0 <= k < |opts| && opts[k].letter == letter
  {
    if opts == [] then None
    else if opts[|opts| - 1].letter == letter then Some(opts[|opts| - 1].arg)
    else
      var r := LastArg(opts[..|opts| - 1], letter);
      assert r.Some? <==> exists k :: 0 <= k < |opts| && opts[k].letter == letter by {
        if exists k :: 0 <= k < |opts| && opts[k].letter == letter {
          var k :| 0 <= k < |opts| && opts[k].letter == letter;
          assert opts[..|opts| - 1][k] == opts[k];
        }
      }
      r
  }

  /** The host is the argument of the last -a, or none when no -a was given. */
  lemma {:induction false} LastHostWins(opts: seq<Opt>)
    ensures Fold(opts).Some? ==> Fold(opts).value.hostname == LastArg(opts, 'a')
  {
    if opts != [] {
      var init := opts[..|opts| - 1];
      LastHostWins(init);
      if Fold(init).Some? {
        StepHost(Fold(init).value, opts[|opts| - 1].letter, opts[|opts| - 1].arg);
      }
    }
  }

  /** Only -a changes the host, to its own argument. */
  lemma StepHost(c: Config, letter: char, arg: string)
    ensures Step(c, letter, arg).Some? ==> Step(c, letter, arg).value.hostname == if letter == 'a' then Some(arg) else c.hostname
  {
  }

  /** Each numeric setting is atoi of the last option that sets it, or its default when none does. */
  lemma {:induction false} LastSettingWins(opts: seq<Opt>, letter: char)
    requires IsNumberLetter(letter)
    ensures Fold(opts).Some? ==>
      Setting(Fold(opts).value, letter) == (match LastArg(opts, letter) case None => Setting(Defaults, letter) case Some(a) => Atoi(a))
  {
    if opts != [] {
      var init := opts[..|opts| - 1];
      LastSettingWins(init, letter);
      if Fold(init).Some? {
        StepSetting(Fold(init).value, opts[|opts| - 1].letter, opts[|opts| - 1].arg, letter);
      }
    }
  }

  /** One option changes the numeric setting of its own letter and no other. */
  lemma StepSetting(c: Config, res: char, arg: string, letter: char)
    requires IsNumberLetter(letter)
    ensures Step(c, res, arg).Some? ==>
      Setting(Step(c, res, arg).value, letter) == if res == letter then Atoi(arg) else Setting(c, letter)
  {
  }

  /** The option selects the DASH container. */
  predicate SelectsDash(o: Opt) {
    o.letter == 'c' && Atoi(o.arg) == ContainerDash
  }

  /** The output format is MPEG_4 exactly when some -c option selected DASH: a later -c 0 does not undo it. */
  lemma {:induction false} DashSticks(opts: seq<Opt>)
    ensures Fold(opts).Some? ==>
      (Fold(opts).value.outputFormat == Mpeg4 <==> exists o :: o in opts && SelectsDash(o))
  {
    if opts != [] {
      var init := opts[..|opts| - 1];
      var last := opts[|opts| - 1];
      assert opts == init + [last];
      DashSticks(init);
      if Fold(init).Some? {
        StepFormat(Fold(init).value, last.letter, last.arg);
      }
    }
  }

  /** One option sets MPEG_4 when it selects DASH, and otherwise keeps the format. */
  lemma StepFormat(c: Config, res: char, arg: string)
    ensures Step(c, res, arg).Some? ==>
      (Step(c, res, arg).value.outputFormat == Mpeg4 <==> c.outputFormat == Mpeg4 || SelectsDash(Opt(res, arg)))
  {
  }

  /** The usage exit stays the usage exit whatever options follow. */
  lemma {:induction false} UsageIsFinal(opts: seq<Opt>, k: nat)
    requires k <= |opts| && Fold(opts[..k]).None?
    ensures Fold(opts).None?
    decreases |opts| - k
  {
    if k < |opts| {
      assert opts[..k + 1][..k] == opts[..k];
      UsageIsFinal(opts, k + 1);
    } else {
      assert opts[..k] == opts;
    }
  }

  /** main's getopt loop, updating the settings in place. */
  method ParseOptions(opts: seq<Opt>) returns (r: Option<Config>)
    ensures r == Fold(opts)
  {
    var c := Defaults;
    var k := 0;
    while k < |opts|
      invariant k <= |opts| && Fold(opts[..k]) == Some(c)
    {
      var o := opts[k];
      var res := GetoptResult(o.letter);
      FoldNext(opts, k, c);
      if res == 'b' {
        c := c.(bitRateBps := Atoi(o.arg));
      } else if res == 'f' {
        c := c.(frameRateFps := Atoi(o.arg));
      } else if res == 'a' {
        c := c.(hostname := Some(o.arg));
      } else if res == 'i' {
        c := c.(iFramesIntervalSeconds := Atoi(o.arg));
      } else if res == 'n' {
        c := c.(nFrames := Atoi(o.arg));
      } else if res == 'p' {
        c := c.(port := Atoi(o.arg));
      } else if res == 's' {
        if |c.streamNames| >= MaxStreams {
          UsageIsFinal(opts, k + 1);
          return None;
        }
        c := c.(streamNames := c.streamNames + [o.arg]);
      } else if res == 'w' {
        c := c.(width := Atoi(o.arg));
      } else if res == 't' {
        c := c.(height := Atoi(o.arg));
      } else if res == 'v' {
        var codec := Atoi(o.arg);
        if codec < 0 || codec > 2 {
          UsageIsFinal(opts, k + 1);
          return None;
        }
        c := c.(codec := codec);
      } else if res == 'c' {
        var param := Atoi(o.arg);
        if param < 0 || param > 2 {
          UsageIsFinal(opts, k + 1);
          return None;
        }
        if param == ContainerDash {
          c := c.(outputFormat := Mpeg4);
        }
      } else {
        UsageIsFinal(opts, k + 1);
        return None;
      }
      k := k + 1;
    }
    assert opts[..k] == opts;
    r := Some(c);
  }

  // ---------------------------------------------------------------------------
  // The unchecked stream slots

  /** The slot streamNames[numStreams++] writes for one more -s, as written: there is no check against the four slots. */
  function StreamSlotAsWritten(c: Config): (slot: int)
    ensures slot == |c.streamNames|
  {
    |c.streamNames|
  }

  /** A fifth -s writes slot 4 of the four-slot array; the model's Step sends it to the usage text instead. */
  lemma FifthStreamOverruns(names: seq<string>, fifth: string)
    requires |names| == MaxStreams
    ensures var opts := seq(4, k requires 0 <= k < 4 => Opt('s', names[k]));
      Fold(opts).Some? && StreamSlotAsWritten(Fold(opts).value) == MaxStreams && Step(Fold(opts).value, 's', fifth).None?
  {
    var opts := seq(4, k requires 0 <= k < 4 => Opt('s', names[k]));
    UsageExactly(opts);
    assert StreamCount(opts[..0]) == 0;
    assert StreamCount(opts[..1]) == 1 by { assert opts[..1][..0] == opts[..0]; }
    assert StreamCount(opts[..2]) == 2 by { assert opts[..2][..1] == opts[..1]; }
    assert StreamCount(opts[..3]) == 3 by { assert opts[..3][..2] == opts[..2]; }
    assert StreamCount(opts) == 4 by { assert opts[..3] == opts[..|opts| - 1]; }
    forall o | o in opts
      ensures !Rejected(o)
    {
    }
  }

  /** With the slot check, every run that gets past the options names at most four streams. */
  lemma StreamsFit(opts: seq<Opt>)
    ensures Fold(opts).Some? ==> |Fold(opts).value.streamNames| <= MaxStreams
  {
    UsageExactly(opts);
  }

  // ---------------------------------------------------------------------------
  // Recording

  /** C's division of ints, which truncates toward zero; the remainder has the sign of the dividend. */
  function TruncDiv(a: int, b: int): (q: int)
    requires b != 0
    ensures var rem := a - q * b; (rem == 0 || (rem < 0 <==> a < 0)) && (if b > 0 then -b < rem < b else b < rem < -b)
  {
    if a >= 0 then (if b > 0 then a / b else -(a / -b))
    else (if b > 0 then -((-a) / b) else (-a) / (-b))
  }

  /** The max-duration parameter, nFrames / fps * 1000 in C arithmetic; None when fps is 0 (atoi of a non-numeric -f gives 0 too), where C leaves the division undefined. */
  function MaxDuration(nFrames: int, fps: int): (r: Option<int>)
    ensures r.None? <==> fps == 0
    ensures r.Some? ==> r.value % 1000 == 0
    ensures r.Some? && nFrames >= 0 && fps > 0 ==> r.value * fps <= nFrames * 1000 < (r.value + 1000) * fps
  {
    if fps == 0 then None else Some(TruncDiv(nFrames, fps) * 1000)
  }

  /** The parameter string given to the recorder. */
  function MaxDurationParameter(ms: int): (r: string)
    ensures |r| > 13 && r[..13] == "max-duration=" && Atoi(r[13..]) == ms
  {
    var r := "max-duration=" + FormatInt(ms);
    assert r[13..] == FormatInt(ms);
    AtoiFormatInt(ms);
    r
  }

  /** What snprintf leaves in a buffer of the given size: at most size - 1 characters of the text. */
  function Snprintf(size: nat, text: string): (r: string)
    requires size > 0
    ensures |r| <= size - 1 && |r| <= |text| && r == text[..|r|]
    ensures |text| < size ==> r == text
  {
    if |text| < size then text else text[..size - 1]
  }

  /** Where a stream goes: a file opened under /sdcard, or a POST to the host with the path "/<stream>". */
  datatype Target = File(path: string) | Post(host: string, port: int, path: string)

  /** The stream's target: without -a the file "/sdcard/<stream>" (128-byte buffer), with -a the path "/<stream>" (256-byte buffer). */
  function StreamTarget(c: Config, stream: string): (t: Target)
    ensures t.File? <==> c.hostname.None?
    ensures t.File? ==> |t.path| >= 8 && t.path[..8] == "/sdcard/" && (|stream| < 120 ==> t.path[8..] == stream)
    ensures t.Post? ==> t.host == c.hostname.value && t.port == c.port && |t.path| >= 1 && t.path[0] == '/'
    ensures t.Post? && |stream| < 255 ==> t.path[1..] == stream
  {
    match c.hostname
    case None => File(Snprintf(128, "/sdcard/" + stream))
    case Some(h) => Post(h, c.port, Snprintf(256, "/" + stream))
  }

  /** What one recorder is started with. */
  datatype Recording = Recording(
    camera: int,
    target: Target,
    width: int,
    height: int,
    encoder: Encoder,
    outputFormat: OutputFormat,
    frameRateFps: int,
    maxDuration: Option<int>)

  /** The recording for camera number cam, whose stream is streamNames[cam]. */
  function RecordingFor(c: Config, cam: nat): (r: Recording)
    requires cam < |c.streamNames|
    ensures r.camera == cam && r.target == StreamTarget(c, c.streamNames[cam])
    ensures r.encoder == EncoderFor(c.codec) && r.outputFormat == c.outputFormat
    ensures r.maxDuration == MaxDuration(c.nFrames, c.frameRateFps)
  {
    Recording(cam, StreamTarget(c, c.streamNames[cam]), c.width, c.height, EncoderFor(c.codec), c.outputFormat,
      c.frameRateFps, MaxDuration(c.nFrames, c.frameRateFps))
  }

  /** main's loop over the streams, from the last camera down to camera 0. */
  method StartRecorders(c: Config) returns (started: seq<Recording>)
    ensures |started| == |c.streamNames|
    ensures forall k :: 0 <= k < |started| ==> started[k] == RecordingFor(c, |c.streamNames| - 1 - k)
  {
    started := [];
    var cam := |c.streamNames| - 1;
    while cam >= 0
      invariant -1 <= cam < |c.streamNames| && |started| == |c.streamNames| - 1 - cam
      invariant forall k :: 0 <= k < |started| ==> started[k] == RecordingFor(c, |c.streamNames| - 1 - k)
    {
      started := started + [RecordingFor(c, cam)];
      cam := cam - 1;
    }
  }

  /** Every stream is started exactly once, each by the camera of its own number. */
  lemma EveryStreamStarted(c: Config, started: seq<Recording>, cam: nat)
    requires |started| == |c.streamNames|
    requires forall k :: 0 <= k < |started| ==> started[k] == RecordingFor(c, |c.streamNames| - 1 - k)
    requires cam < |c.streamNames|
    ensures exists k :: 0 <= k < |started| && started[k].camera == cam
    ensures forall k :: 0 <= k < |started| && started[k].camera == cam ==> k == |started| - 1 - cam
  {
    var k := |started| - 1 - cam;
    assert started[k].camera == cam;
  }

  // ---------------------------------------------------------------------------
  // httpPost

  /** The size of httpPost's line buffer. */
  const LineSize := 1024

  /** The request line and the Host line of the header. */
  function RequestLine(path: string): string {
    "POST " + path + " HTTP/1.1\r\n"
  }

  function HostLine(hostname: string): string {
    "Host: " + hostname + "\r\n"
  }

  /** The lines that follow: User-Agent, Content-Type and Content-Length, then the blank line. */
  const FixedLines := "User-Agent: nrcc-webcam\r\n" + "Content-Type: video/avc\r\n" + "Content-Length: 2000000000\r\n" + "\r\n"

  /** The header httpPost sends, every line ending in CRLF. */
  function PostHeader(hostname: string, path: string): string {
    RequestLine(path) + HostLine(hostname) + FixedLines
  }

  /**
   * httpPost's buffer filling: each snprintf adds its text at nchars and nchars
   * grows by its length.  None when the header does not fit in the buffer,
   * where the source goes on to write and send past its end.
   */
  method HttpPost(hostname: string, path: string) returns (line: Option<string>)
    ensures line.Some? <==> |PostHeader(hostname, path)| < LineSize
    ensures line.Some? ==> line.value == PostHeader(hostname, path)
  {
    var text := RequestLine(path);
    var nchars := |text|;
    text := text + HostLine(hostname);
    nchars := nchars + |HostLine(hostname)|;
    text := text + "User-Agent: nrcc-webcam\r\n";
    nchars := nchars + |"User-Agent: nrcc-webcam\r\n"|;
    text := text + "Content-Type: video/avc\r\n";
    nchars := nchars + |"Content-Type: video/avc\r\n"|;
    text := text + "Content-Length: 2000000000\r\n";
    nchars := nchars + |"Content-Length: 2000000000\r\n"|;
    text := text + "\r\n";
    nchars := nchars + |"\r\n"|;
    assert text == PostHeader(hostname, path);
    if nchars < LineSize {
      line := Some(text);
    } else {
      line := None;
    }
  }

  /**
   * The header's layout: 104 fixed characters around the path and the host
   * name, the request line first, the host line after it, and the fixed
   * lines, ending in the blank line, at the end.
   */
  lemma PostHeaderShape(hostname: string, path: string)
    ensures var h := PostHeader(hostname, path);
      var hostAt, fixedAt := |path| + 16, |path| + 24 + |hostname|;
      |h| == 104 + |hostname| + |path|
      && h[..hostAt] == RequestLine(path) && h[hostAt..fixedAt] == HostLine(hostname) && h[fixedAt..] == FixedLines
  {
    RequestLineShape(path);
    HostLineShape(hostname);
    FixedLinesShape();
    ConcatParts(RequestLine(path), HostLine(hostname), FixedLines);
  }

  /** The three parts of a concatenation are its slices at the parts' lengths. */
  lemma ConcatParts(a: string, b: string, c: string)
    ensures var t := a + b + c;
      t[..|a|] == a && t[|a|..|a| + |b|] == b && t[|a| + |b|..] == c
  {
  }

  /** The request line: "POST ", the path, then " HTTP/1.1" and CRLF. */
  lemma RequestLineShape(path: string)
    ensures var r := RequestLine(path);
      |r| == |path| + 16 && r[..5] == "POST " && r[5..5 + |path|] == path
  {
  }

  /** The host line: "Host: ", the host name, then CRLF. */
  lemma HostLineShape(hostname: string)
    ensures var hl := HostLine(hostname);
      |hl| == |hostname| + 8 && hl[..6] == "Host: " && hl[6..6 + |hostname|] == hostname
  {
  }

  /** The fixed lines are 80 characters and end in the blank line. */
  lemma FixedLinesShape()
    ensures |FixedLines| == 80 && FixedLines[76..] == "\r\n\r\n"
  {
  }

  // ---------------------------------------------------------------------------
  // The listener

  /** MEDIA_RECORDER_TRACK_EVENT_INFO and MEDIA_RECORDER_TRACK_INFO_COMPLETION_STATUS (mediarecorder.h, which is not part of this model). */
  const TrackEventInfo := 101
  const TrackInfoCompletionStatus := 1000

  /** notify as written: done for a track info event whose ext1 shares a bit with the completion status code. */
  predicate DoneAsWritten(msg: int, ext1: bv32) {
    msg == TrackEventInfo && ext1 & TrackInfoCompletionStatus as bv32 != 0
  }

  /** The track info codes are values, not flags: the next one, 1001, also passes the bit test. */
  lemma ProgressLooksLikeCompletion()
    ensures DoneAsWritten(TrackEventInfo, 1001)
    ensures !DoneChecked(TrackEventInfo, 1001)
  {
    assert (1001 as bv32) & (1000 as bv32) == 1000;
  }

  /**
   * The bits of ext1 below the track id: a recorder reports the track id in
   * the top four bits of ext1 and the info code in the rest.
   */
  const InfoCodeMask: bv32 := 0x0FFF_FFFF

  /** notify with the info code compared for equality: done exactly for the completion status of a track info event. */
  predicate DoneChecked(msg: int, ext1: bv32) {
    msg == TrackEventInfo && ext1 & InfoCodeMask == TrackInfoCompletionStatus as bv32
  }

  /** A completion tagged with any track id is seen by the corrected test and by the test as written. */
  lemma TaggedCompletionSeen(track: bv32)
    requires track < 16
    ensures DoneChecked(TrackEventInfo, (track << 28) | 1000)
    ensures DoneAsWritten(TrackEventInfo, (track << 28) | 1000)
  {
  }

  /** Every event the corrected test accepts also passes the bit test: the correction only removes false completions. */
  lemma DoneCheckedImpliesAsWritten(msg: int, ext1: bv32)
    ensures DoneChecked(msg, ext1) ==> DoneAsWritten(msg, ext1)
  {
    if DoneChecked(msg, ext1) {
      assert ext1 & 1000 == (ext1 & InfoCodeMask) & 1000;
    }
  }

  /** The listener's state: sDone, set by notify and never cleared. */
  class Listener {
    var done: bool

    constructor()
      ensures !done
    {
      done := false;
    }

    /** notify(msg, ext1, ext2), with its bit test as written: ext2 is only printed. */
    method Notify(msg: int, ext1: bv32, ext2: bv32)
      modifies this
      ensures done == (old(done) || DoneAsWritten(msg, ext1))
    {
      if msg == TrackEventInfo {
        if ext1 & TrackInfoCompletionStatus as bv32 != 0 {
          done := true;
        }
      }
    }
  }
}
