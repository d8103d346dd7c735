/**
 * The command-line side of wifitest: the bounded comma split, the argument
 * readers (boolean, integer, string list) that fall back to the usage exit,
 * the command-sequence parser of main with its "add" station construction,
 * and the status label of the configured-stations listing.  The WifiClient
 * binder calls are recorded as values instead of being made.
 */
module Wifitest {
  import opened CLib

  // ---------------------------------------------------------------------------
  // _splitString

  /** The first occurrence of token at or after offset i, or the length when there is none. */
  function FindToken(s: string, token: char, i: nat): (j: nat)
    requires i <= |s|
    ensures i <= j <= |s|
    ensures forall k :: i <= k < j ==> s[k] != token
    ensures j < |s| ==> s[j] == token
    decreases |s| - i
  {
    if i == |s| || s[i] == token then i else FindToken(s, token, i + 1)
  }

  /**
   * The pieces the split loop pushes from offset start on, with n more pieces
   * allowed inside the loop: each is the run up to the next token; once the
   * loop has pushed its share, what is left is pushed whole unless it is empty.
   */
  function SplitFrom(s: string, token: char, start: nat, n: nat): seq<string>
    requires start <= |s|
    decreases |s| - start
  {
    if n == 0 then (if start == |s| then [] else [s[start..]])
    else
      var j := FindToken(s, token, start);
      if j == |s| then [s[start..]] else [s[start..j]] + SplitFrom(s, token, j + 1, n - 1)
  }

  /** The bound of the loop, max_values - 1 in unsigned arithmetic: 0 wraps to UINT_MAX. */
  function LoopLimit(maxValues: Uint32): nat {
    (maxValues - 1) % 0x1_0000_0000
  }

  /** _splitString(s, token, max_values): nothing for the empty string, otherwise SplitFrom. */
  function SplitString(s: string, token: char, maxValues: Uint32): (r: seq<string>)
    ensures s == [] ==> r == []
  {
    if s == [] then [] else SplitFrom(s, token, 0, LoopLimit(maxValues))
  }

  /** The loop of _splitString: start and ptr walk the string, pushing each run before a token. */
  method SplitStringLoop(s: string, token: char, maxValues: Uint32) returns (result: seq<string>)
    ensures result == SplitString(s, token, maxValues)
  {
    result := [];
    if |s| == 0 {
      return;
    }
    var limit := if maxValues == 0 then 0xFFFF_FFFF else maxValues - 1;
    var start := 0;
    var ptr := 0;
    ghost var whole := SplitString(s, token, maxValues);
    LoopLimitIs(maxValues);
    assert whole == [] + SplitFrom(s, token, 0, limit);
    ghost var left: nat := limit;
    while |result| < limit
      invariant start == ptr <= |s| && |result| <= limit && left == limit - |result|
      invariant whole == result + SplitFrom(s, token, start, left)
      decreases left
    {
      ptr := ScanToToken(s, token, start);
      PushPiece(whole, result, s, token, start, ptr, left);
      result := result + [s[start..ptr]];
      if ptr == |s| {
        assert result == whole;
        return;
      }
      left := left - 1;
      ptr := ptr + 1;
      start := ptr;
      assert whole == result + SplitFrom(s, token, start, left);
    }
    assert left == 0;
    LastPiece(whole, result, s, token, ptr);
    if ptr < |s| {
      result := result + [s[ptr..]];
    }
  }

  /** max_values - 1 computed in 32 bits. */
  lemma LoopLimitIs(maxValues: Uint32)
    ensures LoopLimit(maxValues) == if maxValues == 0 then 0xFFFF_FFFF else maxValues - 1
  {
  }

  /** After the loop: what is left, if anything, is the last piece. */
  lemma LastPiece(whole: seq<string>, result: seq<string>, s: string, token: char, ptr: nat)
    requires ptr <= |s| && whole == result + SplitFrom(s, token, ptr, 0)
    ensures ptr < |s| ==> whole == result + [s[ptr..]]
    ensures ptr == |s| ==> whole == result
  {
    if ptr == |s| {
      assert result + [] == result;
    }
  }

  /** One pass of the outer loop: the run before the token is pushed, and the split goes on after the token. */
  lemma PushPiece(whole: seq<string>, result: seq<string>, s: string, token: char, start: nat, ptr: nat, n: nat)
    requires start <= |s| && ptr == FindToken(s, token, start)
    requires n > 0 && whole == result + SplitFrom(s, token, start, n)
    ensures ptr == |s| ==> whole == result + [s[start..ptr]]
    ensures ptr < |s| ==> whole == (result + [s[start..ptr]]) + SplitFrom(s, token, ptr + 1, n - 1)
  {
    if ptr == |s| {
      assert s[start..ptr] == s[start..];
    } else {
      var after := SplitFrom(s, token, ptr + 1, n - 1);
      assert result + ([s[start..ptr]] + after) == (result + [s[start..ptr]]) + after;
    }
  }

  /** The inner loop of _splitString: ptr moves to the next token or to the terminator. */
  method ScanToToken(s: string, token: char, start: nat) returns (ptr: nat)
    requires start <= |s|
    ensures ptr == FindToken(s, token, start)
  {
    ptr := start;
    while ptr < |s| && s[ptr] != token
      invariant start <= ptr <= |s| && FindToken(s, token, ptr) == FindToken(s, token, start)
    {
      ptr := ptr + 1;
    }
  }

  /** The first token from i on is at j when no token comes before j and j holds one (or is the end). */
  lemma FindTokenIs(s: string, token: char, i: nat, j: nat)
    requires i <= j <= |s| && (forall k :: i <= k < j ==> s[k] != token) && (j < |s| ==> s[j] == token)
    ensures FindToken(s, token, i) == j
  {
    var f := FindToken(s, token, i);
    assert f <= j;
  }

  /** At most n + 1 pieces from SplitFrom, so at most max_values pieces for max_values >= 1. */
  lemma {:induction false} SplitFromCount(s: string, token: char, start: nat, n: nat)
    requires start <= |s|
    ensures |SplitFrom(s, token, start, n)| <= n + 1
    decreases |s| - start
  {
    if n > 0 {
      var j := FindToken(s, token, start);
      if j < |s| {
        SplitFromCount(s, token, j + 1, n - 1);
      }
    }
  }

  lemma SplitStringCount(s: string, token: char, maxValues: Uint32)
    requires maxValues >= 1
    ensures |SplitString(s, token, maxValues)| <= maxValues
  {
    if s != [] {
      SplitFromCount(s, token, 0, LoopLimit(maxValues));
    }
  }

  /** Every piece but the last is a token-free run. */
  lemma {:induction false} SplitFromTokenFree(s: string, token: char, start: nat, n: nat)
    requires start <= |s|
    ensures forall i :: 0 <= i < |SplitFrom(s, token, start, n)| - 1 ==> token !in SplitFrom(s, token, start, n)[i]
    decreases |s| - start
  {
    if n > 0 {
      var j := FindToken(s, token, start);
      if j < |s| {
        var tail := SplitFrom(s, token, j + 1, n - 1);
        SplitFromTokenFree(s, token, j + 1, n - 1);
        var r := [s[start..j]] + tail;
        forall i | 0 <= i < |r| - 1
          ensures token !in r[i]
        {
          if i > 0 {
            assert r[i] == tail[i - 1];
          } else {
            var piece := s[start..j];
            assert r[0] == piece;
            assert forall k :: 0 <= k < |piece| ==> piece[k] == s[start + k];
            assert token !in piece;
          }
        }
      }
    }
  }

  lemma SplitStringTokenFree(s: string, token: char, maxValues: Uint32)
    ensures forall i :: 0 <= i < |SplitString(s, token, maxValues)| - 1 ==> token !in SplitString(s, token, maxValues)[i]
  {
    if s != [] {
      SplitFromTokenFree(s, token, 0, LoopLimit(maxValues));
    }
  }

  /** The pieces joined back with the token. */
  function Join(pieces: seq<string>, token: char): string {
    if pieces == [] then []
    else if |pieces| == 1 then pieces[0]
    else pieces[0] + [token] + Join(pieces[1..], token)
  }

  /** Joining the pieces gives back the string, except that a final token with nothing after it is dropped. */
  predicate JoinsBack(pieces: seq<string>, token: char, rest: string) {
    Join(pieces, token) == rest || Join(pieces, token) + [token] == rest
  }

  lemma {:induction false} SplitFromJoin(s: string, token: char, start: nat, n: nat)
    requires start <= |s|
    ensures JoinsBack(SplitFrom(s, token, start, n), token, s[start..])
    decreases |s| - start
  {
    var j := SplitFromCases(s, token, start, n);
    if j < |s| {
      SplitFromJoin(s, token, j + 1, n - 1);
      SplitFromJoinStep(s, token, start, n, j);
    }
  }

  /** The step of SplitFromJoin at a found token: the pieces after it join back to what follows it. */
  lemma SplitFromJoinStep(s: string, token: char, start: nat, n: nat, j: nat)
    requires start <= j < |s| && n > 0 && j == FindToken(s, token, start)
    requires JoinsBack(SplitFrom(s, token, j + 1, n - 1), token, s[j + 1..])
    ensures JoinsBack(SplitFrom(s, token, start, n), token, s[start..])
  {
    SplitFromUnfold(s, token, start, n, j);
    JoinStep(s[start..j], SplitFrom(s, token, j + 1, n - 1), token, s[j + 1..]);
  }

  /** Either SplitFrom finds a token at j and goes on after it, or the rest of the string is its last piece, if any. */
  lemma SplitFromCases(s: string, token: char, start: nat, n: nat) returns (j: nat)
    requires start <= |s|
    ensures start <= j <= |s|
    ensures j < |s| ==> n > 0 && j == FindToken(s, token, start)
    ensures j == |s| ==> JoinsBack(SplitFrom(s, token, start, n), token, s[start..])
  {
    j := if n > 0 then FindToken(s, token, start) else |s|;
    if j == |s| {
      SplitFromLast(s, token, start, n);
    }
  }

  /** With no token left, or no more pieces allowed, the rest is pushed whole unless it is empty. */
  lemma SplitFromLast(s: string, token: char, start: nat, n: nat)
    requires start <= |s| && (n == 0 || FindToken(s, token, start) == |s|)
    ensures SplitFrom(s, token, start, n) == (if start == |s| && n == 0 then [] else [s[start..]])
    ensures JoinsBack(SplitFrom(s, token, start, n), token, s[start..])
  {
    if start == |s| {
      assert s[start..] == [];
    }
  }

  /** When the token is found at j, the pieces are the run before it followed by the pieces after it. */
  lemma SplitFromUnfold(s: string, token: char, start: nat, n: nat, j: nat)
    requires start <= j < |s| && n > 0 && j == FindToken(s, token, start)
    ensures SplitFrom(s, token, start, n) == [s[start..j]] + SplitFrom(s, token, j + 1, n - 1)
    ensures s[start..] == s[start..j] + [token] + s[j + 1..]
    ensures SplitFrom(s, token, j + 1, n - 1) == [] ==> s[j + 1..] == []
  {
    SplitFromEmpty(s, token, j + 1, n - 1);
  }

  /** SplitFrom has no pieces only when nothing is left of the string. */
  lemma SplitFromEmpty(s: string, token: char, start: nat, n: nat)
    requires start <= |s|
    ensures SplitFrom(s, token, start, n) == [] ==> s[start..] == []
  {
  }

  /** One step of SplitFromJoin: a piece and its token in front of the rest. */
  lemma JoinStep(piece: string, tail: seq<string>, token: char, rest: string)
    requires JoinsBack(tail, token, rest)
    requires tail == [] ==> rest == []
    ensures JoinsBack([piece] + tail, token, piece + [token] + rest)
  {
    if tail == [] {
      assert [piece] + tail == [piece];
    } else {
      JoinCons(piece, tail, token);
    }
  }

  lemma JoinCons(piece: string, tail: seq<string>, token: char)
    requires tail != []
    ensures Join([piece] + tail, token) == piece + [token] + Join(tail, token)
  {
    assert ([piece] + tail)[1..] == tail;
  }

  lemma SplitStringJoin(s: string, token: char, maxValues: Uint32)
    ensures JoinsBack(SplitString(s, token, maxValues), token, s)
  {
    if s != [] {
      SplitFromJoin(s, token, 0, LoopLimit(maxValues));
      assert s[0..] == s;
    }
  }

  /** "a,b,c" splits into "a" and the remainder "b,c"; "a," loses its empty remainder. */
  lemma SplitExamples()
    ensures SplitString("a,b,c", ',', 2) == ["a", "b,c"]
    ensures SplitString("a,", ',', 2) == ["a"]
  {
    FindTokenIs("a,b,c", ',', 0, 1);
    assert "a,b,c"[0..1] == "a" && "a,b,c"[2..] == "b,c";
    FindTokenIs("a,", ',', 0, 1);
    assert "a,"[0..1] == "a";
  }

  // ---------------------------------------------------------------------------
  // Argument readers

  /** An argument reader either yields a value or ends in the usage exit for a missing argument. */
  datatype Arg<T> = Usage | Value(v: T)

  /** The words getBoolean takes for true. */
  predicate TrueWord(a: string) {
    StrCaseEq(a, "on") || StrCaseEq(a, "true") || At(a, 0) == '1'
  }

  /** getBoolean: usage when the argument is missing, else whether it is a true word. */
  function GetBoolean(index: nat, args: seq<string>): (r: Arg<bool>)
    ensures r.Usage? <==> index >= |args|
    ensures r.Value? ==> (r.v <==> TrueWord(args[index]))
  {
    if index >= |args| then Usage else Value(TrueWord(args[index]))
  }

  /** Case does not matter for on/true, any text starting with '1' is true, everything else is false. */
  lemma BooleanWords()
    ensures TrueWord("ON") && TrueWord("True") && TrueWord("1") && TrueWord("10")
    ensures !TrueWord("off") && !TrueWord("false") && !TrueWord("0") && !TrueWord("") && !TrueWord("yes")
  {
    assert ToLower('O') == 'o' && ToLower('N') == 'n' && ToLower('T') == 't';
    assert !StrCaseEq("off", "on") by { assert |"off"| != |"on"|; }
    assert !StrCaseEq("false", "true") by { assert ToLower("false"[0]) != ToLower("true"[0]); }
    assert !StrCaseEq("yes", "on") by { assert |"yes"| != |"on"|; }
  }

  /** getInt: usage when the argument is missing, else atoi of it. */
  function GetInt(index: nat, args: seq<string>): (r: Arg<int>)
    ensures r.Usage? <==> index >= |args|
    ensures r.Value? ==> r.v == Atoi(args[index])
  {
    if index >= |args| then Usage else Value(Atoi(args[index]))
  }

  /** A network id printed with "%d" is read back by getInt. */
  lemma GetIntReadsPrinted(index: nat, args: seq<string>, n: int)
    requires index < |args| && args[index] == FormatInt(n)
    ensures GetInt(index, args) == Value(n)
  {
    AtoiFormatInt(n);
  }

  /** getStrings: usage when the argument is missing, else its split at ',' into at most two pieces. */
  function GetStrings(index: nat, args: seq<string>): (r: Arg<seq<string>>)
    ensures r.Usage? <==> index >= |args|
    ensures r.Value? ==> |r.v| <= 2 && (r.v == [] <==> args[index] == [])
    ensures r.Value? ==> r.v == SplitString(args[index], ',', 2)
  {
    if index >= |args| then Usage
    else
      SplitStringCount(args[index], ',', 2);
      Value(SplitString(args[index], ',', 2))
  }

  // ---------------------------------------------------------------------------
  // The command sequence

  /** ConfiguredStation::Status. */
  const StatusCurrent := 0
  const StatusDisabled := 1
  const StatusEnabled := 2

  /** The Status column of the configured-stations listing. */
  function StatusLabel(status: int): (r: string)
    ensures r == "Current" <==> status == StatusCurrent
    ensures r == "Enabled" <==> status == StatusEnabled
    ensures r == "Current" || r == "Enabled" || r == "Disabled"
  {
    if status == StatusCurrent then "Current" else if status == StatusEnabled then "Enabled" else "Disabled"
  }

  /** The station "add" hands to AddOrUpdateNetwork. */
  datatype Station = Station(ssid: string, keyMgmt: string, preSharedKey: string)

  /** The WifiClient requests main makes, in order. */
  datatype WifiCall =
    | Register
    | SetEnabled(on: bool)
    | StartScan(active: bool)
    | EnableRssiPolling(on: bool)
    | EnableBackgroundScan(on: bool)
    | AddOrUpdateNetwork(station: Station)
    | RemoveNetwork(id: int)
    | EnableNetwork(id: int)
    | SelectNetwork(id: int)
    | DisableNetwork(id: int)
    | Reconnect
    | Disconnect
    | Reassociate

  /** How the command sequence ends: all read, the usage exit, or "add" with an empty argument (slist[0] of an empty list). */
  datatype Ending = Finished | UsageExit | EmptyAdd

  /** The commands that read the next argument. */
  predicate TakesArgument(w: string) {
    w == "driver" || w == "polling" || w == "background" || w == "add"
      || w == "remove" || w == "enable" || w == "select" || w == "disable"
  }

  predicate Known(w: string) {
    TakesArgument(w) || w == "monitor" || w == "scan" || w == "activescan"
      || w == "reconnect" || w == "disconnect" || w == "reassociate"
  }

  /** The station of "add": the first piece is the SSID; a second piece makes it WPA-PSK with that key. */
  function AddStation(pieces: seq<string>): (r: Option<Station>)
    ensures r.None? <==> pieces == []
    ensures r.Some? ==> r.value.ssid == pieces[0]
    ensures r.Some? ==> (r.value.keyMgmt == "WPA-PSK" <==> |pieces| >= 2)
    ensures r.Some? && |pieces| >= 2 ==> r.value.preSharedKey == pieces[1]
    ensures r.Some? && |pieces| < 2 ==> r.value.keyMgmt == "NONE" && r.value.preSharedKey == ""
  {
    if pieces == [] then None
    else if |pieces| >= 2 then Some(Station(pieces[0], "WPA-PSK", pieces[1]))
    else Some(Station(pieces[0], "NONE", ""))
  }

  /** One iteration of main's loop over argv: the request it makes, whether it turns on following, and the next index. */
  datatype Outcome = Next(calls: seq<WifiCall>, follow: bool, next: nat) | Stop(ending: Ending)

  function Command(args: seq<string>, i: nat): (r: Outcome)
    requires i < |args|
    ensures r.Next? ==> r.next == i + (if TakesArgument(args[i]) then 2 else 1) && r.next <= |args| && |r.calls| == 1
    ensures r.Next? ==> (r.follow <==> args[i] == "monitor")
    ensures r == Stop(UsageExit) <==> !Known(args[i]) || (TakesArgument(args[i]) && i + 1 >= |args|)
    ensures r == Stop(EmptyAdd) <==> args[i] == "add" && i + 1 < |args| && args[i + 1] == []
    ensures r != Stop(Finished)
    ensures args[i] == "monitor" ==> r == Next([Register], true, i + 1)
    ensures args[i] == "scan" ==> r == Next([StartScan(false)], false, i + 1)
    ensures args[i] == "activescan" ==> r == Next([StartScan(true)], false, i + 1)
    ensures args[i] == "reconnect" ==> r == Next([Reconnect], false, i + 1)
    ensures args[i] == "disconnect" ==> r == Next([Disconnect], false, i + 1)
    ensures args[i] == "reassociate" ==> r == Next([Reassociate], false, i + 1)
    ensures i + 1 < |args| && args[i] == "driver" ==> r == Next([SetEnabled(TrueWord(args[i + 1]))], false, i + 2)
    ensures i + 1 < |args| && args[i] == "polling" ==> r == Next([EnableRssiPolling(TrueWord(args[i + 1]))], false, i + 2)
    ensures i + 1 < |args| && args[i] == "background" ==> r == Next([EnableBackgroundScan(TrueWord(args[i + 1]))], false, i + 2)
    ensures i + 1 < |args| && args[i] == "remove" ==> r == Next([RemoveNetwork(Atoi(args[i + 1]))], false, i + 2)
    ensures i + 1 < |args| && args[i] == "enable" ==> r == Next([EnableNetwork(Atoi(args[i + 1]))], false, i + 2)
    ensures i + 1 < |args| && args[i] == "select" ==> r == Next([SelectNetwork(Atoi(args[i + 1]))], false, i + 2)
    ensures i + 1 < |args| && args[i] == "disable" ==> r == Next([DisableNetwork(Atoi(args[i + 1]))], false, i + 2)
    ensures i + 1 < |args| && args[i] == "add" && args[i + 1] != [] ==>
      r.Next? && r.calls[0].AddOrUpdateNetwork? && Some(r.calls[0].station) == AddStation(SplitString(args[i + 1], ',', 2))
  {
    var w := args[i];
    if w == "monitor" then Next([Register], true, i + 1)
    else if w == "scan" then Next([StartScan(false)], false, i + 1)
    else if w == "activescan" then Next([StartScan(true)], false, i + 1)
    else if w == "reconnect" then Next([Reconnect], false, i + 1)
    else if w == "disconnect" then Next([Disconnect], false, i + 1)
    else if w == "reassociate" then Next([Reassociate], false, i + 1)
    else if !TakesArgument(w) then Stop(UsageExit)
    else if w == "add" then
      match GetStrings(i + 1, args)
      case Usage => Stop(UsageExit)
      case Value(pieces) =>
        (match AddStation(pieces)
         case None => Stop(EmptyAdd)
         case Some(st) => Next([AddOrUpdateNetwork(st)], false, i + 2))
    else if w == "driver" || w == "polling" || w == "background" then
      match GetBoolean(i + 1, args)
      case Usage => Stop(UsageExit)
      case Value(b) =>
        Next([if w == "driver" then SetEnabled(b) else if w == "polling" then EnableRssiPolling(b) else EnableBackgroundScan(b)],
             false, i + 2)
    else
      match GetInt(i + 1, args)
      case Usage => Stop(UsageExit)
      case Value(n) =>
        Next([if w == "remove" then RemoveNetwork(n) else if w == "enable" then EnableNetwork(n)
              else if w == "select" then SelectNetwork(n) else DisableNetwork(n)], false, i + 2)
  }

  /**
   * What main does from argv[i] on: the requests, main's follow flag as the
   * words before the end left it, and how it ends.  The flag only leads to the
   * event wait when the ending is Finished; a usage ending exits first.
   */
  datatype Run = Run(calls: seq<WifiCall>, follow: bool, ending: Ending)

  function Interpret(args: seq<string>, i: nat): (r: Run)
    requires i <= |args|
    ensures |r.calls| <= |args| - i
    decreases |args| - i
  {
    if i == |args| then Run([], false, Finished)
    else
      match Command(args, i)
      case Stop(e) => Run([], false, e)
      case Next(c, f, n) =>
        var r := Interpret(args, n);
        Run(c + r.calls, f || r.follow, r.ending)
  }

  /** A command word with all the arguments it reads and nothing more: it goes on to the end of its own words. */
  predicate WholeCommand(cmd: seq<string>) {
    |cmd| > 0 && Command(cmd, 0).Next? && Command(cmd, 0).next == |cmd|
  }

  function Concat(cmds: seq<seq<string>>): seq<string> {
    if cmds == [] then [] else cmds[0] + Concat(cmds[1..])
  }

  /** The requests of whole commands, each interpreted on its own, in order. */
  function CommandCalls(cmds: seq<seq<string>>): seq<WifiCall>
    requires forall k :: 0 <= k < |cmds| ==> WholeCommand(cmds[k])
  {
    if cmds == [] then []
    else
      assert WholeCommand(cmds[0]);
      Command(cmds[0], 0).calls + CommandCalls(cmds[1..])
  }

  /** Whether any of the whole commands is "monitor". */
  function CommandsFollow(cmds: seq<seq<string>>): bool
    requires forall k :: 0 <= k < |cmds| ==> WholeCommand(cmds[k])
  {
    if cmds == [] then false
    else
      assert WholeCommand(cmds[0]);
      Command(cmds[0], 0).follow || CommandsFollow(cmds[1..])
  }

  /** A command reads only its own words: placed anywhere in argv, it does what it does alone. */
  lemma CommandInPlace(args: seq<string>, j: nat, cmd: seq<string>)
    requires WholeCommand(cmd) && j + |cmd| <= |args| && args[j..j + |cmd|] == cmd
    ensures Command(args, j) == Next(Command(cmd, 0).calls, Command(cmd, 0).follow, j + |cmd|)
  {
    assert args[j] == cmd[0];
    if |cmd| == 2 {
      assert args[j + 1] == cmd[1];
      assert GetStrings(j + 1, args) == GetStrings(1, cmd);
      assert GetBoolean(j + 1, args) == GetBoolean(1, cmd);
      assert GetInt(j + 1, args) == GetInt(1, cmd);
    }
  }

  /**
   * argv made of whole commands after any prefix: the run finishes, makes the
   * requests of each command in turn and follows when one of them is "monitor".
   */
  lemma {:induction false} InterpretCommands(prefix: seq<string>, cmds: seq<seq<string>>)
    requires forall k :: 0 <= k < |cmds| ==> WholeCommand(cmds[k])
    ensures Interpret(prefix + Concat(cmds), |prefix|) == Run(CommandCalls(cmds), CommandsFollow(cmds), Finished)
    decreases |cmds|
  {
    var args := prefix + Concat(cmds);
    if cmds == [] {
      assert args == prefix;
    } else {
      var cmd := cmds[0];
      assert args == (prefix + cmd) + Concat(cmds[1..]);
      assert args[|prefix|..|prefix| + |cmd|] == cmd;
      CommandInPlace(args, |prefix|, cmd);
      InterpretNext(args, |prefix|, Command(cmd, 0).calls, Command(cmd, 0).follow, |prefix + cmd|);
      InterpretCommands(prefix + cmd, cmds[1..]);
    }
  }

  /** One command of the run: its requests come first, then those of the rest of argv. */
  lemma InterpretNext(args: seq<string>, i: nat, c: seq<WifiCall>, f: bool, n: nat)
    requires i < |args| && Command(args, i) == Next(c, f, n)
    ensures n <= |args|
    ensures Interpret(args, i) == Run(c + Interpret(args, n).calls, f || Interpret(args, n).follow, Interpret(args, n).ending)
  {
  }

  /** main: with no command it registers for everything and follows; otherwise it walks argv from index 1. */
  function WifiMain(args: seq<string>): Run {
    if |args| == 1 then Run([Register], true, Finished)
    else if |args| == 0 then Run([], false, Finished)
    else Interpret(args, 1)
  }

  /** main's loop over argv with its mutable index. */
  method ParseCommands(args: seq<string>) returns (calls: seq<WifiCall>, follow: bool, ending: Ending)
    ensures Run(calls, follow, ending) == WifiMain(args)
  {
    if |args| == 1 {
      return [Register], true, Finished;
    }
    calls, follow, ending := [], false, Finished;
    if |args| == 0 {
      return;
    }
    var i := 1;
    while i < |args|
      invariant 1 <= i <= |args|
      invariant var r := Interpret(args, i); WifiMain(args) == Run(calls + r.calls, follow || r.follow, r.ending)
      decreases |args| - i
    {
      match Command(args, i) {
        case Stop(e) =>
          assert calls + [] == calls;
          return calls, follow, e;
        case Next(c, f, n) =>
          InterpretNext(args, i, c, f, n);
          assert calls + (c + Interpret(args, n).calls) == (calls + c) + Interpret(args, n).calls;
          calls := calls + c;
          follow := follow || f;
          i := n;
      }
    }
    assert calls + [] == calls;
  }

  /** A command word nobody knows ends the run in the usage exit, after the requests before it. */
  lemma UnknownWordExits(args: seq<string>, i: nat)
    requires i < |args| && !Known(args[i])
    ensures Interpret(args, i) == Run([], false, UsageExit)
  {
  }

  /** "add SSID,KEY" adds a WPA-PSK station; the key keeps any further commas. */
  lemma AddWithKey(args: seq<string>, i: nat, ssid: string, key: string)
    requires i + 1 < |args| && args[i] == "add" && args[i + 1] == ssid + "," + key
    requires ',' !in ssid && key != []
    ensures Command(args, i) == Next([AddOrUpdateNetwork(Station(ssid, "WPA-PSK", key))], false, i + 2)
  {
    var s := args[i + 1];
    FindTokenIs(s, ',', 0, |ssid|);
    assert s[0..|ssid|] == ssid && s[|ssid| + 1..] == key;
    assert SplitFrom(s, ',', |ssid| + 1, 0) == [key];
    assert SplitString(s, ',', 2) == [ssid, key];
  }

  /** "add SSID" without a comma adds an open station. */
  lemma AddOpen(args: seq<string>, i: nat, ssid: string)
    requires i + 1 < |args| && args[i] == "add" && args[i + 1] == ssid
    requires ',' !in ssid && ssid != []
    ensures Command(args, i) == Next([AddOrUpdateNetwork(Station(ssid, "NONE", ""))], false, i + 2)
  {
    FindTokenIs(ssid, ',', 0, |ssid|);
    assert ssid[0..] == ssid;
  }
}
