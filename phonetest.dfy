/**
 * The phonetest tool: the text of each RIL error code, the result check of
 * the reply handlers, the follow-up requests of the unsolicited handlers, and
 * main's choice of the single request to make.  The PhoneClient binder calls
 * are recorded as values instead of being made; getopt is represented by the
 * option characters it returns and the operands it leaves from optind on.
 */
module Phonetest {
  import opened CLib

  // ---------------------------------------------------------------------------
  // RIL errors

  /** The RIL_Errno codes with a text of their own (ril.h): RIL_E_SUCCESS is 0, RIL_E_ILLEGAL_SIM_OR_ME is 15. */
  const RilSuccess := 0
  const RilIllegalSimOrMe := 15

  /** The texts of codes 0 to 15, in code order. */
  const RilErrorTexts: seq<string> := [
    "Okay",
    "Radio not available",
    "Generic failure",
    "Password incorrect",
    "Operation requires SIM PIN2 to be entered [4]",
    "Operation requires SIM PIN2 to be entered [5]",
    "Request not supported",
    "Cancelled",
    "Operation not allowed during voice call",
    "Device needs to register in network",
    "Failed to send SMS; need retry",
    "SIM or RUIM card absent",
    "Fail to find CDMA subscription",
    "HW does not support preferred network type",
    "Command failed because recipient not on FDN list",
    "Network selection failed to due illeal SIM or ME"
  ]

  /** ril_error_to_string: the text of a listed code, "Unknown" for any other. */
  function RilErrorToString(err: int): (r: string)
    ensures RilSuccess <= err <= RilIllegalSimOrMe ==> r == RilErrorTexts[err]
    ensures r == "Okay" <==> err == RilSuccess
    ensures r == "Unknown" <==> !(RilSuccess <= err <= RilIllegalSimOrMe)
  {
    if RilSuccess <= err <= RilIllegalSimOrMe then RilErrorTexts[err] else "Unknown"
  }

  /** What checkresult reports: success, or the failure line it prints. */
  datatype Check = Check(ok: bool, report: Option<string>)

  /** checkresult(str, result): true for 0; otherwise false with "<str> failed: '<text>' (<result>)". */
  function CheckResult(what: string, result: int): (r: Check)
    ensures r.ok <==> result == 0
    ensures r.report.None? <==> r.ok
    ensures !r.ok ==> r.report.value == what + " failed: '" + RilErrorToString(result) + "' (" + FormatInt(result) + ")"
  {
    if result != 0 then Check(false, Some(what + " failed: '" + RilErrorToString(result) + "' (" + FormatInt(result) + ")"))
    else Check(true, None)
  }

  /** A failure report carries the numeric code, which reads back with atoi after the opening parenthesis. */
  lemma CheckResultCarriesCode(what: string, result: int)
    requires result != 0
    ensures var line := CheckResult(what, result).report.value;
      var at := |what| + |" failed: '"| + |RilErrorToString(result)| + |"' ("|;
      at <= |line| && Atoi(line[at..]) == result
  {
    var line := CheckResult(what, result).report.value;
    var head := what + " failed: '" + RilErrorToString(result) + "' (";
    var tail := FormatInt(result) + ")";
    assert line == head + tail;
    assert line[|head|..] == tail;
    AtoiFormatIntThen(result, ")");
  }

  // ---------------------------------------------------------------------------
  // Requests

  /** UM_ALL, the mask main registers with when following. */
  datatype Request =
    | RegisterAll
    | GetSIMStatus(token: int)
    | GetCurrentCalls(token: int)
    | Operator(token: int)
    | Dial(token: int, number: string)
    | Hangup(token: int, index: int)
    | Answer(token: int)
    | Reject(token: int)
    | VoiceRegistrationState(token: int)

  /** The unsolicited notifications MyClient handles. */
  datatype Unsolicited =
    | RadioStateChanged(state: int)
    | CallStateChanged
    | VoiceNetworkStateChanged
    | NitzTimeReceived(time: string)
    | SignalStrength(rssi: int)

  /** The requests an unsolicited handler makes in turn. */
  function FollowUp(u: Unsolicited): (r: seq<Request>)
    ensures r != [] <==> u.CallStateChanged? || u.VoiceNetworkStateChanged?
    ensures u.CallStateChanged? ==> r == [GetCurrentCalls(1000)]
    ensures u.VoiceNetworkStateChanged? ==> r == [Operator(1001), VoiceRegistrationState(1001)]
    ensures forall q :: q in r ==> q.token == (if u.CallStateChanged? then 1000 else 1001)
  {
    match u
    case CallStateChanged => [GetCurrentCalls(1000)]
    case VoiceNetworkStateChanged => [Operator(1001), VoiceRegistrationState(1001)]
    case _ => []
  }

  // ---------------------------------------------------------------------------
  // main

  /** How main ends: the usage exit, or the wait loop (forever when following, else until the replies are in). */
  datatype Ending = UsageExit | Wait(follow: bool)

  datatype Phonetest = Phonetest(requests: seq<Request>, ending: Ending)

  /** The option loop over getopt's results for "fh": -f turns on following, anything else is the usage exit. */
  function Options(opts: seq<char>): (r: Option<bool>)
    ensures r.None? <==> exists k :: 0 <= k < |opts| && opts[k] != 'f'
    ensures r.Some? ==> (r.value <==> opts != [])
  {
    if opts == [] then Some(false)
    else if opts[0] != 'f' then None
    else
      match Options(opts[1..])
      case None => None
      case Some(_) => Some(true)
  }

  /** The command words main knows, and the two that read the next operand. */
  predicate Known(w: string) {
    w == "status" || w == "current" || w == "operator" || w == "dial" || w == "hangup" || w == "answer" || w == "reject"
  }

  predicate TakesOperand(w: string) {
    w == "dial" || w == "hangup"
  }

  /** The request for the command word at operands[0], made with the given token; None is the usage exit. */
  function Command(operands: seq<string>, token: int): (r: Option<Request>)
    requires operands != []
    ensures r.None? <==> !Known(operands[0]) || (TakesOperand(operands[0]) && |operands| < 2)
    ensures r.Some? ==> !r.value.RegisterAll? && r.value.token == token
    ensures r.Some? && operands[0] == "dial" ==> r.value == Dial(token, operands[1])
    ensures r.Some? && operands[0] == "hangup" ==> r.value == Hangup(token, Atoi(operands[1]))
    ensures operands[0] == "status" ==> r == Some(GetSIMStatus(token))
    ensures operands[0] == "current" ==> r == Some(GetCurrentCalls(token))
    ensures operands[0] == "operator" ==> r == Some(Operator(token))
    ensures operands[0] == "answer" ==> r == Some(Answer(token))
    ensures operands[0] == "reject" ==> r == Some(Reject(token))
  {
    var w := operands[0];
    if w == "status" then Some(GetSIMStatus(token))
    else if w == "current" then Some(GetCurrentCalls(token))
    else if w == "operator" then Some(Operator(token))
    else if w == "dial" then (if |operands| < 2 then None else Some(Dial(token, operands[1])))
    else if w == "hangup" then (if |operands| < 2 then None else Some(Hangup(token, Atoi(operands[1]))))
    else if w == "answer" then Some(Answer(token))
    else if w == "reject" then Some(Reject(token))
    else None
  }

  /** main, given getopt's option characters and the operands from optind on. */
  function PhonetestMain(opts: seq<char>, operands: seq<string>): (r: Phonetest)
    ensures r.ending.UsageExit? <==>
      Options(opts).None? || (operands == [] && Options(opts) == Some(false))
      || (operands != [] && Command(operands, 0).None?)
    ensures |r.requests| <= 2
    ensures forall k :: 0 <= k < |r.requests| ==> r.requests[k].RegisterAll? || r.requests[k].token == 0
    ensures r.ending.Wait? ==> (r.ending.follow <==> 'f' in opts)
    ensures Options(opts).None? ==> r.requests == []
    ensures Options(opts) == Some(true) ==> r.requests != [] && r.requests[0] == RegisterAll
    ensures RegisterAll in r.requests <==> Options(opts) == Some(true)
    ensures Options(opts).Some? && operands != [] && Command(operands, 0).Some? ==>
      r == Phonetest((if Options(opts).value then [RegisterAll] else []) + [Command(operands, 0).value], Wait(Options(opts).value))
    ensures Options(opts) == Some(true) && operands == [] ==> r == Phonetest([RegisterAll], Wait(true))
  {
    match Options(opts)
    case None => Phonetest([], UsageExit)
    case Some(follow) =>
      if operands == [] && !follow then Phonetest([], UsageExit)
      else
        var registered := if follow then [RegisterAll] else [];
        if operands == [] then Phonetest(registered, Wait(follow))
        else
          match Command(operands, 0)
          case None => Phonetest(registered, UsageExit)
          case Some(q) => Phonetest(registered + [q], Wait(follow))
  }

  /** Only the first operand is a command: whatever follows an operand-free command is ignored. */
  lemma OnlyFirstOperand(opts: seq<char>, operands: seq<string>, more: seq<string>)
    requires operands != [] && Known(operands[0]) && !TakesOperand(operands[0])
    ensures PhonetestMain(opts, operands + more) == PhonetestMain(opts, operands)
  {
    assert (operands + more)[0] == operands[0];
  }

  /** Following with a command registers first, then makes the one request. */
  lemma FollowRegistersFirst(operands: seq<string>)
    requires operands != [] && Command(operands, 0).Some?
    ensures PhonetestMain(['f'], operands) == Phonetest([RegisterAll, Command(operands, 0).value], Wait(true))
  {
    assert Options(['f'][1..]) == Some(false);
  }

  /** main's getopt loop and dispatch with its mutable follow, optind and token. */
  method RunPhonetest(opts: seq<char>, operands: seq<string>) returns (requests: seq<Request>, ending: Ending)
    ensures Phonetest(requests, ending) == PhonetestMain(opts, operands)
  {
    var follow := false;
    var k := 0;
    while k < |opts|
      invariant 0 <= k <= |opts|
      invariant follow <==> k > 0
      invariant forall j :: 0 <= j < k ==> opts[j] == 'f'
    {
      if opts[k] != 'f' {
        OptionsRejects(opts, k);
        return [], UsageExit;
      }
      follow := true;
      k := k + 1;
    }
    OptionsAccepts(opts);
    requests := [];
    if |operands| == 0 && !follow {
      return [], UsageExit;
    }
    var token := 0;
    if follow {
      requests := requests + [RegisterAll];
    }
    if |operands| == 0 {
      return requests, Wait(follow);
    }
    var optind := 0;
    var w := operands[optind];
    if w == "status" {
      requests := requests + [GetSIMStatus(token)];
    } else if w == "current" {
      requests := requests + [GetCurrentCalls(token)];
    } else if w == "operator" {
      requests := requests + [Operator(token)];
    } else if w == "dial" {
      optind := optind + 1;
      if optind >= |operands| {
        return requests, UsageExit;
      }
      requests := requests + [Dial(token, operands[optind])];
    } else if w == "hangup" {
      optind := optind + 1;
      if optind >= |operands| {
        return requests, UsageExit;
      }
      requests := requests + [Hangup(token, Atoi(operands[optind]))];
    } else if w == "answer" {
      requests := requests + [Answer(token)];
    } else if w == "reject" {
      requests := requests + [Reject(token)];
    } else {
      return requests, UsageExit;
    }
    token := token + 1;
    ending := Wait(follow);
  }

  lemma {:induction false} OptionsRejects(opts: seq<char>, k: nat)
    requires k < |opts| && opts[k] != 'f'
    ensures Options(opts).None?
  {
  }

  lemma {:induction false} OptionsAccepts(opts: seq<char>)
    requires forall j :: 0 <= j < |opts| ==> opts[j] == 'f'
    ensures Options(opts) == Some(opts != [])
  {
    if opts != [] {
      OptionsAccepts(opts[1..]);
    }
  }
}
