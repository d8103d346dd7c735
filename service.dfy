/**
 * The message side of service.cpp: the scans of the signal, method and
 * error-name tables, the outcome of the two message filters, the result codes
 * the asynchronous reply callbacks compute, and the subscription of the match
 * rules at start-up and shut-down.
 */
module Service {
  import opened CLib
  import opened BtConst
  import opened BlueProp
  import opened BtProps

  // ---------------------------------------------------------------------------
  // Table scans

  predicate SigMatches(d: SigDef, iface: string, member: string) {
    d.group == iface && d.name == member
  }

  /** The first row matching (iface, member), or the number of rows when none does. */
  function FirstSig(entries: seq<SigDef>, iface: string, member: string, i: nat): (k: nat)
    requires i <= |entries|
    ensures i <= k <= |entries|
    ensures forall j :: i <= j < k ==> !SigMatches(entries[j], iface, member)
    ensures k < |entries| ==> SigMatches(entries[k], iface, member)
    decreases |entries| - i
  {
    if i == |entries| || SigMatches(entries[i], iface, member) then i
    else FirstSig(entries, iface, member, i + 1)
  }

  /** The value of the first matching row, or the terminator's value. */
  function SigValue(t: SigTable, iface: string, member: string): int {
    var k := FirstSig(t.entries, iface, member, 0);
    if k < |t.entries| then t.entries[k].value else t.terminator
  }

  /** What findsignal computes: "not a signal" for any other message type, else the table value. */
  function SignalValue(t: SigTable, msg: Message): int {
    if msg.mtype != Signal then BsigNotSignal else SigValue(t, msg.iface, msg.member)
  }

  /** What findmethod computes: "not a signal" for anything but a method call, else the table value. */
  function MethodValue(t: SigTable, msg: Message): int {
    if msg.mtype != MethodCall then BsigNotSignal else SigValue(t, msg.iface, msg.member)
  }

  /** The pointer walk shared by findsignal and findmethod: stop at the first match or at the terminator. */
  method ScanTable(t: SigTable, iface: string, member: string) returns (r: int)
    ensures r == SigValue(t, iface, member)
  {
    var i := 0;
    while i < |t.entries| && !SigMatches(t.entries[i], iface, member)
      invariant 0 <= i <= |t.entries|
      invariant FirstSig(t.entries, iface, member, 0) == FirstSig(t.entries, iface, member, i)
    {
      i := i + 1;
    }
    r := if i < |t.entries| then t.entries[i].value else t.terminator;
  }

  /** findsignal: BSIG_NOT_SIGNAL for a message that is not a signal, else the first matching row's value. */
  method FindSignal(t: SigTable, msg: Message) returns (r: int)
    ensures r == SignalValue(t, msg)
  {
    if msg.mtype != Signal {
      return BsigNotSignal;
    }
    r := ScanTable(t, msg.iface, msg.member);
  }

  /** findmethod: BSIG_NOT_SIGNAL for a message that is not a method call, else the first matching row's value. */
  method FindMethod(t: SigTable, msg: Message) returns (r: int)
    ensures r == MethodValue(t, msg)
  {
    if msg.mtype != MethodCall {
      return BsigNotSignal;
    }
    r := ScanTable(t, msg.iface, msg.member);
  }

  /** No two rows of a table name the same (interface, member) pair. */
  predicate DistinctRows(entries: seq<SigDef>) {
    forall i, j :: 0 <= i < j < |entries| ==>
      entries[i].group != entries[j].group || entries[i].name != entries[j].name
  }

  /** In a table without repeated pairs the first match is the only match: each row's pair yields its own value. */
  lemma RowFound(t: SigTable, k: nat)
    requires DistinctRows(t.entries) && k < |t.entries|
    ensures SigValue(t, t.entries[k].group, t.entries[k].name) == t.entries[k].value
  {
    var f := FirstSig(t.entries, t.entries[k].group, t.entries[k].name, 0);
    assert f <= k;
  }

  lemma SignalRowsDistinct()
    ensures DistinctRows(SigItems)
  {
  }

  lemma MethodRowsDistinct()
    ensures DistinctRows(MethItems)
  {
  }

  /**
   * findsignal over the signal table never yields the "not a signal" value
   * for a signal: it yields a row value 1..15 or the terminator -1.
   */
  lemma SignalValueRange(msg: Message)
    requires msg.mtype == Signal
    ensures var v := SignalValue(SignalTable, msg);
      v == -1 || BsigAdapterDeviceFound <= v <= BsigAudioPropertyChanged
  {
    EnumerationFollowsRows();
  }

  /** findmethod over the method table yields a method value 16..25 or the terminator -1. */
  lemma MethodValueRange(msg: Message)
    requires msg.mtype == MethodCall
    ensures var v := MethodValue(MethodTable, msg);
      v == -1 || BmethAgentCancel <= v <= BmethRelease
  {
    EnumerationFollowsRows();
  }

  predicate KeyMatches(e: CharMapEntry, name: string) {
    e.key == name
  }

  /** The first entry whose key equals name, or the number of entries when none does. */
  function FirstKey(entries: seq<CharMapEntry>, name: string, i: nat): (k: nat)
    requires i <= |entries|
    ensures i <= k <= |entries|
    ensures forall j :: i <= j < k ==> !KeyMatches(entries[j], name)
    ensures k < |entries| ==> KeyMatches(entries[k], name)
    decreases |entries| - i
  {
    if i == |entries| || KeyMatches(entries[i], name) then i
    else FirstKey(entries, name, i + 1)
  }

  /** The value of the first entry whose key is name (strcmp equal), or the terminator's value. */
  function MapValue(m: CharMap, name: string): int {
    var k := FirstKey(m.entries, name, 0);
    if k < |m.entries| then m.entries[k].value else m.terminator
  }

  /** lookupmap: walks the entries until a key equals name or the terminator is reached. */
  method LookupMap(m: CharMap, name: string) returns (r: int)
    ensures r == MapValue(m, name)
  {
    var i := 0;
    while i < |m.entries| && m.entries[i].key != name
      invariant 0 <= i <= |m.entries|
      invariant FirstKey(m.entries, name, 0) == FirstKey(m.entries, name, i)
    {
      i := i + 1;
    }
    r := if i < |m.entries| then m.entries[i].value else m.terminator;
  }

  predicate DistinctKeys(entries: seq<CharMapEntry>) {
    forall i, j :: 0 <= i < j < |entries| ==> entries[i].key != entries[j].key
  }

  /** With distinct keys, each key maps to its own entry's value. */
  lemma KeyFound(m: CharMap, k: nat)
    requires DistinctKeys(m.entries) && k < |m.entries|
    ensures MapValue(m, m.entries[k].key) == m.entries[k].value
  {
    var f := FirstKey(m.entries, m.entries[k].key, 0);
    assert f <= k;
  }

  /** A name that is no key gets the terminator's value. */
  lemma KeyMissing(m: CharMap, name: string)
    requires forall j :: 0 <= j < |m.entries| ==> m.entries[j].key != name
    ensures MapValue(m, name) == m.terminator
  {
  }

  /**
   * When no two entries share a value and the terminator's value is no
   * entry's, a value identifies the key it came from.
   */
  lemma MapValueIdentifiesKey(m: CharMap, k: nat, name: string)
    requires k < |m.entries|
    requires forall i, j :: 0 <= i < j < |m.entries| ==> m.entries[i].value != m.entries[j].value
    requires forall j :: 0 <= j < |m.entries| ==> m.entries[j].value != m.terminator
    ensures MapValue(m, name) == m.entries[k].value ==> FirstKey(m.entries, name, 0) == k
  {
  }

  /** Keys made of one prefix and distinct suffixes are distinct. */
  lemma DistinctAfterPrefix(entries: seq<CharMapEntry>, p: string, suffixes: seq<string>)
    requires |entries| == |suffixes|
    requires forall i :: 0 <= i < |entries| ==> entries[i].key == p + suffixes[i]
    requires forall i, j :: 0 <= i < j < |suffixes| ==> suffixes[i] != suffixes[j]
    ensures DistinctKeys(entries)
  {
    forall i, j | 0 <= i < j < |entries|
      ensures entries[i].key != entries[j].key
    {
      assert (p + suffixes[i])[|p|..] == suffixes[i];
      assert (p + suffixes[j])[|p|..] == suffixes[j];
    }
  }

  lemma BondKeysDistinct()
    ensures DistinctKeys(BondMap.entries)
  {
    DistinctAfterPrefix(BondMap.entries, BluezBaseIfc, [".Error.AuthenticationFailed", ".Error.AuthenticationRejected",
      ".Error.AuthenticationCanceled", ".Error.ConnectionAttemptFailed", ".Error.AlreadyExists", ".Error.InProgress",
      ".Error.RepeatedAttempts", ".Error.AuthenticationTimeout"]);
  }

  /** Every error map names each error once. */
  lemma ErrorMapsHaveDistinctKeys()
    ensures DistinctKeys(BondMap.entries)
    ensures DistinctKeys(InputConnectMap.entries)
    ensures DistinctKeys(PanConnectMap.entries)
    ensures DistinctKeys(HealthMap.entries)
  {
    BondKeysDistinct();
    DistinctAfterPrefix(InputConnectMap.entries, BluezErrorIfc, [".ConnectionAttemptFailed", ".AlreadyConnected", ".Failed"]);
    DistinctAfterPrefix(PanConnectMap.entries, BluezErrorIfc, [".ConnectionAttemptFailed", ".Failed"]);
    DistinctAfterPrefix(HealthMap.entries, BluezErrorIfc, [".InvalidArgs", ".HealthError", ".NotFound", ".NotAllowed"]);
  }

  // ---------------------------------------------------------------------------
  // Message filters

  datatype HandlerResult = Handled | NotYetHandled

  /** What a filter tells libdbus, and whether event_filter went through its failure exit. */
  datatype FilterOutcome = FilterOutcome(result: HandlerResult, failed: bool)

  /**
   * event_filter: classifies the message with findsignal over the signal table,
   * checks the arguments each signal needs, and declines only what is not a
   * signal; malformed and unknown signals are logged and still reported as
   * handled.
   */
  function EventFilter(msg: Message): (r: FilterOutcome)
    ensures r.result == NotYetHandled <==> msg.mtype != Signal
    ensures r.result == NotYetHandled ==> !r.failed
    ensures msg.mtype == Signal && SignalValue(SignalTable, msg) == -1 ==> r.failed
  {
    var sig := SignalValue(SignalTable, msg);
    if sig == BsigNotSignal then
      if msg.mtype == Signal then
        SignalValueRange(msg);
        assert false;
        FilterOutcome(NotYetHandled, false)
      else
        FilterOutcome(NotYetHandled, false)
    else
      var ok :=
        if sig == BsigAdapterDeviceFound then
          |msg.args| >= 2 && ParsePropertiesSpec(map[], msg.args[1]).0 == 0
        else if sig == BsigAdapterDeviceDisappeared || sig == BsigNetworkDeviceDisconnected then
          ArgsHave(msg.args, [TString])
        else if sig == BsigAdapterDeviceCreated || sig == BsigAdapterDeviceRemoved
             || sig == BsigHealthDeviceChannelConnected || sig == BsigHealthDeviceChannelDeleted then
          ArgsHave(msg.args, [TObjectPath])
        else if sig == BsigAdapterPropertyChanged || sig == BsigDevicePropertyChanged
             || sig == BsigInputDevicePropertyChanged || sig == BsigPanDevicePropertyChanged
             || sig == BsigHealthDevicePropertyChanged then
          ParsePropertyChange(map[], msg.args).0 == 0
        else if sig == BsigNetworkDeviceConnected then
          ArgsHave(msg.args, [TString, TString, TUint16])
        else
          sig == BsigDeviceDisconnectRequested || sig == BsigAudioPropertyChanged;
      FilterOutcome(Handled, !ok)
  }

  /** A signal of the right interface and member is recognised, whatever its arguments. */
  lemma SignalRecognised(msg: Message, k: nat)
    requires msg.mtype == Signal && k < |SigItems|
    requires msg.iface == SigItems[k].group && msg.member == SigItems[k].name
    ensures SignalValue(SignalTable, msg) == k + 1
  {
    SignalRowsDistinct();
    RowFound(SignalTable, k);
    EnumerationFollowsRows();
  }

  /**
   * DisconnectRequested and the audio PropertyChanged signal never take the
   * failure exit; DeviceFound takes it unless a second argument holds a
   * non-empty dictionary parse_properties accepts.
   */
  lemma EventFilterSignalRules(msg: Message)
    requires msg.mtype == Signal
    ensures msg.iface == "org.bluez.Device" && msg.member == "DisconnectRequested" ==> EventFilter(msg) == FilterOutcome(Handled, false)
    ensures msg.iface == "org.bluez.AudioSink" && msg.member == "PropertyChanged" ==> EventFilter(msg) == FilterOutcome(Handled, false)
    ensures msg.iface == "org.bluez.Adapter" && msg.member == "DeviceFound" ==>
      (EventFilter(msg).failed <==> |msg.args| < 2 || ParsePropertiesSpec(map[], msg.args[1]).0 != 0)
  {
    if msg.iface == "org.bluez.Device" && msg.member == "DisconnectRequested" {
      SignalRecognised(msg, 6);
    }
    if msg.iface == "org.bluez.AudioSink" && msg.member == "PropertyChanged" {
      SignalRecognised(msg, 14);
    }
    if msg.iface == "org.bluez.Adapter" && msg.member == "DeviceFound" {
      SignalRecognised(msg, 0);
    }
  }

  /** The reply an agent method sends back, if any. */
  datatype AgentReply = NoReply | ReturnReply | ErrorAnswer(name: string, text: string)

  /**
   * The switch of agent_event_filter on the classification value: Cancel and
   * Release are answered at once; out-of-band availability is refused with a
   * DoesNotExist error; the request methods are passed on when their
   * arguments have the required types; anything else is declined.
   */
  function AgentDispatch(methvalue: int, msg: Message): (r: (HandlerResult, AgentReply))
    ensures r.0 == Handled ==> BmethAgentCancel <= methvalue <= BmethRelease
    ensures r.1 != NoReply ==> r.0 == Handled
  {
    if methvalue == BmethAgentCancel || methvalue == BmethRelease then (Handled, ReturnReply)
    else if methvalue == BmethAgentAuthorize then
      if ArgsHave(msg.args, [TObjectPath, TString]) then (Handled, NoReply) else (NotYetHandled, NoReply)
    else if methvalue == BmethAgentOutOfBandDataAvailable then
      if ArgsHave(msg.args, [TObjectPath]) then (Handled, ErrorAnswer("org.bluez.Error.DoesNotExist", "OutofBand data not available"))
      else (NotYetHandled, NoReply)
    else if methvalue == BmethRequestPinCode || methvalue == BmethRequestPasskey
         || methvalue == BmethRequestOobData || methvalue == BmethRequestPairingConsent then
      if ArgsHave(msg.args, [TObjectPath]) then (Handled, NoReply) else (NotYetHandled, NoReply)
    else if methvalue == BmethDisplayPasskey || methvalue == BmethRequestPasskeyConfirmation then
      if ArgsHave(msg.args, [TObjectPath, TUint32]) then (Handled, NoReply) else (NotYetHandled, NoReply)
    else (NotYetHandled, NoReply)
  }

  /** agent_event_filter as written: it classifies the message with findsignal over the signal table. */
  function AgentEventFilterAsWritten(msg: Message): (HandlerResult, AgentReply) {
    AgentDispatch(SignalValue(SignalTable, msg), msg)
  }

  /** As written, the agent declines every message and never replies. */
  lemma AgentEventFilterDeclinesEverything(msg: Message)
    ensures AgentEventFilterAsWritten(msg) == (NotYetHandled, NoReply)
  {
    if msg.mtype == Signal {
      SignalValueRange(msg);
    }
  }

  /** agent_event_filter with the classification its switch expects: findmethod over the method table. */
  function AgentEventFilter(msg: Message): (r: (HandlerResult, AgentReply))
    ensures r.0 == Handled ==> msg.mtype == MethodCall && msg.iface == "org.bluez.Agent"
  {
    MethodValueIsAgentCall(msg);
    AgentDispatch(MethodValue(MethodTable, msg), msg)
  }

  /** A method value from the method table can only come from a method call on the agent interface. */
  lemma MethodValueIsAgentCall(msg: Message)
    ensures BmethAgentCancel <= MethodValue(MethodTable, msg) <= BmethRelease ==>
      msg.mtype == MethodCall && msg.iface == "org.bluez.Agent"
  {
    MethodRowsAreAgentMethods();
  }

  /**
   * The corrected agent answers the agent's method calls: Cancel and Release
   * with a method return, OutOfBandAvailable with a DoesNotExist error, and
   * RequestPinCode is taken over when it carries an object path.
   */
  lemma AgentEventFilterAnswers(msg: Message)
    requires msg.mtype == MethodCall && msg.iface == "org.bluez.Agent"
    ensures msg.member == "Cancel" ==> AgentEventFilter(msg) == (Handled, ReturnReply)
    ensures msg.member == "Release" ==> AgentEventFilter(msg) == (Handled, ReturnReply)
    ensures msg.member == "OutOfBandAvailable" && ArgsHave(msg.args, [TObjectPath]) ==>
      AgentEventFilter(msg) == (Handled, ErrorAnswer("org.bluez.Error.DoesNotExist", "OutofBand data not available"))
    ensures msg.member == "RequestPinCode" ==>
      (AgentEventFilter(msg).0 == Handled <==> ArgsHave(msg.args, [TObjectPath]))
  {
    MethodRowsDistinct();
    EnumerationFollowsRows();
    if msg.member == "Cancel" { RowFound(MethodTable, 0); }
    if msg.member == "Release" { RowFound(MethodTable, 9); }
    if msg.member == "OutOfBandAvailable" { RowFound(MethodTable, 2); }
    if msg.member == "RequestPinCode" { RowFound(MethodTable, 3); }
  }

  // ---------------------------------------------------------------------------
  // Reply callbacks

  /** The error a reply carries: its name and its message text. */
  datatype DBusError = DBusError(name: string, message: string)

  /**
   * onCreatePairedDeviceResult: no error is a success; otherwise the error
   * name goes through the pairing map; an InProgress error counts as success
   * for "Bonding in progress", stays DISCOVERY_IN_PROGRESS for "Discover in
   * progress" and is an ERROR for any other text; unmapped names are ERROR.
   */
  function OnCreatePairedDeviceResult(err: Option<DBusError>): (r: int)
    ensures IsBondResult(r)
    ensures err.None? ==> r == BondResultSuccess
  {
    if err.None? then BondResultSuccess
    else
      var result := MapValue(BondMap, err.value.name);
      if result == BondResultAuthFailed || result == BondResultAuthRejected || result == BondResultAuthCanceled
         || result == BondResultRemoteDeviceDown || result == BondResultSuccess
         || result == BondResultRepeatedAttempts || result == BondResultAuthTimeout then
        result
      else if result == BondResultDiscoveryInProgress && err.value.message == "Bonding in progress" then
        BondResultSuccess
      else if result == BondResultDiscoveryInProgress && err.value.message == "Discover in progress" then
        result
      else
        BondResultError
  }

  const InProgressName: string := BluezBaseIfc + ".Error.InProgress"
  const AlreadyExistsName: string := BluezBaseIfc + ".Error.AlreadyExists"

  /** The error name onCreateDeviceResult compares against, spelled out in full there. */
  const DeviceExistsName: string := "org.bluez.Error.AlreadyExists"

  /**
   * The pairing result is DISCOVERY_IN_PROGRESS exactly for an InProgress
   * error saying "Discover in progress"; an InProgress error saying "Bonding
   * in progress" counts as success, and one with any other text falls through
   * to ERROR; every other error the map names gives that entry's own code
   * (so AlreadyExists counts as success).
   */
  lemma PairingResultRules(err: DBusError)
    ensures OnCreatePairedDeviceResult(Some(err)) == BondResultDiscoveryInProgress <==>
      err.name == InProgressName && err.message == "Discover in progress"
    ensures err.name == InProgressName && err.message == "Bonding in progress" ==>
      OnCreatePairedDeviceResult(Some(err)) == BondResultSuccess
    ensures err.name == InProgressName && err.message != "Bonding in progress" && err.message != "Discover in progress" ==>
      OnCreatePairedDeviceResult(Some(err)) == BondResultError
    ensures forall k :: 0 <= k < |BondMap.entries| && k != 5 && err.name == BondMap.entries[k].key ==>
      OnCreatePairedDeviceResult(Some(err)) == BondMap.entries[k].value
    ensures err.name == AlreadyExistsName ==> OnCreatePairedDeviceResult(Some(err)) == BondResultSuccess
  {
    InProgressRules(err);
    forall k | 0 <= k < |BondMap.entries| && k != 5 && err.name == BondMap.entries[k].key
      ensures OnCreatePairedDeviceResult(Some(err)) == BondMap.entries[k].value
    {
      MappedRule(err, k);
    }
    if err.name == AlreadyExistsName {
      MappedRule(err, 4);
    }
  }

  /** The InProgress row of the bond map, whose code the switch then refines by the message. */
  lemma InProgressRules(err: DBusError)
    ensures OnCreatePairedDeviceResult(Some(err)) == BondResultDiscoveryInProgress <==>
      err.name == InProgressName && err.message == "Discover in progress"
    ensures err.name == InProgressName && err.message == "Bonding in progress" ==>
      OnCreatePairedDeviceResult(Some(err)) == BondResultSuccess
    ensures err.name == InProgressName && err.message != "Bonding in progress" && err.message != "Discover in progress" ==>
      OnCreatePairedDeviceResult(Some(err)) == BondResultError
  {
    ErrorMapsHaveDistinctKeys();
    KeyFound(BondMap, 5);
    MapValueIdentifiesKey(BondMap, 5, err.name);
  }

  /** Any other row of the bond map passes its own code through. */
  lemma MappedRule(err: DBusError, k: nat)
    requires k < |BondMap.entries| && k != 5 && err.name == BondMap.entries[k].key
    ensures OnCreatePairedDeviceResult(Some(err)) == BondMap.entries[k].value
  {
    ErrorMapsHaveDistinctKeys();
    KeyFound(BondMap, k);
  }

  /** An error name the bond map does not know ends the pairing with BOND_RESULT_ERROR. */
  lemma UnknownPairingError(err: DBusError)
    requires forall j :: 0 <= j < |BondMap.entries| ==> BondMap.entries[j].key != err.name
    ensures OnCreatePairedDeviceResult(Some(err)) == BondResultError
  {
    KeyMissing(BondMap, err.name);
  }

  const CreateDeviceAlreadyExists: int := 1
  const CreateDeviceSuccess: int := 0
  const CreateDeviceFailed: int := -1

  /** onCreateDeviceResult: success without an error, "already exists" for that error name, failure otherwise. */
  function OnCreateDeviceResult(err: Option<DBusError>): (r: int)
    ensures r == CreateDeviceSuccess <==> err.None?
    ensures r == CreateDeviceAlreadyExists <==> err.Some? && err.value.name == DeviceExistsName
    ensures r == CreateDeviceFailed <==> err.Some? && err.value.name != DeviceExistsName
  {
    if err.None? then CreateDeviceSuccess
    else if err.value.name == DeviceExistsName then CreateDeviceAlreadyExists
    else CreateDeviceFailed
  }

  /** onGetDeviceServiceChannelResult: the INT32 channel of a good reply, otherwise -2. */
  function OnGetDeviceServiceChannelResult(err: Option<DBusError>, args: seq<DValue>): (channel: int)
    ensures err.Some? || !ArgsHave(args, [TInt32]) ==> channel == -2
    ensures err.None? && ArgsHave(args, [TInt32]) ==> channel == args[0].i32
  {
    if err.None? && ArgsHave(args, [TInt32]) then args[0].i32 else -2
  }

  /**
   * onInputDeviceConnectionResult: success without an error; otherwise the
   * input map's code, except that its "not connected" code becomes a generic
   * failure unless the text is "Transport endpoint is not connected".
   */
  function OnInputDeviceConnectionResult(err: Option<DBusError>): (r: int)
    ensures IsInputResult(r)
    ensures r == InputOperationSuccess <==> err.None?
    ensures r == InputDisconnectFailedNotConnected ==> err.Some? && err.value.message == "Transport endpoint is not connected"
  {
    if err.None? then InputOperationSuccess
    else
      var result := MapValue(InputConnectMap, err.value.name);
      if result == InputDisconnectFailedNotConnected && err.value.message != "Transport endpoint is not connected" then
        InputOperationGenericFailure
      else result
  }

  /**
   * onPanDeviceConnectionResult: success without an error; otherwise the PAN
   * map's code, except that its "not connected" code becomes ALREADY_CONNECTED
   * for the text "Device already connected", stays for "Device not
   * connected", and becomes a generic failure for any other text.
   */
  function OnPanDeviceConnectionResult(err: Option<DBusError>): (r: int)
    ensures IsPanResult(r)
    ensures r == PanOperationSuccess <==> err.None?
    ensures r == PanDisconnectFailedNotConnected ==> err.Some? && err.value.message == "Device not connected"
    ensures r == PanConnectFailedAlreadyConnected ==> err.Some? && err.value.message == "Device already connected"
  {
    if err.None? then PanOperationSuccess
    else
      var result := MapValue(PanConnectMap, err.value.name);
      if result == PanDisconnectFailedNotConnected then
        if err.value.message == "Device already connected" then PanConnectFailedAlreadyConnected
        else if err.value.message != "Device not connected" then PanOperationGenericFailure
        else result
      else result
  }

  /** onHealthDeviceConnectionResult: success without an error, otherwise the health map's code. */
  function OnHealthDeviceConnectionResult(err: Option<DBusError>): (r: int)
    ensures IsHealthResult(r)
    ensures r == HealthOperationSuccess <==> err.None?
  {
    if err.None? then HealthOperationSuccess else MapValue(HealthMap, err.value.name)
  }

  /** onDiscoverServicesResult: the discovery succeeded exactly when the reply carries no error. */
  function OnDiscoverServicesResult(err: Option<DBusError>): (r: bool)
    ensures r <==> err.None?
  {
    if err.Some? then false else true
  }

  /**
   * The error texts that decide the input and PAN results: a "Failed" error
   * becomes each family's "not connected" code only with the expected text,
   * and any other text gives the generic failure.
   */
  lemma ConnectionResultRules(msg: string)
    ensures OnInputDeviceConnectionResult(Some(DBusError(BluezErrorIfc + ".Failed", msg))) ==
      (if msg == "Transport endpoint is not connected" then InputDisconnectFailedNotConnected else InputOperationGenericFailure)
    ensures OnPanDeviceConnectionResult(Some(DBusError(BluezErrorIfc + ".Failed", msg))) ==
      (if msg == "Device already connected" then PanConnectFailedAlreadyConnected
       else if msg == "Device not connected" then PanDisconnectFailedNotConnected
       else PanOperationGenericFailure)
  {
    ErrorMapsHaveDistinctKeys();
    KeyFound(InputConnectMap, 2);
    KeyFound(PanConnectMap, 1);
  }

  // ---------------------------------------------------------------------------
  // Match rules

  /** The first rule the bus refuses, or the number of rules when it accepts them all. */
  function FirstRefused(rules: seq<string>, refused: set<string>, i: nat): (k: nat)
    requires i <= |rules|
    ensures i <= k <= |rules|
    ensures forall j :: i <= j < k ==> rules[j] !in refused
    ensures k < |rules| ==> rules[k] in refused
    decreases |rules| - i
  {
    if i == |rules| || rules[i] in refused then i else FirstRefused(rules, refused, i + 1)
  }

  /**
   * addmatch: subscribes the rules in order; the first rule the bus refuses
   * ends the process (exit(1)), so only the rules before it are subscribed.
   */
  method AddMatch(refused: set<string>) returns (subscribed: seq<string>, exited: bool)
    ensures var k := FirstRefused(Signames, refused, 0);
      subscribed == Signames[..k] && (exited <==> k < |Signames|)
  {
    subscribed := [];
    var p := 0;
    while p < |Signames|
      invariant 0 <= p <= |Signames| && subscribed == Signames[..p]
      invariant FirstRefused(Signames, refused, 0) == FirstRefused(Signames, refused, p)
    {
      if Signames[p] in refused {
        return subscribed, true;
      }
      subscribed := subscribed + [Signames[p]];
      p := p + 1;
    }
    exited := false;
  }

  /** removematch: asks the bus to drop every rule in order; an error is logged and the walk goes on. */
  method RemoveMatch(subscribed: set<string>, refused: set<string>) returns (remaining: set<string>, visited: seq<string>)
    ensures visited == Signames
    ensures remaining == subscribed - (set r | r in Signames && r !in refused)
  {
    remaining := subscribed;
    visited := [];
    var p := 0;
    while p < |Signames|
      invariant 0 <= p <= |Signames| && visited == Signames[..p]
      invariant remaining == subscribed - (set r | r in Signames[..p] && r !in refused)
    {
      if Signames[p] !in refused {
        remaining := remaining - {Signames[p]};
      }
      visited := visited + [Signames[p]];
      p := p + 1;
    }
    assert Signames[..p] == Signames;
  }

  /** There are ten rules, each a signal rule. */
  lemma SignamesAreSignalRules()
    ensures |Signames| == 10
    ensures forall i :: 0 <= i < |Signames| ==> "type='signal'," <= Signames[i]
  {
  }
}
