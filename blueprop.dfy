/**
 * The tables of the Bluetooth bridge: the D-Bus match rules it subscribes
 * to, the (interface, member) pairs it recognises as signals and as agent
 * method calls together with the enumeration values they stand for, and the
 * maps from BlueZ error names to result codes.
 */
module BlueProp {
  import opened BtConst

  /** One row of a signal or method table: interface, member, enumeration value. */
  datatype SigDef = SigDef(group: string, name: string, value: int)

  /** A table of rows closed by a terminator row whose value is returned on a miss. */
  datatype SigTable = SigTable(entries: seq<SigDef>, terminator: int)

  /** One row of an error-name map. */
  datatype CharMapEntry = CharMapEntry(key: string, value: int)

  /** An error-name map closed by a terminator row whose value is returned on a miss. */
  datatype CharMap = CharMap(entries: seq<CharMapEntry>, terminator: int)

  // The enumeration built from the signal rows, then the method rows; 0 means "not a signal".
  const BsigNotSignal: int := 0
  const BsigAdapterDeviceFound: int := 1
  const BsigAdapterDeviceDisappeared: int := 2
  const BsigAdapterDeviceCreated: int := 3
  const BsigAdapterDeviceRemoved: int := 4
  const BsigAdapterPropertyChanged: int := 5
  const BsigDevicePropertyChanged: int := 6
  const BsigDeviceDisconnectRequested: int := 7
  const BsigInputDevicePropertyChanged: int := 8
  const BsigPanDevicePropertyChanged: int := 9
  const BsigNetworkDeviceDisconnected: int := 10
  const BsigNetworkDeviceConnected: int := 11
  const BsigHealthDeviceChannelConnected: int := 12
  const BsigHealthDeviceChannelDeleted: int := 13
  const BsigHealthDevicePropertyChanged: int := 14
  const BsigAudioPropertyChanged: int := 15
  const BmethAgentCancel: int := 16
  const BmethAgentAuthorize: int := 17
  const BmethAgentOutOfBandDataAvailable: int := 18
  const BmethRequestPinCode: int := 19
  const BmethRequestPasskey: int := 20
  const BmethRequestOobData: int := 21
  const BmethDisplayPasskey: int := 22
  const BmethRequestPasskeyConfirmation: int := 23
  const BmethRequestPairingConsent: int := 24
  const BmethRelease: int := 25

  /** The match rules subscribed to at start-up and dropped at shut-down, in order. */
  const Signames: seq<string> := [
    "type='signal',interface='org.freedesktop.DBus'",
    "type='signal',interface='" + BluezBaseIfc + ".Adapter'",
    "type='signal',interface='" + BluezBaseIfc + ".Device'",
    "type='signal',interface='" + BluezBaseIfc + ".Input'",
    "type='signal',interface='" + BluezBaseIfc + ".Network'",
    "type='signal',interface='" + BluezBaseIfc + ".NetworkServer'",
    "type='signal',interface='" + BluezBaseIfc + ".HealthDevice'",
    "type='signal',interface='org.bluez.AudioSink'",
    "type='signal',interface='" + BluezBaseIfc + ".AudioSink'",
    "type='signal',interface='org.bluez.audio.Manager'"
  ]

  /** The signal rows, in declaration order. */
  const SigItems: seq<SigDef> := [
    SigDef("org.bluez.Adapter", "DeviceFound", BsigAdapterDeviceFound),
    SigDef("org.bluez.Adapter", "DeviceDisappeared", BsigAdapterDeviceDisappeared),
    SigDef("org.bluez.Adapter", "DeviceCreated", BsigAdapterDeviceCreated),
    SigDef("org.bluez.Adapter", "DeviceRemoved", BsigAdapterDeviceRemoved),
    SigDef("org.bluez.Adapter", "PropertyChanged", BsigAdapterPropertyChanged),
    SigDef("org.bluez.Device", "PropertyChanged", BsigDevicePropertyChanged),
    SigDef("org.bluez.Device", "DisconnectRequested", BsigDeviceDisconnectRequested),
    SigDef("org.bluez.Input", "PropertyChanged", BsigInputDevicePropertyChanged),
    SigDef("org.bluez.Network", "PropertyChanged", BsigPanDevicePropertyChanged),
    SigDef("org.bluez.NetworkServer", "DeviceDisconnected", BsigNetworkDeviceDisconnected),
    SigDef("org.bluez.NetworkServer", "DeviceConnected", BsigNetworkDeviceConnected),
    SigDef("org.bluez.HealthDevice", "ChannelConnected", BsigHealthDeviceChannelConnected),
    SigDef("org.bluez.HealthDevice", "ChannelDeleted", BsigHealthDeviceChannelDeleted),
    SigDef("org.bluez.HealthDevice", "PropertyChanged", BsigHealthDevicePropertyChanged),
    SigDef("org.bluez.AudioSink", "PropertyChanged", BsigAudioPropertyChanged)
  ]

  /** The agent method rows, in declaration order. */
  const MethItems: seq<SigDef> := [
    SigDef("org.bluez.Agent", "Cancel", BmethAgentCancel),
    SigDef("org.bluez.Agent", "Authorize", BmethAgentAuthorize),
    SigDef("org.bluez.Agent", "OutOfBandAvailable", BmethAgentOutOfBandDataAvailable),
    SigDef("org.bluez.Agent", "RequestPinCode", BmethRequestPinCode),
    SigDef("org.bluez.Agent", "RequestPasskey", BmethRequestPasskey),
    SigDef("org.bluez.Agent", "RequestOobData", BmethRequestOobData),
    SigDef("org.bluez.Agent", "DisplayPasskey", BmethDisplayPasskey),
    SigDef("org.bluez.Agent", "RequestConfirmation", BmethRequestPasskeyConfirmation),
    SigDef("org.bluez.Agent", "RequestPairingConsent", BmethRequestPairingConsent),
    SigDef("org.bluez.Agent", "Release", BmethRelease)
  ]

  const SignalTable: SigTable := SigTable(SigItems, -1)
  const MethodTable: SigTable := SigTable(MethItems, -1)

  const BondMap: CharMap := CharMap([
    CharMapEntry(BluezBaseIfc + ".Error.AuthenticationFailed", BondResultAuthFailed),
    CharMapEntry(BluezBaseIfc + ".Error.AuthenticationRejected", BondResultAuthRejected),
    CharMapEntry(BluezBaseIfc + ".Error.AuthenticationCanceled", BondResultAuthCanceled),
    CharMapEntry(BluezBaseIfc + ".Error.ConnectionAttemptFailed", BondResultRemoteDeviceDown),
    CharMapEntry(BluezBaseIfc + ".Error.AlreadyExists", BondResultSuccess),
    CharMapEntry(BluezBaseIfc + ".Error.InProgress", BondResultDiscoveryInProgress),
    CharMapEntry(BluezBaseIfc + ".Error.RepeatedAttempts", BondResultRepeatedAttempts),
    CharMapEntry(BluezBaseIfc + ".Error.AuthenticationTimeout", BondResultAuthTimeout)
  ], BondResultError)

  const InputConnectMap: CharMap := CharMap([
    CharMapEntry(BluezErrorIfc + ".ConnectionAttemptFailed", InputConnectFailedAttemptFailed),
    CharMapEntry(BluezErrorIfc + ".AlreadyConnected", InputConnectFailedAlreadyConnected),
    CharMapEntry(BluezErrorIfc + ".Failed", InputDisconnectFailedNotConnected)
  ], InputOperationGenericFailure)

  const PanConnectMap: CharMap := CharMap([
    CharMapEntry(BluezErrorIfc + ".ConnectionAttemptFailed", PanConnectFailedAttemptFailed),
    CharMapEntry(BluezErrorIfc + ".Failed", PanDisconnectFailedNotConnected)
  ], PanOperationGenericFailure)

  const HealthMap: CharMap := CharMap([
    CharMapEntry(BluezErrorIfc + ".InvalidArgs", HealthOperationInvalidArgs),
    CharMapEntry(BluezErrorIfc + ".HealthError", HealthOperationError),
    CharMapEntry(BluezErrorIfc + ".NotFound", HealthOperationNotFound),
    CharMapEntry(BluezErrorIfc + ".NotAllowed", HealthOperationNotAllowed)
  ], HealthOperationGenericFailure)

  /**
   * The enumeration is generated from the rows, so row k of the signal table
   * carries value k + 1 and row k of the method table carries 16 + k; no row
   * carries the "not a signal" value 0 or the terminator value -1.
   */
  lemma EnumerationFollowsRows()
    ensures forall k :: 0 <= k < |SigItems| ==> SigItems[k].value == k + 1
    ensures forall k :: 0 <= k < |MethItems| ==> MethItems[k].value == |SigItems| + 1 + k
    ensures |SigItems| == 15 && |MethItems| == 10
  {
  }

  /** Every method row is on the agent interface. */
  lemma MethodRowsAreAgentMethods()
    ensures forall k :: 0 <= k < |MethItems| ==> MethItems[k].group == BluezBaseIfc + ".Agent"
  {
  }
}
