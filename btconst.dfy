/**
 * Constants shared by the Bluetooth bridge: the BlueZ D-Bus names, the size
 * of the printed address buffer, the initial size of the event loop's poll
 * table, and the result-code families reported by the D-Bus reply callbacks.
 */
module BtConst {

  const BluezBaseIfc: string := "org.bluez"
  const BluezErrorIfc: string := "org.bluez.Error"

  /** Characters in a printed address "XX:XX:XX:XX:XX:XX", terminator included. */
  const BtAddrSize: nat := 18

  /** Slots the event loop's poll table starts with. */
  const DefaultInitialPollFdCount: nat := 8

  // Pairing (CreatePairedDevice) results
  const BondResultError: int := -1
  const BondResultSuccess: int := 0
  const BondResultAuthFailed: int := 1
  const BondResultAuthRejected: int := 2
  const BondResultAuthCanceled: int := 3
  const BondResultRemoteDeviceDown: int := 4
  const BondResultDiscoveryInProgress: int := 5
  const BondResultAuthTimeout: int := 6
  const BondResultRepeatedAttempts: int := 7

  // Personal-area-network connection results
  const PanDisconnectFailedNotConnected: int := 1000
  const PanConnectFailedAlreadyConnected: int := 1001
  const PanConnectFailedAttemptFailed: int := 1002
  const PanOperationGenericFailure: int := 1003
  const PanOperationSuccess: int := 1004

  // Input-device connection results
  const InputDisconnectFailedNotConnected: int := 5000
  const InputConnectFailedAlreadyConnected: int := 5001
  const InputConnectFailedAttemptFailed: int := 5002
  const InputOperationGenericFailure: int := 5003
  const InputOperationSuccess: int := 5004

  // Health-device connection results
  const HealthOperationSuccess: int := 6000
  const HealthOperationError: int := 6001
  const HealthOperationInvalidArgs: int := 6002
  const HealthOperationGenericFailure: int := 6003
  const HealthOperationNotFound: int := 6004
  const HealthOperationNotAllowed: int := 6005

  predicate IsBondResult(r: int) { BondResultError <= r <= BondResultRepeatedAttempts }
  predicate IsPanResult(r: int) { PanDisconnectFailedNotConnected <= r <= PanOperationSuccess }
  predicate IsInputResult(r: int) { InputDisconnectFailedNotConnected <= r <= InputOperationSuccess }
  predicate IsHealthResult(r: int) { HealthOperationSuccess <= r <= HealthOperationNotAllowed }

  /**
   * The four result families occupy disjoint ranges, so a code alone tells
   * which kind of operation reported it.
   */
  lemma ResultFamiliesDisjoint(r: int)
    ensures !(IsBondResult(r) && IsPanResult(r))
    ensures !(IsBondResult(r) && IsInputResult(r))
    ensures !(IsBondResult(r) && IsHealthResult(r))
    ensures !(IsPanResult(r) && IsInputResult(r))
    ensures !(IsPanResult(r) && IsHealthResult(r))
    ensures !(IsInputResult(r) && IsHealthResult(r))
  {
  }

  /** The error interface is the base interface followed by ".Error". */
  lemma ErrorIfcExtendsBase()
    ensures BluezErrorIfc == BluezBaseIfc + ".Error"
  {
  }

  /** A printed address has 17 visible characters plus the terminator. */
  lemma BtAddrSizeFitsPrintedAddress()
    ensures BtAddrSize == 6 * 2 + 5 + 1
  {
  }
}
