/**
 * The pure parts of the Bluetooth socket helpers: the O_NONBLOCK flag
 * arithmetic of set_nb, the link modes asked of RFCOMM and L2CAP sockets,
 * the socket-type names, the buffer range check of readNative/writeNative,
 * the write-all loop, the EALREADY retry of connectNative and the error
 * codes of bindListenNative.  Every system call is a parameter: the value it
 * returned.
 */
module Socket {
  import opened CLib
  import opened BtAddr

  /** O_NONBLOCK on Linux (04000). */
  const ONonblock: bv32 := 0x800

  /** Link-mode bits of <bluetooth/rfcomm.h> and <bluetooth/l2cap.h> (both headers use the same values). */
  const RfcommLmAuth: bv32 := 0x0002
  const RfcommLmEncrypt: bv32 := 0x0004
  const RfcommLmSecure: bv32 := 0x0020
  const L2capLmAuth: bv32 := 0x0002
  const L2capLmEncrypt: bv32 := 0x0004
  const L2capLmSecure: bv32 := 0x0020

  /** Socket types, kept in step with the Java BluetoothSocket. */
  const TypeRfcomm := 1
  const TypeSco := 2
  const TypeL2cap := 3

  /** The send buffer asked for RFCOMM sockets: 70 KB. */
  const RfcommSoSndbuf := 70 * 1024

  /** errno values on Linux. */
  const EInval := 22
  const ENosys := 38
  const EAlready := 114

  // ---------------------------------------------------------------------------
  // set_nb

  /** The flags set_nb writes back: O_NONBLOCK cleared, then set again when nb. */
  function NbFlags(flags: bv32, nb: bool): (r: bv32)
    ensures (r & ONonblock != 0) <==> nb
    ensures r & !ONonblock == flags & !ONonblock
  {
    // ~O_NONBLOCK, then O_NONBLOCK
    (flags & 0xFFFF_F7FF) | (if nb then 0x800 else 0)
  }

  /** Asking twice for the same mode changes nothing; the later request wins. */
  lemma NbFlagsLastWins(flags: bv32, a: bool, b: bool)
    ensures NbFlags(NbFlags(flags, a), b) == NbFlags(flags, b)
  {
    var cleared := flags & 0xFFFF_F7FF;
    assert NbFlags(flags, a) & 0xFFFF_F7FF == cleared;
  }

  /** What set_nb does with the results of fcntl(F_GETFL) and fcntl(F_SETFL): its return value and the flags it asked for. */
  datatype NbResult = NbResult(rc: int, requested: Option<bv32>)

  function SetNb(got: Int32, nb: bool, status: Int32): (r: NbResult)
    ensures r.rc == 0 || r.rc == -1
    ensures r.rc == 0 <==> got >= 0 && status >= 0
    ensures r.requested.Some? <==> got >= 0
    ensures got >= 0 ==> r.requested == Some(NbFlags(got as bv32, nb))
  {
    if got < 0 then NbResult(-1, None)
    else
      var flags := NbFlags(got as bv32, nb);
      NbResult(if status < 0 then -1 else 0, Some(flags))
  }

  // ---------------------------------------------------------------------------
  // Link modes and socket types

  /** TYPE_AS_STR: the name a socket type is logged with. */
  function TypeAsStr(t: int): (r: string)
    ensures r == "RFCOMM" || r == "SCO" || r == "L2CAP"
    ensures r == "RFCOMM" <==> t == TypeRfcomm
    ensures r == "SCO" <==> t == TypeSco
  {
    if t == TypeRfcomm then "RFCOMM" else if t == TypeSco then "SCO" else "L2CAP"
  }

  /** The link mode initSocketNative computes: SCO and unknown types get none. */
  function LinkMode(t: int, auth: bool, encrypt: bool): (lm: bv32)
  {
    if t == TypeRfcomm then
      (if auth then RfcommLmAuth else 0) | (if encrypt then RfcommLmEncrypt else 0)
        | (if auth && encrypt then RfcommLmSecure else 0)
    else if t == TypeL2cap then
      (if auth then L2capLmAuth else 0) | (if encrypt then L2capLmEncrypt else 0)
        | (if auth && encrypt then L2capLmSecure else 0)
    else 0
  }

  /** AUTH iff auth, ENCRYPT iff encrypt, SECURE iff both, nothing else; SCO asks for no link mode at all. */
  lemma LinkModeBits(t: int, auth: bool, encrypt: bool)
    ensures t == TypeRfcomm || t == TypeL2cap ==>
      var lm := LinkMode(t, auth, encrypt);
      (lm & RfcommLmAuth != 0 <==> auth) && (lm & RfcommLmEncrypt != 0 <==> encrypt)
        && (lm & RfcommLmSecure != 0 <==> auth && encrypt)
        && lm & !(RfcommLmAuth | RfcommLmEncrypt | RfcommLmSecure) == 0
    ensures LinkMode(t, auth, encrypt) == 0 <==> (t != TypeRfcomm && t != TypeL2cap) || (!auth && !encrypt)
  {
  }

  /** How initSocketNative ends; the system calls' results are parameters. */
  datatype InitOutcome =
    | Unsupported            // unknown type: no socket is created
    | SocketFailed           // socket() failed
    | LinkModeFailed(fd: int)
    | SendBufferFailed(fd: int)
    | Created(fd: int, lm: bv32, sndbuf: Option<int>)

  function InitSocket(t: int, auth: bool, encrypt: bool, fd: int, lmStatus: int, sndbufStatus: int): (r: InitOutcome)
    ensures r.Unsupported? <==> t != TypeRfcomm && t != TypeSco && t != TypeL2cap
    ensures !r.Unsupported? ==> (r.SocketFailed? <==> fd < 0)
    ensures r.LinkModeFailed? <==> !r.Unsupported? && fd >= 0 && LinkMode(t, auth, encrypt) != 0 && lmStatus != 0
    ensures r.SendBufferFailed? <==> !r.Unsupported? && fd >= 0 && !r.LinkModeFailed? && t == TypeRfcomm && sndbufStatus != 0
    ensures r.Created? <==>
      (!r.Unsupported? && fd >= 0 && (LinkMode(t, auth, encrypt) == 0 || lmStatus == 0) && (t != TypeRfcomm || sndbufStatus == 0))
    ensures r.LinkModeFailed? || r.SendBufferFailed? ==> r.fd == fd
    ensures r.Created? ==> r.fd == fd && r.lm == LinkMode(t, auth, encrypt)
    ensures r.Created? ==> (r.sndbuf.Some? <==> t == TypeRfcomm) && (r.sndbuf.Some? ==> r.sndbuf.value == RfcommSoSndbuf)
  {
    if t != TypeRfcomm && t != TypeSco && t != TypeL2cap then Unsupported
    else if fd < 0 then SocketFailed
    else
      var lm := LinkMode(t, auth, encrypt);
      if lm != 0 && lmStatus != 0 then LinkModeFailed(fd)
      else if t == TypeRfcomm && sndbufStatus != 0 then SendBufferFailed(fd)
      else Created(fd, lm, if t == TypeRfcomm then Some(RfcommSoSndbuf) else None)
  }

  /** An SCO socket is created without a link mode and without a send buffer size. */
  lemma ScoHasNoOptions(auth: bool, encrypt: bool, fd: nat, lmStatus: int, sndbufStatus: int)
    ensures InitSocket(TypeSco, auth, encrypt, fd, lmStatus, sndbufStatus) == Created(fd, 0, None)
  {
  }

  /** The link mode setup_listening_socket asks for. */
  function ListeningLinkMode(): (lm: bv32)
    ensures lm == RfcommLmAuth | RfcommLmEncrypt
  {
    if DebugNoEncrypt() then RfcommLmAuth else RfcommLmAuth | RfcommLmEncrypt
  }

  /** setup_listening_socket: the socket, or -1 when socket(), setsockopt() or bind() failed. */
  function SetupListeningSocket(sk: int, lmStatus: int, bindStatus: int): (r: int)
    ensures sk < 0 ==> r == -1
    ensures sk >= 0 ==> (r == sk <==> lmStatus >= 0 && bindStatus >= 0) && (r != sk ==> r == -1)
  {
    if sk < 0 then -1
    else if ListeningLinkMode() != 0 && lmStatus < 0 then -1
    else if bindStatus < 0 then -1
    else sk
  }

  // ---------------------------------------------------------------------------
  // readNative and writeNative

  /** The range check as written: offset + length is computed in a 32-bit int and wraps. */
  predicate RangeRejectedAsWritten(offset: Int32, length: Int32, sz: Int32) {
    offset < 0 || length < 0 || Int32Of(offset + length) > sz
  }

  /** offset = INT_MAX and length = 1 wrap to INT_MIN and pass the check for an empty buffer. */
  lemma RangeCheckWraps()
    ensures !RangeRejectedAsWritten(0x7fff_ffff, 1, 0)
  {
  }

  /** The evidently intended range check: the slice [offset, offset + length) lies inside the buffer. */
  predicate RangeRejected(offset: Int32, length: Int32, sz: Int32) {
    offset < 0 || length < 0 || offset + length > sz
  }

  /** The two checks agree whenever the sum fits in an int. */
  lemma RangeChecksAgree(offset: Int32, length: Int32, sz: Int32)
    requires offset < 0 || length < 0 || offset + length < 0x8000_0000
    ensures RangeRejectedAsWritten(offset, length, sz) == RangeRejected(offset, length, sz)
  {
  }

  /** readNative: -1 without a socket, without a buffer, for a bad range, or when the read fails; else the bytes read. */
  function ReadNative(present: bool, bufPresent: bool, offset: Int32, length: Int32, sz: Int32, ret: int): (r: int)
    ensures r == -1 || r == ret
    ensures r >= 0 ==> present && bufPresent && 0 <= offset && 0 <= length && offset + length <= sz
    ensures present && bufPresent && 0 <= offset && 0 <= length && offset + length <= sz && ret >= 0 ==> r == ret
    ensures ret < 0 ==> r == -1
  {
    if !present || !bufPresent || RangeRejected(offset, length, sz) || ret < 0 then -1 else ret
  }

  /** How the write loop ends: every byte written, a write failed, or the recorded write results ran out first. */
  datatype WriteResult = Done(total: int) | Failed | Pending(total: int)

  /**
   * The write-all loop over the results the successive asocket_write calls
   * return: a negative result fails, any other result advances by that many
   * bytes, until nothing is left to write.
   */
  function Drain(length: int, writes: seq<int>): (r: WriteResult)
    decreases |writes|
  {
    if length <= 0 then Done(0)
    else if writes == [] then Pending(0)
    else if writes[0] < 0 then Failed
    else
      match Drain(length - writes[0], writes[1..])
      case Done(t) => Done(t + writes[0])
      case Failed => Failed
      case Pending(t) => Pending(t + writes[0])
  }

  /** Each write returns at most the count it was asked for, as write(2) does. */
  ghost predicate WritesWithinRequest(length: int, writes: seq<int>)
    decreases |writes|
  {
    length <= 0 || writes == [] || (writes[0] <= length && WritesWithinRequest(length - writes[0], writes[1..]))
  }

  /** A finished write returns the original length when no write overshoots. */
  lemma {:induction false} DrainReturnsLength(length: int, writes: seq<int>)
    requires length > 0 && WritesWithinRequest(length, writes)
    ensures Drain(length, writes).Done? ==> Drain(length, writes).total == length
    decreases |writes|
  {
    if writes != [] && writes[0] >= 0 {
      if length - writes[0] > 0 {
        DrainReturnsLength(length - writes[0], writes[1..]);
      }
    }
  }

  /** A negative result anywhere before the last byte makes the whole write fail. */
  lemma {:induction false} DrainFailsOnError(length: int, writes: seq<int>, k: nat)
    requires k < |writes| && writes[k] < 0
    requires forall j :: 0 <= j < k ==> writes[j] >= 0
    requires length - Sum(writes[..k]) > 0
    ensures Drain(length, writes) == Failed
    decreases k
  {
    SumNonNegative(writes[..k]);
    if k > 0 {
      assert writes[..k] == [writes[0]] + writes[1..][..k - 1];
      assert Sum(writes[..k]) == writes[0] + Sum(writes[1..][..k - 1]);
      DrainFailsOnError(length - writes[0], writes[1..], k - 1);
    }
  }

  function Sum(s: seq<int>): int {
    if s == [] then 0 else s[0] + Sum(s[1..])
  }

  lemma {:induction false} SumNonNegative(s: seq<int>)
    requires forall j :: 0 <= j < |s| ==> s[j] >= 0
    ensures Sum(s) >= 0
  {
    if s != [] {
      SumNonNegative(s[1..]);
    }
  }

  /** The result of the loop after it has written total bytes and read k write results. */
  function Shifted(r: WriteResult, total: int): WriteResult {
    match r
    case Done(t) => Done(t + total)
    case Failed => Failed
    case Pending(t) => Pending(t + total)
  }

  /**
   * writeNative's loop: offset and total advance by every write and length
   * shrinks by the same amount; a negative write returns -1.  The returned
   * offset is where the next byte would have come from.
   */
  method WriteAll(offset0: int, length0: int, writes: seq<int>) returns (rc: int, offset: int, finished: bool)
    ensures var d := Drain(length0, writes);
      finished == !d.Pending? && (d.Failed? ==> rc == -1) && (d.Done? ==> rc == d.total)
    ensures !Drain(length0, writes).Failed? ==> offset == offset0 + Drain(length0, writes).total
  {
    var total := 0;
    var length := length0;
    var k := 0;
    offset := offset0;
    assert writes[0..] == writes;
    while length > 0 && k < |writes|
      invariant k <= |writes| && length == length0 - total && offset == offset0 + total
      invariant Drain(length0, writes) == Shifted(Drain(length, writes[k..]), total)
    {
      var ret := writes[k];
      assert writes[k..][1..] == writes[k + 1..];
      if ret < 0 {
        return -1, offset, true;
      }
      offset := offset + ret;
      total := total + ret;
      length := length - ret;
      k := k + 1;
    }
    if length > 0 {
      assert writes[k..] == [];
      return total, offset, false;
    }
    return total, offset, true;
  }

  /** writeNative: the checks before the loop, then the loop. */
  method WriteNative(present: bool, bufPresent: bool, offset: Int32, length: Int32, sz: Int32, writes: seq<int>)
    returns (rc: int, finished: bool)
    ensures !present || !bufPresent || RangeRejected(offset, length, sz) ==> rc == -1 && finished
    ensures present && bufPresent && !RangeRejected(offset, length, sz) ==>
      var d := Drain(length, writes);
      finished == !d.Pending? && (d.Failed? ==> rc == -1) && (d.Done? ==> rc == d.total)
  {
    if !present || !bufPresent || RangeRejected(offset, length, sz) {
      return -1, true;
    }
    var end;
    rc, end, finished := WriteAll(offset, length, writes);
  }

  // ---------------------------------------------------------------------------
  // connectNative and bindListenNative

  /** A connect attempt fails with EALREADY (an ACL collision). */
  predicate Collision(result: (int, int)) {
    result.0 != 0 && result.1 == EAlready
  }

  /** The number of connect attempts made from retry count `retry` on, given what each attempt returns. */
  function Attempts(connect: nat -> (int, int), retry: nat): (n: nat)
    requires retry <= 2
    ensures 1 <= n <= 3 - retry
    decreases 2 - retry
  {
    if Collision(connect(retry)) && retry < 2 then 1 + Attempts(connect, retry + 1) else 1
  }

  /** Only collisions are retried, and at most twice. */
  lemma {:induction false} AttemptsMeaning(connect: nat -> (int, int), retry: nat)
    requires retry <= 2
    ensures forall k :: retry <= k < retry + Attempts(connect, retry) - 1 ==> Collision(connect(k))
    ensures retry + Attempts(connect, retry) == 3 || !Collision(connect(retry + Attempts(connect, retry) - 1))
    decreases 2 - retry
  {
    if Collision(connect(retry)) && retry < 2 {
      AttemptsMeaning(connect, retry + 1);
    }
  }

  /** How connectNative ends. */
  datatype ConnectOutcome = NoSocket | BadAddress | UnknownType | Connected(ret: int, attempts: nat)

  /** connectNative: connect(i) is what the i-th attempt returns (its result and errno). */
  method ConnectNative(present: bool, address: string, t: int, connect: nat -> (int, int)) returns (r: ConnectOutcome)
    ensures !present ==> r == NoSocket
    ensures present && ParseBdaddr(address).None? ==> r == BadAddress
    ensures present && ParseBdaddr(address).Some? && t != TypeRfcomm && t != TypeSco && t != TypeL2cap ==> r == UnknownType
    ensures present && ParseBdaddr(address).Some? && (t == TypeRfcomm || t == TypeSco || t == TypeL2cap) ==> r.Connected?
    ensures r.Connected? ==> r.attempts == Attempts(connect, 0) && r.ret == connect(r.attempts - 1).0
  {
    if !present {
      return NoSocket;
    }
    var ba := new Byte[6];
    var bad := GetBdaddr(address, ba);
    if bad != 0 {
      return BadAddress;
    }
    if t != TypeRfcomm && t != TypeSco && t != TypeL2cap {
      return UnknownType;
    }
    var retry := 0;
    var result := connect(0);
    while Collision(result) && retry < 2
      invariant retry <= 2 && result == connect(retry)
      invariant Attempts(connect, 0) == retry + Attempts(connect, retry)
      decreases 2 - retry
    {
      retry := retry + 1;
      result := connect(retry);
    }
    return Connected(result.0, retry + 1);
  }

  /** bindListenNative: EINVAL without a socket, ENOSYS for an unknown type, else the errno of bind or listen, else 0. */
  function BindListenNative(present: bool, t: int, bindErrno: int, listenErrno: int): (r: int)
    ensures !present ==> r == EInval
    ensures present && t != TypeRfcomm && t != TypeSco && t != TypeL2cap ==> r == ENosys
    ensures r == 0 <==> present && (t == TypeRfcomm || t == TypeSco || t == TypeL2cap) && bindErrno == 0 && listenErrno == 0
    ensures present && (t == TypeRfcomm || t == TypeSco || t == TypeL2cap) ==>
      (bindErrno != 0 ==> r == bindErrno) && (bindErrno == 0 ==> r == listenErrno)
  {
    if !present then EInval
    else if t != TypeRfcomm && t != TypeSco && t != TypeL2cap then ENosys
    else if bindErrno != 0 then bindErrno
    else if listenErrno != 0 then listenErrno
    else 0
  }
}
