/**
 * The event loop of service.cpp: the watch callbacks that libdbus calls turn
 * into commands on the control channel, and process_control applies them to
 * the poll table, two parallel arrays (poll entries and their watches) with a
 * live count and a capacity.
 */
module EventLoop {
  import opened CLib
  import opened BtConst

  // ---------------------------------------------------------------------------
  // Event bits

  // poll(2) event bits
  const PollIn: bv32 := 0x001
  const PollPri: bv32 := 0x002
  const PollOut: bv32 := 0x004
  const PollErr: bv32 := 0x008
  const PollHup: bv32 := 0x010

  // libdbus watch flags
  const WatchReadable: bv32 := 0x1
  const WatchWritable: bv32 := 0x2
  const WatchError: bv32 := 0x4
  const WatchHangup: bv32 := 0x8

  /**
   * unix_events_to_dbus_flags as its body reads: it tests the watch bits of
   * its argument and produces the matching poll bits.
   */
  function UnixEventsToDbusFlags(events: bv32): bv32 {
    (if events & WatchReadable != 0 then PollIn else 0)
    | (if events & WatchWritable != 0 then PollOut else 0)
    | (if events & WatchError != 0 then PollErr else 0)
    | (if events & WatchHangup != 0 then PollHup else 0)
  }

  /**
   * dbus_flags_to_unix_events as its body reads: it tests the poll bits of
   * its argument and produces the matching watch bits.
   */
  function DbusFlagsToUnixEvents(flags: bv32): bv32 {
    (if flags & PollIn != 0 then WatchReadable else 0)
    | (if flags & PollOut != 0 then WatchWritable else 0)
    | (if flags & PollErr != 0 then WatchError else 0)
    | (if flags & PollHup != 0 then WatchHangup else 0)
  }

  /** Converting with one and back with the other keeps exactly the four watch bits. */
  lemma ConvertersRoundTrip(e: bv32)
    ensures DbusFlagsToUnixEvents(UnixEventsToDbusFlags(e)) == e & 0xF
  {
  }

  /** The poll events process_control registers for a watch, as written: the flags go through dbus_flags_to_unix_events. */
  function WatchEventsAsWritten(flags: bv32): bv32 {
    DbusFlagsToUnixEvents(flags)
  }

  /** The flags eventLoopMain hands to the watch, as written: the returned events go through unix_events_to_dbus_flags. */
  function ReadyFlagsAsWritten(revents: bv32): bv32 {
    UnixEventsToDbusFlags(revents)
  }

  /**
   * As written, a watch waiting to write is registered with no poll event at
   * all, and a socket ready for writing is reported to libdbus as a hang-up.
   */
  lemma ConvertersSwappedAtUse()
    ensures WatchEventsAsWritten(WatchWritable) == 0
    ensures ReadyFlagsAsWritten(PollOut) == WatchHangup
  {
  }

  /** The poll events for a watch: each watch flag becomes its poll bit. */
  function WatchEvents(flags: bv32): bv32 {
    UnixEventsToDbusFlags(flags)
  }

  /** The watch flags for the events poll returned: each poll bit becomes its watch flag. */
  function ReadyFlags(revents: bv32): bv32 {
    DbusFlagsToUnixEvents(revents)
  }

  /** The corrected conversions carry each condition to its counterpart, in both directions. */
  lemma ConversionsMeaning(flags: bv32, revents: bv32)
    ensures WatchEvents(flags) & PollIn != 0 <==> flags & WatchReadable != 0
    ensures WatchEvents(flags) & PollOut != 0 <==> flags & WatchWritable != 0
    ensures WatchEvents(flags) & PollErr != 0 <==> flags & WatchError != 0
    ensures WatchEvents(flags) & PollHup != 0 <==> flags & WatchHangup != 0
    ensures WatchEvents(flags) & !(PollIn | PollOut | PollErr | PollHup) == 0
    ensures ReadyFlags(revents) & WatchReadable != 0 <==> revents & PollIn != 0
    ensures ReadyFlags(revents) & WatchWritable != 0 <==> revents & PollOut != 0
    ensures ReadyFlags(revents) & WatchError != 0 <==> revents & PollErr != 0
    ensures ReadyFlags(revents) & WatchHangup != 0 <==> revents & PollHup != 0
  {
  }

  // ---------------------------------------------------------------------------
  // Control commands

  /** A libdbus watch: its identity (the pointer), its descriptor, its flags and whether it is enabled. */
  datatype Watch = Watch(id: int, fd: int, flags: bv32, enabled: bool)

  /** A record on the control channel. */
  datatype Command =
    | Exit
    | Add(fd: int, flags: bv32, watch: int)
    | Remove(fd: int, flags: bv32)
    | Wakeup
    | Unknown(tag: int)

  /** dbusAddWatch: an enabled watch is announced with ADD; a disabled one sends nothing. */
  function AddWatchCommands(w: Watch): (r: seq<Command>)
    ensures |r| <= 1 && (r != [] <==> w.enabled)
  {
    if w.enabled then [Add(w.fd, w.flags, w.id)] else []
  }

  /** dbusRemoveWatch: REMOVE with the watch's descriptor and flags, enabled or not. */
  function RemoveWatchCommands(w: Watch): (r: seq<Command>)
    ensures r == [Remove(w.fd, w.flags)]
  {
    [Remove(w.fd, w.flags)]
  }

  /** dbusToggleWatch: add when the watch is now enabled, remove otherwise. */
  function ToggleWatchCommands(w: Watch): (r: seq<Command>)
    ensures |r| == 1
    ensures r[0].Add? <==> w.enabled
  {
    if w.enabled then AddWatchCommands(w) else RemoveWatchCommands(w)
  }

  /** dbusWakeup: a WAKEUP record. */
  function WakeupCommands(): (r: seq<Command>)
    ensures r == [Wakeup]
  {
    [Wakeup]
  }

  // ---------------------------------------------------------------------------
  // The table, as values

  /** One poll entry: descriptor, requested events, returned events. */
  datatype PollFd = PollFd(fd: int, events: bv32, revents: bv32)

  /** The live part of the table: the entries, their watches, and the capacity. */
  datatype TableState = TableState(polls: seq<PollFd>, watches: seq<int>, size: nat)

  ghost predicate WellFormed(st: TableState) {
    |st.polls| == |st.watches| <= st.size
  }

  /** The first live entry with this descriptor and these events, or the count when there is none. */
  function FindEntry(polls: seq<PollFd>, fd: int, events: bv32, i: nat): (y: nat)
    requires i <= |polls|
    ensures i <= y <= |polls|
    ensures forall j :: i <= j < y ==> !(polls[j].fd == fd && polls[j].events == events)
    ensures y < |polls| ==> polls[y].fd == fd && polls[y].events == events
    decreases |polls| - i
  {
    if i == |polls| || (polls[i].fd == fd && polls[i].events == events) then i
    else FindEntry(polls, fd, events, i + 1)
  }

  /** Slot y overwritten by the last slot, and the last slot dropped. */
  function MoveLastTo<T>(s: seq<T>, y: nat): (r: seq<T>)
    requires y < |s|
    ensures |r| == |s| - 1
    ensures forall i :: 0 <= i < |r| && i != y ==> r[i] == s[i]
    ensures y < |r| ==> r[y] == s[|s| - 1]
  {
    s[y := s[|s| - 1]][..|s| - 1]
  }

  /**
   * ADD on the table: a duplicate (descriptor, events) pair ends the process
   * (None); otherwise the entry goes to the end with no returned events, and
   * a full table grows by exactly one slot.
   */
  function AddSpec(st: TableState, fd: int, events: bv32, watch: int): Option<TableState> {
    if FindEntry(st.polls, fd, events, 0) < |st.polls| then None
    else Some(TableState(st.polls + [PollFd(fd, events, 0)], st.watches + [watch],
                         if |st.polls| == st.size then st.size + 1 else st.size))
  }

  /** REMOVE on the table: the first matching entry is overwritten by the last one; no match changes nothing. */
  function RemoveSpec(st: TableState, fd: int, events: bv32): TableState
    requires WellFormed(st)
  {
    var y := FindEntry(st.polls, fd, events, 0);
    if y == |st.polls| then st
    else TableState(MoveLastTo(st.polls, y), MoveLastTo(st.watches, y), st.size)
  }

  /** Why process_control stopped reading: the channel ran dry, EXIT was read, or a duplicate ADD ended the process. */
  datatype Stop = Drained | Exited | Aborted

  /** What one command does: the table it leaves, or why reading stops. */
  datatype StepResult = Continue(next: TableState) | Halt(stop: Stop)

  function Step(st: TableState, c: Command): (r: StepResult)
    requires WellFormed(st)
    ensures r.Continue? ==> WellFormed(r.next)
    ensures r.Halt? ==> (r.stop == Exited && c.Exit?) || (r.stop == Aborted && c.Add?)
  {
    match c
    case Exit => Halt(Exited)
    case Add(fd, flags, w) =>
      (match AddSpec(st, fd, WatchEvents(flags), w)
       case None => Halt(Aborted)
       case Some(st') => Continue(st'))
    case Remove(fd, flags) => Continue(RemoveSpec(st, fd, WatchEvents(flags)))
    case Wakeup => Continue(st)
    case Unknown(_) => Continue(st)
  }

  /** process_control over a queue of commands: the table afterwards, why it stopped, and how many commands it read. */
  function RunSpec(st: TableState, cmds: seq<Command>): (r: (TableState, Stop, nat))
    requires WellFormed(st)
    ensures WellFormed(r.0) && r.2 <= |cmds|
    ensures r.1 == Drained ==> r.2 == |cmds| && forall i :: 0 <= i < |cmds| ==> !cmds[i].Exit?
    ensures r.1 == Exited ==> 1 <= r.2 && cmds[r.2 - 1].Exit?
    ensures r.1 == Aborted ==> 1 <= r.2 && cmds[r.2 - 1].Add?
    decreases |cmds|
  {
    if cmds == [] then (st, Drained, 0)
    else
      match Step(st, cmds[0])
      case Halt(k) => (st, k, 1)
      case Continue(st') =>
        var r := RunSpec(st', cmds[1..]);
        assert forall i :: 1 <= i < |cmds| ==> cmds[1..][i - 1] == cmds[i];
        assert r.2 >= 1 ==> cmds[1..][r.2 - 1] == cmds[r.2];
        (r.0, r.1, r.2 + 1)
  }

  /** One command off the front of the queue. */
  lemma RunSpecUnfold(st: TableState, cmds: seq<Command>, i: nat)
    requires WellFormed(st) && i < |cmds|
    ensures Step(st, cmds[i]).Halt? ==> RunSpec(st, cmds[i..]) == (st, Step(st, cmds[i]).stop, 1)
    ensures Step(st, cmds[i]).Continue? ==>
      var r := RunSpec(Step(st, cmds[i]).next, cmds[i + 1..]);
      RunSpec(st, cmds[i..]) == (r.0, r.1, r.2 + 1)
  {
    assert cmds[i..][0] == cmds[i] && cmds[i..][1..] == cmds[i + 1..];
  }

  /** A command that halts the run ends it right there, with the table unchanged. */
  lemma HaltEnds(total: (TableState, Stop, nat), st: TableState, cmds: seq<Command>, i: nat)
    requires i < |cmds| && Continues(total, st, cmds, i) && Step(st, cmds[i]).Halt?
    ensures total == (st, if cmds[i].Exit? then Exited else Aborted, i + 1)
  {
    RunSpecUnfold(st, cmds, i);
  }

  /** A command that continues leaves the rest of the run to the new table. */
  lemma ContinueGoesOn(total: (TableState, Stop, nat), st: TableState, st': TableState, cmds: seq<Command>, i: nat)
    requires i < |cmds| && Continues(total, st, cmds, i) && Step(st, cmds[i]) == Continue(st')
    ensures Continues(total, st', cmds, i + 1)
  {
    RunSpecUnfold(st, cmds, i);
  }

  /** What is left of a run after i commands that all continued, with the table at st. */
  ghost predicate Continues(total: (TableState, Stop, nat), st: TableState, cmds: seq<Command>, i: nat)
    requires i <= |cmds|
  {
    WellFormed(st) && var r := RunSpec(st, cmds[i..]); total == (r.0, r.1, r.2 + i)
  }

  // ---------------------------------------------------------------------------
  // Properties of the table

  /** No two live entries share a (descriptor, events) pair. */
  ghost predicate UniqueKeys(polls: seq<PollFd>) {
    forall i, j :: 0 <= i < j < |polls| ==> !(polls[i].fd == polls[j].fd && polls[i].events == polls[j].events)
  }

  /** ADD keeps the count within the capacity and the pairs unique. */
  lemma AddPreserves(st: TableState, fd: int, events: bv32, watch: int)
    requires WellFormed(st) && UniqueKeys(st.polls)
    ensures AddSpec(st, fd, events, watch).Some? ==>
      WellFormed(AddSpec(st, fd, events, watch).value) && UniqueKeys(AddSpec(st, fd, events, watch).value.polls)
  {
  }

  /** REMOVE keeps the count within the capacity and the pairs unique. */
  lemma RemovePreserves(st: TableState, fd: int, events: bv32)
    requires WellFormed(st) && UniqueKeys(st.polls)
    ensures WellFormed(RemoveSpec(st, fd, events)) && UniqueKeys(RemoveSpec(st, fd, events).polls)
  {
    var y := FindEntry(st.polls, fd, events, 0);
    if y < |st.polls| {
      var r := MoveLastTo(st.polls, y);
      forall i, j | 0 <= i < j < |r|
        ensures !(r[i].fd == r[j].fd && r[i].events == r[j].events)
      {
        var i0 := if i == y then |st.polls| - 1 else i;
        var j0 := if j == y then |st.polls| - 1 else j;
        assert r[i] == st.polls[i0] && r[j] == st.polls[j0] && i0 != j0;
      }
    }
  }

  /** Any queue of commands keeps the pairs unique. */
  lemma {:induction false} RunPreservesUniqueKeys(st: TableState, cmds: seq<Command>)
    requires WellFormed(st) && UniqueKeys(st.polls)
    ensures UniqueKeys(RunSpec(st, cmds).0.polls)
    decreases |cmds|
  {
    if cmds != [] {
      match cmds[0]
      case Exit =>
      case Add(fd, flags, w) =>
        AddPreserves(st, fd, WatchEvents(flags), w);
        if AddSpec(st, fd, WatchEvents(flags), w).Some? {
          RunPreservesUniqueKeys(AddSpec(st, fd, WatchEvents(flags), w).value, cmds[1..]);
        }
      case Remove(fd, flags) =>
        RemovePreserves(st, fd, WatchEvents(flags));
        RunPreservesUniqueKeys(RemoveSpec(st, fd, WatchEvents(flags)), cmds[1..]);
      case Wakeup =>
        RunPreservesUniqueKeys(st, cmds[1..]);
      case Unknown(_) =>
        RunPreservesUniqueKeys(st, cmds[1..]);
    }
  }

  /** Removing what was just added gives back the entries and watches from before. */
  lemma AddThenRemove(st: TableState, fd: int, events: bv32, watch: int)
    requires WellFormed(st) && AddSpec(st, fd, events, watch).Some?
    ensures var st' := RemoveSpec(AddSpec(st, fd, events, watch).value, fd, events);
      st'.polls == st.polls && st'.watches == st.watches
  {
    var a := AddSpec(st, fd, events, watch).value;
    var n := |st.polls|;
    assert FindEntry(st.polls, fd, events, 0) == n;
    assert a.polls[n] == PollFd(fd, events, 0);
    assert forall j :: 0 <= j < n ==> a.polls[j] == st.polls[j];
    assert FindEntry(a.polls, fd, events, 0) == n;
    assert a.polls[..|st.polls|] == st.polls;
    assert a.watches[..|st.polls|] == st.watches;
  }

  /**
   * Toggling a watch on and then off through the control channel leaves the
   * entries as they were, unless the watch was already in the table.
   */
  lemma ToggleOnOff(st: TableState, w: Watch)
    requires WellFormed(st) && FindEntry(st.polls, w.fd, WatchEvents(w.flags), 0) == |st.polls|
    ensures var on := RunSpec(st, ToggleWatchCommands(w.(enabled := true)));
      var off := RunSpec(on.0, ToggleWatchCommands(w.(enabled := false)));
      on.1 == Drained && off.1 == Drained && off.0.polls == st.polls && off.0.watches == st.watches
  {
    var cmds := ToggleWatchCommands(w.(enabled := true));
    assert cmds[1..] == [];
    var cmds2 := ToggleWatchCommands(w.(enabled := false));
    assert cmds2[1..] == [];
    AddThenRemove(st, w.fd, WatchEvents(w.flags), w.id);
  }

  /** EXIT stops the reading: nothing after it is applied. */
  lemma ExitStops(st: TableState, cmds: seq<Command>)
    requires WellFormed(st)
    ensures RunSpec(st, [Exit] + cmds) == (st, Exited, 1)
  {
  }

  /** WAKEUP and unknown records change nothing. */
  lemma IgnoredCommands(st: TableState, c: Command, cmds: seq<Command>)
    requires WellFormed(st) && (c.Wakeup? || c.Unknown?)
    ensures RunSpec(st, [c] + cmds).0 == RunSpec(st, cmds).0
  {
    assert ([c] + cmds)[1..] == cmds;
  }

  // ---------------------------------------------------------------------------
  // The table, in place

  class WatchTable {
    /** pollData: the poll entries. */
    var pollData: array<PollFd>
    /** watchData: the watch of each entry, at the same index. */
    var watchData: array<int>
    /** pollMemberCount: the number of live entries. */
    var count: nat
    /** pollDataSize: the capacity of both arrays. */
    var size: nat

    ghost predicate Valid()
      reads this
    {
      pollData.Length == size && watchData.Length == size && count <= size
    }

    ghost function State(): (st: TableState)
      reads this, pollData, watchData
      requires Valid()
      ensures WellFormed(st)
    {
      TableState(pollData[..count], watchData[..count], size)
    }

    /**
     * The table eventLoopMain starts with: DEFAULT_INITIAL_POLLFD_COUNT zeroed
     * slots, the first holding the control descriptor waiting for input.
     */
    constructor (controlFd: int)
      ensures Valid() && fresh(pollData) && fresh(watchData)
      ensures State() == TableState([PollFd(controlFd, PollIn, 0)], [0], DefaultInitialPollFdCount)
    {
      pollData := new PollFd[DefaultInitialPollFdCount](_ => PollFd(0, 0, 0));
      watchData := new int[DefaultInitialPollFdCount](_ => 0);
      count := 1;
      size := DefaultInitialPollFdCount;
      new;
      pollData[0] := PollFd(controlFd, PollIn, 0);
    }

    /** The duplicate search of ADD and REMOVE: the first live entry with this pair, or the count. */
    method Find(fd: int, events: bv32) returns (y: nat)
      requires Valid()
      ensures y == FindEntry(State().polls, fd, events, 0)
    {
      y := 0;
      while y < count && !(pollData[y].fd == fd && pollData[y].events == events)
        invariant y <= count
        invariant FindEntry(State().polls, fd, events, 0) == FindEntry(State().polls, fd, events, y)
      {
        y := y + 1;
      }
    }

    /** The growth step: both arrays are replaced by copies one slot longer. */
    method Grow()
      requires Valid() && count == size
      modifies this
      ensures Valid() && fresh(pollData) && fresh(watchData)
      ensures count == old(count) && size == old(size) + 1
      ensures pollData[..count] == old(pollData[..count]) && watchData[..count] == old(watchData[..count])
    {
      var temp := new PollFd[count + 1](_ => PollFd(0, 0, 0));
      var temp2 := new int[count + 1](_ => 0);
      var i := 0;
      while i < count
        modifies temp, temp2
        invariant i <= count
        invariant temp[..i] == pollData[..i] && temp2[..i] == watchData[..i]
      {
        temp[i] := pollData[i];
        temp2[i] := watchData[i];
        i := i + 1;
      }
      pollData := temp;
      watchData := temp2;
      size := size + 1;
    }

    /** Writes a new entry into the first free slot, with no returned events, and counts it. */
    method Append(fd: int, events: bv32, watch: int)
      requires Valid() && count < size
      modifies this, pollData, watchData
      ensures Valid() && pollData == old(pollData) && watchData == old(watchData)
      ensures State() == TableState(old(State()).polls + [PollFd(fd, events, 0)], old(State()).watches + [watch], size)
      ensures size == old(size)
    {
      pollData[count] := PollFd(fd, events, 0);
      watchData[count] := watch;
      count := count + 1;
      assert pollData[..count] == old(pollData[..count]) + [PollFd(fd, events, 0)];
      assert watchData[..count] == old(watchData[..count]) + [watch];
    }

    /** EVENT_LOOP_ADD: refuses a duplicate pair (the process exits), otherwise appends, growing a full table by one. */
    method AddEntry(fd: int, flags: bv32, watch: int) returns (exited: bool)
      requires Valid()
      modifies this, pollData, watchData
      ensures Valid()
      ensures pollData == old(pollData) || fresh(pollData)
      ensures watchData == old(watchData) || fresh(watchData)
      ensures var r := AddSpec(old(State()), fd, WatchEvents(flags), watch);
        (exited <==> r.None?) && (r.Some? ==> State() == r.value) && (r.None? ==> State() == old(State()))
    {
      var events := WatchEvents(flags);
      var y := Find(fd, events);
      if y < count {
        return true;
      }
      if count == size {
        Grow();
      }
      Append(fd, events, watch);
      exited := false;
    }

    /** EVENT_LOOP_REMOVE: the first matching entry takes the last live entry's place and the count drops. */
    method RemoveEntry(fd: int, flags: bv32)
      requires Valid()
      modifies this, pollData, watchData
      ensures Valid() && pollData == old(pollData) && watchData == old(watchData)
      ensures State() == RemoveSpec(old(State()), fd, WatchEvents(flags))
    {
      var events := WatchEvents(flags);
      var y := Find(fd, events);
      if y < count {
        ghost var polls, watches := pollData[..count], watchData[..count];
        count := count - 1;
        pollData[y] := pollData[count];
        assert pollData[..count] == MoveLastTo(polls, y);
        watchData[y] := watchData[count];
        assert watchData[..count] == MoveLastTo(watches, y);
      }
    }

    /** One command of process_control's switch: ADD and REMOVE edit the table, EXIT and a refused ADD stop the loop. */
    method Apply(c: Command) returns (halt: bool)
      requires Valid()
      modifies this, pollData, watchData
      ensures Valid()
      ensures pollData == old(pollData) || fresh(pollData)
      ensures watchData == old(watchData) || fresh(watchData)
      ensures halt ==> Step(old(State()), c).Halt? && State() == old(State())
      ensures !halt ==> Step(old(State()), c) == Continue(State())
    {
      match c {
        case Exit =>
          halt := true;
        case Add(fd, flags, w) =>
          halt := AddEntry(fd, flags, w);
        case Remove(fd, flags) =>
          RemoveEntry(fd, flags);
          halt := false;
        case Wakeup =>
          halt := false;
        case Unknown(_) =>
          halt := false;
      }
    }

    /** process_control: reads commands until the channel is empty, EXIT arrives, or a duplicate ADD ends the process. */
    method ProcessControl(cmds: seq<Command>) returns (stop: Stop, consumed: nat)
      requires Valid()
      modifies this, pollData, watchData
      ensures Valid()
      ensures (State(), stop, consumed) == RunSpec(old(State()), cmds)
    {
      ghost var total := RunSpec(State(), cmds);
      assert cmds[0..] == cmds;
      var i := 0;
      stop := Drained;
      while i < |cmds| && stop == Drained
        invariant Valid() && i <= |cmds|
        invariant pollData == old(pollData) || fresh(pollData)
        invariant watchData == old(watchData) || fresh(watchData)
        invariant stop == Drained ==> Continues(total, State(), cmds, i)
        invariant stop != Drained ==> total == (State(), stop, i)
      {
        ghost var st := State();
        var halt := Apply(cmds[i]);
        if halt {
          HaltEnds(total, st, cmds, i);
          stop := if cmds[i].Exit? then Exited else Aborted;
        } else {
          ContinueGoesOn(total, st, State(), cmds, i);
        }
        i := i + 1;
      }
      if stop == Drained {
        assert cmds[i..] == [];
      }
      consumed := i;
    }
  }
}
