/**
 * The inputtest tool: the list of device-class names printed for a class
 * mask, the symbolic names of the absolute axes, the choice between the raw
 * event dump and the device listing, and the event loop that ends after the
 * batch holding the end of the device scan.  EventHub is represented by the
 * batches of events getEvents returns; the per-device queries are left out.
 */
module InputTest {
  import opened CLib

  // ---------------------------------------------------------------------------
  // Device classes

  /** INPUT_DEVICE_CLASS_* of the Android input EventHub. */
  const ClassKeyboard: bv32 := 0x0000_0001
  const ClassAlphakey: bv32 := 0x0000_0002
  const ClassTouch: bv32 := 0x0000_0004
  const ClassCursor: bv32 := 0x0000_0008
  const ClassTouchMt: bv32 := 0x0000_0010
  const ClassDpad: bv32 := 0x0000_0020
  const ClassGamepad: bv32 := 0x0000_0040
  const ClassSwitch: bv32 := 0x0000_0080
  const ClassJoystick: bv32 := 0x0000_0100
  const ClassExternal: bv32 := 0x8000_0000

  datatype ClassName = ClassName(bits: bv32, name: string)

  /** s_class_names, with its terminating { 0, "" } row. */
  const ClassNames: seq<ClassName> := [
    ClassName(ClassKeyboard, "keyboard"),
    ClassName(ClassAlphakey, "alphakeyboard"),
    ClassName(ClassTouch, "touch"),
    ClassName(ClassCursor, "cursor"),
    ClassName(ClassTouchMt, "multitouch"),
    ClassName(ClassDpad, "directional_pad"),
    ClassName(ClassGamepad, "game_pad"),
    ClassName(ClassSwitch, "switch"),
    ClassName(ClassJoystick, "joystick"),
    ClassName(ClassExternal, "external"),
    ClassName(0, "")
  ]

  /** The rows before the terminator. */
  const ClassRows := 10

  /** A table in the form of s_class_names: rows with bits, then one row without. */
  predicate Terminated(table: seq<ClassName>) {
    |table| > 0 && table[|table| - 1].bits == 0 && forall i :: 0 <= i < |table| - 1 ==> table[i].bits != 0
  }

  /** A row's bits meet the mask. */
  predicate Meets(row: ClassName, k: bv32) {
    row.bits & k != 0
  }

  /** The names, among the first n rows, of those whose bits meet the mask k, in table order. */
  function Selected(table: seq<ClassName>, k: bv32, n: nat): (r: seq<string>)
    requires n <= |table|
    ensures |r| <= n
  {
    if n == 0 then []
    else Selected(table, k, n - 1) + (if Meets(table[n - 1], k) then [table[n - 1].name] else [])
  }

  /** Names separated by single spaces, with none before the first. */
  function Spaced(names: seq<string>): string {
    if names == [] then []
    else if |names| == 1 then names[0]
    else Spaced(names[..|names| - 1]) + " " + names[|names| - 1]
  }

  /**
   * dump_class: walks the table to its terminator, printing the name of every
   * row that meets k, after a space from the second one on.  The table is
   * s_class_names (see ClassNamesShape).
   */
  method DumpClass(table: seq<ClassName>, k: bv32) returns (out: string)
    requires Terminated(table)
    ensures out == Spaced(Selected(table, k, |table| - 1))
  {
    out := [];
    var count := 0;
    var i := 0;
    ghost var chosen: seq<string> := [];
    while table[i].bits != 0
      invariant 0 <= i < |table| && chosen == Selected(table, k, i)
      invariant count == |chosen| && out == Spaced(chosen)
      decreases |table| - i
    {
      var row := table[i];
      SelectedStep(table, k, i);
      if Meets(row, k) {
        SpacedPush(chosen, row.name);
        if count > 0 {
          out := out + " " + row.name;
        } else {
          out := row.name;
        }
        count := count + 1;
        chosen := chosen + [row.name];
      }
      i := i + 1;
    }
  }

  lemma SelectedStep(table: seq<ClassName>, k: bv32, i: nat)
    requires i < |table|
    ensures Selected(table, k, i + 1) == Selected(table, k, i) + (if Meets(table[i], k) then [table[i].name] else [])
  {
  }

  /** Appending a name adds it after a space, or alone when it is the first. */
  lemma SpacedPush(prior: seq<string>, name: string)
    ensures Spaced(prior + [name]) == if prior == [] then name else Spaced(prior) + " " + name
  {
    assert (prior + [name])[..|prior|] == prior;
  }

  /** The union of the class bits. */
  const AllClasses: bv32 := 0x8000_01FF

  /** s_class_names is terminated, its names are non-empty and start with a letter, and each class is its own bit of AllClasses. */
  lemma ClassNamesShape()
    ensures Terminated(ClassNames) && |ClassNames| == ClassRows + 1
    ensures forall i :: 0 <= i < ClassRows ==> ClassNames[i].name != [] && ClassNames[i].name[0] != ' '
    ensures forall i :: 0 <= i < ClassRows ==> ClassNames[i].bits & AllClasses == ClassNames[i].bits
  {
  }

  lemma {:induction false} SelectedOnly(table: seq<ClassName>, k: bv32, j: nat, n: nat)
    requires j < n <= |table|
    requires forall i :: 0 <= i < n ==> (Meets(table[i], k) <==> i == j)
    ensures Selected(table, k, n) == [table[j].name]
  {
    if n - 1 > j {
      SelectedOnly(table, k, j, n - 1);
    } else {
      NoneSelected(table, k, n - 1);
    }
  }

  lemma {:induction false} NoneSelected(table: seq<ClassName>, k: bv32, n: nat)
    requires n <= |table| && forall i :: 0 <= i < n ==> !Meets(table[i], k)
    ensures Selected(table, k, n) == []
  {
    if n > 0 {
      NoneSelected(table, k, n - 1);
    }
  }

  /** The classes are distinct single bits: one class's bit meets no other row. */
  lemma ClassBitsDistinct(i: nat, j: nat)
    requires i < ClassRows && j < ClassRows
    ensures Meets(ClassNames[i], ClassNames[j].bits) <==> i == j
  {
    var bits: seq<bv32> := [ClassKeyboard, ClassAlphakey, ClassTouch, ClassCursor, ClassTouchMt,
                            ClassDpad, ClassGamepad, ClassSwitch, ClassJoystick, ClassExternal];
    var shift: seq<bv5> := [0, 1, 2, 3, 4, 5, 6, 7, 8, 31];
    ClassRowBits(i, bits);
    ClassRowBits(j, bits);
    SingleBitAt(i, bits, shift);
    SingleBitAt(j, bits, shift);
    OneBitsMeet(shift[i], shift[j]);
  }

  /** Row i of s_class_names holds the i-th class constant. */
  lemma ClassRowBits(i: nat, bits: seq<bv32>)
    requires i < ClassRows
    requires bits == [ClassKeyboard, ClassAlphakey, ClassTouch, ClassCursor, ClassTouchMt,
                      ClassDpad, ClassGamepad, ClassSwitch, ClassJoystick, ClassExternal]
    ensures ClassNames[i].bits == bits[i]
  {
  }

  /** Each class constant is the single bit at its position. */
  lemma SingleBitAt(i: nat, bits: seq<bv32>, shift: seq<bv5>)
    requires i < ClassRows
    requires bits == [ClassKeyboard, ClassAlphakey, ClassTouch, ClassCursor, ClassTouchMt,
                      ClassDpad, ClassGamepad, ClassSwitch, ClassJoystick, ClassExternal]
    requires shift == [0, 1, 2, 3, 4, 5, 6, 7, 8, 31]
    ensures bits[i] == 1 << shift[i]
  {
  }

  /** Two single bits meet only when they are the same bit. */
  lemma OneBitsMeet(a: bv5, b: bv5)
    ensures ((1 as bv32) << a) & ((1 as bv32) << b) != 0 <==> a == b
  {
  }

  /** A mask made of one class's bit lists that class alone. */
  lemma SingleClass(j: nat)
    requires j < ClassRows
    ensures Spaced(Selected(ClassNames, ClassNames[j].bits, ClassRows)) == ClassNames[j].name
  {
    var k := ClassNames[j].bits;
    forall i | 0 <= i < ClassRows
      ensures Meets(ClassNames[i], k) <==> i == j
    {
      ClassBitsDistinct(i, j);
    }
    SelectedOnly(ClassNames, k, j, ClassRows);
  }

  /** A row whose bit is in a mask that meets AllClasses. */
  function FirstClass(k: bv32): (j: nat)
    requires k & AllClasses != 0
    ensures j < ClassRows && Meets(ClassNames[j], k)
  {
    if k & ClassKeyboard != 0 then 0
    else if k & ClassAlphakey != 0 then 1
    else if k & ClassTouch != 0 then 2
    else if k & ClassCursor != 0 then 3
    else if k & ClassTouchMt != 0 then 4
    else if k & ClassDpad != 0 then 5
    else if k & ClassGamepad != 0 then 6
    else if k & ClassSwitch != 0 then 7
    else if k & ClassJoystick != 0 then 8
    else 9
  }

  /** Every selected name is one of the table's, so none is empty or starts with a space when the table's names do not. */
  lemma {:induction false} SelectedNames(table: seq<ClassName>, k: bv32, n: nat)
    requires n <= |table|
    requires forall i :: 0 <= i < n ==> table[i].name != [] && table[i].name[0] != ' '
    ensures forall m :: 0 <= m < |Selected(table, k, n)| ==> Selected(table, k, n)[m] != [] && Selected(table, k, n)[m][0] != ' '
  {
    if n > 0 {
      SelectedNames(table, k, n - 1);
      SelectedStep(table, k, n - 1);
    }
  }

  /** A row that meets the mask makes the selection non-empty. */
  lemma {:induction false} SelectedNonEmpty(table: seq<ClassName>, k: bv32, j: nat, n: nat)
    requires j < n <= |table| && Meets(table[j], k)
    ensures Selected(table, k, n) != []
  {
    SelectedStep(table, k, n - 1);
    if n - 1 > j {
      SelectedNonEmpty(table, k, j, n - 1);
    }
  }

  lemma {:induction false} SpacedNonEmpty(names: seq<string>)
    requires names != [] && names[0] != []
    ensures Spaced(names) != [] && Spaced(names)[0] == names[0][0]
  {
    if |names| > 1 {
      SpacedNonEmpty(names[..|names| - 1]);
    }
  }

  /** dump_class prints nothing exactly when the mask shares no bit with any class, and never starts with a space. */
  lemma ClassListing(k: bv32)
    ensures Spaced(Selected(ClassNames, k, ClassRows)) == [] <==> k & AllClasses == 0
    ensures var out := Spaced(Selected(ClassNames, k, ClassRows)); out == [] || out[0] != ' '
  {
    ClassNamesShape();
    if k & AllClasses == 0 {
      forall i | 0 <= i < ClassRows
        ensures !Meets(ClassNames[i], k)
      {
        assert ClassNames[i].bits & k == (ClassNames[i].bits & AllClasses) & k;
      }
      NoneSelected(ClassNames, k, ClassRows);
    } else {
      SelectedNonEmpty(ClassNames, k, FirstClass(k), ClassRows);
      SelectedNames(ClassNames, k, ClassRows);
      SpacedNonEmpty(Selected(ClassNames, k, ClassRows));
    }
  }

  // ---------------------------------------------------------------------------
  // Absolute axes and events

  /** EV_ABS and ABS_CNT (ABS_MAX + 1) of linux/input.h. */
  const EvAbs := 3
  const AbsCnt := 0x40

  /** s_abs_name: one name per absolute-axis code 0 to 0x3f. */
  const AbsNames: seq<string> := [
    "ABS_X", "ABS_Y", "ABS_Z", "ABS_RX", "ABS_RY", "ABS_RZ", "ABS_THROTTLE", "ABS_RUDDER",
    "ABS_WHEEL", "ABS_GAS", "ABS_BRAKE", "ABS_0x0b", "ABS_0x0c", "ABS_0x0d", "ABS_0x0e", "ABS_0x0f",
    "ABS_HAT0X", "ABS_HAT0Y", "ABS_HAT1X", "ABS_HAT1Y", "ABS_HAT2X", "ABS_HAT2Y", "ABS_HAT3X", "ABS_HAT3Y",
    "ABS_PRESSURE", "ABS_DISTANCE", "ABS_TILT_X", "ABS_TILT_Y", "ABS_TOOL_WIDTH", "ABS_0x1d", "ABS_0x1e", "ABS_0x1f",
    "ABS_VOLUME", "ABS_0x21", "ABS_0x22", "ABS_0x23", "ABS_0x24", "ABS_0x25", "ABS_0x26", "ABS_0x27",
    "ABS_MISC", "ABS_0x29", "ABS_0x2a", "ABS_0x2b", "ABS_0x2c", "ABS_0x2d", "ABS_0x2e", "ABS_MT_SLOT",
    "ABS_MT_TOUCH_MAJOR", "ABS_MT_TOUCH_MINOR", "ABS_MT_WIDTH_MAJOR", "ABS_MT_WIDTH_MINOR",
    "ABS_MT_ORIENTATION", "ABS_MT_POSITION_X", "ABS_MT_POSITION_Y", "ABS_MT_TOOL_TYPE",
    "ABS_MT_BLOB_ID", "ABS_MT_TRACKING_ID", "ABS_MT_PRESSURE", "ABS_MT_DISTANCE",
    "ABS_0x3c", "ABS_0x3d", "ABS_0x3e", "ABS_0x3f"
  ]

  datatype Axis = Axis(name: string, axis: int)

  /** s_abs_axis without its { 0, 0 } terminator: the multitouch axes probed for each added device, in order. */
  const AbsAxes: seq<Axis> := [
    Axis("ABS_MT_POSITION_X", 0x35),
    Axis("ABS_MT_POSITION_Y", 0x36),
    Axis("ABS_MT_TOUCH_MAJOR", 0x30),
    Axis("ABS_MT_TOUCH_MINOR", 0x31),
    Axis("ABS_MT_WIDTH_MAJOR", 0x32),
    Axis("ABS_MT_WIDTH_MINOR", 0x33),
    Axis("ABS_MT_ORIENTATION", 0x34),
    Axis("ABS_MT_PRESSURE", 0x3a),
    Axis("ABS_MT_DISTANCE", 0x3b),
    Axis("ABS_MT_TRACKING_ID", 0x39),
    Axis("ABS_MT_SLOT", 0x2f)
  ]

  /** The two tables agree: each probed axis is an absolute code whose symbolic name is the axis's own. */
  lemma AxisTablesAgree()
    ensures |AbsNames| == AbsCnt && |AbsAxes| == 11
    ensures forall j :: 0 <= j < |AbsAxes| ==> 0 <= AbsAxes[j].axis < AbsCnt && AbsNames[AbsAxes[j].axis] == AbsAxes[j].name
  {
  }

  /** A RawEvent; the code comes from the kernel's 16-bit event code. */
  datatype RawEvent = RawEvent(when: int, deviceId: int, etype: int, code: Uint16, value: int)

  /** The name dump_event prints for an event: the axis name for absolute events with a known code, else none (numbers only). */
  function EventName(ev: RawEvent): (r: Option<string>)
    ensures r.Some? <==> ev.etype == EvAbs && ev.code < AbsCnt
    ensures r.Some? ==> r.value == AbsNames[ev.code]
  {
    if ev.etype == EvAbs && ev.code < AbsCnt then Some(AbsNames[ev.code]) else None
  }

  // ---------------------------------------------------------------------------
  // main

  /** What main does: the raw dump (no argument), the device listing (first argument starting with 'd'), or the usage exit. */
  datatype Mode = RawDump | Devices | UsageExit

  function ModeOf(args: seq<string>): (r: Mode)
    ensures r == RawDump <==> |args| <= 1
    ensures r == Devices <==> |args| > 1 && At(args[1], 0) == 'd'
  {
    if |args| > 1 then (if At(args[1], 0) == 'd' then Devices else UsageExit) else RawDump
  }

  /** EventHubInterface's synthetic event types. */
  const DeviceAdded := 0x1000_0000
  const FinishedDeviceScan := 0x3000_0000

  /** The ids of the DEVICE_ADDED events, in order. */
  function AddedIds(events: seq<RawEvent>): (r: seq<int>)
    ensures |r| <= |events|
  {
    if events == [] then []
    else AddedIds(events[..|events| - 1]) + (if events[|events| - 1].etype == DeviceAdded then [events[|events| - 1].deviceId] else [])
  }

  /** The names dump_event chooses for the events, in order. */
  function Names(events: seq<RawEvent>): (r: seq<Option<string>>)
    ensures |r| == |events| && forall i :: 0 <= i < |events| ==> r[i] == EventName(events[i])
  {
    if events == [] then [] else Names(events[..|events| - 1]) + [EventName(events[|events| - 1])]
  }

  /** The batch holds a FINISHED_DEVICE_SCAN event. */
  predicate Finishes(batch: seq<RawEvent>) {
    batch != [] && (Finishes(batch[..|batch| - 1]) || batch[|batch| - 1].etype == FinishedDeviceScan)
  }

  /** How many batches the device listing reads: up to and including the first that holds FINISHED_DEVICE_SCAN. */
  function ScanLength(batches: seq<seq<RawEvent>>): (n: nat)
    ensures n <= |batches|
    ensures forall i :: 0 <= i < n - 1 ==> !Finishes(batches[i])
    ensures n < |batches| ==> n > 0 && Finishes(batches[n - 1])
  {
    if batches == [] then 0
    else if Finishes(batches[0]) then 1
    else 1 + ScanLength(batches[1..])
  }

  /** All the events of the batches, in order. */
  function Flatten(batches: seq<seq<RawEvent>>): seq<RawEvent> {
    if batches == [] then [] else Flatten(batches[..|batches| - 1]) + batches[|batches| - 1]
  }

  /** One batch of main's event loop, with its dump_raw and show_devices flags. */
  method ProcessBatch(dumpRaw: bool, showDevices: bool, batch: seq<RawEvent>) returns (names: seq<Option<string>>, added: seq<int>, finished: bool)
    ensures names == (if dumpRaw then Names(batch) else [])
    ensures added == (if showDevices then AddedIds(batch) else [])
    ensures finished == (showDevices && Finishes(batch))
  {
    names, added, finished := [], [], false;
    for i := 0 to |batch|
      invariant names == (if dumpRaw then Names(batch[..i]) else [])
      invariant added == (if showDevices then AddedIds(batch[..i]) else [])
      invariant finished == (showDevices && Finishes(batch[..i]))
    {
      assert batch[..i + 1][..i] == batch[..i];
      if dumpRaw {
        names := names + [EventName(batch[i])];
      }
      if showDevices {
        if batch[i].etype == DeviceAdded {
          added := added + [batch[i].deviceId];
        }
        if batch[i].etype == FinishedDeviceScan {
          finished := true;
        }
      }
    }
    assert batch[..|batch|] == batch;
  }

  /**
   * main's loop after the mode choice, over the batches getEvents returns: the
   * raw dump runs as long as events come, the device listing stops after the
   * batch that ends the scan.
   */
  method EventLoop(mode: Mode, batches: seq<seq<RawEvent>>) returns (consumed: nat, names: seq<Option<string>>, added: seq<int>)
    requires mode != UsageExit
    ensures mode == RawDump ==> consumed == |batches| && names == Names(Flatten(batches)) && added == []
    ensures mode == Devices ==> consumed == ScanLength(batches) && names == [] && added == AddedIds(Flatten(batches[..consumed]))
  {
    var dumpRaw := mode == RawDump;
    var runForever := mode == RawDump;
    var showDevices := mode == Devices;
    var finishedScan := false;
    consumed, names, added := 0, [], [];
    while (!finishedScan || runForever) && consumed < |batches|
      invariant consumed <= |batches| && runForever == dumpRaw && dumpRaw == !showDevices
      invariant showDevices ==> consumed <= ScanLength(batches)
      invariant finishedScan ==> showDevices
      invariant showDevices ==> (finishedScan <==> consumed > 0 && Finishes(batches[consumed - 1]))
      invariant names == (if dumpRaw then Names(Flatten(batches[..consumed])) else [])
      invariant added == (if showDevices then AddedIds(Flatten(batches[..consumed])) else [])
    {
      var batch := batches[consumed];
      if showDevices {
        ScanGoesOn(batches, consumed);
      }
      var n, a, f := ProcessBatch(dumpRaw, showDevices, batch);
      LoopStep(batches, consumed);
      names := names + n;
      added := added + a;
      finishedScan := finishedScan || f;
      consumed := consumed + 1;
    }
    assert batches[..|batches|] == batches;
    if showDevices {
      ScanStops(batches, consumed);
    }
  }

  /** Before the batch that ends the scan is read, the scan is not over. */
  lemma ScanGoesOn(batches: seq<seq<RawEvent>>, n: nat)
    requires n < |batches| && n <= ScanLength(batches)
    requires n > 0 ==> !Finishes(batches[n - 1])
    ensures n < ScanLength(batches)
  {
  }

  /** The loop stops after the batch that ends the scan, or when the batches run out. */
  lemma ScanStops(batches: seq<seq<RawEvent>>, n: nat)
    requires n <= ScanLength(batches)
    requires n == |batches| || (n > 0 && Finishes(batches[n - 1]))
    ensures n == ScanLength(batches)
  {
  }

  /** What one pass of the loop adds to the names and ids of the batches before it. */
  lemma LoopStep(batches: seq<seq<RawEvent>>, n: nat)
    requires n < |batches|
    ensures Names(Flatten(batches[..n + 1])) == Names(Flatten(batches[..n])) + Names(batches[n])
    ensures AddedIds(Flatten(batches[..n + 1])) == AddedIds(Flatten(batches[..n])) + AddedIds(batches[n])
  {
    FlattenStep(batches, n);
    NamesAppend(Flatten(batches[..n]), batches[n]);
    AddedAppend(Flatten(batches[..n]), batches[n]);
  }

  lemma FlattenStep(batches: seq<seq<RawEvent>>, n: nat)
    requires n < |batches|
    ensures Flatten(batches[..n + 1]) == Flatten(batches[..n]) + batches[n]
  {
    assert batches[..n + 1][..n] == batches[..n];
  }

  lemma {:induction false} NamesAppend(a: seq<RawEvent>, b: seq<RawEvent>)
    ensures Names(a + b) == Names(a) + Names(b)
  {
  }

  lemma {:induction false} AddedAppend(a: seq<RawEvent>, b: seq<RawEvent>)
    ensures AddedIds(a + b) == AddedIds(a) + AddedIds(b)
    decreases |b|
  {
    if b != [] {
      AddedAppend(a, b[..|b| - 1]);
      assert (a + b)[..|a + b| - 1] == a + b[..|b| - 1];
    } else {
      assert a + b == a;
    }
  }
}
