/**
 * The lights tool: the eight-slot table of lights, the three-letter name
 * lookup, the listing of the lights whose device opened, the ARGB colours of
 * the brightness and RGB forms, and the argument dispatch of main.  A light's
 * hardware device is reduced to whether it opened and the last state
 * requested of it; the HAL calls themselves are not made.
 */
module Lights {
  import opened CLib

  const MaxLightCount := 8

  /** Lights::FlashingMode and Lights::BrightnessMode, in enum order. */
  datatype FlashingMode = FlashNone | FlashTimed | FlashHardware
  datatype BrightnessMode = BrightnessUser | BrightnessSensor

  /** The light_state_t handed to the device. */
  datatype LightState = LightState(color: bv32, flashMode: FlashingMode, onMS: int, offMS: int, brightnessMode: BrightnessMode)

  /** A Light: its name, whether its device opened (alive()), and the last state requested of that device. */
  datatype Light = Light(name: string, alive: bool, last: Option<LightState>)

  /** The LIGHT_ID_* names, in the order the constructor fills the slots. */
  const LightNames: seq<string> :=
    ["backlight", "keyboard", "buttons", "battery", "notifications", "attention", "bluetooth", "wifi"]

  /** The slots after construction: all empty when the module did not load, else one light per name. */
  function Loaded(loaded: bool, opens: seq<bool>): (r: seq<Option<Light>>)
    requires |opens| == MaxLightCount
    ensures |r| == MaxLightCount
    ensures !loaded ==> forall i :: 0 <= i < MaxLightCount ==> r[i].None?
    ensures loaded ==> forall i :: 0 <= i < MaxLightCount ==> r[i] == Some(Light(LightNames[i], opens[i], None))
  {
    if !loaded then seq(MaxLightCount, _ => None)
    else seq(MaxLightCount, i requires 0 <= i < MaxLightCount => Some(Light(LightNames[i], opens[i], None)))
  }

  // ---------------------------------------------------------------------------
  // Name lookup and listing

  /** Slot s holds a light whose name agrees with name in the first three characters. */
  predicate Matches(s: Option<Light>, name: string) {
    s.Some? && StrnEq(s.value.name, name, 3)
  }

  /** nameToIndex from slot i on: the first matching slot, or -1. */
  function FirstMatch(slots: seq<Option<Light>>, name: string, i: nat): (r: int)
    requires i <= |slots|
    ensures r == -1 || (i <= r < |slots| && Matches(slots[r], name))
    ensures forall j :: i <= j < |slots| && (r == -1 || j < r) ==> !Matches(slots[j], name)
    decreases |slots| - i
  {
    if i == |slots| then -1
    else if Matches(slots[i], name) then i
    else FirstMatch(slots, name, i + 1)
  }

  /** The names dump prints: those of the present lights whose device opened, in slot order. */
  function AliveNames(slots: seq<Option<Light>>): (r: seq<string>)
    ensures |r| <= |slots|
    ensures forall n :: n in r ==> exists j :: 0 <= j < |slots| && slots[j].Some? && slots[j].value.alive && slots[j].value.name == n
  {
    if slots == [] then []
    else
      var init := AliveNames(slots[..|slots| - 1]);
      var s := slots[|slots| - 1];
      if s.Some? && s.value.alive then
        init + [s.value.name]
      else init
  }

  /** The first three letters of the eight names are pairwise different. */
  lemma NamePrefixesDistinct(j: nat, k: nat)
    requires j < MaxLightCount && k < MaxLightCount && j != k
    ensures LightNames[j][..3] != LightNames[k][..3]
  {
    assert LightNames[0][..3] == "bac" && LightNames[1][..3] == "key";
    assert LightNames[2][..3] == "but" && LightNames[3][..3] == "bat";
    assert LightNames[4][..3] == "not" && LightNames[5][..3] == "att";
    assert LightNames[6][..3] == "blu" && LightNames[7][..3] == "wif";
  }

  /** With the module loaded, any name that agrees with a light's name in its first three letters selects that light's slot. */
  lemma LoadedLookup(opens: seq<bool>, k: nat, name: string)
    requires |opens| == MaxLightCount && k < MaxLightCount
    requires StrnEq(LightNames[k], name, 3)
    ensures FirstMatch(Loaded(true, opens), name, 0) == k
  {
    var slots := Loaded(true, opens);
    var r := FirstMatch(slots, name, 0);
    assert Matches(slots[k], name);
    if r != k {
      assert 0 <= r < k;
      assert StrnEq(LightNames[r], name, 3);
      assert |LightNames[r]| >= 3 && |LightNames[k]| >= 3;
      NamePrefixesDistinct(r, k);
      assert false;
    }
  }

  /** Without the module no name is found. */
  lemma NotLoadedLookup(opens: seq<bool>, name: string)
    requires |opens| == MaxLightCount
    ensures FirstMatch(Loaded(false, opens), name, 0) == -1
  {
  }

  /** The listing of a loaded table is the names of the lights that opened, in table order. */
  lemma {:induction false} LoadedNames(opens: seq<bool>, n: nat)
    requires |opens| == MaxLightCount && n <= MaxLightCount
    ensures AliveNames(Loaded(true, opens)[..n]) == OpenedNames(opens[..n], LightNames[..n])
  {
    var slots := Loaded(true, opens);
    if n > 0 {
      LoadedNames(opens, n - 1);
      assert slots[..n][..n - 1] == slots[..n - 1];
      assert opens[..n][..n - 1] == opens[..n - 1];
      assert LightNames[..n][..n - 1] == LightNames[..n - 1];
    }
  }

  /** The names whose flag is set, in order. */
  function OpenedNames(opens: seq<bool>, names: seq<string>): (r: seq<string>)
    requires |opens| == |names|
    ensures |r| <= |names|
  {
    if opens == [] then []
    else OpenedNames(opens[..|opens| - 1], names[..|names| - 1]) + (if opens[|opens| - 1] then [names[|names| - 1]] else [])
  }

  /** When every device opens, dump lists all eight names; without the module it lists none. */
  lemma DumpExtremes()
    ensures AliveNames(Loaded(true, seq(MaxLightCount, _ => true))) == LightNames
    ensures AliveNames(Loaded(false, seq(MaxLightCount, _ => true))) == []
  {
    var opens := seq(MaxLightCount, _ => true);
    LoadedNames(opens, MaxLightCount);
    assert Loaded(true, opens)[..MaxLightCount] == Loaded(true, opens);
    assert opens[..MaxLightCount] == opens;
    assert LightNames[..MaxLightCount] == LightNames;
    AllOpened(opens, LightNames);
    NoneAlive(Loaded(false, opens));
  }

  lemma {:induction false} AllOpened(opens: seq<bool>, names: seq<string>)
    requires |opens| == |names| && forall i :: 0 <= i < |opens| ==> opens[i]
    ensures OpenedNames(opens, names) == names
  {
    if opens != [] {
      AllOpened(opens[..|opens| - 1], names[..|names| - 1]);
      assert names[..|names| - 1] + [names[|names| - 1]] == names;
    }
  }

  lemma {:induction false} NoneAlive(slots: seq<Option<Light>>)
    requires forall i :: 0 <= i < |slots| ==> slots[i].None?
    ensures AliveNames(slots) == []
  {
    if slots != [] {
      NoneAlive(slots[..|slots| - 1]);
    }
  }

  // ---------------------------------------------------------------------------
  // setLight

  /** Where a setLight request ends up. */
  datatype Route = Ignored | Delivered | NullDevice

  /**
   * Lights::setLight as written: it checks the index and the slot but not
   * alive(), so a light whose device failed to open has Light::setLight call
   * through its null mDevice.
   */
  function DeliveryAsWritten(slots: seq<Option<Light>>, index: int): (r: Route)
    ensures r == Ignored <==> !(0 <= index < |slots|) || slots[index].None?
    ensures r == NullDevice <==> 0 <= index < |slots| && slots[index].Some? && !slots[index].value.alive
  {
    if !(0 <= index < |slots|) || slots[index].None? then Ignored
    else if slots[index].value.alive then Delivered
    else NullDevice
  }

  /** setLight with the alive() check that dump already makes: a light whose device did not open is skipped. */
  function DeliveryChecked(slots: seq<Option<Light>>, index: int): (r: Route)
    ensures r != NullDevice
    ensures r == Delivered <==> 0 <= index < |slots| && slots[index].Some? && slots[index].value.alive
  {
    if 0 <= index < |slots| && slots[index].Some? && slots[index].value.alive then Delivered else Ignored
  }

  /** The checked setLight reaches a device exactly when the unchecked one reaches an open one. */
  lemma DeliveryAgrees(slots: seq<Option<Light>>, index: int)
    ensures DeliveryChecked(slots, index) == Delivered <==> DeliveryAsWritten(slots, index) == Delivered
    ensures DeliveryAsWritten(slots, index) != NullDevice ==> DeliveryChecked(slots, index) == DeliveryAsWritten(slots, index)
  {
  }

  /** The slots after setLight(index, state): a delivered request becomes that light's last state. */
  function Applied(slots: seq<Option<Light>>, index: int, state: LightState): (r: seq<Option<Light>>)
    ensures |r| == |slots|
    ensures forall j :: 0 <= j < |slots| && j != index ==> r[j] == slots[j]
    ensures DeliveryChecked(slots, index) == Delivered ==> r[index] == Some(slots[index].value.(last := Some(state)))
    ensures DeliveryChecked(slots, index) == Ignored ==> r == slots
  {
    if DeliveryChecked(slots, index) == Delivered then slots[index := Some(slots[index].value.(last := Some(state)))]
    else slots
  }

  /** A request changes no name and no alive flag, so lookup and listing are unaffected. */
  lemma AppliedKeepsTable(slots: seq<Option<Light>>, index: int, state: LightState, name: string)
    ensures FirstMatch(Applied(slots, index, state), name, 0) == FirstMatch(slots, name, 0)
    ensures AliveNames(Applied(slots, index, state)) == AliveNames(slots)
  {
    var r := Applied(slots, index, state);
    MatchesAgree(slots, r, name, 0);
    AliveNamesAgree(slots, r);
  }

  lemma {:induction false} MatchesAgree(a: seq<Option<Light>>, b: seq<Option<Light>>, name: string, i: nat)
    requires |a| == |b| && i <= |a|
    requires forall j :: 0 <= j < |a| ==> a[j].None? == b[j].None? && (a[j].Some? ==> a[j].value.name == b[j].value.name)
    ensures FirstMatch(a, name, i) == FirstMatch(b, name, i)
    decreases |a| - i
  {
    if i < |a| {
      assert Matches(a[i], name) == Matches(b[i], name);
      MatchesAgree(a, b, name, i + 1);
    }
  }

  lemma {:induction false} AliveNamesAgree(a: seq<Option<Light>>, b: seq<Option<Light>>)
    requires |a| == |b|
    requires forall j :: 0 <= j < |a| ==>
      (a[j].None? == b[j].None? && (a[j].Some? ==> a[j].value.name == b[j].value.name && a[j].value.alive == b[j].value.alive))
    ensures AliveNames(a) == AliveNames(b)
  {
    if a != [] {
      AliveNamesAgree(a[..|a| - 1], b[..|b| - 1]);
    }
  }

  /** Of two requests to the same light, the second one is what the light is left with. */
  lemma LastRequestWins(slots: seq<Option<Light>>, index: int, first: LightState, second: LightState)
    ensures Applied(Applied(slots, index, first), index, second) == Applied(slots, index, second)
  {
    var a := Applied(slots, index, first);
    if DeliveryChecked(slots, index) == Delivered {
      assert DeliveryChecked(a, index) == Delivered;
      assert Applied(a, index, second) == Applied(slots, index, second);
    }
  }

  /** Requests to two different lights can be made in either order. */
  lemma DifferentLightsCommute(slots: seq<Option<Light>>, i: int, j: int, si: LightState, sj: LightState)
    requires i != j
    ensures Applied(Applied(slots, i, si), j, sj) == Applied(Applied(slots, j, sj), i, si)
  {
    var a := Applied(Applied(slots, i, si), j, sj);
    var b := Applied(Applied(slots, j, sj), i, si);
    assert |a| == |b|;
    forall k | 0 <= k < |a|
      ensures a[k] == b[k]
    {
    }
  }

  // ---------------------------------------------------------------------------
  // Colours and requests

  /** setBrightness: alpha 0xff and red, green and blue all the low byte of the brightness. */
  function BrightnessColor(brightness: bv32): (r: bv32)
    ensures r >> 24 == 0xff
    ensures (r >> 16) & 0xff == brightness & 0xff
    ensures (r >> 8) & 0xff == brightness & 0xff
    ensures r & 0xff == brightness & 0xff
  {
    var c := brightness & 0xff;
    0xff00_0000 | (c << 16) | (c << 8) | c
  }

  /** The colour of "NAME RED GREEN BLUE": each component shifted into place and OR-ed, with no masking. */
  function PackRGB(red: bv32, green: bv32, blue: bv32): bv32 {
    0xff00_0000 | (red << 16) | (green << 8) | blue
  }

  /** Components in 0..255 land in their own bytes under an opaque alpha. */
  lemma PackRGBChannels(red: bv32, green: bv32, blue: bv32)
    requires red <= 0xff && green <= 0xff && blue <= 0xff
    ensures PackRGB(red, green, blue) >> 24 == 0xff
    ensures (PackRGB(red, green, blue) >> 16) & 0xff == red
    ensures (PackRGB(red, green, blue) >> 8) & 0xff == green
    ensures PackRGB(red, green, blue) & 0xff == blue
  {
  }

  /** A grey given as three equal components is the colour the brightness form gives. */
  lemma GreyIsBrightness(level: bv32)
    requires level <= 0xff
    ensures PackRGB(level, level, level) == BrightnessColor(level)
  {
  }

  /** Without masking a component of 256 carries into the next channel. */
  lemma PackRGBOverflows()
    ensures PackRGB(0, 0, 256) == PackRGB(0, 1, 0)
  {
  }

  /** setBrightness and setColor: a steady colour chosen by the user. */
  function Steady(color: bv32): (r: LightState)
    ensures r.flashMode == FlashNone && r.onMS == 0 && r.offMS == 0 && r.brightnessMode == BrightnessUser
    ensures r.color == color
  {
    LightState(color, FlashNone, 0, 0, BrightnessUser)
  }

  /** setFlashing: hardware flashing with the given on and off times. */
  function Flashing(color: bv32, onMS: int, offMS: int): (r: LightState)
    ensures r.flashMode == FlashHardware && r.brightnessMode == BrightnessUser
    ensures r.color == color && r.onMS == onMS && r.offMS == offMS
  {
    LightState(color, FlashHardware, onMS, offMS, BrightnessUser)
  }

  // ---------------------------------------------------------------------------
  // main

  /** What main does once the name has been looked up. */
  datatype Action = UsageExit | Request(state: LightState, follow: bool)

  /** The flash form: "NAME flash [ON] [OFF]" with three to five arguments. */
  predicate FlashForm(args: seq<string>) {
    3 <= |args| <= 5 && args[2] == "flash"
  }

  /** main's choice for argv with a name, given the slot nameToIndex found for it. */
  function Dispatch(args: seq<string>, index: int): (r: Action)
    requires |args| >= 2
    ensures r.UsageExit? <==> index < 0 || !(FlashForm(args) || |args| == 3 || |args| == 5)
    ensures r.Request? ==> (r.follow <==> FlashForm(args))
    ensures r.Request? && FlashForm(args) ==> r.state == Flashing(200,
      if |args| >= 4 then Atoi(args[3]) else 1000, if |args| >= 5 then Atoi(args[4]) else 1000)
    ensures r.Request? && !FlashForm(args) && |args| == 3 ==> r.state == Steady(BrightnessColor(Bits(Atoi(args[2]))))
    ensures r.Request? && !FlashForm(args) && |args| == 5 ==> r.state == Steady(PackRGB(Bits(Atoi(args[2])), Bits(Atoi(args[3])), Bits(Atoi(args[4]))))
  {
    if index < 0 then UsageExit
    else if FlashForm(args) then
      var onTime := if |args| >= 4 then Atoi(args[3]) else 1000;
      var offTime := if |args| >= 5 then Atoi(args[4]) else 1000;
      Request(Flashing(200, onTime, offTime), true)
    else if |args| == 3 then Request(Steady(BrightnessColor(Bits(Atoi(args[2])))), false)
    else if |args| == 5 then Request(Steady(PackRGB(Bits(Atoi(args[2])), Bits(Atoi(args[3])), Bits(Atoi(args[4])))), false)
    else UsageExit
  }

  /** "NAME flash" alone flashes in colour 200, one second on and one second off, and keeps running. */
  lemma FlashDefaults(name: string, index: int)
    requires index >= 0
    ensures Dispatch(["lights", name, "flash"], index) == Request(LightState(200, FlashHardware, 1000, 1000, BrightnessUser), true)
  {
  }

  /** Four arguments that are not the flash form end in usage. */
  lemma FourArgumentsNeedFlash(args: seq<string>, index: int)
    requires |args| == 4 && args[2] != "flash"
    ensures Dispatch(args, index) == UsageExit
  {
  }

  /** The Lights object: the eight slots, each empty or holding a light. */
  class Lights {
    const mLights: array<Option<Light>>

    ghost predicate Valid()
      reads this
    {
      mLights.Length == MaxLightCount
    }

    /** Fills the slots in name order when the lights module loads; opens[i] says whether light i's device opened. */
    constructor(loaded: bool, opens: seq<bool>)
      requires |opens| == MaxLightCount
      ensures Valid() && fresh(mLights)
      ensures mLights[..] == Loaded(loaded, opens)
    {
      var a := new Option<Light>[MaxLightCount](_ => None);
      if loaded {
        a[0] := Some(Light(LightNames[0], opens[0], None));
        a[1] := Some(Light(LightNames[1], opens[1], None));
        a[2] := Some(Light(LightNames[2], opens[2], None));
        a[3] := Some(Light(LightNames[3], opens[3], None));
        a[4] := Some(Light(LightNames[4], opens[4], None));
        a[5] := Some(Light(LightNames[5], opens[5], None));
        a[6] := Some(Light(LightNames[6], opens[6], None));
        a[7] := Some(Light(LightNames[7], opens[7], None));
      }
      assert a[..] == Loaded(loaded, opens);
      mLights := a;
    }

    /** nameToIndex: the first slot whose light agrees with name in three characters, or -1. */
    method NameToIndex(name: string) returns (r: int)
      requires Valid()
      ensures r == FirstMatch(mLights[..], name, 0)
      ensures -1 <= r < MaxLightCount
    {
      var i := 0;
      while i < MaxLightCount
        invariant 0 <= i <= MaxLightCount
        invariant FirstMatch(mLights[..], name, 0) == FirstMatch(mLights[..], name, i)
      {
        if mLights[i].Some? && StrnEq(mLights[i].value.name, name, 3) {
          return i;
        }
        i := i + 1;
      }
      return -1;
    }

    /** dump: the names printed, one per line, of the present lights whose device opened. */
    method Dump() returns (printed: seq<string>)
      requires Valid()
      ensures printed == AliveNames(mLights[..])
    {
      printed := [];
      for i := 0 to MaxLightCount
        invariant printed == AliveNames(mLights[..i])
      {
        assert mLights[..i + 1][..i] == mLights[..i];
        if mLights[i].Some? && mLights[i].value.alive {
          printed := printed + [mLights[i].value.name];
        }
      }
      assert mLights[..MaxLightCount] == mLights[..];
    }

    /** setLight with the alive() check: the request becomes the light's last state when its device is open. */
    method SetLight(index: int, state: LightState)
      requires Valid()
      modifies mLights
      ensures mLights[..] == Applied(old(mLights[..]), index, state)
    {
      if 0 <= index < MaxLightCount && mLights[index].Some? && mLights[index].value.alive {
        mLights[index] := Some(mLights[index].value.(last := Some(state)));
      }
    }

    method SetBrightness(index: int, brightness: bv32)
      requires Valid()
      modifies mLights
      ensures mLights[..] == Applied(old(mLights[..]), index, Steady(BrightnessColor(brightness)))
    {
      SetLight(index, Steady(BrightnessColor(brightness)));
    }

    method SetColor(index: int, color: bv32)
      requires Valid()
      modifies mLights
      ensures mLights[..] == Applied(old(mLights[..]), index, Steady(color))
    {
      SetLight(index, Steady(color));
    }

    method SetFlashing(index: int, color: bv32, onMS: int, offMS: int)
      requires Valid()
      modifies mLights
      ensures mLights[..] == Applied(old(mLights[..]), index, Flashing(color, onMS, offMS))
    {
      SetLight(index, Flashing(color, onMS, offMS));
    }

    /**
     * main after construction: with no command the listing; otherwise the
     * lookup of argv[1], then one request or the usage exit.  follow is the
     * flash form's endless sleep loop.
     */
    method Run(args: seq<string>) returns (printed: seq<string>, usage: bool, follow: bool)
      requires Valid()
      modifies mLights
      ensures |args| < 2 ==> printed == AliveNames(mLights[..]) && !usage && !follow && mLights[..] == old(mLights[..])
      ensures |args| >= 2 ==> printed == [] && match Dispatch(args, FirstMatch(old(mLights[..]), args[1], 0))
        case UsageExit => usage && !follow && mLights[..] == old(mLights[..])
        case Request(state, f) =>
          !usage && follow == f && mLights[..] == Applied(old(mLights[..]), FirstMatch(old(mLights[..]), args[1], 0), state)
    {
      printed, usage, follow := [], false, false;
      if |args| < 2 {
        printed := Dump();
        return;
      }
      var index := NameToIndex(args[1]);
      if index < 0 {
        usage := true;
      } else if 3 <= |args| <= 5 && args[2] == "flash" {
        var onTime := if |args| >= 4 then Atoi(args[3]) else 1000;
        var offTime := if |args| >= 5 then Atoi(args[4]) else 1000;
        SetFlashing(index, 200, onTime, offTime);
        follow := true;
      } else if |args| == 3 {
        SetBrightness(index, Bits(Atoi(args[2])));
      } else if |args| == 5 {
        SetColor(index, PackRGB(Bits(Atoi(args[2])), Bits(Atoi(args[3])), Bits(Atoi(args[4]))));
      } else {
        usage := true;
      }
    }
  }

  /**
   * With the module loaded and the keyboard's device not opened,
   * "lights keyboard 100" selects slot 1, whose request the unchecked
   * setLight sends through the null device.
   */
  lemma DeadLightReachesNullDevice()
    ensures var opens := [true, false, true, true, true, true, true, true];
      var slots := Loaded(true, opens);
      FirstMatch(slots, "keyboard", 0) == 1
      && Dispatch(["lights", "keyboard", "100"], 1).Request?
      && DeliveryAsWritten(slots, 1) == NullDevice
      && DeliveryChecked(slots, 1) == Ignored
  {
    var opens := [true, false, true, true, true, true, true, true];
    assert StrnEq(LightNames[1], "keyboard", 3);
    LoadedLookup(opens, 1, "keyboard");
  }
}
