/**
 * The D-Bus side of btcommon.cpp: values as the message iterator presents
 * them, decoding property dictionaries and PropertyChanged signals into a
 * key/value bag, and reading an integer reply.
 */
module BtProps {
  import opened CLib

  // ---------------------------------------------------------------------------
  // D-Bus values and messages

  datatype DType =
    | TString | TObjectPath | TBoolean | TInt16 | TUint16 | TInt32 | TUint32 | TUnixFd
    | TArray | TDictEntry | TVariant | TOther

  /** A D-Bus value as the message iterator presents it. */
  datatype DValue =
    | DString(str: string)
    | DObjectPath(path: string)
    | DBoolean(flag: bool)
    | DInt16(i16: Int16)
    | DUint16(u16: Uint16)
    | DInt32(i32: Int32)
    | DUint32(u32: Uint32)
    | DUnixFd(fd: Int32)
    | DArray(items: seq<DValue>)
    | DDictEntry(key: DValue, val: DValue)
    | DVariant(inner: DValue)
    | DOther(code: char)

  function TypeOf(v: DValue): DType {
    match v
    case DString(_) => TString
    case DObjectPath(_) => TObjectPath
    case DBoolean(_) => TBoolean
    case DInt16(_) => TInt16
    case DUint16(_) => TUint16
    case DInt32(_) => TInt32
    case DUint32(_) => TUint32
    case DUnixFd(_) => TUnixFd
    case DArray(_) => TArray
    case DDictEntry(_, _) => TDictEntry
    case DVariant(_) => TVariant
    case DOther(_) => TOther
  }

  datatype MsgType = MethodCall | MethodReturn | ErrorReply | Signal

  /** A D-Bus message: its type, interface, member and arguments. */
  datatype Message = Message(mtype: MsgType, iface: string, member: string, args: seq<DValue>)

  /**
   * dbus_message_get_args succeeds when the leading arguments have the listed
   * types; arguments after them are not looked at.
   */
  predicate ArgsHave(args: seq<DValue>, types: seq<DType>) {
    |args| >= |types| && forall i :: 0 <= i < |types| ==> TypeOf(args[i]) == types[i]
  }

  /**
   * dbus_returns_int: the first argument when it has the requested type (a
   * UINT32 lands in an int), otherwise -1.
   */
  function DbusReturnsInt(args: seq<DValue>, t: DType): (r: int)
    requires t == TInt32 || t == TUint32 || t == TUnixFd
    ensures -0x8000_0000 <= r < 0x8000_0000
    ensures !ArgsHave(args, [t]) ==> r == -1
    ensures ArgsHave(args, [t]) && args[0].DInt32? ==> r == args[0].i32
    ensures ArgsHave(args, [t]) && args[0].DUnixFd? ==> r == args[0].fd
    ensures ArgsHave(args, [t]) && args[0].DUint32? ==> (r - args[0].u32) % 0x1_0000_0000 == 0
  {
    if !ArgsHave(args, [t]) then -1
    else match args[0]
      case DInt32(x) => x
      case DUint32(u) => Int32Of(u)
      case DUnixFd(fd) => fd
      case _ => -1
  }

  /** A reply carrying -1 cannot be told apart from a reply of the wrong shape. */
  lemma ReturnsIntMinusOneIsAmbiguous()
    ensures DbusReturnsInt([DInt32(-1)], TInt32) == DbusReturnsInt([], TInt32)
    ensures DbusReturnsInt([DUint32(0xFFFF_FFFF)], TUint32) == DbusReturnsInt([DString("x")], TUint32)
  {
  }

  // ---------------------------------------------------------------------------
  // Property bags

  /** The key/value bag: adding a key that is present replaces its value. */
  type Properties = map<string, string>

  /**
   * The text get_property stores for a variant's content: strings and object
   * paths verbatim; UINT32, INT16 and BOOLEAN through an int printed "%d";
   * any array as "(none)"; any other type is rejected.
   */
  function VariantText(v: DValue): Option<string> {
    match v
    case DString(s) => Some(s)
    case DObjectPath(p) => Some(p)
    case DUint32(u) => Some(FormatInt(Int32Of(u)))
    case DInt16(h) => Some(FormatInt(h))
    case DBoolean(b) => Some(FormatInt(if b then 1 else 0))
    case DArray(_) => Some("(none)")
    case _ => None
  }

  /**
   * The stored text keeps the value: strings unchanged, and the numbers read
   * back by atoi (a UINT32 only modulo 2^32, because it passed through an int).
   */
  lemma VariantTextReadsBack(v: DValue)
    requires VariantText(v).Some?
    ensures v.DString? ==> VariantText(v).value == v.str
    ensures v.DObjectPath? ==> VariantText(v).value == v.path
    ensures v.DInt16? ==> Atoi(VariantText(v).value) == v.i16
    ensures v.DBoolean? ==> Atoi(VariantText(v).value) == (if v.flag then 1 else 0)
    ensures v.DUint32? ==> (Atoi(VariantText(v).value) - v.u32) % 0x1_0000_0000 == 0
    ensures v.DUint32? && v.u32 < 0x8000_0000 ==> Atoi(VariantText(v).value) == v.u32
    ensures v.DArray? ==> VariantText(v).value == "(none)"
  {
    match v
    case DUint32(u) => AtoiFormatInt(Int32Of(u));
    case DInt16(h) => AtoiFormatInt(h);
    case DBoolean(b) => AtoiFormatInt(if b then 1 else 0);
    case _ =>
  }

  /**
   * get_property's reading of a key and its value from consecutive items: a
   * string key, then a variant whose content has an accepted type.
   */
  function DecodeProperty(items: seq<DValue>): (r: Option<(string, string)>)
    ensures r.Some? <==> |items| >= 2 && items[0].DString? && items[1].DVariant? && VariantText(items[1].inner).Some?
    ensures r.Some? ==> r.value.0 == items[0].str
  {
    if |items| < 2 || !items[0].DString? || !items[1].DVariant? then None
    else
      match VariantText(items[1].inner)
      case None => None
      case Some(t) => Some((items[0].str, t))
  }

  /** get_property: on success the bag gains (or updates) the key and 0 is returned, otherwise -1 and no change. */
  function GetProperty(prop: Properties, items: seq<DValue>): (r: (int, Properties))
    ensures r.0 == 0 || r.0 == -1
    ensures r.0 == -1 ==> r.1 == prop
    ensures r.0 == 0 ==> |items| >= 1 && items[0].DString? && items[0].str in r.1
    ensures r.0 == 0 <==> DecodeProperty(items).Some?
    ensures r.0 == 0 ==> r.1[items[0].str] == VariantText(items[1].inner).value
    ensures r.1.Keys == prop.Keys + (if r.0 == 0 then {items[0].str} else {})
    ensures forall k :: k in prop ==> k in r.1
    ensures forall k :: k in r.1 && k in prop && (|items| == 0 || !items[0].DString? || k != items[0].str) ==> r.1[k] == prop[k]
  {
    match DecodeProperty(items)
    case None => (-1, prop)
    case Some(kv) => (0, prop[kv.0 := kv.1])
  }

  /** The property a dictionary entry holds, if get_property accepts it. */
  function EntryProperty(v: DValue): Option<(string, string)> {
    if v.DDictEntry? then DecodeProperty([v.key, v.val]) else None
  }

  /**
   * The properties of the entries before the first one get_property rejects,
   * built the way parse_properties walks the array: from the first entry on.
   */
  function DecodedPrefix(items: seq<DValue>): (r: seq<(string, string)>)
    ensures |r| <= |items|
    decreases |items|
  {
    if items == [] then []
    else
      var pre := DecodedPrefix(items[..|items| - 1]);
      var last := EntryProperty(items[|items| - 1]);
      if |pre| == |items| - 1 && last.Some? then pre + [last.value] else pre
  }

  /**
   * DecodedPrefix holds the decoded entries in order, and stops exactly at the
   * first entry get_property rejects.
   */
  lemma {:induction false} DecodedPrefixMeaning(items: seq<DValue>)
    ensures forall i :: 0 <= i < |DecodedPrefix(items)| ==> EntryProperty(items[i]) == Some(DecodedPrefix(items)[i])
    ensures |DecodedPrefix(items)| < |items| ==> EntryProperty(items[|DecodedPrefix(items)|]).None?
    decreases |items|
  {
    if items != [] {
      var front := items[..|items| - 1];
      DecodedPrefixMeaning(front);
      var pre := DecodedPrefix(front);
      assert forall i :: 0 <= i < |front| ==> front[i] == items[i];
    }
  }

  /** One more entry: it is added when every entry before it was accepted and it is accepted too. */
  lemma DecodedPrefixSnoc(items: seq<DValue>, k: nat)
    requires k < |items| && |DecodedPrefix(items[..k])| == k
    ensures EntryProperty(items[k]).Some? ==>
      DecodedPrefix(items[..k + 1]) == DecodedPrefix(items[..k]) + [EntryProperty(items[k]).value]
    ensures EntryProperty(items[k]).None? ==> DecodedPrefix(items[..k + 1]) == DecodedPrefix(items[..k])
  {
    assert items[..k + 1][..k] == items[..k];
  }

  /** Once an entry is rejected, the entries after it add nothing. */
  lemma {:induction false} RejectedStays(items: seq<DValue>, k: nat, m: nat)
    requires k < m <= |items| && EntryProperty(items[k]).None?
    requires |DecodedPrefix(items[..k])| == k
    ensures DecodedPrefix(items[..m]) == DecodedPrefix(items[..k])
    decreases m
  {
    assert items[..m][..m - 1] == items[..m - 1];
    if m > k + 1 {
      RejectedStays(items, k, m - 1);
    }
  }

  /** Adds the properties to the bag in order; a later value for a key replaces an earlier one. */
  function ApplyAll(prop: Properties, ps: seq<(string, string)>): Properties
    decreases |ps|
  {
    if ps == [] then prop else ApplyAll(prop[ps[0].0 := ps[0].1], ps[1..])
  }

  /** After adding, the bag holds exactly its old keys and the added ones. */
  lemma {:induction false} ApplyAllKeys(prop: Properties, ps: seq<(string, string)>)
    ensures ApplyAll(prop, ps).Keys == prop.Keys + set i | 0 <= i < |ps| :: ps[i].0
    decreases |ps|
  {
    if ps != [] {
      ApplyAllKeys(prop[ps[0].0 := ps[0].1], ps[1..]);
      assert (set i | 0 <= i < |ps| :: ps[i].0) == {ps[0].0} + set i | 0 <= i < |ps[1..]| :: ps[1..][i].0 by {
        forall i | 0 <= i < |ps|
          ensures ps[i].0 in {ps[0].0} + set i | 0 <= i < |ps[1..]| :: ps[1..][i].0
        {
          if i > 0 { assert ps[1..][i - 1].0 == ps[i].0; }
        }
      }
    }
  }

  /**
   * What parse_properties does to the bag and returns: the argument must be a
   * non-empty array of dictionary entries each accepted by get_property (0),
   * otherwise 1; the entries accepted before a failure stay in the bag.
   */
  function ParsePropertiesSpec(prop: Properties, arg: DValue): (r: (int, Properties)) {
    if !arg.DArray? then (1, prop)
    else
      var ps := DecodedPrefix(arg.items);
      (if |arg.items| > 0 && |ps| == |arg.items| then 0 else 1, ApplyAll(prop, ps))
  }

  /** parse_properties: walks the array one entry at a time, stopping at the first entry it cannot use. */
  method ParseProperties(prop: Properties, arg: DValue) returns (rc: int, out: Properties)
    ensures (rc, out) == ParsePropertiesSpec(prop, arg)
  {
    out := prop;
    if !arg.DArray? {
      return 1, out;
    }
    var items := arg.items;
    if |items| == 0 {
      // the first element is read before the loop tests for another one
      return 1, out;
    }
    var k := 0;
    while k < |items|
      invariant 0 <= k <= |items|
      invariant |DecodedPrefix(items[..k])| == k
      invariant out == ApplyAll(prop, DecodedPrefix(items[..k]))
    {
      DecodedPrefixSnoc(items, k);
      if !items[k].DDictEntry? {
        RejectedStays(items, k, |items|);
        assert items[..|items|] == items;
        return 1, out;
      }
      match DecodeProperty([items[k].key, items[k].val]) {
        case None =>
          RejectedStays(items, k, |items|);
          assert items[..|items|] == items;
          return 1, out;
        case Some(p) =>
          ApplyAllSnoc(prop, DecodedPrefix(items[..k]), p);
          out := out[p.0 := p.1];
      }
      k := k + 1;
    }
    assert items[..k] == items;
    return 0, out;
  }

  lemma {:induction false} ApplyAllSnoc(prop: Properties, ps: seq<(string, string)>, p: (string, string))
    ensures ApplyAll(prop, ps + [p]) == ApplyAll(prop, ps)[p.0 := p.1]
    decreases |ps|
  {
    if ps != [] {
      assert (ps + [p])[1..] == ps[1..] + [p];
      ApplyAllSnoc(prop[ps[0].0 := ps[0].1], ps[1..], p);
    }
  }

  /** A dictionary entry as dict_append_entry builds it for a string value. */
  function StringEntry(kv: (string, string)): DValue {
    DDictEntry(DString(kv.0), DVariant(DString(kv.1)))
  }

  /** The a{sv} array append_dict_args builds from string-valued pairs. */
  function EncodeDict(ps: seq<(string, string)>): (r: DValue)
    ensures r.DArray? && |r.items| == |ps|
    ensures forall i :: 0 <= i < |ps| ==> r.items[i] == StringEntry(ps[i])
  {
    DArray(seq(|ps|, i requires 0 <= i < |ps| => StringEntry(ps[i])))
  }

  /**
   * A non-empty dictionary built the way append_dict_args builds one is
   * accepted whole by parse_properties, which adds its pairs in order.
   */
  lemma ParseEncodedDict(prop: Properties, ps: seq<(string, string)>)
    requires |ps| > 0
    ensures ParsePropertiesSpec(prop, EncodeDict(ps)) == (0, ApplyAll(prop, ps))
  {
    var items := EncodeDict(ps).items;
    forall i | 0 <= i < |items|
      ensures EntryProperty(items[i]) == Some(ps[i])
    {
    }
    var d := DecodedPrefix(items);
    DecodedPrefixMeaning(items);
    assert |d| == |ps|;
    assert forall i :: 0 <= i < |d| ==> d[i] == ps[i];
    assert d == ps;
  }

  /** An empty dictionary is rejected and leaves the bag untouched. */
  lemma EmptyDictRejected(prop: Properties)
    ensures ParsePropertiesSpec(prop, DArray([])) == (1, prop)
  {
  }

  /**
   * parse_property_change: the signal's arguments must start with a string key
   * and a variant of an accepted type (0, bag updated); otherwise 1 and the
   * bag is unchanged.
   */
  function ParsePropertyChange(prop: Properties, args: seq<DValue>): (r: (int, Properties))
    ensures r.0 == 0 <==> DecodeProperty(args).Some?
    ensures r.0 == 1 <==> DecodeProperty(args).None?
    ensures r.0 == 1 ==> r.1 == prop
    ensures r.0 == 0 ==> r.1 == prop[args[0].str := VariantText(args[1].inner).value]
  {
    if |args| == 0 then (1, prop)
    else
      var (rc, p) := GetProperty(prop, args);
      if rc == 0 then (0, p) else (1, prop)
  }

  /** A PropertyChanged signal (name, variant value, and whatever follows) lands in the bag under its name. */
  lemma PropertyChangeStoresValue(prop: Properties, name: string, v: DValue, rest: seq<DValue>)
    requires VariantText(v).Some?
    ensures ParsePropertyChange(prop, [DString(name), DVariant(v)] + rest) == (0, prop[name := VariantText(v).value])
  {
    var args := [DString(name), DVariant(v)] + rest;
    assert args[0] == DString(name) && args[1] == DVariant(v);
  }
}
