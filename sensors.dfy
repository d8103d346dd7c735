/**
 * The sensors tool's option loop: each -t names a sensor, looked up without
 * regard to case in the klaatuSensors table, and the matching entry's type is
 * OR-ed into sensor_type.  The table lives in sensors/sensor.h, which is not
 * part of this model, so it is a parameter here: entries up to a sentinel
 * whose name is NULL.  A type mask is modelled as the set of its bit
 * positions, so OR-ing masks is the union of the sets.
 */
module Sensors {
  import opened CLib

  /** A bit mask, as the positions of its set bits. */
  type Mask = set<nat>

  /** One entry of klaatuSensors; the sentinel has no name. */
  datatype SensorEntry = SensorEntry(name: Option<string>, sensorType: Mask)

  /** Every entry is named except the sentinel that ends the table. */
  predicate Terminated(table: seq<SensorEntry>) {
    |table| > 0 && table[|table| - 1].name.None?
    && forall m :: 0 <= m < |table| - 1 ==> table[m].name.Some?
  }

  /** The entry holds a name equal to the given one apart from case. */
  predicate Names(e: SensorEntry, name: string) {
    e.name.Some? && StrCaseEq(name, e.name.value)
  }

  /** Where the inner while loop stops when it starts at i: the first entry from i on that matches, or the first sentinel. */
  function Search(table: seq<SensorEntry>, name: string, i: nat): (j: nat)
    requires Terminated(table) && i < |table|
    ensures i <= j < |table| && (table[j].name.None? || Names(table[j], name))
    ensures forall m :: i <= m < j ==> table[m].name.Some? && !Names(table[m], name)
    decreases |table| - i
  {
    if table[i].name.None? || Names(table[i], name) then i else Search(table, name, i + 1)
  }

  /** The loop's state: sensor_type, cnt, and the index i that is never reset. */
  datatype Scan = Scan(sensorType: Mask, count: nat, index: nat)

  /** One -t option: the search resumes at the index the previous one stopped at. */
  function StepScan(table: seq<SensorEntry>, s: Scan, name: string): (r: Scan)
    requires Terminated(table) && s.index < |table|
    ensures r.count == s.count + 1 && s.index <= r.index < |table|
    ensures s.sensorType <= r.sensorType
    ensures table[r.index].name.None? ==> r.sensorType == s.sensorType
    ensures table[r.index].name.Some? ==> Names(table[r.index], name) && r.sensorType == s.sensorType + table[r.index].sensorType
    ensures r.index == Search(table, name, s.index)
  {
    var j := Search(table, name, s.index);
    Scan(if table[j].name.Some? then s.sensorType + table[j].sensorType else s.sensorType, s.count + 1, j)
  }

  /** One option as typed: its letter and its argument. */
  datatype Opt = Opt(letter: char, arg: string)

  /** The state after the options; None is the usage exit with EXIT_FAILURE, for any option but -t. */
  function Scans(table: seq<SensorEntry>, opts: seq<Opt>): (r: Option<Scan>)
    requires Terminated(table)
    ensures r.Some? ==> r.value.index < |table| && r.value.count == |opts|
  {
    if opts == [] then Some(Scan({}, 0, 0))
    else match Scans(table, opts[..|opts| - 1])
      case None => None
      case Some(s) => if opts[|opts| - 1].letter == 't' then Some(StepScan(table, s, opts[|opts| - 1].arg)) else None
  }

  /** The usage exit happens exactly when some option is not -t. */
  lemma {:induction false} UsageExactly(table: seq<SensorEntry>, opts: seq<Opt>)
    requires Terminated(table)
    ensures Scans(table, opts).None? <==> exists o :: o in opts && o.letter != 't'
  {
    if opts != [] {
      var init := opts[..|opts| - 1];
      assert opts == init + [opts[|opts| - 1]];
      UsageExactly(table, init);
    }
  }

  /** The usage exit stays the usage exit whatever options follow. */
  lemma {:induction false} UsageIsFinal(table: seq<SensorEntry>, opts: seq<Opt>, k: nat)
    requires Terminated(table) && k <= |opts| && Scans(table, opts[..k]).None?
    ensures Scans(table, opts).None?
    decreases |opts| - k
  {
    if k < |opts| {
      assert opts[..k + 1][..k] == opts[..k];
      UsageIsFinal(table, opts, k + 1);
    } else {
      assert opts[..k] == opts;
    }
  }

  /** sensor_type only gains bits as the options are read. */
  lemma {:induction false} TypeOnlyGrows(table: seq<SensorEntry>, opts: seq<Opt>, more: seq<Opt>)
    requires Terminated(table) && Scans(table, opts + more).Some?
    ensures Scans(table, opts).Some?
    ensures Scans(table, opts).value.sensorType <= Scans(table, opts + more).value.sensorType
    ensures Scans(table, opts).value.index <= Scans(table, opts + more).value.index
    decreases |more|
  {
    if more == [] {
      assert opts + more == opts;
    } else {
      var shorter := more[..|more| - 1];
      assert (opts + more)[..|opts + more| - 1] == opts + shorter;
      TypeOnlyGrows(table, opts, shorter);
    }
  }

  /** Once a search has run onto the sentinel, every later -t stops there too and adds nothing. */
  lemma {:induction false} MissIsFinal(table: seq<SensorEntry>, opts: seq<Opt>, more: seq<Opt>)
    requires Terminated(table) && Scans(table, opts).Some?
    requires table[Scans(table, opts).value.index].name.None?
    ensures Scans(table, opts + more).Some? ==>
      Scans(table, opts + more).value.sensorType == Scans(table, opts).value.sensorType
      && Scans(table, opts + more).value.index == Scans(table, opts).value.index
    decreases |more|
  {
    if more == [] {
      assert opts + more == opts;
    } else {
      var shorter := more[..|more| - 1];
      assert (opts + more)[..|opts + more| - 1] == opts + shorter;
      MissIsFinal(table, opts, shorter);
    }
  }

  /**
   * Two sensors named against the table's order: the entry at q is found
   * first, the search for the name of the earlier entry p resumes at q, finds
   * no match from there on and runs onto the sentinel, so only q's type is set.
   */
  lemma AgainstTableOrder(table: seq<SensorEntry>, p: nat, q: nat)
    requires Terminated(table) && p < q < |table| - 1
    requires forall m :: 0 <= m < q ==> !Names(table[m], table[q].name.value)
    requires forall m :: q <= m < |table| ==> !Names(table[m], table[p].name.value)
    ensures var opts := [Opt('t', table[q].name.value), Opt('t', table[p].name.value)];
      Scans(table, opts) == Some(Scan(table[q].sensorType, 2, |table| - 1))
  {
    var opts := [Opt('t', table[q].name.value), Opt('t', table[p].name.value)];
    var qName, pName := table[q].name.value, table[p].name.value;
    assert Names(table[q], qName) by {
      assert StrCaseEq(qName, qName);
    }
    SearchFindsFirst(table, qName, q);
    var first := StepScan(table, Scan({}, 0, 0), qName);
    assert Scans(table, opts[..1]) == Some(first) by {
      assert opts[..1][..0] == [];
    }
    SearchMisses(table, pName, q);
    var second := StepScan(table, first, pName);
    assert opts[..1] == opts[..|opts| - 1];
    assert Scans(table, opts) == Some(second);
    assert first.sensorType == {} + table[q].sensorType;
    assert first.index == q;
    assert second.index == |table| - 1;
    assert second.sensorType == first.sensorType;
    assert second == Scan(table[q].sensorType, 2, |table| - 1);
  }

  /** A search that meets no entry naming the sensor runs onto the sentinel. */
  lemma {:induction false} SearchMisses(table: seq<SensorEntry>, name: string, i: nat)
    requires Terminated(table) && i < |table|
    requires forall m :: i <= m < |table| ==> !Names(table[m], name)
    ensures Search(table, name, i) == |table| - 1
    decreases |table| - i
  {
    if table[i].name.Some? {
      SearchMisses(table, name, i + 1);
    }
  }

  /** main's option loop with its counter, its never-reset index and the OR into sensor_type. */
  method SensorMain(table: seq<SensorEntry>, opts: seq<Opt>) returns (r: Option<Scan>)
    requires Terminated(table)
    ensures r == Scans(table, opts)
  {
    var cnt: nat := 0;
    var i: nat := 0;
    var sensorType: Mask := {};
    var k := 0;
    while k < |opts|
      invariant k <= |opts| && i < |table|
      invariant Scans(table, opts[..k]) == Some(Scan(sensorType, cnt, i))
    {
      var o := opts[k];
      if o.letter != 't' {
        ScansNext(table, opts, k);
        UsageIsFinal(table, opts, k + 1);
        return None;
      }
      ScansNext(table, opts, k);
      cnt := cnt + 1;
      i, sensorType := ResumeSearch(table, o.arg, i, sensorType);
      k := k + 1;
    }
    assert opts[..k] == opts;
    r := Some(Scan(sensorType, cnt, i));
  }

  /** Scans over one more option: the usage exit for a letter other than t, one more search for -t. */
  lemma ScansNext(table: seq<SensorEntry>, opts: seq<Opt>, k: nat)
    requires Terminated(table) && k < |opts| && Scans(table, opts[..k]).Some?
    ensures Scans(table, opts[..k + 1]) ==
      if opts[k].letter == 't' then Some(StepScan(table, Scans(table, opts[..k]).value, opts[k].arg)) else None
  {
    assert opts[..k + 1][..k] == opts[..k];
  }

  /** The inner while loop of one -t: from i, walk to the first entry naming the sensor and OR its type in, or to the sentinel. */
  method ResumeSearch(table: seq<SensorEntry>, name: string, i0: nat, type0: Mask) returns (i: nat, sensorType: Mask)
    requires Terminated(table) && i0 < |table|
    ensures i == Search(table, name, i0)
    ensures table[i].name.Some? ==> Names(table[i], name) && sensorType == type0 + table[i].sensorType
    ensures table[i].name.None? ==> sensorType == type0
  {
    i, sensorType := i0, type0;
    while table[i].name.Some?
      invariant i0 <= i < |table| && Search(table, name, i) == Search(table, name, i0) && sensorType == type0
      decreases |table| - i
    {
      if StrCaseEq(name, table[i].name.value) {
        sensorType := sensorType + table[i].sensorType;
        return;
      }
      i := i + 1;
    }
  }

  // ---------------------------------------------------------------------------
  // The search restarted for every option

  /** The mask a search from the start of the table adds for a name: the matching entry's, or none. */
  function FoundType(table: seq<SensorEntry>, name: string): (r: Mask)
    requires Terminated(table)
    ensures r != {} ==> exists m :: 0 <= m < |table| && Names(table[m], name) && r == table[m].sensorType
    ensures forall m :: 0 <= m < |table| && Names(table[m], name) && FirstNaming(table, name, m) ==> r == table[m].sensorType
    ensures (forall m :: 0 <= m < |table| ==> !Names(table[m], name)) ==> r == {}
  {
    var j := Search(table, name, 0);
    forall m | 0 <= m < |table| && Names(table[m], name) && FirstNaming(table, name, m)
      ensures j == m
    {
      SearchFindsFirst(table, name, m);
    }
    if table[j].name.Some? then table[j].sensorType else {}
  }

  /** No entry before m names the sensor. */
  predicate FirstNaming(table: seq<SensorEntry>, name: string, m: nat) {
    forall k :: 0 <= k < m && k < |table| ==> !Names(table[k], name)
  }

  /** A search from the start stops at the first entry naming the sensor. */
  lemma SearchFindsFirst(table: seq<SensorEntry>, name: string, m: nat)
    requires Terminated(table) && m < |table| && Names(table[m], name) && FirstNaming(table, name, m)
    ensures Search(table, name, 0) == m
  {
  }

  /** sensor_type after the -t names when every search starts at the start of the table. */
  function TypeFromStart(table: seq<SensorEntry>, names: seq<string>): Mask
    requires Terminated(table)
  {
    if names == [] then {} else TypeFromStart(table, names[..|names| - 1]) + FoundType(table, names[|names| - 1])
  }

  /** With the index reset, a bit is set exactly when some named sensor's mask has it. */
  lemma {:induction false} FromStartIsUnion(table: seq<SensorEntry>, names: seq<string>, x: nat)
    requires Terminated(table)
    ensures x in TypeFromStart(table, names) <==> exists n :: n in names && x in FoundType(table, n)
  {
    if names != [] {
      var init := names[..|names| - 1];
      assert names == init + [names[|names| - 1]];
      FromStartIsUnion(table, init, x);
    }
  }

  /** With the index reset, the order of the -t options no longer matters. */
  lemma FromStartOrderIrrelevant(table: seq<SensorEntry>, a: seq<string>, b: seq<string>)
    requires Terminated(table) && multiset(a) == multiset(b)
    ensures TypeFromStart(table, a) == TypeFromStart(table, b)
  {
    forall x: nat
      ensures x in TypeFromStart(table, a) <==> x in TypeFromStart(table, b)
    {
      FromStartIsUnion(table, a, x);
      FromStartIsUnion(table, b, x);
      forall n
        ensures n in a <==> n in b
      {
        assert n in a <==> n in multiset(a);
        assert n in b <==> n in multiset(b);
      }
    }
  }

  /** With the index reset, the two names of AgainstTableOrder both set their types. */
  lemma FromStartFindsBoth(table: seq<SensorEntry>, p: nat, q: nat)
    requires Terminated(table) && p < q < |table| - 1
    requires forall m :: 0 <= m < q ==> !Names(table[m], table[q].name.value)
    requires forall m :: 0 <= m < p ==> !Names(table[m], table[p].name.value)
    ensures TypeFromStart(table, [table[q].name.value, table[p].name.value]) == table[q].sensorType + table[p].sensorType
  {
    var names := [table[q].name.value, table[p].name.value];
    assert names[..1][..0] == [];
    assert names[..1] == names[..|names| - 1];
    assert StrCaseEq(table[q].name.value, table[q].name.value);
    assert StrCaseEq(table[p].name.value, table[p].name.value);
    assert Search(table, table[q].name.value, 0) == q;
    assert Search(table, table[p].name.value, 0) == p;
    assert TypeFromStart(table, names[..1]) == table[q].sensorType;
  }
}
