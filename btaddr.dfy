/**
 * Bluetooth device addresses as btcommon.cpp reads and prints them: six
 * hexadecimal fields separated by ':', the first printed field being the
 * last byte of the address.
 */
module BtAddr {
  import opened CLib
  import opened BtConst

  /**
   * The string that starts just after offset e, as the pointer e + 1 sees it:
   * empty once e is at or past the terminator.
   */
  function After(s: string, e: nat): (r: string)
    ensures e < |s| ==> |r| == |s| - e - 1 && forall k :: 0 <= k < |r| ==> r[k] == s[e + 1 + k]
    ensures e >= |s| ==> r == []
  {
    if e < |s| then s[e + 1..] else []
  }

  /**
   * The fields get_bdaddr reads from s, field i being the i-th of six: each
   * is read by strtol in base 16 from the start of s and stored as its low
   * byte; every field but the last must stop at a ':', and the next field is
   * read from just after the character strtol stopped at.
   */
  function ParseFields(s: string, i: nat): Option<seq<Byte>>
    requires i <= 6
    decreases 6 - i
  {
    if i == 6 then Some([])
    else
      var (v, e) := StrtolHex(s, 0);
      if At(s, e) != ':' && i != 5 then None
      else Prepend([LowByte(v)], ParseFields(After(s, e), i + 1))
  }

  /** The address get_bdaddr stores: byte k holds field 5 - k, so the first printed field is the last byte. */
  function ParseBdaddr(s: string): (r: Option<seq<Byte>>)
    ensures r.Some? ==> |r.value| == 6
  {
    match ParseFields(s, 0)
    case None => None
    case Some(fields) =>
      ParseFieldsLength(s, 0);
      Some(Reverse(fields))
  }

  lemma {:induction false} ParseFieldsLength(s: string, i: nat)
    requires i <= 6
    ensures ParseFields(s, i).Some? ==> |ParseFields(s, i).value| == 6 - i
    decreases 6 - i
  {
    if i < 6 {
      var (v, e) := StrtolHex(s, 0);
      ParseFieldsLength(After(s, e), i + 1);
    }
  }

  /** The remaining parse, prefixed by the fields already read. */
  function Prepend(done: seq<Byte>, rest: Option<seq<Byte>>): Option<seq<Byte>> {
    match rest
    case None => None
    case Some(r) => Some(done + r)
  }

  /**
   * get_bdaddr: writes the six bytes from the last to the first while it reads
   * the fields; on a field not followed by ':' it zero-fills the address and
   * returns -1, otherwise it returns 0.
   */
  method GetBdaddr(str: string, ba: array<Byte>) returns (rc: int)
    requires ba.Length == 6
    modifies ba
    ensures ParseBdaddr(str).Some? ==> rc == 0 && ba[..] == ParseBdaddr(str).value
    ensures ParseBdaddr(str).None? ==> rc == -1 && ba[..] == [0, 0, 0, 0, 0, 0]
  {
    ghost var whole := ParseFields(str, 0);
    var s := str;
    var d := 5;
    var i := 0;
    ghost var done: seq<Byte> := [];
    PrependNothing(whole);
    while i < 6
      invariant 0 <= i <= 6 && d == 5 - i && |done| == i
      invariant ba[6 - i..] == Reverse(done)
      invariant whole == Prepend(done, ParseFields(s, i))
    {
      var r := StrtolHex(s, 0);
      var v, endp := r.0, r.1;
      FieldStep(whole, done, s, i, v, endp);
      ghost var before := ba[..];
      ba[d] := LowByte(v);
      assert ba[..] == before[d := LowByte(v)];
      FillStep(before, i, LowByte(v), done);
      d := d - 1;
      if At(s, endp) != ':' && i != 5 {
        ZeroFill(ba);
        return -1;
      }
      done := done + [LowByte(v)];
      s := After(s, endp);
      i := i + 1;
    }
    assert done + [] == done;
    assert ba[..] == ba[0..];
    return 0;
  }

  /** Bytes written from the last slot down: the byte read next goes just in front of those already written. */
  lemma FillStep(a: seq<Byte>, i: nat, b: Byte, done: seq<Byte>)
    requires |a| == 6 && i < 6 && a[6 - i..] == Reverse(done)
    ensures a[5 - i := b][5 - i..] == Reverse(done + [b])
  {
    assert a[5 - i := b][5 - i..] == [b] + a[6 - i..];
    ReverseSnoc(done, b);
  }

  lemma {:induction false} ReverseSnoc(done: seq<Byte>, b: Byte)
    ensures Reverse(done + [b]) == [b] + Reverse(done)
    decreases |done|
  {
    if done != [] {
      assert (done + [b])[1..] == done[1..] + [b];
      ReverseSnoc(done[1..], b);
    } else {
      assert done + [b] == [b];
    }
  }

  /** One pass of get_bdaddr's loop: the parse fails at a bad separator, or goes on with one more byte read. */
  lemma FieldStep(whole: Option<seq<Byte>>, done: seq<Byte>, s: string, i: nat, v: int, e: nat)
    requires i < 6 && StrtolHex(s, 0) == (v, e) && whole == Prepend(done, ParseFields(s, i))
    ensures At(s, e) != ':' && i != 5 ==> whole == None
    ensures At(s, e) == ':' || i == 5 ==> whole == Prepend(done + [LowByte(v)], ParseFields(After(s, e), i + 1))
  {
    ParseFieldsStep(s, i, v, e);
    PrependOne(done, LowByte(v), ParseFields(After(s, e), i + 1));
  }

  /** One field of ParseFields: read it, check its separator, go on after it. */
  lemma ParseFieldsStep(s: string, i: nat, v: int, e: nat)
    requires i < 6 && StrtolHex(s, 0) == (v, e)
    ensures At(s, e) != ':' && i != 5 ==> ParseFields(s, i) == None
    ensures At(s, e) == ':' || i == 5 ==>
      ParseFields(s, i) == Prepend([LowByte(v)], ParseFields(After(s, e), i + 1))
  {
  }

  lemma PrependNothing(x: Option<seq<Byte>>)
    ensures Prepend([], x) == x
  {
    if x.Some? {
      assert [] + x.value == x.value;
    }
  }

  lemma PrependOne(done: seq<Byte>, b: Byte, rest: Option<seq<Byte>>)
    ensures Prepend(done, Prepend([b], rest)) == Prepend(done + [b], rest)
  {
    if rest.Some? {
      assert done + ([b] + rest.value) == (done + [b]) + rest.value;
    }
  }

  /** memset of the whole address to zero. */
  method ZeroFill(ba: array<Byte>)
    requires ba.Length == 6
    modifies ba
    ensures ba[..] == [0, 0, 0, 0, 0, 0]
  {
    forall k | 0 <= k < 6 {
      ba[k] := 0;
    }
  }

  /** Six fields printed "%2.2X", separated by ':'. */
  function FormatFields(fields: seq<Byte>): (r: string)
    requires |fields| >= 1
    ensures |r| == 3 * |fields| - 1
  {
    if |fields| == 1 then Hex2(fields[0]) else Hex2(fields[0]) + ":" + FormatFields(fields[1..])
  }

  /** get_bdaddr_as_string: the bytes from the last to the first, two upper-case hex digits each. */
  function BdaddrToString(b: seq<Byte>): (r: string)
    requires |b| == 6
    ensures |r| + 1 == BtAddrSize
    ensures forall k :: 0 <= k < |r| ==> r[k] == ':' || (IsHexDigit(r[k]) && !('a' <= r[k] <= 'z'))
  {
    var r := FormatFields(Reverse(b));
    FormatFieldsCharacters(Reverse(b));
    r
  }

  lemma {:induction false} FormatFieldsCharacters(fields: seq<Byte>)
    requires |fields| >= 1
    ensures forall k :: 0 <= k < |FormatFields(fields)| ==>
      FormatFields(fields)[k] == ':' || (IsHexDigit(FormatFields(fields)[k]) && !('a' <= FormatFields(fields)[k] <= 'z'))
  {
    if |fields| > 1 {
      FormatFieldsCharacters(fields[1..]);
    }
  }

  /** strtol in base 16 reads back a byte printed "%2.2X" when no hex digit follows it. */
  lemma StrtolHexOfHex2(s: string, x: Byte)
    requires |s| >= 2 && s[0] == Hex2(x)[0] && s[1] == Hex2(x)[1]
    requires !IsHexDigit(At(s, 2))
    ensures StrtolHex(s, 0) == (x, 2)
  {
    var h := Hex2(x);
    Hex2Value(x);
    assert SkipSpace(s, 0) == 0;
    assert HexRun(s, 2) == 0;
    assert HexRun(s, 0) == 2;
    assert HexValue(s, 0, 1) == HexDigitValue(h[0]);
    assert HexValue(s, 0, 2) == HexDigitValue(h[0]) * 16 + HexDigitValue(h[1]);
  }

  /** strtol reads a printed field followed by ':' as its byte and stops at the ':'. */
  lemma PrintedField(s: string, x: Byte, rest: string)
    requires s == Hex2(x) + ":" + rest
    ensures StrtolHex(s, 0) == (x, 2) && At(s, 2) == ':' && After(s, 2) == rest
  {
    assert s[0] == Hex2(x)[0] && s[1] == Hex2(x)[1];
    assert s[2] == ':' && s[3..] == rest;
    StrtolHexOfHex2(s, x);
  }

  /** The last printed field reads back as its byte. */
  lemma PrintedLastField(s: string, x: Byte)
    requires s == Hex2(x)
    ensures ParseFields(s, 5) == Some([x])
  {
    StrtolHexOfHex2(s, x);
    LowByteOfByte(x);
    ParseFieldsStep(s, 5, x, 2);
    assert After(s, 2) == [];
    assert ParseFields([], 6) == Some([]);
    assert [x] + [] == [x];
  }

  /** A printed field, a ':' and fields that read back: the field's byte comes first. */
  lemma PrintedFieldThen(s: string, i: nat, x: Byte, rest: string, tail: seq<Byte>)
    requires i < 5 && s == Hex2(x) + ":" + rest && ParseFields(rest, i + 1) == Some(tail)
    ensures ParseFields(s, i) == Some([x] + tail)
  {
    PrintedField(s, x, rest);
    LowByteOfByte(x);
    ParseFieldsStep(s, i, x, 2);
  }

  /** Reading printed fields from field i on gives back those fields. */
  lemma {:induction false} ParseFieldsOfFormatted(s: string, i: nat, fields: seq<Byte>)
    requires i < 6 && |fields| == 6 - i
    requires s == FormatFields(fields)
    ensures ParseFields(s, i) == Some(fields)
    decreases 6 - i
  {
    if i == 5 {
      PrintedLastField(s, fields[0]);
      assert [fields[0]] == fields;
    } else {
      var rest := FormatFields(fields[1..]);
      ParseFieldsOfFormatted(rest, i + 1, fields[1..]);
      PrintedFieldThen(s, i, fields[0], rest, fields[1..]);
      assert [fields[0]] + fields[1..] == fields;
    }
  }

  /** Printing an address and reading it back gives the same address. */
  lemma ParsePrintedBdaddr(b: seq<Byte>)
    requires |b| == 6
    ensures ParseBdaddr(BdaddrToString(b)) == Some(b)
  {
    ParseFieldsOfFormatted(BdaddrToString(b), 0, Reverse(b));
    ReverseReverse(b);
  }

  /** n fields of two hexadecimal digits each, separated by ':' and with nothing after the last. */
  predicate HexFields(s: string, n: nat)
    decreases n
  {
    if n <= 1 then n == 1 && |s| == 2 && IsHexDigit(s[0]) && IsHexDigit(s[1])
    else |s| >= 3 && IsHexDigit(s[0]) && IsHexDigit(s[1]) && s[2] == ':' && HexFields(s[3..], n - 1)
  }

  /** strtol in base 16 reads two hexadecimal digits not followed by a third as their value. */
  lemma StrtolHexOfPair(s: string)
    requires |s| >= 2 && IsHexDigit(s[0]) && IsHexDigit(s[1]) && !IsHexDigit(At(s, 2))
    ensures StrtolHex(s, 0) == (HexDigitValue(s[0]) * 16 + HexDigitValue(s[1]), 2)
  {
    assert SkipSpace(s, 0) == 0;
    assert HexRun(s, 2) == 0;
    assert HexRun(s, 0) == 2;
    assert HexValue(s, 0, 1) == HexDigitValue(s[0]);
  }

  /** The last field, two hexadecimal digits, reads as their value. */
  lemma ReadLastField(s: string)
    requires HexFields(s, 1)
    ensures ParseFields(s, 5) == Some([HexDigitValue(s[0]) * 16 + HexDigitValue(s[1])])
  {
    var x: Byte := HexDigitValue(s[0]) * 16 + HexDigitValue(s[1]);
    StrtolHexOfPair(s);
    LowByteOfByte(x);
    ParseFieldsStep(s, 5, x, 2);
    assert After(s, 2) == [];
    assert ParseFields([], 6) == Some([]);
    assert [x] + [] == [x];
  }

  /** The value of two hexadecimal digits prints as those digits upper-cased. */
  lemma PrintPair(s: string, x: Byte)
    requires |s| == 2 && IsHexDigit(s[0]) && IsHexDigit(s[1])
    requires x == HexDigitValue(s[0]) * 16 + HexDigitValue(s[1])
    ensures Hex2(x) == UpperString(s)
  {
    Hex2OfDigits(s[0], s[1]);
    UpperPair(s);
  }

  /** Upper-casing two characters upper-cases each. */
  lemma UpperPair(s: string)
    requires |s| == 2
    ensures UpperString(s) == [ToUpper(s[0]), ToUpper(s[1])]
  {
    var u := UpperString(s);
    assert u[0] == ToUpper(s[0]) && u[1] == ToUpper(s[1]);
  }

  /** strtol stops at the ':' after two hexadecimal digits, and the next field starts after it. */
  lemma PairThenColon(s: string)
    requires |s| >= 3 && IsHexDigit(s[0]) && IsHexDigit(s[1]) && s[2] == ':'
    ensures StrtolHex(s, 0) == (HexDigitValue(s[0]) * 16 + HexDigitValue(s[1]), 2)
    ensures At(s, 2) == ':' && After(s, 2) == s[3..]
  {
    StrtolHexOfPair(s);
  }

  /** A field of two hexadecimal digits then ':': its value comes before the fields read after the ':'. */
  lemma ReadField(s: string, i: nat, tail: seq<Byte>)
    requires i < 5 && |s| >= 3 && IsHexDigit(s[0]) && IsHexDigit(s[1]) && s[2] == ':'
    requires ParseFields(s[3..], i + 1) == Some(tail)
    ensures ParseFields(s, i) == Some([HexDigitValue(s[0]) * 16 + HexDigitValue(s[1])] + tail)
  {
    var x: Byte := HexDigitValue(s[0]) * 16 + HexDigitValue(s[1]);
    PairThenColon(s);
    LowByteOfByte(x);
    ParseFieldsStep(s, i, x, 2);
    assert ParseFields(s, i) == Prepend([x], ParseFields(s[3..], i + 1));
  }

  /** Upper-casing leaves a ':' in place and the text on both sides of it upper-cased. */
  lemma UpperStringAroundColon(s: string)
    requires |s| >= 3 && s[2] == ':'
    ensures UpperString(s) == UpperString(s[..2]) + ":" + UpperString(s[3..])
  {
    var u, head, tail := UpperString(s), UpperString(s[..2]), UpperString(s[3..]);
    var r := head + ":" + tail;
    assert |r| == |u|;
    forall k | 0 <= k < |u|
      ensures r[k] == u[k]
    {
      if k < 2 {
        assert r[k] == head[k] == ToUpper(s[..2][k]);
      } else if k > 2 {
        assert r[k] == tail[k - 3] == ToUpper(s[3..][k - 3]);
      }
    }
  }

  /** A field of two hexadecimal digits and a ':' prints, in front of the printed fields after it, as the text upper-cased. */
  lemma PrintField(s: string, tail: seq<Byte>)
    requires |s| >= 3 && IsHexDigit(s[0]) && IsHexDigit(s[1]) && s[2] == ':'
    requires |tail| >= 1 && FormatFields(tail) == UpperString(s[3..])
    ensures FormatFields([HexDigitValue(s[0]) * 16 + HexDigitValue(s[1])] + tail) == UpperString(s)
  {
    FormatFieldsCons(HexDigitValue(s[0]) * 16 + HexDigitValue(s[1]), tail);
    PrintLeadingPair(s);
    UpperStringAroundColon(s);
  }

  /** One more field in front prints as its two digits and a ':' in front. */
  lemma FormatFieldsCons(x: Byte, tail: seq<Byte>)
    requires |tail| >= 1
    ensures FormatFields([x] + tail) == Hex2(x) + ":" + FormatFields(tail)
  {
    var fields := [x] + tail;
    assert fields[0] == x && fields[1..] == tail;
  }

  /** The first two hexadecimal digits of s print back as themselves upper-cased. */
  lemma PrintLeadingPair(s: string)
    requires |s| >= 3 && IsHexDigit(s[0]) && IsHexDigit(s[1])
    ensures Hex2(HexDigitValue(s[0]) * 16 + HexDigitValue(s[1])) == UpperString(s[..2])
  {
    var pair := s[..2];
    assert pair[0] == s[0] && pair[1] == s[1];
    PrintPair(pair, HexDigitValue(s[0]) * 16 + HexDigitValue(s[1]));
  }

  /** Reading well-formed fields from field i on succeeds, and printing what was read gives the fields upper-cased. */
  lemma {:induction false} ReadPrintedFields(s: string, i: nat)
    requires i < 6 && HexFields(s, 6 - i)
    ensures ParseFields(s, i).Some? && |ParseFields(s, i).value| == 6 - i
    ensures FormatFields(ParseFields(s, i).value) == UpperString(s)
    decreases 6 - i
  {
    if i == 5 {
      ReadLastField(s);
      PrintPair(s, HexDigitValue(s[0]) * 16 + HexDigitValue(s[1]));
    } else {
      ReadPrintedFields(s[3..], i + 1);
      var tail := ParseFields(s[3..], i + 1).value;
      ReadField(s, i, tail);
      PrintField(s, tail);
    }
  }

  /**
   * A well-formed address string reads successfully, and get_bdaddr_as_string
   * of the address read gives the string back with its hex digits upper-cased.
   */
  lemma PrintParsedBdaddr(s: string)
    requires HexFields(s, 6)
    ensures ParseBdaddr(s).Some? && BdaddrToString(ParseBdaddr(s).value) == UpperString(s)
  {
    ReadPrintedFields(s, 0);
    ReverseReverse(ParseFields(s, 0).value);
  }

  /** The empty string has no field followed by ':', so get_bdaddr rejects it. */
  lemma EmptyAddressRejected()
    ensures ParseBdaddr("") == None
  {
    assert StrtolHex("", 0) == (0, 0);
  }

  /** debug_no_encrypt: mandatory encryption is never switched off. */
  function DebugNoEncrypt(): (r: bool)
    ensures !r
  {
    false
  }
}
