/**
 * The few C library behaviours the tools depend on, stated over Dafny strings:
 * NUL-terminated reading, atoi, strtol in base 16, the "%d" and "%2.2X"
 * conversions, strcasecmp and strncmp.  A C string is modelled by the
 * characters before its terminator; reading past the end yields '\0'.
 */
module CLib {

  datatype Option<T> = None | Some(value: T)

  /** A C string holds no NUL before its terminator. */
  predicate IsCString(s: string) {
    '\0' !in s
  }

  /** The character a C reader sees at offset i: the terminator, or zero fill, past the end. */
  function At(s: string, i: nat): char {
    if i < |s| then s[i] else '\0'
  }

  /** isspace() in the C locale. */
  predicate IsSpace(c: char) {
    c == ' ' || c == '\t' || c == '\n' || c == '\r' || c == '\U{0B}' || c == '\U{0C}'
  }

  predicate IsDigit(c: char) {
    '0' <= c <= '9'
  }

  predicate IsHexDigit(c: char) {
    '0' <= c <= '9' || 'a' <= c <= 'f' || 'A' <= c <= 'F'
  }

  /** The value of a hexadecimal digit (0 for any other character). */
  function HexDigitValue(c: char): (v: nat)
    ensures v < 16
  {
    if '0' <= c <= '9' then c as int - '0' as int
    else if 'a' <= c <= 'f' then c as int - 'a' as int + 10
    else if 'A' <= c <= 'F' then c as int - 'A' as int + 10
    else 0
  }

  /** The value of a decimal digit (0 for any other character). */
  function DigitValue(c: char): (v: nat)
    ensures v < 10
  {
    if '0' <= c <= '9' then c as int - '0' as int else 0
  }

  /** The upper-case hexadecimal digit for 0..15, as "%X" prints it. */
  function UpperHexDigit(n: nat): (c: char)
    requires n < 16
    ensures IsHexDigit(c) && HexDigitValue(c) == n
    ensures !('a' <= c <= 'z') && c != 'x' && c != 'X'
  {
    if n < 10 then ('0' as int + n) as char else ('A' as int + n - 10) as char
  }

  /** toupper() in the C locale. */
  function ToUpper(c: char): char {
    if 'a' <= c <= 'z' then (c as int - 32) as char else c
  }

  /** tolower() in the C locale. */
  function ToLower(c: char): char {
    if 'A' <= c <= 'Z' then (c as int + 32) as char else c
  }

  function UpperString(s: string): (r: string)
    ensures |r| == |s| && forall i :: 0 <= i < |s| ==> r[i] == ToUpper(s[i])
  {
    if s == [] then [] else [ToUpper(s[0])] + UpperString(s[1..])
  }

  /** strcasecmp(a, b) == 0 for C strings. */
  predicate StrCaseEq(a: string, b: string) {
    |a| == |b| && forall i :: 0 <= i < |a| ==> ToLower(a[i]) == ToLower(b[i])
  }

  /** strncmp(a, b, n) == 0 for C strings: the first n characters agree, the terminator included. */
  predicate StrnEq(a: string, b: string, n: nat) {
    a[..if |a| < n then |a| else n] == b[..if |b| < n then |b| else n]
  }

  // ---------------------------------------------------------------------------
  // Digit runs and their values

  /** Number of decimal digits starting at offset i. */
  function DigitRun(s: string, i: nat): (n: nat)
    ensures i + n <= |s| || n == 0
    ensures !IsDigit(At(s, i + n))
    decreases |s| - i
  {
    if i < |s| && IsDigit(s[i]) then 1 + DigitRun(s, i + 1) else 0
  }

  /** Number of hexadecimal digits starting at offset i. */
  function HexRun(s: string, i: nat): (n: nat)
    ensures i + n <= |s| || n == 0
    ensures !IsHexDigit(At(s, i + n))
    decreases |s| - i
  {
    if i < |s| && IsHexDigit(s[i]) then 1 + HexRun(s, i + 1) else 0
  }

  /** Value of a string of decimal digits, most significant first. */
  function DecValue(d: string): nat {
    if d == [] then 0 else DecValue(d[..|d| - 1]) * 10 + DigitValue(d[|d| - 1])
  }

  /** Value of the n hexadecimal digits at offset i, most significant first. */
  function HexValue(s: string, i: nat, n: nat): nat {
    if n == 0 then 0 else HexValue(s, i, n - 1) * 16 + HexDigitValue(At(s, i + n - 1))
  }

  /** First offset at or after i that is not white space. */
  function SkipSpace(s: string, i: nat): (j: nat)
    ensures i <= j && !IsSpace(At(s, j))
    ensures j == i || j <= |s|
    decreases |s| - i
  {
    if i < |s| && IsSpace(s[i]) then SkipSpace(s, i + 1) else i
  }

  // ---------------------------------------------------------------------------
  // atoi and "%d"

  /**
   * atoi(): leading white space, an optional sign, then the longest run of
   * decimal digits; no digits gives 0.  Overflow (undefined in C) is not modelled.
   */
  function Atoi(s: string): int {
    var i := SkipSpace(s, 0);
    var j := if At(s, i) == '-' || At(s, i) == '+' then i + 1 else i;
    var n := DigitRun(s, j);
    var m := if n == 0 then 0 else DecValue(s[j..j + n]);
    if At(s, i) == '-' then -m else m
  }

  /** Decimal digits of a natural number, most significant first, no leading zeros. */
  function Digits(n: nat): (d: string)
    ensures |d| >= 1 && forall k :: 0 <= k < |d| ==> IsDigit(d[k])
    ensures DecValue(d) == n
  {
    var last := ('0' as int + n % 10) as char;
    if n < 10 then [last]
    else
      var front := Digits(n / 10);
      assert (front + [last])[..|front|] == front;
      front + [last]
  }

  /** sprintf("%d", n). */
  function FormatInt(n: int): string {
    if n < 0 then "-" + Digits(-n) else Digits(n)
  }

  lemma DigitRunOfDigits(prefix: string, d: string, rest: string)
    requires |d| >= 1 && forall k :: 0 <= k < |d| ==> IsDigit(d[k])
    requires rest == [] || !IsDigit(rest[0])
    ensures DigitRun(prefix + d + rest, |prefix|) == |d|
    ensures (prefix + d + rest)[|prefix|..|prefix| + |d|] == d
  {
    var s := prefix + d + rest;
    assert forall k :: 0 <= k < |d| ==> At(s, |prefix| + k) == d[k];
    assert !IsDigit(At(s, |prefix| + |d|));
    DigitRunIs(s, |prefix|, |d|);
  }

  /** The digit run from i has length n when n digits follow i and the next character is not one. */
  lemma {:induction false} DigitRunIs(s: string, i: nat, n: nat)
    requires forall k :: i <= k < i + n ==> IsDigit(At(s, k))
    requires !IsDigit(At(s, i + n))
    ensures DigitRun(s, i) == n
    decreases n
  {
    if n > 0 {
      DigitRunIs(s, i + 1, n - 1);
    }
  }

  /** atoi reads back what "%d" writes, also when a non-digit follows it. */
  lemma AtoiFormatIntThen(n: int, rest: string)
    requires rest == [] || !IsDigit(rest[0])
    ensures Atoi(FormatInt(n) + rest) == n
  {
    if n < 0 {
      AtoiOfNegative(Digits(-n), rest);
    } else {
      AtoiOfDigits(Digits(n), rest);
    }
  }

  /** atoi of a string that starts with its n digits. */
  lemma AtoiUnsigned(s: string, n: nat)
    requires 1 <= n <= |s| && IsDigit(s[0]) && DigitRun(s, 0) == n
    ensures Atoi(s) == DecValue(s[..n])
  {
    assert At(s, 0) == s[0];
    assert SkipSpace(s, 0) == 0;
  }

  /** atoi of a string that starts with a minus sign and then its n digits. */
  lemma AtoiMinus(s: string, n: nat)
    requires 1 <= n && 1 + n <= |s| && s[0] == '-' && DigitRun(s, 1) == n
    ensures Atoi(s) == -(DecValue(s[1..1 + n]) as int)
  {
    assert At(s, 0) == '-';
    assert SkipSpace(s, 0) == 0;
  }

  /** atoi of a minus sign, a run of digits, then a non-digit or nothing. */
  lemma AtoiOfNegative(d: string, rest: string)
    requires |d| >= 1 && forall k :: 0 <= k < |d| ==> IsDigit(d[k])
    requires rest == [] || !IsDigit(rest[0])
    ensures Atoi("-" + d + rest) == -(DecValue(d) as int)
  {
    DigitRunOfDigits("-", d, rest);
    AtoiMinus("-" + d + rest, |d|);
  }

  /** atoi of a run of digits, then a non-digit or nothing. */
  lemma AtoiOfDigits(d: string, rest: string)
    requires |d| >= 1 && forall k :: 0 <= k < |d| ==> IsDigit(d[k])
    requires rest == [] || !IsDigit(rest[0])
    ensures Atoi(d + rest) == DecValue(d)
  {
    DigitRunOfDigits("", d, rest);
    assert "" + d + rest == d + rest;
    AtoiUnsigned(d + rest, |d|);
  }

  /** atoi reads back what "%d" writes. */
  lemma AtoiFormatInt(n: int)
    ensures Atoi(FormatInt(n)) == n
  {
    AtoiFormatIntThen(n, []);
    assert FormatInt(n) + [] == FormatInt(n);
  }

  // ---------------------------------------------------------------------------
  // strtol(s, &end, 16)

  /**
   * strtol(s + pos, &end, 16): white space, an optional sign, an optional
   * "0x"/"0X" prefix when a hexadecimal digit follows it, then the longest
   * run of hexadecimal digits.  With no digit at all the value is 0 and the
   * end is pos itself.  Saturation at the range of long is not modelled.
   */
  function StrtolHex(s: string, pos: nat): (r: (int, nat))
    ensures r.1 >= pos
    ensures r.1 == pos || r.1 <= |s|
  {
    var i := SkipSpace(s, pos);
    var neg := At(s, i) == '-';
    var j := if At(s, i) == '-' || At(s, i) == '+' then i + 1 else i;
    var k := if At(s, j) == '0' && (At(s, j + 1) == 'x' || At(s, j + 1) == 'X') && IsHexDigit(At(s, j + 2))
             then j + 2 else j;
    var n := HexRun(s, k);
    if n == 0 then (0, pos)
    else
      var m: int := HexValue(s, k, n);
      (if neg then -m else m, k + n)
  }

  /** "%2.2X" of a byte: exactly two upper-case hexadecimal digits. */
  function Hex2(b: nat): (r: string)
    requires b < 256
    ensures |r| == 2 && IsHexDigit(r[0]) && IsHexDigit(r[1])
  {
    [UpperHexDigit(b / 16), UpperHexDigit(b % 16)]
  }

  /** "%X" of a hexadecimal digit's value is that digit in upper case. */
  lemma UpperHexDigitOfValue(c: char)
    requires IsHexDigit(c)
    ensures UpperHexDigit(HexDigitValue(c)) == ToUpper(c)
  {
  }

  /** "%2.2X" of the byte two hexadecimal digits spell is those digits in upper case. */
  lemma Hex2OfDigits(c0: char, c1: char)
    requires IsHexDigit(c0) && IsHexDigit(c1)
    ensures Hex2(HexDigitValue(c0) * 16 + HexDigitValue(c1)) == [ToUpper(c0), ToUpper(c1)]
  {
    var b := HexDigitValue(c0) * 16 + HexDigitValue(c1);
    assert b / 16 == HexDigitValue(c0) && b % 16 == HexDigitValue(c1);
    UpperHexDigitOfValue(c0);
    UpperHexDigitOfValue(c1);
  }

  /** The two digits of "%2.2X" are the high and the low nibble of the byte. */
  lemma Hex2Value(b: nat)
    requires b < 256
    ensures HexDigitValue(Hex2(b)[0]) * 16 + HexDigitValue(Hex2(b)[1]) == b
  {
  }

  // ---------------------------------------------------------------------------
  // Fixed-width integers

  type Byte = x: int | 0 <= x < 0x100
  type Int16 = x: int | -0x8000 <= x < 0x8000
  type Uint16 = x: int | 0 <= x < 0x1_0000
  type Int32 = x: int | -0x8000_0000 <= x < 0x8000_0000
  type Uint32 = x: int | 0 <= x < 0x1_0000_0000

  /** Conversion of an unsigned 32-bit value to a signed 32-bit int (two's complement). */
  function Int32Of(u: Uint32): (r: Int32)
    ensures (r - u) % 0x1_0000_0000 == 0
    ensures r >= 0 <==> u < 0x8000_0000
  {
    if u < 0x8000_0000 then u else u - 0x1_0000_0000
  }

  /** An int as its 32-bit two's-complement pattern. */
  function Bits(v: int): bv32 {
    (v % 0x1_0000_0000) as bv32
  }

  function Reverse<T>(s: seq<T>): (r: seq<T>)
    ensures |r| == |s| && forall i :: 0 <= i < |s| ==> r[i] == s[|s| - 1 - i]
  {
    if s == [] then [] else Reverse(s[1..]) + [s[0]]
  }

  lemma ReverseReverse<T>(s: seq<T>)
    ensures Reverse(Reverse(s)) == s
  {
  }

  /** Storing an int into an unsigned char keeps its low eight bits. */
  function LowByte(v: int): Byte {
    v % 0x100
  }

  lemma LowByteOfByte(x: Byte)
    ensures LowByte(x) == x
  {
  }
}
