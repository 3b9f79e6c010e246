/** The few pieces of the C library the header leans on: NULL-able strings,
    the `int` and `unsigned int` widths, `isspace` and `strcasecmp` in the C
    locale, and the decimal conversions of `printf`. */
module CLib {

  /** A value that may be NULL in C. */
  datatype Option<T> = None | Some(value: T)

  /** The range of C `int`. */
  newtype int32 = x: int | -0x8000_0000 <= x < 0x8000_0000

  /** The range of C `unsigned int`. */
  newtype uint32 = x: int | 0 <= x < 0x1_0000_0000

  function Min(a: int, b: int): int { if a < b then a else b }

  /** `tolower` in the C locale: only the ASCII capitals change. */
  function Fold(c: char): char {
    if 'A' <= c <= 'Z' then (c as int + 32) as char else c
  }

  /** `strcasecmp(a, b) == 0` (and `_stricmp` on Windows). */
  predicate SameIgnoringCase(a: string, b: string) {
    |a| == |b| && forall k :: 0 <= k < |a| ==> Fold(a[k]) == Fold(b[k])
  }

  /** `isspace` in the C locale: space, and tab through carriage return. */
  predicate IsSpace(c: char) {
    c == ' ' || '\t' <= c <= '\r'
  }

  predicate Blank(s: string) {
    forall k :: 0 <= k < |s| ==> IsSpace(s[k])
  }

  predicate IsDigit(c: char) { '0' <= c <= '9' }

  function DigitChar(d: nat): char
    requires d < 10
  {
    ('0' as int + d) as char
  }

  /** The digits `printf("%d", n)` writes for a non-negative `n`. */
  function NatDigits(n: nat): (r: string)
    ensures |r| > 0
    ensures forall k :: 0 <= k < |r| ==> IsDigit(r[k])
    ensures |r| > 1 ==> r[0] != '0'
  {
    if n < 10 then [DigitChar(n)] else NatDigits(n / 10) + [DigitChar(n % 10)]
  }

  /** The number a string of decimal digits denotes. */
  function DigitsValue(s: string): nat
    requires forall k :: 0 <= k < |s| ==> IsDigit(s[k])
  {
    if s == [] then 0
    else
      assert IsDigit(s[|s| - 1]);
      DigitsValue(s[..|s| - 1]) * 10 + (s[|s| - 1] as int - '0' as int)
  }

  /** Reading back what `NatDigits` writes gives the number again. */
  lemma {:induction false} DigitsRoundTrip(n: nat)
    ensures DigitsValue(NatDigits(n)) == n
  {
    if n >= 10 {
      var a := NatDigits(n / 10);
      var s := a + [DigitChar(n % 10)];
      assert s[..|s| - 1] == a;
      DigitsRoundTrip(n / 10);
    }
  }

  /** `printf("%d", x)` for a C `int`. */
  function IntDecimal(x: int): string {
    if x < 0 then "-" + NatDigits(-x) else NatDigits(x)
  }

  /** `printf("%d", u)` for an `unsigned int` argument: `%d` reads the bits as
      a signed `int`, so values from 2^31 up print as negative numbers. */
  function PercentD(u: uint32): (r: string)
    ensures u < 0x8000_0000 ==> r == NatDigits(u as nat)
    ensures u >= 0x8000_0000 ==> r == "-" + NatDigits(0x1_0000_0000 - u as int)
  {
    IntDecimal(if u < 0x8000_0000 then u as int else u as int - 0x1_0000_0000)
  }

  /** The largest `unsigned int` prints as "-1". */
  lemma LargestUnsignedPrintsMinusOne()
    ensures PercentD(0xFFFF_FFFF) == "-1"
  {
    assert NatDigits(1) == "1";
  }
}
