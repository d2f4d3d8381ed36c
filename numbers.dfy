/**
 * Java's fixed-width integers and the decimal text conversions the value
 * objects and the If-Match parser rely on: String.valueOf / "%d" rendering
 * and Long.parseLong in radix 10.
 */
module Numbers {
  import opened Wrappers

  const INT64_MIN := -0x8000_0000_0000_0000
  const INT64_MAX := 0x7FFF_FFFF_FFFF_FFFF

  /** Java's `int`. */
  newtype int32 = x: int | -0x8000_0000 <= x < 0x8000_0000

  const INT32_MIN := -0x8000_0000
  const INT32_MAX := 0x7FFF_FFFF

  /** The value Java's 32-bit two's-complement arithmetic leaves for the mathematical result x. */
  function WrapInt32(x: int): (r: int32)
    ensures INT32_MIN <= x <= INT32_MAX ==> r as int == x
    ensures x > INT32_MAX && x <= 2 * INT32_MAX + 1 ==> r as int == x - 0x1_0000_0000
    ensures (x - r as int) % 0x1_0000_0000 == 0
  {
    ((x - INT32_MIN) % 0x1_0000_0000 + INT32_MIN) as int32
  }

  predicate IsDigit(c: char) {
    '0' <= c <= '9'
  }

  predicate AllDigits(s: string) {
    forall i :: 0 <= i < |s| ==> IsDigit(s[i])
  }

  function DigitChar(d: int): (c: char)
    requires 0 <= d < 10
    ensures IsDigit(c) && c as int - '0' as int == d
  {
    (('0' as int) + d) as char
  }

  function DigitValue(c: char): (d: int)
    requires IsDigit(c)
    ensures 0 <= d < 10 && DigitChar(d) == c
  {
    c as int - '0' as int
  }

  /** The decimal digits of n, most significant first, without leading zeros. */
  function NatDigits(n: nat): (s: string)
    ensures |s| >= 1 && AllDigits(s)
    ensures |s| == 1 || s[0] != '0'
    decreases n
  {
    if n < 10 then [DigitChar(n)] else NatDigits(n / 10) + [DigitChar(n % 10)]
  }

  /** The decimal rendering of an integer: an optional '-' followed by digits. */
  function ToDecimal(n: int): (s: string)
    ensures |s| >= 1
    ensures n < 0 <==> s[0] == '-'
    ensures n >= 0 ==> AllDigits(s)
  {
    if n < 0 then "-" + NatDigits(-n) else NatDigits(n)
  }

  /** The value of a string of decimal digits. */
  function DigitsValue(s: string): (v: nat)
    requires AllDigits(s)
  {
    if s == [] then 0 else DigitsValue(s[..|s| - 1]) * 10 + DigitValue(s[|s| - 1])
  }

  /** Long.parseLong(s): an optional sign, at least one digit, and a value in the 64-bit range. */
  function ParseLong(s: string): (r: Result<int>)
    ensures r.Failure? ==> r.error == NumberFormat(s)
    ensures r.Success? ==> INT64_MIN <= r.value <= INT64_MAX
    ensures r.Success? ==> |s| >= 1 && (s[0] == '-' || s[0] == '+' || IsDigit(s[0]))
    ensures s == [] || s == "-" || s == "+" ==> r.Failure?
  {
    if s == [] then Failure(NumberFormat(s))
    else
      var start := if s[0] == '-' || s[0] == '+' then 1 else 0;
      var digits := s[start..];
      if digits == [] || !AllDigits(digits) then Failure(NumberFormat(s))
      else
        var v: int := if s[0] == '-' then -(DigitsValue(digits) as int) else DigitsValue(digits);
        if INT64_MIN <= v <= INT64_MAX then Success(v) else Failure(NumberFormat(s))
  }

  function Pow10(k: nat): (p: nat)
    ensures p >= 1
  {
    if k == 0 then 1 else 10 * Pow10(k - 1)
  }

  /** k digits denote a value below 10^k. */
  lemma {:induction false} DigitsValueBound(s: string)
    requires AllDigits(s)
    ensures DigitsValue(s) < Pow10(|s|)
    decreases |s|
  {
    if s != [] {
      DigitsValueBound(s[..|s| - 1]);
    }
  }

  lemma {:induction false} DigitsValueOfNatDigits(n: nat)
    ensures DigitsValue(NatDigits(n)) == n
    decreases n
  {
    if n >= 10 {
      var prefix := NatDigits(n / 10);
      var s := prefix + [DigitChar(n % 10)];
      assert s[..|s| - 1] == prefix;
      DigitsValueOfNatDigits(n / 10);
    }
  }

  /** Parsing the decimal rendering of a 64-bit value gives the value back. */
  lemma ParseLongOfToDecimal(n: int)
    requires INT64_MIN <= n <= INT64_MAX
    ensures ParseLong(ToDecimal(n)) == Success(n)
  {
    ParseLongOfRendering(n);
  }

  /** What ParseLong reads back from a rendering: the sign and the digits' value. */
  lemma ParseLongOfRendering(n: int)
    ensures var v := ParseLong(ToDecimal(n));
            INT64_MIN <= n <= INT64_MAX ==> v == Success(n)
  {
    if n < 0 {
      ParseNegative(n);
    } else {
      ParseNonNegative(n);
    }
  }

  lemma ParseNegative(n: int)
    requires n < 0
    ensures INT64_MIN <= n ==> ParseLong(ToDecimal(n)) == Success(n)
    ensures n < INT64_MIN ==> ParseLong(ToDecimal(n)).Failure?
  {
    DigitsValueOfNatDigits(-n);
    ParseMinusDigits(NatDigits(-n));
  }

  /** A '-' followed by digits parses to the negated value of the digits, when that is in range. */
  lemma ParseMinusDigits(d: string)
    requires d != [] && AllDigits(d)
    ensures DigitsValue(d) <= -INT64_MIN ==> ParseLong("-" + d) == Success(-(DigitsValue(d) as int))
    ensures DigitsValue(d) > -INT64_MIN ==> ParseLong("-" + d).Failure?
  {
    assert ("-" + d)[1..] == d;
  }

  lemma ParseNonNegative(n: nat)
    ensures n <= INT64_MAX ==> ParseLong(ToDecimal(n)) == Success(n)
    ensures n > INT64_MAX ==> ParseLong(ToDecimal(n)).Failure?
  {
    var s := ToDecimal(n);
    assert s[0..] == NatDigits(n);
    DigitsValueOfNatDigits(n);
  }

  /** An integer outside the 64-bit range cannot be parsed as a long. */
  lemma ParseLongRejectsOverflow(n: int)
    requires n > INT64_MAX || n < INT64_MIN
    ensures ParseLong(ToDecimal(n)).Failure?
  {
    if n < 0 {
      ParseNegative(n);
    } else {
      ParseNonNegative(n);
    }
  }
}
