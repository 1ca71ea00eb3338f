/** Slack timestamps: decimal seconds since the epoch, written as a string
    such as "1549307811.074500". The normaliser turns them into integer
    milliseconds, rounding half up, or into exact integer microseconds; a
    string that does not read as a decimal number yields the sentinel 1. */
module Timestamp {
  import opened Wrappers

  predicate IsDigit(c: char) {
    '0' <= c <= '9'
  }

  predicate AllDigits(s: string) {
    forall i :: 0 <= i < |s| ==> IsDigit(s[i])
  }

  /** The number written by a string of decimal digits. */
  function DigitsValue(s: string): nat
    requires AllDigits(s)
  {
    if s == [] then 0
    else DigitsValue(s[..|s| - 1]) * 10 + (s[|s| - 1] as int - '0' as int)
  }

  function Pow10(n: nat): (r: nat)
    ensures r >= 1
  {
    if n == 0 then 1 else 10 * Pow10(n - 1)
  }

  /** A timestamp read as its integral digits and its fractional digits. */
  datatype Decimal = Decimal(whole: string, frac: string)

  predicate ValidDecimal(d: Decimal) {
    AllDigits(d.whole) && AllDigits(d.frac) && (d.whole != [] || d.frac != [])
  }

  /** The position of the first '.' of s, if any. */
  function DotIndex(s: string): (r: Option<nat>)
    ensures r.Some? ==> r.value < |s| && s[r.value] == '.' && '.' !in s[..r.value]
    ensures r.None? ==> '.' !in s
  {
    if s == [] then None
    else if s[0] == '.' then Some(0)
    else match DotIndex(s[1..])
      case None => None
      case Some(i) =>
        assert s[..i + 1] == [s[0]] + s[1..][..i];
        Some(i + 1)
  }

  /** Reads digits, optionally followed by '.' and more digits, with at
      least one digit in all; "1549307811." and ".5" read, "." and "asd" do
      not. */
  function ParseDecimal(s: string): (r: Option<Decimal>)
    ensures r.Some? ==> ValidDecimal(r.value)
    ensures r.Some? ==> s == r.value.whole || s == r.value.whole + "." + r.value.frac
    ensures AllDigits(s) && s != [] ==> r == Some(Decimal(s, ""))
  {
    match DotIndex(s)
    case None =>
      if s != [] && AllDigits(s) then Some(Decimal(s, "")) else None
    case Some(i) =>
      var d := Decimal(s[..i], s[i + 1..]);
      assert s == d.whole + "." + d.frac;
      if ValidDecimal(d) then Some(d) else None
  }

  /** The value of d times 10^|d.frac|: the digits without the point. */
  function Numerator(d: Decimal): nat
    requires ValidDecimal(d)
  {
    DigitsValue(d.whole) * Pow10(|d.frac|) + DigitsValue(d.frac)
  }

  /** q is x / y rounded half up: q - 1/2 <= x / y < q + 1/2. */
  predicate RoundsTo(x: nat, y: nat, q: nat) {
    q * (2 * y) <= 2 * x + y < q * (2 * y) + 2 * y
  }

  /** x / y rounded half up. */
  function RoundDiv(x: nat, y: nat): (q: nat)
    requires y > 0
    ensures RoundsTo(x, y, q)
  {
    DivBounds(2 * x + y, 2 * y);
    (2 * x + y) / (2 * y)
  }

  lemma DivBounds(x: nat, y: nat)
    requires y > 0
    ensures (x / y) * y <= x < (x / y) * y + y
  {
    assert x == (x / y) * y + x % y;
  }

  /** The value of d times 10^e, rounded half up to an integer. */
  function Scale(d: Decimal, e: nat): (r: nat)
    requires ValidDecimal(d)
    ensures RoundsTo(Numerator(d) * Pow10(e), Pow10(|d.frac|), r)
  {
    RoundDiv(Numerator(d) * Pow10(e), Pow10(|d.frac|))
  }

  /** A timestamp converted with e decimal places: 10^e units per second, the
      sentinel 1 when the string does not read as a decimal number. */
  function Convert(s: string, e: nat): int {
    match ParseDecimal(s)
    case None => 1
    case Some(d) => Scale(d, e)
  }

  /** SlackConvertTimeStamp: milliseconds. */
  function SlackConvertTimeStamp(s: string): int {
    Convert(s, 3)
  }

  /** SlackConvertTimeStampToMicroSeconds: microseconds. */
  function SlackConvertTimeStampToMicroSeconds(s: string): int {
    Convert(s, 6)
  }

  // ---------------------------------------------------------------------------
  // Properties
  // ---------------------------------------------------------------------------

  lemma Pow10Add(a: nat, b: nat)
    ensures Pow10(a + b) == Pow10(a) * Pow10(b)
  {
    if a > 0 {
      Pow10Add(a - 1, b);
    }
  }

  lemma Pow10Split(e: nat, f: nat)
    requires f <= e
    ensures Pow10(e) == Pow10(f) * Pow10(e - f)
  {
    Pow10Add(f, e - f);
  }

  lemma MulRearrange(a: nat, b: nat, c: nat)
    ensures a * (b * c) == (a * c) * b
  {
  }

  /** The rounded quotient is unique. */
  lemma RoundsToUnique(x: nat, y: nat, q1: nat, q2: nat)
    requires y > 0 && RoundsTo(x, y, q1) && RoundsTo(x, y, q2)
    ensures q1 == q2
  {
    var c := 2 * y;
    assert c * q1 < c * (q2 + 1);
    assert c * q2 < c * (q1 + 1);
    MulCancelStrict(q1, q2 + 1, c);
    MulCancelStrict(q2, q1 + 1, c);
  }

  lemma MulMono(a: nat, b: nat, c: nat)
    requires a <= b
    ensures a * c <= b * c
  {
  }

  /** An exact multiple needs no rounding. */
  lemma RoundsToExact(m: nat, y: nat)
    requires y > 0
    ensures RoundsTo(m * y, y, m)
  {
    assert m * (2 * y) == 2 * (m * y);
  }

  /** With at most e fractional digits, conversion is exact: no rounding. */
  lemma ScaleExact(d: Decimal, e: nat)
    requires ValidDecimal(d) && |d.frac| <= e
    ensures Scale(d, e) == Numerator(d) * Pow10(e - |d.frac|)
  {
    var den := Pow10(|d.frac|);
    var m := Numerator(d) * Pow10(e - |d.frac|);
    Pow10Split(e, |d.frac|);
    MulRearrange(Numerator(d), den, Pow10(e - |d.frac|));
    RoundsToExact(m, den);
    RoundsToUnique(m * den, den, Scale(d, e), m);
  }

  /** A string of decimal digits is that many whole seconds. */
  lemma IntegerSeconds(s: string, e: nat)
    requires s != [] && AllDigits(s)
    ensures Convert(s, e) == DigitsValue(s) * Pow10(e)
  {
    var d := Decimal(s, "");
    assert ParseDecimal(s) == Some(d);
    ScaleExact(d, e);
    assert e - |d.frac| == e;
    assert Numerator(d) == DigitsValue(s) by {
      assert Pow10(|d.frac|) == 1 && DigitsValue(d.frac) == 0;
    }
  }

  /** Every string that does not read as a decimal number gives the
      sentinel 1. */
  lemma ConvertInvalid(s: string, e: nat)
    requires ParseDecimal(s).None?
    ensures Convert(s, e) == 1
  {
  }

  /** Rounding x / y to thousandths and then the thousandths to units is
      rounding x / (1000 y) when the first step is exact. */
  lemma RoundThousands(n: nat, y: nat, micro: nat)
    requires y > 0 && micro * y == n * 1000000
    ensures RoundsTo(n * 1000, y, (micro + 500) / 1000)
  {
    var q := (micro + 500) / 1000;
    DivBounds(micro + 500, 1000);
    // q * 1000 <= micro + 500 < q * 1000 + 1000, scaled by 2y
    MulMono(q * 1000, micro + 500, 2 * y);
    MulMonoStrict(micro + 500, q * 1000 + 1000, 2 * y);
    assert (q * 1000) * (2 * y) == 1000 * (q * (2 * y));
    assert (micro + 500) * (2 * y) == 1000 * (2 * (n * 1000) + y);
    assert (q * 1000 + 1000) * (2 * y) == 1000 * (q * (2 * y) + 2 * y);
    MulCancel(q * (2 * y), 2 * (n * 1000) + y, 1000);
    MulCancelStrict(2 * (n * 1000) + y, q * (2 * y) + 2 * y, 1000);
  }

  /** For timestamps with at most six fractional digits (all Slack writes),
      the millisecond value is the microsecond value rounded half up to
      thousands. */
  lemma MillisFromMicros(s: string)
    requires ParseDecimal(s).Some? && |ParseDecimal(s).value.frac| <= 6
    ensures SlackConvertTimeStamp(s) == (SlackConvertTimeStampToMicroSeconds(s) + 500) / 1000
  {
    var d := ParseDecimal(s).value;
    var den := Pow10(|d.frac|);
    var n := Numerator(d);
    var micro := Scale(d, 6);
    ScaleExact(d, 6);
    Pow10Split(6, |d.frac|);
    MulRearrange(n, den, Pow10(6 - |d.frac|));
    assert Pow10(6) == 1000000;
    assert Pow10(3) == 1000;
    RoundThousands(n, den, micro);
    RoundsToUnique(n * 1000, den, Scale(d, 3), (micro + 500) / 1000);
  }

  lemma MulMonoStrict(a: nat, b: nat, c: nat)
    requires a < b && c > 0
    ensures a * c < b * c
  {
  }

  lemma MulCancel(a: nat, b: nat, c: nat)
    requires c > 0 && c * a <= c * b
    ensures a <= b
  {
    MulMonoStrictWhen(b, a, c);
  }

  lemma MulCancelStrict(a: nat, b: nat, c: nat)
    requires c > 0 && c * a < c * b
    ensures a < b
  {
    MulMonoWhen(b, a, c);
  }

  lemma MulMonoWhen(a: nat, b: nat, c: nat)
    ensures a <= b ==> a * c <= b * c
  {
    if a <= b {
      MulMono(a, b, c);
    }
  }

  lemma MulMonoStrictWhen(a: nat, b: nat, c: nat)
    requires c > 0
    ensures a < b ==> a * c < b * c
  {
    if a < b {
      MulMonoStrict(a, b, c);
    }
  }
}
