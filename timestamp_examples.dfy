/** The conversions of the timestamps in the normaliser's test tables, one
    lemma per table row, in milliseconds and in microseconds. */
module TimestampExamples {
  import opened Wrappers
  import opened Timestamp

  lemma DigitsSnoc(s: string, c: char)
    requires AllDigits(s) && IsDigit(c)
    ensures AllDigits(s + [c]) && DigitsValue(s + [c]) == DigitsValue(s) * 10 + (c as int - '0' as int)
  {
    assert (s + [c])[..|s|] == s;
  }

  /** The first '.' after a run of digits. */
  lemma {:induction false} DotAfterDigits(w: string, rest: string)
    requires AllDigits(w)
    ensures DotIndex(w + "." + rest) == Some(|w|)
  {
    if w != [] {
      assert (w + "." + rest)[1..] == w[1..] + "." + rest;
      DotAfterDigits(w[1..], rest);
    }
  }

  /** Digits, a point and digits read as that decimal. */
  lemma ParseAt(w: string, f: string)
    requires AllDigits(w) && AllDigits(f) && w != []
    ensures ParseDecimal(w + "." + f) == Some(Decimal(w, f))
  {
    var s := w + "." + f;
    DotAfterDigits(w, f);
    assert s[..|w|] == w;
    assert s[|w| + 1..] == f;
  }


  /** The first five digits of the integral part. */
  lemma SecondsHigh()
    ensures AllDigits("15493") && DigitsValue("15493") == 15493
  {
    assert DigitsValue("1") == 1;
    DigitsSnoc("1", '5'); assert "1" + ['5'] == "15";
    DigitsSnoc("15", '4'); assert "15" + ['4'] == "154";
    DigitsSnoc("154", '9'); assert "154" + ['9'] == "1549";
    DigitsSnoc("1549", '3'); assert "1549" + ['3'] == "15493";
  }

  /** The integral part shared by the table rows. */
  lemma Seconds()
    ensures AllDigits("1549307811") && DigitsValue("1549307811") == 1549307811
  {
    SecondsHigh();
    DigitsSnoc("15493", '0'); assert "15493" + ['0'] == "154930";
    DigitsSnoc("154930", '7'); assert "154930" + ['7'] == "1549307";
    DigitsSnoc("1549307", '8'); assert "1549307" + ['8'] == "15493078";
    DigitsSnoc("15493078", '1'); assert "15493078" + ['1'] == "154930781";
    DigitsSnoc("154930781", '1'); assert "154930781" + ['1'] == "1549307811";
  }

  /** The fraction of the rounding-down row. */
  lemma Fraction074100()
    ensures AllDigits("074100") && DigitsValue("074100") == 74100
  {
    assert DigitsValue("0") == 0;
    DigitsSnoc("0", '7'); assert "0" + ['7'] == "07";
    DigitsSnoc("07", '4'); assert "07" + ['4'] == "074";
    DigitsSnoc("074", '1'); assert "074" + ['1'] == "0741";
    DigitsSnoc("0741", '0'); assert "0741" + ['0'] == "07410";
    DigitsSnoc("07410", '0'); assert "07410" + ['0'] == "074100";
  }

  /** The fraction of the rounding-up row. */
  lemma Fraction074500()
    ensures AllDigits("074500") && DigitsValue("074500") == 74500
  {
    assert DigitsValue("0") == 0;
    DigitsSnoc("0", '7'); assert "0" + ['7'] == "07";
    DigitsSnoc("07", '4'); assert "07" + ['4'] == "074";
    DigitsSnoc("074", '5'); assert "074" + ['5'] == "0745";
    DigitsSnoc("0745", '0'); assert "0745" + ['0'] == "07450";
    DigitsSnoc("07450", '0'); assert "07450" + ['0'] == "074500";
  }

  /** The fractions of the padding and truncation rows. */
  lemma Fraction12345()
    ensures AllDigits("1") && DigitsValue("1") == 1
    ensures AllDigits("12") && DigitsValue("12") == 12
    ensures AllDigits("123") && DigitsValue("123") == 123
    ensures AllDigits("1234") && DigitsValue("1234") == 1234
    ensures AllDigits("12345") && DigitsValue("12345") == 12345
  {
    assert DigitsValue("1") == 1;
    DigitsSnoc("1", '2'); assert "1" + ['2'] == "12";
    DigitsSnoc("12", '3'); assert "12" + ['3'] == "123";
    DigitsSnoc("123", '4'); assert "123" + ['4'] == "1234";
    DigitsSnoc("1234", '5'); assert "1234" + ['5'] == "12345";
  }

  /** A string that is not a number converts to the sentinel 1. */
  lemma MillisInvalid()
    ensures SlackConvertTimeStamp("asd") == 1
  {
    assert !IsDigit('a');
    assert DotIndex("asd") == None;
  }

  /** A string that is not a number converts to the sentinel 1. */
  lemma MicrosInvalid()
    ensures SlackConvertTimeStampToMicroSeconds("asd") == 1
  {
    assert !IsDigit('a');
    assert DotIndex("asd") == None;
  }

  /** Whole seconds scale exactly. */
  lemma MillisInteger()
    ensures SlackConvertTimeStamp("1549307811") == 1549307811000
  {
    Seconds();
    var d := Decimal("1549307811", "");
    assert Numerator(d) == 1549307811;
    RoundsToExact(1549307811000, 1);
    RoundsToUnique(1549307811 * Pow10(3), 1, Scale(d, 3), 1549307811000);
  }

  /** Whole seconds scale exactly. */
  lemma MicrosInteger()
    ensures SlackConvertTimeStampToMicroSeconds("1549307811") == 1549307811000000
  {
    Seconds();
    var d := Decimal("1549307811", "");
    assert Numerator(d) == 1549307811;
    RoundsToExact(1549307811000000, 1);
    RoundsToUnique(1549307811 * Pow10(6), 1, Scale(d, 6), 1549307811000000);
  }

  /** A sub-millisecond remainder below one half is dropped. */
  lemma MillisRoundingDown()
    ensures SlackConvertTimeStamp("1549307811.074100") == 1549307811074
  {
    Seconds();
    Fraction074100();
    ParseAt("1549307811", "074100");
    assert "1549307811" + "." + "074100" == "1549307811.074100";
    var d := Decimal("1549307811", "074100");
    assert Pow10(6) == 1000000;
    assert Numerator(d) == 1549307811074100;
    assert RoundsTo(1549307811074100 * 1000, 1000000, 1549307811074);
    RoundsToUnique(1549307811074100 * Pow10(3), Pow10(6), Scale(d, 3), 1549307811074);
  }

  /** A sub-millisecond remainder below one half is dropped. */
  lemma MicrosRoundingDown()
    ensures SlackConvertTimeStampToMicroSeconds("1549307811.074100") == 1549307811074100
  {
    Seconds();
    Fraction074100();
    ParseAt("1549307811", "074100");
    assert "1549307811" + "." + "074100" == "1549307811.074100";
    var d := Decimal("1549307811", "074100");
    assert Pow10(6) == 1000000;
    assert Numerator(d) == 1549307811074100;
    assert RoundsTo(1549307811074100 * 1000000, 1000000, 1549307811074100);
    RoundsToUnique(1549307811074100 * Pow10(6), Pow10(6), Scale(d, 6), 1549307811074100);
  }

  /** A sub-millisecond remainder of one half rounds up. */
  lemma MillisRoundingUp()
    ensures SlackConvertTimeStamp("1549307811.074500") == 1549307811075
  {
    Seconds();
    Fraction074500();
    ParseAt("1549307811", "074500");
    assert "1549307811" + "." + "074500" == "1549307811.074500";
    var d := Decimal("1549307811", "074500");
    assert Pow10(6) == 1000000;
    assert Numerator(d) == 1549307811074500;
    assert RoundsTo(1549307811074500 * 1000, 1000000, 1549307811075);
    RoundsToUnique(1549307811074500 * Pow10(3), Pow10(6), Scale(d, 3), 1549307811075);
  }

  /** A sub-millisecond remainder of one half rounds up. */
  lemma MicrosRoundingUp()
    ensures SlackConvertTimeStampToMicroSeconds("1549307811.074500") == 1549307811074500
  {
    Seconds();
    Fraction074500();
    ParseAt("1549307811", "074500");
    assert "1549307811" + "." + "074500" == "1549307811.074500";
    var d := Decimal("1549307811", "074500");
    assert Pow10(6) == 1000000;
    assert Numerator(d) == 1549307811074500;
    assert RoundsTo(1549307811074500 * 1000000, 1000000, 1549307811074500);
    RoundsToUnique(1549307811074500 * Pow10(6), Pow10(6), Scale(d, 6), 1549307811074500);
  }

  /** A trailing point means a zero fraction. */
  lemma MillisZeroDecimals()
    ensures SlackConvertTimeStamp("1549307811.") == 1549307811000
  {
    Seconds();
    ParseAt("1549307811", "");
    assert "1549307811" + "." + "" == "1549307811.";
    var d := Decimal("1549307811", "");
    assert Numerator(d) == 1549307811;
    assert RoundsTo(1549307811 * 1000, 1, 1549307811000);
    RoundsToUnique(1549307811 * Pow10(3), Pow10(0), Scale(d, 3), 1549307811000);
  }

  /** A trailing point means a zero fraction. */
  lemma MicrosZeroDecimals()
    ensures SlackConvertTimeStampToMicroSeconds("1549307811.") == 1549307811000000
  {
    Seconds();
    ParseAt("1549307811", "");
    assert "1549307811" + "." + "" == "1549307811.";
    var d := Decimal("1549307811", "");
    assert Numerator(d) == 1549307811;
    assert RoundsTo(1549307811 * 1000000, 1, 1549307811000000);
    RoundsToUnique(1549307811 * Pow10(6), Pow10(0), Scale(d, 6), 1549307811000000);
  }

  /** One fractional digit is padded with zeros. */
  lemma MillisOneDecimal()
    ensures SlackConvertTimeStamp("1549307811.1") == 1549307811100
  {
    Seconds();
    Fraction12345();
    ParseAt("1549307811", "1");
    assert "1549307811" + "." + "1" == "1549307811.1";
    var d := Decimal("1549307811", "1");
    assert Pow10(1) == 10;
    assert Numerator(d) == 15493078111;
    assert RoundsTo(15493078111 * 1000, 10, 1549307811100);
    RoundsToUnique(15493078111 * Pow10(3), Pow10(1), Scale(d, 3), 1549307811100);
  }

  /** One fractional digit is padded with zeros. */
  lemma MicrosOneDecimal()
    ensures SlackConvertTimeStampToMicroSeconds("1549307811.1") == 1549307811100000
  {
    Seconds();
    Fraction12345();
    ParseAt("1549307811", "1");
    assert "1549307811" + "." + "1" == "1549307811.1";
    var d := Decimal("1549307811", "1");
    assert Pow10(1) == 10;
    assert Numerator(d) == 15493078111;
    assert RoundsTo(15493078111 * 1000000, 10, 1549307811100000);
    RoundsToUnique(15493078111 * Pow10(6), Pow10(1), Scale(d, 6), 1549307811100000);
  }

  /** Two fractional digits are padded with zeros. */
  lemma MillisTwoDecimals()
    ensures SlackConvertTimeStamp("1549307811.12") == 1549307811120
  {
    Seconds();
    Fraction12345();
    ParseAt("1549307811", "12");
    assert "1549307811" + "." + "12" == "1549307811.12";
    var d := Decimal("1549307811", "12");
    assert Pow10(2) == 100;
    assert Numerator(d) == 154930781112;
    assert RoundsTo(154930781112 * 1000, 100, 1549307811120);
    RoundsToUnique(154930781112 * Pow10(3), Pow10(2), Scale(d, 3), 1549307811120);
  }

  /** Two fractional digits are padded with zeros. */
  lemma MicrosTwoDecimals()
    ensures SlackConvertTimeStampToMicroSeconds("1549307811.12") == 1549307811120000
  {
    Seconds();
    Fraction12345();
    ParseAt("1549307811", "12");
    assert "1549307811" + "." + "12" == "1549307811.12";
    var d := Decimal("1549307811", "12");
    assert Pow10(2) == 100;
    assert Numerator(d) == 154930781112;
    assert RoundsTo(154930781112 * 1000000, 100, 1549307811120000);
    RoundsToUnique(154930781112 * Pow10(6), Pow10(2), Scale(d, 6), 1549307811120000);
  }

  /** Three fractional digits are whole milliseconds. */
  lemma MillisThreeDecimals()
    ensures SlackConvertTimeStamp("1549307811.123") == 1549307811123
  {
    Seconds();
    Fraction12345();
    ParseAt("1549307811", "123");
    assert "1549307811" + "." + "123" == "1549307811.123";
    var d := Decimal("1549307811", "123");
    assert Pow10(3) == 1000;
    assert Numerator(d) == 1549307811123;
    assert RoundsTo(1549307811123 * 1000, 1000, 1549307811123);
    RoundsToUnique(1549307811123 * Pow10(3), Pow10(3), Scale(d, 3), 1549307811123);
  }

  /** Three fractional digits are whole milliseconds. */
  lemma MicrosThreeDecimals()
    ensures SlackConvertTimeStampToMicroSeconds("1549307811.123") == 1549307811123000
  {
    Seconds();
    Fraction12345();
    ParseAt("1549307811", "123");
    assert "1549307811" + "." + "123" == "1549307811.123";
    var d := Decimal("1549307811", "123");
    assert Pow10(3) == 1000;
    assert Numerator(d) == 1549307811123;
    assert RoundsTo(1549307811123 * 1000000, 1000, 1549307811123000);
    RoundsToUnique(1549307811123 * Pow10(6), Pow10(3), Scale(d, 6), 1549307811123000);
  }

  /** Four fractional digits: milliseconds drop the fourth, microseconds keep it. */
  lemma MillisFourDecimals()
    ensures SlackConvertTimeStamp("1549307811.1234") == 1549307811123
  {
    Seconds();
    Fraction12345();
    ParseAt("1549307811", "1234");
    assert "1549307811" + "." + "1234" == "1549307811.1234";
    var d := Decimal("1549307811", "1234");
    assert Pow10(4) == 10000;
    assert Numerator(d) == 15493078111234;
    assert RoundsTo(15493078111234 * 1000, 10000, 1549307811123);
    RoundsToUnique(15493078111234 * Pow10(3), Pow10(4), Scale(d, 3), 1549307811123);
  }

  /** Four fractional digits: milliseconds drop the fourth, microseconds keep it. */
  lemma MicrosFourDecimals()
    ensures SlackConvertTimeStampToMicroSeconds("1549307811.1234") == 1549307811123400
  {
    Seconds();
    Fraction12345();
    ParseAt("1549307811", "1234");
    assert "1549307811" + "." + "1234" == "1549307811.1234";
    var d := Decimal("1549307811", "1234");
    assert Pow10(4) == 10000;
    assert Numerator(d) == 15493078111234;
    assert RoundsTo(15493078111234 * 1000000, 10000, 1549307811123400);
    RoundsToUnique(15493078111234 * Pow10(6), Pow10(4), Scale(d, 6), 1549307811123400);
  }

  /** Five fractional digits: milliseconds drop the last two, microseconds keep them. */
  lemma MillisFiveDecimals()
    ensures SlackConvertTimeStamp("1549307811.12345") == 1549307811123
  {
    Seconds();
    Fraction12345();
    ParseAt("1549307811", "12345");
    assert "1549307811" + "." + "12345" == "1549307811.12345";
    var d := Decimal("1549307811", "12345");
    assert Pow10(5) == 100000;
    assert Numerator(d) == 154930781112345;
    assert RoundsTo(154930781112345 * 1000, 100000, 1549307811123);
    RoundsToUnique(154930781112345 * Pow10(3), Pow10(5), Scale(d, 3), 1549307811123);
  }

  /** Five fractional digits: milliseconds drop the last two, microseconds keep them. */
  lemma MicrosFiveDecimals()
    ensures SlackConvertTimeStampToMicroSeconds("1549307811.12345") == 1549307811123450
  {
    Seconds();
    Fraction12345();
    ParseAt("1549307811", "12345");
    assert "1549307811" + "." + "12345" == "1549307811.12345";
    var d := Decimal("1549307811", "12345");
    assert Pow10(5) == 100000;
    assert Numerator(d) == 154930781112345;
    assert RoundsTo(154930781112345 * 1000000, 100000, 1549307811123450);
    RoundsToUnique(154930781112345 * Pow10(6), Pow10(5), Scale(d, 6), 1549307811123450);
  }

}
