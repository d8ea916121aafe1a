/**
 * The worked examples of lib/chart-utils.test.ts, each proved from the
 * definitions one step at a time: the rounding, the digits, the separator.
 */
module ChartExamples {
  import opened Digits
  import opened JsNumber
  import opened ChartUtils

  // --- 1234 -------------------------------------------------------------------

  lemma Round1234()
    ensures ScaledRound(Decimal(1234, 3), 1) == 12
  {
    assert Pow10(3) == 1000;
  }

  lemma Fixed12()
    ensures FixedText(12, 1) == "1.2"
  {
    assert NatToDigits(12) == "12";
  }

  lemma Comma12()
    ensures ReplaceFirst("1.2", '.', ',') == "1,2"
  {
    assert "1.2" == "1" + ['.'] + "2";
    ReplaceFirstAt("1", "2", '.', ',');
  }

  lemma ToFixed1234()
    ensures ToFixed(Decimal(1234, 3), 1) == "1.2"
  {
    BelowFixedLimit(Decimal(1234, 0), 3);
    Round1234();
    Fixed12();
    FixedOfNonNegative(Decimal(1234, 3), 1);
  }

  lemma Currency1234()
    ensures FormatChartCurrency(Decimal(1234, 0)) == "R 1,2K"
  {
    ToFixed1234();
    ThousandsCurrency(Decimal(1234, 0));
    Comma12();
  }

  lemma ThousandsCurrency(v: Decimal)
    requires AtLeast(v, 1000) && !AtLeast(v, 1000000)
    ensures FormatChartCurrency(v) == "R " + ReplaceFirst(ToFixed(DivPow10(v, 3), 1), '.', ',') + "K"
  {
  }

  lemma Value1234()
    ensures FormatChartValue(Decimal(1234, 0)) == "1.2K"
  {
    ToFixed1234();
  }

  // --- 1000000 ----------------------------------------------------------------

  lemma MillionBelowLimit()
    ensures !AtLeast(Magnitude(Decimal(1000000, 6)), Pow10(21))
  {
    assert Pow10(6) == 1000000;
    Pow10Monotone(1, 21);
    MulStrict(1, Pow10(21), Pow10(6));
  }

  lemma MillionRounds()
    ensures ScaledRound(Decimal(1000000, 6), 0) == 1 && ScaledRound(Decimal(1000000, 6), 1) == 10
  {
    assert Pow10(6) == 1000000;
  }

  lemma FixedOneAndTen()
    ensures FixedText(1, 0) == "1" && FixedText(10, 1) == "1.0"
  {
    assert NatToDigits(1) == "1";
    assert NatToDigits(10) == "10";
  }

  lemma ToFixedMillion()
    ensures ToFixed(Decimal(1000000, 6), 0) == "1"
    ensures ToFixed(Decimal(1000000, 6), 1) == "1.0"
  {
    MillionBelowLimit();
    MillionRounds();
    FixedOneAndTen();
    FixedOfNonNegative(Decimal(1000000, 6), 0);
    FixedOfNonNegative(Decimal(1000000, 6), 1);
  }

  lemma CurrencyMillion()
    ensures FormatChartCurrency(Decimal(1000000, 0)) == "R 1M"
  {
    ToFixedMillion();
  }

  lemma ValueMillion()
    ensures FormatChartValue(Decimal(1000000, 0)) == "1.0M"
  {
    ToFixedMillion();
  }

  // --- 123.45 and 123 ---------------------------------------------------------

  lemma String123()
    ensures ToString(Decimal(123, 0)) == "123"
  {
    assert StripZeros(123, 0) == (123, 0);
    assert NatToDigits(123) == "123";
  }

  lemma Currency12345()
    ensures FormatChartCurrency(Decimal(12345, 2)) == "R 123"
  {
    assert Pow10(2) == 100;
    assert MathRound(Decimal(12345, 2)) == 123;
    String123();
  }

  lemma Value123()
    ensures FormatChartValue(Decimal(123, 0)) == "123"
  {
    String123();
  }

  // --- percentages ------------------------------------------------------------

  lemma Round12345()
    ensures ScaledRound(Decimal(12345, 3), 1) == 123
  {
    assert Pow10(3) == 1000;
  }

  lemma Fixed123()
    ensures FixedText(123, 1) == "12.3"
  {
    assert NatToDigits(123) == "123";
  }

  lemma Percentage12345()
    ensures FormatChartPercentage(Decimal(12345, 3)) == "12.3%"
  {
    BelowFixedLimit(Decimal(12345, 3), 0);
    Round12345();
    Fixed123();
    FixedOfNonNegative(Decimal(12345, 3), 1);
  }

  lemma Fixed1000()
    ensures FixedText(1000, 1) == "100.0"
  {
    assert NatToDigits(1000) == "1000";
  }

  lemma HundredRounds()
    ensures ScaledRound(Decimal(100, 0), 1) == 1000
  {
    assert Pow10(1) == 10;
  }

  lemma Percentage100()
    ensures FormatChartPercentage(Decimal(100, 0)) == "100.0%"
  {
    BelowFixedLimit(Decimal(100, 0), 0);
    HundredRounds();
    Fixed1000();
    FixedOfNonNegative(Decimal(100, 0), 1);
  }

  lemma Fixed5()
    ensures FixedText(5, 1) == "0.5"
  {
    assert NatToDigits(5) == "5";
    assert PadStart("5", 2) == "05";
  }

  lemma HalfRounds()
    ensures ScaledRound(Decimal(5, 1), 1) == 5
  {
    assert Pow10(1) == 10;
  }

  lemma PercentageHalf()
    ensures FormatChartPercentage(Decimal(5, 1)) == "0.5%"
  {
    BelowFixedLimit(Decimal(5, 1), 0);
    HalfRounds();
    Fixed5();
    FixedOfNonNegative(Decimal(5, 1), 1);
  }
}
