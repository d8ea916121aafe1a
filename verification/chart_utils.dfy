/**
 * The chart helpers of lib/chart-utils.ts: the K/M number formatters, the
 * list of period dates ending now, and the clamped random walk behind the
 * demo series.  The clock, the calendar's month/year arithmetic, the label
 * formatter and the random draws are parameters.
 */
module ChartUtils {
  import opened Wrappers
  import opened Digits
  import opened JsNumber
  import Text

  // ---------------------------------------------------------------------------
  // Number formatting

  /** `s.replace(from, to)` with a one-character pattern: only the first occurrence changes. */
  function ReplaceFirst(s: string, from: char, to: char): (r: string)
    ensures |r| == |s|
    ensures from !in s ==> r == s
  {
    if |s| == 0 then s
    else if s[0] == from then [to] + s[1..]
    else [s[0]] + ReplaceFirst(s[1..], from, to)
  }

  lemma {:induction false} ReplaceFirstAt(a: string, b: string, from: char, to: char)
    requires from !in a
    ensures ReplaceFirst(a + [from] + b, from, to) == a + [to] + b
  {
    if |a| > 0 {
      assert (a + [from] + b)[1..] == a[1..] + [from] + b;
      ReplaceFirstAt(a[1..], b, from, to);
    }
  }

  /** `formatChartCurrency`: rand with an M suffix, a K suffix and decimal comma, or a whole number. */
  function FormatChartCurrency(value: Decimal): string {
    if AtLeast(value, 1000000) then
      "R " + ToFixed(DivPow10(value, 6), 0) + "M"
    else if AtLeast(value, 1000) then
      "R " + ReplaceFirst(ToFixed(DivPow10(value, 3), 1), '.', ',') + "K"
    else
      "R " + ToString(Decimal(MathRound(value), 0))
  }

  /** `formatChartValue`: one decimal with an M or K suffix, otherwise the number as `String` writes it. */
  function FormatChartValue(value: Decimal): string {
    if AtLeast(value, 1000000) then ToFixed(DivPow10(value, 6), 1) + "M"
    else if AtLeast(value, 1000) then ToFixed(DivPow10(value, 3), 1) + "K"
    else ToString(value)
  }

  /** `formatChartPercentage`: one decimal and a percent sign. */
  function FormatChartPercentage(value: Decimal): string {
    ToFixed(value, 1) + "%"
  }

  /** A value below a million, divided by `10^k`, stays far below the point where `toFixed` gives up. */
  lemma BelowFixedLimit(v: Decimal, k: nat)
    requires 0 <= v.units && !AtLeast(v, 1000000)
    ensures !AtLeast(Magnitude(DivPow10(v, k)), Pow10(21))
  {
    assert Pow10(6) == 1000000;
    Pow10Monotone(6, 21);
    Pow10Monotone(v.scale, v.scale + k);
    MulBoth(1000000, Pow10(21), Pow10(v.scale), Pow10(v.scale + k));
  }

  lemma MulBoth(a: nat, b: nat, c: nat, d: nat)
    requires a <= b && c <= d
    ensures a * c <= b * d
  {
    MulMonotone(a, b, c);
    MulMonotone(c, d, b);
  }

  /** `toFixed(1)` of a non-negative number: whole digits, a point, one digit. */
  lemma OneDecimalParts(n: nat)
    ensures var t := FixedText(n, 1);
      && |t| >= 3 && t[|t| - 2] == '.' && IsDigitRun(t[..|t| - 2]) && IsDigit(t[|t| - 1])
      && DigitsValue(t[..|t| - 2]) * 10 + DigitValue(t[|t| - 1]) == n
  {
    var padded := PadStart(NatToDigits(n), 2);
    DigitsRoundTrip(n);
    var k := |padded|;
    var w, f := padded[..k - 1], padded[k - 1..];
    assert padded == w + f;
    DigitsValueAppend(w, f);
    var t := FixedText(n, 1);
    assert t == w + "." + f;
    assert t[..|t| - 2] == w;
    assert [t[|t| - 1]] == f;
  }

  /** Scaled down by a million, a value below `10^27` is below `10^21`. */
  lemma MillionsBelowLimit(v: Decimal)
    requires v.units >= 0 && !AtLeast(v, Pow10(27))
    ensures !AtLeast(Magnitude(DivPow10(v, 6)), Pow10(21))
  {
    ScaledBelow(v, 21, 6);
  }

  lemma ScaledBelow(v: Decimal, a: nat, k: nat)
    requires v.units >= 0 && !AtLeast(v, Pow10(a + k))
    ensures !AtLeast(Magnitude(DivPow10(v, k)), Pow10(a))
  {
    Pow10Shift(a, k, v.scale);
  }

  /** `r` is "R ", a run of digits worth `n`, then `suffix`. */
  predicate WholeAmount(r: string, suffix: char, n: nat) {
    && |r| >= 4 && r[..2] == "R " && r[|r| - 1] == suffix
    && IsDigitRun(r[2..|r| - 1]) && DigitsValue(r[2..|r| - 1]) == n
  }

  /** `r` is "R ", whole digits, a comma, one digit, then `suffix`, the digits being worth `n` tenths. */
  predicate CommaAmount(r: string, suffix: char, n: nat) {
    && |r| >= 6 && r[..2] == "R " && r[|r| - 3] == ',' && r[|r| - 1] == suffix
    && IsDigitRun(r[2..|r| - 3]) && IsDigit(r[|r| - 2])
    && DigitsValue(r[2..|r| - 3]) * 10 + DigitValue(r[|r| - 2]) == n
  }

  /** The million band of `formatChartCurrency`: "R ", the millions rounded half up to a whole number, "M". */
  lemma CurrencyMillions(v: Decimal)
    requires AtLeast(v, 1000000) && !AtLeast(v, Pow10(27))
    ensures WholeAmount(FormatChartCurrency(v), 'M', ScaledRound(DivPow10(v, 6), 0))
  {
    CurrencyMillionsText(v);
    WholeBandShape(FormatChartCurrency(v), ScaledRound(DivPow10(v, 6), 0), 'M');
  }

  lemma CurrencyMillionsText(v: Decimal)
    requires AtLeast(v, 1000000) && !AtLeast(v, Pow10(27))
    ensures FormatChartCurrency(v) == "R " + NatToDigits(ScaledRound(DivPow10(v, 6), 0)) + "M"
  {
    MillionsBelowLimit(v);
    FixedOfNonNegative(DivPow10(v, 6), 0);
  }

  /** "R ", the digits of `n`, one more character: where the digits sit and what they are worth. */
  lemma WholeBandShape(r: string, n: nat, suffix: char)
    requires r == "R " + NatToDigits(n) + [suffix]
    ensures WholeAmount(r, suffix, n)
  {
    DigitsRoundTrip(n);
    Wrapped(r, "R ", NatToDigits(n), suffix);
  }

  /**
   * The thousand band of `formatChartCurrency`: "R ", the thousands rounded
   * half up to one decimal written with a decimal comma, "K".
   */
  lemma CurrencyThousands(v: Decimal)
    requires AtLeast(v, 1000) && !AtLeast(v, 1000000)
    ensures CommaAmount(FormatChartCurrency(v), 'K', ScaledRound(DivPow10(v, 3), 1))
  {
    CurrencyThousandsText(v);
    CommaBandShape(FormatChartCurrency(v), ScaledRound(DivPow10(v, 3), 1), 'K');
  }

  lemma CurrencyThousandsText(v: Decimal)
    requires AtLeast(v, 1000) && !AtLeast(v, 1000000)
    ensures FormatChartCurrency(v) == "R " + ReplaceFirst(FixedText(ScaledRound(DivPow10(v, 3), 1), 1), '.', ',') + "K"
  {
    BelowFixedLimit(v, 3);
    FixedOfNonNegative(DivPow10(v, 3), 1);
  }

  /** "R ", `n` tenths with a decimal comma, one more character: where each part sits. */
  lemma CommaBandShape(r: string, n: nat, suffix: char)
    requires r == "R " + ReplaceFirst(FixedText(n, 1), '.', ',') + [suffix]
    ensures CommaAmount(r, suffix, n)
  {
    CommaDecimalParts(n);
    WrappedDecimal(r, "R ", ReplaceFirst(FixedText(n, 1), '.', ','), suffix);
  }

  /** `a`, then `m`, then the character `b`: where each part sits. */
  lemma Wrapped(r: string, a: string, m: string, b: char)
    requires r == a + m + [b]
    ensures |r| == |a| + |m| + 1 && r[..|a|] == a && r[|r| - 1] == b && r[|a|..|r| - 1] == m
  {
    assert r[..|a|] == a;
    assert r[|a|..|r| - 1] == m;
  }

  /** `a`, then `c` (at least three characters), then `b`: where the last two characters of `c` sit. */
  lemma WrappedDecimal(r: string, a: string, c: string, b: char)
    requires r == a + c + [b] && |c| >= 3
    ensures |r| == |a| + |c| + 1 && r[..|a|] == a && r[|r| - 1] == b
    ensures r[|a|..|r| - 3] == c[..|c| - 2] && r[|r| - 3] == c[|c| - 2] && r[|r| - 2] == c[|c| - 1]
  {
    Wrapped(r, a, c, b);
    assert r[|a|..|r| - 3] == r[|a|..|r| - 1][..|c| - 2];
  }

  /** `t` followed by the character `b`: dropping the last character reads back what `t` reads. */
  lemma SuffixedParses(r: string, t: string, b: char, d: Decimal)
    requires r == t + [b] && ParseNumber(t) == Some(d)
    ensures |r| >= 1 && r[|r| - 1] == b && ParseNumber(r[..|r| - 1]) == Some(d)
  {
    assert r[..|r| - 1] == t;
  }

  /** `toFixed(1)` with its point replaced by a comma: whole digits, a comma, one digit. */
  lemma CommaDecimalParts(n: nat)
    ensures var c := ReplaceFirst(FixedText(n, 1), '.', ',');
      && |c| >= 3 && c[|c| - 2] == ',' && IsDigitRun(c[..|c| - 2]) && IsDigit(c[|c| - 1])
      && DigitsValue(c[..|c| - 2]) * 10 + DigitValue(c[|c| - 1]) == n
  {
    OneDecimalParts(n);
    var t := FixedText(n, 1);
    var w, f := t[..|t| - 2], t[|t| - 1..];
    assert t == w + "." + f;
    NoPointInDigits(w);
    ReplaceFirstAt(w, f, '.', ',');
    var c := ReplaceFirst(t, '.', ',');
    assert c == w + "," + f;
    assert c[..|c| - 2] == w;
  }

  lemma PositiveFactor(a: int, den: int)
    requires den > 0 && a * den > 0
    ensures a > 0
  {
  }

  /** Rounding a value in `(-10^21, 1000)` lands in `(-10^21, 1000]`. */
  lemma SmallRoundBounds(v: Decimal)
    requires !AtLeast(v, 1000) && AtLeast(v, 1 - Pow10(21))
    ensures 1 - Pow10(21) <= MathRound(v) <= 1000
  {
    MathRoundIsNearest(v);
    RoundStaysBetween(v.units, Pow10(v.scale), MathRound(v), 1 - Pow10(21), 1000);
  }

  /** Rounding half up a quotient that lies in `[lo, hi)` gives a whole number in `[lo, hi]`. */
  lemma RoundStaysBetween(num: int, den: int, m: int, lo: int, hi: int)
    requires RoundsHalfUp(m, num, den) && lo * den <= num < hi * den
    ensures lo <= m <= hi
  {
    assert (2 * m - 2 * lo + 1) * den == 2 * m * den - 2 * lo * den + den;
    PositiveFactor(2 * m - 2 * lo + 1, den);
    assert (2 * hi + 1 - 2 * m) * den == 2 * hi * den + den - 2 * m * den;
    PositiveFactor(2 * hi + 1 - 2 * m, den);
  }

  /** Below a thousand `formatChartCurrency` writes "R " and `Math.round(value)` exactly. */
  lemma CurrencyWhole(v: Decimal)
    requires !AtLeast(v, 1000) && AtLeast(v, 1 - Pow10(21))
    ensures var r := FormatChartCurrency(v);
      && |r| >= 2 && r[..2] == "R " && ParseNumber(r[2..]).Some?
      && SameValue(ParseNumber(r[2..]).value, Decimal(MathRound(v), 0))
  {
    var d := Decimal(MathRound(v), 0);
    SmallRoundBounds(v);
    SmallWholePlain(MathRound(v));
    ToStringRoundTrip(d);
    CurrencyWholeText(v);
    PrefixedReadsBack(FormatChartCurrency(v), ToString(d), d);
  }

  lemma CurrencyWholeText(v: Decimal)
    requires !AtLeast(v, 1000)
    ensures FormatChartCurrency(v) == "R " + ToString(Decimal(MathRound(v), 0))
  {
  }

  /** A non-zero whole number in `[1 - 10^21, 1000]` is in the range `String` writes without an exponent. */
  lemma SmallWholePlain(m: int)
    requires 1 - Pow10(21) <= m <= 1000
    ensures m != 0 ==> InPlainRange(Decimal(m, 0))
  {
    assert Pow10(3) == 1000;
    Pow10Monotone(3, 21);
  }

  /** "R " and then `t`: the text after "R " reads back as `t` does. */
  lemma PrefixedReadsBack(r: string, t: string, d: Decimal)
    requires r == "R " + t && ParseNumber(t).Some? && SameValue(ParseNumber(t).value, d)
    ensures |r| >= 2 && r[..2] == "R " && ParseNumber(r[2..]).Some?
    ensures SameValue(ParseNumber(r[2..]).value, d)
  {
    assert r[2..] == t;
  }

  /** The million band of `formatChartValue`: the millions to one decimal, then "M". */
  lemma ValueMillions(v: Decimal)
    requires AtLeast(v, 1000000) && !AtLeast(v, Pow10(27))
    ensures var r := FormatChartValue(v);
      |r| >= 1 && r[|r| - 1] == 'M' && ParseNumber(r[..|r| - 1]) == Some(FixedValue(DivPow10(v, 6), 1))
    ensures FixedValue(DivPow10(v, 6), 1).units >= 0
  {
    var x := DivPow10(v, 6);
    MillionsBelowLimit(v);
    assert FormatChartValue(v) == ToFixed(x, 1) + "M";
    ToFixedParses(x, 1);
    SuffixedParses(FormatChartValue(v), ToFixed(x, 1), 'M', FixedValue(x, 1));
  }

  /** The thousand band of `formatChartValue`: the thousands to one decimal, then "K". */
  lemma ValueThousands(v: Decimal)
    requires AtLeast(v, 1000) && !AtLeast(v, 1000000)
    ensures var r := FormatChartValue(v);
      |r| >= 1 && r[|r| - 1] == 'K' && ParseNumber(r[..|r| - 1]) == Some(FixedValue(DivPow10(v, 3), 1))
    ensures FixedValue(DivPow10(v, 3), 1).units >= 0
  {
    var x := DivPow10(v, 3);
    BelowFixedLimit(v, 3);
    assert FormatChartValue(v) == ToFixed(x, 1) + "K";
    ToFixedParses(x, 1);
    SuffixedParses(FormatChartValue(v), ToFixed(x, 1), 'K', FixedValue(x, 1));
  }

  /** Below a thousand `formatChartValue` is `String(value)`, which loses nothing in the plain range. */
  lemma ValuePlain(v: Decimal)
    requires !AtLeast(v, 1000) && (v.units == 0 || InPlainRange(v))
    ensures ParseNumber(FormatChartValue(v)).Some?
    ensures SameValue(ParseNumber(FormatChartValue(v)).value, v)
  {
    ToStringRoundTrip(v);
  }

  /** `formatChartPercentage`: the value rounded half away from zero to one decimal, then "%". */
  lemma PercentageParts(v: Decimal)
    requires !AtLeast(Magnitude(v), Pow10(21))
    ensures var r := FormatChartPercentage(v);
      |r| >= 1 && r[|r| - 1] == '%' && ParseNumber(r[..|r| - 1]) == Some(FixedValue(v, 1))
  {
    ToFixedParses(v, 1);
    SuffixedParses(FormatChartPercentage(v), ToFixed(v, 1), '%', FixedValue(v, 1));
  }

  // ---------------------------------------------------------------------------
  // Periods

  datatype Period = Day | Week | Month | Year

  /** A local date-time: a calendar day number and the time within that day. */
  datatype Date = Date(dayNumber: int, timeOfDay: int)

  /** Month and year stepping of the calendar (with JavaScript's day overflow), supplied from outside. */
  datatype Calendar = Calendar(addMonths: (Date, int) -> Date, addYears: (Date, int) -> Date)

  /** `setDate(getDate() + k)`: the same time of day `k` calendar days later. */
  function AddDays(d: Date, k: int): Date {
    d.(dayNumber := d.dayNumber + k)
  }

  /** The date `i` periods before `now`. */
  function PeriodsBefore(now: Date, period: Period, i: int, calendar: Calendar): Date {
    match period
    case Day => AddDays(now, -i)
    case Week => AddDays(now, -i * 7)
    case Month => calendar.addMonths(now, -i)
    case Year => calendar.addYears(now, -i)
  }

  /** How many times the loop `for (i = count - 1; i >= 0; i--)` runs. */
  function PointCount(count: int): nat {
    if count > 0 then count else 0
  }

  /** `getChartPeriods(period, count)`: `count` dates, oldest first, stepping back from `now`. */
  method GetChartPeriods(period: Period, count: int, now: Date, calendar: Calendar) returns (dates: seq<Date>)
    ensures |dates| == PointCount(count)
    ensures forall k :: 0 <= k < |dates| ==> dates[k] == PeriodsBefore(now, period, |dates| - 1 - k, calendar)
    ensures period == Day || period == Week ==>
      && (|dates| > 0 ==> dates[|dates| - 1] == now)
      && forall k :: 0 < k < |dates| ==>
           && dates[k].dayNumber == dates[k - 1].dayNumber + (if period == Day then 1 else 7)
           && dates[k].timeOfDay == now.timeOfDay
  {
    dates := [];
    var i := count - 1;
    while i >= 0
      invariant i < count && (count > 0 ==> i >= -1) && (count <= 0 ==> i == count - 1)
      invariant |dates| == count - 1 - i
      invariant forall k :: 0 <= k < |dates| ==> dates[k] == PeriodsBefore(now, period, count - 1 - k, calendar)
    {
      dates := dates + [PeriodsBefore(now, period, i, calendar)];
      i := i - 1;
    }
  }

  /** The date-fns pattern `formatChartDate` uses for each period. */
  function DatePattern(period: Period): string {
    match period
    case Day => "d MMM"
    case Week => "MMM d"
    case Month => "MMM yyyy"
    case Year => "yyyy"
  }

  /** The four patterns are pairwise different, so the label style tells the period apart. */
  lemma DatePatternInjective(p: Period, q: Period)
    ensures DatePattern(p) == DatePattern(q) <==> p == q
  {
    if p != q {
      assert DatePattern(p)[0] != DatePattern(q)[0] || |DatePattern(p)| != |DatePattern(q)|;
    }
  }

  /** `formatChartDate(date, period)`, with date-fns `format` supplied from outside. */
  function FormatChartDate(date: Date, period: Period, format: (Date, string) -> string): string {
    format(date, DatePattern(period))
  }

  // ---------------------------------------------------------------------------
  // Mock series

  datatype Trend = Up | Down | Stable

  /** The factor each step multiplies the previous value by. */
  function TrendFactor(trend: Trend): real {
    match trend
    case Up => 1.1
    case Down => 0.9
    case Stable => 1.0
  }

  /** The jitter added at each step for a draw of `Math.random()`. */
  function Variation(draw: real, min: real, max: real): real {
    (draw - 0.5) * (max - min) * 0.2
  }

  /** A draw in `[0, 1)` moves the value by at most a tenth of the range either way. */
  lemma VariationBound(draw: real, min: real, max: real)
    requires 0.0 <= draw < 1.0 && min <= max
    ensures -(max - min) / 10.0 <= Variation(draw, min, max) <= (max - min) / 10.0
  {
    var a, w := draw - 0.5, max - min;
    NonNegativeProduct(0.5 - a, w);
    NonNegativeProduct(a + 0.5, w);
    assert Variation(draw, min, max) == a * w * 0.2;
  }

  lemma NonNegativeProduct(x: real, y: real)
    requires x >= 0.0 && y >= 0.0
    ensures x * y >= 0.0
  {
  }

  /** `Math.min(max, Math.max(min, x))`. */
  function Clamp(min: real, max: real, x: real): (r: real)
    ensures min <= max ==> min <= r <= max
    ensures min <= max ==> (min <= x <= max <==> r == x)
    ensures min <= max && x < min ==> r == min
    ensures min <= max && x > max ==> r == max
    ensures min > max ==> r == max
  {
    var low := if x > min then x else min;
    if low < max then low else max
  }

  /** `Math.round` on a real: the nearest integer, ties towards positive infinity. */
  function RoundReal(x: real): (n: int)
    ensures n as real - 0.5 <= x < n as real + 0.5
  {
    (x + 0.5).Floor
  }

  /** A whole number rounds to itself. */
  lemma RoundRealWhole(n: int)
    ensures RoundReal(n as real) == n
  {
  }

  /** `Math.round` never reverses order. */
  lemma RoundRealMonotone(x: real, y: real)
    requires x <= y
    ensures RoundReal(x) <= RoundReal(y)
  {
  }

  /** One step of the walk: scale by the trend, add the jitter, clamp to the range. */
  function WalkStep(prev: real, factor: real, min: real, max: real, draw: real): real {
    Clamp(min, max, prev * factor + Variation(draw, min, max))
  }

  /** The successive values of `prevValue`, one per draw. */
  function Walk(prev: real, factor: real, min: real, max: real, draws: seq<real>): (r: seq<real>)
    ensures |r| == |draws|
    ensures forall k :: 0 <= k < |r| ==> (if min <= max then min <= r[k] <= max else r[k] == max)
    decreases |draws|
  {
    if |draws| == 0 then []
    else
      var next := WalkStep(prev, factor, min, max, draws[0]);
      [next] + Walk(next, factor, min, max, draws[1..])
  }

  /** Each value is one step from the value before it, the first one from the start value. */
  lemma {:induction false} WalkRecurrence(prev: real, factor: real, min: real, max: real, draws: seq<real>)
    ensures var r := Walk(prev, factor, min, max, draws);
      && (|r| > 0 ==> r[0] == WalkStep(prev, factor, min, max, draws[0]))
      && forall k :: 0 < k < |r| ==> r[k] == WalkStep(r[k - 1], factor, min, max, draws[k])
    decreases |draws|
  {
    if |draws| > 1 {
      var next := WalkStep(prev, factor, min, max, draws[0]);
      WalkRecurrence(next, factor, min, max, draws[1..]);
      var r := Walk(prev, factor, min, max, draws);
      var t := Walk(next, factor, min, max, draws[1..]);
      assert r == [next] + t;
      forall k | 0 < k < |r|
        ensures r[k] == WalkStep(r[k - 1], factor, min, max, draws[k])
      {
        if k > 1 {
          assert r[k] == t[k - 1] && r[k - 1] == t[k - 2] && draws[k] == draws[1..][k - 1];
        }
      }
    }
  }

  /** With a fixed range and no trend, a walk whose draws are all one half never moves. */
  lemma {:induction false} StableMidWalk(prev: real, min: real, max: real, draws: seq<real>)
    requires min <= prev <= max
    requires forall k :: 0 <= k < |draws| ==> draws[k] == 0.5
    ensures forall k :: 0 <= k < |draws| ==> Walk(prev, 1.0, min, max, draws)[k] == prev
    decreases |draws|
  {
    if |draws| > 0 {
      assert WalkStep(prev, 1.0, min, max, draws[0]) == prev;
      StableMidWalk(prev, min, max, draws[1..]);
      var r := Walk(prev, 1.0, min, max, draws);
      assert r == [prev] + Walk(prev, 1.0, min, max, draws[1..]);
    }
  }

  /** The optional `{ min, max, trend }` argument. */
  datatype MockOptions = MockOptions(min: Option<real>, max: Option<real>, trend: Option<Trend>)

  datatype ChartPoint = ChartPoint(date: string, value: int)

  /**
   * `generateMockChartData(period, count, options)`: one point per date of
   * `getChartPeriods`, labelled by `formatChartDate` and valued by the rounded
   * walk that starts halfway between `min` and `max`.  `draws` are the
   * successive `Math.random()` results.
   */
  method GenerateMockChartData(period: Option<Period>, count: Option<int>, options: MockOptions,
                               now: Date, calendar: Calendar, format: (Date, string) -> string,
                               draws: seq<real>)
    returns (points: seq<ChartPoint>)
    requires |draws| >= PointCount(count.GetOr(7))
    ensures var p, min, max := period.GetOr(Day), options.min.GetOr(0.0), options.max.GetOr(1000.0);
      var values := Walk((min + max) / 2.0, TrendFactor(options.trend.GetOr(Stable)), min, max, draws);
      && |points| == PointCount(count.GetOr(7))
      && (forall k :: 0 <= k < |points| ==>
            points[k].date == FormatChartDate(PeriodsBefore(now, p, |points| - 1 - k, calendar), p, format))
      && (forall k :: 0 <= k < |points| ==> points[k].value == RoundReal(values[k]))
      && (forall k :: 0 <= k < |points| ==>
            if min <= max then RoundReal(min) <= points[k].value <= RoundReal(max)
            else points[k].value == RoundReal(max))
      && (forall k :: 0 <= k < |points| ==>
            min <= max && min == min.Floor as real && max == max.Floor as real ==>
              min.Floor <= points[k].value <= max.Floor)
  {
    var p := period.GetOr(Day);
    var min, max := options.min.GetOr(0.0), options.max.GetOr(1000.0);
    var factor := TrendFactor(options.trend.GetOr(Stable));
    var dates := GetChartPeriods(p, count.GetOr(7), now, calendar);
    var values := Walk((min + max) / 2.0, factor, min, max, draws);
    points := [];
    var k := 0;
    while k < |dates|
      invariant 0 <= k <= |dates| && |points| == k
      invariant forall j :: 0 <= j < k ==>
        points[j] == ChartPoint(FormatChartDate(dates[j], p, format), RoundReal(values[j]))
    {
      points := points + [ChartPoint(FormatChartDate(dates[k], p, format), RoundReal(values[k]))];
      k := k + 1;
    }
    forall j | 0 <= j < |points|
      ensures if min <= max then RoundReal(min) <= points[j].value <= RoundReal(max)
              else points[j].value == RoundReal(max)
    {
      if min <= max {
        RoundRealMonotone(min, values[j]);
        RoundRealMonotone(values[j], max);
      }
    }
    RoundRealWhole(min.Floor);
    RoundRealWhole(max.Floor);
  }
}
