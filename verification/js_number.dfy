/**
 * The JavaScript number-to-text conversions the chart formatters use,
 * `Number.prototype.toString`, `Number.prototype.toFixed` and `Math.round`,
 * on finite decimal numbers (Number::toString and Number.prototype.toFixed,
 * sections 6.1.6.1.20 and 21.1.3.3 of ECMA-262).
 */
module JsNumber {
  import opened Wrappers
  import opened Digits
  import Text

  /** A finite decimal number: `units` times ten to the power `-scale`. */
  datatype Decimal = Decimal(units: int, scale: nat)

  function Abs(n: int): nat {
    if n < 0 then -n else n
  }

  function Magnitude(d: Decimal): Decimal {
    Decimal(Abs(d.units), d.scale)
  }

  function Neg(d: Decimal): Decimal {
    Decimal(-d.units, d.scale)
  }

  /** `d / 10^k`, exactly. */
  function DivPow10(d: Decimal, k: nat): Decimal {
    Decimal(d.units, d.scale + k)
  }

  /** `d >= n`. */
  predicate AtLeast(d: Decimal, n: int) {
    d.units >= n * Pow10(d.scale)
  }

  /** Two decimals denote the same number. */
  ghost predicate SameValue(a: Decimal, b: Decimal) {
    a.units * Pow10(b.scale) == b.units * Pow10(a.scale)
  }

  // ---------------------------------------------------------------------------
  // Rounding

  /** `n` is the integer nearest to `num / den`, the larger one on a tie. */
  ghost predicate RoundsHalfUp(n: int, num: int, den: int) {
    den > 0 && 2 * num - den < 2 * n * den <= 2 * num + den
  }

  /** Integer division of `num / den` rounded half up. */
  function RoundDiv(num: int, den: int): (n: int)
    requires den > 0
    ensures num >= 0 ==> n >= 0
  {
    (2 * num + den) / (2 * den)
  }

  lemma RoundDivIsNearest(num: int, den: int)
    requires den > 0
    ensures RoundsHalfUp(RoundDiv(num, den), num, den)
  {
    var q := (2 * num + den) / (2 * den);
    var rem := (2 * num + den) % (2 * den);
    assert 2 * num + den == 2 * den * q + rem;
  }

  /** `Math.round(d)`: the nearest integer, ties towards positive infinity. */
  function MathRound(d: Decimal): int {
    RoundDiv(d.units, Pow10(d.scale))
  }

  lemma MathRoundIsNearest(d: Decimal)
    ensures RoundsHalfUp(MathRound(d), d.units, Pow10(d.scale))
  {
    RoundDivIsNearest(d.units, Pow10(d.scale));
  }

  /** The magnitude of `d` times `10^f`, rounded half up: the digits `toFixed(f)` prints. */
  function ScaledRound(d: Decimal, f: nat): nat {
    RoundDiv(Abs(d.units) * Pow10(f), Pow10(d.scale))
  }

  lemma ScaledRoundIsNearest(d: Decimal, f: nat)
    ensures RoundsHalfUp(ScaledRound(d, f), Abs(d.units) * Pow10(f), Pow10(d.scale))
  {
    RoundDivIsNearest(Abs(d.units) * Pow10(f), Pow10(d.scale));
  }

  // ---------------------------------------------------------------------------
  // Reading a decimal literal back (the partner of the renderers)

  predicate IsDigitRun(s: string) {
    |s| >= 1 && AllDigits(s)
  }

  /** The text before and after the first decimal point, if there is one. */
  function SplitAtPoint(t: string): (r: Option<(string, string)>)
    ensures r.None? <==> '.' !in t
    ensures r.Some? ==> t == r.value.0 + "." + r.value.1 && '.' !in r.value.0
  {
    if |t| == 0 then None
    else if t[0] == '.' then
      assert t == "" + "." + t[1..];
      Some(("", t[1..]))
    else match SplitAtPoint(t[1..])
      case None => None
      case Some((w, f)) =>
        assert t == [t[0]] + w + "." + f;
        Some(([t[0]] + w, f))
  }

  /** Reads `digits` or `digits.digits`; anything else is rejected. */
  function ParseUnsigned(t: string): Option<Decimal> {
    match SplitAtPoint(t)
    case None =>
      if IsDigitRun(t) then Some(Decimal(DigitsValue(t), 0)) else None
    case Some((a, b)) =>
      if IsDigitRun(a) && IsDigitRun(b) then
        Some(Decimal(DigitsValue(a) * Pow10(|b|) + DigitsValue(b), |b|))
      else
        None
  }

  /** Reads an optionally negative decimal literal. */
  function ParseNumber(t: string): Option<Decimal> {
    if |t| > 0 && t[0] == '-' then
      match ParseUnsigned(t[1..])
      case Some(d) => Some(Neg(d))
      case None => None
    else
      ParseUnsigned(t)
  }

  lemma NoPointInDigits(s: string)
    requires AllDigits(s)
    ensures '.' !in s && '-' !in s
  {
  }

  lemma ParseWhole(a: string)
    requires IsDigitRun(a)
    ensures ParseUnsigned(a) == Some(Decimal(DigitsValue(a), 0))
  {
    NoPointInDigits(a);
  }

  lemma ParsePointed(a: string, b: string, v: nat)
    requires IsDigitRun(a) && IsDigitRun(b) && v == DigitsValue(a) * Pow10(|b|) + DigitsValue(b)
    ensures ParseUnsigned(a + "." + b) == Some(Decimal(v, |b|))
  {
    NoPointInDigits(a);
    SplitAfterPoint(a, b);
    ParseSplit(a + "." + b, a, b, v);
  }

  /** A text that splits at its first point into two digit runs reads as their combined value. */
  lemma ParseSplit(t: string, a: string, b: string, v: nat)
    requires IsDigitRun(a) && IsDigitRun(b) && v == DigitsValue(a) * Pow10(|b|) + DigitsValue(b)
    requires SplitAtPoint(t) == Some((a, b))
    ensures ParseUnsigned(t) == Some(Decimal(v, |b|))
  {
  }

  /** The first point of `a.b` is the one after `a`, when `a` has none. */
  lemma {:induction false} SplitAfterPoint(a: string, b: string)
    requires '.' !in a
    ensures SplitAtPoint(a + "." + b) == Some((a, b))
  {
    if |a| > 0 {
      assert (a + "." + b)[1..] == a[1..] + "." + b;
      SplitAfterPoint(a[1..], b);
      assert [a[0]] + a[1..] == a;
    }
  }

  // ---------------------------------------------------------------------------
  // Number::toString

  /** Drops trailing zeros of `u * 10^e`, returning `(s, e')` with `s * 10^e' == u * 10^e`. */
  function StripZeros(u: nat, e: int): (r: (nat, int))
    requires u > 0
    ensures r.0 > 0 && r.0 % 10 != 0 && r.1 >= e
    ensures r.0 * Pow10(r.1 - e) == u
    decreases u
  {
    if u % 10 == 0 then
      var r := StripZeros(u / 10, e + 1);
      ShiftBack(u, r.0, r.1 - e);
      r
    else
      (u, e)
  }

  /** If `a * 10^(n-1)` is `u / 10` and `u` ends in 0, then `a * 10^n` is `u`. */
  lemma ShiftBack(u: nat, a: nat, n: nat)
    requires u % 10 == 0 && n >= 1 && a * Pow10(n - 1) == u / 10
    ensures a * Pow10(n) == u
  {
    var p := Pow10(n - 1);
    assert Pow10(n) == 10 * p;
    assert a * (10 * p) == 10 * (a * p);
  }

  /** The exponent part `e+N` / `e-N` of the exponential notation. */
  function ExponentText(exponent: int): string {
    "e" + (if exponent >= 0 then "+" else "-") + NatToDigits(Abs(exponent))
  }

  /**
   * How Number::toString lays out the digit string `digits` (k digits, no
   * trailing zero) of a number whose decimal point sits after position `n`:
   * plain notation when `-6 < n <= 21`, exponential otherwise.
   */
  function Notation(digits: string, n: int): string
    requires |digits| >= 1
  {
    var k := |digits|;
    if k <= n <= 21 then digits + Zeros(n - k)
    else if 0 < n <= 21 then digits[..n] + "." + digits[n..]
    else if -6 < n <= 0 then "0." + Zeros(-n) + digits
    else if k == 1 then digits + ExponentText(n - 1)
    else digits[..1] + "." + digits[1..] + ExponentText(n - 1)
  }

  /** Number::toString for the positive number `u * 10^-scale`. */
  function PositiveToString(u: nat, scale: nat): string
    requires u > 0
  {
    var (s, e) := StripZeros(u, -(scale as int));
    var digits := NatToDigits(s);
    Notation(digits, |digits| + e)
  }

  /** `String(d)`. */
  function ToString(d: Decimal): string {
    if d.units == 0 then "0"
    else if d.units < 0 then "-" + PositiveToString(-d.units, d.scale)
    else PositiveToString(d.units, d.scale)
  }

  /** The magnitudes `String` writes without an exponent: `10^-6 <= |d| < 10^21`. */
  predicate InPlainRange(d: Decimal) {
    var m := Abs(d.units);
    m < Pow10(21 + d.scale) && m * Pow10(6) >= Pow10(d.scale)
  }

  // ---------------------------------------------------------------------------
  // Number.prototype.toFixed

  /** `m` with zeros in front up to `width` characters. */
  function PadStart(m: string, width: nat): (r: string)
    ensures AllDigits(m) ==> AllDigits(r) && DigitsValue(r) == DigitsValue(m)
    ensures |r| == if |m| < width then width else |m|
  {
    if |m| < width then
      var r := Zeros(width - |m|) + m;
      assert AllDigits(m) ==> AllDigits(r) && DigitsValue(r) == DigitsValue(m) by {
        if AllDigits(m) { LeadingZerosValue(m, width - |m|); }
      }
      r
    else m
  }

  /** `n * 10^-f` written with exactly `f` digits after the point (none and no point when `f` is 0). */
  function FixedText(n: nat, f: nat): string {
    var m := NatToDigits(n);
    if f == 0 then m
    else
      var padded := PadStart(m, f + 1);
      var k := |padded|;
      padded[..k - f] + "." + padded[k - f..]
  }

  /** `d.toFixed(f)`; magnitudes from `10^21` up are written as `String` writes them. */
  function ToFixed(d: Decimal, f: nat): string {
    var x := Magnitude(d);
    if AtLeast(x, Pow10(21)) then
      (if d.units < 0 then "-" else "") + ToString(x)
    else
      (if d.units < 0 then "-" else "") + FixedText(ScaledRound(d, f), f)
  }

  /** The number `toFixed(f)` denotes: the sign of `d` on its magnitude rounded half up to `f` decimals. */
  function FixedValue(d: Decimal, f: nat): Decimal {
    Decimal(if d.units < 0 then -(ScaledRound(d, f) as int) else ScaledRound(d, f), f)
  }

  /** Below `10^21` in magnitude, `toFixed(f)` reads back as the sign times the rounded magnitude, with `f` decimals. */
  lemma ToFixedParses(d: Decimal, f: nat)
    requires !AtLeast(Magnitude(d), Pow10(21))
    ensures ParseNumber(ToFixed(d, f)) == Some(FixedValue(d, f))
  {
    var n := ScaledRound(d, f);
    FixedBelowLimit(d, f);
    FixedTextParses(n, f);
    SignedFixedParses(ToFixed(d, f), FixedText(n, f), n, f, d.units < 0);
  }

  lemma FixedBelowLimit(d: Decimal, f: nat)
    requires !AtLeast(Magnitude(d), Pow10(21))
    ensures ToFixed(d, f) == (if d.units < 0 then "-" else "") + FixedText(ScaledRound(d, f), f)
  {
  }

  lemma SignedFixedParses(t: string, body: string, n: nat, f: nat, negative: bool)
    requires t == (if negative then "-" else "") + body
    requires |body| > 0 && IsDigit(body[0]) && ParseUnsigned(body) == Some(Decimal(n, f))
    ensures ParseNumber(t) == Some(Decimal(if negative then -(n as int) else n, f))
  {
    SignedParse(body, Decimal(n, f), negative);
  }

  /** Below the limit, `toFixed` of a non-negative number is just its fixed notation, with no sign. */
  lemma FixedOfNonNegative(x: Decimal, f: nat)
    requires x.units >= 0 && !AtLeast(Magnitude(x), Pow10(21))
    ensures ToFixed(x, f) == FixedText(ScaledRound(x, f), f)
  {
    assert "" + FixedText(ScaledRound(x, f), f) == FixedText(ScaledRound(x, f), f);
  }

  /** A minus sign in front of an unsigned literal negates what it reads as. */
  lemma SignedParse(body: string, v: Decimal, negative: bool)
    requires |body| > 0 && IsDigit(body[0])
    requires ParseUnsigned(body) == Some(v)
    ensures ParseNumber((if negative then "-" else "") + body) == Some(if negative then Neg(v) else v)
  {
    if negative {
      assert ("-" + body)[1..] == body;
    } else {
      assert "" + body == body;
    }
  }

  /** Fixed notation reads back as the integer over `10^f`, so it has exactly `f` decimals. */
  lemma FixedTextParses(n: nat, f: nat)
    ensures ParseUnsigned(FixedText(n, f)) == Some(Decimal(n, f))
    ensures |FixedText(n, f)| > 0 && IsDigit(FixedText(n, f)[0])
  {
    var m := NatToDigits(n);
    DigitsRoundTrip(n);
    if f == 0 {
      ParseWhole(m);
    } else {
      PointedFixedParses(PadStart(m, f + 1), f);
    }
  }

  lemma PointedFixedParses(padded: string, f: nat)
    requires AllDigits(padded) && |padded| > f > 0
    ensures ParseUnsigned(padded[..|padded| - f] + "." + padded[|padded| - f..]) == Some(Decimal(DigitsValue(padded), f))
    ensures IsDigit((padded[..|padded| - f] + "." + padded[|padded| - f..])[0])
  {
    var k := |padded|;
    var a, b := padded[..k - f], padded[k - f..];
    SplitValue(padded, k - f);
    ParsePointed(a, b, DigitsValue(padded));
    assert IsDigit((a + "." + b)[0]) by {
      DigitSlices(padded, k - f);
      assert (a + "." + b)[0] == a[0];
    }
  }

  /** A digit string is worth its head shifted past its tail plus its tail. */
  lemma SplitValue(s: string, i: nat)
    requires AllDigits(s) && i <= |s|
    ensures AllDigits(s[..i]) && AllDigits(s[i..])
    ensures DigitsValue(s[..i]) * Pow10(|s[i..]|) + DigitsValue(s[i..]) == DigitsValue(s)
  {
    DigitSlices(s, i);
    assert s[..i] + s[i..] == s;
    DigitsValueAppend(s[..i], s[i..]);
  }

  lemma DigitSlices(s: string, i: nat)
    requires AllDigits(s) && i <= |s|
    ensures AllDigits(s[..i]) && AllDigits(s[i..])
  {
    assert forall j :: 0 <= j < i ==> s[..i][j] == s[j];
    assert forall j :: 0 <= j < |s| - i ==> s[i..][j] == s[i + j];
  }

  // ---------------------------------------------------------------------------
  // What Number::toString promises

  /** A number with `j` digits before the point is below `10^M` exactly when `j <= M`. */
  lemma MagnitudeOrder(x: nat, j: nat, m: nat)
    requires j >= 1 && Pow10(j - 1) <= x < Pow10(j)
    ensures x < Pow10(m) <==> j <= m
  {
    if j <= m { Pow10Monotone(j, m); } else { Pow10Monotone(m, j - 1); }
  }

  lemma MulMonotone(a: nat, b: nat, c: nat)
    requires a <= b
    ensures a * c <= b * c
  {
  }

  lemma MulStrict(a: nat, b: nat, c: nat)
    requires a < b && c > 0
    ensures a * c < b * c
  {
  }

  /** `u` lies between the powers of ten given by its digit count plus its trailing zeros. */
  lemma StrippedBounds(u: nat, scale: nat)
    requires u > 0
    ensures var (s, e) := StripZeros(u, -(scale as int));
      var j := |NatToDigits(s)| + e + scale;
      j >= 1 && Pow10(j - 1) <= u < Pow10(j)
  {
    var (s, e) := StripZeros(u, -(scale as int));
    var k := |NatToDigits(s)|;
    var a: nat := e + scale;
    assert s * Pow10(a) == u;
    assert Pow10(k - 1) <= s < Pow10(k);
    MulMonotone(Pow10(k - 1), s, Pow10(a));
    MulStrict(s, Pow10(k), Pow10(a));
    Pow10Add(k - 1, a);
    Pow10Add(k, a);
  }

  /** The plain range of `String` is exactly where the point position `n` is in `(-6, 21]`. */
  lemma PlainRangeIsPointPosition(u: nat, scale: nat)
    requires u > 0
    ensures var (s, e) := StripZeros(u, -(scale as int));
      var n := |NatToDigits(s)| + e;
      InPlainRange(Decimal(u, scale)) <==> -6 < n <= 21
  {
    var (s, e) := StripZeros(u, -(scale as int));
    var j: nat := |NatToDigits(s)| + e + scale;
    StrippedBounds(u, scale);
    MagnitudeOrder(u, j, 21 + scale);
    MillionfoldOrder(u, j, scale);
  }

  /** A million times a `j`-digit number is below `10^m` exactly when `j + 6 <= m`. */
  lemma MillionfoldOrder(x: nat, j: nat, m: nat)
    requires j >= 1 && Pow10(j - 1) <= x < Pow10(j)
    ensures x * Pow10(6) < Pow10(m) <==> j + 6 <= m
  {
    var p6 := Pow10(6);
    MulMonotone(Pow10(j - 1), x, p6);
    MulStrict(x, Pow10(j), p6);
    Pow10Add(j - 1, 6);
    Pow10Add(j, 6);
    MagnitudeOrder(x * p6, j + 6, m);
  }

  /** Plain notation of an integer: the digits followed by zeros. */
  lemma NotationWholeParses(digits: string, n: int)
    requires IsDigitRun(digits) && |digits| <= n <= 21
    ensures var t := Notation(digits, n);
      |t| > 0 && IsDigit(t[0]) &&
      ParseUnsigned(t) == Some(Decimal(DigitsValue(digits) * Pow10(n - |digits|), 0))
  {
    var t := digits + Zeros(n - |digits|);
    assert Notation(digits, n) == t;
    TrailingZerosValue(digits, n - |digits|);
    ParseWhole(t);
  }

  /** Plain notation with a fraction: the digits over `10^(k - n)`. */
  lemma NotationFractionParses(digits: string, n: int)
    requires IsDigitRun(digits) && -6 < n < |digits| && n <= 21
    ensures var t := Notation(digits, n);
      |t| > 0 && IsDigit(t[0]) &&
      ParseUnsigned(t) == Some(Decimal(DigitsValue(digits), |digits| - n))
  {
    if 0 < n {
      PointInsideParses(digits, n);
    } else {
      LeadingPointParses(digits, n);
    }
  }

  lemma PointInsideParses(digits: string, n: int)
    requires IsDigitRun(digits) && 0 < n < |digits| && n <= 21
    ensures var t := Notation(digits, n);
      |t| > 0 && IsDigit(t[0]) &&
      ParseUnsigned(t) == Some(Decimal(DigitsValue(digits), |digits| - n))
  {
    var a, b := digits[..n], digits[n..];
    NotationPointInside(digits, n);
    SplitValue(digits, n);
    ParsePointed(a, b, DigitsValue(digits));
  }

  lemma NotationPointInside(digits: string, n: int)
    requires 0 < n < |digits| && n <= 21
    ensures Notation(digits, n) == digits[..n] + "." + digits[n..]
  {
  }

  lemma LeadingPointParses(digits: string, n: int)
    requires IsDigitRun(digits) && -6 < n <= 0
    ensures var t := Notation(digits, n);
      |t| > 0 && IsDigit(t[0]) &&
      ParseUnsigned(t) == Some(Decimal(DigitsValue(digits), |digits| - n))
  {
    NotationLeadingPoint(digits, n);
    ZerosPointParses(Notation(digits, n), digits, -n, |digits| - n);
  }

  /** `0.` then `k` zeros then `digits` reads as the value of `digits` over `10^(|digits| + k)`. */
  lemma ZerosPointParses(t: string, digits: string, k: nat, scale: nat)
    requires t == "0" + "." + (Zeros(k) + digits) && IsDigitRun(digits) && scale == |digits| + k
    ensures |t| > 0 && IsDigit(t[0])
    ensures ParseUnsigned(t) == Some(Decimal(DigitsValue(digits), scale))
  {
    LeadingZerosValue(digits, k);
    ZeroPointParses(t, Zeros(k) + digits, DigitsValue(digits), scale);
  }

  lemma NotationLeadingPoint(digits: string, n: int)
    requires |digits| >= 1 && -6 < n <= 0
    ensures Notation(digits, n) == "0" + "." + (Zeros(-n) + digits)
  {
  }

  /** `0.b` reads as the value of `b` over `10^|b|`. */
  lemma ZeroPointParses(t: string, b: string, v: nat, scale: nat)
    requires t == "0" + "." + b && IsDigitRun(b) && v == DigitsValue(b) && scale == |b|
    ensures |t| > 0 && IsDigit(t[0])
    ensures ParseUnsigned(t) == Some(Decimal(v, scale))
  {
    assert AllDigits("0") && DigitsValue("0") == 0;
    ParsePointed("0", b, v);
  }

  lemma NotationExponential(digits: string, n: int)
    requires |digits| >= 1 && (n <= -6 || 21 < n)
    ensures 'e' in Notation(digits, n)
  {
    var t := Notation(digits, n);
    var x := if |digits| == 1 then digits else digits[..1] + "." + digits[1..];
    assert t == x + ExponentText(n - 1);
    assert t[|x|] == 'e';
  }

  lemma ScaleArith(s: nat, a: nat, b: nat, u: nat)
    requires s * Pow10(a + b) == u
    ensures s * Pow10(a) * Pow10(b) == u
  {
    Pow10Add(a, b);
    assert s * (Pow10(a) * Pow10(b)) == s * Pow10(a) * Pow10(b);
  }

  /** Plain notation of a positive number reads back as the same number. */
  lemma PositivePlainRoundTrip(u: nat, scale: nat)
    requires u > 0 && InPlainRange(Decimal(u, scale))
    ensures var t := PositiveToString(u, scale);
      && |t| > 0 && IsDigit(t[0])
      && ParseUnsigned(t).Some? && SameValue(ParseUnsigned(t).value, Decimal(u, scale))
  {
    PlainRangeIsPointPosition(u, scale);
    var (s, e) := StripZeros(u, -(scale as int));
    var digits := NatToDigits(s);
    assert PositiveToString(u, scale) == Notation(digits, |digits| + e);
    if |digits| <= |digits| + e {
      WholeRoundTrip(s, e, u, scale);
    } else {
      FractionRoundTrip(s, e, u, scale);
    }
  }

  lemma WholeRoundTrip(s: nat, e: int, u: nat, scale: nat)
    requires e >= 0 && s * Pow10(e + scale) == u
    requires |NatToDigits(s)| + e <= 21
    ensures var t := Notation(NatToDigits(s), |NatToDigits(s)| + e);
      && |t| > 0 && IsDigit(t[0])
      && ParseUnsigned(t).Some? && SameValue(ParseUnsigned(t).value, Decimal(u, scale))
  {
    var digits := NatToDigits(s);
    DigitsRoundTrip(s);
    NotationWholeParses(digits, |digits| + e);
    ScaleArith(s, e, scale, u);
  }

  lemma FractionRoundTrip(s: nat, e: int, u: nat, scale: nat)
    requires e < 0 && e + scale >= 0 && s * Pow10(e + scale) == u
    requires -6 < |NatToDigits(s)| + e <= 21
    ensures var t := Notation(NatToDigits(s), |NatToDigits(s)| + e);
      && |t| > 0 && IsDigit(t[0])
      && ParseUnsigned(t).Some? && SameValue(ParseUnsigned(t).value, Decimal(u, scale))
  {
    var digits := NatToDigits(s);
    DigitsRoundTrip(s);
    NotationFractionParses(digits, |digits| + e);
    var a: nat, z: nat := e + scale, -e;
    assert a + z == scale && |digits| - (|digits| + e) == z;
    MulPow10Shift(s, a, z, u);
    assert s * Pow10(scale) == u * Pow10(z);
  }

  lemma MulPow10Shift(s: nat, a: nat, z: nat, u: nat)
    requires s * Pow10(a) == u
    ensures s * Pow10(a + z) == u * Pow10(z)
  {
    Pow10Add(a, z);
    assert s * (Pow10(a) * Pow10(z)) == (s * Pow10(a)) * Pow10(z);
  }

  /**
   * Between `10^-6` and `10^21` in magnitude (and at zero) `String(d)` is a
   * plain decimal literal that denotes exactly `d`: nothing is rounded away.
   */
  lemma ToStringRoundTrip(d: Decimal)
    requires d.units == 0 || InPlainRange(d)
    ensures ParseNumber(ToString(d)).Some?
    ensures SameValue(ParseNumber(ToString(d)).value, d)
  {
    if d.units == 0 {
      ParseWhole("0");
    } else if d.units > 0 {
      PositiveRoundTrip(d);
    } else {
      NegativeRoundTrip(d);
    }
  }

  lemma PositiveRoundTrip(d: Decimal)
    requires d.units > 0 && InPlainRange(d)
    ensures ParseNumber(ToString(d)).Some? && SameValue(ParseNumber(ToString(d)).value, d)
  {
    PositivePlainRoundTrip(d.units, d.scale);
    var t := PositiveToString(d.units, d.scale);
    assert ToString(d) == "" + t;
    SignedParse(t, ParseUnsigned(t).value, false);
  }

  lemma NegativeRoundTrip(d: Decimal)
    requires d.units < 0 && InPlainRange(d)
    ensures ParseNumber(ToString(d)).Some? && SameValue(ParseNumber(ToString(d)).value, d)
  {
    var u := -d.units;
    assert InPlainRange(Decimal(u, d.scale));
    PositivePlainRoundTrip(u, d.scale);
    var t := PositiveToString(u, d.scale);
    var v := ParseUnsigned(t).value;
    SignedParse(t, v, true);
    assert ToString(d) == "-" + t;
    SameValueNeg(v, Decimal(u, d.scale));
  }

  lemma SameValueNeg(a: Decimal, b: Decimal)
    requires SameValue(a, b)
    ensures SameValue(Neg(a), Neg(b))
  {
    assert (-a.units) * Pow10(b.scale) == -(a.units * Pow10(b.scale));
    assert (-b.units) * Pow10(a.scale) == -(b.units * Pow10(a.scale));
  }

  /** Outside that range `String` switches to exponential notation. */
  lemma ToStringExponential(d: Decimal)
    requires d.units != 0 && !InPlainRange(d)
    ensures 'e' in ToString(d)
  {
    var u := Abs(d.units);
    PlainRangeIsPointPosition(u, d.scale);
    var (s, e) := StripZeros(u, -(d.scale as int));
    var digits := NatToDigits(s);
    NotationExponential(digits, |digits| + e);
    var t := PositiveToString(u, d.scale);
    assert 'e' in t;
    assert d.units < 0 ==> ToString(d) == "-" + t;
  }
}
