/**
 * Decimal digit strings: rendering a natural number, reading a digit string
 * back, and the powers of ten that relate the two.
 */
module Digits {

  function Pow10(n: nat): (r: nat)
    ensures r >= 1
  {
    if n == 0 then 1 else 10 * Pow10(n - 1)
  }

  lemma {:induction false} Pow10Add(a: nat, b: nat)
    ensures Pow10(a + b) == Pow10(a) * Pow10(b)
  {
    if a > 0 {
      Pow10Add(a - 1, b);
      assert Pow10(a + b) == 10 * Pow10(a - 1 + b);
    }
  }

  lemma {:induction false} Pow10Monotone(a: nat, b: nat)
    requires a <= b
    ensures Pow10(a) <= Pow10(b)
  {
    if a < b {
      Pow10Monotone(a, b - 1);
    }
  }

  /** Moving a factor `10^k` from one power to the other leaves the product unchanged. */
  lemma Pow10Shift(a: nat, k: nat, s: nat)
    ensures Pow10(a) * Pow10(s + k) == Pow10(a + k) * Pow10(s)
  {
    Pow10Add(a, k);
    Pow10Add(s, k);
    MulSwap(Pow10(a), Pow10(s), Pow10(k));
  }

  lemma MulSwap(x: int, y: int, z: int)
    ensures x * (y * z) == (x * z) * y
  {
  }

  predicate IsDigit(c: char) {
    '0' <= c <= '9'
  }

  predicate AllDigits(s: string) {
    forall i :: 0 <= i < |s| ==> IsDigit(s[i])
  }

  function DigitChar(d: nat): (c: char)
    requires d < 10
    ensures IsDigit(c)
  {
    (48 + d) as char
  }

  function DigitValue(c: char): (d: nat)
    requires IsDigit(c)
    ensures d < 10 && DigitChar(d) == c
  {
    c as int - 48
  }

  /** `n` written in base ten without leading zeros ("0" for zero). */
  function NatToDigits(n: nat): (r: string)
    ensures |r| >= 1 && AllDigits(r)
    ensures |r| > 1 ==> r[0] != '0'
    ensures n < Pow10(|r|)
    ensures |r| > 1 ==> Pow10(|r| - 1) <= n
  {
    if n < 10 then [DigitChar(n)]
    else
      var r := NatToDigits(n / 10) + [DigitChar(n % 10)];
      assert r[0] == NatToDigits(n / 10)[0];
      r
  }

  /** The number a string of digits denotes (leading zeros allowed, "" is 0). */
  function DigitsValue(s: string): nat
    requires AllDigits(s)
  {
    if |s| == 0 then 0 else DigitsValue(s[..|s| - 1]) * 10 + DigitValue(s[|s| - 1])
  }

  /** Reading back what `NatToDigits` wrote gives the number. */
  lemma {:induction false} DigitsRoundTrip(n: nat)
    ensures DigitsValue(NatToDigits(n)) == n
  {
    if n >= 10 {
      var r := NatToDigits(n);
      DigitsRoundTrip(n / 10);
      assert r[..|r| - 1] == NatToDigits(n / 10);
    }
  }

  lemma ConcatDigits(a: string, b: string)
    requires AllDigits(a) && AllDigits(b)
    ensures AllDigits(a + b)
  {
  }

  lemma LastDigitStep(a: string, b: string)
    requires AllDigits(a) && AllDigits(b) && |b| > 0
    ensures AllDigits(a + b[..|b| - 1])
    ensures DigitsValue(a + b) == DigitsValue(a + b[..|b| - 1]) * 10 + DigitValue(b[|b| - 1])
  {
    var c, p := a + b, a + b[..|b| - 1];
    assert AllDigits(p) by {
      forall i | 0 <= i < |p| ensures IsDigit(p[i]) {
        if i < |a| { assert p[i] == a[i]; } else { assert p[i] == b[i - |a|]; }
      }
    }
    assert c[..|c| - 1] == p;
    assert c[|c| - 1] == b[|b| - 1];
    DigitsValueLast(c);
  }

  lemma DigitsValueLast(c: string)
    requires AllDigits(c) && |c| > 0
    ensures AllDigits(c[..|c| - 1])
    ensures DigitsValue(c) == DigitsValue(c[..|c| - 1]) * 10 + DigitValue(c[|c| - 1])
  {
  }

  /** A string of digits is worth its prefix shifted left plus its suffix. */
  lemma {:induction false} DigitsValueAppend(a: string, b: string)
    requires AllDigits(a) && AllDigits(b)
    ensures AllDigits(a + b)
    ensures DigitsValue(a + b) == DigitsValue(a) * Pow10(|b|) + DigitsValue(b)
  {
    ConcatDigits(a, b);
    if |b| == 0 {
      assert a + b == a;
    } else {
      var b' := b[..|b| - 1];
      DigitsValueAppend(a, b');
      LastDigitStep(a, b);
      ShiftArith(DigitsValue(a), Pow10(|b'|), DigitsValue(b'), DigitValue(b[|b| - 1]));
    }
  }

  lemma ShiftArith(x: int, p: int, y: int, d: int)
    ensures (x * p + y) * 10 + d == x * (10 * p) + (y * 10 + d)
  {
  }

  function Zeros(n: nat): (r: string)
    ensures |r| == n && AllDigits(r)
    ensures forall i :: 0 <= i < n ==> r[i] == '0'
  {
    if n == 0 then "" else Zeros(n - 1) + "0"
  }

  lemma {:induction false} ZerosValue(n: nat)
    ensures DigitsValue(Zeros(n)) == 0
  {
    if n > 0 {
      ZerosValue(n - 1);
      assert Zeros(n)[..n - 1] == Zeros(n - 1);
    }
  }

  /** Leading zeros do not change the value. */
  lemma LeadingZerosValue(s: string, k: nat)
    requires AllDigits(s)
    ensures AllDigits(Zeros(k) + s) && DigitsValue(Zeros(k) + s) == DigitsValue(s)
  {
    DigitsValueAppend(Zeros(k), s);
    ZerosValue(k);
    assert DigitsValue(Zeros(k)) * Pow10(|s|) == 0;
  }

  /** Trailing zeros multiply the value by a power of ten. */
  lemma TrailingZerosValue(s: string, k: nat)
    requires AllDigits(s)
    ensures AllDigits(s + Zeros(k)) && DigitsValue(s + Zeros(k)) == DigitsValue(s) * Pow10(k)
  {
    DigitsValueAppend(s, Zeros(k));
    ZerosValue(k);
  }
}
