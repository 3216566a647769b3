/** Decimal numbers as the `decimal` library keeps them: a sign, a coefficient and an exponent. */
module Decimals {
  import opened Arith
  import opened Digits
  import opened Results

  /** Digits of precision set for the whole package (migration/job/ldm/__init__.py:8-10). */
  const PRECISION := 64

  datatype Decimal = Decimal(neg: bool, coeff: nat, exp: int)

  datatype DecimalError = InvalidOperation

  /** Python's `d < 0`. */
  predicate IsNegative(d: Decimal) { d.neg && d.coeff > 0 }

  function Neg(x: int): int { -x }

  function Abs(x: int): nat { if x < 0 then -x else x }

  /** The decimal `n * 10^-scale`. */
  function Scaled(n: int, scale: nat): Decimal { Decimal(n < 0, Abs(n), Neg(scale)) }

  /** `n / d` rounded half to even. */
  function RoundHalfEven(n: nat, d: nat): nat
    requires d > 0
  {
    var q, r := n / d, n % d;
    if 2 * r < d || (2 * r == d && q % 2 == 0) then q else q + 1
  }

  /** It is a nearest integer, and the even one of two that are equally near. */
  lemma RoundHalfEvenNearest(n: nat, d: nat)
    requires d > 0
    ensures 2 * Abs(n - d * RoundHalfEven(n, d)) <= d
    ensures 2 * Abs(n - d * RoundHalfEven(n, d)) == d ==> RoundHalfEven(n, d) % 2 == 0
  {
    var q, r := n / d, n % d;
    assert n == d * q + r;
    assert d * (q + 1) == d * q + d;
  }

  /** The coefficient of `|v|` rounded to `scale` fraction digits. */
  function RoundedCoeff(v: Decimal, scale: nat): nat {
    if v.exp + scale >= 0 then v.coeff * Pow10(v.exp + scale)
    else RoundHalfEven(v.coeff, Pow10(-(v.exp + scale)))
  }

  /** The whole part of `|v|`. */
  function Whole(v: Decimal): nat {
    if v.exp >= 0 then v.coeff * Pow10(v.exp) else Quotient(v.coeff, Pow10(-v.exp))
  }

  function Quotient(n: nat, d: nat): nat
    requires d > 0
  {
    n / d
  }

  /** `v.quantize(Decimal(1).scaleb(-scale))`: an error when the result needs more than the precision. */
  function Quantize(v: Decimal, scale: nat): Result<Decimal, DecimalError> {
    var c := RoundedCoeff(v, scale);
    if NumDigits(c) > PRECISION then Err(InvalidOperation) else Ok(Decimal(v.neg, c, Neg(scale)))
  }

  /** The digits of `|v|` as the `f` format writes them, the decimal point left out. */
  function PlainDigits(v: Decimal): (s: string)
    ensures AllDigits(s)
  {
    if v.exp > 0 then Str(v.coeff * Pow10(v.exp)) else Fixed(v.coeff, Max(NumDigits(v.coeff), 1 - v.exp))
  }

  /** `format(v, "f")`. */
  function FormatF(v: Decimal): string {
    var ds := PlainDigits(v);
    var text := if v.exp >= 0 then ds else ds[..|ds| + v.exp] + ("." + ds[|ds| + v.exp..]);
    (if v.neg then "-" else "") + text
  }

  function AbsDecimal(v: Decimal): Decimal { v.(neg := false) }

  /** `s.replace(".", "")`. */
  function WithoutDots(s: string): string {
    if s == "" then "" else (if s[0] == '.' then "" else [s[0]]) + WithoutDots(s[1..])
  }

  lemma {:induction false} WithoutDotsOfDigits(s: string, rest: string)
    requires AllDigits(s)
    ensures WithoutDots(s + rest) == s + WithoutDots(rest)
  {
    if s == "" {
      assert s + rest == rest;
    } else {
      WithoutDotsOfDigits(s[1..], rest);
      assert (s + rest)[1..] == s[1..] + rest;
      assert IsDigit(s[0]);
    }
  }

  lemma OnlyDigits(s: string)
    requires AllDigits(s)
    ensures WithoutDots(s) == s
  {
    WithoutDotsOfDigits(s, "");
    assert s + "" == s;
  }

  lemma FirstDot(tail: string)
    ensures WithoutDots("." + tail) == WithoutDots(tail)
  {
    assert ("." + tail)[1..] == tail;
  }

  lemma WithoutOneDot(head: string, tail: string)
    requires AllDigits(head) && AllDigits(tail)
    ensures WithoutDots(head + ("." + tail)) == head + tail
  {
    OnlyDigits(tail);
    FirstDot(tail);
    WithoutDotsOfDigits(head, "." + tail);
  }

  lemma DigitsApart(s: string, k: nat)
    requires AllDigits(s) && k <= |s|
    ensures AllDigits(s[..k]) && AllDigits(s[k..])
  {
  }

  /** Formatting and dropping the point leaves the plain digits. */
  lemma PlainDigitsOfFormat(v: Decimal)
    ensures WithoutDots(FormatF(AbsDecimal(v))) == PlainDigits(v)
  {
    var ds := PlainDigits(v);
    var text := FormatF(AbsDecimal(v));
    if v.exp >= 0 {
      assert text == ds;
      OnlyDigits(ds);
    } else {
      var k := |ds| + v.exp;
      assert text == ds[..k] + ("." + ds[k..]);
      DigitsApart(ds, k);
      WithoutOneDot(ds[..k], ds[k..]);
      assert ds[..k] + ds[k..] == ds;
    }
  }

  lemma ShiftedBound(hi: nat, lo: nat, w: nat, k: nat)
    requires lo < Pow10(k)
    ensures hi < Pow10(w) ==> hi * Pow10(k) + lo < Pow10(w + k)
    ensures hi >= Pow10(w) ==> hi * Pow10(k) + lo >= Pow10(w + k)
  {
    Pow10Add(w, k);
    if hi < Pow10(w) {
      MulLess(hi, Pow10(w), Pow10(k));
    } else {
      MulLess(Pow10(w) - 1, hi, Pow10(k));
      Distribute(Pow10(k), Pow10(w), 1);
    }
  }

  lemma NumDigitsOfParts(hi: nat, lo: nat, k: nat)
    requires k >= 1 && lo < Pow10(k)
    ensures hi * Pow10(k) >= 0
    ensures Max(NumDigits(hi * Pow10(k) + lo), k + 1) == NumDigits(hi) + k
  {
    var w := NumDigits(hi);
    NumDigitsBound(hi, w);
    ShiftedBound(hi, lo, w, k);
    assert hi * Pow10(k) >= 0;
    NumDigitsBound(hi * Pow10(k) + lo, w + k);
    if w > 1 {
      NumDigitsBound(hi, w - 1);
      ShiftedBound(hi, lo, w - 1, k);
      NumDigitsBound(hi * Pow10(k) + lo, w - 1 + k);
    }
  }

  lemma PointBetween(v: Decimal, head: string, tail: string)
    requires v.exp < 0 && |tail| == -v.exp && PlainDigits(v) == head + tail
    ensures FormatF(v) == (if v.neg then "-" else "") + (head + ("." + tail))
  {
    var ds := head + tail;
    assert ds[..|ds| + v.exp] == head && ds[|ds| + v.exp..] == tail;
  }

  /** The `f` format of a number given by its whole and its fraction part. */
  lemma FormatOfParts(neg: bool, hi: nat, lo: nat, k: nat)
    requires k >= 1 && lo < Pow10(k)
    ensures hi * Pow10(k) >= 0
    ensures FormatF(Decimal(neg, hi * Pow10(k) + lo, Neg(k))) ==
            (if neg then "-" else "") + (Str(hi) + ("." + Fixed(lo, k)))
  {
    DigitsOfParts(hi, lo, k);
    PointBetween(Decimal(neg, hi * Pow10(k) + lo, Neg(k)), Str(hi), Fixed(lo, k));
  }

  lemma DigitsOfParts(hi: nat, lo: nat, k: nat)
    requires k >= 1 && lo < Pow10(k)
    ensures hi * Pow10(k) >= 0
    ensures PlainDigits(Decimal(false, hi * Pow10(k) + lo, Neg(k))) == Str(hi) + Fixed(lo, k)
  {
    NumDigitsOfParts(hi, lo, k);
    FixedAppend(hi, lo, NumDigits(hi), k);
  }

  /** A `DECIMAL(precision, scale)` column accepts a value by counting its integer digits. */
  predicate DecimalFits(v: Decimal, precision: int, scale: int) {
    NumDigits(v.coeff) + v.exp <= precision - scale
  }

  /** `|v| < 10^k`, both sides multiplied by the power of ten that makes them whole. */
  predicate MagnitudeBelow(v: Decimal, k: int) {
    var m := Min(v.exp, k);
    v.coeff * Pow10(v.exp - m) < Pow10(k - m)
  }

  /**
   * Digit counting is the magnitude bound for every value but one: a zero is refused when the
   * column has no integer digit left for it.
   */
  lemma DecimalFitsExactly(v: Decimal, precision: int, scale: int)
    ensures DecimalFits(v, precision, scale) <==>
              MagnitudeBelow(v, precision - scale) && (v.coeff == 0 ==> v.exp < precision - scale)
  {
    var k := precision - scale;
    if v.coeff == 0 {
      assert 0 * Pow10(v.exp - Min(v.exp, k)) == 0;
    } else if v.exp < k {
      assert Pow10(0) == 1;
      NumDigitsBound(v.coeff, k - v.exp);
    } else {
      assert Pow10(0) == 1;
      MulAtLeast(Pow10(v.exp - k), v.coeff);
    }
  }

  /** For a column with integer digits and a value read from fixed-point text the two agree outright. */
  lemma DecimalFitsFixedPoint(v: Decimal, precision: int, scale: int)
    requires precision > scale && v.exp <= 0
    ensures DecimalFits(v, precision, scale) <==> MagnitudeBelow(v, precision - scale)
  {
    DecimalFitsExactly(v, precision, scale);
  }

  /** Rounding to the scale a value already has changes nothing. */
  lemma RoundedCoeffAtScale(v: Decimal, scale: nat)
    requires v.exp == Neg(scale)
    ensures RoundedCoeff(v, scale) == v.coeff
  {
    assert Pow10(0) == 1;
  }

  // ---- rounding, said without computing it ----

  /** `n * 10^-places` is `v` rounded half to even: a nearest multiple, and the even one of two. */
  ghost predicate RoundsTo(v: Decimal, places: nat, n: int) {
    && (if v.neg then n <= 0 else n >= 0)
    && if v.exp + places >= 0 then Abs(n) == v.coeff * Pow10(v.exp + places)
       else Nearest(v.coeff, Pow10(-(v.exp + places)), Abs(n))
  }

  /** `q` is `n / d` rounded half to even. */
  ghost predicate Nearest(n: nat, d: nat, q: nat) {
    2 * Abs(n - d * q) <= d && (2 * Abs(n - d * q) == d ==> q % 2 == 0)
  }

  lemma Apart(d: nat, p: nat, q: nat)
    requires p < q
    ensures d * q >= d * p + d
    ensures p + 1 < q ==> d * q >= d * p + 2 * d
  {
    MulLess(p, q, d);
    if p + 1 < q {
      MulLess(p + 1, q, d);
      MulLess(p, p + 1, d);
    }
  }

  lemma NotBelow(n: nat, d: nat, p: nat, q: nat)
    requires d > 0 && Nearest(n, d, p) && Nearest(n, d, q)
    ensures p >= q
  {
    if p < q { Apart(d, p, q); }
  }

  lemma NearestUnique(n: nat, d: nat, p: nat, q: nat)
    requires d > 0 && Nearest(n, d, p) && Nearest(n, d, q)
    ensures p == q
  {
    NotBelow(n, d, p, q);
    NotBelow(n, d, q, p);
  }

  /** The value rounded, with its sign. */
  function SignedRounding(v: Decimal, places: nat): int {
    if v.neg then Neg(RoundedCoeff(v, places)) else RoundedCoeff(v, places)
  }

  /** Every decimal rounds to exactly one number of so many places. */
  lemma RoundsToExactly(v: Decimal, places: nat, n: int)
    ensures RoundsTo(v, places, n) <==> n == SignedRounding(v, places)
  {
    if v.exp + places < 0 {
      var d := Pow10(-(v.exp + places));
      RoundHalfEvenNearest(v.coeff, d);
      if Nearest(v.coeff, d, Abs(n)) { NearestUnique(v.coeff, d, Abs(n), RoundHalfEven(v.coeff, d)); }
    }
  }
}
