/** Rendering a share as a short fraction: the denominator search of the share formatter. */
module Fractions {

  /**
   * The text the formatter produces: "0", "n/d", or the value written as a
   * decimal (its four-digit rendering is not modelled; the exact value is kept).
   */
  datatype Fraction = Zero | Ratio(n: int, d: int) | Decimal(v: real)

  /** Largest denominator tried. */
  const MaxDenominator: int := 24

  /** How close n/d must come to the value: 1e-6. */
  const Tolerance: real := 0.000001

  function Abs(x: real): (a: real) {
    if x < 0.0 then -x else x
  }

  /** `Math.round`: the nearest integer, halves rounded up. */
  function Round(x: real): (n: int)
    ensures n as real - 0.5 <= x < n as real + 0.5
  {
    (x + 0.5).Floor
  }

  /** The numerator tried for denominator `d`: round(val*d). */
  function Numerator(val: real, d: int): (n: int) {
    Round(val * d as real)
  }

  /**
   * Denominator `d` reproduces `val`: round(val*d) lies within d times the
   * tolerance of val*d, which is round(val*d)/d lying within the tolerance of
   * `val` (FitsWithinTolerance).
   */
  predicate Fits(val: real, d: int)
    requires d >= 1
  {
    Abs(val * d as real - Numerator(val, d) as real) < Tolerance * d as real
  }

  /** The test as the formatter writes it: |val - n/d| < 1e-6 with n = round(val*d). */
  lemma FitsWithinTolerance(val: real, d: int)
    requires d >= 1
    ensures Fits(val, d) <==> Abs(val - Numerator(val, d) as real / d as real) < Tolerance
  {
    var x := val * d as real;
    var n := Numerator(val, d);
    assert val - n as real / d as real == (x - n as real) / d as real;
    assert Abs((x - n as real) / d as real) == Abs(x - n as real) / d as real;
  }

  /** The search from denominator `d` upwards: the first fitting denominator up to 24. */
  function SearchFrom(val: real, d: int): (f: Fraction)
    requires 1 <= d <= MaxDenominator + 1
    ensures !f.Zero?
    ensures f.Ratio? ==>
              && d <= f.d <= MaxDenominator
              && f.n == Numerator(val, f.d)
              && Fits(val, f.d)
              && forall e :: d <= e < f.d ==> !Fits(val, e)
    ensures f.Decimal? ==> f.v == val && forall e :: d <= e <= MaxDenominator ==> !Fits(val, e)
    decreases MaxDenominator + 1 - d
  {
    if d > MaxDenominator then Decimal(val)
    else if Fits(val, d) then Ratio(Numerator(val, d), d)
    else SearchFrom(val, d + 1)
  }

  /**
   * What the formatter returns for `val`: "0" for 0; otherwise n/d for the
   * smallest denominator d in 1..24 that fits, with n = round(val*d), which then
   * lies within 1e-6 of `val`; the decimal form only when no denominator fits.
   */
  function Approximation(val: real): (f: Fraction)
    ensures f.Zero? <==> val == 0.0
    ensures f.Ratio? ==>
              && 1 <= f.d <= MaxDenominator
              && f.n == Numerator(val, f.d)
              && Fits(val, f.d)
              && Abs(val - f.n as real / f.d as real) < Tolerance
              && forall e :: 1 <= e < f.d ==> !Fits(val, e)
    ensures f.Decimal? ==> f.v == val && forall e :: 1 <= e <= MaxDenominator ==> !Fits(val, e)
  {
    if val == 0.0 then Zero
    else
      var f := SearchFrom(val, 1);
      if f.Ratio? then FitsWithinTolerance(val, f.d); f else f
  }

  /** `formatFraction`: the loop over d = 1..24 with its early return. */
  method FormatFraction(val: real) returns (f: Fraction)
    ensures f == Approximation(val)
  {
    if val == 0.0 {
      return Zero;
    }
    var d := 1;
    while d <= MaxDenominator
      invariant 1 <= d <= MaxDenominator + 1
      invariant SearchFrom(val, d) == Approximation(val)
    {
      var n := Round(val * d as real);
      assert n == Numerator(val, d);
      FitsWithinTolerance(val, d);
      if Abs(val - n as real / d as real) < Tolerance {
        return Ratio(n, d);
      }
      d := d + 1;
    }
    return Decimal(val);
  }

  /** `x` is a whole number. */
  predicate IsIntegral(x: real) {
    x.Floor as real == x
  }

  /** Rounding leaves a whole number as it is. */
  lemma RoundIntegral(x: real)
    requires IsIntegral(x)
    ensures Round(x) as real == x
  {
    var m := x.Floor;
    assert m as real + 0.5 == x + 0.5;
    assert (m as real + 0.5).Floor == m;
  }

  /** `val * e` is a whole number. */
  predicate IntegralMultiple(val: real, e: int) {
    IsIntegral(val * e as real)
  }

  /** A value whose multiple by e is a whole number m fits e, with numerator m. */
  lemma IntegralMultipleFits(val: real, e: int)
    requires e >= 1
    ensures IntegralMultiple(val, e) ==>
              Fits(val, e) && Numerator(val, e) as real == val * e as real
  {
    if IsIntegral(val * e as real) {
      RoundIntegral(val * e as real);
    }
  }

  /**
   * When val*q is a whole number for some q <= 24, a denominator d fits val
   * only when it reproduces val exactly: two different fractions with
   * denominators up to 24 are at least 1/576 apart.
   */
  lemma FitsOnlyExactly(val: real, q: int, d: int)
    requires 1 <= q <= MaxDenominator && 1 <= d <= MaxDenominator
    requires IntegralMultiple(val, q)
    requires Fits(val, d)
    ensures Numerator(val, d) as real == val * d as real
  {
    var p := (val * q as real).Floor;
    var x := val * d as real;
    var n := Numerator(val, d);
    var gap := p * d - n * q;
    var e, k := x - n as real, q as real;
    GapProduct(val, p, d, n, q, e);
    assert e * k == gap as real;
    assert Abs(e) < Tolerance * 24.0;
    NoWholeGap(gap, e, k);
  }

  /**
   * The error of numerator n for denominator d, times q, is the whole number
   * p*d - n*q when val*q is the whole number p.
   */
  lemma GapProduct(val: real, p: int, d: int, n: int, q: int, e: real)
    requires p as real == val * q as real && e == val * d as real - n as real
    ensures e * q as real == (p * d - n * q) as real
  {
    var vr, pr, dr, nr, qr := val, p as real, d as real, n as real, q as real;
    assert (p * d) as real == pr * dr && (n * q) as real == nr * qr;
    assert e * qr == vr * dr * qr - nr * qr;
    assert vr * dr * qr == vr * qr * dr == pr * dr;
  }

  /**
   * A whole number that is an error below 24 tolerances times a factor
   * between 1 and 24 is 0, and so is the error.
   */
  lemma NoWholeGap(gap: int, e: real, k: real)
    requires gap as real == e * k
    requires Abs(e) < Tolerance * 24.0 && 1.0 <= k <= 24.0
    ensures gap == 0 && e == 0.0
  {
    ProductBound(e, k);
    assert e * k == 0.0;
  }

  /** An error below 24 tolerances times a factor between 1 and 24 lies strictly between -1 and 1. */
  lemma ProductBound(e: real, k: real)
    requires Abs(e) < Tolerance * 24.0 && 1.0 <= k <= 24.0
    ensures -1.0 < e * k < 1.0
  {
    if e >= 0.0 {
      assert e * k <= e * 24.0;
    } else {
      assert e * k >= e * 24.0;
    }
  }

  /**
   * Exact shares with small denominators are printed exactly, over their
   * smallest denominator: when val*q is a whole number for some q <= 24, the
   * result is n/d == val with d <= q, and no smaller d makes val*d whole, so
   * 1 prints as 1/1, 1/2 as 1/2 and never 2/4.
   */
  lemma ExactFractions(val: real, q: int)
    requires 1 <= q <= MaxDenominator && val != 0.0
    requires IntegralMultiple(val, q)
    ensures var f := Approximation(val);
      && f.Ratio?
      && f.n as real / f.d as real == val
      && f.d <= q
      && forall e :: 1 <= e < f.d ==> !IntegralMultiple(val, e)
  {
    IntegralMultipleFits(val, q);
    var f := Approximation(val);
    assert f.Ratio? && f.d <= q;
    var n, d := f.n, f.d;
    assert n == Numerator(val, d) && 1 <= d <= MaxDenominator;
    FitsOnlyExactly(val, q, d);
    assert n as real == val * d as real;
    DivideBack(n, d, val);
    forall e | 1 <= e < f.d
      ensures !IntegralMultiple(val, e)
    {
      IntegralMultipleFits(val, e);
    }
  }

  /**
   * A value p/q with q <= 24 that no smaller denominator makes whole is
   * printed as exactly p/q.
   */
  lemma ApproximationOfRatio(val: real, p: int, q: int)
    requires 1 <= q <= MaxDenominator && p != 0
    requires val == p as real / q as real
    requires forall e :: 1 <= e < q ==> !IntegralMultiple(val, e)
    ensures Approximation(val) == Ratio(p, q)
  {
    var f := Approximation(val);
    FirstWholeDenominator(val, p, q, f);
    MultiplyBack(f.n, q, val);
    MultiplyBack(p, q, val);
  }

  /** For such a value the search stops at q, with a numerator giving val over q. */
  lemma FirstWholeDenominator(val: real, p: int, q: int, f: Fraction)
    requires 1 <= q <= MaxDenominator && p != 0
    requires val == p as real / q as real
    requires forall e :: 1 <= e < q ==> !IntegralMultiple(val, e)
    requires f == Approximation(val)
    ensures f.Ratio? && f.d == q && f.n as real / q as real == val
  {
    WholeAt(val, p, q);
    ExactFractions(val, q);
    WholeAt(val, f.n, f.d);
  }

  /** val == n/d makes val*d a whole number. */
  lemma WholeAt(val: real, n: int, d: int)
    requires d >= 1 && val == n as real / d as real
    ensures IntegralMultiple(val, d)
  {
    MultiplyBack(n, d, val);
    WholeNumber(n, val * d as real);
  }

  /** n/d == val gives val*d == n. */
  lemma MultiplyBack(n: int, d: int, val: real)
    requires d >= 1 && val == n as real / d as real
    ensures val * d as real == n as real
  {
  }

  /** An integer is a whole number. */
  lemma WholeNumber(n: int, x: real)
    requires x == n as real
    ensures IsIntegral(x)
  {
  }

  /** n == val*d gives n/d == val. */
  lemma DivideBack(n: int, d: int, val: real)
    requires d >= 1 && n as real == val * d as real
    ensures n as real / d as real == val
  {
  }
}
