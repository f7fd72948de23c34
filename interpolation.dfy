/**
 * The two linear interpolation formulas of the resolver and the bilinear
 * interpolation built from them, over exact reals.
 */
module Interpolation {

  function Min(a: real, b: real): real { if a <= b then a else b }
  function Max(a: real, b: real): real { if a <= b then b else a }

  lemma ScaleNonneg(c: real, w: real)
    requires 0.0 <= w <= 1.0 && 0.0 <= c
    ensures 0.0 <= c * w <= c
  {
  }

  lemma ScaleBetween(c: real, w: real)
    requires 0.0 <= w <= 1.0
    ensures c >= 0.0 ==> 0.0 <= c * w <= c
    ensures c <= 0.0 ==> c <= c * w <= 0.0
  {
    if c >= 0.0 {
      ScaleNonneg(c, w);
    } else {
      ScaleNonneg(-c, w);
      assert (-c) * w == -(c * w);
    }
  }

  lemma MulSign(a: real, b: real)
    requires b > 0.0
    ensures a * b > 0.0 <==> a > 0.0
    ensures a * b < 0.0 <==> a < 0.0
  {
  }

  lemma DivMul(n: real, d: real)
    requires d != 0.0
    ensures (n / d) * d == n
  {
  }

  /** A share of a positive whole lies between 0 and 1, strictly so for a proper part. */
  lemma Fraction(n: real, d: real)
    requires 0.0 <= n <= d && 0.0 < d
    ensures 0.0 <= n / d <= 1.0
    ensures 0.0 < n < d ==> 0.0 < n / d < 1.0
  {
    var q := n / d;
    DivMul(n, d);
    MulSign(q, d);
    MulSign(q - 1.0, d);
    assert (q - 1.0) * d == q * d - d;
  }

  lemma DivSelf(d: real)
    requires d != 0.0
    ensures d / d == 1.0
  {
    DivMul(d, d);
    assert (d / d - 1.0) * d == 0.0;
  }

  lemma DivAdd(a: real, b: real, d: real)
    requires d != 0.0
    ensures a / d + b / d == (a + b) / d
  {
  }

  /** The two weights of an interpolation sum to one. */
  lemma Complement(x0: real, x1: real, x: real)
    requires x0 < x1
    ensures (x1 - x) / (x1 - x0) == 1.0 - (x - x0) / (x1 - x0)
  {
    DivAdd(x1 - x, x - x0, x1 - x0);
    DivSelf(x1 - x0);
  }

  /** Linear interpolation in the form `f0 + (f1 - f0) * ((x - x0) / (x1 - x0))`. */
  function Lerp(x0: real, x1: real, x: real, f0: real, f1: real): (r: real)
    requires x0 < x1 && x0 <= x <= x1
    ensures Min(f0, f1) <= r <= Max(f0, f1)
    ensures f0 < f1 && x0 < x < x1 ==> f0 < r < f1
    ensures f1 < f0 && x0 < x < x1 ==> f1 < r < f0
    ensures x == x0 ==> r == f0
    ensures x == x1 ==> r == f1
  {
    LerpBounds(x0, x1, x, f0, f1);
    f0 + (f1 - f0) * ((x - x0) / (x1 - x0))
  }

  lemma LerpBounds(x0: real, x1: real, x: real, f0: real, f1: real)
    requires x0 < x1 && x0 <= x <= x1
    ensures var r := f0 + (f1 - f0) * ((x - x0) / (x1 - x0));
      && Min(f0, f1) <= r <= Max(f0, f1)
      && (x0 < x < x1 && f0 != f1 ==> Min(f0, f1) < r < Max(f0, f1))
      && (x == x0 ==> r == f0)
      && (x == x1 ==> r == f1)
  {
    var w := (x - x0) / (x1 - x0);
    var c := f1 - f0;
    Fraction(x - x0, x1 - x0);
    ScaleBetween(c, w);
    if x == x0 {
      assert w == 0.0;
    } else if x == x1 {
      DivSelf(x1 - x0);
    } else {
      StrictScale(c, w);
      if f0 < f1 {
        assert f0 < f0 + c * w < f1;
      } else if f1 < f0 {
        assert f1 < f0 + c * w < f0;
      }
    }
  }

  lemma StrictScale(c: real, w: real)
    requires 0.0 < w < 1.0
    ensures c > 0.0 ==> 0.0 < c * w < c
    ensures c < 0.0 ==> c < c * w < 0.0
  {
    if c > 0.0 {
      assert c * (1.0 - w) > 0.0;
    } else if c < 0.0 {
      assert (-c) * (1.0 - w) > 0.0;
      assert (-c) * w > 0.0;
    }
  }

  /** The weighted form `((x1 - x) / d) * f0 + ((x - x0) / d) * f1` is the same interpolation. */
  lemma BlendIsLerp(x0: real, x1: real, x: real, f0: real, f1: real)
    requires x0 < x1 && x0 <= x <= x1
    ensures ((x1 - x) / (x1 - x0)) * f0 + ((x - x0) / (x1 - x0)) * f1 == Lerp(x0, x1, x, f0, f1)
  {
    Complement(x0, x1, x);
    var w := (x - x0) / (x1 - x0);
    assert (1.0 - w) * f0 + w * f1 == f0 + (f1 - f0) * w;
  }

  /** Linear interpolation in the weighted form, as the bilinear case writes it. */
  function Blend(x0: real, x1: real, x: real, f0: real, f1: real): (r: real)
    requires x0 < x1 && x0 <= x <= x1
    ensures Min(f0, f1) <= r <= Max(f0, f1)
    ensures x == x0 ==> r == f0
    ensures x == x1 ==> r == f1
  {
    BlendIsLerp(x0, x1, x, f0, f1);
    ((x1 - x) / (x1 - x0)) * f0 + ((x - x0) / (x1 - x0)) * f1
  }

  /**
   * Bilinear interpolation: along tank size at the smaller and at the larger
   * household size, then along household size. `q11` is the corner
   * (tank0, people0), `q12` (tank0, people1), `q21` (tank1, people0) and
   * `q22` (tank1, people1).
   */
  function Bilinear(tank0: real, tank1: real, tank: real, people0: real, people1: real, people: real,
                    q11: real, q12: real, q21: real, q22: real): (r: real)
    requires tank0 < tank1 && tank0 <= tank <= tank1
    requires people0 < people1 && people0 <= people <= people1
    ensures Min(Min(q11, q12), Min(q21, q22)) <= r <= Max(Max(q11, q12), Max(q21, q22))
  {
    var r1 := Blend(tank0, tank1, tank, q11, q21);
    var r2 := Blend(tank0, tank1, tank, q12, q22);
    Blend(people0, people1, people, r1, r2)
  }

  /** At the smaller tank size the bilinear blend is interpolation along household size in that row. */
  lemma BilinearAtSmallerTank(tank0: real, tank1: real, people0: real, people1: real, people: real,
                              q11: real, q12: real, q21: real, q22: real)
    requires tank0 < tank1
    requires people0 < people1 && people0 <= people <= people1
    ensures Bilinear(tank0, tank1, tank0, people0, people1, people, q11, q12, q21, q22)
            == Lerp(people0, people1, people, q11, q12)
  {
    BlendIsLerp(people0, people1, people, q11, q12);
  }

  /** At the midpoint of both brackets the bilinear blend is the mean of the four corners. */
  lemma BilinearMidpoint(tank0: real, tank1: real, people0: real, people1: real,
                         q11: real, q12: real, q21: real, q22: real)
    requires tank0 < tank1 && people0 < people1
    ensures Bilinear(tank0, tank1, (tank0 + tank1) / 2.0, people0, people1, (people0 + people1) / 2.0,
                     q11, q12, q21, q22)
            == (q11 + q12 + q21 + q22) / 4.0
  {
    HalfWeights(tank0, tank1);
    HalfWeights(people0, people1);
  }

  lemma HalfWeights(x0: real, x1: real)
    requires x0 < x1
    ensures (x1 - (x0 + x1) / 2.0) / (x1 - x0) == 0.5
    ensures ((x0 + x1) / 2.0 - x0) / (x1 - x0) == 0.5
  {
    assert x1 - (x0 + x1) / 2.0 == (x1 - x0) / 2.0;
    assert (x0 + x1) / 2.0 - x0 == (x1 - x0) / 2.0;
  }
}
