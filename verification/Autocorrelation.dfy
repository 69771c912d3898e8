/** Lag-one autocorrelation and the inequality that keeps it between -1 and 1. */
module Autocorrelation {
  import opened Sums
  import opened LinearAlgebra

  function Sum(v: Vector): real {
    if v == [] then 0.0 else Sum(v[..|v| - 1]) + v[|v| - 1]
  }

  function Mean(v: Vector): real
    requires v != []
  {
    Sum(v) / |v| as real
  }

  function Centered(v: Vector): (c: Vector)
    requires v != []
    ensures |c| == |v|
  {
    seq(|v|, k requires 0 <= k < |v| => v[k] - Mean(v))
  }

  predicate Constant(v: Vector) {
    forall k :: 0 < k < |v| ==> v[k] == v[0]
  }

  function Lag1Autocorrelation(sqrt: real -> real, values: Vector): Option<real> {
    if |values| < 2 then None
    else
      var left, right := Centered(values[..|values| - 1]), Centered(values[1..]);
      var leftNorm, rightNorm := sqrt(Dot(left, left, |left|)), sqrt(Dot(right, right, |right|));
      if leftNorm <= 0.0 || rightNorm <= 0.0 then Some(if Constant(values) then 1.0 else 0.0)
      else Some(Dot(left, right, |left|) / Scale(leftNorm, rightNorm))
  }

  function Scale(x: real, y: real): (product: real)
    requires x > 0.0 && y > 0.0
    ensures product > 0.0
  {
    TimesSameSign(x, y);
    Times(x, y)
  }

  lemma RootIsMonotone(b: real, n: real)
    requires n > 0.0 && Times(b, b) <= Times(n, n)
    ensures b <= n
  {
    assert Times(b - n, b + n) == Times(b, b) - Times(n, n);
    if b > n {
      TimesSameSign(b - n, b + n);
    }
  }

  lemma QuotientBelowOne(b: real, n: real)
    requires n > 0.0 && b <= n
    ensures b / n <= 1.0
  {
    assert Times(b / n, n) == b;
    assert Times(b / n - 1.0, n) == Times(b / n, n) - n;
    if b / n > 1.0 {
      TimesSameSign(b / n - 1.0, n);
    }
  }

  /** A square no larger than another's bounds the quotient of the roots. */
  lemma QuotientOfRoots(b: real, n: real)
    requires n > 0.0 && Times(b, b) <= Times(n, n)
    ensures -1.0 <= b / n <= 1.0
  {
    assert Times(-b, -b) == Times(b, b);
    RootIsMonotone(b, n);
    RootIsMonotone(-b, n);
    QuotientBelowOne(b, n);
    QuotientBelowOne(-b, n);
    assert (-b) / n == -(b / n);
  }

  lemma ProductOfSquares(x: real, y: real)
    ensures Times(Times(x, x), Times(y, y)) == Times(Times(x, y), Times(x, y))
  {
  }

  lemma LagFitsNorms(sqrt: real -> real, left: Vector, right: Vector)
    requires SquareRoot(sqrt) && |left| == |right|
    requires sqrt(Dot(left, left, |left|)) > 0.0 && sqrt(Dot(right, right, |right|)) > 0.0
    ensures var norms := Scale(sqrt(Dot(left, left, |left|)), sqrt(Dot(right, right, |right|)));
            -1.0 <= Dot(left, right, |left|) / norms <= 1.0
  {
    hide Dot;
    DotSelfPositive(left, |left|);
    DotSelfPositive(right, |right|);
    var x, y := sqrt(Dot(left, left, |left|)), sqrt(Dot(right, right, |right|));
    CauchySchwarz(left, right, |left|);
    ProductOfSquares(x, y);
    QuotientOfRoots(Dot(left, right, |left|), Scale(x, y));
  }

  /** The autocorrelation of any series of two or more values lies between -1 and 1. */
  lemma AutocorrelationInRange(sqrt: real -> real, values: Vector)
    requires SquareRoot(sqrt)
    ensures Lag1Autocorrelation(sqrt, values).Some? <==> |values| >= 2
    ensures Lag1Autocorrelation(sqrt, values).Some? ==> -1.0 <= Lag1Autocorrelation(sqrt, values).value <= 1.0
  {
    hide Dot, Centered, Scale, Constant;
    if |values| >= 2 {
      var left, right := Centered(values[..|values| - 1]), Centered(values[1..]);
      if sqrt(Dot(left, left, |left|)) > 0.0 && sqrt(Dot(right, right, |right|)) > 0.0 {
        LagFitsNorms(sqrt, left, right);
      }
    }
  }

  // ---------- Perfect correlation ----------

  /** `v` is the image of `u` under an affine map, value by value. */
  ghost predicate AffineImage(v: Vector, u: Vector, a: real, b: real) {
    |v| == |u| && forall k :: 0 <= k < |u| ==> v[k] == Times(a, u[k]) + b
  }

  lemma {:induction false} SumAffine(v: Vector, u: Vector, a: real, b: real)
    requires AffineImage(v, u, a, b)
    ensures Sum(v) == Times(a, Sum(u)) + Times(|u| as real, b)
  {
    if u == [] {
      assert Times(a, 0.0) == 0.0 && Times(0.0, b) == 0.0;
    } else {
      var rest, last := u[..|u| - 1], u[|u| - 1];
      SumAffine(v[..|v| - 1], rest, a, b);
      TimesAdds(a, Sum(rest), last);
      assert Times(|u| as real, b) == Times((|u| - 1) as real, b) + b;
    }
  }

  lemma AffineQuotient(a: real, sum: real, b: real, n: real)
    requires n > 0.0
    ensures (Times(a, sum) + Times(n, b)) / n == Times(a, sum / n) + b
  {
    var mean := sum / n;
    assert Times(mean, n) == sum;
    assert Times(a, Times(mean, n)) + Times(n, b) == Times(Times(a, mean) + b, n);
    assert Times(Times(a, mean) + b, n) / n == Times(a, mean) + b;
  }

  lemma CenteredScales(v: Vector, u: Vector, a: real, b: real, k: nat)
    requires AffineImage(v, u, a, b) && k < |u|
    ensures Centered(v)[k] == Times(a, Centered(u)[k])
  {
    SumAffine(v, u, a, b);
    AffineQuotient(a, Sum(u), b, |u| as real);
    assert Mean(v) == Times(a, Mean(u)) + b;
    hide Mean;
    TimesAdds(a, u[k], -Mean(u));
    assert Times(a, -Mean(u)) == -Times(a, Mean(u));
    assert Centered(u)[k] == u[k] + -Mean(u);
    hide Times;
  }

  /** The norm and the product with a scaled copy. */
  lemma ScaledDots(v: Vector, u: Vector, a: real)
    requires |v| == |u| && forall k :: 0 <= k < |u| ==> v[k] == Times(a, u[k])
    ensures Dot(u, v, |u|) == Times(a, Dot(u, u, |u|))
    ensures Dot(v, v, |u|) == Times(Times(a, a), Dot(u, u, |u|))
  {
    var n := |u|;
    forall k | 0 <= k < n
      ensures v[k] == Times(a, u[k]) + Times(0.0, u[k])
    {
    }
    DotCombination(v, a, u, 0.0, u, u, n);
    DotCombination(v, a, u, 0.0, u, v, n);
    DotSymmetric(u, v, n);
    assert Times(0.0, Dot(u, u, n)) == 0.0 && Times(0.0, Dot(u, v, n)) == 0.0;
    assert Times(a, Times(a, Dot(u, u, n))) == Times(Times(a, a), Dot(u, u, n));
  }

  /** The root of a scaled square is the root times the size of the scale. */
  lemma ScaledRoot(sqrt: real -> real, a: real, x: real)
    requires SquareRoot(sqrt) && x > 0.0 && a != 0.0
    ensures sqrt(x) > 0.0 && sqrt(Times(Times(a, a), x)) == Times(Abs(a), sqrt(x))
  {
    SquarePositive(a);
    TimesSameSign(Times(a, a), x);
    var root := sqrt(x);
    assert root != 0.0 by {
      assert Times(0.0, 0.0) == 0.0;
    }
    var scaled, candidate := sqrt(Times(Times(a, a), x)), Times(Abs(a), root);
    TimesSameSign(Abs(a), root);
    ProductOfSquares(Abs(a), root);
    assert Times(Abs(a), Abs(a)) == Times(a, a);
    RootIsMonotone(scaled, candidate);
    assert scaled != 0.0 by {
      assert Times(0.0, 0.0) == 0.0;
    }
    RootIsMonotone(candidate, scaled);
  }

  lemma PerfectQuotient(a: real, root: real)
    requires a != 0.0 && root > 0.0 && Times(root, Times(Abs(a), root)) > 0.0
    ensures Times(a, Times(root, root)) / Times(root, Times(Abs(a), root)) == if a > 0.0 then 1.0 else -1.0
  {
    var d := Times(root, Times(Abs(a), root));
    assert Times(a, Times(root, root)) == if a > 0.0 then d else -d;
    assert d / d == 1.0 && (-d) / d == -1.0;
  }

  /** A vector whose centred values all vanish is constant. */
  lemma CenteredVanishes(u: Vector)
    requires u != [] && Dot(Centered(u), Centered(u), |u|) == 0.0
    ensures Constant(u)
  {
    hide Dot, Mean;
    var centered, mean := Centered(u), Mean(u);
    DotSelfPositive(centered, |u|);
    forall k | 0 <= k < |u|
      ensures u[k] == mean
    {
      assert centered[k] == u[k] - mean;
    }
  }

  /**
   * Shifted against itself, such a series is an affine image of itself, and not constant even without its last
   * value.
   */
  lemma AffineSuccession(values: Vector, a: real, b: real)
    requires |values| >= 3 && !Constant(values)
    requires forall k :: 0 <= k < |values| - 1 ==> values[k + 1] == Times(a, values[k]) + b
    ensures AffineImage(values[1..], values[..|values| - 1], a, b)
    ensures !Constant(values[..|values| - 1])
  {
    var left := values[..|values| - 1];
    if Constant(left) {
      var n := |values|;
      assert left[n - 2] == values[n - 2] && left[0] == values[0] && left[1] == values[1];
      assert values[n - 2] == values[0];
      assert values[n - 2 + 1] == values[0 + 1];
      forall k | 0 < k < n
        ensures values[k] == values[0]
      {
        assert k < n - 1 ==> left[k] == values[k];
      }
    }
  }

  /**
   * When each value is an affine function of the one before, the autocorrelation is perfect: one for a rising map,
   * minus one for a falling one.
   */
  lemma AffineSeriesIsPerfect(sqrt: real -> real, values: Vector, a: real, b: real)
    requires SquareRoot(sqrt) && |values| >= 3 && !Constant(values) && a != 0.0
    requires forall k :: 0 <= k < |values| - 1 ==> values[k + 1] == Times(a, values[k]) + b
    ensures Lag1Autocorrelation(sqrt, values) == Some(if a > 0.0 then 1.0 else -1.0)
  {
    AffineSuccession(values, a, b);
    hide Dot, Centered, Constant, AffineImage;
    var u, v := values[..|values| - 1], values[1..];
    var left, right := Centered(u), Centered(v);
    forall k | 0 <= k < |left|
      ensures right[k] == Times(a, left[k])
    {
      CenteredScales(v, u, a, b, k);
    }
    ScaledDots(right, left, a);
    var x := Dot(left, left, |left|);
    DotSelfPositive(left, |left|);
    if x == 0.0 {
      CenteredVanishes(u);
    }
    ScaledRoot(sqrt, a, x);
    TimesSameSign(Abs(a), sqrt(x));
    PerfectQuotient(a, sqrt(x)) by {
      TimesSameSign(sqrt(x), Times(Abs(a), sqrt(x)));
    }
  }
}
