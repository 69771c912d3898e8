/**
 What the numeric evidence says of the series itself: the shares counted in units of the interquartile range, and what a
 change of scale and origin does to them.
 */
module EvidenceLaws {
  import opened Sums
  import opened LinearAlgebra
  import opened StepInputs
  import opened RunExtraction
  import opened Autocorrelation
  import opened Scores

  // ---------- Shares are counts ----------

  function Picks(test: nat -> bool, n: nat): set<nat> {
    set k: nat | k < n && test(k)
  }

  lemma PicksNext(test: nat -> bool, n: nat)
    ensures Picks(test, n + 1) == if test(n) then Picks(test, n) + {n} else Picks(test, n)
    ensures n !in Picks(test, n)
  {
  }

  lemma {:induction false} CountIsCardinality(test: nat -> bool, n: nat)
    ensures CountAt(test, n) == |Picks(test, n)|
  {
    if n == 0 {
      assert Picks(test, 0) == {};
    } else {
      CountIsCardinality(test, n - 1);
      PicksNext(test, n - 1);
      hide Picks;
    }
  }

  /** The share, times the number of positions, is the number of positions picked. */
  lemma ShareIsCount(test: nat -> bool, n: nat, picked: set<nat>)
    requires n > 0 && forall k: nat :: k in picked <==> k < n && test(k)
    ensures Times(Share(test, n), n as real) == |picked| as real
  {
    CountIsCardinality(test, n);
    assert picked == Picks(test, n);
    hide CountAt;
  }

  // ---------- Counting on the series ----------

  /** The interquartile range, or a millionth if that is more. */
  function Range(q: Quartiles): (w: real)
    ensures w > 0.0
  {
    if q.q75 - q.q25 > 0.000_001 then q.q75 - q.q25 else 0.000_001
  }

  lemma RangeIsMax(q: Quartiles)
    ensures Range(q) == Max(q.q75 - q.q25, SMALLEST)
  {
  }

  function Deviation(series: Vector, q: Quartiles, k: nat): real
    requires k < |series|
  {
    Abs(series[k] - q.q50)
  }

  lemma QuotientMagnitude(x: real, w: real, c: real)
    requires w > 0.0
    ensures Abs(x / w) > c <==> Abs(x) > Times(c, w)
    ensures Abs(x / w) >= c <==> Abs(x) >= Times(c, w)
    ensures x / w > c <==> x > Times(c, w)
    ensures x / w < c <==> x < Times(c, w)
  {
    var y := x / w;
    assert Times(y, w) == x;
    OrderByWidth(y, c, w);
    OrderByWidth(-y, c, w);
    assert Times(-y, w) == -Times(y, w);
    if x < 0.0 {
      OrderByWidth(y, 0.0, w);
    } else {
      OrderByWidth(y, 0.0, w);
    }
  }

  lemma OrderByWidth(y: real, c: real, w: real)
    requires w > 0.0
    ensures y > c <==> Times(y, w) > Times(c, w)
    ensures y < c <==> Times(y, w) < Times(c, w)
  {
    assert Times(y, w) - Times(c, w) == Times(y - c, w);
    if y > c {
      TimesSameSign(y - c, w);
    } else if y < c {
      TimesSameSign(c - y, w);
      assert Times(c - y, w) == -Times(y - c, w);
    }
  }

  lemma ScaledMagnitude(series: Vector, q: Quartiles, k: nat, c: real)
    requires k < |series|
    ensures Abs(Scaled(series, q)[k]) > c <==> Deviation(series, q, k) > Times(c, Range(q))
    ensures Abs(Scaled(series, q)[k]) >= c <==> Deviation(series, q, k) >= Times(c, Range(q))
  {
    RangeIsMax(q);
    assert Scaled(series, q)[k] == (series[k] - q.q50) / Range(q);
    hide Range, Scaled, Times;
    QuotientMagnitude(series[k] - q.q50, Range(q), c);
  }

  lemma ScaledStep(series: Vector, q: Quartiles, k: nat, c: real)
    requires k < |series| - 1
    ensures var step := Steps(Scaled(series, q))[k];
            && (step > c <==> StepAt(series, k) > Times(c, Range(q)))
            && (step < c <==> StepAt(series, k) < Times(c, Range(q)))
  {
    RangeIsMax(q);
    var w, x, y := Range(q), series[k + 1] - q.q50, series[k] - q.q50;
    var scaled := Scaled(series, q);
    assert scaled[k + 1] == x / w && scaled[k] == y / w;
    assert Steps(scaled)[k] == scaled[k + 1] - scaled[k];
    hide Range, Scaled, Steps, Times;
    QuotientDifference(x, y, w);
    QuotientMagnitude(x - y, w, c);
  }

  lemma QuotientDifference(x: real, y: real, w: real)
    requires w > 0.0
    ensures x / w - y / w == (x - y) / w
  {
  }

  /** The samples further from the median than `c` ranges. */
  function Far(series: Vector, q: Quartiles, c: real): set<nat> {
    set k: nat | k < |series| && Deviation(series, q, k) > Times(c, Range(q))
  }

  function Near(series: Vector, q: Quartiles, c: real): set<nat> {
    set k: nat | k < |series| && Deviation(series, q, k) <= Times(c, Range(q))
  }

  function AtOrBeyond(series: Vector, q: Quartiles, c: real): set<nat> {
    set k: nat | k < |series| && Deviation(series, q, k) >= Times(c, Range(q))
  }

  function StepAt(series: Vector, k: nat): real
    requires k < |series| - 1
  {
    series[k + 1] - series[k]
  }

  function Rises(series: Vector): set<nat> {
    set k: nat | k < |series| - 1 && StepAt(series, k) > 0.0
  }

  function Falls(series: Vector): set<nat> {
    set k: nat | k < |series| - 1 && StepAt(series, k) < 0.0
  }

  /** The step before this one, if there is one, rises. */
  predicate FollowsRise(series: Vector, k: nat) {
    k > 0 && k - 1 in Rises(series)
  }

  /** The steps whose rising differs from that of the step before; the first one differs if it rises. */
  function Turns(series: Vector): set<nat> {
    set k: nat | k < |series| - 1 && (k in Rises(series)) != FollowsRise(series, k)
  }

  predicate FollowsFar(series: Vector, q: Quartiles, k: nat) {
    k > 0 && k - 1 in Far(series, q, 1.0)
  }

  /** The samples near the median that follow one far from it. */
  function Back(series: Vector, q: Quartiles): set<nat> {
    set k: nat | k < |series| && FollowsFar(series, q, k) && k in Near(series, q, 1.0)
  }

  /**
   * The steps of more than one and a half ranges against the more frequent direction, which is rising when both are as
   * frequent.
   */
  function Resets(series: Vector, q: Quartiles): set<nat> {
    if |Rises(series)| >= |Falls(series)|
    then set k: nat | k < |series| - 1 && StepAt(series, k) < -Times(1.5, Range(q))
    else set k: nat | k < |series| - 1 && StepAt(series, k) > Times(1.5, Range(q))
  }

  lemma LevelShares(series: Vector, q: Quartiles)
    requires |series| >= 2
    ensures var scaled, n := Scaled(series, q), |series|;
            && Times(Share(Beyond(scaled, 1.0), n), n as real) == |Far(series, q, 1.0)| as real
            && Times(Share(UpTo(scaled, 1.0), n), n as real) == |Near(series, q, 1.0)| as real
            && Times(Share(UpTo(scaled, 2.5), n), n as real) == |Near(series, q, 2.5)| as real
            && Times(Share(AtLeast(scaled, 2.0), n), n as real) == |AtOrBeyond(series, q, 2.0)| as real
            && Times(Share(Returns(scaled), n), n as real) == |Back(series, q)| as real
  {
    var scaled, n := Scaled(series, q), |series|;
    forall k: nat, c | k < n
      ensures Abs(scaled[k]) > c <==> Deviation(series, q, k) > Times(c, Range(q))
      ensures Abs(scaled[k]) >= c <==> Deviation(series, q, k) >= Times(c, Range(q))
    {
      ScaledMagnitude(series, q, k, c);
    }
    hide Scaled, Deviation, Range, Times, Share, Abs;
    ShareIsCount(Beyond(scaled, 1.0), n, Far(series, q, 1.0));
    ShareIsCount(UpTo(scaled, 1.0), n, Near(series, q, 1.0));
    ShareIsCount(UpTo(scaled, 2.5), n, Near(series, q, 2.5));
    ShareIsCount(AtLeast(scaled, 2.0), n, AtOrBeyond(series, q, 2.0));
    ShareIsCount(Returns(scaled), n, Back(series, q));
  }

  lemma StepShares(series: Vector, q: Quartiles)
    requires |series| >= 2
    ensures var steps, m := Steps(Scaled(series, q)), |series| - 1;
            && Times(Share(Rising(steps), m), m as real) == |Rises(series)| as real
            && Times(Share(Falling(steps), m), m as real) == |Falls(series)| as real
            && Times(Share(Flips(steps), m), m as real) == |Turns(series)| as real
  {
    var steps, m := Steps(Scaled(series, q)), |series| - 1;
    forall k: nat | k < m
      ensures Rising(steps)(k) <==> k in Rises(series)
      ensures Falling(steps)(k) <==> k in Falls(series)
    {
      ScaledStep(series, q, k, 0.0);
      NothingWide(Range(q));
    }
    hide Steps, Scaled, Times, Share, Rising, Falling, Rises, Falls;
    RisesWithin(series);
    ShareIsCount(Rising(steps), m, Rises(series));
    ShareIsCount(Falling(steps), m, Falls(series));
    ShareIsCount(Flips(steps), m, Turns(series));
  }

  lemma RisesWithin(series: Vector)
    ensures forall k :: k in Rises(series) || k in Falls(series) ==> k < |series| - 1
  {
  }

  lemma NothingWide(w: real)
    ensures Times(0.0, w) == 0.0
  {
  }

  lemma SharesCompare(x: real, y: real, m: real, a: real, b: real)
    requires m > 0.0 && Times(x, m) == a && Times(y, m) == b
    ensures x >= y <==> a >= b
  {
    assert Times(x - y, m) == a - b;
    if x > y {
      TimesSameSign(x - y, m);
    } else if x < y {
      TimesSameSign(y - x, m);
      assert Times(y - x, m) == b - a;
    }
  }

  lemma DropShare(series: Vector, q: Quartiles)
    requires |series| >= 2
    ensures Times(ResetDropRate(Steps(Scaled(series, q))), (|series| - 1) as real) == |Resets(series, q)| as real
  {
    var steps, m := Steps(Scaled(series, q)), |series| - 1;
    StepShares(series, q);
    SharesCompare(Share(Rising(steps), m), Share(Falling(steps), m), m as real, |Rises(series)| as real,
      |Falls(series)| as real);
    var positive := Share(Rising(steps), m) >= Share(Falling(steps), m);
    assert ResetDropRate(steps) == Share(Drops(steps, positive), m);
    assert positive <==> |Rises(series)| >= |Falls(series)|;
    DropsAreResets(series, q, positive);
    hide Steps, Scaled, Times, Share, Rises, Falls, Resets, ResetDropRate, Drops;
    ShareIsCount(Drops(steps, positive), m, Resets(series, q));
  }

  lemma DropsAreResets(series: Vector, q: Quartiles, positive: bool)
    requires |series| >= 2 && (positive <==> |Rises(series)| >= |Falls(series)|)
    ensures forall k: nat :: k in Resets(series, q) <==>
              k < |series| - 1 && Drops(Steps(Scaled(series, q)), positive)(k)
  {
    var steps := Steps(Scaled(series, q));
    forall k: nat | k < |series| - 1
      ensures steps[k] < -1.5 <==> StepAt(series, k) < -Times(1.5, Range(q))
      ensures steps[k] > 1.5 <==> StepAt(series, k) > Times(1.5, Range(q))
    {
      ScaledStep(series, q, k, -1.5);
      ScaledStep(series, q, k, 1.5);
      assert Times(-1.5, Range(q)) == -Times(1.5, Range(q));
    }
    hide Steps, Scaled, Times, Rises, Falls, Range, StepAt;
  }

  /**
   * The shares of the evidence, each times its number of samples or of steps, are counts of samples and steps of the
   * series itself, measured from the median in interquartile ranges.
   */
  lemma SharesAreCounts(sqrt: real -> real, series: Vector, q: Quartiles, longest: nat)
    requires |series| >= 3
    ensures var r, n, m := RawRatios(sqrt, series, q, longest), |series| as real, (|series| - 1) as real;
            && Times(r.excursion, n) == |Far(series, q, 1.0)| as real
            && Times(r.center, n) == |Near(series, q, 1.0)| as real
            && Times(r.bound, n) == |Near(series, q, 2.5)| as real
            && Times(r.saturation, n) == |AtOrBeyond(series, q, 2.0)| as real
            && Times(r.excursionReturn, n) == |Back(series, q)| as real
            && Times(r.dominantSign, m) == Max(|Rises(series)| as real, |Falls(series)| as real)
            && Times(r.signFlips, m) == |Turns(series)| as real
            && Times(r.persistentRun, m) == longest as real
            && Times(ResetDropRate(Steps(Scaled(series, q))), m) == |Resets(series, q)| as real
  {
    LevelShares(series, q);
    StepShares(series, q);
    DropShare(series, q);
    var steps, m := Steps(Scaled(series, q)), (|series| - 1) as real;
    SharesCompare(Share(Rising(steps), |steps|), Share(Falling(steps), |steps|), m, |Rises(series)| as real,
      |Falls(series)| as real);
    QuotientTimesBack(longest as real, m);
    hide Share, NetChangeRatio, RawSmoothness, RawLag1Unit, Scaled, Steps, Times, Rises, Falls, Turns, Far, Near,
      AtOrBeyond, Back, Resets, ResetDropRate;
  }

  lemma QuotientTimesBack(x: real, d: real)
    requires d > 0.0
    ensures Times(x / d, d) == x
  {
  }

  // ---------- Scale and origin ----------

  /** The series and its quartiles in another unit and from another origin. */
  function Rescaled(series: Vector, a: real, b: real): (other: Vector)
    ensures |other| == |series|
  {
    seq(|series|, k requires 0 <= k < |series| => Times(a, series[k]) + b)
  }

  function RescaledQuartiles(q: Quartiles, a: real, b: real): Quartiles {
    Quartiles(Times(a, q.q25) + b, Times(a, q.q50) + b, Times(a, q.q75) + b)
  }

  lemma SameQuotient(a: real, b: real, x: real, m: real, low: real, high: real)
    requires a > 0.0 && high > low
    ensures Times(a, high) + b - (Times(a, low) + b) == Times(a, high - low) > 0.0
    ensures (Times(a, x) + b - (Times(a, m) + b)) / Times(a, high - low) == (x - m) / (high - low)
  {
    TimesSameSign(a, high - low);
    var y, w := x - m, high - low;
    assert Times(a, x) + b - (Times(a, m) + b) == Times(a, y);
    assert Times(a, y / w) * w == Times(a, y);
    assert Times(y / w, Times(a, w)) == Times(a, y);
    CancelQuotient(y / w, Times(a, w), Times(a, y));
  }

  lemma CancelQuotient(z: real, d: real, x: real)
    requires d > 0.0 && Times(z, d) == x
    ensures x / d == z
  {
  }

  /** With an interquartile range above the floor in both units, the scaled series is the same. */
  lemma ScaledIsFree(series: Vector, q: Quartiles, a: real, b: real)
    requires a > 0.0 && q.q75 - q.q25 >= 0.000_001 && Times(a, q.q75 - q.q25) >= 0.000_001
    ensures Scaled(Rescaled(series, a, b), RescaledQuartiles(q, a, b)) == Scaled(series, q)
  {
    var other, p := Rescaled(series, a, b), RescaledQuartiles(q, a, b);
    forall k | 0 <= k < |series|
      ensures Scaled(other, p)[k] == Scaled(series, q)[k]
    {
      SameQuotient(a, b, series[k], q.q50, q.q25, q.q75);
      assert Max(p.q75 - p.q25, SMALLEST) == Times(a, q.q75 - q.q25);
      assert other[k] == Times(a, series[k]) + b && Max(q.q75 - q.q25, SMALLEST) == q.q75 - q.q25;
      assert Scaled(other, p)[k] == (other[k] - p.q50) / Max(p.q75 - p.q25, SMALLEST);
    }
  }

  lemma {:induction false} TravelledScales(series: Vector, a: real, b: real, n: nat)
    requires a > 0.0 && n < |series|
    ensures Travelled(Rescaled(series, a, b), n) == Times(a, Travelled(series, n))
  {
    if n > 0 {
      TravelledScales(series, a, b, n - 1);
      ScaledDistance(a, b, series[n], series[n - 1]);
      TimesAdds(a, Travelled(series, n - 1), Abs(series[n] - series[n - 1]));
    } else {
      assert Times(a, 0.0) == 0.0;
    }
  }

  lemma ScaledDistance(a: real, b: real, x: real, y: real)
    requires a > 0.0
    ensures Abs(Times(a, x) + b - (Times(a, y) + b)) == Times(a, Abs(x - y))
  {
    assert Times(a, x) + b - (Times(a, y) + b) == Times(a, x - y);
    if x < y {
      TimesSameSign(a, y - x);
      assert Times(a, x - y) == -Times(a, y - x);
    } else {
      TimesNonNegative(a, x - y);
    }
  }

  /** A series that travels more than the floor in both units changes by the same part of its way. */
  lemma NetChangeIsFree(series: Vector, a: real, b: real)
    requires a > 0.0 && series != []
    requires Travelled(series, |series| - 1) >= 0.000_001 && Times(a, Travelled(series, |series| - 1)) >= 0.000_001
    ensures NetChangeRatio(Rescaled(series, a, b)) == NetChangeRatio(series)
  {
    var n := |series| - 1;
    TravelledScales(series, a, b, n);
    ScaledDistance(a, b, series[n], series[0]);
    var other := Rescaled(series, a, b);
    assert other[n] == Times(a, series[n]) + b && other[0] == Times(a, series[0]) + b;
    hide Travelled, Abs, Times, Rescaled;
    SamePart(a, Abs(series[n] - series[0]), Travelled(series, n));
  }

  lemma SamePart(a: real, x: real, d: real)
    requires d > 0.0 && Times(a, d) > 0.0
    ensures Times(a, x) / Times(a, d) == x / d
  {
    assert Times(x / d, d) == x;
    assert Times(x / d, Times(a, d)) == Times(a, Times(x / d, d));
    CancelQuotient(x / d, Times(a, d), Times(a, x));
  }

  lemma RescaledSlices(values: Vector, a: real, b: real)
    requires |values| >= 2
    ensures var other, n := Rescaled(values, a, b), |values| - 1;
            AffineImage(other[..n], values[..n], a, b) && AffineImage(other[1..], values[1..], a, b)
  {
  }

  /** Scaling both vectors scales their product by the square. */
  lemma ScaledProduct(u': Vector, v': Vector, u: Vector, v: Vector, a: real)
    requires |u'| == |v'| == |u| == |v|
    requires forall k :: 0 <= k < |u| ==> u'[k] == Times(a, u[k]) && v'[k] == Times(a, v[k])
    ensures Dot(u', v', |u|) == Times(Times(a, a), Dot(u, v, |u|))
  {
    var n := |u|;
    hide Dot;
    forall k | 0 <= k < n
      ensures u'[k] == Times(a, u[k]) + Times(0.0, u[k]) && v'[k] == Times(a, v[k]) + Times(0.0, v[k])
    {
    }
    DotCombination(u', a, u, 0.0, u, v', n);
    DotSymmetric(u, v', n);
    DotCombination(v', a, v, 0.0, v, u, n);
    DotSymmetric(v, u, n);
    SquareOut(a, Dot(u, v, n));
    NothingWide(Dot(u, v', n));
    NothingWide(Dot(v, u, n));
  }

  lemma SquareOut(a: real, x: real)
    ensures Times(a, Times(a, x)) == Times(Times(a, a), x)
  {
  }

  lemma RootOfScaled(sqrt: real -> real, a: real, x: real)
    requires SquareRoot(sqrt) && x >= 0.0 && a > 0.0
    ensures sqrt(Times(Times(a, a), x)) == Times(a, sqrt(x)) && sqrt(x) >= 0.0
  {
    if x > 0.0 {
      ScaledRoot(sqrt, a, x);
    } else {
      RootOfNothing(sqrt);
      assert Times(Times(a, a), 0.0) == 0.0 && Times(a, 0.0) == 0.0;
    }
  }

  lemma RootOfNothing(sqrt: real -> real)
    requires SquareRoot(sqrt)
    ensures sqrt(0.0) == 0.0
  {
    SquarePositive(sqrt(0.0));
  }

  lemma SameCorrelation(a: real, d: real, x: real, y: real)
    requires a > 0.0 && x > 0.0 && y > 0.0
    ensures Times(a, x) > 0.0 && Times(a, y) > 0.0
    ensures Times(Times(a, a), d) / Scale(Times(a, x), Times(a, y)) == d / Scale(x, y)
  {
    TimesSameSign(a, x);
    TimesSameSign(a, y);
    TimesSameSign(a, a);
    assert Times(Times(a, x), Times(a, y)) == Times(Times(a, a), Times(x, y));
    SamePart(Times(a, a), d, Scale(x, y));
  }

  lemma SameConstancy(values: Vector, a: real, b: real)
    requires a > 0.0
    ensures Constant(Rescaled(values, a, b)) <==> Constant(values)
  {
    forall k | 0 < k < |values|
      ensures Rescaled(values, a, b)[k] == Rescaled(values, a, b)[0] <==> values[k] == values[0]
    {
      ScaledDistance(a, b, values[k], values[0]);
      if values[k] != values[0] {
        TimesSameSign(a, Abs(values[k] - values[0]));
      }
    }
  }

  lemma CenteredSlices(values: Vector, a: real, b: real, k: nat)
    requires |values| >= 2 && k < |values| - 1
    ensures var other, n := Rescaled(values, a, b), |values| - 1;
            && Centered(other[..n])[k] == Times(a, Centered(values[..n])[k])
            && Centered(other[1..])[k] == Times(a, Centered(values[1..])[k])
  {
    hide AffineImage, Centered, Rescaled;
    var other, n := Rescaled(values, a, b), |values| - 1;
    RescaledSlices(values, a, b);
    CenteredScales(other[..n], values[..n], a, b, k);
    CenteredScales(other[1..], values[1..], a, b, k);
  }

  /** What scaling both centred vectors does to the norms and to the quotient. */
  lemma ScaledNorms(sqrt: real -> real, left': Vector, right': Vector, left: Vector, right: Vector, a: real)
    requires SquareRoot(sqrt) && a > 0.0 && |left'| == |right'| == |left| == |right|
    requires forall k :: 0 <= k < |left| ==> left'[k] == Times(a, left[k]) && right'[k] == Times(a, right[k])
    ensures var n := |left|;
            var x, y := sqrt(Dot(left, left, n)), sqrt(Dot(right, right, n));
            var x', y' := sqrt(Dot(left', left', n)), sqrt(Dot(right', right', n));
            && (x' <= 0.0 <==> x <= 0.0) && (y' <= 0.0 <==> y <= 0.0)
            && (x > 0.0 && y > 0.0 ==> Dot(left', right', n) / Scale(x', y') == Dot(left, right, n) / Scale(x, y))
  {
    var n := |left|;
    hide Dot, Times, Scale;
    ScaledProduct(left', left', left, left, a);
    ScaledProduct(right', right', right, right, a);
    ScaledProduct(left', right', left, right, a);
    DotSelfPositive(left, n);
    DotSelfPositive(right, n);
    var x, y := sqrt(Dot(left, left, n)), sqrt(Dot(right, right, n));
    RootOfScaled(sqrt, a, Dot(left, left, n));
    RootOfScaled(sqrt, a, Dot(right, right, n));
    SameRoots(a, x);
    SameRoots(a, y);
    if x > 0.0 && y > 0.0 {
      SameCorrelation(a, Dot(left, right, n), x, y);
    }
  }

  /** The autocorrelation does not depend on unit and origin. */
  lemma CorrelationIsFree(sqrt: real -> real, values: Vector, a: real, b: real)
    requires SquareRoot(sqrt) && a > 0.0
    ensures Lag1Autocorrelation(sqrt, Rescaled(values, a, b)) == Lag1Autocorrelation(sqrt, values)
  {
    hide Centered, Rescaled, Constant, Dot, Times, Scale;
    if |values| >= 2 {
      var other, n := Rescaled(values, a, b), |values| - 1;
      forall k | 0 <= k < n
        ensures Centered(other[..n])[k] == Times(a, Centered(values[..n])[k])
        ensures Centered(other[1..])[k] == Times(a, Centered(values[1..])[k])
      {
        CenteredSlices(values, a, b, k);
      }
      SameConstancy(values, a, b);
      ScaledNorms(sqrt, Centered(other[..n]), Centered(other[1..]), Centered(values[..n]), Centered(values[1..]), a);
    }
  }

  lemma SameRoots(a: real, x: real)
    requires a > 0.0 && x >= 0.0
    ensures Times(a, x) <= 0.0 <==> x <= 0.0
  {
    if x > 0.0 {
      TimesSameSign(a, x);
    } else {
      assert Times(a, 0.0) == 0.0;
    }
  }

  /**
   * In another unit and from another origin the evidence is the same, wherever the interquartile range and the way
   * travelled are above the floor in both units.
   */
  lemma EvidenceIsFree(sqrt: real -> real, series: Vector, q: Quartiles, longest: nat, a: real, b: real)
    requires SquareRoot(sqrt) && |series| >= 3 && a > 0.0
    requires q.q75 - q.q25 >= 0.000_001 && Times(a, q.q75 - q.q25) >= 0.000_001
    requires Travelled(series, |series| - 1) >= 0.000_001 && Times(a, Travelled(series, |series| - 1)) >= 0.000_001
    ensures var other, p := Rescaled(series, a, b), RescaledQuartiles(q, a, b);
            && RawRatios(sqrt, other, p, longest) == RawRatios(sqrt, series, q, longest)
            && Steps(Scaled(other, p)) == Steps(Scaled(series, q))
  {
    ScaledIsFree(series, q, a, b);
    NetChangeIsFree(series, a, b);
    CorrelationIsFree(sqrt, series, a, b);
    hide Scaled, Steps, NetChangeRatio, Lag1Autocorrelation, Share, RawSmoothness, Rescaled, RescaledQuartiles;
  }

  // ---------- A series that stands still ----------

  lemma {:induction false} CountAll(test: nat -> bool, n: nat)
    requires forall k: nat :: k < n ==> test(k)
    ensures CountAt(test, n) == n
  {
    if n > 0 {
      CountAll(test, n - 1);
    }
  }

  lemma AllNear(series: Vector, q: Quartiles, c: real)
    requires forall k :: 0 <= k < |series| ==> Deviation(series, q, k) <= Times(c, Range(q))
    ensures |Near(series, q, c)| == |series|
  {
    var test := (k: nat) => k < |series| && Deviation(series, q, k) <= Times(c, Range(q));
    CountAll(test, |series|);
    CountIsCardinality(test, |series|);
    hide Deviation, Times, Range;
    assert Near(series, q, c) == Picks(test, |series|);
  }

  lemma StillCounts(series: Vector, q: Quartiles)
    requires |series| >= 3 && Constant(series) && q.q50 == series[0]
    ensures Far(series, q, 1.0) == {} && AtOrBeyond(series, q, 2.0) == {} && Back(series, q) == {}
    ensures Rises(series) == {} && Falls(series) == {} && Turns(series) == {}
    ensures |Near(series, q, 1.0)| == |Near(series, q, 2.5)| == |series|
  {
    forall k | 0 <= k < |series|
      ensures Deviation(series, q, k) == 0.0
    {
      assert k > 0 ==> series[k] == series[0];
    }
    forall k | 0 <= k < |series| - 1
      ensures StepAt(series, k) == 0.0
    {
      assert series[k + 1] == series[0] && (k > 0 ==> series[k] == series[0]);
    }
    var w := Range(q);
    TimesSameSign(1.0, w);
    TimesSameSign(2.0, w);
    TimesSameSign(2.5, w);
    hide Deviation, Times, Range, Constant, StepAt;
    AllNear(series, q, 1.0);
    AllNear(series, q, 2.5);
  }

  lemma ConstantHasNoNorm(sqrt: real -> real, left: Vector)
    requires SquareRoot(sqrt) && left != [] && Constant(left)
    ensures sqrt(Dot(Centered(left), Centered(left), |left|)) == 0.0
  {
    var c := left[0];
    forall k | 0 <= k < |left|
      ensures Centered(left)[k] == 0.0
    {
      assert forall j :: 0 <= j < |left| ==> left[j] == c;
      assert AffineImage(left, left, 0.0, c) by {
        forall j | 0 <= j < |left|
          ensures left[j] == Times(0.0, left[j]) + c
        {
          NothingWide(left[j]);
        }
      }
      CenteredScales(left, left, 0.0, c, k);
      NothingWide(Centered(left)[k]);
    }
    hide Centered;
    DotZeroTail(Centered(left), Centered(left), 0, |left|);
    RootOfNothing(sqrt);
  }

  lemma StillCorrelation(sqrt: real -> real, series: Vector)
    requires SquareRoot(sqrt) && |series| >= 3 && Constant(series)
    ensures Lag1Autocorrelation(sqrt, series) == Some(1.0)
  {
    var left := series[..|series| - 1];
    assert Constant(left);
    ConstantHasNoNorm(sqrt, left);
    hide Centered, Constant, Dot;
  }

  /** A series that leaves its first value at the last step only, or at the first step for good, is uncorrelated. */
  lemma LoneChangeIsUncorrelated(sqrt: real -> real, series: Vector)
    requires SquareRoot(sqrt) && |series| >= 2 && !Constant(series)
    requires Constant(series[..|series| - 1]) || Constant(series[1..])
    ensures Lag1Autocorrelation(sqrt, series) == Some(0.0)
  {
    var left, right := series[..|series| - 1], series[1..];
    if Constant(left) {
      ConstantHasNoNorm(sqrt, left);
    } else {
      ConstantHasNoNorm(sqrt, right);
    }
    hide Centered, Constant, Dot;
  }

  lemma StillSmoothness(series: Vector, q: Quartiles)
    requires |series| >= 3 && Constant(series)
    ensures RawSmoothness(Scaled(series, q), Steps(Scaled(series, q))) == 1.0
  {
    var scaled := Scaled(series, q);
    var steps := Steps(scaled);
    forall k | 0 <= k < |steps|
      ensures steps[k] == 0.0
    {
      assert series[k + 1] == series[0] && (k > 0 ==> series[k] == series[0]);
    }
    DotZeroTail(steps, steps, 0, |steps|);
    assert MeanSquare(steps) == 0.0;
    var d := Max(MeanSquare(scaled), SMALLEST);
    hide MeanSquare, Scaled, Steps, Dot;
    assert d > 0.0 && 0.0 / d == 0.0;
  }

  lemma WholeOrNothing(x: real, n: real, c: real)
    requires n > 0.0 && Times(x, n) == c
    ensures c == 0.0 ==> x == 0.0
    ensures c == n ==> x == 1.0
  {
    CancelQuotient(x, n, c);
    assert 0.0 / n == 0.0 && n / n == 1.0;
  }

  lemma StillRatios(sqrt: real -> real, series: Vector, q: Quartiles)
    requires SquareRoot(sqrt) && |series| >= 3 && Constant(series) && q.q50 == series[0]
    ensures var r := RawRatios(sqrt, series, q, 0);
            && r.excursion == r.saturation == r.excursionReturn == r.dominantSign == r.signFlips == 0.0
            && r.persistentRun == 0.0 && r.center == r.bound == 1.0
  {
    StillCounts(series, q);
    SharesAreCounts(sqrt, series, q, 0);
    var r, n, m := RawRatios(sqrt, series, q, 0), |series| as real, (|series| - 1) as real;
    hide RawRatios, Times, Far, Near, AtOrBeyond, Back, Rises, Falls, Turns, Resets, Constant, ResetDropRate;
    WholeOrNothing(r.excursion, n, 0.0);
    WholeOrNothing(r.saturation, n, 0.0);
    WholeOrNothing(r.excursionReturn, n, 0.0);
    WholeOrNothing(r.dominantSign, m, 0.0);
    WholeOrNothing(r.signFlips, m, 0.0);
    WholeOrNothing(r.persistentRun, m, 0.0);
    WholeOrNothing(r.center, n, n);
    WholeOrNothing(r.bound, n, n);
  }

  /** The evidence of a constant series about its median: all at the centre, smooth, and nothing else. */
  lemma ConstantEvidence(sqrt: real -> real, series: Vector, q: Quartiles)
    requires SquareRoot(sqrt) && |series| >= 3 && Constant(series) && q.q50 == series[0]
    ensures var r := RawRatios(sqrt, series, q, 0);
            && r == Ratios(0.0, 0.0, 0.0, 0.0, 0.0, 1.0, 1.0, 0.0, 0.0, 1.0, 1.0)
            && Monotone(r) == 0.15 && Oscillation(r) == 0.45 && TrackingError(r) == 0.15
            && TrackingRecovery(r) == 0.0 && Lagged(r) == 0.60
  {
    hide *;
    StillRatios(sqrt, series, q);
    StillOthers(sqrt, series, q);
    StillScores(RawRatios(sqrt, series, q, 0));
  }

  lemma StillOthers(sqrt: real -> real, series: Vector, q: Quartiles)
    requires SquareRoot(sqrt) && |series| >= 3 && Constant(series)
    ensures var r := RawRatios(sqrt, series, q, 0); r.netChange == 0.0 && r.lag1Unit == r.smoothness == 1.0
  {
    StillCorrelation(sqrt, series);
    StillSmoothness(series, q);
    assert series[|series| - 1] == series[0];
    NothingOver(Max(Travelled(series, |series| - 1), SMALLEST));
    hide Share, Lag1Autocorrelation, RawSmoothness, Scaled, Steps, Travelled, Constant;
  }

  lemma NothingOver(d: real)
    requires d != 0.0
    ensures 0.0 / d == 0.0
  {
  }

  // ---------- A series that only rises, or only falls ----------

  lemma OneWayCounts(series: Vector, rising: bool)
    requires |series| >= 3
    requires forall k: nat :: k < |series| - 1 ==> if rising then StepAt(series, k) > 0.0 else StepAt(series, k) < 0.0
    ensures |Rises(series)| == if rising then |series| - 1 else 0
    ensures |Falls(series)| == if rising then 0 else |series| - 1
    ensures |Turns(series)| == if rising then 1 else 0
  {
    var m := |series| - 1;
    var test := (k: nat) => k < m;
    CountAll(test, m);
    CountIsCardinality(test, m);
    hide StepAt;
    var all := Picks(test, m);
    assert Rises(series) == if rising then all else {};
    assert Falls(series) == if rising then {} else all;
    assert Turns(series) == if rising then {0} else {};
  }

  lemma OneWayNever(series: Vector, rising: bool)
    requires |series| >= 3
    requires forall k: nat :: k < |series| - 1 ==> if rising then StepAt(series, k) > 0.0 else StepAt(series, k) < 0.0
    ensures if rising then NeverFalls(series, |series| - 1) else NeverRises(series, |series| - 1)
  {
    forall k | 0 < k <= |series| - 1
      ensures if rising then series[k - 1] <= series[k] else series[k] <= series[k - 1]
    {
      assert StepAt(series, k - 1) == series[k] - series[k - 1];
    }
  }

  /**
   * A series that rises at every step counts its first step as a flip, one that falls at every step has none: the
   * first falls short of a full accumulation score by that, the second does not.
   */
  lemma OneWayEvidence(sqrt: real -> real, series: Vector, q: Quartiles, longest: nat, rising: bool)
    requires |series| >= 3 && Travelled(series, |series| - 1) >= 0.000_001
    requires forall k: nat :: k < |series| - 1 ==> if rising then StepAt(series, k) > 0.0 else StepAt(series, k) < 0.0
    ensures var r := RawRatios(sqrt, series, q, longest);
            && r.dominantSign == 1.0 && r.netChange == 1.0
            && Times(r.signFlips, (|series| - 1) as real) == (if rising then 1.0 else 0.0)
            && Monotone(r) == 1.0 - 0.15 * r.signFlips
            && Oscillation(r) == 0.55 * r.signFlips + 0.25 * r.bound
  {
    OneWayCounts(series, rising);
    OneWayNever(series, rising);
    SharesAreCounts(sqrt, series, q, longest);
    NetChangeIsOneIff(series);
    var r, m := RawRatios(sqrt, series, q, longest), (|series| - 1) as real;
    assert r.netChange == NetChangeRatio(series);
    hide RawRatios, Times, Rises, Falls, Turns, Travelled, NeverFalls, NeverRises, NetChangeRatio, StepAt;
    WholeOrNothing(r.dominantSign, m, m);
  }

  // ---------- Calm, wild and returning series ----------

  lemma NearIsAll(series: Vector, q: Quartiles, c: real)
    requires Far(series, q, c) == {}
    ensures |Near(series, q, c)| == |series|
  {
    forall k | 0 <= k < |series|
      ensures Deviation(series, q, k) <= Times(c, Range(q))
    {
      assert k !in Far(series, q, c);
    }
    AllNear(series, q, c);
  }

  lemma WiderIsNear(series: Vector, q: Quartiles)
    requires Far(series, q, 1.0) == {}
    ensures Far(series, q, 2.5) == {} && AtOrBeyond(series, q, 2.0) == {}
  {
    var w := Range(q);
    assert Times(1.0, w) == w && Times(2.0, w) == 2.0 * w && Times(2.5, w) == 2.5 * w;
    hide Times, Range, Deviation;
    forall k | 0 <= k < |series|
      ensures Deviation(series, q, k) <= w
    {
      assert k !in Far(series, q, 1.0);
    }
  }

  /** A series that stays within a range of its median has error and lag by its longest run only, and no recovery. */
  lemma CalmEvidence(sqrt: real -> real, series: Vector, q: Quartiles, longest: nat)
    requires |series| >= 3 && Far(series, q, 1.0) == {}
    ensures var r := RawRatios(sqrt, series, q, longest);
            && r.excursion == 0.0 && r.center == 1.0 && r.bound == 1.0 && r.saturation == 0.0
            && TrackingError(r) == 0.15 + 0.20 * r.persistentRun && TrackingRecovery(r) == 0.0
            && Lagged(r) == 0.35 * r.lag1Unit + 0.25 * r.smoothness + 0.10 * r.persistentRun
  {
    SharesAreCounts(sqrt, series, q, longest);
    WiderIsNear(series, q);
    NearIsAll(series, q, 1.0);
    NearIsAll(series, q, 2.5);
    NoneBack(series, q);
    var r, n := RawRatios(sqrt, series, q, longest), |series| as real;
    hide RawRatios, Times, Far, Near, AtOrBeyond, Back, Rises, Falls, Turns, Resets, ResetDropRate;
    WholeOrNothing(r.excursion, n, 0.0);
    WholeOrNothing(r.saturation, n, 0.0);
    WholeOrNothing(r.excursionReturn, n, 0.0);
    WholeOrNothing(r.center, n, n);
    WholeOrNothing(r.bound, n, n);
    CalmError(r);
    CalmLag(r);
    hide TrackingError, Lagged;
  }

  lemma NoneBack(series: Vector, q: Quartiles)
    requires Far(series, q, 1.0) == {} || Near(series, q, 1.0) == {}
    ensures Back(series, q) == {}
  {
    hide Far, Near;
  }

  lemma CalmError(r: Ratios)
    requires r.excursion == 0.0 && r.center == 1.0 && r.bound == 1.0 && r.saturation == 0.0
    ensures TrackingError(r) == 0.15 + 0.20 * r.persistentRun
  {
  }

  lemma CalmLag(r: Ratios)
    requires r.excursion == 0.0 && r.center == 1.0
    ensures Lagged(r) == 0.35 * r.lag1Unit + 0.25 * r.smoothness + 0.10 * r.persistentRun
  {
  }

  lemma FarIsAll(series: Vector, q: Quartiles)
    requires Near(series, q, 1.0) == {}
    ensures |Far(series, q, 1.0)| == |series|
  {
    var test := (k: nat) => k < |series| && Deviation(series, q, k) > Times(1.0, Range(q));
    forall k: nat | k < |series|
      ensures test(k)
    {
      assert k !in Near(series, q, 1.0);
    }
    CountAll(test, |series|);
    CountIsCardinality(test, |series|);
    hide Deviation, Times, Range;
    assert Far(series, q, 1.0) == Picks(test, |series|);
  }

  /** A series that is never within a range of its median has the full shares of excursions, and no return. */
  lemma WildEvidence(sqrt: real -> real, series: Vector, q: Quartiles, longest: nat)
    requires |series| >= 3 && Near(series, q, 1.0) == {}
    ensures var r := RawRatios(sqrt, series, q, longest);
            && r.excursion == 1.0 && r.center == 0.0 && r.excursionReturn == 0.0
            && TrackingError(r) == 0.70 + 0.10 * r.bound - 0.05 * r.saturation + 0.20 * r.persistentRun
            && TrackingRecovery(r) == 0.35
            && Lagged(r) == 0.30 + 0.35 * r.lag1Unit + 0.25 * r.smoothness + 0.10 * r.persistentRun
  {
    SharesAreCounts(sqrt, series, q, longest);
    FarIsAll(series, q);
    NoneBack(series, q);
    var r, n := RawRatios(sqrt, series, q, longest), |series| as real;
    hide RawRatios, Times, Far, Near, AtOrBeyond, Back, Rises, Falls, Turns, Resets, ResetDropRate;
    WholeOrNothing(r.excursion, n, n);
    WholeOrNothing(r.excursionReturn, n, 0.0);
    WholeOrNothing(r.center, n, 0.0);
    WildError(r);
    WildLag(r);
    hide TrackingError, Lagged;
  }

  lemma WildError(r: Ratios)
    requires r.excursion == 1.0 && r.center == 0.0
    ensures TrackingError(r) == 0.70 + 0.10 * r.bound - 0.05 * r.saturation + 0.20 * r.persistentRun
  {
  }

  lemma WildLag(r: Ratios)
    requires r.excursion == 1.0 && r.center == 0.0
    ensures Lagged(r) == 0.30 + 0.35 * r.lag1Unit + 0.25 * r.smoothness + 0.10 * r.persistentRun
  {
  }

  /** A series that ends where it began has no net change: accumulation is left to its direction and flips. */
  lemma ReturningEvidence(sqrt: real -> real, series: Vector, q: Quartiles, longest: nat)
    requires |series| >= 3 && series[|series| - 1] == series[0]
    ensures var r := RawRatios(sqrt, series, q, longest);
            && r.netChange == 0.0
            && Monotone(r) == 0.15 + 0.5 * r.dominantSign - 0.15 * r.signFlips
            && Oscillation(r) == 0.20 + 0.55 * r.signFlips + 0.25 * r.bound
  {
    NothingOver(Max(Travelled(series, |series| - 1), SMALLEST));
    hide Share, Lag1Autocorrelation, RawSmoothness, Scaled, Steps, Travelled;
  }

  // ---------- Smoothness ----------

  /** The deviations from the median. */
  function Deviations(series: Vector, q: Quartiles): (d: Vector)
    ensures |d| == |series|
  {
    seq(|series|, k requires 0 <= k < |series| => series[k] - q.q50)
  }

  lemma ScaledIsMultiple(series: Vector, q: Quartiles)
    requires |series| >= 2
    ensures var z, scaled := 1.0 / Range(q), Scaled(series, q);
            && (forall k :: 0 <= k < |scaled| ==> scaled[k] == Times(z, Deviations(series, q)[k]))
            && forall k :: 0 <= k < |series| - 1 ==> Steps(scaled)[k] == Times(z, Steps(series)[k])
  {
    RangeIsMax(q);
    var z, w, scaled := 1.0 / Range(q), Range(q), Scaled(series, q);
    hide Range;
    forall k | 0 <= k < |scaled|
      ensures scaled[k] == Times(z, Deviations(series, q)[k])
    {
      QuotientIsTimes(series[k] - q.q50, w);
    }
    forall k | 0 <= k < |series| - 1
      ensures Steps(scaled)[k] == Times(z, Steps(series)[k])
    {
      TimesAdds(z, Deviations(series, q)[k + 1], -Deviations(series, q)[k]);
      assert Times(z, -Deviations(series, q)[k]) == -Times(z, Deviations(series, q)[k]);
    }
  }

  lemma QuotientIsTimes(x: real, w: real)
    requires w > 0.0
    ensures x / w == Times(1.0 / w, x)
  {
  }

  lemma EnergyQuotient(z: real, d: real, m: real, e: real, n: real)
    requires z > 0.0 && m > 0.0 && n > 0.0 && e > 0.0
    ensures Times(Times(z, z), e) / n > 0.0
    ensures Times((Times(Times(z, z), d) / m) / (Times(Times(z, z), e) / n), Times(e, m)) == Times(d, n)
  {
    TimesSameSign(z, z);
    var s := Times(z, z);
    TimesSameSign(s, e);
    TimesSameSign(e, m);
    var x, y := Times(s, d) / m, Times(s, e) / n;
    assert Times(x, m) == Times(s, d) && Times(y, n) == Times(s, e);
    QuotientPositive(Times(s, e), n);
    var g := x / y;
    assert Times(g, y) == x;
    Rearranged(g, y, x, s, d, e, m, n);
  }

  lemma QuotientPositive(x: real, n: real)
    requires x > 0.0 && n > 0.0
    ensures x / n > 0.0
  {
    assert Times(x / n, n) == x;
  }

  lemma Rearranged(g: real, y: real, x: real, s: real, d: real, e: real, m: real, n: real)
    requires s > 0.0 && Times(g, y) == x && Times(x, m) == Times(s, d) && Times(y, n) == Times(s, e)
    ensures Times(g, Times(e, m)) == Times(d, n)
  {
    assert Times(s, Times(g, Times(e, m))) == Times(Times(g, m), Times(s, e));
    assert Times(Times(g, m), Times(y, n)) == Times(Times(Times(g, y), m), n);
    assert Times(Times(s, d), n) == Times(s, Times(d, n));
    CancelFactor(s, Times(g, Times(e, m)), Times(d, n));
  }

  lemma CancelFactor(s: real, x: real, y: real)
    requires s > 0.0 && Times(s, x) == Times(s, y)
    ensures x == y
  {
    assert Times(s, x) / s == x && Times(s, y) / s == y;
  }

  /** The quotient of two scaled mean squares, and when it exceeds one. */
  lemma QuotientOfMeans(z: real, d: real, m: real, e: real, n: real, x: real, y: real)
    requires z > 0.0 && m > 0.0 && n > 0.0 && e >= 0.0 && y > 0.0
    requires x == Times(Times(z, z), d) / m && y == Times(Times(z, z), e) / n
    ensures e > 0.0 && Times(x / y, Times(e, m)) == Times(d, n)
    ensures x / y <= 1.0 <==> Times(d, n) <= Times(e, m)
    ensures x / y >= 1.0 <==> Times(d, n) >= Times(e, m)
  {
    TimesSameSign(z, z);
    PositiveMean(Times(z, z), e, n, y);
    EnergyQuotient(z, d, m, e, n);
    TimesSameSign(e, m);
    OrderByWidth(x / y, 1.0, Times(e, m));
    assert Times(1.0, Times(e, m)) == Times(e, m);
  }

  lemma PositiveMean(s: real, e: real, n: real, y: real)
    requires s > 0.0 && n > 0.0 && e >= 0.0 && y > 0.0 && y == Times(s, e) / n
    ensures e > 0.0
  {
    assert Times(y, n) == Times(s, e) && Times(s, 0.0) == 0.0;
    TimesSameSign(y, n);
  }

  lemma SmoothnessOf(sqrt: real -> real, series: Vector, q: Quartiles, longest: nat)
    requires |series| >= 2 && MeanSquare(Scaled(series, q)) >= 0.000_001
    ensures RawRatios(sqrt, series, q, longest).smoothness ==
            1.0 - Min(MeanSquare(Steps(Scaled(series, q))) / MeanSquare(Scaled(series, q)), 1.0)
  {
    hide Scaled, Steps, MeanSquare, Share, NetChangeRatio, RawLag1Unit;
  }

  /**
   * Where the mean square of the scaled series is above its floor: one minus the smoothness is what the mean square of
   * the steps is of the mean square of the deviations, and one if it is more.
   */
  lemma SmoothnessIsEnergy(sqrt: real -> real, series: Vector, q: Quartiles, longest: nat)
    requires |series| >= 2 && MeanSquare(Scaled(series, q)) >= 0.000_001
    ensures var r, n, m := RawRatios(sqrt, series, q, longest), |series| as real, (|series| - 1) as real;
            var levels := Dot(Deviations(series, q), Deviations(series, q), |series|);
            var moves := Dot(Steps(series), Steps(series), |series| - 1);
            && levels > 0.0
            && (Times(moves, n) <= Times(levels, m) ==> Times(1.0 - r.smoothness, Times(levels, m)) == Times(moves, n))
            && (Times(moves, n) >= Times(levels, m) ==> r.smoothness == 0.0)
  {
    hide *;
    SmoothnessOf(sqrt, series, q, longest);
    EnergiesCompare(series, q);
    SmoothnessCases(
      RawRatios(sqrt, series, q, longest).smoothness,
      MeanSquare(Steps(Scaled(series, q))) / MeanSquare(Scaled(series, q)),
      Times(Dot(Deviations(series, q), Deviations(series, q), |series|), (|series| - 1) as real),
      Times(Dot(Steps(series), Steps(series), |series| - 1), |series| as real));
  }

  lemma SmoothnessCases(s: real, g: real, x: real, y: real)
    requires s == 1.0 - Min(g, 1.0) && Times(g, x) == y
    requires (g <= 1.0 <==> y <= x) && (g >= 1.0 <==> y >= x)
    ensures (y <= x ==> Times(1.0 - s, x) == y) && (y >= x ==> s == 0.0)
  {
    hide Times;
    if y <= x {
      assert 1.0 - s == g;
    }
  }

  lemma EnergiesCompare(series: Vector, q: Quartiles)
    requires |series| >= 2 && MeanSquare(Scaled(series, q)) >= 0.000_001
    ensures var g := MeanSquare(Steps(Scaled(series, q))) / MeanSquare(Scaled(series, q));
            var n, m := |series| as real, (|series| - 1) as real;
            var levels := Dot(Deviations(series, q), Deviations(series, q), |series|);
            var moves := Dot(Steps(series), Steps(series), |series| - 1);
            && levels > 0.0 && Times(g, Times(levels, m)) == Times(moves, n)
            && (g <= 1.0 <==> Times(moves, n) <= Times(levels, m))
            && (g >= 1.0 <==> Times(moves, n) >= Times(levels, m))
  {
    hide *;
    MeansAre(series, q);
    ReciprocalPositive(q);
    DotSelfPositive(Deviations(series, q), |series|);
    QuotientOfMeans(1.0 / Range(q), Dot(Steps(series), Steps(series), |series| - 1), (|series| - 1) as real,
      Dot(Deviations(series, q), Deviations(series, q), |series|), |series| as real,
      MeanSquare(Steps(Scaled(series, q))), MeanSquare(Scaled(series, q)));
  }

  lemma ReciprocalPositive(q: Quartiles)
    ensures Range(q) > 0.0 && 1.0 / Range(q) > 0.0
  {
    QuotientPositive(1.0, Range(q));
  }

  lemma MeansAre(series: Vector, q: Quartiles)
    requires |series| >= 2
    ensures var z, scaled, n := 1.0 / Range(q), Scaled(series, q), |series|;
            && MeanSquare(scaled) ==
               Times(Times(z, z), Dot(Deviations(series, q), Deviations(series, q), n)) / n as real
            && MeanSquare(Steps(scaled)) ==
               Times(Times(z, z), Dot(Steps(series), Steps(series), n - 1)) / (n - 1) as real
  {
    var scaled, z := Scaled(series, q), 1.0 / Range(q);
    var moved := Steps(scaled);
    ScaledIsMultiple(series, q);
    hide Scaled, Deviations, Steps, Range, Dot, Times;
    ScaledProduct(scaled, scaled, Deviations(series, q), Deviations(series, q), z);
    ScaledProduct(moved, moved, Steps(series), Steps(series), z);
  }
}
