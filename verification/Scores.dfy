/** The numeric primitive evidence: shares, ratios and the scores combined from them. */
module Scores {
  import opened Sums
  import opened LinearAlgebra
  import opened StepInputs
  import opened RunExtraction
  import opened Autocorrelation

  /** The floor put under denominators. */
  const SMALLEST := 0.000001

  /** The three quartiles of the series. */
  datatype Quartiles = Quartiles(q25: real, q50: real, q75: real)

  /** The quantities the scores are combined from. */
  datatype Ratios = Ratios(
    dominantSign: real, netChange: real, signFlips: real, excursionReturn: real, excursion: real, center: real,
    bound: real, saturation: real, persistentRun: real, lag1Unit: real, smoothness: real)

  datatype Evidence = Evidence(
    ratios: Ratios, reinforcement: real, resetDropRate: real,
    monotone: real, oscillation: real, trackingError: real, trackingRecovery: real, lagged: real)

  function Steps(xs: Vector): (steps: Vector)
    requires xs != []
    ensures |steps| == |xs| - 1
  {
    seq(|xs| - 1, k requires 0 <= k < |xs| - 1 => xs[k + 1] - xs[k])
  }

  function Scaled(series: Vector, q: Quartiles): (scaled: Vector)
    ensures |scaled| == |series|
  {
    seq(|series|, k requires 0 <= k < |series| => (series[k] - q.q50) / Max(q.q75 - q.q25, SMALLEST))
  }

  /** How many of the first `n` positions satisfy the test. */
  function CountAt(test: nat -> bool, n: nat): (count: nat)
    ensures count <= n
  {
    if n == 0 then 0 else CountAt(test, n - 1) + if test(n - 1) then 1 else 0
  }

  /** The mean of a test over `n` positions. */
  function Share(test: nat -> bool, n: nat): real
    requires n > 0
  {
    CountAt(test, n) as real / n as real
  }

  function Rising(steps: Vector): nat -> bool {
    (k: nat) => k < |steps| && steps[k] > 0.0
  }

  function Falling(steps: Vector): nat -> bool {
    (k: nat) => k < |steps| && steps[k] < 0.0
  }

  /** The step before the first one counts as not rising. */
  function Flips(steps: Vector): nat -> bool {
    (k: nat) => Rising(steps)(k) != (k > 0 && Rising(steps)(k - 1))
  }

  function Beyond(scaled: Vector, limit: real): nat -> bool {
    (k: nat) => k < |scaled| && Abs(scaled[k]) > limit
  }

  function UpTo(scaled: Vector, limit: real): nat -> bool {
    (k: nat) => k < |scaled| && Abs(scaled[k]) <= limit
  }

  function AtLeast(scaled: Vector, limit: real): nat -> bool {
    (k: nat) => k < |scaled| && Abs(scaled[k]) >= limit
  }

  /** Near the centre now and away from it one sample earlier. */
  function Returns(scaled: Vector): nat -> bool {
    (k: nat) => k > 0 && Beyond(scaled, 1.0)(k - 1) && UpTo(scaled, 1.0)(k)
  }

  /** A step far against the dominant direction. */
  function Drops(steps: Vector, dominantPositive: bool): nat -> bool {
    (k: nat) => k < |steps| && if dominantPositive then steps[k] < -1.5 else steps[k] > 1.5
  }

  /** The distance travelled over the first `n` steps. */
  function Travelled(series: Vector, n: nat): real
    requires n < |series|
  {
    if n == 0 then 0.0 else Travelled(series, n - 1) + Abs(series[n] - series[n - 1])
  }

  function NetChangeRatio(series: Vector): real
    requires series != []
  {
    Abs(series[|series| - 1] - series[0]) / Max(Travelled(series, |series| - 1), SMALLEST)
  }

  function MeanSquare(v: Vector): real
    requires v != []
  {
    Dot(v, v, |v|) / |v| as real
  }

  /** The share of energy that is not in the steps, before it is clipped. */
  function RawSmoothness(scaled: Vector, steps: Vector): real
    requires scaled != [] && steps != []
  {
    1.0 - Min(MeanSquare(steps) / Max(MeanSquare(scaled), SMALLEST), 1.0)
  }

  function RawLag1Unit(sqrt: real -> real, series: Vector): real {
    (Get(Lag1Autocorrelation(sqrt, series), 0.0) + 1.0) / 2.0
  }

  function Longest(lengths: seq<nat>): nat {
    if lengths == [] then 0
    else
      var before, last := Longest(lengths[..|lengths| - 1]), lengths[|lengths| - 1];
      if last > before then last else before
  }

  /** The ratios as they are before any of them is clipped. */
  function RawRatios(sqrt: real -> real, series: Vector, q: Quartiles, longest: nat): Ratios
    requires |series| >= 2
  {
    var scaled := Scaled(series, q);
    var steps := Steps(scaled);
    Ratios(
      Max(Share(Rising(steps), |steps|), Share(Falling(steps), |steps|)),
      NetChangeRatio(series),
      if |steps| > 1 then Share(Flips(steps), |steps|) else 0.0,
      Share(Returns(scaled), |scaled|),
      Share(Beyond(scaled, 1.0), |scaled|),
      Share(UpTo(scaled, 1.0), |scaled|),
      Share(UpTo(scaled, 2.5), |scaled|),
      Share(AtLeast(scaled, 2.0), |scaled|),
      longest as real / Max(|steps| as real, 1.0),
      RawLag1Unit(sqrt, series),
      RawSmoothness(scaled, steps))
  }

  function Monotone(r: Ratios): real {
    0.5 * r.dominantSign + 0.35 * r.netChange + 0.15 * (1.0 - r.signFlips)
  }

  function Oscillation(r: Ratios): real {
    0.55 * r.signFlips + 0.25 * r.bound + 0.20 * (1.0 - r.netChange)
  }

  function TrackingError(r: Ratios): real {
    0.10 * r.bound + 0.05 * (1.0 - r.saturation) + 0.35 * Min(r.excursion * 2.0, 1.0)
    + 0.20 * r.persistentRun + 0.30 * (1.0 - r.center)
  }

  function TrackingRecovery(r: Ratios): real {
    0.65 * r.excursionReturn + 0.35 * r.excursion
  }

  function Lagged(r: Ratios): real {
    0.35 * r.lag1Unit + 0.25 * r.smoothness + 0.20 * Min(r.excursion * 1.5, 1.0)
    + 0.10 * r.persistentRun + 0.10 * (1.0 - r.center)
  }

  predicate Unit(x: real) {
    0.0 <= x <= 1.0
  }

  predicate AllUnit(r: Ratios) {
    && Unit(r.dominantSign) && Unit(r.netChange) && Unit(r.signFlips) && Unit(r.excursionReturn)
    && Unit(r.excursion) && Unit(r.center) && Unit(r.bound) && Unit(r.saturation) && Unit(r.persistentRun)
    && Unit(r.lag1Unit) && Unit(r.smoothness)
  }

  lemma QuotientIsUnit(x: real, d: real)
    requires d > 0.0 && 0.0 <= x <= d
    ensures Unit(x / d)
  {
    QuotientBelowOne(x, d);
    QuotientNonNegative(x, d);
  }

  lemma ShareIsUnit(test: nat -> bool, n: nat)
    requires n > 0
    ensures Unit(Share(test, n))
  {
    QuotientIsUnit(CountAt(test, n) as real, n as real);
  }

  /** Where a walk ends is no further from its start than the distance it travelled. */
  lemma {:induction false} TravelledReaches(series: Vector, n: nat)
    requires n < |series|
    ensures Abs(series[n] - series[0]) <= Travelled(series, n)
  {
    if n > 0 {
      TravelledReaches(series, n - 1);
    }
  }

  /** The net change never exceeds the distance travelled, so their ratio is a share. */
  lemma NetChangeIsUnit(series: Vector)
    requires series != []
    ensures Unit(NetChangeRatio(series))
  {
    var travelled := Travelled(series, |series| - 1);
    TravelledReaches(series, |series| - 1);
    QuotientIsUnit(Abs(series[|series| - 1] - series[0]), Max(travelled, SMALLEST));
  }

  predicate NeverFalls(series: Vector, n: nat)
    requires n < |series|
  {
    forall k :: 0 < k <= n ==> series[k - 1] <= series[k]
  }

  predicate NeverRises(series: Vector, n: nat)
    requires n < |series|
  {
    forall k :: 0 < k <= n ==> series[k] <= series[k - 1]
  }

  lemma {:induction false} TravelledWhole(series: Vector, n: nat)
    requires n < |series|
    ensures series[n] - series[0] == Travelled(series, n) <==> NeverFalls(series, n)
    ensures series[0] - series[n] == Travelled(series, n) <==> NeverRises(series, n)
  {
    if n > 0 {
      TravelledWhole(series, n - 1);
      TravelledReaches(series, n - 1);
    }
  }

  /**
   * The ratio is one if and only if the series travels at least the floor put under the denominator and never turns.
   */
  lemma NetChangeIsOneIff(series: Vector)
    requires series != []
    ensures NetChangeRatio(series) == 1.0 <==>
            && Travelled(series, |series| - 1) >= SMALLEST
            && (NeverFalls(series, |series| - 1) || NeverRises(series, |series| - 1))
  {
    var n := |series| - 1;
    TravelledReaches(series, n);
    TravelledWhole(series, n);
    hide Travelled, NeverFalls, NeverRises;
    QuotientIsOneIff(Abs(series[n] - series[0]), Max(Travelled(series, n), SMALLEST));
  }

  lemma QuotientIsOneIff(x: real, d: real)
    requires d > 0.0
    ensures x / d == 1.0 <==> x == d
  {
    assert Times(x / d, d) == x;
  }

  lemma SmoothnessIsUnit(scaled: Vector, steps: Vector)
    requires scaled != [] && steps != []
    ensures Unit(RawSmoothness(scaled, steps))
  {
    hide Dot;
    DotSelfPositive(steps, |steps|);
    QuotientNonNegative(Dot(steps, steps, |steps|), |steps| as real);
    QuotientNonNegative(MeanSquare(steps), Max(MeanSquare(scaled), SMALLEST));
  }

  lemma {:induction false} LongestIsListed(lengths: seq<nat>)
    requires lengths != []
    ensures exists r :: 0 <= r < |lengths| && lengths[r] == Longest(lengths)
  {
    var front := lengths[..|lengths| - 1];
    if front != [] && lengths[|lengths| - 1] <= Longest(front) {
      LongestIsListed(front);
      var r :| 0 <= r < |front| && front[r] == Longest(front);
      assert lengths[r] == Longest(lengths);
    } else {
      assert lengths[|lengths| - 1] == Longest(lengths);
    }
  }

  /** No run is longer than the steps it is made of. */
  lemma LongestFits(steps: Vector, starts: seq<nat>, lengths: seq<nat>)
    requires AreRuns(Signs(steps), Some(0), starts, lengths)
    ensures Longest(lengths) <= |steps|
  {
    if lengths != [] {
      LongestIsListed(lengths);
      var r :| 0 <= r < |lengths| && lengths[r] == Longest(lengths);
      assert starts[r] + lengths[r] <= |Signs(steps)|;
    }
  }

  /** Every ratio is already between zero and one. */
  lemma RatiosAreUnit(sqrt: real -> real, series: Vector, q: Quartiles, longest: nat)
    requires SquareRoot(sqrt) && |series| >= 2 && longest < |series|
    ensures AllUnit(RawRatios(sqrt, series, q, longest))
  {
    hide Share, NetChangeRatio, RawSmoothness, Lag1Autocorrelation, Scaled, Steps;
    var scaled := Scaled(series, q);
    var steps := Steps(scaled);
    ShareIsUnit(Rising(steps), |steps|);
    ShareIsUnit(Falling(steps), |steps|);
    ShareIsUnit(Flips(steps), |steps|);
    ShareIsUnit(Returns(scaled), |scaled|);
    ShareIsUnit(Beyond(scaled, 1.0), |scaled|);
    ShareIsUnit(UpTo(scaled, 1.0), |scaled|);
    ShareIsUnit(UpTo(scaled, 2.5), |scaled|);
    ShareIsUnit(AtLeast(scaled, 2.0), |scaled|);
    NetChangeIsUnit(series);
    QuotientIsUnit(longest as real, Max(|steps| as real, 1.0));
    AutocorrelationInRange(sqrt, series);
    SmoothnessIsUnit(scaled, steps);
  }

  /** Each return is paired with an excursion one sample earlier and with a sample near the centre. */
  lemma {:induction false} ReturnsArePaired(scaled: Vector, n: nat)
    requires 0 < n <= |scaled|
    ensures CountAt(Returns(scaled), n) <= CountAt(Beyond(scaled, 1.0), n - 1)
    ensures CountAt(Returns(scaled), n) <= CountAt(UpTo(scaled, 1.0), n)
    ensures CountAt(Beyond(scaled, 1.0), n) + CountAt(UpTo(scaled, 1.0), n) == n
  {
    if n == 1 {
      assert CountAt(Returns(scaled), 0) == 0;
    } else {
      ReturnsArePaired(scaled, n - 1);
    }
  }

  /**
   * A return needs an excursion before it and a sample near the centre, so the recovery score never exceeds one
   * half.
   */
  lemma RecoveryAtMostHalf(sqrt: real -> real, series: Vector, q: Quartiles, longest: nat)
    requires |series| >= 2
    ensures var r := RawRatios(sqrt, series, q, longest);
            r.excursionReturn <= r.excursion && r.excursionReturn <= r.center && r.excursion + r.center == 1.0
    ensures TrackingRecovery(RawRatios(sqrt, series, q, longest)) <= 0.5
  {
    var scaled := Scaled(series, q);
    ReturnShares(scaled);
    hide Share, NetChangeRatio, RawSmoothness, RawLag1Unit, Scaled, Steps;
    var r := RawRatios(sqrt, series, q, longest);
    assert r.excursionReturn <= r.excursion && r.excursionReturn <= r.center && r.excursion + r.center == 1.0;
  }

  lemma ReturnShares(scaled: Vector)
    requires scaled != []
    ensures var back := Share(Returns(scaled), |scaled|);
            && back <= Share(Beyond(scaled, 1.0), |scaled|)
            && back <= Share(UpTo(scaled, 1.0), |scaled|)
    ensures Share(Beyond(scaled, 1.0), |scaled|) + Share(UpTo(scaled, 1.0), |scaled|) == 1.0
  {
    var n := |scaled|;
    ReturnsArePaired(scaled, n);
    var back, away, near := CountAt(Returns(scaled), n), CountAt(Beyond(scaled, 1.0), n), CountAt(UpTo(scaled, 1.0), n);
    assert back <= away;
    hide CountAt;
    QuotientGrows(back as real, away as real, n as real);
    QuotientGrows(back as real, near as real, n as real);
    QuotientAdds(away as real, near as real, n as real);
    WholeIsOne(n as real);
  }

  lemma WholeIsOne(d: real)
    requires d != 0.0
    ensures d / d == 1.0
  {
  }

  lemma QuotientGrows(x: real, y: real, d: real)
    requires d > 0.0 && x <= y
    ensures x / d <= y / d
  {
    QuotientNonNegative(y - x, d);
    QuotientAdds(x, y - x, d);
  }

  /** The weights of each score add up to one, so unit ratios give unit scores. */
  lemma ScoresAreUnit(r: Ratios)
    requires AllUnit(r)
    ensures Unit(Monotone(r)) && Unit(Oscillation(r)) && Unit(TrackingError(r)) && Unit(TrackingRecovery(r))
            && Unit(Lagged(r))
  {
  }

  lemma StillTrackingError(r: Ratios)
    requires r.bound == 1.0 && r.saturation == 0.0 && r.excursion == 0.0 && r.persistentRun == 0.0 && r.center == 1.0
    ensures TrackingError(r) == 0.15
  {
  }

  lemma StillLagged(r: Ratios)
    requires r.lag1Unit == 1.0 && r.smoothness == 1.0 && r.excursion == 0.0 && r.persistentRun == 0.0 && r.center == 1.0
    ensures Lagged(r) == 0.60
  {
  }

  /** The scores of ratios that tell of a series at rest. */
  lemma StillScores(r: Ratios)
    requires r.excursion == 0.0 && r.saturation == 0.0 && r.excursionReturn == 0.0 && r.dominantSign == 0.0
    requires r.signFlips == 0.0 && r.netChange == 0.0 && r.persistentRun == 0.0
    requires r.center == 1.0 && r.bound == 1.0 && r.lag1Unit == 1.0 && r.smoothness == 1.0
    ensures Monotone(r) == 0.15 && Oscillation(r) == 0.45 && TrackingRecovery(r) == 0.0
    ensures TrackingError(r) == 0.15 && Lagged(r) == 0.60
  {
    hide TrackingError, Lagged;
    StillTrackingError(r);
    StillLagged(r);
  }

  /** The three ratios that are clipped before they are combined. */
  function Clipped(raw: Ratios): Ratios {
    raw.(persistentRun := Clip01(raw.persistentRun), lag1Unit := Clip01(raw.lag1Unit), smoothness :=
      Clip01(raw.smoothness))
  }

  /** On unit ratios no clip changes anything. */
  lemma NoClipNeeded(r: Ratios)
    requires AllUnit(r)
    ensures Clipped(r) == r
    ensures Clip01(Monotone(r)) == Monotone(r) && Clip01(Oscillation(r)) == Oscillation(r)
    ensures Clip01(TrackingError(r)) == TrackingError(r) && Clip01(TrackingRecovery(r)) == TrackingRecovery(r)
    ensures Clip01(Lagged(r)) == Lagged(r)
  {
    ScoresAreUnit(r);
    hide Clip01, Monotone, Oscillation, TrackingError, TrackingRecovery, Lagged;
  }

  function ResetDropRate(steps: Vector): real
    requires steps != []
  {
    Share(Drops(steps, Share(Rising(steps), |steps|) >= Share(Falling(steps), |steps|)), |steps|)
  }

  lemma MaxIsUpperBound(x: real, y: real)
    ensures Max(x, y) >= x && Max(x, y) >= y
  {
  }

  /** How often the listed runs are reinforced: at each of their marked steps but the first. */
  ghost predicate CountsReinforcements(steps: seq<real>, starts: seq<nat>, lengths: seq<nat>, perRun: seq<nat>) {
    && |starts| == |lengths| == |perRun|
    && forall k :: 0 <= k < |lengths| ==>
         && 0 < lengths[k] && starts[k] + lengths[k] <= |steps|
         && exists marks :: Marks(steps, starts[k], starts[k] + lengths[k], marks) && |marks| == perRun[k] + 1
  }

  lemma ReinforcementsFit(steps: seq<real>, starts: seq<nat>, lengths: seq<nat>, peaks: seq<real>, perRun: seq<nat>)
    requires AreMeasured(steps, starts, lengths, peaks, perRun)
    ensures CountsReinforcements(steps, starts, lengths, perRun)
  {
    hide Marks, IsPeak;
    assert forall r :: 0 <= r < |starts| ==> IsMeasured(steps, starts[r], lengths[r], peaks[r], perRun[r]);
  }

  lemma EvidenceFacts(sqrt: real -> real, series: Vector, q: Quartiles, starts: seq<nat>, lengths: seq<nat>)
    requires SquareRoot(sqrt) && |series| >= 3
    requires AreRuns(Signs(Steps(Scaled(series, q))), Some(0), starts, lengths)
    ensures var r := RawRatios(sqrt, series, q, Longest(lengths));
            && AllUnit(r) && TrackingRecovery(r) <= 0.5
            && Clipped(r) == r
            && Clip01(Monotone(r)) == Monotone(r) && Clip01(Oscillation(r)) == Oscillation(r)
            && Clip01(TrackingError(r)) == TrackingError(r) && Clip01(TrackingRecovery(r)) == TrackingRecovery(r)
            && Clip01(Lagged(r)) == Lagged(r)
  {
    hide *;
    LongestFits(Steps(Scaled(series, q)), starts, lengths);
    RatiosAreUnit(sqrt, series, q, Longest(lengths));
    RecoveryAtMostHalf(sqrt, series, q, Longest(lengths));
    NoClipNeeded(RawRatios(sqrt, series, q, Longest(lengths)));
  }

  /**
   * The evidence of a numeric series. The source clips the longest-run share, the autocorrelation,
   * the smoothness and each score; the evidence is what it would be without any of those clips.
   * The share of reinforced runs keeps its clip: a run may be reinforced more than once.
   */
  method BuildNumericEvidence(sqrt: real -> real, series: Vector, q: Quartiles)
    returns (evidence: Option<Evidence>, ghost starts: seq<nat>, ghost lengths: seq<nat>, ghost perRun: seq<nat>)
    requires SquareRoot(sqrt)
    ensures evidence.None? <==> |series| < 3
    ensures evidence.Some? ==>
              var r, steps := RawRatios(sqrt, series, q, Longest(lengths)), Steps(Scaled(series, q));
              && AreRuns(Signs(steps), Some(0), starts, lengths) && AreStepRuns(steps, starts, lengths)
              && CountsReinforcements(steps, starts, lengths, perRun)
              && evidence.value == Evidence(
                   r, Clip01(Total(perRun) as real / Max(|lengths| as real, 1.0)), ResetDropRate(steps),
                   Monotone(r), Oscillation(r), TrackingError(r), TrackingRecovery(r), Lagged(r))
              && AllUnit(r) && TrackingRecovery(r) <= 0.5
  {
    hide *;
    starts, lengths, perRun := [], [], [];
    if |series| < 3 {
      return None, starts, lengths, perRun;
    }
    var scaled := Scaled(series, q);
    var steps := Steps(scaled);
    var runLengths, runPeaks, reinforcementCount;
    runLengths, runPeaks, reinforcementCount, starts, perRun := NumericRuns(steps);
    lengths := runLengths;
    ReinforcementsFit(steps, starts, lengths, runPeaks, perRun);
    EvidenceFacts(sqrt, series, q, starts, lengths);
    var r := Clipped(RawRatios(sqrt, series, q, Longest(runLengths)));
    assert Max(|runLengths| as real, 1.0) >= 1.0 by {
      MaxIsUpperBound(|runLengths| as real, 1.0);
    }
    evidence := Some(Evidence(
      r, Clip01(reinforcementCount as real / Max(|runLengths| as real, 1.0)), ResetDropRate(steps),
      Clip01(Monotone(r)), Clip01(Oscillation(r)), Clip01(TrackingError(r)), Clip01(TrackingRecovery(r)),
        Clip01(Lagged(r))));
  }
}
