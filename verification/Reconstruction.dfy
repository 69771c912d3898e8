/**
 * Reconstructing a window from its selected sensors, and how the reconstruction errors add up to the fitted
 * objective.
 */
module Reconstruction {
  import opened Sums
  import opened LinearAlgebra
  import opened GaussJordan
  import opened RidgeSolve
  import opened GramAccumulation
  import opened RidgeOptimality

  type Readings = map<string, Option<real>>

  /** Row vector times matrix. */
  method VectorTimesMatrix(x: Vector, b: array2<real>) returns (y: Vector)
    requires b.Length0 == |x|
    ensures |y| == b.Length1
    ensures forall c :: 0 <= c < b.Length1 ==> y[c] == Dot(x, Column(Contents(b), c, b.Length0, b.Length1), |x|)
  {
    y := [];
    for c := 0 to b.Length1
      invariant |y| == c
      invariant forall k :: 0 <= k < c ==> y[k] == Dot(x, Column(Contents(b), k, b.Length0, b.Length1), |x|)
    {
      var sum := 0.0;
      for j := 0 to |x|
        invariant sum == Dot(x, Column(Contents(b), c, b.Length0, b.Length1), j)
      {
        sum := sum + Times(x[j], b[j, c]);
      }
      y := y + [sum];
    }
  }

  function ColumnCount(sensors: seq<string>, width: nat): (count: nat)
    ensures count <= |sensors| && count <= width
    ensures count == |sensors| || count == width
  {
    if |sensors| <= width then |sensors| else width
  }

  /** Sensor `c` is not listed again among the first `count`. */
  predicate ListedLast(sensors: seq<string>, c: nat, count: nat)
    requires c < count <= |sensors|
  {
    forall k :: c < k < count ==> sensors[k] != sensors[c]
  }

  /** The map holds the first `count` sensors with their values; of a repeated sensor the last value. */
  ghost predicate Zipped(xHat: Readings, sensors: seq<string>, values: Vector, count: nat)
    requires count <= |sensors| && count <= |values|
  {
    && (forall sensor :: sensor in xHat <==> sensor in sensors[..count])
    && forall c :: 0 <= c < count && ListedLast(sensors, c, count) ==> xHat[sensors[c]] == Some(values[c])
  }

  lemma ZippedNext(xHat: Readings, sensors: seq<string>, values: Vector, c: nat)
    requires c < |sensors| && c < |values| && Zipped(xHat, sensors, values, c)
    ensures Zipped(xHat[sensors[c] := Some(values[c])], sensors, values, c + 1)
  {
    var next := xHat[sensors[c] := Some(values[c])];
    assert sensors[..c + 1] == sensors[..c] + [sensors[c]];
    forall k | 0 <= k < c + 1 && ListedLast(sensors, k, c + 1)
      ensures next[sensors[k]] == Some(values[k])
    {
      if k < c {
        assert ListedLast(sensors, k, c) && sensors[c] != sensors[k];
      }
    }
  }

  method ZipReadings(sensors: seq<string>, values: Vector, count: nat) returns (xHat: Readings)
    requires count <= |sensors| && count <= |values|
    ensures Zipped(xHat, sensors, values, count)
  {
    xHat := map[];
    for c := 0 to count
      invariant Zipped(xHat, sensors, values, c)
    {
      hide Zipped;
      ZippedNext(xHat, sensors, values, c);
      xHat := xHat[sensors[c] := Some(values[c])];
    }
  }

  /** Of a repeated sensor the last value wins; surplus sensors or columns are dropped. */
  method ReconstructWindowVector(
    xc: Readings, selected: seq<string>, sensors: seq<string>, weights: array2<real>)
    returns (xHat: Readings)
    requires weights.Length0 * weights.Length1 != 0 ==> weights.Length0 == |selected|
    ensures weights.Length0 * weights.Length1 == 0 ==> xHat == map[]
    ensures weights.Length0 * weights.Length1 != 0 ==>
              var count := ColumnCount(sensors, weights.Length1);
              && (forall sensor :: sensor in xHat <==> sensor in sensors[..count])
              && forall c :: 0 <= c < count && ListedLast(sensors, c, count) ==>
                   var column := Column(Contents(weights), c, weights.Length0, weights.Length1);
                   sensors[c] in xHat && xHat[sensors[c]] == Some(Dot(SensorVector(xc, selected), column, |selected|))
  {
    xHat := map[];
    if weights.Length0 == 0 || weights.Length1 == 0 {
      return;
    }
    PositiveProduct(weights.Length0, weights.Length1);
    hide Dot, Column, ListedLast;
    var y := VectorTimesMatrix(SensorVector(xc, selected), weights);
    var count := ColumnCount(sensors, weights.Length1);
    xHat := ZipReadings(sensors, y, count);
    assert forall c :: 0 <= c < count ==> sensors[c] in sensors[..count];
  }

  function Residual(xTrue: Readings, xHat: Readings, sensor: string): real {
    Reading(xTrue, sensor) - Reading(xHat, sensor)
  }

  ghost function SquaredError(xTrue: Readings, xHat: Readings): string -> real {
    (sensor: string) => Times(Residual(xTrue, xHat, sensor), Residual(xTrue, xHat, sensor))
  }

  /** The residual of every listed sensor and the sum of their squares, before the square root is taken. */
  method ReconstructionErrorSquared(
    xTrue: Readings, xHat: Readings, order: seq<string>)
    returns (errorSq: real, residuals: map<string, real>)
    ensures errorSq == SumOver(order, SquaredError(xTrue, xHat))
    ensures forall sensor :: sensor in residuals <==> sensor in order
    ensures forall sensor :: sensor in order ==> residuals[sensor] == Residual(xTrue, xHat, sensor)
  {
    residuals := map[];
    errorSq := 0.0;
    for k := 0 to |order|
      invariant errorSq == SumOver(order[..k], SquaredError(xTrue, xHat))
      invariant forall sensor :: sensor in residuals <==> sensor in order[..k]
      invariant forall sensor :: sensor in residuals ==> residuals[sensor] == Residual(xTrue, xHat, sensor)
    {
      var residual := Residual(xTrue, xHat, order[k]);
      residuals := residuals[order[k] := residual];
      assert order[..k + 1][..k] == order[..k];
      errorSq := errorSq + Times(residual, residual);
    }
    assert order[..|order|] == order;
  }

  /** The reconstruction error: the root of the sum of the squared residuals. */
  method ReconstructionError(sqrt: real -> real, xTrue: Readings, xHat: Readings, order: seq<string>)
    returns (error: real, residuals: map<string, real>)
    requires SquareRoot(sqrt)
    ensures error >= 0.0 && Times(error, error) == SumOver(order, SquaredError(xTrue, xHat))
    ensures forall sensor :: sensor in residuals <==> sensor in order
    ensures forall sensor :: sensor in order ==> residuals[sensor] == Residual(xTrue, xHat, sensor)
  {
    var errorSq;
    errorSq, residuals := ReconstructionErrorSquared(xTrue, xHat, order);
    SquaredErrorsAddUp(xTrue, xHat, order);
    error := sqrt(errorSq);
  }

  lemma SquaredErrorsAddUp(xTrue: Readings, xHat: Readings, order: seq<string>)
    ensures SumOver(order, SquaredError(xTrue, xHat)) >= 0.0
  {
    forall sensor | sensor in order
      ensures SquaredError(xTrue, xHat)(sensor) >= 0.0
    {
      SquarePositive(Residual(xTrue, xHat, sensor));
    }
    SumNonNegative(order, SquaredError(xTrue, xHat));
  }

  // ---------- The objective is the total squared reconstruction error plus the ridge term ----------

  /** `xHat` holds the reconstruction of the window under weights `b`. */
  ghost predicate Reconstructs(xHat: Readings, w: Window, selected: seq<string>, sensors: seq<string>, b: Matrix)
    requires Shape(b, |selected|, |sensors|)
  {
    forall c :: 0 <= c < |sensors| ==>
      Reading(xHat, sensors[c]) == Projection(w, selected, Column(b, c, |selected|, |sensors|))
  }

  /** The squared residuals of one window over the first `k` sensors. */
  ghost function ErrorUpTo(w: Window, selected: seq<string>, sensors: seq<string>, b: Matrix, k: nat): real
    requires k <= |sensors| && Shape(b, |selected|, |sensors|)
  {
    if k == 0 then 0.0
    else
      var column := Column(b, k - 1, |selected|, |sensors|);
      ErrorUpTo(w, selected, sensors, b, k - 1) + SquaredResidual(selected, column, sensors[k - 1])(w)
  }

  ghost function WindowError(selected: seq<string>, sensors: seq<string>, b: Matrix, k: nat): Window -> real
    requires k <= |sensors| && Shape(b, |selected|, |sensors|)
  {
    (w: Window) => ErrorUpTo(w, selected, sensors, b, k)
  }

  ghost function SquaredWeights(selected: seq<string>, sensors: seq<string>, b: Matrix, k: nat): real
    requires k <= |sensors| && Shape(b, |selected|, |sensors|)
  {
    if k == 0 then 0.0
    else
      var u := Column(b, k - 1, |selected|, |sensors|);
      SquaredWeights(selected, sensors, b, k - 1) + Dot(u, u, |selected|)
  }

  lemma SensorError(xHat: Readings, w: Window, selected: seq<string>, sensors: seq<string>, b: Matrix, c: nat)
    requires c < |sensors| && Shape(b, |selected|, |sensors|) && w.vector.Some?
    requires Reconstructs(xHat, w, selected, sensors, b)
    ensures SquaredError(w.vector.value, xHat)(sensors[c]) ==
            SquaredResidual(selected, Column(b, c, |selected|, |sensors|), sensors[c])(w)
  {
    hide Projection, Times, Column;
  }

  lemma {:induction false} ErrorOfReconstruction(
    xHat: Readings, w: Window, selected: seq<string>, sensors: seq<string>, b: Matrix, k: nat)
    requires k <= |sensors| && Shape(b, |selected|, |sensors|) && w.vector.Some?
    requires Reconstructs(xHat, w, selected, sensors, b)
    ensures SumOver(sensors[..k], SquaredError(w.vector.value, xHat)) == ErrorUpTo(w, selected, sensors, b, k)
  {
    hide SquaredError, SquaredResidual, Reconstructs;
    if k > 0 {
      ErrorOfReconstruction(xHat, w, selected, sensors, b, k - 1);
      assert sensors[..k] == sensors[..k - 1] + [sensors[k - 1]];
      SumAppend(sensors[..k - 1], sensors[k - 1], SquaredError(w.vector.value, xHat));
      SensorError(xHat, w, selected, sensors, b, k - 1);
    }
  }

  /**
   * The objective the fit minimises is the sum over windows of their squared reconstruction errors plus the ridge
   * times the squared weights.
   */
  lemma {:induction false} ObjectiveIsReconstructionError(
    ws: seq<Window>, selected: seq<string>, sensors: seq<string>, b: Matrix, ridge: real, k: nat)
    requires k <= |sensors| && Shape(b, |selected|, |sensors|)
    ensures LossUpTo(ws, selected, sensors, b, ridge, k) ==
            SumOver(ws, WindowError(selected, sensors, b, k)) + Times(ridge, SquaredWeights(selected, sensors, b, k))
  {
    if k == 0 {
      SumOfZeros(ws, WindowError(selected, sensors, b, 0));
      assert Times(ridge, 0.0) == 0.0;
    } else {
      ObjectiveIsReconstructionError(ws, selected, sensors, b, ridge, k - 1);
      var u := Column(b, k - 1, |selected|, |sensors|);
      SumAdds(ws, WindowError(selected, sensors, b, k - 1), SquaredResidual(selected, u, sensors[k - 1]),
        WindowError(selected, sensors, b, k));
      TimesAdds(ridge, SquaredWeights(selected, sensors, b, k - 1), Dot(u, u, |selected|));
    }
  }

  // ---------- From weights to scores to the objective ----------

  /** The squared error that reconstructing and scoring the window gives; a window without a vector is not scored. */
  ghost predicate IsSquaredError(
    errorSq: real, w: Window, selected: seq<string>, sensors: seq<string>, b: Matrix)
    requires Shape(b, |selected|, |sensors|)
  {
    if w.vector.None? then errorSq == 0.0
    else
      exists xHat ::
        Reconstructs(xHat, w, selected, sensors, b) && errorSq == SumOver(sensors, SquaredError(w.vector.value, xHat))
  }

  /** The reconstruction that is computed is the one the objective speaks of. */
  lemma ComputedReconstructs(
    xHat: Readings, w: Window, selected: seq<string>, sensors: seq<string>, b: Matrix)
    requires Distinct(sensors) && Shape(b, |selected|, |sensors|) && w.vector.Some?
    requires forall c :: 0 <= c < |sensors| && ListedLast(sensors, c, |sensors|) ==>
               && sensors[c] in xHat
               && xHat[sensors[c]] ==
                 Some(Dot(SensorVector(w.vector.value, selected), Column(b, c, |selected|, |sensors|), |selected|))
    ensures Reconstructs(xHat, w, selected, sensors, b)
  {
    hide Dot, Column;
    forall c | 0 <= c < |sensors|
      ensures Reading(xHat, sensors[c]) == Projection(w, selected, Column(b, c, |selected|, |sensors|))
    {
      assert ListedLast(sensors, c, |sensors|);
    }
  }

  /** Reconstructing a window from its own selected readings, and scoring the result against the window. */
  method ReconstructAndScore(
    sqrt: real -> real, w: Window, selected: seq<string>, sensors: seq<string>, weights: array2<real>)
    returns (error: real)
    requires SquareRoot(sqrt) && Distinct(sensors) && w.vector.Some?
    requires weights.Length0 == |selected| > 0 && weights.Length1 == |sensors| > 0
    ensures error >= 0.0 && IsSquaredError(Times(error, error), w, selected, sensors, Contents(weights))
  {
    PositiveProduct(weights.Length0, weights.Length1);
    var xHat := ReconstructWindowVector(w.vector.value, selected, sensors, weights);
    ComputedReconstructs(xHat, w, selected, sensors, Contents(weights));
    var residuals;
    error, residuals := ReconstructionError(sqrt, w.vector.value, xHat, sensors);
  }

  lemma PositiveProduct(x: nat, y: nat)
    requires x > 0 && y > 0
    ensures x * y != 0
  {
  }

  /** Scores of all windows, squared, and the ridge term are the objective: what is fitted is what is scored. */
  lemma ScoresAddUpToObjective(
    errors: seq<real>, ws: seq<Window>, selected: seq<string>, sensors: seq<string>, b: Matrix, ridge: real)
    requires Shape(b, |selected|, |sensors|) && |errors| == |ws|
    requires forall k :: 0 <= k < |ws| ==> IsSquaredError(errors[k], ws[k], selected, sensors, b)
    ensures SumOver(errors, Itself()) + Times(ridge, SquaredWeights(selected, sensors, b, |sensors|)) ==
            Objective(ws, selected, sensors, b, ridge)
  {
    forall k | 0 <= k < |ws|
      ensures Itself()(errors[k]) == WindowError(selected, sensors, b, |sensors|)(ws[k])
    {
      ScoreIsWindowError(errors[k], ws[k], selected, sensors, b);
    }
    SumMapped(errors, ws, Itself(), WindowError(selected, sensors, b, |sensors|));
    ObjectiveIsReconstructionError(ws, selected, sensors, b, ridge, |sensors|);
  }

  function Itself(): real -> real {
    (x: real) => x
  }

  lemma ScoreIsWindowError(errorSq: real, w: Window, selected: seq<string>, sensors: seq<string>, b: Matrix)
    requires Shape(b, |selected|, |sensors|) && IsSquaredError(errorSq, w, selected, sensors, b)
    ensures errorSq == ErrorUpTo(w, selected, sensors, b, |sensors|)
  {
    if w.vector.None? {
      AbsentErrorIsZero(w, selected, sensors, b, |sensors|);
    } else {
      var xHat :| Reconstructs(xHat, w, selected, sensors, b)
        && errorSq == SumOver(sensors, SquaredError(w.vector.value, xHat));
      ErrorOfReconstruction(xHat, w, selected, sensors, b, |sensors|);
      assert sensors[..|sensors|] == sensors;
    }
  }

  lemma {:induction false} AbsentErrorIsZero(
    w: Window, selected: seq<string>, sensors: seq<string>, b: Matrix, k: nat)
    requires k <= |sensors| && Shape(b, |selected|, |sensors|) && w.vector.None?
    ensures ErrorUpTo(w, selected, sensors, b, k) == 0.0
  {
    if k > 0 {
      AbsentErrorIsZero(w, selected, sensors, b, k - 1);
      assert Times(0.0, 0.0) == 0.0;
    }
  }

  /** No other weights score lower: the scores of a minimiser and its ridge term add up to the least there is. */
  lemma MinimiserScoresLeast(
    errors: seq<real>, others: seq<real>, ws: seq<Window>, selected: seq<string>, sensors: seq<string>,
    b: Matrix, x: Matrix, ridge: real)
    requires Shape(b, |selected|, |sensors|) && Shape(x, |selected|, |sensors|) && |errors| == |others| == |ws|
    requires Minimises(ws, selected, sensors, b, ridge)
    requires forall k :: 0 <= k < |ws| ==>
               IsSquaredError(errors[k], ws[k], selected, sensors, b)
                 && IsSquaredError(others[k], ws[k], selected, sensors, x)
    ensures SumOver(errors, Itself()) + Times(ridge, SquaredWeights(selected, sensors, b, |sensors|)) <=
            SumOver(others, Itself()) + Times(ridge, SquaredWeights(selected, sensors, x, |sensors|))
  {
    hide IsSquaredError, Objective, SquaredWeights, SumOver, Times;
    ScoresAddUpToObjective(errors, ws, selected, sensors, b, ridge);
    ScoresAddUpToObjective(others, ws, selected, sensors, x, ridge);
  }
}
