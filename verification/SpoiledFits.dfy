/** Two families of fits that tell exactly where each of the tolerances begins to spoil them. */
module SpoiledFits {
  import opened Sums
  import opened LinearAlgebra
  import opened GaussJordan
  import opened RidgeSolve
  import opened GramAccumulation
  import opened RidgeOptimality
  import opened PivotMargin
  import opened BackboneFit

  // ---------- One sensor: the clamp ----------

  /** A window of one sensor. */
  function Single(reading: real): Window {
    Window("t", "f", 1, Some(map["a" := Some(reading)]))
  }

  lemma SingleStatistics(r: real, ridge: real)
    ensures RidgeSystem([Single(r)], ["a"], ridge)[0][0] == Times(r, r) + ridge
    ensures PairMatrix([Single(r)], ["a"], ["a"])[0][0] == Times(r, r)
  {
    SumAppend([], Single(r), Contribution("a", "a"));
    assert [] + [Single(r)] == [Single(r)];
  }

  lemma SingleSolution(a: Matrix, h: Matrix)
    requires Shape(a, 1, 1) && Shape(h, 1, 1)
    ensures Solution(a, h, 1, 1)[0][0] == h[0][0] / Clamped(a[0][0])
  {
    var g := Augmented(a, h, 1, 1);
    assert Run(g, 0, 1, 2) == g;
    assert BestRow(g, 0, 1) == 0;
    var s := Pivoted(g, 0, 1, 2);
    assert s[0] == g[0] && s[0][0] == a[0][0] && s[0][1] == h[0][0];
    assert PivotStep(g, 0, 1, 2)[0] == ScaledRow(s[0], 0);
    assert Run(g, 1, 1, 2) == PivotStep(g, 0, 1, 2);
  }

  lemma QuotientFits(s: real, c: real, h: real)
    requires c != 0.0
    ensures Times(s, h / c) == h <==> s == c || h == 0.0
  {
    var q := h / c;
    assert q * c == h && (s - c) * q == s * q - h;
  }

  /**
   * One sensor, any reading and any positive ridge: the fitted weight is the minimiser if and only if the reading is
   * zero or the one pivot, the squared reading plus the ridge, is at least 1e-12.
   */
  lemma SingleFitOptimalIff(r: real, ridge: real)
    requires ridge > 0.0
    ensures Minimises([Single(r)], ["a"], ["a"], FittedWeights([Single(r)], ["a"], ["a"], ridge), ridge)
       <==> r == 0.0 || Times(r, r) + ridge >= 0.000_000_000_001
  {
    var ws, s := [Single(r)], ["a"];
    var a, h, x := RidgeSystem(ws, s, ridge), PairMatrix(ws, s, s), FittedWeights(ws, s, s, ridge);
    SingleStatistics(r, ridge);
    SingleSolution(a, h);
    MinimiserIffNormal(ws, s, s, x, ridge);
    SquarePositive(r);
    hide RidgeSystem, PairMatrix, Solution, Minimises, System, Times;
    var v := Column(x, 0, 1, 1);
    assert Dot(a[0], v, 1) == Dot(a[0], v, 0) + Times(a[0][0], x[0][0]);
    assert Solves(a, h, x, 1, 1) <==> Times(a[0][0], x[0][0]) == h[0][0];
    QuotientFits(a[0][0], Clamped(a[0][0]), h[0][0]);
  }

  /**
   * A reading of 1e-7 and a ridge of 1e-13: the only pivot, 1.1e-13, is overwritten by 1e-12 and the fitted weight is
   * not the minimiser.
   */
  lemma ClampSpoilsTinySystem()
    ensures
      var ws := [Single(0.000_000_1)];
      var ridge := 0.000_000_000_000_1;
      !Minimises(ws, ["a"], ["a"], FittedWeights(ws, ["a"], ["a"], ridge), ridge)
  {
    SingleFitOptimalIff(0.000_000_1, 0.000_000_000_000_1);
  }

  // ---------- Two sensors: skipped factors ----------

  /** A window of two sensors of which the first reads one. */
  function Faint(reading: real): Window {
    Window("t", "f", 1, Some(map["a" := Some(1.0), "b" := Some(reading)]))
  }

  /** The system and the right-hand side of that window at a ridge of one. */
  ghost predicate FaintSystem(a: Matrix, h: Matrix, e: real) {
    && Shape(a, 2, 2) && Shape(h, 2, 1)
    && a[0] == [2.0, e] && a[1] == [e, 1.0 + Times(e, e)]
    && h[0] == [1.0] && h[1] == [e]
  }

  lemma FaintStatistics(e: real)
    ensures FaintSystem(RidgeSystem([Faint(e)], ["a", "b"], 1.0), PairMatrix([Faint(e)], ["a", "b"], ["a"]), e)
  {
    var w, s := Faint(e), ["a", "b"];
    FaintPair(e, "a", "a");
    FaintPair(e, "a", "b");
    FaintPair(e, "b", "a");
    FaintPair(e, "b", "b");
    var a, h := RidgeSystem([w], s, 1.0), PairMatrix([w], s, ["a"]);
    assert Times(1.0, 1.0) == 1.0 && Times(1.0, 0.0) == 0.0 && Times(e, 1.0) == e == Times(1.0, e);
    assert a[0][0] == 2.0 && a[0][1] == e && a[1][0] == e && a[1][1] == 1.0 + Times(e, e);
    assert a[0] == [2.0, e] && a[1] == [e, 1.0 + Times(e, e)];
    assert h[0] == [1.0] && h[1] == [e];
  }

  lemma FaintPair(e: real, u: string, v: string)
    requires u in Faint(e).vector.value && v in Faint(e).vector.value
    ensures PairSum([Faint(e)], u, v) == Times(Faint(e).vector.value[u].value, Faint(e).vector.value[v].value)
  {
    SumAppend([], Faint(e), Contribution(u, v));
    assert [] + [Faint(e)] == [Faint(e)];
  }

  // ---------- The factors of that elimination ----------

  /** The pivot row of the first pivot. */
  function FirstRow(e: real): Vector {
    if Abs(e) <= 2.0 then [2.0, e] else [e, 1.0 + Times(e, e)]
  }

  function SecondRow(e: real): Vector {
    if Abs(e) <= 2.0 then [e, 1.0 + Times(e, e)] else [2.0, e]
  }

  lemma FaintFirstPivot(a: Matrix, e: real)
    requires Shape(a, 2, 2) && a[0] == [2.0, e] && a[1] == [e, 1.0 + Times(e, e)]
    ensures Pivoted(a, 0, 2, 2) == [FirstRow(e), SecondRow(e)]
  {
    assert BestRow(a, 0, 1) == 0;
    assert BestRow(a, 0, 2) == if Abs(e) <= 2.0 then 0 else 1;
  }

  /** The second factor is what the first pivot makes of the second entry of its row. */
  lemma FaintFactors(a: Matrix, e: real)
    requires Shape(a, 2, 2) && a[0] == [2.0, e] && a[1] == [e, 1.0 + Times(e, e)]
    ensures PivotEntry(a, 0, 1, 2) == SecondRow(e)[0]
    ensures PivotEntry(a, 1, 0, 2) == FirstRow(e)[1] / FirstRow(e)[0]
  {
    assert Run(a, 0, 2, 2) == a;
    FaintFirstPivot(a, e);
    var r := PivotStep(a, 0, 2, 2);
    assert Run(a, 1, 2, 2) == r;
    assert BestRow(r, 1, 2) == 1;
    assert Pivoted(r, 1, 2, 2)[0] == r[0] == ScaledRow(FirstRow(e), 0);
    assert Clamped(FirstRow(e)[0]) == FirstRow(e)[0];
  }

  lemma SteepQuotient(e: real)
    requires Abs(e) > 2.0
    ensures Abs((1.0 + Times(e, e)) / e) > 1.0
  {
    var q := (1.0 + Times(e, e)) / e;
    assert q * e == 1.0 + e * e;
    assert (q - e) * e == 1.0;
    if e > 0.0 {
      assert q > e;
    } else {
      assert q < e;
    }
  }

  /** Nothing but exact zeros is skipped if and only if the reading is zero or beyond 2e-18. */
  lemma FaintFactorsQuietIff(a: Matrix, e: real)
    requires Shape(a, 2, 2) && a[0] == [2.0, e] && a[1] == [e, 1.0 + Times(e, e)]
    ensures FactorsQuiet(a, 2) <==> e == 0.0 || Abs(e) > 0.000_000_000_000_000_002
  {
    FaintFactors(a, e);
    hide PivotEntry, Times;
    if Abs(e) > 2.0 {
      SteepQuotient(e);
    }
    assert FactorsQuiet(a, 2) <==>
      && (Abs(PivotEntry(a, 0, 1, 2)) <= FACTOR_FLOOR ==> PivotEntry(a, 0, 1, 2) == 0.0)
      && (Abs(PivotEntry(a, 1, 0, 2)) <= FACTOR_FLOOR ==> PivotEntry(a, 1, 0, 2) == 0.0);
  }

  // ---------- What is returned when the second factor is skipped ----------

  /** Whether or not the first factor is skipped, a second that is leaves one half as the first weight. */
  lemma FaintSolution(a: Matrix, h: Matrix, e: real)
    requires 0.0 < Abs(e) <= 0.000_000_000_000_000_002 && FaintSystem(a, h, e)
    ensures Solution(a, h, 2, 1)[0][0] == 0.5
    ensures Times(e, Solution(a, h, 2, 1)[1][0]) > 0.0
  {
    var g := Augmented(a, h, 2, 1);
    assert g[0] == [2.0, e, 1.0] && g[1] == [e, 1.0 + Times(e, e), e];
    FirstFaintStep(g, e);
    var r := PivotStep(g, 0, 2, 3);
    SecondFaintStep(r, e);
    RunOfTwo(g);
  }

  lemma RunOfTwo(g: Matrix)
    requires Shape(g, 2, 3)
    ensures Run(g, 2, 2, 3) == PivotStep(PivotStep(g, 0, 2, 3), 1, 2, 3)
  {
    assert Run(g, 0, 2, 3) == g;
    assert Run(g, 1, 2, 3) == PivotStep(Run(g, 0, 2, 3), 0, 2, 3);
  }

  lemma FirstFaintStep(g: Matrix, e: real)
    requires 0.0 < Abs(e) <= 0.000_000_000_000_000_002 && Shape(g, 2, 3)
    requires g[0] == [2.0, e, 1.0] && g[1] == [e, 1.0 + Times(e, e), e]
    ensures PivotStep(g, 0, 2, 3)[0] == [1.0, e / 2.0, 0.5]
    ensures var r := PivotStep(g, 0, 2, 3)[1];
            || (r[1] == 1.0 + Times(e, e) && r[2] == e)
            || (r[1] == 1.0 + Times(e, e) - Times(e, e / 2.0) && r[2] == e / 2.0)
  {
    assert BestRow(g, 0, 1) == 0;
    assert BestRow(g, 0, 2) == 0;
    assert Pivoted(g, 0, 2, 3) == g;
    var d := ScaledRow(g[0], 0);
    assert d == [1.0, e / 2.0, 0.5];
    assert PivotStep(g, 0, 2, 3)[1] == ClearedRow(g[1], 0, d);
    assert Times(e, 0.5) == e / 2.0;
  }

  lemma SecondFaintStep(r: Matrix, e: real)
    requires 0.0 < Abs(e) <= 0.000_000_000_000_000_002 && Shape(r, 2, 3)
    requires r[0] == [1.0, e / 2.0, 0.5]
    requires || (r[1][1] == 1.0 + Times(e, e) && r[1][2] == e)
             || (r[1][1] == 1.0 + Times(e, e) - Times(e, e / 2.0) && r[1][2] == e / 2.0)
    ensures PivotStep(r, 1, 2, 3)[0] == r[0]
    ensures Times(e, PivotStep(r, 1, 2, 3)[1][2]) > 0.0
  {
    SquarePositive(e);
    assert Times(e, e / 2.0) == Times(e, e) / 2.0;
    assert BestRow(r, 1, 2) == 1;
    assert Pivoted(r, 1, 2, 3) == r;
    var pivot := r[1][1];
    assert pivot >= 1.0;
    assert ScaledRow(r[1], 1)[2] == r[1][2] / pivot;
    SameSignQuotient(e, r[1][2], pivot);
  }

  lemma SameSignQuotient(e: real, x: real, pivot: real)
    requires e != 0.0 && (x == e || x == e / 2.0) && pivot >= 1.0
    ensures Times(e, x / pivot) > 0.0
  {
    var q := x / pivot;
    assert q * pivot == x;
    if e > 0.0 {
      assert q > 0.0;
    } else {
      assert q < 0.0;
    }
    TimesSameSign(e, q);
  }

  lemma FaintSpoils(a: Matrix, h: Matrix, x: Matrix, e: real)
    requires FaintSystem(a, h, e) && Shape(x, 2, 1) && x[0][0] == 0.5 && Times(e, x[1][0]) > 0.0
    ensures !Solves(a, h, x, 2, 1)
  {
    var v := Column(x, 0, 2, 1);
    assert Dot(a[0], v, 2) == Times(2.0, 0.5) + Times(e, v[1]) by {
      assert Dot(a[0], v, 1) == Dot(a[0], v, 0) + Times(2.0, 0.5);
    }
    assert Times(2.0, 0.5) == 1.0;
    assert Dot(a[0], v, 2) > h[0][0];
  }

  // ---------- The characterisation ----------

  /**
   * At the default ridge of one, with a first sensor that reads one: the fitted weights are the minimiser if and only
   * if the second reads zero or more than 2e-18 in magnitude.
   */
  lemma FaintFitOptimalIff(e: real)
    ensures Minimises([Faint(e)], ["a", "b"], ["a"], FittedWeights([Faint(e)], ["a", "b"], ["a"], 1.0), 1.0)
       <==> e == 0.0 || Abs(e) > 0.000_000_000_000_000_002
  {
    var ws, selected, sensors := [Faint(e)], ["a", "b"], ["a"];
    var a, h := RidgeSystem(ws, selected, 1.0), PairMatrix(ws, selected, sensors);
    FaintStatistics(e);
    FaintFactorsQuietIff(a, e);
    DefaultRidgeClears();
    hide RidgeSystem, PairMatrix, Solution, Minimises, System, FactorsQuiet, Times;
    if e == 0.0 || Abs(e) > 0.000_000_000_000_000_002 {
      LargeRidgeIsOptimal(ws, selected, sensors, 1.0);
    } else {
      FaintSolution(a, h, e);
      FaintSpoils(a, h, FittedWeights(ws, selected, sensors, 1.0), e);
      MinimiserIffNormal(ws, selected, sensors, FittedWeights(ws, selected, sensors, 1.0), 1.0);
    }
  }

  lemma DefaultRidgeClears()
    ensures RidgeClearsFloor(1.0, 2)
  {
  }

  /** At a ridge of one, a second sensor that reads up to 1e-18 but not nothing spoils the fit. */
  lemma SkippedFactorSpoilsFit(e: real)
    requires 0.0 < e <= 0.000_000_000_000_000_001
    ensures !Minimises([Faint(e)], ["a", "b"], ["a"], FittedWeights([Faint(e)], ["a", "b"], ["a"], 1.0), 1.0)
  {
    FaintFitOptimalIff(e);
  }
}
