/** The backbone fit from windows to weights, and what it minimises. */
module BackboneFit {
  import opened LinearAlgebra
  import opened GaussJordan
  import opened TolerancesQuiet
  import opened RidgeSolve
  import opened GramAccumulation
  import opened RidgeOptimality
  import opened PivotMargin

  ghost function RidgeSystem(ws: seq<Window>, selected: seq<string>, ridge: real): (s: Matrix)
    ensures Shape(s, |selected|, |selected|)
  {
    System(PairMatrix(ws, selected, selected), ridge, |selected|)
  }

  ghost function FittedWeights(ws: seq<Window>, selected: seq<string>, sensors: seq<string>, ridge: real): (b: Matrix)
    ensures Shape(b, |selected|, |sensors|)
  {
    Solution(RidgeSystem(ws, selected, ridge), PairMatrix(ws, selected, sensors), |selected|, |sensors|)
  }

  /**
   * With a positive ridge, every right-hand side is solved exactly if and only if the tolerances stay quiet on the
   * ridge system.
   */
  lemma RidgeExactIffQuiet(ws: seq<Window>, selected: seq<string>, ridge: real)
    requires ridge > 0.0
    ensures ExactForEveryRightHandSide(RidgeSystem(ws, selected, ridge), |selected|)
       <==> Quiet(RidgeSystem(ws, selected, ridge), |selected|, |selected|, |selected|)
  {
    RidgeSystemInjective(ws, selected, ridge);
    QuietIffExact(RidgeSystem(ws, selected, ridge), |selected|);
  }

  /** With a positive ridge the pivot search of a quiet elimination never settles on a zero. */
  lemma RidgePivotIsNeverZero(ws: seq<Window>, selected: seq<string>, ridge: real, p: nat)
    requires ridge > 0.0 && p < |selected|
    requires Quiet(RidgeSystem(ws, selected, ridge), p, |selected|, |selected|)
    ensures var n := |selected|;
            Pivoted(Run(RidgeSystem(ws, selected, ridge), p, n, n), p, n, n)[p][p] != 0.0
  {
    RidgeSystemInjective(ws, selected, ridge);
    PivotIsNeverZero(RidgeSystem(ws, selected, ridge), p, |selected|);
  }

  /**
   * The fitted weights are the unique minimiser of the ridge objective, for all windows, sensors and positive ridges
   * on which the tolerances stay quiet.
   */
  lemma FittedWeightsAreOptimal(ws: seq<Window>, selected: seq<string>, sensors: seq<string>, ridge: real)
    requires ridge > 0.0
    requires Quiet(RidgeSystem(ws, selected, ridge), |selected|, |selected|, |selected|)
    ensures Minimises(ws, selected, sensors, FittedWeights(ws, selected, sensors, ridge), ridge)
    ensures forall x: Matrix :: Shape(x, |selected|, |sensors|) && Minimises(ws, selected, sensors, x, ridge) ==>
              x == FittedWeights(ws, selected, sensors, ridge)
  {
    hide Quiet, Solution, System, Solves, Objective, PairMatrix;
    var b := FittedWeights(ws, selected, sensors, ridge);
    RidgeExactIffQuiet(ws, selected, ridge);
    assert Solves(RidgeSystem(ws, selected, ridge), PairMatrix(ws, selected, sensors), b, |selected|, |sensors|);
    assert SolvesNormalEquations(ws, selected, sensors, b, ridge);
    MinimiserIffNormal(ws, selected, sensors, b, ridge);
    NormalIsUniqueMinimiser(ws, selected, sensors, b, ridge);
  }

  /**
   * With a ridge that clears the pivot floor, every right-hand side is solved exactly if and only if only exact
   * zeros are skipped as factors.
   */
  lemma LargeRidgeExactIff(ws: seq<Window>, selected: seq<string>, ridge: real)
    requires RidgeClearsFloor(ridge, |selected|)
    ensures ExactForEveryRightHandSide(RidgeSystem(ws, selected, ridge), |selected|)
       <==> FactorsQuiet(RidgeSystem(ws, selected, ridge), |selected|)
  {
    hide Quiet, FactorsQuiet, PairMatrix, System, ExactForEveryRightHandSide;
    RidgeQuietIff(ws, selected, ridge);
    RidgeExactIffQuiet(ws, selected, ridge);
  }

  /**
   * With such a ridge, if only exact zeros are skipped, the fitted weights are the unique minimiser of the ridge
   * objective.
   */
  lemma LargeRidgeIsOptimal(ws: seq<Window>, selected: seq<string>, sensors: seq<string>, ridge: real)
    requires RidgeClearsFloor(ridge, |selected|)
    requires FactorsQuiet(RidgeSystem(ws, selected, ridge), |selected|)
    ensures Minimises(ws, selected, sensors, FittedWeights(ws, selected, sensors, ridge), ridge)
    ensures forall x: Matrix :: Shape(x, |selected|, |sensors|) && Minimises(ws, selected, sensors, x, ridge) ==>
              x == FittedWeights(ws, selected, sensors, ridge)
  {
    hide Quiet, FactorsQuiet, PairMatrix, System, Minimises, FittedWeights;
    RidgeQuietIff(ws, selected, ridge);
    FittedWeightsAreOptimal(ws, selected, sensors, ridge);
  }

  /** From windows to weights. No windows, no selected sensor or no sensor at all gives the empty matrix. */
  method FitBackboneWeights(
    windows: seq<Window>, selected: seq<string>, sensors: seq<string>, ridgeLambda: real)
    returns (b: array2<real>)
    ensures fresh(b)
    ensures windows == [] || selected == [] || sensors == [] ==> b.Length0 == b.Length1 == 0
    ensures windows != [] && selected != [] && sensors != [] ==>
              Contents(b) == FittedWeights(windows, selected, sensors, EffectiveRidge(ridgeLambda))
    ensures windows != [] && selected != [] && sensors != [] && ridgeLambda > 0.0
            && Quiet(RidgeSystem(windows, selected, ridgeLambda), |selected|, |selected|, |selected|) ==>
              && b.Length0 == |selected| && b.Length1 == |sensors|
              && Minimises(windows, selected, sensors, Contents(b), ridgeLambda)
  {
    var g, h, totalWindows := BackboneStatistics(windows, selected, sensors);
    b := SolveBackboneWeights(g, h, ridgeLambda);
    if windows != [] && selected != [] && sensors != [] {
      StoredMatrixIsUnique(g, PairMatrix(windows, selected, selected));
      StoredMatrixIsUnique(h, PairMatrix(windows, selected, sensors));
      if ridgeLambda > 0.0 && Quiet(RidgeSystem(windows, selected, ridgeLambda), |selected|, |selected|, |selected|) {
        FittedWeightsAreOptimal(windows, selected, sensors, ridgeLambda);
      }
    }
  }
}
