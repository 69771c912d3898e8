/**
 What the fit returns whatever the tolerances do: solving the system for itself tells the whole error, and the answer
 to the identity tells the fit.
 */
module ToleranceError {
  import opened LinearAlgebra
  import opened GaussJordan
  import opened TolerancesQuiet
  import opened LinearSystems
  import opened TransferMatrix
  import opened RidgeSolve
  import opened GramAccumulation
  import opened RidgeOptimality
  import opened BackboneFit
  import opened ClampMargin

  // ---------- Every fit ----------

  /**
   * For every ridge, the fitted weights are the solver's answer to the identity times the cross terms. For a positive
   * ridge they are optimal if and only if the system maps that product back to the cross terms.
   */
  lemma FitIsTransfer(ws: seq<Window>, selected: seq<string>, sensors: seq<string>, ridge: real)
    ensures var n, m := |selected|, |sensors|;
            var a, h := RidgeSystem(ws, selected, ridge), PairMatrix(ws, selected, sensors);
            FittedWeights(ws, selected, sensors, ridge) == Product(Transfer(a, n), h, n, m)
    ensures var n, m := |selected|, |sensors|;
            var a, h := RidgeSystem(ws, selected, ridge), PairMatrix(ws, selected, sensors);
            ridge > 0.0 ==>
              (Minimises(ws, selected, sensors, FittedWeights(ws, selected, sensors, ridge), ridge)
               <==> Solves(a, h, Product(Transfer(a, n), h, n, m), n, m))
  {
    hide Minimises, Solves, Solution, Transfer, Product, System, PairMatrix;
    SolutionIsLinear(RidgeSystem(ws, selected, ridge), PairMatrix(ws, selected, sensors), |selected|, |sensors|);
    if ridge > 0.0 {
      MinimiserIffNormal(ws, selected, sensors, FittedWeights(ws, selected, sensors, ridge), ridge);
    }
  }

  /** For every positive ridge the tolerances stay quiet if and only if the answer to the identity is an inverse. */
  lemma RidgeQuietIffInverse(ws: seq<Window>, selected: seq<string>, ridge: real)
    requires ridge > 0.0
    ensures var n, a := |selected|, RidgeSystem(ws, selected, ridge);
            Quiet(a, n, n, n) <==> Solves(a, Identity(n), Transfer(a, n), n, n)
  {
    hide Quiet, Solves, Transfer, ExactForEveryRightHandSide, System, PairMatrix, Identity;
    RidgeExactIffQuiet(ws, selected, ridge);
    ExactIffInverse(RidgeSystem(ws, selected, ridge), |selected|);
  }

  /** For every positive ridge there is exactly one minimiser. */
  lemma MinimiserExists(ws: seq<Window>, selected: seq<string>, sensors: seq<string>, ridge: real) returns (x: Matrix)
    requires ridge > 0.0
    ensures Shape(x, |selected|, |sensors|) && Minimises(ws, selected, sensors, x, ridge)
    ensures forall y: Matrix :: Shape(y, |selected|, |sensors|) && Minimises(ws, selected, sensors, y, ridge) ==> y == x
  {
    hide Minimises, Solves, Injective, System, PairMatrix;
    RidgeSystemInjective(ws, selected, ridge);
    x := InjectiveIsSolvable(RidgeSystem(ws, selected, ridge), PairMatrix(ws, selected, sensors),
      |selected|, |sensors|);
    MinimiserIffNormal(ws, selected, sensors, x, ridge);
    forall y: Matrix | Shape(y, |selected|, |sensors|) && Minimises(ws, selected, sensors, y, ridge)
      ensures y == x
    {
      OnlyOneMinimiser(ws, selected, sensors, y, x, ridge);
    }
  }

  lemma OnlyOneMinimiser(
    ws: seq<Window>, selected: seq<string>, sensors: seq<string>, b: Matrix, x: Matrix, ridge: real)
    requires ridge > 0.0 && Shape(x, |selected|, |sensors|) && Shape(b, |selected|, |sensors|)
    requires Minimises(ws, selected, sensors, x, ridge) && Minimises(ws, selected, sensors, b, ridge)
    ensures b == x
  {
    MinimiserIsNormal(ws, selected, sensors, x, ridge);
    NormalIsUniqueMinimiser(ws, selected, sensors, x, ridge);
  }

  /** What the solver returns for the system itself: the identity, were it not for the tolerances. */
  ghost function Recovered(a: Matrix, n: nat): (r: Matrix)
    requires Shape(a, n, n)
    ensures Shape(r, n, n)
  {
    Solution(a, a, n, n)
  }

  /**
   * For every positive ridge, whatever pivots are clamped and factors skipped: the fitted weights are what the solver
   * returns for its own system, applied to the minimiser, and they are optimal if and only if that leaves the
   * minimiser as it is.
   */
  lemma FitError(ws: seq<Window>, selected: seq<string>, sensors: seq<string>, x: Matrix, ridge: real)
    requires ridge > 0.0 && Shape(x, |selected|, |sensors|) && Minimises(ws, selected, sensors, x, ridge)
    ensures var n, m, a := |selected|, |sensors|, RidgeSystem(ws, selected, ridge);
            FittedWeights(ws, selected, sensors, ridge) == Product(Recovered(a, n), x, n, m)
    ensures var n, m, a := |selected|, |sensors|, RidgeSystem(ws, selected, ridge);
            Minimises(ws, selected, sensors, FittedWeights(ws, selected, sensors, ridge), ridge)
            <==> Product(Recovered(a, n), x, n, m) == x
  {
    hide Minimises, Solves, Solution, Product, System, PairMatrix;
    var n, m, a := |selected|, |sensors|, RidgeSystem(ws, selected, ridge);
    MinimiserIffNormal(ws, selected, sensors, x, ridge);
    SolutionFactors(a, a, PairMatrix(ws, selected, sensors), x, n, m);
    if Minimises(ws, selected, sensors, FittedWeights(ws, selected, sensors, ridge), ridge) {
      OnlyOneMinimiser(ws, selected, sensors, FittedWeights(ws, selected, sensors, ridge), x, ridge);
    }
  }

  // ---------- Fits without a clamp ----------

  /** What the elimination makes of the system matrix itself: the identity, but for what was skipped. */
  ghost function Residue(a: Matrix, n: nat): (l: Matrix)
    requires Shape(a, n, n)
    ensures Shape(l, n, n)
  {
    Run(a, n, n, n)
  }

  lemma TwinBlocks(r: Matrix, n: nat)
    requires Shape(r, n, n + n) && Twin(r, n)
    ensures RightBlock(r, n, n) == LeftBlock(r, n, n + n)
  {
    forall i | 0 <= i < n
      ensures RightBlock(r, n, n)[i] == LeftBlock(r, n, n + n)[i]
    {
      assert forall j :: 0 <= j < n ==> r[i][n + j] == r[i][j];
    }
  }

  lemma UnclampedLeftBlock(g: Matrix, k: nat, n: nat, w: nat)
    requires k <= n <= w && Shape(g, n, w) && Unclamped(LeftBlock(g, n, w), k, n, n)
    ensures Unclamped(g, k, n, w)
  {
    hide FaithfulPivot, Run, LeftBlock;
    forall p: nat | p < k
      ensures FaithfulPivot(Run(g, p, n, w), p, n, w)
    {
      FaithfulLeft(g, p, n, w);
    }
  }

  lemma SelfAugmented(a: Matrix, n: nat)
    requires Shape(a, n, n)
    ensures LeftBlock(Augmented(a, a, n, n), n, n + n) == a && Twin(Augmented(a, a, n, n), n)
  {
    assert forall i :: 0 <= i < n ==> (a[i] + a[i])[..n] == a[i];
  }

  /** Without a clamp, the system is recovered but for what was skipped. */
  lemma UnclampedRecovers(a: Matrix, n: nat)
    requires Shape(a, n, n) && Unclamped(a, n, n, n)
    ensures Recovered(a, n) == Residue(a, n)
  {
    hide Run, Augmented, Unclamped, Twin, LeftBlock, RightBlock;
    var g := Augmented(a, a, n, n);
    SelfAugmented(a, n);
    UnclampedLeftBlock(g, n, n, n + n);
    TwinUntilClamped(g, n, n);
    TwinBlocks(Run(g, n, n, n + n), n);
    LeftRun(g, n, n, n + n);
  }

  /** Without a clamp, the returned block is the residue applied to any true solution. */
  lemma UnclampedSolution(a: Matrix, h: Matrix, x: Matrix, n: nat, m: nat)
    requires Shape(a, n, n) && Shape(h, n, m) && Shape(x, n, m)
    requires Unclamped(a, n, n, n) && Solves(a, h, x, n, m)
    ensures Solution(a, h, n, m) == Product(Residue(a, n), x, n, m)
  {
    hide Unclamped, Solves, Residue, Product, Run, RightBlock;
    SolutionFactors(a, a, h, x, n, m);
    UnclampedRecovers(a, n);
  }

  /**
   * With a positive ridge and no pivot clamped, whatever factors are skipped: the fitted weights are the residue of the
   * system applied to the minimiser, and they are optimal if and only if the residue leaves the minimiser as it is.
   */
  lemma SkippedFactorsError(
    ws: seq<Window>, selected: seq<string>, sensors: seq<string>, x: Matrix, ridge: real)
    requires ridge > 0.0 && Shape(x, |selected|, |sensors|) && Minimises(ws, selected, sensors, x, ridge)
    requires Unclamped(RidgeSystem(ws, selected, ridge), |selected|, |selected|, |selected|)
    ensures var n, m, a := |selected|, |sensors|, RidgeSystem(ws, selected, ridge);
            FittedWeights(ws, selected, sensors, ridge) == Product(Residue(a, n), x, n, m)
    ensures var n, m, a := |selected|, |sensors|, RidgeSystem(ws, selected, ridge);
            Minimises(ws, selected, sensors, FittedWeights(ws, selected, sensors, ridge), ridge)
            <==> Product(Residue(a, n), x, n, m) == x
  {
    hide Minimises, Unclamped, Residue, Recovered, Product, System, PairMatrix, FittedWeights;
    FitError(ws, selected, sensors, x, ridge);
    UnclampedRecovers(RidgeSystem(ws, selected, ridge), |selected|);
  }

  /**
   * With a ridge that leaves no room for a clamp, and so at the default settings, that is every fit: the fitted weights
   * are the residue of the system applied to the minimiser.
   */
  lemma FitWithoutRoom(
    ws: seq<Window>, selected: seq<string>, sensors: seq<string>, x: Matrix, ridge: real)
    requires RidgeExcludesClamp(ridge, |selected|)
    requires Shape(x, |selected|, |sensors|) && Minimises(ws, selected, sensors, x, ridge)
    ensures var n, m, a := |selected|, |sensors|, RidgeSystem(ws, selected, ridge);
            && FittedWeights(ws, selected, sensors, ridge) == Product(Residue(a, n), x, n, m)
            && (Minimises(ws, selected, sensors, FittedWeights(ws, selected, sensors, ridge), ridge)
                <==> Product(Residue(a, n), x, n, m) == x)
  {
    hide Minimises, Unclamped, Residue, Product, System, PairMatrix, FittedWeights, Reach, Leftover, Times;
    NoPivotIsClamped(ws, selected, ridge, |selected|);
    SkippedFactorsError(ws, selected, sensors, x, ridge);
  }
}
