/**
 How small a pivot of the ridge system can be. The rows that are not yet pivots carry all of the energy of
 the system applied to a vector that the finished rows annihilate, so the pivot found by the search is
 bounded below by the ridge.
 */
module PivotMargin {
  import opened Sums
  import opened LinearAlgebra
  import opened GaussJordan
  import opened TolerancesQuiet
  import opened RidgeSolve
  import opened GramAccumulation
  import opened RidgeOptimality

  function Square(): real -> real {
    (x: real) => Times(x, x)
  }

  ghost function Energy(u: Vector): real {
    SumOver(u, Square())
  }

  /** The matrix applied to `y`. */
  ghost function Image(a: Matrix, y: Vector, n: nat): (v: Vector)
    requires Shape(a, n, n) && |y| == n
    ensures |v| == n
  {
    seq(n, i requires 0 <= i < n => Dot(a[i], y, n))
  }

  lemma {:induction false} EnergyIsDot(u: Vector, k: nat)
    requires k <= |u|
    ensures Energy(u[..k]) == Dot(u, u, k)
  {
    if k > 0 {
      EnergyIsDot(u, k - 1);
      assert u[..k][..k - 1] == u[..k - 1];
    }
  }

  ghost predicate ZeroBefore(u: Vector, k: nat) {
    k <= |u| && forall i :: 0 <= i < k ==> u[i] == 0.0
  }

  function SwapEntries(u: Vector, p: nat, q: nat): (v: Vector)
    requires p < |u| && q < |u|
    ensures multiset(v) == multiset(u)
  {
    u[p := u[q]][q := u[p]]
  }

  /** What the pivot search and the swap do to the image. */
  lemma PivotedImage(a: Matrix, p: nat, y: Vector, n: nat)
    requires p < n && Shape(a, n, n) && |y| == n
    ensures Image(Pivoted(a, p, n, n), y, n) == SwapEntries(Image(a, y, n), p, BestRow(a, p, n))
  {
  }

  /**
   * An unclamped pivot that leaves a zero image in the pivot row leaves the image of every row of the swapped matrix,
   * whatever factors are skipped.
   */
  lemma ClearedImage(a: Matrix, p: nat, y: Vector, n: nat)
    requires p < n && Shape(a, n, n) && |y| == n && FaithfulPivot(a, p, n, n)
    requires Image(PivotStep(a, p, n, n), y, n)[p] == 0.0
    ensures Image(PivotStep(a, p, n, n), y, n) == Image(Pivoted(a, p, n, n), y, n)
  {
    var s := Pivoted(a, p, n, n);
    var d := ScaledRow(s[p], p);
    hide Dot, ScaledRow, ClearedRow, Pivoted, Clamped;
    assert Dot(d, y, n) == 0.0;
    forall i | 0 <= i < n
      ensures Image(PivotStep(a, p, n, n), y, n)[i] == Image(s, y, n)[i]
    {
      if i == p {
        ScaledRowDot(s[p], p, y, n);
      } else {
        ClearedRowMoves(s[i], p, d, y, n);
      }
    }
  }

  /** One unclamped pivot, read backwards. */
  lemma StepEnergy(a: Matrix, p: nat, y: Vector, n: nat)
    requires p < n && Shape(a, n, n) && |y| == n && FaithfulPivot(a, p, n, n)
    requires ZeroBefore(Image(PivotStep(a, p, n, n), y, n), p + 1)
    ensures ZeroBefore(Image(a, y, n), p)
    ensures Energy(Image(a, y, n)) == Energy(Image(PivotStep(a, p, n, n), y, n))
  {
    ClearedImage(a, p, y, n);
    PivotedImage(a, p, y, n);
    hide Image, PivotStep, Pivoted, FaithfulPivot;
    var u := Image(a, y, n);
    var swapped := SwapEntries(u, p, BestRow(a, p, n));
    SumPermutation(swapped, u, Square());
    assert forall i :: 0 <= i < p ==> u[i] == swapped[i];
  }

  /** If the finished rows annihilate `y`, the image of `y` has the same energy at every earlier stage. */
  lemma {:induction false} RunEnergy(a: Matrix, k: nat, p: nat, y: Vector, n: nat)
    requires k <= p <= n && Shape(a, n, n) && |y| == n && Unclamped(a, p, n, n)
    requires ZeroBefore(Image(Run(a, p, n, n), y, n), p)
    ensures ZeroBefore(Image(Run(a, k, n, n), y, n), k)
    ensures Energy(Image(Run(a, k, n, n), y, n)) == Energy(Image(Run(a, p, n, n), y, n))
    decreases p - k
  {
    hide Image, Energy, PivotStep, FaithfulPivot;
    if k < p {
      RunEnergy(a, k + 1, p, y, n);
      StepEnergy(Run(a, k, n, n), k, y, n);
    }
  }

  lemma {:induction false} SumBounded(u: Vector, f: real -> real, bound: real)
    requires forall x :: x in u ==> f(x) <= bound
    ensures SumOver(u, f) <= Times(|u| as real, bound)
  {
    if u != [] {
      var front, last := u[..|u| - 1], u[|u| - 1];
      assert last in u && forall x :: x in front ==> x in u;
      SumBounded(front, f, bound);
      assert Times(|u| as real, bound) == Times((|u| - 1) as real, bound) + bound;
    } else {
      assert Times(0.0, bound) == 0.0;
    }
  }

  lemma SquareGrows(x: real, y: real)
    requires Abs(x) <= Abs(y)
    ensures Times(x, x) <= Times(y, y)
  {
    TimesNonNegative(Abs(y) - Abs(x), Abs(y) + Abs(x));
    assert Times(Abs(y) - Abs(x), Abs(y) + Abs(x)) == Times(y, y) - Times(x, x);
  }

  /** The entry of row `i` in the pivot column once pivot `p` has been found and swapped into place. */
  ghost function PivotEntry(a: Matrix, p: nat, i: nat, n: nat): real
    requires p < n && i < n && Shape(a, n, n)
  {
    Pivoted(Run(a, p, n, n), p, n, n)[i][p]
  }

  /**
   * The pivot found by the search, squared and counted once a row, covers the energy of the system on a vector with
   * a one in it.
   */
  lemma PivotCoversEnergy(a: Matrix, p: nat, n: nat)
    requires p < n && Shape(a, n, n) && Quiet(a, p, n, n)
    ensures var pivot := PivotEntry(a, p, p, n);
            Energy(Image(a, NullVector(Run(a, p, n, n), p, n), n)) <= Times(n as real, Times(pivot, pivot))
  {
    var r := Run(a, p, n, n);
    var best := BestRow(r, p, n);
    var pivot := r[best][p];
    var y := NullVector(r, p, n);
    RunReduces(a, p, n, n);
    QuietIsUnclamped(a, p, n, n);
    hide Run, Quiet, Unclamped, Reduced, NullVector, Dot;
    var image := Image(r, y, n);
    forall i | 0 <= i < n
      ensures image[i] == if i < p then 0.0 else r[i][p]
      ensures Times(image[i], image[i]) <= Times(pivot, pivot)
    {
      NullVectorRow(r, p, i, n);
      SquareGrows(image[i], pivot);
    }
    SumBounded(image, Square(), Times(pivot, pivot));
    RunStart(a, n);
    RunEnergy(a, 0, p, y, n);
  }

  lemma RunStart(a: Matrix, n: nat)
    requires Shape(a, n, n)
    ensures Run(a, 0, n, n) == a
  {
  }

  /** From `form >= ridge * size` and Cauchy-Schwarz: the energy is at least the squared ridge times the size. */
  lemma EnergyFromForm(ridge: real, size: real, form: real, energy: real)
    requires ridge > 0.0 && size > 0.0
    requires form >= Times(ridge, size)
    requires Times(form, form) <= Times(size, energy)
    ensures Times(Times(ridge, ridge), size) <= energy
  {
    var least := Times(ridge, size);
    TimesSameSign(ridge, size);
    SquareGrows(least, form);
    assert Times(least, least) == Times(size, Times(Times(ridge, ridge), size));
    var scaled := Times(Times(ridge, ridge), size);
    assert Times(size, scaled - energy) == Times(size, scaled) - Times(size, energy);
    if scaled > energy {
      TimesSameSign(size, scaled - energy);
    }
  }

  /** A vector with a one in it has a squared norm of at least one. */
  lemma {:induction false} NormAtLeastOne(y: Vector, p: nat, k: nat)
    requires p < k <= |y| && y[p] == 1.0
    ensures Dot(y, y, k) >= 1.0
  {
    SquarePositive(y[k - 1]);
    if k == p + 1 {
      DotSelfPositive(y, p);
      assert Times(1.0, 1.0) == 1.0;
    } else {
      NormAtLeastOne(y, p, k - 1);
    }
  }

  /** With a positive ridge the system stretches every vector at least by the ridge. */
  lemma RidgeStretches(ws: seq<Window>, selected: seq<string>, ridge: real, y: Vector)
    requires ridge > 0.0 && |y| == |selected| && Dot(y, y, |y|) > 0.0
    ensures Times(Times(ridge, ridge), Dot(y, y, |y|)) <=
            Energy(Image(System(PairMatrix(ws, selected, selected), ridge, |selected|), y, |selected|))
  {
    var n := |selected|;
    var v := Image(System(PairMatrix(ws, selected, selected), ridge, n), y, n);
    SystemForm(ws, selected, y, v, ridge);
    CrossIsNonNegative(ws, selected, y);
    hide Dot, System, Image, PairMatrix;
    assert Dot(y, v, n) >= Times(ridge, Dot(y, y, n));
    EnergyIsDot(v, n);
    assert v[..n] == v;
    hide Energy, Curvature;
    CauchySchwarz(y, v, n);
    EnergyFromForm(ridge, Dot(y, y, n), Dot(y, v, n), Energy(v));
  }

  /** With a positive ridge the system does not shrink a vector with a one in it below the ridge. */
  lemma RidgeEnergy(ws: seq<Window>, selected: seq<string>, ridge: real, y: Vector, p: nat)
    requires ridge > 0.0 && |y| == |selected| && p < |y| && y[p] == 1.0
    ensures Times(ridge, ridge) <=
            Energy(Image(System(PairMatrix(ws, selected, selected), ridge, |selected|), y, |selected|))
  {
    hide Dot, System, Image, PairMatrix, Energy;
    NormAtLeastOne(y, p, |y|);
    RidgeStretches(ws, selected, ridge, y);
    SquarePositive(ridge);
    TimesNonNegative(Times(ridge, ridge), Dot(y, y, |y|) - 1.0);
    assert Times(Times(ridge, ridge), Dot(y, y, |y|) - 1.0) ==
      Times(Times(ridge, ridge), Dot(y, y, |y|)) - Times(ridge, ridge);
  }

  lemma CrossIsNonNegative(ws: seq<Window>, selected: seq<string>, y: Vector)
    requires |y| == |selected|
    ensures SumOver(ws, Cross(selected, y, y)) >= 0.0
  {
    forall w | w in ws
      ensures Cross(selected, y, y)(w) >= 0.0
    {
      SquarePositive(Projection(w, selected, y));
    }
    SumNonNegative(ws, Cross(selected, y, y));
  }

  /**
   * Every pivot of a quiet elimination of the ridge system is at least the ridge over the root of the number of
   * sensors.
   */
  lemma PivotAtLeastRidge(ws: seq<Window>, selected: seq<string>, ridge: real, p: nat)
    requires ridge > 0.0 && p < |selected|
    requires Quiet(System(PairMatrix(ws, selected, selected), ridge, |selected|), p, |selected|, |selected|)
    ensures var n := |selected|;
            var pivot := PivotEntry(System(PairMatrix(ws, selected, selected), ridge, n), p, p, n);
            Times(ridge, ridge) <= Times(n as real, Times(pivot, pivot))
  {
    var n := |selected|;
    var a := System(PairMatrix(ws, selected, selected), ridge, n);
    PivotCoversEnergy(a, p, n);
    RidgeEnergy(ws, selected, ridge, NullVector(Run(a, p, n, n), p, n), p);
  }

  /** The ridge clears the pivot floor for this many sensors. */
  predicate RidgeClearsFloor(ridge: real, n: nat) {
    ridge > 0.0 && Times(ridge, ridge) > Times(n as real, Times(PIVOT_FLOOR, PIVOT_FLOOR))
  }

  /** Every factor that is skipped is an exact zero. */
  ghost predicate FactorsQuiet(a: Matrix, n: nat)
    requires Shape(a, n, n)
  {
    forall p, i :: 0 <= p < n && 0 <= i < n && i != p ==>
      Abs(PivotEntry(a, p, i, n)) <= FACTOR_FLOOR ==> PivotEntry(a, p, i, n) == 0.0
  }

  lemma AboveFloor(ridge: real, n: nat, pivot: real)
    requires RidgeClearsFloor(ridge, n)
    requires Times(ridge, ridge) <= Times(n as real, Times(pivot, pivot))
    ensures Abs(pivot) > PIVOT_FLOOR
  {
    if Abs(pivot) <= PIVOT_FLOOR {
      SquareGrows(pivot, PIVOT_FLOOR);
      TimesNonNegative(n as real, Times(PIVOT_FLOOR, PIVOT_FLOOR) - Times(pivot, pivot));
      TimesAdds(n as real, Times(PIVOT_FLOOR, PIVOT_FLOOR) - Times(pivot, pivot), Times(pivot, pivot));
    }
  }

  /** A pivot above the floor and exact skipped factors make the next pivot quiet. */
  lemma QuietExtends(a: Matrix, p: nat, n: nat)
    requires p < n && Shape(a, n, n) && Quiet(a, p, n, n) && FactorsQuiet(a, n)
    requires Abs(PivotEntry(a, p, p, n)) > PIVOT_FLOOR
    ensures Quiet(a, p + 1, n, n)
  {
    hide Run, Pivoted;
    assert forall i :: 0 <= i < n ==> PivotEntry(a, p, i, n) == Pivoted(Run(a, p, n, n), p, n, n)[i][p];
    assert QuietAt(Run(a, p, n, n), p, n, n);
  }

  lemma {:induction false} QuietSoFar(ws: seq<Window>, selected: seq<string>, ridge: real, k: nat)
    requires RidgeClearsFloor(ridge, |selected|) && k <= |selected|
    requires FactorsQuiet(System(PairMatrix(ws, selected, selected), ridge, |selected|), |selected|)
    ensures Quiet(System(PairMatrix(ws, selected, selected), ridge, |selected|), k, |selected|, |selected|)
  {
    var n := |selected|;
    var a := System(PairMatrix(ws, selected, selected), ridge, n);
    assert k == 0 ==> Quiet(a, k, n, n);
    assert ridge > 0.0;
    hide *;
    if k > 0 {
      QuietSoFar(ws, selected, ridge, k - 1);
      PivotAtLeastRidge(ws, selected, ridge, k - 1);
      AboveFloor(ridge, n, PivotEntry(a, k - 1, k - 1, n));
      QuietExtends(a, k - 1, n);
    }
  }

  /**
   * With such a ridge the pivot clamp never fires: the elimination is quiet if and only if it skips exact zeros
   * only.
   */
  lemma RidgeQuietIff(ws: seq<Window>, selected: seq<string>, ridge: real)
    requires RidgeClearsFloor(ridge, |selected|)
    ensures var a := System(PairMatrix(ws, selected, selected), ridge, |selected|);
            Quiet(a, |selected|, |selected|, |selected|) <==> FactorsQuiet(a, |selected|)
  {
    var n := |selected|;
    var a := System(PairMatrix(ws, selected, selected), ridge, n);
    if FactorsQuiet(a, n) {
      QuietSoFar(ws, selected, ridge, n);
    }
    if Quiet(a, n, n, n) {
      hide System, PairMatrix, Run, Pivoted;
      forall p, i | 0 <= p < n && 0 <= i < n && i != p && Abs(PivotEntry(a, p, i, n)) <= FACTOR_FLOOR
        ensures PivotEntry(a, p, i, n) == 0.0
      {
        assert QuietAt(Run(a, p, n, n), p, n, n);
      }
    }
  }
}
