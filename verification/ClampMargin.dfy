/**
 How small a pivot of the ridge system can be although factors have been skipped. The search for the largest pivot
 keeps what a skipped factor leaves behind from more than doubling at a later pivot, so that the clamp cannot fire for
 the ridges and numbers of sensors in use.
 */
module ClampMargin {
  import opened Sums
  import opened LinearAlgebra
  import opened GaussJordan
  import opened LinearSystems
  import opened RidgeSolve
  import opened GramAccumulation
  import opened RidgeOptimality
  import opened PivotMargin

  // ---------- What skipped factors leave behind ----------

  /** A bound on what skipped factors leave in the first `k` columns below the first `k` rows. */
  ghost function Leftover(k: nat): (bound: real)
    ensures bound >= 0.0
  {
    if k == 0 then 0.0 else if k == 1 then FACTOR_FLOOR else 2.0 * Leftover(k - 1)
  }

  lemma {:induction false} LeftoverGrows(k: nat)
    ensures Leftover(k) <= Leftover(k + 1) && 2.0 * Leftover(k) <= Leftover(k + 1) && FACTOR_FLOOR <= Leftover(k + 1)
  {
    if k > 0 {
      LeftoverGrows(k - 1);
    }
  }

  ghost predicate LittleLeft(a: Matrix, k: nat, bound: real, n: nat)
    requires k <= n && Shape(a, n, n)
  {
    forall i, c :: k <= i < n && 0 <= c < k ==> Abs(a[i][c]) <= bound
  }

  lemma FactorBelowPivot(f: real, pivot: real, x: real)
    requires pivot != 0.0 && Abs(f) <= Abs(pivot)
    ensures Abs(Times(f, x / pivot)) <= Abs(x)
  {
    var q := x / pivot;
    assert q * pivot == x;
    ProductMagnitude(f, q);
    ProductMagnitude(pivot, q);
    TimesNonNegative(Abs(pivot) - Abs(f), Abs(q));
    assert Times(Abs(pivot) - Abs(f), Abs(q)) == Times(Abs(pivot), Abs(q)) - Times(Abs(f), Abs(q));
  }

  lemma ProductMagnitude(x: real, y: real)
    ensures Abs(Times(x, y)) == Times(Abs(x), Abs(y))
  {
    if x < 0.0 {
      assert Times(x, y) == -Times(-x, y);
      NonNegativeMagnitude(-x, y);
    } else {
      NonNegativeMagnitude(x, y);
    }
  }

  lemma NonNegativeMagnitude(x: real, y: real)
    requires x >= 0.0
    ensures Abs(Times(x, y)) == Times(x, Abs(y))
  {
    if y < 0.0 {
      TimesNonNegative(x, -y);
      assert Times(x, y) == -Times(x, -y);
    } else {
      TimesNonNegative(x, y);
    }
  }

  lemma AbsDifference(x: real, y: real, b: real)
    requires Abs(x) <= b && Abs(y) <= b
    ensures Abs(x - y) <= 2.0 * b
  {
  }

  /** One entry of a row below an unclamped pivot. */
  lemma ClearedEntry(row: Vector, pivotRow: Vector, p: nat, c: nat, bound: real)
    requires c < p < |row| == |pivotRow| && Clamped(pivotRow[p]) == pivotRow[p]
    requires Abs(row[p]) <= Abs(pivotRow[p]) && Abs(row[c]) <= bound && Abs(pivotRow[c]) <= bound
    ensures Abs(ClearedRow(row, p, ScaledRow(pivotRow, p))[c]) <= 2.0 * bound
  {
    var d := ScaledRow(pivotRow, p);
    assert d[c] == pivotRow[c] / pivotRow[p];
    FactorBelowPivot(row[p], pivotRow[p], pivotRow[c]);
    hide Times;
    AbsDifference(row[c], Times(row[p], d[c]), bound);
  }

  /** The entry in the pivot column is cleared, or too small to be. */
  lemma ClearedPivotEntry(row: Vector, pivotRow: Vector, p: nat)
    requires p < |row| == |pivotRow|
    ensures Abs(ClearedRow(row, p, ScaledRow(pivotRow, p))[p]) <= FACTOR_FLOOR
  {
    var d := ScaledRow(pivotRow, p);
    assert d[p] == 1.0 && Times(row[p], 1.0) == row[p];
  }

  lemma LittleLeftStep(a: Matrix, p: nat, bound: real, n: nat)
    requires p < n && Shape(a, n, n) && FaithfulPivot(a, p, n, n)
    requires bound >= 0.0 && LittleLeft(a, p, bound, n)
    ensures LittleLeft(PivotStep(a, p, n, n), p + 1, Max(2.0 * bound, FACTOR_FLOOR), n)
  {
    var s := Pivoted(a, p, n, n);
    var b := PivotStep(a, p, n, n);
    forall i | p <= i < n
      ensures Abs(s[i][p]) <= Abs(s[p][p])
      ensures forall c :: 0 <= c < p ==> Abs(s[i][c]) <= bound
    {
    }
    hide Pivoted, ClearedRow, ScaledRow, Clamped, Abs;
    forall i, c | p + 1 <= i < n && 0 <= c < p + 1
      ensures Abs(b[i][c]) <= Max(2.0 * bound, FACTOR_FLOOR)
    {
      assert b[i] == ClearedRow(s[i], p, ScaledRow(s[p], p));
      if c < p {
        ClearedEntry(s[i], s[p], p, c, bound);
      } else {
        ClearedPivotEntry(s[i], s[p], p);
      }
    }
  }

  lemma {:induction false} LittleLeftRun(a: Matrix, k: nat, n: nat)
    requires k <= n && Shape(a, n, n) && Unclamped(a, k, n, n)
    ensures LittleLeft(Run(a, k, n, n), k, Leftover(k), n)
  {
    hide PivotStep, FaithfulPivot;
    if k > 0 {
      LittleLeftRun(a, k - 1, n);
      LittleLeftStep(Run(a, k - 1, n, n), k - 1, Leftover(k - 1), n);
      LeftoverGrows(k - 1);
    }
  }

  // ---------- A vector that the finished rows annihilate ----------

  ghost predicate ZeroAfter(y: Vector, p: nat) {
    forall c :: p < c < |y| ==> y[c] == 0.0
  }

  ghost function FinishedRows(r: Matrix, p: nat, n: nat): (rows: Matrix)
    requires p < n && Shape(r, n, n)
    ensures Shape(rows, p, p + 1)
  {
    seq(p, i requires 0 <= i < p => r[i][..p + 1])
  }

  lemma FinishedNull(r: Matrix, p: nat, n: nat) returns (y: Vector)
    requires p < n && Shape(r, n, n)
    ensures |y| == n && ZeroBefore(Image(r, y, n), p) && ZeroAfter(y, p) && Dot(y, y, n) > 0.0
  {
    var rows := FinishedRows(r, p, n);
    var z := Underdetermined(rows, p);
    y := z + seq(n - p - 1, c => 0.0);
    forall i | 0 <= i < p
      ensures Image(r, y, n)[i] == 0.0
    {
      DotZeroTail(r[i], y, p + 1, n);
      DotAgree(r[i], rows[i], y, z, p + 1);
    }
    var j :| 0 <= j <= p && z[j] != 0.0;
    assert y[j] != 0.0;
    DotSelfPositive(y, n);
  }

  /** The squared length of a row with small entries before the pivot column. */
  ghost function Reach(p: nat, bound: real, pivot: real): real {
    Times(p as real, Times(bound, bound)) + Times(pivot, pivot)
  }

  lemma {:induction false} SquaresBounded(row: Vector, p: nat, bound: real)
    requires p <= |row| && forall c :: 0 <= c < p ==> Abs(row[c]) <= bound
    ensures Dot(row, row, p) <= Times(p as real, Times(bound, bound))
  {
    if p > 0 {
      SquaresBounded(row, p - 1, bound);
      SquareGrows(row[p - 1], bound);
      var square := Times(bound, bound);
      assert Times(p as real, square) == Times((p - 1) as real, square) + square;
    } else {
      assert Times(0.0, Times(bound, bound)) == 0.0;
    }
  }

  /** What an unfinished row makes of such a vector. */
  lemma SmallImage(row: Vector, y: Vector, p: nat, bound: real, pivot: real, n: nat)
    requires p < n == |row| == |y| && ZeroAfter(y, p)
    requires (forall c :: 0 <= c < p ==> Abs(row[c]) <= bound) && Abs(row[p]) <= Abs(pivot)
    ensures Times(Dot(row, y, n), Dot(row, y, n)) <= Times(Reach(p, bound, pivot), Dot(y, y, n))
  {
    DotZeroTail(row, y, p + 1, n);
    DotZeroTail(y, y, p + 1, n);
    CauchySchwarz(row, y, p + 1);
    SquaresBounded(row, p, bound);
    SquareGrows(row[p], pivot);
    DotSelfPositive(y, n);
    assert Dot(row, row, p + 1) == Dot(row, row, p) + Times(row[p], row[p]);
    hide Dot, Times;
    FactorGrows(Dot(row, row, p + 1), Reach(p, bound, pivot), Dot(y, y, n));
  }

  lemma FactorGrows(x: real, y: real, z: real)
    requires x <= y && z >= 0.0
    ensures Times(x, z) <= Times(y, z)
  {
    TimesNonNegative(y - x, z);
    assert Times(y - x, z) == Times(y, z) - Times(x, z);
  }

  // ---------- The margin ----------

  lemma SmallEnergy(r: Matrix, p: nat, bound: real, y: Vector, n: nat)
    requires p < n && Shape(r, n, n) && |y| == n && LittleLeft(r, p, bound, n)
    requires ZeroBefore(Image(r, y, n), p) && ZeroAfter(y, p)
    ensures var pivot := Pivoted(r, p, n, n)[p][p];
            Energy(Image(r, y, n)) <= Times(n as real, Times(Reach(p, bound, pivot), Dot(y, y, n)))
  {
    var pivot, image := Pivoted(r, p, n, n)[p][p], Image(r, y, n);
    var most := Times(Reach(p, bound, pivot), Dot(y, y, n));
    assert pivot == r[BestRow(r, p, n)][p];
    MostIsNonNegative(p, bound, pivot, y);
    hide Reach, Pivoted, Dot, Times;
    forall i | 0 <= i < n
      ensures Times(image[i], image[i]) <= most
    {
      if i < p {
        SquareOfZero();
      } else {
        SmallImage(r[i], y, p, bound, pivot, n);
      }
    }
    SumBounded(image, Square(), most);
  }

  lemma SquareOfZero()
    ensures Times(0.0, 0.0) == 0.0
  {
  }

  lemma MostIsNonNegative(p: nat, bound: real, pivot: real, y: Vector)
    ensures Times(Reach(p, bound, pivot), Dot(y, y, |y|)) >= 0.0
  {
    SquarePositive(bound);
    SquarePositive(pivot);
    TimesNonNegative(p as real, Times(bound, bound));
    DotSelfPositive(y, |y|);
    TimesNonNegative(Reach(p, bound, pivot), Dot(y, y, |y|));
  }

  lemma CancelSize(square: real, n: real, reach: real, size: real)
    requires size > 0.0 && Times(square, size) <= Times(n, Times(reach, size))
    ensures square <= Times(n, reach)
  {
    assert Times(n, Times(reach, size)) == Times(Times(n, reach), size);
    assert Times(square - Times(n, reach), size) == Times(square, size) - Times(Times(n, reach), size);
    if square > Times(n, reach) {
      TimesSameSign(square - Times(n, reach), size);
    }
  }

  /**
   * For every positive ridge, as long as no pivot has been clamped and whatever factors have been skipped: the next
   * pivot, squared, and the square of what skipping can have left, once a column, together cover the squared ridge when
   * counted once a row.
   */
  lemma UnclampedPivotMargin(ws: seq<Window>, selected: seq<string>, ridge: real, p: nat)
    requires ridge > 0.0 && p < |selected|
    requires Unclamped(System(PairMatrix(ws, selected, selected), ridge, |selected|), p, |selected|, |selected|)
    ensures var n := |selected|;
            var pivot := PivotEntry(System(PairMatrix(ws, selected, selected), ridge, n), p, p, n);
            Times(ridge, ridge) <= Times(n as real, Reach(p, Leftover(p), pivot))
  {
    hide System, PairMatrix, Run, Pivoted, Reach, Leftover, Image, Energy, Dot, Times, Unclamped, LittleLeft;
    var n := |selected|;
    var a := System(PairMatrix(ws, selected, selected), ridge, n);
    var r := Run(a, p, n, n);
    LittleLeftRun(a, p, n);
    var y := FinishedNull(r, p, n);
    SmallEnergy(r, p, Leftover(p), y, n);
    RunStart(a, n);
    RunEnergy(a, 0, p, y, n);
    RidgeStretches(ws, selected, ridge, y);
    CancelSize(Times(ridge, ridge), n as real, Reach(p, Leftover(p), PivotEntry(a, p, p, n)), Dot(y, y, n));
  }

  /** The ridge leaves no room for a clamp among this many sensors, even with factors skipped all along. */
  ghost predicate RidgeExcludesClamp(ridge: real, n: nat) {
    ridge > 0.0 && Times(ridge, ridge) > Times(n as real, Reach(n, Leftover(n), PIVOT_FLOOR))
  }

  lemma {:induction false} LeftoverMonotone(k: nat, n: nat)
    requires k <= n
    ensures Leftover(k) <= Leftover(n)
  {
    if k < n {
      LeftoverMonotone(k, n - 1);
      LeftoverGrows(n - 1);
    }
  }

  lemma ReachGrows(p: nat, bound: real, pivot: real, n: nat, bound': real, pivot': real)
    requires p <= n && 0.0 <= bound <= bound' && Abs(pivot) <= Abs(pivot')
    ensures Reach(p, bound, pivot) <= Reach(n, bound', pivot')
  {
    SquareGrows(bound, bound');
    SquareGrows(pivot, pivot');
    SquarePositive(bound);
    var x, y := Times(bound, bound), Times(bound', bound');
    TimesNonNegative(p as real, y - x);
    TimesNonNegative((n - p) as real, y);
    assert Times(p as real, y - x) == Times(p as real, y) - Times(p as real, x);
    assert Times((n - p) as real, y) == Times(n as real, y) - Times(p as real, y);
  }

  /** Where the ridge leaves no room, no pivot is ever clamped, for all windows and whatever factors are skipped. */
  lemma {:induction false} NoPivotIsClamped(ws: seq<Window>, selected: seq<string>, ridge: real, k: nat)
    requires RidgeExcludesClamp(ridge, |selected|) && k <= |selected|
    ensures Unclamped(System(PairMatrix(ws, selected, selected), ridge, |selected|), k, |selected|, |selected|)
  {
    var n := |selected|;
    hide System, PairMatrix, Run, Pivoted, Reach, Leftover, Times;
    if k > 0 {
      var a := System(PairMatrix(ws, selected, selected), ridge, n);
      var p := k - 1;
      var pivot := PivotEntry(a, p, p, n);
      NoPivotIsClamped(ws, selected, ridge, p);
      UnclampedPivotMargin(ws, selected, ridge, p);
      if Abs(pivot) <= PIVOT_FLOOR {
        LeftoverMonotone(p, n);
        ReachGrows(p, Leftover(p), pivot, n, Leftover(n), PIVOT_FLOOR);
        CountGrows(n, Reach(p, Leftover(p), pivot), Reach(n, Leftover(n), PIVOT_FLOOR));
      }
      assert FaithfulPivot(Run(a, p, n, n), p, n, n);
    }
  }

  lemma CountGrows(n: nat, x: real, y: real)
    requires x <= y
    ensures Times(n as real, x) <= Times(n as real, y)
  {
    TimesNonNegative(n as real, y - x);
    assert Times(n as real, y - x) == Times(n as real, y) - Times(n as real, x);
  }

  // ---------- The defaults ----------

  /** The configured number of selected sensors. */
  const SENSOR_COUNT := 8

  lemma LeftoverOfDefault()
    ensures Leftover(8) == 128.0 * FACTOR_FLOOR
  {
    assert Leftover(4) == 8.0 * FACTOR_FLOOR;
    assert Leftover(6) == 4.0 * Leftover(4);
  }

  /** A ridge of at least one leaves no room for a clamp among the configured number of sensors. */
  lemma DefaultsExcludeClamp(ridge: real, n: nat)
    requires ridge >= 1.0 && n <= SENSOR_COUNT
    ensures RidgeExcludesClamp(ridge, n)
  {
    LeftoverMonotone(n, SENSOR_COUNT);
    LeftoverOfDefault();
    SquareGrows(1.0, ridge);
    ReachGrows(n, Leftover(n), PIVOT_FLOOR, SENSOR_COUNT, 128.0 * FACTOR_FLOOR, PIVOT_FLOOR);
    assert Reach(SENSOR_COUNT, 128.0 * FACTOR_FLOOR, PIVOT_FLOOR) <= 0.01;
    FactorGrows(n as real, 8.0, 0.01);
    CountGrows(n, Reach(n, Leftover(n), PIVOT_FLOOR), 0.01);
  }
}
