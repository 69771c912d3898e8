/**
 The Gauss-Jordan elimination of the backbone fit, as a function from augmented matrices to augmented
 matrices, with both of its tolerances: a pivot of magnitude at most 1e-12 is overwritten by 1e-12, and
 a row whose factor has magnitude at most 1e-18 is left alone.

 An augmented matrix has `n` rows of width `w`; its first `n` columns are the system and the rest are
 right-hand sides.
 */
module GaussJordan {
  import opened LinearAlgebra

  const PIVOT_FLOOR := 0.000_000_000_001
  const FACTOR_FLOOR := 0.000_000_000_000_000_001

  // ---------- The algorithm ----------

  /** The row the pivot search settles on after looking at rows `p..r`: the first of largest magnitude. */
  function BestRow(a: Matrix, p: nat, r: nat): (best: nat)
    requires p < r <= |a|
    requires forall i :: p <= i < r ==> p < |a[i]|
    ensures p <= best < r
    ensures forall i :: p <= i < r ==> Abs(a[i][p]) <= Abs(a[best][p])
    ensures forall i :: p <= i < best ==> Abs(a[i][p]) < Abs(a[best][p])
  {
    if r == p + 1 then p
    else
      var best := BestRow(a, p, r - 1);
      if Abs(a[r - 1][p]) > Abs(a[best][p]) then r - 1 else best
  }

  function Swapped(a: Matrix, p: nat, q: nat): Matrix
    requires p < |a| && q < |a|
  {
    a[p := a[q]][q := a[p]]
  }

  ghost function Pivoted(a: Matrix, p: nat, n: nat, w: nat): (s: Matrix)
    requires p < n <= w && Shape(a, n, w)
    ensures Shape(s, n, w)
  {
    Swapped(a, p, BestRow(a, p, n))
  }

  function Clamped(pivot: real): (c: real)
    ensures c != 0.0
  {
    if Abs(pivot) <= PIVOT_FLOOR then PIVOT_FLOOR else pivot
  }

  lemma SelfQuotient(x: real)
    requires x != 0.0
    ensures x / x == 1.0
  {
  }

  /** The pivot row after its pivot entry is clamped and the row is divided by it. */
  function ScaledRow(row: Vector, p: nat): (d: Vector)
    requires p < |row|
    ensures |d| == |row|
    ensures d[p] == 1.0
  {
    var pivot := Clamped(row[p]);
    SelfQuotient(pivot);
    seq(|row|, j requires 0 <= j < |row| => (if j == p then pivot else row[j]) / pivot)
  }

  /** Another row after the scaled pivot row `d` is used to clear its entry in column `p`. */
  function ClearedRow(row: Vector, p: nat, d: Vector): (c: Vector)
    requires p < |row| == |d|
    ensures |c| == |row|
  {
    if Abs(row[p]) <= FACTOR_FLOOR then row
    else seq(|row|, j requires 0 <= j < |row| => row[j] - Times(row[p], d[j]))
  }

  ghost function PivotStep(a: Matrix, p: nat, n: nat, w: nat): (b: Matrix)
    requires p < n <= w && Shape(a, n, w)
    ensures Shape(b, n, w)
  {
    var s := Pivoted(a, p, n, w);
    var d := ScaledRow(s[p], p);
    seq(n, i requires 0 <= i < n => if i == p then d else ClearedRow(s[i], p, d))
  }

  /** The augmented matrix after the first `k` pivots. */
  ghost function Run(a: Matrix, k: nat, n: nat, w: nat): (b: Matrix)
    requires k <= n <= w && Shape(a, n, w)
    ensures Shape(b, n, w)
  {
    if k == 0 then a else PivotStep(Run(a, k - 1, n, w), k - 1, n, w)
  }

  // ---------- Tolerances ----------

  /** At pivot `p` the clamp stores the value that is there. */
  ghost predicate FaithfulPivot(a: Matrix, p: nat, n: nat, w: nat)
    requires p < n <= w && Shape(a, n, w)
  {
    var s := Pivoted(a, p, n, w);
    Clamped(s[p][p]) == s[p][p]
  }

  /** None of the first `k` pivots is changed. Factors may have been skipped. */
  ghost predicate Unclamped(a: Matrix, k: nat, n: nat, w: nat)
    requires k <= n <= w && Shape(a, n, w)
  {
    forall p :: 0 <= p < k ==> FaithfulPivot(Run(a, p, n, w), p, n, w)
  }

  /**
   * At pivot `p` the tolerances change nothing: the clamp stores the value that is there, and every skipped factor
   * is an exact zero.
   */
  ghost predicate QuietAt(a: Matrix, p: nat, n: nat, w: nat)
    requires p < n <= w && Shape(a, n, w)
  {
    var s := Pivoted(a, p, n, w);
    && FaithfulPivot(a, p, n, w)
    && forall i :: 0 <= i < n && i != p && Abs(s[i][p]) <= FACTOR_FLOOR ==> s[i][p] == 0.0
  }

  ghost predicate Quiet(a: Matrix, k: nat, n: nat, w: nat)
    requires k <= n <= w && Shape(a, n, w)
  {
    forall p :: 0 <= p < k ==> QuietAt(Run(a, p, n, w), p, n, w)
  }

  lemma QuietIsUnclamped(a: Matrix, k: nat, n: nat, w: nat)
    requires k <= n <= w && Shape(a, n, w) && Quiet(a, k, n, w)
    ensures Unclamped(a, k, n, w)
  {
    hide Run, Pivoted;
    forall p | 0 <= p < k
      ensures FaithfulPivot(Run(a, p, n, w), p, n, w)
    {
      assert QuietAt(Run(a, p, n, w), p, n, w);
    }
  }

  // ---------- Solutions ----------

  /**
   * `y` is annihilated by every row. With `y = (x, -z)` this says that `x` solves the system for the right-hand side
   * `z` picks.
   */
  ghost predicate InKernel(a: Matrix, y: Vector, n: nat, w: nat)
    requires Shape(a, n, w) && |y| == w
  {
    forall i :: 0 <= i < n ==> Dot(a[i], y, w) == 0.0
  }

  lemma SwapKernel(a: Matrix, p: nat, q: nat, y: Vector, n: nat, w: nat)
    requires p < n && q < n && Shape(a, n, w) && |y| == w
    ensures InKernel(Swapped(a, p, q), y, n, w) <==> InKernel(a, y, n, w)
  {
    var s := Swapped(a, p, q);
    assert s[p] == a[q] && s[q] == a[p];
    assert forall i :: 0 <= i < n && i != p && i != q ==> s[i] == a[i];
    assert forall i :: 0 <= i < n ==> a[i] == s[if i == p then q else if i == q then p else i];
  }

  /** With a faithful pivot, the scaled row is the pivot row over its pivot. */
  lemma ScaledRowDot(row: Vector, p: nat, y: Vector, w: nat)
    requires p < |row| == w && |y| == w
    requires Clamped(row[p]) == row[p]
    ensures Dot(row, y, w) == Times(row[p], Dot(ScaledRow(row, p), y, w))
  {
    var d := ScaledRow(row, p);
    forall j | 0 <= j < w
      ensures row[j] == Times(row[p], d[j]) + Times(0.0, d[j])
    {
      assert d[j] == row[j] / row[p];
      assert row[p] * (row[j] / row[p]) == row[j];
    }
    DotCombination(row, row[p], d, 0.0, d, y, w);
  }

  /** With faithful factors, clearing subtracts the factor times the pivot row. */
  lemma ClearedRowDot(row: Vector, p: nat, d: Vector, y: Vector, w: nat)
    requires p < |row| == |d| == w && |y| == w
    requires Abs(row[p]) <= FACTOR_FLOOR ==> row[p] == 0.0
    ensures Dot(ClearedRow(row, p, d), y, w) == Dot(row, y, w) - Times(row[p], Dot(d, y, w))
  {
    var c := ClearedRow(row, p, d);
    forall j | 0 <= j < w
      ensures c[j] == Times(1.0, row[j]) + Times(-row[p], d[j])
    {
      assert c[j] == row[j] - Times(row[p], d[j]);
    }
    DotCombination(c, 1.0, row, -row[p], d, y, w);
  }

  /** Whether or not the factor is skipped, clearing subtracts a multiple of the pivot row. */
  lemma ClearedRowMoves(row: Vector, p: nat, d: Vector, y: Vector, w: nat)
    requires p < |row| == |d| == w && |y| == w && Dot(d, y, w) == 0.0
    ensures Dot(ClearedRow(row, p, d), y, w) == Dot(row, y, w)
  {
    assert Times(row[p], 0.0) == 0.0;
    if Abs(row[p]) > FACTOR_FLOOR {
      ClearedRowDot(row, p, d, y, w);
    }
  }

  /** One unclamped pivot keeps exactly the same kernel, in both directions, whatever factors are skipped. */
  lemma StepKernel(a: Matrix, p: nat, y: Vector, n: nat, w: nat)
    requires p < n <= w && Shape(a, n, w) && |y| == w
    requires FaithfulPivot(a, p, n, w)
    ensures InKernel(PivotStep(a, p, n, w), y, n, w) <==> InKernel(a, y, n, w)
  {
    var s := Pivoted(a, p, n, w);
    var d := ScaledRow(s[p], p);
    var b := PivotStep(a, p, n, w);
    SwapKernel(a, p, BestRow(a, p, n), y, n, w);
    ScaledRowDot(s[p], p, y, w);
    assert b[p] == d;
    hide Dot, ScaledRow, ClearedRow, Pivoted;
    assert Times(s[p][p], 0.0) == 0.0;
    if Dot(d, y, w) == 0.0 {
      forall i | 0 <= i < n && i != p
        ensures Dot(b[i], y, w) == Dot(s[i], y, w)
      {
        ClearedRowMoves(s[i], p, d, y, w);
      }
    }
    assert Dot(d, y, w) == 0.0 <==> Dot(s[p], y, w) == 0.0;
  }

  lemma {:induction false} RunKernel(a: Matrix, k: nat, y: Vector, n: nat, w: nat)
    requires k <= n <= w && Shape(a, n, w) && |y| == w
    requires Unclamped(a, k, n, w)
    ensures InKernel(Run(a, k, n, w), y, n, w) <==> InKernel(a, y, n, w)
  {
    hide InKernel, PivotStep, FaithfulPivot;
    if k > 0 {
      RunKernel(a, k - 1, y, n, w);
      StepKernel(Run(a, k - 1, n, w), k - 1, y, n, w);
    }
  }

  // ---------- Reduced form ----------

  function Delta(i: int, j: int): real {
    if i == j then 1.0 else 0.0
  }

  /** The first `k` columns are the first `k` columns of the identity. */
  ghost predicate Reduced(a: Matrix, k: nat, n: nat, w: nat)
    requires k <= n <= w && Shape(a, n, w)
  {
    forall i, c :: 0 <= i < n && 0 <= c < k ==> a[i][c] == Delta(i, c)
  }

  lemma StepReduces(a: Matrix, p: nat, n: nat, w: nat)
    requires p < n <= w && Shape(a, n, w)
    requires QuietAt(a, p, n, w) && Reduced(a, p, n, w)
    ensures Reduced(PivotStep(a, p, n, w), p + 1, n, w)
  {
    var s := Pivoted(a, p, n, w);
    var d := ScaledRow(s[p], p);
    var b := PivotStep(a, p, n, w);
    forall i, c | 0 <= i < n && 0 <= c < p + 1
      ensures b[i][c] == Delta(i, c)
    {
      if c == p {
        assert i != p ==> b[i][p] == if Abs(s[i][p]) <= FACTOR_FLOOR then s[i][p] else s[i][p] - Times(s[i][p], d[p]);
      } else {
        assert s[p][c] == 0.0 && d[c] == 0.0;
        assert s[i][c] == Delta(i, c);
      }
    }
  }

  lemma NothingReduced(a: Matrix, n: nat, w: nat)
    requires n <= w && Shape(a, n, w)
    ensures Reduced(a, 0, n, w)
  {
  }

  lemma {:induction false} RunReduces(a: Matrix, k: nat, n: nat, w: nat)
    requires k <= n <= w && Shape(a, n, w)
    requires Quiet(a, k, n, w)
    ensures Reduced(Run(a, k, n, w), k, n, w)
  {
    hide Reduced, PivotStep, QuietAt;
    if k == 0 {
      NothingReduced(a, n, w);
    } else {
      RunReduces(a, k - 1, n, w);
      StepReduces(Run(a, k - 1, n, w), k - 1, n, w);
    }
  }

  // ---------- The solved block ----------

  ghost function Augmented(a: Matrix, h: Matrix, n: nat, m: nat): (g: Matrix)
    requires Shape(a, n, n) && Shape(h, n, m)
    ensures Shape(g, n, n + m)
  {
    seq(n, i requires 0 <= i < n => a[i] + h[i])
  }

  ghost function RightBlock(r: Matrix, n: nat, m: nat): (x: Matrix)
    requires Shape(r, n, n + m)
    ensures Shape(x, n, m)
  {
    seq(n, i requires 0 <= i < n => r[i][n..])
  }

  /** What the solver returns: the right-hand columns after all `n` pivots. */
  ghost function Solution(a: Matrix, h: Matrix, n: nat, m: nat): (x: Matrix)
    requires Shape(a, n, n) && Shape(h, n, m)
    ensures Shape(x, n, m)
  {
    RightBlock(Run(Augmented(a, h, n, m), n, n, n + m), n, m)
  }

  ghost function Column(x: Matrix, c: nat, n: nat, m: nat): (v: Vector)
    requires Shape(x, n, m) && c < m
    ensures |v| == n
  {
    seq(n, j requires 0 <= j < n => x[j][c])
  }

  /** `a` times `x` equals `h`. */
  ghost predicate Solves(a: Matrix, h: Matrix, x: Matrix, n: nat, m: nat)
    requires Shape(a, n, n) && Shape(h, n, m) && Shape(x, n, m)
  {
    forall i, c :: 0 <= i < n && 0 <= c < m ==> Dot(a[i], Column(x, c, n, m), n) == h[i][c]
  }

  /** The vector `(x e_c, -e_c)`. */
  ghost function Witness(x: Matrix, c: nat, n: nat, m: nat): (y: Vector)
    requires Shape(x, n, m) && c < m
    ensures |y| == n + m
  {
    Column(x, c, n, m) + seq(m, j => -Delta(c, j))
  }

  lemma WitnessDot(row: Vector, x: Matrix, c: nat, n: nat, m: nat)
    requires Shape(x, n, m) && c < m && |row| == n + m
    ensures Dot(row, Witness(x, c, n, m), n + m) == Dot(row, Column(x, c, n, m), n) - row[n + c]
  {
    var y := Witness(x, c, n, m);
    assert y[n + c] == -1.0;
    DotSpike(row, y, n, n + c, n + m);
    DotAgree(row, row, y, Column(x, c, n, m), n);
  }

  lemma WitnessSolves(a: Matrix, h: Matrix, x: Matrix, n: nat, m: nat)
    requires Shape(a, n, n) && Shape(h, n, m) && Shape(x, n, m)
    ensures Solves(a, h, x, n, m) <==> forall c :: 0 <= c < m ==>
            InKernel(Augmented(a, h, n, m), Witness(x, c, n, m), n, n + m)
  {
    var g := Augmented(a, h, n, m);
    forall i, c | 0 <= i < n && 0 <= c < m
      ensures Dot(g[i], Witness(x, c, n, m), n + m) == Dot(a[i], Column(x, c, n, m), n) - h[i][c]
    {
      WitnessDot(g[i], x, c, n, m);
      DotAgree(g[i], a[i], Column(x, c, n, m), Column(x, c, n, m), n);
    }
    if forall c :: 0 <= c < m ==> InKernel(g, Witness(x, c, n, m), n, n + m) {
      forall i, c | 0 <= i < n && 0 <= c < m
        ensures Dot(a[i], Column(x, c, n, m), n) == h[i][c]
      {
        assert InKernel(g, Witness(x, c, n, m), n, n + m);
      }
    }
  }

  /** A row that starts with the `i`-th unit vector reads off the `i`-th entry. */
  lemma UnitRowDot(row: Vector, v: Vector, i: nat, n: nat)
    requires i < n <= |row| && n <= |v|
    requires forall c :: 0 <= c < n ==> row[c] == Delta(i, c)
    ensures Dot(row, v, n) == v[i]
  {
    DotSymmetric(row, v, n);
    DotSpike(v, row, 0, i, n);
  }

  lemma ReducedWitness(r: Matrix, x: Matrix, n: nat, m: nat)
    requires Shape(r, n, n + m) && Shape(x, n, m)
    requires Reduced(r, n, n, n + m)
    ensures (forall c :: 0 <= c < m ==> InKernel(r, Witness(x, c, n, m), n, n + m)) <==> x == RightBlock(r, n, m)
  {
    forall i, c | 0 <= i < n && 0 <= c < m
      ensures Dot(r[i], Witness(x, c, n, m), n + m) == x[i][c] - r[i][n..][c]
    {
      WitnessDot(r[i], x, c, n, m);
      UnitRowDot(r[i], Column(x, c, n, m), i, n);
    }
    if forall c :: 0 <= c < m ==> InKernel(r, Witness(x, c, n, m), n, n + m) {
      forall i, c | 0 <= i < n && 0 <= c < m
        ensures x[i][c] == r[i][n..][c]
      {
        assert InKernel(r, Witness(x, c, n, m), n, n + m);
      }
      assert forall i :: 0 <= i < n ==> x[i] == RightBlock(r, n, m)[i];
    }
  }

  lemma QuietWitness(g: Matrix, x: Matrix, n: nat, m: nat)
    requires Shape(g, n, n + m) && Shape(x, n, m)
    requires Quiet(g, n, n, n + m)
    ensures (forall c :: 0 <= c < m ==> InKernel(Run(g, n, n, n + m), Witness(x, c, n, m), n, n + m))
       <==> (forall c :: 0 <= c < m ==> InKernel(g, Witness(x, c, n, m), n, n + m))
  {
    hide InKernel, Witness, Run, Quiet, Unclamped;
    QuietIsUnclamped(g, n, n, n + m);
    var r := Run(g, n, n, n + m);
    forall c | 0 <= c < m
      ensures InKernel(r, Witness(x, c, n, m), n, n + m) <==> InKernel(g, Witness(x, c, n, m), n, n + m)
    {
      RunKernel(g, n, Witness(x, c, n, m), n, n + m);
    }
  }

  /** When the tolerances stay quiet, the returned block is the one and only solution. */
  lemma QuietSolution(a: Matrix, h: Matrix, x: Matrix, n: nat, m: nat)
    requires Shape(a, n, n) && Shape(h, n, m) && Shape(x, n, m)
    requires Quiet(Augmented(a, h, n, m), n, n, n + m)
    ensures Solves(a, h, x, n, m) <==> x == Solution(a, h, n, m)
  {
    hide Run, Quiet, Reduced, InKernel, Witness, Solves, Augmented, RightBlock;
    var g := Augmented(a, h, n, m);
    RunReduces(g, n, n, n + m);
    WitnessSolves(a, h, x, n, m);
    QuietWitness(g, x, n, m);
    ReducedWitness(Run(g, n, n, n + m), x, n, m);
  }
}
