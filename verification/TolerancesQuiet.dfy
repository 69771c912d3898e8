/**
 Exactly when the elimination's tolerances are harmless. For a square system the solver returns an exact
 solution for every right-hand side, and that solution is unique, if and only if no tolerance ever
 changes a value while the system itself is eliminated.
 */
module TolerancesQuiet {
  import opened LinearAlgebra
  import opened GaussJordan

  // ---------- The right-hand sides do not influence the pivots ----------

  ghost function LeftBlock(a: Matrix, n: nat, w: nat): (b: Matrix)
    requires n <= w && Shape(a, n, w)
    ensures Shape(b, n, n)
  {
    seq(n, i requires 0 <= i < n => a[i][..n])
  }

  lemma {:induction false} BestRowLeft(a: Matrix, p: nat, r: nat, n: nat, w: nat)
    requires p < r <= n <= w && Shape(a, n, w)
    ensures BestRow(LeftBlock(a, n, w), p, r) == BestRow(a, p, r)
  {
    var left := LeftBlock(a, n, w);
    assert forall i :: p <= i < r ==> left[i][p] == a[i][p];
    hide LeftBlock, Abs;
    if r > p + 1 {
      BestRowLeft(a, p, r - 1, n, w);
    }
  }

  lemma PivotedLeft(a: Matrix, p: nat, n: nat, w: nat)
    requires p < n <= w && Shape(a, n, w)
    ensures Pivoted(LeftBlock(a, n, w), p, n, n) == LeftBlock(Pivoted(a, p, n, w), n, w)
    ensures QuietAt(LeftBlock(a, n, w), p, n, n) <==> QuietAt(a, p, n, w)
    ensures FaithfulPivot(LeftBlock(a, n, w), p, n, n) <==> FaithfulPivot(a, p, n, w)
  {
    BestRowLeft(a, p, n, n, w);
    var s, t := Pivoted(a, p, n, w), Pivoted(LeftBlock(a, n, w), p, n, n);
    assert t == LeftBlock(s, n, w);
    assert forall i :: 0 <= i < n ==> t[i][p] == s[i][p];
  }

  lemma LeftStep(a: Matrix, p: nat, n: nat, w: nat)
    requires p < n <= w && Shape(a, n, w)
    ensures PivotStep(LeftBlock(a, n, w), p, n, n) == LeftBlock(PivotStep(a, p, n, w), n, w)
  {
    PivotedLeft(a, p, n, w);
    var s, t := Pivoted(a, p, n, w), Pivoted(LeftBlock(a, n, w), p, n, n);
    var d := ScaledRow(s[p], p);
    assert ScaledRow(t[p], p) == d[..n];
    forall i | 0 <= i < n
      ensures ClearedRow(t[i], p, d[..n]) == ClearedRow(s[i], p, d)[..n]
    {
      assert t[i] == s[i][..n];
    }
  }

  lemma {:induction false} LeftRun(a: Matrix, k: nat, n: nat, w: nat)
    requires k <= n <= w && Shape(a, n, w)
    ensures Run(LeftBlock(a, n, w), k, n, n) == LeftBlock(Run(a, k, n, w), n, w)
  {
    hide PivotStep;
    if k > 0 {
      LeftRun(a, k - 1, n, w);
      LeftStep(Run(a, k - 1, n, w), k - 1, n, w);
    }
  }

  lemma QuietAtLeft(a: Matrix, p: nat, n: nat, w: nat)
    requires p < n <= w && Shape(a, n, w)
    ensures QuietAt(Run(LeftBlock(a, n, w), p, n, n), p, n, n) <==> QuietAt(Run(a, p, n, w), p, n, w)
  {
    LeftRun(a, p, n, w);
    PivotedLeft(Run(a, p, n, w), p, n, w);
  }

  lemma FaithfulLeft(a: Matrix, p: nat, n: nat, w: nat)
    requires p < n <= w && Shape(a, n, w)
    ensures FaithfulPivot(Run(LeftBlock(a, n, w), p, n, n), p, n, n) <==> FaithfulPivot(Run(a, p, n, w), p, n, w)
  {
    LeftRun(a, p, n, w);
    PivotedLeft(Run(a, p, n, w), p, n, w);
  }

  lemma QuietLeftBlock(g: Matrix, k: nat, n: nat, w: nat)
    requires k <= n <= w && Shape(g, n, w)
    ensures Quiet(g, k, n, w) <==> Quiet(LeftBlock(g, n, w), k, n, n)
  {
    hide QuietAt, Run, LeftBlock;
    forall p: nat | p < k
      ensures QuietAt(Run(g, p, n, w), p, n, w) <==> QuietAt(Run(LeftBlock(g, n, w), p, n, n), p, n, n)
    {
      QuietAtLeft(g, p, n, w);
    }
  }

  /** The tolerances of the whole run depend on the system alone. */
  lemma QuietLeft(a: Matrix, h: Matrix, k: nat, n: nat, m: nat)
    requires k <= n && Shape(a, n, n) && Shape(h, n, m)
    ensures LeftBlock(Augmented(a, h, n, m), n, n + m) == a
    ensures Quiet(Augmented(a, h, n, m), k, n, n + m) <==> Quiet(a, k, n, n)
  {
    hide Quiet;
    var g := Augmented(a, h, n, m);
    assert LeftBlock(g, n, n + m) == a;
    QuietLeftBlock(g, k, n, n + m);
  }

  // ---------- Injective systems ----------

  /** Only the zero vector is annihilated. */
  ghost predicate Injective(a: Matrix, n: nat)
    requires Shape(a, n, n)
  {
    forall x: Vector, j: nat :: |x| == n && j < n && InKernel(a, x, n, n) ==> x[j] == 0.0
  }

  lemma QuietIsInjective(a: Matrix, n: nat)
    requires Shape(a, n, n) && Quiet(a, n, n, n)
    ensures Injective(a, n)
  {
    forall x: Vector, j: nat | |x| == n && j < n && InKernel(a, x, n, n)
      ensures x[j] == 0.0
    {
      QuietIsUnclamped(a, n, n, n);
      RunKernel(a, n, x, n, n);
      RunReduces(a, n, n, n);
      UnitRowDot(Run(a, n, n, n)[j], x, j, n);
    }
  }

  lemma InjectiveIsUnique(a: Matrix, h: Matrix, x: Matrix, y: Matrix, n: nat, m: nat)
    requires Shape(a, n, n) && Shape(h, n, m) && Shape(x, n, m) && Shape(y, n, m)
    requires Injective(a, n) && Solves(a, h, x, n, m) && Solves(a, h, y, n, m)
    ensures x == y
  {
    forall j, c | 0 <= j < n && 0 <= c < m
      ensures x[j][c] == y[j][c]
    {
      var u, v := Column(x, c, n, m), Column(y, c, n, m);
      var z := seq(n, i requires 0 <= i < n => u[i] - v[i]);
      forall i | 0 <= i < n
        ensures Dot(a[i], z, n) == 0.0
      {
        DotSymmetric(a[i], z, n);
        DotSymmetric(a[i], u, n);
        DotSymmetric(a[i], v, n);
        DotCombination(z, 1.0, u, -1.0, v, a[i], n);
        assert Dot(a[i], u, n) == h[i][c] == Dot(a[i], v, n);
      }
      assert z[j] == 0.0;
    }
    assert forall j :: 0 <= j < n ==> x[j] == y[j];
  }

  // ---------- A tolerance that fires on a non-trivial value spoils some right-hand side ----------

  /** Both blocks of an `n` by `2n` matrix agree. */
  ghost predicate Twin(a: Matrix, n: nat)
    requires Shape(a, n, n + n)
  {
    forall i, j :: 0 <= i < n && 0 <= j < n ==> a[i][n + j] == a[i][j]
  }

  ghost predicate UnitColumn(a: Matrix, c: nat, p: nat, n: nat, w: nat)
    requires c < w && Shape(a, n, w)
  {
    forall i :: 0 <= i < n ==> a[i][c] == Delta(i, p)
  }

  lemma UnclampedKeepsTwin(a: Matrix, p: nat, n: nat)
    requires p < n && Shape(a, n, n + n) && Twin(a, n)
    requires FaithfulPivot(a, p, n, n + n)
    ensures Twin(PivotStep(a, p, n, n + n), n)
  {
    var s := Pivoted(a, p, n, n + n);
    assert Twin(s, n);
    var d := ScaledRow(s[p], p);
    assert forall j :: 0 <= j < n ==> d[n + j] == d[j];
  }

  lemma LoudSpoilsColumn(a: Matrix, p: nat, n: nat)
    requires p < n && Shape(a, n, n + n) && Twin(a, n)
    requires !QuietAt(a, p, n, n + n)
    ensures !UnitColumn(PivotStep(a, p, n, n + n), n + p, p, n, n + n)
  {
    var s := Pivoted(a, p, n, n + n);
    assert Twin(s, n);
    var d := ScaledRow(s[p], p);
    var b := PivotStep(a, p, n, n + n);
    var pivot := Clamped(s[p][p]);
    assert b[p][n + p] == s[p][p] / pivot;
    if b[p][n + p] == 1.0 {
      assert s[p][p] == 1.0 * pivot;
      var i :| 0 <= i < n && i != p && Abs(s[i][p]) <= FACTOR_FLOOR && s[i][p] != 0.0;
      assert b[i][n + p] == s[i][p];
    }
  }

  /** A later pivot cannot turn a right-hand column into the unit column it was not. */
  lemma LaterStepKeepsSpoiled(a: Matrix, q: nat, c: nat, p: nat, n: nat, w: nat)
    requires p < q < n <= c < w && Shape(a, n, w)
    ensures UnitColumn(PivotStep(a, q, n, w), c, p, n, w) ==> UnitColumn(a, c, p, n, w)
  {
    if UnitColumn(PivotStep(a, q, n, w), c, p, n, w) {
      UnitColumnBefore(a, q, c, p, n, w);
    }
  }

  lemma UnitColumnBefore(a: Matrix, q: nat, c: nat, p: nat, n: nat, w: nat)
    requires p < q < n <= c < w && Shape(a, n, w)
    requires UnitColumn(PivotStep(a, q, n, w), c, p, n, w)
    ensures UnitColumn(a, c, p, n, w)
  {
    var s := Pivoted(a, q, n, w);
    var best := BestRow(a, q, n);
    var d := ScaledRow(s[q], q);
    var b := PivotStep(a, q, n, w);
    assert b[q] == d && d[c] == 0.0;
    assert d[c] == s[q][c] / Clamped(s[q][q]);
    assert s[q][c] == 0.0 * Clamped(s[q][q]);
    forall i | 0 <= i < n
      ensures s[i][c] == Delta(i, p)
    {
      assert i != q ==> b[i] == ClearedRow(s[i], q, d);
    }
    forall i | 0 <= i < n
      ensures a[i][c] == Delta(i, p)
    {
      assert a[i] == s[if i == q then best else if i == best then q else i];
    }
  }

  lemma {:induction false} SpoiledStays(a: Matrix, k: nat, c: nat, p: nat, n: nat, w: nat)
    requires p < k <= n <= c < w && Shape(a, n, w)
    requires !UnitColumn(Run(a, p + 1, n, w), c, p, n, w)
    ensures !UnitColumn(Run(a, k, n, w), c, p, n, w)
  {
    hide UnitColumn, PivotStep;
    if k > p + 1 {
      SpoiledStays(a, k - 1, c, p, n, w);
      var before := Run(a, k - 1, n, w);
      LaterStepKeepsSpoiled(before, k - 1, c, p, n, w);
      assert Run(a, k, n, w) == PivotStep(before, k - 1, n, w);
    }
  }

  lemma {:induction false} TwinUntilClamped(a: Matrix, p: nat, n: nat)
    requires p <= n && Shape(a, n, n + n) && Twin(a, n)
    requires Unclamped(a, p, n, n + n)
    ensures Twin(Run(a, p, n, n + n), n)
  {
    hide Twin, PivotStep, FaithfulPivot;
    if p > 0 {
      TwinUntilClamped(a, p - 1, n);
      UnclampedKeepsTwin(Run(a, p - 1, n, n + n), p - 1, n);
    }
  }

  ghost function Identity(n: nat): (e: Matrix)
    ensures Shape(e, n, n)
  {
    seq(n, i => seq(n, j => Delta(i, j)))
  }

  lemma IdentitySolves(a: Matrix, n: nat)
    requires Shape(a, n, n)
    ensures Solves(a, a, Identity(n), n, n)
  {
    forall i, c | 0 <= i < n && 0 <= c < n
      ensures Dot(a[i], Column(Identity(n), c, n, n), n) == a[i][c]
    {
      DotSpike(a[i], Column(Identity(n), c, n, n), 0, c, n);
    }
  }

  /** If some tolerance fires on a non-trivial value, solving for the system itself does not give the identity. */
  lemma LoudMissesIdentity(a: Matrix, n: nat)
    requires Shape(a, n, n) && !Quiet(a, n, n, n)
    ensures Solution(a, a, n, n) != Identity(n)
  {
    hide QuietAt, UnitColumn, PivotStep;
    var g := Augmented(a, a, n, n);
    var p := FirstLoud(a, n);
    QuietLeft(a, a, p, n, n);
    QuietIsUnclamped(g, p, n, n + n);
    TwinUntilClamped(g, p, n);
    QuietAtLeft(g, p, n, n + n);
    LoudSpoilsColumn(Run(g, p, n, n + n), p, n);
    SpoiledStays(g, n, n + p, p, n, n + n);
    SpoiledIsNotIdentity(Run(g, n, n, n + n), p, n);
  }

  lemma FirstLoud(a: Matrix, n: nat) returns (p: nat)
    requires Shape(a, n, n) && !Quiet(a, n, n, n)
    ensures p < n && Quiet(a, p, n, n) && !QuietAt(Run(a, p, n, n), p, n, n)
  {
    hide QuietAt, PivotStep;
    p := 0;
    while QuietAt(Run(a, p, n, n), p, n, n)
      invariant p < n && Quiet(a, p, n, n)
      invariant exists k :: p <= k < n && !QuietAt(Run(a, k, n, n), k, n, n)
      decreases n - p
    {
      p := p + 1;
    }
  }

  lemma SpoiledIsNotIdentity(r: Matrix, p: nat, n: nat)
    requires p < n && Shape(r, n, n + n)
    requires !UnitColumn(r, n + p, p, n, n + n)
    ensures RightBlock(r, n, n) != Identity(n)
  {
    var i :| 0 <= i < n && r[i][n + p] != Delta(i, p);
    assert RightBlock(r, n, n)[i][p] != Identity(n)[i][p];
  }

  // ---------- The characterisation ----------

  ghost predicate ExactForEveryRightHandSide(a: Matrix, n: nat)
    requires Shape(a, n, n)
  {
    forall h: Matrix, m: nat :: Shape(h, n, m) ==> Solves(a, h, Solution(a, h, n, m), n, m)
  }

  lemma QuietIsExact(a: Matrix, n: nat)
    requires Shape(a, n, n) && Quiet(a, n, n, n)
    ensures ExactForEveryRightHandSide(a, n)
  {
    hide Quiet, Solves, Solution, Augmented;
    forall h: Matrix, m: nat | Shape(h, n, m)
      ensures Solves(a, h, Solution(a, h, n, m), n, m)
    {
      QuietLeft(a, h, n, n, m);
      QuietSolution(a, h, Solution(a, h, n, m), n, m);
    }
  }

  lemma ExactIsQuiet(a: Matrix, n: nat)
    requires Shape(a, n, n)
    requires Injective(a, n)
    requires Solves(a, a, Solution(a, a, n, n), n, n)
    ensures Quiet(a, n, n, n)
  {
    if !Quiet(a, n, n, n) {
      LoudMissesIdentity(a, n);
      IdentitySolves(a, n);
      InjectiveIsUnique(a, a, Solution(a, a, n, n), Identity(n), n, n);
    }
  }

  /** The tolerances stay quiet if and only if solving the system for itself gives the identity. */
  lemma QuietIffRecovers(a: Matrix, n: nat)
    requires Shape(a, n, n)
    ensures Quiet(a, n, n, n) <==> Solution(a, a, n, n) == Identity(n)
  {
    hide Quiet, Solution, Solves, Injective, Identity;
    if Quiet(a, n, n, n) {
      QuietIsInjective(a, n);
      QuietIsExact(a, n);
      assert Solves(a, a, Solution(a, a, n, n), n, n);
      IdentitySolves(a, n);
      InjectiveIsUnique(a, a, Solution(a, a, n, n), Identity(n), n, n);
    } else {
      LoudMissesIdentity(a, n);
    }
  }

  /** The tolerances stay quiet if and only if the system is injective and every right-hand side is solved exactly. */
  lemma QuietIffExact(a: Matrix, n: nat)
    requires Shape(a, n, n)
    ensures Quiet(a, n, n, n) <==> Injective(a, n) && ExactForEveryRightHandSide(a, n)
  {
    if Quiet(a, n, n, n) {
      QuietIsInjective(a, n);
      QuietIsExact(a, n);
    }
    if Injective(a, n) && ExactForEveryRightHandSide(a, n) {
      ExactIsQuiet(a, n);
    }
  }

  // ---------- Exact pivots are never zero ----------

  /** Back substitution through `p` reduced columns, with the `p`-th unknown set to one. */
  ghost function NullVector(r: Matrix, p: nat, n: nat): (x: Vector)
    requires p < n && Shape(r, n, n)
    ensures |x| == n && x[p] == 1.0
  {
    seq(n, j requires 0 <= j < n => if j < p then -r[j][p] else Delta(j, p))
  }

  lemma NullVectorRow(r: Matrix, p: nat, i: nat, n: nat)
    requires p < n && i < n && Shape(r, n, n) && Reduced(r, p, n, n)
    ensures Dot(r[i], NullVector(r, p, n), n) == if i < p then 0.0 else r[i][p]
  {
    var x := NullVector(r, p, n);
    DotSpike(r[i], x, p, p, n);
    DotSymmetric(r[i], x, p);
    if i < p {
      DotSpike(x, r[i], 0, i, p);
    } else {
      DotZeroTail(x, r[i], 0, p);
    }
  }

  /**
   * The pivot column of an injective system that has been eliminated quietly so far holds a non-zero entry at or
   * below the pivot.
   */
  lemma PivotIsNeverZero(a: Matrix, p: nat, n: nat)
    requires p < n && Shape(a, n, n)
    requires Injective(a, n) && Quiet(a, p, n, n)
    ensures var r := Run(a, p, n, n); Pivoted(r, p, n, n)[p][p] != 0.0
  {
    var r := Run(a, p, n, n);
    if Pivoted(r, p, n, n)[p][p] == 0.0 {
      RunReduces(a, p, n, n);
      var x := NullVector(r, p, n);
      assert r[BestRow(r, p, n)][p] == 0.0;
      hide Run, Quiet;
      forall i | 0 <= i < n
        ensures Dot(r[i], x, n) == 0.0
      {
        NullVectorRow(r, p, i, n);
      }
      QuietIsUnclamped(a, p, n, n);
      RunKernel(a, p, x, n, n);
    }
  }
}
