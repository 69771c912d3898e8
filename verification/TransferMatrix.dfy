/**
 The elimination is linear in its right-hand sides, whatever its tolerances do: what it makes of the identity tells
 what it makes of every right-hand side.
 */
module TransferMatrix {
  import opened LinearAlgebra
  import opened GaussJordan
  import opened TolerancesQuiet

  /** The matrix product. */
  ghost function Product(t: Matrix, h: Matrix, n: nat, m: nat): (x: Matrix)
    requires Shape(t, n, n) && Shape(h, n, m)
    ensures Shape(x, n, m)
  {
    seq(n, i requires 0 <= i < n => seq(m, c requires 0 <= c < m => Dot(t[i], Column(h, c, n, m), n)))
  }

  /** What the solver returns for the identity. */
  ghost function Transfer(a: Matrix, n: nat): (t: Matrix)
    requires Shape(a, n, n)
    ensures Shape(t, n, n)
  {
    Solution(a, Identity(n), n, n)
  }

  // ---------- Rows that go together ----------

  /**
   * The rows agree on the system, and the right-hand sides of the first are those of the second, a row of
   * coefficients, applied to `h`.
   */
  ghost predicate Linked(row: Vector, unit: Vector, h: Matrix, n: nat, m: nat)
    requires Shape(h, n, m)
  {
    && |row| == n + m && |unit| == n + n
    && (forall j :: 0 <= j < n ==> row[j] == unit[j])
    && forall c :: 0 <= c < m ==> row[n + c] == Dot(unit[n..], Column(h, c, n, m), n)
  }

  ghost predicate LinkedRows(r: Matrix, e: Matrix, h: Matrix, n: nat, m: nat)
    requires Shape(r, n, n + m) && Shape(e, n, n + n) && Shape(h, n, m)
  {
    forall i :: 0 <= i < n ==> Linked(r[i], e[i], h, n, m)
  }

  lemma QuotientIsMultiple(x: real, d: real)
    requires d != 0.0
    ensures x / d == Times(1.0 / d, x)
  {
  }

  lemma NoMultiple(x: real)
    ensures Times(0.0, x) == 0.0
  {
  }

  lemma LinkedScaled(row: Vector, unit: Vector, p: nat, h: Matrix, n: nat, m: nat)
    requires Shape(h, n, m) && Linked(row, unit, h, n, m) && p < n
    ensures Linked(ScaledRow(row, p), ScaledRow(unit, p), h, n, m)
  {
    var d, e := ScaledRow(row, p), ScaledRow(unit, p);
    var pivot := Clamped(row[p]);
    forall c | 0 <= c < m
      ensures d[n + c] == Dot(e[n..], Column(h, c, n, m), n)
    {
      var v := Column(h, c, n, m);
      hide Column, Dot, Clamped, Times;
      forall j | 0 <= j < n
        ensures e[n..][j] == Times(1.0 / pivot, unit[n..][j]) + Times(0.0, unit[n..][j])
      {
        QuotientIsMultiple(unit[n + j], pivot);
        NoMultiple(unit[n + j]);
      }
      DotCombination(e[n..], 1.0 / pivot, unit[n..], 0.0, unit[n..], v, n);
      NoMultiple(Dot(unit[n..], v, n));
      QuotientIsMultiple(row[n + c], pivot);
    }
  }

  lemma Subtracts(f: real, x: real, y: real)
    ensures x - Times(f, y) == Times(1.0, x) + Times(-f, y)
  {
  }

  lemma DifferenceDot(u: Vector, x: Vector, y: Vector, f: real, v: Vector, n: nat)
    requires |u| == |x| == |y| == |v| == n && forall j :: 0 <= j < n ==> u[j] == x[j] - Times(f, y[j])
    ensures Dot(u, v, n) == Dot(x, v, n) - Times(f, Dot(y, v, n))
  {
    hide Dot, Times;
    forall j | 0 <= j < n
      ensures u[j] == Times(1.0, x[j]) + Times(-f, y[j])
    {
      Subtracts(f, x[j], y[j]);
    }
    DotCombination(u, 1.0, x, -f, y, v, n);
    Subtracts(f, Dot(x, v, n), Dot(y, v, n));
  }

  /** Linked rows stay linked when the same multiple of linked rows is subtracted. */
  lemma LinkedDifference(
    r: Vector, u: Vector, row: Vector, unit: Vector, d: Vector, e: Vector, f: real, h: Matrix, n: nat, m: nat)
    requires Shape(h, n, m) && Linked(row, unit, h, n, m) && Linked(d, e, h, n, m)
    requires |r| == n + m && forall j :: 0 <= j < n + m ==> r[j] == row[j] - Times(f, d[j])
    requires |u| == n + n && forall j :: 0 <= j < n + n ==> u[j] == unit[j] - Times(f, e[j])
    ensures Linked(r, u, h, n, m)
  {
    hide Column, Dot, Times;
    forall c | 0 <= c < m
      ensures r[n + c] == Dot(u[n..], Column(h, c, n, m), n)
    {
      DifferenceDot(u[n..], unit[n..], e[n..], f, Column(h, c, n, m), n);
    }
  }

  lemma LinkedCleared(row: Vector, unit: Vector, d: Vector, e: Vector, p: nat, h: Matrix, n: nat, m: nat)
    requires Shape(h, n, m) && Linked(row, unit, h, n, m) && Linked(d, e, h, n, m) && p < n
    ensures Linked(ClearedRow(row, p, d), ClearedRow(unit, p, e), h, n, m)
  {
    if Abs(row[p]) > FACTOR_FLOOR {
      var r, u := ClearedRow(row, p, d), ClearedRow(unit, p, e);
      hide Column, Dot, Times;
      LinkedDifference(r, u, row, unit, d, e, row[p], h, n, m);
    }
  }

  lemma {:induction false} LinkedBestRow(r: Matrix, e: Matrix, h: Matrix, p: nat, q: nat, n: nat, m: nat)
    requires Shape(r, n, n + m) && Shape(e, n, n + n) && Shape(h, n, m) && LinkedRows(r, e, h, n, m)
    requires p < q <= n
    ensures BestRow(r, p, q) == BestRow(e, p, q)
  {
    assert Linked(r[q - 1], e[q - 1], h, n, m);
    if q > p + 1 {
      LinkedBestRow(r, e, h, p, q - 1, n, m);
      assert Linked(r[BestRow(r, p, q - 1)], e[BestRow(r, p, q - 1)], h, n, m);
    }
  }

  lemma LinkedStep(r: Matrix, e: Matrix, h: Matrix, p: nat, n: nat, m: nat)
    requires Shape(r, n, n + m) && Shape(e, n, n + n) && Shape(h, n, m) && LinkedRows(r, e, h, n, m)
    requires p < n
    ensures LinkedRows(PivotStep(r, p, n, n + m), PivotStep(e, p, n, n + n), h, n, m)
  {
    LinkedBestRow(r, e, h, p, n, n, m);
    var s, t := Pivoted(r, p, n, n + m), Pivoted(e, p, n, n + n);
    forall i | 0 <= i < n
      ensures Linked(s[i], t[i], h, n, m)
    {
      assert forall k :: 0 <= k < n ==> Linked(r[k], e[k], h, n, m);
    }
    hide Linked, ScaledRow, ClearedRow, Pivoted;
    LinkedScaled(s[p], t[p], p, h, n, m);
    forall i | 0 <= i < n && i != p
      ensures Linked(ClearedRow(s[i], p, ScaledRow(s[p], p)), ClearedRow(t[i], p, ScaledRow(t[p], p)), h, n, m)
    {
      LinkedCleared(s[i], t[i], ScaledRow(s[p], p), ScaledRow(t[p], p), p, h, n, m);
    }
  }

  /** Where the right-hand sides of the system are coefficients applied to `x`, the augmented rows go together. */
  lemma LinkedStart(a: Matrix, b: Matrix, h: Matrix, x: Matrix, n: nat, m: nat)
    requires Shape(a, n, n) && Shape(b, n, n) && Shape(h, n, m) && Shape(x, n, m) && Solves(b, h, x, n, m)
    ensures LinkedRows(Augmented(a, h, n, m), Augmented(a, b, n, n), x, n, m)
  {
    var r, e := Augmented(a, h, n, m), Augmented(a, b, n, n);
    forall i, c | 0 <= i < n && 0 <= c < m
      ensures r[i][n + c] == Dot(e[i][n..], Column(x, c, n, m), n)
    {
      assert e[i][n..] == b[i];
    }
  }

  lemma {:induction false} LinkedRun(a: Matrix, b: Matrix, h: Matrix, x: Matrix, k: nat, n: nat, m: nat)
    requires Shape(a, n, n) && Shape(b, n, n) && Shape(h, n, m) && Shape(x, n, m) && Solves(b, h, x, n, m) && k <= n
    ensures LinkedRows(Run(Augmented(a, h, n, m), k, n, n + m), Run(Augmented(a, b, n, n), k, n, n + n), x, n, m)
  {
    hide LinkedRows, PivotStep, Augmented, Solves;
    if k == 0 {
      LinkedStart(a, b, h, x, n, m);
    } else {
      LinkedRun(a, b, h, x, k - 1, n, m);
      LinkedStep(Run(Augmented(a, h, n, m), k - 1, n, n + m), Run(Augmented(a, b, n, n), k - 1, n, n + n),
        x, k - 1, n, m);
    }
  }

  /**
   * For every square system, clamped or skipped as it may be: if `h` is `b` times `x`, then what the solver returns
   * for `h` is what it returns for `b`, times `x`.
   */
  lemma SolutionFactors(a: Matrix, b: Matrix, h: Matrix, x: Matrix, n: nat, m: nat)
    requires Shape(a, n, n) && Shape(b, n, n) && Shape(h, n, m) && Shape(x, n, m) && Solves(b, h, x, n, m)
    ensures Solution(a, h, n, m) == Product(Solution(a, b, n, n), x, n, m)
  {
    hide Run, Augmented, Dot, Column, Solves;
    var s, t := Solution(a, h, n, m), Solution(a, b, n, n);
    LinkedRun(a, b, h, x, n, n, m);
    forall i | 0 <= i < n
      ensures s[i] == Product(t, x, n, m)[i]
    {
      assert Linked(Run(Augmented(a, h, n, m), n, n, n + m)[i], Run(Augmented(a, b, n, n), n, n, n + n)[i], x, n, m);
    }
  }

  /** The solver returns its answer to the identity, times the right-hand sides. */
  lemma SolutionIsLinear(a: Matrix, h: Matrix, n: nat, m: nat)
    requires Shape(a, n, n) && Shape(h, n, m)
    ensures Solution(a, h, n, m) == Product(Transfer(a, n), h, n, m)
  {
    forall i, c | 0 <= i < n && 0 <= c < m
      ensures Dot(Identity(n)[i], Column(h, c, n, m), n) == h[i][c]
    {
      UnitRowDot(Identity(n)[i], Column(h, c, n, m), i, n);
    }
    hide Solution, Product, Column, Identity;
    SolutionFactors(a, Identity(n), h, h, n, m);
  }

  // ---------- Exactness is a matter of one right-hand side ----------

  /** The first `k` entries of `u` applied to the rows of `t`. */
  ghost function Combined(u: Vector, t: Matrix, k: nat, n: nat): (v: Vector)
    requires k <= n == |u| && Shape(t, n, n)
    ensures |v| == n
  {
    seq(n, q requires 0 <= q < n => Dot(u, Column(t, q, n, n), k))
  }

  lemma {:induction false} ProductsAssociate(u: Vector, t: Matrix, h: Matrix, c: nat, k: nat, n: nat, m: nat)
    requires k <= n == |u| && Shape(t, n, n) && Shape(h, n, m) && c < m
    ensures Dot(u, Column(Product(t, h, n, m), c, n, m), k) == Dot(Combined(u, t, k, n), Column(h, c, n, m), n)
  {
    var v := Column(h, c, n, m);
    if k == 0 {
      DotSymmetric(Combined(u, t, 0, n), v, n);
      DotZeroTail(v, Combined(u, t, 0, n), 0, n);
    } else {
      ProductsAssociate(u, t, h, c, k - 1, n, m);
      var w, w' := Combined(u, t, k, n), Combined(u, t, k - 1, n);
      forall j | 0 <= j < n
        ensures w[j] == Times(1.0, w'[j]) + Times(u[k - 1], t[k - 1][j])
      {
        assert Times(1.0, w'[j]) == w'[j];
      }
      DotCombination(w, 1.0, w', u[k - 1], t[k - 1], v, n);
    }
  }

  /** Every right-hand side is solved exactly if and only if the answer to the identity is a right inverse. */
  lemma ExactIffInverse(a: Matrix, n: nat)
    requires Shape(a, n, n)
    ensures ExactForEveryRightHandSide(a, n) <==> Solves(a, Identity(n), Transfer(a, n), n, n)
  {
    if Solves(a, Identity(n), Transfer(a, n), n, n) {
      forall h: Matrix, m: nat | Shape(h, n, m)
        ensures Solves(a, h, Solution(a, h, n, m), n, m)
      {
        InverseSolves(a, Transfer(a, n), h, n, m);
        SolutionIsLinear(a, h, n, m);
      }
    }
  }

  lemma InverseSolves(a: Matrix, t: Matrix, h: Matrix, n: nat, m: nat)
    requires Shape(a, n, n) && Shape(t, n, n) && Shape(h, n, m) && Solves(a, Identity(n), t, n, n)
    ensures Solves(a, h, Product(t, h, n, m), n, m)
  {
    forall i, c | 0 <= i < n && 0 <= c < m
      ensures Dot(a[i], Column(Product(t, h, n, m), c, n, m), n) == h[i][c]
    {
      ProductsAssociate(a[i], t, h, c, n, n, m);
      var w := Combined(a[i], t, n, n);
      assert forall q :: 0 <= q < n ==> w[q] == Identity(n)[i][q];
      UnitRowDot(w, Column(h, c, n, m), i, n);
    }
  }
}
