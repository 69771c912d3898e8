/** The in-place ridge solver, proved to compute the elimination function entry by entry. */
module RidgeSolve {
  import opened LinearAlgebra
  import opened GaussJordan

  /** The system matrix: the Gram matrix with the ridge on its diagonal. */
  ghost function System(g: Matrix, ridge: real, n: nat): (s: Matrix)
    requires Shape(g, n, n)
    ensures Shape(s, n, n)
  {
    seq(n, i requires 0 <= i < n => seq(n, j requires 0 <= j < n => g[i][j] + Times(ridge, Delta(i, j))))
  }

  /** A negative ridge is read as no ridge. */
  function EffectiveRidge(ridgeLambda: real): real {
    if ridgeLambda > 0.0 then ridgeLambda else 0.0
  }

  /** The array stores the matrix. */
  ghost predicate Stores(aug: array2<real>, a: Matrix)
    reads aug
  {
    && Shape(a, aug.Length0, aug.Length1)
    && forall i, j :: 0 <= i < aug.Length0 && 0 <= j < aug.Length1 ==> aug[i, j] == a[i][j]
  }

  ghost function Contents(aug: array2<real>): (a: Matrix)
    reads aug
    ensures Shape(a, aug.Length0, aug.Length1) && Stores(aug, a)
  {
    seq(aug.Length0, i requires 0 <= i < aug.Length0 reads aug =>
      seq(aug.Length1, j requires 0 <= j < aug.Length1 reads aug => aug[i, j]))
  }

  lemma StoredMatrixIsUnique(aug: array2<real>, a: Matrix)
    requires Stores(aug, a)
    ensures a == Contents(aug)
  {
    forall i | 0 <= i < aug.Length0
      ensures a[i] == Contents(aug)[i]
    {
    }
  }

  method FindPivotRow(aug: array2<real>, p: nat, ghost a: Matrix) returns (best: nat)
    requires p < aug.Length0 <= aug.Length1 && Stores(aug, a)
    ensures best == BestRow(a, p, aug.Length0)
  {
    best := p;
    var bestAbs := Abs(aug[p, p]);
    for row := p + 1 to aug.Length0
      invariant best == BestRow(a, p, row) && bestAbs == Abs(a[best][p])
    {
      var candidate := Abs(aug[row, p]);
      if candidate > bestAbs {
        best, bestAbs := row, candidate;
      }
    }
  }

  method SwapRows(aug: array2<real>, p: nat, q: nat, ghost a: Matrix)
    requires p < aug.Length0 && q < aug.Length0 && p != q && Stores(aug, a)
    modifies aug
    ensures Stores(aug, Swapped(a, p, q))
  {
    forall i, j | i in {p, q} && 0 <= j < aug.Length1 {
      aug[i, j] := aug[p + q - i, j];
    }
  }

  method DividePivotRow(aug: array2<real>, p: nat, ghost s: Matrix)
    requires p < aug.Length0 <= aug.Length1 && Stores(aug, s)
    modifies aug
    ensures Stores(aug, s[p := ScaledRow(s[p], p)])
  {
    var pivot := aug[p, p];
    if Abs(pivot) <= PIVOT_FLOOR {
      pivot := PIVOT_FLOOR;
      aug[p, p] := pivot;
    }
    forall j | 0 <= j < aug.Length1 {
      aug[p, j] := aug[p, j] / pivot;
    }
  }

  /** One row of the elimination loop. */
  method ClearRow(aug: array2<real>, p: nat, r: nat, ghost b: Matrix)
    requires p < aug.Length0 <= aug.Length1 && r < aug.Length0 && r != p && Stores(aug, b)
    modifies aug
    ensures Stores(aug, b[r := ClearedRow(b[r], p, b[p])])
  {
    var factor := aug[r, p];
    if Abs(factor) <= FACTOR_FLOOR {
      return;
    }
    forall j | 0 <= j < aug.Length1 {
      aug[r, j] := aug[r, j] - Times(factor, aug[p, j]);
    }
  }

  method ClearColumn(aug: array2<real>, p: nat, ghost s: Matrix)
    requires p < aug.Length0 <= aug.Length1
    requires Shape(s, aug.Length0, aug.Length1)
    requires Stores(aug, s[p := ScaledRow(s[p], p)])
    modifies aug
    ensures Stores(aug, seq(aug.Length0, i requires 0 <= i < aug.Length0 =>
                              if i == p then ScaledRow(s[p], p) else ClearedRow(s[i], p, ScaledRow(s[p], p))))
  {
    var n := aug.Length0;
    ghost var d := ScaledRow(s[p], p);
    ghost var b := s[p := d];
    for row := 0 to n
      invariant Stores(aug, b)
      invariant forall i :: 0 <= i < n ==>
                b[i] == if i == p then d else if i < row then ClearedRow(s[i], p, d) else s[i]
    {
      if row != p {
        ClearRow(aug, p, row, b);
        b := b[row := ClearedRow(b[row], p, b[p])];
      }
    }
    assert b == seq(n, i requires 0 <= i < n => if i == p then d else ClearedRow(s[i], p, d));
  }

  method Pivot(aug: array2<real>, p: nat, ghost a: Matrix)
    requires p < aug.Length0 <= aug.Length1 && Stores(aug, a)
    modifies aug
    ensures Stores(aug, PivotStep(a, p, aug.Length0, aug.Length1))
  {
    var best := FindPivotRow(aug, p, a);
    if best != p {
      SwapRows(aug, p, best, a);
    }
    ghost var s := Pivoted(a, p, aug.Length0, aug.Length1);
    assert Stores(aug, s);
    DividePivotRow(aug, p, s);
    ClearColumn(aug, p, s);
  }

  /** The system and the right-hand sides side by side. */
  method Concatenate(g: array2<real>, h: array2<real>, ridge: real) returns (aug: array2<real>)
    requires g.Length0 == g.Length1 == h.Length0
    ensures fresh(aug) && aug.Length0 == g.Length0 && aug.Length1 == g.Length0 + h.Length1
    ensures Stores(aug, Augmented(System(Contents(g), ridge, g.Length0), Contents(h), g.Length0, h.Length1))
  {
    var n, m := g.Length0, h.Length1;
    aug := new real[n, n + m];
    forall i, j | 0 <= i < n && 0 <= j < n + m {
      aug[i, j] := if j < n then g[i, j] + Times(ridge, Delta(i, j)) else h[i, j - n];
    }
  }

  /** The columns from `n` on. */
  method RightColumns(aug: array2<real>, n: nat, ghost r: Matrix) returns (b: array2<real>)
    requires aug.Length0 == n <= aug.Length1 && Stores(aug, r)
    ensures fresh(b) && Contents(b) == RightBlock(r, n, aug.Length1 - n)
  {
    b := new real[n, aug.Length1 - n];
    forall i, j | 0 <= i < n && 0 <= j < aug.Length1 - n {
      b[i, j] := aug[i, n + j];
    }
    StoredMatrixIsUnique(b, RightBlock(r, n, aug.Length1 - n));
  }

  /** The solver. Its result is the function `Solution` of the ridge system and the right-hand sides. */
  method SolveBackboneWeights(g: array2<real>, h: array2<real>, ridgeLambda: real) returns (b: array2<real>)
    requires g.Length0 == g.Length1 == h.Length0
    ensures fresh(b)
    ensures g.Length0 == 0 || h.Length1 == 0 ==> b.Length0 == 0 && b.Length1 == 0
    ensures g.Length0 > 0 && h.Length1 > 0 ==>
              Contents(b) == Solution(System(Contents(g), EffectiveRidge(ridgeLambda), g.Length0),
                Contents(h), g.Length0, h.Length1)
  {
    hide PivotStep, Stores, Contents, Augmented, RightBlock, System;
    var n, m := g.Length0, h.Length1;
    if n == 0 || m == 0 {
      b := new real[0, 0];
      return;
    }
    var ridge := EffectiveRidge(ridgeLambda);
    ghost var a := Augmented(System(Contents(g), ridge, n), Contents(h), n, m);
    var aug := Concatenate(g, h, ridge);
    for p := 0 to n
      invariant Stores(aug, Run(a, p, n, n + m))
    {
      Pivot(aug, p, Run(a, p, n, n + m));
    }
    b := RightColumns(aug, n, Run(a, n, n, n + m));
  }
}
