/** Square systems with the zero vector alone in their kernel have a solution for every right-hand side. */
module LinearSystems {
  import opened LinearAlgebra
  import opened GaussJordan
  import opened TolerancesQuiet

  /** A row after its last entry is cleared with the help of the row `q`. */
  function Shortened(r: Vector, q: Vector, n: nat): (s: Vector)
    requires |r| == |q| == n + 1 && q[n] != 0.0
    ensures |s| == n
  {
    seq(n, j requires 0 <= j < n => Times(1.0, r[j]) + Times(-(r[n] / q[n]), q[j]))
  }

  lemma QuotientCancels(x: real, d: real, y: real)
    requires d != 0.0
    ensures Times(-(x / d), y) == Times(x, -(y / d)) && Times(d, -(y / d)) == -y
  {
  }

  /** A vector annihilated by the shortened row, extended to be annihilated by `q`, is annihilated by the row. */
  lemma ExtendedVector(r: Vector, q: Vector, z: Vector, y: Vector, n: nat)
    requires |r| == |q| == n + 1 && q[n] != 0.0 && |z| == n && y == z + [-(Dot(q, z, n) / q[n])]
    ensures Dot(q, y, n + 1) == 0.0
    ensures Dot(Shortened(r, q, n), z, n) == 0.0 ==> Dot(r, y, n + 1) == 0.0
  {
    var f := r[n] / q[n];
    DotAgree(q, q, y, z, n);
    DotAgree(r, r, y, z, n);
    DotCombination(Shortened(r, q, n), 1.0, r, -f, q, z, n);
    hide Dot, Times;
    QuotientCancels(r[n], q[n], Dot(q, z, n));
    assert Dot(q, y, n + 1) == Dot(q, y, n) + Times(q[n], y[n]) by { hide *; NextProduct(q, y, n); }
    assert Dot(r, y, n + 1) == Dot(r, y, n) + Times(r[n], y[n]) by { hide *; NextProduct(r, y, n); }
    assert Times(1.0, Dot(r, z, n)) == Dot(r, z, n) by { hide *; OneTimes(Dot(r, z, n)); }
  }

  lemma NextProduct(u: Vector, v: Vector, k: nat)
    requires k < |u| && k < |v|
    ensures Dot(u, v, k + 1) == Dot(u, v, k) + Times(u[k], v[k])
  {
  }

  lemma OneTimes(x: real)
    ensures Times(1.0, x) == x
  {
  }

  /** The `i`-th of the rows besides `q`, shortened. */
  ghost function Other(rows: Matrix, q: nat, i: nat, n: nat): (s: Vector)
    requires q < n && Shape(rows, n, n + 1) && rows[q][n] != 0.0 && i < n - 1
    ensures |s| == n
  {
    var r := rows[if i < q then i else i + 1];
    Shortened(r, rows[q], n)
  }

  /** The rows besides `q`, shortened. */
  ghost function Others(rows: Matrix, q: nat, n: nat): (s: Matrix)
    requires q < n && Shape(rows, n, n + 1) && rows[q][n] != 0.0
    ensures Shape(s, n - 1, n)
  {
    seq(n - 1, i requires 0 <= i < n - 1 => Other(rows, q, i, n))
  }

  lemma OthersAt(rows: Matrix, q: nat, i: nat, n: nat)
    requires q < n && Shape(rows, n, n + 1) && rows[q][n] != 0.0 && i < n && i != q
    ensures Others(rows, q, n)[if i < q then i else i - 1] == Shortened(rows[i], rows[q], n)
  {
  }

  /** More unknowns than equations leave a vector other than zero. */
  lemma {:induction false} Underdetermined(rows: Matrix, n: nat) returns (y: Vector)
    requires Shape(rows, n, n + 1)
    ensures |y| == n + 1 && InKernel(rows, y, n, n + 1) && exists j :: 0 <= j <= n && y[j] != 0.0
    decreases n
  {
    if forall i :: 0 <= i < n ==> rows[i][n] == 0.0 {
      y := seq(n, j => 0.0) + [1.0];
      forall i | 0 <= i < n
        ensures Dot(rows[i], y, n + 1) == 0.0
      {
        DotSpike(rows[i], y, 0, n, n + 1);
        OneTimes(0.0);
      }
      assert y[n] != 0.0;
    } else {
      var q :| 0 <= q < n && rows[q][n] != 0.0;
      var others := Others(rows, q, n);
      var z := Underdetermined(others, n - 1);
      y := z + [-(Dot(rows[q], z, n) / rows[q][n])];
      hide Dot, Shortened, Others;
      forall i | 0 <= i < n
        ensures Dot(rows[i], y, n + 1) == 0.0
      {
        ExtendedVector(rows[i], rows[q], z, y, n);
        if i != q {
          OthersAt(rows, q, i, n);
        }
      }
      var j :| 0 <= j <= n - 1 && z[j] != 0.0;
      assert y[j] != 0.0;
    }
  }

  ghost function Extended(a: Matrix, b: Vector, n: nat): (rows: Matrix)
    requires Shape(a, n, n) && |b| == n
    ensures Shape(rows, n, n + 1)
  {
    seq(n, i requires 0 <= i < n => a[i] + [b[i]])
  }

  /** If only zero is annihilated, a combination that vanishes uses the right-hand side. */
  lemma LastIsNonZero(a: Matrix, b: Vector, y: Vector, n: nat)
    requires Shape(a, n, n) && |b| == n && |y| == n + 1 && Injective(a, n)
    requires forall i :: 0 <= i < n ==> Dot(a[i], y[..n], n) + Times(b[i], y[n]) == 0.0
    requires exists j :: 0 <= j <= n && y[j] != 0.0
    ensures y[n] != 0.0
  {
    var j :| 0 <= j <= n && y[j] != 0.0;
    if j < n {
      var z := y[..n];
      assert z[j] != 0.0;
      assert !InKernel(a, z, n, n);
      var i :| 0 <= i < n && Dot(a[i], z, n) != 0.0;
      assert Times(b[i], 0.0) == 0.0;
    }
  }

  lemma SolveOne(a: Matrix, b: Vector, n: nat) returns (x: Vector)
    requires Shape(a, n, n) && |b| == n && Injective(a, n)
    ensures |x| == n && forall i :: 0 <= i < n ==> Dot(a[i], x, n) == b[i]
  {
    var rows := Extended(a, b, n);
    var y := Underdetermined(rows, n);
    var z, d := y[..n], y[n];
    hide Dot, Times, Injective;
    forall i | 0 <= i < n
      ensures Dot(a[i], z, n) + Times(b[i], d) == 0.0
    {
      assert rows[i] == a[i] + [b[i]];
      DotAgree(a[i], rows[i], z, y, n);
      NextProduct(rows[i], y, n);
    }
    LastIsNonZero(a, b, y, n);
    x := seq(n, j requires 0 <= j < n => -(z[j] / d));
    forall i | 0 <= i < n
      ensures Dot(a[i], x, n) == b[i]
    {
      RescaledRow(a[i], z, x, b[i], d, n);
    }
  }

  lemma RescaledRow(row: Vector, z: Vector, x: Vector, b: real, d: real, n: nat)
    requires |row| == |z| == |x| == n && d != 0.0 && Dot(row, z, n) + Times(b, d) == 0.0
    requires forall j :: 0 <= j < n ==> x[j] == -(z[j] / d)
    ensures Dot(row, x, n) == b
  {
    hide Dot, Times;
    DotSymmetric(row, x, n);
    DotSymmetric(row, z, n);
    forall j | 0 <= j < n
      ensures x[j] == Times(-(1.0 / d), z[j]) + Times(0.0, z[j])
    {
      QuotientAsTimes(z[j], d);
    }
    DotCombination(x, -(1.0 / d), z, 0.0, z, row, n);
    Rescaled(Dot(row, z, n), b, d);
  }

  lemma QuotientAsTimes(x: real, d: real)
    requires d != 0.0
    ensures -(x / d) == Times(-(1.0 / d), x) + Times(0.0, x)
  {
  }

  lemma Rescaled(s: real, b: real, d: real)
    requires d != 0.0 && s + Times(b, d) == 0.0
    ensures Times(-(1.0 / d), s) + Times(0.0, s) == b
  {
  }

  /** A square system whose kernel is zero has a solution for all right-hand sides. */
  lemma InjectiveIsSolvable(a: Matrix, h: Matrix, n: nat, m: nat) returns (x: Matrix)
    requires Shape(a, n, n) && Shape(h, n, m) && Injective(a, n)
    ensures Shape(x, n, m) && Solves(a, h, x, n, m)
  {
    var columns: seq<Vector> := [];
    for c := 0 to m
      invariant |columns| == c && forall k :: 0 <= k < c ==> |columns[k]| == n
      invariant forall i, k :: 0 <= i < n && 0 <= k < c ==> Dot(a[i], columns[k], n) == h[i][k]
    {
      var v := SolveOne(a, Column(h, c, n, m), n);
      columns := columns + [v];
    }
    x := seq(n, j requires 0 <= j < n => seq(m, c requires 0 <= c < m => columns[c][j]));
    forall i, c | 0 <= i < n && 0 <= c < m
      ensures Dot(a[i], Column(x, c, n, m), n) == h[i][c]
    {
      assert Column(x, c, n, m) == columns[c];
    }
  }
}
