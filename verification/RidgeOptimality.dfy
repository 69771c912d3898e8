/**
 What the ridge fit is for: the objective it minimises, and why the solver's block is its minimiser.
 The objective of a weight matrix is the sum over all windows of the squared reconstruction residuals,
 plus the ridge times the squared weights.
 */
module RidgeOptimality {
  import opened Sums
  import opened LinearAlgebra
  import opened GaussJordan
  import opened TolerancesQuiet
  import opened RidgeSolve
  import opened GramAccumulation

  // ---------- The quadratic forms behind the Gram matrix ----------

  /** The inner product of a window's selected readings with weights `b`; zero for a window without a vector. */
  ghost function Projection(w: Window, selected: seq<string>, b: Vector): real
    requires |b| == |selected|
  {
    if w.vector.None? then 0.0 else Dot(SensorVector(w.vector.value, selected), b, |selected|)
  }

  ghost function Target(w: Window, sensor: string): real {
    SelectedColumn(w, sensor)
  }

  ghost function Cross(selected: seq<string>, d: Vector, b: Vector): Window -> real
    requires |d| == |b| == |selected|
  {
    (w: Window) => Times(Projection(w, selected, d), Projection(w, selected, b))
  }

  ghost function TargetCross(selected: seq<string>, d: Vector, sensor: string): Window -> real
    requires |d| == |selected|
  {
    (w: Window) => Times(Projection(w, selected, d), Target(w, sensor))
  }

  /** The Gram matrix applied to `b`. */
  ghost function GramTimes(ws: seq<Window>, selected: seq<string>, b: Vector): (v: Vector)
    requires |b| == |selected|
    ensures |v| == |b|
  {
    var g := PairMatrix(ws, selected, selected);
    seq(|b|, i requires 0 <= i < |b| => Dot(g[i], b, |b|))
  }

  ghost function CrossColumn(ws: seq<Window>, selected: seq<string>, sensor: string): (v: Vector)
    ensures |v| == |selected|
  {
    seq(|selected|, i requires 0 <= i < |selected| => PairSum(ws, selected[i], sensor))
  }

  lemma GramTimesAppend(ws: seq<Window>, w: Window, selected: seq<string>, b: Vector, i: nat)
    requires |b| == |selected| && i < |b|
    ensures GramTimes(ws + [w], selected, b)[i] ==
            GramTimes(ws, selected, b)[i] + Times(SelectedColumn(w, selected[i]), Projection(w, selected, b))
  {
    var before, after := PairMatrix(ws, selected, selected)[i], PairMatrix(ws + [w], selected, selected)[i];
    var x := seq(|b|, j requires 0 <= j < |b| => SelectedColumn(w, selected[j]));
    forall j | 0 <= j < |b|
      ensures after[j] == Times(1.0, before[j]) + Times(SelectedColumn(w, selected[i]), x[j])
    {
      PairSumAppend(ws, w, selected[i], selected[j]);
    }
    DotCombination(after, 1.0, before, SelectedColumn(w, selected[i]), x, b, |b|);
    ProjectionOfColumns(w, selected, b, x);
  }

  lemma ProjectionOfColumns(w: Window, selected: seq<string>, b: Vector, x: Vector)
    requires |b| == |selected| == |x|
    requires forall j :: 0 <= j < |b| ==> x[j] == SelectedColumn(w, selected[j])
    ensures Dot(x, b, |b|) == Projection(w, selected, b)
  {
    if w.vector.None? {
      DotSymmetric(x, b, |b|);
      DotZeroTail(b, x, 0, |b|);
    } else {
      DotAgree(x, SensorVector(w.vector.value, selected), b, b, |b|);
    }
  }

  lemma PairSumAppend(ws: seq<Window>, w: Window, u: string, v: string)
    ensures PairSum(ws + [w], u, v) == PairSum(ws, u, v) + Times(SelectedColumn(w, u), SelectedColumn(w, v))
  {
    SumAppend(ws, w, Contribution(u, v));
    assert Times(0.0, 0.0) == 0.0;
  }

  lemma EmptyGramTimes(selected: seq<string>, b: Vector)
    requires |b| == |selected|
    ensures forall i :: 0 <= i < |b| ==> GramTimes([], selected, b)[i] == 0.0
  {
    forall i | 0 <= i < |b|
      ensures GramTimes([], selected, b)[i] == 0.0
    {
      var g := PairMatrix([], selected, selected);
      DotSymmetric(g[i], b, |b|);
      DotZeroTail(b, g[i], 0, |b|);
    }
  }

  lemma GramFormStep(ws: seq<Window>, w: Window, selected: seq<string>, d: Vector, b: Vector)
    requires |d| == |b| == |selected|
    ensures Dot(d, GramTimes(ws + [w], selected, b), |d|) ==
            Dot(d, GramTimes(ws, selected, b), |d|) + Times(Projection(w, selected, d), Projection(w, selected, b))
  {
    hide GramTimes, Projection, Times;
    var before, after := GramTimes(ws, selected, b), GramTimes(ws + [w], selected, b);
    var x := seq(|b|, j requires 0 <= j < |b| => SelectedColumn(w, selected[j]));
    forall i | 0 <= i < |b|
      ensures after[i] == before[i] + Times(x[i], Projection(w, selected, b))
    {
      GramTimesAppend(ws, w, selected, b, i);
    }
    DotGrows(after, before, x, Projection(w, selected, b), d, |d|);
    ProjectionOfColumns(w, selected, d, x);
  }

  /** `d` against the Gram matrix times `b` is the sum over windows of the products of the two projections. */
  lemma {:induction false} GramForm(ws: seq<Window>, selected: seq<string>, d: Vector, b: Vector)
    requires |d| == |b| == |selected|
    ensures Dot(d, GramTimes(ws, selected, b), |d|) == SumOver(ws, Cross(selected, d, b))
  {
    hide GramTimes, Projection, Times;
    if ws == [] {
      EmptyGramTimes(selected, b);
      DotZeroTail(d, GramTimes(ws, selected, b), 0, |d|);
    } else {
      var rest, w := ws[..|ws| - 1], ws[|ws| - 1];
      assert ws == rest + [w];
      GramForm(rest, selected, d, b);
      GramFormStep(rest, w, selected, d, b);
    }
  }

  lemma CrossFormStep(ws: seq<Window>, w: Window, selected: seq<string>, d: Vector, sensor: string)
    requires |d| == |selected|
    ensures Dot(d, CrossColumn(ws + [w], selected, sensor), |d|) ==
            Dot(d, CrossColumn(ws, selected, sensor), |d|) + Times(Projection(w, selected, d), Target(w, sensor))
  {
    hide Projection, PairSum, Times;
    var before, after := CrossColumn(ws, selected, sensor), CrossColumn(ws + [w], selected, sensor);
    var x := seq(|d|, j requires 0 <= j < |d| => SelectedColumn(w, selected[j]));
    forall i | 0 <= i < |d|
      ensures after[i] == before[i] + Times(x[i], Target(w, sensor))
    {
      PairSumAppend(ws, w, selected[i], sensor);
    }
    DotGrows(after, before, x, Target(w, sensor), d, |d|);
    ProjectionOfColumns(w, selected, d, x);
  }

  lemma {:induction false} CrossForm(ws: seq<Window>, selected: seq<string>, d: Vector, sensor: string)
    requires |d| == |selected|
    ensures Dot(d, CrossColumn(ws, selected, sensor), |d|) == SumOver(ws, TargetCross(selected, d, sensor))
  {
    if ws == [] {
      DotZeroTail(d, CrossColumn(ws, selected, sensor), 0, |d|);
    } else {
      var rest, w := ws[..|ws| - 1], ws[|ws| - 1];
      assert ws == rest + [w];
      CrossForm(rest, selected, d, sensor);
      CrossFormStep(rest, w, selected, d, sensor);
    }
  }

  // ---------- The objective for one target sensor ----------

  /** The squared residual of one window. */
  ghost function SquaredResidual(selected: seq<string>, b: Vector, sensor: string): Window -> real
    requires |b| == |selected|
  {
    (w: Window) => var r := Target(w, sensor) - Projection(w, selected, b); Times(r, r)
  }

  ghost function ColumnLoss(ws: seq<Window>, selected: seq<string>, sensor: string, b: Vector, ridge: real): real
    requires |b| == |selected|
  {
    SumOver(ws, SquaredResidual(selected, b, sensor)) + Times(ridge, Dot(b, b, |b|))
  }

  /** The second-order part of the objective: the quadratic form of the ridge system. */
  ghost function Curvature(ws: seq<Window>, selected: seq<string>, d: Vector, ridge: real): real
    requires |d| == |selected|
  {
    SumOver(ws, Cross(selected, d, d)) + Times(ridge, Dot(d, d, |d|))
  }

  /** How far `b` is from solving the normal equations for one target sensor. */
  ghost function Defect(ws: seq<Window>, selected: seq<string>, sensor: string, b: Vector, ridge: real): (r: Vector)
    requires |b| == |selected|
    ensures |r| == |b|
  {
    var s := System(PairMatrix(ws, selected, selected), ridge, |b|);
    seq(|b|, i requires 0 <= i < |b| => Dot(s[i], b, |b|) - PairSum(ws, selected[i], sensor))
  }

  lemma SystemRow(g: Matrix, ridge: real, b: Vector, i: nat, n: nat)
    requires Shape(g, n, n) && |b| == n && i < n
    ensures Dot(System(g, ridge, n)[i], b, n) == Dot(g[i], b, n) + Times(ridge, b[i])
  {
    var e := seq(n, j => Delta(i, j));
    DotCombination(System(g, ridge, n)[i], 1.0, g[i], ridge, e, b, n);
    UnitRowDot(e, b, i, n);
  }

  /** `d` against the defect, in terms of the windows. */
  lemma DefectForm(ws: seq<Window>, selected: seq<string>, sensor: string, b: Vector, d: Vector, ridge: real)
    requires |d| == |b| == |selected|
    ensures Dot(d, Defect(ws, selected, sensor, b, ridge), |d|) ==
            SumOver(ws, Cross(selected, d, b)) - SumOver(ws, TargetCross(selected, d, sensor))
              + Times(ridge, Dot(d, b, |d|))
  {
    var n := |d|;
    var g := PairMatrix(ws, selected, selected);
    var gb, h := GramTimes(ws, selected, b), CrossColumn(ws, selected, sensor);
    var u := seq(n, i requires 0 <= i < n => gb[i] - h[i]);
    var r := Defect(ws, selected, sensor, b, ridge);
    forall i | 0 <= i < n
      ensures u[i] == Times(1.0, gb[i]) + Times(-1.0, h[i])
      ensures r[i] == Times(1.0, u[i]) + Times(ridge, b[i])
    {
      SystemRow(g, ridge, b, i, n);
    }
    DotCombination(u, 1.0, gb, -1.0, h, d, n);
    DotCombination(r, 1.0, u, ridge, b, d, n);
    DotSymmetric(r, d, n);
    DotSymmetric(b, d, n);
    DotSymmetric(gb, d, n);
    DotSymmetric(h, d, n);
    GramForm(ws, selected, d, b);
    CrossForm(ws, selected, d, sensor);
  }

  ghost function Plus(b: Vector, d: Vector): (s: Vector)
    requires |b| == |d|
    ensures |s| == |b|
  {
    seq(|b|, i requires 0 <= i < |b| => b[i] + d[i])
  }

  lemma DotPlus(b: Vector, d: Vector, v: Vector, n: nat)
    requires |b| == |d| == |v| == n
    ensures Dot(Plus(b, d), v, n) == Dot(b, v, n) + Dot(d, v, n)
    ensures Dot(v, Plus(b, d), n) == Dot(v, b, n) + Dot(v, d, n)
  {
    DotCombination(Plus(b, d), 1.0, b, 1.0, d, v, n);
    DotSymmetric(Plus(b, d), v, n);
    DotSymmetric(b, v, n);
    DotSymmetric(d, v, n);
  }

  lemma SquareOfDifference(r: real, q: real)
    ensures Times(r - q, r - q) == Times(r, r) - 2.0 * Times(q, r) + Times(q, q)
  {
  }

  /** One window's squared residual after moving the weights by `d`. */
  lemma ResidualMoves(w: Window, selected: seq<string>, sensor: string, b: Vector, d: Vector)
    requires |d| == |b| == |selected|
    ensures SquaredResidual(selected, Plus(b, d), sensor)(w) ==
            SquaredResidual(selected, b, sensor)(w)
            + 2.0 * (Cross(selected, d, b)(w) - TargetCross(selected, d, sensor)(w))
            + Cross(selected, d, d)(w)
  {
    var p, q, y := Projection(w, selected, b), Projection(w, selected, d), Target(w, sensor);
    if w.vector.Some? {
      DotPlus(b, d, SensorVector(w.vector.value, selected), |b|);
    }
    assert Projection(w, selected, Plus(b, d)) == p + q;
    SquareOfDifference(y - p, q);
    assert Times(q, y - p) == Times(q, y) - Times(q, p);
  }

  lemma {:induction false} ResidualsMove(ws: seq<Window>, selected: seq<string>, sensor: string, b: Vector, d: Vector)
    requires |d| == |b| == |selected|
    ensures SumOver(ws, SquaredResidual(selected, Plus(b, d), sensor)) ==
            SumOver(ws, SquaredResidual(selected, b, sensor))
            + 2.0 * (SumOver(ws, Cross(selected, d, b)) - SumOver(ws, TargetCross(selected, d, sensor)))
            + SumOver(ws, Cross(selected, d, d))
  {
    if ws != [] {
      ResidualsMove(ws[..|ws| - 1], selected, sensor, b, d);
      ResidualMoves(ws[|ws| - 1], selected, sensor, b, d);
    }
  }

  lemma TimesDoubles(a: real, x: real)
    ensures Times(a, 2.0 * x) == 2.0 * Times(a, x)
  {
  }

  lemma RidgeTermMoves(b: Vector, d: Vector, ridge: real, n: nat)
    requires |b| == |d| == n
    ensures Times(ridge, Dot(Plus(b, d), Plus(b, d), n)) ==
            Times(ridge, Dot(b, b, n)) + 2.0 * Times(ridge, Dot(d, b, n)) + Times(ridge, Dot(d, d, n))
  {
    DotPlus(b, d, Plus(b, d), n);
    DotPlus(b, d, b, n);
    DotPlus(b, d, d, n);
    DotSymmetric(b, d, n);
    TimesAdds(ridge, Dot(b, b, n) + 2.0 * Dot(d, b, n), Dot(d, d, n));
    TimesAdds(ridge, Dot(b, b, n), 2.0 * Dot(d, b, n));
    TimesDoubles(ridge, Dot(d, b, n));
  }

  /** The exact second-order expansion of the objective around any weights. */
  lemma LossExpands(ws: seq<Window>, selected: seq<string>, sensor: string, b: Vector, d: Vector, ridge: real)
    requires |d| == |b| == |selected|
    ensures ColumnLoss(ws, selected, sensor, Plus(b, d), ridge) ==
            ColumnLoss(ws, selected, sensor, b, ridge)
            + 2.0 * Dot(d, Defect(ws, selected, sensor, b, ridge), |d|)
            + Curvature(ws, selected, d, ridge)
  {
    ResidualsMove(ws, selected, sensor, b, d);
    DefectForm(ws, selected, sensor, b, d, ridge);
    RidgeTermMoves(b, d, ridge, |b|);
    hide Times;
  }

  /** With a positive ridge the curvature is positive in every non-zero direction. */
  lemma CurvaturePositive(ws: seq<Window>, selected: seq<string>, d: Vector, ridge: real)
    requires |d| == |selected| && ridge > 0.0
    ensures Curvature(ws, selected, d, ridge) >= 0.0
    ensures Curvature(ws, selected, d, ridge) == 0.0 ==> forall j :: 0 <= j < |d| ==> d[j] == 0.0
  {
    forall w | w in ws
      ensures Cross(selected, d, d)(w) >= 0.0
    {
      SquarePositive(Projection(w, selected, d));
    }
    SumNonNegative(ws, Cross(selected, d, d));
    DotSelfPositive(d, |d|);
    if Dot(d, d, |d|) > 0.0 {
      TimesSameSign(ridge, Dot(d, d, |d|));
    } else {
      assert Times(ridge, 0.0) == 0.0;
    }
  }

  /** `x` against the ridge system times `x` is the curvature along `x`. */
  lemma SystemForm(ws: seq<Window>, selected: seq<string>, x: Vector, v: Vector, ridge: real)
    requires |x| == |v| == |selected|
    requires forall i :: 0 <= i < |v| ==>
             v[i] == Dot(System(PairMatrix(ws, selected, selected), ridge, |selected|)[i], x, |x|)
    ensures Dot(x, v, |x|) == Curvature(ws, selected, x, ridge)
  {
    var n := |selected|;
    var gx := GramTimes(ws, selected, x);
    forall i | 0 <= i < n
      ensures v[i] == Times(1.0, gx[i]) + Times(ridge, x[i])
    {
      SystemRow(PairMatrix(ws, selected, selected), ridge, x, i, n);
    }
    DotCombination(v, 1.0, gx, ridge, x, x, n);
    DotSymmetric(gx, x, n);
    GramForm(ws, selected, x, x);
    DotSymmetric(v, x, n);
  }

  /** With a positive ridge the system annihilates nothing but zero. */
  lemma RidgeSystemInjective(ws: seq<Window>, selected: seq<string>, ridge: real)
    requires ridge > 0.0
    ensures Injective(System(PairMatrix(ws, selected, selected), ridge, |selected|), |selected|)
  {
    var n := |selected|;
    var s := System(PairMatrix(ws, selected, selected), ridge, n);
    forall x: Vector, j: nat | |x| == n && j < n && InKernel(s, x, n, n)
      ensures x[j] == 0.0
    {
      var v := seq(n, i requires 0 <= i < n => Dot(s[i], x, n));
      SystemForm(ws, selected, x, v, ridge);
      DotZeroTail(x, v, 0, n);
      CurvaturePositive(ws, selected, x, ridge);
    }
  }

  // ---------- The whole objective ----------

  /** The objective over the first `k` target sensors. */
  ghost function LossUpTo(
    ws: seq<Window>, selected: seq<string>, sensors: seq<string>, b: Matrix, ridge: real, k: nat): real
    requires k <= |sensors| && Shape(b, |selected|, |sensors|)
  {
    if k == 0 then 0.0
    else LossUpTo(ws, selected, sensors, b, ridge, k - 1)
         + ColumnLoss(ws, selected, sensors[k - 1], Column(b, k - 1, |selected|, |sensors|), ridge)
  }

  ghost function Objective(ws: seq<Window>, selected: seq<string>, sensors: seq<string>, b: Matrix, ridge: real): real
    requires Shape(b, |selected|, |sensors|)
  {
    LossUpTo(ws, selected, sensors, b, ridge, |sensors|)
  }

  ghost predicate Minimises(ws: seq<Window>, selected: seq<string>, sensors: seq<string>, b: Matrix, ridge: real)
    requires Shape(b, |selected|, |sensors|)
  {
    forall x: Matrix :: Shape(x, |selected|, |sensors|) ==>
      Objective(ws, selected, sensors, b, ridge) <= Objective(ws, selected, sensors, x, ridge)
  }

  /** `b` solves the normal equations of the windows. */
  ghost predicate SolvesNormalEquations(
    ws: seq<Window>, selected: seq<string>, sensors: seq<string>, b: Matrix, ridge: real)
    requires Shape(b, |selected|, |sensors|)
  {
    Solves(System(PairMatrix(ws, selected, selected), ridge, |selected|), PairMatrix(ws, selected, sensors),
      b, |selected|, |sensors|)
  }

  ghost function Minus(x: Vector, b: Vector): (d: Vector)
    requires |x| == |b|
    ensures |d| == |b| && Plus(b, d) == x
  {
    var d := seq(|b|, i requires 0 <= i < |b| => x[i] - b[i]);
    assert Plus(b, d) == x;
    d
  }

  /** Away from a solution of the normal equations, each column's loss grows by exactly the curvature of the move. */
  lemma ColumnGrows(
    ws: seq<Window>, selected: seq<string>, sensors: seq<string>, b: Matrix, x: Matrix, ridge: real, c: nat)
    requires Shape(b, |selected|, |sensors|) && Shape(x, |selected|, |sensors|) && c < |sensors|
    requires SolvesNormalEquations(ws, selected, sensors, b, ridge)
    ensures
      var n, m := |selected|, |sensors|;
      var u, v := Column(b, c, n, m), Column(x, c, n, m);
      ColumnLoss(ws, selected, sensors[c], v, ridge) ==
        ColumnLoss(ws, selected, sensors[c], u, ridge) + Curvature(ws, selected, Minus(v, u), ridge)
  {
    var n, m := |selected|, |sensors|;
    var u, v := Column(b, c, n, m), Column(x, c, n, m);
    var d := Minus(v, u);
    LossExpands(ws, selected, sensors[c], u, d, ridge);
    var r := Defect(ws, selected, sensors[c], u, ridge);
    forall i | 0 <= i < n
      ensures r[i] == 0.0
    {
      assert PairMatrix(ws, selected, sensors)[i][c] == PairSum(ws, selected[i], sensors[c]);
    }
    DotZeroTail(d, r, 0, n);
  }

  lemma {:induction false} ObjectiveGrows(
    ws: seq<Window>, selected: seq<string>, sensors: seq<string>, b: Matrix, x: Matrix, ridge: real, k: nat)
    requires Shape(b, |selected|, |sensors|) && Shape(x, |selected|, |sensors|) && k <= |sensors| && ridge > 0.0
    requires SolvesNormalEquations(ws, selected, sensors, b, ridge)
    ensures LossUpTo(ws, selected, sensors, b, ridge, k) <= LossUpTo(ws, selected, sensors, x, ridge, k)
    ensures LossUpTo(ws, selected, sensors, b, ridge, k) == LossUpTo(ws, selected, sensors, x, ridge, k) ==>
              forall i, c :: 0 <= i < |selected| && 0 <= c < k ==> x[i][c] == b[i][c]
  {
    if k > 0 {
      var n, m, c := |selected|, |sensors|, k - 1;
      ObjectiveGrows(ws, selected, sensors, b, x, ridge, k - 1);
      ColumnGrows(ws, selected, sensors, b, x, ridge, c);
      var u, v := Column(b, c, n, m), Column(x, c, n, m);
      var d := Minus(v, u);
      CurvaturePositive(ws, selected, d, ridge);
      if Curvature(ws, selected, d, ridge) == 0.0 {
        forall i | 0 <= i < n
          ensures x[i][c] == b[i][c]
        {
          assert Plus(u, d)[i] == v[i];
        }
      }
    }
  }

  /** A solution of the normal equations is the unique minimiser. */
  lemma NormalIsUniqueMinimiser(ws: seq<Window>, selected: seq<string>, sensors: seq<string>, b: Matrix, ridge: real)
    requires Shape(b, |selected|, |sensors|) && ridge > 0.0
    requires SolvesNormalEquations(ws, selected, sensors, b, ridge)
    ensures forall x: Matrix :: Shape(x, |selected|, |sensors|) && x != b ==>
              Objective(ws, selected, sensors, b, ridge) < Objective(ws, selected, sensors, x, ridge)
  {
    forall x: Matrix | Shape(x, |selected|, |sensors|) && x != b
      ensures Objective(ws, selected, sensors, b, ridge) < Objective(ws, selected, sensors, x, ridge)
    {
      ObjectiveGrows(ws, selected, sensors, b, x, ridge, |sensors|);
      if Objective(ws, selected, sensors, b, ridge) == Objective(ws, selected, sensors, x, ridge) {
        assert forall i :: 0 <= i < |selected| ==> x[i] == b[i];
      }
    }
  }

  ghost function WithColumn(b: Matrix, c: nat, v: Vector, n: nat, m: nat): (x: Matrix)
    requires Shape(b, n, m) && c < m && |v| == n
    ensures Shape(x, n, m) && Column(x, c, n, m) == v
    ensures forall k :: 0 <= k < m && k != c ==> Column(x, k, n, m) == Column(b, k, n, m)
  {
    var x := seq(n, i requires 0 <= i < n => b[i][c := v[i]]);
    assert Column(x, c, n, m) == v;
    assert forall k :: 0 <= k < m && k != c ==> Column(x, k, n, m) == Column(b, k, n, m);
    x
  }

  lemma {:induction false} ReplacingOneColumn(
    ws: seq<Window>, selected: seq<string>, sensors: seq<string>, b: Matrix, c: nat, v: Vector, ridge: real, k: nat)
    requires Shape(b, |selected|, |sensors|) && c < |sensors| && |v| == |selected| && k <= |sensors|
    ensures
      var n, m := |selected|, |sensors|;
      LossUpTo(ws, selected, sensors, WithColumn(b, c, v, n, m), ridge, k) ==
      LossUpTo(ws, selected, sensors, b, ridge, k)
      + if c < k then ColumnLoss(ws, selected, sensors[c], v, ridge)
        - ColumnLoss(ws, selected, sensors[c], Column(b, c, n, m), ridge) else 0.0
  {
    if k > 0 {
      ReplacingOneColumn(ws, selected, sensors, b, c, v, ridge, k - 1);
    }
  }

  ghost function Scaled(s: real, r: Vector): (d: Vector)
    ensures |d| == |r|
  {
    seq(|r|, i requires 0 <= i < |r| => Times(s, r[i]))
  }

  lemma DotScaled(s: real, r: Vector, v: Vector, n: nat)
    requires |r| == |v| == n
    ensures Dot(Scaled(s, r), v, n) == Times(s, Dot(r, v, n))
  {
    DotCombination(Scaled(s, r), s, r, 0.0, r, v, n);
    assert Times(0.0, Dot(r, v, n)) == 0.0;
  }

  lemma TimesSquareScales(s: real, x: real)
    ensures Times(Times(s, x), Times(s, x)) == Times(Times(s, s), Times(x, x))
  {
  }

  lemma {:induction false} CrossScaled(ws: seq<Window>, selected: seq<string>, s: real, r: Vector)
    requires |r| == |selected|
    ensures SumOver(ws, Cross(selected, Scaled(s, r), Scaled(s, r))) ==
            Times(Times(s, s), SumOver(ws, Cross(selected, r, r)))
  {
    if ws == [] {
      assert Times(Times(s, s), 0.0) == 0.0;
    } else {
      var rest, w := ws[..|ws| - 1], ws[|ws| - 1];
      CrossScaled(rest, selected, s, r);
      ProjectionScaled(w, selected, s, r);
      TimesSquareScales(s, Projection(w, selected, r));
      TimesAdds(Times(s, s), SumOver(rest, Cross(selected, r, r)), Cross(selected, r, r)(w));
    }
  }

  lemma ProjectionScaled(w: Window, selected: seq<string>, s: real, r: Vector)
    requires |r| == |selected|
    ensures Projection(w, selected, Scaled(s, r)) == Times(s, Projection(w, selected, r))
  {
    if w.vector.Some? {
      var x := SensorVector(w.vector.value, selected);
      DotScaled(s, r, x, |r|);
      DotSymmetric(Scaled(s, r), x, |r|);
      DotSymmetric(r, x, |r|);
    } else {
      assert Times(s, 0.0) == 0.0;
    }
  }

  lemma CurvatureScaled(ws: seq<Window>, selected: seq<string>, s: real, r: Vector, ridge: real)
    requires |r| == |selected|
    ensures Curvature(ws, selected, Scaled(s, r), ridge) == Times(Times(s, s), Curvature(ws, selected, r, ridge))
  {
    var n := |r|;
    CrossScaled(ws, selected, s, r);
    DotScaled(s, r, Scaled(s, r), n);
    DotSymmetric(r, Scaled(s, r), n);
    DotScaled(s, r, r, n);
    TimesRegroup(ridge, s, Dot(r, r, n));
    TimesAdds(Times(s, s), SumOver(ws, Cross(selected, r, r)), Times(ridge, Dot(r, r, n)));
  }

  lemma TimesRegroup(ridge: real, s: real, x: real)
    ensures Times(ridge, Times(s, Times(s, x))) == Times(Times(s, s), Times(ridge, x))
  {
    assert s * (s * x) == (s * s) * x;
    assert ridge * ((s * s) * x) == (s * s) * (ridge * x);
  }

  /** A step of size `s = R / K` against a non-zero defect lowers the loss by `R * R / K`. */
  lemma DescentStep(r: real, k: real) returns (s: real)
    requires r > 0.0 && k > 0.0
    ensures 2.0 * Times(s, r) + Times(Times(s, s), k) < 0.0
  {
    s := -(r / k);
    var t := r / k;
    assert t > 0.0 && t * k == r;
    assert Times(s, r) == -(t * r);
    assert Times(Times(s, s), k) == (t * t) * k == t * (t * k) == t * r;
    assert t * r > 0.0;
  }

  /** Where the normal equations fail, stepping against the defect of one column lowers the objective. */
  lemma Improvement(
    ws: seq<Window>, selected: seq<string>, sensors: seq<string>, b: Matrix, i: nat, c: nat, ridge: real)
    returns (x: Matrix)
    requires Shape(b, |selected|, |sensors|) && ridge > 0.0 && i < |selected| && c < |sensors|
    requires Defect(ws, selected, sensors[c], Column(b, c, |selected|, |sensors|), ridge)[i] != 0.0
    ensures Shape(x, |selected|, |sensors|)
    ensures Objective(ws, selected, sensors, x, ridge) < Objective(ws, selected, sensors, b, ridge)
  {
    var n, m := |selected|, |sensors|;
    var u := Column(b, c, n, m);
    var r := Defect(ws, selected, sensors[c], u, ridge);
    DotSelfPositive(r, n);
    CurvaturePositive(ws, selected, r, ridge);
    var s := DescentStep(Dot(r, r, n), Curvature(ws, selected, r, ridge));
    LossExpands(ws, selected, sensors[c], u, Scaled(s, r), ridge);
    DotScaled(s, r, r, n);
    CurvatureScaled(ws, selected, s, r, ridge);
    var v := Plus(u, Scaled(s, r));
    ReplacingOneColumn(ws, selected, sensors, b, c, v, ridge, m);
    x := WithColumn(b, c, v, n, m);
  }

  /** A minimiser solves the normal equations. */
  lemma MinimiserIsNormal(ws: seq<Window>, selected: seq<string>, sensors: seq<string>, b: Matrix, ridge: real)
    requires Shape(b, |selected|, |sensors|) && ridge > 0.0
    requires Minimises(ws, selected, sensors, b, ridge)
    ensures SolvesNormalEquations(ws, selected, sensors, b, ridge)
  {
    var n, m := |selected|, |sensors|;
    forall i, c | 0 <= i < n && 0 <= c < m
      ensures Dot(System(PairMatrix(ws, selected, selected), ridge, n)[i], Column(b, c, n, m), n) ==
              PairMatrix(ws, selected, sensors)[i][c]
    {
      var r := Defect(ws, selected, sensors[c], Column(b, c, n, m), ridge);
      assert PairMatrix(ws, selected, sensors)[i][c] == PairSum(ws, selected[i], sensors[c]);
      if r[i] != 0.0 {
        var x := Improvement(ws, selected, sensors, b, i, c, ridge);
      }
    }
  }

  /** Minimising the objective and solving the normal equations are the same thing. */
  lemma MinimiserIffNormal(ws: seq<Window>, selected: seq<string>, sensors: seq<string>, b: Matrix, ridge: real)
    requires Shape(b, |selected|, |sensors|) && ridge > 0.0
    ensures Minimises(ws, selected, sensors, b, ridge) <==> SolvesNormalEquations(ws, selected, sensors, b, ridge)
  {
    if Minimises(ws, selected, sensors, b, ridge) {
      MinimiserIsNormal(ws, selected, sensors, b, ridge);
    }
    if SolvesNormalEquations(ws, selected, sensors, b, ridge) {
      NormalIsUniqueMinimiser(ws, selected, sensors, b, ridge);
    }
  }
}
