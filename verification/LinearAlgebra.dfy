/** Vectors, dot products and rectangular matrices over the reals. */
module LinearAlgebra {
  type Vector = seq<real>
  type Matrix = seq<Vector>

  function Abs(x: real): real {
    if x < 0.0 then -x else x
  }

  function Max(x: real, y: real): real {
    if x >= y then x else y
  }

  function Min(x: real, y: real): real {
    if x <= y then x else y
  }

  /** Multiplication under a name of its own: it keeps squares out of the solver's linear reasoning. */
  function Times(x: real, y: real): real {
    x * y
  }

  lemma TimesSameSign(x: real, y: real)
    requires (x > 0.0 && y > 0.0) || (x < 0.0 && y < 0.0)
    ensures Times(x, y) > 0.0
  {
    if x < 0.0 {
      assert x * y == (-x) * (-y);
    }
  }

  lemma TimesNonNegative(x: real, y: real)
    requires x >= 0.0 && y >= 0.0
    ensures Times(x, y) >= 0.0
  {
  }

  lemma SquarePositive(x: real)
    ensures Times(x, x) >= 0.0
    ensures Times(x, x) == 0.0 <==> x == 0.0
  {
    if x != 0.0 {
      TimesSameSign(x, x);
    }
  }

  /** All that is used about the library's square root. */
  ghost predicate SquareRoot(sqrt: real -> real) {
    forall x: real :: x >= 0.0 ==> sqrt(x) >= 0.0 && Times(sqrt(x), sqrt(x)) == x
  }

  /** The matrix has `n` rows of width `w`. */
  ghost predicate Shape(a: Matrix, n: nat, w: nat) {
    |a| == n && forall i :: 0 <= i < n ==> |a[i]| == w
  }

  /** Sum of the first `k` products. */
  function Dot(u: Vector, v: Vector, k: nat): real
    requires k <= |u| && k <= |v|
  {
    if k == 0 then 0.0 else Dot(u, v, k - 1) + Times(u[k - 1], v[k - 1])
  }

  lemma TimesCombination(a: real, x: real, b: real, y: real, z: real)
    ensures Times(Times(a, x) + Times(b, y), z) == Times(a, Times(x, z)) + Times(b, Times(y, z))
  {
  }

  lemma TimesAdds(a: real, x: real, y: real)
    ensures Times(a, x + y) == Times(a, x) + Times(a, y)
  {
  }

  /** The dot product is linear in its first argument. */
  lemma {:induction false} DotCombination(w: Vector, a: real, u: Vector, b: real, s: Vector, v: Vector, k: nat)
    requires k <= |w| && k <= |u| && k <= |s| && k <= |v|
    requires forall j :: 0 <= j < k ==> w[j] == Times(a, u[j]) + Times(b, s[j])
    ensures Dot(w, v, k) == Times(a, Dot(u, v, k)) + Times(b, Dot(s, v, k))
  {
    if k > 0 {
      DotCombination(w, a, u, b, s, v, k - 1);
      TimesCombination(a, u[k - 1], b, s[k - 1], v[k - 1]);
      TimesAdds(a, Dot(u, v, k - 1), Times(u[k - 1], v[k - 1]));
      TimesAdds(b, Dot(s, v, k - 1), Times(s[k - 1], v[k - 1]));
    }
  }

  lemma {:induction false} DotSymmetric(u: Vector, v: Vector, k: nat)
    requires k <= |u| && k <= |v|
    ensures Dot(u, v, k) == Dot(v, u, k)
  {
    if k > 0 {
      DotSymmetric(u, v, k - 1);
    }
  }

  /** Moving a vector by `p` times `x` moves its dot product with `d` by `p` times that of `x`. */
  lemma DotGrows(after: Vector, before: Vector, x: Vector, p: real, d: Vector, k: nat)
    requires k <= |after| && k <= |before| && k <= |x| && k <= |d|
    requires forall j :: 0 <= j < k ==> after[j] == before[j] + Times(x[j], p)
    ensures Dot(d, after, k) == Dot(d, before, k) + Times(Dot(x, d, k), p)
  {
    forall j | 0 <= j < k
      ensures after[j] == Times(1.0, before[j]) + Times(p, x[j])
    {
    }
    DotCombination(after, 1.0, before, p, x, d, k);
    DotSymmetric(after, d, k);
    DotSymmetric(before, d, k);
  }

  /** Only the first `k` entries matter. */
  lemma {:induction false} DotAgree(u: Vector, u': Vector, v: Vector, v': Vector, k: nat)
    requires k <= |u| && k <= |v| && k <= |u'| && k <= |v'|
    requires forall j :: 0 <= j < k ==> u[j] == u'[j] && v[j] == v'[j]
    ensures Dot(u, v, k) == Dot(u', v', k)
  {
    if k > 0 {
      DotAgree(u, u', v, v', k - 1);
    }
  }

  /** A vector that vanishes on a stretch contributes nothing there. */
  lemma {:induction false} DotZeroTail(u: Vector, v: Vector, lo: nat, k: nat)
    requires lo <= k <= |u| && k <= |v|
    requires forall j :: lo <= j < k ==> v[j] == 0.0
    ensures Dot(u, v, k) == Dot(u, v, lo)
  {
    if lo < k {
      DotZeroTail(u, v, lo, k - 1);
    }
  }

  /** Against a vector with one non-zero entry in the tail, the dot product gains exactly that product. */
  lemma {:induction false} DotSpike(u: Vector, v: Vector, lo: nat, at: nat, k: nat)
    requires lo <= at < k <= |u| && k <= |v|
    requires forall j :: lo <= j < k && j != at ==> v[j] == 0.0
    ensures Dot(u, v, k) == Dot(u, v, lo) + Times(u[at], v[at])
  {
    DotZeroTail(u, v, lo, at);
    DotZeroTail(u, v, at + 1, k);
    assert Dot(u, v, at + 1) == Dot(u, v, at) + Times(u[at], v[at]);
  }

  /** A sum of squares is never negative, and vanishes only for the zero vector. */
  lemma {:induction false} DotSelfPositive(u: Vector, k: nat)
    requires k <= |u|
    ensures Dot(u, u, k) >= 0.0
    ensures Dot(u, u, k) == 0.0 ==> forall j :: 0 <= j < k ==> u[j] == 0.0
  {
    if k > 0 {
      DotSelfPositive(u, k - 1);
      SquarePositive(u[k - 1]);
    }
  }

  /** The square of a dot product is at most the product of the squared norms. */
  lemma CauchySchwarz(u: Vector, v: Vector, k: nat)
    requires k <= |u| && k <= |v|
    ensures Times(Dot(u, v, k), Dot(u, v, k)) <= Times(Dot(u, u, k), Dot(v, v, k))
  {
    var a, b, c := Dot(u, u, k), Dot(u, v, k), Dot(v, v, k);
    DotSymmetric(u, v, k);
    DotSelfPositive(v, k);
    if c == 0.0 {
      DotZeroTail(u, v, 0, k);
      assert Dot(u, v, 0) == 0.0;
    } else {
      hide Dot;
      var w := seq(k, j requires 0 <= j < k => Times(c, u[j]) + Times(-b, v[j]));
      DotCombination(w, c, u, -b, v, w, k);
      DotSymmetric(u, w, k);
      DotSymmetric(v, w, k);
      DotCombination(w, c, u, -b, v, u, k);
      DotCombination(w, c, u, -b, v, v, k);
      DotSelfPositive(w, k);
      Discriminant(a, b, c, Dot(w, w, k));
    }
  }

  lemma Discriminant(a: real, b: real, c: real, square: real)
    requires c > 0.0 && square >= 0.0
    requires square == Times(c, Times(c, a) + Times(-b, b)) + Times(-b, Times(c, b) + Times(-b, c))
    ensures Times(b, b) <= Times(a, c)
  {
    assert Times(-b, Times(c, b) + Times(-b, c)) == 0.0;
    assert Times(c, a) + Times(-b, b) == Times(a, c) - Times(b, b);
    if Times(a, c) - Times(b, b) < 0.0 {
      var gap := Times(b, b) - Times(a, c);
      assert Times(c, gap) == -Times(c, -gap);
      TimesSameSign(c, gap);
    }
  }
}
