/** Finite real sums over sequences. */
module Sums {
  datatype Option<+T> = None | Some(value: T)

  /** Sum of `f` over the elements of `xs`. */
  ghost function SumOver<T>(xs: seq<T>, f: T -> real): real {
    if xs == [] then 0.0 else SumOver(xs[..|xs| - 1], f) + f(xs[|xs| - 1])
  }

  lemma {:induction false} SumConcat<T>(xs: seq<T>, ys: seq<T>, f: T -> real)
    ensures SumOver(xs + ys, f) == SumOver(xs, f) + SumOver(ys, f)
  {
    if ys == [] {
      assert xs + ys == xs;
    } else {
      SumConcat(xs, ys[..|ys| - 1], f);
      assert (xs + ys)[..|xs + ys| - 1] == xs + ys[..|ys| - 1];
    }
  }

  lemma SumSplit<T>(xs: seq<T>, k: nat, f: T -> real)
    requires k < |xs|
    ensures SumOver(xs, f) == SumOver(xs[..k] + xs[k + 1..], f) + f(xs[k])
  {
    hide SumOver;
    var front, back := xs[..k], xs[k + 1..];
    assert xs == (front + [xs[k]]) + back;
    SumConcat(front + [xs[k]], back, f);
    SumAppend(front, xs[k], f);
    SumConcat(front, back, f);
  }

  /** The order of the summands is irrelevant. */
  lemma {:induction false} SumPermutation<T>(xs: seq<T>, ys: seq<T>, f: T -> real)
    requires multiset(xs) == multiset(ys)
    ensures SumOver(xs, f) == SumOver(ys, f)
    decreases |xs|
  {
    if xs == [] {
      assert |multiset(ys)| == 0;
    } else {
      var x := xs[|xs| - 1];
      assert x in multiset(ys);
      var k :| 0 <= k < |ys| && ys[k] == x;
      assert xs == xs[..|xs| - 1] + [x];
      assert ys == ys[..k] + [x] + ys[k + 1..];
      assert multiset(xs[..|xs| - 1]) == multiset(xs) - multiset{x};
      assert multiset(ys[..k] + ys[k + 1..]) == multiset(ys) - multiset{x};
      SumPermutation(xs[..|xs| - 1], ys[..k] + ys[k + 1..], f);
      SumSplit(ys, k, f);
    }
  }

  lemma {:induction false} SumCongruent<T>(xs: seq<T>, f: T -> real, g: T -> real)
    requires forall x :: x in xs ==> f(x) == g(x)
    ensures SumOver(xs, f) == SumOver(xs, g)
  {
    if xs != [] {
      SumCongruent(xs[..|xs| - 1], f, g);
    }
  }

  /** Changing the summand of one element of a repetition-free sequence changes the sum by the same amount. */
  lemma SumChangeOne<T>(xs: seq<T>, k: nat, f: T -> real, g: T -> real)
    requires k < |xs| && forall i, j :: 0 <= i < j < |xs| ==> xs[i] != xs[j]
    requires forall x :: x in xs && x != xs[k] ==> f(x) == g(x)
    ensures SumOver(xs, g) == SumOver(xs, f) + g(xs[k]) - f(xs[k])
  {
    SumSplit(xs, k, f);
    SumSplit(xs, k, g);
    SumCongruent(xs[..k] + xs[k + 1..], f, g);
  }

  lemma {:induction false} SumAdds<T>(xs: seq<T>, f: T -> real, g: T -> real, h: T -> real)
    requires forall x :: x in xs ==> h(x) == f(x) + g(x)
    ensures SumOver(xs, h) == SumOver(xs, f) + SumOver(xs, g)
  {
    if xs != [] {
      SumAdds(xs[..|xs| - 1], f, g, h);
    }
  }

  lemma {:induction false} SumMonotone<T>(xs: seq<T>, f: T -> real, g: T -> real)
    requires forall x :: x in xs ==> f(x) <= g(x)
    ensures SumOver(xs, f) <= SumOver(xs, g)
  {
    if xs != [] {
      SumMonotone(xs[..|xs| - 1], f, g);
    }
  }

  lemma {:induction false} SumNonNegative<T>(xs: seq<T>, f: T -> real)
    requires forall x :: x in xs ==> f(x) >= 0.0
    ensures SumOver(xs, f) >= 0.0
    ensures forall x :: x in xs ==> f(x) <= SumOver(xs, f)
  {
    if xs != [] {
      SumNonNegative(xs[..|xs| - 1], f);
    }
  }

  ghost predicate Distinct<T>(xs: seq<T>) {
    forall i, j :: 0 <= i < j < |xs| ==> xs[i] != xs[j]
  }

  /** The elements whose key is `key`, in order. */
  function Group<T, K(==)>(xs: seq<T>, keyOf: T -> K, key: K): (g: seq<T>)
    ensures forall x :: x in g ==> x in xs && keyOf(x) == key
  {
    if xs == [] then []
    else Group(xs[..|xs| - 1], keyOf, key) + if keyOf(xs[|xs| - 1]) == key then [xs[|xs| - 1]] else []
  }

  lemma GroupAppend<T, K>(xs: seq<T>, x: T, keyOf: T -> K, key: K)
    ensures Group(xs + [x], keyOf, key) == Group(xs, keyOf, key) + if keyOf(x) == key then [x] else []
  {
    assert (xs + [x])[..|xs|] == xs;
  }

  lemma EmptyGroup<T, K>(keyOf: T -> K, key: K)
    ensures Group([], keyOf, key) == []
  {
  }

  lemma {:induction false} InOwnGroup<T, K>(xs: seq<T>, keyOf: T -> K, x: T)
    requires x in xs
    ensures x in Group(xs, keyOf, keyOf(x))
  {
    if x != xs[|xs| - 1] {
      InOwnGroup(xs[..|xs| - 1], keyOf, x);
    }
  }

  ghost function GroupSum<T, K>(xs: seq<T>, keyOf: T -> K, f: T -> real): K -> real {
    key => SumOver(Group(xs, keyOf, key), f)
  }

  lemma SumAppend<T>(xs: seq<T>, x: T, f: T -> real)
    ensures SumOver(xs + [x], f) == SumOver(xs, f) + f(x)
  {
    assert (xs + [x])[..|xs|] == xs;
  }

  lemma EmptySum<T>(f: T -> real)
    ensures SumOver([], f) == 0.0
  {
  }

  lemma SumOfOne<T>(x: T, f: T -> real)
    ensures SumOver([x], f) == f(x)
  {
    assert [x][..0] == [];
  }

  lemma SumOfTwo<T>(x: T, y: T, f: T -> real)
    ensures SumOver([x, y], f) == f(x) + f(y)
  {
    SumOfOne(x, f);
    SumAppend([x], y, f);
    assert [x] + [y] == [x, y];
  }

  /** Summing group by group gives the same total for every grouping and every order of the groups. */
  lemma {:induction false} SumByGroups<T, K>(xs: seq<T>, keyOf: T -> K, order: seq<K>, f: T -> real)
    requires Distinct(order) && forall x :: x in xs ==> keyOf(x) in order
    ensures SumOver(order, GroupSum(xs, keyOf, f)) == SumOver(xs, f)
  {
    if xs == [] {
      SumOfZeros(order, GroupSum(xs, keyOf, f));
    } else {
      var rest, x := xs[..|xs| - 1], xs[|xs| - 1];
      SumByGroups(rest, keyOf, order, f);
      var before, after := GroupSum(rest, keyOf, f), GroupSum(xs, keyOf, f);
      var k :| 0 <= k < |order| && order[k] == keyOf(x);
      SumAppend(Group(rest, keyOf, keyOf(x)), x, f);
      forall key | key in order && key != order[k]
        ensures before(key) == after(key)
      {
        assert Group(xs, keyOf, key) == Group(rest, keyOf, key);
      }
      SumChangeOne(order, k, before, after);
    }
  }

  lemma {:induction false} SumOfZeros<T>(xs: seq<T>, f: T -> real)
    requires forall x :: x in xs ==> f(x) == 0.0
    ensures SumOver(xs, f) == 0.0
  {
    if xs != [] {
      SumOfZeros(xs[..|xs| - 1], f);
    }
  }

  lemma {:induction false} GroupIsEmpty<T, K>(xs: seq<T>, keyOf: T -> K, key: K)
    requires forall x :: x in xs ==> keyOf(x) != key
    ensures Group(xs, keyOf, key) == []
  {
    if xs != [] {
      GroupIsEmpty(xs[..|xs| - 1], keyOf, key);
    }
  }

  lemma {:induction false} DistinctCount<T>(xs: seq<T>, x: T)
    requires Distinct(xs)
    ensures multiset(xs)[x] <= 1
  {
    if xs != [] {
      DistinctCount(xs[..|xs| - 1], x);
      assert xs == xs[..|xs| - 1] + [xs[|xs| - 1]];
    }
  }

  /** Having no repetition survives a permutation. */
  lemma DistinctPermutes<T>(xs: seq<T>, ys: seq<T>)
    requires Distinct(xs) && multiset(xs) == multiset(ys)
    ensures Distinct(ys)
  {
    forall i, j | 0 <= i < j < |ys|
      ensures ys[i] != ys[j]
    {
      if ys[i] == ys[j] {
        assert ys == ys[..i] + [ys[i]] + ys[i + 1..j] + [ys[j]] + ys[j + 1..];
        assert multiset(xs)[ys[i]] >= 2;
        DistinctCount(xs, ys[i]);
      }
    }
  }

  /** Without repetitions, a part sums to no more than the whole, and is the whole if it is as long. */
  lemma {:induction false} SumOfPart<T>(xs: seq<T>, ys: seq<T>, f: T -> real)
    requires Distinct(xs) && (forall x :: x in xs ==> x in ys) && forall y :: y in ys ==> f(y) >= 0.0
    ensures SumOver(xs, f) <= SumOver(ys, f) && |xs| <= |ys|
    ensures |xs| == |ys| ==> forall y :: y in ys ==> y in xs
  {
    if xs == [] {
      SumNonNegative(ys, f);
    } else {
      var rest, last := xs[..|xs| - 1], xs[|xs| - 1];
      assert last in ys && forall x :: x in xs <==> x in rest || x == last;
      var k :| 0 <= k < |ys| && ys[k] == last;
      var others := ys[..k] + ys[k + 1..];
      assert ys == ys[..k] + [last] + ys[k + 1..];
      assert forall y :: y in ys <==> y in others || y == last;
      SumSplit(ys, k, f);
      SumOfPart(rest, others, f);
    }
  }

  lemma {:induction false} SumMapped<S, T>(xs: seq<S>, ys: seq<T>, f: S -> real, g: T -> real)
    requires |xs| == |ys| && forall k :: 0 <= k < |xs| ==> f(xs[k]) == g(ys[k])
    ensures SumOver(xs, f) == SumOver(ys, g)
  {
    if xs != [] {
      SumMapped(xs[..|xs| - 1], ys[..|ys| - 1], f, g);
    }
  }

  lemma {:induction false} SumDivided<T>(xs: seq<T>, d: real, f: T -> real, g: T -> real)
    requires d > 0.0 && forall x :: x in xs ==> g(x) == f(x) / d
    ensures SumOver(xs, g) == SumOver(xs, f) / d
  {
    if xs != [] {
      var rest, last := xs[..|xs| - 1], xs[|xs| - 1];
      SumDivided(rest, d, f, g);
      QuotientAdds(SumOver(rest, f), f(last), d);
    }
  }

  lemma QuotientAdds(x: real, y: real, d: real)
    requires d > 0.0
    ensures (x + y) / d == x / d + y / d
  {
  }

  lemma QuotientRange(x: real, d: real)
    requires 0.0 <= x <= d && d > 0.0
    ensures 0.0 <= x / d <= 1.0
    ensures x == d ==> x / d == 1.0
  {
  }

  lemma QuotientNonNegative(x: real, d: real)
    requires 0.0 <= x && d > 0.0
    ensures 0.0 <= x / d
  {
  }

  /** Dividing non-negative summands by something no smaller than their sum gives parts of a whole. */
  lemma SumOfParts<T>(xs: seq<T>, d: real, f: T -> real, g: T -> real)
    requires d > 0.0 && SumOver(xs, f) <= d
    requires forall x :: x in xs ==> f(x) >= 0.0 && g(x) == f(x) / d
    ensures forall x :: x in xs ==> g(x) >= 0.0
    ensures 0.0 <= SumOver(xs, g) <= 1.0
    ensures SumOver(xs, f) == d ==> SumOver(xs, g) == 1.0
  {
    SumNonNegative(xs, f);
    SumDivided(xs, d, f, g);
    QuotientRange(SumOver(xs, f), d);
    forall x | x in xs
      ensures g(x) >= 0.0
    {
      QuotientNonNegative(f(x), d);
    }
  }
}
