/** Top-k pruning of weighted edges, by endpoint (undirected) or by source (directed). */
module TopK {
  import opened Sums
  import opened Sorting

  /** A weighted edge; a missing weight counts as zero. */
  datatype Row = Row(u: string, v: string, weight: Option<real>)

  datatype Mode = Undirected | Directed

  function Weight(r: Row): real {
    if r.weight.Some? then r.weight.value else 0.0
  }

  /** The buckets a row goes into; an undirected self-loop goes into its bucket twice. */
  function BucketNames(mode: Mode, r: Row): seq<string> {
    if mode.Undirected? then [r.u, r.v] else [r.u]
  }

  /** The pair that is kept or dropped; an undirected pair is sorted. */
  function PairOf(mode: Mode, r: Row): (string, string) {
    if mode.Undirected? && !LexLe(r.u, r.v) then (r.v, r.u) else (r.u, r.v)
  }

  /** Descending weight, then ascending names. */
  predicate RankLe(a: Row, b: Row) {
    if Weight(a) != Weight(b) then Weight(a) > Weight(b)
    else if a.u != b.u then LexLe(a.u, b.u)
    else LexLe(a.v, b.v)
  }

  lemma RankLeIsTotalPreorder()
    ensures TotalPreorder(RankLe)
  {
    forall a: Row, b: Row
      ensures RankLe(a, b) || RankLe(b, a)
    {
      LexTotal(a.u, b.u);
      LexTotal(a.v, b.v);
    }
    forall a: Row, b: Row, c: Row | RankLe(a, b) && RankLe(b, c)
      ensures RankLe(a, c)
    {
      RankLeTransitive(a, b, c);
    }
  }

  lemma RankLeTransitive(a: Row, b: Row, c: Row)
    requires RankLe(a, b) && RankLe(b, c)
    ensures RankLe(a, c)
  {
    if Weight(a) == Weight(b) == Weight(c) {
      LexTotal(a.u, b.u);
      LexTotal(b.u, c.u);
      if a.u == b.u == c.u {
        LexTransitive(a.v, b.v, c.v);
      } else if LexLe(a.u, b.u) && LexLe(b.u, c.u) {
        LexTransitive(a.u, b.u, c.u);
      }
    }
  }

  /** Rows of equal rank are copies of one edge. */
  lemma EqualRank(a: Row, b: Row)
    requires RankLe(a, b) && RankLe(b, a)
    ensures a.u == b.u && a.v == b.v
  {
    LexTotal(a.u, b.u);
    LexTotal(a.v, b.v);
  }

  // ---------- The specification: ranks without sorting ----------

  /** How often a row appears in a bucket. */
  function Copies(mode: Mode, r: Row, name: string): real {
    (if r.u == name then 1.0 else 0.0) + if mode.Undirected? && r.v == name then 1.0 else 0.0
  }

  ghost function CopiesAhead(mode: Mode, name: string, r: Row): Row -> real {
    (x: Row) => if RankLe(r, x) then 0.0 else Copies(mode, x, name)
  }

  /** The number of entries of a bucket that rank strictly ahead of `r`. */
  ghost function Ahead(mode: Mode, rows: seq<Row>, name: string, r: Row): real {
    SumOver(rows, CopiesAhead(mode, name, r))
  }

  /** Fewer than `k` entries of one of its buckets rank ahead of the row. */
  ghost predicate RanksWithin(mode: Mode, rows: seq<Row>, k: int, r: Row) {
    exists name :: name in BucketNames(mode, r) && Ahead(mode, rows, name, r) < k as real
  }

  /** Some row with the same pair ranks within the first `k` of one of its buckets. */
  ghost predicate IsKept(mode: Mode, rows: seq<Row>, k: int, r: Row) {
    exists x :: x in rows && PairOf(mode, x) == PairOf(mode, r) && RanksWithin(mode, rows, k, x)
  }

  ghost function Filter(rows: seq<Row>, p: Row -> bool): (kept: seq<Row>)
    ensures forall r :: r in kept <==> r in rows && p(r)
  {
    if rows == [] then []
    else
      assert forall r :: r in rows <==> r in rows[..|rows| - 1] || r == rows[|rows| - 1];
      Filter(rows[..|rows| - 1], p) + if p(rows[|rows| - 1]) then [rows[|rows| - 1]] else []
  }

  ghost function KeptBy(mode: Mode, rows: seq<Row>, k: int): Row -> bool {
    (r: Row) => IsKept(mode, rows, k, r)
  }

  /** The pruned rows, in their original order. Without a positive `k` nothing is pruned. */
  ghost function Retained(mode: Mode, rows: seq<Row>, k: int): seq<Row> {
    if k <= 0 then rows else Filter(rows, KeptBy(mode, rows, k))
  }

  // ---------- Laws of the pruning ----------

  lemma {:induction false} FilterLowersSum(rows: seq<Row>, p: Row -> bool, f: Row -> real)
    requires forall r :: f(r) >= 0.0
    ensures SumOver(Filter(rows, p), f) <= SumOver(rows, f)
  {
    if rows != [] {
      var rest, last := rows[..|rows| - 1], rows[|rows| - 1];
      FilterLowersSum(rest, p, f);
      if p(last) {
        SumAppend(Filter(rest, p), last, f);
      } else {
        assert Filter(rows, p) == Filter(rest, p);
      }
    }
  }

  lemma {:induction false} FilterAll(rows: seq<Row>, p: Row -> bool)
    requires forall r :: r in rows ==> p(r)
    ensures Filter(rows, p) == rows
  {
    if rows != [] {
      var rest, last := rows[..|rows| - 1], rows[|rows| - 1];
      assert rows == rest + [last];
      FilterAll(rest, p);
    }
  }

  lemma FilterLowersAhead(mode: Mode, rows: seq<Row>, p: Row -> bool, name: string, r: Row)
    ensures Ahead(mode, Filter(rows, p), name, r) <= Ahead(mode, rows, name, r)
  {
    FilterLowersSum(rows, p, CopiesAhead(mode, name, r));
  }

  /** A kept row is still kept when only the kept rows compete. */
  lemma KeptStaysKept(mode: Mode, rows: seq<Row>, k: int, r: Row)
    requires k > 0 && r in Retained(mode, rows, k)
    ensures IsKept(mode, Retained(mode, rows, k), k, r)
  {
    var kept := Retained(mode, rows, k);
    var x :| x in rows && PairOf(mode, x) == PairOf(mode, r) && RanksWithin(mode, rows, k, x);
    assert IsKept(mode, rows, k, x);
    var name :| name in BucketNames(mode, x) && Ahead(mode, rows, name, x) < k as real;
    hide Ahead, PairOf;
    FilterLowersAhead(mode, rows, KeptBy(mode, rows, k), name, x);
    assert RanksWithin(mode, kept, k, x);
  }

  /** Pruning twice is pruning once. */
  lemma PruningIsIdempotent(mode: Mode, rows: seq<Row>, k: int)
    ensures Retained(mode, Retained(mode, rows, k), k) == Retained(mode, rows, k)
  {
    if k > 0 {
      hide IsKept;
      var kept := Retained(mode, rows, k);
      forall r | r in kept
        ensures KeptBy(mode, kept, k)(r)
      {
        KeptStaysKept(mode, rows, k, r);
      }
      FilterAll(kept, KeptBy(mode, kept, k));
    }
  }

  /** A larger positive `k` keeps at least as much. */
  lemma PruningIsMonotone(mode: Mode, rows: seq<Row>, k: int, k': int, r: Row)
    requires 1 <= k <= k' && r in Retained(mode, rows, k)
    ensures r in Retained(mode, rows, k')
  {
    var x :| x in rows && PairOf(mode, x) == PairOf(mode, r) && RanksWithin(mode, rows, k, x);
    assert RanksWithin(mode, rows, k', x);
  }

  /** What is kept does not depend on the order of the rows. */
  lemma PruningIgnoresOrder(mode: Mode, rows: seq<Row>, rows': seq<Row>, k: int, r: Row)
    requires multiset(rows) == multiset(rows')
    ensures r in Retained(mode, rows, k) <==> r in Retained(mode, rows', k)
  {
    SameMembers(rows, rows');
    forall x
      ensures RanksWithin(mode, rows, k, x) <==> RanksWithin(mode, rows', k, x)
    {
      forall name
        ensures Ahead(mode, rows, name, x) == Ahead(mode, rows', name, x)
      {
        SumPermutation(rows, rows', CopiesAhead(mode, name, x));
      }
    }
  }

  lemma SameMembers<T>(xs: seq<T>, ys: seq<T>)
    requires multiset(xs) == multiset(ys)
    ensures forall x :: x in xs <==> x in ys
  {
    assert forall x :: x in xs <==> x in multiset(xs);
    assert forall x :: x in ys <==> x in multiset(ys);
  }

  // ---------- The algorithm ----------

  /** The rows collected under a name, an undirected self-loop twice. */
  function Bucket(mode: Mode, rows: seq<Row>, name: string): seq<Row> {
    if rows == [] then []
    else
      var r := rows[|rows| - 1];
      Bucket(mode, rows[..|rows| - 1], name) + Own(mode, r, name)
  }

  function Top(bucket: seq<Row>, k: int): seq<Row>
    requires k > 0
  {
    var ranked := Sort(bucket, RankLe);
    if |ranked| <= k then ranked else ranked[..k]
  }

  ghost function OneAhead(r: Row): Row -> real {
    (x: Row) => if RankLe(r, x) then 0.0 else 1.0
  }

  lemma {:induction false} BucketMembers(mode: Mode, rows: seq<Row>, name: string, r: Row)
    ensures r in Bucket(mode, rows, name) <==> r in rows && name in BucketNames(mode, r)
  {
    if rows != [] {
      BucketMembers(mode, rows[..|rows| - 1], name, r);
      assert r in rows <==> r in rows[..|rows| - 1] || r == rows[|rows| - 1];
    }
  }

  lemma OwnCount(mode: Mode, x: Row, name: string, r: Row)
    ensures SumOver(Own(mode, x, name), OneAhead(r)) == CopiesAhead(mode, name, r)(x)
  {
    SumAppend([], x, OneAhead(r));
    SumAppend([x], x, OneAhead(r));
    assert [] + [x] == [x];
    hide RankLe;
  }

  lemma {:induction false} AheadIsCountInBucket(mode: Mode, rows: seq<Row>, name: string, r: Row)
    ensures Ahead(mode, rows, name, r) == SumOver(Bucket(mode, rows, name), OneAhead(r))
  {
    if rows != [] {
      var rest, x := rows[..|rows| - 1], rows[|rows| - 1];
      AheadIsCountInBucket(mode, rest, name, r);
      OwnCount(mode, x, name, r);
      SumConcat(Bucket(mode, rest, name), Own(mode, x, name), OneAhead(r));
    }
  }

  lemma {:induction false} SumWithinLength(xs: seq<Row>, f: Row -> real)
    requires forall x :: x in xs ==> 0.0 <= f(x) <= 1.0
    ensures 0.0 <= SumOver(xs, f) <= |xs| as real
    ensures (forall x :: x in xs ==> f(x) == 1.0) ==> SumOver(xs, f) == |xs| as real
  {
    if xs != [] {
      SumWithinLength(xs[..|xs| - 1], f);
    }
  }

  /** In a sorted bucket, at most `j` entries rank ahead of entry `j`. */
  lemma AheadOfEntry(s: seq<Row>, j: nat)
    requires SortedBy(s, RankLe) && j < |s|
    ensures SumOver(s, OneAhead(s[j])) <= j as real
  {
    RankLeIsTotalPreorder();
    var f := OneAhead(s[j]);
    assert s == s[..j] + s[j..];
    SumConcat(s[..j], s[j..], f);
    SumOfZeros(s[j..], f);
    SumWithinLength(s[..j], f);
  }

  /** An entry with fewer than `k` ahead of it has a copy of the same edge among the first `k`. */
  lemma CopyAmongFirst(s: seq<Row>, k: nat, r: Row) returns (m: nat)
    requires SortedBy(s, RankLe) && r in s && SumOver(s, OneAhead(r)) < k as real
    ensures m < |s| && m < k && s[m].u == r.u && s[m].v == r.v
  {
    hide SumOver, RankLe;
    RankLeIsTotalPreorder();
    var f := OneAhead(r);
    var j :| 0 <= j < |s| && s[j] == r;
    assert RankLe(r, r);
    m := FirstNotAhead(s, r, j);
    assert s == s[..m] + s[m..];
    SumConcat(s[..m], s[m..], f);
    SumWithinLength(s[..m], f);
    SumWithinLength(s[m..], f);
    assert m == j || RankLe(s[m], s[j]);
    EqualRank(r, s[m]);
  }

  lemma FirstNotAhead(s: seq<Row>, r: Row, j: nat) returns (m: nat)
    requires j < |s| && RankLe(r, s[j])
    ensures m <= j && RankLe(r, s[m]) && forall i :: 0 <= i < m ==> !RankLe(r, s[i])
  {
    hide RankLe;
    m := 0;
    while !RankLe(r, s[m])
      invariant m <= j && forall i :: 0 <= i < m ==> !RankLe(r, s[i])
      decreases j - m
    {
      m := m + 1;
    }
  }

  /** The first `k` of a bucket, and the count of entries ahead, describe the same edges. */
  lemma TopIffAhead(bucket: seq<Row>, k: int, r: Row)
    requires k > 0
    ensures r in Top(bucket, k) ==> r in bucket && SumOver(bucket, OneAhead(r)) < k as real
    ensures r in bucket && SumOver(bucket, OneAhead(r)) < k as real ==>
            exists x :: x in Top(bucket, k) && x.u == r.u && x.v == r.v
  {
    var s := Sort(bucket, RankLe);
    RankLeIsTotalPreorder();
    SortSorts(bucket, RankLe);
    SortPermutes(bucket, RankLe);
    SumPermutation(bucket, s, OneAhead(r));
    SameMembers(bucket, s);
    if r in Top(bucket, k) {
      var j :| 0 <= j < |s| && j < k && s[j] == r;
      AheadOfEntry(s, j);
    }
    if r in bucket && SumOver(bucket, OneAhead(r)) < k as real {
      var m := CopyAmongFirst(s, k, r);
      assert s[m] in Top(bucket, k);
    }
  }

  /** The pairs that the ranked buckets put into the keep set. */
  ghost predicate InKeepSet(mode: Mode, rows: seq<Row>, k: int, pair: (string, string))
    requires k > 0
  {
    exists name, x :: x in Top(Bucket(mode, rows, name), k) && PairOf(mode, x) == pair
  }

  lemma KeptIsInKeepSet(mode: Mode, rows: seq<Row>, k: int, r: Row)
    requires k > 0 && IsKept(mode, rows, k, r)
    ensures InKeepSet(mode, rows, k, PairOf(mode, r))
  {
    var x :| x in rows && PairOf(mode, x) == PairOf(mode, r) && RanksWithin(mode, rows, k, x);
    var name :| name in BucketNames(mode, x) && Ahead(mode, rows, name, x) < k as real;
    BucketMembers(mode, rows, name, x);
    AheadIsCountInBucket(mode, rows, name, x);
    hide Ahead, Top, Bucket;
    TopIffAhead(Bucket(mode, rows, name), k, x);
    var y :| y in Top(Bucket(mode, rows, name), k) && y.u == x.u && y.v == x.v;
    assert PairOf(mode, y) == PairOf(mode, r);
  }

  lemma KeepSetIsKept(mode: Mode, rows: seq<Row>, k: int, r: Row)
    requires k > 0 && InKeepSet(mode, rows, k, PairOf(mode, r))
    ensures IsKept(mode, rows, k, r)
  {
    hide Ahead, Top, Bucket;
    var name, x :| x in Top(Bucket(mode, rows, name), k) && PairOf(mode, x) == PairOf(mode, r);
    TopIffAhead(Bucket(mode, rows, name), k, x);
    BucketMembers(mode, rows, name, x);
    AheadIsCountInBucket(mode, rows, name, x);
    assert RanksWithin(mode, rows, k, x);
  }

  function Lookup(buckets: map<string, seq<Row>>, name: string): seq<Row> {
    if name in buckets then buckets[name] else []
  }

  /** Collects every row under each of its bucket names. */
  method FillBuckets(mode: Mode, rows: seq<Row>) returns (buckets: map<string, seq<Row>>)
    ensures forall name :: Lookup(buckets, name) == Bucket(mode, rows, name)
  {
    buckets := map[];
    for t := 0 to |rows|
      invariant forall name :: Lookup(buckets, name) == Bucket(mode, rows[..t], name)
    {
      hide Bucket, Lookup, Own, Collected;
      ghost var before, now := rows[..t], rows[..t + 1];
      assert now == before + [rows[t]];
      BucketsGrow(mode, before, rows[t]);
      buckets := Collected(mode, buckets, rows[t]);
    }
    assert rows[..|rows|] == rows;
  }

  function Collected(mode: Mode, buckets: map<string, seq<Row>>, r: Row): (after: map<string, seq<Row>>)
    ensures forall name :: Lookup(after, name) == Lookup(buckets, name) + Own(mode, r, name)
  {
    var once := buckets[r.u := Lookup(buckets, r.u) + [r]];
    if mode.Undirected? then once[r.v := Lookup(once, r.v) + [r]] else once
  }

  /** What one row contributes to a bucket. */
  function Own(mode: Mode, r: Row, name: string): seq<Row> {
    (if r.u == name then [r] else []) + if mode.Undirected? && r.v == name then [r] else []
  }

  lemma BucketsGrow(mode: Mode, rows: seq<Row>, r: Row)
    ensures forall name :: Bucket(mode, rows + [r], name) == Bucket(mode, rows, name) + Own(mode, r, name)
  {
    assert (rows + [r])[..|rows|] == rows;
  }

  /** Ranks every bucket and keeps the pairs of its first `k` rows. */
  method CollectKeepSet(mode: Mode, buckets: map<string, seq<Row>>, k: int) returns (keep: set<(string, string)>)
    requires k > 0
    ensures forall pair :: pair in keep <==>
            exists name, x :: name in buckets && x in Top(buckets[name], k) && PairOf(mode, x) == pair
  {
    keep := {};
    var todo := buckets.Keys;
    while todo != {}
      invariant todo <= buckets.Keys
      invariant forall pair :: pair in keep <==>
                  exists name, x :: name in buckets && name !in todo && x in Top(buckets[name], k)
                    && PairOf(mode, x) == pair
      decreases todo
    {
      var name :| name in todo;
      keep := keep + set x | x in Top(buckets[name], k) :: PairOf(mode, x);
      todo := todo - {name};
    }
  }

  /** The pruning as it is computed: bucket, rank, cut, and filter. */
  method RetainTopK(mode: Mode, rows: seq<Row>, k: int) returns (kept: seq<Row>)
    ensures kept == Retained(mode, rows, k)
  {
    if k <= 0 || rows == [] {
      return rows;
    }
    var buckets := FillBuckets(mode, rows);
    var keep := CollectKeepSet(mode, buckets, k);
    forall r
      ensures PairOf(mode, r) in keep <==> KeptBy(mode, rows, k)(r)
    {
      hide IsKept, Top, Bucket;
      if KeptBy(mode, rows, k)(r) {
        KeptIsInKeepSet(mode, rows, k, r);
        var name, x :| x in Top(Bucket(mode, rows, name), k) && PairOf(mode, x) == PairOf(mode, r);
        TopIffAhead(Bucket(mode, rows, name), k, x);
        assert Lookup(buckets, name) == Bucket(mode, rows, name);
      }
      if PairOf(mode, r) in keep {
        var name, x :| name in buckets && x in Top(buckets[name], k) && PairOf(mode, x) == PairOf(mode, r);
        assert Lookup(buckets, name) == Bucket(mode, rows, name);
        KeepSetIsKept(mode, rows, k, r);
      }
    }
    kept := [];
    for t := 0 to |rows|
      invariant kept == Filter(rows[..t], KeptBy(mode, rows, k))
    {
      assert rows[..t + 1][..t] == rows[..t];
      if PairOf(mode, rows[t]) in keep {
        kept := kept + [rows[t]];
      }
    }
    assert rows[..|rows|] == rows;
  }

  // ---------- Directed pruning keeps at most k edges a source ----------

  const SourceOf: Row -> string := (r: Row) => r.u

  ghost predicate UniquePairs(mode: Mode, rows: seq<Row>) {
    forall i, j :: 0 <= i < j < |rows| ==> PairOf(mode, rows[i]) != PairOf(mode, rows[j])
  }

  lemma {:induction false} DistinctWithin<T>(xs: seq<T>, s: set<T>)
    requires Distinct(xs) && forall x :: x in xs ==> x in s
    ensures |xs| <= |s|
  {
    if xs != [] {
      var x := xs[|xs| - 1];
      DistinctWithin(xs[..|xs| - 1], s - {x});
    }
  }

  lemma {:induction false} PairsWithin(mode: Mode, rows: seq<Row>, top: seq<Row>)
    ensures |set x | x in top :: PairOf(mode, x)| <= |top|
  {
    hide PairOf;
    var pairs := set x | x in top :: PairOf(mode, x);
    if top == [] {
      assert pairs == {};
    } else {
      var rest, last := top[..|top| - 1], top[|top| - 1];
      PairsWithin(mode, rows, rest);
      assert pairs == (set x | x in rest :: PairOf(mode, x)) + {PairOf(mode, last)};
    }
  }

  lemma UniqueAppend(mode: Mode, xs: seq<Row>, x: Row)
    requires UniquePairs(mode, xs) && forall y :: y in xs ==> PairOf(mode, y) != PairOf(mode, x)
    ensures UniquePairs(mode, xs + [x])
  {
  }

  lemma {:induction false} FilterUnique(mode: Mode, rows: seq<Row>, p: Row -> bool)
    requires UniquePairs(mode, rows)
    ensures UniquePairs(mode, Filter(rows, p))
  {
    if rows != [] {
      var rest, last := rows[..|rows| - 1], rows[|rows| - 1];
      FilterUnique(mode, rest, p);
      if p(last) {
        UniqueAppend(mode, Filter(rest, p), last);
      }
    }
  }

  lemma {:induction false} GroupUnique(mode: Mode, rows: seq<Row>, name: string)
    requires UniquePairs(mode, rows)
    ensures UniquePairs(mode, Group(rows, SourceOf, name))
  {
    if rows != [] {
      var rest, last := rows[..|rows| - 1], rows[|rows| - 1];
      GroupUnique(mode, rest, name);
      if last.u == name {
        UniqueAppend(mode, Group(rest, SourceOf, name), last);
      }
    }
  }

  /** With unique pairs, no source keeps more than `k` edges. */
  lemma AtMostKPerSource(rows: seq<Row>, k: int, name: string)
    requires k > 0 && UniquePairs(Directed, rows)
    ensures |Group(Retained(Directed, rows, k), SourceOf, name)| <= k
  {
    var mine := Group(Retained(Directed, rows, k), SourceOf, name);
    FilterUnique(Directed, rows, KeptBy(Directed, rows, k));
    GroupUnique(Directed, Retained(Directed, rows, k), name);
    var top := Top(Bucket(Directed, rows, name), k);
    forall r | r in mine
      ensures exists x :: x in top && PairOf(Directed, x) == PairOf(Directed, r)
    {
      KeptFromOwnBucket(rows, k, r);
    }
    hide Group, Retained, Bucket;
    PairsWithin(Directed, rows, top);
    OnlyTopPairs(mine, top);
  }

  lemma OnlyTopPairs(mine: seq<Row>, top: seq<Row>)
    requires UniquePairs(Directed, mine)
    requires forall r :: r in mine ==> exists x :: x in top && PairOf(Directed, x) == PairOf(Directed, r)
    ensures |mine| <= |set x | x in top :: PairOf(Directed, x)|
  {
    var pairs := seq(|mine|, i requires 0 <= i < |mine| => PairOf(Directed, mine[i]));
    forall p | p in pairs
      ensures p in set x | x in top :: PairOf(Directed, x)
    {
      var i :| 0 <= i < |mine| && pairs[i] == p;
      assert mine[i] in mine;
    }
    DistinctWithin(pairs, set x | x in top :: PairOf(Directed, x));
  }

  lemma KeptFromOwnBucket(rows: seq<Row>, k: int, r: Row)
    requires k > 0 && IsKept(Directed, rows, k, r)
    ensures exists x :: x in Top(Bucket(Directed, rows, r.u), k) && PairOf(Directed, x) == PairOf(Directed, r)
  {
    var x :| x in rows && PairOf(Directed, x) == PairOf(Directed, r) && RanksWithin(Directed, rows, k, x);
    assert Ahead(Directed, rows, x.u, x) < k as real;
    BucketMembers(Directed, rows, x.u, x);
    AheadIsCountInBucket(Directed, rows, x.u, x);
    hide Ahead, Top, Bucket;
    TopIffAhead(Bucket(Directed, rows, x.u), k, x);
  }

  // ---------- Which edges stay, by weights and names ----------

  predicate Before(a: string, b: string) {
    a != b && LexLe(a, b)
  }

  /** The edge is heavier, or as heavy and first by names; a missing weight counts as zero. */
  predicate Beats(x: Row, r: Row) {
    var wx, wr := if x.weight.Some? then x.weight.value else 0.0, if r.weight.Some? then r.weight.value else 0.0;
    wx > wr || (wx == wr && (Before(x.u, r.u) || (x.u == r.u && Before(x.v, r.v))))
  }

  predicate Touches(mode: Mode, r: Row, name: string) {
    r.u == name || (mode.Undirected? && r.v == name)
  }

  predicate SameEdge(mode: Mode, x: Row, r: Row) {
    (x.u == r.u && x.v == r.v) || (mode.Undirected? && x.u == r.v && x.v == r.u)
  }

  /** An edge that beats `r` counts once at each of its ends that is `name`. */
  ghost function BeatingEnds(mode: Mode, name: string, r: Row): Row -> real {
    (x: Row) =>
      if !Beats(x, r) then 0.0
      else (if x.u == name then 1.0 else 0.0) + if mode.Undirected? && x.v == name then 1.0 else 0.0
  }

  lemma BeatsIffAhead(x: Row, r: Row)
    ensures Beats(x, r) <==> !RankLe(r, x)
  {
    LexTotal(x.u, r.u);
    LexTotal(x.v, r.v);
  }

  lemma BeatingIsAhead(mode: Mode, rows: seq<Row>, name: string, r: Row)
    ensures SumOver(rows, BeatingEnds(mode, name, r)) == Ahead(mode, rows, name, r)
  {
    hide Beats, RankLe;
    forall x | x in rows
      ensures BeatingEnds(mode, name, r)(x) == CopiesAhead(mode, name, r)(x)
    {
      BeatsIffAhead(x, r);
    }
    SumCongruent(rows, BeatingEnds(mode, name, r), CopiesAhead(mode, name, r));
  }

  lemma SameEdgeIffSamePair(mode: Mode, x: Row, r: Row)
    ensures SameEdge(mode, x, r) <==> PairOf(mode, x) == PairOf(mode, r)
  {
    LexTotal(x.u, x.v);
    LexTotal(r.u, r.v);
  }

  /**
   * A positive `k` keeps a row if and only if a row of the same edge is beaten fewer than `k` times at one of its
   * ends, the source in the directed case.
   */
  lemma KeptIffSeldomBeaten(mode: Mode, rows: seq<Row>, k: int, r: Row)
    requires k > 0
    ensures r in Retained(mode, rows, k) <==>
            && r in rows
            && exists x, name :: x in rows && SameEdge(mode, x, r) && Touches(mode, x, name)
                 && SumOver(rows, BeatingEnds(mode, name, x)) < k as real
  {
    hide SumOver, Ahead, BeatingEnds, PairOf, SameEdge;
    forall x
      ensures SameEdge(mode, x, r) <==> PairOf(mode, x) == PairOf(mode, r)
      ensures RanksWithin(mode, rows, k, x) <==>
              exists name :: Touches(mode, x, name) && SumOver(rows, BeatingEnds(mode, name, x)) < k as real
    {
      SameEdgeIffSamePair(mode, x, r);
      RanksWithinIff(mode, rows, k, x);
    }
  }

  lemma RanksWithinIff(mode: Mode, rows: seq<Row>, k: int, x: Row)
    ensures RanksWithin(mode, rows, k, x) <==>
            exists name :: Touches(mode, x, name) && SumOver(rows, BeatingEnds(mode, name, x)) < k as real
  {
    hide SumOver, Ahead, BeatingEnds;
    forall name
      ensures name in BucketNames(mode, x) <==> Touches(mode, x, name)
      ensures SumOver(rows, BeatingEnds(mode, name, x)) == Ahead(mode, rows, name, x)
    {
      BeatingIsAhead(mode, rows, name, x);
    }
  }

  /** Wherever an edge ends, an edge at least as heavy that ends there is kept. */
  lemma HeaviestIsKept(mode: Mode, rows: seq<Row>, k: int, r: Row, name: string)
    requires k > 0 && r in rows && Touches(mode, r, name)
    ensures exists x :: x in Retained(mode, rows, k) && Touches(mode, x, name)
              && (if x.weight.Some? then x.weight.value else 0.0) >= (if r.weight.Some? then r.weight.value else 0.0)
  {
    hide Bucket, Top, PairOf, IsKept;
    BucketMembers(mode, rows, name, r);
    var x := FirstOf(Bucket(mode, rows, name), k, r);
    BucketMembers(mode, rows, name, x);
    assert InKeepSet(mode, rows, k, PairOf(mode, x));
    KeepSetIsKept(mode, rows, k, x);
    KeptIsRetained(mode, rows, k, x);
    assert Touches(mode, x, name);
  }

  lemma KeptIsRetained(mode: Mode, rows: seq<Row>, k: int, x: Row)
    requires k > 0 && x in rows && IsKept(mode, rows, k, x)
    ensures x in Retained(mode, rows, k)
  {
    assert KeptBy(mode, rows, k)(x);
  }

  lemma FirstOf(bucket: seq<Row>, k: int, r: Row) returns (x: Row)
    requires k > 0 && r in bucket
    ensures x in Top(bucket, k) && x in bucket
    ensures (if x.weight.Some? then x.weight.value else 0.0) >= (if r.weight.Some? then r.weight.value else 0.0)
  {
    var s := Sort(bucket, RankLe);
    RankLeIsTotalPreorder();
    SortSorts(bucket, RankLe);
    SortPermutes(bucket, RankLe);
    SameMembers(bucket, s);
    x := s[0];
    var j :| 0 <= j < |s| && s[j] == r;
    assert RankLe(x, x) && (j == 0 || RankLe(s[0], s[j]));
    assert RankLe(x, r);
    assert x in Top(bucket, k) && x in bucket;
  }
}
