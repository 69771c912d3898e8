/**
 The weighted plurality purity of detected clusters. Rows listed twice count once; splitting clusters never lowers the
 purity when no row is listed in two parts, and the exact condition for a lower purity is given.
 */
module ClusterPurity {
  import opened Sums
  import opened LinearAlgebra
  import opened ClusterAlignment

  /** The rows without repetitions, each where it came first. */
  function Deduped(rows: seq<Row>): (kept: seq<Row>)
    ensures forall r :: r in kept <==> r in rows
    ensures Distinct(kept)
  {
    if rows == [] then []
    else
      var rest, last := rows[..|rows| - 1], rows[|rows| - 1];
      assert forall r :: r in rows <==> r in rest || r == last;
      if last in rest then Deduped(rest) else Deduped(rest) + [last]
  }

  /** Dominant counts over all rows, by detected cluster; the clusters may be listed in any order. */
  ghost function WeightedPurity(rows: seq<Row>, clusters: seq<string>): real
    requires rows != []
  {
    SomeRowIsKept(rows);
    DominantTotal(Deduped(rows), DetectedOf, clusters) / |Deduped(rows)| as real
  }

  lemma SomeRowIsKept(rows: seq<Row>)
    requires rows != []
    ensures |Deduped(rows)| > 0
  {
    assert rows[0] in rows && rows[0] in Deduped(rows);
  }

  // ---------- Merging clusters ----------

  function Relabel(r: Row, merge: string -> string): Row {
    r.(detected := merge(r.detected))
  }

  /** The table in which detected clusters have been merged; the original splits the clusters of the result. */
  function Merged(rows: seq<Row>, merge: string -> string): (merged: seq<Row>)
    ensures |merged| == |rows|
  {
    seq(|rows|, k requires 0 <= k < |rows| => Relabel(rows[k], merge))
  }

  ghost function MergedCluster(merge: string -> string): Row -> string {
    (r: Row) => merge(r.detected)
  }

  lemma MergedAppend(rows: seq<Row>, r: Row, merge: string -> string)
    ensures Merged(rows + [r], merge) == Merged(rows, merge) + [Relabel(r, merge)]
  {
  }

  /** No two different rows become one. */
  ghost predicate KeepsApart(rows: seq<Row>, merge: string -> string) {
    forall r, s :: r in rows && s in rows && Relabel(r, merge) == Relabel(s, merge) ==> r == s
  }

  lemma MergedMember(rows: seq<Row>, r: Row, merge: string -> string)
    ensures r in rows ==> Relabel(r, merge) in Merged(rows, merge)
  {
    if r in rows {
      var k :| 0 <= k < |rows| && rows[k] == r;
      assert Merged(rows, merge)[k] == Relabel(r, merge);
    }
  }

  lemma {:induction false} MergedDeduped(rows: seq<Row>, merge: string -> string)
    requires KeepsApart(rows, merge)
    ensures Deduped(Merged(rows, merge)) == Merged(Deduped(rows), merge)
  {
    if rows != [] {
      var rest, last := rows[..|rows| - 1], rows[|rows| - 1];
      assert rows == rest + [last];
      MergedDeduped(rest, merge);
      MergedAppend(rest, last, merge);
      MergedAppend(Deduped(rest), last, merge);
      var merged := Merged(rest, merge);
      assert (merged + [Relabel(last, merge)])[..|merged|] == merged;
      if Relabel(last, merge) in merged {
        var k :| 0 <= k < |rest| && merged[k] == Relabel(last, merge);
        assert rest[k] in rows && last in rows;
        assert rest[k] == last;
      }
      MergedMember(rest, last, merge);
    }
  }

  lemma {:induction false} MergedGroup(rows: seq<Row>, merge: string -> string, cluster: string)
    ensures Group(Merged(rows, merge), DetectedOf, cluster) == Merged(Group(rows, MergedCluster(merge), cluster), merge)
  {
    if rows != [] {
      var rest, last := rows[..|rows| - 1], rows[|rows| - 1];
      assert rows == rest + [last];
      MergedGroup(rest, merge, cluster);
      MergedAppend(rest, last, merge);
      MergedAppend(Group(rest, MergedCluster(merge), cluster), last, merge);
      var merged := Merged(rest, merge);
      assert (merged + [Relabel(last, merge)])[..|merged|] == merged;
    }
  }

  /** Merging looks at no truth label, so it changes no count. */
  lemma MergedDominantCount(cluster: seq<Row>, merge: string -> string)
    ensures DominantCount(Merged(cluster, merge)) == DominantCount(cluster)
  {
    var merged := Merged(cluster, merge);
    forall name
      ensures CountOf(merged, name) == CountOf(cluster, name)
    {
      SumMapped(merged, cluster, Is(name), Is(name));
    }
    if cluster != [] {
      assert CountOf(merged, Plurality(cluster)) <= CountOf(merged, Plurality(merged));
      assert CountOf(cluster, Plurality(merged)) <= CountOf(cluster, Plurality(cluster));
    }
  }

  lemma MergedTotal(rows: seq<Row>, merge: string -> string, clusters: seq<string>)
    ensures DominantTotal(Merged(rows, merge), DetectedOf, clusters) ==
            DominantTotal(rows, MergedCluster(merge), clusters)
  {
    forall cluster | cluster in clusters
      ensures DominantOf(Merged(rows, merge), DetectedOf)(cluster) == DominantOf(rows, MergedCluster(merge))(cluster)
    {
      MergedGroup(rows, merge, cluster);
      MergedDominantCount(Group(rows, MergedCluster(merge), cluster), merge);
    }
    SumCongruent(clusters, DominantOf(Merged(rows, merge), DetectedOf), DominantOf(rows, MergedCluster(merge)));
  }

  /** One row of the original for every row kept of the merged table. */
  lemma Representatives(rows: seq<Row>, merge: string -> string) returns (reps: seq<Row>)
    ensures Merged(reps, merge) == Deduped(Merged(rows, merge))
    ensures Distinct(reps) && forall r :: r in reps ==> r in rows
  {
    var merged := Deduped(Merged(rows, merge));
    reps := [];
    for k := 0 to |merged|
      invariant Merged(reps, merge) == merged[..k]
      invariant forall r :: r in reps ==> r in rows
    {
      assert merged[k] in merged && merged[k] in Merged(rows, merge);
      var i :| 0 <= i < |rows| && Merged(rows, merge)[i] == merged[k];
      MergedAppend(reps, rows[i], merge);
      assert merged[..k + 1] == merged[..k] + [merged[k]];
      reps := reps + [rows[i]];
    }
    assert merged[..|merged|] == merged;
    forall i, j | 0 <= i < j < |reps|
      ensures reps[i] != reps[j]
    {
      assert Merged(reps, merge)[i] != Merged(reps, merge)[j];
    }
  }

  /** A table has dominant counts no smaller than a part of it without repetitions. */
  lemma PartTotal(part: seq<Row>, rows: seq<Row>, clusters: seq<string>)
    requires Distinct(part) && forall r :: r in part ==> r in rows
    ensures DominantTotal(part, DetectedOf, clusters) <= DominantTotal(rows, DetectedOf, clusters)
  {
    forall c | c in clusters
      ensures DominantOf(part, DetectedOf)(c) <= DominantOf(rows, DetectedOf)(c)
    {
      PartDominantCount(part, rows, c);
    }
    SumMonotone(clusters, DominantOf(part, DetectedOf), DominantOf(rows, DetectedOf));
  }

  lemma PartDominantCount(part: seq<Row>, rows: seq<Row>, c: string)
    requires Distinct(part) && forall r :: r in part ==> r in rows
    ensures DominantCount(Group(part, DetectedOf, c)) <= DominantCount(Group(rows, DetectedOf, c))
  {
    hide Group;
    var mine, all := Group(part, DetectedOf, c), Group(rows, DetectedOf, c);
    if mine != [] {
      var name := Plurality(mine);
      GroupAsSum(part, c, name);
      GroupAsSum(rows, c, name);
      SumOfPart(part, rows, IsBoth(c, name));
      CountPositiveIffPresent(mine, name);
      CountPositiveIffPresent(mine, mine[0].Label());
      assert CountOf(mine, mine[0].Label()) > 0.0;
      if all == [] {
        EmptySum(Is(name));
      }
    } else if all != [] {
      CountPositiveIffPresent(all, Plurality(all));
    }
  }

  /** Splitting never lowers the dominant counts in total, whatever rows become one when the parts are merged. */
  lemma SplittingKeepsDominantHits(
    rows: seq<Row>, merge: string -> string, clusters: seq<string>, parts: seq<string>)
    requires Lists(Merged(rows, merge), DetectedOf, clusters) && Lists(rows, DetectedOf, parts)
    ensures DominantTotal(Deduped(Merged(rows, merge)), DetectedOf, clusters) <=
            DominantTotal(Deduped(rows), DetectedOf, parts)
  {
    var reps := Representatives(rows, merge);
    MergedTotal(reps, merge, clusters);
    forall r | r in reps
      ensures MergedCluster(merge)(r) in clusters
    {
      MergedMember(rows, r, merge);
    }
    SplittingNeverLowersTotal(reps, MergedCluster(merge), DetectedOf, clusters, parts);
    PartTotal(reps, Deduped(rows), parts);
  }

  /** Rows that become different rows of the merged table keep apart. */
  lemma RepresentativesApart(reps: seq<Row>, merge: string -> string)
    requires Distinct(Merged(reps, merge))
    ensures KeepsApart(reps, merge)
  {
    forall r, s | r in reps && s in reps && Relabel(r, merge) == Relabel(s, merge)
      ensures r == s
    {
      var i :| 0 <= i < |reps| && reps[i] == r;
      var j :| 0 <= j < |reps| && reps[j] == s;
      assert Merged(reps, merge)[i] == Merged(reps, merge)[j];
    }
  }

  /** Merging never leaves more rows, and leaves as many if and only if no two different rows become one. */
  lemma SameRowsIff(rows: seq<Row>, merge: string -> string)
    ensures |Deduped(Merged(rows, merge))| <= |Deduped(rows)|
    ensures |Deduped(Merged(rows, merge))| == |Deduped(rows)| <==> KeepsApart(rows, merge)
  {
    hide Deduped, Merged, Distinct, Is, SumOver;
    if KeepsApart(rows, merge) {
      MergedDeduped(rows, merge);
    }
    var reps := Representatives(rows, merge);
    RepresentativesApart(reps, merge);
    SumOfPart(reps, Deduped(rows), (r: Row) => 0.0);
    if |reps| == |Deduped(rows)| {
      assert forall r :: r in rows ==> r in reps;
      assert KeepsApart(rows, merge);
    }
  }

  /** Rows that a split lists more than once less. */
  ghost function ExtraRows(rows: seq<Row>, merge: string -> string): (extra: int)
    ensures extra >= 0 && (extra == 0 <==> KeepsApart(rows, merge))
  {
    SameRowsIff(rows, merge);
    |Deduped(rows)| - |Deduped(Merged(rows, merge))|
  }

  /** What a split adds to the dominant counts. */
  ghost function ExtraHits(
    rows: seq<Row>, merge: string -> string, clusters: seq<string>, parts: seq<string>): real
  {
    DominantTotal(Deduped(rows), DetectedOf, parts) - DominantTotal(Deduped(Merged(rows, merge)), DetectedOf, clusters)
  }

  /**
   * Splitting the clusters of a merged table lowers the weighted purity if and only if the rows it lists anew carry
   * their new part's dominant label more rarely than the rows that were there carried theirs.
   */
  lemma SplitLowersPurityIff(
    rows: seq<Row>, merge: string -> string, clusters: seq<string>, parts: seq<string>)
    requires rows != [] && Lists(Merged(rows, merge), DetectedOf, clusters) && Lists(rows, DetectedOf, parts)
    ensures ExtraHits(rows, merge, clusters, parts) >= 0.0
    ensures WeightedPurity(rows, parts) < WeightedPurity(Merged(rows, merge), clusters) <==>
            ExtraHits(rows, merge, clusters, parts) <
            Times(ExtraRows(rows, merge) as real, WeightedPurity(Merged(rows, merge), clusters))
  {
    hide WeightedPurity, DominantTotal, Deduped, Merged, KeepsApart, Lists, Times;
    SplittingKeepsDominantHits(rows, merge, clusters, parts);
    PurityTimesRows(rows, parts);
    PurityTimesRows(Merged(rows, merge), clusters);
    RatioFallsIff(
      WeightedPurity(Merged(rows, merge), clusters), |Deduped(Merged(rows, merge))| as real,
      WeightedPurity(rows, parts), |Deduped(rows)| as real);
  }

  lemma PurityTimesRows(rows: seq<Row>, clusters: seq<string>)
    requires rows != []
    ensures |Deduped(rows)| > 0
    ensures Times(WeightedPurity(rows, clusters), |Deduped(rows)| as real) ==
            DominantTotal(Deduped(rows), DetectedOf, clusters)
  {
    SomeRowIsKept(rows);
    hide DominantTotal, Deduped, Times;
    QuotientTimes(DominantTotal(Deduped(rows), DetectedOf, clusters), |Deduped(rows)| as real);
  }

  lemma QuotientTimes(x: real, d: real)
    requires d > 0.0
    ensures Times(x / d, d) == x
  {
  }

  lemma RatioFallsIff(p: real, d: real, q: real, e: real)
    requires d > 0.0 && e > 0.0
    ensures q < p <==> Times(q, e) - Times(p, d) < Times(e - d, p)
  {
    assert Times(e - d, p) == Times(p, e) - Times(p, d);
    assert Times(p, e) - Times(q, e) == Times(p - q, e);
    if q < p {
      TimesSameSign(p - q, e);
    } else {
      TimesNonNegative(q - p, e);
      assert Times(p - q, e) == -Times(q - p, e);
    }
  }

  /** A split under which no row is listed in two parts never lowers the weighted purity. */
  lemma SplittingNeverLowersPurity(
    rows: seq<Row>, merge: string -> string, clusters: seq<string>, parts: seq<string>)
    requires rows != [] && KeepsApart(rows, merge)
    requires Lists(Merged(rows, merge), DetectedOf, clusters) && Lists(rows, DetectedOf, parts)
    ensures WeightedPurity(Merged(rows, merge), clusters) <= WeightedPurity(rows, parts)
  {
    hide WeightedPurity, ExtraHits, KeepsApart;
    SplitLowersPurityIff(rows, merge, clusters, parts);
    assert Times(0.0, WeightedPurity(Merged(rows, merge), clusters)) == 0.0;
  }

  lemma LargerQuotient(x: real, y: real, d: real)
    requires d > 0.0 && x <= y
    ensures x / d <= y / d
  {
    QuotientNonNegative(y - x, d);
    QuotientAdds(x, y - x, d);
  }

  /** The weighted purity is at most one, and one if and only if no detected cluster is mixed. */
  lemma PurityIsOneIff(rows: seq<Row>, clusters: seq<string>)
    requires rows != [] && Lists(rows, DetectedOf, clusters)
    ensures WeightedPurity(rows, clusters) <= 1.0
    ensures WeightedPurity(rows, clusters) == 1.0 <==> NoMixedCluster(rows, DetectedOf)
  {
    hide DominantTotal;
    var kept := Deduped(rows);
    SomeRowIsKept(rows);
    TotalIsAllIff(kept, DetectedOf, clusters);
    MixedIffKeptMixed(rows);
    hide Deduped, NoMixedCluster, Lists;
    var total, n := DominantTotal(kept, DetectedOf, clusters), |kept| as real;
    LargerQuotient(total, n, n);
    WholeIff(total, n);
  }

  lemma MixedIffKeptMixed(rows: seq<Row>)
    ensures NoMixedCluster(Deduped(rows), DetectedOf) <==> NoMixedCluster(rows, DetectedOf)
  {
  }

  lemma WholeIff(x: real, d: real)
    requires d > 0.0
    ensures d / d == 1.0 && (x / d == 1.0 <==> x == d)
  {
    assert (x / d) * d == x;
  }

  // ---------- A split that lowers the purity ----------

  /** Two clusters that both list the parameter `p`, of another truth than the rest. */
  function Overlapping(p: string, q: string, r: string, d: string, e: string, t: string, u: string): seq<Row> {
    [Row(q, d, Some(t)), Row(p, d, Some(u)), Row(r, e, Some(t)), Row(p, e, Some(u))]
  }

  function AllInto(d: string): string -> string {
    (detected: string) => d
  }

  lemma CountOfTwo(a: Row, b: Row, name: string)
    ensures CountOf([a, b], name) == Is(name)(a) + Is(name)(b)
  {
    SumOfTwo(a, b, Is(name));
  }

  lemma DominantOfTwo(a: Row, b: Row)
    requires a.Label() != b.Label()
    ensures DominantCount([a, b]) == 1.0
  {
    CountOfTwo(a, b, Plurality([a, b]));
    CountOfTwo(a, b, a.Label());
    CountOfTwo(a, b, b.Label());
  }

  lemma DominantOfThree(a: Row, b: Row, c: Row)
    requires a.Label() == c.Label() != b.Label()
    ensures DominantCount([a, b, c]) == 2.0
  {
    assert [a, b, c] == [a, b] + [c];
    var top := Plurality([a, b, c]);
    CountOfTwo(a, b, top);
    CountOfTwo(a, b, a.Label());
    SumAppend([a, b], c, Is(top));
    SumAppend([a, b], c, Is(a.Label()));
  }

  /** A parameter listed in both parts counts once before the split and twice after it: two thirds become one half. */
  lemma SplitCanLowerPurity(p: string, q: string, r: string, d: string, e: string, t: string, u: string)
    requires p != q && q != r && p != r && d != e && t != u
    ensures var rows := Overlapping(p, q, r, d, e, t, u);
            && WeightedPurity(Merged(rows, AllInto(d)), [d]) == 2.0 / 3.0
            && WeightedPurity(rows, [d, e]) == 2.0 / 4.0
  {
    var w, x, y, z := Row(q, d, Some(t)), Row(p, d, Some(u)), Row(r, e, Some(t)), Row(p, e, Some(u));
    assert w.Label() == y.Label() == t && x.Label() == z.Label() == u;
    hide *;
    OverlapMerges(p, q, r, d, e, t, u);
    SplitPurity(w, x, y, z, d, e);
    WholePurity(w, x, y.(detected := d), d);
  }

  lemma OverlapMerges(p: string, q: string, r: string, d: string, e: string, t: string, u: string)
    ensures Overlapping(p, q, r, d, e, t, u) ==
            [Row(q, d, Some(t)), Row(p, d, Some(u)), Row(r, e, Some(t)), Row(p, e, Some(u))]
    ensures Merged(Overlapping(p, q, r, d, e, t, u), AllInto(d)) ==
            [Row(q, d, Some(t)), Row(p, d, Some(u)), Row(r, d, Some(t)), Row(p, d, Some(u))]
  {
  }

  lemma SplitPurity(w: Row, x: Row, y: Row, z: Row, d: string, e: string)
    requires w.detected == x.detected == d != e == y.detected == z.detected
    requires w.Label() != x.Label() && y.Label() != z.Label()
    requires w.parameter != x.parameter && y.parameter != z.parameter
    ensures WeightedPurity([w, x, y, z], [d, e]) == 2.0 / 4.0
  {
    var rows := [w, x, y, z];
    assert Distinct(rows);
    hide *;
    DistinctStays(rows);
    SplitTotal(w, x, y, z, d, e);
    PurityReads(rows, rows, [d, e]);
  }

  lemma PurityReads(rows: seq<Row>, kept: seq<Row>, clusters: seq<string>)
    requires rows != [] && Deduped(rows) == kept
    ensures kept != [] && WeightedPurity(rows, clusters) == DominantTotal(kept, DetectedOf, clusters) / |kept| as real
  {
    SomeRowIsKept(rows);
  }

  lemma SplitTotal(w: Row, x: Row, y: Row, z: Row, d: string, e: string)
    requires w.detected == x.detected == d != e == y.detected == z.detected
    requires w.Label() != x.Label() && y.Label() != z.Label()
    ensures DominantTotal([w, x, y, z], DetectedOf, [d, e]) == 2.0
  {
    hide *;
    FineClusters(w, x, y, z, d, e);
    DominantOfTwo(w, x);
    DominantOfTwo(y, z);
    TotalOfTwo([w, x, y, z], d, e);
  }

  lemma WholePurity(w: Row, x: Row, y: Row, d: string)
    requires w.detected == x.detected == y.detected == d
    requires w.Label() == y.Label() != x.Label() && w.parameter != y.parameter
    ensures WeightedPurity([w, x, y, x], [d]) == 2.0 / 3.0
  {
    var kept := [w, x, y];
    hide *;
    WholeKept(w, x, y);
    WholeTotal(w, x, y, d);
    PurityReads([w, x, y, x], kept, [d]);
  }

  lemma WholeKept(w: Row, x: Row, y: Row)
    requires w != x && x != y && w != y
    ensures Deduped([w, x, y, x]) == [w, x, y]
  {
    var kept := [w, x, y];
    assert Distinct(kept) && kept + [x] == [w, x, y, x] && x in kept;
    hide *;
    DistinctStays(kept);
    DedupedAgain(kept, x);
  }

  lemma WholeTotal(w: Row, x: Row, y: Row, d: string)
    requires w.detected == x.detected == y.detected == d && w.Label() == y.Label() != x.Label()
    ensures DominantTotal([w, x, y], DetectedOf, [d]) == 2.0
  {
    hide *;
    CoarseCluster(w, x, y, d);
    DominantOfThree(w, x, y);
    TotalOfOne([w, x, y], d);
  }

  lemma {:induction false} DistinctStays(rows: seq<Row>)
    requires Distinct(rows)
    ensures Deduped(rows) == rows
  {
    if rows != [] {
      var rest, last := rows[..|rows| - 1], rows[|rows| - 1];
      DistinctStays(rest);
      assert rows == rest + [last];
    }
  }

  lemma DedupedAgain(rows: seq<Row>, r: Row)
    requires r in rows
    ensures Deduped(rows + [r]) == Deduped(rows)
  {
    assert (rows + [r])[..|rows|] == rows;
  }

  /** A cluster of a table of four, read off row by row. */
  lemma ClusterOfFour(w: Row, x: Row, y: Row, z: Row, c: string)
    ensures Group([w, x, y, z], DetectedOf, c) == Own(w, c) + Own(x, c) + Own(y, c) + Own(z, c)
    ensures Group([w, x, y], DetectedOf, c) == Own(w, c) + Own(x, c) + Own(y, c)
  {
    hide Group, Own;
    EmptyGroup(DetectedOf, c);
    OwnNext([], w, c);
    OwnNext([w], x, c);
    OwnNext([w, x], y, c);
    OwnNext([w, x, y], z, c);
    assert [] + [w] == [w] && [w] + [x] == [w, x] && [w, x] + [y] == [w, x, y] && [w, x, y] + [z] == [w, x, y, z];
  }

  function Own(r: Row, c: string): seq<Row> {
    if r.detected == c then [r] else []
  }

  lemma OwnNext(rows: seq<Row>, r: Row, c: string)
    ensures Group(rows + [r], DetectedOf, c) == Group(rows, DetectedOf, c) + Own(r, c)
  {
    GroupAppend(rows, r, DetectedOf, c);
  }

  lemma FineClusters(w: Row, x: Row, y: Row, z: Row, d: string, e: string)
    requires w.detected == x.detected == d != e == y.detected == z.detected
    ensures Group([w, x, y, z], DetectedOf, d) == [w, x] && Group([w, x, y, z], DetectedOf, e) == [y, z]
  {
    ClusterOfFour(w, x, y, z, d);
    ClusterOfFour(w, x, y, z, e);
    hide Group;
  }

  lemma CoarseCluster(w: Row, x: Row, y: Row, d: string)
    requires w.detected == x.detected == y.detected == d
    ensures Group([w, x, y], DetectedOf, d) == [w, x, y]
  {
    ClusterOfFour(w, x, y, y, d);
    hide Group;
  }

  lemma TotalOfOne(rows: seq<Row>, d: string)
    ensures DominantTotal(rows, DetectedOf, [d]) == DominantCount(Group(rows, DetectedOf, d))
  {
    SumOfOne(d, DominantOf(rows, DetectedOf));
  }

  lemma TotalOfTwo(rows: seq<Row>, d: string, e: string)
    ensures DominantTotal(rows, DetectedOf, [d, e]) ==
            DominantCount(Group(rows, DetectedOf, d)) + DominantCount(Group(rows, DetectedOf, e))
  {
    SumOfTwo(d, e, DominantOf(rows, DetectedOf));
  }
}
