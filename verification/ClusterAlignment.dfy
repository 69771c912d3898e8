/** Aligning detected clusters with truth labels: strict plurality mapping, and plurality purity under splitting. */
module ClusterAlignment {
  import opened Sums

  /** One parameter with the cluster it was detected in and its truth label, which may be missing. */
  datatype Row = Row(parameter: string, detected: string, truth: Option<string>) {
    /** The label that is counted; a missing one counts as the empty text. */
    function Label(): string {
      if truth.Some? then truth.value else ""
    }
  }

  const DetectedOf: Row -> string := (r: Row) => r.detected

  function Is(name: string): Row -> real {
    (r: Row) => if r.Label() == name then 1.0 else 0.0
  }

  /** How many of the rows carry the label. */
  ghost function CountOf(rows: seq<Row>, name: string): real {
    SumOver(rows, Is(name))
  }

  /** The rows with the empty text where the label is missing. */
  function Filled(rows: seq<Row>): (filled: seq<Row>)
    ensures |filled| == |rows|
  {
    seq(|rows|, k requires 0 <= k < |rows| => if rows[k].truth.None? then rows[k].(truth := Some("")) else rows[k])
  }

  /** A missing label counts as the empty text does. */
  lemma MissingCountsAsEmpty(rows: seq<Row>, name: string)
    ensures CountOf(rows, name) == CountOf(Filled(rows), name)
  {
    SumMapped(rows, Filled(rows), Is(name), Is(name));
  }

  // ---------- Strict plurality ----------

  /** Within its cluster the label strictly outnumbers every other. */
  ghost predicate Outnumbers(cluster: seq<Row>, name: string) {
    CountOf(cluster, name) > 0.0 && forall other :: other != name ==> CountOf(cluster, name) > CountOf(cluster, other)
  }

  lemma {:induction false} CountPositiveIffPresent(rows: seq<Row>, name: string)
    ensures CountOf(rows, name) >= 0.0
    ensures CountOf(rows, name) > 0.0 <==> exists r :: r in rows && r.Label() == name
  {
    if rows != [] {
      var rest, last := rows[..|rows| - 1], rows[|rows| - 1];
      CountPositiveIffPresent(rest, name);
      assert forall r :: r in rows <==> r in rest || r == last;
    }
  }

  /** The counts of the labels of a cluster, and the labels in order of first appearance. */
  method CountLabels(cluster: seq<Row>) returns (labels: seq<string>, counts: map<string, nat>)
    ensures Distinct(labels)
    ensures forall name :: name in labels <==> name in counts
    ensures forall name :: CountOf(cluster, name) == if name in counts then counts[name] as real else 0.0
    ensures forall name :: name in counts ==> counts[name] > 0
    ensures cluster != [] ==> labels != []
  {
    labels, counts := [], map[];
    for t := 0 to |cluster|
      invariant Distinct(labels)
      invariant forall name :: name in labels <==> name in counts
      invariant forall name :: CountOf(cluster[..t], name) == if name in counts then counts[name] as real else 0.0
      invariant forall name :: name in counts ==> counts[name] > 0
      invariant t > 0 ==> labels != []
    {
      var name := cluster[t].Label();
      ghost var before := cluster[..t];
      assert cluster[..t + 1] == before + [cluster[t]];
      forall other
        ensures CountOf(before + [cluster[t]], other) == CountOf(before, other) + if other == name then 1.0 else 0.0
      {
        SumAppend(before, cluster[t], Is(other));
      }
      if name in counts {
        counts := counts[name := counts[name] + 1];
      } else {
        labels, counts := labels + [name], counts[name := 1];
      }
    }
    assert cluster[..|cluster|] == cluster;
  }

  /** The largest and the second largest count; the second is -1 when there is one label only. */
  method TopTwo(labels: seq<string>, counts: map<string, nat>) returns (top: string, topCount: nat, secondCount: int)
    requires labels != [] && Distinct(labels) && forall name :: name in labels ==> name in counts
    ensures top in labels && counts[top] == topCount && secondCount <= topCount
    ensures forall name :: name in labels && name != top ==> counts[name] <= secondCount
    ensures secondCount == -1 || exists name :: name in labels && name != top && counts[name] == secondCount
  {
    top, topCount, secondCount := labels[0], counts[labels[0]], -1;
    for t := 1 to |labels|
      invariant top in labels[..t] && counts[top] == topCount && secondCount <= topCount
      invariant forall name :: name in labels[..t] && name != top ==> counts[name] <= secondCount
      invariant secondCount == -1 || exists name :: name in labels[..t] && name != top && counts[name] == secondCount
    {
      var name := labels[t];
      assert labels[..t + 1] == labels[..t] + [name];
      assert name !in labels[..t];
      if counts[name] > topCount {
        assert top in labels[..t + 1] && top != name;
        top, topCount, secondCount := name, counts[name], topCount;
      } else if counts[name] > secondCount {
        assert name in labels[..t + 1] && name != top;
        secondCount := counts[name];
      }
    }
    assert labels[..|labels|] == labels;
  }

  datatype TruthMap = TruthMap(detectedToTruth: map<string, string>, ambiguous: set<string>)

  /**
   * The map sends a detected cluster to a label exactly when the label strictly outnumbers every other there, and
   * calls it ambiguous exactly when none does.
   */
  ghost predicate MapsPluralities(m: TruthMap, rows: seq<Row>, detected: string) {
    var cluster := Group(rows, DetectedOf, detected);
    && (detected in m.detectedToTruth <==> exists name :: Outnumbers(cluster, name))
    && (detected in m.detectedToTruth ==> Outnumbers(cluster, m.detectedToTruth[detected]))
    && (detected in m.ambiguous <==> cluster != [] && !exists name :: Outnumbers(cluster, name))
  }

  /** Decides one cluster. */
  method DecideCluster(cluster: seq<Row>) returns (name: Option<string>)
    requires cluster != []
    ensures name.Some? ==> Outnumbers(cluster, name.value)
    ensures name.None? ==> forall other :: !Outnumbers(cluster, other)
  {
    var labels, counts := CountLabels(cluster);
    var top, topCount, secondCount := TopTwo(labels, counts);
    if topCount > secondCount {
      name := Some(top);
    } else {
      name := None;
      var rival :| rival in labels && rival != top && counts[rival] == secondCount;
      assert CountOf(cluster, rival) == CountOf(cluster, top);
      forall other
        ensures !Outnumbers(cluster, other)
      {
        if other != top {
          assert CountOf(cluster, other) <= CountOf(cluster, top);
        }
      }
    }
  }

  lemma {:induction false} GroupNonEmpty(rows: seq<Row>, detected: string)
    ensures Group(rows, DetectedOf, detected) != [] <==> exists r :: r in rows && r.detected == detected
  {
    if rows != [] {
      var rest, last := rows[..|rows| - 1], rows[|rows| - 1];
      GroupNonEmpty(rest, detected);
      assert forall r :: r in rows <==> r in rest || r == last;
    }
  }

  /** The clusters in `done` are decided, and nothing is said about others. */
  ghost predicate Decided(m: TruthMap, rows: seq<Row>, done: set<string>) {
    && (forall detected :: detected in done ==> MapsPluralities(m, rows, detected))
    && forall detected :: detected !in done ==> detected !in m.detectedToTruth && detected !in m.ambiguous
  }

  function AddDecision(m: TruthMap, detected: string, name: Option<string>): TruthMap {
    if name.Some? then m.(detectedToTruth := m.detectedToTruth[detected := name.value])
    else m.(ambiguous := m.ambiguous + {detected})
  }

  lemma DecisionAdded(m: TruthMap, rows: seq<Row>, done: set<string>, detected: string, name: Option<string>)
    requires Decided(m, rows, done) && detected !in done && Group(rows, DetectedOf, detected) != []
    requires name.Some? ==> Outnumbers(Group(rows, DetectedOf, detected), name.value)
    requires name.None? ==> forall other :: !Outnumbers(Group(rows, DetectedOf, detected), other)
    ensures Decided(AddDecision(m, detected, name), rows, done + {detected})
  {
    hide Outnumbers, Group;
    var m' := AddDecision(m, detected, name);
    forall other | other in done + {detected}
      ensures MapsPluralities(m', rows, other)
    {
      if other != detected {
        assert MapsPluralities(m, rows, other);
      }
    }
  }

  lemma AllDecided(m: TruthMap, rows: seq<Row>, done: set<string>)
    requires Decided(m, rows, done) && done == set r | r in rows :: r.detected
    ensures forall detected :: MapsPluralities(m, rows, detected)
  {
    forall detected
      ensures MapsPluralities(m, rows, detected)
    {
      GroupNonEmpty(rows, detected);
      if detected !in done {
        assert forall name :: CountOf([], name) == 0.0;
      }
    }
  }

  /** Groups the joined rows by detected cluster and decides every cluster. */
  method FromHierarchyFrames(rows: seq<Row>) returns (m: TruthMap)
    ensures forall detected :: MapsPluralities(m, rows, detected)
  {
    m := TruthMap(map[], {});
    var ids := set r | r in rows :: r.detected;
    var todo := ids;
    while todo != {}
      invariant todo <= ids && Decided(m, rows, ids - todo)
      decreases todo
    {
      hide Decided, Group, Outnumbers;
      var detected :| detected in todo;
      GroupNonEmpty(rows, detected);
      var name := DecideCluster(Group(rows, DetectedOf, detected));
      DecisionAdded(m, rows, ids - todo, detected, name);
      m := AddDecision(m, detected, name);
      assert ids - (todo - {detected}) == ids - todo + {detected};
      todo := todo - {detected};
    }
    assert ids - todo == ids;
    AllDecided(m, rows, ids);
  }

  /** A cluster the map does not know resolves to itself; an ambiguous or empty one does not resolve. */
  function Resolve(m: TruthMap, detected: string): (Option<string>, bool) {
    if detected == "" || detected in m.ambiguous then (None, false)
    else if detected in m.detectedToTruth then (Some(m.detectedToTruth[detected]), true)
    else (Some(detected), true)
  }

  /**
   * A named cluster that occurs in the rows resolves if and only if one label strictly outnumbers the others in it,
   * and then to that label.
   */
  lemma ResolvesIff(m: TruthMap, rows: seq<Row>, detected: string)
    requires MapsPluralities(m, rows, detected) && detected != "" && exists r :: r in rows && r.detected == detected
    ensures var cluster := Group(rows, DetectedOf, detected);
            && (Resolve(m, detected).1 <==> exists name :: Outnumbers(cluster, name))
            && (Resolve(m, detected).1 ==>
              Resolve(m, detected).0.Some? && Outnumbers(cluster, Resolve(m, detected).0.value))
  {
    GroupNonEmpty(rows, detected);
  }

  lemma {:induction false} GroupPermutes(rows: seq<Row>, rows': seq<Row>, detected: string, name: string)
    requires multiset(rows) == multiset(rows')
    ensures CountOf(Group(rows, DetectedOf, detected), name) == CountOf(Group(rows', DetectedOf, detected), name)
  {
    GroupAsSum(rows, detected, name);
    GroupAsSum(rows', detected, name);
    SumPermutation(rows, rows', IsBoth(detected, name));
  }

  function IsBoth(detected: string, name: string): Row -> real {
    (r: Row) => if r.detected == detected && r.Label() == name then 1.0 else 0.0
  }

  lemma {:induction false} GroupAsSum(rows: seq<Row>, detected: string, name: string)
    ensures CountOf(Group(rows, DetectedOf, detected), name) == SumOver(rows, IsBoth(detected, name))
  {
    if rows != [] {
      var rest, last := rows[..|rows| - 1], rows[|rows| - 1];
      GroupAsSum(rest, detected, name);
      if last.detected == detected {
        SumAppend(Group(rest, DetectedOf, detected), last, Is(name));
      } else {
        assert Group(rows, DetectedOf, detected) == Group(rest, DetectedOf, detected);
      }
    }
  }

  /** The mapping does not depend on the order of the rows. */
  lemma MappingIgnoresOrder(rows: seq<Row>, rows': seq<Row>, detected: string, name: string)
    requires multiset(rows) == multiset(rows')
    ensures Outnumbers(Group(rows, DetectedOf, detected), name) <==>
            Outnumbers(Group(rows', DetectedOf, detected), name)
  {
    forall other
      ensures CountOf(Group(rows, DetectedOf, detected), other) == CountOf(Group(rows', DetectedOf, detected), other)
    {
      GroupPermutes(rows, rows', detected, other);
    }
  }

  // ---------- Plurality purity ----------

  /** The first label of largest count. */
  ghost function Plurality(cluster: seq<Row>): (name: string)
    requires cluster != []
    ensures forall other :: CountOf(cluster, other) <= CountOf(cluster, name)
  {
    var k := HeaviestRow(cluster, |cluster|);
    AbsentCountsZero(cluster, cluster[k].Label());
    cluster[k].Label()
  }

  /** Among the first `k` rows, one whose label has the largest count in the whole cluster. */
  ghost function HeaviestRow(cluster: seq<Row>, k: nat): (i: nat)
    requires 1 <= k <= |cluster|
    ensures i < k
    ensures forall j :: 0 <= j < k ==> CountOf(cluster, cluster[j].Label()) <= CountOf(cluster, cluster[i].Label())
  {
    if k == 1 then 0
    else
      var i := HeaviestRow(cluster, k - 1);
      if CountOf(cluster, cluster[k - 1].Label()) > CountOf(cluster, cluster[i].Label()) then k - 1 else i
  }

  lemma AbsentCountsZero(cluster: seq<Row>, heaviest: string)
    requires forall j :: 0 <= j < |cluster| ==> CountOf(cluster, cluster[j].Label()) <= CountOf(cluster, heaviest)
    ensures forall other :: CountOf(cluster, other) <= CountOf(cluster, heaviest)
  {
    forall other
      ensures CountOf(cluster, other) <= CountOf(cluster, heaviest)
    {
      CountPositiveIffPresent(cluster, other);
      CountPositiveIffPresent(cluster, heaviest);
      if CountOf(cluster, other) > 0.0 {
        var r :| r in cluster && r.Label() == other;
        var j :| 0 <= j < |cluster| && cluster[j] == r;
      }
    }
  }

  /** The count of the dominant label of a cluster. */
  ghost function DominantCount(cluster: seq<Row>): real {
    if cluster == [] then 0.0 else CountOf(cluster, Plurality(cluster))
  }

  ghost function DominantOf<K>(rows: seq<Row>, keyOf: Row -> K): K -> real {
    key => DominantCount(Group(rows, keyOf, key))
  }

  /**
   * Sum of the dominant counts over the clusters; the weighted plurality purity is this divided by the number of
   * rows.
   */
  ghost function DominantTotal<K>(rows: seq<Row>, keyOf: Row -> K, clusters: seq<K>): real {
    SumOver(clusters, DominantOf(rows, keyOf))
  }

  ghost predicate Lists<K>(rows: seq<Row>, keyOf: Row -> K, clusters: seq<K>) {
    Distinct(clusters) && forall r :: r in rows ==> keyOf(r) in clusters
  }

  /** The second clustering refines the first. */
  ghost predicate Refines<C(!new), K(!new)>(rows: seq<Row>, coarse: Row -> C, fine: Row -> K) {
    forall r, s :: r in rows && s in rows && fine(r) == fine(s) ==> coarse(r) == coarse(s)
  }

  /** One for a row that carries the dominant label of its coarse cluster. */
  ghost function OnPlurality<C>(rows: seq<Row>, coarse: Row -> C): Row -> real {
    (r: Row) => if Group(rows, coarse, coarse(r)) != [] && r.Label() == Plurality(Group(rows, coarse, coarse(r)))
      then 1.0 else 0.0
  }

  lemma CoarseTotal<C>(rows: seq<Row>, coarse: Row -> C, clusters: seq<C>)
    requires Lists(rows, coarse, clusters)
    ensures DominantTotal(rows, coarse, clusters) == SumOver(rows, OnPlurality(rows, coarse))
  {
    var g := OnPlurality(rows, coarse);
    SumByGroups(rows, coarse, clusters, g);
    forall key | key in clusters
      ensures DominantOf(rows, coarse)(key) == GroupSum(rows, coarse, g)(key)
    {
      var cluster := Group(rows, coarse, key);
      if cluster != [] {
        SumCongruent(cluster, Is(Plurality(cluster)), g);
      }
    }
    SumCongruent(clusters, DominantOf(rows, coarse), GroupSum(rows, coarse, g));
  }

  lemma FineGroupBelow<C(!new), K(!new)>(rows: seq<Row>, coarse: Row -> C, fine: Row -> K, key: K)
    requires Refines(rows, coarse, fine)
    ensures SumOver(Group(rows, fine, key), OnPlurality(rows, coarse)) <= DominantOf(rows, fine)(key)
  {
    var part := Group(rows, fine, key);
    var g := OnPlurality(rows, coarse);
    if part != [] {
      var c := coarse(part[0]);
      assert part[0] in part;
      forall r | r in part
        ensures coarse(r) == c
      {
      }
      if Group(rows, coarse, c) == [] {
        SumOfZeros(part, g);
        CountPositiveIffPresent(part, Plurality(part));
      } else {
        var name := Plurality(Group(rows, coarse, c));
        SumCongruent(part, g, Is(name));
        assert CountOf(part, name) <= CountOf(part, Plurality(part));
      }
    }
  }

  /** Splitting detected clusters never lowers the total of dominant counts. */
  lemma SplittingNeverLowersTotal<C(!new), K(!new)>(
    rows: seq<Row>, coarse: Row -> C, fine: Row -> K, clusters: seq<C>, parts: seq<K>)
    requires Lists(rows, coarse, clusters) && Lists(rows, fine, parts) && Refines(rows, coarse, fine)
    ensures DominantTotal(rows, coarse, clusters) <= DominantTotal(rows, fine, parts)
  {
    var g := OnPlurality(rows, coarse);
    CoarseTotal(rows, coarse, clusters);
    SumByGroups(rows, fine, parts, g);
    forall key | key in parts
      ensures GroupSum(rows, fine, g)(key) <= DominantOf(rows, fine)(key)
    {
      FineGroupBelow(rows, coarse, fine, key);
    }
    SumMonotone(parts, GroupSum(rows, fine, g), DominantOf(rows, fine));
  }

  /** All rows of every cluster carry one label. */
  ghost predicate NoMixedCluster<K>(rows: seq<Row>, keyOf: Row -> K) {
    forall r, s :: r in rows && s in rows && keyOf(r) == keyOf(s) ==> r.Label() == s.Label()
  }

  lemma {:induction false} OnesIffAll(rows: seq<Row>, f: Row -> real)
    requires forall r :: f(r) == 0.0 || f(r) == 1.0
    ensures SumOver(rows, f) <= |rows| as real
    ensures SumOver(rows, f) == |rows| as real <==> forall r :: r in rows ==> f(r) == 1.0
  {
    if rows != [] {
      var rest, last := rows[..|rows| - 1], rows[|rows| - 1];
      OnesIffAll(rest, f);
      assert forall r :: r in rows <==> r in rest || r == last;
    }
  }

  /**
   * The dominant counts add up to the number of rows, if and only if no cluster
   * is mixed.
   */
  lemma TotalIsAllIff<K(!new)>(rows: seq<Row>, keyOf: Row -> K, clusters: seq<K>)
    requires Lists(rows, keyOf, clusters)
    ensures DominantTotal(rows, keyOf, clusters) <= |rows| as real
    ensures DominantTotal(rows, keyOf, clusters) == |rows| as real <==> NoMixedCluster(rows, keyOf)
  {
    var g := OnPlurality(rows, keyOf);
    CoarseTotal(rows, keyOf, clusters);
    OnesIffAll(rows, g);
    forall r | r in rows
      ensures Group(rows, keyOf, keyOf(r)) != []
    {
      InOwnGroup(rows, keyOf, r);
    }
    if NoMixedCluster(rows, keyOf) {
      forall r | r in rows
        ensures g(r) == 1.0
      {
        var cluster := Group(rows, keyOf, keyOf(r));
        InOwnGroup(rows, keyOf, r);
        CountPositiveIffPresent(cluster, r.Label());
        CountPositiveIffPresent(cluster, Plurality(cluster));
        var s :| s in cluster && s.Label() == Plurality(cluster);
      }
    }
  }
}
