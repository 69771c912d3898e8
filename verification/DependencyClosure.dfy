/** The breadth-first closure of a module's internal dependencies. */
module DependencyClosure {
  import opened Sums

  datatype Module = Module(name: string, dependencies: seq<string>)

  type Graph = map<string, seq<string>>

  /** Modules by name; of several with one name the last counts. */
  function Lookup(modules: seq<Module>): Graph {
    if modules == [] then map[]
    else Lookup(modules[..|modules| - 1])[modules[|modules| - 1].name := modules[|modules| - 1].dependencies]
  }

  /** Of the modules of this name, the one at `k` comes last. */
  ghost predicate IsLast(modules: seq<Module>, k: nat, name: string) {
    && k < |modules| && modules[k].name == name
    && forall j :: k < j < |modules| ==> modules[j].name != name
  }

  /** The known names are those of the modules. */
  lemma {:induction false} LookupKnows(modules: seq<Module>, name: string)
    ensures name in Lookup(modules) <==> exists m :: m in modules && m.name == name
  {
    if modules != [] {
      var rest, last := modules[..|modules| - 1], modules[|modules| - 1];
      LookupKnows(rest, name);
      assert forall m :: m in modules <==> m in rest || m == last;
    }
  }

  /** A name stands for the dependencies of the last module of that name. */
  lemma {:induction false} LookupIsLast(modules: seq<Module>, k: nat, name: string)
    requires IsLast(modules, k, name)
    ensures name in Lookup(modules) && Lookup(modules)[name] == modules[k].dependencies
  {
    var n := |modules| - 1;
    if k < n {
      assert IsLast(modules[..n], k, name);
      LookupIsLast(modules[..n], k, name);
      assert modules[n].name != name;
    }
  }

  /** `v` is a known module that the known module `u` depends on. */
  predicate Edge(g: Graph, u: string, v: string) {
    u in g && v in g[u] && v in g
  }

  /** A walk of exactly `k` edges leads from the root to `v`. */
  ghost predicate Reaches(g: Graph, root: string, v: string, k: nat)
    decreases k
  {
    if k == 0 then v == root else exists u :: Reaches(g, root, u, k - 1) && Edge(g, u, v)
  }

  /** Some walk of one or more edges leads from the root to `v`. */
  ghost predicate Connected(g: Graph, root: string, v: string) {
    exists k: nat :: k >= 1 && Reaches(g, root, v, k)
  }

  /** The shortest walk with at least one edge from the root to `v` has `k` edges. */
  ghost predicate IsDistance(g: Graph, root: string, v: string, k: nat) {
    k >= 1 && Reaches(g, root, v, k) && forall j :: 1 <= j < k ==> !Reaches(g, root, v, j)
  }

  // ---------- The search state ----------

  /**
   * Every listed module is known, listed once, and reached by a walk of its recorded length; lengths do not
   * decrease.
   */
  ghost predicate Listed(g: Graph, root: string, ordered: seq<string>, depth: seq<nat>) {
    && |depth| == |ordered| && Distinct(ordered)
    && (forall i :: 0 <= i < |ordered| ==> ordered[i] in g && depth[i] >= 1 && Reaches(g, root, ordered[i], depth[i]))
    && forall i, j :: 0 <= i < j < |depth| ==> depth[i] <= depth[j]
  }

  /** `v` is listed with a length of at most `d`. */
  ghost predicate Within(ordered: seq<string>, depth: seq<nat>, v: string, d: nat)
    requires |depth| == |ordered|
  {
    exists i :: 0 <= i < |ordered| && ordered[i] == v && depth[i] <= d
  }

  /** Everything one edge away from `u` is listed at most one step further than `d`. */
  ghost predicate Expanded(g: Graph, ordered: seq<string>, depth: seq<nat>, u: string, d: nat)
    requires |depth| == |ordered|
  {
    forall v :: Edge(g, u, v) ==> Within(ordered, depth, v, d + 1)
  }

  lemma WithinGrows(ordered: seq<string>, depth: seq<nat>, x: string, k: nat, v: string, d: nat)
    requires |depth| == |ordered|
    ensures Within(ordered, depth, v, d) ==> Within(ordered + [x], depth + [k], v, d)
    ensures x == v && k <= d ==> Within(ordered + [x], depth + [k], v, d)
  {
    if Within(ordered, depth, v, d) {
      var i :| 0 <= i < |ordered| && ordered[i] == v && depth[i] <= d;
      assert (ordered + [x])[i] == v && (depth + [k])[i] <= d;
    }
    if x == v && k <= d {
      assert (ordered + [x])[|ordered|] == v;
    }
  }

  /** The first `t` dependencies, as far as known, are listed within `d`. */
  ghost predicate ListedUpTo(g: Graph, deps: seq<string>, t: nat, ordered: seq<string>, depth: seq<nat>, d: nat)
    requires t <= |deps| && |depth| == |ordered|
  {
    forall s :: 0 <= s < t && deps[s] in g ==> Within(ordered, depth, deps[s], d)
  }

  /** What the search knows, with nothing listed further than `d`. */
  ghost predicate Searching(g: Graph, root: string, seen: set<string>, ordered: seq<string>, depth: seq<nat>, d: nat) {
    && Listed(g, root, ordered, depth) && |depth| == |ordered|
    && (forall v :: v in seen <==> v in ordered)
    && seen <= g.Keys
    && forall i :: 0 <= i < |depth| ==> depth[i] <= d
  }

  lemma AppendModule(
    g: Graph, root: string, deps: seq<string>, t: nat, seen: set<string>, ordered: seq<string>, depth: seq<nat>,
    u: string, d: nat)
    requires t < |deps| && Searching(g, root, seen, ordered, depth, d + 1)
    requires deps[t] !in seen && Edge(g, u, deps[t]) && Reaches(g, root, u, d)
    requires ListedUpTo(g, deps, t, ordered, depth, d + 1)
    ensures Searching(g, root, seen + {deps[t]}, ordered + [deps[t]], depth + [d + 1], d + 1)
    ensures ListedUpTo(g, deps, t + 1, ordered + [deps[t]], depth + [d + 1], d + 1)
  {
    ListedGrows(g, root, ordered, depth, u, deps[t], d);
    hide Reaches, Distinct, Within, Listed;
    forall s | 0 <= s < t + 1 && deps[s] in g
      ensures Within(ordered + [deps[t]], depth + [d + 1], deps[s], d + 1)
    {
      WithinGrows(ordered, depth, deps[t], d + 1, deps[s], d + 1);
    }
  }

  lemma ListedGrows(g: Graph, root: string, ordered: seq<string>, depth: seq<nat>, u: string, v: string, d: nat)
    requires Listed(g, root, ordered, depth) && v !in ordered && Edge(g, u, v) && Reaches(g, root, u, d)
    requires forall i :: 0 <= i < |depth| ==> depth[i] <= d + 1
    ensures Listed(g, root, ordered + [v], depth + [d + 1])
  {
    assert Reaches(g, root, v, d + 1);
  }

  lemma SkipModule(
    g: Graph, root: string, deps: seq<string>, t: nat, seen: set<string>, ordered: seq<string>, depth: seq<nat>,
    d: nat)
    requires t < |deps| && Searching(g, root, seen, ordered, depth, d)
    requires deps[t] in seen || deps[t] !in g
    requires ListedUpTo(g, deps, t, ordered, depth, d)
    ensures ListedUpTo(g, deps, t + 1, ordered, depth, d)
  {
    if deps[t] in seen {
      var i :| 0 <= i < |ordered| && ordered[i] == deps[t];
      assert Within(ordered, depth, deps[t], d);
    }
  }

  /**
   * The inner loop: the unseen known dependencies of `u` are appended to the list and to the queue, in order, at
   * distance `d + 1`.
   */
  method Expand(
    g: Graph, ghost root: string, u: string, ghost d: nat, seen: set<string>, ordered: seq<string>,
    queue: seq<string>, ghost depth: seq<nat>)
    returns (seen': set<string>, ordered': seq<string>, queue': seq<string>, ghost depth': seq<nat>)
    requires u in g && Reaches(g, root, u, d) && Searching(g, root, seen, ordered, depth, d + 1)
    ensures Searching(g, root, seen', ordered', depth', d + 1)
    ensures ordered <= ordered' && depth <= depth' && seen <= seen'
    ensures queue' == queue + ordered'[|ordered|..]
    ensures seen' <= g.Keys
    ensures |ordered'| > |ordered| ==> seen < seen'
    ensures |ordered'| == |ordered| ==> seen == seen'
    ensures forall i :: |depth| <= i < |depth'| ==> depth'[i] == d + 1
    ensures |depth'| == |ordered'| && Expanded(g, ordered', depth', u, d)
  {
    hide Listed, Within;
    seen', ordered', queue', depth' := seen, ordered, queue, depth;
    var deps := g[u];
    SameLength(g, root, ordered, depth);
    for t := 0 to |deps|
      invariant Searching(g, root, seen', ordered', depth', d + 1)
      invariant ordered <= ordered' && depth <= depth' && seen <= seen' && |depth'| == |ordered'|
      invariant queue' == queue + ordered'[|ordered|..]
      invariant |ordered'| > |ordered| ==> seen < seen'
      invariant |ordered'| == |ordered| ==> seen == seen'
      invariant forall i :: |depth| <= i < |depth'| ==> depth'[i] == d + 1
      invariant ListedUpTo(g, deps, t, ordered', depth', d + 1)
    {
      hide Searching, ListedUpTo;
      if deps[t] in seen' || deps[t] !in g {
        SkipModule(g, root, deps, t, seen', ordered', depth', d + 1);
      } else {
        AppendModule(g, root, deps, t, seen', ordered', depth', u, d);
        seen', ordered', queue', depth' :=
          seen' + {deps[t]}, ordered' + [deps[t]], queue' + [deps[t]], depth' + [d + 1];
      }
    }
  }

  lemma SameLength(g: Graph, root: string, ordered: seq<string>, depth: seq<nat>)
    requires Listed(g, root, ordered, depth)
    ensures |depth| == |ordered|
  {
  }

  /** If everything processed has been expanded, every module reached by a walk is listed at most that far away. */
  lemma {:induction false} WalksAreListed(
    g: Graph, root: string, ordered: seq<string>, depth: seq<nat>, v: string, k: nat)
    requires |depth| == |ordered| && k >= 1 && Reaches(g, root, v, k)
    requires Expanded(g, ordered, depth, root, 0)
    requires forall i :: 0 <= i < |ordered| ==> Expanded(g, ordered, depth, ordered[i], depth[i])
    ensures Within(ordered, depth, v, k)
    decreases k
  {
    var u :| Reaches(g, root, u, k - 1) && Edge(g, u, v);
    if k == 1 {
      assert u == root;
    } else {
      WalksAreListed(g, root, ordered, depth, u, k - 1);
      var i :| 0 <= i < |ordered| && ordered[i] == u && depth[i] <= k - 1;
      assert Within(ordered, depth, v, depth[i] + 1);
    }
  }

  // ---------- The search ----------

  /**
   * The root and the first `head` listed modules have been expanded; a negative `head` means that not even the root
   * has.
   */
  ghost predicate Processed(g: Graph, root: string, ordered: seq<string>, depth: seq<nat>, head: int)
    requires |depth| == |ordered| && head <= |ordered|
  {
    && (head >= 0 ==> Expanded(g, ordered, depth, root, 0))
    && forall i :: 0 <= i < head ==> Expanded(g, ordered, depth, ordered[i], depth[i])
  }

  /** The module at the front of the queue, and its distance. */
  ghost function Front(root: string, ordered: seq<string>, depth: seq<nat>, head: int): (string, nat)
    requires |depth| == |ordered| && -1 <= head < |ordered|
  {
    if head < 0 then (root, 0) else (ordered[head], depth[head])
  }

  lemma ExpandedGrows(
    g: Graph, ordered: seq<string>, depth: seq<nat>, ordered': seq<string>, depth': seq<nat>, u: string, d: nat)
    requires |depth| == |ordered| && |depth'| == |ordered'| && ordered <= ordered' && depth <= depth'
    requires Expanded(g, ordered, depth, u, d)
    ensures Expanded(g, ordered', depth', u, d)
  {
    forall v | Edge(g, u, v)
      ensures Within(ordered', depth', v, d + 1)
    {
      var i :| 0 <= i < |ordered| && ordered[i] == v && depth[i] <= d + 1;
      assert ordered'[i] == v && depth'[i] <= d + 1;
    }
  }

  lemma ProcessedGrows(
    g: Graph, root: string, ordered: seq<string>, depth: seq<nat>, ordered': seq<string>, depth': seq<nat>,
    head: int)
    requires |depth| == |ordered| && |depth'| == |ordered'| && ordered <= ordered' && depth <= depth'
             && -1 <= head < |ordered|
    requires Processed(g, root, ordered, depth, head)
    requires var (u, d) := Front(root, ordered, depth, head); Expanded(g, ordered', depth', u, d)
    ensures Processed(g, root, ordered', depth', head + 1)
  {
    if head >= 0 {
      ExpandedGrows(g, ordered, depth, ordered', depth', root, 0);
    }
    forall i | 0 <= i < head
      ensures Expanded(g, ordered', depth', ordered'[i], depth'[i])
    {
      ExpandedGrows(g, ordered, depth, ordered', depth', ordered[i], depth[i]);
    }
  }

  /**
   * Between two rounds: the queue is the unexpanded rest of the list, and nothing is listed more than one step
   * beyond its front.
   */
  ghost predicate Round(
    g: Graph, root: string, seen: set<string>, ordered: seq<string>, depth: seq<nat>, queue: seq<string>, head: int) {
    && |depth| == |ordered| && -1 <= head <= |ordered|
    && Listed(g, root, ordered, depth)
    && Processed(g, root, ordered, depth, head)
    && (forall v :: v in seen <==> v in ordered)
    && (if head < 0 then queue == [root] && ordered == [] else queue == ordered[head..])
    && (head < |ordered| ==> Searching(g, root, seen, ordered, depth, Front(root, ordered, depth, head).1 + 1))
  }

  lemma RoundFront(
    g: Graph, root: string, seen: set<string>, ordered: seq<string>, depth: seq<nat>, queue: seq<string>, head: int)
    requires Round(g, root, seen, ordered, depth, queue, head) && queue != []
    ensures head < |ordered| && |depth| == |ordered| && -1 <= head
    ensures var (u, d) := Front(root, ordered, depth, head);
            queue[0] == u && Reaches(g, root, u, d) && Searching(g, root, seen, ordered, depth, d + 1) && seen <= g.Keys
    ensures queue[0] !in g ==> head < 0
  {
  }

  /** One expanded front ends a round. */
  lemma RoundGrows(
    g: Graph, root: string, seen: set<string>, ordered: seq<string>, depth: seq<nat>, queue: seq<string>, head: int,
    seen': set<string>, ordered': seq<string>, depth': seq<nat>)
    requires Round(g, root, seen, ordered, depth, queue, head) && queue != []
    requires |depth'| == |ordered'| && ordered <= ordered' && depth <= depth'
    requires head < |ordered| && |depth| == |ordered| && -1 <= head
    requires var (u, d) := Front(root, ordered, depth, head);
             && Expanded(g, ordered', depth', u, d) && Searching(g, root, seen', ordered', depth', d + 1)
             && forall i :: |depth| <= i < |depth'| ==> depth'[i] == d + 1
    ensures Round(g, root, seen', ordered', depth', queue[1..] + ordered'[|ordered|..], head + 1)
  {
    ProcessedGrows(g, root, ordered, depth, ordered', depth', head);
    assert queue[1..] + ordered'[|ordered|..] == ordered'[head + 1..];
    hide Processed, Expanded, Within, Reaches, Distinct;
    var d := Front(root, ordered, depth, head).1;
    if head + 1 < |ordered'| {
      assert d <= depth'[head + 1];
    }
  }

  /** An unknown root has nothing to expand. */
  lemma UnknownRound(
    g: Graph, root: string, seen: set<string>, ordered: seq<string>, depth: seq<nat>, queue: seq<string>, head: int)
    requires Round(g, root, seen, ordered, depth, queue, head) && queue != [] && queue[0] !in g
    ensures Round(g, root, seen, ordered, depth, queue[1..], head + 1)
  {
  }

  /**
   The search. It terminates, and lists without repetition exactly the known modules that a walk of one or more
   edges reaches from the root (the root itself when it lies on a cycle), nearest first.
   */
  method TransitiveInternalDependencies(
    modules: seq<Module>, root: string)
    returns (ordered: seq<string>, ghost depth: seq<nat>)
    ensures Distinct(ordered)
    ensures forall v :: v in ordered <==> Connected(Lookup(modules), root, v)
    ensures |depth| == |ordered| && forall i :: 0 <= i < |ordered| ==>
            IsDistance(Lookup(modules), root, ordered[i], depth[i])
    ensures forall i, j :: 0 <= i < j < |ordered| ==> depth[i] <= depth[j]
  {
    hide *;
    var g := Lookup(modules);
    FirstRound(g, root);
    var seen: set<string> := {};
    var queue := [root];
    ordered, depth := [], [];
    ghost var head := -1;
    while queue != []
      invariant Round(g, root, seen, ordered, depth, queue, head)
      decreases g.Keys - seen, |queue|
    {
      RoundFront(g, root, seen, ordered, depth, queue, head);
      var current := queue[0];
      if current !in g {
        UnknownRound(g, root, seen, ordered, depth, queue, head);
        queue := queue[1..];
      } else {
        ghost var seenBefore, before, depthBefore, queueBefore := seen, ordered, depth, queue;
        seen, ordered, queue, depth :=
          Expand(g, root, current, Front(root, ordered, depth, head).1, seen, ordered, queue[1..], depth);
        RoundGrows(g, root, seenBefore, before, depthBefore, queueBefore, head, seen, ordered, depth);
      }
      head := head + 1;
    }
    SearchIsComplete(g, root, seen, ordered, depth, head);
  }

  lemma WalkedIffListed(g: Graph, root: string, ordered: seq<string>, depth: seq<nat>)
    requires Listed(g, root, ordered, depth) && Processed(g, root, ordered, depth, |ordered|)
    ensures forall v :: v in ordered <==> Connected(g, root, v)
  {
    forall v
      ensures v in ordered <==> Connected(g, root, v)
    {
      if v in ordered {
        var i :| 0 <= i < |ordered| && ordered[i] == v;
        assert Reaches(g, root, v, depth[i]);
      } else if Connected(g, root, v) {
        var k: nat :| k >= 1 && Reaches(g, root, v, k);
        WalksAreListed(g, root, ordered, depth, v, k);
      }
    }
  }

  lemma DepthIsDistance(g: Graph, root: string, ordered: seq<string>, depth: seq<nat>, i: nat)
    requires Listed(g, root, ordered, depth) && Processed(g, root, ordered, depth, |ordered|) && i < |ordered|
    ensures IsDistance(g, root, ordered[i], depth[i])
  {
    forall j: nat | 1 <= j < depth[i]
      ensures !Reaches(g, root, ordered[i], j)
    {
      if Reaches(g, root, ordered[i], j) {
        WalksAreListed(g, root, ordered, depth, ordered[i], j);
      }
    }
  }

  lemma SearchIsComplete(g: Graph, root: string, seen: set<string>, ordered: seq<string>, depth: seq<nat>, head: int)
    requires Round(g, root, seen, ordered, depth, [], head)
    ensures Distinct(ordered)
    ensures forall v :: v in ordered <==> Connected(g, root, v)
    ensures |depth| == |ordered| && forall i :: 0 <= i < |ordered| ==> IsDistance(g, root, ordered[i], depth[i])
    ensures forall i, j :: 0 <= i < j < |ordered| ==> depth[i] <= depth[j]
  {
    assert head == |ordered|;
    hide Reaches, Expanded;
    WalkedIffListed(g, root, ordered, depth);
    forall i | 0 <= i < |ordered|
      ensures IsDistance(g, root, ordered[i], depth[i])
    {
      DepthIsDistance(g, root, ordered, depth, i);
    }
  }

  lemma FirstRound(g: Graph, root: string)
    ensures Round(g, root, {}, [], [], [root], -1)
  {
    assert Reaches(g, root, root, 0);
  }
}
