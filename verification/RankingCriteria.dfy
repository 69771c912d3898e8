/** What being ranked first means for a module and for a subsystem, criterion by criterion. */
module RankingCriteria {
  import opened Sums
  import opened Sorting
  import opened LocalizationTargets

  /** Of the rows picked by `a`, some row has at least the support of every row picked by `b`. */
  ghost predicate AtLeastAsStrong(rows: seq<Loc>, a: Loc -> bool, b: Loc -> bool) {
    forall y :: y in rows && b(y) ==> exists x :: x in rows && a(x) && x.support >= y.support
  }

  /** Of the rows picked by `a`, some row is ranked no later than every row picked by `b`. */
  ghost predicate RankedNoLater(rows: seq<Loc>, a: Loc -> bool, b: Loc -> bool) {
    forall y :: y in rows && b(y) ==> exists x :: x in rows && a(x) && x.rank <= y.rank
  }

  function OfModule(key: ModuleKey): Loc -> bool {
    (r: Loc) => r.subsystem == key.0 && r.moduleId == key.1
  }

  function OfSubsystem(s: string): Loc -> bool {
    (r: Loc) => r.subsystem == s
  }

  /** The supports of the rows picked, each divided by its rank, where ranks below one count as one. */
  ghost function WeightedSupport(rows: seq<Loc>, pick: Loc -> bool): real {
    SumOver(rows, Picked(pick))
  }

  ghost function Picked(pick: Loc -> bool): Loc -> real {
    (r: Loc) => if !pick(r) then 0.0 else r.support / (if r.rank >= 1 then r.rank as real else 1.0)
  }

  lemma {:induction false} GroupIsPicked<K>(rows: seq<Loc>, keyOf: Loc -> K, key: K, pick: Loc -> bool)
    requires forall r :: pick(r) <==> keyOf(r) == key
    ensures SumOver(Group(rows, keyOf, key), RankShare) == WeightedSupport(rows, pick)
  {
    if rows != [] {
      var rest, last := rows[..|rows| - 1], rows[|rows| - 1];
      GroupIsPicked(rest, keyOf, key, pick);
      assert rows == rest + [last];
      GroupAppend(rest, last, keyOf, key);
      SumAppend(rest, last, Picked(pick));
      if keyOf(last) == key {
        assert Picked(pick)(last) == RankShare(last);
        SumAppend(Group(rest, keyOf, key), last, RankShare);
      } else {
        assert Picked(pick)(last) == 0.0;
        assert Group(rows, keyOf, key) == Group(rest, keyOf, key);
      }
    } else {
      assert Group(rows, keyOf, key) == [];
    }
  }

  lemma {:induction false} GroupMembers<K>(rows: seq<Loc>, keyOf: Loc -> K, key: K, r: Loc)
    ensures r in Group(rows, keyOf, key) <==> r in rows && keyOf(r) == key
  {
    if rows != [] {
      var rest, last := rows[..|rows| - 1], rows[|rows| - 1];
      GroupMembers(rest, keyOf, key, r);
      assert r in rows <==> r in rest || r == last;
      assert rows == rest + [last];
      GroupAppend(rest, last, keyOf, key);
    }
  }

  lemma {:induction false} PeakIsLargest(rows: seq<Loc>)
    requires rows != []
    ensures forall r :: r in rows ==> r.support <= Peak(rows)
    ensures exists r :: r in rows && r.support == Peak(rows)
  {
    var rest, last := rows[..|rows| - 1], rows[|rows| - 1];
    assert forall r :: r in rows <==> r in rest || r == last;
    if rest != [] {
      PeakIsLargest(rest);
      var r :| r in rest && r.support == Peak(rest);
      assert r in rows && last in rows;
    } else {
      assert last in rows;
    }
  }

  lemma {:induction false} BestIsSmallest(rows: seq<Loc>)
    requires rows != []
    ensures forall r :: r in rows ==> r.rank >= BestRank(rows)
    ensures exists r :: r in rows && r.rank == BestRank(rows)
  {
    var rest, last := rows[..|rows| - 1], rows[|rows| - 1];
    assert forall r :: r in rows <==> r in rest || r == last;
    if rest != [] {
      BestIsSmallest(rest);
      var r :| r in rest && r.rank == BestRank(rest);
      assert r in rows && last in rows;
    } else {
      assert last in rows;
    }
  }

  lemma PeaksCompare<K>(rows: seq<Loc>, keyOf: Loc -> K, k: K, l: K, a: Loc -> bool, b: Loc -> bool)
    requires forall r :: (a(r) <==> keyOf(r) == k) && (b(r) <==> keyOf(r) == l)
    requires Group(rows, keyOf, k) != [] && Group(rows, keyOf, l) != []
    ensures AtLeastAsStrong(rows, a, b) <==> Peak(Group(rows, keyOf, k)) >= Peak(Group(rows, keyOf, l))
    ensures RankedNoLater(rows, a, b) <==> BestRank(Group(rows, keyOf, k)) <= BestRank(Group(rows, keyOf, l))
  {
    forall r
      ensures r in Group(rows, keyOf, k) <==> r in rows && a(r)
      ensures r in Group(rows, keyOf, l) <==> r in rows && b(r)
    {
      GroupMembers(rows, keyOf, k, r);
      GroupMembers(rows, keyOf, l, r);
    }
    PeakIsLargest(Group(rows, keyOf, k));
    PeakIsLargest(Group(rows, keyOf, l));
    BestIsSmallest(Group(rows, keyOf, k));
    BestIsSmallest(Group(rows, keyOf, l));
    hide Group, Peak, BestRank;
  }

  /**
   * The module ranked first has the largest weighted support; of those the strongest parameter; of those the best
   * rank; of those the first name.
   */
  lemma FirstModuleWins(rows: seq<Loc>, m: ModuleKey, k: ModuleKey)
    requires DominantModule(rows, m) && IsModule(rows, k)
    ensures var a, b := OfModule(m), OfModule(k);
            && WeightedSupport(rows, a) >= WeightedSupport(rows, b)
            && (WeightedSupport(rows, a) == WeightedSupport(rows, b) ==>
                  && AtLeastAsStrong(rows, a, b)
                  && (AtLeastAsStrong(rows, b, a) ==>
                        RankedNoLater(rows, a, b) && (RankedNoLater(rows, b, a) ==> LexLe(m.1, k.1))))
  {
    hide Group, Peak, BestRank, SumOver, WeightedSupport, AtLeastAsStrong, RankedNoLater, OfModule, LexLe;
    assert ModuleLe(rows, m, k);
    PickedByModule(rows, m);
    PickedByModule(rows, k);
    ModulesCompare(rows, m, k);
    ModulesCompare(rows, k, m);
    hide DominantModule;
  }

  lemma PickedByModule(rows: seq<Loc>, m: ModuleKey)
    ensures WeightedSupport(rows, OfModule(m)) == ModuleWeight(rows)(m)
  {
    GroupIsPicked(rows, ModuleOf, m, OfModule(m));
  }

  lemma ModulesCompare(rows: seq<Loc>, m: ModuleKey, k: ModuleKey)
    requires IsModule(rows, m) && IsModule(rows, k)
    ensures AtLeastAsStrong(rows, OfModule(m), OfModule(k)) <==> ModulePeak(rows, m) >= ModulePeak(rows, k)
    ensures RankedNoLater(rows, OfModule(m), OfModule(k)) <==> ModuleBest(rows, m) <= ModuleBest(rows, k)
  {
    hide Group, Peak, BestRank, AtLeastAsStrong, RankedNoLater;
    ModuleHasRows(rows, m);
    ModuleHasRows(rows, k);
    PeaksCompare(rows, ModuleOf, m, k, OfModule(m), OfModule(k));
  }

  /** Some module of `s` has at least the weighted support of every module of `t`. */
  ghost predicate HasBetterModule(rows: seq<Loc>, s: string, t: string) {
    forall l :: IsModule(rows, l) && l.0 == t ==>
      exists k :: IsModule(rows, k) && k.0 == s
        && WeightedSupport(rows, OfModule(k)) >= WeightedSupport(rows, OfModule(l))
  }

  lemma BestWeightsCompare(rows: seq<Loc>, s: string, t: string)
    requires IsSubsystem(rows, s) && IsSubsystem(rows, t)
    ensures HasBetterModule(rows, s, t) <==> BestWeight(rows, s) >= BestWeight(rows, t)
  {
    forall k
      ensures WeightedSupport(rows, OfModule(k)) == ModuleWeight(rows)(k)
    {
      PickedByModule(rows, k);
    }
    hide WeightedSupport, ModuleWeight, OfModule;
    assert IsBestWeight(rows, s, BestWeight(rows, s)) && IsBestWeight(rows, t, BestWeight(rows, t));
  }

  /**
   * The subsystem ranked first has the module of largest weighted support; of those the largest weighted support
   * itself; of those the strongest parameter; of those the best rank; of those the first name.
   */
  lemma FirstSubsystemWins(rows: seq<Loc>, s: string, t: string)
    requires DominantSubsystem(rows, s) && IsSubsystem(rows, t)
    ensures var a, b := OfSubsystem(s), OfSubsystem(t);
            && HasBetterModule(rows, s, t)
            && (HasBetterModule(rows, t, s) ==>
                  && WeightedSupport(rows, a) >= WeightedSupport(rows, b)
                  && (WeightedSupport(rows, a) == WeightedSupport(rows, b) ==>
                        && AtLeastAsStrong(rows, a, b)
                        && (AtLeastAsStrong(rows, b, a) ==>
                              RankedNoLater(rows, a, b) && (RankedNoLater(rows, b, a) ==> LexLe(s, t)))))
  {
    hide Group, Peak, BestRank, SumOver, WeightedSupport, AtLeastAsStrong, RankedNoLater, OfSubsystem, LexLe;
    hide HasBetterModule, BestWeight, TotalWeight;
    assert SubsystemLe(rows, s, t);
    BestWeightsCompare(rows, s, t);
    BestWeightsCompare(rows, t, s);
    PickedBySubsystem(rows, s);
    PickedBySubsystem(rows, t);
    SubsystemsCompare(rows, s, t);
    SubsystemsCompare(rows, t, s);
    hide DominantSubsystem;
  }

  lemma PickedBySubsystem(rows: seq<Loc>, s: string)
    ensures WeightedSupport(rows, OfSubsystem(s)) == TotalWeight(rows, s)
  {
    GroupIsPicked(rows, SubsystemOf, s, OfSubsystem(s));
  }

  lemma SubsystemsCompare(rows: seq<Loc>, s: string, t: string)
    requires IsSubsystem(rows, s) && IsSubsystem(rows, t)
    ensures AtLeastAsStrong(rows, OfSubsystem(s), OfSubsystem(t)) <==> SubsystemPeak(rows, s) >= SubsystemPeak(rows, t)
    ensures RankedNoLater(rows, OfSubsystem(s), OfSubsystem(t)) <==> SubsystemBest(rows, s) <= SubsystemBest(rows, t)
  {
    hide Group, Peak, BestRank, AtLeastAsStrong, RankedNoLater;
    SubsystemHasRows(rows, s);
    SubsystemHasRows(rows, t);
    PeaksCompare(rows, SubsystemOf, s, t, OfSubsystem(s), OfSubsystem(t));
  }
}
