/**
 Ranking modules and subsystems of one window from its ranked parameters. The two rankings are separate sorts;
 this says when the module ranked first lies in the subsystem ranked first.
 */
module LocalizationTargets {
  import opened Sums
  import opened Sorting

  /** A localized parameter of the window, with its support and its rank. */
  datatype Loc = Loc(subsystem: string, moduleId: string, support: real, rank: int)

  type ModuleKey = (string, string)

  const ModuleOf: Loc -> ModuleKey := (r: Loc) => (r.subsystem, r.moduleId)

  function AtLeastOne(rank: int): real {
    if rank >= 1 then rank as real else 1.0
  }

  const RankShare: Loc -> real := (r: Loc) => r.support / AtLeastOne(r.rank)

  // ---------- Module and subsystem figures ----------

  ghost function ModuleWeight(rows: seq<Loc>): ModuleKey -> real {
    (key: ModuleKey) => SumOver(Group(rows, ModuleOf, key), RankShare)
  }

  function Peak(rows: seq<Loc>): real
    requires rows != []
  {
    if |rows| == 1 then rows[0].support
    else
      var p := Peak(rows[..|rows| - 1]);
      if rows[|rows| - 1].support > p then rows[|rows| - 1].support else p
  }

  function BestRank(rows: seq<Loc>): int
    requires rows != []
  {
    if |rows| == 1 then rows[0].rank
    else
      var b := BestRank(rows[..|rows| - 1]);
      if rows[|rows| - 1].rank < b then rows[|rows| - 1].rank else b
  }

  ghost predicate IsModule(rows: seq<Loc>, key: ModuleKey) {
    exists r :: r in rows && ModuleOf(r) == key
  }

  ghost predicate IsSubsystem(rows: seq<Loc>, s: string) {
    exists r :: r in rows && r.subsystem == s
  }

  lemma {:induction false} ModuleHasRows(rows: seq<Loc>, key: ModuleKey)
    ensures IsModule(rows, key) <==> Group(rows, ModuleOf, key) != []
  {
    if rows != [] {
      var rest, last := rows[..|rows| - 1], rows[|rows| - 1];
      ModuleHasRows(rest, key);
      assert forall r :: r in rows <==> r in rest || r == last;
    }
  }

  const SubsystemOf: Loc -> string := (r: Loc) => r.subsystem

  lemma {:induction false} SubsystemHasRows(rows: seq<Loc>, s: string)
    ensures IsSubsystem(rows, s) <==> Group(rows, SubsystemOf, s) != []
  {
    if rows != [] {
      var rest, last := rows[..|rows| - 1], rows[|rows| - 1];
      SubsystemHasRows(rest, s);
      assert forall r :: r in rows <==> r in rest || r == last;
    }
  }

  ghost function ModulePeak(rows: seq<Loc>, key: ModuleKey): real
    requires IsModule(rows, key)
  {
    ModuleHasRows(rows, key);
    Peak(Group(rows, ModuleOf, key))
  }

  ghost function ModuleBest(rows: seq<Loc>, key: ModuleKey): int
    requires IsModule(rows, key)
  {
    ModuleHasRows(rows, key);
    BestRank(Group(rows, ModuleOf, key))
  }

  /** The largest module weight in a subsystem is `w`. */
  ghost predicate IsBestWeight(rows: seq<Loc>, s: string, w: real) {
    && (exists key :: IsModule(rows, key) && key.0 == s && ModuleWeight(rows)(key) == w)
    && forall key :: IsModule(rows, key) && key.0 == s ==> ModuleWeight(rows)(key) <= w
  }

  /** A row of the subsystem whose module weighs at least as much as that of any other such row among the first `k`. */
  lemma {:induction false} HeaviestRow(rows: seq<Loc>, s: string, k: nat, f: ModuleKey -> real) returns (i: nat)
    requires k <= |rows| && exists j :: 0 <= j < k && rows[j].subsystem == s
    ensures i < k && rows[i].subsystem == s
    ensures forall j :: 0 <= j < k && rows[j].subsystem == s ==> f(ModuleOf(rows[j])) <= f(ModuleOf(rows[i]))
  {
    i := k - 1;
    if exists j :: 0 <= j < k - 1 && rows[j].subsystem == s {
      var h := HeaviestRow(rows, s, k - 1, f);
      if rows[k - 1].subsystem != s || f(ModuleOf(rows[k - 1])) <= f(ModuleOf(rows[h])) {
        i := h;
      }
    }
  }

  lemma SubsystemHasBestWeight(rows: seq<Loc>, s: string)
    requires IsSubsystem(rows, s)
    ensures exists w :: IsBestWeight(rows, s, w)
  {
    var r :| r in rows && r.subsystem == s;
    var i :| 0 <= i < |rows| && rows[i] == r;
    var f := ModuleWeight(rows);
    var j := HeaviestRow(rows, s, |rows|, f);
    assert IsModule(rows, ModuleOf(rows[j]));
    forall key | IsModule(rows, key) && key.0 == s
      ensures f(key) <= f(ModuleOf(rows[j]))
    {
      var x :| x in rows && ModuleOf(x) == key;
      var h :| 0 <= h < |rows| && rows[h] == x;
    }
    assert IsBestWeight(rows, s, f(ModuleOf(rows[j])));
  }

  ghost function BestWeight(rows: seq<Loc>, s: string): (w: real)
    requires IsSubsystem(rows, s)
    ensures IsBestWeight(rows, s, w)
  {
    SubsystemHasBestWeight(rows, s);
    var w :| IsBestWeight(rows, s, w);
    w
  }

  /** The rank-weighted support of a subsystem. */
  ghost function TotalWeight(rows: seq<Loc>, s: string): real {
    SumOver(Group(rows, SubsystemOf, s), RankShare)
  }

  lemma {:induction false} GroupWithinGroup(rows: seq<Loc>, key: ModuleKey)
    ensures Group(Group(rows, SubsystemOf, key.0), ModuleOf, key) == Group(rows, ModuleOf, key)
  {
    if rows != [] {
      var rest, last := rows[..|rows| - 1], rows[|rows| - 1];
      GroupWithinGroup(rest, key);
      var g := Group(rest, SubsystemOf, key.0);
      if last.subsystem == key.0 {
        assert Group(rows, SubsystemOf, key.0) == g + [last];
        assert (g + [last])[..|g|] == g;
      } else {
        assert Group(rows, SubsystemOf, key.0) == g;
      }
    }
  }

  /** It is the sum of the weights of the subsystem's modules, however they are listed. */
  lemma TotalIsSumOfModules(rows: seq<Loc>, s: string, modules: seq<ModuleKey>)
    requires Distinct(modules) && forall key :: key in modules <==> IsModule(rows, key) && key.0 == s
    ensures TotalWeight(rows, s) == SumOver(modules, ModuleWeight(rows))
  {
    var mine := Group(rows, SubsystemOf, s);
    forall r | r in mine
      ensures ModuleOf(r) in modules
    {
      assert IsModule(rows, ModuleOf(r));
    }
    SumByGroups(mine, ModuleOf, modules, RankShare);
    forall key | key in modules
      ensures GroupSum(mine, ModuleOf, RankShare)(key) == ModuleWeight(rows)(key)
    {
      GroupWithinGroup(rows, key);
    }
    SumCongruent(modules, GroupSum(mine, ModuleOf, RankShare), ModuleWeight(rows));
  }

  ghost function SubsystemPeak(rows: seq<Loc>, s: string): real
    requires IsSubsystem(rows, s)
  {
    SubsystemHasRows(rows, s);
    Peak(Group(rows, SubsystemOf, s))
  }

  ghost function SubsystemBest(rows: seq<Loc>, s: string): int
    requires IsSubsystem(rows, s)
  {
    SubsystemHasRows(rows, s);
    BestRank(Group(rows, SubsystemOf, s))
  }

  // ---------- The two rankings ----------

  /** Module order: weight descending, peak descending, best rank ascending, module id ascending. */
  ghost predicate ModuleLe(rows: seq<Loc>, a: ModuleKey, b: ModuleKey)
    requires IsModule(rows, a) && IsModule(rows, b)
  {
    if ModuleWeight(rows)(a) != ModuleWeight(rows)(b) then ModuleWeight(rows)(a) > ModuleWeight(rows)(b)
    else if ModulePeak(rows, a) != ModulePeak(rows, b) then ModulePeak(rows, a) > ModulePeak(rows, b)
    else if ModuleBest(rows, a) != ModuleBest(rows, b) then ModuleBest(rows, a) < ModuleBest(rows, b)
    else LexLe(a.1, b.1)
  }

  /**
   * Subsystem order behind the best module weight: total weight descending, peak descending, best rank ascending, id
   * ascending.
   */
  ghost predicate TieBreakLe(rows: seq<Loc>, s: string, t: string)
    requires IsSubsystem(rows, s) && IsSubsystem(rows, t)
  {
    if TotalWeight(rows, s) != TotalWeight(rows, t) then TotalWeight(rows, s) > TotalWeight(rows, t)
    else if SubsystemPeak(rows, s) != SubsystemPeak(rows, t) then SubsystemPeak(rows, s) > SubsystemPeak(rows, t)
    else if SubsystemBest(rows, s) != SubsystemBest(rows, t) then SubsystemBest(rows, s) < SubsystemBest(rows, t)
    else LexLe(s, t)
  }

  ghost predicate SubsystemLe(rows: seq<Loc>, s: string, t: string)
    requires IsSubsystem(rows, s) && IsSubsystem(rows, t)
  {
    if BestWeight(rows, s) != BestWeight(rows, t) then BestWeight(rows, s) > BestWeight(rows, t)
    else TieBreakLe(rows, s, t)
  }

  /** Ranked first among the modules. Only a tie on all four criteria leaves a choice. */
  ghost predicate DominantModule(rows: seq<Loc>, m: ModuleKey) {
    IsModule(rows, m) && forall k :: IsModule(rows, k) ==> ModuleLe(rows, m, k)
  }

  ghost predicate DominantSubsystem(rows: seq<Loc>, s: string) {
    IsSubsystem(rows, s) && forall t :: IsSubsystem(rows, t) ==> SubsystemLe(rows, s, t)
  }

  /** No module of the window weighs more. */
  ghost predicate AttainsMaximum(rows: seq<Loc>, m: ModuleKey) {
    IsModule(rows, m) && forall k :: IsModule(rows, k) ==> ModuleWeight(rows)(k) <= ModuleWeight(rows)(m)
  }

  lemma DominantModuleAttains(rows: seq<Loc>, m: ModuleKey)
    requires DominantModule(rows, m)
    ensures AttainsMaximum(rows, m)
    ensures IsSubsystem(rows, m.0) && BestWeight(rows, m.0) == ModuleWeight(rows)(m)
    ensures forall t :: IsSubsystem(rows, t) ==> BestWeight(rows, t) <= BestWeight(rows, m.0)
  {
    hide ModulePeak, ModuleBest, ModuleWeight;
    forall k | IsModule(rows, k)
      ensures ModuleWeight(rows)(k) <= ModuleWeight(rows)(m)
    {
      assert ModuleLe(rows, m, k);
    }
    assert IsSubsystem(rows, m.0);
    assert IsBestWeight(rows, m.0, BestWeight(rows, m.0));
    forall t | IsSubsystem(rows, t)
      ensures BestWeight(rows, t) <= BestWeight(rows, m.0)
    {
      assert IsBestWeight(rows, t, BestWeight(rows, t));
    }
  }

  /** The subsystem ranked first always contains a module of maximal weight. */
  lemma DominantSubsystemHoldsMaximum(rows: seq<Loc>, s: string, m: ModuleKey)
    requires DominantSubsystem(rows, s) && DominantModule(rows, m)
    ensures exists k: ModuleKey :: k.0 == s && AttainsMaximum(rows, k)
  {
    hide ModuleWeight, TieBreakLe;
    DominantModuleAttains(rows, m);
    assert SubsystemLe(rows, s, m.0);
    assert IsBestWeight(rows, s, BestWeight(rows, s));
    var k: ModuleKey :| IsModule(rows, k) && k.0 == s && ModuleWeight(rows)(k) == BestWeight(rows, s);
    assert AttainsMaximum(rows, k);
  }

  /** When only one module attains the maximum, the module ranked first lies in the subsystem ranked first. */
  lemma UniqueMaximumAgrees(rows: seq<Loc>, s: string, m: ModuleKey)
    requires DominantSubsystem(rows, s) && DominantModule(rows, m)
    requires forall k :: AttainsMaximum(rows, k) ==> k == m
    ensures m.0 == s
  {
    DominantSubsystemHoldsMaximum(rows, s, m);
  }

  lemma TieBreakAntisymmetric(rows: seq<Loc>, s: string, t: string)
    requires IsSubsystem(rows, s) && IsSubsystem(rows, t) && TieBreakLe(rows, s, t) && TieBreakLe(rows, t, s)
    ensures s == t
  {
    hide TotalWeight, SubsystemPeak, SubsystemBest;
    LexTotal(s, t);
  }

  /**
   * In general they agree if and only if, among the subsystems that hold a module of maximal weight, none beats the
   * dominant module's own on the later criteria.
   */
  lemma AgreesIff(rows: seq<Loc>, s: string, m: ModuleKey)
    requires DominantSubsystem(rows, s) && DominantModule(rows, m)
    ensures IsSubsystem(rows, m.0)
    ensures m.0 == s <==> forall k :: AttainsMaximum(rows, k) ==> IsSubsystem(rows, k.0) && TieBreakLe(rows, m.0, k.0)
  {
    hide ModuleWeight, TieBreakLe, ModuleLe;
    DominantModuleAttains(rows, m);
    if m.0 == s {
      forall k | AttainsMaximum(rows, k)
        ensures IsSubsystem(rows, k.0) && TieBreakLe(rows, m.0, k.0)
      {
        assert IsSubsystem(rows, k.0);
        assert IsBestWeight(rows, k.0, BestWeight(rows, k.0));
        assert SubsystemLe(rows, s, k.0);
      }
    } else if forall k :: AttainsMaximum(rows, k) ==> IsSubsystem(rows, k.0) && TieBreakLe(rows, m.0, k.0) {
      DominantSubsystemHoldsMaximum(rows, s, m);
      var k: ModuleKey :| k.0 == s && AttainsMaximum(rows, k);
      assert IsBestWeight(rows, s, BestWeight(rows, s));
      assert SubsystemLe(rows, s, m.0);
      TieBreakAntisymmetric(rows, s, m.0);
    }
  }

  // ---------- Both rankings have a first ----------

  lemma ModuleLeTotal(rows: seq<Loc>, a: ModuleKey, b: ModuleKey)
    requires IsModule(rows, a) && IsModule(rows, b)
    ensures ModuleLe(rows, a, b) || ModuleLe(rows, b, a)
  {
    hide ModuleWeight, ModulePeak, ModuleBest, LexLe;
    LexTotal(a.1, b.1);
  }

  lemma ModuleLeTransitive(rows: seq<Loc>, a: ModuleKey, b: ModuleKey, c: ModuleKey)
    requires IsModule(rows, a) && IsModule(rows, b) && IsModule(rows, c)
    requires ModuleLe(rows, a, b) && ModuleLe(rows, b, c)
    ensures ModuleLe(rows, a, c)
  {
    hide ModuleWeight, ModulePeak, ModuleBest, LexLe;
    if LexLe(a.1, b.1) && LexLe(b.1, c.1) {
      LexTransitive(a.1, b.1, c.1);
    }
  }

  lemma SubsystemLeTotal(rows: seq<Loc>, s: string, t: string)
    requires IsSubsystem(rows, s) && IsSubsystem(rows, t)
    ensures SubsystemLe(rows, s, t) || SubsystemLe(rows, t, s)
  {
    hide BestWeight, TotalWeight, SubsystemPeak, SubsystemBest, LexLe;
    LexTotal(s, t);
  }

  lemma SubsystemLeTransitive(rows: seq<Loc>, s: string, t: string, u: string)
    requires IsSubsystem(rows, s) && IsSubsystem(rows, t) && IsSubsystem(rows, u)
    requires SubsystemLe(rows, s, t) && SubsystemLe(rows, t, u)
    ensures SubsystemLe(rows, s, u)
  {
    hide BestWeight, TotalWeight, SubsystemPeak, SubsystemBest, LexLe;
    if LexLe(s, t) && LexLe(t, u) {
      LexTransitive(s, t, u);
    }
  }

  lemma RowIsListed(rows: seq<Loc>, i: nat)
    requires i < |rows|
    ensures IsModule(rows, ModuleOf(rows[i])) && IsSubsystem(rows, rows[i].subsystem)
  {
    assert rows[i] in rows;
  }

  /** A row of the first `k` whose module ranks no lower than that of any of them. */
  lemma {:induction false} FirstModule(rows: seq<Loc>, k: nat) returns (i: nat)
    requires 0 < k <= |rows|
    ensures i < k && IsModule(rows, ModuleOf(rows[i]))
    ensures forall j :: 0 <= j < k ==>
            IsModule(rows, ModuleOf(rows[j])) && ModuleLe(rows, ModuleOf(rows[i]), ModuleOf(rows[j]))
  {
    hide ModuleLe, IsModule;
    var last := ModuleOf(rows[k - 1]);
    RowIsListed(rows, k - 1);
    ModuleLeTotal(rows, last, last);
    i := k - 1;
    if k > 1 {
      var h := FirstModule(rows, k - 1);
      var best := ModuleOf(rows[h]);
      ModuleLeTotal(rows, best, last);
      if ModuleLe(rows, best, last) {
        i := h;
      } else {
        forall j | 0 <= j < k - 1
          ensures ModuleLe(rows, last, ModuleOf(rows[j]))
        {
          ModuleLeTransitive(rows, last, best, ModuleOf(rows[j]));
        }
      }
    }
  }

  lemma {:induction false} FirstSubsystem(rows: seq<Loc>, k: nat) returns (i: nat)
    requires 0 < k <= |rows|
    ensures i < k && IsSubsystem(rows, rows[i].subsystem)
    ensures forall j :: 0 <= j < k ==>
            IsSubsystem(rows, rows[j].subsystem) && SubsystemLe(rows, rows[i].subsystem, rows[j].subsystem)
  {
    hide SubsystemLe, IsSubsystem;
    var last := rows[k - 1].subsystem;
    RowIsListed(rows, k - 1);
    SubsystemLeTotal(rows, last, last);
    i := k - 1;
    if k > 1 {
      var h := FirstSubsystem(rows, k - 1);
      var best := rows[h].subsystem;
      SubsystemLeTotal(rows, best, last);
      if SubsystemLe(rows, best, last) {
        i := h;
      } else {
        forall j | 0 <= j < k - 1
          ensures SubsystemLe(rows, last, rows[j].subsystem)
        {
          SubsystemLeTransitive(rows, last, best, rows[j].subsystem);
        }
      }
    }
  }

  /**
   * A window has a module ranked first if and only if it has a parameter, and likewise a subsystem, which is unique.
   */
  lemma DominantTargetsExist(rows: seq<Loc>)
    ensures rows != [] <==> exists m :: DominantModule(rows, m)
    ensures rows != [] <==> exists s :: DominantSubsystem(rows, s)
    ensures forall s, t :: DominantSubsystem(rows, s) && DominantSubsystem(rows, t) ==> s == t
  {
    if rows != [] {
      hide ModuleLe, SubsystemLe;
      var i := FirstModule(rows, |rows|);
      forall k | IsModule(rows, k)
        ensures ModuleLe(rows, ModuleOf(rows[i]), k)
      {
        var r :| r in rows && ModuleOf(r) == k;
        var j :| 0 <= j < |rows| && rows[j] == r;
      }
      assert DominantModule(rows, ModuleOf(rows[i]));
      var h := FirstSubsystem(rows, |rows|);
      forall t | IsSubsystem(rows, t)
        ensures SubsystemLe(rows, rows[h].subsystem, t)
      {
        var r :| r in rows && r.subsystem == t;
        var j :| 0 <= j < |rows| && rows[j] == r;
      }
      assert DominantSubsystem(rows, rows[h].subsystem);
    }
    forall s, t | DominantSubsystem(rows, s) && DominantSubsystem(rows, t)
      ensures s == t
    {
      SubsystemLeAntisymmetric(rows, s, t);
    }
  }

  lemma SubsystemLeAntisymmetric(rows: seq<Loc>, s: string, t: string)
    requires IsSubsystem(rows, s) && IsSubsystem(rows, t) && SubsystemLe(rows, s, t) && SubsystemLe(rows, t, s)
    ensures s == t
  {
    hide TieBreakLe, BestWeight;
    TieBreakAntisymmetric(rows, s, t);
  }
}
