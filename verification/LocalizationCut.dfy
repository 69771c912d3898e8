/**
 The structural cut. Dominant targets are taken from the three best parameters of a window, and that cut is small
 enough for the two rankings to agree always; at the wider parameter selection of five they can disagree.
 */
module LocalizationCut {
  import opened Sums
  import opened Sorting
  import opened LocalizationTargets

  const STRUCTURAL_CUT := 3

  const SELECTION := 5

  /** The largest number of parameters at which the two rankings always agree. */
  const AGREEING_CUT := 4

  /** Parameters ranked 1, 2, ... by non-increasing, non-negative support. */
  ghost predicate Ranked(rows: seq<Loc>) {
    && (forall i :: 0 <= i < |rows| ==> rows[i].rank == i + 1 && rows[i].support >= 0.0)
    && forall i, j :: 0 <= i < j < |rows| ==> rows[i].support >= rows[j].support
  }

  /** The rank share of every parameter but the first. */
  const LaterShare: Loc -> real := (r: Loc) => if r.rank == 1 then 0.0 else RankShare(r)

  lemma {:induction false} GroupLowersSum<K>(rows: seq<Loc>, keyOf: Loc -> K, key: K, f: Loc -> real)
    requires forall r :: r in rows ==> f(r) >= 0.0
    ensures SumOver(Group(rows, keyOf, key), f) <= SumOver(rows, f)
  {
    if rows != [] {
      var rest, last := rows[..|rows| - 1], rows[|rows| - 1];
      GroupLowersSum(rest, keyOf, key, f);
      if keyOf(last) == key {
        SumAppend(Group(rest, keyOf, key), last, f);
      } else {
        assert Group(rows, keyOf, key) == Group(rest, keyOf, key);
      }
    }
  }

  lemma ShareNonNegative(rows: seq<Loc>)
    requires Ranked(rows)
    ensures forall r :: r in rows ==> RankShare(r) >= 0.0 && LaterShare(r) >= 0.0
  {
    forall r | r in rows
      ensures RankShare(r) >= 0.0
    {
      QuotientNonNegative(r.support, AtLeastOne(r.rank));
    }
  }

  /** Within a cut of three, everything behind the first parameter weighs at most five sixths of it. */
  lemma LaterSharesAreSmall(rows: seq<Loc>)
    requires Ranked(rows) && 1 <= |rows| <= STRUCTURAL_CUT
    ensures 6.0 * SumOver(rows, LaterShare) <= 5.0 * rows[0].support
  {
    assert rows[..|rows|] == rows;
    assert rows[..1] == [rows[0]] && [rows[0]][..0] == [];
    assert SumOver(rows[..1], LaterShare) == 0.0;
    if |rows| >= 2 {
      assert rows[..2][..1] == rows[..1];
      assert LaterShare(rows[1]) == rows[1].support / 2.0;
      if |rows| == 3 {
        assert rows[..3][..2] == rows[..2];
        assert LaterShare(rows[2]) == rows[2].support / 3.0;
      }
    }
  }

  lemma OtherModuleIsLighter(rows: seq<Loc>, key: ModuleKey)
    requires Ranked(rows) && 1 <= |rows| <= STRUCTURAL_CUT && key != ModuleOf(rows[0])
    ensures 6.0 * ModuleWeight(rows)(key) <= 5.0 * rows[0].support
  {
    var mine := Group(rows, ModuleOf, key);
    forall r | r in mine
      ensures RankShare(r) == LaterShare(r)
    {
      var i :| 0 <= i < |rows| && rows[i] == r;
    }
    SumCongruent(mine, RankShare, LaterShare);
    ShareNonNegative(rows);
    GroupLowersSum(rows, ModuleOf, key, LaterShare);
    LaterSharesAreSmall(rows);
  }

  lemma FirstModuleIsHeavy(rows: seq<Loc>)
    requires Ranked(rows) && rows != []
    ensures ModuleWeight(rows)(ModuleOf(rows[0])) >= rows[0].support
  {
    var mine := Group(rows, ModuleOf, ModuleOf(rows[0]));
    ShareNonNegative(rows);
    InOwnGroup(rows, ModuleOf, rows[0]);
    SumNonNegative(mine, RankShare);
    assert RankShare(rows[0]) == rows[0].support;
  }

  lemma {:induction false} PeakAndBest(rows: seq<Loc>)
    requires rows != []
    ensures exists r :: r in rows && r.support == Peak(rows)
    ensures exists r :: r in rows && r.rank == BestRank(rows)
    ensures forall r :: r in rows ==> BestRank(rows) <= r.rank
  {
    if |rows| == 1 {
      assert rows[0] in rows;
    } else {
      var rest, last := rows[..|rows| - 1], rows[|rows| - 1];
      PeakAndBest(rest);
      var p :| p in rest && p.support == Peak(rest);
      var b :| b in rest && b.rank == BestRank(rest);
      assert p in rows && b in rows && last in rows;
      assert forall r :: r in rows ==> r in rest || r == last;
    }
  }

  /**
   * Without any support, a group of rows has no weight and no peak, and ranks first only if it holds the first
   * parameter.
   */
  lemma SilentGroup<K>(rows: seq<Loc>, keyOf: Loc -> K, key: K)
    requires Ranked(rows) && rows != [] && rows[0].support == 0.0
    ensures var g := Group(rows, keyOf, key);
            && SumOver(g, RankShare) == 0.0
            && (g != [] ==> Peak(g) == 0.0)
            && (g != [] ==> (BestRank(g) == 1 <==> key == keyOf(rows[0])) && BestRank(g) >= 1)
  {
    var g := Group(rows, keyOf, key);
    forall r | r in g
      ensures r.support == 0.0 && RankShare(r) == 0.0 && r.rank >= 1 && (r.rank == 1 ==> r == rows[0])
    {
      var i :| 0 <= i < |rows| && rows[i] == r;
      assert 0.0 / AtLeastOne(r.rank) == 0.0;
    }
    SumOfZeros(g, RankShare);
    if g != [] {
      PeakAndBest(g);
      if key == keyOf(rows[0]) {
        InOwnGroup(rows, keyOf, rows[0]);
      }
    }
  }

  /** With a positive first support, the first parameter's module alone attains the maximum. */
  lemma LoudFirstModule(rows: seq<Loc>, m: ModuleKey)
    requires Ranked(rows) && 1 <= |rows| <= STRUCTURAL_CUT && rows[0].support > 0.0
    requires AttainsMaximum(rows, m)
    ensures m == ModuleOf(rows[0])
  {
    assert IsModule(rows, ModuleOf(rows[0]));
    FirstModuleIsHeavy(rows);
    if m != ModuleOf(rows[0]) {
      OtherModuleIsLighter(rows, m);
    }
  }

  lemma SilentModule(rows: seq<Loc>, m: ModuleKey)
    requires Ranked(rows) && rows != [] && rows[0].support == 0.0 && DominantModule(rows, m)
    ensures m == ModuleOf(rows[0])
  {
    var first := ModuleOf(rows[0]);
    assert IsModule(rows, first);
    SilentGroup(rows, ModuleOf, m);
    SilentGroup(rows, ModuleOf, first);
    ModuleHasRows(rows, m);
    ModuleHasRows(rows, first);
    hide Group, SumOver, Peak, BestRank;
    assert ModuleLe(rows, m, first);
  }

  lemma SilentSubsystem(rows: seq<Loc>, s: string)
    requires Ranked(rows) && rows != [] && rows[0].support == 0.0 && DominantSubsystem(rows, s)
    ensures s == rows[0].subsystem
  {
    var first := rows[0].subsystem;
    assert IsSubsystem(rows, first);
    SilentGroup(rows, SubsystemOf, s);
    SilentGroup(rows, SubsystemOf, first);
    SubsystemHasRows(rows, s);
    SubsystemHasRows(rows, first);
    SilentBestWeight(rows, s);
    SilentBestWeight(rows, first);
    hide Group, SumOver, Peak, BestRank, IsBestWeight;
    assert SubsystemLe(rows, s, first);
  }

  lemma SilentBestWeight(rows: seq<Loc>, s: string)
    requires Ranked(rows) && rows != [] && rows[0].support == 0.0 && IsSubsystem(rows, s)
    ensures BestWeight(rows, s) == 0.0
  {
    assert IsBestWeight(rows, s, BestWeight(rows, s));
    var key :| IsModule(rows, key) && key.0 == s && ModuleWeight(rows)(key) == BestWeight(rows, s);
    SilentGroup(rows, ModuleOf, key);
  }

  /**
   * At the structural cut, for every ranked window the dominant module and the dominant subsystem are those of the
   * first parameter, so they agree.
   */
  lemma CutOfThreeAgrees(rows: seq<Loc>, s: string, m: ModuleKey)
    requires Ranked(rows) && 1 <= |rows| <= STRUCTURAL_CUT
    requires DominantModule(rows, m) && DominantSubsystem(rows, s)
    ensures m == ModuleOf(rows[0]) && s == rows[0].subsystem == m.0
  {
    if rows[0].support > 0.0 {
      DominantModuleAttains(rows, m);
      LoudFirstModule(rows, m);
      forall k | AttainsMaximum(rows, k)
        ensures k == m
      {
        LoudFirstModule(rows, k);
      }
      UniqueMaximumAgrees(rows, s, m);
    } else {
      SilentModule(rows, m);
      SilentSubsystem(rows, s);
    }
  }

  // ---------- Four parameters ----------

  /** The row's share if it belongs to the group. */
  function ShareIn<K(==)>(r: Loc, keyOf: Loc -> K, key: K): real {
    if keyOf(r) == key then RankShare(r) else 0.0
  }

  /** The shares of the first `k` rows that belong to the group. */
  function SharesUpTo<K(==)>(rows: seq<Loc>, keyOf: Loc -> K, key: K, k: nat): real
    requires k <= |rows|
  {
    if k == 0 then 0.0 else SharesUpTo(rows, keyOf, key, k - 1) + ShareIn(rows[k - 1], keyOf, key)
  }

  lemma {:induction false} WeightAsShares<K>(rows: seq<Loc>, keyOf: Loc -> K, key: K, k: nat)
    requires k <= |rows|
    ensures SumOver(Group(rows[..k], keyOf, key), RankShare) == SharesUpTo(rows, keyOf, key, k)
  {
    hide Group, SumOver, Own, ShareIn;
    if k > 0 {
      WeightAsShares(rows, keyOf, key, k - 1);
      GroupPrefix(rows, k - 1, keyOf, key);
      OwnShare(Group(rows[..k - 1], keyOf, key), rows[k - 1], keyOf, key);
    } else {
      EmptyGroup(keyOf, key);
      EmptySum(RankShare);
      assert rows[..k] == [];
    }
  }

  lemma OwnShare<K>(before: seq<Loc>, r: Loc, keyOf: Loc -> K, key: K)
    ensures SumOver(before + Own(r, keyOf, key), RankShare) == SumOver(before, RankShare) + ShareIn(r, keyOf, key)
  {
    hide SumOver;
    if keyOf(r) == key {
      SumAppend(before, r, RankShare);
    } else {
      assert before + [] == before;
    }
  }

  lemma WeightOfFour<K>(rows: seq<Loc>, keyOf: Loc -> K, key: K)
    requires |rows| == 4
    ensures SumOver(Group(rows, keyOf, key), RankShare) ==
            ShareIn(rows[0], keyOf, key) + ShareIn(rows[1], keyOf, key) + ShareIn(rows[2], keyOf, key)
              + ShareIn(rows[3], keyOf, key)
  {
    hide Group, SumOver, ShareIn;
    WeightAsShares(rows, keyOf, key, 4);
    assert rows[..4] == rows;
    assert SharesUpTo(rows, keyOf, key, 1) == ShareIn(rows[0], keyOf, key);
    assert SharesUpTo(rows, keyOf, key, 2) == ShareIn(rows[0], keyOf, key) + ShareIn(rows[1], keyOf, key);
  }

  lemma SharesOfFour(rows: seq<Loc>)
    requires Ranked(rows) && |rows| == 4
    ensures RankShare(rows[0]) == rows[0].support
    ensures 0.0 <= 2.0 * RankShare(rows[1]) == rows[1].support <= rows[0].support
    ensures 0.0 <= 3.0 * RankShare(rows[2]) == rows[2].support <= rows[0].support
    ensures 0.0 <= 4.0 * RankShare(rows[3]) == rows[3].support <= rows[0].support
  {
  }

  /** Another module than the first parameter's can only attain the maximum with all three other parameters. */
  lemma OnlyAllOthersAttain(rows: seq<Loc>, key: ModuleKey)
    requires Ranked(rows) && |rows| == 4 && rows[0].support > 0.0
    requires AttainsMaximum(rows, key) && key != ModuleOf(rows[0])
    ensures ModuleOf(rows[1]) == ModuleOf(rows[2]) == ModuleOf(rows[3]) == key
  {
    var first := ModuleOf(rows[0]);
    RowIsListed(rows, 0);
    FirstModuleIsHeavy(rows);
    WeightOfFour(rows, ModuleOf, key);
    SharesOfFour(rows);
    hide SumOver, Group;
    assert ModuleWeight(rows)(first) <= ModuleWeight(rows)(key);
  }

  /** The first parameter alone in one group, the other three in another. */
  lemma OneAgainstThree<K>(rows: seq<Loc>, keyOf: Loc -> K)
    requires Ranked(rows) && |rows| == 4
    requires keyOf(rows[1]) == keyOf(rows[2]) == keyOf(rows[3]) != keyOf(rows[0])
    ensures Group(rows, keyOf, keyOf(rows[0])) == [rows[0]] && Group(rows, keyOf, keyOf(rows[1])) == rows[1..]
    ensures Peak([rows[0]]) >= Peak(rows[1..]) && BestRank([rows[0]]) < BestRank(rows[1..])
  {
    SplitOfFour(rows, keyOf, keyOf(rows[0]));
    SplitOfFour(rows, keyOf, keyOf(rows[1]));
    assert rows[1..] == [rows[1], rows[2], rows[3]];
    PeakAndBest(rows[1..]);
  }

  lemma SplitOfFour<K>(rows: seq<Loc>, keyOf: Loc -> K, key: K)
    requires |rows| == 4
    ensures Group(rows, keyOf, key) ==
            Own(rows[0], keyOf, key) + Own(rows[1], keyOf, key) + Own(rows[2], keyOf, key) + Own(rows[3], keyOf, key)
  {
    hide Group, Own;
    EmptyGroup(keyOf, key);
    GroupPrefix(rows, 0, keyOf, key);
    GroupPrefix(rows, 1, keyOf, key);
    GroupPrefix(rows, 2, keyOf, key);
    GroupPrefix(rows, 3, keyOf, key);
    assert rows[..0] == [] && rows[..4] == rows;
  }

  /**
   * The one parameter against the three others, in two subsystems and of equal weight: both rankings start with the
   * one.
   */
  lemma TiedFourAgrees(rows: seq<Loc>, s: string, m: ModuleKey)
    requires Ranked(rows) && |rows| == 4
    requires DominantModule(rows, m) && DominantSubsystem(rows, s)
    requires var one, three := ModuleOf(rows[0]), ModuleOf(rows[1]);
             && one.0 != three.0 && ModuleOf(rows[2]) == ModuleOf(rows[3]) == three
             && AttainsMaximum(rows, one) && AttainsMaximum(rows, three)
    ensures m.0 == s
  {
    TiedModule(rows, m);
    TiedSubsystem(rows, s);
  }

  lemma TiedModule(rows: seq<Loc>, m: ModuleKey)
    requires Ranked(rows) && |rows| == 4 && DominantModule(rows, m)
    requires var one, three := ModuleOf(rows[0]), ModuleOf(rows[1]);
             && one != three && ModuleOf(rows[2]) == ModuleOf(rows[3]) == three
             && AttainsMaximum(rows, one) && AttainsMaximum(rows, three)
    ensures m == ModuleOf(rows[0])
  {
    var one, three := ModuleOf(rows[0]), ModuleOf(rows[1]);
    OneAgainstThree(rows, ModuleOf);
    TwoModulesOnly(rows);
    ModuleHasRows(rows, one);
    ModuleHasRows(rows, three);
    hide Group, SumOver, Peak, BestRank, IsModule, Ranked;
    assert ModuleLe(rows, m, one);
  }

  lemma TiedSubsystem(rows: seq<Loc>, s: string)
    requires Ranked(rows) && |rows| == 4 && DominantSubsystem(rows, s)
    requires var one, three := ModuleOf(rows[0]), ModuleOf(rows[1]);
             && one.0 != three.0 && ModuleOf(rows[2]) == ModuleOf(rows[3]) == three
             && AttainsMaximum(rows, one) && AttainsMaximum(rows, three)
    ensures s == rows[0].subsystem
  {
    var one, three := ModuleOf(rows[0]), ModuleOf(rows[1]);
    OneAgainstThree(rows, ModuleOf);
    OneAgainstThree(rows, SubsystemOf);
    TwoModulesOnly(rows);
    SubsystemHasRows(rows, one.0);
    SubsystemHasRows(rows, three.0);
    BestIsAttained(rows, one);
    BestIsAttained(rows, three);
    hide Group, SumOver, Peak, BestRank, IsModule, IsSubsystem, BestWeight, Ranked;
    assert SubsystemLe(rows, s, one.0);
  }

  lemma TwoModulesOnly(rows: seq<Loc>)
    requires |rows| == 4 && ModuleOf(rows[1]) == ModuleOf(rows[2]) == ModuleOf(rows[3])
    ensures forall k :: IsModule(rows, k) <==> k == ModuleOf(rows[0]) || k == ModuleOf(rows[1])
    ensures forall t :: IsSubsystem(rows, t) <==> t == rows[0].subsystem || t == rows[1].subsystem
  {
    assert rows[0] in rows && rows[1] in rows;
    assert forall r :: r in rows ==> r == rows[0] || r == rows[1] || r == rows[2] || r == rows[3];
  }

  lemma BestIsAttained(rows: seq<Loc>, key: ModuleKey)
    requires AttainsMaximum(rows, key)
    ensures IsSubsystem(rows, key.0) && BestWeight(rows, key.0) == ModuleWeight(rows)(key)
  {
    hide ModuleWeight;
    assert IsBestWeight(rows, key.0, ModuleWeight(rows)(key));
    assert IsBestWeight(rows, key.0, BestWeight(rows, key.0));
  }

  /** Up to four parameters, the module ranked first always lies in the subsystem ranked first. */
  lemma CutOfFourAgrees(rows: seq<Loc>, s: string, m: ModuleKey)
    requires Ranked(rows) && 1 <= |rows| <= AGREEING_CUT
    requires DominantModule(rows, m) && DominantSubsystem(rows, s)
    ensures m.0 == s
  {
    hide ModuleWeight, DominantModule, DominantSubsystem, AttainsMaximum;
    if |rows| <= STRUCTURAL_CUT {
      CutOfThreeAgrees(rows, s, m);
    } else if rows[0].support == 0.0 {
      SilentModule(rows, m);
      SilentSubsystem(rows, s);
    } else {
      DominantModuleAttains(rows, m);
      if k :| AttainsMaximum(rows, k) && k != m {
        LoudTieAgrees(rows, s, m, k);
      } else {
        UniqueMaximumAgrees(rows, s, m);
      }
    }
  }

  lemma LoudTieAgrees(rows: seq<Loc>, s: string, m: ModuleKey, k: ModuleKey)
    requires Ranked(rows) && |rows| == 4 && rows[0].support > 0.0
    requires DominantModule(rows, m) && DominantSubsystem(rows, s)
    requires AttainsMaximum(rows, m) && AttainsMaximum(rows, k) && k != m
    ensures m.0 == s
  {
    var first := ModuleOf(rows[0]);
    DominantSubsystemHoldsMaximum(rows, s, m);
    var x: ModuleKey :| x.0 == s && AttainsMaximum(rows, x);
    hide ModuleWeight, DominantModule, DominantSubsystem, AttainsMaximum;
    var other := if m == first then k else m;
    OnlyAllOthersAttain(rows, other);
    if x != first {
      OnlyAllOthersAttain(rows, x);
    }
    if m != first && k != first {
      OnlyAllOthersAttain(rows, k);
    } else if first.0 != other.0 {
      TiedFourAgrees(rows, s, m);
    }
  }

  // ---------- A window of five where the rankings part ----------

  /**
   * Five parameters of supports 6, 6, 6, 4, 4 in some unit: the first alone in one subsystem, the others in two
   * modules of another.
   */
  ghost predicate Parting(rows: seq<Loc>, u: real, s: string, t: string, a: string, b: string, c: string) {
    && s != t && b != c && u > 0.0
    && rows == [
                 Loc(s, a, 6.0 * u, 1), Loc(t, b, 6.0 * u, 2), Loc(t, b, 6.0 * u, 3), Loc(t, b, 4.0 * u, 4),
                 Loc(t, c, 4.0 * u, 5)
               ]
  }

  function Own<K(==)>(r: Loc, keyOf: Loc -> K, key: K): seq<Loc> {
    if keyOf(r) == key then [r] else []
  }

  /** The rows of one key among five, read off one row at a time. */
  lemma GroupPrefix<K>(rows: seq<Loc>, k: nat, keyOf: Loc -> K, key: K)
    requires k < |rows|
    ensures Group(rows[..k + 1], keyOf, key) == Group(rows[..k], keyOf, key) + Own(rows[k], keyOf, key)
  {
    assert rows[..k + 1][..k] == rows[..k];
  }

  lemma GroupOfFive<K>(rows: seq<Loc>, keyOf: Loc -> K, key: K)
    requires |rows| == 5
    ensures Group(rows, keyOf, key) ==
            Own(rows[0], keyOf, key) + Own(rows[1], keyOf, key) + Own(rows[2], keyOf, key)
              + Own(rows[3], keyOf, key) + Own(rows[4], keyOf, key)
  {
    hide Group, Own;
    EmptyGroup(keyOf, key);
    GroupPrefix(rows, 0, keyOf, key);
    GroupPrefix(rows, 1, keyOf, key);
    GroupPrefix(rows, 2, keyOf, key);
    GroupPrefix(rows, 3, keyOf, key);
    GroupPrefix(rows, 4, keyOf, key);
    assert rows[..0] == [] && rows[..5] == rows;
  }

  lemma SumOfThree(x: Loc, y: Loc, z: Loc, f: Loc -> real)
    ensures SumOver([x, y, z], f) == f(x) + f(y) + f(z)
  {
    SumOfTwo(x, y, f);
    SumAppend([x, y], z, f);
    assert [x, y] + [z] == [x, y, z];
  }

  lemma FirstOfFive<K>(rows: seq<Loc>, keyOf: Loc -> K, key: K)
    requires |rows| == 5 && keyOf(rows[0]) == key && forall i :: 1 <= i < 5 ==> keyOf(rows[i]) != key
    ensures Group(rows, keyOf, key) == [rows[0]]
  {
    GroupOfFive(rows, keyOf, key);
    hide Group;
  }

  lemma LastOfFive<K>(rows: seq<Loc>, keyOf: Loc -> K, key: K)
    requires |rows| == 5 && keyOf(rows[4]) == key && forall i :: 0 <= i < 4 ==> keyOf(rows[i]) != key
    ensures Group(rows, keyOf, key) == [rows[4]]
  {
    GroupOfFive(rows, keyOf, key);
    hide Group;
  }

  lemma MiddleOfFive<K>(rows: seq<Loc>, keyOf: Loc -> K, key: K)
    requires |rows| == 5 && keyOf(rows[0]) != key && keyOf(rows[1]) == keyOf(rows[2]) == keyOf(rows[3]) == key
    ensures Group(rows, keyOf, key) == if keyOf(rows[4]) == key then [rows[1], rows[2], rows[3], rows[4]]
            else [rows[1], rows[2], rows[3]]
  {
    GroupOfFive(rows, keyOf, key);
    hide Group;
  }

  lemma PartingGroups(rows: seq<Loc>, u: real, s: string, t: string, a: string, b: string, c: string)
    requires Parting(rows, u, s, t, a, b, c)
    ensures Group(rows, ModuleOf, (s, a)) == [rows[0]]
    ensures Group(rows, ModuleOf, (t, b)) == [rows[1], rows[2], rows[3]]
    ensures Group(rows, ModuleOf, (t, c)) == [rows[4]]
    ensures Group(rows, SubsystemOf, s) == [rows[0]]
    ensures Group(rows, SubsystemOf, t) == [rows[1], rows[2], rows[3], rows[4]]
  {
    hide Group;
    FirstOfFive(rows, ModuleOf, (s, a));
    MiddleOfFive(rows, ModuleOf, (t, b));
    LastOfFive(rows, ModuleOf, (t, c));
    FirstOfFive(rows, SubsystemOf, s);
    MiddleOfFive(rows, SubsystemOf, t);
  }

  lemma PartingWeights(rows: seq<Loc>, u: real, s: string, t: string, a: string, b: string, c: string)
    requires Parting(rows, u, s, t, a, b, c)
    ensures ModuleWeight(rows)((s, a)) == ModuleWeight(rows)((t, b)) == 6.0 * u > ModuleWeight(rows)((t, c))
    ensures TotalWeight(rows, s) == 6.0 * u < TotalWeight(rows, t)
  {
    PartingGroups(rows, u, s, t, a, b, c);
    SumOfOne(rows[0], RankShare);
    SumOfThree(rows[1], rows[2], rows[3], RankShare);
    SumOfOne(rows[4], RankShare);
    SumAppend([rows[1], rows[2], rows[3]], rows[4], RankShare);
    assert [rows[1], rows[2], rows[3]] + [rows[4]] == [rows[1], rows[2], rows[3], rows[4]];
    hide Group, SumOver;
    assert 6.0 * u / 2.0 == 3.0 * u && 6.0 * u / 3.0 == 2.0 * u && 4.0 * u / 4.0 == u && 0.0 < 4.0 * u / 5.0 < u;
  }

  lemma PartingModules(rows: seq<Loc>, u: real, s: string, t: string, a: string, b: string, c: string)
    requires Parting(rows, u, s, t, a, b, c)
    ensures forall k :: IsModule(rows, k) <==> k == (s, a) || k == (t, b) || k == (t, c)
    ensures forall x :: IsSubsystem(rows, x) <==> x == s || x == t
  {
    assert rows[0] in rows && rows[1] in rows && rows[4] in rows;
  }

  const SupportOf: Loc -> real := (r: Loc) => r.support

  lemma PartingSum(rows: seq<Loc>, u: real, s: string, t: string, a: string, b: string, c: string)
    requires Parting(rows, u, s, t, a, b, c)
    ensures SumOver(rows, SupportOf) == 26.0 * u
  {
    SumOfThree(rows[0], rows[1], rows[2], SupportOf);
    SumOfTwo(rows[3], rows[4], SupportOf);
    SumConcat([rows[0], rows[1], rows[2]], [rows[3], rows[4]], SupportOf);
    assert rows == [rows[0], rows[1], rows[2]] + [rows[3], rows[4]];
    hide SumOver;
  }

  /**
   * At the parameter selection of five, the dominant module can lie outside the dominant subsystem, also for supports
   * within the total of two that a window never exceeds.
   */
  lemma SelectionOfFiveCanDisagree(rows: seq<Loc>, u: real, s: string, t: string, a: string, b: string, c: string)
    requires Parting(rows, u, s, t, a, b, c)
    ensures Ranked(rows) && |rows| == SELECTION
    ensures DominantModule(rows, (s, a)) && DominantSubsystem(rows, t) && s != t
    ensures u <= 1.0 / 13.0 ==> SumOver(rows, SupportOf) <= 2.0
  {
    hide Group, SumOver, Peak, BestRank, ModuleWeight, TotalWeight, IsModule, IsSubsystem, BestWeight;
    PartingModules(rows, u, s, t, a, b, c);
    PartingWeights(rows, u, s, t, a, b, c);
    PartingGroups(rows, u, s, t, a, b, c);
    PartingPeaks(rows, u);
    PartingSum(rows, u, s, t, a, b, c);
    PartingBest(rows, u, s, t, a, b, c);
    LexTotal(a, a);
    LexTotal(t, t);
    assert ModuleLe(rows, (s, a), (s, a)) && ModuleLe(rows, (s, a), (t, b)) && ModuleLe(rows, (s, a), (t, c));
    assert SubsystemLe(rows, t, s) && SubsystemLe(rows, t, t);
  }

  lemma PartingPeaks(rows: seq<Loc>, u: real)
    requires |rows| == 5 && u > 0.0
    requires rows[0].support == rows[1].support == rows[2].support == 6.0 * u && rows[3].support == 4.0 * u
    requires rows[0].rank == 1 && rows[1].rank == 2 && rows[2].rank == 3 && rows[3].rank == 4
    ensures Peak([rows[0]]) == 6.0 * u && BestRank([rows[0]]) == 1
    ensures Peak([rows[1], rows[2], rows[3]]) == 6.0 * u && BestRank([rows[1], rows[2], rows[3]]) == 2
  {
    var g := [rows[1], rows[2], rows[3]];
    assert g[..2] == [rows[1], rows[2]] && [rows[1], rows[2]][..1] == [rows[1]];
    assert Peak([rows[1], rows[2]]) == 6.0 * u && BestRank([rows[1], rows[2]]) == 2;
  }

  lemma PartingBest(rows: seq<Loc>, u: real, s: string, t: string, a: string, b: string, c: string)
    requires Parting(rows, u, s, t, a, b, c)
    ensures IsSubsystem(rows, s) && IsSubsystem(rows, t) && BestWeight(rows, s) == BestWeight(rows, t)
  {
    PartingModules(rows, u, s, t, a, b, c);
    PartingWeights(rows, u, s, t, a, b, c);
    hide ModuleWeight;
    assert IsBestWeight(rows, s, BestWeight(rows, s)) && IsBestWeight(rows, t, BestWeight(rows, t));
    assert IsModule(rows, (s, a)) && IsModule(rows, (t, b));
  }
}
