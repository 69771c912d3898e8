/**
 Parameter localization supports of one emitted window: how evidence shares and channel weights are combined,
 how the module boost acts, and why the total mass stays bounded. Square root and log1p are parameters of
 which only range facts are used.
 */
module Localization {
  import opened Sums
  import opened LinearAlgebra

  /** One parameter row of a window, mapped or not to a subsystem. */
  datatype Param = Param(
    name: string, subsystem: Option<string>, moduleId: string, moduleSize: real,
    residual: Option<real>, events: nat, boundEvents: nat, responseEvents: nat, stateEvents: nat,
    profile: seq<Option<real>>)

  type Scores = map<string, real>

  const CHANNELS: seq<string> :=
    ["regime_deviation", "reconstruction_error", "event_discordance", "bound_violation",
     "accumulation_violation", "response_violation", "state_violation", "coherence_break"]

  ghost predicate LogLike(log1p: real -> real) {
    forall x: real :: x >= 0.0 ==> log1p(x) >= 0.0
  }

  ghost predicate RootLike(sqrt: real -> real) {
    && (forall x: real :: x >= 0.0 ==> sqrt(x) >= 0.0)
    && forall x: real :: x >= 1.0 ==> sqrt(x) >= 1.0
  }

  // ---------- Channel weights ----------

  function ScoreOf(scores: Scores, channel: string): real {
    if channel in scores then scores[channel] else 0.0
  }

  function Mass(log1p: real -> real, scores: Scores): string -> real {
    channel => log1p(ScoreOf(scores, channel))
  }

  ghost function MassTotal(log1p: real -> real, scores: Scores): real {
    SumOver(CHANNELS, Mass(log1p, scores))
  }

  ghost function ChannelWeight(log1p: real -> real, scores: Scores, channel: string): real {
    var total := MassTotal(log1p, scores);
    if total > 0.0 then Mass(log1p, scores)(channel) / total else 0.0
  }

  /** The weight as computed: the first channel's mass starts the running total, the others are added. */
  method LogComponentWeight(log1p: real -> real, scores: Scores, channel: string) returns (weight: real)
    ensures weight == ChannelWeight(log1p, scores, channel)
  {
    var total := log1p(ScoreOf(scores, CHANNELS[0]));
    assert CHANNELS[..1] == [CHANNELS[0]] && [CHANNELS[0]][..0] == [];
    for i := 1 to |CHANNELS|
      invariant total == SumOver(CHANNELS[..i], Mass(log1p, scores))
    {
      assert CHANNELS[..i + 1][..i] == CHANNELS[..i];
      total := total + log1p(ScoreOf(scores, CHANNELS[i]));
    }
    assert CHANNELS[..|CHANNELS|] == CHANNELS;
    weight := if total > 0.0 then log1p(ScoreOf(scores, channel)) / total else 0.0;
  }

  ghost predicate NonNegative(scores: Scores) {
    forall channel :: channel in scores ==> scores[channel] >= 0.0
  }

  ghost function WeightOf(log1p: real -> real, scores: Scores): string -> real {
    channel => ChannelWeight(log1p, scores, channel)
  }

  /** With non-negative scores the channel weights are non-negative and sum to one, or are all zero. */
  lemma WeightsSum(log1p: real -> real, scores: Scores)
    requires LogLike(log1p) && NonNegative(scores)
    ensures forall channel :: channel in CHANNELS ==> ChannelWeight(log1p, scores, channel) >= 0.0
    ensures SumOver(CHANNELS, WeightOf(log1p, scores)) == if MassTotal(log1p, scores) > 0.0 then 1.0 else 0.0
  {
    WeightsSumOver(log1p, scores, CHANNELS);
  }

  lemma WeightsSumOver(log1p: real -> real, scores: Scores, channels: seq<string>)
    requires LogLike(log1p) && NonNegative(scores) && channels == CHANNELS
    ensures forall channel :: channel in channels ==> WeightOf(log1p, scores)(channel) >= 0.0
    ensures SumOver(channels, WeightOf(log1p, scores)) == if MassTotal(log1p, scores) > 0.0 then 1.0 else 0.0
  {
    var f, g, total := Mass(log1p, scores), WeightOf(log1p, scores), MassTotal(log1p, scores);
    forall channel
      ensures f(channel) >= 0.0
    {
      assert ScoreOf(scores, channel) >= 0.0;
    }
    if total > 0.0 {
      SumOfParts(channels, total, f, g);
    } else {
      SumOfZeros(channels, g);
    }
  }

  // ---------- Evidence shares ----------

  /** Mean of the values, each clamped to the unit interval; a missing value counts as zero. */
  function Clamp01(value: Option<real>): real {
    if value.None? || value.value < 0.0 then 0.0 else if value.value > 1.0 then 1.0 else value.value
  }

  ghost function ClampedMean(values: seq<Option<real>>): real {
    if values == [] then 0.0 else SumOver(values, Clamp01) / |values| as real
  }

  method NormalizedClampedAverage(values: seq<Option<real>>) returns (mean: real)
    ensures mean == ClampedMean(values)
  {
    if values == [] {
      return 0.0;
    }
    var total := 0.0;
    for i := 0 to |values|
      invariant total == SumOver(values[..i], Clamp01)
    {
      assert values[..i + 1][..i] == values[..i];
      total := total + Clamp01(values[i]);
    }
    assert values[..|values|] == values;
    mean := total / |values| as real;
  }

  lemma {:induction false} SumOfUnits<T>(xs: seq<T>, f: T -> real)
    requires forall x :: x in xs ==> 0.0 <= f(x) <= 1.0
    ensures 0.0 <= SumOver(xs, f) <= |xs| as real
  {
    if xs != [] {
      SumOfUnits(xs[..|xs| - 1], f);
    }
  }

  lemma ClampedMeanRange(values: seq<Option<real>>)
    ensures 0.0 <= ClampedMean(values) <= 1.0
  {
    if values != [] {
      SumOfUnits(values, Clamp01);
      QuotientRange(SumOver(values, Clamp01), |values| as real);
    }
  }

  function Residual(p: Param): real {
    if p.residual.None? then 0.0 else if p.residual.value < 0.0 then -p.residual.value else p.residual.value
  }

  /** The five kinds of evidence a parameter brings. */
  datatype Evidence = ResidualMass | AllEvents | BoundEvents | ResponseEvents | StateEvents

  function Amount(kind: Evidence): Param -> real {
    (p: Param) =>
      match kind
      case ResidualMass => Residual(p)
      case AllEvents => p.events as real
      case BoundEvents => p.boundEvents as real
      case ResponseEvents => p.responseEvents as real
      case StateEvents => p.stateEvents as real
  }

  /** A parameter's part of the window's total, over all parameter rows of the window. */
  ghost function Share(window: seq<Param>, kind: Evidence): Param -> real {
    (p: Param) => Amount(kind)(p) / Max(SumOver(window, Amount(kind)), 0.000_000_000_001)
  }

  function Mapped(window: seq<Param>): (ps: seq<Param>)
    ensures forall p :: p in ps ==> p in window && p.subsystem.Some?
  {
    if window == [] then []
    else Mapped(window[..|window| - 1]) + if window[|window| - 1].subsystem.Some? then [window[|window| - 1]] else []
  }

  lemma {:induction false} MappedLowersSum(window: seq<Param>, f: Param -> real)
    requires forall p :: f(p) >= 0.0
    ensures 0.0 <= SumOver(Mapped(window), f) <= SumOver(window, f)
  {
    if window != [] {
      var rest, last := window[..|window| - 1], window[|window| - 1];
      MappedLowersSum(rest, f);
      SumAppend(Mapped(rest), last, f);
      assert last.subsystem.None? ==> Mapped(window) == Mapped(rest);
    }
  }

  /**
   * Over the mapped parameters of a window, the shares of each kind of evidence are non-negative and sum to at most
   * one.
   */
  lemma SharesSum(window: seq<Param>, kind: Evidence)
    ensures forall p :: Share(window, kind)(p) >= 0.0
    ensures SumOver(Mapped(window), Share(window, kind)) <= 1.0
  {
    var f, g := Amount(kind), Share(window, kind);
    var d := Max(SumOver(window, f), 0.000_000_000_001);
    MappedLowersSum(window, f);
    forall p
      ensures g(p) >= 0.0
    {
      QuotientNonNegative(f(p), d);
    }
    SumOfParts(Mapped(window), d, f, g);
  }

  // ---------- Supports ----------

  /** The square root of the module's size, read as at least one. */
  function SizeRoot(sqrt: real -> real, p: Param): real {
    sqrt(Max(p.moduleSize, 1.0))
  }

  ghost function PerRoot(sqrt: real -> real, window: seq<Param>, kind: Evidence, p: Param): real {
    if SizeRoot(sqrt, p) == 0.0 then 0.0 else Share(window, kind)(p) / SizeRoot(sqrt, p)
  }

  /** The weighted combination of a parameter's size-normalised shares; `mean` is its accumulation relevance. */
  function Combine(
    w: string -> real, local: real, mean: real, events: real, bound: real, response: real, state: real): real {
    Times(local, w("regime_deviation") + w("coherence_break"))
    + Times(local, w("reconstruction_error"))
    + Times(events, w("event_discordance"))
    + Times(bound, w("bound_violation"))
    + Times(Times(local, mean), w("accumulation_violation"))
    + Times(response, w("response_violation"))
    + Times(state, w("state_violation"))
  }

  /** A parameter's support before the module boost. */
  ghost function Support(sqrt: real -> real, log1p: real -> real, scores: Scores, window: seq<Param>): Param -> real {
    (p: Param) =>
      Combine(WeightOf(log1p, scores),
              PerRoot(sqrt, window, ResidualMass, p), ClampedMean(p.profile),
              PerRoot(sqrt, window, AllEvents, p), PerRoot(sqrt, window, BoundEvents, p),
              PerRoot(sqrt, window, ResponseEvents, p), PerRoot(sqrt, window, StateEvents, p))
  }

  /** Dividing by a root of at least one only shrinks a share. */
  lemma PerRootRange(sqrt: real -> real, window: seq<Param>, kind: Evidence, p: Param)
    requires RootLike(sqrt)
    ensures 0.0 <= PerRoot(sqrt, window, kind, p) <= Share(window, kind)(p)
  {
    SharesSum(window, kind);
    var x, r := Share(window, kind)(p), SizeRoot(sqrt, p);
    assert Max(p.moduleSize, 1.0) >= 1.0;
    QuotientShrinks(x, r);
  }

  lemma QuotientShrinks(x: real, r: real)
    requires x >= 0.0 && r >= 1.0
    ensures 0.0 <= x / r <= x
  {
    var q := x / r;
    assert q * r == x;
    QuotientNonNegative(x, r);
    assert q * r >= q * 1.0;
  }

  /** The share of one kind of evidence, times a weight. */
  ghost function Weighted(window: seq<Param>, kind: Evidence, w: real): Param -> real {
    (p: Param) => Times(w, Share(window, kind)(p))
  }

  lemma {:induction false} SumWeighted<T>(xs: seq<T>, w: real, f: T -> real, g: T -> real)
    requires forall x :: x in xs ==> g(x) == Times(w, f(x))
    ensures SumOver(xs, g) == Times(w, SumOver(xs, f))
  {
    if xs != [] {
      var rest, last := xs[..|xs| - 1], xs[|xs| - 1];
      SumWeighted(rest, w, f, g);
      TimesAdds(w, SumOver(rest, f), f(last));
      hide Times;
    } else {
      assert Times(w, 0.0) == 0.0;
    }
  }

  lemma WeightedSum(window: seq<Param>, kind: Evidence, w: real)
    requires w >= 0.0
    ensures SumOver(Mapped(window), Weighted(window, kind, w)) <= w
  {
    SharesSum(window, kind);
    SumWeighted(Mapped(window), w, Share(window, kind), Weighted(window, kind, w));
    ProductBelow(SumOver(Mapped(window), Share(window, kind)), w);
    hide *;
  }

  lemma ProductBelow(x: real, w: real)
    requires x <= 1.0 && w >= 0.0
    ensures Times(w, x) <= w
  {
  }

  lemma {:induction false} SumBelowFive(
    xs: seq<Param>, h: Param -> real, f1: Param -> real, f2: Param -> real, f3: Param -> real, f4: Param -> real,
    f5: Param -> real)
    requires forall x :: x in xs ==> h(x) <= f1(x) + f2(x) + f3(x) + f4(x) + f5(x)
    ensures SumOver(xs, h) <= SumOver(xs, f1) + SumOver(xs, f2) + SumOver(xs, f3) + SumOver(xs, f4) + SumOver(xs, f5)
  {
    if xs != [] {
      SumBelowFive(xs[..|xs| - 1], h, f1, f2, f3, f4, f5);
    }
  }

  lemma EightChannels(f: string -> real)
    ensures SumOver(CHANNELS, f) ==
            f("regime_deviation") + f("reconstruction_error") + f("event_discordance") + f("bound_violation")
            + f("accumulation_violation") + f("response_violation") + f("state_violation") + f("coherence_break")
  {
    var c := CHANNELS;
    SumPrefix(c, 7, f);
    SumPrefix(c, 6, f);
    SumPrefix(c, 5, f);
    SumPrefix(c, 4, f);
    SumPrefix(c, 3, f);
    SumPrefix(c, 2, f);
    SumPrefix(c, 1, f);
    SumPrefix(c, 0, f);
    assert c[..8] == c && c[..0] == [];
  }

  lemma SumPrefix<T>(xs: seq<T>, k: nat, f: T -> real)
    requires k < |xs|
    ensures SumOver(xs[..k + 1], f) == SumOver(xs[..k], f) + f(xs[k])
  {
    assert xs[..k + 1][..k] == xs[..k];
  }

  /** The weight with which a parameter's residual share can enter at most. */
  function ResidualWeight(w: string -> real): real {
    w("regime_deviation") + w("coherence_break") + w("reconstruction_error") + w("accumulation_violation")
  }

  /** A product of a part of a share and a weight is at most the weighted share. */
  lemma Part(x: real, y: real, w: real)
    requires 0.0 <= x <= y && w >= 0.0
    ensures 0.0 <= Times(x, w) <= Times(w, y)
  {
  }

  lemma MeanPart(x: real, y: real, m: real)
    requires 0.0 <= x <= y && 0.0 <= m <= 1.0
    ensures 0.0 <= Times(x, m) <= y
  {
    ProductBelow(m, x);
    Part(x, y, m);
  }

  lemma WeightsAdd(a: real, b: real, c: real, y: real)
    ensures Times(a + b + c, y) == Times(a, y) + Times(b, y) + Times(c, y)
  {
  }

  lemma ResidualPart(x: real, y: real, m: real, w12: real, w3: real, w4: real)
    requires 0.0 <= x <= y && 0.0 <= m <= 1.0 && w12 >= 0.0 && w3 >= 0.0 && w4 >= 0.0
    ensures 0.0 <= Times(x, w12) + Times(x, w3) + Times(Times(x, m), w4) <= Times(w12 + w3 + w4, y)
  {
    hide Times;
    MeanPart(x, y, m);
    Part(Times(x, m), y, w4);
    Part(x, y, w3);
    Part(x, y, w12);
    WeightsAdd(w12, w3, w4, y);
  }

  ghost predicate NonNegativeWeights(w: string -> real) {
    forall channel :: channel in CHANNELS ==> w(channel) >= 0.0
  }

  lemma AllWeightsListed(w: string -> real)
    requires NonNegativeWeights(w)
    ensures w("regime_deviation") >= 0.0 && w("coherence_break") >= 0.0 && w("reconstruction_error") >= 0.0
            && w("accumulation_violation") >= 0.0
    ensures w("event_discordance") >= 0.0 && w("bound_violation") >= 0.0 && w("response_violation") >= 0.0
            && w("state_violation") >= 0.0
    ensures ResidualWeight(w) >= 0.0
    ensures ResidualWeight(w) ==
            w("regime_deviation") + w("coherence_break") + w("reconstruction_error") + w("accumulation_violation")
  {
    assert forall i :: 0 <= i < |CHANNELS| ==> CHANNELS[i] in CHANNELS;
  }

  /** Replacing every share by the unnormalised one only raises the combination. */
  lemma CombineBelow(w: string -> real, local: real, mean: real, events: real, bound: real, response: real, state: real,
                     local': real, events': real, bound': real, response': real, state': real)
    requires NonNegativeWeights(w)
    requires 0.0 <= mean <= 1.0 && 0.0 <= local <= local' && 0.0 <= events <= events'
    requires 0.0 <= bound <= bound' && 0.0 <= response <= response' && 0.0 <= state <= state'
    ensures 0.0 <= Combine(w, local, mean, events, bound, response, state)
            <= Times(ResidualWeight(w), local') + Times(w("event_discordance"), events')
              + Times(w("bound_violation"), bound')
               + Times(w("response_violation"), response') + Times(w("state_violation"), state')
  {
    AllWeightsListed(w);
    hide Times, NonNegativeWeights;
    ResidualPart(local, local', mean, w("regime_deviation") + w("coherence_break"), w("reconstruction_error"),
      w("accumulation_violation"));
    Part(events, events', w("event_discordance"));
    Part(bound, bound', w("bound_violation"));
    Part(response, response', w("response_violation"));
    Part(state, state', w("state_violation"));
  }

  lemma SupportUnfolds(sqrt: real -> real, log1p: real -> real, scores: Scores, window: seq<Param>, p: Param)
    ensures Support(sqrt, log1p, scores, window)(p) ==
            Combine(WeightOf(log1p, scores), PerRoot(sqrt, window, ResidualMass, p), ClampedMean(p.profile),
                    PerRoot(sqrt, window, AllEvents, p), PerRoot(sqrt, window, BoundEvents, p),
                    PerRoot(sqrt, window, ResponseEvents, p), PerRoot(sqrt, window, StateEvents, p))
    ensures forall kind: Evidence, x: real :: Weighted(window, kind, x)(p) == Times(x, Share(window, kind)(p))
  {
    hide Times, Combine, PerRoot, Share, ClampedMean, WeightOf;
  }

  lemma SupportBelow(sqrt: real -> real, log1p: real -> real, scores: Scores, window: seq<Param>, p: Param)
    requires RootLike(sqrt) && NonNegativeWeights(WeightOf(log1p, scores))
    ensures var w := WeightOf(log1p, scores);
            0.0 <= Support(sqrt, log1p, scores, window)(p)
            <= Weighted(window, ResidualMass, ResidualWeight(w))(p)
               + Weighted(window, AllEvents, w("event_discordance"))(p)
               + Weighted(window, BoundEvents, w("bound_violation"))(p)
               + Weighted(window, ResponseEvents, w("response_violation"))(p)
               + Weighted(window, StateEvents, w("state_violation"))(p)
  {
    ClampedMeanRange(p.profile);
    PerRootRange(sqrt, window, ResidualMass, p);
    PerRootRange(sqrt, window, AllEvents, p);
    PerRootRange(sqrt, window, BoundEvents, p);
    PerRootRange(sqrt, window, ResponseEvents, p);
    PerRootRange(sqrt, window, StateEvents, p);
    SupportUnfolds(sqrt, log1p, scores, window, p);
    hide *;
    CombineBelow(WeightOf(log1p, scores), PerRoot(sqrt, window, ResidualMass, p), ClampedMean(p.profile),
                 PerRoot(sqrt, window, AllEvents, p), PerRoot(sqrt, window, BoundEvents, p),
                 PerRoot(sqrt, window, ResponseEvents, p), PerRoot(sqrt, window, StateEvents, p),
                 Share(window, ResidualMass)(p), Share(window, AllEvents)(p), Share(window, BoundEvents)(p),
                 Share(window, ResponseEvents)(p), Share(window, StateEvents)(p));
  }

  /**
   * For all parameters of a window with non-negative channel scores, the supports are non-negative and sum to at
   * most one.
   */
  lemma SupportsSumToAtMostOne(sqrt: real -> real, log1p: real -> real, scores: Scores, window: seq<Param>)
    requires RootLike(sqrt) && LogLike(log1p) && NonNegative(scores)
    ensures forall p :: Support(sqrt, log1p, scores, window)(p) >= 0.0
    ensures SumOver(Mapped(window), Support(sqrt, log1p, scores, window)) <= 1.0
  {
    var w := WeightOf(log1p, scores);
    WeightsSum(log1p, scores);
    EightChannels(w);
    assert NonNegativeWeights(w);
    AllWeightsListed(w);
    hide *;
    forall p
      ensures Support(sqrt, log1p, scores, window)(p) >= 0.0
    {
      SupportBelow(sqrt, log1p, scores, window, p);
    }
    SupportSumBelow(sqrt, log1p, scores, window);
    WeightedSum(window, ResidualMass, ResidualWeight(w));
    WeightedSum(window, AllEvents, w("event_discordance"));
    WeightedSum(window, BoundEvents, w("bound_violation"));
    WeightedSum(window, ResponseEvents, w("response_violation"));
    WeightedSum(window, StateEvents, w("state_violation"));
  }

  lemma SupportSumBelow(sqrt: real -> real, log1p: real -> real, scores: Scores, window: seq<Param>)
    requires RootLike(sqrt) && NonNegativeWeights(WeightOf(log1p, scores))
    ensures var w := WeightOf(log1p, scores);
            SumOver(Mapped(window), Support(sqrt, log1p, scores, window))
            <= SumOver(Mapped(window), Weighted(window, ResidualMass, ResidualWeight(w)))
               + SumOver(Mapped(window), Weighted(window, AllEvents, w("event_discordance")))
               + SumOver(Mapped(window), Weighted(window, BoundEvents, w("bound_violation")))
               + SumOver(Mapped(window), Weighted(window, ResponseEvents, w("response_violation")))
               + SumOver(Mapped(window), Weighted(window, StateEvents, w("state_violation")))
  {
    hide WeightOf, Weighted, Support, ResidualWeight;
    var w, h := WeightOf(log1p, scores), Support(sqrt, log1p, scores, window);
    var f1 := Weighted(window, ResidualMass, ResidualWeight(w));
    var f2 := Weighted(window, AllEvents, w("event_discordance"));
    var f3 := Weighted(window, BoundEvents, w("bound_violation"));
    var f4 := Weighted(window, ResponseEvents, w("response_violation"));
    var f5 := Weighted(window, StateEvents, w("state_violation"));
    forall p | p in Mapped(window)
      ensures h(p) <= f1(p) + f2(p) + f3(p) + f4(p) + f5(p)
    {
      SupportBelow(sqrt, log1p, scores, window, p);
    }
    SumBelowFive(Mapped(window), h, f1, f2, f3, f4, f5);
  }

  // ---------- The module boost ----------

  type ModuleKey = (Option<string>, string)

  const ModuleOf: Param -> ModuleKey := (p: Param) => (p.subsystem, p.moduleId)

  ghost function Squared(f: Param -> real): Param -> real {
    (p: Param) => Times(f(p), f(p))
  }

  /** The root of the sum of the squared supports of a module. */
  ghost function ModuleSupport(sqrt: real -> real, ps: seq<Param>, f: Param -> real): ModuleKey -> real {
    (key: ModuleKey) => sqrt(SumOver(Group(ps, ModuleOf, key), Squared(f)))
  }

  /** A module's part of the total over all modules of the window. */
  ghost function ModuleShare(
    sqrt: real -> real, ps: seq<Param>, f: Param -> real, modules: seq<ModuleKey>, key: ModuleKey): real {
    ModuleSupport(sqrt, ps, f)(key) / Max(SumOver(modules, ModuleSupport(sqrt, ps, f)), 0.000_000_000_001)
  }

  ghost function Boosted(sqrt: real -> real, ps: seq<Param>, f: Param -> real, modules: seq<ModuleKey>): Param -> real {
    (p: Param) => Times(1.0 + ModuleShare(sqrt, ps, f, modules, ModuleOf(p)), f(p))
  }

  /** `modules` lists the modules of the rows, each once. */
  ghost predicate ListsModules(ps: seq<Param>, modules: seq<ModuleKey>) {
    Distinct(modules) && forall p :: p in ps ==> ModuleOf(p) in modules
  }

  lemma ModuleShareRange(sqrt: real -> real, ps: seq<Param>, f: Param -> real, modules: seq<ModuleKey>, key: ModuleKey)
    requires RootLike(sqrt) && key in modules
    ensures 0.0 <= ModuleShare(sqrt, ps, f, modules, key) <= 1.0
  {
    var g := ModuleSupport(sqrt, ps, f);
    forall k
      ensures g(k) >= 0.0
    {
      forall p
        ensures Squared(f)(p) >= 0.0
      {
        SquarePositive(f(p));
      }
      SumNonNegative(Group(ps, ModuleOf, k), Squared(f));
    }
    SumNonNegative(modules, g);
    QuotientRange(g(key), Max(SumOver(modules, g), 0.000_000_000_001));
  }

  lemma BoostRange(x: real, share: real)
    requires x >= 0.0 && 0.0 <= share <= 1.0
    ensures x <= Times(1.0 + share, x) <= 2.0 * x
  {
    ProductBelow(share, x);
    assert Times(1.0 + share, x) == x + Times(x, share);
    Part(x, x, share);
  }

  /**
   * The boost never lowers a support and at most doubles it; over the window the boosted supports sum to at most
   * twice the supports.
   */
  lemma BoostAtMostDoubles(sqrt: real -> real, ps: seq<Param>, f: Param -> real, modules: seq<ModuleKey>)
    requires RootLike(sqrt) && ListsModules(ps, modules) && forall p :: f(p) >= 0.0
    ensures forall p :: p in ps ==> f(p) <= Boosted(sqrt, ps, f, modules)(p) <= 2.0 * f(p)
    ensures SumOver(ps, f) <= SumOver(ps, Boosted(sqrt, ps, f, modules)) <= 2.0 * SumOver(ps, f)
  {
    hide ListsModules, ModuleOf;
    forall p | p in ps
      ensures f(p) <= Boosted(sqrt, ps, f, modules)(p) <= 2.0 * f(p)
    {
      BoostOfOne(sqrt, ps, f, modules, p);
    }
    hide *;
    SumBetween(ps, f, Boosted(sqrt, ps, f, modules));
  }

  lemma {:induction false} SumBetween(ps: seq<Param>, f: Param -> real, h: Param -> real)
    requires forall p :: p in ps ==> f(p) <= h(p) <= 2.0 * f(p)
    ensures SumOver(ps, f) <= SumOver(ps, h) <= 2.0 * SumOver(ps, f)
  {
    if ps != [] {
      SumBetween(ps[..|ps| - 1], f, h);
    }
  }

  lemma BoostOfOne(sqrt: real -> real, ps: seq<Param>, f: Param -> real, modules: seq<ModuleKey>, p: Param)
    requires RootLike(sqrt) && ListsModules(ps, modules) && p in ps && f(p) >= 0.0
    ensures f(p) <= Boosted(sqrt, ps, f, modules)(p) <= 2.0 * f(p)
  {
    hide ModuleShare, Times;
    ModuleShareRange(sqrt, ps, f, modules, ModuleOf(p));
    BoostRange(f(p), ModuleShare(sqrt, ps, f, modules, ModuleOf(p)));
  }

  /** For all parameters of a window with non-negative channel scores, the boosted supports sum to at most two. */
  lemma BoostedSupportsSumToAtMostTwo(
    sqrt: real -> real, log1p: real -> real, scores: Scores, window: seq<Param>, modules: seq<ModuleKey>)
    requires RootLike(sqrt) && LogLike(log1p) && NonNegative(scores) && ListsModules(Mapped(window), modules)
    ensures SumOver(Mapped(window), Boosted(sqrt, Mapped(window), Support(sqrt, log1p, scores, window), modules)) <= 2.0
  {
    SupportsSumToAtMostOne(sqrt, log1p, scores, window);
    BoostAtMostDoubles(sqrt, Mapped(window), Support(sqrt, log1p, scores, window), modules);
  }

  lemma FactorKeepsOrder(c: real, x: real, y: real)
    requires c > 0.0
    ensures Times(c, x) <= Times(c, y) <==> x <= y
  {
    assert Times(c, y) - Times(c, x) == c * (y - x);
    if x > y {
      assert c * (y - x) < 0.0;
    }
  }

  /** The boost never reorders two parameters of one module. */
  lemma BoostKeepsModuleOrder(
    sqrt: real -> real, ps: seq<Param>, f: Param -> real, modules: seq<ModuleKey>, p: Param, q: Param)
    requires RootLike(sqrt) && ListsModules(ps, modules) && p in ps && q in ps && ModuleOf(p) == ModuleOf(q)
    ensures Boosted(sqrt, ps, f, modules)(p) <= Boosted(sqrt, ps, f, modules)(q) <==> f(p) <= f(q)
  {
    ModuleShareRange(sqrt, ps, f, modules, ModuleOf(p));
    FactorKeepsOrder(1.0 + ModuleShare(sqrt, ps, f, modules, ModuleOf(p)), f(p), f(q));
  }
}
