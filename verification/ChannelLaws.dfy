/**
 Which evidence feeds which channel, and which module a boost favours: the laws that tell the localization supports
 apart from any other split of the same total.
 */
module ChannelLaws {
  import opened Sums
  import opened LinearAlgebra
  import opened Localization

  /** The logarithm vanishes at zero only. */
  ghost predicate ProperLog(log1p: real -> real) {
    log1p(0.0) == 0.0 && forall x: real :: x > 0.0 ==> log1p(x) > 0.0
  }

  /** Of the eight channels this one alone has a score. */
  ghost predicate Sole(scores: Scores, channel: string) {
    && channel in CHANNELS && channel in scores && scores[channel] > 0.0
    && forall other :: other in CHANNELS && other != channel && other in scores ==> scores[other] == 0.0
  }

  // ---------- Channel weights ----------

  /** Channel weights are in the proportion of the logarithms of the scores, a missing score being zero. */
  lemma WeightsFollowLogs(log1p: real -> real, scores: Scores, c: string, d: string)
    ensures var x := if c in scores then scores[c] else 0.0;
            var y := if d in scores then scores[d] else 0.0;
            Times(ChannelWeight(log1p, scores, c), log1p(y)) == Times(ChannelWeight(log1p, scores, d), log1p(x))
  {
    var total := MassTotal(log1p, scores);
    var x, y := log1p(ScoreOf(scores, c)), log1p(ScoreOf(scores, d));
    assert Mass(log1p, scores)(c) == x && Mass(log1p, scores)(d) == y;
    hide MassTotal, Times;
    if total > 0.0 {
      QuotientsSwap(x, y, total);
    } else {
      NothingTimes(x);
      NothingTimes(y);
    }
  }

  lemma NothingTimes(x: real)
    ensures Times(0.0, x) == 0.0
  {
  }

  lemma QuotientsSwap(x: real, y: real, d: real)
    requires d > 0.0
    ensures Times(x / d, y) == Times(y / d, x)
  {
  }

  /** A sum over the channels with one summand besides zeros. */
  lemma SumPicks(f: string -> real, channel: string)
    requires channel in CHANNELS && forall other :: other in CHANNELS && other != channel ==> f(other) == 0.0
    ensures SumOver(CHANNELS, f) == f(channel)
  {
    hide SumOver;
    EightChannels(f);
    ChannelsListed();
  }

  lemma ChannelsListed()
    ensures "regime_deviation" in CHANNELS && "reconstruction_error" in CHANNELS && "event_discordance" in CHANNELS
    ensures "bound_violation" in CHANNELS && "accumulation_violation" in CHANNELS && "response_violation" in CHANNELS
    ensures "state_violation" in CHANNELS && "coherence_break" in CHANNELS
  {
    assert forall i :: 0 <= i < |CHANNELS| ==> CHANNELS[i] in CHANNELS;
  }

  lemma MassOf(log1p: real -> real, scores: Scores, channel: string)
    ensures var x := if channel in scores then scores[channel] else 0.0;
            Mass(log1p, scores)(channel) == log1p(x)
  {
    assert Mass(log1p, scores)(channel) == log1p(ScoreOf(scores, channel));
    assert ScoreOf(scores, channel) == if channel in scores then scores[channel] else 0.0;
  }

  lemma SoleMass(log1p: real -> real, scores: Scores, channel: string)
    requires ProperLog(log1p) && Sole(scores, channel)
    ensures MassTotal(log1p, scores) == log1p(scores[channel]) > 0.0
  {
    hide SumOver, Mass, ScoreOf;
    MassOf(log1p, scores, channel);
    forall other | other in CHANNELS && other != channel
      ensures Mass(log1p, scores)(other) == 0.0
    {
      MassOf(log1p, scores, other);
    }
    SumPicks(Mass(log1p, scores), channel);
  }

  /** A channel that alone has a score weighs one, and the others nothing. */
  lemma SoleWeights(log1p: real -> real, scores: Scores, channel: string, other: string)
    requires ProperLog(log1p) && Sole(scores, channel) && other in CHANNELS
    ensures ChannelWeight(log1p, scores, other) == if other == channel then 1.0 else 0.0
  {
    SoleMass(log1p, scores, channel);
    MassOf(log1p, scores, other);
    assert Mass(log1p, scores)(other) == if other == channel then MassTotal(log1p, scores) else 0.0;
    hide MassTotal, Mass, Sole, ScoreOf;
    WholeOrNone(MassTotal(log1p, scores));
  }

  lemma WholeOrNone(d: real)
    requires d > 0.0
    ensures d / d == 1.0 && 0.0 / d == 0.0
  {
  }

  // ---------- A support is a mixture of eight ----------

  /** Scores with one channel alone. */
  function Only(channel: string): Scores {
    map[channel := 1.0]
  }

  lemma OnlyIsSole(channel: string)
    requires channel in CHANNELS
    ensures Sole(Only(channel), channel)
  {
  }

  /** What a channel's weight multiplies. */
  ghost function Stake(sqrt: real -> real, window: seq<Param>, p: Param): string -> real {
    (channel: string) =>
      if channel == "event_discordance" then PerRoot(sqrt, window, AllEvents, p)
      else if channel == "bound_violation" then PerRoot(sqrt, window, BoundEvents, p)
      else if channel == "response_violation" then PerRoot(sqrt, window, ResponseEvents, p)
      else if channel == "state_violation" then PerRoot(sqrt, window, StateEvents, p)
      else if channel == "accumulation_violation"
      then Times(PerRoot(sqrt, window, ResidualMass, p), ClampedMean(p.profile))
      else PerRoot(sqrt, window, ResidualMass, p)
  }

  ghost function Staked(w: string -> real, stake: string -> real): string -> real {
    (channel: string) => Times(w(channel), stake(channel))
  }

  lemma CombineIsSum(
    w: string -> real, stake: string -> real, local: real, mean: real, events: real, bound: real, response: real,
    state: real)
    requires stake("regime_deviation") == stake("coherence_break") == stake("reconstruction_error") == local
    requires stake("event_discordance") == events && stake("bound_violation") == bound
    requires stake("accumulation_violation") == Times(local, mean)
    requires stake("response_violation") == response && stake("state_violation") == state
    ensures Combine(w, local, mean, events, bound, response, state) == SumOver(CHANNELS, Staked(w, stake))
  {
    EightChannels(Staked(w, stake));
    TimesAdds(local, w("regime_deviation"), w("coherence_break"));
    TimesCommutes(local, w("regime_deviation"));
    TimesCommutes(local, w("coherence_break"));
    TimesCommutes(local, w("reconstruction_error"));
    TimesCommutes(events, w("event_discordance"));
    TimesCommutes(bound, w("bound_violation"));
    TimesCommutes(Times(local, mean), w("accumulation_violation"));
    TimesCommutes(response, w("response_violation"));
    TimesCommutes(state, w("state_violation"));
    hide Times, SumOver;
  }

  lemma TimesCommutes(x: real, y: real)
    ensures Times(x, y) == Times(y, x)
  {
  }

  lemma SupportIsStaked(sqrt: real -> real, log1p: real -> real, scores: Scores, window: seq<Param>, p: Param)
    ensures Support(sqrt, log1p, scores, window)(p) ==
            SumOver(CHANNELS, Staked(WeightOf(log1p, scores), Stake(sqrt, window, p)))
  {
    SupportUnfolds(sqrt, log1p, scores, window, p);
    var stake := Stake(sqrt, window, p);
    hide Combine, Times, PerRoot, ClampedMean, Support;
    CombineIsSum(WeightOf(log1p, scores), stake, PerRoot(sqrt, window, ResidualMass, p), ClampedMean(p.profile),
                 PerRoot(sqrt, window, AllEvents, p), PerRoot(sqrt, window, BoundEvents, p),
                 PerRoot(sqrt, window, ResponseEvents, p), PerRoot(sqrt, window, StateEvents, p));
  }

  lemma SoleSupport(
    sqrt: real -> real, log1p: real -> real, scores: Scores, window: seq<Param>, p: Param, channel: string)
    requires ProperLog(log1p) && Sole(scores, channel)
    ensures Support(sqrt, log1p, scores, window)(p) == Stake(sqrt, window, p)(channel)
  {
    var f := Staked(WeightOf(log1p, scores), Stake(sqrt, window, p));
    SupportIsStaked(sqrt, log1p, scores, window, p);
    hide Stake, Support, Combine, ChannelWeight;
    forall other | other in CHANNELS
      ensures f(other) == if other == channel then Stake(sqrt, window, p)(channel) else 0.0
    {
      SoleWeights(log1p, scores, channel, other);
    }
    SumPicks(f, channel);
  }

  /** The supports a channel would give alone, times the channel's weight. */
  ghost function Solo(
    sqrt: real -> real, log1p: real -> real, scores: Scores, window: seq<Param>, p: Param): string -> real {
    (channel: string) =>
      Times(ChannelWeight(log1p, scores, channel), Support(sqrt, log1p, Only(channel), window)(p))
  }

  /** Every support is the mixture, by the channel weights, of the supports the channels would give alone. */
  lemma SupportIsMixture(sqrt: real -> real, log1p: real -> real, scores: Scores, window: seq<Param>, p: Param)
    requires ProperLog(log1p)
    ensures Support(sqrt, log1p, scores, window)(p) == SumOver(CHANNELS, Solo(sqrt, log1p, scores, window, p))
  {
    SupportIsStaked(sqrt, log1p, scores, window, p);
    hide Stake, Support, Combine, ChannelWeight;
    var f, g := Staked(WeightOf(log1p, scores), Stake(sqrt, window, p)), Solo(sqrt, log1p, scores, window, p);
    forall channel | channel in CHANNELS
      ensures f(channel) == g(channel)
    {
      OnlyIsSole(channel);
      SoleSupport(sqrt, log1p, Only(channel), window, p, channel);
    }
    SumCongruent(CHANNELS, f, g);
  }

  // ---------- Who gets support from a channel ----------

  lemma PerRootPositiveIff(sqrt: real -> real, window: seq<Param>, kind: Evidence, p: Param)
    requires RootLike(sqrt)
    ensures PerRoot(sqrt, window, kind, p) >= 0.0
    ensures PerRoot(sqrt, window, kind, p) > 0.0 <==> Amount(kind)(p) > 0.0
  {
    PerRootRange(sqrt, window, kind, p);
    var x, d, r := Amount(kind)(p), Max(SumOver(window, Amount(kind)), 0.000_000_000_001), SizeRoot(sqrt, p);
    assert Max(p.moduleSize, 1.0) >= 1.0 && r >= 1.0;
    QuotientPositiveIff(x, d);
    QuotientPositiveIff(x / d, r);
  }

  lemma QuotientPositiveIff(x: real, d: real)
    requires d > 0.0
    ensures x / d > 0.0 <==> x > 0.0
  {
    var q := x / d;
    assert q * d == x;
  }

  lemma ProductPositiveIff(x: real, y: real)
    requires x >= 0.0 && y >= 0.0
    ensures Times(x, y) >= 0.0
    ensures Times(x, y) > 0.0 <==> x > 0.0 && y > 0.0
  {
    if x > 0.0 && y > 0.0 {
      TimesSameSign(x, y);
    } else {
      assert Times(0.0, y) == 0.0 && Times(x, 0.0) == 0.0;
    }
  }

  ghost predicate SomePositive(profile: seq<Option<real>>) {
    exists i :: 0 <= i < |profile| && profile[i].Some? && profile[i].value > 0.0
  }

  lemma ClampedMeanPositiveIff(profile: seq<Option<real>>)
    ensures 0.0 <= ClampedMean(profile) <= 1.0
    ensures ClampedMean(profile) > 0.0 <==> SomePositive(profile)
  {
    ClampedMeanRange(profile);
    if profile != [] {
      SumNonNegative(profile, Clamp01);
      QuotientPositiveIff(SumOver(profile, Clamp01), |profile| as real);
      if i :| 0 <= i < |profile| && profile[i].Some? && profile[i].value > 0.0 {
        assert Clamp01(profile[i]) > 0.0 && profile[i] in profile;
      } else {
        SumOfZeros(profile, Clamp01);
      }
    }
  }

  /** A residual that is there and not zero. */
  predicate Deviates(p: Param) {
    p.residual.Some? && p.residual.value != 0.0
  }

  /** What the parameter's own evidence decides. */
  lemma EvidencePositiveIff(sqrt: real -> real, window: seq<Param>, p: Param)
    requires RootLike(sqrt)
    ensures PerRoot(sqrt, window, ResidualMass, p) > 0.0 <==> Deviates(p)
    ensures PerRoot(sqrt, window, AllEvents, p) > 0.0 <==> p.events > 0
    ensures PerRoot(sqrt, window, BoundEvents, p) > 0.0 <==> p.boundEvents > 0
    ensures PerRoot(sqrt, window, ResponseEvents, p) > 0.0 <==> p.responseEvents > 0
    ensures PerRoot(sqrt, window, StateEvents, p) > 0.0 <==> p.stateEvents > 0
    ensures Times(PerRoot(sqrt, window, ResidualMass, p), ClampedMean(p.profile)) > 0.0 <==>
            Deviates(p) && SomePositive(p.profile)
  {
    hide PerRoot, SomePositive, ClampedMean, Times;
    PerRootPositiveIff(sqrt, window, ResidualMass, p);
    PerRootPositiveIff(sqrt, window, AllEvents, p);
    PerRootPositiveIff(sqrt, window, BoundEvents, p);
    PerRootPositiveIff(sqrt, window, ResponseEvents, p);
    PerRootPositiveIff(sqrt, window, StateEvents, p);
    ClampedMeanPositiveIff(p.profile);
    ProductPositiveIff(PerRoot(sqrt, window, ResidualMass, p), ClampedMean(p.profile));
  }

  /**
   * For each channel, when it alone has a score: exactly the parameters with the channel's own evidence get support.
   */
  lemma ChannelReachesItsEvidence(
    sqrt: real -> real, log1p: real -> real, scores: Scores, window: seq<Param>, p: Param, channel: string)
    requires RootLike(sqrt) && ProperLog(log1p) && Sole(scores, channel)
    ensures var s := Support(sqrt, log1p, scores, window)(p);
            && (channel == "regime_deviation" ==> (s > 0.0 <==> Deviates(p)))
            && (channel == "coherence_break" ==> (s > 0.0 <==> Deviates(p)))
            && (channel == "reconstruction_error" ==> (s > 0.0 <==> Deviates(p)))
            && (channel == "accumulation_violation" ==> (s > 0.0 <==> Deviates(p) && SomePositive(p.profile)))
            && (channel == "event_discordance" ==> (s > 0.0 <==> p.events > 0))
            && (channel == "bound_violation" ==> (s > 0.0 <==> p.boundEvents > 0))
            && (channel == "response_violation" ==> (s > 0.0 <==> p.responseEvents > 0))
            && (channel == "state_violation" ==> (s > 0.0 <==> p.stateEvents > 0))
  {
    hide Sole, Support, PerRoot, ClampedMean, SomePositive, Deviates, Times;
    EvidencePositiveIff(sqrt, window, p);
    SoleSupport(sqrt, log1p, scores, window, p, channel);
  }

  // ---------- How a channel divides its support ----------

  /** The evidence the channel goes by; the profile enters the accumulation channel besides. */
  ghost predicate GoesBy(channel: string, f: Param -> real) {
    && (channel == "event_discordance" ==> forall p :: f(p) == p.events as real)
    && (channel == "bound_violation" ==> forall p :: f(p) == p.boundEvents as real)
    && (channel == "response_violation" ==> forall p :: f(p) == p.responseEvents as real)
    && (channel == "state_violation" ==> forall p :: f(p) == p.stateEvents as real)
    && (channel == "regime_deviation" || channel == "coherence_break" || channel == "reconstruction_error" ==>
          forall p :: f(p) == if p.residual.None? then 0.0 else Abs(p.residual.value))
    && channel != "accumulation_violation"
  }

  /** A support counted with the root of the size of its module. */
  ghost function Whole(sqrt: real -> real, s: Param -> real): Param -> real {
    (p: Param) => Times(s(p), sqrt(Max(p.moduleSize, 1.0)))
  }

  lemma QuotientTimes(x: real, d: real)
    requires d != 0.0
    ensures Times(x / d, d) == x
  {
  }

  /** The kind of evidence behind a channel. */
  ghost function KindOf(channel: string): Evidence {
    if channel == "event_discordance" then AllEvents
    else if channel == "bound_violation" then BoundEvents
    else if channel == "response_violation" then ResponseEvents
    else if channel == "state_violation" then StateEvents
    else ResidualMass
  }

  lemma KindGoesBy(channel: string, f: Param -> real, p: Param)
    requires channel in CHANNELS && GoesBy(channel, f)
    ensures Amount(KindOf(channel))(p) == f(p)
  {
  }

  lemma WholeIsShare(
    sqrt: real -> real, log1p: real -> real, scores: Scores, window: seq<Param>, p: Param, channel: string,
    f: Param -> real)
    requires RootLike(sqrt) && ProperLog(log1p) && Sole(scores, channel) && GoesBy(channel, f)
    ensures Whole(sqrt, Support(sqrt, log1p, scores, window))(p) ==
            f(p) / Max(SumOver(window, f), 0.000_000_000_001)
  {
    SoleSupport(sqrt, log1p, scores, window, p, channel);
    var kind := KindOf(channel);
    assert Stake(sqrt, window, p)(channel) == PerRoot(sqrt, window, kind, p);
    forall q | q in window
      ensures Amount(kind)(q) == f(q)
    {
      KindGoesBy(channel, f, q);
    }
    KindGoesBy(channel, f, p);
    hide Sole, Support, GoesBy, KindOf, Stake, Times;
    SumCongruent(window, Amount(kind), f);
    assert Max(p.moduleSize, 1.0) >= 1.0;
    QuotientTimes(Share(window, kind)(p), SizeRoot(sqrt, p));
  }

  /**
   * When one channel alone has a score, the supports, each counted with the root of its module's size, stand in the
   * proportion of the channel's evidence, and add up to one wherever there is any.
   */
  lemma ChannelDividesByEvidence(
    sqrt: real -> real, log1p: real -> real, scores: Scores, window: seq<Param>, channel: string, f: Param -> real)
    requires RootLike(sqrt) && ProperLog(log1p) && Sole(scores, channel) && GoesBy(channel, f)
    ensures var whole := Whole(sqrt, Support(sqrt, log1p, scores, window));
            && (forall p, q :: Times(whole(p), f(q)) == Times(whole(q), f(p)))
            && (SumOver(window, f) >= 0.000_000_000_001 ==> SumOver(window, whole) == 1.0)
  {
    hide Sole, Support, GoesBy, Whole, Times;
    var whole, d := Whole(sqrt, Support(sqrt, log1p, scores, window)), Max(SumOver(window, f), 0.000_000_000_001);
    forall p
      ensures whole(p) == f(p) / d
    {
      WholeIsShare(sqrt, log1p, scores, window, p, channel, f);
    }
    forall p, q
      ensures Times(whole(p), f(q)) == Times(whole(q), f(p))
    {
      QuotientsSwap(f(p), f(q), d);
    }
    SumDivided(window, d, f, whole);
  }

  /** The accumulation channel gives what a residual channel gives, times the mean of the clamped profile. */
  lemma AccumulationIsProfiled(
    sqrt: real -> real, log1p: real -> real, scores: Scores, scores': Scores, window: seq<Param>, p: Param)
    requires ProperLog(log1p) && Sole(scores, "accumulation_violation") && Sole(scores', "regime_deviation")
    ensures Support(sqrt, log1p, scores, window)(p) ==
            Times(Support(sqrt, log1p, scores', window)(p), ClampedMean(p.profile))
  {
    hide Sole, Support, PerRoot, ClampedMean, Times;
    SoleSupport(sqrt, log1p, scores, window, p, "accumulation_violation");
    SoleSupport(sqrt, log1p, scores', window, p, "regime_deviation");
  }

  // ---------- The module boost ----------

  /** The root of the sum of the squared supports of the rows of the parameter's module. */
  ghost function RootOfSquares(sqrt: real -> real, ps: seq<Param>, f: Param -> real, p: Param): real {
    sqrt(SumOver(Group(ps, ModuleOf, (p.subsystem, p.moduleId)), (q: Param) => Times(f(q), f(q))))
  }

  lemma RootIsModuleSupport(sqrt: real -> real, ps: seq<Param>, f: Param -> real, p: Param)
    ensures RootOfSquares(sqrt, ps, f, p) == ModuleSupport(sqrt, ps, f)(ModuleOf(p))
  {
    var group := Group(ps, ModuleOf, (p.subsystem, p.moduleId));
    SumCongruent(group, (q: Param) => Times(f(q), f(q)), Squared(f));
  }

  /** What the boost adds to a support. */
  lemma BoostAdds(sqrt: real -> real, ps: seq<Param>, f: Param -> real, modules: seq<ModuleKey>, p: Param)
    ensures Boosted(sqrt, ps, f, modules)(p) - f(p) == Times(ModuleShare(sqrt, ps, f, modules, ModuleOf(p)), f(p))
  {
    var share := ModuleShare(sqrt, ps, f, modules, ModuleOf(p));
    hide ModuleShare;
    assert Times(1.0 + share, f(p)) == f(p) + Times(share, f(p));
  }

  lemma Proportions(x: real, y: real, a: real, b: real, d: real)
    requires d > 0.0
    ensures Times(Times(x / d, a), Times(b, y)) == Times(Times(y / d, b), Times(a, x))
  {
    QuotientsSwap(x, y, d);
    var u, v := x / d, y / d;
    assert Times(Times(u, a), Times(b, y)) == Times(Times(a, b), Times(u, y));
    assert Times(Times(v, b), Times(a, x)) == Times(Times(a, b), Times(v, x));
  }

  /**
   * What the boost adds to two supports stands in the proportion of the supports times the roots of the sums of
   * squares of their modules.
   */
  lemma BoostFollowsModules(
    sqrt: real -> real, ps: seq<Param>, f: Param -> real, modules: seq<ModuleKey>, p: Param, q: Param)
    ensures var g := Boosted(sqrt, ps, f, modules);
            Times(g(p) - f(p), Times(f(q), RootOfSquares(sqrt, ps, f, q))) ==
            Times(g(q) - f(q), Times(f(p), RootOfSquares(sqrt, ps, f, p)))
  {
    BoostAdds(sqrt, ps, f, modules, p);
    BoostAdds(sqrt, ps, f, modules, q);
    RootIsModuleSupport(sqrt, ps, f, p);
    RootIsModuleSupport(sqrt, ps, f, q);
    var d := Max(SumOver(modules, ModuleSupport(sqrt, ps, f)), 0.000_000_000_001);
    hide Boosted, RootOfSquares, ModuleSupport, Times, SumOver;
    Proportions(ModuleSupport(sqrt, ps, f)(ModuleOf(p)), ModuleSupport(sqrt, ps, f)(ModuleOf(q)), f(p), f(q), d);
  }

  /** Of two positive supports, the one whose module has the larger root is multiplied by more. */
  lemma BoostFavoursStrongModules(
    sqrt: real -> real, ps: seq<Param>, f: Param -> real, modules: seq<ModuleKey>, p: Param, q: Param)
    requires f(p) > 0.0 && f(q) > 0.0
    ensures var g := Boosted(sqrt, ps, f, modules);
            g(p) / f(p) >= g(q) / f(q) <==> RootOfSquares(sqrt, ps, f, p) >= RootOfSquares(sqrt, ps, f, q)
  {
    FactorIs(sqrt, ps, f, modules, p);
    FactorIs(sqrt, ps, f, modules, q);
    RootIsModuleSupport(sqrt, ps, f, p);
    RootIsModuleSupport(sqrt, ps, f, q);
    var d := Max(SumOver(modules, ModuleSupport(sqrt, ps, f)), 0.000_000_000_001);
    hide Boosted, RootOfSquares, ModuleSupport, Times, SumOver;
    QuotientOrder(ModuleSupport(sqrt, ps, f)(ModuleOf(p)), ModuleSupport(sqrt, ps, f)(ModuleOf(q)), d);
  }

  lemma QuotientOrder(x: real, y: real, d: real)
    requires d > 0.0
    ensures x / d >= y / d <==> x >= y
  {
    var u, v := x / d, y / d;
    assert u * d == x && v * d == y && (u - v) * d == x - y;
    if u >= v {
      assert (u - v) * d >= 0.0;
    } else {
      assert (v - u) * d > 0.0;
    }
  }

  lemma FactorIs(sqrt: real -> real, ps: seq<Param>, f: Param -> real, modules: seq<ModuleKey>, p: Param)
    requires f(p) > 0.0
    ensures Boosted(sqrt, ps, f, modules)(p) / f(p) == 1.0 + ModuleShare(sqrt, ps, f, modules, ModuleOf(p))
  {
    var factor := 1.0 + ModuleShare(sqrt, ps, f, modules, ModuleOf(p));
    assert Boosted(sqrt, ps, f, modules)(p) == Times(factor, f(p));
    hide Boosted, ModuleShare;
    assert Times(factor, f(p)) / f(p) == factor;
  }

  /** What the factor of a parameter is above one. */
  ghost function Bonus(g: Param -> real, f: Param -> real): Param -> real {
    (p: Param) => if f(p) == 0.0 then 0.0 else g(p) / f(p) - 1.0
  }

  /** Over one parameter of each module, what the boost factors are above one adds up to one. */
  lemma BoostsAddUpToOne(
    sqrt: real -> real, ps: seq<Param>, f: Param -> real, modules: seq<ModuleKey>, reps: seq<Param>)
    requires |reps| == |modules| && forall k :: 0 <= k < |reps| ==> ModuleOf(reps[k]) == modules[k] && f(reps[k]) > 0.0
    requires SumOver(reps, (p: Param) => RootOfSquares(sqrt, ps, f, p)) >= 0.000_000_000_001
    ensures SumOver(reps, Bonus(Boosted(sqrt, ps, f, modules), f)) == 1.0
  {
    var g, m := Boosted(sqrt, ps, f, modules), ModuleSupport(sqrt, ps, f);
    var roots := (p: Param) => RootOfSquares(sqrt, ps, f, p);
    forall k | 0 <= k < |reps|
      ensures roots(reps[k]) == m(modules[k])
    {
      RootIsModuleSupport(sqrt, ps, f, reps[k]);
    }
    SumMapped(reps, modules, roots, m);
    var d := Max(SumOver(modules, m), 0.000_000_000_001);
    hide Boosted, RootOfSquares, ModuleSupport, SumOver;
    forall p | p in reps
      ensures Bonus(g, f)(p) == roots(p) / d
    {
      FactorIs(sqrt, ps, f, modules, p);
      RootIsModuleSupport(sqrt, ps, f, p);
    }
    SumDivided(reps, d, roots, Bonus(g, f));
    SelfQuotient(d);
  }

  lemma SelfQuotient(d: real)
    requires d > 0.0
    ensures d / d == 1.0
  {
  }
}
