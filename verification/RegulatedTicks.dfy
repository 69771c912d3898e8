/**
 The regulated generator behind the one-tick adapter. Every tick starts unsettled, so chained ticks never trim;
 this says when they nevertheless give the values of one stream.
 */
module RegulatedTicks {
  import opened Sums
  import opened LinearAlgebra
  import opened StepInputs
  import opened Generators
  import opened RegulatedBand

  function PulledValue(current: real, input: StepInput): real {
    Pull(current, TargetOf(input, current), RegulatedGain(input))
  }

  /** The pull ends inside the control band. */
  predicate Settles(current: real, input: StepInput) {
    Near(PulledValue(current, input), TargetOf(input, current), ControlBand(input.context, TargetOf(input, current)))
  }

  /** The clean value of one tick. */
  function TickValue(current: real, input: StepInput): real {
    var target, pulled := TargetOf(input, current), PulledValue(current, input);
    if Settles(current, input) then target + (pulled - target) * 0.35 else pulled
  }

  /** One-step streams of the regulated generator, each started from the clean value before it. */
  method ChainRegulatedTicks(sin: real -> real, pi: real, inputs: seq<StepInput>, initial: Option<real>)
    returns (samples: seq<Sample>)
    ensures Carries(samples, Trace(TickValue, Get(initial, 0.0), inputs), inputs)
  {
    ghost var start := Get(initial, 0.0);
    var state := initial;
    samples := [];
    Generators.ProducedNone(TickValue, start, inputs);
    hide Generators.Produced;
    for k := 0 to |inputs|
      invariant Generators.Produced(TickValue, start, inputs, k, samples, Get(state, 0.0))
    {
      var tick := GenerateRegulated(sin, pi, [inputs[k]], state);
      OneTick(sin, pi, Get(state, 0.0), inputs[k]);
      assert [inputs[k]][..0 + 1] == [inputs[k]];
      assert tick == [tick[0]];
      Generators.ProducedNext(TickValue, start, inputs, k, samples, Get(state, 0.0));
      samples := samples + tick;
      state := Some(tick[0].clean);
    }
    Generators.ProducedAll(TickValue, start, inputs, samples, Get(state, 0.0));
  }

  lemma OneTick(sin: real -> real, pi: real, current: real, input: StepInput)
    ensures After(sin, pi, Loop(current, 0, 0.0), [input]).current == TickValue(current, input)
  {
    assert [input][..0] == [];
    hide ControlBand, RegulatedGain, PhaseAdvance, Pull, TrimAmplitude;
  }

  // ---------- When ticks and stream agree ----------

  /** The loop variables of a stream whose values are those of the ticks. */
  function Shadow(pi: real, s: Loop, input: StepInput): Loop {
    var next := TickValue(s.current, input);
    if !Settles(s.current, input) then Loop(next, 0, 0.0)
    else Loop(next, s.settled + 1, if s.settled == 0 then s.phase else s.phase + PhaseAdvance(input, pi))
  }

  ghost function ShadowAt(pi: real, initial: real, inputs: seq<StepInput>): Loop {
    if inputs == [] then Loop(initial, 0, 0.0)
    else Shadow(pi, ShadowAt(pi, initial, inputs[..|inputs| - 1]), inputs[|inputs| - 1])
  }

  lemma {:induction false} ShadowFollowsTicks(pi: real, initial: real, inputs: seq<StepInput>)
    ensures ShadowAt(pi, initial, inputs).current == Latest(initial, Trace(TickValue, initial, inputs))
  {
    hide TickValue, Settles;
    if inputs != [] {
      ShadowFollowsTicks(pi, initial, inputs[..|inputs| - 1]);
    }
  }

  /** The sample would be trimmed by a stream. */
  predicate Trims(s: Loop, input: StepInput) {
    s.settled > 0 && Settles(s.current, input)
  }

  /** The wave the trim of this sample would use. */
  function TrimPhase(pi: real, s: Loop, input: StepInput): real {
    s.phase + PhaseAdvance(input, pi)
  }

  /** What a trim keeps less of the error than a tick does. */
  function Shortfall(s: Loop, input: StepInput): real {
    (PulledValue(s.current, input) - TargetOf(input, s.current)) * 0.15
  }

  function AmplitudeAt(s: Loop, input: StepInput): real {
    TrimAmplitude(input.context, TargetOf(input, s.current))
  }

  /** A trim that makes up exactly for its stronger damping. */
  predicate TrimMatches(sin: real -> real, pi: real, s: Loop, input: StepInput) {
    Trims(s, input) ==> Times(AmplitudeAt(s, input), sin(TrimPhase(pi, s, input))) == Shortfall(s, input)
  }

  lemma StepMatches(sin: real -> real, pi: real, s: Loop, input: StepInput)
    ensures RegulatedStep(sin, pi, s, input).current == TickValue(s.current, input) <==> TrimMatches(sin, pi, s, input)
    ensures TrimMatches(sin, pi, s, input) ==> RegulatedStep(sin, pi, s, input) == Shadow(pi, s, input)
  {
    hide ControlBand, RegulatedGain, PhaseAdvance, Pull, TrimAmplitude, Times, TargetOf;
  }

  /** Every value of the stream is that of the chained ticks. */
  ghost predicate TicksAgree(sin: real -> real, pi: real, initial: real, inputs: seq<StepInput>) {
    forall k :: 0 <= k < |inputs| ==>
      After(sin, pi, Loop(initial, 0, 0.0), inputs[..k + 1]).current == Trace(TickValue, initial, inputs)[k]
  }

  /** Along the ticks, every trim a stream would make matches. */
  ghost predicate TrimsMatch(sin: real -> real, pi: real, initial: real, inputs: seq<StepInput>) {
    forall k :: 0 <= k < |inputs| ==> TrimMatches(sin, pi, ShadowAt(pi, initial, inputs[..k]), inputs[k])
  }

  lemma ShadowNext(pi: real, initial: real, inputs: seq<StepInput>, k: nat)
    requires k < |inputs|
    ensures ShadowAt(pi, initial, inputs[..k + 1]) == Shadow(pi, ShadowAt(pi, initial, inputs[..k]), inputs[k])
  {
    assert inputs[..k + 1][..k] == inputs[..k];
  }

  /** The tick value at `k` is the tick taken from where the shadow stands. */
  lemma TickAt(pi: real, initial: real, inputs: seq<StepInput>, k: nat)
    requires k < |inputs|
    ensures Trace(TickValue, initial, inputs)[k] == TickValue(ShadowAt(pi, initial, inputs[..k]).current, inputs[k])
  {
    hide TickValue, Shadow;
    TracePrefix(TickValue, initial, inputs, k);
    ShadowFollowsTicks(pi, initial, inputs[..k]);
  }

  lemma {:induction false} MatchingStreamIsShadow(
    sin: real -> real, pi: real, initial: real, inputs: seq<StepInput>, k: nat)
    requires TrimsMatch(sin, pi, initial, inputs) && k <= |inputs|
    ensures After(sin, pi, Loop(initial, 0, 0.0), inputs[..k]) == ShadowAt(pi, initial, inputs[..k])
  {
    hide RegulatedStep, Shadow, TrimMatches, After, ShadowAt;
    if k == 0 {
      NoInputs(sin, pi, initial, inputs[..k]);
    } else {
      MatchingStreamIsShadow(sin, pi, initial, inputs, k - 1);
      AfterNext(sin, pi, Loop(initial, 0, 0.0), inputs, k - 1);
      ShadowNext(pi, initial, inputs, k - 1);
      StepMatches(sin, pi, ShadowAt(pi, initial, inputs[..k - 1]), inputs[k - 1]);
    }
  }

  lemma NoInputs(sin: real -> real, pi: real, initial: real, inputs: seq<StepInput>)
    requires inputs == []
    ensures After(sin, pi, Loop(initial, 0, 0.0), inputs) == ShadowAt(pi, initial, inputs) == Loop(initial, 0, 0.0)
  {
  }

  lemma {:induction false} AgreeingStreamIsShadow(
    sin: real -> real, pi: real, initial: real, inputs: seq<StepInput>, k: nat)
    requires TicksAgree(sin, pi, initial, inputs) && k <= |inputs|
    ensures After(sin, pi, Loop(initial, 0, 0.0), inputs[..k]) == ShadowAt(pi, initial, inputs[..k])
    ensures forall i :: 0 <= i < k ==> TrimMatches(sin, pi, ShadowAt(pi, initial, inputs[..i]), inputs[i])
  {
    hide RegulatedStep, Shadow, TrimMatches, After, ShadowAt, TickValue;
    if k == 0 {
      NoInputs(sin, pi, initial, inputs[..k]);
    } else {
      AgreeingStreamIsShadow(sin, pi, initial, inputs, k - 1);
      AfterNext(sin, pi, Loop(initial, 0, 0.0), inputs, k - 1);
      ShadowNext(pi, initial, inputs, k - 1);
      TickAt(pi, initial, inputs, k - 1);
      var next := k - 1;
      assert After(sin, pi, Loop(initial, 0, 0.0), inputs[..next + 1]).current ==
        Trace(TickValue, initial, inputs)[next];
      StepMatches(sin, pi, ShadowAt(pi, initial, inputs[..k - 1]), inputs[k - 1]);
    }
  }

  /**
   * For every wave, start and input: ticks and stream agree if and only if every trim the stream would make matches.
   */
  lemma TicksAgreeIff(sin: real -> real, pi: real, initial: real, inputs: seq<StepInput>)
    ensures TicksAgree(sin, pi, initial, inputs) <==> TrimsMatch(sin, pi, initial, inputs)
  {
    hide RegulatedStep, Shadow, TrimMatches, After, ShadowAt, TickValue;
    if TicksAgree(sin, pi, initial, inputs) {
      AgreeingStreamIsShadow(sin, pi, initial, inputs, |inputs|);
    }
    if TrimsMatch(sin, pi, initial, inputs) {
      forall k | 0 <= k < |inputs|
        ensures After(sin, pi, Loop(initial, 0, 0.0), inputs[..k + 1]).current == Trace(TickValue, initial, inputs)[k]
      {
        MatchingStreamIsShadow(sin, pi, initial, inputs, k);
        AfterNext(sin, pi, Loop(initial, 0, 0.0), inputs, k);
        TickAt(pi, initial, inputs, k);
        StepMatches(sin, pi, ShadowAt(pi, initial, inputs[..k]), inputs[k]);
      }
    }
  }

  // ---------- Agreement for all waves ----------

  /** A trim that is nothing at all: the pull has reached the target, and the wave is at zero or has no amplitude. */
  predicate TrimVanishes(pi: real, s: Loop, input: StepInput) {
    Trims(s, input) ==> Shortfall(s, input) == 0.0 && (AmplitudeAt(s, input) == 0.0 || TrimPhase(pi, s, input) == 0.0)
  }

  function Flat(): real -> real {
    (x: real) => 0.0
  }

  /** A trim that does not vanish fails to match on the flat wave or on the wave that is one everywhere but at zero. */
  lemma SomeWaveMisses(pi: real, s: Loop, input: StepInput)
    ensures TrimMatches(Flat(), pi, s, input) && TrimMatches(Crest(), pi, s, input) ==> TrimVanishes(pi, s, input)
  {
    hide ControlBand, RegulatedGain, PhaseAdvance, Pull, TrimAmplitude, TargetOf, Settles;
    assert Times(AmplitudeAt(s, input), 0.0) == 0.0;
    assert Times(AmplitudeAt(s, input), 1.0) == AmplitudeAt(s, input);
  }

  lemma VanishingTrimMatches(sin: real -> real, pi: real, s: Loop, input: StepInput)
    requires SineLike(sin) && TrimVanishes(pi, s, input)
    ensures TrimMatches(sin, pi, s, input)
  {
    hide ControlBand, RegulatedGain, PhaseAdvance, Pull, TrimAmplitude, TargetOf, Settles, AmplitudeAt,
      TrimPhase, Shortfall;
    var amplitude, wave := AmplitudeAt(s, input), sin(TrimPhase(pi, s, input));
    assert amplitude == 0.0 || wave == 0.0 ==> Times(amplitude, wave) == 0.0;
  }

  /**
   * For every start and input: ticks and stream agree under all waves if and only if every trim the stream would
   * make vanishes.
   */
  lemma AllWavesAgreeIff(pi: real, initial: real, inputs: seq<StepInput>)
    ensures (forall sin: real -> real :: SineLike(sin) ==> TicksAgree(sin, pi, initial, inputs)) <==>
            forall k :: 0 <= k < |inputs| ==> TrimVanishes(pi, ShadowAt(pi, initial, inputs[..k]), inputs[k])
  {
    hide TrimMatches, TrimVanishes, ShadowAt, TicksAgree;
    if forall sin: real -> real :: SineLike(sin) ==> TicksAgree(sin, pi, initial, inputs) {
      assert SineLike(Flat()) && SineLike(Crest());
      TicksAgreeIff(Flat(), pi, initial, inputs);
      TicksAgreeIff(Crest(), pi, initial, inputs);
      forall k | 0 <= k < |inputs|
        ensures TrimVanishes(pi, ShadowAt(pi, initial, inputs[..k]), inputs[k])
      {
        SomeWaveMisses(pi, ShadowAt(pi, initial, inputs[..k]), inputs[k]);
      }
    }
    if forall k :: 0 <= k < |inputs| ==> TrimVanishes(pi, ShadowAt(pi, initial, inputs[..k]), inputs[k]) {
      forall sin: real -> real | SineLike(sin)
        ensures TicksAgree(sin, pi, initial, inputs)
      {
        forall k | 0 <= k < |inputs|
          ensures TrimMatches(sin, pi, ShadowAt(pi, initial, inputs[..k]), inputs[k])
        {
          VanishingTrimMatches(sin, pi, ShadowAt(pi, initial, inputs[..k]), inputs[k]);
        }
        TicksAgreeIff(sin, pi, initial, inputs);
      }
    }
  }

  /** The clean value the ticks are at before sample `k`. */
  ghost function Before(initial: real, inputs: seq<StepInput>, k: nat): real
    requires k <= |inputs|
  {
    Latest(initial, Trace(TickValue, initial, inputs[..k]))
  }

  /** Two samples in a row settle. */
  ghost predicate SettlesTwice(initial: real, inputs: seq<StepInput>, k: nat)
    requires 0 < k < |inputs|
  {
    Settles(Before(initial, inputs, k - 1), inputs[k - 1]) && Settles(Before(initial, inputs, k), inputs[k])
  }

  /** The shadow trims where two samples in a row settle, and its phase never falls below zero. */
  lemma {:induction false} ShadowSettles(pi: real, initial: real, inputs: seq<StepInput>, k: nat)
    requires k < |inputs| && forall i :: 0 <= i < |inputs| ==> PhaseAdvance(inputs[i], pi) >= 0.0
    ensures var s := ShadowAt(pi, initial, inputs[..k]);
            && s.current == Before(initial, inputs, k) && s.phase >= 0.0
            && (Trims(s, inputs[k]) <==> k > 0 && SettlesTwice(initial, inputs, k))
  {
    hide Settles, TickValue, PhaseAdvance;
    ShadowFollowsTicks(pi, initial, inputs[..k]);
    if k > 0 {
      ShadowSettles(pi, initial, inputs, k - 1);
      ShadowNext(pi, initial, inputs, k - 1);
    }
  }

  /**
   * With a trim of positive amplitude and frequency, agreement under all waves means that no two samples in a row
   * settle.
   */
  lemma TicksAgreeOffTheBand(pi: real, initial: real, inputs: seq<StepInput>)
    requires forall k :: 0 <= k < |inputs| ==>
               && PhaseAdvance(inputs[k], pi) > 0.0
               && TrimAmplitude(inputs[k].context, TargetOf(inputs[k], Before(initial, inputs, k))) > 0.0
    ensures (forall sin: real -> real :: SineLike(sin) ==> TicksAgree(sin, pi, initial, inputs)) <==>
            forall k :: 0 < k < |inputs| ==> !SettlesTwice(initial, inputs, k)
  {
    hide TicksAgree, ShadowAt, Settles, SettlesTwice, Before, Shortfall, TrimAmplitude, PhaseAdvance;
    AllWavesAgreeIff(pi, initial, inputs);
    forall k | 0 <= k < |inputs|
      ensures TrimVanishes(pi, ShadowAt(pi, initial, inputs[..k]), inputs[k]) <==>
              !(k > 0 && SettlesTwice(initial, inputs, k))
    {
      ShadowSettles(pi, initial, inputs, k);
      assert TrimAmplitude(inputs[k].context, TargetOf(inputs[k], Before(initial, inputs, k))) > 0.0;
    }
  }

  /**
   * A failing input for any given wave: on the target, the second step of a stream trims and the second tick does
   * not.
   */
  lemma RegulatedTicksDiffer(sin: real -> real, pi: real, input: StepInput, target: real)
    requires Aims(input, target)
    requires Times(TrimAmplitude(input.context, target), sin(PhaseAdvance(input, pi))) != 0.0
    ensures Trace(TickValue, target, [input, input])[1] == target
    ensures After(sin, pi, Loop(target, 0, 0.0), [input, input]).current ==
            target + Times(TrimAmplitude(input.context, target), sin(PhaseAdvance(input, pi)))
    ensures !TicksAgree(sin, pi, target, [input, input])
  {
    var both := [input, input];
    FirstStepOnTarget(sin, pi, input, target);
    SettingsAreNonNegative(input.context, target);
    assert both[..1] == [input] && both[..2] == both && [input][..0] == [];
    hide ControlBand, TrimAmplitude, RegulatedGain, PhaseAdvance, Times;
    assert Pull(target, target, RegulatedGain(input)) == target by {
      ZeroGap(target, RegulatedGain(input));
    }
    assert TickValue(target, input) == target;
    TraceSingle(TickValue, target, input);
    assert both == [input] + [input];
    TraceAppend(TickValue, target, [input], input);
    assert After(sin, pi, Loop(target, 0, 0.0), [input]) == Loop(target, 1, 0.0);
    var one := 1;
    assert both[..one + 1] == both;
  }

  lemma ZeroGap(target: real, gain: real)
    ensures Pull(target, target, gain) == target
  {
  }
}
