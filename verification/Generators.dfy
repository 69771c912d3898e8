/** The inertial, accumulative and tracking generators, and the one-tick adapter over them. */
module Generators {
  import opened Sums
  import opened LinearAlgebra
  import opened StepInputs

  datatype Family = Inertial | Accumulative | Tracking

  function Pull(current: real, target: real, gain: real): real {
    current + Times(gain, target - current)
  }

  function InertialGain(input: StepInput): real {
    Clip01(input.dt / Max(Get(input.context.timeConstant, 2.0), TINY))
  }

  function InertialStep(current: real, input: StepInput): real {
    Pull(current, TargetOf(input, current), InertialGain(input))
  }

  function RateOf(input: StepInput): real {
    if LatentTarget(input).Some? then LatentTarget(input).value
    else Get(input.context.rateValue, Get(input.context.targetValue, 0.0))
  }

  function AccumulativeStep(current: real, input: StepInput): real {
    current + Times(input.dt, RateOf(input))
  }

  function TrackingGain(input: StepInput): real {
    Clip01(Times(Max(Get(input.context.responseRate, 2.1), TINY), Max(input.dt, TINY)))
  }

  function ErrorBand(context: Context, target: real): real {
    Max(Get(context.errorBandAbs, 0.1),
        Times(Max(Abs(target), 1.0), Max(Get(context.errorBandFraction, 0.04), 0.0)))
  }

  /** Inside the error band the remaining error is damped. */
  function Damped(current: real, target: real, context: Context): real {
    if Abs(target - current) <= ErrorBand(context, target)
    then target + Times(current - target, Clip01(Get(context.damping, 0.35)))
    else current
  }

  /** The lower bound is applied first, so the upper bound wins when the two cross. */
  function Bounded(current: real, context: Context): real {
    var raised := if context.boundMin.Some? then Max(current, context.boundMin.value) else current;
    if context.boundMax.Some? then Min(raised, context.boundMax.value) else raised
  }

  function TrackingStep(current: real, input: StepInput): real {
    var target := TargetOf(input, current);
    Bounded(Damped(Pull(current, target, TrackingGain(input)), target, input.context), input.context)
  }

  ghost function StepOf(family: Family): (real, StepInput) -> real {
    match family
    case Inertial => InertialStep
    case Accumulative => AccumulativeStep
    case Tracking => TrackingStep
  }

  /** The samples carry the clean values of `trace`, each with the noise of its own step added. */
  ghost predicate Carries(samples: seq<Sample>, trace: seq<real>, inputs: seq<StepInput>) {
    && |samples| == |trace| == |inputs|
    && forall k :: 0 <= k < |samples| ==> Shows(samples[k], trace[k], inputs[k])
  }

  /** After `k` inputs the stream has produced these samples and stands at `current`. */
  ghost predicate Produced(
    step: (real, StepInput) -> real, start: real, inputs: seq<StepInput>, k: nat, samples: seq<Sample>, current: real)
    requires k <= |inputs|
  {
    && Carries(samples, Trace(step, start, inputs[..k]), inputs[..k])
    && current == Latest(start, Trace(step, start, inputs[..k]))
  }

  lemma ProducedNone(step: (real, StepInput) -> real, start: real, inputs: seq<StepInput>)
    ensures Produced(step, start, inputs, 0, [], start)
  {
  }

  lemma ProducedNext(
    step: (real, StepInput) -> real, start: real, inputs: seq<StepInput>, k: nat, samples: seq<Sample>, current: real)
    requires k < |inputs| && Produced(step, start, inputs, k, samples, current)
    ensures var next := step(current, inputs[k]);
            Produced(step, start, inputs, k + 1, samples + [Emit(next, inputs[k])], next)
  {
    hide Trace, Emit;
    TraceAppend(step, start, inputs[..k], inputs[k]);
    assert inputs[..k + 1] == inputs[..k] + [inputs[k]];
  }

  lemma ProducedAll(
    step: (real, StepInput) -> real, start: real, inputs: seq<StepInput>, samples: seq<Sample>, current: real)
    requires Produced(step, start, inputs, |inputs|, samples, current)
    ensures Carries(samples, Trace(step, start, inputs), inputs)
  {
    assert inputs[..|inputs|] == inputs;
  }

  method GenerateInertial(inputs: seq<StepInput>, initial: Option<real>) returns (samples: seq<Sample>)
    ensures Carries(samples, Trace(InertialStep, Get(initial, 0.0), inputs), inputs)
  {
    hide Produced, Carries, Trace, LatentTarget, Emit, Clip01, Abs, Min, Times;
    var current := Get(initial, 0.0);
    samples := [];
    ProducedNone(InertialStep, current, inputs);
    for k := 0 to |inputs|
      invariant Produced(InertialStep, Get(initial, 0.0), inputs, k, samples, current)
    {
      ProducedNext(InertialStep, Get(initial, 0.0), inputs, k, samples, current);
      var input := inputs[k];
      var latent := LatentTarget(input);
      var target := if latent.Some? then latent.value else Get(input.context.targetValue, current);
      var timeConstant := Max(Get(input.context.timeConstant, 2.0), TINY);
      var alpha := Clip01(input.dt / timeConstant);
      current := current + Times(alpha, target - current);
      samples := samples + [Emit(current, input)];
    }
    ProducedAll(InertialStep, Get(initial, 0.0), inputs, samples, current);
  }

  method GenerateAccumulative(inputs: seq<StepInput>, initial: Option<real>) returns (samples: seq<Sample>)
    ensures Carries(samples, Trace(AccumulativeStep, Get(initial, 0.0), inputs), inputs)
  {
    hide Produced, Carries, Trace, LatentTarget, Emit, Clip01, Abs, Min, Times;
    var current := Get(initial, 0.0);
    samples := [];
    ProducedNone(AccumulativeStep, current, inputs);
    for k := 0 to |inputs|
      invariant Produced(AccumulativeStep, Get(initial, 0.0), inputs, k, samples, current)
    {
      ProducedNext(AccumulativeStep, Get(initial, 0.0), inputs, k, samples, current);
      var input := inputs[k];
      current := current + Times(input.dt, RateOf(input));
      samples := samples + [Emit(current, input)];
    }
    ProducedAll(AccumulativeStep, Get(initial, 0.0), inputs, samples, current);
  }

  method GenerateTracking(inputs: seq<StepInput>, initial: Option<real>) returns (samples: seq<Sample>)
    ensures Carries(samples, Trace(TrackingStep, Get(initial, 0.0), inputs), inputs)
  {
    hide Produced, Carries, Trace, LatentTarget, Emit, Clip01, Abs, Min, Times;
    var current := Get(initial, 0.0);
    samples := [];
    ProducedNone(TrackingStep, current, inputs);
    for k := 0 to |inputs|
      invariant Produced(TrackingStep, Get(initial, 0.0), inputs, k, samples, current)
    {
      ProducedNext(TrackingStep, Get(initial, 0.0), inputs, k, samples, current);
      var input := inputs[k];
      var latent := LatentTarget(input);
      var target := if latent.Some? then latent.value else Get(input.context.targetValue, current);
      var dt := Max(input.dt, TINY);
      var responseRate := Max(Get(input.context.responseRate, 2.1), TINY);
      var damping := Clip01(Get(input.context.damping, 0.35));
      var errorBand := ErrorBand(input.context, target);
      var alpha := Clip01(Times(responseRate, dt));
      current := current + Times(alpha, target - current);
      if Abs(target - current) <= errorBand {
        current := target + Times(current - target, damping);
      }
      if input.context.boundMin.Some? {
        current := Max(current, input.context.boundMin.value);
      }
      if input.context.boundMax.Some? {
        current := Min(current, input.context.boundMax.value);
      }
      samples := samples + [Emit(current, input)];
    }
    ProducedAll(TrackingStep, Get(initial, 0.0), inputs, samples, current);
  }

  method Generate(family: Family, inputs: seq<StepInput>, initial: Option<real>) returns (samples: seq<Sample>)
    ensures Carries(samples, Trace(StepOf(family), Get(initial, 0.0), inputs), inputs)
  {
    match family
    case Inertial => samples := GenerateInertial(inputs, initial);
    case Accumulative => samples := GenerateAccumulative(inputs, initial);
    case Tracking => samples := GenerateTracking(inputs, initial);
  }

  /** One-step streams, each started from the clean value before it, give the samples of a single stream. */
  method ChainTicks(family: Family, inputs: seq<StepInput>, initial: Option<real>) returns (samples: seq<Sample>)
    ensures Carries(samples, Trace(StepOf(family), Get(initial, 0.0), inputs), inputs)
  {
    ghost var step, start := StepOf(family), Get(initial, 0.0);
    var state := initial;
    samples := [];
    hide StepOf, Produced;
    ProducedNone(step, start, inputs);
    for k := 0 to |inputs|
      invariant Produced(step, start, inputs, k, samples, Get(state, 0.0))
    {
      var tick := Generate(family, [inputs[k]], state);
      TraceSingle(step, Get(state, 0.0), inputs[k]);
      assert tick == [Emit(step(Get(state, 0.0), inputs[k]), inputs[k])];
      ProducedNext(step, start, inputs, k, samples, Get(state, 0.0));
      samples := samples + tick;
      state := Some(tick[0].clean);
    }
    ProducedAll(step, start, inputs, samples, Get(state, 0.0));
  }

  lemma PullStaysBetween(low: real, high: real, current: real, target: real, gain: real)
    requires low <= current <= high && low <= target <= high
    requires 0.0 <= gain <= 1.0
    ensures low <= Pull(current, target, gain) <= high
  {
    WeightedAbove(current - low, target - low, gain);
    WeightedAbove(high - current, high - target, gain);
    assert Times(gain, high - target - (high - current)) == -Times(gain, target - current);
  }

  lemma WeightedAbove(x: real, y: real, gain: real)
    requires x >= 0.0 && y >= 0.0 && 0.0 <= gain <= 1.0
    ensures x + Times(gain, y - x) >= 0.0
  {
    assert Times(1.0 - gain, x) >= 0.0 && Times(gain, y) >= 0.0;
    assert Times(1.0 - gain, x) == x - Times(gain, x);
    assert Times(gain, y - x) == Times(gain, y) - Times(gain, x);
  }

  /** The target the step names, if it names one. */
  function ExplicitTarget(input: StepInput): Option<real> {
    var c := input.context;
    if c.latentTargetName.Some? && c.latentTargetName.value in input.latentState
    then Some(input.latentState[c.latentTargetName.value]) else c.targetValue
  }

  /** Inertial output never leaves an interval holding the start and every target that is named. */
  lemma InertialStaysInHull(inputs: seq<StepInput>, start: real, low: real, high: real)
    requires low <= start <= high
    requires forall k :: 0 <= k < |inputs| && ExplicitTarget(inputs[k]).Some? ==>
               low <= ExplicitTarget(inputs[k]).value <= high
    ensures forall k :: 0 <= k < |inputs| ==> low <= Trace(InertialStep, start, inputs)[k] <= high
  {
    forall k, x | 0 <= k < |inputs| && low <= x <= high
      ensures low <= InertialStep(x, inputs[k]) <= high
    {
      PullStaysBetween(low, high, x, TargetOf(inputs[k], x), InertialGain(inputs[k]));
    }
    TraceKeeps(InertialStep, start, inputs, low, high);
  }

  /** The share of the initial error left after the steps: the product of one minus each gain. */
  ghost function ErrorLeft(inputs: seq<StepInput>): real {
    if inputs == [] then 1.0
    else Times(1.0 - InertialGain(inputs[|inputs| - 1]), ErrorLeft(inputs[..|inputs| - 1]))
  }

  /**
   * Under a constant target the error is exactly that share of the initial error, so it shrinks and never changes
   * sign.
   */
  lemma {:induction false} InertialErrorShrinks(inputs: seq<StepInput>, start: real, target: real)
    requires AllAim(inputs, target)
    ensures 0.0 <= ErrorLeft(inputs) <= 1.0
    ensures target - Latest(start, Trace(InertialStep, start, inputs)) == Times(ErrorLeft(inputs), target - start)
  {
    if inputs != [] {
      var front, last := inputs[..|inputs| - 1], inputs[|inputs| - 1];
      InertialErrorShrinks(front, start, target);
      assert Aims(last, target);
      PullLeaves(Latest(start, Trace(InertialStep, start, front)), target, InertialGain(last),
        ErrorLeft(front), target - start);
    }
  }

  lemma PullLeaves(before: real, target: real, gain: real, left: real, error: real)
    requires 0.0 <= gain <= 1.0 && 0.0 <= left <= 1.0
    requires target - before == Times(left, error)
    ensures 0.0 <= Times(1.0 - gain, left) <= 1.0
    ensures target - Pull(before, target, gain) == Times(Times(1.0 - gain, left), error)
  {
    WeightedAbove(left, 0.0, gain);
    WeightedAbove(0.0, left, gain);
    assert Times(1.0 - gain, left) == left - Times(gain, left);
    assert Times(Times(1.0 - gain, left), error) == Times(left, error) - Times(gain, Times(left, error));
  }

  /** What an accumulative step adds: its rate, or else its target, or else nothing, times the time it takes. */
  ghost function Gathered(): StepInput -> real {
    (input: StepInput) =>
      var c := input.context;
      Times(input.dt,
        if c.latentTargetName.Some? && c.latentTargetName.value in input.latentState
        then input.latentState[c.latentTargetName.value]
        else if c.rateValue.Some? then c.rateValue.value
        else if c.targetValue.Some? then c.targetValue.value
        else 0.0)
  }

  /** Accumulative output is the start plus the integral of the rates so far. */
  lemma {:induction false} AccumulativeIsIntegral(inputs: seq<StepInput>, start: real)
    ensures Latest(start, Trace(AccumulativeStep, start, inputs)) == start + SumOver(inputs, Gathered())
  {
    if inputs != [] {
      AccumulativeIsIntegral(inputs[..|inputs| - 1], start);
    }
  }

  /** The value lies within the bounds, the upper one prevailing where they cross. */
  predicate WithinBounds(value: real, context: Context) {
    && (context.boundMax.Some? ==> value <= context.boundMax.value)
    && (context.boundMin.Some? ==>
          value >= (if context.boundMax.Some? then Min(context.boundMin.value, context.boundMax.value)
            else context.boundMin.value))
  }

  /**
   * The clean value is within its own step's bounds, and of all values there it is the nearest to the damped pull: the
   * bounds move it no further than they must.
   */
  lemma TrackingRespectsBounds(inputs: seq<StepInput>, start: real, k: nat, other: real)
    requires k < |inputs|
    ensures var before := Latest(start, Trace(TrackingStep, start, inputs[..k]));
            var target := TargetOf(inputs[k], before);
            var free := Damped(Pull(before, target, TrackingGain(inputs[k])), target, inputs[k].context);
            var value := Trace(TrackingStep, start, inputs)[k];
            && WithinBounds(value, inputs[k].context)
            && (WithinBounds(other, inputs[k].context) ==> Abs(value - free) <= Abs(other - free))
  {
    TracePrefix(TrackingStep, start, inputs, k);
    hide Trace, Pull, Damped, TrackingGain, TargetOf;
  }

  lemma {:induction false} TracePrefix(step: (real, StepInput) -> real, start: real, inputs: seq<StepInput>, k: nat)
    requires k < |inputs|
    ensures Trace(step, start, inputs)[k] == step(Latest(start, Trace(step, start, inputs[..k])), inputs[k])
    ensures Trace(step, start, inputs)[..k] == Trace(step, start, inputs[..k])
  {
    TraceConcat(step, start, inputs[..k], inputs[k..]);
    assert inputs == inputs[..k] + inputs[k..];
    var after := Latest(start, Trace(step, start, inputs[..k]));
    TraceConcat(step, after, [inputs[k]], inputs[k + 1..]);
    assert inputs[k..] == [inputs[k]] + inputs[k + 1..];
    assert Trace(step, after, [inputs[k]]) == [step(after, inputs[k])] by {
      TraceSingle(step, after, inputs[k]);
    }
  }

  predicate InBounds(target: real, context: Context) {
    && (context.boundMin.Some? ==> context.boundMin.value <= target)
    && (context.boundMax.Some? ==> target <= context.boundMax.value)
  }

  lemma ScalingShrinks(d: real, gain: real)
    requires 0.0 <= gain <= 1.0
    ensures Abs(Times(d, gain)) <= Abs(d)
    ensures Abs(d - Times(gain, d)) <= Abs(d)
  {
    PullStaysBetween(if d < 0.0 then d else 0.0, if d < 0.0 then 0.0 else d, 0.0, d, gain);
  }

  /** No tracking step moves away from a target inside the bounds. */
  lemma TrackingStepApproaches(current: real, input: StepInput, target: real)
    requires Aims(input, target) && InBounds(target, input.context)
    ensures Abs(target - TrackingStep(current, input)) <= Abs(target - current)
  {
    var pulled := Pull(current, target, TrackingGain(input));
    ScalingShrinks(target - current, TrackingGain(input));
    assert Abs(target - pulled) <= Abs(target - current);
    ScalingShrinks(pulled - target, Clip01(Get(input.context.damping, 0.35)));
    assert Abs(target - Damped(pulled, target, input.context)) <= Abs(target - pulled);
  }

  /**
   * With a constant in-bounds target the tracking error never grows, so no band around the target is ever left
   * again.
   */
  lemma {:induction false} TrackingNeverReExits(inputs: seq<StepInput>, start: real, target: real, i: nat, j: nat)
    requires AllAim(inputs, target)
    requires forall k :: 0 <= k < |inputs| ==> InBounds(target, inputs[k].context)
    requires i <= j < |inputs|
    ensures var trace := Trace(TrackingStep, start, inputs);
            Abs(target - trace[j]) <= Abs(target - trace[i]) <= Abs(target - start)
  {
    var trace := Trace(TrackingStep, start, inputs);
    TracePrefix(TrackingStep, start, inputs, j);
    TrackingStepApproaches(Latest(start, Trace(TrackingStep, start, inputs[..j])), inputs[j], target);
    if 0 < j {
      TrackingNeverReExits(inputs, start, target, if i < j then i else j - 1, j - 1);
    }
  }

  // ---------- Errors that lose a part of themselves ----------

  /** An error that loses a part `g` of itself keeps its bounds when `g` is added to the sum of the parts. */
  lemma ErrorBounds(before: real, after: real, first: real, g: real, s: real)
    requires 0.0 <= g <= 1.0 && s >= 0.0 && first >= 0.0
    requires 0.0 <= before <= first && after == Times(1.0 - g, before)
    requires Times(before, 1.0 + s) <= first && before >= Times(1.0 - s, first)
    ensures 0.0 <= after <= before
    ensures Times(after, 1.0 + (s + g)) <= first && after >= Times(1.0 - (s + g), first)
  {
    var lost := Times(g, before);
    TimesNonNegative(g, before);
    TimesNonNegative(1.0 - g, before);
    assert after == before - lost;
    assert Times(after, 1.0 + (s + g)) == Times(before, 1.0 + s) - Times(Times(g, before), s) - Times(g, lost);
    TimesNonNegative(lost, s);
    TimesNonNegative(g, lost);
    assert Times(1.0 - (s + g), first) == Times(1.0 - s, first) - Times(g, first);
    TimesNonNegative(g, first - before);
    assert Times(g, first - before) == Times(g, first) - lost;
  }

  lemma PulledError(current: real, target: real, gain: real)
    ensures target - Pull(current, target, gain) == Times(1.0 - gain, target - current)
  {
    assert Times(1.0 - gain, target - current) == (target - current) - Times(gain, target - current);
  }

  lemma MagnitudeOfProduct(x: real, y: real)
    requires x >= 0.0
    ensures Abs(Times(x, y)) == Times(x, Abs(y))
  {
    if y < 0.0 {
      assert Times(x, y) == -Times(x, -y);
      TimesNonNegative(x, -y);
    } else {
      TimesNonNegative(x, y);
    }
  }

  lemma NothingYet(first: real)
    ensures Times(first, 1.0 + 0.0) <= first && first >= Times(1.0 - 0.0, first)
  {
  }
}
