/**
 How fast the generators approach their targets, in terms of the configured times and rates: bounds over any stream,
 and the closed form of a regulated stream around its target.
 */
module GeneratorRates {
  import opened Sums
  import opened LinearAlgebra
  import opened StepInputs
  import opened Generators
  import opened RegulatedBand

  // ---------- Products and sums of gains ----------

  /** The value, read as a part of one. */
  function PartOfOne(x: real): (part: real)
    ensures 0.0 <= part <= 1.0
  {
    if x < 0.0 then 0.0 else if x > 1.0 then 1.0 else x
  }

  lemma ClipIsPart(x: real)
    ensures Clip01(x) == PartOfOne(x)
  {
  }

  // ---------- The inertial generator ----------

  /** How much of a time constant the step takes: two seconds by default, and never less than a millionth. */
  ghost function InertialPart(): StepInput -> real {
    (input: StepInput) =>
      var constant := if input.context.timeConstant.Some? then input.context.timeConstant.value else 2.0;
      PartOfOne(input.dt / if constant > 0.000_001 then constant else 0.000_001)
  }

  lemma InertialGainIsPart(input: StepInput)
    ensures InertialGain(input) == InertialPart()(input)
  {
    ClipIsPart(input.dt / Max(Get(input.context.timeConstant, 2.0), TINY));
  }

  /**
   * Under a constant target, after `S` time constants: the error is at most the initial one over `1 + S`, and at least
   * `1 - S` of it. A step of a whole time constant leaves none.
   */
  lemma {:induction false} InertialTakesTimeConstants(inputs: seq<StepInput>, start: real, target: real)
    requires AllAim(inputs, target)
    ensures var first, left := Abs(target - start), Abs(target - Latest(start, Trace(InertialStep, start, inputs)));
            var parts := SumOver(inputs, InertialPart());
            && parts >= 0.0 && left <= first
            && Times(left, 1.0 + parts) <= first && left >= Times(1.0 - parts, first)
            && ((exists k :: 0 <= k < |inputs| && InertialPart()(inputs[k]) == 1.0) ==> left == 0.0)
  {
    var first := Abs(target - start);
    if inputs == [] {
      NothingYet(first);
    } else {
      var front, last := inputs[..|inputs| - 1], inputs[|inputs| - 1];
      InertialTakesTimeConstants(front, start, target);
      var before := Latest(start, Trace(InertialStep, start, front));
      var g := InertialPart()(last);
      assert Aims(last, target);
      InertialGainIsPart(last);
      PulledError(before, target, g);
      assert Latest(start, Trace(InertialStep, start, inputs)) == Pull(before, target, g);
      hide Trace, Pull, InertialPart, Times;
      MagnitudeOfProduct(1.0 - g, target - before);
      var after := Pull(before, target, g);
      ErrorBounds(Abs(target - before), Abs(target - after), first, g, SumOver(front, InertialPart()));
      NothingLeft(g, Abs(target - before));
      assert forall k :: 0 <= k < |front| ==> inputs[k] == front[k];
    }
  }

  lemma NothingLeft(g: real, before: real)
    ensures g == 1.0 || before == 0.0 ==> Times(1.0 - g, before) == 0.0
  {
  }

  // ---------- The tracking generator ----------

  /** The response rate, 2.1 by default, times the time step, neither less than a millionth. */
  ghost function TrackingPart(): StepInput -> real {
    (input: StepInput) =>
      var rate := if input.context.responseRate.Some? then input.context.responseRate.value else 2.1;
      var dt := if input.dt > 0.000_001 then input.dt else 0.000_001;
      PartOfOne(Times(if rate > 0.000_001 then rate else 0.000_001, dt))
  }

  lemma TrackingGainIsPart(input: StepInput)
    ensures TrackingGain(input) == TrackingPart()(input)
  {
    ClipIsPart(Times(Max(Get(input.context.responseRate, 2.1), TINY), Max(input.dt, TINY)));
  }

  /** The larger of the absolute band, 0.1 by default, and the band fraction, 0.04 by default, of the target. */
  ghost function TrackingBand(context: Context, target: real): real {
    var fixed := if context.errorBandAbs.Some? then context.errorBandAbs.value else 0.1;
    var fraction := if context.errorBandFraction.Some? then context.errorBandFraction.value else 0.04;
    var size := if Abs(target) > 1.0 then Abs(target) else 1.0;
    var relative := if fraction > 0.0 then Times(size, fraction) else 0.0;
    if fixed > relative then fixed else relative
  }

  lemma ErrorBandIs(context: Context, target: real)
    ensures ErrorBand(context, target) == TrackingBand(context, target)
  {
  }

  /**
   * One step with a target inside the bounds: the error loses its part, and what is left is damped, to 0.35 by default,
   * if it is inside the band.
   */
  lemma TrackingErrorStep(current: real, input: StepInput, target: real)
    requires Aims(input, target) && InBounds(target, input.context)
    requires input.context.boundMin.None? && input.context.boundMax.None?
    ensures var left := Times(1.0 - TrackingPart()(input), target - current);
            var damping := PartOfOne(if input.context.damping.Some? then input.context.damping.value else 0.35);
            target - TrackingStep(current, input) ==
            if Abs(left) <= TrackingBand(input.context, target) then Times(damping, left) else left
  {
    var g := TrackingPart()(input);
    TrackingGainIsPart(input);
    ErrorBandIs(input.context, target);
    ClipIsPart(Get(input.context.damping, 0.35));
    PulledError(current, target, g);
    var pulled, damping := Pull(current, target, g), Clip01(Get(input.context.damping, 0.35));
    hide Pull, ErrorBand, TrackingBand, TrackingPart, Clip01;
    assert Times(pulled - target, damping) == -Times(damping, target - pulled);
  }

  /** No step moves the value further from the target than the part it keeps, whatever the bounds do. */
  lemma TrackingLosesPart(current: real, input: StepInput, target: real)
    requires Aims(input, target) && InBounds(target, input.context)
    ensures Abs(target - TrackingStep(current, input)) <= Times(1.0 - TrackingPart()(input), Abs(target - current))
  {
    var g := TrackingPart()(input);
    TrackingGainIsPart(input);
    PulledError(current, target, g);
    MagnitudeOfProduct(1.0 - g, target - current);
    var pulled := Pull(current, target, g);
    hide Pull, ErrorBand, TrackingPart;
    ScalingShrinks(pulled - target, Clip01(Get(input.context.damping, 0.35)));
    assert Abs(target - Damped(pulled, target, input.context)) <= Abs(target - pulled);
  }

  lemma SmallerStill(small: real, large: real, s: real, first: real)
    requires 0.0 <= small <= large && s >= 0.0 && Times(large, 1.0 + s) <= first
    ensures Times(small, 1.0 + s) <= first
  {
    TimesNonNegative(large - small, 1.0 + s);
    assert Times(large - small, 1.0 + s) == Times(large, 1.0 + s) - Times(small, 1.0 + s);
  }

  lemma UpperErrorBound(before: real, kept: real, after: real, first: real, g: real, s: real)
    requires 0.0 <= g <= 1.0 && s >= 0.0 && 0.0 <= before
    requires kept == Times(1.0 - g, before) && 0.0 <= after <= kept && Times(before, 1.0 + s) <= first
    ensures Times(after, 1.0 + (s + g)) <= first
  {
    var lost := Times(g, before);
    TimesNonNegative(g, before);
    TimesNonNegative(lost, s);
    TimesNonNegative(g, lost);
    assert Times(kept, 1.0 + (s + g)) == Times(before, 1.0 + s) - Times(lost, s) - Times(g, lost);
    hide Times;
    SmallerStill(after, kept, s + g, first);
  }

  /** Under a constant target inside the bounds, the error is at most the initial one over one plus the parts. */
  lemma {:induction false} TrackingTakesResponses(inputs: seq<StepInput>, start: real, target: real)
    requires AllAim(inputs, target)
    requires forall k :: 0 <= k < |inputs| ==> InBounds(target, inputs[k].context)
    ensures var parts := SumOver(inputs, TrackingPart());
            && parts >= 0.0
            && Times(Abs(target - Latest(start, Trace(TrackingStep, start, inputs))), 1.0 + parts) <=
               Abs(target - start)
  {
    var first := Abs(target - start);
    if inputs == [] {
      NothingYet(first);
    } else {
      var front, last := inputs[..|inputs| - 1], inputs[|inputs| - 1];
      TrackingTakesResponses(front, start, target);
      var before := Latest(start, Trace(TrackingStep, start, front));
      var after := TrackingStep(before, last);
      assert Latest(start, Trace(TrackingStep, start, inputs)) == after;
      TrackingLosesPart(before, last, target);
      var g := TrackingPart()(last);
      hide Trace, TrackingStep, TrackingPart, Times;
      UpperErrorBound(Abs(target - before), Times(1.0 - g, Abs(target - before)), Abs(target - after), first, g,
        SumOver(front, TrackingPart()));
    }
  }

  // ---------- The regulated generator ----------

  /** The reversion rate, 1.5 by default, times the time step, neither less than a millionth. */
  ghost function RegulatedPart(input: StepInput): real {
    var rate := if input.context.reversionRate.Some? then input.context.reversionRate.value else 1.5;
    var dt := if input.dt > 0.000_001 then input.dt else 0.000_001;
    PartOfOne(Times(dt, if rate > 0.000_001 then rate else 0.000_001))
  }

  lemma RegulatedGainIsPart(input: StepInput)
    ensures RegulatedGain(input) == RegulatedPart(input)
  {
    ClipIsPart(Times(Max(input.dt, TINY), Max(Get(input.context.reversionRate, 1.5), TINY)));
  }

  /** The larger of the absolute band, 0.05 by default, and the band fraction, 0.025 by default, of the target. */
  ghost function RegulatedBandOf(context: Context, target: real): real {
    var fixed := if context.controlBandAbs.Some? then context.controlBandAbs.value else 0.05;
    var fraction := if context.controlBandFraction.Some? then context.controlBandFraction.value else 0.025;
    var size := if Abs(target) > 1.0 then Abs(target) else 1.0;
    var relative := if fraction > 0.0 then Times(size, fraction) else 0.0;
    if fixed > relative then fixed else relative
  }

  lemma ControlBandIs(context: Context, target: real)
    ensures ControlBand(context, target) == RegulatedBandOf(context, target)
  {
  }

  /** The larger of the fixed trim, 0.02 by default, and ten times the trim fraction of the band, 0.006 by default. */
  ghost function Amplitude(context: Context, target: real): real {
    var fixed := if context.trimAbs.Some? then context.trimAbs.value else 0.02;
    var fraction := if context.trimFraction.Some? then context.trimFraction.value else 0.006;
    var relative := if fraction > 0.0 then 10.0 * Times(RegulatedBandOf(context, target), fraction) else 0.0;
    if fixed > relative then fixed else relative
  }

  lemma TrimAmplitudeIs(context: Context, target: real)
    ensures TrimAmplitude(context, target) == Amplitude(context, target)
  {
    ControlBandIs(context, target);
    hide ControlBand, RegulatedBandOf;
  }

  /** Twice `pi` times the trim frequency, 0.18 by default and never negative, times the time step. */
  ghost function Turn(input: StepInput, pi: real): real {
    var frequency := if input.context.trimHz.Some? then input.context.trimHz.value else 0.18;
    if frequency > 0.0 then 2.0 * Times(Times(pi, frequency), if input.dt > 0.000_001 then input.dt else 0.000_001)
    else 0.0
  }

  lemma PhaseAdvanceIs(input: StepInput, pi: real)
    ensures PhaseAdvance(input, pi) == Turn(input, pi)
  {
    if Get(input.context.trimHz, 0.18) <= 0.0 {
      assert Times(pi, 0.0) == 0.0 && Times(0.0, Max(input.dt, TINY)) == 0.0;
    }
  }

  /** The wave sampled once a turn, each sample fading by `q` with every later one. */
  ghost function Faded(sin: real -> real, q: real, turn: real, n: nat): real {
    if n == 0 then 0.0 else Times(q, Faded(sin, q, turn, n - 1)) + sin(Times(n as real, turn))
  }

  ghost function Power(q: real, n: nat): real {
    if n == 0 then 1.0 else Times(q, Power(q, n - 1))
  }

  /** What of a deviation `e` is left after one settling and `n` trims, and the trims. */
  ghost function Settled(sin: real -> real, input: StepInput, target: real, pi: real, e: real, n: nat): real {
    var kept := 1.0 - RegulatedPart(input);
    Times(Power(0.2 * kept, n), 0.35 * Times(kept, e))
    + Times(Amplitude(input.context, target), Faded(sin, 0.2 * kept, Turn(input, pi), n))
  }

  lemma SettledNext(sin: real -> real, input: StepInput, target: real, pi: real, e: real, n: nat)
    ensures Settled(sin, input, target, pi, e, n + 1) ==
            0.2 * Times(1.0 - RegulatedPart(input), Settled(sin, input, target, pi, e, n))
            + Times(Amplitude(input.context, target), sin(Times((n + 1) as real, Turn(input, pi))))
  {
    var kept, first := 1.0 - RegulatedPart(input), 0.35 * Times(1.0 - RegulatedPart(input), e);
    var q, a, x, y := 0.2 * kept, Amplitude(input.context, target), Power(0.2 * kept, n),
      Faded(sin, 0.2 * kept, Turn(input, pi), n);
    var w := sin(Times((n + 1) as real, Turn(input, pi)));
    hide RegulatedPart, Amplitude, Turn;
    assert Power(q, n + 1) == Times(q, x) && Faded(sin, q, Turn(input, pi), n + 1) == Times(q, y) + w;
    FactorsOut(kept, q, x, first, a, y, w);
  }

  lemma FactorsOut(kept: real, q: real, x: real, first: real, a: real, y: real, w: real)
    requires q == 0.2 * kept
    ensures Times(Times(q, x), first) + Times(a, Times(q, y) + w) ==
            0.2 * Times(kept, Times(x, first) + Times(a, y)) + Times(a, w)
  {
    TimesAdds(a, Times(q, y), w);
    assert Times(Times(q, x), first) == 0.2 * Times(kept, Times(x, first));
    assert Times(a, Times(q, y)) == 0.2 * Times(kept, Times(a, y));
    TimesAdds(kept, Times(x, first), Times(a, y));
  }

  /** One step from inside the band. */
  lemma StepInsideBand(sin: real -> real, pi: real, s: Loop, input: StepInput, target: real)
    requires Aims(input, target) && Near(s.current, target, ControlBand(input.context, target))
    ensures var next, left := RegulatedStep(sin, pi, s, input), Times(1.0 - RegulatedPart(input), s.current - target);
            var phase := s.phase + Turn(input, pi);
            next == if s.settled == 0 then Loop(target + 0.35 * left, 1, s.phase)
              else Loop(target + 0.2 * left + Times(Amplitude(input.context, target), sin(phase)), s.settled + 1, phase)
  {
    RegulatedGainIsPart(input);
    PhaseAdvanceIs(input, pi);
    TrimAmplitudeIs(input.context, target);
    PullInsideBand(s.current, target, ControlBand(input.context, target), RegulatedGain(input));
    hide ControlBand, TrimAmplitude, Amplitude, RegulatedGain, RegulatedPart, PhaseAdvance, Turn, Pull, Times;
    assert TargetOf(input, s.current) == target;
  }

  lemma PhaseAdds(n: nat, turn: real)
    ensures Times(n as real, turn) + turn == Times((n + 1) as real, turn)
  {
  }

  /**
   * A regulated stream of equal inputs that starts inside its band, with a trim that fits: after one settling step and
   * `n` trims, its deviation is the settled closed form, for every wave.
   */
  lemma {:induction false} RegulatedFollowsWave(
    sin: real -> real, pi: real, initial: real, input: StepInput, target: real, n: nat)
    requires SineLike(sin) && Aims(input, target) && TrimFits(input, target)
    requires Abs(target - initial) <= RegulatedBandOf(input.context, target)
    ensures Steady(sin, pi, initial, input, n + 1) ==
            Loop(target + Settled(sin, input, target, pi, initial - target, n), n + 1,
              Times(n as real, Turn(input, pi)))
  {
    var before := Steady(sin, pi, initial, input, n);
    ControlBandIs(input.context, target);
    SteadyUnfolds(sin, pi, initial, input, n);
    hide RegulatedStep, ControlBand, TrimFits, Amplitude, Turn, RegulatedPart, Steady, Settled, Times, RegulatedBandOf;
    SteadyKeeps(sin, pi, initial, input, target, 0, n);
    StepInsideBand(sin, pi, before, input, target);
    if n == 0 {
      NoTrimYet(sin, input, target, pi, initial - target);
    } else {
      RegulatedFollowsWave(sin, pi, initial, input, target, n - 1);
      SettledNext(sin, input, target, pi, initial - target, n - 1);
      PhaseAdds(n - 1, Turn(input, pi));
    }
  }

  lemma SteadyUnfolds(sin: real -> real, pi: real, initial: real, input: StepInput, n: nat)
    ensures Steady(sin, pi, initial, input, 0) == Loop(initial, 0, 0.0)
    ensures Steady(sin, pi, initial, input, n + 1) == RegulatedStep(sin, pi, Steady(sin, pi, initial, input, n), input)
  {
  }

  lemma NoTrimYet(sin: real -> real, input: StepInput, target: real, pi: real, e: real)
    ensures Settled(sin, input, target, pi, e, 0) == 0.35 * Times(1.0 - RegulatedPart(input), e)
    ensures Times(0 as real, Turn(input, pi)) == 0.0
  {
    hide RegulatedPart, Amplitude, Turn;
    assert Power(0.2 * (1.0 - RegulatedPart(input)), 0) == 1.0;
    assert Times(Amplitude(input.context, target), 0.0) == 0.0;
  }
}
