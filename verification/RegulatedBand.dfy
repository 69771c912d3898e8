/** The regulated generator: pull towards the target, then trim around it inside a control band. */
module RegulatedBand {
  import opened Sums
  import opened LinearAlgebra
  import opened StepInputs
  import opened Generators

  /** The three variables the loop carries from step to step. */
  datatype Loop = Loop(current: real, settled: nat, phase: real)

  function ControlBand(context: Context, target: real): real {
    Max(Get(context.controlBandAbs, 0.05),
        Times(Max(Abs(target), 1.0), Max(Get(context.controlBandFraction, 0.025), 0.0)))
  }

  function TrimAmplitude(context: Context, target: real): real {
    Max(Get(context.trimAbs, 0.02),
        Times(ControlBand(context, target), Max(Get(context.trimFraction, 0.006), 0.0)) * 10.0)
  }

  function RegulatedGain(input: StepInput): (gain: real)
    ensures 0.0 <= gain <= 1.0
  {
    Clip01(Times(Max(input.dt, TINY), Max(Get(input.context.reversionRate, 1.5), TINY)))
  }

  function PhaseAdvance(input: StepInput, pi: real): real {
    2.0 * Times(Times(pi, Max(Get(input.context.trimHz, 0.18), 0.0)), Max(input.dt, TINY))
  }

  function Near(value: real, target: real, band: real): bool {
    Abs(target - value) <= band
  }

  /** One turn of the loop; `sin` and `pi` stand for the library's sine and circle constant. */
  function RegulatedStep(sin: real -> real, pi: real, s: Loop, input: StepInput): Loop {
    var target := TargetOf(input, s.current);
    var pulled := Pull(s.current, target, RegulatedGain(input));
    if !Near(pulled, target, ControlBand(input.context, target)) then Loop(pulled, 0, 0.0)
    else if s.settled == 0 then Loop(target + (pulled - target) * 0.35, 1, s.phase)
    else
      var phase := s.phase + PhaseAdvance(input, pi);
      var trim := Times(TrimAmplitude(input.context, target), sin(phase));
      Loop(target + (pulled - target) * 0.20 + trim, s.settled + 1, phase)
  }

  /** Where the loop stands after the inputs. */
  ghost function After(sin: real -> real, pi: real, start: Loop, inputs: seq<StepInput>): Loop {
    if inputs == [] then start
    else RegulatedStep(sin, pi, After(sin, pi, start, inputs[..|inputs| - 1]), inputs[|inputs| - 1])
  }

  lemma AfterNext(sin: real -> real, pi: real, start: Loop, inputs: seq<StepInput>, k: nat)
    requires k < |inputs|
    ensures After(sin, pi, start, inputs[..k + 1]) ==
            RegulatedStep(sin, pi, After(sin, pi, start, inputs[..k]), inputs[k])
  {
    assert inputs[..k + 1][..k] == inputs[..k];
  }

  /** The first `n` samples are those of the loop, which now stands at `s`. */
  ghost predicate Produced(
    sin: real -> real, pi: real, start: Loop, inputs: seq<StepInput>, n: nat, samples: seq<Sample>, s: Loop)
    requires n <= |inputs|
  {
    && |samples| == n
    && s == After(sin, pi, start, inputs[..n])
    && forall k :: 0 <= k < n ==> Shows(samples[k], After(sin, pi, start, inputs[..k + 1]).current, inputs[k])
  }

  lemma ProducedNone(sin: real -> real, pi: real, start: Loop, inputs: seq<StepInput>)
    ensures Produced(sin, pi, start, inputs, 0, [], start)
  {
  }

  lemma ProducedNext(
    sin: real -> real, pi: real, start: Loop, inputs: seq<StepInput>, n: nat, samples: seq<Sample>, s: Loop)
    requires n < |inputs| && Produced(sin, pi, start, inputs, n, samples, s)
    ensures var next := RegulatedStep(sin, pi, s, inputs[n]);
            Produced(sin, pi, start, inputs, n + 1, samples + [Emit(next.current, inputs[n])], next)
  {
    hide After, RegulatedStep, Emit;
    AfterNext(sin, pi, start, inputs, n);
  }

  method GenerateRegulated(sin: real -> real, pi: real, inputs: seq<StepInput>, initial: Option<real>)
    returns (samples: seq<Sample>)
    ensures |samples| == |inputs|
    ensures forall k :: 0 <= k < |inputs| ==>
              Shows(samples[k], After(sin, pi, Loop(Get(initial, 0.0), 0, 0.0), inputs[..k + 1]).current, inputs[k])
  {
    hide After, LatentTarget, Emit, Clip01, Abs, Min, Max, Times, PhaseAdvance, ControlBand, TrimAmplitude;
    ghost var start := Loop(Get(initial, 0.0), 0, 0.0);
    var current := Get(initial, 0.0);
    var phase, settled: nat := 0.0, 0;
    samples := [];
    ProducedNone(sin, pi, start, inputs);
    for n := 0 to |inputs|
      invariant Produced(sin, pi, start, inputs, n, samples, Loop(current, settled, phase))
    {
      hide Produced;
      ProducedNext(sin, pi, start, inputs, n, samples, Loop(current, settled, phase));
      var input := inputs[n];
      var latent := LatentTarget(input);
      var target := if latent.Some? then latent.value else Get(input.context.targetValue, current);
      var error := target - current;
      var controlBand := ControlBand(input.context, target);
      var trimAmplitude := TrimAmplitude(input.context, target);
      var alpha := Clip01(Times(Max(input.dt, TINY), Max(Get(input.context.reversionRate, 1.5), TINY)));
      current := current + Times(alpha, error);
      if Abs(target - current) <= controlBand {
        settled := settled + 1;
        if settled >= 2 {
          phase := phase + PhaseAdvance(input, pi);
          var trimValue := Times(trimAmplitude, sin(phase));
          current := target + (current - target) * 0.20 + trimValue;
        } else {
          current := target + (current - target) * 0.35;
        }
      } else {
        settled := 0;
        phase := 0.0;
      }
      samples := samples + [Emit(current, input)];
    }
  }

  /** All that is used about the sine: its range, and its value at zero. */
  ghost predicate SineLike(sin: real -> real) {
    sin(0.0) == 0.0 && forall x :: -1.0 <= sin(x) <= 1.0
  }

  /** The trim leaves room for the damped remainder of an error as large as the band. */
  predicate TrimFits(input: StepInput, target: real) {
    var band := ControlBand(input.context, target);
    TrimAmplitude(input.context, target) <= band - Times(1.0 - RegulatedGain(input), band) * 0.20
  }

  lemma TrimIsBounded(amplitude: real, wave: real)
    requires amplitude >= 0.0 && -1.0 <= wave <= 1.0
    ensures -amplitude <= Times(amplitude, wave) <= amplitude
  {
    assert Times(amplitude, 1.0 - wave) >= 0.0 && Times(amplitude, 1.0 + wave) >= 0.0;
    assert Times(amplitude, 1.0 - wave) == amplitude - Times(amplitude, wave);
    assert Times(amplitude, 1.0 + wave) == amplitude + Times(amplitude, wave);
  }

  lemma SettingsAreNonNegative(context: Context, target: real)
    ensures ControlBand(context, target) >= 0.0 && TrimAmplitude(context, target) >= 0.0
  {
    assert Times(Max(Abs(target), 1.0), Max(Get(context.controlBandFraction, 0.025), 0.0)) >= 0.0;
    assert Times(ControlBand(context, target), Max(Get(context.trimFraction, 0.006), 0.0)) >= 0.0;
  }

  /** What the pull leaves of an error no larger than the band. */
  lemma PullInsideBand(current: real, target: real, band: real, gain: real)
    requires Near(current, target, band) && 0.0 <= gain <= 1.0
    ensures Pull(current, target, gain) - target == Times(1.0 - gain, current - target)
    ensures Abs(Pull(current, target, gain) - target) <= Times(1.0 - gain, band) <= band
  {
    var rest, d := 1.0 - gain, current - target;
    assert Times(rest, d) == d - Times(gain, d);
    assert Times(gain, target - current) == -Times(gain, d);
    TimesNonNegative(rest, band - d);
    TimesNonNegative(rest, band + d);
    TimesNonNegative(gain, band);
    TimesAdds(rest, band, d);
    TimesAdds(rest, band, -d);
    assert Times(rest, -d) == -Times(rest, d);
    assert Times(rest, band) == band - Times(gain, band);
  }

  /**
   * A step that starts in the band ends in it when the trim fits, whatever the sine does, and when the sine is at a
   * zero.
   */
  lemma StepKeepsBand(sin: real -> real, pi: real, s: Loop, input: StepInput, target: real)
    requires SineLike(sin) && Aims(input, target)
    requires TrimFits(input, target) || sin(s.phase + PhaseAdvance(input, pi)) == 0.0
    requires Near(s.current, target, ControlBand(input.context, target))
    ensures Near(RegulatedStep(sin, pi, s, input).current, target, ControlBand(input.context, target))
  {
    var context := input.context;
    var wave := sin(s.phase + PhaseAdvance(input, pi));
    NothingTrimmed(TrimAmplitude(context, target), wave);
    hide ControlBand, TrimAmplitude, RegulatedGain, PhaseAdvance, Pull, Times;
    SettingsAreNonNegative(context, target);
    PullInsideBand(s.current, target, ControlBand(context, target), RegulatedGain(input));
    TrimIsBounded(TrimAmplitude(context, target), wave);
  }

  lemma NothingTrimmed(amplitude: real, wave: real)
    ensures wave == 0.0 ==> Times(amplitude, wave) == 0.0
  {
  }

  /**
   * Under a constant target the generator never leaves the control band once inside it, for any wave between -1 and
   * 1.
   */
  lemma {:induction false} RegulatedNeverLeaves(
    sin: real -> real, pi: real, start: Loop, inputs: seq<StepInput>, target: real, band: real,
    entered: nat, k: nat)
    requires SineLike(sin) && AllAim(inputs, target)
    requires forall i :: 0 <= i < |inputs| ==>
               ControlBand(inputs[i].context, target) == band && TrimFits(inputs[i], target)
    requires entered <= k <= |inputs| && Near(After(sin, pi, start, inputs[..entered]).current, target, band)
    ensures Near(After(sin, pi, start, inputs[..k]).current, target, band)
  {
    hide RegulatedStep, After, TrimFits, ControlBand, Aims;
    if entered < k {
      RegulatedNeverLeaves(sin, pi, start, inputs, target, band, entered, k - 1);
      AfterNext(sin, pi, start, inputs, k - 1);
      StepKeepsBand(sin, pi, After(sin, pi, start, inputs[..k - 1]), inputs[k - 1], target);
    }
  }

  /** With the default band and trim settings the trim always fits, for every target, rate and time step. */
  lemma DefaultTrimFits(input: StepInput, target: real)
    requires input.context.controlBandAbs.None? && input.context.controlBandFraction.None?
    requires input.context.trimAbs.None? && input.context.trimFraction.None?
    ensures TrimFits(input, target)
  {
    hide RegulatedGain;
    var band, gain := ControlBand(input.context, target), RegulatedGain(input);
    SettingsAreNonNegative(input.context, target);
    assert Times(band, 0.006) == band * 0.006;
    assert Times(1.0 - gain, band) == band - Times(gain, band) && Times(gain, band) >= 0.0;
  }

  /** The loop after `n` equal inputs. */
  ghost function Steady(sin: real -> real, pi: real, initial: real, input: StepInput, n: nat): Loop {
    if n == 0 then Loop(initial, 0, 0.0) else RegulatedStep(sin, pi, Steady(sin, pi, initial, input, n - 1), input)
  }

  /** For every wave, every stream of equal inputs that is in the band at some step stays in it from there on. */
  ghost predicate BandIsKept(pi: real, input: StepInput, target: real) {
    forall sin: real -> real, initial, n: nat, m: nat ::
      SineLike(sin) && n <= m &&
      Near(Steady(sin, pi, initial, input, n).current, target, ControlBand(input.context, target)) ==>
        Near(Steady(sin, pi, initial, input, m).current, target, ControlBand(input.context, target))
  }

  /** With a trim frequency of zero the phase never moves. */
  lemma {:induction false} PhaseStands(sin: real -> real, pi: real, initial: real, input: StepInput, n: nat)
    requires PhaseAdvance(input, pi) == 0.0
    ensures Steady(sin, pi, initial, input, n).phase == 0.0
  {
    if n > 0 {
      PhaseStands(sin, pi, initial, input, n - 1);
    }
  }

  lemma {:induction false} SteadyKeeps(
    sin: real -> real, pi: real, initial: real, input: StepInput, target: real, n: nat, m: nat)
    requires SineLike(sin) && Aims(input, target) && n <= m
    requires TrimFits(input, target) || PhaseAdvance(input, pi) == 0.0
    requires Near(Steady(sin, pi, initial, input, n).current, target, ControlBand(input.context, target))
    ensures Near(Steady(sin, pi, initial, input, m).current, target, ControlBand(input.context, target))
    decreases m
  {
    hide RegulatedStep, ControlBand, TrimFits, PhaseAdvance, Aims;
    if n < m {
      SteadyKeeps(sin, pi, initial, input, target, n, m - 1);
      if PhaseAdvance(input, pi) == 0.0 {
        PhaseStands(sin, pi, initial, input, m - 1);
      }
      StepKeepsBand(sin, pi, Steady(sin, pi, initial, input, m - 1), input, target);
    }
  }

  /** A wave at its crest everywhere but at zero. */
  function Crest(): real -> real {
    (x: real) => if x == 0.0 then 0.0 else 1.0
  }

  /** How far the trim exceeds what fits. */
  function Excess(input: StepInput, target: real): real {
    var band := ControlBand(input.context, target);
    TrimAmplitude(input.context, target) - (band - Times(1.0 - RegulatedGain(input), band) * 0.20)
  }

  /** One trim at the crest of the wave, written as the room left below the upper edge of the band. */
  lemma CrestStep(pi: real, s: Loop, input: StepInput, target: real)
    requires Aims(input, target) && s.settled > 0 && s.phase >= 0.0 && PhaseAdvance(input, pi) > 0.0
    requires Near(s.current, target, ControlBand(input.context, target))
    ensures var after := RegulatedStep(Crest(), pi, s, input);
            && after.settled == s.settled + 1 && after.phase >= 0.0
            && target + ControlBand(input.context, target) - after.current
               <= target + ControlBand(input.context, target) - s.current - Excess(input, target)
  {
    hide ControlBand, TrimAmplitude, RegulatedGain, PhaseAdvance, Pull, Times;
    var band, gain := ControlBand(input.context, target), RegulatedGain(input);
    PullInsideBand(s.current, target, band, gain);
    var room := target + band - s.current;
    assert Times(1.0 - gain, room) <= room by {
      WeightedAbove(0.0, room, gain);
      UnitTimes(gain, room);
    }
    TimesAdds(1.0 - gain, band, target - s.current);
    UnitTimes(TrimAmplitude(input.context, target), room);
    assert Times(1.0 - gain, target - s.current) == -Times(1.0 - gain, s.current - target) by {
      NegativeTimes(1.0 - gain, s.current - target);
    }
  }

  lemma UnitTimes(x: real, y: real)
    ensures Times(x, 1.0) == x
    ensures Times(1.0 - x, y) == y - Times(x, y)
    ensures Times(x, y - 0.0) == Times(x, y)
  {
  }

  lemma NegativeTimes(x: real, y: real)
    ensures Times(x, -y) == -Times(x, y)
  {
  }

  /** While it stays in the band, a stream that starts on the target loses the excess of the trim at every step. */
  lemma {:induction false} CrestClimbs(pi: real, input: StepInput, target: real, n: nat)
    requires Aims(input, target) && n > 0 && PhaseAdvance(input, pi) > 0.0
    requires forall k: nat :: k < n ==>
               Near(Steady(Crest(), pi, target, input, k).current, target, ControlBand(input.context, target))
    ensures var band := ControlBand(input.context, target);
            var s := Steady(Crest(), pi, target, input, n);
            && s.settled == n && s.phase >= 0.0
            && target + band - s.current <= band - Times((n - 1) as real, Excess(input, target))
  {
    hide ControlBand, Excess, RegulatedStep, Aims, PhaseAdvance;
    if n == 1 {
      FirstStepOnTarget(Crest(), pi, input, target);
      assert Steady(Crest(), pi, target, input, 0) == Loop(target, 0, 0.0);
      ZeroTimes(Excess(input, target));
    } else {
      CrestClimbs(pi, input, target, n - 1);
      CrestStep(pi, Steady(Crest(), pi, target, input, n - 1), input, target);
      NextMultiple(n - 2, Excess(input, target));
    }
  }

  lemma FirstStepOnTarget(sin: real -> real, pi: real, input: StepInput, target: real)
    requires Aims(input, target)
    ensures RegulatedStep(sin, pi, Loop(target, 0, 0.0), input) == Loop(target, 1, 0.0)
  {
    SettingsAreNonNegative(input.context, target);
    hide ControlBand, RegulatedGain;
    assert Pull(target, target, RegulatedGain(input)) == target;
  }

  lemma ZeroTimes(x: real)
    ensures Times(0.0, x) == 0.0
  {
  }

  lemma NextMultiple(n: nat, x: real)
    ensures Times((n + 1) as real, x) == Times(n as real, x) + x
  {
  }

  lemma CrestEscapes(pi: real, input: StepInput, target: real)
    requires Aims(input, target) && !TrimFits(input, target) && PhaseAdvance(input, pi) > 0.0
    ensures !BandIsKept(pi, input, target)
  {
    var band, excess := ControlBand(input.context, target), Excess(input, target);
    assert excess > 0.0;
    SettingsAreNonNegative(input.context, target);
    hide ControlBand, TrimAmplitude, RegulatedGain, RegulatedStep, Excess, PhaseAdvance, Aims, Times;
    var n: nat := (band / excess).Floor + 2;
    Outgrows((n - 1) as real, band, excess);
    assert SineLike(Crest());
    assert Near(Steady(Crest(), pi, target, input, 0).current, target, band);
    if BandIsKept(pi, input, target) {
      CrestClimbs(pi, input, target, n);
    }
  }

  lemma Outgrows(n: real, band: real, excess: real)
    requires excess > 0.0 && n > band / excess
    ensures Times(n, excess) > band
  {
    assert Times(n - band / excess, excess) > 0.0;
    assert Times(band / excess, excess) == band;
  }

  /** A phase advance is never negative, and zero only at a trim frequency of zero. */
  lemma AdvanceIsZeroIff(input: StepInput, pi: real)
    requires pi > 0.0
    ensures PhaseAdvance(input, pi) >= 0.0
    ensures PhaseAdvance(input, pi) == 0.0 <==> Get(input.context.trimHz, 0.18) <= 0.0
  {
    var hz := Max(Get(input.context.trimHz, 0.18), 0.0);
    if hz > 0.0 {
      TimesSameSign(pi, hz);
      TimesSameSign(Times(pi, hz), Max(input.dt, TINY));
    } else {
      assert Times(pi, 0.0) == 0.0;
      ZeroTimes(Max(input.dt, TINY));
    }
  }

  /**
   * For every setting: all waves keep the band on all streams of equal inputs if and only if the trim fits or has no
   * frequency.
   */
  lemma BandIsKeptIff(pi: real, input: StepInput, target: real)
    requires pi > 0.0 && Aims(input, target)
    ensures BandIsKept(pi, input, target) <==> TrimFits(input, target) || Get(input.context.trimHz, 0.18) <= 0.0
  {
    AdvanceIsZeroIff(input, pi);
    if TrimFits(input, target) || PhaseAdvance(input, pi) == 0.0 {
      forall sin: real -> real, initial, n: nat, m: nat |
        SineLike(sin) && n <= m &&
        Near(Steady(sin, pi, initial, input, n).current, target, ControlBand(input.context, target))
        ensures Near(Steady(sin, pi, initial, input, m).current, target, ControlBand(input.context, target))
      {
        SteadyKeeps(sin, pi, initial, input, target, n, m);
      }
    } else {
      CrestEscapes(pi, input, target);
    }
  }
}
