/** Step inputs, samples and the traces of the generators whose only state is the clean value. */
module StepInputs {
  import opened Sums
  import opened LinearAlgebra

  /** The context entries the generators look at; a missing entry takes the generator's default. */
  datatype Context = Context(
    latentTargetName: Option<string>,
    targetValue: Option<real>,
    rateValue: Option<real>,
    noise: Option<real>,
    timeConstant: Option<real>,
    responseRate: Option<real>,
    damping: Option<real>,
    errorBandFraction: Option<real>,
    errorBandAbs: Option<real>,
    boundMin: Option<real>,
    boundMax: Option<real>,
    reversionRate: Option<real>,
    trimHz: Option<real>,
    trimFraction: Option<real>,
    trimAbs: Option<real>,
    controlBandFraction: Option<real>,
    controlBandAbs: Option<real>)

  datatype StepInput = StepInput(dt: real, latentState: map<string, real>, context: Context)

  datatype Sample = Sample(clean: real, observed: real)

  /** The floor the generators put under time steps, rates and time constants. */
  const TINY := 0.000001

  function Get<T>(entry: Option<T>, otherwise: T): T {
    if entry.Some? then entry.value else otherwise
  }

  function Clip01(x: real): (r: real)
    ensures 0.0 <= r <= 1.0
    ensures r == x <==> 0.0 <= x <= 1.0
    ensures x < 0.0 ==> r == 0.0
    ensures x > 1.0 ==> r == 1.0
  {
    Max(0.0, Min(1.0, x))
  }

  /** The named latent variable, when the step has a value for it. */
  function LatentTarget(input: StepInput): Option<real> {
    if input.context.latentTargetName.Some? && input.context.latentTargetName.value in input.latentState
    then Some(input.latentState[input.context.latentTargetName.value])
    else None
  }

  /** The latent variable wins over the context entry; with neither the current value is its own target. */
  function TargetOf(input: StepInput, current: real): real {
    if LatentTarget(input).Some? then LatentTarget(input).value else Get(input.context.targetValue, current)
  }

  /** The step aims at `target` whatever the current value is. */
  predicate Aims(input: StepInput, target: real) {
    var c := input.context;
    if c.latentTargetName.Some? && c.latentTargetName.value in input.latentState
    then input.latentState[c.latentTargetName.value] == target else c.targetValue == Some(target)
  }

  predicate AllAim(inputs: seq<StepInput>, target: real) {
    forall k :: 0 <= k < |inputs| ==> Aims(inputs[k], target)
  }

  /** The sample shows the clean value, and the same with the step's noise added. */
  predicate Shows(s: Sample, clean: real, input: StepInput) {
    s.clean == clean && s.observed == clean + if input.context.noise.Some? then input.context.noise.value else 0.0
  }

  function Emit(clean: real, input: StepInput): (s: Sample)
    ensures Shows(s, clean, input)
  {
    Sample(clean, clean + Get(input.context.noise, 0.0))
  }

  /** The clean value a stream is at after producing `trace` from `start`. */
  function Latest(start: real, trace: seq<real>): real {
    if trace == [] then start else trace[|trace| - 1]
  }

  /** All clean values of one stream over `inputs`. */
  ghost function Trace(step: (real, StepInput) -> real, start: real, inputs: seq<StepInput>): (trace: seq<real>)
    ensures |trace| == |inputs|
  {
    if inputs == [] then []
    else
      var before := Trace(step, start, inputs[..|inputs| - 1]);
      before + [step(Latest(start, before), inputs[|inputs| - 1])]
  }

  lemma TraceAppend(step: (real, StepInput) -> real, start: real, inputs: seq<StepInput>, input: StepInput)
    ensures Trace(step, start, inputs + [input]) ==
            Trace(step, start, inputs) + [step(Latest(start, Trace(step, start, inputs)), input)]
  {
    assert (inputs + [input])[..|inputs + [input]| - 1] == inputs;
  }

  lemma TraceSingle(step: (real, StepInput) -> real, start: real, input: StepInput)
    ensures Trace(step, start, [input]) == [step(start, input)]
  {
    TraceAppend(step, start, [], input);
    assert [] + [input] == [input];
  }

  /** A stream cut in two is the second part started from where the first one ended. */
  lemma {:induction false} TraceConcat(
    step: (real, StepInput) -> real, start: real, first: seq<StepInput>, second: seq<StepInput>)
    ensures Trace(step, start, first + second) ==
            Trace(step, start, first) + Trace(step, Latest(start, Trace(step, start, first)), second)
  {
    if second == [] {
      assert first + second == first;
    } else {
      var front, last := second[..|second| - 1], second[|second| - 1];
      TraceConcat(step, start, first, front);
      TraceAppend(step, start, first + front, last);
      assert first + second == (first + front) + [last];
    }
  }

  /** An interval that holds the start and that no step leaves holds every clean value. */
  lemma {:induction false} TraceKeeps(
    step: (real, StepInput) -> real, start: real, inputs: seq<StepInput>, low: real, high: real)
    requires low <= start <= high
    requires forall k, x :: 0 <= k < |inputs| && low <= x <= high ==> low <= step(x, inputs[k]) <= high
    ensures forall k :: 0 <= k < |inputs| ==> low <= Trace(step, start, inputs)[k] <= high
  {
    if inputs != [] {
      TraceKeeps(step, start, inputs[..|inputs| - 1], low, high);
    }
  }
}
