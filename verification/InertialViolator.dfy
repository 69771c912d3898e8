/** The inertial violator: lagged, slowed, stuck and ramp-distorted streams. */
module InertialViolator {
  import opened Sums
  import opened LinearAlgebra
  import opened Generators

  datatype Violation =
    | TimingLag(lagSteps: int)
    | IncreasedTimeConstant(slowdownFactor: real)
    | StuckValue
    | RampDistortion(slopeScale: real)
    | Unrecognised

  /** The variables the loop updates; the buffer of observed values is the input read so far. */
  datatype Memory = Memory(slowed: Option<real>, stuck: Option<real>, previous: Option<real>, distorted: Option<real>)

  function Lag(violation: Violation): int
    requires violation.TimingLag?
  {
    if violation.lagSteps < 1 then 1 else violation.lagSteps
  }

  function SlowedValue(slowed: Option<real>, observed: real, factor: real): real {
    if slowed.None? then observed else Pull(slowed.value, observed, 1.0 / Max(factor, 1.0))
  }

  /** What the loop remembers after a sample; a sample whose value is not a number is `None`. */
  function Remember(violation: Violation, m: Memory, observed: Option<real>, apply: bool): Memory {
    var after :=
      if !apply then m
      else match violation
        case IncreasedTimeConstant(factor) =>
          if observed.None? then m
          else m.(slowed := Some(SlowedValue(m.slowed, observed.value, factor)))
        case StuckValue => if m.stuck.None? then m.(stuck := observed) else m
        case RampDistortion(scale) =>
          if observed.None? then m
          else if m.previous.None? || m.distorted.None? then m.(distorted := observed)
          else m.(distorted := Some(m.distorted.value + Times(observed.value - m.previous.value, scale)))
        case _ => m;
    after.(previous := observed)
  }

  ghost function MemoryAt(
    violation: Violation, stuckValue: Option<real>, inputs: seq<Option<real>>, decisions: seq<bool>, n: nat): Memory
    requires n <= |inputs| && |decisions| == |inputs|
  {
    if n == 0 then Memory(None, stuckValue, None, None)
    else Remember(violation, MemoryAt(violation, stuckValue, inputs, decisions, n - 1), inputs[n - 1], decisions[n - 1])
  }

  ghost function OutputAt(
    violation: Violation, stuckValue: Option<real>, inputs: seq<Option<real>>, decisions: seq<bool>,
      i: nat): Option<real>
    requires i < |inputs| && |decisions| == |inputs|
  {
    var after := MemoryAt(violation, stuckValue, inputs, decisions, i + 1);
    if !decisions[i] then inputs[i]
    else match violation
      case TimingLag(_) => if i >= Lag(violation) then inputs[i - Lag(violation)] else inputs[i]
      case IncreasedTimeConstant(_) => if inputs[i].Some? then after.slowed else inputs[i]
      case StuckValue => if after.stuck.Some? then after.stuck else inputs[i]
      case RampDistortion(_) => if inputs[i].Some? then after.distorted else inputs[i]
      case Unrecognised => inputs[i]
  }

  method ViolateStream(violation: Violation, stuckValue: Option<real>, inputs: seq<Option<real>>, decisions: seq<bool>)
    returns (outputs: seq<Option<real>>)
    requires |decisions| == |inputs|
    ensures |outputs| == |inputs|
    ensures forall i :: 0 <= i < |inputs| ==> outputs[i] == OutputAt(violation, stuckValue, inputs, decisions, i)
  {
    var observedBuffer: seq<Option<real>> := [];
    var slowed: Option<real>, stuck, previous: Option<real>, distorted: Option<real> := None, stuckValue, None, None;
    outputs := [];
    for n := 0 to |inputs|
      invariant |outputs| == n && observedBuffer == inputs[..n]
      invariant Memory(slowed, stuck, previous, distorted) == MemoryAt(violation, stuckValue, inputs, decisions, n)
      invariant forall i :: 0 <= i < n ==> outputs[i] == OutputAt(violation, stuckValue, inputs, decisions, i)
    {
      hide Times, Max;
      var observed, apply := inputs[n], decisions[n];
      observedBuffer := observedBuffer + [observed];
      var perturbed := observed;
      if apply && violation.TimingLag? && |observedBuffer| > Lag(violation) {
        perturbed := observedBuffer[|observedBuffer| - (Lag(violation) + 1)];
      } else if apply && violation.IncreasedTimeConstant? && observed.Some? {
        var alpha := 1.0 / Max(violation.slowdownFactor, 1.0);
        slowed := Some(if slowed.None? then observed.value
          else slowed.value + Times(alpha, observed.value - slowed.value));
        perturbed := slowed;
      } else if apply && violation.StuckValue? {
        if stuck.None? {
          stuck := observed;
        }
        perturbed := if stuck.Some? then stuck else observed;
      } else if apply && violation.RampDistortion? && observed.Some? {
        if previous.None? || distorted.None? {
          distorted := observed;
        } else {
          distorted := Some(distorted.value + Times(observed.value - previous.value, violation.slopeScale));
        }
        perturbed := distorted;
      }
      previous := observed;
      outputs := outputs + [perturbed];
    }
  }

  predicate Always(decisions: seq<bool>) {
    forall i :: 0 <= i < |decisions| ==> decisions[i]
  }

  predicate AllNumbers(inputs: seq<Option<real>>) {
    forall i :: 0 <= i < |inputs| ==> inputs[i].Some?
  }

  ghost function Outputs(
    violation: Violation, stuckValue: Option<real>, inputs: seq<Option<real>>, decisions: seq<bool>): seq<Option<real>>
    requires |decisions| == |inputs|
  {
    seq(|inputs|, i requires 0 <= i < |inputs| => OutputAt(violation, stuckValue, inputs, decisions, i))
  }

  /**
   * A stream lagged at every sample is the input's first values as they are, and then the whole input late by the
   * lag.
   */
  lemma LagShifts(violation: Violation, stuckValue: Option<real>, inputs: seq<Option<real>>, decisions: seq<bool>)
    requires violation.TimingLag? && Always(decisions) && |decisions| == |inputs|
    ensures var late := if Lag(violation) <= |inputs| then Lag(violation) else |inputs|;
            && 1 <= Lag(violation)
            && Outputs(violation, stuckValue, inputs, decisions) == inputs[..late] + inputs[..|inputs| - late]
  {
    var late := if Lag(violation) <= |inputs| then Lag(violation) else |inputs|;
    var outputs, expected :=
      Outputs(violation, stuckValue, inputs, decisions), inputs[..late] + inputs[..|inputs| - late];
    forall i | 0 <= i < |inputs|
      ensures outputs[i] == expected[i]
    {
      assert decisions[i];
    }
  }

  lemma RampContinues(m: Memory, observed: real, scale: real)
    requires m.previous.Some? && m.distorted.Some?
    ensures Remember(RampDistortion(scale), m, Some(observed), true) ==
            m.(distorted := Some(m.distorted.value + Times(observed - m.previous.value, scale)),
               previous := Some(observed))
  {
  }

  predicate Distorts(inputs: seq<Option<real>>, decisions: seq<bool>, i: nat)
    requires i < |inputs| && |decisions| == |inputs|
  {
    decisions[i] && inputs[i].Some?
  }

  /**
   * Where the ramp of the first `n` samples starts: at the latest violated number that follows no number, or else at
   * the first violated number.
   */
  function Anchor(inputs: seq<Option<real>>, decisions: seq<bool>, n: nat): (a: Option<nat>)
    requires n <= |inputs| == |decisions|
    ensures a.Some? ==> a.value < n && Distorts(inputs, decisions, a.value)
    ensures a.Some? ==> forall j :: a.value < j < n && Distorts(inputs, decisions, j) ==> inputs[j - 1].Some?
    ensures a.Some? && a.value > 0 && inputs[a.value - 1].Some? ==>
              forall j :: 0 <= j < a.value ==> !Distorts(inputs, decisions, j)
    ensures a.None? ==> forall j :: 0 <= j < n ==> !Distorts(inputs, decisions, j)
  {
    if n == 0 then None
    else
      var i, earlier := n - 1, Anchor(inputs, decisions, n - 1);
      if Distorts(inputs, decisions, i) && (i == 0 || inputs[i - 1].None? || earlier.None?) then Some(i) else earlier
  }

  /** How far the input moves on the violated samples between `a` and `n`. */
  function Climb(inputs: seq<Option<real>>, decisions: seq<bool>, a: nat, n: nat): real
    requires a < n <= |inputs| == |decisions|
  {
    if n == a + 1 then 0.0
    else
      var i := n - 1;
      Climb(inputs, decisions, a, i)
      + if Distorts(inputs, decisions, i) && inputs[i - 1].Some? then inputs[i].value - inputs[i - 1].value else 0.0
  }

  lemma NoClimb(scale: real)
    ensures Times(0.0, scale) == 0.0
  {
  }

  lemma ClimbAdds(x: real, y: real, scale: real)
    ensures Times(x + y, scale) == Times(x, scale) + Times(y, scale)
  {
  }

  lemma RampIdles(m: Memory, observed: Option<real>, apply: bool, scale: real)
    requires !apply || observed.None?
    ensures Remember(RampDistortion(scale), m, observed, apply) == m.(previous := observed)
  {
  }

  lemma RampRestarts(m: Memory, observed: real, scale: real)
    requires m.previous.None? || m.distorted.None?
    ensures Remember(RampDistortion(scale), m, Some(observed), true) ==
            m.(distorted := Some(observed), previous := Some(observed))
  {
  }

  /** What the loop remembers of a ramp, whatever samples are violated and whichever are numbers. */
  lemma {:induction false} RampMemory(
    violation: Violation, stuckValue: Option<real>, inputs: seq<Option<real>>, decisions: seq<bool>, n: nat)
    requires violation.RampDistortion? && n <= |inputs| == |decisions|
    ensures var m, a := MemoryAt(violation, stuckValue, inputs, decisions, n), Anchor(inputs, decisions, n);
            && m.previous == (if n == 0 then None else inputs[n - 1])
            && m.distorted == if a.None? then None
               else Some(inputs[a.value].value + Times(Climb(inputs, decisions, a.value, n), violation.slopeScale))
  {
    hide Remember, Times;
    if n > 0 {
      var i, scale := n - 1, violation.slopeScale;
      var m, a := MemoryAt(violation, stuckValue, inputs, decisions, i), Anchor(inputs, decisions, i);
      RampMemory(violation, stuckValue, inputs, decisions, i);
      NoClimb(scale);
      if !Distorts(inputs, decisions, i) {
        RampIdles(m, inputs[i], decisions[i], scale);
        if a.Some? {
          assert Climb(inputs, decisions, a.value, n) == Climb(inputs, decisions, a.value, i);
        }
      } else if m.previous.None? || a.None? {
        RampRestarts(m, inputs[i].value, scale);
      } else {
        RampContinues(m, inputs[i].value, scale);
        ClimbAdds(Climb(inputs, decisions, a.value, i), inputs[i].value - inputs[i - 1].value, scale);
      }
    }
  }

  /**
   * For any choice of samples, a distorted sample is the value at the anchor plus the scaled climb of the violated
   * samples since.
   */
  lemma RampClimbs(
    violation: Violation, stuckValue: Option<real>, inputs: seq<Option<real>>, decisions: seq<bool>, i: nat)
    requires violation.RampDistortion? && i < |inputs| == |decisions| && Distorts(inputs, decisions, i)
    ensures var a := Anchor(inputs, decisions, i + 1);
            && a.Some? && a.value <= i
            && OutputAt(violation, stuckValue, inputs, decisions, i) ==
               Some(inputs[a.value].value + Times(Climb(inputs, decisions, a.value, i + 1), violation.slopeScale))
  {
    RampMemory(violation, stuckValue, inputs, decisions, i + 1);
  }

  lemma {:induction false} ClimbTelescopes(inputs: seq<Option<real>>, decisions: seq<bool>, n: nat)
    requires Always(decisions) && 0 < n <= |inputs| == |decisions| && AllNumbers(inputs)
    ensures Anchor(inputs, decisions, n) == Some(0)
    ensures Climb(inputs, decisions, 0, n) == inputs[n - 1].value - inputs[0].value
  {
    if n > 1 {
      ClimbTelescopes(inputs, decisions, n - 1);
    } else {
      assert Anchor(inputs, decisions, 0) == None && Distorts(inputs, decisions, 0);
    }
  }

  /** A ramp distorted at every sample telescopes: only the first and the current value matter. */
  lemma RampTelescopes(
    violation: Violation, stuckValue: Option<real>, inputs: seq<Option<real>>, decisions: seq<bool>, i: nat)
    requires violation.RampDistortion? && Always(decisions) && |decisions| == |inputs| && i < |inputs|
    requires AllNumbers(inputs)
    ensures OutputAt(violation, stuckValue, inputs, decisions, i) ==
            Some(inputs[0].value + Times(inputs[i].value - inputs[0].value, violation.slopeScale))
  {
    hide OutputAt, Anchor, Climb, Times;
    RampClimbs(violation, stuckValue, inputs, decisions, i);
    ClimbTelescopes(inputs, decisions, i + 1);
  }

  predicate WithinRange(values: seq<Option<real>>, low: real, high: real) {
    forall i :: 0 <= i < |values| && values[i].Some? ==> low <= values[i].value <= high
  }

  lemma {:induction false} SlowedStaysInRange(
    violation: Violation, stuckValue: Option<real>, inputs: seq<Option<real>>, decisions: seq<bool>,
    low: real, high: real, n: nat)
    requires violation.IncreasedTimeConstant? && |decisions| == |inputs| && n <= |inputs|
    requires WithinRange(inputs, low, high)
    ensures var slowed := MemoryAt(violation, stuckValue, inputs, decisions, n).slowed;
            slowed.Some? ==> low <= slowed.value <= high
  {
    if n > 0 {
      SlowedStaysInRange(violation, stuckValue, inputs, decisions, low, high, n - 1);
      var m := MemoryAt(violation, stuckValue, inputs, decisions, n - 1);
      if m.slowed.Some? && inputs[n - 1].Some? {
        PullStaysBetween(low, high, m.slowed.value, inputs[n - 1].value, 1.0 / Max(violation.slowdownFactor, 1.0));
      }
    }
  }

  /** However the samples to violate are chosen, a slowed stream stays within the range of its input. */
  lemma SlowedOutputStaysInRange(
    violation: Violation, stuckValue: Option<real>, inputs: seq<Option<real>>, decisions: seq<bool>,
    low: real, high: real, i: nat)
    requires violation.IncreasedTimeConstant? && |decisions| == |inputs| && i < |inputs|
    requires WithinRange(inputs, low, high)
    ensures var value := OutputAt(violation, stuckValue, inputs, decisions, i);
            && (value.Some? <==> inputs[i].Some?)
            && (value.Some? ==> low <= value.value <= high)
  {
    SlowedStaysInRange(violation, stuckValue, inputs, decisions, low, high, i + 1);
  }

  // ---------- How slow a slowed stream is ----------

  /** The input holds the value `v` on samples `i` to `j`. */
  predicate Holds(inputs: seq<Option<real>>, i: nat, j: nat, v: real)
    requires i <= j <= |inputs|
  {
    forall k :: i <= k < j ==> inputs[k] == Some(v)
  }

  /** How many of the samples from `i` to `j` are violated, each counted with one over the factor, at least one. */
  function Approached(decisions: seq<bool>, factor: real, i: nat, j: nat): (parts: real)
    requires i <= j <= |decisions|
    ensures parts >= 0.0
  {
    if i == j then 0.0
    else Approached(decisions, factor, i, j - 1)
         + if !decisions[j - 1] then 0.0 else if factor > 1.0 then 1.0 / factor else 1.0
  }

  lemma InverseIsPart(factor: real)
    ensures var part := if factor > 1.0 then 1.0 / factor else 1.0;
            0.0 <= part <= 1.0 && 1.0 / Max(factor, 1.0) == part
  {
    if factor > 1.0 {
      assert Times(1.0 / factor, factor) == 1.0;
    }
  }

  /**
   * While the input holds a value, a slowed stream that has begun approaches it by one over the factor with every
   * violated sample: after `S` such parts the distance is at most the initial one over `1 + S`, and at least `1 - S`
   * of it.
   */
  lemma {:induction false} SlowedTakesFactor(
    violation: Violation, stuckValue: Option<real>, inputs: seq<Option<real>>, decisions: seq<bool>,
    i: nat, j: nat, v: real)
    requires violation.IncreasedTimeConstant? && i <= j <= |inputs| == |decisions| && Holds(inputs, i, j, v)
    requires MemoryAt(violation, stuckValue, inputs, decisions, i).slowed.Some?
    ensures MemoryAt(violation, stuckValue, inputs, decisions, j).slowed.Some?
    ensures var first := Abs(v - MemoryAt(violation, stuckValue, inputs, decisions, i).slowed.value);
            var left := Abs(v - MemoryAt(violation, stuckValue, inputs, decisions, j).slowed.value);
            var parts := Approached(decisions, violation.slowdownFactor, i, j);
            left <= first && Times(left, 1.0 + parts) <= first && left >= Times(1.0 - parts, first)
  {
    var first := Abs(v - MemoryAt(violation, stuckValue, inputs, decisions, i).slowed.value);
    if i == j {
      NothingYet(first);
    } else {
      SlowedTakesFactor(violation, stuckValue, inputs, decisions, i, j - 1, v);
      var before := MemoryAt(violation, stuckValue, inputs, decisions, j - 1).slowed.value;
      var after := MemoryAt(violation, stuckValue, inputs, decisions, j).slowed.value;
      var parts := Approached(decisions, violation.slowdownFactor, i, j - 1);
      if decisions[j - 1] {
        var g := if violation.slowdownFactor > 1.0 then 1.0 / violation.slowdownFactor else 1.0;
        InverseIsPart(violation.slowdownFactor);
        assert after == Pull(before, v, g);
        hide MemoryAt, Pull, Times, Approached;
        PulledError(before, v, g);
        MagnitudeOfProduct(1.0 - g, v - before);
        ErrorBounds(Abs(v - before), Abs(v - after), first, g, parts);
        assert Approached(decisions, violation.slowdownFactor, i, j) == parts + g by {
          ApproachedNext(decisions, violation.slowdownFactor, i, j);
        }
      }
    }
  }

  lemma ApproachedNext(decisions: seq<bool>, factor: real, i: nat, j: nat)
    requires i < j <= |decisions| && decisions[j - 1]
    ensures Approached(decisions, factor, i, j) ==
            Approached(decisions, factor, i, j - 1) + if factor > 1.0 then 1.0 / factor else 1.0
  {
  }

  // ---------- One sample at a time ----------

  /** The violator behind the one-tick adapter: every sample is a stream of its own. */
  method ViolateTicks(violation: Violation, stuckValue: Option<real>, inputs: seq<Option<real>>, decisions: seq<bool>)
    returns (outputs: seq<Option<real>>)
    requires |decisions| == |inputs|
    ensures |outputs| == |inputs|
    ensures forall i :: 0 <= i < |inputs| ==>
            outputs[i] == OutputAt(violation, stuckValue, [inputs[i]], [decisions[i]], 0)
    ensures !violation.StuckValue? ==> outputs == inputs
  {
    outputs := [];
    for n := 0 to |inputs|
      invariant |outputs| == n
      invariant forall i :: 0 <= i < n ==> outputs[i] == OutputAt(violation, stuckValue, [inputs[i]], [decisions[i]], 0)
      invariant !violation.StuckValue? ==> outputs == inputs[..n]
    {
      var tick := ViolateStream(violation, stuckValue, [inputs[n]], [decisions[n]]);
      OneSampleUnchangedIff(violation, stuckValue, inputs[n], decisions[n]);
      hide OutputAt;
      outputs := outputs + tick;
    }
  }

  /**
   * A stream of one sample comes out as it went in if and only if it is not violated or not stuck at another value:
   * lag, slowdown and ramp distortion need a second sample to show.
   */
  lemma OneSampleUnchangedIff(violation: Violation, stuckValue: Option<real>, observed: Option<real>, apply: bool)
    ensures OutputAt(violation, stuckValue, [observed], [apply], 0) == observed
       <==> !apply || !violation.StuckValue? || stuckValue.None? || stuckValue == observed
  {
    hide Pull, Times;
    assert MemoryAt(violation, stuckValue, [observed], [apply], 0) == Memory(None, stuckValue, None, None);
  }
}
