/** The discrete-state violator and its dwell machine. */
module DwellViolator {
  import opened Sums

  datatype Violation = IllegalTransition | DwellViolation | StuckState | Unrecognised

  datatype Config = Config(violation: Violation, violatingState: string, stuckState: Option<string>,
    extraDwellSteps: int)

  /** What the loop carries: the state being held, how long it may still be held, and the state it is stuck in. */
  datatype Holder = Holder(held: Option<string>, remaining: int, stuck: Option<string>)

  /** A sample without a value carries the text of a missing value into a stuck state. */
  function Text(value: Option<string>): string {
    if value.Some? then value.value else "None"
  }

  function Start(config: Config): Holder {
    Holder(None, 0, if config.stuckState == Some("") then None else config.stuckState)
  }

  function ExtraDwell(config: Config): int {
    if config.extraDwellSteps < 1 then 1 else config.extraDwellSteps
  }

  /** Hold on to the current state while the input differs from it and the allowance lasts. */
  function Hold(h: Holder, base: Option<string>, extra: int): Holder {
    if h.held.Some? && base != h.held && h.remaining > 0
    then h.(remaining := h.remaining - 1)
    else h.(held := base, remaining := extra)
  }

  function Next(config: Config, h: Holder, base: Option<string>, apply: bool): Holder {
    if !apply then h
    else match config.violation
      case DwellViolation => Hold(h, base, ExtraDwell(config))
      case StuckState => if h.stuck.None? then h.(stuck := Some(Text(base))) else h
      case _ => h
  }

  /** The emitted state, read after the holder has taken the sample in. */
  function Emitted(config: Config, after: Holder, base: Option<string>, apply: bool): Option<string> {
    if !apply then base
    else match config.violation
      case IllegalTransition => Some(config.violatingState)
      case DwellViolation => after.held
      case StuckState => after.stuck
      case Unrecognised => base
  }

  /** The holder after the first `n` samples. */
  ghost function HolderAt(config: Config, inputs: seq<Option<string>>, decisions: seq<bool>, n: nat): Holder
    requires n <= |inputs| && |decisions| == |inputs|
  {
    if n == 0 then Start(config)
    else Next(config, HolderAt(config, inputs, decisions, n - 1), inputs[n - 1], decisions[n - 1])
  }

  /** What the stream emits for sample `i`. */
  ghost function OutputAt(config: Config, inputs: seq<Option<string>>, decisions: seq<bool>, i: nat): Option<string>
    requires i < |inputs| && |decisions| == |inputs|
  {
    Emitted(config, HolderAt(config, inputs, decisions, i + 1), inputs[i], decisions[i])
  }

  method ViolateStream(config: Config, inputs: seq<Option<string>>, decisions: seq<bool>)
    returns (outputs: seq<Option<string>>)
    requires |decisions| == |inputs|
    ensures |outputs| == |inputs|
    ensures forall i :: 0 <= i < |inputs| ==> outputs[i] == OutputAt(config, inputs, decisions, i)
  {
    var extraDwellSteps := if config.extraDwellSteps < 1 then 1 else config.extraDwellSteps;
    var stuckState := if config.stuckState == Some("") then None else config.stuckState;
    var heldState: Option<string>, heldRemaining := None, 0;
    outputs := [];
    for n := 0 to |inputs|
      invariant |outputs| == n
      invariant Holder(heldState, heldRemaining, stuckState) == HolderAt(config, inputs, decisions, n)
      invariant forall i :: 0 <= i < n ==> outputs[i] == OutputAt(config, inputs, decisions, i)
    {
      var base := inputs[n];
      var perturbed;
      if decisions[n] && config.violation == IllegalTransition {
        perturbed := Some(config.violatingState);
      } else if decisions[n] && config.violation == DwellViolation {
        if heldState.None? {
          heldState := base;
          heldRemaining := extraDwellSteps;
        } else if base != heldState && heldRemaining > 0 {
          heldRemaining := heldRemaining - 1;
        } else {
          heldState := base;
          heldRemaining := extraDwellSteps;
        }
        perturbed := heldState;
      } else if decisions[n] && config.violation == StuckState {
        if stuckState.None? {
          stuckState := Some(Text(base));
        }
        perturbed := stuckState;
      } else {
        perturbed := base;
      }
      outputs := outputs + [perturbed];
    }
  }

  /** A dwell violation in which every sample is violated. */
  ghost predicate AlwaysDwell(config: Config, inputs: seq<Option<string>>, decisions: seq<bool>) {
    && config.violation == DwellViolation
    && |decisions| == |inputs|
    && forall i :: 0 <= i < |decisions| ==> decisions[i]
  }

  /** The allowance used up so far is the number of samples by which the output lags the input it repeats. */
  lemma {:induction false} HeldSince(config: Config, inputs: seq<Option<string>>, decisions: seq<bool>, i: nat)
    requires AlwaysDwell(config, inputs, decisions) && i < |inputs|
    ensures var h := HolderAt(config, inputs, decisions, i + 1);
            var age := ExtraDwell(config) - h.remaining;
            && 0 <= age <= i && age <= ExtraDwell(config)
            && h.held == inputs[i - age]
            && (forall j :: i - age <= j <= i ==> OutputAt(config, inputs, decisions, j) == h.held)
            && (forall j :: i - age < j <= i ==> inputs[j] != h.held)
  {
    if i > 0 {
      HeldSince(config, inputs, decisions, i - 1);
    }
  }

  /** Every output is the input of the same sample or of one at most `extra_dwell_steps` earlier. */
  lemma OutputIsRecentInput(config: Config, inputs: seq<Option<string>>, decisions: seq<bool>, i: nat)
    requires AlwaysDwell(config, inputs, decisions) && i < |inputs|
    ensures exists j ::
              0 <= j <= i && i - j <= ExtraDwell(config) && OutputAt(config, inputs, decisions, i) == inputs[j]
  {
    HeldSince(config, inputs, decisions, i);
  }

  /** A state the output has just left was emitted at least `1 + extra_dwell_steps` times in a row. */
  lemma CompletedRunsAreLong(config: Config, inputs: seq<Option<string>>, decisions: seq<bool>, i: nat)
    requires AlwaysDwell(config, inputs, decisions) && i + 1 < |inputs|
    requires OutputAt(config, inputs, decisions, i).Some?
    requires OutputAt(config, inputs, decisions, i + 1) != OutputAt(config, inputs, decisions, i)
    ensures ExtraDwell(config) >= 1 && ExtraDwell(config) <= i
    ensures forall j :: i - ExtraDwell(config) <= j <= i ==>
              OutputAt(config, inputs, decisions, j) == OutputAt(config, inputs, decisions, i)
  {
    HeldSince(config, inputs, decisions, i);
  }

  /** The input never leaves a state once it has one. */
  predicate NeverLeavesState(inputs: seq<Option<string>>) {
    forall i :: 0 < i < |inputs| ==> inputs[i - 1].None? || inputs[i] == inputs[i - 1]
  }

  ghost predicate Unchanged(config: Config, inputs: seq<Option<string>>, decisions: seq<bool>)
    requires |decisions| == |inputs|
  {
    forall i :: 0 <= i < |inputs| ==> OutputAt(config, inputs, decisions, i) == inputs[i]
  }

  lemma {:induction false} QuietInputPasses(config: Config, inputs: seq<Option<string>>, decisions: seq<bool>, i: nat)
    requires AlwaysDwell(config, inputs, decisions) && NeverLeavesState(inputs) && i < |inputs|
    ensures OutputAt(config, inputs, decisions, i) == inputs[i]
  {
    if i > 0 {
      QuietInputPasses(config, inputs, decisions, i - 1);
    }
    assert inputs[i] == inputs[i];
    HeldSince(config, inputs, decisions, i);
  }

  lemma EveryDwellInvisibleIff(config: Config, inputs: seq<Option<string>>, decisions: seq<bool>)
    requires AlwaysDwell(config, inputs, decisions)
    ensures Unchanged(config, inputs, decisions) <==> NeverLeavesState(inputs)
  {
    if NeverLeavesState(inputs) {
      forall i | 0 <= i < |inputs|
        ensures OutputAt(config, inputs, decisions, i) == inputs[i]
      {
        QuietInputPasses(config, inputs, decisions, i);
      }
    } else {
      var i :| 0 < i < |inputs| && inputs[i - 1].Some? && inputs[i] != inputs[i - 1];
      HeldSince(config, inputs, decisions, i - 1);
      assert OutputAt(config, inputs, decisions, i - 1) == inputs[i - 1] ==>
          OutputAt(config, inputs, decisions, i) == inputs[i - 1];
    }
  }

  // ---------- Any choice of samples ----------

  /** The samples chosen to be violated, in their order. */
  function Picked(inputs: seq<Option<string>>, decisions: seq<bool>): seq<Option<string>>
    requires |decisions| == |inputs|
  {
    if inputs == [] then []
    else
      var n := |inputs| - 1;
      Picked(inputs[..n], decisions[..n]) + if decisions[n] then [inputs[n]] else []
  }

  function All(n: nat): (decisions: seq<bool>)
    ensures |decisions| == n && forall i :: 0 <= i < n ==> decisions[i]
  {
    seq(n, i => true)
  }

  lemma {:induction false} HolderPrefix(
    config: Config, inputs: seq<Option<string>>, decisions: seq<bool>, n: nat, k: nat)
    requires k <= n <= |inputs| && |decisions| == |inputs|
    ensures HolderAt(config, inputs[..n], decisions[..n], k) == HolderAt(config, inputs, decisions, k)
  {
    hide Next;
    if k > 0 {
      HolderPrefix(config, inputs, decisions, n, k - 1);
    }
  }

  /** The holder after one more violated sample. */
  lemma HolderNext(config: Config, picked: seq<Option<string>>, base: Option<string>)
    ensures var more := picked + [base];
            HolderAt(config, more, All(|more|), |more|) ==
            Next(config, HolderAt(config, picked, All(|picked|), |picked|), base, true)
  {
    hide Next;
    var more := picked + [base];
    HolderPrefix(config, more, All(|more|), |picked|, |picked|);
    assert more[..|picked|] == picked && All(|more|)[..|picked|] == All(|picked|);
  }

  /** Samples that are not violated leave no trace: the holder is that of a stream of the violated ones alone. */
  lemma {:induction false} HolderOfPicked(config: Config, inputs: seq<Option<string>>, decisions: seq<bool>)
    requires |decisions| == |inputs|
    ensures var picked := Picked(inputs, decisions);
            HolderAt(config, inputs, decisions, |inputs|) == HolderAt(config, picked, All(|picked|), |picked|)
  {
    if inputs != [] {
      var n := |inputs| - 1;
      HolderOfPicked(config, inputs[..n], decisions[..n]);
      HolderPrefix(config, inputs, decisions, n, n);
      var before := Picked(inputs[..n], decisions[..n]);
      if decisions[n] {
        HolderNext(config, before, inputs[n]);
      } else {
        assert before + [] == before;
      }
    }
  }

  lemma OutputPrefix(config: Config, inputs: seq<Option<string>>, decisions: seq<bool>, n: nat)
    requires n <= |inputs| && |decisions| == |inputs|
    ensures forall i :: 0 <= i < n ==>
              OutputAt(config, inputs[..n], decisions[..n], i) == OutputAt(config, inputs, decisions, i)
  {
    hide HolderAt, Emitted;
    forall i | 0 <= i < n
      ensures OutputAt(config, inputs[..n], decisions[..n], i) == OutputAt(config, inputs, decisions, i)
    {
      HolderPrefix(config, inputs, decisions, n, i + 1);
    }
  }

  lemma UnchangedPrefix(config: Config, inputs: seq<Option<string>>, decisions: seq<bool>)
    requires |decisions| == |inputs| > 0
    ensures var n := |inputs| - 1;
            Unchanged(config, inputs, decisions) <==>
            Unchanged(config, inputs[..n], decisions[..n]) && OutputAt(config, inputs, decisions, n) == inputs[n]
  {
    hide OutputAt;
    OutputPrefix(config, inputs, decisions, |inputs| - 1);
  }

  /** A stream is unchanged if and only if the stream of its violated samples is. */
  lemma {:induction false} UnchangedIffPickedUnchanged(
    config: Config, inputs: seq<Option<string>>, decisions: seq<bool>)
    requires |decisions| == |inputs|
    ensures var picked := Picked(inputs, decisions);
            Unchanged(config, inputs, decisions) <==> Unchanged(config, picked, All(|picked|))
  {
    if inputs != [] {
      var n := |inputs| - 1;
      var before, picked := Picked(inputs[..n], decisions[..n]), Picked(inputs, decisions);
      UnchangedIffPickedUnchanged(config, inputs[..n], decisions[..n]);
      UnchangedPrefix(config, inputs, decisions);
      HolderOfPicked(config, inputs, decisions);
      hide Unchanged, HolderAt, Picked;
      if decisions[n] {
        assert picked == before + [inputs[n]];
        assert picked[..|before|] == before && All(|picked|)[..|before|] == All(|before|);
        UnchangedPrefix(config, picked, All(|picked|));
      } else {
        assert picked == before;
      }
    }
  }

  /**
   * For any choice of samples, a dwell violation can be seen in the output if and only if the violated samples among
   * themselves leave some state.
   */
  lemma DwellIsInvisibleIff(config: Config, inputs: seq<Option<string>>, decisions: seq<bool>)
    requires config.violation == DwellViolation && |decisions| == |inputs|
    ensures Unchanged(config, inputs, decisions) <==> NeverLeavesState(Picked(inputs, decisions))
  {
    var picked := Picked(inputs, decisions);
    UnchangedIffPickedUnchanged(config, inputs, decisions);
    EveryDwellInvisibleIff(config, picked, All(|picked|));
  }

  // ---------- One sample at a time ----------

  /** The violator behind the one-tick adapter: every sample is a stream of its own. */
  method ViolateTicks(config: Config, inputs: seq<Option<string>>, decisions: seq<bool>)
    returns (outputs: seq<Option<string>>)
    requires |decisions| == |inputs|
    ensures |outputs| == |inputs|
    ensures forall i :: 0 <= i < |inputs| ==> outputs[i] == OutputAt(config, [inputs[i]], [decisions[i]], 0)
    ensures config.violation == DwellViolation ==> outputs == inputs
  {
    outputs := [];
    for n := 0 to |inputs|
      invariant |outputs| == n
      invariant forall i :: 0 <= i < n ==> outputs[i] == OutputAt(config, [inputs[i]], [decisions[i]], 0)
      invariant config.violation == DwellViolation ==> outputs == inputs[..n]
    {
      var tick := ViolateStream(config, [inputs[n]], [decisions[n]]);
      OneSampleUnchangedIff(config, inputs[n], decisions[n]);
      hide OutputAt;
      outputs := outputs + tick;
    }
  }

  /** Whether the violation spares a lone sample. A dwell violation always does: it has nothing to hold on to. */
  predicate Spares(config: Config, base: Option<string>) {
    match config.violation
    case IllegalTransition => base == Some(config.violatingState)
    case StuckState => if Start(config).stuck.Some? then base == Start(config).stuck else base.Some?
    case _ => true
  }

  /** A stream of one sample comes out as it went in if and only if it is not violated or the violation spares it. */
  lemma OneSampleUnchangedIff(config: Config, base: Option<string>, apply: bool)
    ensures OutputAt(config, [base], [apply], 0) == base <==> !apply || Spares(config, base)
  {
    assert HolderAt(config, [base], [apply], 0) == Start(config);
  }

  // ---------- Stuck streams ----------

  predicate IsFirst(decisions: seq<bool>, f: nat) {
    f < |decisions| && decisions[f] && forall j :: 0 <= j < f ==> !decisions[j]
  }

  /** What a stuck stream shows at its violated samples, `f` being the first of them. */
  function StuckText(config: Config, inputs: seq<Option<string>>, f: nat): string
    requires f < |inputs|
  {
    if config.stuckState.Some? && config.stuckState.value != "" then config.stuckState.value
    else if inputs[f].Some? then inputs[f].value
    else "None"
  }

  /**
   * All violated samples show one state: the configured one unless it is empty, else that of the first violated
   * sample, for which a missing one counts as the text "None".
   */
  lemma StuckInOneState(config: Config, inputs: seq<Option<string>>, decisions: seq<bool>, f: nat, i: nat)
    requires config.violation == StuckState && f <= i < |inputs| == |decisions|
    requires IsFirst(decisions, f) && decisions[i]
    ensures OutputAt(config, inputs, decisions, i) == Some(StuckText(config, inputs, f))
  {
    StuckAfterFirst(config, inputs, decisions, f, i + 1);
  }

  lemma {:induction false} StuckAfterFirst(
    config: Config, inputs: seq<Option<string>>, decisions: seq<bool>, f: nat, n: nat)
    requires config.violation == StuckState && n <= |inputs| == |decisions| && IsFirst(decisions, f)
    ensures var stuck := HolderAt(config, inputs, decisions, n).stuck;
            stuck == if n <= f then Start(config).stuck else Some(StuckText(config, inputs, f))
  {
    if n > 0 {
      StuckAfterFirst(config, inputs, decisions, f, n - 1);
    }
  }
}
