/** The categorical event state machine: one step, one run, and the effect of the emission flags. */
module CategoricalEvents {
  import opened Sums

  /** One prepared sample of a key: its time in milliseconds and its state, or nothing when the sample is missing. */
  datatype Step = Step(ts: int, state: Option<string>)

  datatype Config = Config(
    minDwell: real, maxDwell: real,
    emitEnter: bool, emitExit: bool, emitBucket: bool,
    illegal: set<(string, string)>)

  datatype Event =
    | StateEnter(ts: int, from: string, to: string)
    | StateExit(ts: int, from: string, to: string, exitDwell: Option<real>)
    | Dropped(ts: int, from: string, to: string)
    | DwellBucket(ts: int, state: string, dwell: real, bucket: string)
    | Transition(ts: int, from: string, to: string, dwell: real)
    | DwellViolation(ts: int, from: string, to: string, dwell: real, minDwell: real)
    | IllegalTransition(ts: int, from: string, to: string)
    | DwellGuard(ts: int, state: string, dwell: real, maxDwell: real)

  datatype State = State(lastState: Option<string>, lastTs: Option<int>, guardTs: Option<int>,
    missing: bool, emitted: seq<Event>)

  const INITIAL := State(None, None, None, false, [])

  function SecondsBetween(start: int, end: int): real {
    (end - start) as real / 1000.0
  }

  /** Seconds since an optional earlier time, zero when there is none. */
  function SecondsSince(start: Option<int>, ts: int): real {
    if start.Some? then SecondsBetween(start.value, ts) else 0.0
  }

  function Bucket(dwell: real): string {
    if dwell < 1.0 then "lt_1s"
    else if dwell < 5.0 then "1s_to_5s"
    else if dwell < 30.0 then "5s_to_30s"
    else "gte_30s"
  }

  /** Two states joined by the separator character U+0001. */
  function PairKey(from: string, to: string): string {
    from + "\U{0001}" + to
  }

  predicate IsIllegal(illegal: set<(string, string)>, from: string, to: string) {
    exists p :: p in illegal && PairKey(p.0, p.1) == PairKey(from, to)
  }

  function Opt(condition: bool, event: Event): seq<Event> {
    if condition then [event] else []
  }

  predicate Enters(acc: State, step: Step) {
    step.state.Some? && (acc.lastState.None? || acc.missing)
  }

  predicate Drops(acc: State, step: Step) {
    step.state.None? && !acc.missing
  }

  predicate Transitions(acc: State, step: Step) {
    step.state.Some? && !acc.missing && acc.lastState.Some? && step.state != acc.lastState
  }

  predicate Guards(cfg: Config, acc: State, step: Step) {
    && step.state.Some? && !acc.missing && acc.lastState.Some? && step.state == acc.lastState
    && cfg.maxDwell > 0.0
    && SecondsSince(acc.lastTs, step.ts) >= cfg.maxDwell
    && (acc.guardTs.None? || SecondsSince(acc.guardTs, step.ts) >= cfg.maxDwell)
  }

  /** What a missing sample emits. */
  function MissingEvents(cfg: Config, acc: State, step: Step): seq<Event> {
    var from := if acc.lastState.Some? then acc.lastState.value else "none";
    Opt(Drops(acc, step) && cfg.emitExit && acc.lastState.Some?, StateExit(step.ts, from, "missing", None))
    + Opt(Drops(acc, step), Dropped(step.ts, from, "missing"))
  }

  /** What a change of state emits before the transition itself. */
  function LeavingEvents(cfg: Config, ts: int, from: string, to: string, dwell: real): seq<Event> {
    Opt(cfg.emitExit, StateExit(ts, from, to, Some(dwell)))
    + Opt(cfg.emitBucket, DwellBucket(ts, from, dwell, Bucket(dwell)))
  }

  /** What a change of state emits after the transition itself. */
  function ArrivingEvents(cfg: Config, ts: int, from: string, to: string, dwell: real): seq<Event> {
    Opt(cfg.minDwell > 0.0 && dwell < cfg.minDwell, DwellViolation(ts, from, to, dwell, cfg.minDwell))
    + Opt(IsIllegal(cfg.illegal, from, to), IllegalTransition(ts, from, to))
  }

  /** What a change of state emits. */
  function TransitionEvents(cfg: Config, acc: State, step: Step): seq<Event> {
    if !Transitions(acc, step) then []
    else
      var from, to, dwell := acc.lastState.value, step.state.value, SecondsSince(acc.lastTs, step.ts);
      LeavingEvents(cfg, step.ts, from, to, dwell)
      + [Transition(step.ts, from, to, dwell)]
      + ArrivingEvents(cfg, step.ts, from, to, dwell)
  }

  /** Everything one sample emits, in order. */
  function StepEvents(cfg: Config, acc: State, step: Step): seq<Event> {
    (if Enters(acc, step) then Opt(cfg.emitEnter, StateEnter(step.ts, "none", step.state.value)) else [])
    + MissingEvents(cfg, acc, step)
    + TransitionEvents(cfg, acc, step)
    + if Guards(cfg, acc, step)
      then [DwellGuard(step.ts, step.state.value, SecondsSince(acc.lastTs, step.ts), cfg.maxDwell)] else []
  }

  function After(cfg: Config, acc: State, step: Step): State {
    var changed := Enters(acc, step) || Transitions(acc, step);
    State(
      step.state,
      if step.state.None? || changed then Some(step.ts) else acc.lastTs,
      if step.state.None? then Some(step.ts)
      else if changed then None
      else if Guards(cfg, acc, step) then Some(step.ts)
      else acc.guardTs,
      step.state.None?,
      acc.emitted + StepEvents(cfg, acc, step))
  }

  /** The fold over a sequence of samples. */
  function Run(cfg: Config, start: State, steps: seq<Step>): State {
    if steps == [] then start else After(cfg, Run(cfg, start, steps[..|steps| - 1]), steps[|steps| - 1])
  }

  // ---------- Cutting a run ----------

  lemma {:induction false} RunConcat(cfg: Config, start: State, xs: seq<Step>, ys: seq<Step>)
    ensures Run(cfg, start, xs + ys) == Run(cfg, Run(cfg, start, xs), ys)
  {
    if ys == [] {
      assert xs + ys == xs;
    } else {
      RunConcat(cfg, start, xs, ys[..|ys| - 1]);
      assert (xs + ys)[..|xs + ys| - 1] == xs + ys[..|ys| - 1];
    }
  }

  /** The carried state: everything but the events. */
  function Carry(s: State): State {
    s.(emitted := [])
  }

  lemma AfterEmits(cfg: Config, acc: State, step: Step)
    ensures After(cfg, acc, step).emitted == acc.emitted + StepEvents(cfg, acc, step)
  {
  }

  lemma AfterIgnoresEmitted(cfg: Config, a: State, b: State, step: Step)
    requires Carry(a) == Carry(b)
    ensures StepEvents(cfg, a, step) == StepEvents(cfg, b, step)
    ensures Carry(After(cfg, a, step)) == Carry(After(cfg, b, step))
  {
    assert MissingEvents(cfg, a, step) == MissingEvents(cfg, b, step);
    assert TransitionEvents(cfg, a, step) == TransitionEvents(cfg, b, step);
  }

  /** Events already emitted are only prepended; they influence nothing. */
  lemma {:induction false} RunFromCarry(cfg: Config, start: State, steps: seq<Step>)
    ensures var whole, anew := Run(cfg, start, steps), Run(cfg, Carry(start), steps);
            && whole.emitted == start.emitted + anew.emitted
            && Carry(whole) == Carry(anew)
  {
    hide StepEvents;
    if steps != [] {
      var rest, last := steps[..|steps| - 1], steps[|steps| - 1];
      RunFromCarry(cfg, start, rest);
      AfterIgnoresEmitted(cfg, Run(cfg, start, rest), Run(cfg, Carry(start), rest), last);
    }
  }

  /** Running two pieces with the carried state between them emits what one run emits, and ends where it ends. */
  lemma CutRun(cfg: Config, start: State, xs: seq<Step>, ys: seq<Step>)
    ensures var first := Run(cfg, start, xs);
            var second := Run(cfg, Carry(first), ys);
            && Run(cfg, start, xs + ys).emitted == first.emitted + second.emitted
            && Carry(Run(cfg, start, xs + ys)) == Carry(second)
  {
    RunConcat(cfg, start, xs, ys);
    RunFromCarry(cfg, Run(cfg, start, xs), ys);
  }

  // ---------- The emission flags ----------

  function AllOn(cfg: Config): Config {
    cfg.(emitEnter := true, emitExit := true, emitBucket := true)
  }

  predicate Wanted(cfg: Config, e: Event) {
    match e
    case StateEnter(_, _, _) => cfg.emitEnter
    case StateExit(_, _, _, _) => cfg.emitExit
    case DwellBucket(_, _, _, _) => cfg.emitBucket
    case _ => true
  }

  function OnlyWanted(cfg: Config, events: seq<Event>): seq<Event> {
    if events == [] then []
    else OnlyWanted(cfg, events[..|events| - 1]) + Opt(Wanted(cfg, events[|events| - 1]), events[|events| - 1])
  }

  lemma {:induction false} OnlyWantedConcat(cfg: Config, xs: seq<Event>, ys: seq<Event>)
    ensures OnlyWanted(cfg, xs + ys) == OnlyWanted(cfg, xs) + OnlyWanted(cfg, ys)
  {
    hide Opt, Wanted;
    if ys == [] {
      assert xs + ys == xs;
    } else {
      OnlyWantedConcat(cfg, xs, ys[..|ys| - 1]);
      assert (xs + ys)[..|xs + ys| - 1] == xs + ys[..|ys| - 1];
    }
  }

  lemma OnlyWantedOpt(cfg: Config, condition: bool, e: Event)
    ensures OnlyWanted(cfg, Opt(condition, e)) == Opt(condition && Wanted(cfg, e), e)
  {
    if condition {
      assert Opt(condition, e)[..0] == [];
    }
  }

  lemma MissingEventsWanted(cfg: Config, acc: State, step: Step)
    ensures MissingEvents(cfg, acc, step) == OnlyWanted(cfg, MissingEvents(AllOn(cfg), acc, step))
  {
    var from := if acc.lastState.Some? then acc.lastState.value else "none";
    var exit, drop := StateExit(step.ts, from, "missing", None), Dropped(step.ts, from, "missing");
    OnlyWantedConcat(cfg, Opt(Drops(acc, step) && acc.lastState.Some?, exit), Opt(Drops(acc, step), drop));
    OnlyWantedOpt(cfg, Drops(acc, step) && acc.lastState.Some?, exit);
    OnlyWantedOpt(cfg, Drops(acc, step), drop);
  }

  lemma TransitionEventsWanted(cfg: Config, acc: State, step: Step)
    ensures TransitionEvents(cfg, acc, step) == OnlyWanted(cfg, TransitionEvents(AllOn(cfg), acc, step))
  {
    hide OnlyWanted, LeavingEvents, ArrivingEvents, Transitions, SecondsSince;
    if Transitions(acc, step) {
      TransitionIsChange(acc, step);
      var from, to, dwell := acc.lastState.value, step.state.value, SecondsSince(acc.lastTs, step.ts);
      var p, q := LeavingEvents(AllOn(cfg), step.ts, from, to, dwell),
        ArrivingEvents(AllOn(cfg), step.ts, from, to, dwell);
      var transition := Transition(step.ts, from, to, dwell);
      SurroundingEventsWanted(cfg, step.ts, from, to, dwell);
      OnlyWantedOne(cfg, transition);
      OnlyWantedConcat(cfg, p, [transition]);
      OnlyWantedConcat(cfg, p + [transition], q);
    } else {
      OnlyWantedNothing(cfg);
    }
  }

  lemma SurroundingEventsWanted(cfg: Config, ts: int, from: string, to: string, dwell: real)
    ensures LeavingEvents(cfg, ts, from, to, dwell) == OnlyWanted(cfg, LeavingEvents(AllOn(cfg), ts, from, to, dwell))
    ensures ArrivingEvents(cfg, ts, from, to, dwell) == OnlyWanted(cfg, ArrivingEvents(AllOn(cfg), ts, from, to, dwell))
  {
    hide OnlyWanted, IsIllegal, Bucket;
    var exit, bucket := StateExit(ts, from, to, Some(dwell)), DwellBucket(ts, from, dwell, Bucket(dwell));
    var violation, illegal := DwellViolation(ts, from, to, dwell, cfg.minDwell), IllegalTransition(ts, from, to);
    var short, forbidden := cfg.minDwell > 0.0 && dwell < cfg.minDwell, IsIllegal(cfg.illegal, from, to);
    OnlyWantedOpt(cfg, true, exit);
    OnlyWantedOpt(cfg, true, bucket);
    OnlyWantedOpt(cfg, short, violation);
    OnlyWantedOpt(cfg, forbidden, illegal);
    OnlyWantedConcat(cfg, Opt(true, exit), Opt(true, bucket));
    OnlyWantedConcat(cfg, Opt(short, violation), Opt(forbidden, illegal));
  }

  lemma TransitionIsChange(acc: State, step: Step)
    requires Transitions(acc, step)
    ensures acc.lastState.Some? && step.state.Some?
  {
  }

  lemma OnlyWantedNothing(cfg: Config)
    ensures OnlyWanted(cfg, []) == []
  {
  }

  lemma OnlyWantedOne(cfg: Config, e: Event)
    ensures Wanted(cfg, e) ==> OnlyWanted(cfg, [e]) == [e]
  {
    assert [e][..0] == [];
  }

  lemma StepEventsWanted(cfg: Config, acc: State, step: Step)
    ensures StepEvents(cfg, acc, step) == OnlyWanted(cfg, StepEvents(AllOn(cfg), acc, step))
  {
    var all := AllOn(cfg);
    var enter := if Enters(acc, step) then [StateEnter(step.ts, "none", step.state.value)] else [];
    var missing, change := MissingEvents(all, acc, step), TransitionEvents(all, acc, step);
    var guard := if Guards(cfg, acc, step)
      then [DwellGuard(step.ts, step.state.value, SecondsSince(acc.lastTs, step.ts), cfg.maxDwell)] else [];
    MissingEventsWanted(cfg, acc, step);
    TransitionEventsWanted(cfg, acc, step);
    OnlyWantedConcat(cfg, enter, missing);
    OnlyWantedConcat(cfg, enter + missing, change);
    OnlyWantedConcat(cfg, enter + missing + change, guard);
    if Enters(acc, step) {
      OnlyWantedOpt(cfg, true, enter[0]);
    }
    if Guards(cfg, acc, step) {
      OnlyWantedOpt(cfg, true, guard[0]);
    }
  }

  /** Turning emission flags off removes exactly the events of those kinds and leaves the state path alone. */
  lemma {:induction false} FlagsOnlyFilter(cfg: Config, start: State, steps: seq<Step>)
    ensures Run(cfg, Carry(start), steps).emitted == OnlyWanted(cfg, Run(AllOn(cfg), Carry(start), steps).emitted)
    ensures Carry(Run(cfg, Carry(start), steps)) == Carry(Run(AllOn(cfg), Carry(start), steps))
  {
    hide StepEvents;
    if steps != [] {
      var rest, last := steps[..|steps| - 1], steps[|steps| - 1];
      FlagsOnlyFilter(cfg, start, rest);
      var a, b := Run(cfg, Carry(start), rest), Run(AllOn(cfg), Carry(start), rest);
      AfterIgnoresEmitted(cfg, a, b, last);
      StepEventsWanted(cfg, b, last);
      OnlyWantedConcat(cfg, b.emitted, StepEvents(AllOn(cfg), b, last));
      assert Guards(cfg, a, last) == Guards(AllOn(cfg), b, last);
    }
  }
}
