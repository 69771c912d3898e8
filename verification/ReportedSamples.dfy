/**
 Which samples a run reports, read off the samples, and that the events tell exactly those: two sample sequences give
 the same events if and only if the same samples are notable in both.
 */
module ReportedSamples {
  import opened Sums
  import opened CategoricalEvents
  import opened CategoricalRuns

  // ---------- Notable samples ----------

  /** A guard is due: the block of equal states has lasted long enough, and so has the time since its latest guard. */
  predicate GuardDue(cfg: Config, steps: seq<Step>, k: nat)
    requires 0 < k < |steps|
  {
    && steps[k].state.Some? && cfg.maxDwell > 0.0
    && SecondsBetween(steps[BlockStart(steps, k - 1)].ts, steps[k].ts) >= cfg.maxDwell
    && var guard := LatestGuard(cfg, steps, k - 1);
       guard.Some? ==> SecondsBetween(guard.value, steps[k].ts) >= cfg.maxDwell
  }

  /** A sample is notable if it is the first, changes the state, or is due a guard. */
  predicate Notable(cfg: Config, steps: seq<Step>, k: nat)
    requires k < |steps|
  {
    k == 0 || steps[k].state != steps[k - 1].state || GuardDue(cfg, steps, k)
  }

  function NotableUpTo(cfg: Config, steps: seq<Step>, n: nat): seq<Step>
    requires n <= |steps|
  {
    if n == 0 then []
    else NotableUpTo(cfg, steps, n - 1) + if Notable(cfg, steps, n - 1) then [steps[n - 1]] else []
  }

  /** The notable samples in their order. */
  function Notables(cfg: Config, steps: seq<Step>): seq<Step> {
    NotableUpTo(cfg, steps, |steps|)
  }

  /** The first sample is always notable. */
  lemma FirstIsNotable(cfg: Config, steps: seq<Step>)
    requires steps != []
    ensures |Notables(cfg, steps)| >= 1 && Notables(cfg, steps)[0] == steps[0]
  {
    FirstIsNotableUpTo(cfg, steps, |steps|);
  }

  lemma {:induction false} FirstIsNotableUpTo(cfg: Config, steps: seq<Step>, n: nat)
    requires 0 < n <= |steps|
    ensures |NotableUpTo(cfg, steps, n)| >= 1 && NotableUpTo(cfg, steps, n)[0] == steps[0]
  {
    if n > 1 {
      FirstIsNotableUpTo(cfg, steps, n - 1);
    }
  }

  /** The samples at which the state changes, and the first. */
  function ChangesUpTo(steps: seq<Step>, n: nat): seq<Step>
    requires n <= |steps|
  {
    if n == 0 then []
    else ChangesUpTo(steps, n - 1) + if n == 1 || steps[n - 1].state != steps[n - 2].state then [steps[n - 1]] else []
  }

  function Changes(steps: seq<Step>): seq<Step> {
    ChangesUpTo(steps, |steps|)
  }

  /** Without dwell guards, the notable samples are the points of change. */
  lemma NotablesAreChanges(cfg: Config, steps: seq<Step>)
    requires cfg.maxDwell <= 0.0
    ensures Notables(cfg, steps) == Changes(steps)
  {
    NotablesAreChangesUpTo(cfg, steps, |steps|);
  }

  lemma {:induction false} NotablesAreChangesUpTo(cfg: Config, steps: seq<Step>, n: nat)
    requires cfg.maxDwell <= 0.0 && n <= |steps|
    ensures NotableUpTo(cfg, steps, n) == ChangesUpTo(steps, n)
  {
    if n > 0 {
      NotablesAreChangesUpTo(cfg, steps, n - 1);
    }
  }

  lemma NotableInPrefix(cfg: Config, steps: seq<Step>, n: nat, k: nat)
    requires k < n <= |steps|
    ensures Notable(cfg, steps[..n], k) == Notable(cfg, steps, k)
  {
    hide BlockStart, LatestGuard, SecondsBetween;
    if k > 0 {
      LookbackPrefix(cfg, steps, n, k - 1);
    }
  }

  lemma {:induction false} NotablePrefix(cfg: Config, steps: seq<Step>, n: nat, k: nat)
    requires k <= n <= |steps|
    ensures NotableUpTo(cfg, steps[..n], k) == NotableUpTo(cfg, steps, k)
  {
    hide Notable;
    if k > 0 {
      NotablePrefix(cfg, steps, n, k - 1);
      NotableInPrefix(cfg, steps, n, k - 1);
    }
  }

  // ---------- The machine reports the notable samples ----------

  /** The sample enters a state, drops it, changes it, or is guarded. */
  predicate Reports(cfg: Config, acc: State, step: Step) {
    Enters(acc, step) || Drops(acc, step) || Transitions(acc, step) || Guards(cfg, acc, step)
  }

  /** The samples a run reports. */
  function Reported(cfg: Config, steps: seq<Step>): seq<Step> {
    if steps == [] then []
    else
      var rest, last := steps[..|steps| - 1], steps[|steps| - 1];
      Reported(cfg, rest) + if Reports(cfg, Run(cfg, INITIAL, rest), last) then [last] else []
  }

  /** What a state read off the samples makes of the next sample. */
  lemma ReportsOfLookback(cfg: Config, acc: State, previous: Step, start: int, guard: Option<int>, step: Step)
    requires acc.lastState == previous.state && acc.missing == previous.state.None?
    requires acc.lastTs == Some(if acc.missing then previous.ts else start)
    requires acc.guardTs == if acc.missing then Some(previous.ts) else guard
    ensures Reports(cfg, acc, step) <==>
            || step.state != previous.state
            || (&& step.state.Some? && cfg.maxDwell > 0.0
                && SecondsBetween(start, step.ts) >= cfg.maxDwell
                && (guard.Some? ==> SecondsBetween(guard.value, step.ts) >= cfg.maxDwell))
  {
  }

  lemma FirstIsReported(cfg: Config, step: Step)
    ensures Reports(cfg, INITIAL, step)
  {
    hide Guards, Transitions;
  }

  lemma LookbackBefore(cfg: Config, steps: seq<Step>, k: nat)
    requires 0 < k < |steps|
    ensures var acc, previous := Run(cfg, INITIAL, steps[..k]), steps[k - 1];
            && acc.lastState == previous.state && acc.missing == previous.state.None?
            && acc.lastTs == Some(if acc.missing then previous.ts else steps[BlockStart(steps, k - 1)].ts)
            && acc.guardTs == if acc.missing then Some(previous.ts) else LatestGuard(cfg, steps, k - 1)
  {
    hide Run, LatestGuard, BlockStart;
    StateIsLookback(cfg, steps[..k]);
    LookbackPrefix(cfg, steps, k, k - 1);
  }

  lemma LastIsReported(cfg: Config, steps: seq<Step>)
    requires steps != []
    ensures var k := |steps| - 1;
            Reports(cfg, Run(cfg, INITIAL, steps[..k]), steps[k]) <==> Notable(cfg, steps, k)
  {
    var k := |steps| - 1;
    var acc := Run(cfg, INITIAL, steps[..k]);
    assert k == 0 ==> acc == INITIAL;
    hide Run, LatestGuard, BlockStart, SecondsBetween, Reports;
    if k == 0 {
      FirstIsReported(cfg, steps[k]);
    } else {
      LookbackBefore(cfg, steps, k);
      ReportsOfLookback(cfg, acc, steps[k - 1], steps[BlockStart(steps, k - 1)].ts, LatestGuard(cfg, steps, k - 1),
        steps[k]);
    }
  }

  /** The samples a run reports are the notable ones. */
  lemma {:induction false} ReportedAreNotable(cfg: Config, steps: seq<Step>)
    ensures Reported(cfg, steps) == Notables(cfg, steps)
  {
    hide Reports, Notable, Run;
    if steps != [] {
      var k := |steps| - 1;
      ReportedAreNotable(cfg, steps[..k]);
      NotablePrefix(cfg, steps, k, k);
      LastIsReported(cfg, steps);
    }
  }

  // ---------- The events tell which samples were reported ----------

  /** The sample an event stands for; exits, buckets and violations only accompany one that does. */
  function SampleOf(e: Event): seq<Step> {
    match e
    case StateEnter(ts, _, to) => [Step(ts, Some(to))]
    case Dropped(ts, _, _) => [Step(ts, None)]
    case Transition(ts, _, to, _) => [Step(ts, Some(to))]
    case DwellGuard(ts, state, _, _) => [Step(ts, Some(state))]
    case _ => []
  }

  function SamplesOf(events: seq<Event>): seq<Step> {
    if events == [] then [] else SamplesOf(events[..|events| - 1]) + SampleOf(events[|events| - 1])
  }

  lemma {:induction false} SamplesConcat(xs: seq<Event>, ys: seq<Event>)
    ensures SamplesOf(xs + ys) == SamplesOf(xs) + SamplesOf(ys)
  {
    hide SampleOf;
    if ys == [] {
      assert xs + ys == xs;
    } else {
      SamplesConcat(xs, ys[..|ys| - 1]);
      assert (xs + ys)[..|xs + ys| - 1] == xs + ys[..|ys| - 1];
    }
  }

  lemma SamplesOpt(condition: bool, e: Event)
    ensures SamplesOf(Opt(condition, e)) == if condition then SampleOf(e) else []
    ensures SamplesOf([e]) == SampleOf(e)
    ensures SamplesOf([]) == []
  {
    assert [e][..0] == [];
  }

  lemma SamplesOfMissing(cfg: Config, acc: State, step: Step)
    ensures SamplesOf(MissingEvents(cfg, acc, step)) == if Drops(acc, step) then [step] else []
  {
    hide SamplesOf, Opt;
    var from := if acc.lastState.Some? then acc.lastState.value else "none";
    var exits, drops := Drops(acc, step) && cfg.emitExit && acc.lastState.Some?, Drops(acc, step);
    var exit, drop := StateExit(step.ts, from, "missing", None), Dropped(step.ts, from, "missing");
    SamplesOpt(exits, exit);
    SamplesOpt(drops, drop);
    SamplesConcat(Opt(exits, exit), Opt(drops, drop));
  }

  lemma SamplesOfTransition(cfg: Config, acc: State, step: Step)
    ensures SamplesOf(TransitionEvents(cfg, acc, step)) == if Transitions(acc, step) then [step] else []
  {
    hide SamplesOf, Opt, IsIllegal, Bucket, SecondsSince;
    if Transitions(acc, step) {
      var from, to, dwell := acc.lastState.value, step.state.value, SecondsSince(acc.lastTs, step.ts);
      SilentPair(cfg.emitExit, StateExit(step.ts, from, to, Some(dwell)), cfg.emitBucket,
        DwellBucket(step.ts, from, dwell, Bucket(dwell)));
      SilentPair(cfg.minDwell > 0.0 && dwell < cfg.minDwell, DwellViolation(step.ts, from, to, dwell, cfg.minDwell),
                 IsIllegal(cfg.illegal, from, to), IllegalTransition(step.ts, from, to));
      var leaving, arriving :=
        LeavingEvents(cfg, step.ts, from, to, dwell), ArrivingEvents(cfg, step.ts, from, to, dwell);
      var move := Transition(step.ts, from, to, dwell);
      assert SamplesOf(leaving) == [] && SamplesOf(arriving) == [];
      hide LeavingEvents, ArrivingEvents;
      SamplesOpt(true, move);
      SamplesConcat(leaving, [move]);
      SamplesConcat(leaving + [move], arriving);
    } else {
      NoSamples();
    }
  }

  lemma NoSamples()
    ensures SamplesOf([]) == []
  {
  }

  lemma SilentPair(c: bool, e: Event, c': bool, e': Event)
    requires SampleOf(e) == [] && SampleOf(e') == []
    ensures SamplesOf(Opt(c, e) + Opt(c', e')) == []
  {
    SamplesOpt(c, e);
    SamplesOpt(c', e');
    SamplesConcat(Opt(c, e), Opt(c', e'));
  }

  lemma SamplesOfEntry(cfg: Config, acc: State, step: Step)
    requires cfg.emitEnter
    ensures SamplesOf(if Enters(acc, step) then Opt(cfg.emitEnter, StateEnter(step.ts, "none", step.state.value))
            else []) ==
            if Enters(acc, step) then [step] else []
  {
    if Enters(acc, step) {
      SamplesOpt(true, StateEnter(step.ts, "none", step.state.value));
    }
  }

  lemma SamplesOfGuard(cfg: Config, acc: State, step: Step)
    ensures SamplesOf(if Guards(cfg, acc, step)
                      then [DwellGuard(step.ts, step.state.value, SecondsSince(acc.lastTs, step.ts), cfg.maxDwell)]
                        else []) ==
            if Guards(cfg, acc, step) then [step] else []
  {
    if Guards(cfg, acc, step) {
      SamplesOpt(true, DwellGuard(step.ts, step.state.value, SecondsSince(acc.lastTs, step.ts), cfg.maxDwell));
    }
  }

  lemma SamplesOfStep(cfg: Config, acc: State, step: Step)
    requires cfg.emitEnter
    ensures SamplesOf(StepEvents(cfg, acc, step)) == if Reports(cfg, acc, step) then [step] else []
  {
    hide SamplesOf, MissingEvents, TransitionEvents, Opt, SecondsSince;
    var enter := if Enters(acc, step) then Opt(cfg.emitEnter, StateEnter(step.ts, "none", step.state.value)) else [];
    var missing, change := MissingEvents(cfg, acc, step), TransitionEvents(cfg, acc, step);
    var guard := if Guards(cfg, acc, step)
      then [DwellGuard(step.ts, step.state.value, SecondsSince(acc.lastTs, step.ts), cfg.maxDwell)] else [];
    SamplesOfEntry(cfg, acc, step);
    SamplesOfMissing(cfg, acc, step);
    SamplesOfTransition(cfg, acc, step);
    SamplesOfGuard(cfg, acc, step);
    SamplesConcat(enter, missing);
    SamplesConcat(enter + missing, change);
    SamplesConcat(enter + missing + change, guard);
  }

  lemma {:induction false} SamplesOfRun(cfg: Config, steps: seq<Step>)
    requires cfg.emitEnter
    ensures SamplesOf(Run(cfg, INITIAL, steps).emitted) == Reported(cfg, steps)
  {
    hide StepEvents, Reports, After;
    if steps == [] {
      NoSamples();
    } else {
      var rest, last := steps[..|steps| - 1], steps[|steps| - 1];
      var acc := Run(cfg, INITIAL, rest);
      SamplesOfRun(cfg, rest);
      SamplesOfStep(cfg, acc, last);
      AfterEmits(cfg, acc, last);
      SamplesConcat(acc.emitted, StepEvents(cfg, acc, last));
    }
  }

  // ---------- The reported samples decide the events ----------

  /** Equal but for the times remembered of a missing key, which nothing looks at. */
  predicate Alike(s: State, t: State) {
    && s.emitted == t.emitted && s.lastState == t.lastState && s.missing == t.missing
    && (s.missing ==> s.lastState.None?)
    && (!s.missing ==> s.lastTs == t.lastTs && s.guardTs == t.guardTs)
  }

  lemma AlikeStep(cfg: Config, s: State, t: State, step: Step)
    requires Alike(s, t)
    ensures StepEvents(cfg, s, step) == StepEvents(cfg, t, step)
    ensures Reports(cfg, s, step) == Reports(cfg, t, step)
    ensures Alike(After(cfg, s, step), After(cfg, t, step))
  {
    assert MissingEvents(cfg, s, step) == MissingEvents(cfg, t, step);
    assert TransitionEvents(cfg, s, step) == TransitionEvents(cfg, t, step);
    assert Guards(cfg, s, step) == Guards(cfg, t, step);
  }

  lemma UnreportedStep(cfg: Config, s: State, step: Step)
    requires Alike(s, s) && !Reports(cfg, s, step)
    ensures StepEvents(cfg, s, step) == []
    ensures Alike(After(cfg, s, step), s)
  {
  }

  /** Running over the reported samples alone gives the same events. */
  lemma {:induction false} ReportedSuffice(cfg: Config, steps: seq<Step>)
    ensures Alike(Run(cfg, INITIAL, steps), Run(cfg, INITIAL, Reported(cfg, steps)))
  {
    hide StepEvents, Reports, After;
    if steps != [] {
      var rest, last := steps[..|steps| - 1], steps[|steps| - 1];
      ReportedSuffice(cfg, rest);
      var s, t := Run(cfg, INITIAL, rest), Run(cfg, INITIAL, Reported(cfg, rest));
      AlikeStep(cfg, s, t, last);
      if Reports(cfg, s, last) {
        RunAppend(cfg, Reported(cfg, rest), last);
      } else {
        UnreportedStep(cfg, s, last);
        assert Reported(cfg, rest) + [] == Reported(cfg, rest);
      }
    }
  }

  lemma RunAppend(cfg: Config, steps: seq<Step>, step: Step)
    ensures Run(cfg, INITIAL, steps + [step]) == After(cfg, Run(cfg, INITIAL, steps), step)
  {
    assert (steps + [step])[..|steps|] == steps;
  }

  /**
   * With entry events on: two sample sequences give the same events if and only if the same samples are notable in
   * both.
   */
  lemma SameEventsIff(cfg: Config, xs: seq<Step>, ys: seq<Step>)
    requires cfg.emitEnter
    ensures Run(cfg, INITIAL, xs).emitted == Run(cfg, INITIAL, ys).emitted <==> Notables(cfg, xs) == Notables(cfg, ys)
  {
    hide Run, Reported, Notables;
    ReportedAreNotable(cfg, xs);
    ReportedAreNotable(cfg, ys);
    SamplesOfRun(cfg, xs);
    SamplesOfRun(cfg, ys);
    ReportedSuffice(cfg, xs);
    ReportedSuffice(cfg, ys);
  }

  /** Running over the notable samples alone gives the same events, for any emission flags. */
  lemma NotablesSuffice(cfg: Config, steps: seq<Step>)
    ensures Run(cfg, INITIAL, steps).emitted == Run(cfg, INITIAL, Notables(cfg, steps)).emitted
  {
    hide Run, Reported, Notables;
    ReportedAreNotable(cfg, steps);
    ReportedSuffice(cfg, steps);
  }
}
