/**
 When forgetting the state can be seen although entries are not reported, for runs without dwell guards. A forgotten
 arrival then shows only in the dwell of the transition that ends its block.
 */
module WithoutEntries {
  import opened Sums
  import opened CategoricalEvents
  import opened CategoricalRuns
  import opened Segmentation
  import opened SegmentedRuns
  import opened SegmentationVisibility

  predicate NoEntriesNoGuards(cfg: Config) {
    !cfg.emitEnter && cfg.maxDwell <= 0.0
  }

  /** The sample a run with resets takes for the arrival in the state of sample `k`. */
  ghost function Since(steps: seq<Step>, resets: set<int>, k: nat): (i: nat)
    requires k < |steps|
    ensures i <= k
  {
    if k > 0 && k !in resets && steps[k - 1].state == steps[k].state then Since(steps, resets, k - 1) else k
  }

  predicate ChangesAt(steps: seq<Step>, i: int)
    requires 1 <= i < |steps|
  {
    steps[i - 1].state.Some? && steps[i].state.Some? && steps[i - 1].state != steps[i].state
  }

  /** The reset falls neither before a missing sample nor on a change of state. */
  predicate Unnoticed(steps: seq<Step>, i: int)
    requires 1 <= i < |steps|
  {
    steps[i].state.Some? && !ChangesAt(steps, i)
  }

  ghost predicate AllUnnoticed(steps: seq<Step>, resets: set<int>) {
    forall i :: i in resets && 1 <= i < |steps| ==> Unnoticed(steps, i)
  }

  /** Every state that is left for another is taken to have begun when it did. */
  ghost predicate DwellsKept(steps: seq<Step>, resets: set<int>) {
    forall i :: 1 <= i < |steps| && ChangesAt(steps, i) ==>
      steps[Since(steps, resets, i - 1)].ts == steps[BlockStart(steps, i - 1)].ts
  }

  // ---------- The state of a run with resets ----------

  lemma {:induction false} SincePrefix(steps: seq<Step>, resets: set<int>, n: nat, k: nat)
    requires k < n <= |steps|
    ensures Since(steps[..n], resets, k) == Since(steps, resets, k)
  {
    if k > 0 {
      SincePrefix(steps, resets, n, k - 1);
    }
  }

  lemma {:induction false} ResetLookback(cfg: Config, steps: seq<Step>, resets: set<int>)
    requires steps != []
    ensures var k, s := |steps| - 1, ResetRun(cfg, steps, resets);
            && s.lastState == steps[k].state
            && s.missing == steps[k].state.None?
            && (steps[k].state.Some? ==> s.lastTs == Some(steps[Since(steps, resets, k)].ts))
  {
    hide StepEvents, Guards;
    var k := |steps| - 1;
    if k > 0 {
      ResetLookback(cfg, steps[..k], resets);
      SincePrefix(steps, resets, k, k - 1);
    } else {
      assert ResetRun(cfg, steps[..0], resets) == INITIAL;
    }
  }

  // ---------- Drops and transitions ----------

  predicate Moves(e: Event) {
    e.Dropped? || e.Transition?
  }

  function MovesOf(events: seq<Event>): seq<Event> {
    if events == [] then []
    else MovesOf(events[..|events| - 1]) + Opt(Moves(events[|events| - 1]), events[|events| - 1])
  }

  lemma {:induction false} MovesConcat(xs: seq<Event>, ys: seq<Event>)
    ensures MovesOf(xs + ys) == MovesOf(xs) + MovesOf(ys)
  {
    hide Opt, Moves;
    if ys == [] {
      assert xs + ys == xs;
    } else {
      MovesConcat(xs, ys[..|ys| - 1]);
      assert (xs + ys)[..|xs + ys| - 1] == xs + ys[..|ys| - 1];
    }
  }

  lemma MovesOpt(condition: bool, e: Event)
    ensures MovesOf(Opt(condition, e)) == Opt(condition && Moves(e), e)
    ensures MovesOf([e]) == Opt(Moves(e), e)
    ensures MovesOf([]) == []
  {
    assert [e][..0] == [];
  }

  lemma IdlePair(c: bool, e: Event, c': bool, e': Event)
    requires !Moves(e) && !Moves(e')
    ensures MovesOf(Opt(c, e) + Opt(c', e')) == []
  {
    MovesOpt(c, e);
    MovesOpt(c', e');
    MovesConcat(Opt(c, e), Opt(c', e'));
  }

  /** The drop or transition a sample emits. */
  function MoveAt(acc: State, step: Step): (moves: seq<Event>)
    ensures |moves| <= 1
  {
    if Drops(acc, step)
    then [Dropped(step.ts, if acc.lastState.Some? then acc.lastState.value else "none", "missing")]
    else if Transitions(acc, step)
    then [Transition(step.ts, acc.lastState.value, step.state.value, SecondsSince(acc.lastTs, step.ts))]
    else []
  }

  lemma MissingMoves(cfg: Config, acc: State, step: Step)
    ensures MovesOf(MissingEvents(cfg, acc, step)) == if Drops(acc, step) then MoveAt(acc, step) else []
  {
    hide MovesOf;
    var from := if acc.lastState.Some? then acc.lastState.value else "none";
    var exits := Drops(acc, step) && cfg.emitExit && acc.lastState.Some?;
    var exit, drop := StateExit(step.ts, from, "missing", None), Dropped(step.ts, from, "missing");
    MovesOpt(exits, exit);
    MovesOpt(Drops(acc, step), drop);
    MovesConcat(Opt(exits, exit), Opt(Drops(acc, step), drop));
  }

  lemma TransitionMoves(cfg: Config, acc: State, step: Step)
    ensures MovesOf(TransitionEvents(cfg, acc, step)) == if Transitions(acc, step) then MoveAt(acc, step) else []
  {
    hide MovesOf, IsIllegal, Bucket, SecondsSince;
    if Transitions(acc, step) {
      var from, to, dwell := acc.lastState.value, step.state.value, SecondsSince(acc.lastTs, step.ts);
      IdlePair(cfg.emitExit, StateExit(step.ts, from, to, Some(dwell)), cfg.emitBucket,
        DwellBucket(step.ts, from, dwell, Bucket(dwell)));
      IdlePair(cfg.minDwell > 0.0 && dwell < cfg.minDwell, DwellViolation(step.ts, from, to, dwell, cfg.minDwell),
               IsIllegal(cfg.illegal, from, to), IllegalTransition(step.ts, from, to));
      var leaving, arriving :=
        LeavingEvents(cfg, step.ts, from, to, dwell), ArrivingEvents(cfg, step.ts, from, to, dwell);
      var move := Transition(step.ts, from, to, dwell);
      assert MovesOf(leaving) == [] && MovesOf(arriving) == [];
      hide LeavingEvents, ArrivingEvents;
      MovesOpt(true, move);
      MovesConcat(leaving, [move]);
      MovesConcat(leaving + [move], arriving);
    } else {
      NoMoves();
    }
  }

  lemma NoMoves()
    ensures MovesOf([]) == []
  {
  }

  lemma StepIsMissingOrChange(cfg: Config, acc: State, step: Step)
    requires NoEntriesNoGuards(cfg)
    ensures StepEvents(cfg, acc, step) == MissingEvents(cfg, acc, step) + TransitionEvents(cfg, acc, step)
  {
    hide MissingEvents, TransitionEvents;
  }

  lemma StepMoves(cfg: Config, acc: State, step: Step)
    requires NoEntriesNoGuards(cfg)
    ensures MovesOf(StepEvents(cfg, acc, step)) == MoveAt(acc, step)
  {
    hide MissingEvents, TransitionEvents, StepEvents, MovesOf;
    StepIsMissingOrChange(cfg, acc, step);
    MissingMoves(cfg, acc, step);
    TransitionMoves(cfg, acc, step);
    MovesConcat(MissingEvents(cfg, acc, step), TransitionEvents(cfg, acc, step));
  }

  // ---------- Resets that move more ----------

  /** Drops of an unknown state count twice, transitions count against. */
  function Balance(events: seq<Event>): int {
    if events == [] then 0
    else Balance(events[..|events| - 1]) + match events[|events| - 1]
      case Dropped(_, from, _) => if from == "none" then 2 else 1
      case Transition(_, _, _, _) => -1
      case _ => 0
  }

  lemma BalanceOfOne(e: Event)
    ensures Balance([e]) == match e
              case Dropped(_, from, _) => if from == "none" then 2 else 1
              case Transition(_, _, _, _) => -1
              case _ => 0
  {
    assert [e][..0] == [];
  }

  lemma BalanceAppends(xs: seq<Event>, ys: seq<Event>)
    requires |ys| <= 1
    ensures Balance(xs + ys) == Balance(xs) + Balance(ys)
  {
    if |ys| == 1 {
      BalanceOfOne(ys[0]);
      assert ys == [ys[0]] && (xs + ys)[..|xs|] == xs;
    } else {
      assert xs + ys == xs;
    }
  }

  lemma MovesGrow(cfg: Config, acc: State, step: Step)
    requires NoEntriesNoGuards(cfg)
    ensures MovesOf(After(cfg, acc, step).emitted) == MovesOf(acc.emitted) + MoveAt(acc, step)
  {
    hide StepEvents, MovesOf;
    AfterEmits(cfg, acc, step);
    StepMoves(cfg, acc, step);
    MovesConcat(acc.emitted, StepEvents(cfg, acc, step));
  }

  /** What a reset adds to the balance of a sample: nothing if it is unnoticed. */
  lemma ResetBalance(s: State, step: Step)
    requires s.lastState.Some? == !s.missing && s.lastState != Some("none")
    ensures var anew := Balance(MoveAt(INITIAL.(emitted := s.emitted), step));
            && anew >= Balance(MoveAt(s, step))
            && (anew == Balance(MoveAt(s, step)) <==> step.state.Some? && !Transitions(s, step))
  {
    var anew := INITIAL.(emitted := s.emitted);
    if step.state.None? {
      BalanceOfOne(Dropped(step.ts, "none", "missing"));
      if Drops(s, step) {
        BalanceOfOne(MoveAt(s, step)[0]);
      }
    } else if Transitions(s, step) {
      BalanceOfOne(MoveAt(s, step)[0]);
    }
  }

  /** The states of two runs differ in times only. */
  predicate Level(s: State, t: State) {
    s.lastState == t.lastState && s.missing == t.missing
  }

  lemma LevelBalance(s: State, t: State, step: Step)
    requires Level(s, t)
    ensures Balance(MoveAt(s, step)) == Balance(MoveAt(t, step)) && |MoveAt(s, step)| == |MoveAt(t, step)|
  {
    if Transitions(s, step) {
      BalanceOfOne(MoveAt(s, step)[0]);
      BalanceOfOne(MoveAt(t, step)[0]);
    }
  }

  lemma RunsAreLevel(cfg: Config, steps: seq<Step>, resets: set<int>)
    ensures Level(ResetRun(cfg, steps, resets), Run(cfg, INITIAL, steps))
    ensures steps != [] ==>
              && Run(cfg, INITIAL, steps).lastState == steps[|steps| - 1].state
              && Run(cfg, INITIAL, steps).missing == steps[|steps| - 1].state.None?
  {
    if steps != [] {
      ResetLookback(cfg, steps, resets);
      StateIsLookback(cfg, steps);
    }
  }

  /** Resets never lower the balance, and keep it only if all of them are unnoticed. */
  lemma {:induction false} BalanceTells(cfg: Config, steps: seq<Step>, resets: set<int>)
    requires NoEntriesNoGuards(cfg) && 0 !in resets && NoLiteralNone(steps)
    ensures var reset := Balance(MovesOf(ResetRun(cfg, steps, resets).emitted));
            var plain := Balance(MovesOf(Run(cfg, INITIAL, steps).emitted));
            && reset >= plain
            && (reset == plain <==> AllUnnoticed(steps, resets))
  {
    hide After, MovesOf, Balance, MoveAt;
    if steps != [] {
      var n := |steps| - 1;
      var rest, step := steps[..n], steps[n];
      var reset, plain := ResetRun(cfg, rest, resets), Run(cfg, INITIAL, rest);
      var acc := if n in resets then INITIAL.(emitted := reset.emitted) else reset;
      BalanceTells(cfg, rest, resets);
      RunsAreLevel(cfg, rest, resets);
      MovesGrow(cfg, acc, step);
      MovesGrow(cfg, plain, step);
      BalanceAppends(MovesOf(reset.emitted), MoveAt(acc, step));
      BalanceAppends(MovesOf(plain.emitted), MoveAt(plain, step));
      LevelBalance(reset, plain, step);
      UnnoticedPrefix(steps, resets);
      if n in resets {
        assert rest[n - 1] == steps[n - 1];
        ResetBalance(reset, step);
      }
    }
  }

  lemma UnnoticedPrefix(steps: seq<Step>, resets: set<int>)
    requires steps != [] && 0 !in resets
    ensures var n := |steps| - 1;
            AllUnnoticed(steps, resets) <==> AllUnnoticed(steps[..n], resets) && (n in resets ==> Unnoticed(steps, n))
  {
    var n := |steps| - 1;
    assert forall i :: 1 <= i < n ==> Unnoticed(steps[..n], i) == Unnoticed(steps, i);
  }

  // ---------- Dwells ----------

  lemma SameTimes(start: Option<int>, start': Option<int>, ts: int)
    requires start.Some? && start'.Some?
    ensures SecondsSince(start, ts) == SecondsSince(start', ts) <==> start == start'
  {
  }

  /** Two runs on the same level move alike if and only if they agree on the arrival, where it matters. */
  lemma MovesAlike(s: State, t: State, step: Step)
    requires Level(s, t) && (s.lastState.Some? ==> s.lastTs.Some? && t.lastTs.Some?)
    ensures MoveAt(s, step) == MoveAt(t, step) <==> (Transitions(s, step) ==> s.lastTs == t.lastTs)
  {
    hide SecondsSince;
    if Transitions(s, step) {
      SameTimes(s.lastTs, t.lastTs, step.ts);
    }
  }

  /** An unnoticed reset moves nothing, as does the sample without it. */
  lemma UnnoticedMoves(s: State, t: State, step: Step)
    requires Level(s, t) && s.lastState.Some? == !s.missing && step.state.Some? && !Transitions(t, step)
    ensures MoveAt(INITIAL.(emitted := s.emitted), step) == MoveAt(t, step) == []
  {
  }

  lemma DwellsPrefix(steps: seq<Step>, resets: set<int>)
    requires steps != []
    ensures var n := |steps| - 1;
            DwellsKept(steps, resets) <==>
            && DwellsKept(steps[..n], resets)
            && (n > 0 && ChangesAt(steps, n) ==>
              steps[Since(steps, resets, n - 1)].ts == steps[BlockStart(steps, n - 1)].ts)
  {
    var n := |steps| - 1;
    var rest := steps[..n];
    hide Since, BlockStart;
    forall i | 1 <= i < n
      ensures ChangesAt(rest, i) == ChangesAt(steps, i)
      ensures rest[Since(rest, resets, i - 1)].ts == steps[Since(steps, resets, i - 1)].ts
      ensures rest[BlockStart(rest, i - 1)].ts == steps[BlockStart(steps, i - 1)].ts
    {
      SincePrefix(steps, resets, n, i - 1);
      BlockStartPrefix(steps, n, i - 1);
    }
  }

  lemma {:induction false} BlockStartPrefix(steps: seq<Step>, n: nat, k: nat)
    requires k < n <= |steps|
    ensures BlockStart(steps[..n], k) == BlockStart(steps, k)
  {
    if k > 0 {
      BlockStartPrefix(steps, n, k - 1);
    }
  }

  /** The states before the last sample, in terms of the samples. */
  ghost predicate Stands(steps: seq<Step>, resets: set<int>, reset: State, plain: State)
    requires |steps| >= 2
  {
    var n := |steps| - 1;
    && Level(reset, plain) && plain.lastState == steps[n - 1].state && plain.missing == steps[n - 1].state.None?
    && (plain.lastState.Some? ==>
        && reset.lastTs == Some(steps[Since(steps, resets, n - 1)].ts)
        && plain.lastTs == Some(steps[BlockStart(steps, n - 1)].ts))
  }

  lemma StatesBeforeLast(cfg: Config, steps: seq<Step>, resets: set<int>)
    requires |steps| >= 2
    ensures var n := |steps| - 1;
            Stands(steps, resets, ResetRun(cfg, steps[..n], resets), Run(cfg, INITIAL, steps[..n]))
  {
    var n := |steps| - 1;
    RunsAreLevel(cfg, steps[..n], resets);
    ResetLookback(cfg, steps[..n], resets);
    StateIsLookback(cfg, steps[..n]);
    SincePrefix(steps, resets, n, n - 1);
    BlockStartPrefix(steps, n, n - 1);
    hide Run, ResetRun, Since, BlockStart, LatestGuard;
  }

  /** With unnoticed resets, the last samples move alike if and only if the dwell that ends there, if any, is kept. */
  lemma LastMovesAlike(steps: seq<Step>, resets: set<int>, reset: State, plain: State)
    requires |steps| >= 2 && Stands(steps, resets, reset, plain)
    requires |steps| - 1 in resets ==> Unnoticed(steps, |steps| - 1)
    ensures var n := |steps| - 1;
            var acc := if n in resets then INITIAL.(emitted := reset.emitted) else reset;
            && |MoveAt(acc, steps[n])| == |MoveAt(plain, steps[n])|
            && (MoveAt(acc, steps[n]) == MoveAt(plain, steps[n])
                <==> (ChangesAt(steps, n) ==>
                  steps[Since(steps, resets, n - 1)].ts == steps[BlockStart(steps, n - 1)].ts))
  {
    var n := |steps| - 1;
    hide Since, BlockStart, MoveAt;
    LevelBalance(reset, plain, steps[n]);
    if n in resets {
      UnnoticedMoves(reset, plain, steps[n]);
    } else {
      MovesAlike(reset, plain, steps[n]);
    }
  }

  /** With unnoticed resets, the same moves are made if and only if the dwells are kept. */
  lemma {:induction false} MovesTellDwells(cfg: Config, steps: seq<Step>, resets: set<int>)
    requires NoEntriesNoGuards(cfg) && 0 !in resets && AllUnnoticed(steps, resets)
    ensures var reset := MovesOf(ResetRun(cfg, steps, resets).emitted);
            var plain := MovesOf(Run(cfg, INITIAL, steps).emitted);
            && |reset| == |plain|
            && (reset == plain <==> DwellsKept(steps, resets))
  {
    hide After, MovesOf, MoveAt, DwellsKept, AllUnnoticed;
    if steps == [] {
      assert DwellsKept(steps, resets) by { NothingKept(resets); }
    } else {
      var n := |steps| - 1;
      var rest, step := steps[..n], steps[n];
      var reset, plain := ResetRun(cfg, rest, resets), Run(cfg, INITIAL, rest);
      var acc := if n in resets then INITIAL.(emitted := reset.emitted) else reset;
      UnnoticedPrefix(steps, resets);
      MovesTellDwells(cfg, rest, resets);
      MovesGrow(cfg, acc, step);
      MovesGrow(cfg, plain, step);
      DwellsPrefix(steps, resets);
      if n > 0 {
        StatesBeforeLast(cfg, steps, resets);
        LastMovesAlike(steps, resets, reset, plain);
      }
      SameConcat(MovesOf(reset.emitted), MovesOf(plain.emitted), MoveAt(acc, step), MoveAt(plain, step));
    }
  }

  lemma NothingKept(resets: set<int>)
    ensures DwellsKept([], resets)
  {
  }

  lemma SameConcat<T>(xs: seq<T>, ys: seq<T>, us: seq<T>, vs: seq<T>)
    requires |xs| == |ys| && |us| == |vs|
    ensures xs + us == ys + vs <==> xs == ys && us == vs
  {
    if xs + us == ys + vs {
      assert xs == (xs + us)[..|xs|] && us == (xs + us)[|xs|..];
      assert ys == (ys + vs)[..|ys|] && vs == (ys + vs)[|ys|..];
    }
  }

  // ---------- The characterisation ----------

  /** On the same level, with the arrival agreed on where it matters, a sample emits the same. */
  lemma SameStepEvents(cfg: Config, s: State, t: State, step: Step)
    requires NoEntriesNoGuards(cfg) && Level(s, t) && (Transitions(s, step) ==> s.lastTs == t.lastTs)
    ensures StepEvents(cfg, s, step) == StepEvents(cfg, t, step)
  {
    StepIsMissingOrChange(cfg, s, step);
    StepIsMissingOrChange(cfg, t, step);
    hide StepEvents;
  }

  lemma UnnoticedStepEvents(cfg: Config, s: State, step: Step)
    requires NoEntriesNoGuards(cfg) && s.lastState.Some? == !s.missing && step.state.Some? && !Transitions(s, step)
    ensures StepEvents(cfg, INITIAL.(emitted := s.emitted), step) == StepEvents(cfg, s, step) == []
  {
  }

  lemma LastEventsAlike(cfg: Config, steps: seq<Step>, resets: set<int>, reset: State, plain: State)
    requires NoEntriesNoGuards(cfg) && |steps| >= 2 && Stands(steps, resets, reset, plain)
    requires |steps| - 1 in resets ==> Unnoticed(steps, |steps| - 1)
    requires var n := |steps| - 1;
             ChangesAt(steps, n) ==> steps[Since(steps, resets, n - 1)].ts == steps[BlockStart(steps, n - 1)].ts
    ensures var n := |steps| - 1;
            StepEvents(cfg, if n in resets then INITIAL.(emitted := reset.emitted) else reset, steps[n]) ==
            StepEvents(cfg, plain, steps[n])
  {
    var n := |steps| - 1;
    hide Since, BlockStart, StepEvents;
    if n in resets {
      UnnoticedStepEvents(cfg, plain, steps[n]);
      UnnoticedStepEvents(cfg, reset, steps[n]);
    } else {
      SameStepEvents(cfg, reset, plain, steps[n]);
    }
  }

  lemma {:induction false} UnnoticedResetsInvisible(cfg: Config, steps: seq<Step>, resets: set<int>)
    requires NoEntriesNoGuards(cfg) && 0 !in resets && AllUnnoticed(steps, resets) && DwellsKept(steps, resets)
    ensures ResetRun(cfg, steps, resets).emitted == Run(cfg, INITIAL, steps).emitted
  {
    hide StepEvents, After, DwellsKept, AllUnnoticed;
    if steps != [] {
      var n := |steps| - 1;
      var rest := steps[..n];
      var reset, plain := ResetRun(cfg, rest, resets), Run(cfg, INITIAL, rest);
      UnnoticedPrefix(steps, resets);
      DwellsPrefix(steps, resets);
      UnnoticedResetsInvisible(cfg, rest, resets);
      if n > 0 {
        StatesBeforeLast(cfg, steps, resets);
        LastEventsAlike(cfg, steps, resets, reset, plain);
      }
      AfterEmits(cfg, if n in resets then INITIAL.(emitted := reset.emitted) else reset, steps[n]);
      AfterEmits(cfg, plain, steps[n]);
    }
  }

  /**
   * Without entry events and dwell guards, the events with resets are those of the uninterrupted run if and only if
   * no reset falls before a missing sample or on a change of state, and every block that ends with a transition has
   * its latest reset, if any, at the time it began.
   */
  lemma ResetsUnseenIff(cfg: Config, steps: seq<Step>, resets: set<int>)
    requires NoEntriesNoGuards(cfg) && 0 !in resets && NoLiteralNone(steps)
    ensures ResetRun(cfg, steps, resets).emitted == Run(cfg, INITIAL, steps).emitted
       <==> AllUnnoticed(steps, resets) && DwellsKept(steps, resets)
  {
    hide ResetRun, Run, MovesOf, Balance, AllUnnoticed, DwellsKept, NoLiteralNone;
    if ResetRun(cfg, steps, resets).emitted == Run(cfg, INITIAL, steps).emitted {
      BalanceTells(cfg, steps, resets);
      MovesTellDwells(cfg, steps, resets);
    }
    if AllUnnoticed(steps, resets) && DwellsKept(steps, resets) {
      UnnoticedResetsInvisible(cfg, steps, resets);
    }
  }

  /** The same for a key extracted segment by segment. */
  lemma SegmentationUnseenIff(cfg: Config, rows: seq<Row>, ids: seq<int>)
    requires Covers(rows, ids) && NoEntriesNoGuards(cfg) && NoLiteralNone(StepsOf(rows))
    ensures BuildKey(cfg, rows, ids).events == Run(cfg, INITIAL, StepsOf(rows)).emitted
       <==> AllUnnoticed(StepsOf(rows), Gaps(rows, ids)) && DwellsKept(StepsOf(rows), Gaps(rows, ids))
  {
    hide ResetRun, BuildKey, Run, AllUnnoticed, DwellsKept, StepsOf, Covers;
    SegmentedIsResetRun(cfg, rows, ids);
    ResetsUnseenIff(cfg, StepsOf(rows), Gaps(rows, ids));
  }
}
