/**
 Which events come together. Every change of state is reported with its exit, its bucket, its dwell violation and its
 illegal transition exactly where the settings ask for them, next to it and in that order, and none of these comes
 alone.
 */
module EventCompany {
  import opened Sums
  import opened CategoricalEvents
  import opened Segmentation
  import opened SegmentedRuns
  import opened SegmentOrder

  // ---------- The company an event keeps ----------

  /** The text of the bucket a dwell falls into. */
  ghost predicate BucketText(dwell: real, text: string) {
    && (dwell < 1.0 ==> text == "lt_1s")
    && (1.0 <= dwell < 5.0 ==> text == "1s_to_5s")
    && (5.0 <= dwell < 30.0 ==> text == "5s_to_30s")
    && (30.0 <= dwell ==> text == "gte_30s")
  }

  /** The pair of states is configured as illegal; pairs are compared as texts joined by U+0001. */
  ghost predicate Configured(cfg: Config, from: string, to: string) {
    exists p :: p in cfg.illegal && p.0 + "\U{0001}" + p.1 == from + "\U{0001}" + to
  }

  ghost predicate TooShort(cfg: Config, dwell: real) {
    0.0 < cfg.minDwell && dwell < cfg.minDwell
  }

  ghost predicate Is(events: seq<Event>, i: int, e: Event) {
    0 <= i < |events| && events[i] == e
  }

  ghost predicate IsBucket(events: seq<Event>, i: int, ts: int, state: string, dwell: real) {
    && 0 <= i < |events| && events[i].DwellBucket?
    && events[i].ts == ts && events[i].state == state && events[i].dwell == dwell
    && BucketText(dwell, events[i].bucket)
  }

  ghost predicate IsMove(events: seq<Event>, i: int, ts: int, from: string, to: string) {
    && 0 <= i < |events| && events[i].Transition?
    && events[i].ts == ts && events[i].from == from && events[i].to == to
  }

  /** A transition at `k` has its company around it. */
  ghost predicate Surrounded(cfg: Config, events: seq<Event>, k: int, ts: int, from: string, to: string, dwell: real) {
    && (cfg.emitBucket ==> IsBucket(events, k - 1, ts, from, dwell))
    && (cfg.emitExit ==> Is(events, if cfg.emitBucket then k - 2 else k - 1, StateExit(ts, from, to, Some(dwell))))
    && (TooShort(cfg, dwell) ==> Is(events, k + 1, DwellViolation(ts, from, to, dwell, cfg.minDwell)))
    && (Configured(cfg, from, to) ==>
         Is(events, if TooShort(cfg, dwell) then k + 2 else k + 1, IllegalTransition(ts, from, to)))
  }

  /** The event at `k` is where it belongs: a transition is surrounded, and the others accompany what they tell of. */
  ghost predicate InCompany(cfg: Config, events: seq<Event>, k: int)
    requires 0 <= k < |events|
  {
    match events[k]
    case Transition(ts, from, to, dwell) => Surrounded(cfg, events, k, ts, from, to, dwell)
    case DwellBucket(ts, state, dwell, _) =>
      cfg.emitBucket && exists to :: Is(events, k + 1, Transition(ts, state, to, dwell))
    case StateExit(ts, from, to, dwell) =>
      && cfg.emitExit
      && if dwell.Some?
         then Is(events, if cfg.emitBucket then k + 2 else k + 1, Transition(ts, from, to, dwell.value))
         else Is(events, k + 1, Dropped(ts, from, "missing"))
    case Dropped(ts, from, to) =>
      cfg.emitExit && from != "none" ==> Is(events, k - 1, StateExit(ts, from, "missing", None))
    case DwellViolation(ts, from, to, dwell, minDwell) =>
      TooShort(cfg, dwell) && minDwell == cfg.minDwell && Is(events, k - 1, Transition(ts, from, to, dwell))
    case IllegalTransition(ts, from, to) =>
      && Configured(cfg, from, to)
      && (IsMove(events, k - 1, ts, from, to)
          || (IsMove(events, k - 2, ts, from, to) && TooShort(cfg, events[k - 2].dwell)))
    case StateEnter(_, _, _) => cfg.emitEnter
    case DwellGuard(_, _, _, _) => true
  }

  ghost predicate AllInCompany(cfg: Config, events: seq<Event>) {
    forall k :: 0 <= k < |events| ==> InCompany(cfg, events, k)
  }

  // ---------- Company stays when events are put together ----------

  /** The events at `n` and after are `events`. */
  ghost predicate Holds(all: seq<Event>, n: nat, events: seq<Event>) {
    n + |events| <= |all| && forall i :: 0 <= i < |events| ==> all[n + i] == events[i]
  }

  lemma InCompanyShifted(cfg: Config, before: seq<Event>, events: seq<Event>, after: seq<Event>, k: int)
    requires 0 <= k < |events| && InCompany(cfg, events, k)
    ensures InCompany(cfg, before + events + after, |before| + k)
  {
    var all, n := before + events + after, |before|;
    assert all[n + k] == events[k] && Holds(all, n, events);
    hide Holds, Surrounded, InCompany;
    if events[k].Transition? {
      TransitionShifted(cfg, all, events, n, k);
    } else {
      CompanionShifted(cfg, all, events, n, k);
    }
  }

  lemma TransitionShifted(cfg: Config, all: seq<Event>, events: seq<Event>, n: nat, k: int)
    requires 0 <= k < |events| && n + k < |all| && Holds(all, n, events) && events[k].Transition?
    requires InCompany(cfg, events, k)
    ensures InCompany(cfg, all, n + k)
  {
    assert all[n + k] == events[k];
    hide Surrounded;
    SurroundedShifted(cfg, all, events, n, k, events[k].ts, events[k].from, events[k].to, events[k].dwell);
  }

  lemma IsShifted(all: seq<Event>, events: seq<Event>, n: nat, i: int)
    requires Holds(all, n, events)
    ensures forall e :: Is(events, i, e) ==> Is(all, n + i, e)
    ensures forall ts, from, to :: IsMove(events, i, ts, from, to) ==>
              IsMove(all, n + i, ts, from, to) && all[n + i] == events[i]
  {
    if 0 <= i < |events| {
      assert all[n + i] == events[i];
    }
  }

  lemma CompanionShifted(cfg: Config, all: seq<Event>, events: seq<Event>, n: nat, k: int)
    requires 0 <= k < |events| && n + k < |all| && Holds(all, n, events) && !events[k].Transition?
    requires InCompany(cfg, events, k)
    ensures InCompany(cfg, all, n + k)
  {
    assert all[n + k] == events[k];
    hide BucketText, Configured, TooShort, Holds, Is, IsMove, Surrounded;
    IsShifted(all, events, n, k - 2);
    IsShifted(all, events, n, k - 1);
    IsShifted(all, events, n, k + 1);
    IsShifted(all, events, n, k + 2);
    if events[k].DwellBucket? {
      var e := events[k];
      var to :| Is(events, k + 1, Transition(e.ts, e.state, to, e.dwell));
      assert Is(all, n + (k + 1), Transition(e.ts, e.state, to, e.dwell));
      assert n + k + 1 == n + (k + 1);
    } else if events[k].IllegalTransition? && !IsMove(events, k - 1, events[k].ts, events[k].from, events[k].to) {
      assert n + k - 2 == n + (k - 2);
      assert all[n + (k - 2)] == events[k - 2];
    }
  }

  lemma SurroundedShifted(
    cfg: Config, all: seq<Event>, events: seq<Event>, n: nat, k: int, ts: int, from: string, to: string, dwell: real)
    requires Holds(all, n, events)
    requires Surrounded(cfg, events, k, ts, from, to, dwell)
    ensures Surrounded(cfg, all, n + k, ts, from, to, dwell)
  {
    hide BucketText, Configured, TooShort;
    if cfg.emitBucket {
      assert all[n + (k - 1)] == events[k - 1];
    }
    if cfg.emitExit {
      var i := if cfg.emitBucket then k - 2 else k - 1;
      assert all[n + i] == events[i];
    }
    if TooShort(cfg, dwell) {
      assert all[n + (k + 1)] == events[k + 1];
    }
    if Configured(cfg, from, to) {
      var i := if TooShort(cfg, dwell) then k + 2 else k + 1;
      assert all[n + i] == events[i];
    }
  }

  lemma CompanyConcat(cfg: Config, xs: seq<Event>, ys: seq<Event>)
    requires AllInCompany(cfg, xs) && AllInCompany(cfg, ys)
    ensures AllInCompany(cfg, xs + ys)
  {
    hide InCompany;
    forall k | 0 <= k < |xs + ys|
      ensures InCompany(cfg, xs + ys, k)
    {
      if k < |xs| {
        InCompanyShifted(cfg, [], xs, ys, k);
        assert [] + xs + ys == xs + ys;
      } else {
        InCompanyShifted(cfg, xs, ys, [], k - |xs|);
        assert xs + ys + [] == xs + ys;
      }
    }
  }

  // ---------- One sample ----------

  lemma BucketIsText(dwell: real)
    ensures BucketText(dwell, Bucket(dwell))
  {
  }

  lemma IllegalIffConfigured(cfg: Config, from: string, to: string)
    ensures IsIllegal(cfg.illegal, from, to) <==> Configured(cfg, from, to)
  {
    if p :| p in cfg.illegal && PairKey(p.0, p.1) == PairKey(from, to) {
      assert p.0 + "\U{0001}" + p.1 == from + "\U{0001}" + to;
    }
    if p :| p in cfg.illegal && p.0 + "\U{0001}" + p.1 == from + "\U{0001}" + to {
      assert PairKey(p.0, p.1) == PairKey(from, to);
    }
  }

  lemma TransitionCompany(cfg: Config, acc: State, step: Step)
    ensures AllInCompany(cfg, TransitionEvents(cfg, acc, step))
  {
    if Transitions(acc, step) {
      var ts, from, to, dwell := step.ts, acc.lastState.value, step.state.value, SecondsSince(acc.lastTs, step.ts);
      BucketIsText(dwell);
      IllegalIffConfigured(cfg, from, to);
      hide BucketText, Bucket, Configured, IsIllegal, SecondsSince;
      var leaving, arriving := LeavingEvents(cfg, ts, from, to, dwell), ArrivingEvents(cfg, ts, from, to, dwell);
      var events := leaving + [Transition(ts, from, to, dwell)] + arriving;
      CompanyOfChange(cfg, leaving, arriving, ts, from, to, dwell);
      assert TransitionEvents(cfg, acc, step) == events;
    }
  }

  lemma CompanyOfChange(
    cfg: Config, leaving: seq<Event>, arriving: seq<Event>, ts: int, from: string, to: string, dwell: real)
    requires leaving == LeavingEvents(cfg, ts, from, to, dwell)
    requires arriving == ArrivingEvents(cfg, ts, from, to, dwell)
    requires BucketText(dwell, Bucket(dwell)) && (IsIllegal(cfg.illegal, from, to) <==> Configured(cfg, from, to))
    ensures AllInCompany(cfg, leaving + [Transition(ts, from, to, dwell)] + arriving)
  {
    hide BucketText, Bucket, Configured, IsIllegal;
    var move := Transition(ts, from, to, dwell);
    var events, n := leaving + [move] + arriving, |leaving|;
    assert events[n] == move;
    assert forall i :: 0 <= i < n ==> events[i] == leaving[i];
    assert forall i :: 0 <= i < |arriving| ==> events[n + 1 + i] == arriving[i];
    forall k | 0 <= k < |events|
      ensures InCompany(cfg, events, k)
    {
      if k < n {
        assert events[k] == leaving[k];
        assert Is(events, n, move);
      } else if k > n {
        assert events[k] == arriving[k - n - 1];
        assert IsMove(events, n, ts, from, to);
      }
    }
  }

  lemma MissingCompany(cfg: Config, acc: State, step: Step)
    ensures AllInCompany(cfg, MissingEvents(cfg, acc, step))
  {
  }

  lemma EntryCompany(cfg: Config, ts: int, to: string)
    ensures AllInCompany(cfg, Opt(cfg.emitEnter, StateEnter(ts, "none", to)))
    ensures AllInCompany(cfg, [])
  {
  }

  lemma GuardCompany(cfg: Config, ts: int, state: string, dwell: real)
    ensures AllInCompany(cfg, [DwellGuard(ts, state, dwell, cfg.maxDwell)])
  {
  }

  lemma StepCompany(cfg: Config, acc: State, step: Step)
    ensures AllInCompany(cfg, StepEvents(cfg, acc, step))
  {
    hide AllInCompany, MissingEvents, TransitionEvents, Opt, SecondsSince;
    var enter := if Enters(acc, step) then Opt(cfg.emitEnter, StateEnter(step.ts, "none", step.state.value)) else [];
    var missing, change := MissingEvents(cfg, acc, step), TransitionEvents(cfg, acc, step);
    var guard := if Guards(cfg, acc, step)
      then [DwellGuard(step.ts, step.state.value, SecondsSince(acc.lastTs, step.ts), cfg.maxDwell)] else [];
    EntryCompany(cfg, step.ts, if step.state.Some? then step.state.value else "");
    if Guards(cfg, acc, step) {
      GuardCompany(cfg, step.ts, step.state.value, SecondsSince(acc.lastTs, step.ts));
    }
    MissingCompany(cfg, acc, step);
    TransitionCompany(cfg, acc, step);
    CompanyConcat(cfg, enter, missing);
    CompanyConcat(cfg, enter + missing, change);
    CompanyConcat(cfg, enter + missing + change, guard);
  }

  /** In the events of every run, whatever the flags, every event keeps its company. */
  lemma {:induction false} RunKeepsCompany(cfg: Config, steps: seq<Step>)
    ensures AllInCompany(cfg, Run(cfg, INITIAL, steps).emitted)
  {
    hide StepEvents, AllInCompany, After;
    if steps == [] {
      EntryCompany(cfg, 0, "");
    } else {
      var rest, last := steps[..|steps| - 1], steps[|steps| - 1];
      var acc := Run(cfg, INITIAL, rest);
      RunKeepsCompany(cfg, rest);
      StepCompany(cfg, acc, last);
      AfterEmits(cfg, acc, last);
      CompanyConcat(cfg, acc.emitted, StepEvents(cfg, acc, last));
    }
  }

  lemma {:induction false} ResetRunKeepsCompany(cfg: Config, steps: seq<Step>, resets: set<int>)
    ensures AllInCompany(cfg, ResetRun(cfg, steps, resets).emitted)
  {
    hide StepEvents, AllInCompany, After;
    if steps == [] {
      EntryCompany(cfg, 0, "");
    } else {
      var n := |steps| - 1;
      var reset := ResetRun(cfg, steps[..n], resets);
      var acc := if n in resets then INITIAL.(emitted := reset.emitted) else reset;
      ResetRunKeepsCompany(cfg, steps[..n], resets);
      StepCompany(cfg, acc, steps[n]);
      AfterEmits(cfg, acc, steps[n]);
      CompanyConcat(cfg, acc.emitted, StepEvents(cfg, acc, steps[n]));
    }
  }

  /** The same for the events extracted for a key, whatever segments its rows are in. */
  lemma ExtractionKeepsCompany(cfg: Config, rows: seq<Row>, ids: seq<int>)
    requires Visits(rows, ids)
    ensures AllInCompany(cfg, BuildKey(cfg, rows, ids).events)
  {
    hide AllInCompany, BuildKey, ResetRun;
    AnyRowsAreResetRun(cfg, rows, ids);
    var sorted := InSegmentOrder(rows, ids);
    ResetRunKeepsCompany(cfg, StepsOf(sorted), Gaps(sorted, ids));
  }
}
