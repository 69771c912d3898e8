/** What every run of the categorical state machine keeps: the state it reaches, and the protocol its events obey. */
module CategoricalRuns {
  import opened Sums
  import opened CategoricalEvents

  // ---------- The state, read off the samples ----------

  /** Where the block of equal states that ends at sample `k` begins. */
  function BlockStart(steps: seq<Step>, k: nat): (i: nat)
    requires k < |steps|
    ensures i <= k
    ensures forall j :: i <= j <= k ==> steps[j].state == steps[k].state
    ensures i > 0 ==> steps[i - 1].state != steps[k].state
  {
    if k > 0 && steps[k - 1].state == steps[k].state then BlockStart(steps, k - 1) else k
  }

  /** The time of the latest dwell guard inside the block that ends at sample `k`. */
  function LatestGuard(cfg: Config, steps: seq<Step>, k: nat): Option<int>
    requires k < |steps|
  {
    if k == 0 || steps[k - 1].state != steps[k].state then None
    else
      var previous := LatestGuard(cfg, steps, k - 1);
      var ts := steps[k].ts;
      if && cfg.maxDwell > 0.0
         && SecondsBetween(steps[BlockStart(steps, k)].ts, ts) >= cfg.maxDwell
         && (previous.Some? ==> SecondsBetween(previous.value, ts) >= cfg.maxDwell)
      then Some(ts)
      else previous
  }

  /** The machine's state after a non-empty run is determined by looking back from the last sample. */
  lemma {:induction false} StateIsLookback(cfg: Config, steps: seq<Step>)
    requires steps != []
    ensures var k, s := |steps| - 1, Run(cfg, INITIAL, steps);
            && s.lastState == steps[k].state
            && s.missing == steps[k].state.None?
            && s.lastTs == Some(if s.missing then steps[k].ts else steps[BlockStart(steps, k)].ts)
            && s.guardTs == if s.missing then Some(steps[k].ts) else LatestGuard(cfg, steps, k)
  {
    hide StepEvents;
    var k := |steps| - 1;
    var rest := steps[..k];
    if rest == [] {
      assert Run(cfg, INITIAL, rest) == INITIAL;
    } else {
      StateIsLookback(cfg, rest);
      LookbackPrefix(cfg, steps, k, k - 1);
    }
  }

  lemma {:induction false} LookbackPrefix(cfg: Config, steps: seq<Step>, n: nat, k: nat)
    requires k < n <= |steps|
    ensures BlockStart(steps[..n], k) == BlockStart(steps, k)
    ensures LatestGuard(cfg, steps[..n], k) == LatestGuard(cfg, steps, k)
  {
    if k > 0 {
      LookbackPrefix(cfg, steps, n, k - 1);
    }
  }

  // ---------- The protocol of the events ----------

  /**
   * What a reader of the event stream alone knows. Inside a state it remembers when the key was entered, when the
   * current state began, and the guards seen since.
   */
  datatype Ledger =
    | Start
    | Outside
    | Inside(state: string, enteredAt: int, since: int, lastGuard: Option<int>, guards: nat,
      arrival: Option<(string, real)>)

  /** The event is allowed in this situation, and its payload is right. */
  predicate Accepts(cfg: Config, l: Ledger, e: Event) {
    match e
    case StateEnter(_, from, _) => !l.Inside? && from == "none"
    case StateExit(ts, from, _, dwell) => l.Inside? && from == l.state
      && (dwell.Some? ==> dwell.value == SecondsBetween(l.since, ts))
    case Dropped(_, from, to) => !l.Outside? && to == "missing" && from == (if l.Inside? then l.state else "none")
    case DwellBucket(ts, state, dwell, bucket) =>
      l.Inside? && state == l.state && dwell == SecondsBetween(l.since, ts) && bucket == Bucket(dwell)
    case Transition(ts, from, to, dwell) => l.Inside? && from == l.state && to != from
      && dwell == SecondsBetween(l.since, ts)
    case DwellViolation(ts, from, to, dwell, minDwell) =>
      l.Inside? && ts == l.since && to == l.state && l.arrival == Some((from, dwell))
        && dwell < minDwell == cfg.minDwell
    case IllegalTransition(ts, from, to) =>
      l.Inside? && ts == l.since && to == l.state && l.arrival.Some? && l.arrival.value.0 == from
        && IsIllegal(cfg.illegal, from, to)
    case DwellGuard(ts, state, dwell, maxDwell) =>
      && l.Inside? && state == l.state && dwell == SecondsBetween(l.since, ts)
        && 0.0 < maxDwell == cfg.maxDwell <= dwell
      && (l.lastGuard.Some? ==> SecondsBetween(l.lastGuard.value, ts) >= maxDwell)
  }

  function Advance(l: Ledger, e: Event): Ledger {
    match e
    case StateEnter(ts, _, to) => Inside(to, ts, ts, None, 0, None)
    case Dropped(_, _, _) => Outside
    case Transition(ts, from, to, dwell) => if l.Inside? then Inside(to, l.enteredAt, ts, None, 0, Some((from, dwell)))
      else l
    case DwellGuard(ts, _, _, _) => if l.Inside? then l.(lastGuard := Some(ts), guards := l.guards + 1) else l
    case _ => l
  }

  /** The situation after the events, if all of them were accepted in turn. */
  function Audit(cfg: Config, l: Ledger, events: seq<Event>): Option<Ledger> {
    if events == [] then Some(l)
    else
      var before := Audit(cfg, l, events[..|events| - 1]);
      if before.Some? && Accepts(cfg, before.value, events[|events| - 1])
        then Some(Advance(before.value, events[|events| - 1])) else None
  }

  lemma {:induction false} AuditConcat(cfg: Config, l: Ledger, xs: seq<Event>, ys: seq<Event>)
    ensures var m := Audit(cfg, l, xs);
            Audit(cfg, l, xs + ys) == if m.Some? then Audit(cfg, m.value, ys) else None
  {
    if ys == [] {
      assert xs + ys == xs;
    } else {
      AuditConcat(cfg, l, xs, ys[..|ys| - 1]);
      assert (xs + ys)[..|xs + ys| - 1] == xs + ys[..|ys| - 1];
    }
  }

  lemma AuditOpt(cfg: Config, l: Ledger, condition: bool, e: Event)
    requires condition ==> Accepts(cfg, l, e)
    ensures Audit(cfg, l, Opt(condition, e)) == Some(if condition then Advance(l, e) else l)
  {
    if condition {
      assert Opt(condition, e)[..0] == [];
    }
  }

  /** The reader and the machine agree. */
  ghost predicate Agrees(l: Ledger, s: State) {
    match l
    case Start => s.lastState.None? && !s.missing
    case Outside => s.lastState.None? && s.missing
    case Inside(state, _, since, lastGuard, _, _) =>
      s.lastState == Some(state) && !s.missing && s.lastTs == Some(since) && s.guardTs == lastGuard
  }

  lemma MissingStepAudited(cfg: Config, l: Ledger, s: State, step: Step)
    requires Agrees(l, s) && step.state.None?
    ensures var m := Audit(cfg, l, StepEvents(cfg, s, step)); m.Some? && Agrees(m.value, After(cfg, s, step))
  {
    var from := if s.lastState.Some? then s.lastState.value else "none";
    var exit, drop := StateExit(step.ts, from, "missing", None), Dropped(step.ts, from, "missing");
    var p, q := Opt(Drops(s, step) && cfg.emitExit && s.lastState.Some?, exit), Opt(Drops(s, step), drop);
    assert StepEvents(cfg, s, step) == p + q;
    AuditOpt(cfg, l, Drops(s, step) && cfg.emitExit && s.lastState.Some?, exit);
    AuditOpt(cfg, l, Drops(s, step), drop);
    AuditConcat(cfg, l, p, q);
  }

  lemma EnterStepAudited(cfg: Config, l: Ledger, s: State, step: Step)
    requires Agrees(l, s) && Enters(s, step) && cfg.emitEnter
    ensures var m := Audit(cfg, l, StepEvents(cfg, s, step)); m.Some? && Agrees(m.value, After(cfg, s, step))
  {
    var enter := StateEnter(step.ts, "none", step.state.value);
    assert StepEvents(cfg, s, step) == Opt(true, enter);
    AuditOpt(cfg, l, true, enter);
  }

  lemma SameStepAudited(cfg: Config, l: Ledger, s: State, step: Step)
    requires Agrees(l, s) && step.state.Some? && step.state == s.lastState
    ensures var m := Audit(cfg, l, StepEvents(cfg, s, step)); m.Some? && Agrees(m.value, After(cfg, s, step))
  {
    var guard := DwellGuard(step.ts, step.state.value, SecondsSince(s.lastTs, step.ts), cfg.maxDwell);
    assert StepEvents(cfg, s, step) == Opt(Guards(cfg, s, step), guard);
    AuditOpt(cfg, l, Guards(cfg, s, step), guard);
  }

  /** Two optional events that are accepted and change nothing. */
  lemma AuditIdlePair(cfg: Config, l: Ledger, c: bool, e: Event, c': bool, e': Event)
    requires c ==> Accepts(cfg, l, e) && Advance(l, e) == l
    requires c' ==> Accepts(cfg, l, e') && Advance(l, e') == l
    ensures Audit(cfg, l, Opt(c, e) + Opt(c', e')) == Some(l)
  {
    hide Accepts;
    AuditOpt(cfg, l, c, e);
    AuditOpt(cfg, l, c', e');
    AuditConcat(cfg, l, Opt(c, e), Opt(c', e'));
  }

  lemma LeavingAudited(cfg: Config, l: Ledger, ts: int, to: string)
    requires l.Inside?
    ensures Audit(cfg, l, LeavingEvents(cfg, ts, l.state, to, SecondsBetween(l.since, ts))) == Some(l)
  {
    var dwell := SecondsBetween(l.since, ts);
    AuditIdlePair(cfg, l, cfg.emitExit, StateExit(ts, l.state, to, Some(dwell)),
                  cfg.emitBucket, DwellBucket(ts, l.state, dwell, Bucket(dwell)));
  }

  lemma ArrivingAudited(cfg: Config, l: Ledger, from: string, dwell: real)
    requires l.Inside? && l.arrival == Some((from, dwell))
    ensures Audit(cfg, l, ArrivingEvents(cfg, l.since, from, l.state, dwell)) == Some(l)
  {
    AuditIdlePair(cfg, l, cfg.minDwell > 0.0 && dwell < cfg.minDwell,
                  DwellViolation(l.since, from, l.state, dwell, cfg.minDwell),
                  IsIllegal(cfg.illegal, from, l.state), IllegalTransition(l.since, from, l.state));
  }

  lemma ChangeAudited(cfg: Config, l: Ledger, ts: int, to: string)
    requires l.Inside? && to != l.state
    ensures var dwell := SecondsBetween(l.since, ts);
            Audit(cfg, l, LeavingEvents(cfg, ts, l.state, to, dwell) + [Transition(ts, l.state, to, dwell)]
              + ArrivingEvents(cfg, ts, l.state, to, dwell))
              == Some(Inside(to, l.enteredAt, ts, None, 0, Some((l.state, dwell))))
  {
    var dwell := SecondsBetween(l.since, ts);
    var transition := Transition(ts, l.state, to, dwell);
    var m := Advance(l, transition);
    LeavingAudited(cfg, l, ts, to);
    ArrivingAudited(cfg, m, l.state, dwell);
    AuditOpt(cfg, l, true, transition);
    hide Audit, LeavingEvents, ArrivingEvents;
    var p, q := LeavingEvents(cfg, ts, l.state, to, dwell), ArrivingEvents(cfg, ts, l.state, to, dwell);
    AuditConcat(cfg, l, p, [transition]);
    AuditConcat(cfg, l, p + [transition], q);
  }

  lemma TransitionStepAudited(cfg: Config, l: Ledger, s: State, step: Step)
    requires Agrees(l, s) && Transitions(s, step)
    ensures var m := Audit(cfg, l, StepEvents(cfg, s, step)); m.Some? && Agrees(m.value, After(cfg, s, step))
  {
    hide Audit, LeavingEvents, ArrivingEvents;
    assert StepEvents(cfg, s, step) == TransitionEvents(cfg, s, step);
    ChangeAudited(cfg, l, step.ts, step.state.value);
  }

  /** Every run with entry events on obeys the protocol, and the reader ends up where the machine is. */
  lemma {:induction false} RunIsAudited(cfg: Config, steps: seq<Step>)
    requires cfg.emitEnter
    ensures var s := Run(cfg, INITIAL, steps);
            var l := Audit(cfg, Start, s.emitted);
            l.Some? && Agrees(l.value, s)
  {
    hide StepEvents, Audit, Agrees;
    if steps == [] {
      NothingAudited(cfg);
    } else {
      var rest, step := steps[..|steps| - 1], steps[|steps| - 1];
      RunIsAudited(cfg, rest);
      var s := Run(cfg, INITIAL, rest);
      var l := Audit(cfg, Start, s.emitted).value;
      StepIsAudited(cfg, l, s, step);
      AuditConcat(cfg, Start, s.emitted, StepEvents(cfg, s, step));
    }
  }

  lemma NothingAudited(cfg: Config)
    ensures Audit(cfg, Start, []) == Some(Start) && Agrees(Start, INITIAL)
  {
  }

  lemma StepIsAudited(cfg: Config, l: Ledger, s: State, step: Step)
    requires Agrees(l, s) && cfg.emitEnter
    ensures var m := Audit(cfg, l, StepEvents(cfg, s, step)); m.Some? && Agrees(m.value, After(cfg, s, step))
  {
    if step.state.None? {
      MissingStepAudited(cfg, l, s, step);
    } else if s.lastState.None? {
      EnterStepAudited(cfg, l, s, step);
    } else if step.state == s.lastState {
      SameStepAudited(cfg, l, s, step);
    } else {
      TransitionStepAudited(cfg, l, s, step);
    }
  }

  // ---------- What an accepted stream of events guarantees ----------

  ghost predicate Accepted(cfg: Config, events: seq<Event>) {
    Audit(cfg, Start, events).Some?
  }

  /** The situation before event `k` of an accepted stream. */
  function LedgerAt(cfg: Config, events: seq<Event>, k: nat): Ledger
    requires k <= |events| && Accepted(cfg, events)
  {
    PrefixAccepted(cfg, events, k);
    Audit(cfg, Start, events[..k]).value
  }

  lemma {:induction false} PrefixAccepted(cfg: Config, events: seq<Event>, k: nat)
    requires k <= |events| && Accepted(cfg, events)
    ensures Accepted(cfg, events[..k])
  {
    AuditConcat(cfg, Start, events[..k], events[k..]);
    assert events == events[..k] + events[k..];
  }

  lemma LedgerStep(cfg: Config, events: seq<Event>, k: nat)
    requires k < |events| && Accepted(cfg, events)
    ensures Accepts(cfg, LedgerAt(cfg, events, k), events[k])
    ensures LedgerAt(cfg, events, k + 1) == Advance(LedgerAt(cfg, events, k), events[k])
  {
    PrefixAccepted(cfg, events, k);
    PrefixAccepted(cfg, events, k + 1);
    assert events[..k + 1][..k] == events[..k];
  }

  lemma {:induction false} StaysInside(cfg: Config, events: seq<Event>, i: nat, k: nat)
    requires i < k <= |events| && Accepted(cfg, events)
    requires events[i].StateEnter? && forall m :: i < m < k ==> !events[m].Dropped?
    ensures LedgerAt(cfg, events, k).Inside?
  {
    hide LedgerAt, Accepted;
    LedgerStep(cfg, events, k - 1);
    if k > i + 1 {
      StaysInside(cfg, events, i, k - 1);
    }
  }

  lemma {:induction false} StaysOutside(cfg: Config, events: seq<Event>, i: nat, k: nat)
    requires i < k <= |events| && Accepted(cfg, events)
    requires events[i].Dropped? && forall m :: i < m < k ==> !events[m].StateEnter?
    ensures LedgerAt(cfg, events, k).Outside?
  {
    hide LedgerAt, Accepted;
    LedgerStep(cfg, events, k - 1);
    if k > i + 1 {
      StaysOutside(cfg, events, i, k - 1);
    }
  }

  /** Entries and drops strictly alternate: between two of a kind there is one of the other. */
  lemma EntersAndDropsAlternate(cfg: Config, events: seq<Event>, i: nat, j: nat)
    requires i < j < |events| && Accepted(cfg, events)
    ensures events[i].StateEnter? && events[j].StateEnter? ==> exists m :: i < m < j && events[m].Dropped?
    ensures events[i].Dropped? && events[j].Dropped? ==> exists m :: i < m < j && events[m].StateEnter?
  {
    LedgerStep(cfg, events, j);
    if events[i].StateEnter? && events[j].StateEnter? && forall m :: i < m < j ==> !events[m].Dropped? {
      StaysInside(cfg, events, i, j);
    }
    if events[i].Dropped? && events[j].Dropped? && forall m :: i < m < j ==> !events[m].StateEnter? {
      StaysOutside(cfg, events, i, j);
    }
  }

  /** The event puts the key into the state it names. */
  predicate Arrives(e: Event) {
    e.StateEnter? || e.Transition?
  }

  ghost predicate NoneBetween(events: seq<Event>, i: nat, k: nat, p: Event -> bool)
    requires k <= |events|
  {
    forall m :: i < m < k ==> !p(events[m])
  }

  function GuardCount(events: seq<Event>): nat {
    if events == [] then 0 else GuardCount(events[..|events| - 1]) + if events[|events| - 1].DwellGuard? then 1 else 0
  }

  const MovesOrDrops: Event -> bool := (e: Event) => Arrives(e) || e.Dropped?

  const EntersOrDrops: Event -> bool := (e: Event) => e.StateEnter? || e.Dropped?

  lemma NoGuards()
    ensures GuardCount([]) == 0
  {
  }

  lemma GuardCountAppend(events: seq<Event>, e: Event)
    ensures GuardCount(events + [e]) == GuardCount(events) + if e.DwellGuard? then 1 else 0
  {
    assert (events + [e])[..|events|] == events;
  }

  /** Where an arrival leaves the reader. */
  lemma Arrival(cfg: Config, l: Ledger, e: Event)
    requires Accepts(cfg, l, e) && Arrives(e)
    ensures var next := Advance(l, e);
            next.Inside? && next.state == e.to && next.since == e.ts && next.guards == 0 && next.lastGuard.None?
  {
  }

  /** An event that neither moves nor drops leaves the reader in its state; only a guard is noted. */
  lemma Stay(cfg: Config, l: Ledger, e: Event)
    requires l.Inside? && Accepts(cfg, l, e) && !MovesOrDrops(e)
    requires l.lastGuard.None? ==> l.guards == 0
    requires l.lastGuard.Some? ==> SecondsBetween(l.since, l.lastGuard.value) >= l.guards as real * cfg.maxDwell
    ensures var next := Advance(l, e);
            && next.Inside? && next.state == l.state && next.since == l.since
            && next.guards == l.guards + (if e.DwellGuard? then 1 else 0)
            && (next.lastGuard.None? ==> next.guards == 0)
            && (next.lastGuard.Some? ==>
              SecondsBetween(next.since, next.lastGuard.value) >= next.guards as real * cfg.maxDwell)
  {
    if e.DwellGuard? {
      assert (l.guards + 1) as real * cfg.maxDwell == l.guards as real * cfg.maxDwell + cfg.maxDwell;
    }
  }

  /**
   * Between two arrivals the reader stays in the state of the first, and each guard has waited at least one maximum
   * dwell more.
   */
  lemma {:induction false} WithinOneState(cfg: Config, events: seq<Event>, i: nat, k: nat)
    requires i < k <= |events| && Accepted(cfg, events)
    requires Arrives(events[i]) && NoneBetween(events, i, k, MovesOrDrops)
    ensures var l := LedgerAt(cfg, events, k);
            && l.Inside? && l.state == events[i].to && l.since == events[i].ts
            && l.guards == GuardCount(events[i + 1..k])
            && (l.lastGuard.None? ==> l.guards == 0)
            && (l.lastGuard.Some? ==> SecondsBetween(l.since, l.lastGuard.value) >= l.guards as real * cfg.maxDwell)
  {
    hide LedgerAt, Accepted, Accepts, Advance, GuardCount;
    LedgerStep(cfg, events, k - 1);
    var before, last := LedgerAt(cfg, events, k - 1), events[k - 1];
    if k == i + 1 {
      assert events[i + 1..k] == [];
      NoGuards();
      Arrival(cfg, before, last);
    } else {
      WithinOneState(cfg, events, i, k - 1);
      assert events[i + 1..k] == events[i + 1..k - 1] + [last];
      GuardCountAppend(events[i + 1..k - 1], last);
      assert !MovesOrDrops(last);
      Stay(cfg, before, last);
    }
  }

  /** A transition leaves the state last arrived at; its dwell is the time since then in seconds. */
  lemma TransitionsChain(cfg: Config, events: seq<Event>, i: nat, j: nat)
    requires i < j < |events| && Accepted(cfg, events)
    requires Arrives(events[i]) && events[j].Transition? && NoneBetween(events, i, j, MovesOrDrops)
    ensures events[j].from == events[i].to
    ensures 1000.0 * events[j].dwell == (events[j].ts - events[i].ts) as real
  {
    WithinOneState(cfg, events, i, j);
    LedgerStep(cfg, events, j);
  }

  /** The `k`-th dwell guard of one dwell comes at least `k` maximum dwells after its start. */
  lemma KthGuardWaits(cfg: Config, events: seq<Event>, i: nat, j: nat)
    requires i < j < |events| && Accepted(cfg, events)
    requires Arrives(events[i]) && events[j].DwellGuard? && NoneBetween(events, i, j, MovesOrDrops)
    ensures events[j].state == events[i].to
    ensures (events[j].ts - events[i].ts) as real >= 1000.0 * (GuardCount(events[i + 1..j + 1]) as real * cfg.maxDwell)
  {
    hide LedgerAt, Accepted, GuardCount;
    WithinOneState(cfg, events, i, j);
    LedgerStep(cfg, events, j);
    assert !MovesOrDrops(events[j]);
    WithinOneState(cfg, events, i, j + 1);
  }

  /** Total dwell reported by the transitions. */
  function DwellTotal(events: seq<Event>): real {
    if events == [] then 0.0
    else
      var last := events[|events| - 1];
      DwellTotal(events[..|events| - 1]) + if last.Transition? then last.dwell else 0.0
  }

  lemma {:induction false} DwellsSoFar(cfg: Config, events: seq<Event>, i: nat, k: nat)
    requires i < k <= |events| && Accepted(cfg, events)
    requires events[i].StateEnter? && NoneBetween(events, i, k, EntersOrDrops)
    ensures var l := LedgerAt(cfg, events, k);
            l.Inside? && DwellTotal(events[i + 1..k]) == SecondsBetween(events[i].ts, l.since)
  {
    hide LedgerAt, Accepted;
    LedgerStep(cfg, events, k - 1);
    if k == i + 1 {
      assert events[i + 1..k] == [];
    } else {
      DwellsSoFar(cfg, events, i, k - 1);
      assert events[i + 1..k][..k - i - 2] == events[i + 1..k - 1];
      assert !EntersOrDrops(events[k - 1]);
    }
  }

  /** From an entry to any later transition before the next drop, the dwells add up to the elapsed milliseconds. */
  lemma DwellsAddUp(cfg: Config, events: seq<Event>, i: nat, j: nat)
    requires i < j < |events| && Accepted(cfg, events)
    requires events[i].StateEnter? && events[j].Transition? && NoneBetween(events, i, j, EntersOrDrops)
    ensures 1000.0 * DwellTotal(events[i + 1..j + 1]) == (events[j].ts - events[i].ts) as real
  {
    DwellsSoFar(cfg, events, i, j + 1);
    LedgerStep(cfg, events, j);
    DwellsSoFar(cfg, events, i, j);
  }
}
