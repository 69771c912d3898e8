/**
 When segmentation can be seen in the events. The plan promises that its policies preserve semantics; that
 holds for segments cut by row count, and fails for segments cut by time span exactly at gaps whose
 forgotten state still mattered.
 */
module SegmentationVisibility {
  import opened Sums
  import opened CategoricalEvents
  import opened CategoricalRuns
  import opened Segmentation
  import opened SegmentedRuns

  // ---------- Resets that cannot be seen ----------

  /** Forgetting the state before sample `i` changes nothing: the key was missing and comes back. */
  predicate Harmless(steps: seq<Step>, i: int)
    requires 1 <= i < |steps|
  {
    steps[i - 1].state.None? && steps[i].state.Some?
  }

  ghost predicate AllHarmless(steps: seq<Step>, resets: set<int>) {
    forall i :: i in resets && 1 <= i < |steps| ==> Harmless(steps, i)
  }

  /** With any emission flags, harmless resets leave every event and the state as they were. */
  lemma {:induction false} HarmlessResetsInvisible(cfg: Config, steps: seq<Step>, resets: set<int>)
    requires 0 !in resets && AllHarmless(steps, resets)
    ensures ResetRun(cfg, steps, resets) == Run(cfg, INITIAL, steps)
  {
    if steps != [] {
      var n := |steps| - 1;
      var rest := steps[..n];
      assert forall i :: 1 <= i < n ==> Harmless(rest, i) == Harmless(steps, i);
      HarmlessResetsInvisible(cfg, rest, resets);
      if n in resets {
        assert Harmless(steps, n);
        StateIsLookback(cfg, rest);
        MissingForgets(cfg, Run(cfg, INITIAL, rest), steps[n]);
      }
    }
  }

  /** After a missing sample, a present one is handled as if it were the first. */
  lemma MissingForgets(cfg: Config, acc: State, step: Step)
    requires acc.missing && acc.lastState.None? && step.state.Some?
    ensures After(cfg, INITIAL.(emitted := acc.emitted), step) == After(cfg, acc, step)
  {
  }

  // ---------- Every other reset breaks the protocol ----------

  /** No sample carries the text that stands for the absence of a state. */
  ghost predicate NoLiteralNone(steps: seq<Step>) {
    forall i :: 0 <= i < |steps| ==> steps[i].state != Some("none")
  }

  /** From the initial state a sample emits a lone entry or a drop that leaves no known state. */
  lemma FirstEvents(cfg: Config, acc: State, step: Step)
    requires cfg.emitEnter && acc.lastState.None? && !acc.missing
    ensures StepEvents(cfg, acc, step) ==
            if step.state.Some? then [StateEnter(step.ts, "none", step.state.value)]
              else [Dropped(step.ts, "none", "missing")]
  {
  }

  /** A reader who knows of a sample before the reset refuses what the reset emits, unless the reset is harmless. */
  lemma HarmfulResetRefused(cfg: Config, l: Ledger, s: State, step: Step)
    requires cfg.emitEnter && Agrees(l, s) && (s.missing || s.lastState.Some?) && s.lastState != Some("none")
    requires !(s.missing && step.state.Some?)
    ensures Audit(cfg, l, StepEvents(cfg, INITIAL.(emitted := s.emitted), step)) == None
  {
    FirstEvents(cfg, INITIAL.(emitted := s.emitted), step);
    hide StepEvents;
    var events := StepEvents(cfg, INITIAL.(emitted := s.emitted), step);
    assert events[..0] == [];
    assert !Accepts(cfg, l, events[0]);
  }

  /** With a harmful reset, the events are not those of any uninterrupted run: the reader refuses them. */
  lemma {:induction false} HarmfulRunRefused(cfg: Config, steps: seq<Step>, resets: set<int>)
    requires cfg.emitEnter && 0 !in resets && NoLiteralNone(steps) && !AllHarmless(steps, resets)
    ensures !Accepted(cfg, ResetRun(cfg, steps, resets).emitted)
  {
    hide StepEvents, Audit, Agrees;
    var n := |steps| - 1;
    var rest, step := steps[..n], steps[n];
    assert forall i :: 1 <= i < n ==> Harmless(rest, i) == Harmless(steps, i);
    var reset := ResetRun(cfg, rest, resets);
    var start := if n in resets then INITIAL.(emitted := reset.emitted) else reset;
    AfterEmits(cfg, start, step);
    AuditConcat(cfg, Start, reset.emitted, StepEvents(cfg, start, step));
    if AllHarmless(rest, resets) {
      HarmlessResetsInvisible(cfg, rest, resets);
      RunIsAudited(cfg, rest);
      StateIsLookback(cfg, rest);
      assert rest[n - 1] == steps[n - 1];
      HarmfulResetRefused(cfg, Audit(cfg, Start, reset.emitted).value, reset, step);
    } else {
      HarmfulRunRefused(cfg, rest, resets);
    }
  }

  /**
   * With entry events on, the events with resets are those of some uninterrupted run only if every reset is
   * harmless.
   */
  lemma RunsOnlyIfHarmless(cfg: Config, steps: seq<Step>, resets: set<int>, other: seq<Step>)
    requires cfg.emitEnter && 0 !in resets && NoLiteralNone(steps)
    requires ResetRun(cfg, steps, resets).emitted == Run(cfg, INITIAL, other).emitted
    ensures AllHarmless(steps, resets)
  {
    RunIsAudited(cfg, other);
    if !AllHarmless(steps, resets) {
      HarmfulRunRefused(cfg, steps, resets);
    }
  }

  /**
   * With entry events on, the events with resets are those of the uninterrupted run if and only if every reset is
   * harmless.
   */
  lemma ResetsInvisibleIff(cfg: Config, steps: seq<Step>, resets: set<int>)
    requires cfg.emitEnter && 0 !in resets && NoLiteralNone(steps)
    ensures ResetRun(cfg, steps, resets).emitted == Run(cfg, INITIAL, steps).emitted <==> AllHarmless(steps, resets)
  {
    if AllHarmless(steps, resets) {
      HarmlessResetsInvisible(cfg, steps, resets);
    }
    if ResetRun(cfg, steps, resets).emitted == Run(cfg, INITIAL, steps).emitted {
      RunsOnlyIfHarmless(cfg, steps, resets, steps);
    }
  }

  // ---------- Segments ----------

  lemma HarmlessGaps(rows: seq<Row>, ids: seq<int>)
    ensures AllHarmless(StepsOf(rows), Gaps(rows, ids))
       <==> forall i :: IsGap(rows, ids, i) ==> rows[i - 1].step.state.None? && rows[i].step.state.Some?
    ensures 0 !in Gaps(rows, ids)
  {
    forall i | 1 <= i < |rows|
      ensures Harmless(StepsOf(rows), i) == (rows[i - 1].step.state.None? && rows[i].step.state.Some?)
    {
    }
    assert forall i :: i in Gaps(rows, ids) <==> IsGap(rows, ids, i);
  }

  /**
   * Segment by segment extraction gives the events of one run if and only if at every gap the key was missing before
   * and is present after.
   */
  lemma SegmentationInvisibleIff(cfg: Config, rows: seq<Row>, ids: seq<int>)
    requires Covers(rows, ids) && cfg.emitEnter && NoLiteralNone(StepsOf(rows))
    ensures BuildKey(cfg, rows, ids).events == Run(cfg, INITIAL, StepsOf(rows)).emitted
       <==> forall i :: IsGap(rows, ids, i) ==> rows[i - 1].step.state.None? && rows[i].step.state.Some?
  {
    SegmentedIsResetRun(cfg, rows, ids);
    HarmlessGaps(rows, ids);
    ResetsInvisibleIff(cfg, StepsOf(rows), Gaps(rows, ids));
    hide ResetRun, BuildKey, Run, AllHarmless, Gaps, StepsOf, Covers;
  }

  /** Without a gap, segmentation is invisible whatever the flags. */
  lemma NoGapNoTrace(cfg: Config, rows: seq<Row>, ids: seq<int>)
    requires Covers(rows, ids) && forall i :: !IsGap(rows, ids, i)
    ensures BuildKey(cfg, rows, ids).events == Run(cfg, INITIAL, StepsOf(rows)).emitted
  {
    SegmentedIsResetRun(cfg, rows, ids);
    HarmlessResetsInvisible(cfg, StepsOf(rows), Gaps(rows, ids));
  }

  // ---------- The policies ----------

  datatype Policy = Policy(maxRowsPerSegment: int, maxSpanMs: int)

  function MaxRows(policy: Policy): (n: int)
    ensures n >= 1
  {
    if policy.maxRowsPerSegment > 1 then policy.maxRowsPerSegment else 1
  }

  function Earliest(steps: seq<Step>): (ts: int)
    requires steps != []
    ensures forall s :: s in steps ==> ts <= s.ts
  {
    var n := |steps| - 1;
    if n == 0 then steps[0].ts
    else
      var ts := Earliest(steps[..n]);
      assert forall s :: s in steps <==> s in steps[..n] || s == steps[n];
      if steps[n].ts < ts then steps[n].ts else ts
  }

  /** The larger of the row-count segment and, when a span is set, the time-span segment. */
  function SegmentOf(policy: Policy, steps: seq<Step>, i: nat): int
    requires i < |steps|
  {
    var byRow := i / MaxRows(policy);
    if policy.maxSpanMs <= 0 then byRow
    else
      var bySpan := (steps[i].ts - Earliest(steps)) / policy.maxSpanMs;
      if bySpan > byRow then bySpan else byRow
  }

  function AssignSegments(policy: Policy, key: Key, steps: seq<Step>): (rows: seq<Row>)
    ensures |rows| == |steps|
  {
    seq(|steps|, i requires 0 <= i < |steps| => Row(key, SegmentOf(policy, steps, i), steps[i]))
  }

  lemma AtLeastOne(d: int, k: int)
    requires d > 0 && k >= 1
    ensures d * k >= d
  {
  }

  lemma DivisionMonotone(a: int, b: int, d: int)
    requires d > 0 && a <= b
    ensures a / d <= b / d
  {
    var p, q := a / d, b / d;
    assert a == d * p + a % d && b == d * q + b % d;
    assert d * (p - q) == d * p - d * q;
    if p > q {
      AtLeastOne(d, p - q);
    }
  }

  /** Segments never go back, provided that time does not when a span is set. */
  lemma SegmentsAscend(policy: Policy, key: Key, steps: seq<Step>)
    requires policy.maxSpanMs > 0 ==> forall i, j :: 0 <= i < j < |steps| ==> steps[i].ts <= steps[j].ts
    ensures Ordered(AssignSegments(policy, key, steps))
  {
    forall i, j | 0 <= i < j < |steps|
      ensures SegmentOf(policy, steps, i) <= SegmentOf(policy, steps, j)
    {
      DivisionMonotone(i, j, MaxRows(policy));
      if policy.maxSpanMs > 0 {
        DivisionMonotone(steps[i].ts - Earliest(steps), steps[j].ts - Earliest(steps), policy.maxSpanMs);
      }
    }
  }

  lemma NextSegment(i: int, d: int)
    requires d > 0 && i >= 1
    ensures i / d <= (i - 1) / d + 1
  {
    var p, q := i / d, (i - 1) / d;
    assert i == d * p + i % d && i - 1 == d * q + (i - 1) % d;
    assert d * (p - q - 1) == d * p - d * q - d;
    if p > q + 1 {
      AtLeastOne(d, p - q - 1);
    }
  }

  /** Cutting by row count alone is invisible for every key, whatever other keys do and whatever the flags. */
  lemma RowCountIsInvisible(cfg: Config, policy: Policy, key: Key, steps: seq<Step>, ids: seq<int>)
    requires policy.maxSpanMs <= 0 && Ascending(ids)
    requires var rows := AssignSegments(policy, key, steps); forall r :: r in rows ==> r.segment in ids
    ensures BuildKey(cfg, AssignSegments(policy, key, steps), ids).events == Run(cfg, INITIAL, steps).emitted
  {
    var rows := AssignSegments(policy, key, steps);
    SegmentsAscend(policy, key, steps);
    forall i | 1 <= i < |rows|
      ensures !IsGap(rows, ids, i)
    {
      NextSegment(i, MaxRows(policy));
    }
    NoGapNoTrace(cfg, rows, ids);
    assert StepsOf(rows) == steps;
  }

  /** Any policy is invisible for a key that has rows in every visited segment. */
  lemma SoleKeyIsInvisible(cfg: Config, rows: seq<Row>, ids: seq<int>)
    requires Covers(rows, ids)
    requires forall id :: id in ids ==> exists r :: r in rows && r.segment == id
    ensures BuildKey(cfg, rows, ids).events == Run(cfg, INITIAL, StepsOf(rows)).emitted
  {
    forall i
      ensures !IsGap(rows, ids, i)
    {
    }
    NoGapNoTrace(cfg, rows, ids);
  }

  // ---------- Whole tables ----------

  lemma TableCovers(rows: seq<Row>, key: Key)
    requires Ordered(Group(rows, KeyOf, key))
    ensures Covers(Group(rows, KeyOf, key), SegmentIds(rows))
  {
  }

  /**
   * In a table where every key was segmented by row count, every key's events are those of one run over its samples.
   */
  lemma RowCountTable(cfg: Config, policy: Policy, rows: seq<Row>, key: Key, steps: seq<Step>)
    requires policy.maxSpanMs <= 0 && Group(rows, KeyOf, key) == AssignSegments(policy, key, steps)
    ensures BuildKey(cfg, Group(rows, KeyOf, key), SegmentIds(rows)).events == Run(cfg, INITIAL, steps).emitted
  {
    SegmentsAscend(policy, key, steps);
    TableCovers(rows, key);
    RowCountIsInvisible(cfg, policy, key, steps, SegmentIds(rows));
  }

  // ---------- A span policy that is seen ----------

  lemma FirstTwoOfFour<T, K>(a: T, b: T, c: T, d: T, keyOf: T -> K, key: K)
    requires keyOf(a) == keyOf(b) == key && keyOf(c) != key && keyOf(d) != key
    ensures Group([a, b, c, d], keyOf, key) == [a, b]
  {
    hide Group;
    GroupAppend([], a, keyOf, key);
    GroupAppend([a], b, keyOf, key);
    GroupAppend([a, b], c, keyOf, key);
    GroupAppend([a, b, c], d, keyOf, key);
    assert [] + [a] == [a] && [a] + [b] == [a, b] && [a, b] + [c] == [a, b, c] && [a, b, c] + [d] == [a, b, c, d];
    EmptyGroup(keyOf, key);
  }

  lemma MultipleDivided(k: nat, d: int)
    requires d > 0
    ensures (k * d) / d == k
  {
    var n, q := k * d, (k * d) / d;
    assert n == d * q + n % d;
    assert d * (k - q) == n - d * q && d * (q - k) == d * q - n;
    if k > q {
      AtLeastOne(d, k - q);
    } else if k < q {
      AtLeastOne(d, q - k);
    }
  }

  /** The segments of two samples under a span policy that leaves room for both in one row-count segment. */
  lemma TwoSampleSegments(policy: Policy, key: Key, a: Step, b: Step, k: nat)
    requires policy.maxRowsPerSegment >= 2 && policy.maxSpanMs > 0 && b.ts - a.ts == k * policy.maxSpanMs
    ensures AssignSegments(policy, key, [a, b]) == [Row(key, 0, a), Row(key, k, b)]
  {
    var steps, m := [a, b], MaxRows(policy);
    MultipleDivided(k, policy.maxSpanMs);
    assert steps[..1] == [a] && Earliest(steps) == a.ts;
    assert 0 / m == 0 && 1 / m == 0;
    assert SegmentOf(policy, steps, 0) == 0;
    assert SegmentOf(policy, steps, 1) == k;
  }

  /** Two equal states in a row with a forgotten state between them: two entries. */
  lemma ForgottenStateEntersTwice(cfg: Config, a: Step, b: Step)
    requires cfg.emitEnter && cfg.maxDwell <= 0.0 && a.state.Some? && a.state == b.state
    ensures ResetRun(cfg, [a, b], {1}).emitted ==
            [StateEnter(a.ts, "none", a.state.value), StateEnter(b.ts, "none", b.state.value)]
    ensures Run(cfg, INITIAL, [a, b]).emitted == [StateEnter(a.ts, "none", a.state.value)]
  {
    assert [a, b][..1] == [a] && [a][..0] == [];
    assert ResetRun(cfg, [a], {1}) == After(cfg, INITIAL, a);
    assert Run(cfg, INITIAL, [a]) == After(cfg, INITIAL, a);
  }

  /**
   A key reports one state twice, three spans apart, while another key has a row one span in. The first key's
   carry is lost in between, so it enters its state twice where one run enters it once.
   */
  lemma SpanPolicyDuplicatesEntry(cfg: Config, policy: Policy, quiet: Key, busy: Key, state: string)
    requires cfg.emitEnter && cfg.maxDwell <= 0.0 && quiet != busy
    requires policy.maxRowsPerSegment >= 2 && policy.maxSpanMs > 0
    ensures var span := policy.maxSpanMs;
            var a, b := Step(0, Some(state)), Step(3 * span, Some(state));
            var rows := AssignSegments(policy, quiet, [a, b])
              + AssignSegments(policy, busy, [Step(0, None), Step(span, None)]);
            && Group(rows, KeyOf, quiet) == AssignSegments(policy, quiet, [a, b])
            && BuildKey(cfg, Group(rows, KeyOf, quiet), SegmentIds(rows)).events
               == [StateEnter(0, "none", state), StateEnter(3 * span, "none", state)]
            && Run(cfg, INITIAL, [a, b]).emitted == [StateEnter(0, "none", state)]
  {
    var span := policy.maxSpanMs;
    var a, b, c, d := Step(0, Some(state)), Step(3 * span, Some(state)), Step(0, None), Step(span, None);
    TwoSampleSegments(policy, quiet, a, b, 3);
    TwoSampleSegments(policy, busy, c, d, 1);
    var p, q, r, s := Row(quiet, 0, a), Row(quiet, 3, b), Row(busy, 0, c), Row(busy, 1, d);
    assert [p, q] + [r, s] == [p, q, r, s];
    hide *;
    TwoKeyTable(p, q, r, s);
    SegmentedIsResetRun(cfg, [p, q], SegmentIds([p, q, r, s]));
    StepsOfTwo(p, q);
    ForgottenStateEntersTwice(cfg, a, b);
  }

  lemma StepsOfTwo(p: Row, q: Row)
    ensures StepsOf([p, q]) == [p.step, q.step]
  {
  }

  /** Two rows of one key, then two rows of another key of which the last falls between them. */
  lemma TwoKeyTable(p: Row, q: Row, r: Row, s: Row)
    requires p.key == q.key && r.key != p.key && s.key != p.key && p.segment < s.segment < q.segment
    ensures var ids := SegmentIds([p, q, r, s]);
            Group([p, q, r, s], KeyOf, p.key) == [p, q] && Covers([p, q], ids) && Gaps([p, q], ids) == {1}
  {
    hide Group, SegmentIds;
    var rows := [p, q, r, s];
    FirstTwoOfFour(p, q, r, s, KeyOf, p.key);
    TableCovers(rows, p.key);
    assert s in rows;
    GapBetweenTwo(p, q, SegmentIds(rows), s.segment);
  }

  lemma GapBetweenTwo(a: Row, b: Row, ids: seq<int>, id: int)
    requires id in ids && a.segment < id < b.segment
    ensures Gaps([a, b], ids) == {1}
  {
    assert IsGap([a, b], ids, 1);
  }
}
