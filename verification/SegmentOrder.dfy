/**
 Rows whose segments may go back. Segments are visited in ascending order, so what is processed are the rows in
 segment order; this relates the extracted events to that order, and to the order the rows came in.
 */
module SegmentOrder {
  import opened Sums
  import opened CategoricalEvents
  import opened Segmentation
  import opened SegmentedRuns
  import opened SegmentationVisibility
  import opened ReportedSamples

  /** The rows of one segment, in row order. */
  function RowsOf(rows: seq<Row>, id: int): seq<Row> {
    if rows == [] then []
    else RowsOf(rows[..|rows| - 1], id) + if rows[|rows| - 1].segment == id then [rows[|rows| - 1]] else []
  }

  /** The rows of the visited segments, segment by segment. */
  function InSegmentOrder(rows: seq<Row>, ids: seq<int>): seq<Row> {
    if ids == [] then [] else InSegmentOrder(rows, ids[..|ids| - 1]) + RowsOf(rows, ids[|ids| - 1])
  }

  /** Every row's segment is visited, and the visited segments ascend. */
  ghost predicate Visits(rows: seq<Row>, ids: seq<int>) {
    Ascending(ids) && forall r :: r in rows ==> r.segment in ids
  }

  // ---------- Segment order is a stable sort ----------

  lemma {:induction false} RowsOfMember(rows: seq<Row>, id: int, r: Row)
    ensures r in RowsOf(rows, id) <==> r in rows && r.segment == id
  {
    if rows != [] {
      var rest, last := rows[..|rows| - 1], rows[|rows| - 1];
      RowsOfMember(rest, id, r);
      assert r in rows <==> r in rest || r == last;
    }
  }

  lemma {:induction false} OrderMember(rows: seq<Row>, ids: seq<int>, r: Row)
    ensures r in InSegmentOrder(rows, ids) <==> r in rows && r.segment in ids
  {
    hide RowsOf;
    if ids != [] {
      var front, last := ids[..|ids| - 1], ids[|ids| - 1];
      OrderMember(rows, front, r);
      RowsOfMember(rows, last, r);
      assert r.segment in ids <==> r.segment in front || r.segment == last;
    }
  }

  lemma {:induction false} RowsOfConcat(xs: seq<Row>, ys: seq<Row>, id: int)
    ensures RowsOf(xs + ys, id) == RowsOf(xs, id) + RowsOf(ys, id)
  {
    if ys == [] {
      assert xs + ys == xs;
    } else {
      RowsOfConcat(xs, ys[..|ys| - 1], id);
      assert (xs + ys)[..|xs + ys| - 1] == xs + ys[..|ys| - 1];
    }
  }

  lemma {:induction false} RowsOfOneSegment(rows: seq<Row>, segment: int, id: int)
    requires forall k :: 0 <= k < |rows| ==> rows[k].segment == segment
    ensures RowsOf(rows, id) == if id == segment then rows else []
  {
    if rows != [] {
      RowsOfOneSegment(rows[..|rows| - 1], segment, id);
    }
  }

  /** Every visited segment keeps its rows in their order. */
  lemma {:induction false} OrderIsStable(rows: seq<Row>, ids: seq<int>, id: int)
    requires Ascending(ids)
    ensures RowsOf(InSegmentOrder(rows, ids), id) == if id in ids then RowsOf(rows, id) else []
  {
    if ids != [] {
      var front, last := ids[..|ids| - 1], ids[|ids| - 1];
      OrderIsStable(rows, front, id);
      RowsOfConcat(InSegmentOrder(rows, front), RowsOf(rows, last), id);
      var part := RowsOf(rows, last);
      forall k | 0 <= k < |part|
        ensures part[k].segment == last
      {
        RowsOfMember(rows, last, part[k]);
      }
      RowsOfOneSegment(part, last, id);
      assert id in ids <==> id in front || id == last;
      assert last !in front;
    }
  }

  lemma {:induction false} OrderAscends(rows: seq<Row>, ids: seq<int>)
    requires Ascending(ids)
    ensures Ordered(InSegmentOrder(rows, ids))
  {
    if ids != [] {
      var front, last := ids[..|ids| - 1], ids[|ids| - 1];
      OrderAscends(rows, front);
      var before, part := InSegmentOrder(rows, front), RowsOf(rows, last);
      forall i | 0 <= i < |before|
        ensures before[i].segment < last
      {
        OrderMember(rows, front, before[i]);
      }
      forall i | 0 <= i < |part|
        ensures part[i].segment == last
      {
        RowsOfMember(rows, last, part[i]);
      }
    }
  }

  lemma {:induction false} RowsSplit(rows: seq<Row>, r: Row)
    ensures multiset(rows)[r] == multiset(RowsOf(rows, r.segment))[r]
  {
    if rows != [] {
      RowsSplit(rows[..|rows| - 1], r);
      assert rows == rows[..|rows| - 1] + [rows[|rows| - 1]];
    }
  }

  /** No row is lost or added. */
  lemma OrderPermutes(rows: seq<Row>, ids: seq<int>)
    requires Visits(rows, ids)
    ensures multiset(InSegmentOrder(rows, ids)) == multiset(rows)
  {
    var sorted := InSegmentOrder(rows, ids);
    forall r
      ensures multiset(sorted)[r] == multiset(rows)[r]
    {
      RowsSplit(rows, r);
      RowsSplit(sorted, r);
      OrderIsStable(rows, ids, r.segment);
      OrderMember(rows, ids, r);
    }
  }

  /** A row beyond all visited segments, or of none of them, is left out. */
  lemma {:induction false} OtherSegmentLeftOut(rows: seq<Row>, r: Row, ids: seq<int>)
    requires r.segment !in ids
    ensures InSegmentOrder(rows + [r], ids) == InSegmentOrder(rows, ids)
  {
    if ids != [] {
      OtherSegmentLeftOut(rows, r, ids[..|ids| - 1]);
      assert (rows + [r])[..|rows|] == rows;
      assert ids[|ids| - 1] in ids;
    }
  }

  lemma {:induction false} NoRowsOf(rows: seq<Row>, id: int)
    requires forall r :: r in rows ==> r.segment != id
    ensures RowsOf(rows, id) == []
  {
    if rows != [] {
      NoRowsOf(rows[..|rows| - 1], id);
    }
  }

  /** A last row of the highest segment comes last. */
  lemma {:induction false} HighestComesLast(rows: seq<Row>, r: Row, ids: seq<int>)
    requires Ascending(ids) && r.segment in ids && forall x :: x in rows ==> x.segment <= r.segment
    ensures InSegmentOrder(rows + [r], ids) == InSegmentOrder(rows, ids) + [r]
  {
    var front, last := ids[..|ids| - 1], ids[|ids| - 1];
    assert (rows + [r])[..|rows|] == rows;
    if r.segment == last {
      assert last !in front;
      OtherSegmentLeftOut(rows, r, front);
      assert InSegmentOrder(rows, front) + (RowsOf(rows, last) + [r]) ==
        InSegmentOrder(rows, front) + RowsOf(rows, last) + [r];
    } else {
      assert r.segment in front && r.segment < last;
      HighestComesLast(rows, r, front);
      NoRowsOf(rows, last);
    }
  }

  /** Rows whose segments ascend are in segment order already. */
  lemma {:induction false} OrderedStays(rows: seq<Row>, ids: seq<int>)
    requires Visits(rows, ids) && Ordered(rows)
    ensures InSegmentOrder(rows, ids) == rows
  {
    if rows == [] {
      NothingToOrder(ids);
    } else {
      var front, last := rows[..|rows| - 1], rows[|rows| - 1];
      assert rows == front + [last];
      OrderedStays(front, ids);
      HighestComesLast(front, last, ids);
    }
  }

  lemma {:induction false} NothingToOrder(ids: seq<int>)
    ensures InSegmentOrder([], ids) == []
  {
    if ids != [] {
      NothingToOrder(ids[..|ids| - 1]);
    }
  }

  // ---------- The extraction sees the rows in segment order ----------

  lemma {:induction false} ChunkOfRows(rows: seq<Row>, id: int)
    ensures Chunk(rows, id) == StepsOf(RowsOf(rows, id))
  {
    if rows != [] {
      ChunkOfRows(rows[..|rows| - 1], id);
    }
  }

  lemma {:induction false} SameChunksSameProgress(cfg: Config, xs: seq<Row>, ys: seq<Row>, ids: seq<int>)
    requires forall id :: id in ids ==> Chunk(xs, id) == Chunk(ys, id)
    ensures BuildKey(cfg, xs, ids) == BuildKey(cfg, ys, ids)
  {
    hide Chunk, AdvanceKey;
    if ids != [] {
      SameChunksSameProgress(cfg, xs, ys, ids[..|ids| - 1]);
    }
  }

  lemma ExtractionIsSegmentOrder(cfg: Config, rows: seq<Row>, ids: seq<int>)
    requires Visits(rows, ids)
    ensures BuildKey(cfg, rows, ids) == BuildKey(cfg, InSegmentOrder(rows, ids), ids)
    ensures Covers(InSegmentOrder(rows, ids), ids)
  {
    hide BuildKey, Chunk, RowsOf, InSegmentOrder, StepsOf;
    var sorted := InSegmentOrder(rows, ids);
    forall id | id in ids
      ensures Chunk(rows, id) == Chunk(sorted, id)
    {
      ChunkOfRows(rows, id);
      ChunkOfRows(sorted, id);
      OrderIsStable(rows, ids, id);
    }
    SameChunksSameProgress(cfg, rows, sorted, ids);
    OrderAscends(rows, ids);
    forall r | r in sorted
      ensures r.segment in ids
    {
      OrderMember(rows, ids, r);
    }
  }

  /**
   * For every key and every assignment of segments to its rows: the extracted events are those of one run over the
   * rows in segment order that forgets its state at the gaps.
   */
  lemma AnyRowsAreResetRun(cfg: Config, rows: seq<Row>, ids: seq<int>)
    requires Visits(rows, ids)
    ensures var sorted := InSegmentOrder(rows, ids);
            BuildKey(cfg, rows, ids).events == ResetRun(cfg, StepsOf(sorted), Gaps(sorted, ids)).emitted
  {
    ExtractionIsSegmentOrder(cfg, rows, ids);
    SegmentedIsResetRun(cfg, InSegmentOrder(rows, ids), ids);
  }

  /** At every gap the key was missing before and is present after. */
  ghost predicate HarmlessAtGaps(rows: seq<Row>, ids: seq<int>) {
    forall i :: IsGap(rows, ids, i) ==> rows[i - 1].step.state.None? && rows[i].step.state.Some?
  }

  /**
   * For every key and every assignment of segments: with entry events on, segment by segment extraction gives the
   * events of one run over the rows as they came if and only if, in segment order, every gap is harmless, and the
   * same samples are notable in both orders.
   */
  lemma ExtractionIsRowOrderIff(cfg: Config, rows: seq<Row>, ids: seq<int>)
    requires Visits(rows, ids) && cfg.emitEnter && NoLiteralNone(StepsOf(rows))
    ensures var sorted := InSegmentOrder(rows, ids);
            BuildKey(cfg, rows, ids).events == Run(cfg, INITIAL, StepsOf(rows)).emitted
            <==> HarmlessAtGaps(sorted, ids) && Notables(cfg, StepsOf(sorted)) == Notables(cfg, StepsOf(rows))
  {
    var sorted := InSegmentOrder(rows, ids);
    var resets := Gaps(sorted, ids);
    AnyRowsAreResetRun(cfg, rows, ids);
    HarmlessGaps(sorted, ids);
    OrderHasNoLiteralNone(rows, ids);
    hide BuildKey, Run, ResetRun, Notables, InSegmentOrder, Gaps, StepsOf, AllHarmless, NoLiteralNone, Visits, IsGap;
    if BuildKey(cfg, rows, ids).events == Run(cfg, INITIAL, StepsOf(rows)).emitted {
      RunsOnlyIfHarmless(cfg, StepsOf(sorted), resets, StepsOf(rows));
    }
    if AllHarmless(StepsOf(sorted), resets) {
      HarmlessResetsInvisible(cfg, StepsOf(sorted), resets);
      SameEventsIff(cfg, StepsOf(sorted), StepsOf(rows));
    }
  }

  /** Without dwell guards the condition is that the state changes at the same samples in both orders. */
  lemma ExtractionIsRowOrderIffSameChanges(cfg: Config, rows: seq<Row>, ids: seq<int>)
    requires Visits(rows, ids) && cfg.emitEnter && cfg.maxDwell <= 0.0 && NoLiteralNone(StepsOf(rows))
    ensures var sorted := InSegmentOrder(rows, ids);
            BuildKey(cfg, rows, ids).events == Run(cfg, INITIAL, StepsOf(rows)).emitted
            <==> HarmlessAtGaps(sorted, ids) && Changes(StepsOf(sorted)) == Changes(StepsOf(rows))
  {
    hide *;
    ExtractionIsRowOrderIff(cfg, rows, ids);
    NotablesAreChanges(cfg, StepsOf(InSegmentOrder(rows, ids)));
    NotablesAreChanges(cfg, StepsOf(rows));
  }

  lemma OrderHasNoLiteralNone(rows: seq<Row>, ids: seq<int>)
    requires NoLiteralNone(StepsOf(rows))
    ensures NoLiteralNone(StepsOf(InSegmentOrder(rows, ids)))
  {
    var sorted := InSegmentOrder(rows, ids);
    forall i | 0 <= i < |sorted|
      ensures StepsOf(sorted)[i].state != Some("none")
    {
      OrderMember(rows, ids, sorted[i]);
      var k :| 0 <= k < |rows| && rows[k] == sorted[i];
      assert StepsOf(rows)[k] == rows[k].step;
    }
  }

  /** The same with gaps that are harmless, for any emission flags: the events are those of one run in segment order. */
  lemma HarmlessGapsGiveSegmentOrder(cfg: Config, rows: seq<Row>, ids: seq<int>)
    requires Visits(rows, ids) && HarmlessAtGaps(InSegmentOrder(rows, ids), ids)
    ensures BuildKey(cfg, rows, ids).events == Run(cfg, INITIAL, StepsOf(InSegmentOrder(rows, ids))).emitted
  {
    var sorted := InSegmentOrder(rows, ids);
    AnyRowsAreResetRun(cfg, rows, ids);
    HarmlessGaps(sorted, ids);
    HarmlessResetsInvisible(cfg, StepsOf(sorted), Gaps(sorted, ids));
  }

  // ---------- Segments that go back ----------

  /** The time-span segment of sample `i` on its own. */
  function SpanOf(policy: Policy, steps: seq<Step>, i: nat): int
    requires i < |steps| && policy.maxSpanMs > 0
  {
    (steps[i].ts - Earliest(steps)) / policy.maxSpanMs
  }

  lemma PairAscendsIff(policy: Policy, steps: seq<Step>, i: nat, j: nat)
    requires i < j < |steps|
    ensures SegmentOf(policy, steps, i) <= SegmentOf(policy, steps, j) <==>
            policy.maxSpanMs <= 0 || SpanOf(policy, steps, i) <= SegmentOf(policy, steps, j)
  {
    hide Earliest;
    DivisionMonotone(i, j, MaxRows(policy));
  }

  /** Segments never go back if and only if no sample has a span segment beyond the segment of a later sample. */
  lemma SegmentsAscendIff(policy: Policy, key: Key, steps: seq<Step>)
    ensures Ordered(AssignSegments(policy, key, steps)) <==>
            policy.maxSpanMs <= 0 ||
            forall i, j :: 0 <= i < j < |steps| ==> SpanOf(policy, steps, i) <= SegmentOf(policy, steps, j)
  {
    hide SegmentOf, SpanOf;
    var rows := AssignSegments(policy, key, steps);
    assert forall i :: 0 <= i < |rows| ==> rows[i].segment == SegmentOf(policy, steps, i);
    forall i, j | 0 <= i < j < |steps|
      ensures rows[i].segment <= rows[j].segment <==>
              policy.maxSpanMs <= 0 || SpanOf(policy, steps, i) <= SegmentOf(policy, steps, j)
    {
      PairAscendsIff(policy, steps, i, j);
    }
  }

  /**
   * A key whose second sample is a span earlier than its first: the segments go back, no gap is left, and the
   * extraction still does not give the events of one run over the samples as they came.
   */
  lemma BackwardSegmentsReorder(cfg: Config, policy: Policy, key: Key, late: Step, early: Step)
    requires cfg.emitEnter && late.state.Some? && early.state.Some? && late.state.value != "none"
             && early.state.value != "none"
    requires policy.maxRowsPerSegment >= 2 && policy.maxSpanMs > 0 && late.ts - early.ts == policy.maxSpanMs
    ensures var rows := AssignSegments(policy, key, [late, early]);
            && rows == [Row(key, 1, late), Row(key, 0, early)]
            && (forall i :: !IsGap(InSegmentOrder(rows, [0, 1]), [0, 1], i))
            && BuildKey(cfg, rows, [0, 1]).events != Run(cfg, INITIAL, [late, early]).emitted
  {
    BackwardPair(policy, key, late, early);
    BackwardRowsReorder(cfg, Row(key, 1, late), Row(key, 0, early));
  }

  lemma BackwardRowsReorder(cfg: Config, late: Row, early: Row)
    requires cfg.emitEnter && late.segment == 1 && early.segment == 0 && late.step != early.step
    requires late.step.state != Some("none") && early.step.state != Some("none")
    ensures forall i :: !IsGap(InSegmentOrder([late, early], [0, 1]), [0, 1], i)
    ensures BuildKey(cfg, [late, early], [0, 1]).events != Run(cfg, INITIAL, [late.step, early.step]).emitted
  {
    hide *;
    var rows, ids := [late, early], [0, 1];
    PairInSegmentOrder(late, early);
    PairIsVisited(late, early);
    StepsOfPair(late, early);
    StepsOfPair(early, late);
    FirstIsNotable(cfg, [late.step, early.step]);
    FirstIsNotable(cfg, [early.step, late.step]);
    assert Notables(cfg, [early.step, late.step]) != Notables(cfg, [late.step, early.step]);
    ExtractionIsRowOrderIff(cfg, rows, ids);
  }

  lemma StepsOfPair(a: Row, b: Row)
    ensures StepsOf([a, b]) == [a.step, b.step]
  {
  }

  lemma PairIsVisited(late: Row, early: Row)
    requires late.segment == 1 && early.segment == 0
    requires late.step.state != Some("none") && early.step.state != Some("none")
    ensures Visits([late, early], [0, 1]) && NoLiteralNone([late.step, early.step])
    ensures forall i :: !IsGap([early, late], [0, 1], i)
  {
  }

  lemma BackwardPair(policy: Policy, key: Key, late: Step, early: Step)
    requires policy.maxRowsPerSegment >= 2 && policy.maxSpanMs > 0 && late.ts - early.ts == policy.maxSpanMs
    ensures AssignSegments(policy, key, [late, early]) == [Row(key, 1, late), Row(key, 0, early)]
  {
    var steps, m := [late, early], MaxRows(policy);
    MultipleDivided(1, policy.maxSpanMs);
    assert steps[..1] == [late] && Earliest(steps) == early.ts;
    assert 0 / m == 0 && 1 / m == 0;
    assert SegmentOf(policy, steps, 0) == 1 && SegmentOf(policy, steps, 1) == 0;
  }

  lemma PairInSegmentOrder(late: Row, early: Row)
    requires late.segment == 1 && early.segment == 0
    ensures InSegmentOrder([late, early], [0, 1]) == [early, late]
  {
    var rows := [late, early];
    assert rows[..1] == [late] && [late][..0] == [];
    assert RowsOf([late], 0) == [] && RowsOf([late], 1) == [late];
    assert RowsOf(rows, 0) == [early] && RowsOf(rows, 1) == [late];
    assert [0, 1][..1] == [0] && [0][..0] == [];
    assert InSegmentOrder(rows, [0]) == [early];
  }
}
