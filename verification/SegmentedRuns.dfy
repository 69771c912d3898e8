/**
 What segmentation does to a key's events. Processing by segments equals one run over the whole sequence in
 which the state is forgotten at every gap: between two consecutive rows with a visited segment id strictly
 between theirs. This says exactly when segmentation is invisible.
 */
module SegmentedRuns {
  import opened Sums
  import opened CategoricalEvents
  import opened Segmentation

  /** A run that forgets its state, but not its events, before the samples in `resets`. */
  ghost function ResetRun(cfg: Config, steps: seq<Step>, resets: set<int>): State {
    if steps == [] then INITIAL
    else
      var n := |steps| - 1;
      var acc := ResetRun(cfg, steps[..n], resets);
      After(cfg, if n in resets then INITIAL.(emitted := acc.emitted) else acc, steps[n])
  }

  ghost predicate Ordered(rows: seq<Row>) {
    forall i, j :: 0 <= i < j < |rows| ==> rows[i].segment <= rows[j].segment
  }

  ghost predicate Ascending(ids: seq<int>) {
    forall i, j :: 0 <= i < j < |ids| ==> ids[i] < ids[j]
  }

  /** A visited segment id lies strictly between the segments of rows `i - 1` and `i`. */
  ghost predicate IsGap(rows: seq<Row>, ids: seq<int>, i: int) {
    1 <= i < |rows| && exists id :: id in ids && rows[i - 1].segment < id < rows[i].segment
  }

  ghost function Gaps(rows: seq<Row>, ids: seq<int>): set<int> {
    set i | 1 <= i < |rows| && IsGap(rows, ids, i)
  }

  // ---------- Chunks are slices ----------

  /** The number of rows with a segment of at most `id`. */
  ghost function UpTo(rows: seq<Row>, id: int): (n: nat)
    requires Ordered(rows)
    ensures n <= |rows|
    ensures forall i :: 0 <= i < n ==> rows[i].segment <= id
    ensures forall i :: n <= i < |rows| ==> rows[i].segment > id
  {
    if rows == [] || rows[|rows| - 1].segment <= id then |rows| else UpTo(rows[..|rows| - 1], id)
  }

  lemma ChunkUnfolds(rows: seq<Row>, id: int)
    ensures rows == [] ==> Chunk(rows, id) == []
    ensures rows != [] ==> var last := rows[|rows| - 1];
              Chunk(rows, id) == Chunk(rows[..|rows| - 1], id) + if last.segment == id then [last.step] else []
  {
  }

  lemma {:induction false} ChunkIsSlice(rows: seq<Row>, id: int, lo: nat, hi: nat)
    requires lo <= hi <= |rows|
    requires forall i :: 0 <= i < |rows| ==> (rows[i].segment == id <==> lo <= i < hi)
    ensures Chunk(rows, id) == StepsOf(rows)[lo..hi]
  {
    hide Chunk;
    ChunkUnfolds(rows, id);
    if rows != [] {
      var n := |rows| - 1;
      if hi == |rows| && lo < hi {
        ChunkIsSlice(rows[..n], id, lo, n);
        assert StepsOf(rows)[lo..hi] == StepsOf(rows[..n])[lo..n] + [rows[n].step];
      } else if lo == hi == |rows| {
        ChunkIsSlice(rows[..n], id, n, n);
      } else {
        ChunkIsSlice(rows[..n], id, lo, hi);
        assert StepsOf(rows)[lo..hi] == StepsOf(rows[..n])[lo..hi];
      }
    }
  }

  /** Without a reset inside, a stretch of samples runs from whatever state it starts in. */
  lemma {:induction false} StretchRuns(cfg: Config, steps: seq<Step>, resets: set<int>, lo: nat, hi: nat)
    requires lo < hi <= |steps|
    requires forall i :: lo < i < hi ==> i !in resets
    ensures var before, after := ResetRun(cfg, steps[..lo], resets), ResetRun(cfg, steps[..hi], resets);
            var alone := Run(cfg, if lo in resets then INITIAL else Carry(before), steps[lo..hi]);
            after.emitted == before.emitted + alone.emitted && Carry(after) == Carry(alone)
  {
    hide StepEvents, After, Guards, Enters, Transitions;
    var n := hi - 1;
    assert steps[..hi][..n] == steps[..n] && steps[..hi][n] == steps[n];
    var before := ResetRun(cfg, steps[..lo], resets);
    var start := if lo in resets then INITIAL else Carry(before);
    if lo == n {
      assert steps[lo..hi] == [steps[n]] && steps[lo..hi][..0] == [];
      assert Run(cfg, start, []) == start;
      var continued := if lo in resets then INITIAL.(emitted := before.emitted) else before;
      AfterIgnoresEmitted(cfg, start, continued, steps[n]);
      AfterEmits(cfg, start, steps[n]);
      AfterEmits(cfg, continued, steps[n]);
    } else {
      StretchRuns(cfg, steps, resets, lo, n);
      assert steps[lo..hi][..n - lo] == steps[lo..n] && steps[lo..hi][n - lo] == steps[n];
      AfterIgnoresEmitted(cfg, ResetRun(cfg, steps[..n], resets), Run(cfg, start, steps[lo..n]), steps[n]);
      AfterEmits(cfg, ResetRun(cfg, steps[..n], resets), steps[n]);
      AfterEmits(cfg, Run(cfg, start, steps[lo..n]), steps[n]);
    }
  }

  // ---------- Segment by segment is one run with resets at the gaps ----------

  ghost predicate Covers(rows: seq<Row>, ids: seq<int>) {
    Ordered(rows) && Ascending(ids) && forall r :: r in rows ==> r.segment in ids
  }

  /** The rows done after the first `k` visited ids. */
  ghost function Done(rows: seq<Row>, ids: seq<int>, k: nat): (n: nat)
    requires Ordered(rows) && k <= |ids|
    ensures n <= |rows|
  {
    if k == 0 then 0 else UpTo(rows, ids[k - 1])
  }

  /** The rows of the `k`-th visited id are the next ones to be done. */
  lemma NextChunk(rows: seq<Row>, ids: seq<int>, k: nat)
    requires Covers(rows, ids) && k < |ids|
    ensures Done(rows, ids, k) <= Done(rows, ids, k + 1)
    ensures forall i :: Done(rows, ids, k) <= i < Done(rows, ids, k + 1) ==> rows[i].segment == ids[k]
    ensures Chunk(rows, ids[k]) == StepsOf(rows)[Done(rows, ids, k)..Done(rows, ids, k + 1)]
  {
    var lo, hi := Done(rows, ids, k), Done(rows, ids, k + 1);
    forall i | 0 <= i < |rows|
      ensures rows[i].segment < ids[k] <==> i < lo
    {
      assert rows[i] in rows && rows[i].segment in ids;
      var j :| 0 <= j < |ids| && ids[j] == rows[i].segment;
      assert j < k <==> ids[j] < ids[k];
      assert k > 0 ==> (j <= k - 1 <==> ids[j] <= ids[k - 1]);
    }
    assert lo == 0 || rows[lo - 1].segment < ids[k];
    ChunkIsSlice(rows, ids[k], lo, hi);
  }

  lemma NothingBetween(ids: seq<int>, k: nat)
    requires Ascending(ids) && 0 < k < |ids|
    ensures ids[k - 1] < ids[k] && ids[k - 1] in ids
    ensures forall id :: id in ids ==> !(ids[k - 1] < id < ids[k])
  {
    forall j | 0 <= j < |ids|
      ensures !(ids[k - 1] < ids[j] < ids[k])
    {
      assert j < k - 1 ==> ids[j] < ids[k - 1];
      assert j > k ==> ids[k] < ids[j];
    }
  }

  /** The rows around the start of a chunk. */
  lemma AroundChunkStart(rows: seq<Row>, ids: seq<int>, k: nat)
    requires Covers(rows, ids) && 0 < k < |ids|
    requires 0 < Done(rows, ids, k) < Done(rows, ids, k + 1)
    ensures var p := Done(rows, ids, k);
            && rows[p].segment == ids[k] && rows[p - 1].segment <= ids[k - 1]
            && (Chunk(rows, ids[k - 1]) == [] <==> rows[p - 1].segment != ids[k - 1])
  {
    hide Chunk, StepsOf;
    var p := Done(rows, ids, k);
    NextChunk(rows, ids, k);
    NextChunk(rows, ids, k - 1);
    assert rows[p - 1] in rows;
  }

  /** A gap sits exactly where the visited id before a non-empty chunk had no rows. */
  lemma GapAtChunkStart(rows: seq<Row>, ids: seq<int>, k: nat)
    requires Covers(rows, ids) && 0 < k < |ids|
    requires 0 < Done(rows, ids, k) < Done(rows, ids, k + 1)
    ensures Done(rows, ids, k) in Gaps(rows, ids) <==> Chunk(rows, ids[k - 1]) == []
  {
    var p := Done(rows, ids, k);
    AroundChunkStart(rows, ids, k);
    NothingBetween(ids, k);
    hide Chunk, Covers, Done, StepsOf, Ascending, Ordered;
    if Chunk(rows, ids[k - 1]) == [] {
      assert IsGap(rows, ids, p);
    } else {
      assert !IsGap(rows, ids, p);
    }
  }

  lemma NoGapInsideChunk(rows: seq<Row>, ids: seq<int>, k: nat)
    requires Covers(rows, ids) && k < |ids|
    ensures forall i :: Done(rows, ids, k) < i < Done(rows, ids, k + 1) ==> i !in Gaps(rows, ids)
  {
    NextChunk(rows, ids, k);
  }

  /** A key's progress shows what the run with resets did so far; its carry is there unless the last chunk was empty. */
  ghost predicate Shows(progress: KeyProgress, reset: State, carried: bool) {
    progress.events == reset.emitted && progress.carry == if carried then Some(Carry(reset)) else None
  }

  ghost predicate InStep(cfg: Config, rows: seq<Row>, ids: seq<int>, k: nat)
    requires Covers(rows, ids) && k <= |ids|
  {
    Shows(BuildKey(cfg, rows, ids[..k]),
          ResetRun(cfg, StepsOf(rows)[..Done(rows, ids, k)], Gaps(rows, ids)),
          k > 0 && Chunk(rows, ids[k - 1]) != [])
  }

  lemma {:induction false} BuildIsResetRun(cfg: Config, rows: seq<Row>, ids: seq<int>, k: nat)
    requires Covers(rows, ids) && k <= |ids|
    ensures InStep(cfg, rows, ids, k)
  {
    hide InStep;
    if k == 0 {
      NothingDone(cfg, rows, ids);
    } else {
      BuildIsResetRun(cfg, rows, ids, k - 1);
      ChunkBuilds(cfg, rows, ids, k - 1);
    }
  }

  lemma NothingDone(cfg: Config, rows: seq<Row>, ids: seq<int>)
    requires Covers(rows, ids)
    ensures InStep(cfg, rows, ids, 0)
  {
    assert StepsOf(rows)[..0] == [];
  }

  /** One non-empty chunk, whatever produced the progress so far. */
  lemma StretchShows(cfg: Config, progress: KeyProgress, steps: seq<Step>, resets: set<int>, lo: nat, hi: nat)
    requires lo < hi <= |steps| && forall i :: lo < i < hi ==> i !in resets
    requires var reset := ResetRun(cfg, steps[..lo], resets);
             && progress.events == reset.emitted
             && StartFrom(progress.carry) == if lo in resets then INITIAL else Carry(reset)
    ensures Shows(AdvanceKey(cfg, progress, steps[lo..hi]), ResetRun(cfg, steps[..hi], resets), true)
  {
    hide Run, ResetRun;
    StretchRuns(cfg, steps, resets, lo, hi);
  }

  lemma ChunkBuilds(cfg: Config, rows: seq<Row>, ids: seq<int>, k: nat)
    requires Covers(rows, ids) && k < |ids| && InStep(cfg, rows, ids, k)
    ensures InStep(cfg, rows, ids, k + 1)
  {
    ChunkStart(cfg, rows, ids, k);
    BuildKeyUnfolds(cfg, rows, ids, k);
    var p, q := Done(rows, ids, k), Done(rows, ids, k + 1);
    hide *;
    if p < q {
      StretchShows(cfg, BuildKey(cfg, rows, ids[..k]), StepsOf(rows), Gaps(rows, ids), p, q);
      ChunkShows(cfg, rows, ids, k);
    } else {
      EmptyChunkShows(cfg, rows, ids, k);
    }
  }

  lemma BuildKeyUnfolds(cfg: Config, rows: seq<Row>, ids: seq<int>, k: nat)
    requires k < |ids|
    ensures BuildKey(cfg, rows, ids[..k + 1]) == AdvanceKey(cfg, BuildKey(cfg, rows, ids[..k]), Chunk(rows, ids[k]))
  {
    assert ids[..k + 1][..k] == ids[..k];
  }

  lemma ChunkShows(cfg: Config, rows: seq<Row>, ids: seq<int>, k: nat)
    requires Covers(rows, ids) && k < |ids|
    requires Done(rows, ids, k) < Done(rows, ids, k + 1)
    requires Chunk(rows, ids[k]) == StepsOf(rows)[Done(rows, ids, k)..Done(rows, ids, k + 1)]
    requires Shows(AdvanceKey(cfg, BuildKey(cfg, rows, ids[..k]), Chunk(rows, ids[k])),
             ResetRun(cfg, StepsOf(rows)[..Done(rows, ids, k + 1)], Gaps(rows, ids)), true)
    ensures InStep(cfg, rows, ids, k + 1)
  {
    BuildKeyUnfolds(cfg, rows, ids, k);
  }

  lemma EmptyChunkShows(cfg: Config, rows: seq<Row>, ids: seq<int>, k: nat)
    requires Covers(rows, ids) && k < |ids| && InStep(cfg, rows, ids, k)
    requires Done(rows, ids, k) == Done(rows, ids, k + 1) && Chunk(rows, ids[k]) == []
    ensures InStep(cfg, rows, ids, k + 1)
  {
    BuildKeyUnfolds(cfg, rows, ids, k);
    hide Run, ResetRun, BuildKey;
  }

  /** The next chunk starts from the carried state, or anew at a gap. */
  lemma ChunkStart(cfg: Config, rows: seq<Row>, ids: seq<int>, k: nat)
    requires Covers(rows, ids) && k < |ids|
    requires InStep(cfg, rows, ids, k)
    ensures var p, q := Done(rows, ids, k), Done(rows, ids, k + 1);
            var reset := ResetRun(cfg, StepsOf(rows)[..p], Gaps(rows, ids));
            && p <= q && Chunk(rows, ids[k]) == StepsOf(rows)[p..q]
            && (forall i :: p < i < q ==> i !in Gaps(rows, ids))
            && (p < q ==> StartFrom(BuildKey(cfg, rows, ids[..k]).carry) == if p in Gaps(rows, ids)
              then INITIAL else Carry(reset))
  {
    var p, q := Done(rows, ids, k), Done(rows, ids, k + 1);
    NextChunk(rows, ids, k);
    NoGapInsideChunk(rows, ids, k);
    if p == 0 {
      NothingBefore(cfg, rows, ids, k);
    } else if p < q {
      GapAtChunkStart(rows, ids, k);
    }
  }

  lemma NothingBefore(cfg: Config, rows: seq<Row>, ids: seq<int>, k: nat)
    requires Covers(rows, ids) && k < |ids| && Done(rows, ids, k) == 0
    ensures k > 0 ==> Chunk(rows, ids[k - 1]) == []
    ensures 0 !in Gaps(rows, ids)
    ensures ResetRun(cfg, StepsOf(rows)[..0], Gaps(rows, ids)) == INITIAL
  {
    if k > 0 {
      NextChunk(rows, ids, k - 1);
    }
    assert StepsOf(rows)[..0] == [];
  }

  lemma AllDone(rows: seq<Row>, ids: seq<int>)
    requires Covers(rows, ids)
    ensures Done(rows, ids, |ids|) == |rows|
  {
    forall i | 0 <= i < |rows|
      ensures ids != [] && rows[i].segment <= ids[|ids| - 1]
    {
      assert rows[i] in rows && rows[i].segment in ids;
    }
  }

  /**
   * For every key and every assignment of ascending segments: the extracted events are those of one run that forgets
   * its state at the gaps.
   */
  lemma SegmentedIsResetRun(cfg: Config, rows: seq<Row>, ids: seq<int>)
    requires Covers(rows, ids)
    ensures BuildKey(cfg, rows, ids).events == ResetRun(cfg, StepsOf(rows), Gaps(rows, ids)).emitted
  {
    BuildIsResetRun(cfg, rows, ids, |ids|);
    assert ids[..|ids|] == ids;
    AllDone(rows, ids);
    assert StepsOf(rows)[..|rows|] == StepsOf(rows);
  }
}
