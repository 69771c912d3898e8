/** The run loops of the numeric and the discrete primitive evidence. */
module RunExtraction {
  import opened Sums
  import opened LinearAlgebra

  /** Steps smaller than this have no sign. */
  const SIGNIFICANT := 0.05

  /** How much a run's peak must grow to count as reinforced. */
  const REINFORCED := 1.5

  function Sign(step: real): int {
    if Abs(step) < SIGNIFICANT then 0 else if step > 0.0 then 1 else -1
  }

  function Signs(steps: seq<real>): (signs: seq<int>)
    ensures |signs| == |steps|
    ensures forall k :: 0 <= k < |steps| ==> (signs[k] == 0 <==> -SIGNIFICANT < steps[k] < SIGNIFICANT)
  {
    seq(|steps|, k requires 0 <= k < |steps| => Sign(steps[k]))
  }

  /** Labels equal to the idle one belong to no run. */
  predicate Idle<T(==)>(x: T, idle: Option<T>) {
    idle == Some(x)
  }

  /** A stretch of equal, not idle labels that cannot be extended to the left. */
  ghost predicate Open<T>(labels: seq<T>, idle: Option<T>, start: nat, length: nat) {
    && 0 < length && start + length <= |labels|
    && !Idle(labels[start], idle)
    && (forall j :: start <= j < start + length ==> labels[j] == labels[start])
    && (start > 0 ==> labels[start - 1] != labels[start])
  }

  /** A stretch that cannot be extended on either side. */
  ghost predicate Maximal<T>(labels: seq<T>, idle: Option<T>, start: nat, length: nat) {
    && Open(labels, idle, start, length)
    && (start + length < |labels| ==> labels[start + length] != labels[start])
  }

  ghost predicate Within(starts: seq<nat>, lengths: seq<nat>, r: nat, j: nat)
    requires r < |starts| == |lengths|
  {
    starts[r] <= j < starts[r] + lengths[r]
  }

  /**
   * The runs are maximal, in order, end before `upto`, and together hold every label before `upto` that is not idle.
   */
  ghost predicate RunsUpTo<T>(labels: seq<T>, idle: Option<T>, starts: seq<nat>, lengths: seq<nat>, upto: nat)
    requires upto <= |labels|
  {
    && |starts| == |lengths|
    && (forall r :: 0 <= r < |starts| ==>
      Maximal(labels, idle, starts[r], lengths[r]) && starts[r] + lengths[r] <= upto)
    && (forall q, r :: 0 <= q < r < |starts| ==> starts[q] + lengths[q] <= starts[r])
    && (forall j :: 0 <= j < upto && !Idle(labels[j], idle) ==>
      exists r :: 0 <= r < |starts| && Within(starts, lengths, r, j))
  }

  ghost predicate AreRuns<T>(labels: seq<T>, idle: Option<T>, starts: seq<nat>, lengths: seq<nat>) {
    RunsUpTo(labels, idle, starts, lengths, |labels|)
  }

  /** Two maximal runs that share a position are the same run. */
  lemma OverlappingRunsAreOne<T>(
    labels: seq<T>, idle: Option<T>, start: nat, length: nat, other: nat, otherLength: nat, j: nat)
    requires Maximal(labels, idle, start, length) && Maximal(labels, idle, other, otherLength)
    requires start <= j < start + length && other <= j < other + otherLength
    ensures start == other && length == otherLength
  {
    assert labels[start] == labels[j] == labels[other];
  }

  /** The listed runs are all the maximal runs there are. */
  lemma EveryMaximalRunIsListed<T>(
    labels: seq<T>, idle: Option<T>, starts: seq<nat>, lengths: seq<nat>, start: nat, length: nat)
    requires AreRuns(labels, idle, starts, lengths) && Maximal(labels, idle, start, length)
    ensures exists r :: 0 <= r < |starts| && starts[r] == start && lengths[r] == length
  {
    var r :| 0 <= r < |starts| && Within(starts, lengths, r, start);
    OverlappingRunsAreOne(labels, idle, start, length, starts[r], lengths[r], start);
  }

  ghost function Total(lengths: seq<nat>): nat {
    if lengths == [] then 0 else Total(lengths[..|lengths| - 1]) + lengths[|lengths| - 1]
  }

  lemma TotalAppend(lengths: seq<nat>, n: nat)
    ensures Total(lengths + [n]) == Total(lengths) + n
  {
    assert (lengths + [n])[..|lengths|] == lengths;
  }

  /** How many of the first `n` labels are not idle. */
  ghost function ActiveCount<T>(labels: seq<T>, idle: Option<T>, n: nat): nat
    requires n <= |labels|
  {
    if n == 0 then 0 else ActiveCount(labels, idle, n - 1) + if Idle(labels[n - 1], idle) then 0 else 1
  }

  /** How often one of the first `n` labels differs from the label before it. */
  ghost function Changes<T>(labels: seq<T>, n: nat): nat
    requires n <= |labels|
  {
    if n <= 1 then 0 else Changes(labels, n - 1) + if labels[n - 1] != labels[n - 2] then 1 else 0
  }

  /** Closing the open stretch lists one run more. */
  lemma CloseRun<T>(labels: seq<T>, idle: Option<T>, starts: seq<nat>, lengths: seq<nat>, start: nat, length: nat)
    requires start + length <= |labels|
    requires RunsUpTo(labels, idle, starts, lengths, start)
    requires Maximal(labels, idle, start, length)
    ensures RunsUpTo(labels, idle, starts + [start], lengths + [length], start + length)
  {
    hide Maximal, Idle;
    var moreStarts, moreLengths := starts + [start], lengths + [length];
    forall j | 0 <= j < start + length && !Idle(labels[j], idle)
      ensures exists r :: 0 <= r < |moreStarts| && Within(moreStarts, moreLengths, r, j)
    {
      if j < start {
        var r :| 0 <= r < |starts| && Within(starts, lengths, r, j);
        assert Within(moreStarts, moreLengths, r, j);
      } else {
        assert Within(moreStarts, moreLengths, |starts|, j);
      }
    }
  }

  /** An idle label after the listed runs changes nothing. */
  lemma SkipIdle<T>(labels: seq<T>, idle: Option<T>, starts: seq<nat>, lengths: seq<nat>, upto: nat)
    requires upto < |labels| && Idle(labels[upto], idle)
    requires RunsUpTo(labels, idle, starts, lengths, upto)
    ensures RunsUpTo(labels, idle, starts, lengths, upto + 1)
  {
    hide Maximal;
  }

  /** After `n` labels: the closed runs, and an open stretch of `current` labels. */
  ghost predicate Scanned<T>(
    labels: seq<T>, idle: Option<T>, n: nat, starts: seq<nat>, lengths: seq<nat>, current: nat)
    requires n <= |labels|
  {
    && current <= n
    && RunsUpTo(labels, idle, starts, lengths, n - current)
    && Total(lengths) + current == ActiveCount(labels, idle, n)
    && (current == 0 && n > 0 ==> Idle(labels[n - 1], idle))
    && (current > 0 ==> Open(labels, idle, n - current, current))
  }

  /** The closed runs once the open stretch has been closed as well. */
  ghost function CloseStarts(n: nat, starts: seq<nat>, current: nat): seq<nat>
    requires current <= n
  {
    if current > 0 then starts + [n - current] else starts
  }

  function CloseLengths(lengths: seq<nat>, current: nat): seq<nat> {
    if current > 0 then lengths + [current] else lengths
  }

  lemma ScanCloses<T>(labels: seq<T>, idle: Option<T>, n: nat, starts: seq<nat>, lengths: seq<nat>, current: nat)
    requires n <= |labels| && Scanned(labels, idle, n, starts, lengths, current)
    requires n > 0 && n < |labels| ==> Idle(labels[n], idle) || labels[n] != labels[n - 1]
    ensures RunsUpTo(labels, idle, CloseStarts(n, starts, current), CloseLengths(lengths, current), n)
    ensures Total(CloseLengths(lengths, current)) == ActiveCount(labels, idle, n)
  {
    hide RunsUpTo, Total, ActiveCount;
    if current > 0 {
      CloseRun(labels, idle, starts, lengths, n - current, current);
      TotalAppend(lengths, current);
    }
  }

  lemma ScanIdle<T>(labels: seq<T>, idle: Option<T>, n: nat, starts: seq<nat>, lengths: seq<nat>, current: nat)
    requires n < |labels| && Scanned(labels, idle, n, starts, lengths, current) && Idle(labels[n], idle)
    ensures Scanned(labels, idle, n + 1, CloseStarts(n, starts, current), CloseLengths(lengths, current), 0)
  {
    ScanCloses(labels, idle, n, starts, lengths, current);
    hide RunsUpTo, Total, CloseStarts, CloseLengths;
    SkipIdle(labels, idle, CloseStarts(n, starts, current), CloseLengths(lengths, current), n);
  }

  lemma OpensOne<T>(labels: seq<T>, idle: Option<T>, n: nat)
    requires n < |labels| && !Idle(labels[n], idle) && (n > 0 ==> labels[n - 1] != labels[n])
    ensures Open(labels, idle, n, 1)
  {
  }

  lemma ScanFresh<T>(labels: seq<T>, idle: Option<T>, n: nat, starts: seq<nat>, lengths: seq<nat>, current: nat)
    requires n < |labels| && Scanned(labels, idle, n, starts, lengths, current) && !Idle(labels[n], idle)
    requires n > 0 ==> labels[n] != labels[n - 1]
    ensures Scanned(labels, idle, n + 1, CloseStarts(n, starts, current), CloseLengths(lengths, current), 1)
  {
    ScanCloses(labels, idle, n, starts, lengths, current);
    OpensOne(labels, idle, n);
    hide RunsUpTo, Total, CloseStarts, CloseLengths, Open, Idle;
  }

  lemma ScanSame<T>(labels: seq<T>, idle: Option<T>, n: nat, starts: seq<nat>, lengths: seq<nat>, current: nat)
    requires n < |labels| && Scanned(labels, idle, n, starts, lengths, current) && !Idle(labels[n], idle)
    requires n > 0 && labels[n] == labels[n - 1]
    ensures Scanned(labels, idle, n + 1, starts, lengths, current + 1)
  {
    hide RunsUpTo, Total;
  }

  /** One and a half to the power `n`. */
  ghost function Growth(n: nat): real {
    if n == 0 then 1.0 else 1.5 * Growth(n - 1)
  }

  /** The peak is the largest size of the run's steps. */
  ghost predicate IsPeak(steps: seq<real>, start: nat, length: nat, peak: real)
    requires start + length <= |steps|
  {
    && (forall j :: start <= j < start + length ==> Abs(steps[j]) <= peak)
    && (exists j :: start <= j < start + length && Abs(steps[j]) == peak)
  }

  /** How far a run has climbed: its peak, the level it must outgrow next, and how often it has been reinforced. */
  datatype Level = Level(peak: real, last: real, raises: nat)

  function Larger(peak: real, size: real): real {
    if size > peak then size else peak
  }

  /** A run is reinforced whenever its peak has grown by the factor since the last time, or since its first step. */
  ghost function Climb(steps: seq<real>, start: nat, length: nat): Level
    requires 0 < length && start + length <= |steps|
  {
    var size := Abs(steps[start + length - 1]);
    if length == 1 then Level(size, size, 0)
    else
      var before := Climb(steps, start, length - 1);
      var peak := Larger(before.peak, size);
      if peak >= before.last * REINFORCED then Level(peak, peak, before.raises + 1) else before.(peak := peak)
  }

  lemma PeakExtends(steps: seq<real>, start: nat, length: nat, peak: real)
    requires start + length < |steps| && IsPeak(steps, start, length, peak)
    ensures IsPeak(steps, start, length + 1, Larger(peak, Abs(steps[start + length])))
  {
    hide Abs;
    var size := Abs(steps[start + length]);
    var at :| start <= at < start + length && Abs(steps[at]) == peak;
    assert Abs(steps[if size > peak then start + length else at]) == Larger(peak, size);
  }

  lemma GrowthTimes(n: nat, first: real)
    ensures Times(Growth(n + 1), first) == 1.5 * Times(Growth(n), first)
  {
  }

  /**
   * A run reinforced `r` times peaks at no less than the factor to the power `r` times its first step, and is longer
   * than `r`.
   */
  lemma {:induction false} ReinforcementsForcePeak(steps: seq<real>, start: nat, length: nat)
    requires 0 < length && start + length <= |steps|
    ensures var climb := Climb(steps, start, length);
            && IsPeak(steps, start, length, climb.peak)
            && climb.raises < length
            && climb.peak >= climb.last >= Times(Growth(climb.raises), Abs(steps[start]))
  {
    if length == 1 {
      assert Growth(0) == 1.0;
      assert Times(1.0, Abs(steps[start])) == Abs(steps[start]);
    } else {
      ReinforcementsForcePeak(steps, start, length - 1);
      var before := Climb(steps, start, length - 1);
      hide IsPeak, Growth, Times, Abs;
      PeakExtends(steps, start, length - 1, before.peak);
      GrowthTimes(before.raises, Abs(steps[start]));
    }
  }

  // ---------- Reinforcements, read off the steps ----------

  /** The step is at least one and a half times as large. */
  predicate Outgrows(steps: seq<real>, at: nat, next: nat)
    requires at < |steps| && next < |steps|
  {
    Abs(steps[next]) >= 1.5 * Abs(steps[at])
  }

  /** No step strictly between outgrows the one at `at`. */
  ghost predicate NoneOutgrows(steps: seq<real>, at: nat, end: nat)
    requires at < |steps| && end <= |steps|
  {
    forall j :: at < j < end ==> !Outgrows(steps, at, j)
  }

  /**
   * The first step of a run, and after it each step that reinforces the run: the first to outgrow the one marked before
   * it.
   */
  ghost predicate Marks(steps: seq<real>, start: nat, end: nat, marks: seq<nat>)
    requires start < end <= |steps|
  {
    && marks != [] && marks[0] == start
    && (forall r :: 0 <= r < |marks| ==> marks[r] < end)
    && (forall r :: 0 < r < |marks| ==>
          && marks[r - 1] < marks[r]
          && Outgrows(steps, marks[r - 1], marks[r]) && NoneOutgrows(steps, marks[r - 1], marks[r]))
    && NoneOutgrows(steps, marks[|marks| - 1], end)
  }

  lemma MarkAdded(steps: seq<real>, start: nat, end: nat, marks: seq<nat>)
    requires start < end < |steps| && Marks(steps, start, end, marks)
    requires Outgrows(steps, marks[|marks| - 1], end)
    ensures Marks(steps, start, end + 1, marks + [end])
  {
    assert NoneOutgrows(steps, end, end + 1);
    hide Outgrows, NoneOutgrows;
    var more := marks + [end];
    forall r | 0 < r < |more|
      ensures more[r - 1] < more[r] && Outgrows(steps, more[r - 1], more[r])
      ensures NoneOutgrows(steps, more[r - 1], more[r])
    {
      if r == |marks| {
        assert more[r - 1] == marks[|marks| - 1];
      }
    }
  }

  lemma MarksKept(steps: seq<real>, start: nat, end: nat, marks: seq<nat>)
    requires start < end < |steps| && Marks(steps, start, end, marks)
    requires !Outgrows(steps, marks[|marks| - 1], end)
    ensures Marks(steps, start, end + 1, marks)
  {
    hide Outgrows;
  }

  /** A run of steps other than zero is reinforced at the marked steps but the first, and nowhere else. */
  lemma {:induction false} ReinforcementsAreMarked(steps: seq<real>, start: nat, length: nat) returns (marks: seq<nat>)
    requires 0 < length && start + length <= |steps|
    requires forall j :: start <= j < start + length ==> Abs(steps[j]) > 0.0
    ensures Marks(steps, start, start + length, marks) && marks != [] && marks[|marks| - 1] < start + length
    ensures var climb := Climb(steps, start, length);
            && climb.raises == |marks| - 1
            && climb.last == Abs(steps[marks[|marks| - 1]]) > 0.0
            && climb.peak < 1.5 * climb.last
  {
    hide Abs, Marks;
    if length == 1 {
      marks := [start];
      assert Marks(steps, start, start + 1, marks) by {
        FirstMark(steps, start);
      }
    } else {
      marks := ReinforcementsAreMarked(steps, start, length - 1);
      var end := start + length - 1;
      if Outgrows(steps, marks[|marks| - 1], end) {
        MarkAdded(steps, start, end, marks);
        marks := marks + [end];
      } else {
        MarksKept(steps, start, end, marks);
      }
    }
  }

  lemma FirstMark(steps: seq<real>, start: nat)
    requires start < |steps|
    ensures Marks(steps, start, start + 1, [start])
  {
  }

  /** Only one list of steps can be marked. */
  lemma {:induction false} MarksAgree(steps: seq<real>, start: nat, end: nat, marks: seq<nat>, others: seq<nat>, n: nat)
    requires start < end <= |steps| && Marks(steps, start, end, marks) && Marks(steps, start, end, others)
    requires n < |marks| && n < |others|
    ensures marks[n] == others[n]
  {
    hide Outgrows;
    if n > 0 {
      MarksAgree(steps, start, end, marks, others, n - 1);
    }
  }

  lemma NoMoreMarks(steps: seq<real>, start: nat, end: nat, marks: seq<nat>, others: seq<nat>)
    requires start < end <= |steps| && Marks(steps, start, end, marks) && Marks(steps, start, end, others)
    ensures |marks| <= |others|
  {
    hide Outgrows;
    var last := |others| - 1;
    if last < |marks| {
      MarksAgree(steps, start, end, marks, others, last);
    }
    if |others| < |marks| {
      NextMark(steps, start, end, marks, last);
      assert false;
    }
  }

  lemma NextMark(steps: seq<real>, start: nat, end: nat, marks: seq<nat>, r: nat)
    requires start < end <= |steps| && Marks(steps, start, end, marks) && r + 1 < |marks|
    ensures marks[r] < marks[r + 1] < end && Outgrows(steps, marks[r], marks[r + 1])
  {
  }

  lemma MarksAreUnique(steps: seq<real>, start: nat, end: nat, marks: seq<nat>, others: seq<nat>)
    requires start < end <= |steps| && Marks(steps, start, end, marks) && Marks(steps, start, end, others)
    ensures marks == others
  {
    hide Marks;
    NoMoreMarks(steps, start, end, marks, others);
    NoMoreMarks(steps, start, end, others, marks);
    forall n | 0 <= n < |marks|
      ensures marks[n] == others[n]
    {
      MarksAgree(steps, start, end, marks, others, n);
    }
  }

  /** Peaks and reinforcements of the closed runs. */
  ghost predicate PeaksFit(
    steps: seq<real>, starts: seq<nat>, lengths: seq<nat>, peaks: seq<real>, reinforcements: seq<nat>)
  {
    && |starts| == |lengths| == |peaks| == |reinforcements|
    && forall r :: 0 <= r < |starts| ==>
         && 0 < lengths[r] && starts[r] + lengths[r] <= |steps|
         && Climb(steps, starts[r], lengths[r]).peak == peaks[r]
         && Climb(steps, starts[r], lengths[r]).raises == reinforcements[r]
  }

  /** The state of the stretch that is still open. */
  ghost predicate OpenPeak(steps: seq<real>, start: nat, length: nat, peak: real, lastPeak: real, reinforced: nat) {
    && 0 < length && start + length <= |steps|
    && Climb(steps, start, length) == Level(peak, lastPeak, reinforced)
    && lastPeak > 0.0
  }

  lemma ClosePeak(
    steps: seq<real>, starts: seq<nat>, lengths: seq<nat>, peaks: seq<real>, reinforcements: seq<nat>,
    start: nat, length: nat, peak: real, lastPeak: real, reinforced: nat)
    requires PeaksFit(steps, starts, lengths, peaks, reinforcements)
    requires OpenPeak(steps, start, length, peak, lastPeak, reinforced)
    ensures PeaksFit(steps, starts + [start], lengths + [length], peaks + [peak], reinforcements + [reinforced])
    ensures Total(reinforcements + [reinforced]) == Total(reinforcements) + reinforced
    ensures Total(lengths + [length]) == Total(lengths) + length
  {
    hide Climb, Total;
    TotalAppend(reinforcements, reinforced);
    TotalAppend(lengths, length);
  }

  lemma OpenFresh(steps: seq<real>, n: nat)
    requires n < |steps| && Abs(steps[n]) > 0.0
    ensures OpenPeak(steps, n, 1, Abs(steps[n]), Abs(steps[n]), 0)
  {
  }

  /** One more step of the same sign, and the reinforcement it may cause. */
  lemma ExtendPeak(steps: seq<real>, start: nat, length: nat, peak: real, lastPeak: real, reinforced: nat)
    requires OpenPeak(steps, start, length, peak, lastPeak, reinforced) && start + length < |steps|
    ensures var more := Larger(peak, Abs(steps[start + length]));
            if more >= lastPeak * REINFORCED then OpenPeak(steps, start, length + 1, more, more, reinforced + 1)
            else OpenPeak(steps, start, length + 1, more, lastPeak, reinforced)
  {
    hide Abs;
  }

  /** After `n` steps: peaks and reinforcements of the closed runs and of the open stretch. */
  ghost predicate Measured(
    steps: seq<real>, n: nat, starts: seq<nat>, lengths: seq<nat>, peaks: seq<real>, perRun: seq<nat>,
    current: nat, peak: real, lastPeak: real, reinforced: nat, count: nat)
  {
    && current <= n
    && PeaksFit(steps, starts, lengths, peaks, perRun)
    && Total(perRun) + reinforced == count
    && (current == 0 ==> reinforced == 0)
    && (current > 0 ==> OpenPeak(steps, n - current, current, peak, lastPeak, reinforced))
  }

  function ClosePeaks(peaks: seq<real>, current: nat, peak: real): seq<real> {
    if current > 0 then peaks + [peak] else peaks
  }

  ghost function ClosePerRun(perRun: seq<nat>, current: nat, reinforced: nat): seq<nat> {
    if current > 0 then perRun + [reinforced] else perRun
  }

  lemma MeasureCloses(
    steps: seq<real>, n: nat, starts: seq<nat>, lengths: seq<nat>, peaks: seq<real>, perRun: seq<nat>,
    current: nat, peak: real, lastPeak: real, reinforced: nat, count: nat)
    requires Measured(steps, n, starts, lengths, peaks, perRun, current, peak, lastPeak, reinforced, count)
    ensures PeaksFit(steps, CloseStarts(n, starts, current), CloseLengths(lengths, current),
                     ClosePeaks(peaks, current, peak), ClosePerRun(perRun, current, reinforced))
    ensures Total(ClosePerRun(perRun, current, reinforced)) == count
  {
    hide PeaksFit, OpenPeak, Total;
    if current > 0 {
      ClosePeak(steps, starts, lengths, peaks, perRun, n - current, current, peak, lastPeak, reinforced);
    }
  }

  lemma SignificantStep(steps: seq<real>, n: nat)
    requires n < |steps| && Signs(steps)[n] != 0
    ensures Abs(steps[n]) > 0.0
  {
  }

  lemma NothingScanned<T>(labels: seq<T>, idle: Option<T>)
    ensures Scanned(labels, idle, 0, [], [], 0)
  {
  }

  lemma NothingMeasured(steps: seq<real>)
    ensures Measured(steps, 0, [], [], [], [], 0, 0.0, 0.0, 0, 0)
  {
  }

  lemma MeasureIdle(
    steps: seq<real>, n: nat, starts: seq<nat>, lengths: seq<nat>, peaks: seq<real>, perRun: seq<nat>,
    current: nat, peak: real, lastPeak: real, reinforced: nat, count: nat)
    requires Measured(steps, n, starts, lengths, peaks, perRun, current, peak, lastPeak, reinforced, count)
    ensures current <= n
    ensures Measured(steps, n + 1, CloseStarts(n, starts, current), CloseLengths(lengths, current),
                     ClosePeaks(peaks, current, peak), ClosePerRun(perRun, current, reinforced), 0, 0.0, 0.0, 0, count)
  {
    MeasureCloses(steps, n, starts, lengths, peaks, perRun, current, peak, lastPeak, reinforced, count);
    hide PeaksFit, OpenPeak, Total, CloseStarts, CloseLengths, ClosePeaks, ClosePerRun;
  }

  lemma MeasureFresh(
    steps: seq<real>, n: nat, starts: seq<nat>, lengths: seq<nat>, peaks: seq<real>, perRun: seq<nat>,
    current: nat, peak: real, lastPeak: real, reinforced: nat, count: nat)
    requires Measured(steps, n, starts, lengths, peaks, perRun, current, peak, lastPeak, reinforced, count)
    requires n < |steps| && Abs(steps[n]) > 0.0
    ensures current <= n
    ensures Measured(steps, n + 1, CloseStarts(n, starts, current), CloseLengths(lengths, current),
                     ClosePeaks(peaks, current, peak), ClosePerRun(perRun, current, reinforced),
                     1, Abs(steps[n]), Abs(steps[n]), 0, count)
  {
    MeasureCloses(steps, n, starts, lengths, peaks, perRun, current, peak, lastPeak, reinforced, count);
    hide PeaksFit, OpenPeak, Total, CloseStarts, CloseLengths, ClosePeaks, ClosePerRun;
    OpenFresh(steps, n);
  }

  lemma MeasureSame(
    steps: seq<real>, n: nat, starts: seq<nat>, lengths: seq<nat>, peaks: seq<real>, perRun: seq<nat>,
    current: nat, peak: real, lastPeak: real, reinforced: nat, count: nat)
    requires Measured(steps, n, starts, lengths, peaks, perRun, current, peak, lastPeak, reinforced, count)
    requires n < |steps| && 0 < current
    ensures lastPeak > 0.0
    ensures var more := Larger(peak, Abs(steps[n]));
            if more >= lastPeak * REINFORCED
            then Measured(steps, n + 1, starts, lengths, peaks, perRun, current + 1, more, more,
              reinforced + 1, count + 1)
            else Measured(steps, n + 1, starts, lengths, peaks, perRun, current + 1, more, lastPeak, reinforced, count)
  {
    ExtendPeak(steps, n - current, current, peak, lastPeak, reinforced);
    assert lastPeak > 0.0;
    hide PeaksFit, OpenPeak, Total;
  }

  // ---------- Runs, read off the steps ----------

  /** Both steps rise, or both fall, by at least 0.05. */
  ghost predicate SameSide(x: real, y: real) {
    (x >= 0.05 && y >= 0.05) || (x <= -0.05 && y <= -0.05)
  }

  /** Steps of one side that cannot be extended. */
  ghost predicate StepRun(steps: seq<real>, start: nat, length: nat) {
    && 0 < length && start + length <= |steps|
    && (forall j :: start <= j < start + length ==> SameSide(steps[j], steps[start]))
    && (start > 0 ==> !SameSide(steps[start - 1], steps[start]))
    && (start + length < |steps| ==> !SameSide(steps[start + length], steps[start]))
  }

  /** The stretches are such runs, in order, and every step of at least 0.05 lies in one of them. */
  ghost predicate AreStepRuns(steps: seq<real>, starts: seq<nat>, lengths: seq<nat>) {
    && |starts| == |lengths|
    && (forall r :: 0 <= r < |starts| ==> StepRun(steps, starts[r], lengths[r]))
    && (forall q, r :: 0 <= q < r < |starts| ==> starts[q] + lengths[q] <= starts[r])
    && (forall j :: 0 <= j < |steps| && SameSide(steps[j], steps[j]) ==>
          exists r :: 0 <= r < |starts| && Within(starts, lengths, r, j))
  }

  lemma SameSideIffSameSign(x: real, y: real)
    ensures SameSide(x, y) <==> Sign(x) == Sign(y) != 0
  {
  }

  lemma StepRunIffMaximal(steps: seq<real>, start: nat, length: nat)
    ensures StepRun(steps, start, length) <==> Maximal(Signs(steps), Some(0), start, length)
  {
    forall x, y
      ensures SameSide(x, y) <==> Sign(x) == Sign(y) != 0
    {
      SameSideIffSameSign(x, y);
    }
    assert forall j :: 0 <= j < |steps| ==> Signs(steps)[j] == Sign(steps[j]);
    hide SameSide, Sign, Signs;
    if StepRun(steps, start, length) {
      assert SameSide(steps[start], steps[start]);
    }
  }

  lemma RunsAreStepRuns(steps: seq<real>, starts: seq<nat>, lengths: seq<nat>)
    requires AreRuns(Signs(steps), Some(0), starts, lengths)
    ensures AreStepRuns(steps, starts, lengths)
  {
    forall j | 0 <= j < |steps|
      ensures SameSide(steps[j], steps[j]) <==> !Idle(Signs(steps)[j], Some(0))
    {
      SameSideIffSameSign(steps[j], steps[j]);
    }
    forall r | 0 <= r < |starts|
      ensures StepRun(steps, starts[r], lengths[r])
    {
      StepRunIffMaximal(steps, starts[r], lengths[r]);
    }
    hide StepRun, Maximal, SameSide, Signs, Idle;
  }

  /** Each run has the largest size of its steps as its peak, and is reinforced at its marked steps but the first. */
  ghost predicate AreMeasured(
    steps: seq<real>, starts: seq<nat>, lengths: seq<nat>, peaks: seq<real>, reinforcements: seq<nat>)
  {
    && |starts| == |lengths| == |peaks| == |reinforcements|
    && forall r :: 0 <= r < |starts| ==> IsMeasured(steps, starts[r], lengths[r], peaks[r], reinforcements[r])
  }

  ghost predicate IsMeasured(steps: seq<real>, start: nat, length: nat, peak: real, raises: nat) {
    && 0 < length && start + length <= |steps|
    && IsPeak(steps, start, length, peak)
    && exists marks :: Marks(steps, start, start + length, marks) && |marks| == raises + 1
  }

  lemma RunsAreMeasured(
    steps: seq<real>, starts: seq<nat>, lengths: seq<nat>, peaks: seq<real>, reinforcements: seq<nat>)
    requires PeaksFit(steps, starts, lengths, peaks, reinforcements) && AreStepRuns(steps, starts, lengths)
    ensures AreMeasured(steps, starts, lengths, peaks, reinforcements)
  {
    hide Climb, IsPeak, Marks, IsMeasured;
    forall r | 0 <= r < |starts|
      ensures IsMeasured(steps, starts[r], lengths[r], peaks[r], reinforcements[r])
    {
      assert StepRun(steps, starts[r], lengths[r]);
      RunIsMeasured(steps, starts[r], lengths[r]);
    }
  }

  lemma RunIsMeasured(steps: seq<real>, start: nat, length: nat)
    requires StepRun(steps, start, length)
    ensures IsMeasured(steps, start, length, Climb(steps, start, length).peak, Climb(steps, start, length).raises)
  {
    assert forall j :: start <= j < start + length ==> Abs(steps[j]) > 0.0;
    hide Climb, IsPeak, Marks, Abs, StepRun;
    ReinforcementsForcePeak(steps, start, length);
    var marks := ReinforcementsAreMarked(steps, start, length);
  }

  /**
   * The numeric run loop. The lengths are those of the maximal runs of equal non-zero sign, in order;
   * `starts` and `perRun` say where each run starts and how many of the reinforcements fall into it.
   */
  method NumericRuns(steps: seq<real>)
    returns (runLengths: seq<nat>, runPeaks: seq<real>, reinforcementCount: nat, ghost starts: seq<nat>,
      ghost perRun: seq<nat>)
    ensures AreRuns(Signs(steps), Some(0), starts, runLengths)
    ensures AreStepRuns(steps, starts, runLengths)
    ensures Total(runLengths) == ActiveCount(Signs(steps), Some(0), |steps|)
    ensures PeaksFit(steps, starts, runLengths, runPeaks, perRun)
    ensures AreMeasured(steps, starts, runLengths, runPeaks, perRun)
    ensures Total(perRun) == reinforcementCount
  {
    hide Scanned, Measured, OpenPeak, Total, PeaksFit, RunsUpTo, CloseStarts, ClosePerRun;
    var signs := Signs(steps);
    runLengths, runPeaks, reinforcementCount := [], [], 0;
    starts, perRun := [], [];
    var currentSign, currentLength: nat, currentPeak, lastPeak := 0, 0, 0.0, 0.0;
    ghost var reinforced: nat := 0;
    NothingScanned(signs, Some(0));
    NothingMeasured(steps);
    for n := 0 to |steps|
      invariant Scanned(signs, Some(0), n, starts, runLengths, currentLength)
      invariant Measured(steps, n, starts, runLengths, runPeaks, perRun,
                         currentLength, currentPeak, lastPeak, reinforced, reinforcementCount)
      invariant currentLength == 0 <==> currentSign == 0
      invariant currentSign == if n == 0 then 0 else signs[n - 1]
      invariant currentLength <= n
    {
      hide Signs;
      var sign, size := signs[n], Abs(steps[n]);
      ghost var closedStarts := CloseStarts(n, starts, currentLength);
      ghost var closedPerRun := ClosePerRun(perRun, currentLength, reinforced);
      if sign == 0 {
        ScanIdle(signs, Some(0), n, starts, runLengths, currentLength);
        MeasureIdle(steps, n, starts, runLengths, runPeaks, perRun, currentLength, currentPeak,
          lastPeak, reinforced, reinforcementCount);
        if currentLength > 0 {
          runLengths := runLengths + [currentLength];
          runPeaks := runPeaks + [currentPeak];
        }
        starts, perRun, reinforced := closedStarts, closedPerRun, 0;
        currentSign, currentLength, currentPeak, lastPeak := 0, 0, 0.0, 0.0;
      } else if sign != currentSign {
        SignificantStep(steps, n);
        ScanFresh(signs, Some(0), n, starts, runLengths, currentLength);
        MeasureFresh(steps, n, starts, runLengths, runPeaks, perRun, currentLength, currentPeak,
          lastPeak, reinforced, reinforcementCount);
        if currentLength > 0 {
          runLengths := runLengths + [currentLength];
          runPeaks := runPeaks + [currentPeak];
        }
        starts, perRun, reinforced := closedStarts, closedPerRun, 0;
        currentSign, currentLength, currentPeak, lastPeak := sign, 1, size, size;
      } else {
        ScanSame(signs, Some(0), n, starts, runLengths, currentLength);
        MeasureSame(steps, n, starts, runLengths, runPeaks, perRun, currentLength, currentPeak,
          lastPeak, reinforced, reinforcementCount);
        currentLength := currentLength + 1;
        currentPeak := if size > currentPeak then size else currentPeak;
        if currentLength >= 2 && lastPeak > 0.0 && currentPeak >= lastPeak * REINFORCED {
          reinforcementCount := reinforcementCount + 1;
          reinforced := reinforced + 1;
          lastPeak := currentPeak;
        }
      }
    }
    ScanCloses(signs, Some(0), |steps|, starts, runLengths, currentLength);
    MeasureCloses(steps, |steps|, starts, runLengths, runPeaks, perRun, currentLength, currentPeak,
      lastPeak, reinforced, reinforcementCount);
    starts, perRun := CloseStarts(|steps|, starts, currentLength), ClosePerRun(perRun, currentLength, reinforced);
    if currentLength > 0 {
      runLengths := runLengths + [currentLength];
      runPeaks := runPeaks + [currentPeak];
    }
    RunsAreStepRuns(steps, starts, runLengths);
    RunsAreMeasured(steps, starts, runLengths, runPeaks, perRun);
  }

  /** The discrete run loop: one run more than there are transitions, and the runs hold every sample. */
  method DiscreteRuns(values: seq<string>) returns (runLengths: seq<nat>, ghost starts: seq<nat>)
    requires |values| >= 2
    ensures AreRuns(values, None, starts, runLengths)
    ensures |runLengths| == Changes(values, |values|) + 1
    ensures Total(runLengths) == |values|
  {
    hide Scanned, Total, RunsUpTo, CloseStarts;
    runLengths, starts := [], [];
    var currentRun: nat := 0;
    var previous: Option<string> := None;
    NothingScanned(values, None);
    for n := 0 to |values|
      invariant Scanned(values, None, n, starts, runLengths, currentRun)
      invariant currentRun <= n
      invariant n == 0 ==> previous == None && currentRun == 0 && runLengths == []
      invariant n > 0 ==> currentRun > 0 && previous == Some(values[n - 1]) && |runLengths| == Changes(values, n)
    {
      if previous == Some(values[n]) {
        ScanSame(values, None, n, starts, runLengths, currentRun);
        currentRun := currentRun + 1;
      } else {
        ScanFresh(values, None, n, starts, runLengths, currentRun);
        starts := CloseStarts(n, starts, currentRun);
        if currentRun > 0 {
          runLengths := runLengths + [currentRun];
        }
        currentRun := 1;
        previous := Some(values[n]);
      }
    }
    ScanCloses(values, None, |values|, starts, runLengths, currentRun);
    AllActive(values, |values|);
    starts := CloseStarts(|values|, starts, currentRun);
    if currentRun > 0 {
      runLengths := runLengths + [currentRun];
    }
  }

  lemma {:induction false} AllActive(values: seq<string>, n: nat)
    requires n <= |values|
    ensures ActiveCount(values, None, n) == n
  {
    if n > 0 {
      AllActive(values, n - 1);
    }
  }
}
