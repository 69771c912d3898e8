/**
 What the two settings of the segment policy cap. Rows are cut at multiples of the row setting and at multiples of the
 time span, but the larger of the two segment ids counts, so that one setting's cuts can be swallowed by the other's.
 */
module SegmentCaps {
  import opened Sums
  import opened CategoricalEvents
  import opened Segmentation
  import opened SegmentationVisibility

  /** Time does not go back. */
  predicate InTime(steps: seq<Step>) {
    forall i, j :: 0 <= i < j < |steps| ==> steps[i].ts <= steps[j].ts
  }

  /** Rows of one segment are fewer apart than the row setting, read as at least one. */
  ghost predicate CapsRows(policy: Policy, key: Key) {
    forall steps: seq<Step>, i: nat, j: nat ::
      InTime(steps) && i < j < |steps|
      && AssignSegments(policy, key, steps)[i].segment == AssignSegments(policy, key, steps)[j].segment ==>
        j - i < policy.maxRowsPerSegment
  }

  /** Rows of one segment are less apart in time than the span setting. */
  ghost predicate CapsSpan(policy: Policy, key: Key) {
    forall steps: seq<Step>, i: nat, j: nat ::
      InTime(steps) && i < j < |steps|
      && AssignSegments(policy, key, steps)[i].segment == AssignSegments(policy, key, steps)[j].segment ==>
        steps[j].ts - steps[i].ts < policy.maxSpanMs
  }

  lemma SameQuotient(a: int, b: int, d: int)
    requires d > 0 && 0 <= a <= b && a / d == b / d
    ensures b - a < d
  {
    assert a == d * (a / d) + a % d && b == d * (b / d) + b % d;
  }

  /** With one sample at zero and others at a later time, the later ones share a segment if their span segment wins. */
  function Burst(n: nat, ts: int): (steps: seq<Step>)
    ensures |steps| == n + 1 && (ts >= 0 ==> InTime(steps))
  {
    [Step(0, None)] + seq(n, i => Step(ts, None))
  }

  lemma BurstSegments(policy: Policy, n: nat, k: nat, i: nat)
    requires policy.maxSpanMs > 0 && 1 <= i <= n && n / MaxRows(policy) <= k
    ensures SegmentOf(policy, Burst(n, k * policy.maxSpanMs), i) == k
  {
    var steps := Burst(n, k * policy.maxSpanMs);
    NonNegativeProduct(k, policy.maxSpanMs);
    assert steps[0] in steps && steps[i] in steps;
    assert forall s :: s in steps ==> s.ts >= 0;
    EarliestIsListed(steps);
    assert Earliest(steps) == 0;
    MultipleDivided(k, policy.maxSpanMs);
    DivisionMonotone(i, n, MaxRows(policy));
  }

  lemma NonNegativeProduct(k: nat, d: int)
    requires d > 0
    ensures k * d >= 0
  {
  }

  lemma {:induction false} EarliestIsListed(steps: seq<Step>)
    requires steps != []
    ensures exists s :: s in steps && s.ts == Earliest(steps)
  {
    var n := |steps| - 1;
    if n == 0 {
      assert steps[0] in steps;
    } else {
      EarliestIsListed(steps[..n]);
      var s :| s in steps[..n] && s.ts == Earliest(steps[..n]);
      assert s in steps && steps[n] in steps;
    }
  }

  /** More rows than the setting allows fall into one segment when they come in a burst late enough. */
  lemma BurstBreaksRowCap(policy: Policy, key: Key)
    requires policy.maxSpanMs > 0
    ensures !CapsRows(policy, key)
  {
    var m := MaxRows(policy);
    var n := m + 1;
    var steps := Burst(n, n * policy.maxSpanMs);
    NonNegativeProduct(n, policy.maxSpanMs);
    DivisionBelow(n, m);
    BurstSegments(policy, n, n, 1);
    BurstSegments(policy, n, n, n);
    hide SegmentOf, Burst;
    var i: nat, j: nat := 1, n;
    assert InTime(steps) && i < j < |steps|;
    assert AssignSegments(policy, key, steps)[i].segment == AssignSegments(policy, key, steps)[j].segment;
    assert j - i >= policy.maxRowsPerSegment;
  }

  lemma DivisionBelow(n: nat, d: int)
    requires d >= 1
    ensures 0 <= n / d <= n
  {
    var q := n / d;
    assert n == d * q + n % d;
    NonNegativeProduct(q, d);
    Scaled(q, d);
  }

  lemma Scaled(q: nat, d: int)
    requires d >= 1
    ensures q <= d * q
  {
  }

  /** The row setting caps the rows of a segment if and only if no time span is set. */
  lemma CapsRowsIff(policy: Policy, key: Key)
    ensures CapsRows(policy, key) <==> policy.maxSpanMs <= 0
  {
    if policy.maxSpanMs <= 0 {
      forall steps: seq<Step>, i: nat, j: nat |
        InTime(steps) && i < j < |steps|
        && AssignSegments(policy, key, steps)[i].segment == AssignSegments(policy, key, steps)[j].segment
        ensures j - i < policy.maxRowsPerSegment
      {
        SameQuotient(i, j, MaxRows(policy));
      }
    } else {
      BurstBreaksRowCap(policy, key);
    }
  }

  /** As many samples at zero as fill a segment, and then two of one row segment, the second a span later. */
  function Late(m: nat, span: int): seq<Step> {
    seq(m + 1, i => Step(0, None)) + [Step(span, None)]
  }

  /** With room for two rows, one segment can hold rows a whole span apart. */
  lemma LateBreaksSpanCap(policy: Policy, key: Key)
    requires policy.maxSpanMs > 0 && policy.maxRowsPerSegment > 1
    ensures !CapsSpan(policy, key)
  {
    var m, span := policy.maxRowsPerSegment, policy.maxSpanMs;
    var steps := Late(m, span);
    assert steps[0] in steps && forall s :: s in steps ==> s.ts >= 0;
    EarliestIsListed(steps);
    assert Earliest(steps) == 0;
    QuotientOne(m, m);
    QuotientOne(m + 1, m);
    QuotientOne(span, span);
    assert SegmentOf(policy, steps, m) == 1 && SegmentOf(policy, steps, m + 1) == 1;
    hide SegmentOf;
    var i: nat, j: nat := m, m + 1;
    assert InTime(steps) && i < j < |steps|;
    assert AssignSegments(policy, key, steps)[i].segment == AssignSegments(policy, key, steps)[j].segment;
    assert steps[j].ts - steps[i].ts == span;
  }

  lemma QuotientOne(n: int, d: int)
    requires d > 0 && d <= n < 2 * d
    ensures n / d == 1
  {
  }

  lemma LoneRowsKeepSpan(policy: Policy, steps: seq<Step>, i: nat, j: nat)
    requires policy.maxSpanMs > 0 && policy.maxRowsPerSegment <= 1 && InTime(steps) && i < j < |steps|
    requires SegmentOf(policy, steps, i) == SegmentOf(policy, steps, j)
    ensures steps[j].ts - steps[i].ts < policy.maxSpanMs
  {
    var span, first := policy.maxSpanMs, Earliest(steps);
    assert steps[i] in steps && first <= steps[i].ts;
    assert MaxRows(policy) == 1 && i / 1 == i && j / 1 == j;
    hide Earliest;
    DivisionMonotone(steps[i].ts - first, steps[j].ts - first, span);
    SameQuotient(steps[i].ts - first, steps[j].ts - first, span);
  }

  /** A time span caps the duration of a segment if and only if every segment may hold one row only. */
  lemma CapsSpanIff(policy: Policy, key: Key)
    requires policy.maxSpanMs > 0
    ensures CapsSpan(policy, key) <==> policy.maxRowsPerSegment <= 1
  {
    if policy.maxRowsPerSegment <= 1 {
      forall steps: seq<Step>, i: nat, j: nat |
        InTime(steps) && i < j < |steps|
        && AssignSegments(policy, key, steps)[i].segment == AssignSegments(policy, key, steps)[j].segment
        ensures steps[j].ts - steps[i].ts < policy.maxSpanMs
      {
        LoneRowsKeepSpan(policy, steps, i, j);
      }
    } else {
      LateBreaksSpanCap(policy, key);
    }
  }

  predicate IsMultiple(x: int, d: int)
    requires d > 0
  {
    x % d == 0
  }

  /** A multiple of `d` lies beyond `a` and up to `b`. */
  ghost predicate CutBetween(a: int, b: int, d: int)
    requires d > 0
  {
    exists x :: a < x <= b && IsMultiple(x, d)
  }

  /**
   * Two rows fall into different segments only if a multiple of the row setting lies between their positions, or one
   * of the span between their times, counted from the first.
   */
  lemma CutsAreDue(policy: Policy, key: Key, steps: seq<Step>, i: nat, j: nat)
    requires i < j < |steps| && InTime(steps)
    requires AssignSegments(policy, key, steps)[i].segment != AssignSegments(policy, key, steps)[j].segment
    ensures || CutBetween(i, j, if policy.maxRowsPerSegment > 1 then policy.maxRowsPerSegment else 1)
            || (policy.maxSpanMs > 0
                && CutBetween(steps[i].ts - steps[0].ts, steps[j].ts - steps[0].ts, policy.maxSpanMs))
  {
    var m := MaxRows(policy);
    DifferentSegments(policy, key, steps, i, j);
    if i / m != j / m {
      QuotientsDiffer(i, j, m);
    } else {
      assert steps[i].ts >= steps[0].ts;
      QuotientsDiffer(steps[i].ts - steps[0].ts, steps[j].ts - steps[0].ts, policy.maxSpanMs);
    }
  }

  lemma DifferentSegments(policy: Policy, key: Key, steps: seq<Step>, i: nat, j: nat)
    requires i < j < |steps| && InTime(steps)
    requires AssignSegments(policy, key, steps)[i].segment != AssignSegments(policy, key, steps)[j].segment
    ensures var m, span := MaxRows(policy), policy.maxSpanMs;
            || i / m != j / m
            || (span > 0 && (steps[i].ts - steps[0].ts) / span != (steps[j].ts - steps[0].ts) / span)
  {
    assert SegmentOf(policy, steps, i) != SegmentOf(policy, steps, j);
    FirstIsEarliest(steps);
    hide Earliest;
  }

  lemma QuotientsDiffer(a: nat, b: nat, d: int)
    requires d > 0 && a <= b && a / d != b / d
    ensures CutBetween(a, b, d)
  {
    var x := BoundaryBetween(a, b, d);
  }

  lemma FirstIsEarliest(steps: seq<Step>)
    requires steps != [] && InTime(steps)
    ensures Earliest(steps) == steps[0].ts
  {
    EarliestIsListed(steps);
    assert steps[0] in steps;
  }

  lemma BoundaryBetween(a: nat, b: nat, d: int) returns (x: int)
    requires d > 0 && a <= b && a / d != b / d
    ensures a < x <= b && IsMultiple(x, d)
  {
    var p, q := a / d, b / d;
    assert a == d * p + a % d && b == d * q + b % d;
    DivisionMonotone(a, b, d);
    x := q * d;
    MultipleDivided(q, d);
    assert x == d * (x / d) + x % d;
    NextMultiple(p, q, d);
  }

  lemma NextMultiple(p: int, q: int, d: int)
    requires d > 0 && p < q
    ensures d * p + d <= q * d
  {
    assert d * (q - p - 1) >= 0;
  }
}
