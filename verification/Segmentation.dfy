/**
 Segment-by-segment extraction of categorical events. Rows of all keys are processed one segment id at a
 time; a key's state is carried to the next visited segment id, and dropped when the key has no row there.
 */
module Segmentation {
  import opened Sums
  import opened CategoricalEvents

  type Key = (string, string, string)

  /** One prepared row with the segment it was assigned to. */
  datatype Row = Row(key: Key, segment: int, step: Step)

  const KeyOf: Row -> Key := (r: Row) => r.key

  // ---------- The segment loop ----------

  function InsertId(ids: seq<int>, id: int): (r: seq<int>)
    requires forall i, j :: 0 <= i < j < |ids| ==> ids[i] < ids[j]
    ensures forall i, j :: 0 <= i < j < |r| ==> r[i] < r[j]
    ensures forall x :: x in r <==> x in ids || x == id
  {
    if ids == [] || ids[|ids| - 1] < id then ids + [id]
    else if ids[|ids| - 1] == id then ids
    else
      var front, last := ids[..|ids| - 1], ids[|ids| - 1];
      var r := InsertId(front, id);
      assert ids == front + [last];
      assert forall x :: x in front ==> x < last;
      assert forall i :: 0 <= i < |r| ==> r[i] in r;
      r + [last]
  }

  /** The distinct segment ids of a table, ascending. */
  function SegmentIds(rows: seq<Row>): (ids: seq<int>)
    ensures forall i, j :: 0 <= i < j < |ids| ==> ids[i] < ids[j]
    ensures forall x :: x in ids <==> exists r :: r in rows && r.segment == x
  {
    if rows == [] then []
    else
      assert forall r :: r in rows <==> r in rows[..|rows| - 1] || r == rows[|rows| - 1];
      InsertId(SegmentIds(rows[..|rows| - 1]), rows[|rows| - 1].segment)
  }

  /** The samples with this segment id, in row order. */
  function Chunk(rows: seq<Row>, id: int): (steps: seq<Step>)
    ensures steps == [] <==> forall r :: r in rows ==> r.segment != id
  {
    if rows == [] then []
    else
      assert forall r :: r in rows <==> r in rows[..|rows| - 1] || r == rows[|rows| - 1];
      Chunk(rows[..|rows| - 1], id) + if rows[|rows| - 1].segment == id then [rows[|rows| - 1].step] else []
  }

  function StepsOf(rows: seq<Row>): (steps: seq<Step>)
    ensures |steps| == |rows|
  {
    seq(|rows|, i requires 0 <= i < |rows| => rows[i].step)
  }

  function StartFrom(carry: Option<State>): State {
    if carry.Some? then carry.value else INITIAL
  }

  datatype KeyProgress = KeyProgress(carry: Option<State>, events: seq<Event>)

  /** One key's progress through one segment id. */
  function AdvanceKey(cfg: Config, progress: KeyProgress, chunk: seq<Step>): KeyProgress {
    if chunk == [] then KeyProgress(None, progress.events)
    else
      var after := Run(cfg, StartFrom(progress.carry), chunk);
      KeyProgress(Some(Carry(after)), progress.events + after.emitted)
  }

  /** One key's progress through the visited segment ids. */
  function BuildKey(cfg: Config, rows: seq<Row>, ids: seq<int>): KeyProgress {
    if ids == [] then KeyProgress(None, [])
    else AdvanceKey(cfg, BuildKey(cfg, rows, ids[..|ids| - 1]), Chunk(rows, ids[|ids| - 1]))
  }

  type Frame = map<Key, seq<Event>>

  /** A key's events over all frames, in frame order. */
  function KeyStream(frames: seq<Frame>, key: Key): seq<Event> {
    if frames == [] then []
    else KeyStream(frames[..|frames| - 1], key) + if key in frames[|frames| - 1] then frames[|frames| - 1][key] else []
  }

  predicate HasRow(rows: seq<Row>, key: Key, id: int) {
    exists r :: r in rows && r.key == key && r.segment == id
  }

  lemma HasRowIffChunk(rows: seq<Row>, key: Key, id: int)
    ensures HasRow(rows, key, id) <==> Chunk(Group(rows, KeyOf, key), id) != []
  {
    forall r | r in rows && r.key == key
      ensures r in Group(rows, KeyOf, key)
    {
      InOwnGroup(rows, KeyOf, r);
    }
  }

  /** The loop's state for one key is that key's progress. */
  ghost predicate Tracks(
    cfg: Config, rows: seq<Row>, ids: seq<int>, carry: map<Key, State>, frames: seq<Frame>, key: Key) {
    var progress := BuildKey(cfg, Group(rows, KeyOf, key), ids);
    && progress.carry == (if key in carry then Some(carry[key]) else None)
    && KeyStream(frames, key) == progress.events
  }

  /** The states after one segment, for the keys that have rows in it. */
  function SegmentStates(cfg: Config, rows: seq<Row>, id: int, carry: map<Key, State>): map<Key, State> {
    map r | r in rows && r.segment == id :: r.key :=
      Run(cfg, if r.key in carry then carry[r.key] else INITIAL, Chunk(Group(rows, KeyOf, r.key), id))
  }

  function Carried(after: map<Key, State>): map<Key, State> {
    map k | k in after :: Carry(after[k])
  }

  function Emitted(after: map<Key, State>): Frame {
    map k | k in after :: after[k].emitted
  }

  lemma SegmentStep(
    cfg: Config, rows: seq<Row>, ids: seq<int>, id: int, carry: map<Key, State>, frames: seq<Frame>, key: Key)
    requires Tracks(cfg, rows, ids, carry, frames, key)
    ensures var after := SegmentStates(cfg, rows, id, carry);
            Tracks(cfg, rows, ids + [id], Carried(after), frames + [Emitted(after)], key)
  {
    hide Run, Chunk, Group;
    var after := SegmentStates(cfg, rows, id, carry);
    var frame := Emitted(after);
    HasRowIffChunk(rows, key, id);
    assert key in after <==> HasRow(rows, key, id);
    assert (ids + [id])[..|ids|] == ids;
    assert (frames + [frame])[..|frames|] == frames;
  }

  /** The segment loop. The carry is looked up by key and replaced as a whole by the keys seen in this segment. */
  method Build(cfg: Config, rows: seq<Row>) returns (frames: seq<Frame>)
    ensures forall key :: KeyStream(frames, key) == BuildKey(cfg, Group(rows, KeyOf, key), SegmentIds(rows)).events
  {
    var ids := SegmentIds(rows);
    var carry: map<Key, State> := map[];
    frames := [];
    for k := 0 to |ids|
      invariant forall key :: Tracks(cfg, rows, ids[..k], carry, frames, key)
    {
      hide Tracks, SegmentStates;
      var after := SegmentStates(cfg, rows, ids[k], carry);
      ghost var visited, visitedNow := ids[..k], ids[..k + 1];
      assert visitedNow == visited + [ids[k]];
      ghost var carryBefore, framesBefore := carry, frames;
      frames, carry := frames + [Emitted(after)], Carried(after);
      forall key
        ensures Tracks(cfg, rows, visitedNow, carry, frames, key)
      {
        SegmentStep(cfg, rows, visited, ids[k], carryBefore, framesBefore, key);
      }
    }
    assert ids[..|ids|] == ids;
    forall key
      ensures KeyStream(frames, key) == BuildKey(cfg, Group(rows, KeyOf, key), ids).events
    {
      assert Tracks(cfg, rows, ids, carry, frames, key);
    }
  }
}
