/** Rewriting schema changes: when the new segments stay off the new schema, and when they do not. */
module SchemaRuns {
  import opened Layout
  import opened Disks
  import opened Allocator
  import opened Store
  import opened StoreProof
  import opened StoreRuns

  // ---- One allocation -------------------------------------------------------------

  /** An allocation that fails the test shares a byte with the schema. */
  lemma Collides(m: Manifest, len: nat, align: nat, min: nat, m2: Manifest, e: Extent) returns (p: nat)
    requires align > 0 && Allocated(m, len, align, min, m2, e) && !Misses(m, len, align, min)
    ensures m.schema.Holds(p) && e.Holds(p) && e.len == len
    ensures m2 == m.(fileLen := e.End())
  {
    OverlapsIffShareAByte(e, m.schema);
    p :| e.Holds(p) && m.schema.Holds(p);
  }

  /** Byte `p` of the schema is the step's own byte after it, and has two owners. */
  ghost predicate Overwritten(s: State, step: Step, t: State, p: nat) {
    && s.phase.Building? && t.phase.Building?
    && (step.AddSegment? || step.SetDeletes?)
    && s.phase.work.schema.Holds(p) && t.phase.work.schema == s.phase.work.schema
    && Owners(t.phase.work, p) >= 2
    && step.e.Holds(p) && step.e.len == |step.bytes|
    && p < |t.disk.image| && t.disk.image[p] == step.bytes[p - step.e.offset]
  }

  lemma UnsafeSegment(s: State, step: Step, t: State) returns (p: nat)
    requires s.disk.Wf() && Takes(s, step, t) && step.AddSegment? && !StepSafe(s, step)
    ensures Overwritten(s, step, t, p)
  {
    p := Collides(s.phase.work, |step.bytes|, SEGMENT_ALIGN, s.phase.minActive, step.m, step.e);
    WithSegmentOwners(step.m, step.e, step.meta, step.rows, p);
    StoredShape(s.disk, step.e, step.bytes);
  }

  lemma UnsafeDeletes(s: State, step: Step, t: State) returns (p: nat)
    requires s.disk.Wf() && Takes(s, step, t) && step.SetDeletes? && !StepSafe(s, step)
    ensures Overwritten(s, step, t, p)
  {
    p := Collides(s.phase.work, |step.bytes|, BUFFER_ALIGN, s.phase.minActive, step.m, step.e);
    WithDeletesOwners(step.m, step.index, step.e, step.count, p);
    StoredShape(s.disk, step.e, step.bytes);
  }

  lemma OverwrittenBreaks(s: State, step: Step, t: State, p: nat)
    requires Overwritten(s, step, t, p)
    ensures !PhaseOk(t)
  {
    if LayoutAhead(t.phase.work, t.cur.meta.manifest, t.Loser()) {
      AheadAt(t.phase.work, t.cur.meta.manifest, t.Loser(), p);
    }
  }

  /**
   * The test is exact for allocations. A step that retires nothing keeps the
   * invariant iff it passes, and one that fails gives a byte of the schema a
   * second owner and overwrites it.
   */
  lemma AllocationKeepsIff(s: State, step: Step, t: State)
    requires Inv(s) && Takes(s, step, t) && !step.Retire?
    ensures Inv(t) <==> StepSafe(s, step)
    ensures StepSafe(s, step) <==> !exists p: nat :: Overwritten(s, step, t, p)
  {
    if StepSafe(s, step) {
      StepKeeps(s, step, t);
      forall p: nat
        ensures !Overwritten(s, step, t, p)
      {
        if Overwritten(s, step, t, p) {
          OverwrittenBreaks(s, step, t, p);
        }
      }
    } else {
      var p: nat;
      if step.AddSegment? {
        p := UnsafeSegment(s, step, t);
      } else {
        p := UnsafeDeletes(s, step, t);
      }
      OverwrittenBreaks(s, step, t, p);
    }
  }

  /** Allocations of a build that stored no schema, or whose schema the recorded end covers, always pass. */
  lemma CoveredIsSafe(s: State, step: Step)
    requires Inv(s) && (s.phase.Building? ==> s.phase.ahead == [] || s.phase.work.schema.End() <= s.phase.work.fileLen)
    requires !step.Retire?
    ensures StepSafe(s, step)
  {
    if s.phase.Building? && s.phase.ahead == [] && !s.phase.work.schema.IsEmpty() {
      assert s.phase.work.schema.Holds(s.phase.work.schema.End() - 1);
    }
  }

  /**
   * Flushes, dropped segments, added and renamed columns: none allocates behind a
   * schema of its own or retires what it read before, so a run of these needs no
   * condition.
   */
  lemma {:induction false} PlainRunsAreSafe(states: seq<State>, steps: seq<Step>, i: nat)
    requires Run(states, steps) && i < |states|
    requires forall k :: 0 <= k < i ==> !steps[k].Retire?
    requires forall k :: 0 <= k < i && (steps[k].AddSegment? || steps[k].SetDeletes?) ==>
               states[k].phase.Building? && states[k].phase.ahead == []
    ensures SafeUntil(states, steps, i)
  {
    if i > 0 {
      PlainRunsAreSafe(states, steps, i - 1);
      RunInv(states, steps, i - 1);
      if steps[i - 1].AddSegment? || steps[i - 1].SetDeletes? {
        CoveredIsSafe(states[i - 1], steps[i - 1]);
      }
    }
  }

  // ---- A whole rewrite --------------------------------------------------------------

  /** The segments a rewrite writes, one after another. */
  ghost predicate Writes(states: seq<State>, steps: seq<Step>) {
    Follows(states, steps) && forall k :: 0 <= k < |steps| ==> steps[k].AddSegment?
  }

  ghost predicate AllSafe(states: seq<State>, steps: seq<Step>)
    requires |states| == |steps| + 1
  {
    forall k :: 0 <= k < |steps| ==> StepSafe(states[k], steps[k])
  }

  function Sizes(steps: seq<Step>): seq<nat>
    requires forall k :: 0 <= k < |steps| ==> steps[k].AddSegment?
  {
    seq(|steps|, k requires 0 <= k < |steps| => |steps[k].bytes|)
  }

  /** The room before the first aligned place past the recorded end takes the schema. */
  predicate SchemaFits(m: Manifest) {
    AlignUp(m.fileLen, SEGMENT_ALIGN) - m.fileLen >= m.schema.len
  }

  /** Best fit over the free list, for one size after another, finds a place for each. */
  ghost predicate ListTakes(fs: seq<FreeExtent>, sizes: seq<nat>, minActive: nat)
    decreases |sizes|
  {
    sizes == [] ||
    exists i: nat :: BestFit(fs, i, sizes[0], SEGMENT_ALIGN, minActive)
      && ListTakes(Carve(fs, i, sizes[0], SEGMENT_ALIGN), sizes[1..], minActive)
  }

  lemma BestFitIsOne(fs: seq<FreeExtent>, i: nat, j: nat, len: nat, minActive: nat)
    requires BestFit(fs, i, len, SEGMENT_ALIGN, minActive) && BestFit(fs, j, len, SEGMENT_ALIGN, minActive)
    ensures i == j
  {
  }

  lemma AllSafeTail(states: seq<State>, steps: seq<Step>)
    requires |states| == |steps| + 1 && steps != []
    ensures AllSafe(states, steps) <==> StepSafe(states[0], steps[0]) && AllSafe(states[1..], steps[1..])
  {
    if StepSafe(states[0], steps[0]) && AllSafe(states[1..], steps[1..]) {
      forall k | 0 <= k < |steps|
        ensures StepSafe(states[k], steps[k])
      {
        assert k > 0 ==> states[k] == states[1..][k - 1] && steps[k] == steps[1..][k - 1];
      }
    }
    if AllSafe(states, steps) {
      forall k | 0 <= k < |steps[1..]|
        ensures StepSafe(states[1..][k], steps[1..][k])
      {
        assert states[1..][k] == states[k + 1] && steps[1..][k] == steps[k + 1];
      }
    }
  }

  lemma WritesTail(states: seq<State>, steps: seq<Step>)
    requires Writes(states, steps) && steps != []
    ensures Writes(states[1..], steps[1..]) && Sizes(steps)[1..] == Sizes(steps[1..])
    ensures Takes(states[0], steps[0], states[1]) && steps[0].AddSegment?
  {
    var later, rest := states[1..], steps[1..];
    forall k | 0 <= k < |rest|
      ensures Takes(later[k], rest[k], later[k + 1]) && rest[k].AddSegment?
    {
      assert later[k] == states[k + 1] && rest[k] == steps[k + 1] && later[k + 1] == states[k + 2];
    }
  }

  /** Once the recorded end is past the schema, it stays there. */
  lemma {:induction false} CoveredStays(states: seq<State>, steps: seq<Step>)
    requires Writes(states, steps) && states[0].phase.Building?
    requires states[0].phase.work.schema.End() <= states[0].phase.work.fileLen
    ensures AllSafe(states, steps)
    decreases |steps|
  {
    if steps != [] {
      WritesTail(states, steps);
      OneWrite(states[0], steps[0], states[1]);
      CoveredStays(states[1..], steps[1..]);
      AllSafeTail(states, steps);
    }
  }

  /** One segment: from the free list, which leaves the end, or behind the end, past everything. */
  lemma OneWrite(s: State, step: Step, t: State)
    requires s.phase.Building? && step.AddSegment? && Takes(s, step, t)
    ensures t.phase.Building? && t.phase.minActive == s.phase.minActive && t.phase.work.schema == s.phase.work.schema
    ensures s.phase.work.fileLen <= t.phase.work.fileLen
    ensures var m, fs := s.phase.work, s.phase.work.freeExtents;
            if exists j :: 0 <= j < |fs| && Fits(fs[j], |step.bytes|, SEGMENT_ALIGN, s.phase.minActive) then
              && t.phase.work.fileLen == m.fileLen
              && exists i: nat :: BestFit(fs, i, |step.bytes|, SEGMENT_ALIGN, s.phase.minActive)
                   && t.phase.work.freeExtents == Carve(fs, i, |step.bytes|, SEGMENT_ALIGN)
            else t.phase.work.fileLen == AlignUp(m.fileLen, SEGMENT_ALIGN) + |step.bytes|
  {
  }

  /**
   * A rewrite that stored its schema right behind the recorded end, as one does
   * after a commit, keeps its segments off it iff the schema fits before the next
   * segment boundary, or the free list, as it is before the first of them, takes
   * every one of these sizes.
   */
  lemma {:induction false} RewriteSafeIff(states: seq<State>, steps: seq<Step>)
    requires Writes(states, steps) && states[0].phase.Building?
    requires var w := states[0].phase.work; w.schema.offset == w.fileLen && w.schema.len > 0
    ensures var w := states[0].phase.work;
            AllSafe(states, steps) <==> SchemaFits(w) || ListTakes(w.freeExtents, Sizes(steps), states[0].phase.minActive)
    decreases |steps|
  {
    if steps != [] {
      var s, step, t := states[0], steps[0], states[1];
      var w := s.phase.work;
      WritesTail(states, steps);
      AllSafeTail(states, steps);
      OneWrite(s, step, t);
      if exists j :: 0 <= j < |w.freeExtents| && Fits(w.freeExtents[j], |step.bytes|, SEGMENT_ALIGN, s.phase.minActive) {
        RewriteSafeIff(states[1..], steps[1..]);
        assert Sizes(steps)[0] == |step.bytes|;
        TakenFirst(w.freeExtents, t.phase.work.freeExtents, Sizes(steps), s.phase.minActive);
      } else {
        FirstGrows(s, step, t);
        if SchemaFits(w) {
          CoveredStays(states[1..], steps[1..]);
        }
      }
    }
  }

  /** What the list takes of the rest, once it has taken the first. */
  lemma TakenFirst(fs: seq<FreeExtent>, fs2: seq<FreeExtent>, sizes: seq<nat>, minActive: nat)
    requires sizes != []
    requires exists i: nat :: BestFit(fs, i, sizes[0], SEGMENT_ALIGN, minActive) && fs2 == Carve(fs, i, sizes[0], SEGMENT_ALIGN)
    ensures ListTakes(fs, sizes, minActive) <==> ListTakes(fs2, sizes[1..], minActive)
  {
    var i: nat :| BestFit(fs, i, sizes[0], SEGMENT_ALIGN, minActive) && fs2 == Carve(fs, i, sizes[0], SEGMENT_ALIGN);
    forall j: nat | BestFit(fs, j, sizes[0], SEGMENT_ALIGN, minActive)
      ensures j == i
    {
      BestFitIsOne(fs, i, j, sizes[0], minActive);
    }
  }

  /** The first segment past the end lies on the schema or behind it. */
  lemma FirstGrows(s: State, step: Step, t: State)
    requires s.phase.Building? && step.AddSegment? && Takes(s, step, t)
    requires var w := s.phase.work; w.schema.offset == w.fileLen && w.schema.len > 0
    requires var fs := s.phase.work.freeExtents;
             !exists j :: 0 <= j < |fs| && Fits(fs[j], |step.bytes|, SEGMENT_ALIGN, s.phase.minActive)
    ensures StepSafe(s, step) <==> SchemaFits(s.phase.work)
    ensures SchemaFits(s.phase.work) ==> t.phase.work.schema.End() <= t.phase.work.fileLen
  {
  }

  /** A commit's manifest ends the file, so the next schema goes right behind the recorded end. */
  lemma CommitEndsFile(d: Disk, work: Manifest, loser: Extent, room: Room)
    ensures var (d2, m, e) := Append(d, work, loser, room); |d2.image| == m.fileLen == e.End()
  {
  }

  // ---- A run that overwrites its schema ------------------------------------------------

  lemma Joined(a: seq<State>, before: seq<Step>, b: seq<State>, after: seq<Step>)
    requires Follows(a, before) && Follows(b, after) && a[|a| - 1] == b[0]
    ensures Follows(a + b[1..], before + after)
    ensures (a + b[1..])[|before + after|] == b[|after|] && (a + b[1..])[0] == a[0]
  {
    var all, steps := a + b[1..], before + after;
    forall i | 0 <= i < |steps|
      ensures Takes(all[i], steps[i], all[i + 1])
    {
      if i < |before| {
        assert Takes(a[i], before[i], a[i + 1]);
      } else {
        var k := i - |before|;
        assert all[i] == b[k] && all[i + 1] == b[k + 1] && steps[i] == after[k];
        assert Takes(b[k], after[k], b[k + 1]);
      }
    }
  }

  /** The last four steps of a build, and what they leave. */
  lemma Committed(s: State, room: Room) returns (states: seq<State>, steps: seq<Step>, t: State)
    requires s.phase.Building? && s.disk.Wf() && DATA_START <= |s.disk.image|
    ensures Follows(states, steps) && states[0] == s && states[|steps|] == t
    ensures t.phase.Idle? && t.disk.Wf() && t.disk.durable == t.disk.image
    ensures t.fallback == Some(s.cur) && t.pins == s.pins + {t.cur} && t.cur.meta.txnId == s.phase.work.txnId
    ensures t.cur.manifest == s.phase.work.Free(s.Loser()).(fileLen := |t.disk.image|)
    ensures var start := AlignUp(if s.phase.work.fileLen > |s.disk.image| then s.phase.work.fileLen else |s.disk.image|,
                                 BUFFER_ALIGN);
            t.cur.meta.manifest == Extent(start, room.slot) && |t.disk.image| == start + room.slot
    ensures forall p: nat :: DATA_START <= p < |s.disk.image| ==> t.disk.image[p] == s.disk.image[p]
  {
    var (d, m, e) := Append(s.disk, s.phase.work, s.Loser(), room);
    AppendShape(s.disk, s.phase.work, s.Loser(), room);
    CommitEndsFile(s.disk, s.phase.work, s.Loser(), room);
    var c := Commit(NextMeta(s.cur.meta, m, e, |d.image|), m, d.image);
    var s1 := s.(disk := d, phase := Appended(c));
    var s2 := s1.(disk := d.Synced(), phase := Sealed(c));
    var flip := s2.disk.Put(s.slot.Other().Offset(), MetaPageCells(c.meta));
    PutWf(s2.disk, s.slot.Other().Offset(), MetaPageCells(c.meta));
    var s3 := s2.(disk := flip, phase := Flipping(c));
    t := State(flip.Synced(), s.slot.Other(), c, Some(s.cur), s.pins + {c}, Idle);
    states, steps := [s, s1, s2, s3, t], [AppendManifest(room), SyncManifest, WriteMeta, SyncMeta];
  }

  const SEED_ROOM: Room := RawRoom(384, 72)
  const ROOM: Room := RawRoom(512, 176)

  /** A table created with a schema of up to one page. */
  lemma CreatedSizes(header: seq<Cell>, first: seq<Cell>)
    requires |header| == HEADER_SIZE && 0 < |first| <= 4096
    ensures var s := Created(header, first, SEED_ROOM, SEED_ROOM);
            && s.disk.Wf() && |s.disk.image| == s.cur.manifest.fileLen == 17152
            && s.cur.manifest.segments == [] && s.cur.manifest.freeExtents == [] && s.cur.manifest.nextSegmentId == 0
            && s.cur.meta.txnId == s.cur.manifest.txnId == 1
            && s.cur.meta.manifest.len < 3584 && s.Loser().len < 3584
  {
    var (d, m0, e0, m1, e1) := SeededDisk(header, first, SEED_ROOM, SEED_ROOM);
    SeededShape(header, first, SEED_ROOM, SEED_ROOM);
    SeededEnds(header, first);
    var s := Created(header, first, SEED_ROOM, SEED_ROOM);
    SeededPages(d.Synced(), s.fallback.value.meta, s.cur.meta);
  }

  lemma SeededEnds(header: seq<Cell>, first: seq<Cell>)
    requires |header| == HEADER_SIZE && 0 < |first| <= 4096
    ensures var (d, m0, e0, m1, e1) := SeededDisk(header, first, SEED_ROOM, SEED_ROOM);
            |d.image| == e1.End() == 17152 && e0.len == e1.len == 384
  {
    var empty := Disk([], [], []);
    assert empty.Wf();
    var d0 := empty.Extended(DATA_START);
    ExtendedWf(empty, DATA_START);
    var d1 := d0.Extended(DATA_START + |first|);
    ExtendedWf(d0, DATA_START + |first|);
    PutWf(d1, DATA_START, first);
    PutWf(d1.Put(DATA_START, first), 0, header);
    var d2 := d1.Put(DATA_START, first).Put(0, header);
    assert AlignUp(|d2.image|, SEGMENT_ALIGN) == 16384;
    var seed := Manifest(0, 0, 0, 0, Extent(DATA_START, |first|), [], [], 16384);
    AppendAt(d2, seed, SEED_ROOM, 16384);
    var (d3, m0, e0) := Append(d2, seed, EMPTY, SEED_ROOM);
    AppendAt(d3, m0.(txnId := 1), SEED_ROOM, 16768);
  }

  lemma AppendAt(d: Disk, m: Manifest, room: Room, at: nat)
    requires |d.image| <= m.fileLen == at && at % BUFFER_ALIGN == 0
    ensures var (d2, m2, e) := Append(d, m, EMPTY, room);
            e == Extent(at, room.slot) && |d2.image| == m2.fileLen == at + room.slot
  {
    assert AlignUp(at, BUFFER_ALIGN) == at;
  }

  /** The segment of the first flush. */
  const FIRST: SegmentEntry := SegmentEntry(0, Extent(20480, 3584), Extent(20480, 64), 1, 0, None)

  /** Its first flush: one segment, and a manifest that ends on a segment boundary. */
  lemma FirstCommit(s: State, kept: seq<Cell>) returns (states: seq<State>, steps: seq<Step>, t: State)
    requires s.phase.Idle? && s.disk.Wf() && |s.disk.image| == s.cur.manifest.fileLen == 17152 && s.pins == {s.cur}
    requires s.cur.manifest.segments == [] && s.cur.manifest.freeExtents == [] && s.cur.meta.txnId == 1
    requires s.cur.manifest.nextSegmentId == 0 && s.Loser().len < 3584 && |kept| == 3584
    ensures Follows(states, steps) && states[0] == s && states[|steps|] == t
    ensures t.phase.Idle? && t.disk.Wf() && |t.disk.image| == t.cur.manifest.fileLen == 24576
    ensures t.cur.manifest.segments == [FIRST] && t.cur.manifest.nextSegmentId == 1
    ensures t.cur.meta.txnId == 2 && t.pins == {s.cur, t.cur} && t.fallback == Some(s.cur)
    ensures t.cur.meta.manifest.len == ROOM.slot
    ensures forall j :: 0 <= j < |t.cur.manifest.freeExtents| ==>
              t.cur.manifest.freeExtents[j].freedTxn == 2 && t.cur.manifest.freeExtents[j].extent.len < 3584
  {
    var work := s.cur.manifest.(txnId := 2, checkpointLsn := 0, nextSeqno := 0);
    var s1 := s.(phase := Building(work, 1, [], []));
    assert MinActiveOf(s.pins, 1);
    assert AlignUp(17152, SEGMENT_ALIGN) == 20480;
    var e := Extent(20480, 3584);
    var m := work.(fileLen := 24064);
    var step := AddSegment(kept, Extent(20480, 64), 1, m, e);
    var s2 := s1.(disk := Stored(s.disk, e, kept),
                  phase := Building(WithSegment(m, e, step.meta, 1), 1, [Write(20480, kept)], []));
    assert Allocated(work, |kept|, SEGMENT_ALIGN, 1, m, e);
    StoredShape(s.disk, e, kept);
    assert |s2.disk.image| == 24064;
    assert AlignUp(24064, BUFFER_ALIGN) == 24064;
    var rest, done;
    rest, done, t := Committed(s2, ROOM);
    states, steps := [s, s1, s2] + rest[1..], [Step.Begin(1, 0, 0), step] + done;
    Joined([s, s1, s2], [Step.Begin(1, 0, 0), step], rest, done);
  }

  /** The change after it begins by storing its schema, right behind that boundary. */
  lemma SchemaBegun(s: State, other: Commit, blob: seq<Cell>) returns (states: seq<State>, steps: seq<Step>, t: State)
    requires s.phase.Idle? && s.disk.Wf() && |s.disk.image| == s.cur.manifest.fileLen == 24576
    requires s.cur.meta.txnId == 2 && s.pins == {other, s.cur} && other.meta.txnId == 1 && blob != []
    ensures Follows(states, steps) && |steps| == 2 && steps[1] == WriteSchema(blob)
    ensures states[0] == s && states[|steps|] == t
    ensures t == s.(disk := t.disk, phase := t.phase) && t.disk.Wf()
    ensures var work := s.cur.manifest.(txnId := 3, checkpointLsn := 0, nextSeqno := 0, schema := Extent(24576, |blob|));
            t.phase == Building(work, 1, [], blob)
  {
    var work := s.cur.manifest.(txnId := 3, checkpointLsn := 0, nextSeqno := 0);
    assert MinActiveOf(s.pins, 1) by { assert other in s.pins; }
    var s1 := s.(phase := Building(work, 1, [], []));
    t := s1.(disk := SchemaStored(s.disk, blob), phase := Building(work.(schema := Extent(24576, |blob|)), 1, [], blob));
    SchemaStoredShape(s.disk, blob);
    states, steps := [s, s1, t], [Step.Begin(1, 0, 0), WriteSchema(blob)];
  }

  /** It writes the segment again, which lands on the schema, and retires the old one. */
  lemma SegmentOverIt(s: State, segment: seq<Cell>) returns (states: seq<State>, steps: seq<Step>, t: State)
    requires s.phase.Building? && s.disk.Wf() && s.phase.minActive == 1 && s.phase.work.fileLen == 24576
    requires s.cur in s.pins && s.cur.manifest.segments == s.phase.work.segments == [FIRST] && segment != []
    requires s.phase.work.nextSegmentId == 1
    requires forall j :: 0 <= j < |s.phase.work.freeExtents| ==> s.phase.work.freeExtents[j].freedTxn == 2
    ensures Follows(states, steps) && states[0] == s && states[|steps|] == t
    ensures t.phase.Building? && t.disk.Wf() && |t.disk.image| > 24576 && t.disk.image[24576] == segment[0]
    ensures t.phase.work.txnId == s.phase.work.txnId && t.phase.work.schema == s.phase.work.schema
    ensures |t.phase.work.segments| == 1 && t.phase.work.segments[0].data == Extent(24576, |segment|)
  {
    assert AlignUp(24576, SEGMENT_ALIGN) == 24576;
    var e := Extent(24576, |segment|);
    var m := s.phase.work.(fileLen := 24576 + |segment|);
    var step := AddSegment(segment, Extent(24576, 1), 1, m, e);
    assert Allocated(s.phase.work, |segment|, SEGMENT_ALIGN, 1, m, e);
    var grown := WithSegment(m, e, step.meta, 1);
    var s1 := s.(disk := Stored(s.disk, e, segment),
                 phase := s.phase.(work := grown, written := s.phase.written + [Write(24576, segment)]));
    StoredShape(s.disk, e, segment);
    assert e.Holds(24576);
    t := s1.(phase := s1.phase.(work := Retired(grown, [FIRST])));
    RetiredFirst(grown, [FIRST]);
    states, steps := [s, s1, t], [step, Retire(s.cur, [FIRST])];
  }

  /** Retiring the first segment, however often it is named, leaves the other. */
  lemma RetiredFirst(m: Manifest, sources: seq<SegmentEntry>)
    requires |m.segments| == 2 && m.segments[0] == FIRST && m.segments[1].segmentId == 1
    requires sources != [] && forall i :: 0 <= i < |sources| ==> sources[i] == FIRST
    ensures Retired(m, sources) == m.(segments := [m.segments[1]], freeExtents := Retired(m, sources).freeExtents)
  {
    assert IdsOf(sources) == {0} by {
      assert sources[0] in sources;
    }
    assert m.segments == [FIRST, m.segments[1]];
    assert m.segments[..1] == [FIRST] && m.segments[..1][..0] == [];
    assert Unnamed(m.segments[..1], {0}) == [];
    assert Unnamed(m.segments, {0}) == [m.segments[1]];
    FreeAllOwners(m.(segments := Unnamed(m.segments, IdsOf(sources))), sources, 0);
  }

  /**
   * One such input. A table is created, flushed once into one segment, and then
   * drops or retypes a column. Its last commit ends on a segment boundary, so
   * the rewritten segment lands on the schema just stored, and the commit makes
   * both durable: the schema in force starts with the segment's byte.
   */
  lemma RewriteOverwritesSchema(header: seq<Cell>, first: seq<Cell>, kept: seq<Cell>, blob: seq<Cell>, segment: seq<Cell>)
    returns (states: seq<State>, steps: seq<Step>)
    requires |header| == HEADER_SIZE && 0 < |first| <= 4096 && |kept| == 3584
    requires blob != [] && segment != [] && blob[0] != segment[0]
    ensures Run(states, steps) && WriteSchema(blob) in steps
    ensures var t := states[|steps|];
            && t.phase.Idle? && t.cur.meta.txnId == 3
            && t.cur.manifest.schema == Extent(24576, |blob|)
            && |t.cur.manifest.segments| == 1 && t.cur.manifest.segments[0].data == Extent(24576, |segment|)
            && 24576 < |t.disk.durable| && t.disk.durable[24576] == segment[0] != blob[0]
    ensures !SafeUntil(states, steps, |steps|)
  {
    CreatedSizes(header, first);
    var s := Created(header, first, SEED_ROOM, SEED_ROOM);
    var a, before, mid := FirstCommit(s, kept);
    var b, after, begun := SchemaBegun(mid, s.cur, blob);
    Joined(a, before, b, after);
    var c, more, built := SegmentOverIt(begun, segment);
    Joined(a + b[1..], before + after, c, more);
    var d, last, t := Committed(built, ROOM);
    Joined(a + b[1..] + c[1..], before + after + more, d, last);
    states, steps := a + b[1..] + c[1..] + d[1..], before + after + more + last;
    assert steps[|before| + 1] == WriteSchema(blob);
    assert Fresh(s);
    if SafeUntil(states, steps, |steps|) {
      RunInv(states, steps, |steps|);
      SharedByte(states[|steps|], 24576);
    }
  }

  lemma SharedByte(s: State, p: nat)
    requires |s.cur.manifest.segments| == 1 && s.cur.manifest.segments[0].data.Holds(p) && s.cur.manifest.schema.Holds(p)
    ensures !Inv(s)
  {
    var m := s.cur.manifest;
    SegmentOwnersAt(m.segments, 0, p);
    if LayoutOk(m, s.cur.meta.manifest, s.Loser()) {
      LayoutAt(m, s.cur.meta.manifest, s.Loser(), p);
    }
  }
}
