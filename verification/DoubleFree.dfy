/** Compacting a segment named twice: a run in which its bytes go to two segments. */
module DoubleFrees {
  import opened Layout
  import opened Disks
  import opened Allocator
  import opened Store
  import opened StoreRuns
  import opened SchemaRuns
  import opened Retiring

  /** What the compaction frees, once for each time the segment is named. */
  const TWICE: FreeExtent := FreeExtent(Extent(20480, 3584), 3)

  /** No place for another segment of that size. */
  predicate NoRoom(f: FreeExtent) {
    f.extent.len < 3584 || f.freedTxn >= 4
  }

  /** The same free range at two places of the list, and no room elsewhere. */
  predicate ListedTwice(fs: seq<FreeExtent>, a: nat, b: nat) {
    && a < b < |fs| && fs[a] == fs[b] == TWICE
    && forall k :: 0 <= k < |fs| && k != a && k != b ==> NoRoom(fs[k])
  }

  predicate ListedOnce(fs: seq<FreeExtent>, a: nat) {
    a < |fs| && fs[a] == TWICE && forall k :: 0 <= k < |fs| && k != a ==> NoRoom(fs[k])
  }

  lemma Exact()
    ensures AlignUp(20480, SEGMENT_ALIGN) == 20480
    ensures Fits(TWICE, 3584, SEGMENT_ALIGN, 4) && Slack(TWICE, 3584, SEGMENT_ALIGN) == 0
    ensures forall f :: NoRoom(f) ==> !Fits(f, 3584, SEGMENT_ALIGN, 4)
  {
  }

  lemma TakesFirst(fs: seq<FreeExtent>, a: nat, b: nat)
    requires ListedTwice(fs, a, b)
    ensures BestFit(fs, a, 3584, SEGMENT_ALIGN, 4)
    ensures ListedOnce(Carve(fs, a, 3584, SEGMENT_ALIGN), b - 1)
  {
    Exact();
    var left := Carve(fs, a, 3584, SEGMENT_ALIGN);
    assert left == fs[..a] + fs[a + 1..];
    forall k | 0 <= k < |left| && k != b - 1
      ensures NoRoom(left[k])
    {
      assert left[k] == fs[if k < a then k else k + 1];
    }
  }

  lemma TakesSecond(fs: seq<FreeExtent>, a: nat)
    requires ListedOnce(fs, a)
    ensures BestFit(fs, a, 3584, SEGMENT_ALIGN, 4)
  {
    Exact();
  }

  /** Storing one segment in the range at place `a`. */
  lemma StoredAt(s: State, bytes: seq<Cell>, a: nat) returns (step: Step, t: State)
    requires s.phase.Building? && s.disk.Wf() && |bytes| == 3584 && s.phase.minActive == 4
    requires a < |s.phase.work.freeExtents| && s.phase.work.freeExtents[a] == TWICE
    requires BestFit(s.phase.work.freeExtents, a, 3584, SEGMENT_ALIGN, 4)
    ensures Takes(s, step, t) && t.phase.Building? && t.disk.Wf() && t.phase.minActive == 4
    ensures t == s.(disk := t.disk, phase := t.phase) && |t.disk.image| >= |s.disk.image|
    ensures |t.disk.image| > 20480 && t.disk.image[20480] == bytes[0]
    ensures t.phase.work.freeExtents == Carve(s.phase.work.freeExtents, a, 3584, SEGMENT_ALIGN)
    ensures t.phase.work.segments
         == s.phase.work.segments + [SegmentEntry(s.phase.work.nextSegmentId, Extent(20480, 3584), Extent(20480, 64), 1, 0, None)]
    ensures t.phase.work.txnId == s.phase.work.txnId && t.phase.work.nextSegmentId == s.phase.work.nextSegmentId + 1
  {
    Exact();
    var work, e := s.phase.work, Extent(20480, 3584);
    var m := work.(freeExtents := Carve(work.freeExtents, a, 3584, SEGMENT_ALIGN));
    step := AddSegment(bytes, Extent(20480, 64), 1, m, e);
    t := s.(disk := Stored(s.disk, e, bytes),
            phase := s.phase.(work := WithSegment(m, e, Extent(20480, 64), 1),
                              written := s.phase.written + [Write(20480, bytes)]));
    StoredShape(s.disk, e, bytes);
    assert e.Holds(20480);
  }

  /** The compaction of segment 0 writes its rows again ... */
  lemma Rewritten(s: State, other: Commit, segment: seq<Cell>) returns (states: seq<State>, steps: seq<Step>, t: State)
    requires s.phase.Idle? && s.disk.Wf() && |s.disk.image| == s.cur.manifest.fileLen == 24576
    requires s.cur.manifest.segments == [FIRST] && s.cur.manifest.nextSegmentId == 1 && |segment| == 3584
    requires s.cur.meta.txnId == 2 && s.pins == {other, s.cur} && other.meta.txnId == 1
    requires forall j :: 0 <= j < |s.cur.manifest.freeExtents| ==> s.cur.manifest.freeExtents[j].freedTxn == 2
    ensures Follows(states, steps) && |steps| == 2 && states[0] == s && states[2] == t
    ensures t == s.(disk := t.disk, phase := t.phase) && t.phase.Building? && t.disk.Wf() && |t.disk.image| >= 24576
    ensures var work := t.phase.work;
            && work.txnId == 3 && work.nextSegmentId == 2 && work.freeExtents == s.cur.manifest.freeExtents
            && |work.segments| == 2 && work.segments[0] == FIRST && work.segments[1].segmentId == 1
  {
    var work := s.cur.manifest.(txnId := 3, checkpointLsn := 0, nextSeqno := 0);
    assert MinActiveOf(s.pins, 1) by { assert other in s.pins; }
    var s1 := s.(phase := Building(work, 1, [], []));
    assert AlignUp(24576, SEGMENT_ALIGN) == 24576;
    var e, m := Extent(24576, 3584), work.(fileLen := 28160);
    var step := AddSegment(segment, Extent(24576, 64), 1, m, e);
    assert Allocated(work, 3584, SEGMENT_ALIGN, 1, m, e);
    t := s1.(disk := Stored(s.disk, e, segment),
             phase := s1.phase.(work := WithSegment(m, e, step.meta, 1), written := s1.phase.written + [Write(24576, segment)]));
    StoredShape(s.disk, e, segment);
    states, steps := [s, s1, t], [Step.Begin(1, 0, 0), step];
  }

  /** ... and, having been given its id twice, frees its bytes twice. */
  lemma NamedTwice(s: State) returns (t: State)
    requires s.phase.Building? && s.cur in s.pins && s.cur.manifest.segments == [FIRST] && s.phase.work.txnId == 3
    requires |s.phase.work.segments| == 2 && s.phase.work.segments[0] == FIRST && s.phase.work.segments[1].segmentId == 1
    ensures Takes(s, Retire(s.cur, [FIRST, FIRST]), t)
    ensures t == s.(phase := s.phase.(work := t.phase.work)) && TwoOwners(t, 20480)
    ensures t.phase.work == s.phase.work.(segments := [s.phase.work.segments[1]],
                                          freeExtents := s.phase.work.freeExtents + [TWICE, TWICE])
  {
    var sources := [FIRST, FIRST];
    t := s.(phase := s.phase.(work := Retired(s.phase.work, sources)));
    RetiredFirst(s.phase.work, sources);
    FreedTwice(s.phase.work.(segments := Unnamed(s.phase.work.segments, IdsOf(sources))));
    RetiredFree(s.phase.work, sources, 20480);
    SegmentOwnersAt(sources, 1, 20480);
    assert sources[..1] == [FIRST] && sources[..1][..0] == [];
    assert EntryOwners(FIRST, 20480) == 1;
  }

  lemma FreedTwice(m: Manifest)
    requires m.txnId == 3
    ensures FreeAll(m, [FIRST, FIRST]).freeExtents == m.freeExtents + [TWICE, TWICE]
  {
    var sources := [FIRST, FIRST];
    assert sources[..1] == [FIRST] && [FIRST][..0] == [];
    assert FreeAll(m, []) == m;
    assert FreeAll(m, [FIRST]).freeExtents == m.freeExtents + [TWICE];
    assert m.freeExtents + [TWICE] + [TWICE] == m.freeExtents + [TWICE, TWICE];
  }

  /** Readers of the two commits before let go. */
  lemma LetGo(s: State, a: Commit, b: Commit) returns (states: seq<State>, steps: seq<Step>, t: State)
    requires s.pins == {a, b, s.cur} && a != s.cur && b != s.cur
    ensures Follows(states, steps) && states[0] == s && states[|steps|] == t && t == s.(pins := {s.cur})
  {
    var s1 := s.(pins := s.pins - {a});
    t := s1.(pins := s1.pins - {b});
    states, steps := [s, s1, t], [Step.Drop(a), Step.Drop(b)];
  }

  /** A commit that drops the table's one segment, so that no reader is left behind commit 4. */
  lemma Dropped(s: State, a: nat, b: nat) returns (states: seq<State>, steps: seq<Step>, t: State)
    requires s.phase.Idle? && s.disk.Wf() && |s.disk.image| >= 24576 && s.pins == {s.cur} && s.cur.meta.txnId == 3
    requires |s.cur.manifest.segments| == 1 && s.cur.manifest.nextSegmentId == 2
    requires ListedTwice(s.cur.manifest.freeExtents, a, b)
    ensures Follows(states, steps) && states[0] == s && states[|steps|] == t
    ensures t.phase.Idle? && t.disk.Wf() && |t.disk.image| >= 24576 && t.pins == {t.cur} && t.cur.meta.txnId == 4
    ensures t.cur.manifest.segments == [] && t.cur.manifest.nextSegmentId == 2
    ensures ListedTwice(t.cur.manifest.freeExtents, a, b)
  {
    var work := s.cur.manifest.(txnId := 4, checkpointLsn := 0, nextSeqno := 0);
    var s1 := s.(phase := Building(work, 3, [], []));
    assert MinActiveOf(s.pins, 3);
    var s2 := s1.(phase := s1.phase.(work := WithoutSegment(work, 0)));
    FreedLater(work, WithoutSegment(work, 0), a, b);
    FreedLater(s2.phase.work, s2.phase.work.Free(s2.Loser()), a, b);
    var rest, done, u := Committed(s2, ROOM);
    var first, taken := [s, s1, s2], [Step.Begin(3, 0, 0), DropSegment(0)];
    Joined(first, taken, rest, done);
    t := u.(pins := u.pins - {s.cur});
    assert u.cur.meta.txnId == 4;
    assert u.pins - {s.cur} == {u.cur};
    Joined(first + rest[1..], taken + done, [u, t], [Step.Drop(s.cur)]);
    states, steps := first + rest[1..] + [u, t][1..], taken + done + [Step.Drop(s.cur)];
  }

  /** What a later commit frees leaves no room yet. */
  lemma FreedLater(m: Manifest, m2: Manifest, a: nat, b: nat)
    requires ListedTwice(m.freeExtents, a, b) && m.freeExtents <= m2.freeExtents
    requires forall k :: |m.freeExtents| <= k < |m2.freeExtents| ==> NoRoom(m2.freeExtents[k])
    ensures ListedTwice(m2.freeExtents, a, b)
  {
  }

  /** A flush begins once no reader is left behind commit 4 ... */
  lemma Begun(s: State) returns (step: Step, t: State)
    requires s.phase.Idle? && s.pins == {s.cur} && s.cur.meta.txnId == 4
    ensures Takes(s, step, t) && t == s.(phase := t.phase) && t.phase.Building? && t.phase.minActive == 4
    ensures t.phase.work == s.cur.manifest.(txnId := 5, checkpointLsn := 0, nextSeqno := 0)
  {
    assert MinActiveOf(s.pins, 4);
    step := Step.Begin(4, 0, 0);
    t := s.(phase := Building(s.cur.manifest.(txnId := 5, checkpointLsn := 0, nextSeqno := 0), 4, [], []));
  }

  /** ... and writes two segments: both are given the range. */
  lemma BothStored(s: State, x: seq<Cell>, y: seq<Cell>, a: nat, b: nat)
    returns (states: seq<State>, steps: seq<Step>, t: State)
    requires s.phase.Building? && s.disk.Wf() && |s.disk.image| >= 24576 && s.phase.minActive == 4 && s.phase.work.txnId == 5
    requires s.phase.work.segments == [] && |x| == |y| == 3584 && ListedTwice(s.phase.work.freeExtents, a, b)
    ensures Follows(states, steps) && states[0] == s && states[|steps|] == t
    ensures t.phase.Building? && t.disk.Wf() && |t.disk.image| >= 24576 && t.phase.work.txnId == 5
    ensures t.disk.image[20480] == y[0] && |t.phase.work.segments| == 2
    ensures t.phase.work.segments[0].segmentId != t.phase.work.segments[1].segmentId
    ensures t.phase.work.segments[0].data == t.phase.work.segments[1].data == Extent(20480, 3584)
  {
    TakesFirst(s.phase.work.freeExtents, a, b);
    var one, s1 := StoredAt(s, x, a);
    TakesSecond(s1.phase.work.freeExtents, b - 1);
    var two;
    two, t := StoredAt(s1, y, b - 1);
    states, steps := [s, s1, t], [one, two];
  }

  /**
   * One such input. A table is created and flushed once; its one segment is
   * compacted under `[0, 0]`, with nothing else running. The free list has the old
   * segment's range twice from then on. Two commits later, when no reader is left
   * that could need it, a flush of two segments is given it twice, and commits a
   * segment whose bytes are another's.
   */
  lemma CompactingTwiceLosesASegment(header: seq<Cell>, first: seq<Cell>, kept: seq<Cell>, again: seq<Cell>,
                                     x: seq<Cell>, y: seq<Cell>)
    returns (states: seq<State>, steps: seq<Step>, k: nat)
    requires |header| == HEADER_SIZE && 0 < |first| <= 4096 && |kept| == |again| == |x| == |y| == 3584 && x[0] != y[0]
    ensures Run(states, steps) && k < |steps| && TwoOwners(states[k + 1], 20480)
    ensures steps[k] == Retire(states[k].cur, [FIRST, FIRST]) && Find(states[k].cur.manifest.segments, 0) == Some(FIRST)
    ensures var t := states[|steps|];
            && t.phase.Idle? && t.cur.meta.txnId == 5 && |t.cur.manifest.segments| == 2
            && t.cur.manifest.segments[0].segmentId != t.cur.manifest.segments[1].segmentId
            && t.cur.manifest.segments[0].data == t.cur.manifest.segments[1].data == Extent(20480, 3584)
            && 20480 < |t.disk.durable| && t.disk.durable[20480] == y[0] != x[0]
  {
    CreatedSizes(header, first);
    var s0 := Created(header, first, SEED_ROOM, SEED_ROOM);
    var a, ka, s1 := FirstCommit(s0, kept);
    var b, kb, s2 := UntilRetired(s1, s0.cur, again);
    Joined(a, ka, b, kb);
    var c, kc, s4, i := UntilDropped(s2, s0.cur, s1);
    Joined(a + b[1..], ka + kb, c, kc);
    var begin, begun := Begun(s4);
    var stored, ks, s5 := BothStored(begun, x, y, i, i + 1);
    Joined([s4, begun], [begin], stored, ks);
    var d, kd := [s4, begun] + stored[1..], [begin] + ks;
    Joined(a + b[1..] + c[1..], ka + kb + kc, d, kd);
    var e, ke, s6 := Committed(s5, ROOM);
    Joined(a + b[1..] + c[1..] + d[1..], ka + kb + kc + kd, e, ke);
    states, steps := a + b[1..] + c[1..] + d[1..] + e[1..], ka + kb + kc + kd + ke;
    assert Fresh(s0);
    k := |ka| + 2;
    assert states[k] == b[2] && states[k + 1] == b[3] && steps[k] == kb[2];
  }

  lemma UntilRetired(s: State, other: Commit, again: seq<Cell>) returns (states: seq<State>, steps: seq<Step>, t: State)
    requires s.phase.Idle? && s.disk.Wf() && |s.disk.image| == s.cur.manifest.fileLen == 24576
    requires s.cur.manifest.segments == [FIRST] && s.cur.manifest.nextSegmentId == 1 && |again| == 3584
    requires s.cur.meta.txnId == 2 && s.pins == {other, s.cur} && other.meta.txnId == 1
    requires forall j :: 0 <= j < |s.cur.manifest.freeExtents| ==>
               s.cur.manifest.freeExtents[j].freedTxn == 2 && s.cur.manifest.freeExtents[j].extent.len < 3584
    ensures Follows(states, steps) && |steps| == 3 && states[0] == s && states[3] == t
    ensures states[2].cur == s.cur && steps[2] == Retire(s.cur, [FIRST, FIRST]) && TwoOwners(t, 20480)
    ensures t == s.(disk := t.disk, phase := t.phase) && t.phase.Building? && t.disk.Wf() && |t.disk.image| >= 24576
    ensures var work := t.phase.work;
            && work.txnId == 3 && work.nextSegmentId == 2 && |work.segments| == 1
            && work.freeExtents == s.cur.manifest.freeExtents + [TWICE, TWICE]
  {
    var a, ka, s2 := Rewritten(s, other, again);
    t := NamedTwice(s2);
    states, steps := a + [t], ka + [Retire(s.cur, [FIRST, FIRST])];
    assert Follows(states, steps) by {
      forall i | 0 <= i < |steps|
        ensures Takes(states[i], steps[i], states[i + 1])
      {
        assert i < 2 ==> states[i] == a[i] && states[i + 1] == a[i + 1] && steps[i] == ka[i];
      }
    }
  }

  /** The compaction commits, the readers leave, and the segment it wrote is dropped. */
  lemma UntilDropped(s: State, other: Commit, before: State)
    returns (states: seq<State>, steps: seq<Step>, t: State, i: nat)
    requires s.phase.Building? && s.disk.Wf() && |s.disk.image| >= 24576
    requires s.cur == before.cur && s.pins == {other, s.cur} && other.meta.txnId == 1 && s.cur.meta.txnId == 2
    requires s.Loser().len < 3584
    requires s.phase.work.txnId == 3 && s.phase.work.nextSegmentId == 2 && |s.phase.work.segments| == 1
    requires s.phase.work.freeExtents == before.cur.manifest.freeExtents + [TWICE, TWICE]
    requires forall j :: 0 <= j < |before.cur.manifest.freeExtents| ==> NoRoom(before.cur.manifest.freeExtents[j])
    ensures Follows(states, steps) && states[0] == s && states[|steps|] == t
    ensures t.phase.Idle? && t.disk.Wf() && |t.disk.image| >= 24576 && t.pins == {t.cur} && t.cur.meta.txnId == 4
    ensures t.cur.manifest.segments == [] && ListedTwice(t.cur.manifest.freeExtents, i, i + 1)
  {
    i := |before.cur.manifest.freeExtents|;
    FreedLater(s.phase.work, s.phase.work.Free(s.Loser()), i, i + 1);
    var a, ka, s1 := Committed(s, ROOM);
    var b, kb, s2 := LetGo(s1, other, s.cur);
    Joined(a, ka, b, kb);
    var c, kc;
    c, kc, t := Dropped(s2, i, i + 1);
    Joined(a + b[1..], ka + kb, c, kc);
    states, steps := a + b[1..] + c[1..], ka + kb + kc;
  }
}
