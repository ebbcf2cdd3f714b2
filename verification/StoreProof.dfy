/**
 * Every step of the commit protocol keeps its invariant. Each lemma here is about
 * one step or one part of it; what follows for whole runs is in StoreRuns.
 */
module StoreProof {
  import opened Layout
  import opened Disks
  import opened Allocator
  import opened Store

  // ---- Building ----------------------------------------------------------------

  /** A layout with one more range, handed out but not yet attached. */
  ghost predicate LayoutPlus(m: Manifest, e: Extent, current: Extent, loser: Extent) {
    forall p: nat ::
      Owners(m, p) + Own(e, p) + Own(current, p) + Own(loser, p) <= (if InFile(m, p) then 1 else 0)
  }

  lemma AheadAt(m: Manifest, current: Extent, loser: Extent, p: nat)
    requires LayoutAhead(m, current, loser)
    ensures Owners(m, p) + Own(current, p) + Own(loser, p) <= (if InFile(m, p) then 1 else 0)
  {
  }

  lemma AllocatedLayout(m: Manifest, len: nat, align: nat, min: nat, m2: Manifest, e: Extent,
                        current: Extent, loser: Extent)
    requires align > 0 && Allocated(m, len, align, min, m2, e) && Misses(m, len, align, min)
    requires LayoutAhead(m, current, loser) && DATA_START <= m.fileLen
    ensures LayoutPlus(m2, e, current, loser)
    ensures e.len > 0 ==> e.End() <= m2.fileLen
    ensures m.fileLen <= m2.fileLen <= (if e.End() > m.fileLen then e.End() else m.fileLen)
    ensures m2 == m.(freeExtents := m2.freeExtents, fileLen := m2.fileLen)
  {
    forall q: nat | FreeOwners(m.freeExtents, q) >= 1
      ensures q < m.fileLen
    {
      AheadAt(m, current, loser, q);
    }
    forall p: nat
      ensures Owners(m2, p) + Own(e, p) + Own(current, p) + Own(loser, p) <= (if InFile(m2, p) then 1 else 0)
    {
      AheadAt(m, current, loser, p);
      AllocatedOwners(m, len, align, min, m2, e, p);
      if e.Holds(p) && m.schema.Holds(p) {
        AllocatedMissesSchema(m, len, align, min, m2, e, current, loser, p);
      }
    }
    if len > 0 {
      var reused, i := AllocatedCases(m, len, align, min, m2, e);
      AllocatedOwners(m, len, align, min, m2, e, e.End() - 1);
    }
  }

  lemma AllocatedMissesSchema(m: Manifest, len: nat, align: nat, min: nat, m2: Manifest, e: Extent,
                              current: Extent, loser: Extent, p: nat)
    requires align > 0 && Allocated(m, len, align, min, m2, e) && Misses(m, len, align, min)
    requires LayoutAhead(m, current, loser) && m.schema.Holds(p)
    ensures !e.Holds(p)
  {
    AheadAt(m, current, loser, p);
    FreeOwnsSome(m.freeExtents, p);
    if e.Holds(p) && exists j :: 0 <= j < |m.freeExtents| && Fits(m.freeExtents[j], len, align, min) {
      var reused, i := AllocatedCases(m, len, align, min, m2, e);
    }
  }

  lemma AllocatedClear(m: Manifest, len: nat, align: nat, min: nat, m2: Manifest, e: Extent, c: Commit)
    requires align > 0 && Allocated(m, len, align, min, m2, e)
    requires Clear(c, m) && min <= c.meta.txnId + 1
    ensures Clear(c, m2) && Missed(c, e.offset, e.len)
  {
    forall p: nat | c.Protects(p)
      ensures DATA_START <= p && Avoids(m2, p, c.meta.txnId) && !e.Holds(p)
    {
      AllocatedAvoids(m, len, align, min, m2, e, p, c.meta.txnId);
    }
  }

  lemma WithSegmentOwners(m: Manifest, e: Extent, meta: Extent, rows: nat, p: nat)
    ensures Owners(WithSegment(m, e, meta, rows), p) == Owners(m, p) + Own(e, p)
  {
    var ss := WithSegment(m, e, meta, rows).segments;
    assert ss[..|ss| - 1] == m.segments;
  }

  lemma SegmentUpdateOwners(ss: seq<SegmentEntry>, i: nat, x: SegmentEntry, p: nat)
    requires i < |ss|
    ensures SegmentOwners(ss[i := x], p) + EntryOwners(ss[i], p) == SegmentOwners(ss, p) + EntryOwners(x, p)
  {
    SegmentOwnersAt(ss, i, p);
    SegmentOwnersAt(ss[i := x], i, p);
    assert ss[i := x][..i] == ss[..i];
    assert ss[i := x][i + 1..] == ss[i + 1..];
  }

  lemma WithDeletesOwners(m: Manifest, i: nat, e: Extent, count: nat, p: nat)
    requires i < |m.segments|
    ensures Owners(WithDeletes(m, i, e, count), p) == Owners(m, p) + Own(e, p)
  {
    var s := m.segments[i];
    SegmentUpdateOwners(m.segments, i, s.(deletes := Some(e), deletedCount := count), p);
    if s.deletes.Some? {
      FreeOwnersOf(m, s.deletes.value, p);
      assert m.Free(s.deletes.value).segments == m.segments;
    }
  }

  lemma WithoutSegmentOwners(m: Manifest, i: nat, p: nat)
    requires i < |m.segments|
    ensures Owners(WithoutSegment(m, i), p) == Owners(m, p)
  {
    var s := m.segments[i];
    var cut := m.(segments := m.segments[..i] + m.segments[i + 1..]);
    SegmentOwnersAt(m.segments, i, p);
    SegmentOwnersConcat(m.segments[..i], m.segments[i + 1..], p);
    FreeOwnersOf(cut, s.data, p);
    if s.deletes.Some? {
      FreeOwnersOf(cut.Free(s.data), s.deletes.value, p);
    }
  }

  /** Edits of this build free ranges only as of the commit being built. */
  ghost predicate FreesLater(m: Manifest, m2: Manifest) {
    && m.fileLen <= m2.fileLen
    && m.txnId == m2.txnId
    && m.freeExtents <= m2.freeExtents
    && forall i :: |m.freeExtents| <= i < |m2.freeExtents| ==> m2.freeExtents[i].freedTxn == m.txnId
  }

  lemma FreesLaterAvoids(m: Manifest, m2: Manifest, p: nat, txn: int)
    requires FreesLater(m, m2) && Avoids(m, p, txn) && txn < m.txnId
    ensures Avoids(m2, p, txn)
  {
    forall i | 0 <= i < |m2.freeExtents| && m2.freeExtents[i].freedTxn <= txn
      ensures !m2.freeExtents[i].extent.Holds(p)
    {
      assert i < |m.freeExtents| && m2.freeExtents[i] == m.freeExtents[i];
    }
  }

  lemma FreesLaterClear(m: Manifest, m2: Manifest, c: Commit)
    requires FreesLater(m, m2) && Clear(c, m) && c.meta.txnId < m.txnId
    ensures Clear(c, m2)
  {
    forall p: nat | c.Protects(p)
      ensures DATA_START <= p && Avoids(m2, p, c.meta.txnId)
    {
      FreesLaterAvoids(m, m2, p, c.meta.txnId);
    }
  }

  /** A manifest that owns what another owns, up to the same end, has its layout. */
  lemma SameLayout(m: Manifest, m2: Manifest, current: Extent, loser: Extent)
    requires LayoutOk(m, current, loser)
    requires m2 == m.(txnId := m2.txnId, checkpointLsn := m2.checkpointLsn, nextSeqno := m2.nextSeqno)
    ensures LayoutAhead(m2, current, loser) && SchemaInside(m2)
  {
    forall p: nat
      ensures Owners(m2, p) + Own(current, p) + Own(loser, p) <= (if DATA_START <= p < m2.fileLen then 1 else 0)
    {
      LayoutAt(m, current, loser, p);
      assert Owners(m2, p) == Owners(m, p);
    }
    AheadInsideIsOk(m2, current, loser);
  }

  lemma SameClear(c: Commit, m: Manifest, m2: Manifest)
    requires Clear(c, m) && m2.freeExtents == m.freeExtents && m2.fileLen == m.fileLen
    ensures Clear(c, m2)
  {
    forall p: nat | c.Protects(p)
      ensures DATA_START <= p && Avoids(m2, p, c.meta.txnId)
    {
      assert Avoids(m, p, c.meta.txnId);
    }
  }

  lemma BeginKeeps(s: State, step: Step, t: State)
    requires Inv(s) && step.Begin? && Takes(s, step, t)
    ensures Inv(t)
  {
    var work := t.phase.work;
    SameLayout(s.cur.manifest, work, s.cur.meta.manifest, s.Loser());
    forall c | Clear(c, s.cur.manifest)
      ensures Clear(c, work)
    {
      SameClear(c, s.cur.manifest, work);
    }
  }

  /** Writing freshly allocated bytes keeps everything but the phase. */
  lemma StoreKeepsFrame(s: State, t: State, align: nat, m: Manifest, e: Extent, bytes: seq<Cell>)
    requires Inv(s) && s.phase.Building? && align > 0 && Misses(s.phase.work, |bytes|, align, s.phase.minActive)
    requires Allocated(s.phase.work, |bytes|, align, s.phase.minActive, m, e) && e.len == |bytes|
    requires t == s.(disk := Stored(s.disk, e, bytes), phase := t.phase) && t.phase.Building?
    requires BuildOk(t, t.phase.work, t.phase.minActive, t.phase.written, t.phase.ahead)
    ensures Inv(t)
  {
    var work, min := s.phase.work, s.phase.minActive;
    StoredShape(s.disk, e, bytes);
    AllocatedClears(s, align, m, e, |bytes|);
    forall c | Missed(c, e.offset, e.len) && Holds(s.disk.image, c)
      ensures Holds(t.disk.image, c) && (Guarded(s.disk, c) ==> Guarded(t.disk, c))
    {
      StoredKeeps(s.disk, e, bytes, c);
    }
    WorkPastStart(s, work);
    AllocatedLayout(work, |bytes|, align, min, m, e, s.cur.meta.manifest, s.Loser());
    forall p: nat | e.Holds(p)
      ensures p >= DATA_START
    {
      assert Owners(m, p) + Own(e, p) + Own(s.cur.meta.manifest, p) + Own(s.Loser(), p) <= (if InFile(m, p) then 1 else 0);
    }
    PageKept(s.disk, t.disk, s.slot);
    PageKept(s.disk, t.disk, s.slot.Other());
  }

  lemma WorkPastStart(s: State, work: Manifest)
    requires Inv(s) && Clear(s.cur, work)
    ensures DATA_START <= work.fileLen
  {
    var p := s.cur.meta.manifest.offset;
    assert s.cur.Protects(p);
    LayoutClears(s.cur, s.Loser());
    assert Avoids(work, p, s.cur.meta.txnId);
  }

  /** An allocation endangers no reader and neither of the two commits on the medium. */
  lemma AllocatedClears(s: State, align: nat, m: Manifest, e: Extent, len: nat)
    requires CurrentOk(s) && FallbackOk(s) && PinsOk(s) && s.phase.Building? && align > 0
    requires BuildOk(s, s.phase.work, s.phase.minActive, s.phase.written, s.phase.ahead)
    requires Allocated(s.phase.work, len, align, s.phase.minActive, m, e)
    ensures forall c :: c in s.pins ==> Clear(c, m) && Missed(c, e.offset, e.len)
    ensures s.fallback.Some? ==> Clear(s.fallback.value, m) && Missed(s.fallback.value, e.offset, e.len)
  {
    var work, min := s.phase.work, s.phase.minActive;
    forall c | c in s.pins
      ensures Clear(c, m) && Missed(c, e.offset, e.len)
    {
      AllocatedClear(work, len, align, min, m, e, c);
    }
    if s.fallback.Some? {
      assert min <= s.cur.meta.txnId;
      AllocatedClear(work, len, align, min, m, e, s.fallback.value);
    }
  }

  /** After an allocation and its write, everything about the build holds but the new range's owner. */
  lemma AllocatedBuild(s: State, align: nat, m: Manifest, e: Extent, bytes: seq<Cell>)
    requires Inv(s) && s.phase.Building? && align > 0 && Misses(s.phase.work, |bytes|, align, s.phase.minActive)
    requires Allocated(s.phase.work, |bytes|, align, s.phase.minActive, m, e) && e.len == |bytes|
    ensures LayoutPlus(m, e, s.cur.meta.manifest, s.Loser())
    ensures m.fileLen <= |Stored(s.disk, e, bytes).image|
    ensures m.txnId == s.cur.meta.txnId + 1
    ensures WrittenOk(Stored(s.disk, e, bytes), s.phase.written + [Write(e.offset, bytes)], m, s.cur.meta.txnId)
  {
    assert s.cur in s.pins;
    WorkPastStart(s, s.phase.work);
    AllocatedLayout(s.phase.work, |bytes|, align, s.phase.minActive, m, e, s.cur.meta.manifest, s.Loser());
    AllocatedWritten(s, align, m, e, bytes);
    StoredShape(s.disk, e, bytes);
  }

  /** Bytes stored off the schema leave it alone. */
  lemma StoredAhead(d: Disk, work: Manifest, m: Manifest, e: Extent, bytes: seq<Cell>, ahead: seq<Cell>)
    requires d.Wf() && e.len == |bytes|
    requires m.schema == work.schema && work.fileLen <= m.fileLen
    requires forall p: nat :: work.schema.Holds(p) ==> !e.Holds(p)
    requires AheadOk(d, work, ahead)
    ensures AheadOk(Stored(d, e, bytes), m, ahead)
  {
    if ahead == [] {
      forall p: nat | m.schema.Holds(p)
        ensures p < m.fileLen
      {
        assert work.schema.Holds(p);
      }
    } else {
      StoredShape(d, e, bytes);
    }
  }

  /** An allocation that misses the stored schema leaves it as it was stored. */
  lemma AllocatedAhead(s: State, align: nat, m: Manifest, e: Extent, bytes: seq<Cell>)
    requires s.disk.Wf() && s.phase.Building? && align > 0
    requires Misses(s.phase.work, |bytes|, align, s.phase.minActive)
    requires Allocated(s.phase.work, |bytes|, align, s.phase.minActive, m, e) && e.len == |bytes|
    requires LayoutAhead(s.phase.work, s.cur.meta.manifest, s.Loser()) && DATA_START <= s.phase.work.fileLen
    requires AheadOk(s.disk, s.phase.work, s.phase.ahead)
    ensures AheadOk(Stored(s.disk, e, bytes), m, s.phase.ahead)
  {
    var work, min := s.phase.work, s.phase.minActive;
    AllocatedLayout(work, |bytes|, align, min, m, e, s.cur.meta.manifest, s.Loser());
    forall p: nat | work.schema.Holds(p)
      ensures !e.Holds(p)
    {
      AllocatedMissesSchema(work, |bytes|, align, min, m, e, s.cur.meta.manifest, s.Loser(), p);
    }
    StoredAhead(s.disk, work, m, e, bytes, s.phase.ahead);
  }

  lemma AllocatedWritten(s: State, align: nat, m: Manifest, e: Extent, bytes: seq<Cell>)
    requires s.disk.Wf() && s.phase.Building? && align > 0
    requires Allocated(s.phase.work, |bytes|, align, s.phase.minActive, m, e) && e.len == |bytes|
    requires s.phase.minActive <= s.cur.meta.txnId + 1
    requires WrittenOk(s.disk, s.phase.written, s.phase.work, s.cur.meta.txnId)
    requires LayoutPlus(m, e, s.cur.meta.manifest, s.Loser())
    ensures WrittenOk(Stored(s.disk, e, bytes), s.phase.written + [Write(e.offset, bytes)], m, s.cur.meta.txnId)
  {
    var txn := s.cur.meta.txnId;
    forall w, p: nat | w in s.phase.written + [Write(e.offset, bytes)] && w.Covers(p)
      ensures StillWritten(Stored(s.disk, e, bytes), w, p) && Avoids(m, p, txn)
    {
      if w in s.phase.written {
        AllocatedAvoids(s.phase.work, |bytes|, align, s.phase.minActive, m, e, p, txn);
        OldWriteStays(s.disk, e, bytes, w, p);
      } else {
        NewWriteStays(s.disk, e, bytes, p);
        NewRangeAvoids(m, e, s.cur.meta.manifest, s.Loser(), p, txn);
      }
    }
  }

  ghost predicate StillWritten(d: Disk, w: Write, p: nat) {
    w.Covers(p) && p < |d.image| && d.image[p] == w.cells[p - w.at]
  }

  lemma OldWriteStays(d: Disk, e: Extent, bytes: seq<Cell>, w: Write, p: nat)
    requires d.Wf() && |bytes| == e.len && StillWritten(d, w, p) && !e.Holds(p)
    ensures StillWritten(Stored(d, e, bytes), w, p)
  {
    StoredShape(d, e, bytes);
  }

  lemma NewWriteStays(d: Disk, e: Extent, bytes: seq<Cell>, p: nat)
    requires d.Wf() && |bytes| == e.len && Write(e.offset, bytes).Covers(p)
    ensures e.Holds(p) && StillWritten(Stored(d, e, bytes), Write(e.offset, bytes), p)
  {
    StoredShape(d, e, bytes);
    assert e.Holds(p);
  }

  lemma NewRangeAvoids(m: Manifest, e: Extent, current: Extent, loser: Extent, p: nat, txn: int)
    requires LayoutPlus(m, e, current, loser) && e.Holds(p)
    ensures Avoids(m, p, txn)
  {
    assert Owners(m, p) + Own(e, p) + Own(current, p) + Own(loser, p) <= (if InFile(m, p) then 1 else 0);
    FreeOwnsSome(m.freeExtents, p);
  }

  lemma WithSegmentLayout(m: Manifest, e: Extent, meta: Extent, rows: nat, current: Extent, loser: Extent)
    requires LayoutPlus(m, e, current, loser)
    ensures LayoutAhead(WithSegment(m, e, meta, rows), current, loser)
  {
    var m2 := WithSegment(m, e, meta, rows);
    forall p: nat
      ensures Owners(m2, p) + Own(current, p) + Own(loser, p) <= (if InFile(m2, p) then 1 else 0)
    {
      WithSegmentOwners(m, e, meta, rows, p);
      assert Owners(m, p) + Own(e, p) + Own(current, p) + Own(loser, p) <= (if InFile(m, p) then 1 else 0);
    }
  }

  lemma AddSegmentKeeps(s: State, step: Step, t: State)
    requires Inv(s) && step.AddSegment? && Takes(s, step, t) && StepSafe(s, step)
    ensures Inv(t)
  {
    var AddSegment(bytes, meta, rows, m, e) := step;
    WorkPastStart(s, s.phase.work);
    AllocatedBuild(s, SEGMENT_ALIGN, m, e, bytes);
    AllocatedAhead(s, SEGMENT_ALIGN, m, e, bytes);
    AllocatedClears(s, SEGMENT_ALIGN, m, e, |bytes|);
    WithSegmentLayout(m, e, meta, rows, s.cur.meta.manifest, s.Loser());
    AttachedBuild(s, t, m, WithSegment(m, e, meta, rows));
    StoreKeepsFrame(s, t, SEGMENT_ALIGN, m, e, bytes);
  }

  /** From the facts of `AllocatedBuild` to the build after attaching the range. */
  lemma AttachedBuild(s: State, t: State, m: Manifest, m2: Manifest)
    requires Inv(s) && s.phase.Building? && t.phase.Building?
    requires t == s.(disk := t.disk, phase := t.phase)
    requires t.phase.work == m2 && t.phase.minActive == s.phase.minActive && t.phase.ahead == s.phase.ahead
    requires m.txnId == s.cur.meta.txnId + 1 && FreesLater(m, m2) && m2.schema == m.schema
    requires LayoutAhead(m2, s.cur.meta.manifest, s.Loser()) && AheadOk(t.disk, m, s.phase.ahead)
    requires m2.fileLen <= |t.disk.image|
    requires forall c :: c in s.pins ==> Clear(c, m)
    requires s.fallback.Some? ==> Clear(s.fallback.value, m)
    requires WrittenOk(t.disk, t.phase.written, m, s.cur.meta.txnId)
    ensures BuildOk(t, m2, t.phase.minActive, t.phase.written, t.phase.ahead)
  {
    forall c | c in s.pins
      ensures Clear(c, m2)
    {
      FreesLaterClear(m, m2, c);
    }
    if s.fallback.Some? {
      FreesLaterClear(m, m2, s.fallback.value);
    }
    forall w, p: nat | w in t.phase.written && w.Covers(p)
      ensures Avoids(m2, p, s.cur.meta.txnId)
    {
      FreesLaterAvoids(m, m2, p, s.cur.meta.txnId);
    }
  }

  lemma WithDeletesLayout(m: Manifest, i: nat, e: Extent, count: nat, current: Extent, loser: Extent)
    requires i < |m.segments| && LayoutPlus(m, e, current, loser)
    ensures LayoutAhead(WithDeletes(m, i, e, count), current, loser)
    ensures FreesLater(m, WithDeletes(m, i, e, count))
  {
    var m2 := WithDeletes(m, i, e, count);
    forall p: nat
      ensures Owners(m2, p) + Own(current, p) + Own(loser, p) <= (if InFile(m2, p) then 1 else 0)
    {
      WithDeletesOwners(m, i, e, count, p);
      assert Owners(m, p) + Own(e, p) + Own(current, p) + Own(loser, p) <= (if InFile(m, p) then 1 else 0);
    }
  }

  lemma SetDeletesKeeps(s: State, step: Step, t: State)
    requires Inv(s) && step.SetDeletes? && Takes(s, step, t) && StepSafe(s, step)
    ensures Inv(t)
  {
    var SetDeletes(i, bytes, count, m, e) := step;
    WorkPastStart(s, s.phase.work);
    AllocatedBuild(s, BUFFER_ALIGN, m, e, bytes);
    AllocatedAhead(s, BUFFER_ALIGN, m, e, bytes);
    AllocatedClears(s, BUFFER_ALIGN, m, e, |bytes|);
    WithDeletesLayout(m, i, e, count, s.cur.meta.manifest, s.Loser());
    AttachedBuild(s, t, m, WithDeletes(m, i, e, count));
    StoreKeepsFrame(s, t, BUFFER_ALIGN, m, e, bytes);
  }

  lemma WithoutSegmentFreesLater(m: Manifest, i: nat)
    requires i < |m.segments|
    ensures FreesLater(m, WithoutSegment(m, i))
  {
  }

  lemma WithoutSegmentLayout(m: Manifest, i: nat, current: Extent, loser: Extent)
    requires i < |m.segments| && LayoutAhead(m, current, loser)
    ensures LayoutAhead(WithoutSegment(m, i), current, loser)
  {
    var m2 := WithoutSegment(m, i);
    forall p: nat
      ensures Owners(m2, p) + Own(current, p) + Own(loser, p) <= (if InFile(m2, p) then 1 else 0)
    {
      WithoutSegmentOwners(m, i, p);
      AheadAt(m, current, loser, p);
    }
  }

  lemma DropSegmentKeeps(s: State, step: Step, t: State)
    requires Inv(s) && step.DropSegment? && Takes(s, step, t)
    ensures Inv(t)
  {
    var m := s.phase.work;
    WithoutSegmentLayout(m, step.index, s.cur.meta.manifest, s.Loser());
    WithoutSegmentFreesLater(m, step.index);
    AttachedBuild(s, t, m, t.phase.work);
  }

  // ---- Retiring ------------------------------------------------------------------

  lemma FreeEntryOwners(m: Manifest, x: SegmentEntry, p: nat)
    ensures Owners(FreeEntry(m, x), p) == Owners(m, p) + EntryOwners(x, p)
    ensures LiveOwners(FreeEntry(m, x), p) == LiveOwners(m, p)
    ensures FreesLater(m, FreeEntry(m, x)) && FreeEntry(m, x) == m.(freeExtents := FreeEntry(m, x).freeExtents)
  {
    FreeOwnersOf(m, x.data, p);
    if x.deletes.Some? {
      FreeOwnersOf(m.Free(x.data), x.deletes.value, p);
    }
  }

  lemma {:induction false} FreeAllOwners(m: Manifest, sources: seq<SegmentEntry>, p: nat)
    ensures Owners(FreeAll(m, sources), p) == Owners(m, p) + SegmentOwners(sources, p)
    ensures LiveOwners(FreeAll(m, sources), p) == LiveOwners(m, p)
    ensures FreesLater(m, FreeAll(m, sources)) && FreeAll(m, sources) == m.(freeExtents := FreeAll(m, sources).freeExtents)
  {
    if sources != [] {
      var init, x := sources[..|sources| - 1], sources[|sources| - 1];
      FreeAllOwners(m, init, p);
      FreeEntryOwners(FreeAll(m, init), x, p);
    }
  }

  lemma {:induction false} UnnamedIn(segments: seq<SegmentEntry>, ids: set<nat>, x: SegmentEntry)
    ensures x in Unnamed(segments, ids) <==> x in segments && x.segmentId !in ids
  {
    if segments != [] {
      UnnamedIn(segments[..|segments| - 1], ids, x);
      assert segments == segments[..|segments| - 1] + [segments[|segments| - 1]];
    }
  }

  lemma {:induction false} UnnamedTwice(segments: seq<SegmentEntry>, a: set<nat>, b: set<nat>)
    ensures Unnamed(Unnamed(segments, a), b) == Unnamed(segments, a + b)
  {
    if segments != [] {
      var init, x := segments[..|segments| - 1], segments[|segments| - 1];
      UnnamedTwice(init, a, b);
      var u := Unnamed(init, a);
      assert (u + [x])[..|u + [x]| - 1] == u;
      assert u + [] == u;
    }
  }

  lemma {:induction false} UnnamedOwners(segments: seq<SegmentEntry>, ids: set<nat>, p: nat)
    ensures SegmentOwners(Unnamed(segments, ids), p) <= SegmentOwners(segments, p)
  {
    if segments != [] {
      var init, x := segments[..|segments| - 1], segments[|segments| - 1];
      UnnamedOwners(init, ids, p);
      SegmentOwnersConcat(Unnamed(init, ids), [x], p);
      assert [x][..0] == [] && Unnamed(init, ids) + [] == Unnamed(init, ids);
    }
  }

  /** Taking out the entries with one id takes out at least what one of them holds. */
  lemma {:induction false} UnnamedOne(segments: seq<SegmentEntry>, y: SegmentEntry, p: nat)
    requires y in segments
    ensures SegmentOwners(Unnamed(segments, {y.segmentId}), p) + EntryOwners(y, p) <= SegmentOwners(segments, p)
  {
    var init, x := segments[..|segments| - 1], segments[|segments| - 1];
    assert segments == init + [x];
    var rest := Unnamed(init, {y.segmentId});
    if x == y {
      UnnamedOwners(init, {y.segmentId}, p);
      assert rest + [] == rest;
    } else {
      UnnamedOne(init, y, p);
      SegmentOwnersConcat(rest, [x], p);
      assert [x][..0] == [] && rest + [] == rest;
    }
  }

  lemma IdsOfPush(init: seq<SegmentEntry>, x: SegmentEntry)
    ensures IdsOf(init + [x]) == IdsOf(init) + {x.segmentId}
  {
    assert forall y :: y in init + [x] <==> y in init || y == x;
  }

  /** The last source still stands for an entry after those before it have left. */
  lemma LastSource(segments: seq<SegmentEntry>, ids: set<nat>, x: SegmentEntry, m: Manifest, p: nat)
    requires StillHas(m, x) && m.segments == segments && x.segmentId !in ids
    ensures SegmentOwners(Unnamed(segments, ids + {x.segmentId}), p) + EntryOwners(x, p) <= SegmentOwners(Unnamed(segments, ids), p)
  {
    var y :| y in m.segments && y.segmentId == x.segmentId && y.data == x.data && (x.deletes.Some? ==> y.deletes == x.deletes);
    UnnamedIn(segments, ids, y);
    UnnamedOne(Unnamed(segments, ids), y, p);
    UnnamedTwice(segments, ids, {x.segmentId});
  }

  /** What distinct sources free is no more than what leaves the table with them. */
  lemma {:induction false} RetiredOwners(m: Manifest, sources: seq<SegmentEntry>, p: nat)
    requires Retirable(m, sources)
    ensures SegmentOwners(Unnamed(m.segments, IdsOf(sources)), p) + SegmentOwners(sources, p) <= SegmentOwners(m.segments, p)
  {
    if sources == [] {
      UnnamedOwners(m.segments, IdsOf(sources), p);
    } else {
      var init, x := sources[..|sources| - 1], sources[|sources| - 1];
      assert sources == init + [x];
      RetirableInit(m, sources);
      RetiredOwners(m, init, p);
      LastSource(m.segments, IdsOf(init), x, m, p);
      IdsOfPush(init, x);
    }
  }

  lemma RetirableInit(m: Manifest, sources: seq<SegmentEntry>)
    requires Retirable(m, sources) && sources != []
    ensures Retirable(m, sources[..|sources| - 1])
    ensures sources[|sources| - 1].segmentId !in IdsOf(sources[..|sources| - 1]) && StillHas(m, sources[|sources| - 1])
  {
  }

  lemma RetiredLayout(m: Manifest, sources: seq<SegmentEntry>, current: Extent, loser: Extent)
    requires LayoutAhead(m, current, loser) && Retirable(m, sources)
    ensures LayoutAhead(Retired(m, sources), current, loser)
    ensures FreesLater(m, Retired(m, sources))
    ensures Retired(m, sources) == m.(segments := Retired(m, sources).segments, freeExtents := Retired(m, sources).freeExtents)
  {
    var cut, m2 := m.(segments := Unnamed(m.segments, IdsOf(sources))), Retired(m, sources);
    FreeAllOwners(cut, sources, 0);
    forall p: nat
      ensures Owners(m2, p) + Own(current, p) + Own(loser, p) <= (if InFile(m2, p) then 1 else 0)
    {
      FreeAllOwners(cut, sources, p);
      RetiredOwners(m, sources, p);
      AheadAt(m, current, loser, p);
    }
  }

  lemma RetireKeeps(s: State, step: Step, t: State)
    requires Inv(s) && step.Retire? && Takes(s, step, t) && StepSafe(s, step)
    ensures Inv(t)
  {
    var m := s.phase.work;
    RetiredLayout(m, step.sources, s.cur.meta.manifest, s.Loser());
    AttachedBuild(s, t, m, t.phase.work);
  }

  // ---- Committing ----------------------------------------------------------------

  lemma SchemaStoredShape(d: Disk, blob: seq<Cell>)
    requires d.Wf()
    ensures var d2 := SchemaStored(d, blob);
            && d2.Wf() && d2.durable == d.durable && |d2.image| == |d.image| + |blob|
            && (forall p: nat :: p < |d.image| ==> d2.image[p] == d.image[p] && d2.Touched(p) == d.Touched(p))
            && (forall p: nat :: |d.image| <= p < |d2.image| ==> d2.image[p] == blob[p - |d.image|])
  {
    var g := d.Extended(|d.image| + |blob|);
    ExtendedWf(d, |d.image| + |blob|);
    PutWf(g, |d.image|, blob);
  }

  /** A schema past everything a layout holds joins it. */
  lemma SchemaAheadLayout(m: Manifest, m2: Manifest, current: Extent, loser: Extent, end: nat)
    requires LayoutAhead(m, current, loser) && SchemaInside(m) && m.fileLen <= end && DATA_START <= end
    requires m2 == m.(schema := m2.schema) && end <= m2.schema.offset
    ensures LayoutAhead(m2, current, loser)
  {
    forall p: nat
      ensures Owners(m2, p) + Own(current, p) + Own(loser, p) <= (if InFile(m2, p) then 1 else 0)
    {
      AheadAt(m, current, loser, p);
      assert m.schema.Holds(p) ==> p < m.fileLen;
    }
  }

  lemma SchemaStoredKeeps(d: Disk, blob: seq<Cell>, c: Commit)
    requires d.Wf() && Holds(d.image, c)
    ensures Holds(SchemaStored(d, blob).image, c)
    ensures Guarded(d, c) ==> Guarded(SchemaStored(d, blob), c)
  {
    SchemaStoredShape(d, blob);
  }

  lemma SchemaStoredWritten(d: Disk, blob: seq<Cell>, written: seq<Write>, m: Manifest, m2: Manifest, txn: nat)
    requires d.Wf() && WrittenOk(d, written, m, txn) && m2.freeExtents == m.freeExtents && m2.fileLen == m.fileLen
    ensures WrittenOk(SchemaStored(d, blob), written, m2, txn)
  {
    SchemaStoredShape(d, blob);
    forall w, p: nat | w in written && w.Covers(p)
      ensures Avoids(m2, p, txn)
    {
      assert Avoids(m, p, txn);
    }
  }

  lemma SchemaStoredAhead(d: Disk, blob: seq<Cell>, m: Manifest)
    requires d.Wf() && blob != [] && m.schema == Extent(|d.image|, |blob|)
    ensures AheadOk(SchemaStored(d, blob), m, blob)
  {
    SchemaStoredShape(d, blob);
  }

  /** The build after its schema is stored. */
  lemma WriteSchemaBuild(s: State, work: Manifest, blob: seq<Cell>, t: State)
    requires Inv(s) && s.phase.Building? && s.phase.ahead == [] && blob != []
    requires work == s.phase.work.(schema := Extent(|s.disk.image|, |blob|))
    requires t == s.(disk := SchemaStored(s.disk, blob), phase := t.phase)
    requires t.phase == s.phase.(work := work, ahead := blob)
    ensures PhaseOk(t)
  {
    SchemaStoredShape(s.disk, blob);
    SchemaStoredAhead(s.disk, blob, work);
    WorkPastStart(s, s.phase.work);
    SchemaAheadLayout(s.phase.work, work, s.cur.meta.manifest, s.Loser(), |s.disk.image|);
    SchemaStoredWritten(s.disk, blob, s.phase.written, s.phase.work, work, s.cur.meta.txnId);
    forall c | Clear(c, s.phase.work)
      ensures Clear(c, work)
    {
      SameClear(c, s.phase.work, work);
    }
  }

  /** A schema stored past everything endangers nothing that was there. */
  lemma WriteSchemaKeeps(s: State, step: Step, t: State)
    requires Inv(s) && step.WriteSchema? && Takes(s, step, t)
    ensures Inv(t)
  {
    WriteSchemaBuild(s, t.phase.work, step.blob, t);
    SchemaStoredShape(s.disk, step.blob);
    forall c | Holds(s.disk.image, c)
      ensures Holds(t.disk.image, c) && (Guarded(s.disk, c) ==> Guarded(t.disk, c))
    {
      SchemaStoredKeeps(s.disk, step.blob, c);
    }
    PageKept(s.disk, t.disk, s.slot);
    PageKept(s.disk, t.disk, s.slot.Other());
  }

  /** Where the manifest goes: behind everything, where a later read finds it. */
  lemma AppendShape(d: Disk, work: Manifest, loser: Extent, room: Room)
    requires d.Wf()
    ensures var (d2, m, e) := Append(d, work, loser, room);
            && d2.Wf() && d2.durable == d.durable
            && |d.image| <= e.offset && work.fileLen <= e.offset && e.len > 0
            && e.End() <= |d2.image| && m.fileLen == e.End()
            && Decode(d2.image[e.offset..e.End()]) == Some(ManifestFrame(m, room.payload))
            && (forall p: nat :: p < |d.image| ==> d2.image[p] == d.image[p])
            && (forall p: nat :: p < |d.image| ==> d2.Touched(p) == d.Touched(p))
  {
    var (d2, m, e) := Append(d, work, loser, room);
    var f := ManifestFrame(m, room.payload);
    var g := d.Extended(e.End());
    ExtendedWf(d, e.End());
    PutWf(g, e.offset, Encode(f));
    PutFrameReads(g, e.offset, f, e.End());
  }

  lemma PutFrameReads(g: Disk, start: nat, f: Frame, end: nat)
    requires g.Wf() && start + f.Size() <= end <= |g.image|
    ensures Decode(g.Put(start, Encode(f)).image[start..end]) == Some(f)
  {
    PutWf(g, start, Encode(f));
    var cells := g.Put(start, Encode(f)).image[start..end];
    forall i | 0 <= i < f.Size()
      ensures cells[i] == Encode(f)[i]
    {
      assert start <= start + i < start + f.Size();
    }
    assert Encode(f) <= cells;
  }

  /** A manifest put behind everything touches nothing any commit needs. */
  lemma AppendKeepsOld(s: State, room: Room, c: Commit)
    requires Inv(s) && s.phase.Building?
    requires Clear(c, s.phase.work) && Holds(s.disk.image, c) && c.meta.txnId <= s.cur.meta.txnId
    ensures var (d, m, e) := Append(s.disk, s.phase.work, s.Loser(), room);
            Clear(c, m) && Holds(d.image, c) && (Guarded(s.disk, c) ==> Guarded(d, c))
  {
    var work := s.phase.work;
    var (d, m, e) := Append(s.disk, work, s.Loser(), room);
    AppendShape(s.disk, work, s.Loser(), room);
    AppendLayout(s, room);
    FreesLaterClear(work, m, c);
  }

  lemma AppendedNext(s: State, room: Room, n: Commit)
    requires Inv(s) && s.phase.Building?
    requires var (d, m, e) := Append(s.disk, s.phase.work, s.Loser(), room);
             n == Commit(NextMeta(s.cur.meta, m, e, |d.image|), m, d.image)
    ensures WellSealed(n) && n.meta.txnId == s.cur.meta.txnId + 1
    ensures LayoutOk(n.manifest, n.meta.manifest, s.cur.meta.manifest)
    ensures n.manifest.fileLen <= |n.sealed| && Holds(n.sealed, n)
  {
    AppendShape(s.disk, s.phase.work, s.Loser(), room);
    AppendLayout(s, room);
    LayoutClears(n, s.cur.meta.manifest);
  }

  /** Appending keeps the commits and readers there were. */
  lemma AppendKeepsCommits(s: State, room: Room, t: State)
    requires Inv(s) && s.phase.Building? && t.phase.Appended?
    requires t == s.(disk := Append(s.disk, s.phase.work, s.Loser(), room).0, phase := t.phase)
    ensures t.disk.Wf() && CurrentOk(t) && FallbackOk(t) && PinsOk(t)
    ensures forall c :: c in s.pins ==> Clear(c, Append(s.disk, s.phase.work, s.Loser(), room).1)
  {
    AppendShape(s.disk, s.phase.work, s.Loser(), room);
    forall c | c in s.pins || (s.fallback.Some? && c == s.fallback.value)
      ensures Clear(c, Append(s.disk, s.phase.work, s.Loser(), room).1) && Holds(t.disk.image, c)
      ensures Guarded(s.disk, c) ==> Guarded(t.disk, c)
    {
      AppendKeepsOld(s, room, c);
    }
    PageKept(s.disk, t.disk, s.slot);
    PageKept(s.disk, t.disk, s.slot.Other());
  }

  lemma AppendManifestKeeps(s: State, step: Step, t: State)
    requires Inv(s) && step.AppendManifest? && Takes(s, step, t)
    ensures Inv(t)
  {
    AppendedNext(s, step.room, t.phase.next);
    AppendKeepsCommits(s, step.room, t);
  }

  lemma AppendLayout(s: State, room: Room)
    requires Inv(s) && s.phase.Building?
    ensures var (d, m, e) := Append(s.disk, s.phase.work, s.Loser(), room);
            && LayoutOk(m, e, s.cur.meta.manifest) && FreesLater(s.phase.work, m) && m.txnId == s.phase.work.txnId
  {
    var work, loser, cur := s.phase.work, s.Loser(), s.cur.meta.manifest;
    var (d, m, e) := Append(s.disk, work, loser, room);
    AppendShape(s.disk, work, loser, room);
    WorkPastStart(s, work);
    forall p: nat
      ensures Owners(m, p) + Own(e, p) + Own(cur, p) <= (if DATA_START <= p < m.fileLen then 1 else 0)
    {
      AheadAt(work, cur, loser, p);
      FreeOwnersOf(work, loser, p);
      assert Owners(m, p) == Owners(work.Free(loser), p);
      assert InFile(work, p) ==> p < |s.disk.image|;
    }
  }

  lemma QuietPageReads(d: Disk, slot: MetaSlot)
    requires d.Wf() && QuietPage(d, slot)
    ensures ReadMeta(d.image, slot) == ReadMeta(d.durable, slot)
  {
    SamePage(d.image, d.durable, slot);
  }

  lemma SyncManifestKeeps(s: State, step: Step, t: State)
    requires Inv(s) && step.SyncManifest? && Takes(s, step, t)
    ensures Inv(t)
  {
    QuietPageReads(s.disk, s.slot);
    QuietPageReads(s.disk, s.slot.Other());
  }

  /** Overwriting a meta slot touches nothing in the data region. */
  lemma FlipKeeps(d: Disk, slot: MetaSlot, page: seq<Cell>, c: Commit, m: Manifest)
    requires d.Wf() && |page| == META_PAGE_SIZE && DATA_START <= |d.image|
    requires Clear(c, m) && Holds(d.image, c)
    ensures Holds(d.Put(slot.Offset(), page).image, c)
    ensures Guarded(d, c) ==> Guarded(d.Put(slot.Offset(), page), c)
  {
    assert Missed(c, slot.Offset(), |page|);
    PutKeeps(d, slot.Offset(), page, c);
  }

  lemma FlippedPageReads(d: Disk, slot: MetaSlot, meta: MetaPage)
    requires d.Wf() && DATA_START <= |d.image|
    ensures ReadMeta(d.Put(slot.Offset(), MetaPageCells(meta)).image, slot) == Some(meta)
  {
    var t := d.Put(slot.Offset(), MetaPageCells(meta));
    PutWf(d, slot.Offset(), MetaPageCells(meta));
    assert PageAt(t.image, slot) == MetaPageCells(meta);
    DecodeEncoded(MetaFrame(meta), seq(META_PAGE_SIZE - META_FRAME_LEN, _ => Zero));
  }

  /** Overwriting the older slot keeps the commits and readers there were. */
  lemma FlipKeepsCommits(s: State, page: seq<Cell>, t: State)
    requires Inv(s) && s.phase.Sealed? && t.phase.Flipping? && |page| == META_PAGE_SIZE
    requires t == s.(disk := s.disk.Put(s.slot.Other().Offset(), page), phase := t.phase)
    ensures t.disk.Wf() && CurrentOk(t) && FallbackOk(t) && PinsOk(t)
  {
    var other := s.slot.Other();
    PutWf(s.disk, other.Offset(), page);
    if s.fallback.Some? {
      FlipKeeps(s.disk, other, page, s.fallback.value, s.cur.manifest);
    }
    forall c | c in s.pins
      ensures Holds(t.disk.image, c) && (Guarded(s.disk, c) ==> Guarded(t.disk, c))
    {
      FlipKeeps(s.disk, other, page, c, s.cur.manifest);
    }
  }

  lemma WriteMetaKeeps(s: State, step: Step, t: State)
    requires Inv(s) && step.WriteMeta? && Takes(s, step, t)
    ensures Inv(t)
  {
    var other, n := s.slot.Other(), s.phase.next;
    FlipKeepsCommits(s, MetaPageCells(n.meta), t);
    LayoutClears(n, s.cur.meta.manifest);
    FlipKeeps(s.disk, other, MetaPageCells(n.meta), n, n.manifest);
    PutWf(s.disk, other.Offset(), MetaPageCells(n.meta));
    FlippedPageReads(s.disk, other, n.meta);
  }

  lemma SyncMetaKeeps(s: State, step: Step, t: State)
    requires Inv(s) && step.SyncMeta? && Takes(s, step, t)
    ensures Inv(t)
  {
    QuietPageReads(s.disk, s.slot);
    LayoutClears(s.phase.next, s.cur.meta.manifest);
  }

  // ---- Crashes -----------------------------------------------------------------------

  lemma GuardedSurvives(d: Disk, img: seq<Cell>, c: Commit)
    requires d.Survives(img) && Guarded(d, c)
    ensures Holds(img, c)
  {
    forall p: nat | c.Protects(p)
      ensures p < |img| && img[p] == c.sealed[p]
    {
      QuietSurvives(d, img, p);
    }
  }

  lemma HoldsReads(img: seq<Cell>, c: Commit)
    requires WellSealed(c) && Holds(img, c)
    ensures ReadManifest(img, c.meta) == Some(c.manifest)
  {
    var e := c.meta.manifest;
    assert c.Protects(e.End() - 1);
    forall p: nat | e.offset <= p < e.End()
      ensures img[p] == c.sealed[p]
    {
      assert c.Protects(p);
    }
    assert img[e.offset..e.End()] == c.sealed[e.offset..e.End()];
  }

  lemma QuietPageSurvives(d: Disk, img: seq<Cell>, slot: MetaSlot)
    requires d.Wf() && d.Survives(img) && QuietPage(d, slot)
    ensures ReadMeta(img, slot) == ReadMeta(d.durable, slot)
  {
    forall p: nat | slot.Offset() <= p < slot.Offset() + META_PAGE_SIZE
      ensures img[p] == d.durable[p]
    {
      QuietSurvives(d, img, p);
    }
    SamePage(img, d.durable, slot);
  }

  /** The slot being overwritten reads as it did, as the new page, or not at all. */
  lemma FlippedPageSurvives(s: State, img: seq<Cell>)
    requires Inv(s) && s.phase.Flipping? && s.disk.Survives(img)
    ensures var got := ReadMeta(img, s.slot.Other());
            got == None || got == s.OtherMeta() || got == Some(s.phase.next.meta)
  {
    MixedPage(s.disk, s.slot.Other(), s.phase.next.meta, img);
  }

  /** A page whose only unsynced write is a new meta page. */
  lemma MixedPage(d: Disk, slot: MetaSlot, meta: MetaPage, img: seq<Cell>)
    requires d.Wf() && d.Survives(img) && DATA_START <= |d.durable|
    requires forall x :: x in d.pending ==> x == Write(slot.Offset(), MetaPageCells(meta))
    ensures var got := ReadMeta(img, slot);
            got == None || got == ReadMeta(d.durable, slot) || got == Some(meta)
  {
    var f := MetaFrame(meta);
    var pad := seq(META_PAGE_SIZE - META_FRAME_LEN, _ => Zero);
    var mix, before := PageAt(img, slot), PageAt(d.durable, slot);
    forall i | 0 <= i < |mix|
      ensures mix[i] == before[i] || mix[i] == (Encode(f) + pad)[i]
    {
      var p := slot.Offset() + i;
      assert d.MayHold(p, img[p]);
    }
    TornPageReadsOldNewOrNothing(mix, before, f, pad);
  }

  lemma ReadsNewest(img: seq<Cell>, slot: MetaSlot, c: Commit)
    requires ReadMeta(img, slot) == Some(c.meta)
    requires ReadManifest(img, c.meta) == Some(c.manifest)
    requires var other := ReadMeta(img, slot.Other()); other.Some? ==> other.value.txnId < c.meta.txnId
    ensures ReadCommitted(img) == Some(Recovered(c.meta, slot, c.manifest, LoserOf(ReadMeta(img, slot.Other()))))
  {
  }

  /**
   * Recovery: whatever a crash leaves, opening finds the last acknowledged
   * commit, or the one whose meta page was being written.
   */
  lemma RecoversAcknowledgedOrInFlight(s: State, img: seq<Cell>)
    requires Inv(s) && s.disk.Survives(img)
    ensures ReadCommitted(img).Some?
    ensures var r := ReadCommitted(img).value;
            || (&& r == Recovered(s.cur.meta, s.slot, s.cur.manifest, r.loser)
                && (r.loser == s.Loser() || (s.phase.Flipping? && r.loser == EMPTY))
                && ReadMeta(img, s.slot.Other()) == (if r.loser == EMPTY then None else s.OtherMeta()))
            || (&& s.phase.Flipping?
                && r == Recovered(s.phase.next.meta, s.slot.Other(), s.phase.next.manifest, s.cur.meta.manifest)
                && ReadMeta(img, s.slot.Other()) == Some(s.phase.next.meta))
    ensures ReadMeta(img, s.slot) == Some(s.cur.meta)
  {
    QuietPageSurvives(s.disk, img, s.slot);
    if s.phase.Flipping? {
      RecoversFlipping(s, img);
    } else {
      QuietPageSurvives(s.disk, img, s.slot.Other());
      GuardedIsRead(s.disk, img, s.slot, s.cur);
    }
  }

  lemma RecoversFlipping(s: State, img: seq<Cell>)
    requires Inv(s) && s.phase.Flipping? && s.disk.Survives(img) && ReadMeta(img, s.slot) == Some(s.cur.meta)
    ensures var other := ReadMeta(img, s.slot.Other());
            if other == Some(s.phase.next.meta)
            then ReadCommitted(img) == Some(Recovered(s.phase.next.meta, s.slot.Other(), s.phase.next.manifest, s.cur.meta.manifest))
            else (other == None || other == s.OtherMeta())
                 && ReadCommitted(img) == Some(Recovered(s.cur.meta, s.slot, s.cur.manifest, LoserOf(other)))
  {
    FlippedPageSurvives(s, img);
    ReadsOneOfTwo(s.disk, img, s.slot, s.cur, s.phase.next);
  }

  /** The slot that was overwritten decides which of two guarded commits opening finds. */
  lemma ReadsOneOfTwo(d: Disk, img: seq<Cell>, slot: MetaSlot, cur: Commit, next: Commit)
    requires d.Survives(img) && Guarded(d, cur) && WellSealed(cur) && Guarded(d, next) && WellSealed(next)
    requires ReadMeta(img, slot) == Some(cur.meta) && cur.meta.txnId < next.meta.txnId
    requires var other := ReadMeta(img, slot.Other());
             other == Some(next.meta) || other == None || other.value.txnId < cur.meta.txnId
    ensures var other := ReadMeta(img, slot.Other());
            ReadCommitted(img) == if other == Some(next.meta)
                                  then Some(Recovered(next.meta, slot.Other(), next.manifest, cur.meta.manifest))
                                  else Some(Recovered(cur.meta, slot, cur.manifest, LoserOf(other)))
  {
    if ReadMeta(img, slot.Other()) == Some(next.meta) {
      GuardedIsRead(d, img, slot.Other(), next);
    } else {
      GuardedIsRead(d, img, slot, cur);
    }
  }

  /** A guarded commit whose slot came through, as the newer of the two, is the one opening finds. */
  lemma GuardedIsRead(d: Disk, img: seq<Cell>, slot: MetaSlot, c: Commit)
    requires d.Survives(img) && Guarded(d, c) && WellSealed(c)
    requires ReadMeta(img, slot) == Some(c.meta)
    requires var other := ReadMeta(img, slot.Other()); other.Some? ==> other.value.txnId < c.meta.txnId
    ensures ReadCommitted(img) == Some(Recovered(c.meta, slot, c.manifest, LoserOf(ReadMeta(img, slot.Other()))))
  {
    GuardedSurvives(d, img, c);
    HoldsReads(img, c);
    ReadsNewest(img, slot, c);
  }

  /** An idle state whose disk has settled is sound once its commits are on it and its slots name them. */
  lemma SettledInv(t: State)
    requires t.disk == Disk(t.disk.image, t.disk.image, []) && DATA_START <= |t.disk.image|
    requires t.pins == {t.cur} && t.phase == Idle
    requires WellSealed(t.cur) && Holds(t.disk.image, t.cur) && t.cur.manifest.fileLen <= |t.disk.image|
    requires LayoutOk(t.cur.manifest, t.cur.meta.manifest, t.Loser())
    requires ReadMeta(t.disk.image, t.slot) == Some(t.cur.meta)
    requires ReadMeta(t.disk.image, t.slot.Other()) == t.OtherMeta()
    requires t.fallback.Some? ==>
               && WellSealed(t.fallback.value) && Holds(t.disk.image, t.fallback.value)
               && t.fallback.value.meta.txnId + 1 == t.cur.meta.txnId && Clear(t.fallback.value, t.cur.manifest)
    ensures Inv(t)
  {
    LayoutClears(t.cur, t.Loser());
  }

  lemma CrashToCurrent(s: State, img: seq<Cell>, t: State)
    requires Inv(s) && s.disk.Survives(img)
    requires t == State(Disk(img, img, []), s.slot, s.cur, t.fallback, {s.cur}, Idle)
    requires t.fallback == None || t.fallback == s.fallback
    requires ReadMeta(img, s.slot) == Some(s.cur.meta)
    requires ReadMeta(img, s.slot.Other()) == t.OtherMeta()
    ensures Inv(t)
  {
    GuardedSurvives(s.disk, img, s.cur);
    if s.fallback.Some? {
      GuardedSurvives(s.disk, img, s.fallback.value);
    }
    forall p: nat
      ensures Owners(s.cur.manifest, p) + Own(s.cur.meta.manifest, p) + Own(t.Loser(), p)
        <= (if DATA_START <= p < s.cur.manifest.fileLen then 1 else 0)
    {
      LayoutAt(s.cur.manifest, s.cur.meta.manifest, s.Loser(), p);
    }
    SettledInv(t);
  }

  lemma CrashToNext(s: State, img: seq<Cell>, t: State)
    requires Inv(s) && s.disk.Survives(img) && s.phase.Flipping?
    requires t == State(Disk(img, img, []), s.slot.Other(), s.phase.next, Some(s.cur), {s.phase.next}, Idle)
    requires ReadMeta(img, s.slot) == Some(s.cur.meta)
    requires ReadMeta(img, s.slot.Other()) == Some(s.phase.next.meta)
    ensures Inv(t)
  {
    GuardedSurvives(s.disk, img, s.cur);
    GuardedSurvives(s.disk, img, s.phase.next);
    SettledInv(t);
  }

  lemma CrashKeeps(s: State, step: Step, t: State)
    requires Inv(s) && step.CrashAndReopen? && Takes(s, step, t)
    ensures Inv(t)
    ensures t.cur == s.cur || (s.phase.Flipping? && t.cur == s.phase.next && t.fallback == Some(s.cur))
  {
    var img := step.img;
    RecoversAcknowledgedOrInFlight(s, img);
    var r := ReadCommitted(img).value;
    if r.meta == s.cur.meta {
      CrashToCurrent(s, img, t);
    } else {
      CrashToNext(s, img, t);
    }
  }

  lemma DropKeeps(s: State, step: Step, t: State)
    requires Inv(s) && step.Drop? && Takes(s, step, t)
    ensures Inv(t)
  {
  }

  lemma StepKeeps(s: State, step: Step, t: State)
    requires Inv(s) && Takes(s, step, t) && StepSafe(s, step)
    ensures Inv(t)
  {
    match step
    case Begin(_, _, _) => BeginKeeps(s, step, t);
    case AddSegment(_, _, _, _, _) => AddSegmentKeeps(s, step, t);
    case SetDeletes(_, _, _, _, _) => SetDeletesKeeps(s, step, t);
    case DropSegment(_) => DropSegmentKeeps(s, step, t);
    case Retire(_, _) => RetireKeeps(s, step, t);
    case WriteSchema(_) => WriteSchemaKeeps(s, step, t);
    case AppendManifest(_) => AppendManifestKeeps(s, step, t);
    case SyncManifest => SyncManifestKeeps(s, step, t);
    case WriteMeta => WriteMetaKeeps(s, step, t);
    case SyncMeta => SyncMetaKeeps(s, step, t);
    case Drop(_) => DropKeeps(s, step, t);
    case CrashAndReopen(_) => CrashKeeps(s, step, t);
  }
}
