/** Retiring rewritten segments: what a pinned commit still finds of them, and when freeing them frees twice. */
module Retiring {
  import opened Layout
  import opened Allocator
  import opened Store
  import opened StoreProof
  import opened StoreRuns
  import opened SchemaRuns

  // ---- Where a pinned commit's ranges have gone ------------------------------------

  ghost predicate Freed(m: Manifest, e: Extent) {
    forall p: nat :: e.Holds(p) ==> FreeOwners(m.freeExtents, p) >= 1
  }

  predicate Named(m: Manifest, id: nat) {
    exists y :: y in m.segments && y.segmentId == id
  }

  /** An entry of an earlier commit is still there under its id, or its data is free; and so for its vector. */
  ghost predicate Traced(x: SegmentEntry, m: Manifest) {
    && x.segmentId < m.nextSegmentId
    && (forall y :: y in m.segments && y.segmentId == x.segmentId ==>
          y.data == x.data && (x.deletes.Some? && y.deletes != x.deletes ==> Freed(m, x.deletes.value)))
    && (!Named(m, x.segmentId) ==> Freed(m, x.data))
  }

  ghost predicate Accounted(from: Manifest, m: Manifest) {
    forall x :: x in from.segments ==> Traced(x, m)
  }

  predicate Solid(x: SegmentEntry) {
    x.data.len > 0 && (x.deletes.Some? ==> x.deletes.value.len > 0)
  }

  /** Entries have ids of their own, and ranges with bytes in them. */
  ghost predicate Proper(m: Manifest) {
    && (forall x :: x in m.segments ==> Solid(x) && x.segmentId < m.nextSegmentId)
    && forall i, j :: 0 <= i < j < |m.segments| ==> m.segments[i].segmentId != m.segments[j].segmentId
  }

  ghost predicate AllAccounted(pins: set<Commit>, m: Manifest) {
    forall c :: c in pins ==> Accounted(c.manifest, m)
  }

  /** Beside the invariant: no range of a pinned commit is lost sight of. */
  ghost predicate Tracked(s: State) {
    && (forall c :: c in s.pins ==> Proper(c.manifest))
    && AllAccounted(s.pins, s.cur.manifest)
    && match s.phase
       case Idle => true
       case Building(work, _, _, _) => Proper(work) && AllAccounted(s.pins, work)
       case Appended(n) => Proper(n.manifest) && AllAccounted(s.pins, n.manifest)
       case Sealed(n) => Proper(n.manifest) && AllAccounted(s.pins, n.manifest)
       case Flipping(n) => Proper(n.manifest) && AllAccounted(s.pins, n.manifest)
  }

  lemma AccountedSelf(m: Manifest)
    requires Proper(m)
    ensures Accounted(m, m)
  {
    forall x | x in m.segments
      ensures Traced(x, m)
    {
      forall y | y in m.segments && y.segmentId == x.segmentId
        ensures y == x
      {
        var i :| 0 <= i < |m.segments| && m.segments[i] == x;
        var j :| 0 <= j < |m.segments| && m.segments[j] == y;
        assert i == j || i < j || j < i;
      }
    }
  }

  /** The entry with `x`'s id was there before, with its data, and has not left `x`'s vector behind unfreed. */
  ghost predicate WasThere(x: SegmentEntry, y: SegmentEntry, m: Manifest, m2: Manifest) {
    exists y0 ::
      && y0 in m.segments && y0.segmentId == x.segmentId && y0.data == y.data
      && (y0.deletes == y.deletes || (x.deletes.Some? && y0.deletes == x.deletes ==> Freed(m2, x.deletes.value)))
  }

  /** What an edit must respect for pinned entries to stay traced. */
  lemma TracedStays(x: SegmentEntry, m: Manifest, m2: Manifest)
    requires Traced(x, m) && m.nextSegmentId <= m2.nextSegmentId
    requires forall p: nat :: (x.data.Holds(p) || (x.deletes.Some? && x.deletes.value.Holds(p)))
                              ==> FreeOwners(m2.freeExtents, p) >= FreeOwners(m.freeExtents, p)
    requires forall y :: y in m2.segments && y.segmentId == x.segmentId ==> WasThere(x, y, m, m2)
    requires Named(m, x.segmentId) && !Named(m2, x.segmentId) ==> Freed(m2, x.data)
    ensures Traced(x, m2)
  {
    forall y | y in m2.segments && y.segmentId == x.segmentId
      ensures y.data == x.data && (x.deletes.Some? && y.deletes != x.deletes ==> Freed(m2, x.deletes.value))
    {
      var y0 :| y0 in m.segments && y0.segmentId == x.segmentId && y0.data == y.data
        && (y0.deletes == y.deletes || (x.deletes.Some? && y0.deletes == x.deletes ==> Freed(m2, x.deletes.value)));
    }
  }

  lemma AccountedSame(from: Manifest, m: Manifest, m2: Manifest)
    requires Accounted(from, m)
    requires m2.segments == m.segments && m2.freeExtents == m.freeExtents && m2.nextSegmentId == m.nextSegmentId
    ensures Accounted(from, m2)
  {
    forall x | x in from.segments
      ensures Traced(x, m2)
    {
      assert Traced(x, m);
    }
  }

  // ---- Edits of a build ------------------------------------------------------------

  lemma EntryProtected(c: Commit, x: SegmentEntry, p: nat)
    requires x in c.manifest.segments && EntryOwners(x, p) >= 1
    ensures c.Protects(p)
  {
    var i :| 0 <= i < |c.manifest.segments| && c.manifest.segments[i] == x;
    SegmentOwnersAt(c.manifest.segments, i, p);
  }

  lemma AllocatedAccounted(c: Commit, m: Manifest, len: nat, align: nat, min: nat, m2: Manifest, e: Extent)
    requires align > 0 && Allocated(m, len, align, min, m2, e) && Clear(c, m) && min <= c.meta.txnId + 1
    requires forall q: nat :: FreeOwners(m.freeExtents, q) >= 1 ==> q < m.fileLen
    requires Accounted(c.manifest, m)
    ensures Accounted(c.manifest, m2)
  {
    forall x | x in c.manifest.segments
      ensures Traced(x, m2)
    {
      forall p: nat | x.data.Holds(p) || (x.deletes.Some? && x.deletes.value.Holds(p))
        ensures FreeOwners(m2.freeExtents, p) >= FreeOwners(m.freeExtents, p)
      {
        EntryProtected(c, x, p);
        AllocatedAvoids(m, len, align, min, m2, e, p, c.meta.txnId);
        AllocatedOwners(m, len, align, min, m2, e, p);
      }
      AllocatedOwners(m, len, align, min, m2, e, 0);
      assert Traced(x, m);
      assert forall y :: y in m2.segments && y.segmentId == x.segmentId ==> WasThere(x, y, m, m2);
      TracedStays(x, m, m2);
    }
  }

  lemma WithSegmentAccounted(from: Manifest, m: Manifest, e: Extent, meta: Extent, rows: nat)
    requires Accounted(from, m)
    ensures Accounted(from, WithSegment(m, e, meta, rows))
  {
    var m2 := WithSegment(m, e, meta, rows);
    forall x | x in from.segments
      ensures Traced(x, m2)
    {
      assert Traced(x, m);
      forall y | y in m2.segments && y.segmentId == x.segmentId
        ensures WasThere(x, y, m, m2)
      {
        assert y in m.segments;
      }
      if Named(m, x.segmentId) {
        var y :| y in m.segments && y.segmentId == x.segmentId;
        assert y in m2.segments;
      }
      TracedStays(x, m, m2);
    }
  }

  lemma WithSegmentProper(m: Manifest, e: Extent, meta: Extent, rows: nat)
    requires Proper(m) && e.len > 0
    ensures Proper(WithSegment(m, e, meta, rows))
  {
    var m2 := WithSegment(m, e, meta, rows);
    forall i, j | 0 <= i < j < |m2.segments|
      ensures m2.segments[i].segmentId != m2.segments[j].segmentId
    {
      assert m.segments[i] in m.segments;
    }
  }

  lemma WithDeletesAccounted(from: Manifest, m: Manifest, i: nat, e: Extent, count: nat)
    requires i < |m.segments| && Accounted(from, m)
    ensures Accounted(from, WithDeletes(m, i, e, count))
  {
    var s, m2 := m.segments[i], WithDeletes(m, i, e, count);
    forall p: nat
      ensures FreeOwners(m2.freeExtents, p) == FreeOwners(m.freeExtents, p)
                                               + (if s.deletes.Some? then Own(s.deletes.value, p) else 0)
    {
      if s.deletes.Some? {
        FreeOwnersOf(m, s.deletes.value, p);
      }
    }
    forall x | x in from.segments
      ensures Traced(x, m2)
    {
      assert Traced(x, m);
      forall y | y in m2.segments && y.segmentId == x.segmentId
        ensures WasThere(x, y, m, m2)
      {
        var k :| 0 <= k < |m2.segments| && m2.segments[k] == y;
        assert m.segments[k] in m.segments;
        if k == i && x.deletes.Some? && s.deletes == x.deletes {
          assert Freed(m2, x.deletes.value);
        }
      }
      if Named(m, x.segmentId) {
        var y :| y in m.segments && y.segmentId == x.segmentId;
        var k :| 0 <= k < |m.segments| && m.segments[k] == y;
        assert m2.segments[k] in m2.segments && m2.segments[k].segmentId == x.segmentId;
      }
      TracedStays(x, m, m2);
    }
  }

  lemma WithDeletesProper(m: Manifest, i: nat, e: Extent, count: nat)
    requires i < |m.segments| && Proper(m) && e.len > 0
    ensures Proper(WithDeletes(m, i, e, count))
  {
    var m2 := WithDeletes(m, i, e, count);
    forall x | x in m2.segments
      ensures Solid(x) && x.segmentId < m2.nextSegmentId
    {
      var k :| 0 <= k < |m2.segments| && m2.segments[k] == x;
      assert m.segments[k] in m.segments;
    }
    forall a, b | 0 <= a < b < |m2.segments|
      ensures m2.segments[a].segmentId != m2.segments[b].segmentId
    {
      assert m.segments[a].segmentId != m.segments[b].segmentId;
    }
  }

  lemma WithoutSegmentAccounted(from: Manifest, m: Manifest, i: nat)
    requires i < |m.segments| && Accounted(from, m)
    ensures Accounted(from, WithoutSegment(m, i))
  {
    var s, m2 := m.segments[i], WithoutSegment(m, i);
    var cut := m.(segments := m.segments[..i] + m.segments[i + 1..]);
    forall p: nat
      ensures FreeOwners(m2.freeExtents, p) == FreeOwners(m.freeExtents, p) + EntryOwners(s, p)
    {
      FreeOwnersOf(cut, s.data, p);
      if s.deletes.Some? {
        FreeOwnersOf(cut.Free(s.data), s.deletes.value, p);
      }
    }
    forall x | x in from.segments
      ensures Traced(x, m2)
    {
      assert Traced(x, m);
      forall y | y in m2.segments && y.segmentId == x.segmentId
        ensures WasThere(x, y, m, m2)
      {
        assert y in m.segments;
      }
      if Named(m, x.segmentId) && !Named(m2, x.segmentId) {
        var y :| y in m.segments && y.segmentId == x.segmentId;
        assert m.segments == m.segments[..i] + [s] + m.segments[i + 1..];
        assert y in m2.segments || y == s;
        assert y == s && y.data == x.data;
      }
      TracedStays(x, m, m2);
    }
  }

  lemma WithoutSegmentProper(m: Manifest, i: nat)
    requires i < |m.segments| && Proper(m)
    ensures Proper(WithoutSegment(m, i))
  {
    var m2 := WithoutSegment(m, i);
    forall a, b | 0 <= a < b < |m2.segments|
      ensures m2.segments[a].segmentId != m2.segments[b].segmentId
    {
      assert m2.segments[a] == m.segments[if a < i then a else a + 1];
      assert m2.segments[b] == m.segments[if b < i then b else b + 1];
    }
  }

  lemma {:induction false} UnnamedDistinct(segments: seq<SegmentEntry>, ids: set<nat>)
    requires forall i, j :: 0 <= i < j < |segments| ==> segments[i].segmentId != segments[j].segmentId
    ensures var u := Unnamed(segments, ids);
            forall i, j :: 0 <= i < j < |u| ==> u[i].segmentId != u[j].segmentId
  {
    if segments != [] {
      var init, x := segments[..|segments| - 1], segments[|segments| - 1];
      UnnamedDistinct(init, ids);
      var u, all := Unnamed(init, ids), Unnamed(segments, ids);
      forall i, j | 0 <= i < j < |all|
        ensures all[i].segmentId != all[j].segmentId
      {
        assert i < |u| && all[i] == u[i] && u[i] in u;
        UnnamedIn(init, ids, u[i]);
        var k :| 0 <= k < |init| && init[k] == u[i];
        assert segments[k] == u[i];
      }
    }
  }

  lemma UnnamedProper(m: Manifest, ids: set<nat>, m2: Manifest)
    requires Proper(m) && m2.segments == Unnamed(m.segments, ids) && m2.nextSegmentId == m.nextSegmentId
    ensures Proper(m2)
  {
    UnnamedDistinct(m.segments, ids);
    forall x | x in m2.segments
      ensures Solid(x) && x.segmentId < m2.nextSegmentId
    {
      UnnamedIn(m.segments, ids, x);
    }
  }

  lemma RetiredFree(m: Manifest, sources: seq<SegmentEntry>, p: nat)
    ensures FreeOwners(Retired(m, sources).freeExtents, p) == FreeOwners(m.freeExtents, p) + SegmentOwners(sources, p)
    ensures Retired(m, sources).segments == Unnamed(m.segments, IdsOf(sources))
    ensures Retired(m, sources).nextSegmentId == m.nextSegmentId && Retired(m, sources).fileLen == m.fileLen
    ensures Retired(m, sources).schema == m.schema
  {
    FreeAllOwners(m.(segments := Unnamed(m.segments, IdsOf(sources))), sources, p);
  }

  lemma SourceFreed(m: Manifest, sources: seq<SegmentEntry>, i: nat)
    requires i < |sources|
    ensures Freed(Retired(m, sources), sources[i].data)
    ensures sources[i].deletes.Some? ==> Freed(Retired(m, sources), sources[i].deletes.value)
  {
    forall p: nat | EntryOwners(sources[i], p) >= 1
      ensures FreeOwners(Retired(m, sources).freeExtents, p) >= 1
    {
      RetiredFree(m, sources, p);
      SegmentOwnersAt(sources, i, p);
    }
  }

  lemma RetiredAccounted(from: Manifest, m: Manifest, sources: seq<SegmentEntry>)
    requires Accounted(from, m) && Retirable(m, sources)
    ensures Accounted(from, Retired(m, sources))
  {
    var m2 := Retired(m, sources);
    RetiredFree(m, sources, 0);
    forall x | x in from.segments
      ensures Traced(x, m2)
    {
      assert Traced(x, m);
      forall p: nat
        ensures FreeOwners(m2.freeExtents, p) >= FreeOwners(m.freeExtents, p)
      {
        RetiredFree(m, sources, p);
      }
      forall y | y in m2.segments && y.segmentId == x.segmentId
        ensures WasThere(x, y, m, m2)
      {
        UnnamedIn(m.segments, IdsOf(sources), y);
      }
      if Named(m, x.segmentId) && !Named(m2, x.segmentId) {
        RetiredNamed(m, sources, x);
      }
      TracedStays(x, m, m2);
    }
  }

  /** An entry that a retirement takes out has its data freed by the source with its id. */
  lemma RetiredNamed(m: Manifest, sources: seq<SegmentEntry>, x: SegmentEntry)
    requires Retirable(m, sources) && Traced(x, m) && Named(m, x.segmentId) && !Named(Retired(m, sources), x.segmentId)
    ensures Freed(Retired(m, sources), x.data)
  {
    RetiredFree(m, sources, 0);
    var y :| y in m.segments && y.segmentId == x.segmentId;
    UnnamedIn(m.segments, IdsOf(sources), y);
    var i :| 0 <= i < |sources| && sources[i].segmentId == x.segmentId;
    assert StillHas(m, sources[i]);
    SourceFreed(m, sources, i);
  }

  // ---- Steps -----------------------------------------------------------------------

  lemma FreeInside(m: Manifest, current: Extent, loser: Extent)
    requires LayoutAhead(m, current, loser)
    ensures forall q: nat :: FreeOwners(m.freeExtents, q) >= 1 ==> q < m.fileLen
  {
    forall q: nat | FreeOwners(m.freeExtents, q) >= 1
      ensures q < m.fileLen
    {
      AheadAt(m, current, loser, q);
    }
  }

  lemma AllocationTracked(s: State, len: nat, align: nat, m: Manifest, e: Extent)
    requires Inv(s) && Tracked(s) && s.phase.Building? && align > 0
    requires Allocated(s.phase.work, len, align, s.phase.minActive, m, e)
    ensures Proper(m) && AllAccounted(s.pins, m) && m.nextSegmentId == s.phase.work.nextSegmentId
    ensures m.segments == s.phase.work.segments
  {
    var work := s.phase.work;
    FreeInside(work, s.cur.meta.manifest, s.Loser());
    AllocatedOwners(work, len, align, s.phase.minActive, m, e, 0);
    forall c | c in s.pins
      ensures Accounted(c.manifest, m)
    {
      AllocatedAccounted(c, work, len, align, s.phase.minActive, m, e);
    }
  }

  lemma AddSegmentTracked(s: State, step: Step, t: State)
    requires Inv(s) && Tracked(s) && step.AddSegment? && Takes(s, step, t)
    ensures Tracked(t)
  {
    AllocationTracked(s, |step.bytes|, SEGMENT_ALIGN, step.m, step.e);
    WithSegmentProper(step.m, step.e, step.meta, step.rows);
    forall c | c in s.pins
      ensures Accounted(c.manifest, t.phase.work)
    {
      WithSegmentAccounted(c.manifest, step.m, step.e, step.meta, step.rows);
    }
  }

  lemma SetDeletesTracked(s: State, step: Step, t: State)
    requires Inv(s) && Tracked(s) && step.SetDeletes? && Takes(s, step, t)
    ensures Tracked(t)
  {
    AllocationTracked(s, |step.bytes|, BUFFER_ALIGN, step.m, step.e);
    WithDeletesProper(step.m, step.index, step.e, step.count);
    forall c | c in s.pins
      ensures Accounted(c.manifest, t.phase.work)
    {
      WithDeletesAccounted(c.manifest, step.m, step.index, step.e, step.count);
    }
  }

  lemma DropSegmentTracked(s: State, step: Step, t: State)
    requires Tracked(s) && step.DropSegment? && Takes(s, step, t)
    ensures Tracked(t)
  {
    WithoutSegmentProper(s.phase.work, step.index);
    forall c | c in s.pins
      ensures Accounted(c.manifest, t.phase.work)
    {
      WithoutSegmentAccounted(c.manifest, s.phase.work, step.index);
    }
  }

  lemma RetireTracked(s: State, step: Step, t: State)
    requires Tracked(s) && step.Retire? && Takes(s, step, t) && StepSafe(s, step)
    ensures Tracked(t)
  {
    var work := s.phase.work;
    RetiredFree(work, step.sources, 0);
    UnnamedProper(work, IdsOf(step.sources), t.phase.work);
    forall c | c in s.pins
      ensures Accounted(c.manifest, t.phase.work)
    {
      RetiredAccounted(c.manifest, work, step.sources);
    }
  }

  lemma SameTracked(pins: set<Commit>, m: Manifest, m2: Manifest)
    requires AllAccounted(pins, m) && Proper(m)
    requires m2.segments == m.segments && m2.freeExtents == m.freeExtents && m2.nextSegmentId == m.nextSegmentId
    ensures AllAccounted(pins, m2) && Proper(m2)
  {
    forall c | c in pins
      ensures Accounted(c.manifest, m2)
    {
      AccountedSame(c.manifest, m, m2);
    }
  }

  lemma FreedTracked(pins: set<Commit>, m: Manifest, loser: Extent)
    requires AllAccounted(pins, m) && Proper(m)
    ensures AllAccounted(pins, m.Free(loser)) && Proper(m.Free(loser))
  {
    var m2 := m.Free(loser);
    forall p: nat
      ensures FreeOwners(m2.freeExtents, p) >= FreeOwners(m.freeExtents, p)
    {
      FreeOwnersOf(m, loser, p);
    }
    forall c, x | c in pins && x in c.manifest.segments
      ensures Traced(x, m2)
    {
      assert Accounted(c.manifest, m) && Traced(x, m);
      assert forall y :: y in m2.segments && y.segmentId == x.segmentId ==> WasThere(x, y, m, m2);
      TracedStays(x, m, m2);
    }
  }

  lemma AppendTracked(s: State, step: Step, t: State)
    requires Tracked(s) && step.AppendManifest? && Takes(s, step, t)
    ensures Tracked(t)
  {
    FreedTracked(s.pins, s.phase.work, s.Loser());
    SameTracked(s.pins, s.phase.work.Free(s.Loser()), t.phase.next.manifest);
  }

  lemma SyncMetaTracked(s: State, step: Step, t: State)
    requires Tracked(s) && step.SyncMeta? && Takes(s, step, t)
    ensures Tracked(t)
  {
    AccountedSelf(s.phase.next.manifest);
  }

  lemma CrashTracked(s: State, step: Step, t: State)
    requires Inv(s) && Tracked(s) && step.CrashAndReopen? && Takes(s, step, t)
    ensures Tracked(t)
  {
    CrashKeeps(s, step, t);
    AccountedSelf(t.cur.manifest);
  }

  /** Every safe step keeps pinned entries in sight. */
  lemma TrackedKeeps(s: State, step: Step, t: State)
    requires Inv(s) && Tracked(s) && Takes(s, step, t) && StepSafe(s, step)
    ensures Tracked(t)
  {
    match step
    case Begin(_, _, _) => SameTracked(s.pins, s.cur.manifest, t.phase.work);
    case AddSegment(_, _, _, _, _) => AddSegmentTracked(s, step, t);
    case SetDeletes(_, _, _, _, _) => SetDeletesTracked(s, step, t);
    case DropSegment(_) => DropSegmentTracked(s, step, t);
    case Retire(_, _) => RetireTracked(s, step, t);
    case WriteSchema(_) => SameTracked(s.pins, s.phase.work, t.phase.work);
    case AppendManifest(_) => AppendTracked(s, step, t);
    case SyncManifest =>
    case WriteMeta =>
    case SyncMeta => SyncMetaTracked(s, step, t);
    case Drop(_) =>
    case CrashAndReopen(_) => CrashTracked(s, step, t);
  }

  // ---- Exactly when ----------------------------------------------------------------

  lemma TwiceNamed(from: Manifest, m: Manifest, sources: seq<SegmentEntry>, i: nat, j: nat) returns (p: nat)
    requires Proper(from) && i < j < |sources| && sources[i] == sources[j] && sources[i] in from.segments
    ensures Owners(Retired(m, sources), p) >= 2
  {
    p := sources[i].data.offset;
    RetiredFree(m, sources, p);
    SegmentOwnersAt(sources, j, p);
    SegmentOwnersAt(sources[..j], i, p);
    assert sources[..j][i] == sources[i];
  }

  lemma GoneSource(from: Manifest, m: Manifest, sources: seq<SegmentEntry>, i: nat) returns (p: nat)
    requires Proper(from) && Accounted(from, m) && i < |sources| && sources[i] in from.segments && !StillHas(m, sources[i])
    ensures Owners(Retired(m, sources), p) >= 2
  {
    var x := sources[i];
    assert Traced(x, m) && Solid(x);
    if Named(m, x.segmentId) {
      var y :| y in m.segments && y.segmentId == x.segmentId;
      p := x.deletes.value.offset;
      assert x.deletes.value.Holds(p);
    } else {
      p := x.data.offset;
      assert x.data.Holds(p);
    }
    RetiredFree(m, sources, p);
    SegmentOwnersAt(sources, i, p);
  }

  lemma UnsafeRetirement(s: State, step: Step, t: State) returns (p: nat)
    requires Tracked(s) && step.Retire? && Takes(s, step, t) && !StepSafe(s, step)
    ensures t.phase.Building? && Owners(t.phase.work, p) >= 2
  {
    assert Proper(step.from.manifest) && Accounted(step.from.manifest, s.phase.work);
    p := NotRetirable(step.from.manifest, s.phase.work, step.sources);
  }

  lemma NotRetirable(from: Manifest, m: Manifest, sources: seq<SegmentEntry>) returns (p: nat)
    requires Proper(from) && Accounted(from, m) && !Retirable(m, sources)
    requires forall i :: 0 <= i < |sources| ==> Find(from.segments, sources[i].segmentId) == Some(sources[i])
    ensures Owners(Retired(m, sources), p) >= 2
  {
    forall i | 0 <= i < |sources|
      ensures sources[i] in from.segments
    {
      assert Find(from.segments, sources[i].segmentId) == Some(sources[i]);
    }
    if i, j :| 0 <= i < j < |sources| && sources[i].segmentId == sources[j].segmentId {
      p := TwiceNamed(from, m, sources, i, j);
    } else {
      var i :| 0 <= i < |sources| && !StillHas(m, sources[i]);
      p := GoneSource(from, m, sources, i);
    }
  }

  ghost predicate TwoOwners(t: State, p: nat) {
    t.phase.Building? && Owners(t.phase.work, p) >= 2
  }

  lemma TwoOwnersBreak(t: State, p: nat)
    requires TwoOwners(t, p)
    ensures !Inv(t)
  {
    if LayoutAhead(t.phase.work, t.cur.meta.manifest, t.Loser()) {
      AheadAt(t.phase.work, t.cur.meta.manifest, t.Loser(), p);
    }
  }

  /** A step keeps the invariant iff it passes its test, and one that fails it gives a byte two owners. */
  lemma StepKeepsIff(s: State, step: Step, t: State)
    requires Inv(s) && Tracked(s) && Takes(s, step, t)
    ensures Inv(t) <==> StepSafe(s, step)
    ensures StepSafe(s, step) <==> !exists p: nat :: TwoOwners(t, p)
  {
    if StepSafe(s, step) {
      StepKeeps(s, step, t);
      forall p: nat
        ensures !TwoOwners(t, p)
      {
        if TwoOwners(t, p) {
          TwoOwnersBreak(t, p);
        }
      }
    } else {
      var p: nat;
      if step.Retire? {
        p := UnsafeRetirement(s, step, t);
      } else {
        AllocationKeepsIff(s, step, t);
        p :| Overwritten(s, step, t, p);
      }
      assert TwoOwners(t, p);
      TwoOwnersBreak(t, p);
    }
  }

  lemma CreatedBare(header: seq<Cell>, blob: seq<Cell>, p0: Room, p1: Room)
    requires |header| == HEADER_SIZE
    ensures var s := Created(header, blob, p0, p1);
            s.pins == {s.cur} && s.phase.Idle? && s.cur.manifest.segments == []
  {
    SeededShape(header, blob, p0, p1);
  }

  lemma BareTracked(s: State)
    requires s.pins == {s.cur} && s.phase.Idle? && s.cur.manifest.segments == []
    ensures Tracked(s)
  {
  }

  lemma FreshTracked(s: State)
    requires Fresh(s)
    ensures Tracked(s)
  {
    var header: seq<Cell>, blob: seq<Cell>, p0: Room, p1: Room :|
      |header| == HEADER_SIZE && s == Created(header, blob, p0, p1);
    CreatedBare(header, blob, p0, p1);
    BareTracked(s);
  }

  lemma {:induction false} RunTracked(states: seq<State>, steps: seq<Step>, i: nat)
    requires Run(states, steps) && i < |states| && SafeUntil(states, steps, i)
    ensures Inv(states[i]) && Tracked(states[i])
  {
    if i == 0 {
      FreshInv(states[0]);
      FreshTracked(states[0]);
    } else {
      RunTracked(states, steps, i - 1);
      StepKeeps(states[i - 1], steps[i - 1], states[i]);
      TrackedKeeps(states[i - 1], steps[i - 1], states[i]);
    }
  }

  /**
   * Over a whole run: the invariant holds all the way iff every step passed its
   * test, and the first that does not gives a byte two owners.
   */
  lemma RunKeepsIff(states: seq<State>, steps: seq<Step>, i: nat)
    requires Run(states, steps) && i < |states|
    ensures (forall k :: 0 <= k <= i ==> Inv(states[k])) <==> SafeUntil(states, steps, i)
    ensures SafeUntil(states, steps, i) <==> forall k, p: nat :: 0 <= k <= i ==> !TwoOwners(states[k], p)
  {
    if SafeUntil(states, steps, i) {
      forall k | 0 <= k <= i
        ensures Inv(states[k])
      {
        RunInv(states, steps, k);
      }
      forall k, p: nat | 0 <= k <= i
        ensures !TwoOwners(states[k], p)
      {
        if TwoOwners(states[k], p) {
          TwoOwnersBreak(states[k], p);
        }
      }
    } else {
      var k := FirstUnsafe(states, steps, i);
      RunTracked(states, steps, k);
      StepKeepsIff(states[k], steps[k], states[k + 1]);
    }
  }

  lemma {:induction false} FirstUnsafe(states: seq<State>, steps: seq<Step>, i: nat) returns (k: nat)
    requires |states| == |steps| + 1 && i < |states| && !SafeUntil(states, steps, i)
    ensures k < i && SafeUntil(states, steps, k) && !StepSafe(states[k], steps[k])
  {
    if SafeUntil(states, steps, i - 1) {
      k := i - 1;
    } else {
      k := FirstUnsafe(states, steps, i - 1);
    }
  }

  // ---- What a safe retirement may still lose -----------------------------------------

  lemma {:induction false} UnnamedSame(segments: seq<SegmentEntry>, i: nat, x: SegmentEntry, ids: set<nat>)
    requires i < |segments| && segments[i].segmentId in ids && x.segmentId in ids
    ensures Unnamed(segments[i := x], ids) == Unnamed(segments, ids)
  {
    var n, changed := |segments| - 1, segments[i := x];
    if i < n {
      assert changed[..n] == segments[..n][i := x] && changed[n] == segments[n];
      UnnamedSame(segments[..n], i, x, ids);
    } else {
      assert changed[..n] == segments[..n];
    }
  }

  /**
   * A vector stored for a segment between a rewrite's read and its commit, where
   * the source had none, is owned by nothing afterwards: it is neither in the table
   * nor free.
   */
  lemma StoredMeanwhileIsLost(m: Manifest, current: Extent, loser: Extent, sources: seq<SegmentEntry>, k: nat, i: nat, p: nat)
    requires LayoutAhead(m, current, loser) && Proper(m) && Retirable(m, sources)
    requires k < |sources| && i < |m.segments| && m.segments[i].segmentId == sources[k].segmentId
    requires sources[k].deletes.None? && m.segments[i].deletes.Some? && m.segments[i].deletes.value.Holds(p)
    ensures Owners(m, p) == 1 && Owners(Retired(m, sources), p) == 0
  {
    var y := m.segments[i];
    var bare := m.(segments := m.segments[i := y.(deletes := None)]);
    AheadAt(m, current, loser, p);
    SegmentUpdateOwners(m.segments, i, y.(deletes := None), p);
    BareRetirable(m, sources, k, i, bare);
    RetiredOwners(bare, sources, p);
    assert sources[k] in sources;
    UnnamedSame(m.segments, i, y.(deletes := None), IdsOf(sources));
    RetiredFree(m, sources, p);
    SegmentOwnersAt(m.segments, i, p);
  }

  lemma BareRetirable(m: Manifest, sources: seq<SegmentEntry>, k: nat, i: nat, bare: Manifest)
    requires Proper(m) && Retirable(m, sources) && k < |sources| && i < |m.segments|
    requires m.segments[i].segmentId == sources[k].segmentId && sources[k].deletes.None?
    requires bare == m.(segments := m.segments[i := m.segments[i].(deletes := None)])
    ensures Retirable(bare, sources)
  {
    forall j | 0 <= j < |sources|
      ensures StillHas(bare, sources[j])
    {
      assert StillHas(m, sources[j]);
      var y :| y in m.segments && y.segmentId == sources[j].segmentId && y.data == sources[j].data
        && (sources[j].deletes.Some? ==> y.deletes == sources[j].deletes);
      var n :| 0 <= n < |m.segments| && m.segments[n] == y;
      assert bare.segments[n] in bare.segments;
      if n == i {
        assert j == k || j < k || k < j;
      }
    }
  }

  // ---- When nothing else commits in between ------------------------------------------

  /** A rewrite of distinct entries of the commit it started from, with no other commit in between, is safe. */
  lemma {:induction false} UncontendedIsSafe(states: seq<State>, steps: seq<Step>, sources: seq<SegmentEntry>)
    requires Follows(states, steps) && steps != [] && steps[0].Begin?
    requires forall k :: 0 < k < |steps| ==> steps[k].AddSegment? || steps[k].WriteSchema?
    requires forall i :: 0 <= i < |sources| ==> sources[i] in states[0].cur.manifest.segments
    requires forall i, j :: 0 <= i < j < |sources| ==> sources[i].segmentId != sources[j].segmentId
    ensures states[|steps|].phase.Building? && Retirable(states[|steps|].phase.work, sources)
  {
    OnlyAdds(states, steps, |steps|);
    var work := states[|steps|].phase.work;
    forall i | 0 <= i < |sources|
      ensures StillHas(work, sources[i])
    {
      assert sources[i] in work.segments;
    }
  }

  lemma {:induction false} OnlyAdds(states: seq<State>, steps: seq<Step>, n: nat)
    requires Follows(states, steps) && 0 < n <= |steps| && steps[0].Begin?
    requires forall k :: 0 < k < |steps| ==> steps[k].AddSegment? || steps[k].WriteSchema?
    ensures states[n].phase.Building?
    ensures states[0].cur.manifest.segments <= states[n].phase.work.segments
  {
    assert Takes(states[n - 1], steps[n - 1], states[n]);
    if n > 1 {
      OnlyAdds(states, steps, n - 1);
      if steps[n - 1].AddSegment? {
        var s, step := states[n - 1], steps[n - 1];
        AllocatedSegments(s.phase.work, |step.bytes|, s.phase.minActive, step.m, step.e);
      }
    }
  }

  lemma AllocatedSegments(m: Manifest, len: nat, min: nat, m2: Manifest, e: Extent)
    requires Allocated(m, len, SEGMENT_ALIGN, min, m2, e)
    ensures m2.segments == m.segments
  {
  }
}
