/** The file layer itself: the object whose methods take the protocol's steps. */
module TableFiles {
  import opened Layout
  import opened Disks
  import opened Allocator
  import opened Store
  import opened StoreProof
  import opened Retiring

  /** The table's file handle. `passed` collects every state the disk passes through. */
  class FileIo {
    var image: seq<Cell>
    ghost var durable: seq<Cell>
    ghost var pending: seq<Write>
    ghost var passed: set<Disk>

    ghost function State(): Disk
      reads this
    {
      Disk(image, durable, pending)
    }

    constructor ()
      ensures State() == Disk([], [], []) && passed == {}
    {
      image, durable, pending, passed := [], [], [], {};
    }

    /** Grow the file; a shorter length than the present one changes nothing. */
    method SetLen(len: nat)
      modifies this
      ensures State() == old(State()).Extended(len)
      ensures passed == old(passed) + {State()}
    {
      if len > |image| {
        image := image + seq(len - |image|, _ => Zero);
      }
      passed := passed + {State()};
    }

    method WriteAt(at: nat, cells: seq<Cell>)
      requires at + |cells| <= |image|
      modifies this
      ensures State() == old(State()).Put(at, cells)
      ensures passed == old(passed) + {State()}
    {
      image := image[..at] + cells + image[at + |cells|..];
      pending := pending + [Write(at, cells)];
      passed := passed + {State()};
    }

    /** The cells go where the file ends. */
    method Append(cells: seq<Cell>) returns (at: nat)
      modifies this
      ensures at == |old(image)| && State() == SchemaStored(old(State()), cells)
      ensures passed == old(passed) + {State()}
    {
      at := |image|;
      image := image + cells;
      pending := pending + [Write(at, cells)];
      passed := passed + {State()};
    }

    method SyncData()
      modifies this
      ensures State() == old(State()).Synced()
      ensures passed == old(passed) + {State()}
    {
      durable, pending := image, [];
      passed := passed + {State()};
    }
  }

  /** Every crash at `d` reopens to one of two manifests. */
  ghost predicate Recovers(d: Disk, a: Manifest, b: Manifest) {
    forall img :: d.Survives(img) ==>
      ReadCommitted(img).Some? && (ReadCommitted(img).value.manifest == a || ReadCommitted(img).value.manifest == b)
  }

  /** Every disk state passed through since `before` reopens to `a` or to `b`. */
  ghost predicate AllRecover(passed: set<Disk>, before: set<Disk>, a: Manifest, b: Manifest) {
    forall d :: d in passed && d !in before ==> Recovers(d, a, b)
  }

  lemma AllRecoverMore(passed: set<Disk>, before: set<Disk>, more: set<Disk>, a: Manifest, b: Manifest)
    requires passed <= before + more && AllRecover(more, {}, a, b)
    ensures AllRecover(passed, before, a, b)
  {
  }

  /** A crash before an unsynced write leaves nothing a crash after it could not. */
  lemma EarlierRecovers(d: Disk, len: nat, at: nat, cells: seq<Cell>, a: Manifest, b: Manifest)
    requires d.Wf() && at + |cells| <= |d.Extended(len).image|
    requires Recovers(d.Extended(len).Put(at, cells), a, b)
    ensures Recovers(d.Extended(len), a, b)
  {
    var g := d.Extended(len);
    ExtendedWf(d, len);
    var h := g.Put(at, cells);
    PutWf(g, at, cells);
    forall img | g.Survives(img)
      ensures h.Survives(img)
    {
      forall p: nat | p < |img|
        ensures h.MayHold(p, img[p])
      {
        assert g.MayHold(p, img[p]);
        if w :| w in g.pending && w.Covers(p) && w.cells[p - w.at] == img[p] {
          assert w in h.pending;
        }
      }
    }
  }

  lemma InvRecovers(s: State)
    requires Inv(s)
    ensures Recovers(s.disk, s.cur.manifest, if s.phase.Flipping? then s.phase.next.manifest else s.cur.manifest)
  {
    forall img | s.disk.Survives(img)
      ensures ReadCommitted(img).Some?
      ensures ReadCommitted(img).value.manifest == s.cur.manifest
           || (s.phase.Flipping? && ReadCommitted(img).value.manifest == s.phase.next.manifest)
    {
      RecoversAcknowledgedOrInFlight(s, img);
    }
  }

  /** The four states a commit passes through, from the appended manifest to the flipped slot. */
  ghost function CommitStates(s: State, room: Room): (State, State, State, State)
    requires s.phase.Building? && DATA_START <= |s.disk.image|
  {
    var (d, m, e) := Append(s.disk, s.phase.work, s.Loser(), room);
    var c := Store.Commit(NextMeta(s.cur.meta, m, e, |d.image|), m, d.image);
    AppendGrows(s.disk, s.phase.work, s.Loser(), room);
    var s1 := s.(disk := d, phase := Appended(c));
    var s2 := s1.(disk := d.Synced(), phase := Sealed(c));
    var s3 := s2.(disk := s2.disk.Put(s.slot.Other().Offset(), MetaPageCells(c.meta)), phase := Flipping(c));
    var s4 := State(s3.disk.Synced(), s.slot.Other(), c, Some(s.cur), s.pins + {c}, Idle);
    (s1, s2, s3, s4)
  }

  lemma AppendGrows(d: Disk, work: Manifest, loser: Extent, room: Room)
    ensures |Append(d, work, loser, room).0.image| >= |d.image|
  {
  }

  /** Each of them keeps the invariant, and a crash in it finds the old commit or the new one. */
  lemma CommitChain(s: State, room: Room)
    requires Inv(s) && s.phase.Building?
    ensures var (s1, s2, s3, s4) := CommitStates(s, room);
            && Inv(s4)
            && Recovers(s.disk.Extended(s1.phase.next.meta.manifest.End()), s.cur.manifest, s.cur.manifest)
            && Recovers(s1.disk, s.cur.manifest, s.cur.manifest)
            && Recovers(s2.disk, s.cur.manifest, s.cur.manifest)
            && Recovers(s3.disk, s.cur.manifest, s4.cur.manifest)
            && Recovers(s4.disk, s4.cur.manifest, s4.cur.manifest)
  {
    var (s1, s2, s3, s4) := CommitStates(s, room);
    AppendManifestKeeps(s, AppendManifest(room), s1);
    InvRecovers(s1);
    SyncManifestKeeps(s1, SyncManifest, s2);
    InvRecovers(s2);
    WriteMetaKeeps(s2, WriteMeta, s3);
    InvRecovers(s3);
    SyncMetaKeeps(s3, SyncMeta, s4);
    InvRecovers(s4);
    var c := s1.phase.next;
    EarlierRecovers(s.disk, c.meta.manifest.End(), c.meta.manifest.offset,
                    Encode(ManifestFrame(c.manifest, room.payload)), s.cur.manifest, s.cur.manifest);
  }

  lemma CommitTracked(s: State, room: Room)
    requires Inv(s) && Tracked(s) && s.phase.Building?
    ensures Tracked(CommitStates(s, room).3)
  {
    var (s1, s2, s3, s4) := CommitStates(s, room);
    AppendTracked(s, AppendManifest(room), s1);
    SyncMetaTracked(s3, SyncMeta, s4);
  }

  /** A step leaves a sound state iff it passes its test. */
  lemma Lands(s: State, step: Step, t: State)
    requires Inv(s) && Tracked(s) && Takes(s, step, t)
    ensures Inv(t) <==> StepSafe(s, step)
    ensures StepSafe(s, step) ==> Tracked(t)
  {
    StepKeepsIff(s, step, t);
    if StepSafe(s, step) {
      TrackedKeeps(s, step, t);
    }
  }

  lemma FiveRecover(d0: Disk, d1: Disk, d2: Disk, d3: Disk, d4: Disk, a: Manifest, b: Manifest)
    requires Recovers(d0, a, a) && Recovers(d1, a, a) && Recovers(d2, a, a) && Recovers(d3, a, b) && Recovers(d4, b, b)
    ensures AllRecover({d0, d1, d2, d3, d4}, {}, a, b)
  {
  }

  /** The disk states of a commit, as the file operations produce them. */
  lemma CommitDisks(s: State, m: Manifest, room: Room)
    requires s.phase.Building? && s.phase.work.txnId == s.cur.meta.txnId + 1 && DATA_START <= |s.disk.image|
    requires m == s.phase.work.(txnId := s.cur.meta.txnId + 1).Free(s.Loser())
    ensures var (d, m2, e) := Append(s.disk, m, EMPTY, room);
            var page := NextMeta(s.cur.meta, m2, e, |d.image|);
            && DATA_START <= |d.image|
            && var f := d.Synced().Put(s.slot.Other().Offset(), MetaPageCells(page));
               && CommitStates(s, room).3 ==
                    State(f.Synced(), s.slot.Other(), Store.Commit(page, m2, d.image), Some(s.cur),
                          s.pins + {Store.Commit(page, m2, d.image)}, Idle)
               && CommitPasses(s, room) == {s.disk.Extended(e.End()), d, d.Synced(), f, f.Synced()}
  {
    assert m.Free(EMPTY) == s.phase.work.Free(s.Loser());
    AppendGrows(s.disk, s.phase.work, s.Loser(), room);
  }

  /** Every disk state on the way through a commit. */
  ghost function CommitPasses(s: State, room: Room): set<Disk>
    requires s.phase.Building? && DATA_START <= |s.disk.image|
  {
    var (s1, s2, s3, s4) := CommitStates(s, room);
    {s.disk.Extended(s1.phase.next.meta.manifest.End()), s1.disk, s2.disk, s3.disk, s4.disk}
  }

  lemma CommitRecovers(s: State, room: Room, passed: set<Disk>, before: set<Disk>)
    requires Inv(s) && s.phase.Building? && passed <= before + CommitPasses(s, room)
    ensures Inv(CommitStates(s, room).3)
    ensures AllRecover(passed, before, s.cur.manifest, CommitStates(s, room).3.cur.manifest)
  {
    CommitChain(s, room);
    var (s1, s2, s3, s4) := CommitStates(s, room);
    FiveRecover(s.disk.Extended(s1.phase.next.meta.manifest.End()), s1.disk, s2.disk, s3.disk, s4.disk,
                s.cur.manifest, s4.cur.manifest);
    AllRecoverMore(passed, before, CommitPasses(s, room), s.cur.manifest, s4.cur.manifest);
  }

  /**
   * What a commit publishes: the manifest that was built, under the next txn,
   * with the overwritten slot's manifest freed and the old commit as fallback.
   */
  lemma CommitPublishes(s: State, room: Room)
    requires Inv(s) && s.phase.Building?
    ensures var t := CommitStates(s, room).3;
            && t.phase.Idle? && t.slot == s.slot.Other() && t.fallback == Some(s.cur)
            && t.pins == s.pins + {t.cur}
            && t.cur.meta.txnId == s.cur.meta.txnId + 1
            && t.cur.meta.checkpointLsn == s.phase.work.checkpointLsn
            && t.cur.manifest == s.phase.work.Free(s.Loser()).(fileLen := t.cur.manifest.fileLen)
            && ReadCommitted(t.disk.image) == Some(Recovered(t.cur.meta, t.slot, t.cur.manifest, s.cur.meta.manifest))
  {
    CommitChain(s, room);
    var t := CommitStates(s, room).3;
    RecoversAcknowledgedOrInFlight(t, t.disk.image);
  }

  /**
   * `ReadCommitted` as a search: the slots that decode, larger txn first, until
   * one's manifest decodes too.
   */
  method FindCommitted(img: seq<Cell>) returns (r: Option<Recovered>)
    ensures r == ReadCommitted(img)
  {
    var slots: seq<(MetaSlot, MetaPage)> := [];
    for k := 0 to 2
      invariant slots ==
        (if k >= 1 && ReadMeta(img, MetaSlot.A).Some? then [(MetaSlot.A, ReadMeta(img, MetaSlot.A).value)] else [])
        + (if k >= 2 && ReadMeta(img, MetaSlot.B).Some? then [(MetaSlot.B, ReadMeta(img, MetaSlot.B).value)] else [])
    {
      var slot := if k == 0 then MetaSlot.A else MetaSlot.B;
      var meta := ReadMeta(img, slot);
      if meta.Some? {
        slots := slots + [(slot, meta.value)];
      }
    }
    if |slots| == 2 && slots[1].1.txnId > slots[0].1.txnId {
      slots := [slots[1], slots[0]];
    }
    for index := 0 to |slots|
      invariant forall j :: 0 <= j < index ==> ReadManifest(img, slots[j].1).None?
    {
      var (slot, meta) := slots[index];
      var m := ReadManifest(img, meta);
      if m.Some? {
        var loser := if |slots| == 1 then EMPTY else slots[1 - index].1.manifest;
        return Some(Recovered(meta, slot, m.value, loser));
      }
    }
    assert |slots| >= 1 ==> ReadManifest(img, slots[0].1).None?;
    assert |slots| >= 2 ==> ReadManifest(img, slots[1].1).None?;
    r := None;
  }

  class TableFile {
    const io: FileIo
    /** Serialized length of a manifest; the format leaves it to a library. */
    const payloadLen: Manifest -> nat
    var meta: MetaPage
    var slot: MetaSlot
    var manifest: Manifest
    var nextSlot: MetaSlot
    var nextSlotManifest: Extent
    ghost var store: State

    ghost predicate Valid()
      reads this, io
    {
      Inv(store) && Tracked(store) && Tied()
    }

    /** The handle's fields say what the protocol's state says. */
    ghost predicate Tied()
      reads this, io
    {
      && store.disk == io.State()
      && meta == store.cur.meta && manifest == store.cur.manifest && slot == store.slot
      && nextSlot == store.slot.Other() && nextSlotManifest == store.Loser()
    }

    /** Open a file a crash may have left behind. Fails only when no commit can be read. */
    constructor Open(file: FileIo, payloadLen: Manifest -> nat, ghost before: State)
      requires Inv(before) && Tracked(before) && before.disk.Survives(file.image) && file.State() == Disk(file.image, file.image, [])
      ensures Valid() && io == file
      ensures ReadCommitted(file.image).Some?
      ensures store == Reopen(before, file.image, ReadCommitted(file.image).value)
    {
      RecoversAcknowledgedOrInFlight(before, file.image);
      var found := FindCommitted(file.image);
      var r := found.value;
      io := file;
      this.payloadLen := payloadLen;
      meta, slot, manifest := r.meta, r.slot, r.manifest;
      nextSlot, nextSlotManifest := r.slot.Other(), r.loser;
      store := Reopen(before, file.image, r);
      CrashKeeps(before, CrashAndReopen(file.image), Reopen(before, file.image, r));
      CrashTracked(before, CrashAndReopen(file.image), Reopen(before, file.image, r));
    }

    /** Begin a commit: clone the manifest under the next txn. */
    method Begin(minActive: nat, checkpointLsn: nat, nextSeqno: nat) returns (work: Manifest)
      requires Valid() && (store.phase.Idle? || store.phase.Building?)
      requires MinActiveOf(store.pins, minActive)
      modifies this`store
      ensures Valid() && store.phase == Building(work, minActive, [], [])
      ensures Takes(old(store), Step.Begin(minActive, checkpointLsn, nextSeqno), store)
      ensures work == manifest.(txnId := meta.txnId + 1, checkpointLsn := checkpointLsn, nextSeqno := nextSeqno)
    {
      work := manifest.(txnId := meta.txnId + 1, checkpointLsn := checkpointLsn, nextSeqno := nextSeqno);
      ghost var t := store.(phase := Building(work, minActive, [], []));
      BeginKeeps(store, Step.Begin(minActive, checkpointLsn, nextSeqno), t);
      TrackedKeeps(store, Step.Begin(minActive, checkpointLsn, nextSeqno), t);
      store := t;
    }

    /** Allocate, then store: the disk becomes `Stored` at the extent handed out. */
    method WriteAllocated(work: Manifest, bytes: seq<Cell>, align: nat, minActive: nat)
      returns (m: Manifest, e: Extent)
      requires align > 0
      modifies io
      ensures Allocated(work, |bytes|, align, minActive, m, e) && e.len == |bytes|
      ensures io.State() == Stored(old(io.State()), e, bytes)
      ensures io.passed <=
        old(io.passed) + (if e.IsEmpty() then {} else {old(io.State()).Extended(e.End()), io.State()})
    {
      m, e := Allocate(work, |bytes|, align, minActive);
      if e.IsEmpty() {
        return;
      }
      if e.End() > |io.image| {
        io.SetLen(e.End());
      }
      io.WriteAt(e.offset, bytes);
    }

    /** Take an `AddSegment` step; it keeps the file valid iff the extent misses the schema. */
    method WriteSegment(work: Manifest, bytes: seq<Cell>, metaOffset: nat, metaLen: nat, rows: nat, minActive: nat)
      returns (m2: Manifest, ghost step: Step)
      requires Valid() && store.phase.Building? && store.phase.work == work && store.phase.minActive == minActive && bytes != []
      modifies this`store, io
      ensures Tied() && (Valid() <==> Misses(work, |bytes|, SEGMENT_ALIGN, minActive))
      ensures store.phase.Building? && store.phase.work == m2 && store.phase.minActive == minActive
      ensures step.AddSegment? && step.bytes == bytes && step.rows == rows
      ensures step.meta == Extent(step.e.offset + metaOffset, metaLen)
      ensures Takes(old(store), step, store)
      ensures Inv(store) ==> AllRecover(io.passed, old(io.passed), manifest, manifest)
    {
      ghost var d := io.State();
      var m, e := WriteAllocated(work, bytes, SEGMENT_ALIGN, minActive);
      m2 := WithSegment(m, e, Extent(e.offset + metaOffset, metaLen), rows);
      ghost var t := store.(disk := io.State(),
        phase := store.phase.(work := m2, written := store.phase.written + [Write(e.offset, bytes)]));
      step := AddSegment(bytes, Extent(e.offset + metaOffset, metaLen), rows, m, e);
      Lands(store, step, t);
      store := t;
      if Inv(t) && !e.IsEmpty() {
        InvRecovers(t);
        EarlierRecovers(d, e.End(), e.offset, bytes, manifest, manifest);
      }
    }

    /** Take a `WriteSchema` step. */
    method WriteSchema(work: Manifest, blob: seq<Cell>) returns (m2: Manifest)
      requires Valid() && store.phase.Building? && store.phase.work == work && store.phase.ahead == [] && blob != []
      modifies this`store, io
      ensures Valid()
      ensures store.phase == old(store).phase.(work := m2, ahead := blob)
      ensures m2 == work.(schema := Extent(|old(io.image)|, |blob|))
      ensures Takes(old(store), Step.WriteSchema(blob), store)
      ensures AllRecover(io.passed, old(io.passed), manifest, manifest)
    {
      var at := io.Append(blob);
      m2 := work.(schema := Extent(at, |blob|));
      ghost var t := store.(disk := io.State(), phase := store.phase.(work := m2, ahead := blob));
      WriteSchemaKeeps(store, Step.WriteSchema(blob), t);
      TrackedKeeps(store, Step.WriteSchema(blob), t);
      store := t;
      InvRecovers(t);
    }

    /** Store a new delete vector for segment `index`, freeing the one it replaces. */
    method WriteDeletes(work: Manifest, index: nat, bytes: seq<Cell>, count: nat, minActive: nat)
      returns (m2: Manifest, ghost step: Step)
      requires Valid() && store.phase.Building? && store.phase.work == work && store.phase.minActive == minActive
      requires index < |work.segments| && bytes != []
      modifies this`store, io
      ensures Tied() && (Valid() <==> Misses(work, |bytes|, BUFFER_ALIGN, minActive))
      ensures store.phase.Building? && store.phase.work == m2 && store.phase.minActive == minActive
      ensures step.SetDeletes? && step.index == index && step.bytes == bytes && step.count == count
      ensures Takes(old(store), step, store)
      ensures Inv(store) ==> AllRecover(io.passed, old(io.passed), manifest, manifest)
    {
      ghost var d, m, e := io.State(), work, EMPTY;
      m2, m, e := PutDeletes(work, index, bytes, count, minActive);
      ghost var t := store.(disk := io.State(),
        phase := store.phase.(work := m2, written := store.phase.written + [Write(e.offset, bytes)]));
      step := SetDeletes(index, bytes, count, m, e);
      Lands(store, step, t);
      store := t;
      if Inv(t) && !e.IsEmpty() {
        InvRecovers(t);
        EarlierRecovers(d, e.End(), e.offset, bytes, manifest, manifest);
      }
    }

    /** Write a vector's bytes and point the segment's entry at them, freeing the range it pointed at before. */
    method PutDeletes(work: Manifest, index: nat, bytes: seq<Cell>, count: nat, minActive: nat)
      returns (m2: Manifest, ghost m: Manifest, ghost e: Extent)
      requires index < |work.segments|
      modifies io
      ensures Allocated(work, |bytes|, BUFFER_ALIGN, minActive, m, e) && e.len == |bytes|
      ensures m.segments == work.segments && m2 == WithDeletes(m, index, e, count)
      ensures io.State() == Stored(old(io.State()), e, bytes)
      ensures io.passed <=
        old(io.passed) + (if e.IsEmpty() then {} else {old(io.State()).Extended(e.End()), io.State()})
    {
      var grown, at := WriteAllocated(work, bytes, BUFFER_ALIGN, minActive);
      var previous := grown.segments[index].deletes;
      m2 := grown;
      if previous.Some? {
        m2 := m2.Free(previous.value);
      }
      m2 := m2.(segments := m2.segments[index := m2.segments[index].(deletes := Some(at), deletedCount := count)]);
      m, e := grown, at;
    }

    /** Take a `DropSegment` step. */
    method RetireSegment(work: Manifest, index: nat) returns (m2: Manifest)
      requires Valid() && store.phase.Building? && store.phase.work == work
      requires index < |work.segments|
      modifies this`store
      ensures Valid()
      ensures store.phase == old(store).phase.(work := m2)
      ensures Takes(old(store), DropSegment(index), store)
    {
      var entry := work.segments[index];
      m2 := work.(segments := work.segments[..index] + work.segments[index + 1..]).Free(entry.data);
      if entry.deletes.Some? {
        m2 := m2.Free(entry.deletes.value);
      }
      ghost var t := store.(phase := store.phase.(work := m2));
      DropSegmentKeeps(store, DropSegment(index), t);
      DropSegmentTracked(store, DropSegment(index), t);
      store := t;
    }

    /**
     * Take a `Retire` step: out with the entries the sources name, then free what
     * each source says. It keeps the invariant iff the sources are distinct and
     * still are what the build has.
     */
    method RetireSources(work: Manifest, ghost from: Store.Commit, sources: seq<SegmentEntry>) returns (m2: Manifest)
      requires Valid() && store.phase.Building? && store.phase.work == work && from in store.pins
      requires forall i :: 0 <= i < |sources| ==> Find(from.manifest.segments, sources[i].segmentId) == Some(sources[i])
      modifies this`store
      ensures Tied() && (Valid() <==> Retirable(work, sources))
      ensures store.phase == old(store).phase.(work := m2)
      ensures Takes(old(store), Retire(from, sources), store)
    {
      m2 := FreeSources(work, sources);
      ghost var step, t := Retire(from, sources), store.(phase := store.phase.(work := m2));
      Lands(store, step, t);
      store := t;
    }

    /** The entries that stay, then one free range after another. */
    method FreeSources(work: Manifest, sources: seq<SegmentEntry>) returns (m2: Manifest)
      ensures m2 == Retired(work, sources)
    {
      var kept := Retain(work.segments, sources);
      m2 := work.(segments := kept);
      for i := 0 to |sources|
        invariant m2 == FreeAll(work.(segments := kept), sources[..i])
      {
        assert sources[..i + 1][..i] == sources[..i];
        m2 := m2.Free(sources[i].data);
        if sources[i].deletes.Some? {
          m2 := m2.Free(sources[i].deletes.value);
        }
      }
      assert sources[..|sources|] == sources;
    }

    /** The entries no source names. */
    method Retain(segments: seq<SegmentEntry>, sources: seq<SegmentEntry>) returns (kept: seq<SegmentEntry>)
      ensures kept == Unnamed(segments, IdsOf(sources))
    {
      kept := [];
      for i := 0 to |segments|
        invariant kept == Unnamed(segments[..i], IdsOf(sources))
      {
        assert segments[..i + 1][..i] == segments[..i];
        var named := false;
        for k := 0 to |sources|
          invariant named <==> exists j :: 0 <= j < k && sources[j].segmentId == segments[i].segmentId
        {
          named := named || sources[k].segmentId == segments[i].segmentId;
        }
        if !named {
          kept := kept + [segments[i]];
        }
      }
      assert segments[..|segments|] == segments;
    }

    /**
     * Place the manifest behind everything, in a slot sized by a first encoding
     * with slack to spare, so that the manifest can record where the slot ends.
     * Nothing is written, and `ok` is false, when the final one needs more.
     */
    method WriteManifest(m: Manifest) returns (ok: bool, m2: Manifest, e: Extent, ghost room: Room)
      modifies io
      ensures !ok ==> io.State() == old(io.State()) && io.passed == old(io.passed)
      ensures ok ==>
        && (io.State(), m2, e) == Append(old(io.State()), m, EMPTY, room)
        && io.passed <= old(io.passed) + {old(io.State()).Extended(e.End()), io.State()}
    {
      room := RawRoom(FRAME_HEADER_LEN, 0);
      var start := AlignUp(if m.fileLen > |io.image| then m.fileLen else |io.image|, BUFFER_ALIGN);
      var slotLen := AlignUp(FRAME_HEADER_LEN + payloadLen(m) + MANIFEST_SLACK, BUFFER_ALIGN);
      e := Extent(start, slotLen);
      m2 := m.(fileLen := start + slotLen);
      var payload := payloadLen(m2);
      if FRAME_HEADER_LEN + payload > slotLen {
        return false, m2, e, room;
      }
      room := RawRoom(slotLen, payload);
      if e.End() > |io.image| {
        io.SetLen(e.End());
      }
      io.WriteAt(start, Encode(ManifestFrame(m2, payload)));
      ok := true;
    }

    /** The file operations of a commit: append the manifest, sync, overwrite the older slot, sync. */
    method WriteCommit(m: Manifest) returns (ok: bool, page: MetaPage, m2: Manifest, ghost room: Room)
      requires DATA_START <= |io.image|
      modifies io
      ensures !ok ==> io.State() == old(io.State()) && io.passed == old(io.passed)
      ensures ok ==>
        var (d, m', e) := Append(old(io.State()), m, EMPTY, room);
        && m2 == m' && page == NextMeta(meta, m2, e, |d.image|)
        && DATA_START <= |d.image|
        && var f := d.Synced().Put(nextSlot.Offset(), MetaPageCells(page));
           && io.State() == f.Synced()
           && io.passed <= old(io.passed) + {old(io.State()).Extended(e.End()), d, d.Synced(), f, f.Synced()}
    {
      var e: Extent;
      ok, m2, e, room := WriteManifest(m);
      page := NextMeta(meta, m2, e, |io.image|);
      if !ok {
        return;
      }
      io.SyncData();
      io.WriteAt(nextSlot.Offset(), MetaPageCells(page));
      io.SyncData();
    }

    method CommitSteps(work: Manifest) returns (ok: bool, ghost room: Room)
      requires Tied() && store.phase.Building? && store.phase.work == work
      requires work.txnId == meta.txnId + 1 && DATA_START <= |io.image|
      modifies this, io
      ensures Tied()
      ensures !ok ==> store == old(store) && io.passed == old(io.passed)
      ensures ok ==> store == CommitStates(old(store), room).3
      ensures ok ==> io.passed <= old(io.passed) + CommitPasses(old(store), room)
    {
      ghost var s := store;
      var m := work.(txnId := meta.txnId + 1).Free(nextSlotManifest);
      var page: MetaPage;
      var m2: Manifest;
      ok, page, m2, room := WriteCommit(m);
      if ok {
        CommitDisks(s, m, room);
        nextSlotManifest := meta.manifest;
        meta, slot, manifest, nextSlot := page, nextSlot, m2, nextSlot.Other();
        store := CommitStates(s, room).3;
      }
    }

    /**
     * Publish `work` as the newest commit. On success the commit is durable; at
     * every point on the way, a crash reopens to the commit before or to this one.
     */
    method Commit(work: Manifest) returns (ok: bool, ghost room: Room)
      requires Valid() && store.phase.Building? && store.phase.work == work
      modifies this, io
      ensures Valid()
      ensures !ok ==> store == old(store) && io.passed == old(io.passed)
      ensures ok ==> store == CommitStates(old(store), room).3
      ensures AllRecover(io.passed, old(io.passed), old(manifest), manifest)
    {
      ghost var s := store;
      ok, room := CommitSteps(work);
      if ok {
        CommitRecovers(s, room, io.passed, old(io.passed));
        CommitTracked(s, room);
      }
    }

    /** A reader's pin on `c` ends. */
    ghost method Unpin(c: Store.Commit)
      requires Valid() && c != store.cur
      modifies this`store
      ensures Valid() && store == old(store).(pins := old(store).pins - {c})
      ensures Takes(old(store), Step.Drop(c), store)
    {
      store := store.(pins := store.pins - {c});
    }
  }
}
