/** The commit protocol over whole runs. */
module StoreRuns {
  import opened Layout
  import opened Disks
  import opened Store
  import opened StoreProof

  // ---- Creation ----------------------------------------------------------------

  /** The file after the header, the schema blob and the two seed manifests are written. */
  function SeededDisk(header: seq<Cell>, blob: seq<Cell>, room0: Room, room1: Room): (Disk, Manifest, Extent, Manifest, Extent)
    requires |header| == HEADER_SIZE
  {
    var d0 := Disk([], [], []).Extended(DATA_START);
    var d1 := d0.Extended(DATA_START + |blob|);
    var d2 := (if blob == [] then d1 else d1.Put(DATA_START, blob)).Put(0, header);
    var seed := Manifest(0, 0, 0, 0, Extent(DATA_START, |blob|), [], [], AlignUp(|d2.image|, SEGMENT_ALIGN));
    var (d3, m0, e0) := Append(d2, seed, EMPTY, room0);
    var (d4, m1, e1) := Append(d3, m0.(txnId := 1), EMPTY, room1);
    (d4, m0, e0, m1, e1)
  }

  /** The state `create` returns: both slots seeded with a complete commit. */
  function Created(header: seq<Cell>, blob: seq<Cell>, room0: Room, room1: Room): State
    requires |header| == HEADER_SIZE
  {
    var (d, m0, e0, m1, e1) := SeededDisk(header, blob, room0, room1);
    SeededShape(header, blob, room0, room1);
    var s := d.Synced();
    var meta1 := MetaPage(1, e1, 0, 1, |d.image|);
    var meta0 := MetaPage(0, e0, 0, 1, |d.image|);
    var f := s.Put(META_B_OFFSET, MetaPageCells(meta0)).Put(META_A_OFFSET, MetaPageCells(meta1)).Synced();
    var cur := Commit(meta1, m1, f.image);
    State(f, MetaSlot.A, cur, Some(Commit(meta0, m0, f.image)), {cur}, Idle)
  }

  lemma SeededShape(header: seq<Cell>, blob: seq<Cell>, room0: Room, room1: Room)
    requires |header| == HEADER_SIZE
    ensures var (d, m0, e0, m1, e1) := SeededDisk(header, blob, room0, room1);
            && d.Wf()
            && DATA_START + |blob| <= e0.offset && e0.len > 0 && e0.End() <= e1.offset && e1.len > 0
            && e1.End() <= |d.image|
            && m0 == Manifest(0, 0, 0, 0, Extent(DATA_START, |blob|), [], [], e0.End())
            && m1 == Manifest(1, 0, 0, 0, Extent(DATA_START, |blob|), [], [], e1.End())
            && Decode(d.image[e0.offset..e0.End()]) == Some(ManifestFrame(m0, room0.payload))
            && Decode(d.image[e1.offset..e1.End()]) == Some(ManifestFrame(m1, room1.payload))
  {
    var empty := Disk([], [], []);
    assert empty.Wf();
    var d0 := empty.Extended(DATA_START);
    ExtendedWf(empty, DATA_START);
    var d1 := d0.Extended(DATA_START + |blob|);
    ExtendedWf(d0, DATA_START + |blob|);
    var d1b := if blob == [] then d1 else d1.Put(DATA_START, blob);
    PutWf(d1, DATA_START, blob);
    var d2 := d1b.Put(0, header);
    PutWf(d1b, 0, header);
    var seed := Manifest(0, 0, 0, 0, Extent(DATA_START, |blob|), [], [], AlignUp(|d2.image|, SEGMENT_ALIGN));
    SeedManifests(d2, seed, room0, room1);
  }

  lemma SeedManifest(d: Disk, m: Manifest, room: Room)
    requires d.Wf()
    ensures var (d2, m2, e) := Append(d, m, EMPTY, room);
            && d2.Wf() && |d.image| <= e.offset && m.fileLen <= e.offset && e.len > 0 && e.End() <= |d2.image|
            && m2 == m.(fileLen := e.End())
            && Decode(d2.image[e.offset..e.End()]) == Some(ManifestFrame(m2, room.payload))
            && forall p: nat :: p < |d.image| ==> d2.image[p] == d.image[p]
  {
    AppendShape(d, m, EMPTY, room);
  }

  lemma SeedManifests(d2: Disk, seed: Manifest, room0: Room, room1: Room)
    requires d2.Wf() && |d2.image| <= seed.fileLen
    ensures var (d3, m0, e0) := Append(d2, seed, EMPTY, room0);
            var (d4, m1, e1) := Append(d3, m0.(txnId := 1), EMPTY, room1);
            && d4.Wf() && |d2.image| <= e0.offset && e0.len > 0 && e0.End() <= e1.offset && e1.len > 0
            && e1.End() <= |d4.image|
            && m0 == seed.(fileLen := e0.End()) && m1 == seed.(txnId := 1, fileLen := e1.End())
            && Decode(d4.image[e0.offset..e0.End()]) == Some(ManifestFrame(m0, room0.payload))
            && Decode(d4.image[e1.offset..e1.End()]) == Some(ManifestFrame(m1, room1.payload))
  {
    var (d3, m0, e0) := Append(d2, seed, EMPTY, room0);
    SeedManifest(d2, seed, room0);
    var (d4, m1, e1) := Append(d3, m0.(txnId := 1), EMPTY, room1);
    SeedManifest(d3, m0.(txnId := 1), room1);
    assert d4.image[e0.offset..e0.End()] == d3.image[e0.offset..e0.End()];
  }

  /** Writing both meta pages leaves the data region and each page readable. */
  lemma SeededPages(base: Disk, meta0: MetaPage, meta1: MetaPage)
    requires base.Wf() && DATA_START <= |base.image|
    ensures var h := base.Put(META_B_OFFSET, MetaPageCells(meta0)).Put(META_A_OFFSET, MetaPageCells(meta1));
            && h.Wf() && |h.image| == |base.image|
            && ReadMeta(h.image, MetaSlot.A) == Some(meta1)
            && ReadMeta(h.image, MetaSlot.B) == Some(meta0)
            && forall p: nat :: DATA_START <= p < |h.image| ==> h.image[p] == base.image[p]
  {
    var g := base.Put(META_B_OFFSET, MetaPageCells(meta0));
    var h := g.Put(META_A_OFFSET, MetaPageCells(meta1));
    PutWf(base, META_B_OFFSET, MetaPageCells(meta0));
    PutWf(g, META_A_OFFSET, MetaPageCells(meta1));
    FlippedPageReads(base, MetaSlot.B, meta0);
    FlippedPageReads(g, MetaSlot.A, meta1);
    forall p: nat | META_B_OFFSET <= p < |h.image|
      ensures h.image[p] == g.image[p]
    {
      assert !Write(META_A_OFFSET, MetaPageCells(meta1)).Covers(p);
    }
    SamePage(h.image, g.image, MetaSlot.B);
  }

  /** With no segments and nothing free, a manifest owns its schema alone. */
  lemma BareLayout(m: Manifest, current: Extent, loser: Extent)
    requires m.segments == [] && m.freeExtents == []
    requires DATA_START <= m.schema.offset && m.schema.End() <= current.offset && current.End() <= m.fileLen
    requires loser == EMPTY || (m.schema.End() <= loser.offset && loser.End() <= current.offset)
    ensures LayoutOk(m, current, loser)
  {
    forall p: nat
      ensures Owners(m, p) + Own(current, p) + Own(loser, p) <= (if DATA_START <= p < m.fileLen then 1 else 0)
    {
      assert Owners(m, p) == Own(m.schema, p);
    }
  }

  /** A freshly created table satisfies the invariant. */
  lemma CreatedInv(header: seq<Cell>, blob: seq<Cell>, room0: Room, room1: Room)
    requires |header| == HEADER_SIZE
    ensures Inv(Created(header, blob, room0, room1))
  {
    var (d, m0, e0, m1, e1) := SeededDisk(header, blob, room0, room1);
    SeededShape(header, blob, room0, room1);
    var s := Created(header, blob, room0, room1);
    SeededPages(d.Synced(), s.fallback.value.meta, s.cur.meta);
    BareLayout(m1, e1, e0);
    BareLayout(m0, e0, EMPTY);
    SeededInv(s, d, e0, e1, room0, room1);
  }

  lemma SeededInv(s: State, d: Disk, e0: Extent, e1: Extent, room0: Room, room1: Room)
    requires s == State(Disk(s.disk.image, s.disk.image, []), MetaSlot.A, s.cur, s.fallback, {s.cur}, Idle)
    requires s.fallback.Some? && s.cur.sealed == s.disk.image && s.fallback.value.sealed == s.disk.image
    requires ReadMeta(s.disk.image, MetaSlot.A) == Some(s.cur.meta)
    requires ReadMeta(s.disk.image, MetaSlot.B) == Some(s.fallback.value.meta)
    requires DATA_START <= |d.image| == |s.disk.image|
    requires forall p: nat :: DATA_START <= p < |d.image| ==> s.disk.image[p] == d.image[p]
    requires DATA_START <= e0.offset && e0.len > 0 && e0.End() <= e1.offset && e1.len > 0 && e1.End() <= |d.image|
    requires s.fallback.value.meta.manifest == e0 && s.cur.meta.manifest == e1
    requires var m0, m1 := s.fallback.value.manifest, s.cur.manifest;
             && m0.freeExtents == m1.freeExtents == [] && m0.segments == m1.segments == [] && m0.schema == m1.schema
             && m0.fileLen == e0.End() && m1.fileLen == e1.End()
             && m0.txnId == s.fallback.value.meta.txnId == 0 && m1.txnId == s.cur.meta.txnId == 1
             && Decode(d.image[e0.offset..e0.End()]) == Some(ManifestFrame(m0, room0.payload))
             && Decode(d.image[e1.offset..e1.End()]) == Some(ManifestFrame(m1, room1.payload))
             && LayoutOk(m1, e1, e0) && LayoutOk(m0, e0, EMPTY)
    ensures Inv(s)
  {
    assert s.disk.image[e0.offset..e0.End()] == d.image[e0.offset..e0.End()];
    assert s.disk.image[e1.offset..e1.End()] == d.image[e1.offset..e1.End()];
    LayoutClears(s.cur, e0);
    LayoutClears(s.fallback.value, EMPTY);
    assert CurrentOk(s);
    assert FallbackOk(s);
  }

  // ---- Runs ----------------------------------------------------------------------

  ghost predicate Fresh(s: State) {
    exists header: seq<Cell>, blob: seq<Cell>, p0: Room, p1: Room ::
      |header| == HEADER_SIZE && s == Created(header, blob, p0, p1)
  }

  lemma FreshInv(s: State)
    requires Fresh(s)
    ensures Inv(s)
  {
    var header: seq<Cell>, blob: seq<Cell>, p0: Room, p1: Room :|
      |header| == HEADER_SIZE && s == Created(header, blob, p0, p1);
    CreatedInv(header, blob, p0, p1);
  }

  ghost predicate Follows(states: seq<State>, steps: seq<Step>) {
    && |states| == |steps| + 1
    && forall i :: 0 <= i < |steps| ==> Takes(states[i], steps[i], states[i + 1])
  }

  /** A run from creation: any interleaving of writer steps, reader steps and crashes. */
  ghost predicate Run(states: seq<State>, steps: seq<Step>) {
    Follows(states, steps) && Fresh(states[0])
  }

  /** No allocation before state `i` ran into a schema stored past the recorded end. */
  ghost predicate SafeUntil(states: seq<State>, steps: seq<Step>, i: nat)
    requires |states| == |steps| + 1
  {
    forall k :: 0 <= k < i && k < |steps| ==> StepSafe(states[k], steps[k])
  }

  lemma {:induction false} RunInv(states: seq<State>, steps: seq<Step>, i: nat)
    requires Run(states, steps) && i < |states| && SafeUntil(states, steps, i)
    ensures Inv(states[i])
  {
    if i == 0 {
      FreshInv(states[0]);
    } else {
      RunInv(states, steps, i - 1);
      StepKeeps(states[i - 1], steps[i - 1], states[i]);
    }
  }

  /**
   * Crash safety. At any moment of any run, whatever a crash leaves of the
   * unsynced writes, opening the file finds the last acknowledged commit or
   * the one whose meta page was in flight, and every byte that commit needs is
   * the byte it was sealed with.
   */
  lemma CrashSafety(states: seq<State>, steps: seq<Step>, i: nat, img: seq<Cell>)
    requires Run(states, steps) && i < |states| && SafeUntil(states, steps, i) && states[i].disk.Survives(img)
    ensures ReadCommitted(img).Some?
    ensures var r, s := ReadCommitted(img).value, states[i];
            || (r.meta == s.cur.meta && r.manifest == s.cur.manifest && Holds(img, s.cur))
            || (s.phase.Flipping? && r.meta == s.phase.next.meta && r.manifest == s.phase.next.manifest
                && Holds(img, s.phase.next))
  {
    RunInv(states, steps, i);
    var s := states[i];
    RecoversAcknowledgedOrInFlight(s, img);
    GuardedSurvives(s.disk, img, s.cur);
    if s.phase.Flipping? {
      GuardedSurvives(s.disk, img, s.phase.next);
    }
  }

  lemma StepKeepsAcknowledged(s: State, step: Step, t: State)
    requires Inv(s) && Takes(s, step, t)
    ensures t.cur == s.cur || t.cur.meta.txnId == s.cur.meta.txnId + 1
    ensures step.SyncMeta? ==> s.phase.Flipping? && t.cur == s.phase.next
  {
    if step.CrashAndReopen? {
      CrashKeeps(s, step, t);
    }
  }

  /** The newest acknowledged commit never goes backwards, crashes included. */
  lemma {:induction false} AcknowledgedNeverLost(states: seq<State>, steps: seq<Step>, i: nat, j: nat)
    requires Run(states, steps) && i <= j < |states| && SafeUntil(states, steps, j)
    ensures states[i].cur.meta.txnId <= states[j].cur.meta.txnId
    ensures states[i].cur.meta.txnId == states[j].cur.meta.txnId ==> states[i].cur == states[j].cur
    decreases j - i
  {
    if i < j {
      RunInv(states, steps, i);
      StepKeepsAcknowledged(states[i], steps[i], states[i + 1]);
      AcknowledgedNeverLost(states, steps, i + 1, j);
    }
  }

  /**
   * The fallback is real. Lose the newest meta slot, keep the rest of the
   * medium, and opening finds exactly the commit before, all its bytes in place.
   */
  lemma LosingNewestSlotRecoversPrevious(states: seq<State>, steps: seq<Step>, i: nat, img: seq<Cell>)
    requires Run(states, steps) && i < |states| && SafeUntil(states, steps, i)
    requires var s := states[i];
             && s.fallback.Some?
             && |img| == |s.disk.durable|
             && ReadMeta(img, s.slot) == None
             && forall p: nat :: p < |img| && !(s.slot.Offset() <= p < s.slot.Offset() + META_PAGE_SIZE) ==>
                  img[p] == s.disk.durable[p]
    ensures var f := states[i].fallback.value;
            && ReadCommitted(img) == Some(Recovered(f.meta, states[i].slot.Other(), f.manifest, EMPTY))
            && Holds(img, f)
            && f.meta.txnId + 1 == states[i].cur.meta.txnId
  {
    RunInv(states, steps, i);
    LosingNewestSlot(states[i], img);
  }

  lemma LosingNewestSlot(s: State, img: seq<Cell>)
    requires Inv(s) && s.fallback.Some?
    requires |img| == |s.disk.durable| && ReadMeta(img, s.slot) == None
    requires forall p: nat :: p < |img| && !(s.slot.Offset() <= p < s.slot.Offset() + META_PAGE_SIZE) ==>
               img[p] == s.disk.durable[p]
    ensures var f := s.fallback.value;
            && ReadCommitted(img) == Some(Recovered(f.meta, s.slot.Other(), f.manifest, EMPTY))
            && Holds(img, f)
  {
    var f := s.fallback.value;
    var other := s.slot.Other();
    SamePage(img, s.disk.durable, other);
    forall p: nat | f.Protects(p)
      ensures p < |img| && p < |f.sealed| && img[p] == f.sealed[p]
    {
      assert DATA_START <= p;
    }
    HoldsReads(img, f);
    ReadsNewest(img, other, f);
  }

  /**
   * Snapshot isolation on disk: while a reader keeps a snapshot pinned, across
   * any number of commits, its bytes never change.
   */
  lemma PinnedBytesNeverChange(states: seq<State>, steps: seq<Step>, i: nat, j: nat, c: Commit, p: nat)
    requires Run(states, steps) && i < |states| && j < |states|
    requires SafeUntil(states, steps, i) && SafeUntil(states, steps, j)
    requires c in states[i].pins && c in states[j].pins && c.Protects(p)
    ensures p < |states[i].disk.image| && p < |states[j].disk.image| && p < |c.sealed|
    ensures states[i].disk.image[p] == states[j].disk.image[p] == c.sealed[p]
  {
    RunInv(states, steps, i);
    RunInv(states, steps, j);
  }

  /** No two ranges share a byte: segments, delete vectors, both manifests, schema, free list. */
  lemma EveryByteHasOneOwner(states: seq<State>, steps: seq<Step>, i: nat, p: nat)
    requires Run(states, steps) && i < |states| && SafeUntil(states, steps, i)
    ensures var s := states[i];
            Owners(s.cur.manifest, p) + Own(s.cur.meta.manifest, p) + Own(s.Loser(), p)
              <= (if DATA_START <= p < s.cur.manifest.fileLen then 1 else 0)
    ensures var s := states[i];
            s.phase.Building? ==>
              Owners(s.phase.work, p) + Own(s.cur.meta.manifest, p) + Own(s.Loser(), p)
                <= (if InFile(s.phase.work, p) then 1 else 0)
  {
    RunInv(states, steps, i);
    LayoutAt(states[i].cur.manifest, states[i].cur.meta.manifest, states[i].Loser(), p);
    if states[i].phase.Building? {
      AheadAt(states[i].phase.work, states[i].cur.meta.manifest, states[i].Loser(), p);
    }
  }

  /**
   * The quarantine horizon is monotone and never passes the committed txn,
   * because the current snapshot is always pinned.
   */
  lemma {:induction false} MinActiveMonotone(states: seq<State>, steps: seq<Step>, i: nat, j: nat, min: nat, min2: nat)
    requires Run(states, steps) && i <= j < |states| && SafeUntil(states, steps, j)
    requires MinActiveOf(states[i].pins, min) && MinActiveOf(states[j].pins, min2)
    ensures min <= min2 <= states[j].cur.meta.txnId
    decreases j - i
  {
    if i < j {
      var low := MinActiveNext(states, steps, i, min);
      MinActiveMonotone(states, steps, i + 1, j, low, min2);
    } else {
      RunInv(states, steps, j);
    }
  }

  lemma MinActiveNext(states: seq<State>, steps: seq<Step>, i: nat, min: nat) returns (low: nat)
    requires Run(states, steps) && i < |steps| && SafeUntil(states, steps, i + 1) && MinActiveOf(states[i].pins, min)
    ensures MinActiveOf(states[i + 1].pins, low) && min <= low
  {
    RunInv(states, steps, i);
    RunInv(states, steps, i + 1);
    low := LeastPinned(states[i + 1].pins, states[i + 1].cur);
    StepMinActive(states[i], steps[i], states[i + 1], min, low);
  }

  lemma StepMinActive(s: State, step: Step, t: State, min: nat, min2: nat)
    requires Inv(s) && Takes(s, step, t)
    requires MinActiveOf(s.pins, min) && MinActiveOf(t.pins, min2)
    ensures min <= min2
  {
    StepKeepsAcknowledged(s, step, t);
    assert s.cur in s.pins;
    var c :| c in t.pins && min2 == c.meta.txnId;
    assert c in s.pins || c == t.cur;
  }

  lemma {:induction false} LeastPinned(pins: set<Commit>, some: Commit) returns (min: nat)
    requires some in pins
    ensures MinActiveOf(pins, min)
    decreases pins
  {
    if forall c :: c in pins ==> some.meta.txnId <= c.meta.txnId {
      min := some.meta.txnId;
    } else {
      var c :| c in pins && c.meta.txnId < some.meta.txnId;
      min := LeastPinned(pins - {some}, c);
      forall x | x in pins
        ensures min <= x.meta.txnId
      {
        assert x == some || x in pins - {some};
      }
      var w :| w in pins - {some} && min == w.meta.txnId;
      assert w in pins;
    }
  }

  /**
   * What is sealed is what was written: each range handed to the writer during
   * the build holds the bytes written to it, and each range kept from the
   * commit before holds what it held.
   */
  lemma SealedHoldsWhatWasWritten(s: State, step: Step, t: State)
    requires Inv(s) && step.AppendManifest? && Takes(s, step, t)
    ensures forall w, p: nat :: w in s.phase.written && w.Covers(p) ==>
              p < |t.phase.next.sealed| && t.phase.next.sealed[p] == w.cells[p - w.at]
    ensures forall p: nat :: s.cur.Protects(p) && t.phase.next.Protects(p) ==>
              p < |s.cur.sealed| && p < |t.phase.next.sealed| && t.phase.next.sealed[p] == s.cur.sealed[p]
  {
    AppendShape(s.disk, s.phase.work, s.Loser(), step.room);
    assert Holds(s.disk.image, s.cur);
  }

  lemma AppendKeepsSchema(d: Disk, work: Manifest, loser: Extent, room: Room, ahead: seq<Cell>, p: nat)
    requires d.Wf() && AheadOk(d, work, ahead) && ahead != [] && work.schema.Holds(p)
    ensures var img := Append(d, work, loser, room).0.image;
            p < |img| && work.schema.len == |ahead| && img[p] == ahead[p - work.schema.offset]
  {
    AppendShape(d, work, loser, room);
  }

  /** So is the schema: the commit that changes it names a range holding the whole of what was stored. */
  lemma SealedHoldsTheSchema(s: State, step: Step, t: State, p: nat)
    requires Inv(s) && step.AppendManifest? && Takes(s, step, t) && s.phase.ahead != []
    ensures var e := t.phase.next.manifest.schema;
            && e.len == |s.phase.ahead|
            && (e.Holds(p) ==> p < |t.phase.next.sealed| && t.phase.next.sealed[p] == s.phase.ahead[p - e.offset])
  {
    if s.phase.work.schema.Holds(p) {
      AppendKeepsSchema(s.disk, s.phase.work, s.Loser(), step.room, s.phase.ahead, p);
    }
  }
}
