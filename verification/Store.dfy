/**
 * The commit protocol as a state machine: a writer building and committing
 * manifests, readers pinning and dropping snapshots, and crashes at any point.
 */
module Store {
  import opened Layout
  import opened Disks
  import opened Allocator

  /** A commit, with the file as it stood when the commit was sealed. */
  datatype Commit = Commit(meta: MetaPage, manifest: Manifest, sealed: seq<Cell>) {
    /** Bytes the commit needs: its segments, delete vectors, schema and manifest. */
    predicate Protects(p: nat) {
      LiveOwners(manifest, p) >= 1 || meta.manifest.Holds(p)
    }
  }

  // ---- Reading a file --------------------------------------------------------

  function PageAt(img: seq<Cell>, slot: MetaSlot): seq<Cell>
    requires DATA_START <= |img|
  {
    img[slot.Offset()..slot.Offset() + META_PAGE_SIZE]
  }

  /** One meta slot; `None` when torn or absent. */
  function ReadMeta(img: seq<Cell>, slot: MetaSlot): Option<MetaPage> {
    if |img| < DATA_START then None
    else match Decode(PageAt(img, slot))
         case Some(MetaFrame(page)) => Some(page)
         case _ => None
  }

  function ReadManifest(img: seq<Cell>, meta: MetaPage): Option<Manifest> {
    if |img| < meta.manifest.End() then None
    else match Decode(img[meta.manifest.offset..meta.manifest.End()])
         case Some(ManifestFrame(m, _)) => if m.txnId == meta.txnId then Some(m) else None
         case _ => None
  }

  datatype Recovered = Recovered(meta: MetaPage, slot: MetaSlot, manifest: Manifest, loser: Extent)

  function LoserOf(other: Option<MetaPage>): Extent {
    if other.Some? then other.value.manifest else EMPTY
  }

  /** The commit of the slot with the larger txn, or else of the other, if its manifest decodes. */
  function ReadCommitted(img: seq<Cell>): Option<Recovered> {
    var a, b := ReadMeta(img, MetaSlot.A), ReadMeta(img, MetaSlot.B);
    var first := if a.None? || (b.Some? && b.value.txnId > a.value.txnId) then MetaSlot.B else MetaSlot.A;
    var newer, older := ReadMeta(img, first), ReadMeta(img, first.Other());
    if newer.Some? && ReadManifest(img, newer.value).Some? then
      Some(Recovered(newer.value, first, ReadManifest(img, newer.value).value, LoserOf(older)))
    else if newer.Some? && older.Some? && ReadManifest(img, older.value).Some? then
      Some(Recovered(older.value, first.Other(), ReadManifest(img, older.value).value, LoserOf(newer)))
    else None
  }

  function MetaPageCells(meta: MetaPage): (r: seq<Cell>)
    ensures |r| == META_PAGE_SIZE
  {
    Encode(MetaFrame(meta)) + seq(META_PAGE_SIZE - META_FRAME_LEN, _ => Zero)
  }

  // ---- State ---------------------------------------------------------------

  datatype Phase =
    | Idle
    /**
     * Segments and delete vectors being written under `work`; `written` lists them.
     * `ahead` is the schema this build has stored, if it has.
     */
    | Building(work: Manifest, minActive: nat, written: seq<Write>, ahead: seq<Cell>)
    /** The next manifest is appended but not synced. */
    | Appended(next: Commit)
    /** Everything the next meta page points at is on the medium. */
    | Sealed(next: Commit)
    /** The older slot is being overwritten. */
    | Flipping(next: Commit)

  datatype State = State(
    disk: Disk,
    slot: MetaSlot,
    cur: Commit,
    fallback: Option<Commit>,
    pins: set<Commit>,
    phase: Phase)
  {
    /** The extent the next commit frees. */
    function Loser(): Extent {
      if fallback.Some? then fallback.value.meta.manifest else EMPTY
    }

    function OtherMeta(): Option<MetaPage> {
      if fallback.Some? then Some(fallback.value.meta) else None
    }
  }

  datatype Step =
    | Begin(minActive: nat, checkpointLsn: nat, nextSeqno: nat)
    | AddSegment(bytes: seq<Cell>, meta: Extent, rows: nat, m: Manifest, e: Extent)
    | SetDeletes(index: nat, bytes: seq<Cell>, count: nat, m: Manifest, e: Extent)
    | DropSegment(index: nat)
    | Retire(from: Commit, sources: seq<SegmentEntry>)
    | WriteSchema(blob: seq<Cell>)
    | AppendManifest(room: Room)
    | SyncManifest
    | WriteMeta
    | SyncMeta
    | Drop(snapshot: Commit)
    | CrashAndReopen(img: seq<Cell>)

  /** The manifest a segment lands in. */
  function WithSegment(m: Manifest, e: Extent, meta: Extent, rows: nat): Manifest {
    m.(nextSegmentId := m.nextSegmentId + 1,
       segments := m.segments + [SegmentEntry(m.nextSegmentId, e, meta, rows, 0, None)])
  }

  /** Point segment `i` at a new delete vector, freeing the one it replaces. */
  function WithDeletes(m: Manifest, i: nat, e: Extent, count: nat): Manifest
    requires i < |m.segments|
  {
    var s := m.segments[i];
    var freed := if s.deletes.Some? then m.Free(s.deletes.value) else m;
    freed.(segments := m.segments[i := s.(deletes := Some(e), deletedCount := count)])
  }

  /** Drop segment `i`, freeing its data and its delete vector. */
  function WithoutSegment(m: Manifest, i: nat): Manifest
    requires i < |m.segments|
  {
    var s := m.segments[i];
    var freed := m.(segments := m.segments[..i] + m.segments[i + 1..]).Free(s.data);
    if s.deletes.Some? then freed.Free(s.deletes.value) else freed
  }

  // ---- Retiring rewritten segments -------------------------------------------------

  /** The first entry with that id. */
  function Find(segments: seq<SegmentEntry>, id: nat): (r: Option<SegmentEntry>)
    ensures r.Some? ==> r.value in segments && r.value.segmentId == id
    ensures r.None? ==> forall x :: x in segments ==> x.segmentId != id
  {
    if segments == [] then None
    else if segments[0].segmentId == id then Some(segments[0])
    else Find(segments[1..], id)
  }

  function IdsOf(sources: seq<SegmentEntry>): set<nat> {
    set x | x in sources :: x.segmentId
  }

  /** The entries none of the ids names. */
  function Unnamed(segments: seq<SegmentEntry>, ids: set<nat>): seq<SegmentEntry> {
    if segments == [] then []
    else Unnamed(segments[..|segments| - 1], ids)
         + (if segments[|segments| - 1].segmentId in ids then [] else [segments[|segments| - 1]])
  }

  /** Free the ranges of one entry. */
  function FreeEntry(m: Manifest, x: SegmentEntry): Manifest {
    if x.deletes.Some? then m.Free(x.data).Free(x.deletes.value) else m.Free(x.data)
  }

  function FreeAll(m: Manifest, sources: seq<SegmentEntry>): Manifest {
    if sources == [] then m else FreeEntry(FreeAll(m, sources[..|sources| - 1]), sources[|sources| - 1])
  }

  /** Drop the entries the sources name, and free what the sources say, once for each. */
  function Retired(m: Manifest, sources: seq<SegmentEntry>): Manifest {
    FreeAll(m.(segments := Unnamed(m.segments, IdsOf(sources))), sources)
  }

  /** Write a freshly allocated extent, growing the file first when it lies past the end. */
  function Stored(d: Disk, e: Extent, bytes: seq<Cell>): Disk
    requires |bytes| == e.len
  {
    if e.IsEmpty() then d else d.Extended(e.End()).Put(e.offset, bytes)
  }

  /** The slot reserved for a manifest, and the length of the frame payload put in it. */
  datatype RawRoom = RawRoom(slot: nat, payload: nat)
  type Room = r: RawRoom | FRAME_HEADER_LEN + r.payload <= r.slot witness RawRoom(FRAME_HEADER_LEN, 0)

  /** Free the loser and put the manifest, with its own end in it, behind everything. */
  function Append(d: Disk, work: Manifest, loser: Extent, room: Room): (Disk, Manifest, Extent) {
    var freed := work.Free(loser);
    var start := AlignUp(if freed.fileLen > |d.image| then freed.fileLen else |d.image|, BUFFER_ALIGN);
    var e := Extent(start, room.slot);
    var m := freed.(fileLen := e.End());
    (d.Extended(e.End()).Put(start, Encode(ManifestFrame(m, room.payload))), m, e)
  }

  /** Append a schema at the physical end of the file, which moves no recorded end. */
  function SchemaStored(d: Disk, blob: seq<Cell>): Disk {
    d.Extended(|d.image| + |blob|).Put(|d.image|, blob)
  }

  function NextMeta(cur: MetaPage, m: Manifest, e: Extent, len: nat): MetaPage {
    MetaPage(m.txnId, e, m.checkpointLsn,
             if cur.nextLsn > m.checkpointLsn + 1 then cur.nextLsn else m.checkpointLsn + 1, len)
  }

  ghost predicate MinActiveOf(pins: set<Commit>, min: nat) {
    && (forall c :: c in pins ==> min <= c.meta.txnId)
    && exists c :: c in pins && min == c.meta.txnId
  }

  ghost predicate Takes(s: State, step: Step, t: State) {
    match step
    case Begin(min, lsn, seqno) =>
      && (s.phase.Idle? || s.phase.Building?)
      && MinActiveOf(s.pins, min)
      && t == s.(phase := Building(
           s.cur.manifest.(txnId := s.cur.meta.txnId + 1, checkpointLsn := lsn, nextSeqno := seqno), min, [], []))
    case AddSegment(bytes, meta, rows, m, e) =>
      && s.phase.Building? && bytes != []
      && Allocated(s.phase.work, |bytes|, SEGMENT_ALIGN, s.phase.minActive, m, e)
      && e.len == |bytes|
      && t == s.(disk := Stored(s.disk, e, bytes),
                 phase := s.phase.(work := WithSegment(m, e, meta, rows),
                                   written := s.phase.written + [Write(e.offset, bytes)]))
    case SetDeletes(i, bytes, count, m, e) =>
      && s.phase.Building? && bytes != []
      && i < |s.phase.work.segments|
      && Allocated(s.phase.work, |bytes|, BUFFER_ALIGN, s.phase.minActive, m, e)
      && e.len == |bytes|
      && m.segments == s.phase.work.segments
      && t == s.(disk := Stored(s.disk, e, bytes),
                 phase := s.phase.(work := WithDeletes(m, i, e, count),
                                   written := s.phase.written + [Write(e.offset, bytes)]))
    case DropSegment(i) =>
      && s.phase.Building?
      && i < |s.phase.work.segments|
      && t == s.(phase := s.phase.(work := WithoutSegment(s.phase.work, i)))
    case Retire(from, sources) =>
      && s.phase.Building?
      && from in s.pins
      && (forall i :: 0 <= i < |sources| ==> Find(from.manifest.segments, sources[i].segmentId) == Some(sources[i]))
      && t == s.(phase := s.phase.(work := Retired(s.phase.work, sources)))
    case WriteSchema(blob) =>
      && s.phase.Building? && s.phase.ahead == [] && blob != []
      && t == s.(disk := SchemaStored(s.disk, blob),
                 phase := s.phase.(work := s.phase.work.(schema := Extent(|s.disk.image|, |blob|)), ahead := blob))
    case AppendManifest(room) =>
      && s.phase.Building?
      && var (d, m, e) := Append(s.disk, s.phase.work, s.Loser(), room);
         t == s.(disk := d, phase := Appended(Commit(NextMeta(s.cur.meta, m, e, |d.image|), m, d.image)))
    case SyncManifest =>
      && s.phase.Appended?
      && t == s.(disk := s.disk.Synced(), phase := Sealed(s.phase.next))
    case WriteMeta =>
      && s.phase.Sealed?
      && DATA_START <= |s.disk.image|
      && t == s.(disk := s.disk.Put(s.slot.Other().Offset(), MetaPageCells(s.phase.next.meta)),
                 phase := Flipping(s.phase.next))
    case SyncMeta =>
      && s.phase.Flipping?
      && t == State(s.disk.Synced(), s.slot.Other(), s.phase.next, Some(s.cur), s.pins + {s.phase.next}, Idle)
    case Drop(c) =>
      && c != s.cur
      && t == s.(pins := s.pins - {c})
    case CrashAndReopen(img) =>
      && s.disk.Survives(img)
      && ReadCommitted(img).Some?
      && t == Reopen(s, img, ReadCommitted(img).value)
  }

  /** The state a process finds when it opens what a crash left behind. */
  ghost function Reopen(s: State, img: seq<Cell>, r: Recovered): State {
    var isNext := s.phase.Flipping? && r.meta == s.phase.next.meta;
    var cur := Commit(r.meta, r.manifest, if isNext then s.phase.next.sealed else s.cur.sealed);
    var fallback := if isNext then Some(s.cur) else if r.loser == EMPTY then None else s.fallback;
    State(Disk(img, img, []), r.slot, cur, fallback, {cur}, Idle)
  }

  // ---- The invariant -----------------------------------------------------------

  /** `m` leaves every byte `c` needs alone: in the data region, not free (as of `c`), not past the end. */
  ghost predicate Clear(c: Commit, m: Manifest) {
    forall p: nat :: c.Protects(p) ==> DATA_START <= p && Avoids(m, p, c.meta.txnId)
  }

  /** What `c` was sealed with is still in `img`. */
  ghost predicate Holds(img: seq<Cell>, c: Commit) {
    forall p: nat :: c.Protects(p) ==> p < |img| && p < |c.sealed| && img[p] == c.sealed[p]
  }

  /** ... is on the medium, and no unsynced write endangers it. */
  ghost predicate Guarded(d: Disk, c: Commit) {
    && Holds(d.image, c)
    && Holds(d.durable, c)
    && forall p: nat :: c.Protects(p) ==> !d.Touched(p)
  }

  ghost predicate WellSealed(c: Commit) {
    && ReadManifest(c.sealed, c.meta) == Some(c.manifest)
    && c.meta.manifest.len > 0
  }

  ghost predicate QuietPage(d: Disk, slot: MetaSlot) {
    && DATA_START <= |d.durable|
    && forall p: nat :: slot.Offset() <= p < slot.Offset() + META_PAGE_SIZE ==> !d.Touched(p)
  }

  /** The next commit is complete in the file, apart from its meta page. */
  ghost predicate NextOk(s: State, n: Commit) {
    && WellSealed(n)
    && n.meta.txnId == s.cur.meta.txnId + 1
    && LayoutOk(n.manifest, n.meta.manifest, s.cur.meta.manifest)
    && n.manifest.fileLen <= |s.disk.image|
    && Holds(s.disk.image, n)
    && forall c :: c in s.pins || c == s.cur ==> Clear(c, n.manifest)
  }

  ghost predicate WrittenOk(d: Disk, written: seq<Write>, m: Manifest, txn: nat) {
    forall w, p: nat :: w in written && w.Covers(p) ==>
      p < |d.image| && d.image[p] == w.cells[p - w.at] && Avoids(m, p, txn)
  }

  /** The schema this build stored is in the file; without one, the schema is where the last commit left it. */
  ghost predicate AheadOk(d: Disk, work: Manifest, ahead: seq<Cell>) {
    if ahead == [] then SchemaInside(work)
    else
      && work.schema.len == |ahead| && work.schema.End() <= |d.image|
      && forall p: nat :: work.schema.Holds(p) ==> d.image[p] == ahead[p - work.schema.offset]
  }

  ghost predicate BuildOk(s: State, work: Manifest, minActive: nat, written: seq<Write>, ahead: seq<Cell>) {
    && work.txnId == s.cur.meta.txnId + 1
    && LayoutAhead(work, s.cur.meta.manifest, s.Loser())
    && AheadOk(s.disk, work, ahead)
    && work.fileLen <= |s.disk.image|
    && (forall c :: c in s.pins ==> minActive <= c.meta.txnId && Clear(c, work))
    && (s.fallback.Some? ==> Clear(s.fallback.value, work))
    && WrittenOk(s.disk, written, work, s.cur.meta.txnId)
  }

  ghost predicate PhaseOk(s: State) {
    match s.phase
    case Idle => true
    case Building(work, min, written, ahead) => BuildOk(s, work, min, written, ahead)
    case Appended(n) => NextOk(s, n)
    case Sealed(n) => NextOk(s, n) && s.disk.pending == [] && s.disk.durable == s.disk.image
    case Flipping(n) =>
      && NextOk(s, n)
      && Guarded(s.disk, n)
      && n.manifest.fileLen <= |s.disk.durable|
      && s.disk.pending == [Write(s.slot.Other().Offset(), MetaPageCells(n.meta))]
      && ReadMeta(s.disk.image, s.slot.Other()) == Some(n.meta)
  }

  /** The newest commit is on the medium, whole, and named by its slot. */
  ghost predicate CurrentOk(s: State) {
    && WellSealed(s.cur)
    && Guarded(s.disk, s.cur)
    && QuietPage(s.disk, s.slot)
    && ReadMeta(s.disk.durable, s.slot) == Some(s.cur.meta)
    && s.cur.manifest.fileLen <= |s.disk.durable|
    && LayoutOk(s.cur.manifest, s.cur.meta.manifest, s.Loser())
  }

  /** So is the commit before it, when its slot reads; losing the newest slot recovers it. */
  ghost predicate FallbackOk(s: State) {
    && (s.fallback.Some? ==>
          && WellSealed(s.fallback.value)
          && s.fallback.value.meta.txnId + 1 == s.cur.meta.txnId
          && Guarded(s.disk, s.fallback.value)
          && Clear(s.fallback.value, s.cur.manifest))
    && ReadMeta(s.disk.durable, s.slot.Other()) == s.OtherMeta()
    && (!s.phase.Flipping? ==> QuietPage(s.disk, s.slot.Other()))
  }

  /** Every pinned snapshot still reads the bytes it was taken over. */
  ghost predicate PinsOk(s: State) {
    && s.cur in s.pins
    && forall c :: c in s.pins ==>
         c.meta.txnId <= s.cur.meta.txnId && Holds(s.disk.image, c) && Clear(c, s.cur.manifest)
  }

  ghost predicate Inv(s: State) {
    && s.disk.Wf()
    && DATA_START <= |s.disk.durable|
    && CurrentOk(s)
    && FallbackOk(s)
    && PinsOk(s)
    && PhaseOk(s)
  }

  // ---- Growing past a schema ------------------------------------------------------

  /**
   * The next allocation stays off the schema. It takes a free extent, or grows the
   * file from the recorded end to a place before the schema or after it.
   */
  predicate Misses(m: Manifest, len: nat, align: nat, minActive: nat)
    requires align > 0
  {
    || len == 0 || m.schema.IsEmpty()
    || (exists j :: 0 <= j < |m.freeExtents| && Fits(m.freeExtents[j], len, align, minActive))
    || AlignUp(m.fileLen, align) + len <= m.schema.offset
    || m.schema.End() <= AlignUp(m.fileLen, align)
  }

  /**
   * Each source is named once, is still in the table under its id, and a vector
   * stored for it when it was read is still the one stored.
   */
  ghost predicate Retirable(m: Manifest, sources: seq<SegmentEntry>) {
    && (forall i, j :: 0 <= i < j < |sources| ==> sources[i].segmentId != sources[j].segmentId)
    && forall i :: 0 <= i < |sources| ==> StillHas(m, sources[i])
  }

  ghost predicate StillHas(m: Manifest, x: SegmentEntry) {
    exists y :: y in m.segments && y.segmentId == x.segmentId && y.data == x.data && (x.deletes.Some? ==> y.deletes == x.deletes)
  }

  /**
   * A caller can tell before the step. Allocations of a build that stored a schema
   * must miss it, and what a rewrite retires must still be what it read.
   */
  ghost predicate StepSafe(s: State, step: Step) {
    s.phase.Building? ==>
      match step
      case AddSegment(bytes, _, _, _, _) => Misses(s.phase.work, |bytes|, SEGMENT_ALIGN, s.phase.minActive)
      case SetDeletes(_, bytes, _, _, _) => Misses(s.phase.work, |bytes|, BUFFER_ALIGN, s.phase.minActive)
      case Retire(_, sources) => Retirable(s.phase.work, sources)
      case _ => true
  }

  // ---- Consequences of a layout --------------------------------------------------

  lemma LayoutAt(m: Manifest, current: Extent, loser: Extent, p: nat)
    requires LayoutOk(m, current, loser)
    ensures Owners(m, p) + Own(current, p) + Own(loser, p) <= (if DATA_START <= p < m.fileLen then 1 else 0)
  {
  }

  /** A commit's own manifest leaves it alone. */
  lemma LayoutClears(c: Commit, loser: Extent)
    requires LayoutOk(c.manifest, c.meta.manifest, loser)
    ensures Clear(c, c.manifest)
  {
    forall p: nat | c.Protects(p)
      ensures Avoids(c.manifest, p, c.meta.txnId) && p >= DATA_START
    {
      LayoutAt(c.manifest, c.meta.manifest, loser, p);
      FreeOwnsSome(c.manifest.freeExtents, p);
    }
  }

  // ---- Disk steps ------------------------------------------------------------------

  ghost predicate Missed(c: Commit, at: nat, len: nat) {
    forall p: nat :: c.Protects(p) ==> !(at <= p < at + len)
  }

  lemma ExtendKeeps(d: Disk, len: nat, c: Commit)
    requires d.Wf() && Holds(d.image, c)
    ensures Holds(d.Extended(len).image, c)
    ensures Guarded(d, c) ==> Guarded(d.Extended(len), c)
  {
    ExtendedWf(d, len);
    var e := d.Extended(len);
    forall p: nat | c.Protects(p)
      ensures p < |e.image| && p < |c.sealed| && e.image[p] == c.sealed[p]
      ensures e.Touched(p) == d.Touched(p)
    {
      assert e.image[..|d.image|] == d.image;
    }
  }

  lemma PutKeeps(d: Disk, at: nat, cells: seq<Cell>, c: Commit)
    requires d.Wf() && at + |cells| <= |d.image|
    requires Holds(d.image, c) && Missed(c, at, |cells|)
    ensures Holds(d.Put(at, cells).image, c)
    ensures Guarded(d, c) ==> Guarded(d.Put(at, cells), c)
  {
    PutWf(d, at, cells);
  }

  lemma StoredKeeps(d: Disk, e: Extent, bytes: seq<Cell>, c: Commit)
    requires d.Wf() && |bytes| == e.len
    requires Holds(d.image, c) && Missed(c, e.offset, e.len)
    ensures Holds(Stored(d, e, bytes).image, c)
    ensures Guarded(d, c) ==> Guarded(Stored(d, e, bytes), c)
  {
    ExtendedWf(d, e.End());
    ExtendKeeps(d, e.End(), c);
    if !e.IsEmpty() {
      PutKeeps(d.Extended(e.End()), e.offset, bytes, c);
    }
  }

  lemma StoredShape(d: Disk, e: Extent, bytes: seq<Cell>)
    requires d.Wf() && |bytes| == e.len
    ensures Stored(d, e, bytes).Wf()
    ensures Stored(d, e, bytes).durable == d.durable
    ensures |Stored(d, e, bytes).image| >= |d.image|
    ensures !e.IsEmpty() ==> e.End() <= |Stored(d, e, bytes).image|
    ensures forall p: nat :: e.Holds(p) ==> Stored(d, e, bytes).image[p] == bytes[p - e.offset]
    ensures forall p: nat :: p < |d.image| && !e.Holds(p) ==> Stored(d, e, bytes).image[p] == d.image[p]
    ensures forall p: nat :: Stored(d, e, bytes).Touched(p) <==> d.Touched(p) || e.Holds(p)
  {
    if !e.IsEmpty() {
      ExtendedWf(d, e.End());
      var g := d.Extended(e.End());
      PutWf(g, e.offset, bytes);
      forall p: nat
        ensures Stored(d, e, bytes).Touched(p) <==> d.Touched(p) || e.Holds(p)
      {
        assert g.Touched(p) == d.Touched(p);
        assert Write(e.offset, bytes).Covers(p) == e.Holds(p);
      }
      forall p: nat | p < |d.image| && !e.Holds(p)
        ensures Stored(d, e, bytes).image[p] == d.image[p]
      {
        assert g.image[p] == d.image[p];
        assert !Write(e.offset, bytes).Covers(p);
      }
    }
  }

  /** A page read depends on the page's cells alone. */
  lemma SamePage(a: seq<Cell>, b: seq<Cell>, slot: MetaSlot)
    requires DATA_START <= |a| && DATA_START <= |b|
    requires forall p: nat :: slot.Offset() <= p < slot.Offset() + META_PAGE_SIZE ==> a[p] == b[p]
    ensures ReadMeta(a, slot) == ReadMeta(b, slot)
  {
    forall i | 0 <= i < META_PAGE_SIZE
      ensures PageAt(a, slot)[i] == PageAt(b, slot)[i]
    {
      assert a[slot.Offset() + i] == b[slot.Offset() + i];
    }
    assert PageAt(a, slot) == PageAt(b, slot);
  }

  lemma PageKept(d: Disk, t: Disk, slot: MetaSlot)
    requires QuietPage(d, slot) && t.durable == d.durable
    requires forall p: nat :: p < DATA_START && t.Touched(p) ==> d.Touched(p)
    ensures QuietPage(t, slot)
  {
  }
}
