/** The power failing while a table is being created. */
module Creations {
  import opened Layout
  import opened Disks
  import opened Store
  import opened StoreProof
  import opened StoreRuns

  /** No byte of either meta page is written. */
  ghost predicate PagesBlank(img: seq<Cell>) {
    forall p: nat :: META_A_OFFSET <= p < DATA_START && p < |img| ==> img[p] == Zero
  }

  ghost predicate OffPages(writes: seq<Write>) {
    forall w :: w in writes ==> w.at >= DATA_START || w.End() <= META_A_OFFSET
  }

  lemma BlankReads(img: seq<Cell>, slot: MetaSlot)
    requires PagesBlank(img)
    ensures ReadMeta(img, slot) == None
  {
    if DATA_START <= |img| {
      assert PageAt(img, slot)[0] == img[slot.Offset()] == Zero;
    }
  }

  lemma PutBlank(d: Disk, at: nat, cells: seq<Cell>)
    requires d.Wf() && at + |cells| <= |d.image| && PagesBlank(d.image) && OffPages(d.pending)
    requires at >= DATA_START || at + |cells| <= META_A_OFFSET
    ensures PagesBlank(d.Put(at, cells).image) && OffPages(d.Put(at, cells).pending) && d.Put(at, cells).Wf()
  {
    PutWf(d, at, cells);
  }

  lemma ExtendedBlank(d: Disk, len: nat)
    requires d.Wf() && PagesBlank(d.image)
    ensures PagesBlank(d.Extended(len).image) && d.Extended(len).Wf() && d.Extended(len).pending == d.pending
  {
    ExtendedWf(d, len);
  }

  lemma AppendBlank(d: Disk, m: Manifest, room: Room)
    requires d.Wf() && DATA_START <= |d.image| && PagesBlank(d.image) && OffPages(d.pending)
    ensures var d2 := Append(d, m, EMPTY, room).0;
            d2.Wf() && |d.image| <= |d2.image| && PagesBlank(d2.image) && OffPages(d2.pending) && d2.durable == d.durable
  {
    var (d2, m2, e) := Append(d, m, EMPTY, room);
    AppendShape(d, m, EMPTY, room);
    ExtendedBlank(d, e.End());
    PutBlank(d.Extended(e.End()), e.offset, Encode(ManifestFrame(m2, room.payload)));
  }

  /** Header, schema and seed manifests are written around the meta pages. */
  lemma SeededBlank(header: seq<Cell>, blob: seq<Cell>, room0: Room, room1: Room)
    requires |header| == HEADER_SIZE
    ensures var d := SeededDisk(header, blob, room0, room1).0;
            d.Wf() && d.durable == [] && PagesBlank(d.image) && OffPages(d.pending)
  {
    var empty := Disk([], [], []);
    var d0 := empty.Extended(DATA_START);
    ExtendedBlank(empty, DATA_START);
    var d1 := d0.Extended(DATA_START + |blob|);
    ExtendedBlank(d0, DATA_START + |blob|);
    PutBlank(d1, DATA_START, blob);
    var d1b := if blob == [] then d1 else d1.Put(DATA_START, blob);
    PutBlank(d1b, 0, header);
    var d2 := d1b.Put(0, header);
    PutWf(d1b, 0, header);
    var seed := Manifest(0, 0, 0, 0, Extent(DATA_START, |blob|), [], [], AlignUp(|d2.image|, SEGMENT_ALIGN));
    AppendBlank(d2, seed, room0);
    var (d3, m0, e0) := Append(d2, seed, EMPTY, room0);
    AppendBlank(d3, m0.(txnId := 1), room1);
  }

  /**
   * Until creation's first sync, whatever is left of the file does not open. What an
   * earlier moment may leave, with fewer writes under way, is among it.
   */
  lemma UnsyncedCreationNeverOpens(header: seq<Cell>, blob: seq<Cell>, room0: Room, room1: Room, img: seq<Cell>)
    requires |header| == HEADER_SIZE && SeededDisk(header, blob, room0, room1).0.Survives(img)
    ensures ReadCommitted(img) == None
  {
    SeededBlank(header, blob, room0, room1);
    var d := SeededDisk(header, blob, room0, room1).0;
    forall p: nat | META_A_OFFSET <= p < DATA_START && p < |img|
      ensures img[p] == Zero
    {
      assert d.MayHold(p, img[p]);
    }
    BlankReads(img, MetaSlot.A);
    BlankReads(img, MetaSlot.B);
  }

  /** The file while creation writes its two meta pages; the moment before the second is among what this may leave. */
  function Publishing(base: Disk, meta0: MetaPage, meta1: MetaPage): Disk
    requires DATA_START <= |base.image|
  {
    base.Put(META_B_OFFSET, MetaPageCells(meta0)).Put(META_A_OFFSET, MetaPageCells(meta1))
  }

  /** A page under its first write reads as that page, or not at all. */
  lemma FirstPage(base: Disk, meta0: MetaPage, meta1: MetaPage, slot: MetaSlot, img: seq<Cell>)
    requires base.pending == [] && base.durable == base.image && DATA_START <= |base.image| && PagesBlank(base.image)
    requires Publishing(base, meta0, meta1).Survives(img)
    ensures var got := ReadMeta(img, slot); got == None || got == Some(if slot.A? then meta1 else meta0)
  {
    var d, meta := Publishing(base, meta0, meta1), if slot.A? then meta1 else meta0;
    var f, pad := MetaFrame(meta), seq(META_PAGE_SIZE - META_FRAME_LEN, _ => Zero);
    var mix, before := PageAt(img, slot), PageAt(base.image, slot);
    assert d.pending == [Write(META_B_OFFSET, MetaPageCells(meta0)), Write(META_A_OFFSET, MetaPageCells(meta1))];
    forall i | 0 <= i < |mix|
      ensures mix[i] == before[i] || mix[i] == (Encode(f) + pad)[i]
    {
      assert d.MayHold(slot.Offset() + i, img[slot.Offset() + i]);
    }
    TornPageReadsOldNewOrNothing(mix, before, f, pad);
    BlankReads(base.image, slot);
  }

  /** Everything behind the pages was synced before they were touched. */
  lemma DataStays(base: Disk, meta0: MetaPage, meta1: MetaPage, img: seq<Cell>, e: Extent)
    requires base.pending == [] && base.durable == base.image && DATA_START <= |base.image|
    requires Publishing(base, meta0, meta1).Survives(img) && DATA_START <= e.offset && e.End() <= |base.image|
    ensures e.End() <= |img| && img[e.offset..e.End()] == base.image[e.offset..e.End()]
  {
    var d := Publishing(base, meta0, meta1);
    assert d.pending == [Write(META_B_OFFSET, MetaPageCells(meta0)), Write(META_A_OFFSET, MetaPageCells(meta1))];
    forall p: nat | e.Holds(p)
      ensures img[p] == base.image[p]
    {
      assert d.MayHold(p, img[p]);
    }
  }

  /** No segment, no row number taken, nothing checkpointed. */
  predicate IsEmpty(m: Manifest) {
    m.segments == [] && m.freeExtents == [] && m.checkpointLsn == 0 && m.nextSegmentId == 0 && m.nextSeqno == 0
  }

  /**
   * After it, while the meta pages are on their way, what is left either does not
   * open or opens as an empty table: the one whose page came through, the newer if
   * both did, under the schema it was created with.
   */
  lemma CreationOpensEmptyOrNot(header: seq<Cell>, blob: seq<Cell>, room0: Room, room1: Room, img: seq<Cell>)
    requires |header| == HEADER_SIZE
    requires var (d, m0, e0, m1, e1) := SeededDisk(header, blob, room0, room1);
             && DATA_START <= |d.image|
             && Publishing(d.Synced(), MetaPage(0, e0, 0, 1, |d.image|), MetaPage(1, e1, 0, 1, |d.image|)).Survives(img)
    ensures ReadCommitted(img).None? <==> ReadMeta(img, MetaSlot.A).None? && ReadMeta(img, MetaSlot.B).None?
    ensures ReadCommitted(img).Some? ==>
              var r := ReadCommitted(img).value;
              && IsEmpty(r.manifest) && r.manifest.schema == Extent(DATA_START, |blob|)
              && r.meta.txnId == (if ReadMeta(img, MetaSlot.A).Some? then 1 else 0)
  {
    var (d, m0, e0, m1, e1) := SeededDisk(header, blob, room0, room1);
    var meta0, meta1 := MetaPage(0, e0, 0, 1, |d.image|), MetaPage(1, e1, 0, 1, |d.image|);
    SeededShape(header, blob, room0, room1);
    SeededBlank(header, blob, room0, room1);
    FirstPage(d.Synced(), meta0, meta1, MetaSlot.A, img);
    FirstPage(d.Synced(), meta0, meta1, MetaSlot.B, img);
    DataStays(d.Synced(), meta0, meta1, img, e0);
    DataStays(d.Synced(), meta0, meta1, img, e1);
    assert ReadManifest(img, meta0) == Some(m0) && ReadManifest(img, meta1) == Some(m1);
  }
}
