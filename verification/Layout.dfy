/**
 * The on-disk vocabulary: extents and alignment, manifests, meta pages, and
 * the frames they are stored in.
 */
module Layout {

  datatype Option<+T> = None | Some(value: T)

  const HEADER_SIZE: nat := 4096
  const META_PAGE_SIZE: nat := 4096
  const META_A_OFFSET: nat := HEADER_SIZE
  const META_B_OFFSET: nat := HEADER_SIZE + META_PAGE_SIZE
  const DATA_START: nat := HEADER_SIZE + 2 * META_PAGE_SIZE
  const BUFFER_ALIGN: nat := 64
  const SEGMENT_ALIGN: nat := 4096
  const FRAME_HEADER_LEN: nat := 32
  const MANIFEST_SLACK: nat := 256
  /** A meta page's frame: the header and six 8-byte fields. */
  const META_FRAME_LEN: nat := FRAME_HEADER_LEN + 48

  /** The bytes [offset, offset + len) of the file. */
  datatype Extent = Extent(offset: nat, len: nat) {
    function End(): nat { offset + len }

    predicate IsEmpty() { len == 0 }

    predicate Overlaps(other: Extent) {
      offset < other.End() && other.offset < End()
    }

    predicate Holds(p: nat) { offset <= p < End() }
  }

  const EMPTY: Extent := Extent(0, 0)

  /** The overlap test the file layer uses is exact: it holds iff some byte is in both. */
  lemma OverlapsIffShareAByte(a: Extent, b: Extent)
    requires !a.IsEmpty() && !b.IsEmpty()
    ensures a.Overlaps(b) <==> exists p: nat :: a.Holds(p) && b.Holds(p)
  {
    if a.Overlaps(b) {
      var p := if a.offset < b.offset then b.offset else a.offset;
      assert a.Holds(p) && b.Holds(p);
    }
  }

  /** The one multiple of `align` in [value, value + align). */
  function AlignUp(value: nat, align: nat): (r: nat)
    requires align > 0
    ensures value <= r < value + align
    ensures r % align == 0
  {
    var q := (value + align - 1) / align;
    MultipleMod(q, align);
    q * align
  }

  lemma MultipleMod(q: nat, a: nat)
    requires a > 0
    ensures (q * a) % a == 0
  {
    var x := q * a;
    var d := q - x / a;
    assert x == a * (x / a) + x % a;
    assert a * d == x % a by {
      assert a * (q - x / a) == a * q - a * (x / a);
    }
    NonzeroMultiple(a, d);
  }

  lemma NonzeroMultiple(a: nat, d: int)
    ensures d >= 1 ==> a * d >= a
    ensures d <= -1 ==> a * d <= 0 - a
  {
  }

  /** Garbage, and the txn of the commit that made it so. */
  datatype FreeExtent = FreeExtent(extent: Extent, freedTxn: nat)

  /** One immutable segment; `meta` lies inside `data`. */
  datatype SegmentEntry = SegmentEntry(
    segmentId: nat,
    data: Extent,
    meta: Extent,
    rowCount: nat,
    deletedCount: nat,
    deletes: Option<Extent>)

  /** What one commit records: its segments, its schema, its free list and the end of the file. */
  datatype Manifest = Manifest(
    txnId: nat,
    checkpointLsn: nat,
    nextSegmentId: nat,
    nextSeqno: nat,
    schema: Extent,
    segments: seq<SegmentEntry>,
    freeExtents: seq<FreeExtent>,
    fileLen: nat)
  {
    /** The free list grows by `extent`, unless that is empty. */
    function Free(extent: Extent): Manifest {
      if extent.IsEmpty() then this
      else this.(freeExtents := freeExtents + [FreeExtent(extent, txnId)])
    }
  }

  /** One commit slot's contents. */
  datatype MetaPage = MetaPage(
    txnId: nat,
    manifest: Extent,
    checkpointLsn: nat,
    nextLsn: nat,
    fileLen: nat)

  datatype MetaSlot = A | B {
    function Offset(): nat {
      if A? then META_A_OFFSET else META_B_OFFSET
    }

    function Other(): MetaSlot {
      if A? then B else A
    }
  }

  // ---- Which bytes a manifest owns -----------------------------------------
  //
  // Ownership is counted byte by byte. Two ranges of a manifest are disjoint,
  // and none is listed twice, exactly when no byte has two owners.

  function Own(e: Extent, p: nat): nat {
    if e.Holds(p) then 1 else 0
  }

  function EntryOwners(s: SegmentEntry, p: nat): nat {
    Own(s.data, p) + (if s.deletes.Some? then Own(s.deletes.value, p) else 0)
  }

  function SegmentOwners(ss: seq<SegmentEntry>, p: nat): nat {
    if ss == [] then 0 else SegmentOwners(ss[..|ss| - 1], p) + EntryOwners(ss[|ss| - 1], p)
  }

  function FreeOwners(fs: seq<FreeExtent>, p: nat): nat {
    if fs == [] then 0 else FreeOwners(fs[..|fs| - 1], p) + Own(fs[|fs| - 1].extent, p)
  }

  /** Live ranges (segments, delete vectors, schema) holding byte `p`. */
  function LiveOwners(m: Manifest, p: nat): nat {
    SegmentOwners(m.segments, p) + Own(m.schema, p)
  }

  /** Every range of the manifest, live or free, holding byte `p`. */
  function Owners(m: Manifest, p: nat): nat {
    LiveOwners(m, p) + FreeOwners(m.freeExtents, p)
  }

  lemma {:induction false} FreeOwnersConcat(a: seq<FreeExtent>, b: seq<FreeExtent>, p: nat)
    ensures FreeOwners(a + b, p) == FreeOwners(a, p) + FreeOwners(b, p)
  {
    if b == [] {
      assert a + b == a;
    } else {
      FreeOwnersConcat(a, b[..|b| - 1], p);
      assert (a + b)[..|a + b| - 1] == a + b[..|b| - 1];
    }
  }

  lemma {:induction false} SegmentOwnersConcat(a: seq<SegmentEntry>, b: seq<SegmentEntry>, p: nat)
    ensures SegmentOwners(a + b, p) == SegmentOwners(a, p) + SegmentOwners(b, p)
  {
    if b == [] {
      assert a + b == a;
    } else {
      SegmentOwnersConcat(a, b[..|b| - 1], p);
      assert (a + b)[..|a + b| - 1] == a + b[..|b| - 1];
    }
  }

  lemma SegmentOwnersAt(ss: seq<SegmentEntry>, i: nat, p: nat)
    requires i < |ss|
    ensures SegmentOwners(ss, p)
         == SegmentOwners(ss[..i], p) + EntryOwners(ss[i], p) + SegmentOwners(ss[i + 1..], p)
  {
    assert ss == (ss[..i] + [ss[i]]) + ss[i + 1..];
    SegmentOwnersConcat(ss[..i] + [ss[i]], ss[i + 1..], p);
    SegmentOwnersConcat(ss[..i], [ss[i]], p);
    assert [ss[i]][..0] == [];
  }

  lemma FreeOwnersAt(fs: seq<FreeExtent>, i: nat, p: nat)
    requires i < |fs|
    ensures FreeOwners(fs, p)
         == FreeOwners(fs[..i], p) + Own(fs[i].extent, p) + FreeOwners(fs[i + 1..], p)
  {
    assert fs == (fs[..i] + [fs[i]]) + fs[i + 1..];
    FreeOwnersConcat(fs[..i] + [fs[i]], fs[i + 1..], p);
    FreeOwnersConcat(fs[..i], [fs[i]], p);
    assert [fs[i]][..0] == [];
  }

  lemma FreeOwnsSome(fs: seq<FreeExtent>, p: nat)
    ensures forall i :: 0 <= i < |fs| && fs[i].extent.Holds(p) ==> FreeOwners(fs, p) >= 1
    ensures FreeOwners(fs, p) >= 1 ==> exists i :: 0 <= i < |fs| && fs[i].extent.Holds(p)
  {
    forall i | 0 <= i < |fs| && fs[i].extent.Holds(p)
      ensures FreeOwners(fs, p) >= 1
    {
      FreeOwnersAt(fs, i, p);
    }
    if FreeOwners(fs, p) >= 1 {
      var i := FindFree(fs, p);
    }
  }

  lemma {:induction false} FindFree(fs: seq<FreeExtent>, p: nat) returns (i: nat)
    requires FreeOwners(fs, p) >= 1
    ensures i < |fs| && fs[i].extent.Holds(p)
  {
    i := |fs| - 1;
    if !fs[i].extent.Holds(p) {
      i := FindFree(fs[..|fs| - 1], p);
    }
  }

  /**
   * The whole layout of a table whose newest commit keeps its manifest at
   * `current` and whose other slot names the manifest at `fallback`: every byte
   * of [DATA_START, fileLen) has at most one owner, and no other byte has any.
   */
  ghost predicate LayoutOk(m: Manifest, current: Extent, fallback: Extent) {
    forall p: nat ::
      Owners(m, p) + Own(current, p) + Own(fallback, p)
        <= (if DATA_START <= p < m.fileLen then 1 else 0)
  }

  /** Where a manifest's ranges may lie: before the end it records, or in a schema written past that end. */
  predicate InFile(m: Manifest, p: nat) {
    DATA_START <= p && (p < m.fileLen || m.schema.Holds(p))
  }

  /** A layout whose schema may run past the recorded end. */
  ghost predicate LayoutAhead(m: Manifest, current: Extent, fallback: Extent) {
    forall p: nat :: Owners(m, p) + Own(current, p) + Own(fallback, p) <= (if InFile(m, p) then 1 else 0)
  }

  ghost predicate SchemaInside(m: Manifest) {
    forall p: nat :: m.schema.Holds(p) ==> p < m.fileLen
  }

  lemma AheadInsideIsOk(m: Manifest, current: Extent, fallback: Extent)
    ensures LayoutOk(m, current, fallback) <==> LayoutAhead(m, current, fallback) && SchemaInside(m)
  {
    if LayoutOk(m, current, fallback) {
      forall p: nat | m.schema.Holds(p)
        ensures p < m.fileLen
      {
        assert Owners(m, p) + Own(current, p) + Own(fallback, p) <= (if DATA_START <= p < m.fileLen then 1 else 0);
      }
      forall p: nat
        ensures Owners(m, p) + Own(current, p) + Own(fallback, p) <= (if InFile(m, p) then 1 else 0)
      {
        assert Owners(m, p) + Own(current, p) + Own(fallback, p) <= (if DATA_START <= p < m.fileLen then 1 else 0);
      }
    }
    if LayoutAhead(m, current, fallback) && SchemaInside(m) {
      forall p: nat
        ensures Owners(m, p) + Own(current, p) + Own(fallback, p) <= (if DATA_START <= p < m.fileLen then 1 else 0)
      {
        assert Owners(m, p) + Own(current, p) + Own(fallback, p) <= (if InFile(m, p) then 1 else 0);
      }
    }
  }

  /** What a layout means for pairs: distinct ranges of a manifest never overlap. */
  lemma LayoutSeparates(m: Manifest, current: Extent, fallback: Extent, i: nat, j: nat)
    requires LayoutOk(m, current, fallback)
    ensures i < j < |m.segments| ==> forall p: nat :: !(m.segments[i].data.Holds(p) && m.segments[j].data.Holds(p))
    ensures i < |m.segments| && j < |m.freeExtents| ==>
              forall p: nat :: !(m.segments[i].data.Holds(p) && m.freeExtents[j].extent.Holds(p))
    ensures i < j < |m.freeExtents| ==>
              forall p: nat :: !(m.freeExtents[i].extent.Holds(p) && m.freeExtents[j].extent.Holds(p))
    ensures i < |m.segments| ==>
              forall p: nat :: m.segments[i].data.Holds(p) ==>
                DATA_START <= p < m.fileLen && !current.Holds(p) && !fallback.Holds(p) && !m.schema.Holds(p)
    ensures i < |m.segments| && m.segments[i].deletes.Some? ==>
              forall p: nat :: m.segments[i].deletes.value.Holds(p) ==>
                DATA_START <= p < m.fileLen && !m.segments[i].data.Holds(p) && !current.Holds(p)
    ensures forall p: nat :: !(current.Holds(p) && fallback.Holds(p))
  {
    forall p: nat
      ensures i < j < |m.segments| ==> !(m.segments[i].data.Holds(p) && m.segments[j].data.Holds(p))
      ensures i < |m.segments| && j < |m.freeExtents| ==>
                !(m.segments[i].data.Holds(p) && m.freeExtents[j].extent.Holds(p))
      ensures i < j < |m.freeExtents| ==>
                !(m.freeExtents[i].extent.Holds(p) && m.freeExtents[j].extent.Holds(p))
      ensures i < |m.segments| && m.segments[i].data.Holds(p) ==>
                DATA_START <= p < m.fileLen && !current.Holds(p) && !fallback.Holds(p) && !m.schema.Holds(p)
      ensures i < |m.segments| && m.segments[i].deletes.Some? && m.segments[i].deletes.value.Holds(p) ==>
                DATA_START <= p < m.fileLen && !m.segments[i].data.Holds(p) && !current.Holds(p)
      ensures !(current.Holds(p) && fallback.Holds(p))
    {
      assert Owners(m, p) + Own(current, p) + Own(fallback, p)
        <= (if DATA_START <= p < m.fileLen then 1 else 0);
      if i < |m.segments| { SegmentOwnersAt(m.segments, i, p); }
      if i < j < |m.segments| { SegmentOwnersAt(m.segments[i + 1..], j - i - 1, p); }
      if j < |m.freeExtents| { FreeOwnersAt(m.freeExtents, j, p); }
      if i < j < |m.freeExtents| {
        FreeOwnersAt(m.freeExtents, i, p);
        FreeOwnersAt(m.freeExtents[i + 1..], j - i - 1, p);
      }
    }
  }

  // ---- Frames ----------------------------------------------------------------
  //
  // A frame carries a checksum, and a torn frame does not decode. A cell of the
  // file therefore records which frame wrote it and at which place: a run of
  // cells decodes only when it is one whole frame, written in one piece.

  datatype Frame =
    | MetaFrame(page: MetaPage)
    | ManifestFrame(manifest: Manifest, payload: nat)
  {
    function Size(): (n: nat)
      ensures n > 0
    {
      match this
      case MetaFrame(_) => META_FRAME_LEN
      case ManifestFrame(_, payload) => FRAME_HEADER_LEN + payload
    }
  }

  datatype Cell = Zero | Raw(b: nat) | Piece(frame: Frame, at: int)

  function Encode(f: Frame): (r: seq<Cell>)
    ensures |r| == f.Size()
    ensures forall i :: 0 <= i < |r| ==> r[i] == Piece(f, i)
  {
    seq(f.Size(), i => Piece(f, i))
  }

  /** Decode the frame at the start of `cells`; `None` when no whole frame is there. */
  function Decode(cells: seq<Cell>): (r: Option<Frame>)
    ensures r.Some? <==> |cells| > 0 && cells[0].Piece? && Encode(cells[0].frame) <= cells
    ensures r.Some? ==> r.value == cells[0].frame
  {
    if |cells| > 0 && cells[0].Piece? && Encode(cells[0].frame) <= cells
    then Some(cells[0].frame)
    else None
  }

  lemma DecodeEncoded(f: Frame, rest: seq<Cell>)
    ensures Decode(Encode(f) + rest) == Some(f)
  {
    assert (Encode(f) + rest)[0] == Encode(f)[0];
  }

  /**
   * A page whose every cell comes either from `old` or from `new`, the frame
   * being written over it, reads as what `old` held, as `new`, or not at all.
   */
  lemma TornPageReadsOldNewOrNothing(mix: seq<Cell>, before: seq<Cell>, f: Frame, pad: seq<Cell>)
    requires |mix| == |before| == |Encode(f) + pad|
    requires forall i :: 0 <= i < |pad| ==> pad[i] == Zero
    requires forall i :: 0 <= i < |mix| ==> mix[i] == before[i] || mix[i] == (Encode(f) + pad)[i]
    ensures Decode(mix) == None || Decode(mix) == Decode(before) || Decode(mix) == Some(f)
  {
    var g := Decode(mix);
    if g.Some? && g.value != f {
      var n := Encode(g.value);
      forall i | 0 <= i < |n|
        ensures n[i] == before[i]
      {
        assert mix[i] == n[i] == Piece(g.value, i);
        assert i < |Encode(f)| ==> (Encode(f) + pad)[i] == Piece(f, i);
        assert i >= |Encode(f)| ==> (Encode(f) + pad)[i] == Zero;
      }
      assert n == before[..|n|];
      assert before[0] == Piece(g.value, 0);
    }
  }
}
