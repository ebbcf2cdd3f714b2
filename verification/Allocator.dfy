/** The extent allocator: best fit among the free extents no reader can still need, else growth. */
module Allocator {
  import opened Layout

  /** A free extent usable now: no live snapshot can read it, and the request fits once aligned. */
  predicate Fits(f: FreeExtent, len: nat, align: nat, minActive: nat)
    requires align > 0
  {
    && f.freedTxn < minActive
    && AlignUp(f.extent.offset, align) + len <= f.extent.End()
  }

  function Slack(f: FreeExtent, len: nat, align: nat): int
    requires align > 0
  {
    f.extent.End() - AlignUp(f.extent.offset, align) - len
  }

  /** The first usable extent wasting the least. */
  ghost predicate BestFit(fs: seq<FreeExtent>, i: nat, len: nat, align: nat, minActive: nat)
    requires align > 0
  {
    && i < |fs|
    && Fits(fs[i], len, align, minActive)
    && forall j :: 0 <= j < |fs| && Fits(fs[j], len, align, minActive) ==>
         && Slack(fs[i], len, align) <= Slack(fs[j], len, align)
         && (j < i ==> Slack(fs[i], len, align) < Slack(fs[j], len, align))
  }

  function Piece(offset: nat, end: nat, freedTxn: nat): seq<FreeExtent>
    requires offset <= end
  {
    if offset < end then [FreeExtent(Extent(offset, end - offset), freedTxn)] else []
  }

  /** Take [start, start+len) out of free extent `i`, returning head and tail to the list. */
  function Carve(fs: seq<FreeExtent>, i: nat, len: nat, align: nat): seq<FreeExtent>
    requires align > 0 && i < |fs|
    requires AlignUp(fs[i].extent.offset, align) + len <= fs[i].extent.End()
  {
    var f := fs[i];
    var start := AlignUp(f.extent.offset, align);
    fs[..i] + fs[i + 1..]
      + Piece(f.extent.offset, start, f.freedTxn)
      + Piece(start + len, f.extent.End(), f.freedTxn)
  }

  /** What `allocate` may answer: manifest `m2` and extent `e`. */
  ghost predicate Allocated(m: Manifest, len: nat, align: nat, minActive: nat, m2: Manifest, e: Extent)
    requires align > 0
  {
    if len == 0 then m2 == m && e == EMPTY
    else if exists j :: 0 <= j < |m.freeExtents| && Fits(m.freeExtents[j], len, align, minActive) then
      exists i: nat ::
        && BestFit(m.freeExtents, i, len, align, minActive)
        && m2 == m.(freeExtents := Carve(m.freeExtents, i, len, align))
        && e == Extent(AlignUp(m.freeExtents[i].extent.offset, align), len)
    else
      && e == Extent(AlignUp(m.fileLen, align), len)
      && m2 == m.(fileLen := e.End())
  }

  method Allocate(m: Manifest, len: nat, align: nat, minActive: nat) returns (m2: Manifest, e: Extent)
    requires align > 0
    ensures Allocated(m, len, align, minActive, m2, e)
    ensures e.len == len
    ensures len > 0 ==> e.offset % align == 0
  {
    if len == 0 {
      return m, EMPTY;
    }
    var fs := m.freeExtents;
    var best: Option<(nat, int)> := None;
    for i := 0 to |fs|
      invariant best.None? ==> forall j :: 0 <= j < i ==> !Fits(fs[j], len, align, minActive)
      invariant best.Some? ==> best.value.0 < i && BestFit(fs[..i], best.value.0, len, align, minActive)
      invariant best.Some? ==> best.value.1 == Slack(fs[best.value.0], len, align)
    {
      var free := fs[i];
      assert fs[..i + 1] == fs[..i] + [free];
      if free.freedTxn >= minActive {
        continue;
      }
      var start := AlignUp(free.extent.offset, align);
      var waste := start - free.extent.offset;
      if free.extent.len < waste + len {
        continue;
      }
      var slack := free.extent.len - waste - len;
      if best.None? || slack < best.value.1 {
        best := Some((i, slack));
      }
    }
    assert fs[..|fs|] == fs;
    if best.Some? {
      var index := best.value.0;
      var free := fs[index];
      var start := AlignUp(free.extent.offset, align);
      var head := start - free.extent.offset;
      var rest := fs[..index] + fs[index + 1..];
      if head > 0 {
        rest := rest + [FreeExtent(Extent(free.extent.offset, head), free.freedTxn)];
      }
      var tailOffset := start + len;
      if tailOffset < free.extent.End() {
        rest := rest + [FreeExtent(Extent(tailOffset, free.extent.End() - tailOffset), free.freedTxn)];
      }
      m2 := m.(freeExtents := rest);
      e := Extent(start, len);
      assert rest == Carve(fs, index, len, align);
      assert BestFit(m.freeExtents, index, len, align, minActive);
    } else {
      var start := AlignUp(m.fileLen, align);
      m2 := m.(fileLen := start + len);
      e := Extent(start, len);
    }
  }

  /** Byte `p` is inside the file and in no extent freed by commit `txn` or earlier. */
  ghost predicate Avoids(m: Manifest, p: nat, txn: int) {
    && p < m.fileLen
    && forall i :: 0 <= i < |m.freeExtents| && m.freeExtents[i].freedTxn <= txn ==> !m.freeExtents[i].extent.Holds(p)
  }

  lemma CarveOwners(fs: seq<FreeExtent>, i: nat, len: nat, align: nat, p: nat)
    requires align > 0 && i < |fs|
    requires AlignUp(fs[i].extent.offset, align) + len <= fs[i].extent.End()
    ensures FreeOwners(Carve(fs, i, len, align), p)
              + Own(Extent(AlignUp(fs[i].extent.offset, align), len), p) == FreeOwners(fs, p)
  {
    var f := fs[i];
    var start := AlignUp(f.extent.offset, align);
    var head := Piece(f.extent.offset, start, f.freedTxn);
    var tail := Piece(start + len, f.extent.End(), f.freedTxn);
    FreeOwnersAt(fs, i, p);
    FreeOwnersConcat(fs[..i], fs[i + 1..], p);
    FreeOwnersConcat(fs[..i] + fs[i + 1..], head, p);
    FreeOwnersConcat(fs[..i] + fs[i + 1..] + head, tail, p);
    PieceOwners(f.extent.offset, start, f.freedTxn, p);
    PieceOwners(start + len, f.extent.End(), f.freedTxn, p);
  }

  lemma PieceOwners(offset: nat, end: nat, txn: nat, p: nat)
    requires offset <= end
    ensures FreeOwners(Piece(offset, end, txn), p) == if offset <= p < end then 1 else 0
  {
    var s := Piece(offset, end, txn);
    if offset < end {
      assert s[..0] == [];
    }
  }

  /**
   * Conservation: the extent handed out is taken from the free list byte for
   * byte, or lies past the old end of the file.
   */
  lemma AllocatedOwners(m: Manifest, len: nat, align: nat, minActive: nat, m2: Manifest, e: Extent, p: nat)
    requires align > 0 && Allocated(m, len, align, minActive, m2, e)
    ensures m2.fileLen >= m.fileLen && e.len == len
    ensures m2 == m.(freeExtents := m2.freeExtents, fileLen := m2.fileLen)
    ensures Owners(m2, p) + Own(e, p) == Owners(m, p) + (if m.fileLen <= p then Own(e, p) else 0)
    ensures e.Holds(p) && m.fileLen <= p ==> p < m2.fileLen
    ensures e.Holds(p) ==> m.fileLen <= p || FreeOwners(m.freeExtents, p) >= 1
    ensures LiveOwners(m2, p) == LiveOwners(m, p)
    requires forall q: nat :: FreeOwners(m.freeExtents, q) >= 1 ==> q < m.fileLen
  {
    if len > 0 && exists j :: 0 <= j < |m.freeExtents| && Fits(m.freeExtents[j], len, align, minActive) {
      var i: nat :| && BestFit(m.freeExtents, i, len, align, minActive)
                    && m2 == m.(freeExtents := Carve(m.freeExtents, i, len, align))
                    && e == Extent(AlignUp(m.freeExtents[i].extent.offset, align), len);
      CarveOwners(m.freeExtents, i, len, align, p);
      FreeOwnersAt(m.freeExtents, i, p);
    }
  }

  /** The two ways an answer comes about. */
  lemma AllocatedCases(m: Manifest, len: nat, align: nat, minActive: nat, m2: Manifest, e: Extent)
    returns (reused: bool, i: nat)
    requires align > 0 && len > 0 && Allocated(m, len, align, minActive, m2, e)
    ensures reused ==>
              && i < |m.freeExtents|
              && m.freeExtents[i].freedTxn < minActive
              && m.freeExtents[i].extent.offset <= e.offset
              && e.End() <= m.freeExtents[i].extent.End()
              && AlignUp(m.freeExtents[i].extent.offset, align) + len <= m.freeExtents[i].extent.End()
              && m2 == m.(freeExtents := Carve(m.freeExtents, i, len, align))
    ensures !reused ==> m.fileLen <= e.offset && m2 == m.(fileLen := e.End())
  {
    var fs := m.freeExtents;
    reused := exists j :: 0 <= j < |fs| && Fits(fs[j], len, align, minActive);
    i := 0;
    if reused {
      i :| && BestFit(fs, i, len, align, minActive)
           && m2 == m.(freeExtents := Carve(fs, i, len, align))
           && e == Extent(AlignUp(fs[i].extent.offset, align), len);
    }
  }

  /**
   * Quarantine: a byte no snapshot at `txn` or later may lose is neither handed
   * out nor exposed, as long as `minActive` is at most `txn + 1`.
   */
  lemma AllocatedAvoids(m: Manifest, len: nat, align: nat, minActive: nat, m2: Manifest, e: Extent, p: nat, txn: int)
    requires align > 0 && Allocated(m, len, align, minActive, m2, e)
    requires Avoids(m, p, txn) && minActive <= txn + 1
    ensures Avoids(m2, p, txn) && !e.Holds(p)
  {
    if len > 0 {
      var reused, i := AllocatedCases(m, len, align, minActive, m2, e);
      if reused {
        assert !m.freeExtents[i].extent.Holds(p);
        CarveAvoids(m.freeExtents, i, len, align, p, txn);
      }
    }
  }

  lemma CarveAvoids(fs: seq<FreeExtent>, i: nat, len: nat, align: nat, p: nat, txn: int)
    requires align > 0 && i < |fs|
    requires AlignUp(fs[i].extent.offset, align) + len <= fs[i].extent.End()
    requires forall j :: 0 <= j < |fs| && fs[j].freedTxn <= txn ==> !fs[j].extent.Holds(p)
    ensures forall k :: 0 <= k < |Carve(fs, i, len, align)| && Carve(fs, i, len, align)[k].freedTxn <= txn ==>
              !Carve(fs, i, len, align)[k].extent.Holds(p)
  {
    var carved := Carve(fs, i, len, align);
    forall k | 0 <= k < |carved| && carved[k].freedTxn <= txn
      ensures !carved[k].extent.Holds(p)
    {
      var j := CarvedFrom(fs, i, len, align, k);
    }
  }

  /** Every entry of a carved list lies inside an entry of the list before, freed by the same commit. */
  lemma CarvedFrom(fs: seq<FreeExtent>, i: nat, len: nat, align: nat, k: nat) returns (j: nat)
    requires align > 0 && i < |fs|
    requires AlignUp(fs[i].extent.offset, align) + len <= fs[i].extent.End()
    requires k < |Carve(fs, i, len, align)|
    ensures j < |fs| && Carve(fs, i, len, align)[k].freedTxn == fs[j].freedTxn
    ensures fs[j].extent.offset <= Carve(fs, i, len, align)[k].extent.offset
    ensures Carve(fs, i, len, align)[k].extent.End() <= fs[j].extent.End()
  {
    j := if k < i then k else if k < |fs| - 1 then k + 1 else i;
  }

  /** Freeing at a later commit exposes nothing to a reader at `txn`. */
  lemma FreeAvoids(m: Manifest, e: Extent, p: nat, txn: int)
    requires Avoids(m, p, txn) && txn < m.txnId
    ensures Avoids(m.Free(e), p, txn)
  {
  }

  lemma FreeOwnersOf(m: Manifest, e: Extent, p: nat)
    ensures Owners(m.Free(e), p) == Owners(m, p) + Own(e, p)
    ensures LiveOwners(m.Free(e), p) == LiveOwners(m, p)
  {
    if !e.IsEmpty() {
      var fs := m.freeExtents + [FreeExtent(e, m.txnId)];
      assert fs[..|fs| - 1] == m.freeExtents;
    }
  }
}
