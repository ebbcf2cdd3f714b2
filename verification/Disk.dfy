/**
 * A file on a disk that may lose power: what a read returns, what was synced,
 * and what may survive of the rest.
 */
module Disks {
  import opened Layout

  /** A write not yet covered by a sync. */
  datatype Write = Write(at: nat, cells: seq<Cell>) {
    function End(): nat { at + |cells| }

    predicate Covers(p: nat) { at <= p < End() }
  }

  /**
   * `image` is what reads of the running process see, `durable` what the last
   * sync put on the medium, and `pending` every write since then, in order.
   */
  datatype Disk = Disk(image: seq<Cell>, durable: seq<Cell>, pending: seq<Write>) {

    ghost predicate Touched(p: nat) {
      exists w :: w in pending && w.Covers(p)
    }

    ghost predicate Wf() {
      && |durable| <= |image|
      && (forall w :: w in pending ==> w.End() <= |image|)
      && (forall p: nat :: p < |durable| && !Touched(p) ==> image[p] == durable[p])
    }

    function Put(at: nat, cells: seq<Cell>): Disk
      requires at + |cells| <= |image|
    {
      Disk(image[..at] + cells + image[at + |cells|..], durable, pending + [Write(at, cells)])
    }

    /** At least `len` long, new bytes zero. */
    function Extended(len: nat): (d: Disk)
      ensures |d.image| >= len && |d.image| >= |image|
    {
      if len <= |image| then this
      else Disk(image + seq(len - |image|, _ => Zero), durable, pending)
    }

    function Synced(): Disk {
      Disk(image, image, [])
    }

    /** What byte `p` of the medium may hold after a crash: its synced value or any later write's. */
    ghost predicate MayHold(p: nat, c: Cell) {
      || c == (if p < |durable| then durable[p] else Zero)
      || exists w :: w in pending && w.Covers(p) && w.cells[p - w.at] == c
    }

    /**
     * The images a crash may leave. Every byte is decided on its own, so any
     * subset of the writes since the sync, and any tearing of them, is allowed.
     */
    ghost predicate Survives(img: seq<Cell>) {
      && |durable| <= |img| <= |image|
      && forall p: nat :: p < |img| ==> MayHold(p, img[p])
    }
  }

  lemma PutWf(d: Disk, at: nat, cells: seq<Cell>)
    requires d.Wf() && at + |cells| <= |d.image|
    ensures d.Put(at, cells).Wf()
    ensures |d.Put(at, cells).image| == |d.image|
    ensures forall p: nat :: p < |d.image| && !Write(at, cells).Covers(p) ==> d.Put(at, cells).image[p] == d.image[p]
    ensures forall p: nat :: at <= p < at + |cells| ==> d.Put(at, cells).image[p] == cells[p - at]
    ensures forall p: nat :: d.Put(at, cells).Touched(p) <==> d.Touched(p) || Write(at, cells).Covers(p)
  {
    var d' := d.Put(at, cells);
    var w := Write(at, cells);
    forall p: nat
      ensures d'.Touched(p) <==> d.Touched(p) || w.Covers(p)
    {
      assert w in d'.pending;
      forall x | x in d.pending && x.Covers(p)
        ensures d'.Touched(p)
      {
        assert x in d'.pending;
      }
    }
    forall x | x in d'.pending
      ensures x.End() <= |d'.image|
    {
      assert x in d.pending || x == w;
    }
  }

  lemma ExtendedWf(d: Disk, len: nat)
    requires d.Wf()
    ensures d.Extended(len).Wf()
    ensures d.image <= d.Extended(len).image
    ensures d.Extended(len).durable == d.durable && d.Extended(len).pending == d.pending
    ensures |d.Extended(len).image| == if len <= |d.image| then |d.image| else len
  {
    var e := d.Extended(len);
    forall p: nat
      ensures e.Touched(p) == d.Touched(p)
    {
    }
  }

  /** A byte that was synced and not written since survives any crash. */
  lemma QuietSurvives(d: Disk, img: seq<Cell>, p: nat)
    requires d.Survives(img) && p < |d.durable| && !d.Touched(p)
    ensures p < |img| && img[p] == d.durable[p]
  {
    assert d.MayHold(p, img[p]);
  }
}
