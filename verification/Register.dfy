/** The table file is a register: it shows one table, and a commit replaces that by another in one go. */
module Registers {
  import opened Layout
  import opened Memtables
  import opened Disks
  import opened Store
  import opened StoreProof
  import Retiring
  import Durability

  /** What a segment's bytes and a delete vector's bytes decode to. */
  datatype Codec = Codec(rows: seq<Cell> -> seq<Row>, dead: seq<Cell> -> set<nat>)

  function BytesAt(img: seq<Cell>, e: Extent): seq<Cell> {
    if e.End() <= |img| then img[e.offset..e.End()] else []
  }

  function Entry(c: Codec, img: seq<Cell>, x: SegmentEntry): Durability.Segment {
    Durability.Segment(x.segmentId, c.rows(BytesAt(img, x.data)),
                       if x.deletes.Some? then Some(c.dead(BytesAt(img, x.deletes.value))) else None)
  }

  function Entries(c: Codec, img: seq<Cell>, xs: seq<SegmentEntry>): (r: seq<Durability.Segment>)
    ensures |r| == |xs| && forall i :: 0 <= i < |xs| ==> r[i] == Entry(c, img, xs[i])
  {
    seq(|xs|, i requires 0 <= i < |xs| => Entry(c, img, xs[i]))
  }

  /** The table a manifest describes, read from the bytes of a file. */
  function TableAt(c: Codec, img: seq<Cell>, m: Manifest): Durability.Table {
    Durability.Table(m.checkpointLsn, m.nextSegmentId, m.nextSeqno, Entries(c, img, m.segments))
  }

  /** The table a commit holds. */
  function Shown(c: Codec, k: Commit): Durability.Table {
    TableAt(c, k.sealed, k.manifest)
  }

  // ---- Reading depends on the ranges alone -----------------------------------------------

  ghost predicate Same(img: seq<Cell>, img2: seq<Cell>, e: Extent) {
    forall p: nat :: e.Holds(p) ==> p < |img| && p < |img2| && img[p] == img2[p]
  }

  lemma SameBytes(img: seq<Cell>, img2: seq<Cell>, e: Extent)
    requires Same(img, img2, e)
    ensures BytesAt(img, e) == BytesAt(img2, e)
  {
    if e.len > 0 {
      assert e.Holds(e.End() - 1);
      var a, b := img[e.offset..e.End()], img2[e.offset..e.End()];
      forall i | 0 <= i < e.len
        ensures a[i] == b[i]
      {
        assert e.Holds(e.offset + i);
      }
      assert a == b;
    }
  }

  ghost predicate SameEntry(img: seq<Cell>, img2: seq<Cell>, x: SegmentEntry) {
    forall p: nat :: EntryOwners(x, p) >= 1 ==> p < |img| && p < |img2| && img[p] == img2[p]
  }

  lemma SameEntryReads(c: Codec, img: seq<Cell>, img2: seq<Cell>, x: SegmentEntry)
    requires SameEntry(img, img2, x)
    ensures Entry(c, img, x) == Entry(c, img2, x)
  {
    SameBytes(img, img2, x.data);
    if x.deletes.Some? {
      SameBytes(img, img2, x.deletes.value);
    }
  }

  lemma SameEntries(c: Codec, img: seq<Cell>, img2: seq<Cell>, xs: seq<SegmentEntry>)
    requires forall i :: 0 <= i < |xs| ==> SameEntry(img, img2, xs[i])
    ensures Entries(c, img, xs) == Entries(c, img2, xs)
  {
    forall i | 0 <= i < |xs|
      ensures Entry(c, img, xs[i]) == Entry(c, img2, xs[i])
    {
      SameEntryReads(c, img, img2, xs[i]);
    }
  }

  /** A file that still holds what a commit was sealed with shows the commit's table. */
  lemma HoldsShows(c: Codec, img: seq<Cell>, k: Commit)
    requires Holds(img, k)
    ensures TableAt(c, img, k.manifest) == Shown(c, k)
  {
    var xs := k.manifest.segments;
    forall i | 0 <= i < |xs|
      ensures SameEntry(img, k.sealed, xs[i])
    {
      forall p: nat | EntryOwners(xs[i], p) >= 1
        ensures p < |img| && p < |k.sealed| && img[p] == k.sealed[p]
      {
        Retiring.EntryProtected(k, xs[i], p);
      }
    }
    SameEntries(c, img, k.sealed, xs);
  }

  // ---- Building ----------------------------------------------------------------------------

  /** What the steps of a build do to the table being built. */
  function Built(c: Codec, t: Durability.Table, step: Step): Durability.Table {
    match step
    case AddSegment(bytes, _, _, _, _) =>
      t.(nextId := t.nextId + 1, segments := t.segments + [Durability.Segment(t.nextId, c.rows(bytes), None)])
    case SetDeletes(i, bytes, _, _, _) =>
      if i < |t.segments| then t.(segments := t.segments[i := t.segments[i].(deletes := Some(c.dead(bytes)))]) else t
    case DropSegment(i) =>
      if i < |t.segments| then t.(segments := t.segments[..i] + t.segments[i + 1..]) else t
    case Retire(_, sources) => t.(segments := Durability.WithoutIds(t.segments, IdsOf(sources)))
    case _ => t
  }

  /** A byte of an entry being built is in the file, and no other entry's. */
  lemma WorkInside(s: State, i: nat, p: nat)
    requires Inv(s) && s.phase.Building? && i < |s.phase.work.segments| && EntryOwners(s.phase.work.segments[i], p) >= 1
    ensures p < s.phase.work.fileLen <= |s.disk.image| && EntryOwners(s.phase.work.segments[i], p) == 1
    ensures forall j :: 0 <= j < |s.phase.work.segments| && j != i ==> EntryOwners(s.phase.work.segments[j], p) == 0
  {
    var xs := s.phase.work.segments;
    AheadAt(s.phase.work, s.cur.meta.manifest, s.Loser(), p);
    SegmentOwnersAt(xs, i, p);
    forall j | 0 <= j < |xs| && j != i
      ensures EntryOwners(xs[j], p) == 0
    {
      if j < i {
        SegmentOwnersAt(xs[..i], j, p);
      } else {
        SegmentOwnersAt(xs[i + 1..], j - i - 1, p);
      }
    }
  }

  lemma StoredBytes(d: Disk, e: Extent, bytes: seq<Cell>)
    requires d.Wf() && |bytes| == e.len && bytes != []
    ensures BytesAt(Stored(d, e, bytes).image, e) == bytes
  {
    StoredShape(d, e, bytes);
    var got := BytesAt(Stored(d, e, bytes).image, e);
    forall i | 0 <= i < e.len
      ensures got[i] == bytes[i]
    {
      assert e.Holds(e.offset + i);
    }
  }

  /** Entries off the range just written read as before. */
  lemma StoredEntry(d: Disk, e: Extent, bytes: seq<Cell>, x: SegmentEntry)
    requires d.Wf() && |bytes| == e.len
    requires forall p: nat :: EntryOwners(x, p) >= 1 ==> p < |d.image| && !e.Holds(p)
    ensures SameEntry(Stored(d, e, bytes).image, d.image, x)
  {
    StoredShape(d, e, bytes);
  }

  /** A segment just stored shares no byte with the entries there were. */
  lemma AddMisses(s: State, step: Step, t: State, i: nat)
    requires Inv(s) && Inv(t) && step.AddSegment? && Takes(s, step, t) && i < |s.phase.work.segments|
    ensures forall p: nat :: EntryOwners(s.phase.work.segments[i], p) >= 1 ==> p < |s.disk.image| && !step.e.Holds(p)
  {
    var xs, ys := s.phase.work.segments, t.phase.work.segments;
    Retiring.AllocatedSegments(s.phase.work, |step.bytes|, s.phase.minActive, step.m, step.e);
    assert ys[i] == xs[i] && ys[|xs|].data == step.e;
    forall p: nat | EntryOwners(xs[i], p) >= 1
      ensures p < |s.disk.image| && !step.e.Holds(p)
    {
      WorkInside(s, i, p);
      WorkInside(t, i, p);
    }
  }

  lemma AddEntries(c: Codec, img: seq<Cell>, img2: seq<Cell>, xs: seq<SegmentEntry>, y: SegmentEntry, bytes: seq<Cell>)
    requires forall i :: 0 <= i < |xs| ==> SameEntry(img2, img, xs[i])
    requires BytesAt(img2, y.data) == bytes && y.deletes == None
    ensures Entries(c, img2, xs + [y]) == Entries(c, img, xs) + [Durability.Segment(y.segmentId, c.rows(bytes), None)]
  {
    SameEntries(c, img2, img, xs);
    assert Entries(c, img2, xs + [y]) == Entries(c, img2, xs) + [Entry(c, img2, y)];
  }

  lemma AddShows(c: Codec, s: State, step: Step, t: State)
    requires Inv(s) && Inv(t) && step.AddSegment? && Takes(s, step, t)
    ensures TableAt(c, t.disk.image, t.phase.work) == Built(c, TableAt(c, s.disk.image, s.phase.work), step)
  {
    var xs, ys := s.phase.work.segments, t.phase.work.segments;
    Retiring.AllocatedSegments(s.phase.work, |step.bytes|, s.phase.minActive, step.m, step.e);
    forall i | 0 <= i < |xs|
      ensures SameEntry(t.disk.image, s.disk.image, xs[i])
    {
      AddMisses(s, step, t, i);
      StoredEntry(s.disk, step.e, step.bytes, xs[i]);
    }
    StoredBytes(s.disk, step.e, step.bytes);
    AddEntries(c, s.disk.image, t.disk.image, xs, ys[|xs|], step.bytes);
  }

  lemma SetShows(c: Codec, s: State, step: Step, t: State)
    requires Inv(s) && Inv(t) && step.SetDeletes? && Takes(s, step, t)
    ensures TableAt(c, t.disk.image, t.phase.work) == Built(c, TableAt(c, s.disk.image, s.phase.work), step)
  {
    var xs, ys, e, i := s.phase.work.segments, t.phase.work.segments, step.e, step.index;
    assert ys == xs[i := xs[i].(deletes := Some(e), deletedCount := step.count)];
    var bare := ys[i].(deletes := None);
    forall j | 0 <= j < |xs|
      ensures SameEntry(t.disk.image, s.disk.image, if j == i then bare else xs[j])
    {
      var x := if j == i then bare else xs[j];
      forall p: nat | EntryOwners(x, p) >= 1
        ensures p < |s.disk.image| && !e.Holds(p)
      {
        WorkInside(s, j, p);
        WorkInside(t, j, p);
        assert j != i ==> EntryOwners(ys[i], p) == 0;
      }
      StoredEntry(s.disk, e, step.bytes, x);
    }
    StoredBytes(s.disk, e, step.bytes);
    SetEntries(c, s.disk.image, t.disk.image, xs, i, ys);
  }

  lemma SetEntries(c: Codec, img: seq<Cell>, img2: seq<Cell>, xs: seq<SegmentEntry>, i: nat, ys: seq<SegmentEntry>)
    requires i < |xs| && |ys| == |xs| && ys[i].deletes.Some? && ys[i].data == xs[i].data && ys[i].segmentId == xs[i].segmentId
    requires forall j :: 0 <= j < |xs| && j != i ==> ys[j] == xs[j] && SameEntry(img2, img, xs[j])
    requires SameEntry(img2, img, ys[i].(deletes := None))
    ensures Entries(c, img2, ys) ==
              Entries(c, img, xs)[i := Entry(c, img, xs[i]).(deletes := Some(c.dead(BytesAt(img2, ys[i].deletes.value))))]
  {
    forall j | 0 <= j < |xs|
      ensures j != i ==> Entry(c, img2, ys[j]) == Entry(c, img, xs[j])
      ensures j == i ==> Entry(c, img2, ys[j]).rows == Entry(c, img, xs[j]).rows
    {
      if j == i {
        SameEntryReads(c, img2, img, ys[i].(deletes := None));
        assert Entry(c, img2, ys[i]).rows == Entry(c, img2, ys[i].(deletes := None)).rows;
        assert Entry(c, img, xs[i]).rows == Entry(c, img, ys[i].(deletes := None)).rows;
      } else {
        SameEntryReads(c, img2, img, xs[j]);
      }
    }
  }

  lemma {:induction false} FreeAllSegments(m: Manifest, sources: seq<SegmentEntry>)
    ensures var f := FreeAll(m, sources);
            f.segments == m.segments && f.checkpointLsn == m.checkpointLsn && f.nextSegmentId == m.nextSegmentId && f.nextSeqno == m.nextSeqno
  {
    if sources != [] {
      FreeAllSegments(m, sources[..|sources| - 1]);
    }
  }

  lemma {:induction false} UnnamedEntries(c: Codec, img: seq<Cell>, xs: seq<SegmentEntry>, ids: set<nat>)
    ensures Entries(c, img, Unnamed(xs, ids)) == Durability.WithoutIds(Entries(c, img, xs), ids)
  {
    if xs != [] {
      var init := xs[..|xs| - 1];
      UnnamedEntries(c, img, init, ids);
      assert Entries(c, img, xs)[..|xs| - 1] == Entries(c, img, init);
    }
  }

  lemma SchemaShows(c: Codec, s: State, step: Step, t: State)
    requires Inv(s) && step.WriteSchema? && Takes(s, step, t)
    ensures TableAt(c, t.disk.image, t.phase.work) == TableAt(c, s.disk.image, s.phase.work)
  {
    SchemaStoredShape(s.disk, step.blob);
    var xs := s.phase.work.segments;
    forall i | 0 <= i < |xs|
      ensures SameEntry(t.disk.image, s.disk.image, xs[i])
    {
      forall p: nat | EntryOwners(xs[i], p) >= 1
        ensures p < |s.disk.image| && p < |t.disk.image| && t.disk.image[p] == s.disk.image[p]
      {
        WorkInside(s, i, p);
      }
    }
    SameEntries(c, t.disk.image, s.disk.image, xs);
  }

  predicate Builds(step: Step) {
    step.AddSegment? || step.SetDeletes? || step.DropSegment? || step.Retire? || step.WriteSchema?
  }

  lemma DropShows(c: Codec, s: State, step: Step, t: State)
    requires step.DropSegment? && Takes(s, step, t)
    ensures TableAt(c, t.disk.image, t.phase.work) == Built(c, TableAt(c, s.disk.image, s.phase.work), step)
  {
    var xs := Entries(c, s.disk.image, s.phase.work.segments);
    assert Entries(c, s.disk.image, t.phase.work.segments) == xs[..step.index] + xs[step.index + 1..];
  }

  lemma RetireShows(c: Codec, s: State, step: Step, t: State)
    requires step.Retire? && Takes(s, step, t)
    ensures TableAt(c, t.disk.image, t.phase.work) == Built(c, TableAt(c, s.disk.image, s.phase.work), step)
  {
    var ids := IdsOf(step.sources);
    FreeAllSegments(s.phase.work.(segments := Unnamed(s.phase.work.segments, ids)), step.sources);
    UnnamedEntries(c, s.disk.image, s.phase.work.segments, ids);
  }

  /** A build step does to the table being built what its name says, and nothing else. */
  lemma BuildShows(c: Codec, s: State, step: Step, t: State)
    requires Inv(s) && Takes(s, step, t) && StepSafe(s, step) && Builds(step)
    ensures TableAt(c, t.disk.image, t.phase.work) == Built(c, TableAt(c, s.disk.image, s.phase.work), step)
  {
    if step.AddSegment? || step.SetDeletes? {
      StepKeeps(s, step, t);
    }
    match step
    case AddSegment(_, _, _, _, _) => AddShows(c, s, step, t);
    case SetDeletes(_, _, _, _, _) => SetShows(c, s, step, t);
    case DropSegment(_) => DropShows(c, s, step, t);
    case Retire(_, _) => RetireShows(c, s, step, t);
    case WriteSchema(_) => SchemaShows(c, s, step, t);
  }

  /** A build starts from the committed table, with the checkpoint and the next row number it is given. */
  lemma BeginShows(c: Codec, s: State, step: Step, t: State)
    requires Inv(s) && step.Begin? && Takes(s, step, t)
    ensures TableAt(c, t.disk.image, t.phase.work)
         == Shown(c, s.cur).(checkpoint := step.checkpointLsn, nextSeqno := step.nextSeqno)
  {
    HoldsShows(c, s.disk.image, s.cur);
  }

  /** What is sealed shows the table that was built. */
  lemma AppendShows(c: Codec, s: State, step: Step, t: State)
    requires Inv(s) && step.AppendManifest? && Takes(s, step, t)
    ensures Shown(c, t.phase.next) == TableAt(c, s.disk.image, s.phase.work)
  {
    var xs := s.phase.work.segments;
    AppendShape(s.disk, s.phase.work, s.Loser(), step.room);
    forall i | 0 <= i < |xs|
      ensures SameEntry(t.disk.image, s.disk.image, xs[i])
    {
      forall p: nat | EntryOwners(xs[i], p) >= 1
        ensures p < |s.disk.image| && p < |t.disk.image| && t.disk.image[p] == s.disk.image[p]
      {
        WorkInside(s, i, p);
      }
    }
    SameEntries(c, t.disk.image, s.disk.image, xs);
  }

  /** A crash image decodes as the committed table, or as the one whose meta page was in flight. */
  lemma CrashShows(c: Codec, s: State, img: seq<Cell>)
    requires Inv(s) && s.disk.Survives(img)
    ensures ReadCommitted(img).Some?
    ensures var r := ReadCommitted(img).value;
            var seen := TableAt(c, img, r.manifest);
            if r.meta == s.cur.meta then seen == Shown(c, s.cur)
            else s.phase.Flipping? && r.meta == s.phase.next.meta && seen == Shown(c, s.phase.next)
  {
    RecoversAcknowledgedOrInFlight(s, img);
    GuardedSurvives(s.disk, img, s.cur);
    HoldsShows(c, img, s.cur);
    if s.phase.Flipping? {
      GuardedSurvives(s.disk, img, s.phase.next);
      HoldsShows(c, img, s.phase.next);
    }
  }
}
