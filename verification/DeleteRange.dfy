/** Delete vectors name rows their segments have, at least one each. */
module DeleteRanges {
  import opened Memtables
  import opened Wal
  import opened Durability
  import opened DurabilityProof
  import opened Requests

  /** Every vector in memory names rows of its segment. */
  ghost predicate InRange(segments: seq<Segment>, deletes: map<nat, set<nat>>) {
    && (forall id :: id in deletes ==> deletes[id] != {})
    && (forall i, p :: 0 <= i < |segments| && p in DeadOf(deletes, segments[i].id) ==> p < |segments[i].rows|)
  }

  ghost predicate StoredInRange(segments: seq<Segment>) {
    && (forall i :: 0 <= i < |segments| && segments[i].deletes.Some? ==> segments[i].deletes.value != {})
    && (forall i, p :: 0 <= i < |segments| && segments[i].deletes.Some? && p in segments[i].deletes.value ==> p < |segments[i].rows|)
  }

  ghost predicate Fits(segments: seq<Segment>, d: SegmentDeletes) {
    && d.rows != {}
    && (forall i, p :: 0 <= i < |segments| && segments[i].id == d.segmentId && p in d.rows ==> p < |segments[i].rows|)
  }

  ghost predicate RecordFits(segments: seq<Segment>, r: Record) {
    !r.Insert? ==> forall k :: 0 <= k < |r.segments| ==> Fits(segments, r.segments[k])
  }

  /** So does everything a reopen would read back: the stored vectors, and the logged ones a commit has not folded in. */
  ghost predicate RangesOk(t: Table, logs: Logs) {
    && StoredInRange(t.segments)
    && forall r :: r in Above(logs.InOrder(), t.checkpoint) ==> RecordFits(t.segments, r)
  }

  // ---- From the medium to memory ---------------------------------------------------

  lemma {:induction false} LoadedInRange(segments: seq<Segment>)
    requires StoredInRange(segments) && forall a, b :: 0 <= a < b < |segments| ==> segments[a].id != segments[b].id
    ensures InRange(segments, LoadDeletes(segments))
  {
    var loaded := LoadDeletes(segments);
    forall i, p | 0 <= i < |segments| && p in DeadOf(loaded, segments[i].id)
      ensures p < |segments[i].rows|
    {
      LoadHas(segments, segments[i].id);
      var k :| 0 <= k < |segments| && segments[k].id == segments[i].id && segments[k].deletes.Some?;
      LoadAt(segments, k);
    }
    forall id | id in loaded
      ensures loaded[id] != {}
    {
      LoadHas(segments, id);
      var k :| 0 <= k < |segments| && segments[k].id == id && segments[k].deletes.Some?;
      LoadAt(segments, k);
    }
  }

  lemma {:induction false} MarkInRange(t: Table, l: Live, segs: seq<SegmentDeletes>)
    requires InRange(t.segments, l.deletes)
    requires forall k :: 0 <= k < |segs| ==> Fits(t.segments, segs[k])
    ensures InRange(t.segments, Mark(t, l, segs).deletes)
  {
    if segs != [] {
      var init, d := segs[..|segs| - 1], segs[|segs| - 1];
      MarkInRange(t, l, init);
      assert d == segs[|segs| - 1] && Fits(t.segments, d);
      var before, after := Mark(t, l, init).deletes, Mark(t, l, segs).deletes;
      forall i, p | 0 <= i < |t.segments| && p in DeadOf(after, t.segments[i].id)
        ensures p < |t.segments[i].rows|
      {
        assert t.segments[i].id != d.segmentId ==> DeadOf(after, t.segments[i].id) == DeadOf(before, t.segments[i].id);
      }
    }
  }

  lemma {:induction false} ApplyAllInRange(t: Table, l: Live, records: seq<Record>)
    requires InRange(t.segments, l.deletes) && forall r :: r in records ==> RecordFits(t.segments, r)
    ensures InRange(t.segments, ApplyAll(t, l, records).deletes)
  {
    if records != [] {
      var init, r := records[..|records| - 1], records[|records| - 1];
      ApplyAllInRange(t, l, init);
      var before := ApplyAll(t, l, init);
      assert RecordFits(t.segments, r);
      if !r.Insert? {
        MarkInRange(t, before, r.segments);
      }
      assert Apply(t, before, r).deletes == if r.Insert? then before.deletes else Mark(t, before, r.segments).deletes;
      assert ApplyAll(t, l, records).deletes == Apply(t, before, r).deletes;
    }
  }

  /** What a reopen builds is in range when what it reads is. */
  lemma RecoverInRange(t: Table, logs: Logs)
    requires t.Ok() && Told(logs) && Increasing(logs.InOrder()) && RangesOk(t, logs)
    ensures InRange(t.segments, Recover(t, logs).deletes)
  {
    RecoveredInOrder(logs);
    LoadedInRange(t.segments);
    ApplyAllInRange(t, FromTable(t), Above(logs.InOrder(), t.checkpoint));
  }

  // ---- What keeps it ---------------------------------------------------------------

  /** A plan names positions inside their segments, and starts from vectors that do. */
  lemma {:induction false} PlanFits(t: Table, l: Live, ds: seq<Deletion>)
    requires t.Ok() && InRange(t.segments, l.deletes)
    ensures forall k :: 0 <= k < |PlanSegments(t, l, ds)| ==> Fits(t.segments, PlanSegments(t, l, ds)[k])
  {
    if ds != [] {
      var init, d := ds[..|ds| - 1], ds[|ds| - 1];
      PlanFits(t, l, init);
      forall i, p | 0 <= i < |t.segments| && t.segments[i].id == d.segmentId && p in DeadOf(l.deletes, d.segmentId) + Fresh(t, l, d)
        ensures p < |t.segments[i].rows|
      {
        RowsInAt(t.segments, i);
      }
    }
  }

  lemma AppendedFit(t: Table, logs: Logs, records: seq<Record>)
    requires Told(logs) && RangesOk(t, logs) && forall r :: r in records ==> RecordFits(t.segments, r)
    ensures RangesOk(t, logs.Appended(records))
  {
    AppendedInOrder(logs, records);
    AboveConcat(logs.InOrder(), records, t.checkpoint);
    forall r | r in Above(records, t.checkpoint)
      ensures r in records
    {
      AboveIn(records, t.checkpoint, r);
    }
  }

  /** A flush stores vectors that are in range, and leaves nothing to replay. */
  lemma FlushedFit(t: Table, l: Live, logs: Logs, groups: seq<seq<Row>>)
    requires InRange(t.segments, l.deletes) && StoredInRange(t.segments)
    requires l.nextLsn > 0 && Above(logs.InOrder(), l.nextLsn - 1) == []
    ensures RangesOk(Flushed(t, l.mem, l.dirty, l.deletes, l.nextLsn, groups), logs)
  {
    var u := Flushed(t, l.mem, l.dirty, l.deletes, l.nextLsn, groups);
    StampAt(t.segments, l.dirty, l.deletes);
    NewSegmentsAt(t.nextId, groups);
    forall i, p | 0 <= i < |u.segments| && u.segments[i].deletes.Some? && p in u.segments[i].deletes.value
      ensures p < |u.segments[i].rows|
    {
      var s := t.segments[i];
      assert s.id in l.deletes ==> DeadOf(l.deletes, s.id) == l.deletes[s.id];
    }
  }

  /** Replacing segments keeps the vectors of those that stay, and brings in segments without any. */
  lemma ReplacedFit(t: Table, logs: Logs, bound: nat, ids: set<nat>, groups: seq<seq<Row>>)
    requires t.Ok() && LogsOk(t, logs, bound) && RangesOk(t, logs)
    ensures RangesOk(Compacted(t, ids, groups), logs)
  {
    var all, u := t.segments + NewSegments(t.nextId, groups), Compacted(t, ids, groups);
    NewSegmentsAt(t.nextId, groups);
    forall i | 0 <= i < |u.segments|
      ensures u.segments[i] in t.segments || (u.segments[i].id >= t.nextId && u.segments[i].deletes.None?)
    {
      WithoutIdsHas(all, ids, u.segments[i]);
    }
    forall r | r in Above(logs.InOrder(), t.checkpoint)
      ensures RecordFits(u.segments, r)
    {
      AboveIn(logs.InOrder(), t.checkpoint, r);
      assert RecordFits(t.segments, r) && NamesBelow(r, t.nextId);
    }
  }
}
