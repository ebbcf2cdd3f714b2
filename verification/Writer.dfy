/** The writer: requests logged and applied, flushes committed, and the durable moments passed. */
module Writers {
  import opened Layout
  import opened Sequences
  import opened Memtables
  import opened Wal
  import opened Durability
  import opened DurabilityProof
  import opened DurabilityRuns
  import opened Requests
  import opened DeleteRanges
  import opened RowGroups

  datatype Outcome = Done(rows: nat) | UnknownSegment(id: nat)

  /** A flush's three moments: logs rotated, table committed, retired log truncated. */
  ghost predicate FlushSteps(s: State, rotated: State, committed: State, groups: seq<seq<Row>>, u: State) {
    && Takes(s, Rotate, rotated)
    && Takes(rotated, CommitFlush(groups), committed)
    && Takes(committed, TruncateRetired, u)
  }

  /** The rows of each group that has any: a group without rows becomes no segment. */
  function Groups(groups: seq<seq<seq<Row>>>): seq<seq<Row>> {
    if groups == [] then []
    else
      var last := Flatten(groups[|groups| - 1]);
      Groups(groups[..|groups| - 1]) + (if last == [] then [] else [last])
  }

  lemma {:induction false} GroupsFlatten(groups: seq<seq<seq<Row>>>)
    ensures Flatten(Groups(groups)) == AllRows(groups)
  {
    if groups != [] {
      var init, last := groups[..|groups| - 1], Flatten(groups[|groups| - 1]);
      GroupsFlatten(init);
      FlattenPush(Groups(init), last);
      if last == [] {
        assert Groups(groups) == Groups(init);
        assert AllRows(groups) == AllRows(init);
      }
    }
  }

  /** What the medium held after one durable effect, and what memory said at that moment. */
  datatype Moment = Moment(table: Table, logs: Logs, live: Live)

  /** What a crash at that moment reopens to. */
  function ReopenedRows(m: Moment): multiset<Row> {
    Content(m.table, Recover(m.table, m.logs))
  }

  /** A request's records reach the log in one append, while memory still shows the rows from before it. */
  ghost predicate LoggedFirst(before: seq<Moment>, after: seq<Moment>, s: State, records: seq<Record>) {
    after == if records == [] then before
             else before + [Moment(s.table, s.logs.Appended(records), s.live.(nextLsn := s.live.nextLsn + |records|))]
  }

  class Writer {
    /** The last commit. */
    var table: Table
    const wal: WalPair
    const memtable: Memtable
    /** Deleted positions by segment id. */
    var deletes: map<nat, set<nat>>
    /** Segments whose deletions are logged but not committed. */
    var dirty: set<nat>
    var nextLsn: nat
    /** Every durable effect so far, in order. */
    ghost var passed: seq<Moment>

    ghost function Memory(): Live
      reads this, memtable
    {
      Live(memtable.View(), deletes, dirty, nextLsn)
    }

    ghost function Now(): State
      reads this, wal, memtable
    {
      State(table, wal.files, Memory(), Idle)
    }

    ghost predicate Valid()
      reads this, wal, memtable
    {
      wal.Valid() && memtable.Valid() && Inv(Now()) && RangesOk(table, wal.files) && Traced()
    }

    /** The medium is as its last durable effect left it: nothing changes it unrecorded. */
    ghost predicate Traced()
      reads this, wal
    {
      passed != [] && passed[|passed| - 1].table == table && passed[|passed| - 1].logs == wal.files
    }

    // ---- Durable effects -----------------------------------------------------------

    method Append(records: seq<Record>)
      requires wal.Valid()
      modifies this`passed, wal
      ensures wal.Valid() && wal.files == old(wal.files).Appended(records)
      ensures passed == old(passed) + [Moment(table, wal.files, Memory())]
    {
      wal.AppendGroup(records);
      passed := passed + [Moment(table, wal.files, Memory())];
    }

    method SwitchLogs() returns (retired: nat)
      requires wal.Valid()
      modifies this`passed, wal
      ensures wal.Valid() && wal.files == old(wal.files).Rotated() && retired == old(wal.files).Newest()
      ensures passed == old(passed) + [Moment(table, wal.files, Memory())]
    {
      retired := wal.Rotate();
      passed := passed + [Moment(table, wal.files, Memory())];
    }

    method Commit(next: Table)
      modifies this`passed, this`table
      ensures table == next && passed == old(passed) + [Moment(table, wal.files, Memory())]
    {
      table := next;
      passed := passed + [Moment(table, wal.files, Memory())];
    }

    method DropLog(retired: nat)
      requires wal.Valid() && retired <= 1
      modifies this`passed, wal
      ensures wal.Valid() && wal.files == old(wal.files).Truncated(retired)
      ensures passed == old(passed) + [Moment(table, wal.files, Memory())]
    {
      wal.Truncate(retired);
      passed := passed + [Moment(table, wal.files, Memory())];
    }

    // ---- Opening -------------------------------------------------------------------

    /** Load the last commit, then replay both logs over it. */
    constructor (table: Table, files: Logs)
      requires FitsSeq(table.nextSeqno, Above(files.Recovered(), table.checkpoint))
      ensures wal.Valid() && memtable.Valid() && Traced()
      ensures Now() == State(table, files, Recover(table, files), Idle)
      ensures fresh(wal) && fresh(memtable) && |passed| == 1
    {
      this.table := table;
      wal := new WalPair(files);
      memtable := new Memtable(table.nextSeqno);
      var loaded := LoadAll(table.segments);
      deletes, dirty, nextLsn := loaded, {}, table.checkpoint + 1;
      passed := [Moment(table, files, FromTable(table))];
      new;
      Replay();
    }

    /** Apply the records above the checkpoint, oldest first. */
    method Replay()
      requires wal.Valid() && memtable.Valid() && Memory() == FromTable(table)
      requires FitsSeq(table.nextSeqno, Above(wal.files.Recovered(), table.checkpoint))
      modifies this`deletes, this`dirty, this`nextLsn, wal`active, memtable
      ensures wal.Valid() && memtable.Valid() && Memory() == Recover(table, wal.files)
    {
      var records := wal.Recover();
      ReplayAll(records);
    }

    method ReplayAll(records: seq<Record>)
      requires memtable.Valid() && Memory() == FromTable(table)
      requires FitsSeq(table.nextSeqno, Above(records, table.checkpoint))
      modifies this`deletes, this`dirty, this`nextLsn, memtable
      ensures memtable.Valid() && Memory() == ApplyAll(table, FromTable(table), Above(records, table.checkpoint))
    {
      ReplayStarts(table);
      var highest: nat := table.checkpoint;
      for i := 0 to |records|
        invariant memtable.Valid() && Replayed(table, Memory(), highest, records[..i])
      {
        highest := ReplayNext(records, i, highest);
      }
      assert records[..|records|] == records;
      nextLsn := highest + 1;
    }

    method ReplayNext(records: seq<Record>, i: nat, highest: nat) returns (seen: nat)
      requires memtable.Valid() && i < |records|
      requires FitsSeq(table.nextSeqno, Above(records, table.checkpoint))
      requires Replayed(table, Memory(), highest, records[..i])
      modifies this`deletes, this`dirty, memtable
      ensures memtable.Valid() && table == old(table)
      ensures Replayed(table, Memory(), seen, records[..i + 1])
    {
      seen := highest;
      ghost var before := Above(records[..i], table.checkpoint);
      assert records[..i + 1] == records[..i] + [records[i]];
      assert records[..i + 1][..i] == records[..i];
      if records[i].lsn <= table.checkpoint {
        // at or below the checkpoint
        assert Above(records[..i + 1], table.checkpoint) == before;
        return;
      }
      FitsNext(table, FromTable(table), records, i);
      ReplayAdvances(table, Memory(), highest, records[..i], records[i]);
      seen := Most(seen, records[i].lsn);
      ReplayOne(records[i]);
    }

    method ReplayOne(r: Record)
      requires memtable.Valid() && (!r.Delete? ==> memtable.nextSeqno <= r.base)
      modifies this`deletes, this`dirty, memtable
      ensures memtable.Valid() && table == old(table)
      ensures Memory() == Apply(table, old(Memory()), r).(nextLsn := old(nextLsn))
    {
      MarkNumbers(table, Memory(), if r.Insert? then [] else r.segments);
      match r
      case Insert(_, base, rows) =>
        memtable.InsertAt(base, rows);
      case Delete(_, segments, seqnos) =>
        ApplyLogged(segments);
        var _ := memtable.Delete(seqnos);
      case Update(_, segments, seqnos, base, rows) =>
        ApplyLogged(segments);
        var _ := memtable.Delete(seqnos);
        memtable.InsertAt(base, rows);
    }

    /** Put logged delete vectors back; a segment dropped since has nothing to mark. */
    method ApplyLogged(segments: seq<SegmentDeletes>)
      modifies this`deletes, this`dirty
      ensures table == old(table) && nextLsn == old(nextLsn)
      ensures Memory() == Mark(table, old(Memory()), segments)
    {
      for i := 0 to |segments|
        invariant table == old(table) && nextLsn == old(nextLsn)
        invariant Memory() == Mark(table, old(Memory()), segments[..i])
      {
        assert segments[..i + 1][..i] == segments[..i];
        var d := segments[i];
        if table.Has(d.segmentId) {
          deletes := deletes[d.segmentId := d.rows];
          dirty := dirty + {d.segmentId};
        }
      }
      assert segments[..|segments|] == segments;
    }

    // ---- Requests ------------------------------------------------------------------

    /** Append rows: one record for each batch, one sync for all of them. */
    method Insert(batches: seq<seq<Row>>) returns (rows: nat, ghost records: seq<Record>)
      requires Valid()
      modifies this, wal, memtable
      ensures Valid() && rows == |Flatten(batches)|
      ensures records == InsertRecords(old(nextLsn), old(Memory()).mem.next, batches)
      ensures Takes(old(Now()), Write(records), Now()) && LoggedFirst(old(passed), passed, old(Now()), records)
      ensures Now().Rows() == old(Now()).Rows() + multiset(Flatten(batches))
    {
      ghost var was := Now();
      InsertLands(was, batches);
      rows := CountRows(batches);
      if rows == 0 {
        NoRows(nextLsn, memtable.nextSeqno, batches);
        records := [];
        SameLogs(wal.files);
        return;
      }
      records := LogInserts(batches);
    }

    method LogInserts(batches: seq<seq<Row>>) returns (frames: seq<Record>)
      requires wal.Valid() && memtable.Valid() && Flatten(batches) != []
      modifies this, wal, memtable
      ensures wal.Valid() && memtable.Valid()
      ensures frames == InsertRecords(old(nextLsn), old(Memory()).mem.next, batches)
      ensures Now() == Wrote(old(Now()), frames) && LoggedFirst(old(passed), passed, old(Now()), frames)
    {
      ghost var was := Memory();
      InsertAdds(table, was, batches);
      SomeRecords(nextLsn, memtable.nextSeqno, batches);
      frames := WriteInserts(batches);
      ApplyInserts(frames, was);
    }

    method WriteInserts(batches: seq<seq<Row>>) returns (frames: seq<Record>)
      requires wal.Valid()
      modifies this`nextLsn, this`passed, wal
      ensures wal.Valid() && wal.files == old(wal.files).Appended(frames) && nextLsn == old(nextLsn) + |frames|
      ensures frames == InsertRecords(old(nextLsn), memtable.nextSeqno, batches)
      ensures forall i :: 0 <= i < |frames| ==> frames[i].Insert?
      ensures passed == old(passed) + [Moment(table, wal.files, Memory())]
    {
      frames := PlanInserts(batches);
      Append(frames);
    }

    /** The records of an insertion, one per batch with rows, numbered from the next lsn. */
    method PlanInserts(batches: seq<seq<Row>>) returns (frames: seq<Record>)
      modifies this`nextLsn
      ensures frames == InsertRecords(old(nextLsn), memtable.nextSeqno, batches)
      ensures nextLsn == old(nextLsn) + |frames|
      ensures forall i :: 0 <= i < |frames| ==> frames[i].Insert?
    {
      frames := [];
      var base := memtable.nextSeqno;
      for i := 0 to |batches|
        invariant frames == InsertRecords(old(nextLsn), memtable.nextSeqno, batches[..i])
        invariant base == memtable.nextSeqno + |Flatten(batches[..i])|
        invariant nextLsn == old(nextLsn) + |frames|
        invariant forall k :: 0 <= k < |frames| ==> frames[k].Insert?
      {
        assert batches[..i + 1][..i] == batches[..i];
        if batches[i] != [] {
          frames := frames + [Record.Insert(nextLsn, base, batches[i])];
          nextLsn := nextLsn + 1;
          base := base + |batches[i]|;
        }
      }
      assert batches[..|batches|] == batches;
    }

    /** Apply the logged batches to memory. */
    method ApplyInserts(frames: seq<Record>, ghost was: Live)
      requires memtable.Valid() && Memory() == was.(nextLsn := nextLsn)
      requires forall i :: 0 <= i < |frames| ==> frames[i].Insert?
      requires PlannedAll(table, was, frames)
      requires nextLsn == ApplyAll(table, was, frames).nextLsn
      modifies memtable
      ensures memtable.Valid() && Memory() == ApplyAll(table, was, frames)
    {
      for i := 0 to |frames|
        invariant memtable.Valid()
        invariant Memory() == ApplyAll(table, was, frames[..i]).(nextLsn := nextLsn)
      {
        PlannedPrefix(table, was, frames, i + 1);
        assert frames[..i + 1][..i] == frames[..i];
        memtable.InsertAt(frames[i].base, frames[i].rows);
      }
      assert frames[..|frames|] == frames;
    }

    /** One segment's delete vector with the named positions added, those past its end ignored. */
    method Widen(d: Deletion) returns (dv: set<nat>, grown: nat)
      ensures dv == DeadOf(deletes, d.segmentId) + Fresh(table, Memory(), d)
      ensures grown == |Fresh(table, Memory(), d)|
      ensures grown == 0 <==> Fresh(table, Memory(), d) == {}
    {
      var rowCount := |RowsIn(table.segments, d.segmentId)|;
      var before := DeadOf(deletes, d.segmentId);
      dv := before + set p | p in d.positions && p < rowCount;
      assert dv - before == Fresh(table, Memory(), d);
      GrownBy(before, dv);
      grown := |dv| - |before|;
    }

    /** The vectors and the count a deletion comes to, or the first unknown segment it names. */
    method PlanDeletes(ds: seq<Deletion>) returns (unknown: Option<nat>, segs: seq<SegmentDeletes>, count: nat)
      ensures unknown.None? <==> AllKnown(table, ds)
      ensures unknown.Some? ==> !table.Has(unknown.value)
      ensures unknown.None? ==> segs == PlanSegments(table, Memory(), ds) && count == PlanCount(table, Memory(), ds)
    {
      unknown, segs, count := None, [], 0;
      var i := 0;
      while i < |ds| && unknown.None?
        invariant i <= |ds|
        invariant unknown.None? ==> AllKnown(table, ds[..i])
        invariant unknown.Some? ==> !AllKnown(table, ds) && !table.Has(unknown.value)
        invariant unknown.None? ==>
                    segs == PlanSegments(table, Memory(), ds[..i]) && count == PlanCount(table, Memory(), ds[..i])
        decreases |ds| - i, unknown.None?
      {
        unknown, segs, count := PlanOne(ds, i, segs, count);
        i := i + 1;
      }
      assert unknown.None? ==> ds[..i] == ds;
    }

    method PlanOne(ds: seq<Deletion>, i: nat, before: seq<SegmentDeletes>, counted: nat)
      returns (unknown: Option<nat>, segs: seq<SegmentDeletes>, count: nat)
      requires i < |ds| && AllKnown(table, ds[..i])
      requires before == PlanSegments(table, Memory(), ds[..i]) && counted == PlanCount(table, Memory(), ds[..i])
      ensures unknown.None? ==> AllKnown(table, ds[..i + 1])
      ensures unknown.Some? ==> !AllKnown(table, ds) && !table.Has(unknown.value)
      ensures unknown.None? ==>
                segs == PlanSegments(table, Memory(), ds[..i + 1]) && count == PlanCount(table, Memory(), ds[..i + 1])
    {
      unknown, segs, count := None, before, counted;
      if !table.Has(ds[i].segmentId) {
        return Some(ds[i].segmentId), segs, count;
      }
      PlanPush(table, Memory(), ds, i);
      var dv, grown := Widen(ds[i]);
      if grown > 0 {
        count := count + grown;
        segs := segs + [SegmentDeletes(ds[i].segmentId, dv)];
      }
    }

    /** The named numbers that are live. */
    method PlanSeqnos(seqnos: seq<nat>) returns (kept: seq<nat>)
      requires memtable.Valid()
      ensures SameLive(Memory(), kept, seqnos)
      ensures kept == [] ==> Only(memtable.View().live, SetOf(seqnos)) == []
    {
      kept := [];
      for i := 0 to |seqnos|
        invariant forall s :: s in kept ==> s in seqnos[..i]
        invariant forall s :: s in seqnos[..i] && s !in memtable.tombstones ==> s in kept
      {
        if !memtable.IsDeleted(seqnos[i]) {
          kept := kept + [seqnos[i]];
        }
      }
      assert seqnos[..|seqnos|] == seqnos;
      var live := memtable.View().live;
      forall i | 0 <= i < |live|
        ensures live[i].0 in SetOf(kept) <==> live[i].0 in SetOf(seqnos)
      {
        LiveAreHeld(memtable.chunks, memtable.tombstones, live[i]);
      }
      WithoutAgree(live, SetOf(kept), SetOf(seqnos));
      OnlyAgree(live, SetOf(kept), SetOf(seqnos));
      if kept == [] {
        OnlyNone(live, SetOf(kept));
      }
    }

    /** The named rows go, logged as one record. */
    method Delete(ds: seq<Deletion>, seqnos: seq<nat>) returns (r: Outcome, ghost records: seq<Record>)
      requires Valid()
      modifies this, wal, memtable
      ensures Valid() && Takes(old(Now()), Write(records), Now())
      ensures LoggedFirst(old(passed), passed, old(Now()), records)
      ensures r.Done? <==> AllKnown(old(table), ds)
      ensures r.UnknownSegment? ==> !old(table).Has(r.id) && Now() == old(Now())
      ensures r.Done? ==>
                old(Now()).Rows() == Now().Rows() + Removed(old(table), old(Memory()), ds, seqnos)
      ensures r.Done? ==> r.rows == Count(old(table), old(Memory()), ds, seqnos)
    {
      ghost var was, kept := Now(), [];
      NothingWritten(was);
      r, records, kept := TryDelete(ds, seqnos);
      if records != [] {
        DeleteLands(was, ds, seqnos, kept);
      }
    }

    method TryDelete(ds: seq<Deletion>, seqnos: seq<nat>)
      returns (r: Outcome, ghost records: seq<Record>, ghost kept: seq<nat>)
      requires wal.Valid() && memtable.Valid()
      modifies this, wal, memtable
      ensures wal.Valid() && memtable.Valid() && Now() == Wrote(old(Now()), records)
      ensures LoggedFirst(old(passed), passed, old(Now()), records)
      ensures r.Done? <==> AllKnown(old(table), ds)
      ensures r.UnknownSegment? ==> !old(table).Has(r.id) && records == []
      ensures r.Done? && records == [] ==> Removed(old(table), old(Memory()), ds, seqnos) == multiset{}
      ensures records != [] ==>
                && SameLive(old(Memory()), kept, seqnos) && r.Done?
                && records == [Record.Delete(old(nextLsn), PlanSegments(old(table), old(Memory()), ds), kept)]
      ensures r.Done? ==> r.rows == Count(old(table), old(Memory()), ds, seqnos)
    {
      records, kept := [], [];
      NothingWritten(Now());
      var unknown, segs, trimmed, count := Plan(ds, seqnos);
      if unknown.Some? {
        return UnknownSegment(unknown.value), [], [];
      }
      if |segs| == 0 && |trimmed| == 0 {
        return Done(0), [], [];
      }
      var deleted;
      deleted, records := LogDelete(segs, trimmed);
      kept := trimmed;
      r := Done(count + deleted);
    }

    /** Everything a deletion needs before it may be logged. */
    method Plan(ds: seq<Deletion>, seqnos: seq<nat>)
      returns (unknown: Option<nat>, segs: seq<SegmentDeletes>, kept: seq<nat>, count: nat)
      requires memtable.Valid()
      ensures unknown.None? <==> AllKnown(table, ds)
      ensures unknown.Some? ==> !table.Has(unknown.value)
      ensures unknown.None? ==>
                && segs == PlanSegments(table, Memory(), ds)
                && (forall i :: 0 <= i < |segs| ==> table.Has(segs[i].segmentId))
                && SameLive(Memory(), kept, seqnos)
                && Count(table, Memory(), ds, seqnos) == count + |Only(Memory().mem.live, SetOf(kept))|
      ensures unknown.None? && segs == [] && kept == [] ==>
                Count(table, Memory(), ds, seqnos) == 0 && Removed(table, Memory(), ds, seqnos) == multiset{}
    {
      unknown, segs, count := PlanDeletes(ds);
      kept := PlanSeqnos(seqnos);
      if unknown.None? {
        PlanGrows(table, Memory(), ds);
        if segs == [] && kept == [] {
          NothingRemoved(table, Memory(), ds, seqnos);
        }
      }
    }

    method LogDelete(segs: seq<SegmentDeletes>, seqnos: seq<nat>) returns (deleted: nat, ghost records: seq<Record>)
      requires wal.Valid() && memtable.Valid()
      requires forall i :: 0 <= i < |segs| ==> table.Has(segs[i].segmentId)
      modifies this, wal, memtable
      ensures wal.Valid() && memtable.Valid()
      ensures records == [Record.Delete(old(nextLsn), segs, seqnos)]
      ensures Now() == Wrote(old(Now()), records) && LoggedFirst(old(passed), passed, old(Now()), records)
      ensures deleted == |Only(old(Memory()).mem.live, SetOf(seqnos))|
    {
      ghost var was := Memory();
      records := [Record.Delete(nextLsn, segs, seqnos)];
      DeleteApplied(table, was, segs, seqnos);
      nextLsn := nextLsn + 1;
      Append([Record.Delete(nextLsn - 1, segs, seqnos)]);
      deleted := ApplyPlanned(segs, seqnos);
    }

    /** Install planned deletions in memory. Returns how many memtable rows they removed. */
    method ApplyPlanned(segs: seq<SegmentDeletes>, seqnos: seq<nat>) returns (deleted: nat)
      requires memtable.Valid()
      requires forall i :: 0 <= i < |segs| ==> table.Has(segs[i].segmentId)
      modifies this`deletes, this`dirty, memtable
      ensures memtable.Valid() && table == old(table)
      ensures var m := Mark(table, old(Memory()), segs); Memory() == m.(mem := old(Memory()).mem.Deleted(seqnos))
      ensures deleted == |Only(old(Memory()).mem.live, SetOf(seqnos))|
    {
      LiveSplit(Memory().mem.live, SetOf(seqnos));
      ApplyDeletes(segs);
      deleted := memtable.Delete(seqnos);
    }

    /** The named rows go and the new ones come, logged as at most one record. */
    method Update(ds: seq<Deletion>, seqnos: seq<nat>, replacements: seq<seq<Row>>)
      returns (r: Outcome, ghost records: seq<Record>)
      requires Valid()
      modifies this, wal, memtable
      ensures Valid() && Takes(old(Now()), Write(records), Now()) && |records| <= 1
      ensures LoggedFirst(old(passed), passed, old(Now()), records)
      ensures r.Done? <==> AllKnown(old(table), ds)
      ensures r.UnknownSegment? ==> !old(table).Has(r.id) && Now() == old(Now())
      ensures r.Done? ==>
                old(Now()).Rows() + multiset(Flatten(replacements))
                  == Now().Rows() + Removed(old(table), old(Memory()), ds, seqnos)
      ensures r.Done? ==>
                r.rows == Most(Count(old(table), old(Memory()), ds, seqnos), |Flatten(replacements)|)
    {
      ghost var was, kept := Now(), [];
      NothingWritten(was);
      r, records, kept := TryUpdate(ds, seqnos, replacements);
      if records != [] {
        UpdateLands(was, ds, seqnos, kept, Flatten(replacements));
      }
    }

    method TryUpdate(ds: seq<Deletion>, seqnos: seq<nat>, replacements: seq<seq<Row>>)
      returns (r: Outcome, ghost records: seq<Record>, ghost kept: seq<nat>)
      requires wal.Valid() && memtable.Valid()
      modifies this, wal, memtable
      ensures wal.Valid() && memtable.Valid() && Now() == Wrote(old(Now()), records)
      ensures LoggedFirst(old(passed), passed, old(Now()), records)
      ensures r.Done? <==> AllKnown(old(table), ds)
      ensures r.UnknownSegment? ==> !old(table).Has(r.id) && records == []
      ensures r.Done? && records == [] ==>
                Removed(old(table), old(Memory()), ds, seqnos) == multiset{} && Flatten(replacements) == []
      ensures records != [] ==>
                && SameLive(old(Memory()), kept, seqnos) && r.Done?
                && records == [Record.Update(old(nextLsn), PlanSegments(old(table), old(Memory()), ds), kept,
                                             old(Memory()).mem.next, Flatten(replacements))]
      ensures r.Done? ==>
                r.rows == Most(Count(old(table), old(Memory()), ds, seqnos), |Flatten(replacements)|)
    {
      records, kept := [], [];
      NothingWritten(Now());
      var rows := CountRows(replacements);
      var unknown, segs, trimmed, count := Plan(ds, seqnos);
      if unknown.Some? {
        return UnknownSegment(unknown.value), [], [];
      }
      if |segs| == 0 && |trimmed| == 0 && rows == 0 {
        return Done(0), [], [];
      }
      var merged := Concat(replacements);
      var deleted;
      deleted, records := LogUpdate(segs, trimmed, merged);
      kept := trimmed;
      r := Done(Most(count + deleted, rows));
    }

    /** The deletion is applied before the insertion. */
    method LogUpdate(segs: seq<SegmentDeletes>, seqnos: seq<nat>, rows: seq<Row>)
      returns (deleted: nat, ghost records: seq<Record>)
      requires wal.Valid() && memtable.Valid()
      requires forall i :: 0 <= i < |segs| ==> table.Has(segs[i].segmentId)
      modifies this, wal, memtable
      ensures wal.Valid() && memtable.Valid()
      ensures records == [Record.Update(old(nextLsn), segs, seqnos, old(Memory()).mem.next, rows)]
      ensures Now() == Wrote(old(Now()), records) && LoggedFirst(old(passed), passed, old(Now()), records)
      ensures deleted == |Only(old(Memory()).mem.live, SetOf(seqnos))|
    {
      ghost var was := Memory();
      var base := memtable.nextSeqno;
      records := [Record.Update(nextLsn, segs, seqnos, base, rows)];
      UpdateApplied(table, was, segs, seqnos, rows);
      nextLsn := nextLsn + 1;
      Append([Record.Update(nextLsn - 1, segs, seqnos, base, rows)]);
      deleted := ApplyPlanned(segs, seqnos);
      memtable.InsertAt(base, rows);
    }

    /** Install planned delete vectors. Called only after their record is durable. */
    method ApplyDeletes(segs: seq<SegmentDeletes>)
      requires forall i :: 0 <= i < |segs| ==> table.Has(segs[i].segmentId)
      modifies this`deletes, this`dirty
      ensures table == old(table) && nextLsn == old(nextLsn)
      ensures Memory() == Mark(table, old(Memory()), segs)
    {
      for i := 0 to |segs|
        invariant table == old(table) && nextLsn == old(nextLsn)
        invariant Memory() == Mark(table, old(Memory()), segs[..i])
      {
        assert segs[..i + 1][..i] == segs[..i];
        deletes := deletes[segs[i].segmentId := segs[i].rows];
        dirty := dirty + {segs[i].segmentId};
      }
      assert segs[..|segs|] == segs;
    }

    // ---- Flushing --------------------------------------------------------------------

    /**
     * Rotate, commit the memtable's rows and the dirty vectors, and truncate, as
     * three durable moments in that order; none when there is nothing to write.
     */
    method Flush(groupRows: nat)
      returns (rows: nat, ghost rotated: State, ghost committed: State, ghost groups: seq<seq<Row>>)
      requires Valid()
      modifies this, wal, memtable
      ensures Valid() && rows == |old(Memory()).mem.live|
      ensures Now().Rows() == old(Now()).Rows()
      ensures old(Memory()).mem.live == [] && old(dirty) == {} ==> Now() == old(Now()) && passed == old(passed)
      ensures old(Memory()).mem.live != [] || old(dirty) != {} ==>
                && FlushSteps(old(Now()), rotated, committed, groups, Now()) && FlushEntry(table, wal.files)
                && passed == old(passed) + [MomentOf(rotated), MomentOf(committed), MomentOf(Now())]
      ensures FlushEntry(old(table), old(wal.files)) ==>
                forall i :: |old(passed)| <= i < |passed| ==> ReopenedRows(passed[i]) == old(Now()).Rows()
      ensures groupRows > 0 ==> forall g :: g in groups ==> 0 < |g| <= groupRows
    {
      ghost var was, before := Now(), passed;
      rows, groups := TryFlush(groupRows);
      rotated, committed := FlushLands(was, groups, before);
    }

    /** What `TryFlush` leaves is sound, and each durable moment on the way keeps the rows. */
    lemma FlushLands(was: State, groups: seq<seq<Row>>, before: seq<Moment>) returns (rotated: State, committed: State)
      requires wal.Valid() && memtable.Valid() && Inv(was) && was.phase.Idle? && RangesOk(was.table, was.logs)
      requires before != [] && before[|before| - 1].table == was.table && before[|before| - 1].logs == was.logs
      requires multiset(Flatten(groups)) == multiset(RowsOf(was.live.mem.live))
      requires was.live.mem.live == [] && was.live.dirty == {} ==> Now() == was && passed == before
      requires was.live.mem.live != [] || was.live.dirty != {} ==>
                 && Now() == FlushedState(was, groups)
                 && passed == before + [MomentOf(RotatedState(was)), MomentOf(CommittedState(was, groups)), MomentOf(Now())]
      ensures Valid() && Now().Rows() == was.Rows()
      ensures was.live.mem.live != [] || was.live.dirty != {} ==>
                && FlushSteps(was, rotated, committed, groups, Now()) && FlushEntry(table, wal.files)
                && passed == before + [MomentOf(rotated), MomentOf(committed), MomentOf(Now())]
      ensures FlushEntry(was.table, was.logs) ==>
                forall i :: |before| <= i < |passed| ==> ReopenedRows(passed[i]) == was.Rows()
    {
      rotated, committed := was, was;
      if was.live.mem.live != [] || was.live.dirty != {} {
        rotated, committed := FlushMoments(was, groups, before);
      }
    }

    method TryFlush(groupRows: nat) returns (rows: nat, ghost groups: seq<seq<Row>>)
      requires wal.Valid() && memtable.Valid() && table.Ok() && nextLsn > 0
      requires forall id :: id in dirty ==> id < table.nextId
      modifies this, wal, memtable
      ensures wal.Valid() && memtable.Valid() && rows == |old(Memory()).mem.live|
      ensures multiset(Flatten(groups)) == multiset(RowsOf(old(Memory()).mem.live))
      ensures groupRows > 0 ==> forall g :: g in groups ==> 0 < |g| <= groupRows
      ensures old(Memory()).mem.live == [] && old(dirty) == {} ==> Now() == old(Now()) && passed == old(passed)
      ensures old(Memory()).mem.live != [] || old(dirty) != {} ==>
                && Now() == FlushedState(old(Now()), groups)
                && passed == old(passed) + [MomentOf(RotatedState(old(Now()))), MomentOf(CommittedState(old(Now()), groups)),
                                            MomentOf(Now())]
    {
      groups := [];
      var batches, live, next := memtable.Freeze();
      rows := live;
      var drained := dirty;
      dirty := {};
      if live == 0 && drained == {} {
        return;
      }
      var retired := SwitchLogs();
      var segments, nextId;
      segments, nextId, groups := BuildManifest(batches, drained, groupRows);
      Commit(Table(nextLsn - 1, nextId, Most(next, table.nextSeqno), segments));
      DropLog(retired);
    }

    /** The entries a flush commits: the old ones with their dirty delete vectors, then the new. */
    method BuildManifest(batches: seq<seq<Row>>, drained: set<nat>, groupRows: nat)
      returns (segments: seq<Segment>, nextId: nat, ghost groups: seq<seq<Row>>)
      requires table.Ok() && forall id :: id in drained ==> id < table.nextId
      ensures segments == Stamp(table.segments, drained, deletes) + NewSegments(table.nextId, groups)
      ensures nextId == table.nextId + |groups| && Flatten(groups) == Flatten(batches)
      ensures groupRows > 0 ==> forall g :: g in groups ==> 0 < |g| <= groupRows
    {
      var split := SplitRowGroups(batches, groupRows);
      groups := Groups(split);
      GroupsFlatten(split);
      GroupsSized(split, groupRows);
      segments, nextId := WriteSegments(table.segments, table.nextId, split);
      StampsOldOnly(table, drained, deletes, groups);
      AddedIdsOk(table, groups);
      segments := StampDirty(segments, drained);
    }

    /** One segment for each row group, numbered on. */
    method WriteSegments(before: seq<Segment>, firstId: nat, split: seq<seq<seq<Row>>>)
      returns (segments: seq<Segment>, nextId: nat)
      ensures segments == before + NewSegments(firstId, Groups(split)) && nextId == firstId + |Groups(split)|
    {
      segments, nextId := before, firstId;
      for i := 0 to |split|
        invariant segments == before + NewSegments(firstId, Groups(split[..i]))
        invariant nextId == firstId + |Groups(split[..i])|
      {
        GroupsNext(firstId, split, i);
        if |Flatten(split[i])| == 0 {
          continue;
        }
        Associates(before, NewSegments(firstId, Groups(split[..i])), [Segment(nextId, Flatten(split[i]), None)]);
        segments := segments + [Segment(nextId, Flatten(split[i]), None)];
        nextId := nextId + 1;
      }
      assert split[..|split|] == split;
    }

    /** Store every dirty segment's delete vector in its entry, whatever order they come in. */
    method StampDirty(before: seq<Segment>, ids: set<nat>) returns (segments: seq<Segment>)
      requires forall i, j :: 0 <= i < j < |before| ==> before[i].id != before[j].id
      ensures segments == Stamp(before, ids, deletes)
    {
      segments := before;
      var todo := ids;
      StampNone(before, deletes);
      assert ids - todo == {};
      while todo != {}
        invariant todo <= ids && segments == Stamp(before, ids - todo, deletes)
      {
        var id :| id in todo;
        assert ids - (todo - {id}) == (ids - todo) + {id};
        if id in deletes {
          StampAt(before, ids - todo, deletes);
          StampNext(before, ids - todo, id, deletes);
          segments := StampOne(segments, id, deletes[id]);
        } else {
          StampSkips(before, ids - todo, id, deletes);
        }
        todo := todo - {id};
      }
      assert ids - {} == ids;
    }
  }

  /** Reopen whatever a crash left: the last commit, and both logs. */
  method Open(table: Table, files: Logs, ghost crashed: State) returns (w: Writer)
    requires Inv(crashed) && crashed.table == table && crashed.logs == files && RangesOk(table, files)
    ensures fresh(w) && fresh(w.wal) && fresh(w.memtable)
    ensures w.Valid() && Takes(crashed, Crash, w.Now()) && |w.passed| == 1
  {
    ghost var reopened := Reopens(crashed);
    w := new Writer(table, files);
    assert w.Now() == reopened;
  }

  /** Find a segment's entry and put a delete vector in it; a segment dropped since is left out. */
  method StampOne(before: seq<Segment>, id: nat, dv: set<nat>) returns (segments: seq<Segment>)
    requires forall i, j :: 0 <= i < j < |before| ==> before[i].id != before[j].id
    ensures segments == Stamp(before, {id}, map[id := dv])
  {
    segments := before;
    StampAt(before, {id}, map[id := dv]);
    for i := 0 to |before|
      invariant segments == before && forall k :: 0 <= k < i ==> before[k].id != id
    {
      if before[i].id == id {
        segments := before[i := before[i].(deletes := Some(dv))];
        return;
      }
    }
  }

  lemma StampNone(segments: seq<Segment>, deletes: map<nat, set<nat>>)
    ensures Stamp(segments, {}, deletes) == segments
  {
    StampAt(segments, {}, deletes);
  }

  /** Stamping one more segment, as the loop does it: with that segment's vector alone, if it has one. */
  lemma StampNext(segments: seq<Segment>, done: set<nat>, id: nat, deletes: map<nat, set<nat>>)
    requires id in deletes
    ensures Stamp(Stamp(segments, done, deletes), {id}, map[id := deletes[id]]) == Stamp(segments, done + {id}, deletes)
  {
    var once := Stamp(segments, done, deletes);
    StampAt(segments, done, deletes);
    StampAt(segments, done + {id}, deletes);
    StampAt(once, {id}, map[id := deletes[id]]);
  }

  lemma StampSkips(segments: seq<Segment>, done: set<nat>, id: nat, deletes: map<nat, set<nat>>)
    requires id !in deletes
    ensures Stamp(segments, done + {id}, deletes) == Stamp(segments, done, deletes)
  {
    StampAt(segments, done, deletes);
    StampAt(segments, done + {id}, deletes);
  }

  lemma GroupsNext(firstId: nat, split: seq<seq<seq<Row>>>, i: nat)
    requires i < |split|
    ensures var rows, before := Flatten(split[i]), Groups(split[..i]);
            if rows == [] then Groups(split[..i + 1]) == before
            else && Groups(split[..i + 1]) == before + [rows]
                 && NewSegments(firstId, Groups(split[..i + 1]))
                    == NewSegments(firstId, before) + [Segment(firstId + |before|, rows, None)]
  {
    assert split[..i + 1][..i] == split[..i];
    NewSegmentsPush(firstId, Groups(split[..i]), Flatten(split[i]));
  }

  lemma NewSegmentsPush(firstId: nat, groups: seq<seq<Row>>, g: seq<Row>)
    ensures NewSegments(firstId, groups + [g]) == NewSegments(firstId, groups) + [Segment(firstId + |groups|, g, None)]
  {
    assert (groups + [g])[..|groups|] == groups;
  }

  lemma {:induction false} GroupsSized(split: seq<seq<seq<Row>>>, max: nat)
    ensures Sized(split, max) ==> forall g :: g in Groups(split) ==> 0 < |g| <= max
  {
    if split != [] && Sized(split, max) {
      GroupsSized(split[..|split| - 1], max);
    }
  }

  /** New segments carry no deletions, so stamping reaches the old entries alone. */
  lemma StampsOldOnly(t: Table, dirty: set<nat>, deletes: map<nat, set<nat>>, groups: seq<seq<Row>>)
    requires forall id :: id in dirty ==> id < t.nextId
    ensures Stamp(t.segments + NewSegments(t.nextId, groups), dirty, deletes)
         == Stamp(t.segments, dirty, deletes) + NewSegments(t.nextId, groups)
  {
    var added := NewSegments(t.nextId, groups);
    NewSegmentsAt(t.nextId, groups);
    StampAt(t.segments + added, dirty, deletes);
    StampAt(t.segments, dirty, deletes);
  }

  lemma AddedIdsOk(t: Table, groups: seq<seq<Row>>)
    requires t.Ok()
    ensures var all := t.segments + NewSegments(t.nextId, groups);
            forall i, j :: 0 <= i < j < |all| ==> all[i].id != all[j].id
  {
    NewSegmentsAt(t.nextId, groups);
  }

  function RotatedState(s: State): State {
    State(s.table, s.logs.Rotated(), s.live.(mem := Mem([], s.live.mem.next), dirty := {}),
          Rotated(s.live.mem, s.live.dirty, s.logs.Newest(), FlushEntry(s.table, s.logs)))
  }

  function CommittedState(s: State, groups: seq<seq<Row>>): State
    requires s.live.nextLsn > 0
  {
    RotatedState(s).(table := Flushed(s.table, s.live.mem, s.live.dirty, s.live.deletes, s.live.nextLsn, groups),
                     phase := Committed(s.logs.Newest()))
  }

  function FlushedState(s: State, groups: seq<seq<Row>>): State
    requires s.live.nextLsn > 0
  {
    var c := CommittedState(s, groups);
    c.(logs := c.logs.Truncated(s.logs.Newest()), phase := Idle)
  }

  function MomentOf(s: State): Moment {
    Moment(s.table, s.logs, s.live)
  }

  /** A crash at any of a flush's three durable effects reopens to the rows from before it. */
  lemma FlushReopens(s: State, groups: seq<seq<Row>>)
    requires Inv(s) && s.phase.Idle? && (s.live.mem.live != [] || s.live.dirty != {})
    requires multiset(Flatten(groups)) == multiset(RowsOf(s.live.mem.live))
    ensures FlushEntry(s.table, s.logs) ==> ReopenedRows(MomentOf(RotatedState(s))) == s.Rows()
    ensures ReopenedRows(MomentOf(CommittedState(s, groups))) == s.Rows()
    ensures ReopenedRows(MomentOf(FlushedState(s, groups))) == s.Rows()
  {
    FlushStepsKeep(s, groups);
    if FlushEntry(s.table, s.logs) {
      SafeReopens(RotatedState(s));
    }
    SettledReopens(CommittedState(s, groups));
    SettledReopens(FlushedState(s, groups));
  }

  lemma SafeReopens(s: State)
    requires Inv(s) && s.phase.Rotated? && s.phase.safe
    ensures ReopenedRows(MomentOf(s)) == s.Rows()
  {
  }

  lemma SettledReopens(s: State)
    requires Inv(s) && !s.phase.Rotated?
    ensures ReopenedRows(MomentOf(s)) == s.Rows()
  {
  }

  lemma FlushMoments(s: State, groups: seq<seq<Row>>, before: seq<Moment>) returns (rotated: State, committed: State)
    requires Inv(s) && s.phase.Idle? && RangesOk(s.table, s.logs) && (s.live.mem.live != [] || s.live.dirty != {})
    requires multiset(Flatten(groups)) == multiset(RowsOf(s.live.mem.live))
    ensures rotated == RotatedState(s) && committed == CommittedState(s, groups)
    ensures FlushSteps(s, rotated, committed, groups, FlushedState(s, groups))
    ensures Inv(FlushedState(s, groups)) && FlushedState(s, groups).Rows() == s.Rows()
    ensures FlushEntry(FlushedState(s, groups).table, FlushedState(s, groups).logs)
    ensures RangesOk(FlushedState(s, groups).table, FlushedState(s, groups).logs)
    ensures var after := before + [MomentOf(rotated), MomentOf(committed), MomentOf(FlushedState(s, groups))];
            FlushEntry(s.table, s.logs) ==>
              forall i :: |before| <= i < |after| ==> ReopenedRows(after[i]) == s.Rows()
  {
    rotated, committed := RotatedState(s), CommittedState(s, groups);
    FlushStepsKeep(s, groups);
    FlushReopens(s, groups);
    FlushFits(s, groups);
    var a, b, c := MomentOf(rotated), MomentOf(committed), MomentOf(FlushedState(s, groups));
    if FlushEntry(s.table, s.logs) {
      ThreeMoments(before, a, b, c, s.Rows());
    }
  }

  lemma FlushFits(s: State, groups: seq<seq<Row>>)
    requires Inv(s) && s.phase.Idle? && RangesOk(s.table, s.logs)
    ensures RangesOk(FlushedState(s, groups).table, FlushedState(s, groups).logs)
  {
    var logs := s.logs.Rotated().Truncated(s.logs.Newest());
    RecoverInRange(s.table, s.logs);
    RotatedInOrder(s.logs);
    assert logs.InOrder() == [];
    FlushedFit(s.table, s.live, logs, groups);
  }

  lemma ThreeMoments(before: seq<Moment>, a: Moment, b: Moment, c: Moment, rows: multiset<Row>)
    requires ReopenedRows(a) == rows && ReopenedRows(b) == rows && ReopenedRows(c) == rows
    ensures var after := before + [a, b, c];
            forall i :: |before| <= i < |after| ==> ReopenedRows(after[i]) == rows
  {
    var after := before + [a, b, c];
    forall i | |before| <= i < |after|
      ensures ReopenedRows(after[i]) == rows
    {
      assert after[i] in [a, b, c];
    }
  }

  lemma FlushStepsKeep(s: State, groups: seq<seq<Row>>)
    requires Inv(s) && s.phase.Idle? && (s.live.mem.live != [] || s.live.dirty != {})
    requires multiset(Flatten(groups)) == multiset(RowsOf(s.live.mem.live))
    ensures var rotated, committed, u := RotatedState(s), CommittedState(s, groups), FlushedState(s, groups);
            && FlushSteps(s, rotated, committed, groups, u)
            && Inv(rotated) && Inv(committed) && Inv(u) && FlushEntry(u.table, u.logs)
            && committed.Rows() == s.Rows() && u.Rows() == s.Rows()
  {
    var rotated, committed, u := RotatedState(s), CommittedState(s, groups), FlushedState(s, groups);
    StepKeeps(s, Rotate, rotated);
    StepRows(s, Rotate, rotated);
    StepKeeps(rotated, CommitFlush(groups), committed);
    StepRows(rotated, CommitFlush(groups), committed);
    TruncateKeeps(committed, u);
    StepRows(committed, TruncateRetired, u);
  }

  lemma PlanPush(t: Table, l: Live, ds: seq<Deletion>, i: nat)
    requires i < |ds|
    ensures PlanSegments(t, l, ds[..i + 1])
         == PlanSegments(t, l, ds[..i]) + (if Fresh(t, l, ds[i]) == {} then []
                                           else [SegmentDeletes(ds[i].segmentId, DeadOf(l.deletes, ds[i].segmentId) + Fresh(t, l, ds[i]))])
    ensures PlanCount(t, l, ds[..i + 1]) == PlanCount(t, l, ds[..i]) + |Fresh(t, l, ds[i])|
  {
    assert ds[..i + 1][..i] == ds[..i];
  }

  // ---- Helpers ---------------------------------------------------------------------

  method LoadAll(segments: seq<Segment>) returns (m: map<nat, set<nat>>)
    ensures m == LoadDeletes(segments)
  {
    m := map[];
    for i := 0 to |segments|
      invariant m == LoadDeletes(segments[..i])
    {
      assert segments[..i + 1][..i] == segments[..i];
      if segments[i].deletes.Some? {
        m := m[segments[i].id := segments[i].deletes.value];
      }
    }
    assert segments[..|segments|] == segments;
  }

  method CountRows(batches: seq<seq<Row>>) returns (n: nat)
    ensures n == |Flatten(batches)|
  {
    n := 0;
    for i := 0 to |batches|
      invariant n == |Flatten(batches[..i])|
    {
      assert batches[..i + 1][..i] == batches[..i];
      n := n + |batches[i]|;
    }
    assert batches[..|batches|] == batches;
  }

  function Wrote(s: State, records: seq<Record>): State {
    s.(logs := s.logs.Appended(records), live := ApplyAll(s.table, s.live, records))
  }

  lemma InsertLands(s: State, batches: seq<seq<Row>>)
    requires Inv(s) && s.phase.Idle? && RangesOk(s.table, s.logs)
    ensures var records := InsertRecords(s.live.nextLsn, s.live.mem.next, batches);
            var u := Wrote(s, records);
            && Inv(u) && RangesOk(u.table, u.logs) && Takes(s, Write(records), u)
            && u.Rows() == s.Rows() + multiset(Flatten(batches))
  {
    var records := InsertRecords(s.live.nextLsn, s.live.mem.next, batches);
    InsertAdds(s.table, s.live, batches);
    InsertGrowsContent(s.table, s.live, batches);
    WriteKeeps(s, records, Wrote(s, records));
    InsertsOnly(s.live.nextLsn, s.live.mem.next, batches);
    AppendedFit(s.table, s.logs, records);
  }

  lemma {:induction false} InsertsOnly(lsn: nat, base: nat, batches: seq<seq<Row>>)
    ensures forall r :: r in InsertRecords(lsn, base, batches) ==> r.Insert?
  {
    if batches != [] {
      InsertsOnly(lsn, base, batches[..|batches| - 1]);
    }
  }

  /** One planned record, logged. */
  lemma PlannedFit(s: State, ds: seq<Deletion>, r: Record)
    requires Inv(s) && s.phase.Idle? && RangesOk(s.table, s.logs)
    requires !r.Insert? && r.segments == PlanSegments(s.table, s.live, ds)
    ensures RangesOk(s.table, s.logs.Appended([r]))
  {
    RecoverInRange(s.table, s.logs);
    PlanFits(s.table, s.live, ds);
    AppendedFit(s.table, s.logs, [r]);
  }

  lemma NothingWritten(s: State)
    ensures Wrote(s, []) == s
    ensures s.phase.Idle? ==> Takes(s, Write([]), s)
  {
    SameLogs(s.logs);
  }

  lemma OneApplied(t: Table, l: Live, r: Record)
    ensures ApplyAll(t, l, [r]) == Apply(t, l, r)
  {
    var one := [r];
    assert one[..0] == [];
  }

  lemma DeleteApplied(t: Table, l: Live, segs: seq<SegmentDeletes>, seqnos: seq<nat>)
    ensures var m := Mark(t, l.(nextLsn := l.nextLsn + 1), segs);
            && m.mem == l.mem
            && ApplyAll(t, l, [Record.Delete(l.nextLsn, segs, seqnos)]) == m.(mem := l.mem.Deleted(seqnos))
  {
    MarkIgnoresLsn(t, l, segs, l.nextLsn + 1);
    MarkNumbers(t, l, segs);
    OneApplied(t, l, Record.Delete(l.nextLsn, segs, seqnos));
  }

  lemma UpdateApplied(t: Table, l: Live, segs: seq<SegmentDeletes>, seqnos: seq<nat>, rows: seq<Row>)
    ensures var m := Mark(t, l.(nextLsn := l.nextLsn + 1), segs);
            && m.mem == l.mem
            && ApplyAll(t, l, [Record.Update(l.nextLsn, segs, seqnos, l.mem.next, rows)])
               == m.(mem := l.mem.Deleted(seqnos).Inserted(l.mem.next, rows))
  {
    MarkIgnoresLsn(t, l, segs, l.nextLsn + 1);
    MarkNumbers(t, l, segs);
    OneApplied(t, l, Record.Update(l.nextLsn, segs, seqnos, l.mem.next, rows));
  }

  lemma {:induction false} PlanIsEmpty(t: Table, l: Live, ds: seq<Deletion>)
    ensures PlanSegments(t, l, ds) == [] ==> PlanCount(t, l, ds) == 0 && forall id: nat :: LastFresh(t, l, ds, id) == {}
  {
    if ds != [] {
      PlanIsEmpty(t, l, ds[..|ds| - 1]);
    }
  }

  lemma NothingRemoved(t: Table, l: Live, ds: seq<Deletion>, seqnos: seq<nat>)
    requires PlanSegments(t, l, ds) == []
    requires seqnos == [] || Only(l.mem.live, SetOf(seqnos)) == []
    ensures Removed(t, l, ds, seqnos) == multiset{}
    ensures PlanCount(t, l, ds) == 0 && Only(l.mem.live, SetOf(seqnos)) == []
  {
    PlanIsEmpty(t, l, ds);
    TakenNone(t.segments, (id: nat) => LastFresh(t, l, ds, id));
    if seqnos == [] {
      OnlyNone(l.mem.live, SetOf(seqnos));
    }
  }

  lemma {:induction false} TakenNone(segments: seq<Segment>, choice: nat -> set<nat>)
    requires forall id: nat :: choice(id) == {}
    ensures TakenRows(segments, choice) == multiset{}
  {
    if segments != [] {
      TakenNone(segments[..|segments| - 1], choice);
      PickedNone(segments[|segments| - 1].rows);
    }
  }

  lemma {:induction false} PickedNone(rows: seq<Row>)
    ensures Picked(rows, {}) == []
  {
    if rows != [] {
      PickedNone(rows[..|rows| - 1]);
    }
  }

  /** The number of rows a deletion reports. */
  function Count(t: Table, l: Live, ds: seq<Deletion>, seqnos: seq<nat>): nat {
    PlanCount(t, l, ds) + |Only(l.mem.live, SetOf(seqnos))|
  }

  /** Two requests that name the same live memtable rows. */
  ghost predicate SameLive(l: Live, a: seq<nat>, b: seq<nat>) {
    && Without(l.mem.live, SetOf(a)) == Without(l.mem.live, SetOf(b))
    && Only(l.mem.live, SetOf(a)) == Only(l.mem.live, SetOf(b))
  }

  lemma DeleteLands(s: State, ds: seq<Deletion>, seqnos: seq<nat>, kept: seq<nat>)
    requires Inv(s) && s.phase.Idle? && RangesOk(s.table, s.logs) && AllKnown(s.table, ds) && SameLive(s.live, kept, seqnos)
    ensures var records := [Record.Delete(s.live.nextLsn, PlanSegments(s.table, s.live, ds), kept)];
            && Inv(Wrote(s, records)) && RangesOk(s.table, Wrote(s, records).logs) && Takes(s, Write(records), Wrote(s, records))
            && s.Rows() == Wrote(s, records).Rows() + Removed(s.table, s.live, ds, seqnos)
  {
    var r := Record.Delete(s.live.nextLsn, PlanSegments(s.table, s.live, ds), kept);
    PlanGrows(s.table, s.live, ds);
    OneRecord(s.table, s.live, r, Apply(s.table, s.live, r));
    MarkNumbers(s.table, s.live, PlanSegments(s.table, s.live, ds));
    DeletionConserves(s.table, s.live, ds, seqnos);
    WriteKeeps(s, [r], Wrote(s, [r]));
    PlannedFit(s, ds, r);
  }

  lemma UpdateLands(s: State, ds: seq<Deletion>, seqnos: seq<nat>, kept: seq<nat>, rows: seq<Row>)
    requires Inv(s) && s.phase.Idle? && RangesOk(s.table, s.logs) && AllKnown(s.table, ds) && SameLive(s.live, kept, seqnos)
    ensures var records := [Record.Update(s.live.nextLsn, PlanSegments(s.table, s.live, ds), kept, s.live.mem.next, rows)];
            && Inv(Wrote(s, records)) && RangesOk(s.table, Wrote(s, records).logs) && Takes(s, Write(records), Wrote(s, records))
            && s.Rows() + multiset(rows) == Wrote(s, records).Rows() + Removed(s.table, s.live, ds, seqnos)
  {
    var r := Record.Update(s.live.nextLsn, PlanSegments(s.table, s.live, ds), kept, s.live.mem.next, rows);
    PlanGrows(s.table, s.live, ds);
    OneRecord(s.table, s.live, r, Apply(s.table, s.live, r));
    MarkNumbers(s.table, s.live, PlanSegments(s.table, s.live, ds));
    UpdateConserves(s.table, s.live, ds, seqnos, rows);
    WriteKeeps(s, [r], Wrote(s, [r]));
    PlannedFit(s, ds, r);
  }

  /** The writer has taken in every record above the checkpoint; only its lsn counter lags. */
  ghost predicate Replayed(t: Table, l: Live, highest: nat, records: seq<Record>) {
    l.(nextLsn := highest + 1) == ApplyAll(t, FromTable(t), Above(records, t.checkpoint))
  }

  lemma Reopens(s: State) returns (u: State)
    requires Inv(s)
    ensures FitsSeq(s.table.nextSeqno, Above(s.logs.Recovered(), s.table.checkpoint))
    ensures u == State(s.table, s.logs, Recover(s.table, s.logs), Idle) && Takes(s, Crash, u) && Inv(u)
  {
    u := State(s.table, s.logs, Recover(s.table, s.logs), Idle);
    RecoveredInOrder(s.logs);
    CrashKeeps(s, u);
  }

  lemma ReplayStarts(t: Table)
    ensures Replayed(t, FromTable(t), t.checkpoint, [])
  {
  }

  lemma {:induction false} MarkIgnoresLsn(t: Table, l: Live, segs: seq<SegmentDeletes>, lsn: nat)
    ensures Mark(t, l.(nextLsn := lsn), segs) == Mark(t, l, segs).(nextLsn := lsn)
  {
    if segs != [] {
      MarkIgnoresLsn(t, l, segs[..|segs| - 1], lsn);
    }
  }

  lemma ApplyIgnoresLsn(t: Table, l: Live, r: Record, lsn: nat)
    ensures Apply(t, l.(nextLsn := lsn), r) == Apply(t, l, r).(nextLsn := Most(lsn, r.lsn + 1))
  {
    if !r.Insert? {
      MarkIgnoresLsn(t, l, r.segments, lsn);
    }
  }

  lemma ReplayAdvances(t: Table, l: Live, highest: nat, records: seq<Record>, r: Record)
    requires Replayed(t, l, highest, records) && r.lsn > t.checkpoint
    ensures Replayed(t, Apply(t, l, r), Most(highest, r.lsn), records + [r])
    ensures forall lsn: nat :: Replayed(t, Apply(t, l, r).(nextLsn := lsn), Most(highest, r.lsn), records + [r])
  {
    ApplyIgnoresLsn(t, l, r, highest + 1);
    assert (records + [r])[..|records|] == records;
    RecordsPush(t, FromTable(t), Above(records, t.checkpoint), r);
  }

  lemma FitsNext(t: Table, start: Live, records: seq<Record>, i: nat)
    requires i < |records| && records[i].lsn > t.checkpoint
    requires FitsSeq(start.mem.next, Above(records, t.checkpoint))
    ensures !records[i].Delete? ==> ApplyAll(t, start, Above(records[..i], t.checkpoint)).mem.next <= records[i].base
    ensures Above(records[..i + 1], t.checkpoint) == Above(records[..i], t.checkpoint) + [records[i]]
  {
    var before := Above(records[..i], t.checkpoint);
    assert records[..i + 1][..i] == records[..i];
    assert records == records[..i + 1] + records[i + 1..];
    AboveConcat(records[..i + 1], records[i + 1..], t.checkpoint);
    FitsConcat(start.mem.next, before + [records[i]], Above(records[i + 1..], t.checkpoint));
    assert (before + [records[i]])[..|before|] == before;
    ApplyAllNext(t, start, before);
  }

  lemma {:induction false} SomeRecords(lsn: nat, base: nat, batches: seq<seq<Row>>)
    requires Flatten(batches) != []
    ensures InsertRecords(lsn, base, batches) != []
  {
    if batches[|batches| - 1] == [] {
      SomeRecords(lsn, base, batches[..|batches| - 1]);
    }
  }

  lemma {:induction false} NoRows(lsn: nat, base: nat, batches: seq<seq<Row>>)
    requires Flatten(batches) == []
    ensures InsertRecords(lsn, base, batches) == []
  {
    if batches != [] {
      NoRows(lsn, base, batches[..|batches| - 1]);
    }
  }

  lemma SameLogs(logs: Logs)
    ensures logs.Appended([]) == logs
  {
    assert logs.Active().records + [] == logs.Active().records;
  }

  lemma GrownBy(before: set<nat>, dv: set<nat>)
    requires before <= dv
    ensures |dv| == |before| + |dv - before|
  {
    assert dv == before + (dv - before);
  }

  lemma {:induction false} OnlyAgree(s: seq<Numbered>, a: set<nat>, b: set<nat>)
    requires forall i :: 0 <= i < |s| ==> (s[i].0 in a <==> s[i].0 in b)
    ensures Only(s, a) == Only(s, b)
  {
    if s != [] {
      OnlyAgree(s[..|s| - 1], a, b);
    }
  }

  lemma {:induction false} OnlyNone(s: seq<Numbered>, which: set<nat>)
    requires which == {}
    ensures Only(s, which) == []
  {
    if s != [] {
      OnlyNone(s[..|s| - 1], which);
    }
  }
}
