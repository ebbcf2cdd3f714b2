/**
 * Every step of the write path keeps its invariant, and reopening finds what was
 * acknowledged. What follows for whole runs is in DurabilityRuns.
 */
module DurabilityProof {
  import opened Layout
  import opened Sequences
  import opened Memtables
  import opened Wal
  import opened Durability

  // ---- Lists of records ----------------------------------------------------------

  lemma {:induction false} AboveConcat(a: seq<Record>, b: seq<Record>, checkpoint: nat)
    ensures Above(a + b, checkpoint) == Above(a, checkpoint) + Above(b, checkpoint)
  {
    if b == [] {
      assert a + b == a;
    } else {
      AboveConcat(a, b[..|b| - 1], checkpoint);
      assert (a + b)[..|a + b| - 1] == a + b[..|b| - 1];
    }
  }

  lemma {:induction false} AboveAll(records: seq<Record>, checkpoint: nat)
    requires forall i :: 0 <= i < |records| ==> records[i].lsn > checkpoint
    ensures Above(records, checkpoint) == records
  {
    if records != [] {
      AboveAll(records[..|records| - 1], checkpoint);
    }
  }

  lemma {:induction false} AboveNone(records: seq<Record>, checkpoint: nat)
    requires forall i :: 0 <= i < |records| ==> records[i].lsn <= checkpoint
    ensures Above(records, checkpoint) == []
  {
    if records != [] {
      AboveNone(records[..|records| - 1], checkpoint);
    }
  }

  lemma {:induction false} AboveIn(records: seq<Record>, checkpoint: nat, r: Record)
    ensures r in Above(records, checkpoint) <==> r in records && r.lsn > checkpoint
  {
    if records != [] {
      AboveIn(records[..|records| - 1], checkpoint, r);
      assert records == records[..|records| - 1] + [records[|records| - 1]];
    }
  }

  lemma {:induction false} ApplyAllConcat(t: Table, l: Live, a: seq<Record>, b: seq<Record>)
    ensures ApplyAll(t, l, a + b) == ApplyAll(t, ApplyAll(t, l, a), b)
  {
    if b == [] {
      assert a + b == a;
    } else {
      ApplyAllConcat(t, l, a, b[..|b| - 1]);
      assert (a + b)[..|a + b| - 1] == a + b[..|b| - 1];
    }
  }

  // ---- Sequence numbers ------------------------------------------------------------

  lemma {:induction false} NextOfConcat(next: nat, a: seq<Record>, b: seq<Record>)
    ensures NextOf(next, a + b) == NextOf(NextOf(next, a), b)
  {
    if b == [] {
      assert a + b == a;
    } else {
      NextOfConcat(next, a, b[..|b| - 1]);
      assert (a + b)[..|a + b| - 1] == a + b[..|b| - 1];
    }
  }

  lemma {:induction false} FitsConcat(next: nat, a: seq<Record>, b: seq<Record>)
    ensures FitsSeq(next, a + b) <==> FitsSeq(next, a) && FitsSeq(NextOf(next, a), b)
  {
    if b == [] {
      assert a + b == a;
    } else {
      FitsConcat(next, a, b[..|b| - 1]);
      NextOfConcat(next, a, b[..|b| - 1]);
      assert (a + b)[..|a + b| - 1] == a + b[..|b| - 1];
    }
  }

  lemma {:induction false} NextOfMonotone(low: nat, high: nat, records: seq<Record>)
    requires low <= high
    ensures low <= NextOf(low, records) <= NextOf(high, records)
    ensures FitsSeq(high, records) ==> FitsSeq(low, records)
  {
    if records != [] {
      NextOfMonotone(low, high, records[..|records| - 1]);
    }
  }

  lemma {:induction false} ApplyAllNext(t: Table, l: Live, records: seq<Record>)
    ensures ApplyAll(t, l, records).mem.next == NextOf(l.mem.next, records)
  {
    if records != [] {
      var init, r := records[..|records| - 1], records[|records| - 1];
      ApplyAllNext(t, l, init);
      if !r.Insert? {
        MarkNumbers(t, ApplyAll(t, l, init), r.segments);
      }
    }
  }

  // ---- What records change --------------------------------------------------------

  lemma {:induction false} MarkNumbers(t: Table, l: Live, segs: seq<SegmentDeletes>)
    ensures Mark(t, l, segs).mem == l.mem && Mark(t, l, segs).nextLsn == l.nextLsn
  {
    if segs != [] {
      MarkNumbers(t, l, segs[..|segs| - 1]);
    }
  }

  /** Counters only rise. */
  lemma ApplyNumbers(t: Table, l: Live, r: Record)
    ensures Apply(t, l, r).nextLsn == Most(l.nextLsn, r.lsn + 1)
    ensures Apply(t, l, r).mem.next >= l.mem.next
  {
    if !r.Insert? {
      MarkNumbers(t, l, r.segments);
    }
  }

  lemma {:induction false} ApplyAllNumbers(t: Table, l: Live, records: seq<Record>)
    ensures ApplyAll(t, l, records).nextLsn >= l.nextLsn
    ensures ApplyAll(t, l, records).mem.next >= l.mem.next
    ensures forall i :: 0 <= i < |records| ==> records[i].lsn < ApplyAll(t, l, records).nextLsn
  {
    if records != [] {
      ApplyAllNumbers(t, l, records[..|records| - 1]);
      ApplyNumbers(t, ApplyAll(t, l, records[..|records| - 1]), records[|records| - 1]);
    }
  }

  lemma {:induction false} MarkDeletesOk(t: Table, l: Live, segs: seq<SegmentDeletes>)
    requires DeletesOk(t, l)
    ensures DeletesOk(t, Mark(t, l, segs))
  {
    if segs != [] {
      MarkDeletesOk(t, l, segs[..|segs| - 1]);
    }
  }

  lemma ApplyDeletesOk(t: Table, l: Live, r: Record)
    requires DeletesOk(t, l)
    ensures DeletesOk(t, Apply(t, l, r))
  {
    if !r.Insert? {
      MarkDeletesOk(t, l, r.segments);
    }
  }

  lemma {:induction false} ApplyAllDeletesOk(t: Table, l: Live, records: seq<Record>)
    requires DeletesOk(t, l)
    ensures DeletesOk(t, ApplyAll(t, l, records))
  {
    if records != [] {
      ApplyAllDeletesOk(t, l, records[..|records| - 1]);
      ApplyDeletesOk(t, ApplyAll(t, l, records[..|records| - 1]), records[|records| - 1]);
    }
  }

  lemma {:induction false} LoadHas(segments: seq<Segment>, id: nat)
    ensures id in LoadDeletes(segments) <==>
              exists i :: 0 <= i < |segments| && segments[i].id == id && segments[i].deletes.Some?
  {
    if segments != [] {
      var init := segments[..|segments| - 1];
      LoadHas(init, id);
      if id in LoadDeletes(init) {
        var i :| 0 <= i < |init| && init[i].id == id && init[i].deletes.Some?;
        assert segments[i] == init[i];
      }
      if i :| 0 <= i < |segments| && segments[i].id == id && segments[i].deletes.Some? {
        if i < |init| {
          assert init[i] == segments[i];
        }
      }
    }
  }

  lemma {:induction false} LoadAt(segments: seq<Segment>, i: nat)
    requires i < |segments| && segments[i].deletes.Some?
    requires forall a, b :: 0 <= a < b < |segments| ==> segments[a].id != segments[b].id
    ensures segments[i].id in LoadDeletes(segments)
    ensures LoadDeletes(segments)[segments[i].id] == segments[i].deletes.value
  {
    var init := segments[..|segments| - 1];
    if i < |init| {
      LoadAt(init, i);
    }
  }

  lemma FromTableDeletesOk(t: Table)
    requires t.Ok()
    ensures DeletesOk(t, FromTable(t))
  {
    forall id | id in LoadDeletes(t.segments)
      ensures t.Has(id)
    {
      LoadHas(t.segments, id);
    }
    forall i | 0 <= i < |t.segments|
      ensures var s := t.segments[i];
              if s.deletes.Some? then s.id in LoadDeletes(t.segments) && LoadDeletes(t.segments)[s.id] == s.deletes.value
              else s.id !in LoadDeletes(t.segments)
    {
      LoadHas(t.segments, t.segments[i].id);
      if t.segments[i].deletes.Some? {
        LoadAt(t.segments, i);
      }
    }
  }

  /** With nothing dirty, memory holds exactly what a load would. */
  lemma DeletesLoaded(t: Table, l: Live)
    requires t.Ok() && DeletesOk(t, l) && l.dirty == {}
    ensures LoadDeletes(t.segments) == l.deletes
  {
    FromTableDeletesOk(t);
    var loaded := LoadDeletes(t.segments);
    forall id
      ensures id in loaded <==> id in l.deletes
      ensures id in loaded ==> loaded[id] == l.deletes[id]
    {
      LoadHas(t.segments, id);
      if id in loaded || id in l.deletes {
        assert t.Has(id);
        var i :| 0 <= i < |t.segments| && t.segments[i].id == id;
      }
    }
  }

  // ---- Reopening -------------------------------------------------------------------

  lemma RecoverOk(t: Table, logs: Logs, bound: nat)
    requires t.Ok() && LogsOk(t, logs, bound)
    ensures DeletesOk(t, Recover(t, logs))
    ensures t.checkpoint < Recover(t, logs).nextLsn
    ensures t.nextSeqno <= Recover(t, logs).mem.next
    ensures LogsOk(t, logs, Recover(t, logs).nextLsn)
  {
    RecoveredInOrder(logs);
    var records := logs.InOrder();
    var above := Above(records, t.checkpoint);
    FromTableDeletesOk(t);
    ApplyAllDeletesOk(t, FromTable(t), above);
    ApplyAllNumbers(t, FromTable(t), above);
    forall i | 0 <= i < |records|
      ensures records[i].lsn < Recover(t, logs).nextLsn
    {
      AboveIn(records, t.checkpoint, records[i]);
      if records[i].lsn > t.checkpoint {
        var k :| 0 <= k < |above| && above[k] == records[i];
      }
    }
  }

  /** A crash, at any moment: the reopened writer is consistent with what it reopened. */
  lemma CrashKeeps(s: State, u: State)
    requires Inv(s) && Takes(s, Crash, u)
    ensures Inv(u)
  {
    RecoverOk(s.table, s.logs, s.live.nextLsn);
  }

  lemma AppendedInOrder(logs: Logs, records: seq<Record>)
    requires Told(logs)
    ensures logs.Appended(records).InOrder() == logs.InOrder() + records
    ensures Told(logs.Appended(records))
  {
    var old', new' := logs.Inactive().records, logs.Active().records;
    assert old' + (new' + records) == (old' + new') + records;
  }

  lemma RotatedInOrder(logs: Logs)
    ensures logs.Rotated().InOrder() == logs.Active().records
    ensures Told(logs.Rotated())
    ensures logs.Rotated().Newest() == 1 - logs.Newest() && logs.Rotated().Active().records == []
  {
    assert logs.Active().records + [] == logs.Active().records;
  }

  /** Appended records replay after the ones before them. */
  lemma RecoverAppended(t: Table, logs: Logs, records: seq<Record>)
    requires Told(logs) && Increasing(logs.InOrder()) && Increasing(logs.InOrder() + records)
    requires forall i :: 0 <= i < |records| ==> records[i].lsn > t.checkpoint
    ensures Recover(t, logs.Appended(records)) == ApplyAll(t, Recover(t, logs), records)
  {
    AppendedInOrder(logs, records);
    RecoveredInOrder(logs);
    RecoveredInOrder(logs.Appended(records));
    AboveConcat(logs.InOrder(), records, t.checkpoint);
    AboveAll(records, t.checkpoint);
    ApplyAllConcat(t, FromTable(t), Above(logs.InOrder(), t.checkpoint), records);
  }

  // ---- Writing -------------------------------------------------------------------

  lemma {:induction false} PlannedPrefix(t: Table, l: Live, records: seq<Record>, k: nat)
    requires PlannedAll(t, l, records) && k <= |records|
    ensures PlannedAll(t, l, records[..k])
    decreases |records|
  {
    if k < |records| {
      PlannedPrefix(t, l, records[..|records| - 1], k);
      assert records[..|records| - 1][..k] == records[..k];
    } else {
      assert records[..k] == records;
    }
  }

  /** Planned records take the next lsns in turn and name segments of the table. */
  lemma {:induction false} PlannedNumbers(t: Table, l: Live, records: seq<Record>)
    requires t.Ok() && PlannedAll(t, l, records)
    ensures forall i :: 0 <= i < |records| ==> records[i].lsn == l.nextLsn + i && NamesBelow(records[i], t.nextId)
    ensures ApplyAll(t, l, records).nextLsn == l.nextLsn + |records|
  {
    if records != [] {
      var init := records[..|records| - 1];
      PlannedNumbers(t, l, init);
      ApplyNumbers(t, ApplyAll(t, l, init), records[|records| - 1]);
    }
  }

  lemma AppendedLogsOk(t: Table, l: Live, logs: Logs, records: seq<Record>)
    requires t.Ok() && LogsOk(t, logs, l.nextLsn) && PlannedAll(t, l, records)
    ensures LogsOk(t, logs.Appended(records), l.nextLsn + |records|)
    ensures Increasing(logs.InOrder() + records)
  {
    PlannedNumbers(t, l, records);
    AppendedInOrder(logs, records);
    IncreasingConcat(logs.InOrder(), records, l.nextLsn);
    var a, both := logs.InOrder(), logs.InOrder() + records;
    forall i | 0 <= i < |both|
      ensures both[i].lsn < l.nextLsn + |records| && NamesBelow(both[i], t.nextId)
    {
      if i < |a| {
        assert both[i] == a[i];
      } else {
        assert both[i] == records[i - |a|];
      }
    }
  }

  lemma IncreasingConcat(a: seq<Record>, b: seq<Record>, bound: nat)
    requires Increasing(a) && Increasing(b)
    requires forall i :: 0 <= i < |a| ==> a[i].lsn < bound
    requires forall i :: 0 <= i < |b| ==> bound <= b[i].lsn
    ensures Increasing(a + b)
  {
  }

  lemma {:induction false} PlannedFits(t: Table, l: Live, records: seq<Record>)
    requires PlannedAll(t, l, records)
    ensures FitsSeq(l.mem.next, records)
  {
    if records != [] {
      PlannedFits(t, l, records[..|records| - 1]);
      ApplyAllNext(t, l, records[..|records| - 1]);
    }
  }

  /** The log stays replayable: appended insertions come after everything the log holds. */
  lemma AppendedFits(t: Table, l: Live, logs: Logs, records: seq<Record>)
    requires Told(logs) && Increasing(logs.InOrder()) && l == Recover(t, logs)
    requires FitsSeq(t.nextSeqno, Above(logs.InOrder(), t.checkpoint))
    requires PlannedAll(t, l, records) && t.Ok() && t.checkpoint < l.nextLsn
    ensures FitsSeq(t.nextSeqno, Above(logs.Appended(records).InOrder(), t.checkpoint))
  {
    var above := Above(logs.InOrder(), t.checkpoint);
    AppendedInOrder(logs, records);
    RecoveredInOrder(logs);
    AboveConcat(logs.InOrder(), records, t.checkpoint);
    PlannedNumbers(t, l, records);
    AboveAll(records, t.checkpoint);
    ApplyAllNext(t, FromTable(t), above);
    PlannedFits(t, l, records);
    FitsConcat(t.nextSeqno, above, records);
  }

  lemma WriteKeeps(s: State, records: seq<Record>, u: State)
    requires Inv(s) && s.phase.Idle? && PlannedAll(s.table, s.live, records)
    requires u == s.(logs := s.logs.Appended(records), live := ApplyAll(s.table, s.live, records))
    ensures Inv(u)
  {
    PlannedNumbers(s.table, s.live, records);
    AppendedLogsOk(s.table, s.live, s.logs, records);
    AppendedFits(s.table, s.live, s.logs, records);
    RecoverAppended(s.table, s.logs, records);
    ApplyAllDeletesOk(s.table, s.live, records);
    ApplyAllNumbers(s.table, s.live, records);
  }

  /** A torn append leaves a prefix of its records; reopening applies exactly those. */
  lemma CrashWritingKeeps(s: State, records: seq<Record>, kept: nat, u: State)
    requires Inv(s) && Takes(s, CrashWriting(records, kept), u)
    ensures Inv(u)
    ensures u == s.(logs := s.logs.Appended(records[..kept]), live := ApplyAll(s.table, s.live, records[..kept]))
  {
    PlannedPrefix(s.table, s.live, records, kept);
    var v := s.(logs := s.logs.Appended(records[..kept]), live := ApplyAll(s.table, s.live, records[..kept]));
    WriteKeeps(s, records[..kept], v);
  }

  // ---- Flushing ------------------------------------------------------------------

  lemma RotateKeeps(s: State, u: State)
    requires Inv(s) && Takes(s, Rotate, u)
    ensures Inv(u)
  {
    RotatedInOrder(s.logs);
    RotatedLogsOk(s.table, s.logs, s.live.nextLsn);
    RotatedFits(s.table, s.logs);
    if u.phase.safe {
      RotatedRecovers(s.table, s.logs, s.live.nextLsn);
    }
  }

  lemma RotatedFits(t: Table, logs: Logs)
    requires FitsSeq(t.nextSeqno, Above(logs.InOrder(), t.checkpoint))
    ensures FitsSeq(t.nextSeqno, Above(logs.Rotated().InOrder(), t.checkpoint))
  {
    RotatedInOrder(logs);
    var a, b := Above(logs.Inactive().records, t.checkpoint), Above(logs.Active().records, t.checkpoint);
    AboveConcat(logs.Inactive().records, logs.Active().records, t.checkpoint);
    FitsConcat(t.nextSeqno, a, b);
    NextOfMonotone(t.nextSeqno, t.nextSeqno, a);
    NextOfMonotone(t.nextSeqno, NextOf(t.nextSeqno, a), b);
  }

  lemma RotatedLogsOk(t: Table, logs: Logs, nextLsn: nat)
    requires LogsOk(t, logs, nextLsn)
    ensures LogsOk(t, logs.Rotated(), nextLsn)
  {
    RotatedInOrder(logs);
    var k := |logs.Inactive().records|;
    var all, kept := logs.InOrder(), logs.Rotated().InOrder();
    forall i | 0 <= i < |kept|
      ensures kept[i] == all[k + i]
    {
    }
  }

  /** When the wiped log held nothing live, rotation changes nothing a reopen sees. */
  lemma RotatedRecovers(t: Table, logs: Logs, nextLsn: nat)
    requires LogsOk(t, logs, nextLsn) && FlushEntry(t, logs)
    ensures Recover(t, logs.Rotated()) == Recover(t, logs)
  {
    RotatedInOrder(logs);
    RotatedLogsOk(t, logs, nextLsn);
    RecoveredInOrder(logs);
    RecoveredInOrder(logs.Rotated());
    AboveConcat(logs.Inactive().records, logs.Active().records, t.checkpoint);
    assert [] + Above(logs.Active().records, t.checkpoint) == Above(logs.Active().records, t.checkpoint);
  }

  lemma {:induction false} StampAt(segments: seq<Segment>, dirty: set<nat>, deletes: map<nat, set<nat>>)
    ensures |Stamp(segments, dirty, deletes)| == |segments|
    ensures forall i :: 0 <= i < |segments| ==>
              var s := segments[i];
              Stamp(segments, dirty, deletes)[i] ==
                if s.id in dirty && s.id in deletes then s.(deletes := Some(deletes[s.id])) else s
  {
    if segments != [] {
      StampAt(segments[..|segments| - 1], dirty, deletes);
    }
  }

  lemma {:induction false} NewSegmentsAt(nextId: nat, groups: seq<seq<Row>>)
    ensures |NewSegments(nextId, groups)| == |groups|
    ensures forall i :: 0 <= i < |groups| ==> NewSegments(nextId, groups)[i] == Segment(nextId + i, groups[i], None)
  {
    if groups != [] {
      NewSegmentsAt(nextId, groups[..|groups| - 1]);
    }
  }

  lemma FlushedAt(t: Table, frozen: Mem, dirty: set<nat>, deletes: map<nat, set<nat>>, nextLsn: nat, groups: seq<seq<Row>>)
    requires nextLsn > 0
    ensures var ss, n := Flushed(t, frozen, dirty, deletes, nextLsn, groups).segments, |t.segments|;
            && |ss| == n + |groups|
            && (forall i :: 0 <= i < n ==>
                  var s := t.segments[i];
                  ss[i] == if s.id in dirty && s.id in deletes then s.(deletes := Some(deletes[s.id])) else s)
            && (forall i :: n <= i < |ss| ==> ss[i] == Segment(t.nextId + (i - n), groups[i - n], None))
  {
    StampAt(t.segments, dirty, deletes);
    NewSegmentsAt(t.nextId, groups);
  }

  lemma FlushedIdsOk(t: Table, frozen: Mem, dirty: set<nat>, deletes: map<nat, set<nat>>, nextLsn: nat, groups: seq<seq<Row>>)
    requires t.Ok() && nextLsn > 0
    ensures Flushed(t, frozen, dirty, deletes, nextLsn, groups).Ok()
    ensures forall id: nat :: t.Has(id) ==> Flushed(t, frozen, dirty, deletes, nextLsn, groups).Has(id)
  {
    var t2 := Flushed(t, frozen, dirty, deletes, nextLsn, groups);
    FlushedAt(t, frozen, dirty, deletes, nextLsn, groups);
    forall id: nat | t.Has(id)
      ensures t2.Has(id)
    {
      var i :| 0 <= i < |t.segments| && t.segments[i].id == id;
      assert t2.segments[i].id == id;
    }
  }

  /** A flush stores every dirty delete vector, so nothing stays dirty. */
  lemma FlushedOk(t: Table, frozen: Mem, dirty: set<nat>, l: Live, groups: seq<seq<Row>>)
    requires t.Ok() && DeletesOk(t, l.(dirty := dirty)) && l.nextLsn > 0
    ensures var t2 := Flushed(t, frozen, dirty, l.deletes, l.nextLsn, groups);
            t2.Ok() && DeletesOk(t2, l.(dirty := {}))
  {
    var t2 := Flushed(t, frozen, dirty, l.deletes, l.nextLsn, groups);
    FlushedAt(t, frozen, dirty, l.deletes, l.nextLsn, groups);
    FlushedIdsOk(t, frozen, dirty, l.deletes, l.nextLsn, groups);
    forall id | id in l.deletes
      ensures id < t.nextId
    {
      KeysBelow(t, l.(dirty := dirty), id);
    }
    forall i | 0 <= i < |t.segments|
      ensures var s := t2.segments[i];
              if s.deletes.Some? then s.id in l.deletes && l.deletes[s.id] == s.deletes.value else s.id !in l.deletes
    {
      var s := t.segments[i];
      if s.id in dirty {
        assert s.id in l.deletes;
      }
    }
  }

  lemma KeysBelow(t: Table, l: Live, id: nat)
    requires t.Ok() && DeletesOk(t, l) && id in l.deletes
    ensures id < t.nextId
  {
    assert t.Has(id);
    var k :| 0 <= k < |t.segments| && t.segments[k].id == id;
  }

  lemma LogsFolded(t: Table, logs: Logs, nextLsn: nat)
    requires LogsOk(t, logs, nextLsn) && t.checkpoint + 1 == nextLsn
    ensures Recover(t, logs) == FromTable(t)
    ensures Above(logs.InOrder(), t.checkpoint) == []
  {
    RecoveredInOrder(logs);
    AboveNone(logs.InOrder(), t.checkpoint);
  }

  lemma CommitFlushKeeps(s: State, groups: seq<seq<Row>>, u: State)
    requires Inv(s) && Takes(s, CommitFlush(groups), u)
    ensures Inv(u)
  {
    FlushedOk(s.table, s.phase.frozen, s.phase.dirty, s.live, groups);
    assert u.live.(dirty := {}) == u.live;
    assert DeletesOk(u.table, u.live);
    forall i | 0 <= i < |s.logs.InOrder()|
      ensures NamesBelow(s.logs.InOrder()[i], u.table.nextId)
    {
    }
    LogsFolded(u.table, u.logs, u.live.nextLsn);
    DeletesLoaded(u.table, u.live);
  }

  lemma TruncateKeeps(s: State, u: State)
    requires Inv(s) && Takes(s, TruncateRetired, u)
    ensures Inv(u)
    ensures FlushEntry(u.table, u.logs)
  {
    assert u.logs.InOrder() == [];
    LogsFolded(s.table, s.logs, s.live.nextLsn);
    LogsFolded(u.table, u.logs, u.live.nextLsn);
  }

  // ---- Compacting ------------------------------------------------------------------

  function Dropped(l: Live, ids: set<nat>): Live {
    l.(deletes := l.deletes - ids, dirty := l.dirty - ids)
  }

  lemma {:induction false} WithoutIdsHas(segments: seq<Segment>, ids: set<nat>, s: Segment)
    ensures s in WithoutIds(segments, ids) <==> s in segments && s.id !in ids
  {
    if segments != [] {
      WithoutIdsHas(segments[..|segments| - 1], ids, s);
      assert segments == segments[..|segments| - 1] + [segments[|segments| - 1]];
    }
  }

  lemma {:induction false} WithoutIdsDistinct(segments: seq<Segment>, ids: set<nat>)
    requires forall a, b :: 0 <= a < b < |segments| ==> segments[a].id != segments[b].id
    ensures var w := WithoutIds(segments, ids); forall a, b :: 0 <= a < b < |w| ==> w[a].id != w[b].id
  {
    if segments != [] {
      var init, last := segments[..|segments| - 1], segments[|segments| - 1];
      WithoutIdsDistinct(init, ids);
      var w := WithoutIds(init, ids);
      forall a | 0 <= a < |w|
        ensures w[a].id != last.id
      {
        WithoutIdsHas(init, ids, w[a]);
        var k :| 0 <= k < |init| && init[k] == w[a];
        assert segments[k] == w[a];
      }
    }
  }

  lemma CompactedOk(t: Table, ids: set<nat>, groups: seq<seq<Row>>)
    requires t.Ok() && forall id :: id in ids ==> t.Has(id)
    ensures Compacted(t, ids, groups).Ok()
    ensures forall id: nat :: id < t.nextId ==> (Compacted(t, ids, groups).Has(id) <==> t.Has(id) && id !in ids)
  {
    var all := t.segments + NewSegments(t.nextId, groups);
    NewSegmentsAt(t.nextId, groups);
    var n := |t.segments|;
    assert forall i :: 0 <= i < |all| ==> all[i].id == if i < n then t.segments[i].id else t.nextId + i - n;
    WithoutIdsDistinct(all, ids);
    var t2 := Compacted(t, ids, groups);
    forall i | 0 <= i < |t2.segments|
      ensures t2.segments[i].id < t2.nextId
    {
      WithoutIdsHas(all, ids, t2.segments[i]);
      var k :| 0 <= k < |all| && all[k] == t2.segments[i];
    }
    forall id: nat | id < t.nextId
      ensures t2.Has(id) <==> t.Has(id) && id !in ids
    {
      if t2.Has(id) {
        var i :| 0 <= i < |t2.segments| && t2.segments[i].id == id;
        WithoutIdsHas(all, ids, t2.segments[i]);
        var k :| 0 <= k < |all| && all[k] == t2.segments[i];
        assert t.segments[k].id == id;
      }
      if t.Has(id) && id !in ids {
        var k :| 0 <= k < n && t.segments[k].id == id;
        assert all[k] == t.segments[k];
        WithoutIdsHas(all, ids, all[k]);
        var i :| 0 <= i < |t2.segments| && t2.segments[i] == all[k];
      }
    }
  }

  lemma CompactedDeletesOk(t: Table, ids: set<nat>, groups: seq<seq<Row>>, l: Live)
    requires t.Ok() && DeletesOk(t, l) && forall id :: id in ids ==> t.Has(id)
    ensures DeletesOk(Compacted(t, ids, groups), Dropped(l, ids))
  {
    var t2, d := Compacted(t, ids, groups), Dropped(l, ids);
    var all := t.segments + NewSegments(t.nextId, groups);
    CompactedOk(t, ids, groups);
    NewSegmentsAt(t.nextId, groups);
    forall id | id in d.deletes
      ensures t2.Has(id)
    {
      assert t.Has(id);
    }
    forall i | 0 <= i < |t2.segments| && t2.segments[i].id !in d.dirty
      ensures if t2.segments[i].deletes.Some?
              then t2.segments[i].id in d.deletes && d.deletes[t2.segments[i].id] == t2.segments[i].deletes.value
              else t2.segments[i].id !in d.deletes
    {
      WithoutIdsHas(all, ids, t2.segments[i]);
      var k :| 0 <= k < |all| && all[k] == t2.segments[i];
      if k < |t.segments| {
        assert t.segments[k] == t2.segments[i];
      } else {
        NewIdsUnmarked(t, l, t2.segments[i].id);
      }
    }
  }

  lemma NewIdsUnmarked(t: Table, l: Live, id: nat)
    requires t.Ok() && DeletesOk(t, l) && id >= t.nextId
    ensures id !in l.deletes
  {
    if id in l.deletes {
      KeysBelow(t, l, id);
    }
  }

  /** Compaction and a logged record commute. */
  lemma {:induction false} MarkDropped(t: Table, ids: set<nat>, groups: seq<seq<Row>>, l: Live, segs: seq<SegmentDeletes>)
    requires t.Ok() && forall id :: id in ids ==> t.Has(id)
    requires forall i :: 0 <= i < |segs| ==> segs[i].segmentId < t.nextId
    ensures Mark(Compacted(t, ids, groups), Dropped(l, ids), segs) == Dropped(Mark(t, l, segs), ids)
  {
    if segs != [] {
      var init, last := segs[..|segs| - 1], segs[|segs| - 1];
      MarkDropped(t, ids, groups, l, init);
      CompactedOk(t, ids, groups);
      var m := Mark(t, l, init);
      if t.Has(last.segmentId) {
        if last.segmentId in ids {
          assert m.deletes[last.segmentId := last.rows] - ids == m.deletes - ids;
        } else {
          assert m.deletes[last.segmentId := last.rows] - ids == (m.deletes - ids)[last.segmentId := last.rows];
        }
      }
    }
  }

  lemma {:induction false} ApplyAllDropped(t: Table, ids: set<nat>, groups: seq<seq<Row>>, l: Live, records: seq<Record>)
    requires t.Ok() && forall id :: id in ids ==> t.Has(id)
    requires forall i :: 0 <= i < |records| ==> NamesBelow(records[i], t.nextId)
    ensures ApplyAll(Compacted(t, ids, groups), Dropped(l, ids), records) == Dropped(ApplyAll(t, l, records), ids)
  {
    if records != [] {
      var init, r := records[..|records| - 1], records[|records| - 1];
      ApplyAllDropped(t, ids, groups, l, init);
      if !r.Insert? {
        MarkDropped(t, ids, groups, ApplyAll(t, l, init), r.segments);
      }
    }
  }

  lemma FromCompacted(t: Table, ids: set<nat>, groups: seq<seq<Row>>)
    requires t.Ok() && forall id :: id in ids ==> t.Has(id)
    ensures FromTable(Compacted(t, ids, groups)) == Dropped(FromTable(t), ids)
  {
    CompactedOk(t, ids, groups);
    FromTableDeletesOk(t);
    CompactedDeletesOk(t, ids, groups, FromTable(t));
    DeletesLoaded(Compacted(t, ids, groups), Dropped(FromTable(t), ids));
  }

  lemma ReplaceKeeps(s: State, ids: set<nat>, groups: seq<seq<Row>>, u: State)
    requires Inv(s) && Replaces(s, ids, groups, u)
    ensures Inv(u)
  {
    CompactedOk(s.table, ids, groups);
    CompactedDeletesOk(s.table, ids, groups, s.live);
    RecoveredInOrder(s.logs);
    var above := Above(s.logs.InOrder(), s.table.checkpoint);
    forall i | 0 <= i < |above|
      ensures NamesBelow(above[i], s.table.nextId)
    {
      AboveIn(s.logs.InOrder(), s.table.checkpoint, above[i]);
    }
    FromCompacted(s.table, ids, groups);
    ApplyAllDropped(s.table, ids, groups, FromTable(s.table), above);
  }

  lemma StepKeeps(s: State, step: Step, u: State)
    requires Inv(s) && Takes(s, step, u)
    ensures Inv(u)
  {
    match step
    case Write(records) => WriteKeeps(s, records, u);
    case CrashWriting(records, kept) => CrashWritingKeeps(s, records, kept, u);
    case Rotate => RotateKeeps(s, u);
    case CommitFlush(groups) => CommitFlushKeeps(s, groups, u);
    case TruncateRetired => TruncateKeeps(s, u);
    case Compact(ids, groups) => ReplaceKeeps(s, ids, groups, u);
    case Discard(ids) => ReplaceKeeps(s, ids, [], u);
    case Crash => CrashKeeps(s, u);
  }
}
