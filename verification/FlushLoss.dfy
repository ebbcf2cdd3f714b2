/** What a crash inside a flush costs when rotation wiped records still needed: rows gone, and deleted rows back. */
module FlushLosses {
  import opened Memtables
  import opened Wal
  import opened Durability
  import opened DurabilityProof
  import opened DurabilityRuns
  import opened Requests

  // ---- Rows in memory ------------------------------------------------------------------

  /** One record's effect on the rows in memory. */
  function MemAfter(m: Mem, r: Record): Mem {
    match r
    case Insert(_, base, rows) => m.Inserted(base, rows)
    case Delete(_, _, mem) => m.Deleted(mem)
    case Update(_, _, mem, base, rows) => m.Deleted(mem).Inserted(base, rows)
  }

  function MemAll(m: Mem, records: seq<Record>): Mem {
    if records == [] then m else MemAfter(MemAll(m, records[..|records| - 1]), records[|records| - 1])
  }

  lemma {:induction false} MemOfAll(t: Table, l: Live, records: seq<Record>)
    ensures ApplyAll(t, l, records).mem == MemAll(l.mem, records)
  {
    if records != [] {
      var init, r := records[..|records| - 1], records[|records| - 1];
      MemOfAll(t, l, init);
      if !r.Insert? {
        MarkNumbers(t, ApplyAll(t, l, init), r.segments);
      }
    }
  }

  lemma {:induction false} MemConcat(m: Mem, a: seq<Record>, b: seq<Record>)
    ensures MemAll(m, a + b) == MemAll(MemAll(m, a), b)
  {
    if b == [] {
      assert a + b == a;
    } else {
      MemConcat(m, a, b[..|b| - 1]);
      assert (a + b)[..|a + b| - 1] == a + b[..|b| - 1];
    }
  }

  predicate AllBelow(xs: seq<Numbered>, n: nat) {
    forall i :: 0 <= i < |xs| ==> xs[i].0 < n
  }

  predicate NoneBelow(xs: seq<Numbered>, n: nat) {
    forall i :: 0 <= i < |xs| ==> xs[i].0 >= n
  }

  lemma {:induction false} WithoutBounds(xs: seq<Numbered>, dead: set<nat>, n: nat)
    ensures AllBelow(xs, n) ==> AllBelow(Without(xs, dead), n)
    ensures NoneBelow(xs, n) ==> NoneBelow(Without(xs, dead), n)
  {
    if xs != [] {
      WithoutBounds(xs[..|xs| - 1], dead, n);
    }
  }

  /** Every row in memory has a number already given out. */
  lemma {:induction false} NumbersGiven(m: Mem, records: seq<Record>)
    requires AllBelow(m.live, m.next)
    ensures MemAll(m, records).next == NextOf(m.next, records) && AllBelow(MemAll(m, records).live, NextOf(m.next, records))
  {
    if records != [] {
      var init, r := records[..|records| - 1], records[|records| - 1];
      NumbersGiven(m, init);
      var before := MemAll(m, init);
      if !r.Insert? {
        WithoutBounds(before.live, SetOf(r.memtable), before.next);
      }
    }
  }

  lemma OneSplits(p: seq<Numbered>, b: Mem, ab: Mem, r: Record, first: nat) returns (q: seq<Numbered>)
    requires ab.live == p + b.live && AllBelow(p, first) && NoneBelow(b.live, first) && (r.Delete? || r.base >= first)
    ensures MemAfter(ab, r).live == q + MemAfter(b, r).live && AllBelow(q, first) && NoneBelow(MemAfter(b, r).live, first)
  {
    if r.Insert? {
      q := p;
    } else {
      q := Without(p, SetOf(r.memtable));
      WithoutConcat(p, b.live, SetOf(r.memtable));
      WithoutBounds(p, SetOf(r.memtable), first);
      WithoutBounds(b.live, SetOf(r.memtable), first);
    }
  }

  /** With some records replayed before them, `records` leave what they leave alone, behind what is left of the earlier rows. */
  lemma {:induction false} RowsSplit(early: Mem, empty: Mem, records: seq<Record>, first: nat) returns (p: seq<Numbered>)
    requires AllBelow(early.live, first) && empty.live == [] && FitsSeq(first, records)
    ensures MemAll(early, records).live == p + MemAll(empty, records).live
    ensures AllBelow(p, first) && NoneBelow(MemAll(empty, records).live, first)
  {
    if records == [] {
      p := early.live;
      assert p + [] == p;
    } else {
      var init, r := records[..|records| - 1], records[|records| - 1];
      p := RowsSplit(early, empty, init, first);
      NextOfMonotone(first, first, init);
      p := OneSplits(p, MemAll(empty, init), MemAll(early, init), r, first);
    }
  }

  /** The entries numbered below `first`. */
  function Before(xs: seq<Numbered>, first: nat): seq<Numbered> {
    if xs == [] then []
    else Before(xs[..|xs| - 1], first) + (if xs[|xs| - 1].0 < first then [xs[|xs| - 1]] else [])
  }

  lemma {:induction false} BeforeSplits(p: seq<Numbered>, b: seq<Numbered>, first: nat)
    requires AllBelow(p, first) && NoneBelow(b, first)
    ensures Before(p + b, first) == p
  {
    if b != [] {
      BeforeSplits(p, b[..|b| - 1], first);
      assert (p + b)[..|p + b| - 1] == p + b[..|b| - 1];
    } else if p != [] {
      BeforeSplits(p[..|p| - 1], [], first);
      assert (p + b)[..|p + b| - 1] == p[..|p| - 1] + [];
    }
  }

  // ---- Rows in segments -------------------------------------------------------------------

  ghost predicate Contains(more: map<nat, set<nat>>, less: map<nat, set<nat>>) {
    forall id :: DeadOf(less, id) <= DeadOf(more, id)
  }

  /** A logged vector holds what the commit stored for its segment. */
  ghost predicate OverStored(t: Table, r: Record) {
    !r.Insert? ==> forall k :: 0 <= k < |r.segments| && t.Has(r.segments[k].segmentId) ==>
      DeadOf(FromTable(t).deletes, r.segments[k].segmentId) <= r.segments[k].rows
  }

  lemma {:induction false} MarkContains(t: Table, l: Live, segs: seq<SegmentDeletes>, less: map<nat, set<nat>>)
    requires Contains(l.deletes, less)
    requires forall k :: 0 <= k < |segs| && t.Has(segs[k].segmentId) ==> DeadOf(less, segs[k].segmentId) <= segs[k].rows
    ensures Contains(Mark(t, l, segs).deletes, less)
  {
    if segs != [] {
      MarkContains(t, l, segs[..|segs| - 1], less);
    }
  }

  /** Replaying keeps what the commit stored. */
  lemma {:induction false} ReplayContains(t: Table, records: seq<Record>)
    requires forall r :: r in records ==> OverStored(t, r)
    ensures Contains(ApplyAll(t, FromTable(t), records).deletes, FromTable(t).deletes)
  {
    if records != [] {
      var init, r := records[..|records| - 1], records[|records| - 1];
      ReplayContains(t, init);
      assert r in records && OverStored(t, r);
      if !r.Insert? {
        MarkContains(t, ApplyAll(t, FromTable(t), init), r.segments, FromTable(t).deletes);
      }
    }
  }

  lemma MarkOneMore(more: map<nat, set<nat>>, less: map<nat, set<nat>>, d: SegmentDeletes)
    requires Contains(more, less)
    ensures Contains(more[d.segmentId := d.rows], less[d.segmentId := d.rows])
  {
    var more2, less2 := more[d.segmentId := d.rows], less[d.segmentId := d.rows];
    forall id
      ensures DeadOf(less2, id) <= DeadOf(more2, id)
    {
      assert DeadOf(less, id) <= DeadOf(more, id);
    }
  }

  lemma {:induction false} MarkBoth(t: Table, a: Live, b: Live, segs: seq<SegmentDeletes>)
    requires Contains(a.deletes, b.deletes)
    ensures Contains(Mark(t, a, segs).deletes, Mark(t, b, segs).deletes)
  {
    if segs != [] {
      var init, d := segs[..|segs| - 1], segs[|segs| - 1];
      MarkBoth(t, a, b, init);
      MarkOneMore(Mark(t, a, init).deletes, Mark(t, b, init).deletes, d);
    }
  }

  lemma {:induction false} ReplayBoth(t: Table, a: Live, b: Live, records: seq<Record>)
    requires Contains(a.deletes, b.deletes)
    ensures Contains(ApplyAll(t, a, records).deletes, ApplyAll(t, b, records).deletes)
  {
    if records != [] {
      var init, r := records[..|records| - 1], records[|records| - 1];
      ReplayBoth(t, a, b, init);
      if !r.Insert? {
        MarkBoth(t, ApplyAll(t, a, init), ApplyAll(t, b, init), r.segments);
      }
    }
  }

  /** The segment rows that are dead by one map and live by another. */
  function BackRows(segments: seq<Segment>, dead: map<nat, set<nat>>, still: map<nat, set<nat>>): multiset<Row> {
    if segments == [] then multiset{}
    else
      var s := segments[|segments| - 1];
      BackRows(segments[..|segments| - 1], dead, still) + multiset(Picked(s.rows, DeadOf(dead, s.id) - DeadOf(still, s.id)))
  }

  lemma {:induction false} BackSplits(segments: seq<Segment>, dead: map<nat, set<nat>>, still: map<nat, set<nat>>)
    requires Contains(dead, still)
    ensures SegmentRows(segments, still) == SegmentRows(segments, dead) + BackRows(segments, dead, still)
  {
    if segments != [] {
      var init, s := segments[..|segments| - 1], segments[|segments| - 1];
      BackSplits(init, dead, still);
      var some, more := DeadOf(still, s.id), DeadOf(dead, s.id) - DeadOf(still, s.id);
      KeptSplit(s.rows, some, more);
      assert some + more == DeadOf(dead, s.id);
      AddPairs(SegmentRows(init, dead), BackRows(init, dead, still), multiset(Kept(s.rows, some + more)), multiset(Picked(s.rows, more)));
    }
  }

  lemma AddPairs(a: multiset<Row>, b: multiset<Row>, c: multiset<Row>, d: multiset<Row>)
    ensures (a + b) + (c + d) == (a + c) + (b + d)
  {
  }

  // ---- What is lost -----------------------------------------------------------------------

  /** The first number the records of the active log may have given a row. */
  function FirstKept(s: State): nat {
    NextOf(s.table.nextSeqno, Above(s.logs.Inactive().records, s.table.checkpoint))
  }

  /** The live rows that the wiped log inserted. */
  function Gone(s: State): multiset<Row> {
    multiset(RowsOf(Before(s.live.mem.live, FirstKept(s))))
  }

  /** The segment rows whose deletion only the wiped log had. */
  function Back(s: State): multiset<Row> {
    BackRows(s.table.segments, s.live.deletes, Recover(s.table, s.logs.Rotated()).deletes)
  }

  ghost predicate Grown(t: Table, logs: Logs) {
    forall r :: r in Above(logs.InOrder(), t.checkpoint) ==> OverStored(t, r)
  }

  lemma Balance(a: multiset<Row>, back: multiset<Row>, p: multiset<Row>, b: multiset<Row>, before: multiset<Row>, after: multiset<Row>)
    requires before == a + (p + b) && after == (a + back) + b
    ensures before + back == after + p
    ensures after == before <==> back == p
  {
    assert before + back == after + p;
    if after == before {
      forall x
        ensures back[x] == p[x]
      {
        assert (before + back)[x] == (after + p)[x];
      }
    }
  }

  lemma MemLost(t: Table, lost: seq<Record>, kept: seq<Record>)
    requires FitsSeq(t.nextSeqno, lost + kept)
    ensures var first := NextOf(t.nextSeqno, lost);
            var whole, left := ApplyAll(t, FromTable(t), lost + kept).mem.live, ApplyAll(t, FromTable(t), kept).mem.live;
            multiset(RowsOf(whole)) == multiset(RowsOf(Before(whole, first))) + multiset(RowsOf(left))
  {
    var empty, first := FromTable(t).mem, NextOf(t.nextSeqno, lost);
    FitsConcat(t.nextSeqno, lost, kept);
    MemOfAll(t, FromTable(t), lost + kept);
    MemOfAll(t, FromTable(t), kept);
    MemConcat(empty, lost, kept);
    NumbersGiven(empty, lost);
    var p := RowsSplit(MemAll(empty, lost), empty, kept, first);
    BeforeSplits(p, MemAll(empty, kept).live, first);
    RowsConcat(p, MemAll(empty, kept).live);
  }

  lemma SegmentsBack(t: Table, lost: seq<Record>, kept: seq<Record>)
    requires forall r :: r in lost ==> OverStored(t, r)
    ensures Contains(ApplyAll(t, FromTable(t), lost + kept).deletes, ApplyAll(t, FromTable(t), kept).deletes)
  {
    ReplayContains(t, lost);
    ApplyAllConcat(t, FromTable(t), lost, kept);
    ReplayBoth(t, ApplyAll(t, FromTable(t), lost), FromTable(t), kept);
  }

  /** What a reopen reads before and after rotation. */
  lemma RecoversParts(s: State, u: State)
    requires Inv(s) && Takes(s, Rotate, u)
    ensures var lost, kept := Above(s.logs.Inactive().records, s.table.checkpoint), Above(s.logs.Active().records, s.table.checkpoint);
            && s.live == ApplyAll(s.table, FromTable(s.table), lost + kept)
            && Recover(s.table, s.logs.Rotated()) == ApplyAll(s.table, FromTable(s.table), kept)
            && Above(s.logs.InOrder(), s.table.checkpoint) == lost + kept
            && FitsSeq(s.table.nextSeqno, lost + kept)
  {
    AboveConcat(s.logs.Inactive().records, s.logs.Active().records, s.table.checkpoint);
    RotatedInOrder(s.logs);
    RotatedLogsOk(s.table, s.logs, s.live.nextLsn);
    RecoveredInOrder(s.logs);
    RecoveredInOrder(s.logs.Rotated());
  }

  /**
   * A crash between rotation and commit: the table is short of exactly the live rows
   * that the wiped log inserted, and has again exactly the segment rows whose deletion
   * only the wiped log had; so it shows the same rows iff those two are the same rows.
   */
  lemma InterruptedFlushBalance(s: State, u: State, v: State)
    requires Inv(s) && Grown(s.table, s.logs) && Takes(s, Rotate, u) && Takes(u, Crash, v)
    ensures s.Rows() + Back(s) == v.Rows() + Gone(s)
    ensures v.Rows() == s.Rows() <==> Back(s) == Gone(s)
  {
    var t := s.table;
    var lost, kept := Above(s.logs.Inactive().records, t.checkpoint), Above(s.logs.Active().records, t.checkpoint);
    RecoversParts(s, u);
    assert forall r :: r in lost ==> r in lost + kept;
    MemLost(t, lost, kept);
    SegmentsBack(t, lost, kept);
    BackSplits(t.segments, s.live.deletes, v.live.deletes);
    Balance(SegmentRows(t.segments, s.live.deletes), Back(s), Gone(s), multiset(RowsOf(v.live.mem.live)), s.Rows(), v.Rows());
  }

  // ---- Logged vectors grow from the stored ones ------------------------------------------------

  lemma {:induction false} PlannedOver(t: Table, l: Live, records: seq<Record>)
    requires PlannedAll(t, l, records) && Contains(l.deletes, FromTable(t).deletes)
    ensures forall r :: r in records ==> OverStored(t, r)
    ensures Contains(ApplyAll(t, l, records).deletes, FromTable(t).deletes)
  {
    if records != [] {
      var init, r := records[..|records| - 1], records[|records| - 1];
      PlannedOver(t, l, init);
      assert OverStored(t, r);
      if !r.Insert? {
        MarkContains(t, ApplyAll(t, l, init), r.segments, FromTable(t).deletes);
      }
      assert records == init + [r];
    }
  }

  lemma WriteGrown(s: State, records: seq<Record>)
    requires Inv(s) && s.phase.Idle? && PlannedAll(s.table, s.live, records) && Grown(s.table, s.logs)
    ensures Grown(s.table, s.logs.Appended(records))
  {
    RecoveredInOrder(s.logs);
    ReplayContains(s.table, Above(s.logs.InOrder(), s.table.checkpoint));
    PlannedOver(s.table, s.live, records);
    AppendedInOrder(s.logs, records);
    AboveConcat(s.logs.InOrder(), records, s.table.checkpoint);
    forall r | r in Above(records, s.table.checkpoint)
      ensures r in records
    {
      AboveIn(records, s.table.checkpoint, r);
    }
  }

  lemma ReplaceGrown(s: State, ids: set<nat>, groups: seq<seq<Row>>)
    requires Inv(s) && (forall id :: id in ids ==> s.table.Has(id)) && Grown(s.table, s.logs)
    ensures Grown(Compacted(s.table, ids, groups), s.logs)
  {
    var u := Compacted(s.table, ids, groups);
    CompactedOk(s.table, ids, groups);
    FromCompacted(s.table, ids, groups);
    forall r | r in Above(s.logs.InOrder(), s.table.checkpoint)
      ensures OverStored(u, r)
    {
      AboveIn(s.logs.InOrder(), s.table.checkpoint, r);
      assert OverStored(s.table, r) && NamesBelow(r, s.table.nextId);
    }
  }

  lemma RotateGrown(s: State, u: State)
    requires Grown(s.table, s.logs) && Takes(s, Rotate, u)
    ensures Grown(u.table, u.logs)
  {
    RotatedInOrder(s.logs);
    AboveConcat(s.logs.Inactive().records, s.logs.Active().records, s.table.checkpoint);
  }

  lemma StepGrown(s: State, step: Step, u: State)
    requires Inv(s) && Takes(s, step, u) && Grown(s.table, s.logs)
    ensures Grown(u.table, u.logs)
  {
    match step
    case Write(records) => WriteGrown(s, records);
    case CrashWriting(records, kept) =>
      PlannedPrefix(s.table, s.live, records, kept);
      WriteGrown(s, records[..kept]);
    case Rotate => RotateGrown(s, u);
    case CommitFlush(groups) =>
      CommitFlushKeeps(s, groups, u);
      LogsFolded(u.table, u.logs, u.live.nextLsn);
    case TruncateRetired =>
      TruncateKeeps(s, u);
      LogsFolded(u.table, u.logs, u.live.nextLsn);
    case Compact(ids, groups) => ReplaceGrown(s, ids, groups);
    case Discard(ids) => ReplaceGrown(s, ids, []);
    case Crash =>
  }

  lemma CreatedGrown()
    ensures Grown(Created().table, Created().logs)
  {
    assert Created().logs.InOrder() == [];
  }

  lemma NextGrown(states: seq<State>, steps: seq<Step>, i: nat)
    requires Run(states, steps) && i < |steps| && Grown(states[i].table, states[i].logs)
    ensures Grown(states[i + 1].table, states[i + 1].logs)
  {
    RunInv(states, steps, i);
    RunTakes(states, steps, i);
    StepGrown(states[i], steps[i], states[i + 1]);
  }

  lemma {:induction false} RunGrown(states: seq<State>, steps: seq<Step>, i: nat)
    requires Run(states, steps) && i < |states|
    ensures Grown(states[i].table, states[i].logs)
  {
    if i == 0 {
      CreatedGrown();
    } else {
      RunGrown(states, steps, i - 1);
      NextGrown(states, steps, i - 1);
    }
  }

  /** In every run, whatever the logs hold: exactly when an interrupted flush leaves the rows as they were. */
  lemma InterruptedFlushIsHarmlessIff(states: seq<State>, steps: seq<Step>, i: nat)
    requires Run(states, steps) && i + 1 < |steps| && steps[i].Rotate? && steps[i + 1].Crash?
    ensures states[i].Rows() + Back(states[i]) == states[i + 2].Rows() + Gone(states[i])
    ensures states[i + 2].Rows() == states[i].Rows() <==> Back(states[i]) == Gone(states[i])
  {
    RunInv(states, steps, i);
    RunGrown(states, steps, i);
    RunTakes(states, steps, i);
    RunTakes(states, steps, i + 1);
    InterruptedFlushBalance(states[i], states[i + 1], states[i + 2]);
  }
}
