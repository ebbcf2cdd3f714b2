/** What the write path promises, over whole runs. */
module DurabilityRuns {
  import opened Memtables
  import opened Wal
  import opened Durability
  import opened DurabilityProof
  import opened Runs

  // ---- Counting rows ---------------------------------------------------------------

  lemma SegmentRowsPush(ss: seq<Segment>, s: Segment, deletes: map<nat, set<nat>>)
    ensures SegmentRows(ss + [s], deletes) == SegmentRows(ss, deletes) + multiset(Kept(s.rows, DeadOf(deletes, s.id)))
  {
    var all := ss + [s];
    assert all[..|all| - 1] == ss;
  }

  lemma {:induction false} SegmentRowsConcat(a: seq<Segment>, b: seq<Segment>, deletes: map<nat, set<nat>>)
    ensures SegmentRows(a + b, deletes) == SegmentRows(a, deletes) + SegmentRows(b, deletes)
  {
    if b == [] {
      assert a + b == a;
    } else {
      var init, last := b[..|b| - 1], b[|b| - 1];
      SegmentRowsConcat(a, init, deletes);
      SegmentRowsPush(a + init, last, deletes);
      SegmentRowsPush(init, last, deletes);
      SplitLast(a, b);
      Reassociate(SegmentRows(a, deletes), SegmentRows(init, deletes), multiset(Kept(last.rows, DeadOf(deletes, last.id))));
    }
  }

  lemma SplitLast<T>(a: seq<T>, b: seq<T>)
    requires b != []
    ensures a + b == (a + b[..|b| - 1]) + [b[|b| - 1]]
    ensures b == b[..|b| - 1] + [b[|b| - 1]]
  {
  }

  lemma Reassociate(a: multiset<Row>, b: multiset<Row>, c: multiset<Row>)
    ensures (a + b) + c == a + (b + c)
  {
  }

  /** Only ids, rows and delete vectors matter. */
  lemma {:induction false} SegmentRowsAgree(a: seq<Segment>, b: seq<Segment>, d1: map<nat, set<nat>>, d2: map<nat, set<nat>>)
    requires |a| == |b|
    requires forall i :: 0 <= i < |a| ==>
               a[i].rows == b[i].rows && DeadOf(d1, a[i].id) == DeadOf(d2, b[i].id)
    ensures SegmentRows(a, d1) == SegmentRows(b, d2)
  {
    if a != [] {
      SegmentRowsAgree(a[..|a| - 1], b[..|b| - 1], d1, d2);
    }
  }

  lemma {:induction false} KeptAll(rows: seq<Row>)
    ensures Kept(rows, {}) == rows
  {
    if rows != [] {
      KeptAll(rows[..|rows| - 1]);
    }
  }

  lemma {:induction false} NewSegmentRows(nextId: nat, groups: seq<seq<Row>>, deletes: map<nat, set<nat>>)
    requires forall id :: id in deletes ==> id < nextId
    ensures SegmentRows(NewSegments(nextId, groups), deletes) == multiset(Flatten(groups))
  {
    if groups != [] {
      var init, last := groups[..|groups| - 1], groups[|groups| - 1];
      NewSegmentRows(nextId, init, deletes);
      var ss := NewSegments(nextId, groups);
      assert ss[..|ss| - 1] == NewSegments(nextId, init);
      KeptAll(last);
    }
  }

  lemma {:induction false} SplitIds(segments: seq<Segment>, ids: set<nat>, deletes: map<nat, set<nat>>)
    ensures SegmentRows(WithoutIds(segments, ids), deletes) + SegmentRows(OnlyIds(segments, ids), deletes)
         == SegmentRows(segments, deletes)
  {
    if segments != [] {
      var init, last := segments[..|segments| - 1], segments[|segments| - 1];
      SplitIds(init, ids, deletes);
      SegmentRowsConcat(WithoutIds(init, ids), if last.id in ids then [] else [last], deletes);
      SegmentRowsConcat(OnlyIds(init, ids), if last.id in ids then [last] else [], deletes);
      OneSegment(last, deletes);
    }
  }

  /** Those of the named segments that the table has. */
  function Present(segments: seq<Segment>, ids: set<nat>): (r: set<nat>)
    ensures forall id :: id in r <==> id in ids && exists i :: 0 <= i < |segments| && segments[i].id == id
  {
    if segments == [] then {}
    else
      var s := segments[|segments| - 1];
      Present(segments[..|segments| - 1], ids) + (if s.id in ids then {s.id} else {})
  }

  /** Naming ids the table does not have names nothing more. */
  lemma {:induction false} NamedOrPresentIn(segments: seq<Segment>, a: set<nat>, b: set<nat>)
    requires forall i :: 0 <= i < |segments| ==> (segments[i].id in a <==> segments[i].id in b)
    ensures WithoutIds(segments, a) == WithoutIds(segments, b) && OnlyIds(segments, a) == OnlyIds(segments, b)
  {
    if segments != [] {
      NamedOrPresentIn(segments[..|segments| - 1], a, b);
    }
  }

  lemma NamedOrPresent(segments: seq<Segment>, ids: set<nat>)
    ensures WithoutIds(segments, ids) == WithoutIds(segments, Present(segments, ids))
    ensures OnlyIds(segments, ids) == OnlyIds(segments, Present(segments, ids))
  {
    NamedOrPresentIn(segments, ids, Present(segments, ids));
  }

  lemma OneSegment(s: Segment, deletes: map<nat, set<nat>>)
    ensures SegmentRows([s], deletes) == multiset(Kept(s.rows, DeadOf(deletes, s.id)))
    ensures SegmentRows([], deletes) == multiset{}
  {
    var one := [s];
    assert one[..|one| - 1] == [];
  }

  // ---- Flush and compaction keep the rows -----------------------------------------

  lemma FlushedRows(t: Table, dirty: set<nat>, deletes: map<nat, set<nat>>, groups: seq<seq<Row>>)
    requires forall id :: id in deletes ==> id < t.nextId
    ensures SegmentRows(Stamp(t.segments, dirty, deletes) + NewSegments(t.nextId, groups), deletes)
         == SegmentRows(t.segments, deletes) + multiset(Flatten(groups))
  {
    var stamped := Stamp(t.segments, dirty, deletes);
    StampAt(t.segments, dirty, deletes);
    SegmentRowsAgree(t.segments, stamped, deletes, deletes);
    SegmentRowsConcat(stamped, NewSegments(t.nextId, groups), deletes);
    NewSegmentRows(t.nextId, groups, deletes);
  }

  lemma FlushKeepsRows(s: State, groups: seq<seq<Row>>, u: State)
    requires Inv(s) && Takes(s, CommitFlush(groups), u)
    ensures u.Rows() == s.Rows()
  {
    forall id | id in s.live.deletes
      ensures id < s.table.nextId
    {
      KeysBelow(s.table, s.Whole(), id);
    }
    FlushedRows(s.table, s.phase.dirty, s.live.deletes, groups);
    assert RowsOf(u.live.mem.live) == [];
  }

  lemma {:induction false} WithoutIdsConcat(a: seq<Segment>, b: seq<Segment>, ids: set<nat>)
    ensures WithoutIds(a + b, ids) == WithoutIds(a, ids) + WithoutIds(b, ids)
  {
    if b == [] {
      assert a + b == a;
    } else {
      WithoutIdsConcat(a, b[..|b| - 1], ids);
      assert (a + b)[..|a + b| - 1] == a + b[..|b| - 1];
    }
  }

  lemma {:induction false} WithoutIdsNone(segments: seq<Segment>, ids: set<nat>)
    requires forall i :: 0 <= i < |segments| ==> segments[i].id !in ids
    ensures WithoutIds(segments, ids) == segments
  {
    if segments != [] {
      WithoutIdsNone(segments[..|segments| - 1], ids);
    }
  }

  lemma {:induction false} KeptIdsRows(segments: seq<Segment>, ids: set<nat>, deletes: map<nat, set<nat>>)
    ensures SegmentRows(WithoutIds(segments, ids), deletes - ids) == SegmentRows(WithoutIds(segments, ids), deletes)
  {
    var w := WithoutIds(segments, ids);
    forall i | 0 <= i < |w|
      ensures DeadOf(deletes - ids, w[i].id) == DeadOf(deletes, w[i].id)
    {
      WithoutIdsHas(segments, ids, w[i]);
    }
    SegmentRowsAgree(w, w, deletes - ids, deletes);
  }

  /** What replacing segments does to the rows: those named lose what was live, and the new ones bring theirs. */
  lemma ReplaceRows(s: State, ids: set<nat>, groups: seq<seq<Row>>, u: State)
    requires Inv(s) && Replaces(s, ids, groups, u)
    ensures SegmentRows(u.table.segments, u.live.deletes)
         == SegmentRows(WithoutIds(s.table.segments, ids), s.live.deletes) + multiset(Flatten(groups))
  {
    var t, deletes := s.table, s.live.deletes;
    var added := NewSegments(t.nextId, groups);
    NewSegmentsAt(t.nextId, groups);
    forall id | id in ids || id in deletes
      ensures id < t.nextId
    {
      HasBelow(t, id);
    }
    WithoutIdsConcat(t.segments, added, ids);
    WithoutIdsNone(added, ids);
    KeptIdsRows(t.segments, ids, deletes);
    SegmentRowsConcat(WithoutIds(t.segments, ids), added, deletes - ids);
    NewSegmentRows(t.nextId, groups, deletes - ids);
  }

  lemma CompactKeepsRows(s: State, ids: set<nat>, groups: seq<seq<Row>>, u: State)
    requires Inv(s) && Takes(s, Compact(ids, groups), u)
    ensures u.Rows() == s.Rows()
  {
    ReplaceRows(s, ids, groups, u);
    SplitIds(s.table.segments, ids, s.live.deletes);
  }

  /** What the named segments still show. */
  function RowsNamed(s: State, ids: set<nat>): multiset<Row> {
    SegmentRows(OnlyIds(s.table.segments, ids), s.live.deletes)
  }

  lemma DiscardTakesTheNamed(s: State, ids: set<nat>, u: State)
    requires Inv(s) && Takes(s, Discard(ids), u)
    ensures s.Rows() == u.Rows() + RowsNamed(s, ids)
  {
    ReplaceRows(s, ids, [], u);
    SplitIds(s.table.segments, ids, s.live.deletes);
    assert Flatten([]) == [];
    Exchanged(SegmentRows(WithoutIds(s.table.segments, ids), s.live.deletes), RowsNamed(s, ids), multiset(RowsOf(s.live.mem.live)));
  }

  lemma Exchanged(kept: multiset<Row>, gone: multiset<Row>, mem: multiset<Row>)
    ensures (kept + gone) + mem == ((kept + multiset{}) + mem) + gone
  {
  }

  lemma Remainder(all: multiset<Row>, left: multiset<Row>, gone: multiset<Row>)
    requires all == left + gone
    ensures left == all - gone
  {
  }

  lemma HasBelow(t: Table, id: nat)
    requires t.Ok()
    ensures t.Has(id) ==> id < t.nextId
  {
  }

  // ---- One step ------------------------------------------------------------------

  /** A crash loses nothing unless it hits a flush that wiped a log still needed. */
  predicate CrashSafe(s: State, step: Step) {
    step.Crash? && s.phase.Rotated? ==> s.phase.safe
  }

  /**
   * Rows change by requests alone: a completed write applies all its records, a
   * write a crash cuts short applies a prefix of them, discarding segments takes
   * their live rows, and rotating, committing, truncating, compacting, crashing
   * and reopening change no row.
   */
  lemma StepRows(s: State, step: Step, u: State)
    requires Inv(s) && Takes(s, step, u) && CrashSafe(s, step)
    ensures u.Rows() == match step
      case Write(records) => Content(s.table, ApplyAll(s.table, s.live, records))
      case CrashWriting(records, kept) => Content(s.table, ApplyAll(s.table, s.live, records[..kept]))
      case Discard(ids) => s.Rows() - RowsNamed(s, ids)
      case _ => s.Rows()
  {
    match step
    case Write(_) =>
    case CrashWriting(records, kept) => CrashWritingKeeps(s, records, kept, u);
    case Rotate =>
    case CommitFlush(groups) => FlushKeepsRows(s, groups, u);
    case TruncateRetired =>
    case Compact(ids, groups) => CompactKeepsRows(s, ids, groups, u);
    case Discard(ids) =>
      DiscardTakesTheNamed(s, ids, u);
      Remainder(s.Rows(), u.Rows(), RowsNamed(s, ids));
    case Crash =>
  }

  // ---- Whole runs ------------------------------------------------------------------

  /** A table as `create` leaves it. */
  function Created(): State {
    var t := Table(0, 0, 0, []);
    State(t, Logs(Log(0, []), Log(0, [])), FromTable(t), Idle)
  }

  ghost predicate Run(states: seq<State>, steps: seq<Step>) {
    && |states| == |steps| + 1
    && states[0] == Created()
    && forall i :: 0 <= i < |steps| ==> Takes(states[i], steps[i], states[i + 1])
  }

  lemma CreatedInv()
    ensures Inv(Created())
  {
    var s := Created();
    RecoveredInOrder(s.logs);
    assert s.logs.InOrder() == [];
    assert Recover(s.table, s.logs) == s.live;
  }

  lemma RunInv(states: seq<State>, steps: seq<Step>, i: nat)
    requires Run(states, steps) && i < |states|
    ensures Inv(states[i])
  {
    var inv, takes := (s: State) => Inv(s), (s: State, step: Step, u: State) => Takes(s, step, u);
    CreatedInv();
    forall s, step, u | inv(s) && takes(s, step, u)
      ensures inv(u)
    {
      StepKeeps(s, step, u);
    }
    KeptThroughout(states, steps, takes, inv, i);
  }

  lemma RunTakes(states: seq<State>, steps: seq<Step>, i: nat)
    requires Run(states, steps) && i < |steps|
    ensures i + 1 < |states| && Takes(states[i], steps[i], states[i + 1])
  {
  }

  // ---- The reference history --------------------------------------------------------

  /** A table that never stops: what is committed and what is in memory, with no log and no crash. */
  datatype Ideal = Ideal(table: Table, live: Live) {
    function Rows(): multiset<Row> {
      Content(table, live)
    }

    /** Requests and commits take effect at once; a cut write counts for what it got to the log. */
    function Served(step: Step): Ideal {
      match step
      case Write(records) => Ideal(table, ApplyAll(table, live, records))
      case CrashWriting(records, kept) =>
        Ideal(table, ApplyAll(table, live, if kept <= |records| then records[..kept] else records))
      case CommitFlush(groups) =>
        if live.nextLsn == 0 then this
        else Ideal(Flushed(table, live.mem, live.dirty, live.deletes, live.nextLsn, groups),
                   live.(mem := Mem([], live.mem.next), dirty := {}))
      case Compact(ids, groups) => Ideal(Compacted(table, ids, groups), Dropped(live, ids))
      case Discard(ids) => Ideal(Compacted(table, ids, []), Dropped(live, ids))
      case Rotate => this
      case TruncateRetired => this
      case Crash => this
    }
  }

  /** The reference after the first `n` steps. It is computed from the steps alone. */
  function Uninterrupted(steps: seq<Step>, n: nat): Ideal
    requires n <= |steps|
  {
    if n == 0 then Ideal(Created().table, Created().live) else Uninterrupted(steps, n - 1).Served(steps[n - 1])
  }

  /** Every request acknowledged among the first `n` steps, and what cut writes left in the log. */
  function Acknowledged(steps: seq<Step>, n: nat): multiset<Row>
    requires n <= |steps|
  {
    Uninterrupted(steps, n).Rows()
  }

  /** A state in step with the reference: the same commit, and the same memory once a flush in hand is counted. */
  ghost predicate Agrees(s: State, r: Ideal) {
    s.table == r.table && s.Whole() == r.live
  }

  lemma StepAgrees(s: State, step: Step, u: State, r: Ideal)
    requires Inv(s) && Takes(s, step, u) && CrashSafe(s, step) && Agrees(s, r)
    ensures Agrees(u, r.Served(step))
  {
    match step
    case CrashWriting(records, kept) => CrashWritingKeeps(s, records, kept, u);
    case _ =>
  }

  /**
   * Durability. In every run, with crashes and reopens anywhere, the table is in
   * step with a reference that saw the same requests and no interruption.
   */
  lemma {:induction false} RunAgrees(states: seq<State>, steps: seq<Step>, i: nat)
    requires Run(states, steps) && i < |states|
    requires forall k :: 0 <= k < i ==> CrashSafe(states[k], steps[k])
    ensures Agrees(states[i], Uninterrupted(steps, i))
  {
    if i > 0 {
      RunAgrees(states, steps, i - 1);
      RunInv(states, steps, i - 1);
      RunTakes(states, steps, i - 1);
      StepAgrees(states[i - 1], steps[i - 1], states[i], Uninterrupted(steps, i - 1));
    }
  }

  /** So its rows are exactly those acknowledged, each as often, plus what cut writes left in the log. */
  lemma RowsAreTheAcknowledged(states: seq<State>, steps: seq<Step>, i: nat)
    requires Run(states, steps) && i < |states|
    requires forall k :: 0 <= k < i ==> CrashSafe(states[k], steps[k])
    ensures states[i].Rows() == Acknowledged(steps, i)
  {
    RunAgrees(states, steps, i);
  }

  /** The reference's rows change by requests alone: its commits move rows, and drop and add none. */
  lemma CommitsKeepTheAcknowledged(states: seq<State>, steps: seq<Step>, i: nat)
    requires Run(states, steps) && i < |steps|
    requires forall k :: 0 <= k <= i ==> CrashSafe(states[k], steps[k])
    requires steps[i].CommitFlush? || steps[i].Compact?
    ensures Acknowledged(steps, i + 1) == Acknowledged(steps, i)
  {
    RowsAreTheAcknowledged(states, steps, i);
    RowsAreTheAcknowledged(states, steps, i + 1);
    RunInv(states, steps, i);
    RunTakes(states, steps, i);
    StepRows(states[i], steps[i], states[i + 1]);
  }

  /** Replaying the log over the last commit reproduces the writer: rows, numbers, delete vectors, counters. */
  lemma ReplayReproducesWriter(states: seq<State>, steps: seq<Step>, i: nat)
    requires Run(states, steps) && i < |states| && states[i].phase.Idle?
    ensures states[i].live == Recover(states[i].table, states[i].logs)
    ensures states[i].table.checkpoint < states[i].live.nextLsn
    ensures forall r :: r in states[i].logs.InOrder() ==> r.lsn < states[i].live.nextLsn
  {
    RunInv(states, steps, i);
    var records := states[i].logs.InOrder();
    forall r | r in records
      ensures r.lsn < states[i].live.nextLsn
    {
      var k :| 0 <= k < |records| && records[k] == r;
    }
  }

  /**
   * When a flush may be interrupted. Between rotation and commit, a crash keeps
   * every record a reopen needs if and only if the log that rotation wipes held
   * none above the checkpoint.
   */
  lemma InterruptedFlushKeepsRecordsIff(s: State, u: State)
    requires Inv(s) && Takes(s, Rotate, u)
    ensures Above(u.logs.InOrder(), u.table.checkpoint) == Above(s.logs.InOrder(), s.table.checkpoint)
        <==> FlushEntry(s.table, s.logs)
  {
    RotatedInOrder(s.logs);
    AboveConcat(s.logs.Inactive().records, s.logs.Active().records, s.table.checkpoint);
    var lost, kept := Above(s.logs.Inactive().records, s.table.checkpoint), Above(s.logs.Active().records, s.table.checkpoint);
    assert |lost + kept| == |kept| ==> lost == [];
    assert lost == [] ==> lost + kept == kept;
  }

  /** The rows a stretch of logged insertions carries. */
  function Carried(records: seq<Record>): multiset<Row> {
    if records == [] then multiset{}
    else
      var r := records[|records| - 1];
      Carried(records[..|records| - 1]) + (if r.Insert? then multiset(r.rows) else multiset{})
  }

  predicate AllInserts(records: seq<Record>) {
    forall r :: r in records ==> r.Insert?
  }

  predicate Empty(records: seq<Record>) {
    forall r :: r in records ==> r.Delete? || r.rows == []
  }

  lemma {:induction false} CarriedNone(records: seq<Record>)
    requires AllInserts(records)
    ensures Carried(records) == multiset{} <==> Empty(records)
  {
    if records != [] {
      var init, r := records[..|records| - 1], records[|records| - 1];
      CarriedNone(init);
      assert forall x :: x in records <==> x in init || x == r;
      if r.rows != [] {
        assert r.rows[0] in Carried(records);
      }
    }
  }

  lemma InsertedOne(mem: Mem, base: nat, rows: seq<Row>)
    ensures RowsOf(mem.Inserted(base, rows).live) == RowsOf(mem.live) + rows
    ensures base == mem.next ==> mem.Inserted(base, rows).next == mem.next + |rows|
  {
    if rows != [] {
      RowsConcat(mem.live, Number(base, rows));
    }
  }

  lemma OneInsert(t: Table, l: Live, r: Record)
    requires r.Insert?
    ensures Content(t, Apply(t, l, r)) == Content(t, l) + multiset(r.rows)
  {
    InsertedOne(l.mem, r.base, r.rows);
    Reassociate(SegmentRows(t.segments, l.deletes), multiset(RowsOf(l.mem.live)), multiset(r.rows));
  }

  lemma {:induction false} InsertsAdd(t: Table, l: Live, records: seq<Record>)
    requires AllInserts(records)
    ensures Content(t, ApplyAll(t, l, records)) == Content(t, l) + Carried(records)
  {
    if records != [] {
      var init, r := records[..|records| - 1], records[|records| - 1];
      assert forall x :: x in init ==> x in records;
      InsertsAdd(t, l, init);
      OneInsert(t, ApplyAll(t, l, init), r);
      Reassociate(Content(t, l), Carried(init), multiset(r.rows));
    }
  }

  lemma {:induction false} CarriedConcat(a: seq<Record>, b: seq<Record>)
    ensures Carried(a + b) == Carried(a) + Carried(b)
  {
    if b == [] {
      assert a + b == a;
    } else {
      var init, r := b[..|b| - 1], b[|b| - 1];
      CarriedConcat(a, init);
      assert (a + b)[..|a + b| - 1] == a + init;
      Reassociate(Carried(a), Carried(init), if r.Insert? then multiset(r.rows) else multiset{});
    }
  }

  lemma InOrderRows(t: Table, logs: Logs, nextLsn: nat)
    requires LogsOk(t, logs, nextLsn)
    requires AllInserts(Above(logs.InOrder(), t.checkpoint))
    ensures Content(t, Recover(t, logs)) == Content(t, FromTable(t)) + Carried(Above(logs.InOrder(), t.checkpoint))
  {
    RecoveredInOrder(logs);
    InsertsAdd(t, FromTable(t), Above(logs.InOrder(), t.checkpoint));
  }

  /**
   * What that costs, in rows: with nothing but insertions above the checkpoint,
   * a crash between rotation and commit loses exactly the rows of the wiped
   * log's records, and so none iff those records are empty.
   */
  lemma InterruptedFlushKeepsRowsIff(s: State, u: State, v: State)
    requires Inv(s) && Takes(s, Rotate, u) && Takes(u, Crash, v)
    requires AllInserts(Above(s.logs.InOrder(), s.table.checkpoint))
    ensures s.Rows() == v.Rows() + Carried(Above(s.logs.Inactive().records, s.table.checkpoint))
    ensures v.Rows() == s.Rows() <==> Empty(Above(s.logs.Inactive().records, s.table.checkpoint))
  {
    var lost, kept := Above(s.logs.Inactive().records, s.table.checkpoint), Above(s.logs.Active().records, s.table.checkpoint);
    AboveConcat(s.logs.Inactive().records, s.logs.Active().records, s.table.checkpoint);
    RotatedInOrder(s.logs);
    RotatedLogsOk(s.table, s.logs, s.live.nextLsn);
    assert forall r :: r in lost + kept <==> r in lost || r in kept;
    InOrderRows(s.table, s.logs, s.live.nextLsn);
    InOrderRows(s.table, s.logs.Rotated(), s.live.nextLsn);
    CarriedConcat(lost, kept);
    CarriedNone(lost);
    LostPart(Content(s.table, FromTable(s.table)), Carried(lost), Carried(kept), s.Rows(), v.Rows());
  }

  lemma LostPart(base: multiset<Row>, lost: multiset<Row>, kept: multiset<Row>, before: multiset<Row>, after: multiset<Row>)
    requires before == base + (lost + kept) && after == base + kept
    ensures before == after + lost
    ensures after == before <==> lost == multiset{}
  {
    if after == before {
      assert forall x :: lost[x] == 0;
    }
  }

  /** A completed flush restores that condition, whatever held before it. */
  lemma CompletedFlushRestoresEntry(s: State, u: State)
    requires Inv(s) && Takes(s, TruncateRetired, u)
    ensures FlushEntry(u.table, u.logs)
  {
    TruncateKeeps(s, u);
  }

  /** Writes and compactions keep it. */
  lemma WritesKeepEntry(s: State, step: Step, u: State)
    requires Inv(s) && Takes(s, step, u) && FlushEntry(s.table, s.logs)
    requires step.Write? || step.Compact? || step.Discard? || (step.Crash? && !s.phase.Rotated?)
    ensures FlushEntry(u.table, u.logs)
  {
  }

  // ---- The failing case --------------------------------------------------------

  const EMPTY_TABLE: Table := Table(0, 0, 0, [])

  /** Two flushes in a row, each interrupted between rotation and commit, with a write before each. */
  function Interrupted(first: Row, second: Row): seq<State> {
    var r1, r2 := Insert(1, 0, [first]), Insert(2, 1, [second]);
    var m1, m2 := Mem([(0, first)], 1), Mem([(0, first), (1, second)], 2);
    var l1, l2 := Live(m1, map[], {}, 2), Live(m2, map[], {}, 3);
    [ Created(),
      State(EMPTY_TABLE, Logs(Log(0, [r1]), Log(0, [])), l1, Idle),
      State(EMPTY_TABLE, Logs(Log(0, [r1]), Log(1, [])), Live(Mem([], 1), map[], {}, 2), Rotated(m1, {}, 0, true)),
      State(EMPTY_TABLE, Logs(Log(0, [r1]), Log(1, [])), l1, Idle),
      State(EMPTY_TABLE, Logs(Log(0, [r1]), Log(1, [r2])), l2, Idle),
      State(EMPTY_TABLE, Logs(Log(2, []), Log(1, [r2])), Live(Mem([], 2), map[], {}, 3), Rotated(m2, {}, 1, false)),
      State(EMPTY_TABLE, Logs(Log(2, []), Log(1, [r2])), Live(Mem([(1, second)], 2), map[], {}, 3), Idle) ]
  }

  lemma InterruptedWrites(first: Row, second: Row)
    ensures var st := Interrupted(first, second);
            && Takes(st[0], Write([Insert(1, 0, [first])]), st[1])
            && Takes(st[3], Write([Insert(2, 1, [second])]), st[4])
  {
    var st := Interrupted(first, second);
    var r1, r2 := Insert(1, 0, [first]), Insert(2, 1, [second]);
    assert Number(0, [first]) == [(0, first)];
    assert Number(1, [second]) == [(1, second)];
    OneRecord(EMPTY_TABLE, st[0].live, r1, st[1].live);
    OneRecord(EMPTY_TABLE, st[3].live, r2, st[4].live);
  }

  lemma InterruptedRotates(first: Row, second: Row)
    ensures var st := Interrupted(first, second); Takes(st[1], Rotate, st[2]) && Takes(st[4], Rotate, st[5])
  {
    var one := [Insert(1, 0, [first])];
    assert one[..|one| - 1] == [];
  }

  lemma InterruptedCrashes(first: Row, second: Row)
    ensures var st := Interrupted(first, second); Takes(st[2], Crash, st[3]) && Takes(st[5], Crash, st[6])
  {
    var st := Interrupted(first, second);
    assert Number(0, [first]) == [(0, first)];
    assert Number(1, [second]) == [(1, second)];
    RecoverOne(EMPTY_TABLE, st[2].logs, Insert(1, 0, [first]), st[3].live);
    RecoverOne(EMPTY_TABLE, st[5].logs, Insert(2, 1, [second]), st[6].live);
  }

  function InterruptedSteps(first: Row, second: Row): seq<Step> {
    [Write([Insert(1, 0, [first])]), Rotate, Crash, Write([Insert(2, 1, [second])]), Rotate, Crash]
  }

  /** The row inserted before the first interruption is gone after the second. */
  lemma TwoInterruptedFlushesLoseARow(first: Row, second: Row)
    ensures var st := Interrupted(first, second);
            && Run(st, InterruptedSteps(first, second))
            && st[4].Rows() == multiset{first, second}
            && st[6].Rows() == multiset{second}
  {
    InterruptedWrites(first, second);
    InterruptedRotates(first, second);
    InterruptedCrashes(first, second);
    InterruptedRows(first, second);
  }

  /** The reference still has it, so the last crash is the step the main theorem must leave out. */
  lemma LostAlthoughAcknowledged(first: Row, second: Row)
    ensures Acknowledged(InterruptedSteps(first, second), 6) == multiset{first, second}
    ensures !CrashSafe(Interrupted(first, second)[5], InterruptedSteps(first, second)[5])
  {
    var st, steps := Interrupted(first, second), InterruptedSteps(first, second);
    CrashServesNothing(steps, 5);
    AcknowledgedBefore(first, second);
  }

  lemma CrashServesNothing(steps: seq<Step>, n: nat)
    requires n < |steps| && steps[n].Crash?
    ensures Acknowledged(steps, n + 1) == Acknowledged(steps, n)
  {
  }

  lemma AcknowledgedBefore(first: Row, second: Row)
    ensures Acknowledged(InterruptedSteps(first, second), 5) == multiset{first, second}
  {
    var st, steps := Interrupted(first, second), InterruptedSteps(first, second);
    TwoInterruptedFlushesLoseARow(first, second);
    assert |st| == 7 && |steps| == 6;
    forall k | 0 <= k < 5
      ensures CrashSafe(st[k], steps[k])
    {
    }
    RowsAreTheAcknowledged(st, steps, 5);
    FrozenRows(first, second);
  }

  lemma FrozenRows(first: Row, second: Row)
    ensures Interrupted(first, second)[5].Rows() == multiset{first, second}
  {
    assert RowsOf(Interrupted(first, second)[5].Whole().mem.live) == [first, second];
  }

  lemma InterruptedRows(first: Row, second: Row)
    ensures Interrupted(first, second)[4].Rows() == multiset{first, second}
    ensures Interrupted(first, second)[6].Rows() == multiset{second}
  {
    var st := Interrupted(first, second);
    assert RowsOf(st[4].live.mem.live) == [first, second];
    assert RowsOf(st[6].live.mem.live) == [second];
  }

  lemma OneRecord(t: Table, l: Live, r: Record, l2: Live)
    requires Apply(t, l, r) == l2 && Planned(t, l, r)
    ensures ApplyAll(t, l, [r]) == l2
    ensures PlannedAll(t, l, [r])
  {
    var one := [r];
    assert one[..|one| - 1] == [];
  }

  lemma RecoverOne(t: Table, logs: Logs, r: Record, l: Live)
    requires logs.InOrder() == [r] && Told(logs) && r.lsn > t.checkpoint
    requires Apply(t, FromTable(t), r) == l
    ensures Recover(t, logs) == l
  {
    RecoveredInOrder(logs);
    AboveAll([r], t.checkpoint);
    var one := [r];
    assert one[..|one| - 1] == [];
    assert ApplyAll(t, FromTable(t), one) == l;
  }
}
