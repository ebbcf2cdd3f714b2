/**
 * The write path as a state machine: what is on the medium, what the process
 * holds in memory, and what a reopen rebuilds from the first alone.
 *
 * The table file is a register here that a commit replaces in one go; that a
 * commit is atomic under crashes is what the Store modules prove.
 */
module Durability {
  import opened Layout
  import opened Sequences
  import opened Memtables
  import opened Wal

  /** A segment as the last commit has it: its rows, and the delete vector stored with it. */
  datatype Segment = Segment(id: nat, rows: seq<Row>, deletes: Option<set<nat>>)

  /** What the last commit put in the table file. */
  datatype Table = Table(checkpoint: nat, nextId: nat, nextSeqno: nat, segments: seq<Segment>) {
    predicate Has(id: nat) {
      exists i :: 0 <= i < |segments| && segments[i].id == id
    }

    ghost predicate Ok() {
      && (forall i :: 0 <= i < |segments| ==> segments[i].id < nextId)
      && (forall i, j :: 0 <= i < j < |segments| ==> segments[i].id != segments[j].id)
    }
  }

  /** What the writer holds in memory. */
  datatype Live = Live(mem: Mem, deletes: map<nat, set<nat>>, dirty: set<nat>, nextLsn: nat)

  // ---- Reopening -----------------------------------------------------------------

  function LoadDeletes(segments: seq<Segment>): map<nat, set<nat>> {
    if segments == [] then map[]
    else
      var s := segments[|segments| - 1];
      var rest := LoadDeletes(segments[..|segments| - 1]);
      if s.deletes.Some? then rest[s.id := s.deletes.value] else rest
  }

  function FromTable(t: Table): Live {
    Live(Mem([], t.nextSeqno), LoadDeletes(t.segments), {}, t.checkpoint + 1)
  }

  /** Put logged delete vectors back; a segment dropped since is skipped. */
  function Mark(t: Table, l: Live, segs: seq<SegmentDeletes>): Live {
    if segs == [] then l
    else
      var d := segs[|segs| - 1];
      var m := Mark(t, l, segs[..|segs| - 1]);
      if t.Has(d.segmentId) then m.(deletes := m.deletes[d.segmentId := d.rows], dirty := m.dirty + {d.segmentId})
      else m
  }

  /** One record's effect. An update deletes first, then inserts. */
  function Apply(t: Table, l: Live, r: Record): Live {
    var done := match r
      case Insert(_, base, rows) => l.(mem := l.mem.Inserted(base, rows))
      case Delete(_, segs, mem) =>
        var m := Mark(t, l, segs);
        m.(mem := m.mem.Deleted(mem))
      case Update(_, segs, mem, base, rows) =>
        var m := Mark(t, l, segs);
        m.(mem := m.mem.Deleted(mem).Inserted(base, rows));
    done.(nextLsn := Most(l.nextLsn, r.lsn + 1))
  }

  function ApplyAll(t: Table, l: Live, records: seq<Record>): Live {
    if records == [] then l
    else Apply(t, ApplyAll(t, l, records[..|records| - 1]), records[|records| - 1])
  }

  /** The sequence number after replaying records from `next`. */
  function NextOf(next: nat, records: seq<Record>): nat {
    if records == [] then next
    else
      var n, r := NextOf(next, records[..|records| - 1]), records[|records| - 1];
      if r.Delete? || r.rows == [] then n else Most(n, r.base + |r.rows|)
  }

  /** Every insertion lands at numbers nothing before it used. */
  predicate FitsSeq(next: nat, records: seq<Record>) {
    records == [] ||
    (var init, r := records[..|records| - 1], records[|records| - 1];
     FitsSeq(next, init) && (r.Delete? || NextOf(next, init) <= r.base))
  }

  /** The records a checkpoint has not folded into the file. */
  function Above(records: seq<Record>, checkpoint: nat): seq<Record> {
    if records == [] then []
    else Above(records[..|records| - 1], checkpoint)
         + (if records[|records| - 1].lsn <= checkpoint then [] else [records[|records| - 1]])
  }

  /** The writer a reopen builds: the commit's state, then the log's records in order. */
  function Recover(t: Table, logs: Logs): Live {
    ApplyAll(t, FromTable(t), Above(logs.Recovered(), t.checkpoint))
  }

  // ---- Contents ------------------------------------------------------------------

  /** A segment's rows whose positions are not in `dead`. */
  function Kept(rows: seq<Row>, dead: set<nat>): seq<Row> {
    if rows == [] then []
    else Kept(rows[..|rows| - 1], dead) + (if |rows| - 1 in dead then [] else [rows[|rows| - 1]])
  }

  function DeadOf(deletes: map<nat, set<nat>>, id: nat): set<nat> {
    if id in deletes then deletes[id] else {}
  }

  function SegmentRows(segments: seq<Segment>, deletes: map<nat, set<nat>>): multiset<Row> {
    if segments == [] then multiset{}
    else
      var s := segments[|segments| - 1];
      SegmentRows(segments[..|segments| - 1], deletes) + multiset(Kept(s.rows, DeadOf(deletes, s.id)))
  }

  /** The rows of the table: undeleted segment rows and live memtable rows. */
  function Content(t: Table, l: Live): multiset<Row> {
    SegmentRows(t.segments, l.deletes) + multiset(RowsOf(l.mem.live))
  }

  // ---- Steps ---------------------------------------------------------------------

  /** A record the writer may log now: next lsn, next sequence number, delete vectors that only grow. */
  ghost predicate Planned(t: Table, l: Live, r: Record) {
    && r.lsn == l.nextLsn
    && (!r.Delete? ==> r.base == l.mem.next)
    && (!r.Insert? ==> forall i :: 0 <= i < |r.segments| ==>
          t.Has(r.segments[i].segmentId) && DeadOf(l.deletes, r.segments[i].segmentId) <= r.segments[i].rows)
  }

  ghost predicate PlannedAll(t: Table, l: Live, records: seq<Record>) {
    records == [] ||
    (var init := records[..|records| - 1];
     PlannedAll(t, l, init) && Planned(t, ApplyAll(t, l, init), records[|records| - 1]))
  }

  /** New segments for row groups, numbered from `nextId`. */
  function NewSegments(nextId: nat, groups: seq<seq<Row>>): seq<Segment> {
    if groups == [] then []
    else NewSegments(nextId, groups[..|groups| - 1])
         + [Segment(nextId + |groups| - 1, groups[|groups| - 1], None)]
  }

  /** Write the dirty delete vectors into their entries. */
  function Stamp(segments: seq<Segment>, dirty: set<nat>, deletes: map<nat, set<nat>>): seq<Segment> {
    if segments == [] then []
    else
      var s := segments[|segments| - 1];
      Stamp(segments[..|segments| - 1], dirty, deletes)
        + [if s.id in dirty && s.id in deletes then s.(deletes := Some(deletes[s.id])) else s]
  }

  /** The table a flush commits. */
  function Flushed(t: Table, frozen: Mem, dirty: set<nat>, deletes: map<nat, set<nat>>, nextLsn: nat,
                   groups: seq<seq<Row>>): Table
    requires nextLsn > 0
  {
    Table(nextLsn - 1, t.nextId + |groups|, Most(frozen.next, t.nextSeqno),
          Stamp(t.segments, dirty, deletes) + NewSegments(t.nextId, groups))
  }

  function WithoutIds(segments: seq<Segment>, ids: set<nat>): seq<Segment> {
    if segments == [] then []
    else WithoutIds(segments[..|segments| - 1], ids)
         + (if segments[|segments| - 1].id in ids then [] else [segments[|segments| - 1]])
  }

  function OnlyIds(segments: seq<Segment>, ids: set<nat>): seq<Segment> {
    if segments == [] then []
    else OnlyIds(segments[..|segments| - 1], ids)
         + (if segments[|segments| - 1].id in ids then [segments[|segments| - 1]] else [])
  }

  /** The table after segments for `groups` have taken the place of those named. */
  function Compacted(t: Table, ids: set<nat>, groups: seq<seq<Row>>): Table {
    t.(nextId := t.nextId + |groups|,
       segments := WithoutIds(t.segments + NewSegments(t.nextId, groups), ids))
  }

  datatype Phase =
    | Idle
    /** A flush has frozen the memtable and rotated the logs, but not committed. */
    | Rotated(frozen: Mem, dirty: set<nat>, retired: nat, safe: bool)
    /** A flush has committed, but not truncated the retired log. */
    | Committed(retired: nat)

  datatype State = State(table: Table, logs: Logs, live: Live, phase: Phase) {
    /** The writer as it stands, with a flush's frozen rows counted in. */
    function Whole(): Live {
      if phase.Rotated? then live.(mem := phase.frozen, dirty := phase.dirty) else live
    }

    function Rows(): multiset<Row> {
      Content(table, Whole())
    }
  }

  datatype Step =
    | Write(records: seq<Record>)
    | CrashWriting(records: seq<Record>, kept: nat)
    | Rotate
    | CommitFlush(groups: seq<seq<Row>>)
    | TruncateRetired
    | Compact(ids: set<nat>, groups: seq<seq<Row>>)
    | Discard(ids: set<nat>)
    | Crash

  /** The inactive log holds nothing a reopen would still need. */
  predicate FlushEntry(t: Table, logs: Logs) {
    Above(logs.Inactive().records, t.checkpoint) == []
  }

  /** One commit puts segments for `groups` in the place of those named. */
  ghost predicate Replaces(s: State, ids: set<nat>, groups: seq<seq<Row>>, u: State) {
    && s.phase.Idle? && (forall id :: id in ids ==> s.table.Has(id))
    && u == s.(table := Compacted(s.table, ids, groups),
               live := s.live.(deletes := s.live.deletes - ids, dirty := s.live.dirty - ids))
  }

  ghost predicate Takes(s: State, step: Step, u: State) {
    match step
    case Write(records) =>
      && s.phase.Idle? && PlannedAll(s.table, s.live, records)
      && u == s.(logs := s.logs.Appended(records), live := ApplyAll(s.table, s.live, records))
    case CrashWriting(records, kept) =>
      && s.phase.Idle? && PlannedAll(s.table, s.live, records) && kept <= |records|
      && var logs := s.logs.Appended(records[..kept]);
         u == s.(logs := logs, live := Recover(s.table, logs))
    case Rotate =>
      && s.phase.Idle? && (s.live.mem.live != [] || s.live.dirty != {})
      && u == State(s.table, s.logs.Rotated(), s.live.(mem := Mem([], s.live.mem.next), dirty := {}),
                    Rotated(s.live.mem, s.live.dirty, s.logs.Newest(), FlushEntry(s.table, s.logs)))
    case CommitFlush(groups) =>
      && s.phase.Rotated? && s.live.nextLsn > 0
      && multiset(Flatten(groups)) == multiset(RowsOf(s.phase.frozen.live))
      && u == s.(table := Flushed(s.table, s.phase.frozen, s.phase.dirty, s.live.deletes, s.live.nextLsn, groups),
                 phase := Committed(s.phase.retired))
    case TruncateRetired =>
      && s.phase.Committed? && s.phase.retired <= 1
      && u == s.(logs := s.logs.Truncated(s.phase.retired), phase := Idle)
    case Compact(ids, groups) =>
      && multiset(Flatten(groups)) == SegmentRows(OnlyIds(s.table.segments, ids), s.live.deletes)
      && Replaces(s, ids, groups, u)
    case Discard(ids) =>
      Replaces(s, ids, [], u)
    case Crash =>
      u == State(s.table, s.logs, Recover(s.table, s.logs), Idle)
  }

  // ---- Invariant ---------------------------------------------------------------

  /** The delete vectors in memory are the committed ones, apart from the dirty segments'. */
  ghost predicate DeletesOk(t: Table, l: Live) {
    && (forall id :: id in l.deletes ==> t.Has(id))
    && (forall id :: id in l.dirty ==> id in l.deletes)
    && (forall i :: 0 <= i < |t.segments| && t.segments[i].id !in l.dirty ==>
          if t.segments[i].deletes.Some?
          then t.segments[i].id in l.deletes && l.deletes[t.segments[i].id] == t.segments[i].deletes.value
          else t.segments[i].id !in l.deletes)
  }

  ghost predicate NamesBelow(r: Record, nextId: nat) {
    !r.Insert? ==> forall i :: 0 <= i < |r.segments| ==> r.segments[i].segmentId < nextId
  }

  ghost predicate LogsOk(t: Table, logs: Logs, nextLsn: nat) {
    && Told(logs)
    && Increasing(logs.InOrder())
    && (forall i :: 0 <= i < |logs.InOrder()| ==>
          logs.InOrder()[i].lsn < nextLsn && NamesBelow(logs.InOrder()[i], t.nextId))
  }

  ghost predicate Inv(s: State) {
    && s.table.Ok()
    && s.table.checkpoint < s.live.nextLsn
    && LogsOk(s.table, s.logs, s.live.nextLsn)
    && DeletesOk(s.table, s.Whole())
    && s.table.nextSeqno <= s.live.mem.next
    && FitsSeq(s.table.nextSeqno, Above(s.logs.InOrder(), s.table.checkpoint))
    && match s.phase
       case Idle =>
         // replaying the log over the last commit reproduces the live writer
         s.live == Recover(s.table, s.logs)
       case Rotated(frozen, dirty, retired, safe) =>
         && s.live.mem == Mem([], frozen.next) && s.live.dirty == {}
         && retired == 1 - s.logs.Newest() && s.logs.Active().records == []
         && (safe ==> Recover(s.table, s.logs) == s.Whole())
       case Committed(retired) =>
         && s.live == Recover(s.table, s.logs)
         && retired == 1 - s.logs.Newest() && s.logs.Active().records == []
         && s.table.checkpoint + 1 == s.live.nextLsn
  }
}
