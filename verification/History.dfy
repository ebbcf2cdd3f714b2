/** Whole histories: every commit the write path can make, stale compactions and forgetful drops among them. */
module Histories {
  import opened Memtables
  import opened Wal
  import opened Durability
  import opened DurabilityProof
  import opened DurabilityRuns
  import opened Requests
  import opened DeleteRanges
  import opened Maintenance
  import opened Discards

  datatype Event =
    | Plain(step: Step)
    /** A compaction run: what its pin showed of the segments takes their place, if they have one still. */
    | Ran(pin: Pin, ids: seq<nat>, groups: seq<seq<Row>>)
    /** A drop of segments with nothing live: no commit, but their vectors leave memory. */
    | Forgotten(gone: set<nat>)

  function PinOf(s: State): Pin {
    Pin(s.table.segments, s.live.deletes)
  }

  /** A logged vector names rows of its segment, at least one. */
  ghost predicate NamesRows(t: Table, step: Step) {
    step.Write? || step.CrashWriting? ==> forall r :: r in step.records ==> RecordFits(t.segments, r)
  }

  ghost predicate Happens(s: State, e: Event, u: State) {
    match e
    case Plain(step) =>
      Takes(s, step, u) && NamesRows(s.table, step) && (step.Discard? ==> RowsNamed(s, step.ids) != multiset{})
    case Ran(pin, ids, groups) =>
      && s.phase.Idle? && ids != [] && (forall i :: 0 <= i < |ids| ==> pin.Has(ids[i]))
      && !Raced(pin, ids, s.live.deletes)
      && Flatten(groups) == Flatten(LiveRowsOf(pin.segments, pin.deletes, ids))
      && u == CompactedState(s, SetOf(ids), groups)
    case Forgotten(ids) =>
      && s.phase.Idle? && (forall id :: id in ids ==> s.table.Has(id))
      && RowsNamed(s, ids) == multiset{}
      && u == Forgot(s, ids)
  }

  /** A process that has crashed holds no pin. */
  predicate Restarts(e: Event) {
    e.Plain? && (e.step.Crash? || e.step.CrashWriting?)
  }

  /** The pin is what this process saw at some moment before. */
  ghost predicate SeenBefore(states: seq<State>, events: seq<Event>, i: nat, pin: Pin)
    requires i <= |events| < |states|
  {
    exists j :: 0 <= j <= i && pin == PinOf(states[j]) && forall k :: j <= k < i ==> !Restarts(events[k])
  }

  ghost predicate History(states: seq<State>, events: seq<Event>) {
    && |states| == |events| + 1
    && states[0] == Created()
    && (forall i :: 0 <= i < |events| ==> Happens(states[i], events[i], states[i + 1]))
    && (forall i :: 0 <= i < |events| && events[i].Ran? ==> SeenBefore(states, events, i, events[i].pin))
  }

  /**
   * What an event must meet. A crash loses nothing outside a flush that wiped a
   * log still needed; a run writes no live row twice if no segment it read has
   * left the table with a live row, or was named before; forgetting vectors is
   * harmless where there never was a row.
   */
  ghost predicate EventSafe(s: State, e: Event) {
    match e
    case Plain(step) => CrashSafe(s, step)
    case Ran(pin, ids, _) => NoneTwice(pin, s.table, ids)
    case Forgotten(ids) => NoRowsNamed(s.table.segments, ids)
  }

  // ---- What every safe event keeps ---------------------------------------------------

  ghost predicate Sound(s: State) {
    Inv(s) && RangesOk(s.table, s.logs) && InRange(s.table.segments, s.live.deletes)
  }

  lemma NewUnmarked(t: Table, l: Live)
    requires t.Ok() && DeletesOk(t, l)
    ensures forall id :: id in l.deletes ==> id < t.nextId
  {
    forall id | id in l.deletes
      ensures id < t.nextId
    {
      KeysBelow(t, l, id);
    }
  }

  lemma ReplacedInRange(t: Table, l: Live, ids: set<nat>, groups: seq<seq<Row>>)
    requires t.Ok() && DeletesOk(t, l) && InRange(t.segments, l.deletes)
    ensures InRange(Durability.Compacted(t, ids, groups).segments, l.deletes - ids)
  {
    var all, u := t.segments + NewSegments(t.nextId, groups), Durability.Compacted(t, ids, groups);
    NewSegmentsAt(t.nextId, groups);
    NewUnmarked(t, l);
    forall i, p | 0 <= i < |u.segments| && p in DeadOf(l.deletes - ids, u.segments[i].id)
      ensures p < |u.segments[i].rows|
    {
      WithoutIdsHas(all, ids, u.segments[i]);
      var k :| 0 <= k < |all| && all[k] == u.segments[i];
      if k < |t.segments| {
        assert p in DeadOf(l.deletes, t.segments[k].id);
      }
    }
  }

  lemma RotatedSound(s: State, u: State)
    requires Sound(s) && Takes(s, Rotate, u)
    ensures Sound(u)
  {
    RotateKeeps(s, u);
    RotatedInOrder(s.logs);
    AboveConcat(s.logs.Inactive().records, s.logs.Active().records, s.table.checkpoint);
  }

  lemma FlushedInRange(t: Table, l: Live, nextLsn: nat, groups: seq<seq<Row>>)
    requires t.Ok() && DeletesOk(t, l) && InRange(t.segments, l.deletes) && nextLsn > 0
    ensures InRange(Flushed(t, l.mem, l.dirty, l.deletes, nextLsn, groups).segments, l.deletes)
  {
    var u := Flushed(t, l.mem, l.dirty, l.deletes, nextLsn, groups);
    FlushedAt(t, l.mem, l.dirty, l.deletes, nextLsn, groups);
    NewUnmarked(t, l);
    forall i, p | 0 <= i < |u.segments| && p in DeadOf(l.deletes, u.segments[i].id)
      ensures p < |u.segments[i].rows|
    {
      if i < |t.segments| {
        assert p in DeadOf(l.deletes, t.segments[i].id);
      }
    }
  }

  lemma FlushedRanges(t: Table, l: Live, logs: Logs, groups: seq<seq<Row>>)
    requires t.Ok() && LogsOk(t, logs, l.nextLsn) && l.nextLsn > 0
    requires InRange(t.segments, l.deletes) && StoredInRange(t.segments)
    ensures RangesOk(Flushed(t, l.mem, l.dirty, l.deletes, l.nextLsn, groups), logs)
  {
    var records := logs.InOrder();
    AboveNone(records, l.nextLsn - 1);
    FlushedFit(t, l, logs, groups);
  }

  lemma FlushSound(s: State, groups: seq<seq<Row>>, u: State)
    requires Sound(s) && Takes(s, CommitFlush(groups), u)
    ensures Sound(u)
  {
    CommitFlushKeeps(s, groups, u);
    FlushedRanges(s.table, s.Whole(), s.logs, groups);
    FlushedInRange(s.table, s.Whole(), s.live.nextLsn, groups);
  }

  lemma ReplacedSound(s: State, ids: set<nat>, groups: seq<seq<Row>>, u: State)
    requires Sound(s) && Replaces(s, ids, groups, u)
    ensures Sound(u)
  {
    ReplaceKeeps(s, ids, groups, u);
    ReplacedFit(s.table, s.logs, s.live.nextLsn, ids, groups);
    ReplacedInRange(s.table, s.live, ids, groups);
  }

  lemma WriteSound(s: State, records: seq<Record>, u: State)
    requires Sound(s) && Takes(s, Write(records), u) && forall r :: r in records ==> RecordFits(s.table.segments, r)
    ensures Sound(u)
  {
    WriteKeeps(s, records, u);
    AppendedFit(s.table, s.logs, records);
    ApplyAllInRange(s.table, s.live, records);
  }

  lemma StepSound(s: State, step: Step, u: State)
    requires Sound(s) && Takes(s, step, u) && NamesRows(s.table, step)
    ensures Sound(u)
  {
    match step
    case Write(records) => WriteSound(s, records, u);
    case CrashWriting(records, kept) =>
      CrashWritingKeeps(s, records, kept, u);
      PlannedPrefix(s.table, s.live, records, kept);
      WriteSound(s, records[..kept], u);
    case Rotate => RotatedSound(s, u);
    case CommitFlush(groups) => FlushSound(s, groups, u);
    case TruncateRetired =>
      TruncateKeeps(s, u);
      LogsFolded(u.table, u.logs, u.live.nextLsn);
    case Compact(ids, groups) => ReplacedSound(s, ids, groups, u);
    case Discard(ids) => ReplacedSound(s, ids, [], u);
    case Crash =>
      CrashKeeps(s, u);
      RecoverInRange(s.table, s.logs);
  }

  /** Where there never was a row there is no vector to forget. */
  lemma ForgettingNothing(s: State, ids: set<nat>)
    requires Sound(s) && s.phase.Idle? && NoRowsNamed(s.table.segments, ids) && forall id :: id in ids ==> s.table.Has(id)
    ensures Forgot(s, ids) == s
  {
    forall id | id in ids
      ensures id !in s.live.deletes
    {
      var i :| 0 <= i < |s.table.segments| && s.table.segments[i].id == id;
      assert DeadOf(s.live.deletes, s.table.segments[i].id) == {};
    }
    assert s.live.deletes - ids == s.live.deletes;
    assert s.live.dirty - ids == s.live.dirty;
  }

  lemma RunSound(s: State, pin: Pin, ids: seq<nat>, groups: seq<seq<Row>>, u: State)
    requires Sound(s) && Happens(s, Ran(pin, ids, groups), u) && Unchanged(pin, ids, s.table, s.live.deletes)
    ensures Sound(u)
    ensures u.Rows() == s.Rows() <==> NoneTwice(pin, s.table, ids)
  {
    CompactLands(s, pin, ids, groups);
    ReplacedInRange(s.table, s.live, SetOf(ids), groups);
  }

  // ---- What a pin may rely on --------------------------------------------------------

  /** A segment still in the table holds what it held, and its vector has only grown. */
  ghost predicate Remains(s: State, u: State) {
    && s.table.nextId <= u.table.nextId
    && forall id: nat :: id < s.table.nextId && u.table.Has(id) ==>
         && s.table.Has(id)
         && RowsIn(u.table.segments, id) == RowsIn(s.table.segments, id)
         && DeadOf(s.live.deletes, id) <= DeadOf(u.live.deletes, id)
  }

  lemma RemainsOn(s: State, t: State, u: State)
    requires Remains(s, t) && Remains(t, u)
    ensures Remains(s, u)
  {
  }

  /** The old ids of `u` are entries of `t` with the same rows. */
  ghost predicate Descends(t: Table, u: Table) {
    forall i :: 0 <= i < |u.segments| && u.segments[i].id < t.nextId ==>
      exists k :: 0 <= k < |t.segments| && t.segments[k].id == u.segments[i].id && t.segments[k].rows == u.segments[i].rows
  }

  lemma DescendsRows(t: Table, u: Table, id: nat)
    requires t.Ok() && u.Ok() && Descends(t, u) && id < t.nextId && u.Has(id)
    ensures t.Has(id) && RowsIn(u.segments, id) == RowsIn(t.segments, id)
  {
    var i :| 0 <= i < |u.segments| && u.segments[i].id == id;
    var k :| 0 <= k < |t.segments| && t.segments[k].id == u.segments[i].id && t.segments[k].rows == u.segments[i].rows;
    RowsInAt(u.segments, i);
    RowsInAt(t.segments, k);
  }

  lemma ReplacedRemains(s: State, ids: set<nat>, groups: seq<seq<Row>>, u: State)
    requires Inv(s) && Inv(u) && u == CompactedState(s, ids, groups)
    ensures Remains(s, u)
  {
    var all := s.table.segments + NewSegments(s.table.nextId, groups);
    NewSegmentsAt(s.table.nextId, groups);
    forall i | 0 <= i < |u.table.segments| && u.table.segments[i].id < s.table.nextId
      ensures u.table.segments[i].id !in ids && u.table.segments[i] in s.table.segments
    {
      WithoutIdsHas(all, ids, u.table.segments[i]);
    }
    forall id: nat | id < s.table.nextId && u.table.Has(id)
      ensures s.table.Has(id) && RowsIn(u.table.segments, id) == RowsIn(s.table.segments, id)
      ensures DeadOf(s.live.deletes, id) <= DeadOf(u.live.deletes, id)
    {
      DescendsRows(s.table, u.table, id);
    }
  }

  lemma FlushedRowsStay(t: Table, l: Live, nextLsn: nat, groups: seq<seq<Row>>, id: nat)
    requires t.Ok() && nextLsn > 0 && id < t.nextId && Flushed(t, l.mem, l.dirty, l.deletes, nextLsn, groups).Has(id)
    ensures t.Has(id)
    ensures RowsIn(Flushed(t, l.mem, l.dirty, l.deletes, nextLsn, groups).segments, id) == RowsIn(t.segments, id)
  {
    FlushedAt(t, l.mem, l.dirty, l.deletes, nextLsn, groups);
    FlushedIdsOk(t, l.mem, l.dirty, l.deletes, nextLsn, groups);
    DescendsRows(t, Flushed(t, l.mem, l.dirty, l.deletes, nextLsn, groups), id);
  }

  lemma FlushRemains(s: State, groups: seq<seq<Row>>, u: State)
    requires Inv(s) && Takes(s, CommitFlush(groups), u)
    ensures Remains(s, u)
  {
    forall id: nat | id < s.table.nextId && u.table.Has(id)
      ensures s.table.Has(id) && RowsIn(u.table.segments, id) == RowsIn(s.table.segments, id)
    {
      FlushedRowsStay(s.table, s.Whole(), s.live.nextLsn, groups, id);
    }
  }

  lemma {:induction false} MarkGrows(t: Table, l: Live, segs: seq<SegmentDeletes>)
    requires forall i :: 0 <= i < |segs| ==> DeadOf(l.deletes, segs[i].segmentId) <= segs[i].rows
    ensures forall id :: DeadOf(l.deletes, id) <= DeadOf(Mark(t, l, segs).deletes, id)
  {
    if segs != [] {
      MarkGrows(t, l, segs[..|segs| - 1]);
    }
  }

  lemma {:induction false} WritesGrow(t: Table, l: Live, records: seq<Record>)
    requires PlannedAll(t, l, records)
    ensures forall id :: DeadOf(l.deletes, id) <= DeadOf(ApplyAll(t, l, records).deletes, id)
  {
    if records != [] {
      var init, r := records[..|records| - 1], records[|records| - 1];
      WritesGrow(t, l, init);
      if !r.Insert? {
        MarkGrows(t, ApplyAll(t, l, init), r.segments);
      }
    }
  }

  lemma StepRemains(s: State, step: Step, u: State)
    requires Inv(s) && Inv(u) && Takes(s, step, u) && !step.Crash? && !step.CrashWriting?
    ensures Remains(s, u)
  {
    match step
    case Write(records) => WritesGrow(s.table, s.live, records);
    case CommitFlush(groups) => FlushRemains(s, groups, u);
    case Compact(ids, groups) => ReplacedRemains(s, ids, groups, u);
    case Discard(ids) => ReplacedRemains(s, ids, [], u);
    case _ =>
  }

  lemma EventRemains(s: State, e: Event, u: State)
    requires Sound(s) && Sound(u) && Happens(s, e, u) && EventSafe(s, e) && !Restarts(e)
    ensures Remains(s, u)
  {
    match e
    case Ran(_, ids, groups) => ReplacedRemains(s, SetOf(ids), groups, u);
    case Forgotten(ids) => ForgettingNothing(s, ids);
    case Plain(step) => StepRemains(s, step, u);
  }

  /** So what a run needs of its pin is not an assumption: it holds of whatever the process saw before. */
  lemma PinHolds(s: State, u: State, ids: seq<nat>)
    requires Sound(s) && Sound(u) && Remains(s, u)
    ensures Unchanged(PinOf(s), ids, u.table, u.live.deletes)
  {
    forall i | 0 <= i < |ids| && PinOf(s).Has(ids[i])
      ensures ids[i] < s.table.nextId
      ensures !u.table.Has(ids[i]) ==> DeadOf(u.live.deletes, ids[i]) == {}
    {
      assert s.table.Has(ids[i]);
      HasBelow(s.table, ids[i]);
    }
  }

  /** Every event up to `i` met its condition. */
  ghost predicate SafeBefore(states: seq<State>, events: seq<Event>, i: nat)
    requires i <= |events| <= |states|
  {
    forall k :: 0 <= k < i ==> EventSafe(states[k], events[k])
  }

  /** What any pin the process still holds showed has remained. */
  ghost predicate PinsHold(states: seq<State>, events: seq<Event>, i: nat)
    requires i <= |events| < |states|
  {
    forall j :: 0 <= j <= i && (forall k :: j <= k < i ==> !Restarts(events[k])) ==> Sound(states[j]) && Remains(states[j], states[i])
  }

  lemma PinUnchanged(states: seq<State>, events: seq<Event>, i: nat)
    requires History(states, events) && i < |events| && events[i].Ran? && Sound(states[i]) && PinsHold(states, events, i)
    ensures Unchanged(events[i].pin, events[i].ids, states[i].table, states[i].live.deletes)
  {
    var j :| 0 <= j <= i && events[i].pin == PinOf(states[j]) && forall k :: j <= k < i ==> !Restarts(events[k]);
    PinHolds(states[j], states[i], events[i].ids);
  }

  lemma PinsHoldOn(states: seq<State>, events: seq<Event>, i: nat)
    requires |states| == |events| + 1 && i < |events| && PinsHold(states, events, i)
    requires Sound(states[i + 1]) && (!Restarts(events[i]) ==> Remains(states[i], states[i + 1]))
    ensures PinsHold(states, events, i + 1)
  {
    forall j | 0 <= j <= i && forall k :: j <= k < i + 1 ==> !Restarts(events[k])
      ensures Sound(states[j]) && Remains(states[j], states[i + 1])
    {
      assert !Restarts(events[i]);
      RemainsOn(states[j], states[i], states[i + 1]);
    }
  }

  lemma EventSound(s: State, e: Event, u: State)
    requires Sound(s) && Happens(s, e, u) && EventSafe(s, e)
    requires e.Ran? ==> Unchanged(e.pin, e.ids, s.table, s.live.deletes)
    ensures Sound(u)
  {
    match e
    case Plain(step) => StepSound(s, step, u);
    case Ran(pin, ids, groups) => RunSound(s, pin, ids, groups, u);
    case Forgotten(ids) => ForgettingNothing(s, ids);
  }

  lemma CreatedSound()
    ensures Sound(Created())
  {
    CreatedInv();
    assert Created().logs.InOrder() == [];
  }

  lemma SoundOn(states: seq<State>, events: seq<Event>, i: nat)
    requires History(states, events) && i < |events| && EventSafe(states[i], events[i])
    requires Sound(states[i]) && PinsHold(states, events, i)
    requires events[i].Ran? ==> Unchanged(events[i].pin, events[i].ids, states[i].table, states[i].live.deletes)
    ensures Sound(states[i + 1]) && PinsHold(states, events, i + 1)
  {
    HistoryStep(states, events, i);
    EventSound(states[i], events[i], states[i + 1]);
    if !Restarts(events[i]) {
      EventRemains(states[i], events[i], states[i + 1]);
    }
    PinsHoldOn(states, events, i);
  }

  /** A history is sound as long as it is safe, and segments stay what any pin of the process showed. */
  lemma {:induction false} SafeHistoriesAreSound(states: seq<State>, events: seq<Event>, i: nat)
    requires History(states, events) && i <= |events| && SafeBefore(states, events, i)
    ensures Sound(states[i]) && PinsHold(states, events, i)
    ensures i < |events| && events[i].Ran? ==> Unchanged(events[i].pin, events[i].ids, states[i].table, states[i].live.deletes)
  {
    if i == 0 {
      CreatedSound();
    } else {
      SafeHistoriesAreSound(states, events, i - 1);
      SoundOn(states, events, i - 1);
    }
    if i < |events| && events[i].Ran? {
      PinUnchanged(states, events, i);
    }
  }

  lemma HistoryStep(states: seq<State>, events: seq<Event>, i: nat)
    requires History(states, events) && i < |events|
    ensures Happens(states[i], events[i], states[i + 1])
  {
  }

  // ---- The reference ------------------------------------------------------------------

  /** What the reference makes of an event: a run that would write a live row twice does not happen, and nothing is forgotten. */
  ghost function Serve(r: Ideal, e: Event): Ideal {
    match e
    case Plain(step) => r.Served(step)
    case Ran(pin, ids, groups) =>
      if NoneTwice(pin, r.table, ids) then Ideal(Durability.Compacted(r.table, SetOf(ids), groups), Dropped(r.live, SetOf(ids))) else r
    case Forgotten(_) => r
  }

  ghost function Reference(events: seq<Event>, n: nat): Ideal
    requires n <= |events|
  {
    if n == 0 then Ideal(Created().table, Created().live) else Serve(Reference(events, n - 1), events[n - 1])
  }

  /** Every request acknowledged among the first `n` events, and what cut writes left in the log. */
  ghost function Promised(events: seq<Event>, n: nat): multiset<Row>
    requires n <= |events|
  {
    Reference(events, n).Rows()
  }

  lemma EventAgrees(s: State, e: Event, u: State, r: Ideal)
    requires Sound(s) && Happens(s, e, u) && EventSafe(s, e) && Agrees(s, r)
    ensures Agrees(u, Serve(r, e))
  {
    match e
    case Plain(step) => StepAgrees(s, step, u, r);
    case Ran(_, _, _) =>
    case Forgotten(ids) => ForgettingNothing(s, ids);
  }

  lemma NextAgrees(states: seq<State>, events: seq<Event>, i: nat, r: Ideal)
    requires History(states, events) && i < |events| && SafeBefore(states, events, i) && EventSafe(states[i], events[i])
    requires Agrees(states[i], r)
    ensures Agrees(states[i + 1], Serve(r, events[i]))
  {
    SafeHistoriesAreSound(states, events, i);
    HistoryStep(states, events, i);
    EventAgrees(states[i], events[i], states[i + 1], r);
  }

  lemma {:induction false} HistoryAgrees(states: seq<State>, events: seq<Event>, i: nat)
    requires History(states, events) && i <= |events| && SafeBefore(states, events, i)
    ensures Agrees(states[i], Reference(events, i))
  {
    if i > 0 {
      HistoryAgrees(states, events, i - 1);
      NextAgrees(states, events, i - 1, Reference(events, i - 1));
    }
  }

  /**
   * Durability over all of it. As long as every event meets its condition, the
   * table shows exactly the rows acknowledged, and so would reopening it.
   */
  lemma RowsArePromised(states: seq<State>, events: seq<Event>, i: nat)
    requires History(states, events) && i <= |events| && SafeBefore(states, events, i)
    ensures states[i].Rows() == Promised(events, i)
    ensures states[i].phase.Idle? ==> Content(states[i].table, Recover(states[i].table, states[i].logs)) == Promised(events, i)
  {
    HistoryAgrees(states, events, i);
    SafeHistoriesAreSound(states, events, i);
  }

  /** Runs and forgetful drops promise nothing new and take nothing back. */
  lemma OnlyRequestsPromise(states: seq<State>, events: seq<Event>, i: nat)
    requires History(states, events) && i < |events| && SafeBefore(states, events, i) && !events[i].Plain?
    ensures Promised(events, i + 1) == Promised(events, i)
  {
    SafeHistoriesAreSound(states, events, i);
    HistoryAgrees(states, events, i);
    HistoryStep(states, events, i);
    if EventSafe(states[i], events[i]) {
      ExactAt(states[i], events[i], states[i + 1]);
      EventAgrees(states[i], events[i], states[i + 1], Reference(events, i));
    }
  }

  lemma ForgottenIff(s: State, ids: set<nat>, u: State)
    requires Sound(s) && Happens(s, Forgotten(ids), u)
    ensures u.Rows() == s.Rows() <==> NoRowsNamed(s.table.segments, ids)
  {
    DropIsCompleteIff(s, ids);
    assert u.Rows() + multiset{} == u.Rows();
  }

  /** And the conditions are exact: the first run or drop that misses its own shows in the rows. */
  lemma RowsArePromisedIff(states: seq<State>, events: seq<Event>, i: nat)
    requires History(states, events) && i < |events| && SafeBefore(states, events, i) && !events[i].Plain?
    ensures states[i + 1].Rows() == Promised(events, i + 1) <==> EventSafe(states[i], events[i])
  {
    OnlyRequestsPromise(states, events, i);
    RowsArePromised(states, events, i);
    SafeHistoriesAreSound(states, events, i);
    HistoryStep(states, events, i);
    ExactAt(states[i], events[i], states[i + 1]);
  }

  lemma ExactAt(s: State, e: Event, u: State)
    requires Sound(s) && Happens(s, e, u) && !e.Plain?
    requires e.Ran? ==> Unchanged(e.pin, e.ids, s.table, s.live.deletes)
    ensures u.Rows() == s.Rows() <==> EventSafe(s, e)
  {
    if e.Ran? {
      RunSound(s, e.pin, e.ids, e.groups, u);
    } else {
      ForgottenIff(s, e.gone, u);
    }
  }
}
