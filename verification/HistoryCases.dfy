/** Histories from creation in which one event misses its condition. */
module HistoryCases {
  import opened Layout
  import opened Memtables
  import opened Wal
  import opened Durability
  import opened DurabilityProof
  import opened DurabilityRuns
  import opened Requests
  import opened Writers
  import opened Maintenance
  import opened Discards
  import opened Histories

  // ---- One row, written and flushed ----------------------------------------------------

  function OneSegmentTable(row: Row): Table {
    Table(1, 1, 1, [Segment(0, [row], None)])
  }

  /** A table in which one row has been stored as segment 0. */
  function Settled(row: Row): State {
    State(OneSegmentTable(row), Logs(Log(0, []), Log(1, [])), Live(Mem([], 1), map[], {}, 2), Idle)
  }

  function Storing(row: Row): seq<State> {
    var r, m, l := Insert(1, 0, [row]), Mem([(0, row)], 1), Live(Mem([], 1), map[], {}, 2);
    var files := Logs(Log(0, [r]), Log(1, []));
    [ Created(),
      State(EMPTY_TABLE, Logs(Log(0, [r]), Log(0, [])), Live(m, map[], {}, 2), Idle),
      State(EMPTY_TABLE, files, l, Rotated(m, {}, 0, true)),
      State(OneSegmentTable(row), files, l, Committed(0)),
      Settled(row) ]
  }

  function StoringEvents(row: Row): seq<Event> {
    [Plain(Write([Insert(1, 0, [row])])), Plain(Rotate), Plain(CommitFlush([[row]])), Plain(TruncateRetired)]
  }

  lemma Flushes(row: Row)
    ensures Takes(Storing(row)[2], CommitFlush([[row]]), Storing(row)[3])
  {
    var groups, m := [[row]], Mem([(0, row)], 1);
    assert groups[..0] == [] && Flatten(groups) == [] + [row];
    assert RowsOf(m.live) == [row];
    NewSegmentsAt(0, groups);
    assert NewSegments(0, groups) == [Segment(0, [row], None)];
    assert Stamp([], {}, map[]) + NewSegments(0, groups) == [Segment(0, [row], None)];
  }

  lemma StoringHappens(row: Row)
    ensures History(Storing(row), StoringEvents(row)) && SafeBefore(Storing(row), StoringEvents(row), 4)
  {
    var states, events := Storing(row), StoringEvents(row);
    InterruptedWrites(row, row);
    InterruptedRotates(row, row);
    Flushes(row);
    assert Interrupted(row, row)[1] == states[1] && Interrupted(row, row)[2] == states[2];
    assert Happens(states[0], events[0], states[1]);
    assert Happens(states[1], events[1], states[2]);
    assert Happens(states[2], events[2], states[3]);
    assert Happens(states[3], events[3], states[4]);
  }

  /** One more event, which may rely on what the process has just seen. */
  lemma Continued(states: seq<State>, events: seq<Event>, e: Event, u: State)
    requires History(states, events) && Happens(states[|events|], e, u)
    requires e.Ran? ==> SeenBefore(states, events, |events|, e.pin)
    ensures History(states + [u], events + [e])
  {
    var ss, es := states + [u], events + [e];
    forall i | 0 <= i < |es|
      ensures Happens(ss[i], es[i], ss[i + 1])
    {
      StillHappens(states, events, e, u, i);
    }
    forall i | 0 <= i < |es| && es[i].Ran?
      ensures SeenBefore(ss, es, i, es[i].pin)
    {
      SeenStays(states, events, i, es[i].pin, u, e);
    }
  }

  lemma StillHappens(states: seq<State>, events: seq<Event>, e: Event, u: State, i: nat)
    requires History(states, events) && Happens(states[|events|], e, u) && i <= |events|
    ensures Happens((states + [u])[i], (events + [e])[i], (states + [u])[i + 1])
  {
    if i < |events| {
      HistoryStep(states, events, i);
    }
  }

  lemma SeenStays(states: seq<State>, events: seq<Event>, i: nat, pin: Pin, u: State, e: Event)
    requires |states| == |events| + 1 && i <= |events| && SeenBefore(states, events, i, pin)
    ensures SeenBefore(states + [u], events + [e], i, pin)
  {
    var j :| 0 <= j <= i && pin == PinOf(states[j]) && forall k :: j <= k < i ==> !Restarts(events[k]);
    assert (states + [u])[j] == states[j];
  }

  lemma OneRowLeft(s: State, row: Row, id: nat)
    requires s.table.segments == [Segment(id, [row], None)] && s.live.deletes == map[] && s.live.mem.live == [] && s.phase.Idle?
    ensures s.Rows() == multiset{row}
  {
    OneSegment(s.table.segments[0], s.live.deletes);
    KeptAll([row]);
    assert RowsOf(s.live.mem.live) == [];
  }

  // ---- The same segment compacted twice -------------------------------------------------

  /** A run over segment 0, as it was pinned when it was stored. */
  function RunOver(row: Row): Event {
    Ran(PinOf(Settled(row)), [0], [[row]])
  }

  function Once(row: Row): State {
    Settled(row).(table := Table(1, 2, 1, [Segment(1, [row], None)]))
  }

  function Twice(row: Row): State {
    Settled(row).(table := Table(1, 3, 1, [Segment(1, [row], None), Segment(2, [row], None)]))
  }

  lemma RunReads(row: Row)
    ensures var pin := PinOf(Settled(row));
            && Flatten([[row]]) == Flatten(LiveRowsOf(pin.segments, pin.deletes, [0]))
            && RowsIn(pin.segments, 0) == [row] && Kept([row], {}) == [row] && pin.Has(0)
  {
    var pin, ids: seq<nat> := PinOf(Settled(row)), [0];
    assert pin.segments[0].id == 0;
    KeptAll([row]);
    assert ids[..0] == [];
    assert LiveRowsOf(pin.segments, pin.deletes, ids[..0]) == [];
    assert LiveRowsOf(pin.segments, pin.deletes, ids) == [[row]];
  }

  lemma WithoutZero(s: Segment)
    ensures WithoutIds([s], {0}) == if s.id == 0 then [] else [s]
  {
    var one := [s];
    assert one[..0] == [];
  }

  /** The new segment, and nothing of segment 0. */
  lemma InPlaceOfZero(before: Segment, next: nat, row: Row)
    requires next > 0
    ensures var added := Segment(next, [row], None);
            WithoutIds([before] + NewSegments(next, [[row]]), {0}) == if before.id == 0 then [added] else [before] + [added]
  {
    var added := Segment(next, [row], None);
    NewSegmentsAt(next, [[row]]);
    assert NewSegments(next, [[row]]) == [added];
    WithoutIdsConcat([before], [added], {0});
    WithoutZero(added);
    WithoutZero(before);
  }

  lemma RunsLand(row: Row)
    ensures CompactedState(Settled(row), {0}, [[row]]) == Once(row)
    ensures CompactedState(Once(row), {0}, [[row]]) == Twice(row)
  {
    InPlaceOfZero(Segment(0, [row], None), 1, row);
    InPlaceOfZero(Segment(1, [row], None), 2, row);
    assert Settled(row).live.deletes - {0} == map[];
  }

  lemma RunHappens(row: Row, s: State, u: State)
    requires s.phase.Idle? && s.live.deletes == map[] && u == CompactedState(s, {0}, [[row]])
    ensures Happens(s, RunOver(row), u)
  {
    RunReads(row);
    var ids: seq<nat> := [0];
    assert SetOf(ids) == {0};
  }

  lemma RowTwice(row: Row)
    ensures Once(row).Rows() == multiset{row} && Twice(row).Rows() == multiset{row, row}
  {
    var b, c := Segment(1, [row], None), Segment(2, [row], None);
    OneRowLeft(Once(row), row, 1);
    KeptAll([row]);
    OneSegment(b, map[]);
    SegmentRowsPush([b], c, map[]);
    assert Twice(row).table.segments == [b] + [c];
    assert RowsOf(Twice(row).live.mem.live) == [];
  }

  function TwiceStates(row: Row): seq<State> {
    Storing(row) + [Once(row)] + [Twice(row)]
  }

  function TwiceEvents(row: Row): seq<Event> {
    StoringEvents(row) + [RunOver(row)] + [RunOver(row)]
  }

  lemma TwiceHappens(row: Row)
    ensures History(TwiceStates(row), TwiceEvents(row))
  {
    var states, events, e := Storing(row), StoringEvents(row), RunOver(row);
    StoringHappens(row);
    RunsLand(row);
    RunHappens(row, Settled(row), Once(row));
    RunHappens(row, Once(row), Twice(row));
    assert PinOf(states[4]) == e.pin;
    Continued(states, events, e, Once(row));
    var later, more := states + [Once(row)], events + [e];
    assert later[4] == states[4] && more[4] == e;
    assert SeenBefore(later, more, 5, e.pin);
    Continued(later, more, e, Twice(row));
  }

  /**
   * Store a row, and let two runs read its segment under one pin. The first run
   * moves the row to segment 1; the second finds the counts equal, and writes it again.
   */
  lemma SecondRunDuplicates(row: Row)
    ensures var states, events := TwiceStates(row), TwiceEvents(row);
            && History(states, events)
            && SafeBefore(states, events, 5) && !EventSafe(states[5], events[5])
            && Promised(events, 6) == multiset{row} && states[6].Rows() == multiset{row, row}
  {
    var states, events := TwiceStates(row), TwiceEvents(row);
    TwiceHappens(row);
    TwiceSafe(row);
    RowTwice(row);
    RowsArePromised(states, events, 5);
    OnlyRequestsPromise(states, events, 5);
  }

  lemma TwiceSafe(row: Row)
    ensures SafeBefore(TwiceStates(row), TwiceEvents(row), 5) && !EventSafe(TwiceStates(row)[5], TwiceEvents(row)[5])
  {
    var states, events := TwiceStates(row), TwiceEvents(row);
    StoringHappens(row);
    RunReads(row);
    forall k | 0 <= k < 5
      ensures EventSafe(states[k], events[k])
    {
      if k < 4 {
        assert states[k] == Storing(row)[k] && events[k] == StoringEvents(row)[k];
      } else {
        assert Settled(row).table.segments[0].id == 0;
      }
    }
    var ids: seq<nat> := [0];
    assert Extra(Once(row).table, ids, 0);
    assert Kept(RowsIn(events[5].pin.segments, ids[0]), DeadOf(events[5].pin.deletes, ids[0])) == [row];
  }

  // ---- A drop that forgets a deletion ----------------------------------------------------

  /** The segment's only row has been deleted, which so far only the log says. */
  function Deleting(row: Row): State {
    Wrote(Settled(row), [Record.Delete(2, [SegmentDeletes(0, {0})], [])])
  }

  function ForgetfulStates(row: Row): seq<State> {
    Storing(row) + [Deleting(row)] + [Forgot(Deleting(row), {0})]
  }

  function ForgetfulEvents(row: Row): seq<Event> {
    StoringEvents(row) + [Plain(Write([Record.Delete(2, [SegmentDeletes(0, {0})], [])]))] + [Forgotten({0})]
  }

  lemma DeletingShape(row: Row)
    ensures var s, d := Settled(row), Deleting(row);
            && Happens(s, Plain(Write([Record.Delete(2, [SegmentDeletes(0, {0})], [])])), d)
            && d.table == s.table && d.live == Live(Mem([], 1), map[0 := {0}], {0}, 3) && d.phase == Idle
  {
    var s, r := Settled(row), Record.Delete(2, [SegmentDeletes(0, {0})], []);
    assert s.table.segments[0].id == 0 && s.table.Has(0);
    DeleteApplied(s.table, s.live, r.segments, []);
    OneRecord(s.table, s.live, r, Apply(s.table, s.live, r));
    assert Mark(s.table, s.live.(nextLsn := 3), []) == s.live.(nextLsn := 3);
    assert r.segments[..0] == [];
  }

  lemma DeletedThenBack(row: Row)
    ensures var d := Deleting(row); RowsNamed(d, {0}) == multiset{} && d.Rows() == multiset{}
    ensures Forgot(Deleting(row), {0}).Rows() == multiset{row}
  {
    DeletingShape(row);
    var d := Deleting(row);
    OneSegment(d.table.segments[0], d.live.deletes);
    assert Kept([row], {0}) == [];
    assert OnlyIds(d.table.segments, {0}) == d.table.segments;
    assert RowsOf(d.live.mem.live) == [];
    OneRowLeft(Forgot(d, {0}), row, 0);
  }

  lemma ForgetfulHappens(row: Row)
    ensures History(ForgetfulStates(row), ForgetfulEvents(row))
  {
    var write := Plain(Write([Record.Delete(2, [SegmentDeletes(0, {0})], [])]));
    StoringHappens(row);
    DeletingShape(row);
    DeletedThenBack(row);
    Continued(Storing(row), StoringEvents(row), write, Deleting(row));
    assert Deleting(row).table.segments[0].id == 0;
    Continued(Storing(row) + [Deleting(row)], StoringEvents(row) + [write], Forgotten({0}), Forgot(Deleting(row), {0}));
  }

  lemma ForgetfulSafe(row: Row)
    ensures SafeBefore(ForgetfulStates(row), ForgetfulEvents(row), 5)
    ensures !EventSafe(ForgetfulStates(row)[5], ForgetfulEvents(row)[5])
  {
    var states, events := ForgetfulStates(row), ForgetfulEvents(row);
    StoringHappens(row);
    forall k | 0 <= k < 5
      ensures EventSafe(states[k], events[k])
    {
      assert k < 4 ==> states[k] == Storing(row)[k] && events[k] == StoringEvents(row)[k];
    }
    DeletingShape(row);
    assert Deleting(row).table.segments[0].id == 0;
  }

  /** Delete a segment's only row and drop the segment: nothing is dropped, and the row is back. */
  lemma ForgettingBringsBack(row: Row)
    ensures var states, events := ForgetfulStates(row), ForgetfulEvents(row);
            && History(states, events)
            && SafeBefore(states, events, 5) && !EventSafe(states[5], events[5])
            && Promised(events, 6) == multiset{} && states[6].Rows() == multiset{row}
  {
    var states, events := ForgetfulStates(row), ForgetfulEvents(row);
    ForgetfulHappens(row);
    ForgetfulSafe(row);
    DeletedThenBack(row);
    RowsArePromised(states, events, 5);
    OnlyRequestsPromise(states, events, 5);
  }
}
