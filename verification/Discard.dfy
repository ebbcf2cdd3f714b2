/** Dropping whole segments, and what dropping nothing live forgets. */
module Discards {
  import opened Layout
  import opened Sequences
  import opened Memtables
  import opened Wal
  import opened Durability
  import opened DurabilityProof
  import opened DurabilityRuns
  import opened Requests
  import opened DeleteRanges
  import opened Writers

  /** The writer's memory without the named segments' delete vectors. */
  function Forgot(s: State, ids: set<nat>): State {
    s.(live := Dropped(s.live, ids))
  }

  /** ... and the table without their entries. */
  function Gone(s: State, ids: set<nat>): State {
    Forgot(s, ids).(table := Compacted(s.table, ids, []))
  }

  /**
   * Drop segments outright. With a live row among them, the drop is one commit
   * that takes exactly their live rows. With none, nothing is committed, but
   * their delete vectors have been forgotten by then.
   */
  method DeleteSegments(w: Writer, ids: seq<nat>) returns (deleted: nat)
    requires w.Valid()
    modifies w
    ensures deleted == |RowsNamed(old(w.Now()), Present(old(w.table).segments, SetOf(ids)))|
    ensures deleted > 0 ==>
              && w.Valid() && Takes(old(w.Now()), Discard(Present(old(w.table).segments, SetOf(ids))), w.Now())
              && old(w.Now()).Rows() == w.Now().Rows() + RowsNamed(old(w.Now()), Present(old(w.table).segments, SetOf(ids)))
    ensures deleted == 0 ==> w.Now() == Forgot(old(w.Now()), Present(old(w.table).segments, SetOf(ids)))
    ensures w.passed == old(w.passed) + (if deleted > 0 then [MomentOf(w.Now())] else [])
  {
    ghost var was := w.Now();
    ghost var here := Present(w.table.segments, SetOf(ids));
    RecoverInRange(w.table, w.wal.files);
    deleted := TryDelete(w, ids);
    if deleted > 0 {
      DiscardLands(was, here);
    }
  }

  method TryDelete(w: Writer, ids: seq<nat>) returns (deleted: nat)
    requires w.wal.Valid() && w.memtable.Valid() && w.table.Ok() && InRange(w.table.segments, w.deletes)
    modifies w
    ensures w.wal.Valid() && w.memtable.Valid()
    ensures deleted == |RowsNamed(old(w.Now()), Present(old(w.table).segments, SetOf(ids)))|
    ensures w.Now() == if deleted > 0 then Gone(old(w.Now()), Present(old(w.table).segments, SetOf(ids)))
                       else Forgot(old(w.Now()), Present(old(w.table).segments, SetOf(ids)))
    ensures w.passed == old(w.passed) + (if deleted > 0 then [MomentOf(w.Now())] else [])
  {
    var kept;
    deleted, kept := ForgetNamed(w, ids);
    NamedOrPresent(w.table.segments, SetOf(ids));
    if deleted > 0 {
      GoneTable(w.table, SetOf(ids));
      w.Commit(w.table.(segments := kept));
    }
  }

  lemma GoneTable(t: Table, ids: set<nat>)
    ensures Compacted(t, Present(t.segments, ids), []) == t.(segments := WithoutIds(t.segments, ids))
  {
    NamedOrPresent(t.segments, ids);
    assert t.segments + NewSegments(t.nextId, []) == t.segments;
  }

  /** Sort the entries into those to keep and those to drop, forgetting the vectors of the latter. */
  method ForgetNamed(w: Writer, ids: seq<nat>) returns (deleted: nat, kept: seq<Segment>)
    requires w.table.Ok() && InRange(w.table.segments, w.deletes)
    modifies w`deletes, w`dirty
    ensures w.deletes == old(w.deletes) - Present(w.table.segments, SetOf(ids))
    ensures w.dirty == old(w.dirty) - Present(w.table.segments, SetOf(ids))
    ensures kept == WithoutIds(w.table.segments, SetOf(ids))
    ensures deleted == |SegmentRows(OnlyIds(w.table.segments, SetOf(ids)), old(w.deletes))|
  {
    var segments := w.table.segments;
    ghost var named, was := SetOf(ids), Live(Mem([], 0), w.deletes, w.dirty, 0);
    deleted, kept := 0, [];
    for i := 0 to |segments|
      invariant Sorted(segments[..i], named, was, w.deletes, w.dirty, kept, deleted)
    {
      var s := segments[i];
      if s.id in ids {
        var live := LiveCount(s, w.deletes, segments, i, named, was.deletes);
        SortedNamed(segments, i, named, was, w.deletes, w.dirty, kept, deleted, live);
        deleted := deleted + live;
        w.deletes := w.deletes - {s.id};
        w.dirty := w.dirty - {s.id};
      } else {
        SortedOther(segments, i, named, was, w.deletes, w.dirty, kept, deleted);
        kept := kept + [s];
      }
    }
    assert segments[..|segments|] == segments;
  }

  /** How far the sorting has come over `seen`, from the vectors of `was`. */
  ghost predicate Sorted(seen: seq<Segment>, ids: set<nat>, was: Live, deletes: map<nat, set<nat>>, dirty: set<nat>,
                         kept: seq<Segment>, deleted: nat)
  {
    && deletes == was.deletes - Present(seen, ids)
    && dirty == was.dirty - Present(seen, ids)
    && kept == WithoutIds(seen, ids)
    && deleted == |SegmentRows(OnlyIds(seen, ids), was.deletes)|
  }

  lemma SortedNamed(segments: seq<Segment>, i: nat, ids: set<nat>, was: Live, deletes: map<nat, set<nat>>, dirty: set<nat>,
                    kept: seq<Segment>, deleted: nat, live: nat)
    requires i < |segments| && segments[i].id in ids
    requires Sorted(segments[..i], ids, was, deletes, dirty, kept, deleted)
    requires |SegmentRows(OnlyIds(segments[..i + 1], ids), was.deletes)| == deleted + live
    ensures Sorted(segments[..i + 1], ids, was, deletes - {segments[i].id}, dirty - {segments[i].id}, kept, deleted + live)
  {
    assert segments[..i + 1][..i] == segments[..i];
    MinusOneMore(was.deletes, was.dirty, Present(segments[..i], ids), segments[i].id);
    assert kept + [] == kept;
  }

  lemma SortedOther(segments: seq<Segment>, i: nat, ids: set<nat>, was: Live, deletes: map<nat, set<nat>>, dirty: set<nat>,
                    kept: seq<Segment>, deleted: nat)
    requires i < |segments| && segments[i].id !in ids
    requires Sorted(segments[..i], ids, was, deletes, dirty, kept, deleted)
    ensures Sorted(segments[..i + 1], ids, was, deletes, dirty, kept + [segments[i]], deleted)
  {
    assert segments[..i + 1][..i] == segments[..i];
    SkipOne(segments, i, ids, was.deletes);
  }

  /** Rows a drop of segment `i` takes: those its vector, as memory has it, leaves. */
  method LiveCount(s: Segment, now: map<nat, set<nat>>, ghost segments: seq<Segment>, ghost i: nat, ghost ids: set<nat>,
                   ghost deletes: map<nat, set<nat>>)
    returns (live: nat)
    requires i < |segments| && segments[i] == s && s.id in ids && InRange(segments, deletes)
    requires forall a, b :: 0 <= a < b < |segments| ==> segments[a].id != segments[b].id
    requires now == deletes - Present(segments[..i], ids)
    ensures |SegmentRows(OnlyIds(segments[..i + 1], ids), deletes)| == |SegmentRows(OnlyIds(segments[..i], ids), deletes)| + live
  {
    NotSeen(segments, i, ids);
    var already := DeadOf(now, s.id);
    assert already == DeadOf(deletes, segments[i].id);
    LiveCountOf(s.rows, already);
    OneMoreNamed(segments, i, ids, deletes);
    live := |s.rows| - Least(|already|, |s.rows|);
  }

  lemma MinusOneMore(deletes: map<nat, set<nat>>, dirty: set<nat>, gone: set<nat>, id: nat)
    ensures (deletes - gone) - {id} == deletes - (gone + {id})
    ensures (dirty - gone) - {id} == dirty - (gone + {id})
  {
  }

  lemma SkipOne(segments: seq<Segment>, i: nat, ids: set<nat>, deletes: map<nat, set<nat>>)
    requires i < |segments| && segments[i].id !in ids
    ensures Present(segments[..i + 1], ids) == Present(segments[..i], ids)
    ensures OnlyIds(segments[..i + 1], ids) == OnlyIds(segments[..i], ids)
  {
    assert segments[..i + 1][..i] == segments[..i];
  }

  /** Ids are distinct, so the loop has not forgotten this segment's vector yet. */
  lemma NotSeen(segments: seq<Segment>, i: nat, ids: set<nat>)
    requires i < |segments| && forall a, b :: 0 <= a < b < |segments| ==> segments[a].id != segments[b].id
    ensures segments[i].id !in Present(segments[..i], ids)
  {
  }

  lemma LiveCountOf(rows: seq<Row>, dead: set<nat>)
    requires forall p :: p in dead ==> p < |rows|
    ensures |Kept(rows, dead)| == |rows| - Least(|dead|, |rows|)
  {
    KeptSplit(rows, {}, dead);
    KeptAll(rows);
    PickedCount(rows, dead);
    assert {} + dead == dead;
    assert |multiset(rows)| == |multiset(Kept(rows, dead))| + |multiset(Picked(rows, dead))|;
  }

  lemma OneMoreNamed(segments: seq<Segment>, i: nat, ids: set<nat>, deletes: map<nat, set<nat>>)
    requires i < |segments| && segments[i].id in ids
    ensures |SegmentRows(OnlyIds(segments[..i + 1], ids), deletes)|
         == |SegmentRows(OnlyIds(segments[..i], ids), deletes)| + |Kept(segments[i].rows, DeadOf(deletes, segments[i].id))|
  {
    assert segments[..i + 1][..i] == segments[..i];
    var only := OnlyIds(segments[..i], ids);
    SegmentRowsPush(only, segments[i], deletes);
    SumSizes(SegmentRows(only, deletes), Kept(segments[i].rows, DeadOf(deletes, segments[i].id)));
  }

  lemma DiscardLands(s: State, ids: set<nat>)
    requires Inv(s) && s.phase.Idle? && RangesOk(s.table, s.logs) && forall id :: id in ids ==> s.table.Has(id)
    ensures Takes(s, Discard(ids), Gone(s, ids)) && Inv(Gone(s, ids)) && RangesOk(Gone(s, ids).table, s.logs)
    ensures s.Rows() == Gone(s, ids).Rows() + RowsNamed(s, ids)
  {
    ReplaceKeeps(s, ids, [], Gone(s, ids));
    DiscardTakesTheNamed(s, ids, Gone(s, ids));
    ReplacedFit(s.table, s.logs, s.live.nextLsn, ids, []);
  }

  // ---- Dropping nothing live ----------------------------------------------------------

  predicate NoRowsNamed(segments: seq<Segment>, ids: set<nat>) {
    forall i :: 0 <= i < |segments| && segments[i].id in ids ==> segments[i].rows == []
  }

  lemma NoRowsNamedSplits(segments: seq<Segment>, ids: set<nat>)
    requires segments != []
    ensures var init, s := segments[..|segments| - 1], segments[|segments| - 1];
            NoRowsNamed(segments, ids) <==> NoRowsNamed(init, ids) && (s.id in ids ==> s.rows == [])
  {
    var init := segments[..|segments| - 1];
    assert forall i :: 0 <= i < |init| ==> init[i] == segments[i];
  }

  /** With every vector forgotten, the named segments' rows are all there again. */
  lemma {:induction false} ForgottenAreEmptyIff(segments: seq<Segment>, ids: set<nat>, deletes: map<nat, set<nat>>)
    ensures SegmentRows(OnlyIds(segments, ids), deletes - ids) == multiset{} <==> NoRowsNamed(segments, ids)
  {
    if segments != [] {
      var init, s := segments[..|segments| - 1], segments[|segments| - 1];
      ForgottenAreEmptyIff(init, ids, deletes);
      NoRowsNamedSplits(segments, ids);
      var only := OnlyIds(init, ids);
      if s.id in ids {
        SegmentRowsPush(only, s, deletes - ids);
        KeptAll(s.rows);
        NothingAdded(SegmentRows(only, deletes - ids), s.rows);
      } else {
        assert only + [] == only;
      }
    }
  }

  lemma NothingAdded(a: multiset<Row>, rows: seq<Row>)
    ensures a + multiset(rows) == multiset{} <==> a == multiset{} && rows == []
  {
    if rows != [] {
      assert rows[0] in a + multiset(rows);
    }
  }

  /** What the drop leaves behind, in either case. */
  function Left(s: State, ids: set<nat>): State {
    if RowsNamed(s, ids) != multiset{} then Gone(s, ids) else Forgot(s, ids)
  }

  /**
   * When dropping segments leaves exactly the other rows in the table: if and
   * only if some row among the named was live, or the named segments never had any.
   */
  lemma DropIsCompleteIff(s: State, ids: set<nat>)
    requires Inv(s) && s.phase.Idle? && RangesOk(s.table, s.logs) && forall id :: id in ids ==> s.table.Has(id)
    ensures s.Rows() == Left(s, ids).Rows() + RowsNamed(s, ids)
       <==> RowsNamed(s, ids) != multiset{} || NoRowsNamed(s.table.segments, ids)
  {
    if RowsNamed(s, ids) != multiset{} {
      DiscardLands(s, ids);
    } else {
      var segments, deletes := s.table.segments, s.live.deletes;
      ForgottenAreEmptyIff(segments, ids, deletes);
      SplitIds(segments, ids, deletes);
      SplitIds(segments, ids, deletes - ids);
      KeptIdsRows(segments, ids, deletes);
      BackIff(SegmentRows(WithoutIds(segments, ids), deletes), SegmentRows(OnlyIds(segments, ids), deletes - ids),
              multiset(RowsOf(s.live.mem.live)));
    }
  }

  lemma BackIff(others: multiset<Row>, back: multiset<Row>, mem: multiset<Row>)
    ensures (others + multiset{}) + mem == ((others + back) + mem) + multiset{} <==> back == multiset{}
  {
    if back != multiset{} {
      var x :| x in back;
      assert (((others + back) + mem) + multiset{})[x] > ((others + multiset{}) + mem)[x];
    } else {
      assert others + back == others + multiset{};
      assert ((others + back) + mem) + multiset{} == (others + back) + mem;
    }
  }

  // ---- A deletion lost for good -------------------------------------------------------

  /** A committed segment of one row, with nothing in the logs. */
  function OneRow(row: Row): State {
    var t := Table(0, 8, 0, [Segment(7, [row], None)]);
    State(t, Logs(Log(0, []), Log(0, [])), FromTable(t), Idle)
  }

  function RowDeleted(row: Row): State {
    Wrote(OneRow(row), [Record.Delete(1, [SegmentDeletes(7, {0})], [])])
  }

  /** Another row is written after the drop of a segment that has nothing live. */
  function WrittenAfter(row: Row, other: Row): State {
    Wrote(Forgot(RowDeleted(row), {7}), [Record.Insert(2, 0, [other])])
  }

  lemma RowDeletedShape(row: Row)
    ensures var s, d := OneRow(row), RowDeleted(row);
            && Takes(s, Write([Record.Delete(1, [SegmentDeletes(7, {0})], [])]), d)
            && d.table == s.table && d.live == Live(Mem([], 0), map[7 := {0}], {7}, 2)
            && d.logs == Logs(Log(0, [Record.Delete(1, [SegmentDeletes(7, {0})], [])]), Log(0, []))
  {
    var s, r := OneRow(row), Record.Delete(1, [SegmentDeletes(7, {0})], []);
    assert s.table.segments[0].id == 7 && s.table.Has(7);
    assert LoadDeletes(s.table.segments) == map[];
    DeleteApplied(s.table, s.live, r.segments, []);
    OneRecord(s.table, s.live, r, Apply(s.table, s.live, r));
    assert Mark(s.table, s.live.(nextLsn := 2), []) == s.live.(nextLsn := 2);
    assert r.segments[..0] == [];
  }

  lemma WrittenAfterShape(row: Row, other: Row)
    ensures var f, w := Forgot(RowDeleted(row), {7}), WrittenAfter(row, other);
            && Takes(f, Write([Record.Insert(2, 0, [other])]), w)
            && w.table == f.table && w.live == Live(Mem([(0, other)], 1), map[], {}, 3) && w.phase == Idle
  {
    RowDeletedShape(row);
    var f, r := Forgot(RowDeleted(row), {7}), Record.Insert(2, 0, [other]);
    assert f.live == Live(Mem([], 0), map[], {}, 2);
    OneRecord(f.table, f.live, r, Apply(f.table, f.live, r));
    OneApplied(f.table, f.live, r);
  }

  /** What the next flush commits: a checkpoint past the deletion, and no vector for the segment. */
  lemma FlushedAfterShape(row: Row, other: Row)
    ensures var w := WrittenAfter(row, other);
            && FlushSteps(w, RotatedState(w), CommittedState(w, [[other]]), [[other]], FlushedState(w, [[other]]))
            && FlushedState(w, [[other]]).table == Table(2, 9, 1, [Segment(7, [row], None), Segment(8, [other], None)])
            && FlushedState(w, [[other]]).logs.InOrder() == []
  {
    WrittenAfterShape(row, other);
    var w := WrittenAfter(row, other);
    assert Flatten([[other]]) == [other] && RowsOf(w.live.mem.live) == [other];
    assert Stamp(w.table.segments, {}, map[]) == w.table.segments;
    assert NewSegments(8, [[other]]) == [Segment(8, [other], None)];
    RotatedInOrder(w.logs);
  }

  /**
   * Delete a segment's only row, drop the segment, write another row, flush and
   * reopen. The flush's checkpoint passes the logged deletion, and stores no vector
   * for the segment, so the reopened table has the deleted row again.
   */
  lemma DroppingNothingLosesADeletion(row: Row, other: Row)
    ensures var s, d, w := OneRow(row), RowDeleted(row), WrittenAfter(row, other);
            var flushed := FlushedState(w, [[other]]);
            && Takes(s, Write([Record.Delete(1, [SegmentDeletes(7, {0})], [])]), d)
            && d.Rows() == multiset{} && RowsNamed(d, {7}) == multiset{} && Left(d, {7}) == Forgot(d, {7})
            && Takes(Left(d, {7}), Write([Record.Insert(2, 0, [other])]), w)
            && FlushSteps(w, RotatedState(w), CommittedState(w, [[other]]), [[other]], flushed)
            && ReopenedRows(MomentOf(flushed)) == multiset{row, other}
  {
    RowDeletedShape(row);
    WrittenAfterShape(row, other);
    FlushedAfterShape(row, other);
    DeletedRows(row);
    var flushed := FlushedState(WrittenAfter(row, other), [[other]]);
    TwoRows(flushed.table, flushed.logs, row, other);
  }

  lemma DeletedRows(row: Row)
    ensures var d := RowDeleted(row); d.Rows() == multiset{} && RowsNamed(d, {7}) == multiset{}
  {
    RowDeletedShape(row);
    var d := RowDeleted(row);
    OneSegment(d.table.segments[0], d.live.deletes);
    assert Kept([row], {0}) == [];
    assert OnlyIds(d.table.segments, {7}) == d.table.segments;
    assert RowsOf(d.live.mem.live) == [];
  }

  lemma TwoRows(t: Table, logs: Logs, row: Row, other: Row)
    requires t == Table(2, 9, 1, [Segment(7, [row], None), Segment(8, [other], None)]) && logs.InOrder() == [] && Told(logs)
    ensures Content(t, Recover(t, logs)) == multiset{row, other}
  {
    RecoveredInOrder(logs);
    assert Above(logs.Recovered(), t.checkpoint) == [];
    var l := FromTable(t);
    assert LoadDeletes(t.segments[..1]) == map[] && l.deletes == map[];
    assert t.segments == [t.segments[0]] + [t.segments[1]];
    SegmentRowsPush([t.segments[0]], t.segments[1], l.deletes);
    OneSegment(t.segments[0], l.deletes);
    KeptAll([row]);
    KeptAll([other]);
    assert RowsOf(l.mem.live) == [];
  }
}
