/** What a caller's request removes from the table, and what it adds. */
module Requests {
  import opened Layout
  import opened Memtables
  import opened Wal
  import opened Durability
  import opened DurabilityProof
  import opened DurabilityRuns

  /** Positions in one segment to be deleted. */
  datatype Deletion = Deletion(segmentId: nat, positions: seq<nat>)

  function RowsIn(segments: seq<Segment>, id: nat): seq<Row> {
    if segments == [] then []
    else if segments[|segments| - 1].id == id then segments[|segments| - 1].rows
    else RowsIn(segments[..|segments| - 1], id)
  }

  /** The named positions that hold a row not yet deleted. */
  function Fresh(t: Table, l: Live, d: Deletion): set<nat> {
    set p | p in d.positions && p < |RowsIn(t.segments, d.segmentId)| && p !in DeadOf(l.deletes, d.segmentId)
  }

  /** The delete vectors to log: one for each entry that names a fresh row, made from the writer's own vector. */
  function PlanSegments(t: Table, l: Live, ds: seq<Deletion>): seq<SegmentDeletes> {
    if ds == [] then []
    else
      var d := ds[|ds| - 1];
      PlanSegments(t, l, ds[..|ds| - 1])
        + (if Fresh(t, l, d) == {} then []
           else [SegmentDeletes(d.segmentId, DeadOf(l.deletes, d.segmentId) + Fresh(t, l, d))])
  }

  /** The count of deleted rows a plan reports. */
  function PlanCount(t: Table, l: Live, ds: seq<Deletion>): nat {
    if ds == [] then 0 else PlanCount(t, l, ds[..|ds| - 1]) + |Fresh(t, l, ds[|ds| - 1])|
  }

  predicate AllKnown(t: Table, ds: seq<Deletion>) {
    forall i :: 0 <= i < |ds| ==> t.Has(ds[i].segmentId)
  }

  /** The fresh rows the request names in one segment. */
  function AllFresh(t: Table, l: Live, ds: seq<Deletion>, id: nat): set<nat> {
    if ds == [] then {}
    else AllFresh(t, l, ds[..|ds| - 1], id)
         + (if ds[|ds| - 1].segmentId == id then Fresh(t, l, ds[|ds| - 1]) else {})
  }

  /** The fresh rows of the last entry that has any for this segment. */
  function LastFresh(t: Table, l: Live, ds: seq<Deletion>, id: nat): set<nat> {
    if ds == [] then {}
    else
      var d := ds[|ds| - 1];
      if d.segmentId == id && Fresh(t, l, d) != {} then Fresh(t, l, d)
      else LastFresh(t, l, ds[..|ds| - 1], id)
  }

  /** Every segment's last entry names all the fresh rows any of its entries names. */
  ghost predicate LastNamesAll(t: Table, l: Live, ds: seq<Deletion>) {
    forall id: nat :: AllFresh(t, l, ds, id) <= LastFresh(t, l, ds, id)
  }

  lemma {:induction false} PlanGrows(t: Table, l: Live, ds: seq<Deletion>)
    requires AllKnown(t, ds)
    ensures forall i :: 0 <= i < |PlanSegments(t, l, ds)| ==>
              && t.Has(PlanSegments(t, l, ds)[i].segmentId)
              && DeadOf(l.deletes, PlanSegments(t, l, ds)[i].segmentId) <= PlanSegments(t, l, ds)[i].rows
  {
    if ds != [] {
      PlanGrows(t, l, ds[..|ds| - 1]);
    }
  }

  /** Applying the plan leaves each segment with its old vector and the last entry's fresh rows. */
  lemma {:induction false} PlanMarks(t: Table, l: Live, ds: seq<Deletion>, id: nat)
    requires AllKnown(t, ds)
    ensures DeadOf(Mark(t, l, PlanSegments(t, l, ds)).deletes, id) == DeadOf(l.deletes, id) + LastFresh(t, l, ds, id)
  {
    if ds == [] {
    } else {
      var init, d := ds[..|ds| - 1], ds[|ds| - 1];
      PlanMarks(t, l, init, id);
      if Fresh(t, l, d) != {} {
        var segs := PlanSegments(t, l, ds);
        assert segs[..|segs| - 1] == PlanSegments(t, l, init);
        assert t.Has(ds[|ds| - 1].segmentId);
        assert segs[|segs| - 1] == SegmentDeletes(d.segmentId, DeadOf(l.deletes, d.segmentId) + Fresh(t, l, d));
      } else {
        assert PlanSegments(t, l, ds) == PlanSegments(t, l, init);
      }
    }
  }

  lemma {:induction false} LastIsFresh(t: Table, l: Live, ds: seq<Deletion>, id: nat)
    ensures LastFresh(t, l, ds, id) <= AllFresh(t, l, ds, id)
    ensures forall p :: p in AllFresh(t, l, ds, id) ==> p < |RowsIn(t.segments, id)| && p !in DeadOf(l.deletes, id)
  {
    if ds != [] {
      LastIsFresh(t, l, ds[..|ds| - 1], id);
    }
  }

  lemma {:induction false} FreshOnlyNamed(t: Table, l: Live, ds: seq<Deletion>, id: nat)
    requires forall i :: 0 <= i < |ds| ==> ds[i].segmentId != id
    ensures AllFresh(t, l, ds, id) == {} && LastFresh(t, l, ds, id) == {}
  {
    if ds != [] {
      FreshOnlyNamed(t, l, ds[..|ds| - 1], id);
    }
  }

  /** A request that names no segment twice is carried out in full. */
  lemma {:induction false} DistinctNamesAll(t: Table, l: Live, ds: seq<Deletion>)
    requires forall i, j :: 0 <= i < j < |ds| ==> ds[i].segmentId != ds[j].segmentId
    ensures LastNamesAll(t, l, ds)
    ensures forall id: nat :: AllFresh(t, l, ds, id) == LastFresh(t, l, ds, id)
  {
    if ds != [] {
      var init := ds[..|ds| - 1];
      DistinctNamesAll(t, l, init);
      forall id: nat
        ensures AllFresh(t, l, ds, id) == LastFresh(t, l, ds, id)
      {
        if ds[|ds| - 1].segmentId == id {
          FreshOnlyNamed(t, l, init, id);
        }
      }
    }
  }

  // ---- Rows ----------------------------------------------------------------------

  /** The rows at the positions in `which`. */
  function Picked(rows: seq<Row>, which: set<nat>): seq<Row> {
    if rows == [] then []
    else Picked(rows[..|rows| - 1], which) + (if |rows| - 1 in which then [rows[|rows| - 1]] else [])
  }

  lemma MultisetPush(s: seq<Row>, x: Row)
    ensures multiset(s + [x]) == multiset(s) + multiset{x}
  {
  }

  /** Deleting fresh positions moves their rows from the kept to the picked, and no others. */
  lemma {:induction false} KeptSplit(rows: seq<Row>, dead: set<nat>, more: set<nat>)
    requires dead !! more
    ensures multiset(Kept(rows, dead)) == multiset(Kept(rows, dead + more)) + multiset(Picked(rows, more))
  {
    if rows != [] {
      var init, last := rows[..|rows| - 1], rows[|rows| - 1];
      KeptSplit(init, dead, more);
      MultisetPush(Kept(init, dead), last);
      MultisetPush(Kept(init, dead + more), last);
      MultisetPush(Picked(init, more), last);
    }
  }

  lemma {:induction false} PickedCount(rows: seq<Row>, which: set<nat>)
    requires forall p :: p in which ==> p < |rows|
    ensures |Picked(rows, which)| == |which|
  {
    if rows == [] {
      assert which == {};
    } else {
      var n := |rows| - 1;
      PickedIgnores(rows[..n], which, which - {n});
      PickedCount(rows[..n], which - {n});
    }
  }

  lemma {:induction false} PickedIgnores(rows: seq<Row>, a: set<nat>, b: set<nat>)
    requires forall p :: p < |rows| ==> (p in a <==> p in b)
    ensures Picked(rows, a) == Picked(rows, b)
  {
    if rows != [] {
      PickedIgnores(rows[..|rows| - 1], a, b);
    }
  }

  /** The rows a choice of positions takes from all the segments. */
  function TakenRows(segments: seq<Segment>, choice: nat -> set<nat>): multiset<Row> {
    if segments == [] then multiset{}
    else
      var s := segments[|segments| - 1];
      TakenRows(segments[..|segments| - 1], choice) + multiset(Picked(s.rows, choice(s.id)))
  }

  lemma Exchange(a: multiset<Row>, b: multiset<Row>, c: multiset<Row>, d: multiset<Row>)
    ensures (a + b) + (c + d) == (a + c) + (b + d)
  {
  }

  lemma {:induction false} SegmentRowsSplit(segments: seq<Segment>, before: map<nat, set<nat>>,
                                            after: map<nat, set<nat>>, choice: nat -> set<nat>)
    requires forall id: nat :: DeadOf(before, id) !! choice(id) && DeadOf(after, id) == DeadOf(before, id) + choice(id)
    ensures SegmentRows(segments, before) == SegmentRows(segments, after) + TakenRows(segments, choice)
  {
    if segments != [] {
      var init, s := segments[..|segments| - 1], segments[|segments| - 1];
      SegmentRowsSplit(init, before, after, choice);
      KeptSplit(s.rows, DeadOf(before, s.id), choice(s.id));
      Exchange(SegmentRows(init, after), TakenRows(init, choice),
               multiset(Kept(s.rows, DeadOf(after, s.id))), multiset(Picked(s.rows, choice(s.id))));
    }
  }

  /** The entries whose sequence number is in `which`. */
  function Only(s: seq<Numbered>, which: set<nat>): seq<Numbered> {
    if s == [] then []
    else Only(s[..|s| - 1], which) + (if s[|s| - 1].0 in which then [s[|s| - 1]] else [])
  }

  lemma RowsPush(s: seq<Numbered>, x: Numbered)
    ensures RowsOf(s + [x]) == RowsOf(s) + [x.1]
  {
  }

  lemma {:induction false} LiveSplit(s: seq<Numbered>, which: set<nat>)
    ensures multiset(RowsOf(s)) == multiset(RowsOf(Without(s, which))) + multiset(RowsOf(Only(s, which)))
    ensures |s| == |Without(s, which)| + |Only(s, which)|
  {
    if s != [] {
      var init, last := s[..|s| - 1], s[|s| - 1];
      LiveSplit(init, which);
      RowsPush(init, last);
      assert s == init + [last];
      RowsPush(Without(init, which), last);
      RowsPush(Only(init, which), last);
      MultisetPush(RowsOf(init), last.1);
      var kept, gone := multiset(RowsOf(Without(init, which))), multiset(RowsOf(Only(init, which)));
      if last.0 in which {
        assert Without(s, which) == Without(init, which);
        MultisetPush(RowsOf(Only(init, which)), last.1);
        Reassociate(kept, gone, multiset{last.1});
      } else {
        assert Only(s, which) == Only(init, which);
        MultisetPush(RowsOf(Without(init, which)), last.1);
        Swap(kept, gone, multiset{last.1});
      }
    }
  }

  lemma Swap(a: multiset<Row>, b: multiset<Row>, c: multiset<Row>)
    ensures (a + b) + c == (a + c) + b
  {
  }

  /** What a deletion removes from the table. */
  function Removed(t: Table, l: Live, ds: seq<Deletion>, seqnos: seq<nat>): multiset<Row> {
    TakenRows(t.segments, id => LastFresh(t, l, ds, id)) + multiset(RowsOf(Only(l.mem.live, SetOf(seqnos))))
  }

  /** The rows the request named: in a segment and not yet deleted, or live in the memtable. */
  function Named(t: Table, l: Live, ds: seq<Deletion>, seqnos: seq<nat>): multiset<Row> {
    TakenRows(t.segments, id => AllFresh(t, l, ds, id)) + multiset(RowsOf(Only(l.mem.live, SetOf(seqnos))))
  }

  /** One record for each batch that holds rows, at consecutive lsns and sequence numbers. */
  function InsertRecords(lsn: nat, base: nat, batches: seq<seq<Row>>): seq<Record> {
    if batches == [] then []
    else
      var init, last := batches[..|batches| - 1], batches[|batches| - 1];
      var before := InsertRecords(lsn, base, init);
      if last == [] then before else before + [Insert(lsn + |before|, base + |Flatten(init)|, last)]
  }

  lemma FlattenPush(groups: seq<seq<Row>>, g: seq<Row>)
    ensures Flatten(groups + [g]) == Flatten(groups) + g
  {
    assert (groups + [g])[..|groups|] == groups;
  }

  lemma RecordsPush(t: Table, l: Live, records: seq<Record>, r: Record)
    ensures ApplyAll(t, l, records + [r]) == Apply(t, ApplyAll(t, l, records), r)
    ensures PlannedAll(t, l, records + [r]) <==> PlannedAll(t, l, records) && Planned(t, ApplyAll(t, l, records), r)
  {
    assert (records + [r])[..|records|] == records;
  }

  /** What an insert's records make of the writer: new rows after the old, new numbers, nothing else. */
  ghost predicate Grown(l: Live, u: Live, rows: seq<Row>, records: nat) {
    && RowsOf(u.mem.live) == RowsOf(l.mem.live) + rows
    && u.mem.next == l.mem.next + |rows|
    && u == l.(mem := u.mem, nextLsn := l.nextLsn + records)
  }

  lemma GrownOnce(t: Table, l: Live, u: Live, before: seq<Row>, n: nat, rows: seq<Row>)
    requires Grown(l, u, before, n) && rows != []
    ensures var r := Insert(l.nextLsn + n, l.mem.next + |before|, rows);
            Planned(t, u, r) && Grown(l, Apply(t, u, r), before + rows, n + 1)
  {
    InsertedOne(u.mem, u.mem.next, rows);
  }

  /** An insert's records may be logged as they are, and add the batches' rows in order. */
  lemma {:induction false} InsertAdds(t: Table, l: Live, batches: seq<seq<Row>>)
    ensures var records := InsertRecords(l.nextLsn, l.mem.next, batches);
            PlannedAll(t, l, records) && Grown(l, ApplyAll(t, l, records), Flatten(batches), |records|)
  {
    if batches == [] {
    } else {
      var init, last := batches[..|batches| - 1], batches[|batches| - 1];
      InsertAdds(t, l, init);
      var before := InsertRecords(l.nextLsn, l.mem.next, init);
      if last == [] {
        assert Flatten(batches) == Flatten(init);
      } else {
        RecordsPush(t, l, before, Insert(l.nextLsn + |before|, l.mem.next + |Flatten(init)|, last));
        GrownOnce(t, l, ApplyAll(t, l, before), Flatten(init), |before|, last);
      }
    }
  }

  lemma InsertGrowsContent(t: Table, l: Live, batches: seq<seq<Row>>)
    ensures Content(t, ApplyAll(t, l, InsertRecords(l.nextLsn, l.mem.next, batches)))
         == Content(t, l) + multiset(Flatten(batches))
  {
    InsertAdds(t, l, batches);
    Reassociate(SegmentRows(t.segments, l.deletes), multiset(RowsOf(l.mem.live)), multiset(Flatten(batches)));
  }

  /** The writer after a deletion's record, its memtable numbers trimmed of those already dead. */
  function Deleted(t: Table, l: Live, ds: seq<Deletion>, seqnos: seq<nat>): Live {
    Apply(t, l, Delete(l.nextLsn, PlanSegments(t, l, ds), seqnos))
  }

  /** Conservation: what a deletion takes is exactly what the table loses. */
  lemma DeletionConserves(t: Table, l: Live, ds: seq<Deletion>, seqnos: seq<nat>)
    requires AllKnown(t, ds)
    ensures Content(t, l) == Content(t, Deleted(t, l, ds, seqnos)) + Removed(t, l, ds, seqnos)
  {
    var after := Mark(t, l, PlanSegments(t, l, ds));
    var choice := id => LastFresh(t, l, ds, id);
    forall id: nat
      ensures DeadOf(l.deletes, id) !! choice(id) && DeadOf(after.deletes, id) == DeadOf(l.deletes, id) + choice(id)
    {
      PlanMarks(t, l, ds, id);
      LastIsFresh(t, l, ds, id);
    }
    SegmentRowsSplit(t.segments, l.deletes, after.deletes, choice);
    LiveSplit(l.mem.live, SetOf(seqnos));
    MarkNumbers(t, l, PlanSegments(t, l, ds));
    Exchange(SegmentRows(t.segments, after.deletes), TakenRows(t.segments, choice),
             multiset(RowsOf(Without(l.mem.live, SetOf(seqnos)))), multiset(RowsOf(Only(l.mem.live, SetOf(seqnos)))));
  }

  function TakenCount(segments: seq<Segment>, choice: nat -> set<nat>): nat {
    if segments == [] then 0
    else TakenCount(segments[..|segments| - 1], choice) + |choice(segments[|segments| - 1].id)|
  }

  lemma {:induction false} TakenSize(segments: seq<Segment>, choice: nat -> set<nat>)
    requires forall i :: 0 <= i < |segments| ==> forall p :: p in choice(segments[i].id) ==> p < |segments[i].rows|
    ensures |TakenRows(segments, choice)| == TakenCount(segments, choice)
  {
    if segments != [] {
      var init, s := segments[..|segments| - 1], segments[|segments| - 1];
      TakenSize(init, choice);
      PickedCount(s.rows, choice(s.id));
      SumSizes(TakenRows(init, choice), Picked(s.rows, choice(s.id)));
    }
  }

  lemma SumSizes(a: multiset<Row>, b: seq<Row>)
    ensures |a + multiset(b)| == |a| + |b|
  {
  }

  lemma {:induction false} TakenSubset(segments: seq<Segment>, a: nat -> set<nat>, b: nat -> set<nat>)
    requires forall i :: 0 <= i < |segments| ==> a(segments[i].id) <= b(segments[i].id)
    ensures TakenCount(segments, a) <= TakenCount(segments, b)
    ensures TakenCount(segments, a) == TakenCount(segments, b) ==>
              forall i :: 0 <= i < |segments| ==> a(segments[i].id) == b(segments[i].id)
  {
    if segments != [] {
      TakenSubset(segments[..|segments| - 1], a, b);
      SubsetCount(a(segments[|segments| - 1].id), b(segments[|segments| - 1].id));
    }
  }

  lemma SubsetCount(a: set<nat>, b: set<nat>)
    requires a <= b
    ensures |a| <= |b|
    ensures |a| == |b| ==> a == b
  {
    assert b == a + (b - a);
  }

  lemma {:induction false} RowsInAt(segments: seq<Segment>, i: nat)
    requires i < |segments|
    requires forall a, b :: 0 <= a < b < |segments| ==> segments[a].id != segments[b].id
    ensures RowsIn(segments, segments[i].id) == segments[i].rows
  {
    if i < |segments| - 1 {
      RowsInAt(segments[..|segments| - 1], i);
    }
  }

  lemma {:induction false} RowsInNone(segments: seq<Segment>, id: nat)
    ensures RowsIn(segments, id) != [] ==> exists i :: 0 <= i < |segments| && segments[i].id == id
  {
    if segments != [] && segments[|segments| - 1].id != id {
      RowsInNone(segments[..|segments| - 1], id);
    }
  }

  /**
   * When a deletion removes exactly the rows it named: if and only if no segment's
   * last entry leaves out a fresh row that an earlier entry for it named.
   */
  lemma DeletionIsCompleteIff(t: Table, l: Live, ds: seq<Deletion>, seqnos: seq<nat>)
    requires t.Ok() && AllKnown(t, ds)
    ensures Content(t, l) == Content(t, Deleted(t, l, ds, seqnos)) + Named(t, l, ds, seqnos) <==> LastNamesAll(t, l, ds)
  {
    DeletionConserves(t, l, ds, seqnos);
    var last, all := id => LastFresh(t, l, ds, id), id => AllFresh(t, l, ds, id);
    if LastNamesAll(t, l, ds) {
      forall i | 0 <= i < |t.segments|
        ensures last(t.segments[i].id) == all(t.segments[i].id)
      {
        LastIsFresh(t, l, ds, t.segments[i].id);
      }
      TakenAgree(t.segments, last, all);
    } else {
      ForgottenTakesLess(t, l, ds);
      CancelSizes(Content(t, Deleted(t, l, ds, seqnos)), multiset(RowsOf(Only(l.mem.live, SetOf(seqnos)))),
                  TakenRows(t.segments, last), TakenRows(t.segments, all));
    }
  }

  lemma ForgottenTakesLess(t: Table, l: Live, ds: seq<Deletion>)
    requires t.Ok() && !LastNamesAll(t, l, ds)
    ensures |TakenRows(t.segments, id => LastFresh(t, l, ds, id))| != |TakenRows(t.segments, id => AllFresh(t, l, ds, id))|
  {
    var last, all := id => LastFresh(t, l, ds, id), id => AllFresh(t, l, ds, id);
    forall i | 0 <= i < |t.segments|
      ensures last(t.segments[i].id) <= all(t.segments[i].id)
      ensures forall p :: p in all(t.segments[i].id) ==> p < |t.segments[i].rows|
    {
      LastIsFresh(t, l, ds, t.segments[i].id);
      RowsInAt(t.segments, i);
    }
    var id: nat :| !(AllFresh(t, l, ds, id) <= LastFresh(t, l, ds, id));
    LastIsFresh(t, l, ds, id);
    RowsInNone(t.segments, id);
    var k :| 0 <= k < |t.segments| && t.segments[k].id == id;
    assert last(t.segments[k].id) != all(t.segments[k].id);
    TakenSubset(t.segments, last, all);
    TakenSize(t.segments, last);
    TakenSize(t.segments, all);
  }

  lemma CancelSizes(c: multiset<Row>, m: multiset<Row>, a: multiset<Row>, b: multiset<Row>)
    requires |a| != |b|
    ensures c + (a + m) != c + (b + m)
  {
    assert |c + (a + m)| == |c| + |a| + |m|;
    assert |c + (b + m)| == |c| + |b| + |m|;
  }

  /** The writer after an update's record: the same deletions, then the replacements. */
  function Updated(t: Table, l: Live, ds: seq<Deletion>, seqnos: seq<nat>, rows: seq<Row>): Live {
    Apply(t, l, Update(l.nextLsn, PlanSegments(t, l, ds), seqnos, l.mem.next, rows))
  }

  /** Conservation for an update: what it takes goes, what it brings stays, whatever numbers it named. */
  lemma UpdateConserves(t: Table, l: Live, ds: seq<Deletion>, seqnos: seq<nat>, rows: seq<Row>)
    requires AllKnown(t, ds)
    ensures Content(t, l) + multiset(rows) == Content(t, Updated(t, l, ds, seqnos, rows)) + Removed(t, l, ds, seqnos)
  {
    DeletionConserves(t, l, ds, seqnos);
    MarkNumbers(t, l, PlanSegments(t, l, ds));
    var d, u := Deleted(t, l, ds, seqnos), Updated(t, l, ds, seqnos, rows);
    InsertedOne(d.mem, d.mem.next, rows);
    assert u.mem == d.mem.Inserted(d.mem.next, rows);
    Reassociate(SegmentRows(t.segments, u.deletes), multiset(RowsOf(d.mem.live)), multiset(rows));
    assert Content(t, u) == Content(t, d) + multiset(rows);
    Swap(Content(t, d), Removed(t, l, ds, seqnos), multiset(rows));
  }

  lemma {:induction false} TakenAgree(segments: seq<Segment>, a: nat -> set<nat>, b: nat -> set<nat>)
    requires forall i :: 0 <= i < |segments| ==> a(segments[i].id) == b(segments[i].id)
    ensures TakenRows(segments, a) == TakenRows(segments, b)
  {
    if segments != [] {
      TakenAgree(segments[..|segments| - 1], a, b);
    }
  }

  lemma {:induction false} CountBump(segments: seq<Segment>, a: nat -> set<nat>, b: nat -> set<nat>, id: nat)
    requires forall i, j :: 0 <= i < j < |segments| ==> segments[i].id != segments[j].id
    requires forall x: nat :: x != id ==> a(x) == b(x)
    ensures TakenCount(segments, b)
         == TakenCount(segments, a) + (if (exists i :: 0 <= i < |segments| && segments[i].id == id) then |b(id)| - |a(id)| else 0)
  {
    if segments != [] {
      var init, last := segments[..|segments| - 1], segments[|segments| - 1];
      CountBump(init, a, b, id);
      if last.id == id {
        assert segments[|segments| - 1].id == id;
      } else {
        assert forall i :: 0 <= i < |init| ==> init[i].id == segments[i].id;
      }
    }
  }

  /** A request naming no segment twice reports exactly the rows it removes. */
  lemma {:induction false} CountIsExact(t: Table, l: Live, ds: seq<Deletion>)
    requires t.Ok() && AllKnown(t, ds)
    requires forall i, j :: 0 <= i < j < |ds| ==> ds[i].segmentId != ds[j].segmentId
    ensures PlanCount(t, l, ds) == |TakenRows(t.segments, id => LastFresh(t, l, ds, id))|
  {
    CountAll(t, l, ds);
    DistinctNamesAll(t, l, ds);
    TakenAgree(t.segments, id => LastFresh(t, l, ds, id), id => AllFresh(t, l, ds, id));
    forall i | 0 <= i < |t.segments|
      ensures forall p :: p in AllFresh(t, l, ds, t.segments[i].id) ==> p < |t.segments[i].rows|
    {
      LastIsFresh(t, l, ds, t.segments[i].id);
      RowsInAt(t.segments, i);
    }
    TakenSize(t.segments, id => AllFresh(t, l, ds, id));
  }

  lemma {:induction false} CountAll(t: Table, l: Live, ds: seq<Deletion>)
    requires t.Ok() && AllKnown(t, ds)
    requires forall i, j :: 0 <= i < j < |ds| ==> ds[i].segmentId != ds[j].segmentId
    ensures PlanCount(t, l, ds) == TakenCount(t.segments, id => AllFresh(t, l, ds, id))
  {
    var all := (id: nat) => AllFresh(t, l, ds, id);
    if ds == [] {
      CountNone(t.segments, all);
    } else {
      var init, id := ds[..|ds| - 1], ds[|ds| - 1].segmentId;
      CountAll(t, l, init);
      FreshOnlyNamed(t, l, init, id);
      assert t.Has(ds[|ds| - 1].segmentId);
      var before := (x: nat) => AllFresh(t, l, init, x);
      assert TakenCount(t.segments, before) == PlanCount(t, l, init);
      CountBump(t.segments, before, all, id);
    }
  }

  lemma {:induction false} CountNone(segments: seq<Segment>, choice: nat -> set<nat>)
    requires forall id: nat :: choice(id) == {}
    ensures TakenCount(segments, choice) == 0
  {
    if segments != [] {
      CountNone(segments[..|segments| - 1], choice);
    }
  }

  /** Naming segment 7 twice, with one row each time, keeps the row named first. */
  lemma RepeatedSegmentLosesADeletion(first: Row, second: Row)
    ensures var t := Table(0, 8, 0, [Segment(7, [first, second], None)]);
            var l := FromTable(t);
            var ds := [Deletion(7, [0]), Deletion(7, [1])];
            && Content(t, l) == multiset{first, second}
            && Content(t, Deleted(t, l, ds, [])) == multiset{first}
            && PlanCount(t, l, ds) == 2
  {
    var s := Segment(7, [first, second], None);
    var t := Table(0, 8, 0, [s]);
    var l := Live(Mem([], 0), map[], {}, 1);
    assert l == FromTable(t) by {
      assert t.segments[..0] == [];
      assert LoadDeletes(t.segments[..0]) == map[];
    }
    RepeatedPlan(t, l);
    var after := Deleted(t, l, [Deletion(7, [0]), Deletion(7, [1])], []);
    RepeatedRows(s, first, second, l.deletes, after.deletes);
    assert Without([], SetOf([])) == [];
    assert RowsOf(l.mem.live) == [] && RowsOf(after.mem.live) == [];
  }

  lemma RepeatedPlan(t: Table, l: Live)
    requires |RowsIn(t.segments, 7)| == 2 && t.Has(7) && l == Live(Mem([], 0), map[], {}, 1)
    ensures var ds := [Deletion(7, [0]), Deletion(7, [1])];
            && PlanCount(t, l, ds) == 2
            && DeadOf(Deleted(t, l, ds, []).deletes, 7) == {1}
            && Deleted(t, l, ds, []).mem.live == []
  {
    var one := [Deletion(7, [0])];
    var ds := [Deletion(7, [0]), Deletion(7, [1])];
    assert ds[..1] == one && one[..0] == [];
    assert Fresh(t, l, ds[0]) == {0} && Fresh(t, l, ds[1]) == {1};
    assert PlanCount(t, l, one) == 1;
    PlanMarks(t, l, ds, 7);
    MarkNumbers(t, l, PlanSegments(t, l, ds));
  }

  lemma RepeatedRows(s: Segment, first: Row, second: Row, before: map<nat, set<nat>>, after: map<nat, set<nat>>)
    requires s == Segment(7, [first, second], None)
    requires DeadOf(before, 7) == {} && DeadOf(after, 7) == {1}
    ensures SegmentRows([s], before) == multiset{first, second}
    ensures SegmentRows([s], after) == multiset{first}
  {
    OneSegment(s, before);
    OneSegment(s, after);
    KeptAll(s.rows);
    assert s.rows[..1] == [first] && [first][..0] == [];
    assert Kept([first], {1}) == [first];
    assert Kept(s.rows, {1}) == [first];
  }
}
