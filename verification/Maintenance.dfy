/** Compaction: rewriting segments without their deleted rows, in runs of bounded size. */
module Maintenance {
  import opened Layout
  import opened Sequences
  import opened Memtables
  import opened Durability
  import opened DurabilityProof
  import opened DurabilityRuns
  import opened Requests
  import opened DeleteRanges
  import opened RowGroups
  import opened Writers

  // ---- Cutting into runs -----------------------------------------------------------

  function Joined(runs: seq<seq<nat>>): seq<nat> {
    if runs == [] then [] else Joined(runs[..|runs| - 1]) + runs[|runs| - 1]
  }

  function SizeOf(sizes: map<nat, nat>, id: nat): nat {
    if id in sizes then sizes[id] else 0
  }

  function Total(run: seq<nat>, sizes: map<nat, nat>): nat {
    if run == [] then 0 else Total(run[..|run| - 1], sizes) + SizeOf(sizes, run[|run| - 1])
  }

  /** Every run is within the budget, or a single segment larger than it. */
  predicate Budgeted(runs: seq<seq<nat>>, sizes: map<nat, nat>, budget: nat) {
    forall k :: 0 <= k < |runs| ==> runs[k] != [] && (|runs[k]| == 1 || Total(runs[k], sizes) <= budget)
  }

  /** No run could have taken the next segment as well. */
  predicate Greedy(runs: seq<seq<nat>>, sizes: map<nat, nat>, budget: nat) {
    forall k :: 0 < k < |runs| && runs[k] != [] ==> Total(runs[k - 1], sizes) + SizeOf(sizes, runs[k][0]) > budget
  }

  lemma JoinedPush(runs: seq<seq<nat>>, run: seq<nat>)
    ensures Joined(runs + [run]) == Joined(runs) + run
  {
    assert (runs + [run])[..|runs|] == runs;
  }

  lemma TotalPush(run: seq<nat>, id: nat, sizes: map<nat, nat>)
    ensures Total(run + [id], sizes) == Total(run, sizes) + SizeOf(sizes, id)
  {
    assert (run + [id])[..|run|] == run;
  }

  lemma TotalOne(id: nat, sizes: map<nat, nat>)
    ensures Total([id], sizes) == SizeOf(sizes, id)
  {
    var one := [id];
    assert one[..0] == [];
  }

  lemma ExtendLast(runs: seq<seq<nat>>, id: nat)
    requires runs != []
    ensures var n := |runs| - 1; Joined(runs[n := runs[n] + [id]]) == Joined(runs) + [id]
  {
    var n := |runs| - 1;
    var init, last := runs[..n], runs[n];
    JoinedPush(init, last);
    JoinedPush(init, last + [id]);
    Associates(Joined(init), last, [id]);
    assert init + [last] == runs;
    assert runs[n := last + [id]] == init + [last + [id]];
  }

  lemma OpenRun(runs: seq<seq<nat>>, id: nat, sizes: map<nat, nat>, budget: nat)
    requires Budgeted(runs, sizes, budget) && Greedy(runs, sizes, budget)
    requires runs != [] ==> Total(runs[|runs| - 1], sizes) + SizeOf(sizes, id) > budget
    ensures var longer := runs + [[id]];
            && Budgeted(longer, sizes, budget) && Greedy(longer, sizes, budget)
            && Total(longer[|runs|], sizes) == SizeOf(sizes, id)
            && Joined(longer) == Joined(runs) + [id]
  {
    TotalOne(id, sizes);
    JoinedPush(runs, [id]);
  }

  lemma ExtendFits(runs: seq<seq<nat>>, id: nat, sizes: map<nat, nat>, budget: nat)
    requires runs != [] && Budgeted(runs, sizes, budget) && Greedy(runs, sizes, budget)
    requires Total(runs[|runs| - 1], sizes) + SizeOf(sizes, id) <= budget
    ensures var n := |runs| - 1;
            var longer := runs[n := runs[n] + [id]];
            && Budgeted(longer, sizes, budget) && Greedy(longer, sizes, budget)
            && Total(longer[n], sizes) == Total(runs[n], sizes) + SizeOf(sizes, id)
  {
    TotalPush(runs[|runs| - 1], id, sizes);
  }

  /**
   * The runs joined are the segments in order. Each run is within the budget or a
   * single segment, and no run could have taken the first segment of the next.
   */
  method Runs(ids: seq<nat>, sizes: map<nat, nat>, maxBytes: nat) returns (unknown: Option<nat>, runs: seq<seq<nat>>)
    ensures unknown.None? <==> forall i :: 0 <= i < |ids| ==> ids[i] in sizes
    ensures unknown.Some? ==> unknown.value in ids && unknown.value !in sizes
    ensures unknown.None? ==>
              && Joined(runs) == ids
              && Budgeted(runs, sizes, Most(maxBytes, 1)) && Greedy(runs, sizes, Most(maxBytes, 1))
  {
    var budget := Most(maxBytes, 1);
    var bytes := 0;
    runs := [];
    for i := 0 to |ids|
      invariant forall k :: 0 <= k < i ==> ids[k] in sizes
      invariant Joined(runs) == ids[..i]
      invariant Budgeted(runs, sizes, budget) && Greedy(runs, sizes, budget)
      invariant runs != [] ==> bytes == Total(runs[|runs| - 1], sizes)
    {
      if ids[i] !in sizes {
        return Some(ids[i]), runs;
      }
      runs, bytes := Place(runs, bytes, ids[i], sizes, budget);
      assert ids[..i + 1] == ids[..i] + [ids[i]];
    }
    assert ids[..|ids|] == ids;
    unknown := None;
  }

  method Place(before: seq<seq<nat>>, held: nat, id: nat, sizes: map<nat, nat>, budget: nat)
    returns (runs: seq<seq<nat>>, bytes: nat)
    requires id in sizes && Budgeted(before, sizes, budget) && Greedy(before, sizes, budget)
    requires before != [] ==> held == Total(before[|before| - 1], sizes)
    ensures Budgeted(runs, sizes, budget) && Greedy(runs, sizes, budget)
    ensures runs != [] && bytes == Total(runs[|runs| - 1], sizes)
    ensures Joined(runs) == Joined(before) + [id]
  {
    var size := sizes[id];
    if before != [] && held + size <= budget {
      var n := |before| - 1;
      ExtendLast(before, id);
      ExtendFits(before, id, sizes, budget);
      runs, bytes := before[n := before[n] + [id]], held + size;
    } else {
      OpenRun(before, id, sizes, budget);
      runs, bytes := before + [[id]], size;
    }
  }

  // ---- One run ---------------------------------------------------------------------

  /** What a reader sees when it pins the table: the commit's entries and the delete vectors of that moment. */
  datatype Pin = Pin(segments: seq<Segment>, deletes: map<nat, set<nat>>) {
    predicate Has(id: nat) {
      exists i :: 0 <= i < |segments| && segments[i].id == id
    }
  }

  predicate Distinct(ids: seq<nat>) {
    forall i, j :: 0 <= i < j < |ids| ==> ids[i] != ids[j]
  }

  /** Segments do not change: one still in the table holds what was pinned, and its vector only grew. */
  ghost predicate Unchanged(pin: Pin, ids: seq<nat>, t: Table, deletes: map<nat, set<nat>>) {
    forall i :: 0 <= i < |ids| && pin.Has(ids[i]) ==>
      && ids[i] < t.nextId
      && (t.Has(ids[i]) ==> RowsIn(t.segments, ids[i]) == RowsIn(pin.segments, ids[i]))
      && (DeadOf(pin.deletes, ids[i]) <= DeadOf(deletes, ids[i]) || (!t.Has(ids[i]) && DeadOf(deletes, ids[i]) == {}))
  }

  /** Some named segment gained a deletion after it was read. */
  ghost predicate Raced(pin: Pin, ids: seq<nat>, deletes: map<nat, set<nat>>) {
    exists i :: 0 <= i < |ids| && DeadOf(pin.deletes, ids[i]) != DeadOf(deletes, ids[i])
  }

  /** What is left of the named segments' rows, in the segments' order. */
  function LiveRowsOf(segments: seq<Segment>, deletes: map<nat, set<nat>>, ids: seq<nat>): seq<seq<Row>> {
    if ids == [] then []
    else LiveRowsOf(segments, deletes, ids[..|ids| - 1])
         + [Kept(RowsIn(segments, ids[|ids| - 1]), DeadOf(deletes, ids[|ids| - 1]))]
  }

  /** Equal counts of vectors that only grow, or are gone, mean equal vectors. */
  lemma SameCountSameSet(before: set<nat>, now: set<nat>)
    requires before <= now || now == {}
    ensures |before| == |now| <==> before == now
  {
    if before <= now {
      SubsetCount(before, now);
    }
  }

  /** The run would write this segment's rows once too often: it has left the table, or was named before. */
  predicate Extra(t: Table, ids: seq<nat>, i: nat)
    requires i < |ids|
  {
    !t.Has(ids[i]) || ids[i] in ids[..i]
  }

  function ExtraRows(pin: Pin, t: Table, ids: seq<nat>): seq<Row> {
    if ids == [] then []
    else ExtraRows(pin, t, ids[..|ids| - 1])
         + (if Extra(t, ids, |ids| - 1) then Kept(RowsIn(pin.segments, ids[|ids| - 1]), DeadOf(pin.deletes, ids[|ids| - 1])) else [])
  }

  /** No segment whose rows the run would write once too often has a live row. */
  ghost predicate NoneTwice(pin: Pin, t: Table, ids: seq<nat>) {
    forall i :: 0 <= i < |ids| && Extra(t, ids, i) ==> Kept(RowsIn(pin.segments, ids[i]), DeadOf(pin.deletes, ids[i])) == []
  }

  lemma {:induction false} NoneTwiceIff(pin: Pin, t: Table, ids: seq<nat>)
    ensures ExtraRows(pin, t, ids) == [] <==> NoneTwice(pin, t, ids)
  {
    if ids != [] {
      var init := ids[..|ids| - 1];
      NoneTwiceIff(pin, t, init);
      forall i | 0 <= i < |init|
        ensures init[i] == ids[i] && Extra(t, init, i) == Extra(t, ids, i)
      {
        assert init[..i] == ids[..i];
      }
    }
  }

  /** What a run reads is what the named segments still hold, and the extra rows. */
  lemma {:induction false} RowsReadAre(pin: Pin, t: Table, deletes: map<nat, set<nat>>, ids: seq<nat>)
    requires t.Ok() && Unchanged(pin, ids, t, deletes) && !Raced(pin, ids, deletes)
    requires forall i :: 0 <= i < |ids| ==> pin.Has(ids[i])
    ensures multiset(Flatten(LiveRowsOf(pin.segments, pin.deletes, ids)))
         == SegmentRows(OnlyIds(t.segments, SetOf(ids)), deletes) + multiset(ExtraRows(pin, t, ids))
  {
    if ids == [] {
      OnlyNoIds(t.segments, SetOf(ids));
    } else {
      var init, last := ids[..|ids| - 1], ids[|ids| - 1];
      var kept := Kept(RowsIn(pin.segments, last), DeadOf(pin.deletes, last));
      RowsReadAre(pin, t, deletes, init);
      SetOfLast(ids);
      FlattenPush(LiveRowsOf(pin.segments, pin.deletes, init), kept);
      var twice := Extra(t, ids, |ids| - 1);
      ReadOneMore(Flatten(LiveRowsOf(pin.segments, pin.deletes, init)), SegmentRows(OnlyIds(t.segments, SetOf(init)), deletes),
                  ExtraRows(pin, t, init), kept, twice);
      if twice {
        ExtraNamesNothing(t, ids);
      } else {
        LastIsNew(t, deletes, ids);
      }
    }
  }

  lemma ReadOneMore(read: seq<Row>, named: multiset<Row>, extra: seq<Row>, kept: seq<Row>, twice: bool)
    requires multiset(read) == named + multiset(extra)
    ensures multiset(read + kept) == (if twice then named else named + multiset(kept)) + multiset(extra + (if twice then kept else []))
  {
    MultisetAppend(read, kept);
    MultisetAppend(extra, if twice then kept else []);
    if twice {
      Reassociate(named, multiset(extra), multiset(kept));
    } else {
      Swap(named, multiset(extra), multiset(kept));
      assert extra + [] == extra;
    }
  }

  lemma ExtraNamesNothing(t: Table, ids: seq<nat>)
    requires ids != [] && Extra(t, ids, |ids| - 1)
    ensures OnlyIds(t.segments, SetOf(ids)) == OnlyIds(t.segments, SetOf(ids[..|ids| - 1]))
  {
    SetOfLast(ids);
    NamedOrPresentIn(t.segments, SetOf(ids), SetOf(ids[..|ids| - 1]));
  }

  lemma LastIsNew(t: Table, deletes: map<nat, set<nat>>, ids: seq<nat>)
    requires t.Ok() && ids != [] && !Extra(t, ids, |ids| - 1)
    ensures var last := ids[|ids| - 1];
            SegmentRows(OnlyIds(t.segments, SetOf(ids)), deletes)
              == SegmentRows(OnlyIds(t.segments, SetOf(ids[..|ids| - 1])), deletes)
                 + multiset(Kept(RowsIn(t.segments, last), DeadOf(deletes, last)))
  {
    var init, last := ids[..|ids| - 1], ids[|ids| - 1];
    var k :| 0 <= k < |t.segments| && t.segments[k].id == last;
    SetOfLast(ids);
    OneMoreId(t.segments, deletes, SetOf(init), last);
    OnlyOneId(t.segments, deletes, k);
    RowsInAt(t.segments, k);
  }

  /** The rows read are those of the segments in table order, whatever order they were named in. */
  lemma LiveRowsAreTheirs(t: Table, deletes: map<nat, set<nat>>, ids: seq<nat>)
    requires t.Ok() && Distinct(ids) && forall i :: 0 <= i < |ids| ==> t.Has(ids[i])
    ensures multiset(Flatten(LiveRowsOf(t.segments, deletes, ids))) == SegmentRows(OnlyIds(t.segments, SetOf(ids)), deletes)
  {
    var pin := Pin(t.segments, deletes);
    RowsReadAre(pin, t, deletes, ids);
    NoneTwiceIff(pin, t, ids);
  }

  lemma SetOfLast(ids: seq<nat>)
    requires ids != []
    ensures SetOf(ids) == SetOf(ids[..|ids| - 1]) + {ids[|ids| - 1]}
  {
    assert ids == ids[..|ids| - 1] + [ids[|ids| - 1]];
  }

  lemma MultisetAppend(a: seq<Row>, b: seq<Row>)
    ensures multiset(a + b) == multiset(a) + multiset(b)
  {
  }

  lemma {:induction false} OnlyNoIds(segments: seq<Segment>, ids: set<nat>)
    requires forall i :: 0 <= i < |segments| ==> segments[i].id !in ids
    ensures OnlyIds(segments, ids) == []
  {
    if segments != [] {
      OnlyNoIds(segments[..|segments| - 1], ids);
    }
  }

  lemma {:induction false} OneMoreId(segments: seq<Segment>, deletes: map<nat, set<nat>>, ids: set<nat>, id: nat)
    requires id !in ids
    ensures SegmentRows(OnlyIds(segments, ids + {id}), deletes)
         == SegmentRows(OnlyIds(segments, ids), deletes) + SegmentRows(OnlyIds(segments, {id}), deletes)
  {
    if segments != [] {
      OneMoreId(segments[..|segments| - 1], deletes, ids, id);
      OneMoreStep(segments, deletes, ids, id);
    }
  }

  lemma OneMoreStep(segments: seq<Segment>, deletes: map<nat, set<nat>>, ids: set<nat>, id: nat)
    requires id !in ids && segments != []
    requires var init := segments[..|segments| - 1];
             SegmentRows(OnlyIds(init, ids + {id}), deletes)
               == SegmentRows(OnlyIds(init, ids), deletes) + SegmentRows(OnlyIds(init, {id}), deletes)
    ensures SegmentRows(OnlyIds(segments, ids + {id}), deletes)
         == SegmentRows(OnlyIds(segments, ids), deletes) + SegmentRows(OnlyIds(segments, {id}), deletes)
  {
    var init, s := segments[..|segments| - 1], segments[|segments| - 1];
    OnlyLast(segments, deletes, ids);
    OnlyLast(segments, deletes, {id});
    OnlyLast(segments, deletes, ids + {id});
    AddEither(SegmentRows(OnlyIds(init, ids), deletes), SegmentRows(OnlyIds(init, {id}), deletes),
              multiset(Kept(s.rows, DeadOf(deletes, s.id))), s.id in ids, s.id == id);
  }

  lemma AddEither(a: multiset<Row>, b: multiset<Row>, c: multiset<Row>, left: bool, right: bool)
    requires !(left && right)
    ensures (a + b) + (if left || right then c else multiset{})
         == (a + (if left then c else multiset{})) + (b + (if right then c else multiset{}))
  {
  }

  lemma NoneThen(a: multiset<Row>)
    ensures multiset{} + a == a == a + multiset{}
  {
  }

  lemma OnlyLast(segments: seq<Segment>, deletes: map<nat, set<nat>>, ids: set<nat>)
    requires segments != []
    ensures var init, s := segments[..|segments| - 1], segments[|segments| - 1];
            SegmentRows(OnlyIds(segments, ids), deletes)
              == SegmentRows(OnlyIds(init, ids), deletes)
                 + (if s.id in ids then multiset(Kept(s.rows, DeadOf(deletes, s.id))) else multiset{})
  {
    var init, s := segments[..|segments| - 1], segments[|segments| - 1];
    if s.id in ids {
      SegmentRowsPush(OnlyIds(init, ids), s, deletes);
    } else {
      assert OnlyIds(segments, ids) == OnlyIds(init, ids);
    }
  }

  lemma {:induction false} OnlyOneId(segments: seq<Segment>, deletes: map<nat, set<nat>>, k: nat)
    requires k < |segments|
    requires forall i, j :: 0 <= i < j < |segments| ==> segments[i].id != segments[j].id
    ensures var s := segments[k];
            SegmentRows(OnlyIds(segments, {s.id}), deletes) == multiset(Kept(s.rows, DeadOf(deletes, s.id)))
  {
    if k == |segments| - 1 {
      OnlyTheLast(segments, deletes);
    } else {
      OnlyOneId(segments[..|segments| - 1], deletes, k);
      NotTheLast(segments, deletes, segments[k].id);
    }
  }

  lemma OnlyTheLast(segments: seq<Segment>, deletes: map<nat, set<nat>>)
    requires segments != []
    requires forall i :: 0 <= i < |segments| - 1 ==> segments[i].id != segments[|segments| - 1].id
    ensures var s := segments[|segments| - 1];
            SegmentRows(OnlyIds(segments, {s.id}), deletes) == multiset(Kept(s.rows, DeadOf(deletes, s.id)))
  {
    var s := segments[|segments| - 1];
    OnlyLast(segments, deletes, {s.id});
    OnlyNoIds(segments[..|segments| - 1], {s.id});
    NoneThen(multiset(Kept(s.rows, DeadOf(deletes, s.id))));
  }

  lemma NotTheLast(segments: seq<Segment>, deletes: map<nat, set<nat>>, id: nat)
    requires segments != [] && segments[|segments| - 1].id != id
    ensures SegmentRows(OnlyIds(segments, {id}), deletes)
         == SegmentRows(OnlyIds(segments[..|segments| - 1], {id}), deletes)
  {
    assert OnlyIds(segments, {id}) == OnlyIds(segments[..|segments| - 1], {id});
  }

  datatype Compaction = Compacted(rows: nat) | NothingNamed | Stale | NotInTable(id: nat)

  /**
   * Rewrite the named segments. Their rows are read under a pin while others write;
   * a deletion among them since then makes the run give up. Otherwise it commits,
   * and the table's rows stay the same if and only if no segment with a live row
   * has left the table meanwhile or was named twice.
   */
  method CompactRun(w: Writer, pin: Pin, ids: seq<nat>, groupRows: nat)
    returns (r: Compaction, ghost groups: seq<seq<Row>>)
    requires w.Valid() && Unchanged(pin, ids, w.table, w.deletes)
    modifies w
    ensures w.Valid()
    ensures r.NothingNamed? <==> ids == []
    ensures r.NotInTable? ==> !pin.Has(r.id)
    ensures r.NotInTable? <==> exists i :: 0 <= i < |ids| && !pin.Has(ids[i])
    ensures !r.NotInTable? ==> (r.Stale? <==> Raced(pin, ids, old(w.deletes)))
    ensures !r.Compacted? ==> w.Now() == old(w.Now()) && w.passed == old(w.passed)
    ensures r.Compacted? ==> w.passed == old(w.passed) + [MomentOf(w.Now())] && r.rows == |Flatten(groups)|
    ensures r.Compacted? ==>
              && Flatten(groups) == Flatten(LiveRowsOf(pin.segments, pin.deletes, ids))
              && w.Now() == CompactedState(old(w.Now()), SetOf(ids), groups)
    ensures r.Compacted? ==> (w.Now().Rows() == old(w.Now()).Rows() <==> NoneTwice(pin, old(w.table), ids))
    ensures r.Compacted? && Distinct(ids) && (forall i :: 0 <= i < |ids| ==> old(w.table).Has(ids[i])) ==>
              Takes(old(w.Now()), Compact(SetOf(ids), groups), w.Now())
  {
    if ids == [] {
      return NothingNamed, [];
    }
    ghost var was := w.Now();
    r, groups := TryCompact(w, pin, ids, groupRows);
    if r.Compacted? {
      CompactLands(was, pin, ids, groups);
    }
  }

  lemma CompactLands(s: State, pin: Pin, ids: seq<nat>, groups: seq<seq<Row>>)
    requires Inv(s) && s.phase.Idle? && RangesOk(s.table, s.logs)
    requires Unchanged(pin, ids, s.table, s.live.deletes) && !Raced(pin, ids, s.live.deletes)
    requires forall i :: 0 <= i < |ids| ==> pin.Has(ids[i])
    requires Flatten(groups) == Flatten(LiveRowsOf(pin.segments, pin.deletes, ids))
    ensures var u := CompactedState(s, SetOf(ids), groups);
            && Inv(u) && RangesOk(u.table, u.logs)
            && (u.Rows() == s.Rows() <==> NoneTwice(pin, s.table, ids))
            && (Distinct(ids) && (forall i :: 0 <= i < |ids| ==> s.table.Has(ids[i])) ==> Takes(s, Compact(SetOf(ids), groups), u))
  {
    var here, u := Present(s.table.segments, SetOf(ids)), CompactedState(s, SetOf(ids), groups);
    CompactedAsPresent(s, SetOf(ids), groups);
    ReplaceKeeps(s, here, groups, u);
    ReplacedFit(s.table, s.logs, s.live.nextLsn, here, groups);
    RowsReadAre(pin, s.table, s.live.deletes, ids);
    NoneTwiceIff(pin, s.table, ids);
    NamedOrPresent(s.table.segments, SetOf(ids));
    CompactRows(s, here, groups, u, ExtraRows(pin, s.table, ids));
    if Distinct(ids) && forall i :: 0 <= i < |ids| ==> s.table.Has(ids[i]) {
      assert ExtraRows(pin, s.table, ids) == [];
    }
  }

  /** Rows are conserved when the new segments hold just what the old ones did, and nothing extra. */
  lemma CompactRows(s: State, ids: set<nat>, groups: seq<seq<Row>>, u: State, extra: seq<Row>)
    requires Inv(s) && Replaces(s, ids, groups, u)
    requires multiset(Flatten(groups)) == RowsNamed(s, ids) + multiset(extra)
    ensures u.Rows() == s.Rows() <==> extra == []
  {
    ReplaceRows(s, ids, groups, u);
    SplitIds(s.table.segments, ids, s.live.deletes);
    NothingExtraIff(SegmentRows(WithoutIds(s.table.segments, ids), s.live.deletes), RowsNamed(s, ids), extra,
                    multiset(RowsOf(s.live.mem.live)));
  }

  lemma NothingExtraIff(others: multiset<Row>, named: multiset<Row>, extra: seq<Row>, mem: multiset<Row>)
    ensures (others + (named + multiset(extra))) + mem == (others + named) + mem <==> extra == []
  {
    if extra != [] {
      var x := extra[0];
      assert x in multiset(extra);
      assert ((others + (named + multiset(extra))) + mem)[x] > ((others + named) + mem)[x];
    }
  }

  /** Ids the table no longer has name no entry and no vector. */
  lemma CompactedAsPresent(s: State, ids: set<nat>, groups: seq<seq<Row>>)
    requires Inv(s) && s.phase.Idle? && forall id :: id in ids ==> id < s.table.nextId
    ensures CompactedState(s, ids, groups) == CompactedState(s, Present(s.table.segments, ids), groups)
  {
    var here, added := Present(s.table.segments, ids), NewSegments(s.table.nextId, groups);
    NewSegmentsAt(s.table.nextId, groups);
    NamedOrPresentIn(s.table.segments + added, ids, here);
    assert s.live.deletes - ids == s.live.deletes - here;
    assert s.live.dirty - ids == s.live.dirty - here;
  }

  function CompactedState(s: State, ids: set<nat>, groups: seq<seq<Row>>): State {
    s.(table := Durability.Compacted(s.table, ids, groups),
       live := s.live.(deletes := s.live.deletes - ids, dirty := s.live.dirty - ids))
  }

  method TryCompact(w: Writer, pin: Pin, ids: seq<nat>, groupRows: nat)
    returns (r: Compaction, ghost groups: seq<seq<Row>>)
    requires w.wal.Valid() && w.memtable.Valid() && Unchanged(pin, ids, w.table, w.deletes)
    modifies w
    ensures !r.NothingNamed?
    ensures r.NotInTable? ==> !pin.Has(r.id)
    ensures r.NotInTable? <==> exists i :: 0 <= i < |ids| && !pin.Has(ids[i])
    ensures !r.NotInTable? ==> (r.Stale? <==> Raced(pin, ids, old(w.deletes)))
    ensures !r.Compacted? ==> w.Now() == old(w.Now()) && w.passed == old(w.passed)
    ensures r.Compacted? ==>
              && w.passed == old(w.passed) + [MomentOf(w.Now())]
              && r.rows == |Flatten(groups)|
              && Flatten(groups) == Flatten(LiveRowsOf(pin.segments, pin.deletes, ids))
              && w.Now() == CompactedState(old(w.Now()), SetOf(ids), groups)
  {
    groups := [];
    var unknown, live := ReadLive(pin, ids);
    if unknown.Some? {
      return NotInTable(unknown.value), [];
    }
    var stale := AnyRaced(pin, ids, w.deletes);
    if stale {
      return Stale, [];
    }
    var rows := CountRows(live);
    groups := Rewrite(w, live, ids, groupRows);
    r := Compaction.Compacted(rows);
  }

  method ReadLive(pin: Pin, ids: seq<nat>) returns (unknown: Option<nat>, live: seq<seq<Row>>)
    ensures unknown.Some? ==> !pin.Has(unknown.value)
    ensures unknown.Some? <==> exists i :: 0 <= i < |ids| && !pin.Has(ids[i])
    ensures unknown.None? ==> live == LiveRowsOf(pin.segments, pin.deletes, ids)
  {
    live := [];
    for i := 0 to |ids|
      invariant forall k :: 0 <= k < i ==> pin.Has(ids[k])
      invariant live == LiveRowsOf(pin.segments, pin.deletes, ids[..i])
    {
      assert ids[..i + 1][..i] == ids[..i];
      if !pin.Has(ids[i]) {
        return Some(ids[i]), live;
      }
      live := live + [Kept(RowsIn(pin.segments, ids[i]), DeadOf(pin.deletes, ids[i]))];
    }
    assert ids[..|ids|] == ids;
    unknown := None;
  }

  /** Compare the delete counts then and now, segment by segment. */
  method AnyRaced(pin: Pin, ids: seq<nat>, deletes: map<nat, set<nat>>) returns (stale: bool)
    requires forall i :: 0 <= i < |ids| ==>
               DeadOf(pin.deletes, ids[i]) <= DeadOf(deletes, ids[i]) || DeadOf(deletes, ids[i]) == {}
    ensures stale <==> Raced(pin, ids, deletes)
  {
    for i := 0 to |ids|
      invariant forall k :: 0 <= k < i ==> DeadOf(pin.deletes, ids[k]) == DeadOf(deletes, ids[k])
    {
      SameCountSameSet(DeadOf(pin.deletes, ids[i]), DeadOf(deletes, ids[i]));
      if |DeadOf(deletes, ids[i])| != |DeadOf(pin.deletes, ids[i])| {
        return true;
      }
    }
    stale := false;
  }

  /** Write the live rows as new segments, then drop the old entries and their delete vectors. */
  method Rewrite(w: Writer, live: seq<seq<Row>>, ids: seq<nat>, groupRows: nat) returns (ghost groups: seq<seq<Row>>)
    requires w.wal.Valid() && w.memtable.Valid()
    modifies w
    ensures Flatten(groups) == Flatten(live)
    ensures w.Now() == CompactedState(old(w.Now()), SetOf(ids), groups) && w.passed == old(w.passed) + [MomentOf(w.Now())]
  {
    var segments, nextId;
    segments, nextId, groups := Replacement(w, live, ids, groupRows);
    Forget(w, ids);
    w.Commit(w.table.(nextId := nextId, segments := segments));
  }

  method Replacement(w: Writer, live: seq<seq<Row>>, ids: seq<nat>, groupRows: nat)
    returns (segments: seq<Segment>, nextId: nat, ghost groups: seq<seq<Row>>)
    ensures Flatten(groups) == Flatten(live) && nextId == w.table.nextId + |groups|
    ensures segments == WithoutIds(w.table.segments + NewSegments(w.table.nextId, groups), SetOf(ids))
  {
    var split := SplitRowGroups(live, groupRows);
    groups := Groups(split);
    GroupsFlatten(split);
    segments, nextId := w.WriteSegments(w.table.segments, w.table.nextId, split);
    segments := Retain(segments, ids);
  }

  method Retain(before: seq<Segment>, ids: seq<nat>) returns (segments: seq<Segment>)
    ensures segments == WithoutIds(before, SetOf(ids))
  {
    segments := [];
    for i := 0 to |before|
      invariant segments == WithoutIds(before[..i], SetOf(ids))
    {
      assert before[..i + 1][..i] == before[..i];
      if before[i].id !in ids {
        segments := segments + [before[i]];
      }
    }
    assert before[..|before|] == before;
  }

  method Forget(w: Writer, ids: seq<nat>)
    modifies w`deletes, w`dirty
    ensures w.deletes == old(w.deletes) - SetOf(ids) && w.dirty == old(w.dirty) - SetOf(ids)
  {
    for i := 0 to |ids|
      invariant w.deletes == old(w.deletes) - SetOf(ids[..i]) && w.dirty == old(w.dirty) - SetOf(ids[..i])
    {
      assert SetOf(ids[..i + 1]) == SetOf(ids[..i]) + {ids[i]};
      w.deletes := w.deletes - {ids[i]};
      w.dirty := w.dirty - {ids[i]};
    }
    assert ids[..|ids|] == ids;
  }

  // ---- All runs --------------------------------------------------------------------

  /** No segment is named by two runs. */
  predicate Apart(runs: seq<seq<nat>>) {
    forall k :: 0 <= k < |runs| ==> FirstTime(runs, k)
  }

  /** The run names nothing that a run before it rewrote. */
  predicate FirstTime(runs: seq<seq<nat>>, k: nat)
    requires k < |runs|
  {
    forall i :: 0 <= i < |runs[k]| ==> runs[k][i] !in Joined(runs[..k])
  }

  lemma DistinctParts(a: seq<nat>, b: seq<nat>)
    requires Distinct(a + b)
    ensures Distinct(a) && Distinct(b) && forall i :: 0 <= i < |b| ==> b[i] !in a
  {
    forall i | 0 <= i < |a|
      ensures (a + b)[i] == a[i]
    {
    }
    forall i | 0 <= i < |b|
      ensures (a + b)[|a| + i] == b[i]
    {
    }
  }

  /** Ids named once each are named once in each run, and in one run only. */
  lemma {:induction false} DistinctRuns(runs: seq<seq<nat>>)
    requires Distinct(Joined(runs))
    ensures Apart(runs) && forall k :: 0 <= k < |runs| ==> Distinct(runs[k])
  {
    if runs != [] {
      var init := runs[..|runs| - 1];
      DistinctParts(Joined(init), runs[|runs| - 1]);
      DistinctRuns(init);
      forall k | 0 <= k < |init|
        ensures FirstTime(runs, k)
      {
        assert FirstTime(init, k) && init[..k] == runs[..k];
      }
    }
  }

  lemma JoinedAhead(runs: seq<seq<nat>>, k: nat)
    requires k < |runs|
    ensures runs[..k + 1] == runs[..k] + [runs[k]] && Joined(runs[..k + 1]) == Joined(runs[..k]) + runs[k]
  {
    assert runs[..k + 1] == runs[..k] + [runs[k]];
    JoinedPush(runs[..k], runs[k]);
  }

  /** One run with nothing else writing: it reads the table it replaces the segments of. */
  ghost predicate RanTo(s: State, run: seq<nat>, u: State) {
    && (exists groups :: u == CompactedState(s, SetOf(run), groups)
                         && Flatten(groups) == Flatten(LiveRowsOf(s.table.segments, s.live.deletes, run)))
    && (u.Rows() == s.Rows() <==> NoneTwice(Pin(s.table.segments, s.live.deletes), s.table, run))
  }

  /** A compaction's commits: from one state to the next by the first of the runs. */
  ghost predicate Trail(states: seq<State>, runs: seq<seq<nat>>) {
    && 0 < |states| <= |runs| + 1
    && forall k :: 0 <= k < |states| - 1 ==> RanTo(states[k], runs[k], states[k + 1])
  }

  ghost predicate SameRows(states: seq<State>) {
    forall k :: 0 <= k < |states| - 1 ==> states[k + 1].Rows() == states[k].Rows()
  }

  /** Of the segments `t` had, those named so far have left. */
  ghost predicate Retired(t: Table, now: Table, ids: seq<nat>) {
    t.nextId <= now.nextId && forall id: nat :: id < t.nextId ==> (now.Has(id) <==> t.Has(id) && id !in ids)
  }

  /**
   * Rewrite the named segments, one commit for each run, with nothing else writing
   * meanwhile. It gets through iff no two runs name the same segment, and stops at
   * the first run that names one an earlier run rewrote. With every id named once,
   * the table holds the same rows after each commit; a run leaves them the same iff
   * it names no segment with a live row twice.
   */
  method CompactSegments(w: Writer, ids: seq<nat>, sizes: map<nat, nat>, maxBytes: nat, groupRows: nat)
    returns (r: Outcome, ghost runs: seq<seq<nat>>, ghost states: seq<State>)
    requires w.Valid() && forall id :: id in sizes <==> w.table.Has(id)
    modifies w
    ensures w.Valid() && Trail(states, runs) && states[0] == old(w.Now()) && states[|states| - 1] == w.Now()
    ensures !AllIn(old(w.table), ids) ==> r.UnknownSegment? && |states| == 1
    ensures AllIn(old(w.table), ids) ==> Joined(runs) == ids && Budgeted(runs, sizes, Most(maxBytes, 1))
    ensures AllIn(old(w.table), ids) ==> (r.Done? <==> Apart(runs)) && (r.Done? <==> |states| == |runs| + 1)
    ensures AllIn(old(w.table), ids) && !r.Done? ==> !FirstTime(runs, |states| - 1) && Apart(runs[..|states| - 1])
    ensures AllIn(old(w.table), ids) && Distinct(ids) ==> r.Done? && SameRows(states)
    ensures r.Done? ==> NoneIn(w.table, ids)
  {
    states := [w.Now()];
    var unknown, cut := PlanRuns(w.table, ids, sizes, maxBytes);
    runs := cut;
    if unknown.Some? {
      return UnknownSegment(unknown.value), runs, states;
    }
    r, states := CompactCut(w, cut, groupRows);
  }

  method PlanRuns(t: Table, ids: seq<nat>, sizes: map<nat, nat>, maxBytes: nat) returns (unknown: Option<nat>, cut: seq<seq<nat>>)
    requires forall id :: id in sizes <==> t.Has(id)
    ensures unknown.None? <==> AllIn(t, ids)
    ensures unknown.None? ==> Joined(cut) == ids && Budgeted(cut, sizes, Most(maxBytes, 1)) && Known(t, cut)
    ensures unknown.None? ==> forall k :: 0 <= k < |cut| ==> cut[k] != []
  {
    unknown, cut := Runs(ids, sizes, maxBytes);
    if unknown.None? {
      KnownJoined(t, cut);
    }
  }

  method CompactCut(w: Writer, cut: seq<seq<nat>>, groupRows: nat) returns (r: Outcome, ghost states: seq<State>)
    requires w.Valid() && Known(w.table, cut) && forall k :: 0 <= k < |cut| ==> cut[k] != []
    modifies w
    ensures w.Valid() && Trail(states, cut) && states[0] == old(w.Now()) && states[|states| - 1] == w.Now()
    ensures (r.Done? <==> Apart(cut)) && (r.Done? <==> |states| == |cut| + 1)
    ensures !r.Done? ==> !FirstTime(cut, |states| - 1) && Apart(cut[..|states| - 1])
    ensures Distinct(Joined(cut)) ==> r.Done? && SameRows(states)
    ensures r.Done? ==> NoneIn(w.table, Joined(cut))
  {
    ghost var was := w.Now();
    r, states := AllRuns(w, cut, groupRows);
    ThroughAll(was, cut, states, r.Done?);
  }

  ghost predicate AllIn(t: Table, ids: seq<nat>) {
    forall i :: 0 <= i < |ids| ==> t.Has(ids[i])
  }

  ghost predicate NoneIn(t: Table, ids: seq<nat>) {
    forall i :: 0 <= i < |ids| ==> !t.Has(ids[i])
  }

  /** Every id of every run is one of the table's. */
  ghost predicate Known(t: Table, runs: seq<seq<nat>>) {
    forall k :: 0 <= k < |runs| ==> AllIn(t, runs[k])
  }

  lemma {:induction false} KnownJoined(t: Table, runs: seq<seq<nat>>)
    requires AllIn(t, Joined(runs))
    ensures Known(t, runs)
  {
    if runs != [] {
      var init, last := runs[..|runs| - 1], runs[|runs| - 1];
      forall i | 0 <= i < |Joined(init)|
        ensures t.Has(Joined(init)[i])
      {
        assert Joined(runs)[i] == Joined(init)[i];
      }
      KnownJoined(t, init);
      forall i | 0 <= i < |last|
        ensures t.Has(last[i])
      {
        assert Joined(runs)[|Joined(init)| + i] == last[i];
      }
    }
  }

  /** How far the runs have come from `was`: the first `|states| - 1` of them have committed. */
  ghost predicate Through(was: State, runs: seq<seq<nat>>, states: seq<State>) {
    && Trail(states, runs) && states[0] == was
    && Retired(was.table, states[|states| - 1].table, Joined(runs[..|states| - 1]))
    && forall k :: 0 <= k < |states| - 1 ==> FirstTime(runs, k) && AllIn(states[k].table, runs[k])
  }

  lemma ThroughMore(was: State, runs: seq<seq<nat>>, states: seq<State>, u: State)
    requires Through(was, runs, states) && |states| <= |runs|
    requires FirstTime(runs, |states| - 1) && AllIn(states[|states| - 1].table, runs[|states| - 1])
    requires RanTo(states[|states| - 1], runs[|states| - 1], u) && Retired(was.table, u.table, Joined(runs[..|states|]))
    ensures Through(was, runs, states + [u])
  {
    var longer := states + [u];
    forall k | 0 <= k < |longer| - 1
      ensures RanTo(longer[k], runs[k], longer[k + 1]) && FirstTime(runs, k) && AllIn(longer[k].table, runs[k])
    {
      assert longer[k] == states[k];
    }
  }

  lemma ThroughAll(was: State, runs: seq<seq<nat>>, states: seq<State>, done: bool)
    requires was.table.Ok() && Through(was, runs, states) && Known(was.table, runs)
    requires done <==> |states| == |runs| + 1
    requires !done ==> !FirstTime(runs, |states| - 1)
    ensures done <==> Apart(runs)
    ensures !done ==> Apart(runs[..|states| - 1])
    ensures Distinct(Joined(runs)) ==> done && SameRows(states)
    ensures done ==> NoneIn(states[|states| - 1].table, Joined(runs))
  {
    ApartSoFar(runs, |states| - 1);
    if Distinct(Joined(runs)) {
      DistinctRuns(runs);
      SameRowsIfDistinct(states, runs);
    }
    if done {
      assert runs[..|states| - 1] == runs;
      AllGone(was.table, states[|states| - 1].table, runs);
    }
  }

  lemma ApartSoFar(runs: seq<seq<nat>>, n: nat)
    requires n <= |runs| && forall k :: 0 <= k < n ==> FirstTime(runs, k)
    ensures Apart(runs[..n])
  {
    forall k | 0 <= k < n
      ensures FirstTime(runs[..n], k)
    {
      assert FirstTime(runs, k);
      assert runs[..n][..k] == runs[..k] && runs[..n][k] == runs[k];
    }
  }

  lemma AllGone(t: Table, now: Table, runs: seq<seq<nat>>)
    requires t.Ok() && Known(t, runs) && Retired(t, now, Joined(runs))
    ensures NoneIn(now, Joined(runs))
  {
    AllKnownIn(t, runs);
  }

  lemma {:induction false} AllKnownIn(t: Table, runs: seq<seq<nat>>)
    requires t.Ok() && Known(t, runs)
    ensures forall i :: 0 <= i < |Joined(runs)| ==> Joined(runs)[i] < t.nextId
  {
    if runs != [] {
      var init, last := runs[..|runs| - 1], runs[|runs| - 1];
      AllKnownIn(t, init);
      forall i | 0 <= i < |last|
        ensures last[i] < t.nextId
      {
        assert t.Has(runs[|runs| - 1][i]);
        HasBelow(t, last[i]);
      }
    }
  }

  lemma {:induction false} SameRowsIfDistinct(states: seq<State>, runs: seq<seq<nat>>)
    requires Trail(states, runs) && forall k :: 0 <= k < |runs| ==> Distinct(runs[k])
    requires forall k :: 0 <= k < |states| - 1 ==> AllIn(states[k].table, runs[k])
    ensures SameRows(states)
  {
    forall k | 0 <= k < |states| - 1
      ensures states[k + 1].Rows() == states[k].Rows()
    {
      assert RanTo(states[k], runs[k], states[k + 1]);
      assert forall i :: 0 <= i < |runs[k]| ==> !Extra(states[k].table, runs[k], i);
    }
  }

  method AllRuns(w: Writer, cut: seq<seq<nat>>, groupRows: nat) returns (r: Outcome, ghost states: seq<State>)
    requires w.Valid() && Known(w.table, cut) && forall k :: 0 <= k < |cut| ==> cut[k] != []
    modifies w
    ensures w.Valid() && Through(old(w.Now()), cut, states) && states[|states| - 1] == w.Now()
    ensures r.Done? <==> |states| == |cut| + 1
    ensures !r.Done? ==> !FirstTime(cut, |states| - 1)
  {
    ghost var was := w.Now();
    states := [was];
    var rows := 0;
    for k := 0 to |cut|
      invariant w.Valid() && |states| == k + 1 && Through(was, cut, states) && states[k] == w.Now()
    {
      JoinedAhead(cut, k);
      var unknown, n := CompactNext(w, was.table, cut, k, groupRows);
      if unknown.Some? {
        return UnknownSegment(unknown.value), states;
      }
      ThroughMore(was, cut, states, w.Now());
      states := states + [w.Now()];
      rows := rows + n;
    }
    r := Done(rows);
  }

  method CompactNext(w: Writer, ghost was: Table, cut: seq<seq<nat>>, k: nat, groupRows: nat) returns (unknown: Option<nat>, rows: nat)
    requires w.Valid() && was.Ok() && k < |cut| && cut[k] != []
    requires Known(was, cut) && Retired(was, w.table, Joined(cut[..k]))
    requires Joined(cut[..k + 1]) == Joined(cut[..k]) + cut[k]
    modifies w
    ensures w.Valid()
    ensures unknown.None? <==> FirstTime(cut, k)
    ensures unknown.None? ==> AllIn(old(w.Now()).table, cut[k])
    ensures unknown.Some? ==> w.Now() == old(w.Now())
    ensures unknown.None? ==> RanTo(old(w.Now()), cut[k], w.Now()) && Retired(was, w.table, Joined(cut[..k + 1]))
  {
    ghost var before := w.Now();
    var pin := Pin(w.table.segments, w.deletes);
    OwnPin(before, cut[k]);
    var r, groups := CompactRun(w, pin, cut[k], groupRows);
    StillThereIff(was, before.table, cut, k);
    if r.NotInTable? {
      return Some(r.id), 0;
    }
    RunAhead(was, before, cut, k, groups, w.Now());
    return None, r.rows;
  }

  lemma RunAhead(was: Table, s: State, cut: seq<seq<nat>>, k: nat, groups: seq<seq<Row>>, u: State)
    requires Inv(s) && k < |cut| && Retired(was, s.table, Joined(cut[..k])) && AllIn(s.table, cut[k])
    requires Joined(cut[..k + 1]) == Joined(cut[..k]) + cut[k]
    requires u == CompactedState(s, SetOf(cut[k]), groups)
    requires Flatten(groups) == Flatten(LiveRowsOf(s.table.segments, s.live.deletes, cut[k]))
    requires u.Rows() == s.Rows() <==> NoneTwice(Pin(s.table.segments, s.live.deletes), s.table, cut[k])
    ensures RanTo(s, cut[k], u) && Retired(was, u.table, Joined(cut[..k + 1]))
  {
    CompactedOk(s.table, SetOf(cut[k]), groups);
  }

  lemma OwnPin(s: State, ids: seq<nat>)
    requires Inv(s) && s.phase.Idle?
    ensures Unchanged(Pin(s.table.segments, s.live.deletes), ids, s.table, s.live.deletes)
    ensures !Raced(Pin(s.table.segments, s.live.deletes), ids, s.live.deletes)
    ensures forall i :: 0 <= i < |ids| ==> (Pin(s.table.segments, s.live.deletes).Has(ids[i]) <==> s.table.Has(ids[i]))
  {
    forall i | 0 <= i < |ids|
      ensures s.table.Has(ids[i]) ==> ids[i] < s.table.nextId
    {
      HasBelow(s.table, ids[i]);
    }
  }

  lemma StillThereIff(was: Table, t: Table, cut: seq<seq<nat>>, k: nat)
    requires was.Ok() && k < |cut| && Known(was, cut) && Retired(was, t, Joined(cut[..k]))
    ensures FirstTime(cut, k) <==> forall i :: 0 <= i < |cut[k]| ==> t.Has(cut[k][i])
  {
    forall i | 0 <= i < |cut[k]|
      ensures t.Has(cut[k][i]) <==> cut[k][i] !in Joined(cut[..k])
    {
      HasBelow(was, cut[k][i]);
    }
  }
}
