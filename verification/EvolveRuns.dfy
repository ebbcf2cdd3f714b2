/** Histories that mix schema changes with writes. */
module EvolveRuns {
  import opened Layout
  import opened Sequences
  import opened Evolve

  datatype Step =
    | Append(rows: seq<Row>)
    /** Mark positions of a segment deleted; `taken` are the rows that go. */
    | Kill(segment: nat, positions: set<nat>, taken: multiset<Row>)
    | Flush(groups: seq<Segment>)
    | Compact(ids: set<nat>, groups: seq<Segment>)
    | Add(field: Field)
    | Rename(from: string, to: string)
    | Rewrite(after: Schema, cast: Casts, groups: seq<Segment>)

  /** The first `n` segments whose id is (or is not) among `ids`. */
  function Pick(segments: seq<Segment>, n: nat, ids: set<nat>, wanted: bool): seq<Segment>
    requires n <= |segments|
  {
    if n == 0 then []
    else Pick(segments, n - 1, ids, wanted) + (if (segments[n - 1].id in ids) == wanted then [segments[n - 1]] else [])
  }

  lemma {:induction false} PickIn(segments: seq<Segment>, n: nat, ids: set<nat>, wanted: bool, s: Segment)
    requires n <= |segments|
    ensures s in Pick(segments, n, ids, wanted) <==> s in segments[..n] && (s.id in ids) == wanted
  {
    if n > 0 {
      PickIn(segments, n - 1, ids, wanted, s);
      assert segments[..n] == segments[..n - 1] + [segments[n - 1]];
    }
  }

  lemma {:induction false} PickIds(segments: seq<Segment>, n: nat, ids: set<nat>, wanted: bool)
    requires n <= |segments| && DistinctIds(segments)
    ensures DistinctIds(Pick(segments, n, ids, wanted))
  {
    if n > 0 {
      PickIds(segments, n - 1, ids, wanted);
      var p := Pick(segments, n - 1, ids, wanted);
      forall i | 0 <= i < |p|
        ensures p[i].id != segments[n - 1].id
      {
        PickIn(segments, n - 1, ids, wanted, p[i]);
      }
    }
  }

  /** What a live segment reads as; a dead one reads as nothing, whatever its shapes. */
  function RowsOf(schema: Schema, s: Segment): seq<Row>
    requires IsLive(s) ==> SegmentOk(schema, s)
  {
    if IsLive(s) then ReadTo(s, |s.rows|, |schema|) else []
  }

  /** What the chosen segments read as, counted. */
  function PickRows(schema: Schema, segments: seq<Segment>, n: nat, ids: set<nat>, wanted: bool): multiset<Row>
    requires n <= |segments| && forall i :: 0 <= i < n && IsLive(segments[i]) ==> SegmentOk(schema, segments[i])
  {
    if n == 0 then multiset{}
    else
      var s := segments[n - 1];
      assert IsLive(s) ==> SegmentOk(schema, s);
      PickRows(schema, segments, n - 1, ids, wanted)
        + (if (s.id in ids) == wanted then multiset(RowsOf(schema, s)) else multiset{})
  }

  ghost predicate Takes(t: Table, step: Step, u: Table)
    requires Ok(t)
  {
    match step
    case Append(rows) =>
      RowsFit(rows, Shapes(t.schema)) && u == t.(memtable := t.memtable + rows)
    case Kill(i, positions, taken) =>
      && i < |t.segments|
      && taken == KilledRows(t.schema, t.segments[i], positions)
      && u == t.(segments := t.segments[i := t.segments[i].(dead := t.segments[i].dead + positions)])
    case Flush(groups) =>
      && Fresh(groups, t.schema, t.nextId)
      && multiset(NewRows(groups, |groups|)) == multiset(t.memtable)
      && u == t.(segments := t.segments + groups, nextId := t.nextId + |groups|, memtable := [])
    case Compact(ids, groups) =>
      && Fresh(groups, t.schema, t.nextId)
      && multiset(NewRows(groups, |groups|)) == PickRows(t.schema, t.segments, |t.segments|, ids, true)
      && u == t.(segments := Pick(t.segments, |t.segments|, ids, false) + groups, nextId := t.nextId + |groups|)
    case Add(field) =>
      t.memtable == [] && AddColumn(t.schema, field).Done? && u == t.(schema := AddColumn(t.schema, field).schema)
    case Rename(from, to) =>
      t.memtable == [] && RenameColumn(t.schema, from, to).Done? && u == t.(schema := RenameColumn(t.schema, from, to).schema)
    case Rewrite(after, cast, groups) =>
      && t.memtable == [] && DistinctNames(after) && after != [] && Fresh(groups, after, t.nextId)
      && u == Rewritten(t, after, groups)
      && RowsFit(Content(t), Shapes(t.schema))
      && var rows := Converted(cast, t.schema, after, Content(t));
         rows.Some? && multiset(NewRows(groups, |groups|)) == multiset(rows.value)
  }

  lemma GrownIds(kept: seq<Segment>, groups: seq<Segment>, nextId: nat)
    requires DistinctIds(kept) && forall i :: 0 <= i < |kept| ==> kept[i].id < nextId
    requires forall i :: 0 <= i < |groups| ==> groups[i].id == nextId + i
    ensures DistinctIds(kept + groups)
  {
  }

  lemma {:induction false} GrownOk(t: Table, kept: seq<Segment>, groups: seq<Segment>, memtable: seq<Row>)
    requires Ok(t) && Fresh(groups, t.schema, t.nextId) && RowsFit(memtable, Shapes(t.schema))
    requires (forall s :: s in kept ==> s in t.segments) && DistinctIds(kept)
    ensures Ok(Table(t.schema, kept + groups, t.nextId + |groups|, memtable))
  {
    FreshAreOk(t.schema, groups, t.nextId);
    var all := kept + groups;
    forall i | 0 <= i < |all|
      ensures all[i].id < t.nextId + |groups| && (IsLive(all[i]) ==> SegmentOk(t.schema, all[i]))
    {
      if i < |kept| {
        assert all[i] == kept[i] && kept[i] in t.segments;
      } else {
        assert all[i] == groups[i - |kept|];
      }
    }
    assert forall i :: 0 <= i < |kept| ==> kept[i] in t.segments;
    GrownIds(kept, groups, t.nextId);
  }

  /** Every step keeps every live segment readable under the schema in force. */
  lemma {:induction false} StepKeepsOk(t: Table, step: Step, u: Table)
    requires Ok(t) && Takes(t, step, u)
    ensures Ok(u)
  {
    match step
    case Append(_) =>
    case Kill(i, positions, taken) => KillKeepsOk(t, i, positions, taken, u);
    case Flush(groups) => GrownOk(t, t.segments, groups, []);
    case Compact(ids, groups) =>
      forall s | s in Pick(t.segments, |t.segments|, ids, false)
        ensures s in t.segments
      {
        PickIn(t.segments, |t.segments|, ids, false, s);
        assert t.segments[..|t.segments|] == t.segments;
      }
      PickIds(t.segments, |t.segments|, ids, false);
      GrownOk(t, Pick(t.segments, |t.segments|, ids, false), groups, t.memtable);
    case Add(field) => AddColumnKeeps(t, field);
    case Rename(from, to) => RenameColumnKeeps(t, from, to);
    case Rewrite(after, _, groups) => RewrittenReads(t, after, groups);
  }

  lemma {:induction false} KillKeepsOk(t: Table, k: nat, positions: set<nat>, taken: multiset<Row>, u: Table)
    requires Ok(t) && Takes(t, Kill(k, positions, taken), u)
    ensures Ok(u)
  {
    forall i | 0 <= i < |u.segments|
      ensures u.segments[i].id < u.nextId && (IsLive(u.segments[i]) ==> SegmentOk(u.schema, u.segments[i]))
    {
      if IsLive(u.segments[i]) {
        var p :| 0 <= p < |u.segments[i].rows| && p !in u.segments[i].dead;
        assert p !in t.segments[i].dead;
        assert IsLive(t.segments[i]);
      }
    }
  }

  ghost predicate Run(tables: seq<Table>, steps: seq<Step>) {
    && |tables| == |steps| + 1
    && Ok(tables[0]) && tables[0].segments == [] && tables[0].memtable == []
    && forall i :: 0 <= i < |steps| ==> Ok(tables[i]) ==> Takes(tables[i], steps[i], tables[i + 1])
  }

  lemma {:induction false} RunOk(tables: seq<Table>, steps: seq<Step>, i: nat)
    requires Run(tables, steps) && i < |tables|
    ensures Ok(tables[i])
  {
    if i > 0 {
      RunOk(tables, steps, i - 1);
      StepKeepsOk(tables[i - 1], steps[i - 1], tables[i]);
    }
  }

  /**
   * After any history of writes, flushes, compactions and schema changes, the
   * reader accepts every segment that has a row left: its shapes are a prefix
   * of the schema's.
   */
  lemma {:induction false} LiveSegmentsAreAccepted(hash: seq<Shape> -> nat, tables: seq<Table>, steps: seq<Step>, i: nat, k: nat)
    requires Run(tables, steps) && i < |tables| && k < |tables[i].segments| && IsLive(tables[i].segments[k])
    ensures var s := tables[i].segments[k];
            s.shapes <= Shapes(tables[i].schema) && LayoutOf(hash, tables[i].schema).Accepts(|s.shapes|, hash(s.shapes))
  {
    RunOk(tables, steps, i);
    assert SegmentOk(tables[i].schema, tables[i].segments[k]);
    PrefixIsAccepted(hash, tables[i].schema, tables[i].segments[k].shapes);
  }

  // ---- Rows through the steps --------------------------------------------------------------------

  lemma {:induction false} RowsSame(schema: Schema, a: seq<Segment>, b: seq<Segment>, n: nat)
    requires n <= |a| && n <= |b| && forall i :: 0 <= i < n ==> a[i] == b[i]
    requires forall i :: 0 <= i < n && IsLive(a[i]) ==> SegmentOk(schema, a[i])
    ensures SegmentRows(schema, a, n) == SegmentRows(schema, b, n)
  {
    if n > 0 {
      RowsSame(schema, a, b, n - 1);
    }
  }

  lemma {:induction false} RowsConcat(schema: Schema, a: seq<Segment>, b: seq<Segment>, n: nat)
    requires n <= |b|
    requires forall i :: 0 <= i < |a| && IsLive(a[i]) ==> SegmentOk(schema, a[i])
    requires forall i :: 0 <= i < |b| && IsLive(b[i]) ==> SegmentOk(schema, b[i])
    ensures forall i :: 0 <= i < |a| + n && IsLive((a + b)[i]) ==> SegmentOk(schema, (a + b)[i])
    ensures SegmentRows(schema, a + b, |a| + n) == SegmentRows(schema, a, |a|) + SegmentRows(schema, b, n)
  {
    if n == 0 {
      RowsSame(schema, a, a + b, |a|);
      NothingMore(SegmentRows(schema, a, |a|));
    } else {
      RowsConcat(schema, a, b, n - 1);
      var s := b[n - 1];
      assert (a + b)[|a| + n - 1] == s;
      Associates(SegmentRows(schema, a, |a|), SegmentRows(schema, b, n - 1), RowsOf(schema, s));
    }
  }

  /** Segments followed by freshly written ones, and a memtable: counts add up. */
  lemma {:induction false} GrownCounts(schema: Schema, kept: seq<Segment>, groups: seq<Segment>, firstId: nat, memtable: seq<Row>)
    requires forall i :: 0 <= i < |kept| && IsLive(kept[i]) ==> SegmentOk(schema, kept[i])
    requires Fresh(groups, schema, firstId)
    ensures var all := kept + groups;
            && (forall i :: 0 <= i < |all| && IsLive(all[i]) ==> SegmentOk(schema, all[i]))
            && multiset(SegmentRows(schema, all, |all|) + memtable)
               == multiset(SegmentRows(schema, kept, |kept|)) + multiset(NewRows(groups, |groups|)) + multiset(memtable)
  {
    FreshAreOk(schema, groups, firstId);
    FreshRows(schema, groups);
    RowsJoin(schema, kept, groups, kept + groups);
    ThreeCounts(SegmentRows(schema, kept, |kept|), NewRows(groups, |groups|), memtable);
  }

  lemma {:induction false} RowsJoin(schema: Schema, a: seq<Segment>, b: seq<Segment>, all: seq<Segment>)
    requires all == a + b
    requires forall i :: 0 <= i < |a| && IsLive(a[i]) ==> SegmentOk(schema, a[i])
    requires forall i :: 0 <= i < |b| && IsLive(b[i]) ==> SegmentOk(schema, b[i])
    ensures forall i :: 0 <= i < |all| && IsLive(all[i]) ==> SegmentOk(schema, all[i])
    ensures SegmentRows(schema, all, |all|) == SegmentRows(schema, a, |a|) + SegmentRows(schema, b, |b|)
  {
    RowsConcat(schema, a, b, |b|);
    assert |all| == |a| + |b|;
  }

  lemma ThreeCounts(a: seq<Row>, b: seq<Row>, c: seq<Row>)
    ensures multiset(a + b + c) == multiset(a) + multiset(b) + multiset(c)
  {
  }

  lemma {:induction false} FreshRows(schema: Schema, groups: seq<Segment>)
    requires forall i :: 0 <= i < |groups| ==>
               SegmentOk(schema, groups[i]) && IsLive(groups[i]) && |groups[i].shapes| == |schema| && groups[i].dead == {}
    ensures SegmentRows(schema, groups, |groups|) == NewRows(groups, |groups|)
  {
    MixedRows(schema, [], groups, |groups|);
    NothingBefore(groups);
  }

  lemma NothingBefore<T>(s: seq<T>)
    ensures [] + s == s
  {
  }

  /** Segments split into the chosen and the rest, rows and all. */
  lemma {:induction false} PickSplits(schema: Schema, segments: seq<Segment>, n: nat, ids: set<nat>)
    requires n <= |segments| && forall i :: 0 <= i < n && IsLive(segments[i]) ==> SegmentOk(schema, segments[i])
    ensures multiset(SegmentRows(schema, segments, n))
         == PickRows(schema, segments, n, ids, false) + PickRows(schema, segments, n, ids, true)
  {
    if n > 0 {
      PickSplits(schema, segments, n - 1, ids);
      var s := segments[n - 1];
      AppendCounts(SegmentRows(schema, segments, n - 1), RowsOf(schema, s));
      EitherSide(PickRows(schema, segments, n - 1, ids, false), PickRows(schema, segments, n - 1, ids, true),
                 multiset(RowsOf(schema, s)), s.id in ids);
    }
  }

  lemma AppendCounts(a: seq<Row>, b: seq<Row>)
    ensures multiset(a + b) == multiset(a) + multiset(b)
  {
  }

  lemma EitherSide(a: multiset<Row>, b: multiset<Row>, c: multiset<Row>, right: bool)
    ensures (a + b) + c == (a + (if right then multiset{} else c)) + (b + (if right then c else multiset{}))
  {
  }

  lemma {:induction false} PickedRows(schema: Schema, segments: seq<Segment>, n: nat, ids: set<nat>, wanted: bool)
    requires n <= |segments| && forall i :: 0 <= i < n && IsLive(segments[i]) ==> SegmentOk(schema, segments[i])
    ensures var p := Pick(segments, n, ids, wanted);
            && (forall i :: 0 <= i < |p| && IsLive(p[i]) ==> SegmentOk(schema, p[i]))
            && multiset(SegmentRows(schema, p, |p|)) == PickRows(schema, segments, n, ids, wanted)
  {
    if n > 0 {
      PickedRows(schema, segments, n - 1, ids, wanted);
      var s := segments[n - 1];
      if (s.id in ids) == wanted {
        PickOneMore(schema, Pick(segments, n - 1, ids, wanted), s, Pick(segments, n, ids, wanted));
      } else {
        NothingMore(Pick(segments, n - 1, ids, wanted));
      }
    }
  }

  lemma {:induction false} PickOneMore(schema: Schema, p: seq<Segment>, s: Segment, q: seq<Segment>)
    requires q == p + [s]
    requires forall i :: 0 <= i < |p| && IsLive(p[i]) ==> SegmentOk(schema, p[i])
    requires IsLive(s) ==> SegmentOk(schema, s)
    ensures forall i :: 0 <= i < |q| && IsLive(q[i]) ==> SegmentOk(schema, q[i])
    ensures multiset(SegmentRows(schema, q, |q|)) == multiset(SegmentRows(schema, p, |p|)) + multiset(RowsOf(schema, s))
  {
    assert |q| == |p| + 1 && q[|p|] == s;
    forall i | 0 <= i < |q| && IsLive(q[i])
      ensures SegmentOk(schema, q[i])
    {
      assert i < |p| ==> q[i] == p[i];
    }
    RowsSame(schema, p, q, |p|);
    LastRows(schema, q);
    AppendCounts(SegmentRows(schema, p, |p|), RowsOf(schema, s));
  }

  lemma {:induction false} LastRows(schema: Schema, q: seq<Segment>)
    requires q != [] && forall i :: 0 <= i < |q| && IsLive(q[i]) ==> SegmentOk(schema, q[i])
    ensures SegmentRows(schema, q, |q|) == SegmentRows(schema, q, |q| - 1) + RowsOf(schema, q[|q| - 1])
  {
  }

  // ---- What a deletion takes -----------------------------------------------------------------------

  /** Of the first `n` rows, those at `positions` that were still there. */
  function KilledTo(s: Segment, n: nat, positions: set<nat>, width: nat): seq<Row>
    requires n <= |s.rows| && RowsFit(s.rows, s.shapes) && |s.shapes| <= width
  {
    if n == 0 then []
    else
      KilledTo(s, n - 1, positions, width)
        + (if n - 1 in positions && n - 1 !in s.dead then [Widened(s.rows[n - 1], width)] else [])
  }

  function KilledRows(schema: Schema, s: Segment, positions: set<nat>): multiset<Row>
    requires IsLive(s) ==> SegmentOk(schema, s)
  {
    if IsLive(s) then multiset(KilledTo(s, |s.rows|, positions, |schema|)) else multiset{}
  }

  lemma {:induction false} KillSplits(s: Segment, s2: Segment, n: nat, positions: set<nat>, width: nat)
    requires n <= |s.rows| && RowsFit(s.rows, s.shapes) && |s.shapes| <= width
    requires s2.rows == s.rows && s2.shapes == s.shapes && s2.dead == s.dead + positions
    ensures multiset(ReadTo(s, n, width)) == multiset(ReadTo(s2, n, width)) + multiset(KilledTo(s, n, positions, width))
  {
    if n > 0 {
      KillSplits(s, s2, n - 1, positions, width);
      var x := [Widened(s.rows[n - 1], width)];
      var before, after := ReadTo(s, n - 1, width), ReadTo(s2, n - 1, width);
      var taken := KilledTo(s, n - 1, positions, width);
      if n - 1 in s.dead {
        AppendNothing(before, after, taken);
      } else if n - 1 in positions {
        AppendTaken(before, after, taken, x);
      } else {
        AppendKept(before, after, taken, x);
      }
    }
  }

  lemma AppendNothing(before: seq<Row>, after: seq<Row>, taken: seq<Row>)
    requires multiset(before) == multiset(after) + multiset(taken)
    ensures multiset(before + []) == multiset(after + []) + multiset(taken + [])
  {
    assert before + [] == before && after + [] == after && taken + [] == taken;
  }

  lemma AppendTaken(before: seq<Row>, after: seq<Row>, taken: seq<Row>, x: seq<Row>)
    requires multiset(before) == multiset(after) + multiset(taken)
    ensures multiset(before + x) == multiset(after + []) + multiset(taken + x)
  {
    assert after + [] == after;
  }

  lemma AppendKept(before: seq<Row>, after: seq<Row>, taken: seq<Row>, x: seq<Row>)
    requires multiset(before) == multiset(after) + multiset(taken)
    ensures multiset(before + x) == multiset(after + x) + multiset(taken + [])
  {
    assert taken + [] == taken;
  }

  lemma {:induction false} DeadReadsNothing(s: Segment, n: nat, width: nat)
    requires n <= |s.rows| && RowsFit(s.rows, s.shapes) && |s.shapes| <= width
    requires forall i :: 0 <= i < n ==> i in s.dead
    ensures ReadTo(s, n, width) == []
  {
    if n > 0 {
      DeadReadsNothing(s, n - 1, width);
    }
  }

  lemma {:induction false} KillOne(schema: Schema, s: Segment, positions: set<nat>, s2: Segment)
    requires s2 == s.(dead := s.dead + positions) && (IsLive(s) ==> SegmentOk(schema, s))
    ensures IsLive(s2) ==> IsLive(s) && SegmentOk(schema, s2)
    ensures multiset(RowsOf(schema, s)) == multiset(RowsOf(schema, s2)) + KilledRows(schema, s, positions)
  {
    if IsLive(s2) {
      var p :| 0 <= p < |s2.rows| && p !in s2.dead;
      assert p < |s.rows| && p !in s.dead;
    }
    if IsLive(s) {
      KillSplits(s, s2, |s.rows|, positions, |schema|);
      if !IsLive(s2) {
        DeadReadsNothing(s2, |s2.rows|, |schema|);
      }
    }
  }

  lemma {:induction false} KillRows(schema: Schema, a: seq<Segment>, k: nat, positions: set<nat>, b: seq<Segment>, n: nat)
    requires k < n <= |a| == |b| && b[k] == a[k].(dead := a[k].dead + positions)
    requires forall i :: 0 <= i < |a| && i != k ==> b[i] == a[i]
    requires forall i :: 0 <= i < |a| && IsLive(a[i]) ==> SegmentOk(schema, a[i])
    requires forall i :: 0 <= i < |b| && IsLive(b[i]) ==> SegmentOk(schema, b[i])
    ensures multiset(SegmentRows(schema, a, n)) == multiset(SegmentRows(schema, b, n)) + KilledRows(schema, a[k], positions)
  {
    var x, y := multiset(RowsOf(schema, a[n - 1])), multiset(RowsOf(schema, b[n - 1]));
    var before, after := multiset(SegmentRows(schema, a, n - 1)), multiset(SegmentRows(schema, b, n - 1));
    LastCounts(schema, a, n);
    LastCounts(schema, b, n);
    if k == n - 1 {
      RowsSame(schema, a, b, k);
      KillOne(schema, a[k], positions, b[k]);
      TakenLast(before, x, y, KilledRows(schema, a[k], positions));
    } else {
      KillRows(schema, a, k, positions, b, n - 1);
      TakenBefore(before, after, x, KilledRows(schema, a[k], positions));
    }
  }

  lemma TakenLast(rows: multiset<Row>, x: multiset<Row>, y: multiset<Row>, taken: multiset<Row>)
    requires x == y + taken
    ensures rows + x == (rows + y) + taken
  {
  }

  lemma TakenBefore(before: multiset<Row>, after: multiset<Row>, x: multiset<Row>, taken: multiset<Row>)
    requires before == after + taken
    ensures before + x == (after + x) + taken
  {
  }

  lemma {:induction false} LastCounts(schema: Schema, q: seq<Segment>, n: nat)
    requires 0 < n <= |q| && forall i :: 0 <= i < |q| && IsLive(q[i]) ==> SegmentOk(schema, q[i])
    ensures multiset(SegmentRows(schema, q, n)) == multiset(SegmentRows(schema, q, n - 1)) + multiset(RowsOf(schema, q[n - 1]))
  {
    AppendCounts(SegmentRows(schema, q, n - 1), RowsOf(schema, q[n - 1]));
  }

  /** A deletion takes exactly the live rows it names. Flushing and compacting change no row; adding and renaming change them as they say. */
  lemma {:induction false} StepRows(t: Table, step: Step, u: Table)
    requires Ok(t) && Takes(t, step, u) && Ok(u)
    ensures match step
            case Append(rows) => multiset(Content(u)) == multiset(Content(t)) + multiset(rows)
            case Flush(_) => multiset(Content(u)) == multiset(Content(t))
            case Compact(_, _) => multiset(Content(u)) == multiset(Content(t))
            case Add(_) => Content(u) == WithNull(Content(t))
            case Rename(_, _) => Content(u) == Content(t)
            case Rewrite(after, cast, _) =>
              RowsFit(Content(t), Shapes(t.schema))
              && var rows := Converted(cast, t.schema, after, Content(t));
                 rows.Some? && multiset(Content(u)) == multiset(rows.value)
            case Kill(_, _, taken) => multiset(Content(t)) == multiset(Content(u)) + taken
  {
    match step
    case Append(rows) =>
      Associates(SegmentRows(t.schema, t.segments, |t.segments|), t.memtable, rows);
      AppendCounts(Content(t), rows);
    case Flush(groups) => FlushRows(t, groups, u);
    case Compact(ids, groups) => CompactRows(t, ids, groups, u);
    case Add(field) => AddColumnKeeps(t, field);
    case Rename(from, to) => RenameColumnKeeps(t, from, to);
    case Rewrite(after, _, groups) => RewrittenReads(t, after, groups);
    case Kill(i, positions, _) =>
      KillRows(t.schema, t.segments, i, positions, u.segments, |t.segments|);
      AppendCounts(SegmentRows(t.schema, t.segments, |t.segments|), t.memtable);
      AppendCounts(SegmentRows(u.schema, u.segments, |u.segments|), u.memtable);
  }

  lemma {:induction false} FlushRows(t: Table, groups: seq<Segment>, u: Table)
    requires Ok(t) && Takes(t, Flush(groups), u) && Ok(u)
    ensures multiset(Content(u)) == multiset(Content(t))
  {
    GrownCounts(t.schema, t.segments, groups, t.nextId, []);
    AppendCounts(SegmentRows(t.schema, t.segments, |t.segments|), t.memtable);
  }

  lemma {:induction false} CompactRows(t: Table, ids: set<nat>, groups: seq<Segment>, u: Table)
    requires Ok(t) && Takes(t, Compact(ids, groups), u) && Ok(u)
    ensures multiset(Content(u)) == multiset(Content(t))
  {
    PickSplits(t.schema, t.segments, |t.segments|, ids);
    PickedRows(t.schema, t.segments, |t.segments|, ids, false);
    GrownCounts(t.schema, Pick(t.segments, |t.segments|, ids, false), groups, t.nextId, t.memtable);
    AppendCounts(SegmentRows(t.schema, t.segments, |t.segments|), t.memtable);
  }

  // ---- What a history's rows are -------------------------------------------------------------------

  /** A table as its history alone says it is: the schema in force and the rows, wherever they are stored. */
  datatype Ideal = Ideal(schema: Schema, rows: seq<Row>)

  /** The rows without those taken. */
  function Without(rows: seq<Row>, taken: multiset<Row>): seq<Row> {
    if rows == [] then []
    else
      var last := rows[|rows| - 1];
      if last in taken then Without(rows[..|rows| - 1], taken - multiset{last})
      else Without(rows[..|rows| - 1], taken) + [last]
  }

  lemma {:induction false} WithoutCounts(rows: seq<Row>, taken: multiset<Row>)
    ensures multiset(Without(rows, taken)) == multiset(rows) - taken
  {
    if rows != [] {
      var before, last := rows[..|rows| - 1], rows[|rows| - 1];
      assert rows == before + [last];
      WithoutCounts(before, if last in taken then taken - multiset{last} else taken);
    }
  }

  /** What one request makes of it. Flushing and compacting are no requests. */
  function Served(t: Ideal, step: Step): Ideal {
    match step
    case Append(rows) => t.(rows := t.rows + rows)
    case Kill(_, _, taken) => t.(rows := Without(t.rows, taken))
    case Flush(_) => t
    case Compact(_, _) => t
    case Add(field) =>
      if AddColumn(t.schema, field).Done? then Ideal(t.schema + [field], WithNull(t.rows)) else t
    case Rename(from, to) =>
      if RenameColumn(t.schema, from, to).Done? then t.(schema := RenameColumn(t.schema, from, to).schema) else t
    case Rewrite(after, cast, _) =>
      if RowsFit(t.rows, Shapes(t.schema)) && Converted(cast, t.schema, after, t.rows).Some?
      then Ideal(after, Converted(cast, t.schema, after, t.rows).value)
      else t
  }

  function History(first: Schema, steps: seq<Step>, n: nat): Ideal
    requires n <= |steps|
  {
    if n == 0 then Ideal(first, []) else Served(History(first, steps, n - 1), steps[n - 1])
  }

  lemma {:induction false} TakenOut<T>(s: seq<T>, k: nat)
    requires k < |s|
    ensures multiset(s) == multiset(s[..k] + s[k + 1..]) + multiset{s[k]}
  {
    assert s == s[..k] + [s[k]] + s[k + 1..];
  }

  /** Reordering rows reorders what a function makes of them. */
  lemma {:induction false} MappedCounts(f: Row -> Row, a: seq<Row>, b: seq<Row>, x: seq<Row>, y: seq<Row>)
    requires |x| == |a| && |y| == |b| && multiset(a) == multiset(b)
    requires forall i :: 0 <= i < |a| ==> x[i] == f(a[i])
    requires forall i :: 0 <= i < |b| ==> y[i] == f(b[i])
    ensures multiset(x) == multiset(y)
  {
    if a == [] {
      assert |multiset(b)| == 0;
    } else {
      var n := |a| - 1;
      assert a[n] in a && a[n] in multiset(a);
      var k :| 0 <= k < |b| && b[k] == a[n];
      var b2, y2 := b[..k] + b[k + 1..], y[..k] + y[k + 1..];
      TakenOut(b, k);
      TakenOut(y, k);
      SplitLast(a);
      SplitLast(x);
      OneFewer(multiset(a[..n]), multiset(b2), a[n]);
      MappedCounts(f, a[..n], b2, x[..n], y2);
    }
  }

  lemma OneFewer(a: multiset<Row>, b: multiset<Row>, x: Row)
    requires a + multiset{x} == b + multiset{x}
    ensures a == b
  {
    assert a == (a + multiset{x}) - multiset{x};
    assert b == (b + multiset{x}) - multiset{x};
  }

  lemma SplitLast<T>(s: seq<T>)
    requires s != []
    ensures multiset(s) == multiset(s[..|s| - 1]) + multiset{s[|s| - 1]}
  {
    assert s == s[..|s| - 1] + [s[|s| - 1]];
  }

  lemma {:induction false} ConvertedAt(cast: Casts, before: Schema, after: Schema, rows: seq<Row>, n: nat)
    requires n <= |rows| && RowsFit(rows, Shapes(before))
    ensures var r := ConvertRows(cast, before, after, rows, n);
            && (r.Some? <==> forall i :: 0 <= i < n ==> ConvertRow(cast, before, after, rows[i]).Some?)
            && (r.Some? ==> forall i :: 0 <= i < n ==> Some(r.value[i]) == ConvertRow(cast, before, after, rows[i]))
  {
    if n > 0 {
      ConvertedAt(cast, before, after, rows, n - 1);
    }
  }

  lemma {:induction false} ConvertedCounts(cast: Casts, before: Schema, after: Schema, a: seq<Row>, b: seq<Row>)
    requires multiset(a) == multiset(b) && RowsFit(a, Shapes(before))
    ensures RowsFit(b, Shapes(before))
    ensures var x, y := Converted(cast, before, after, a), Converted(cast, before, after, b);
            (x.Some? ==> y.Some? && multiset(x.value) == multiset(y.value))
  {
    forall j | 0 <= j < |b|
      ensures b[j] in a
    {
      assert b[j] in multiset(a);
    }
    ConvertedAt(cast, before, after, a, |a|);
    ConvertedAt(cast, before, after, b, |b|);
    var x, y := Converted(cast, before, after, a), Converted(cast, before, after, b);
    if x.Some? {
      forall j | 0 <= j < |b|
        ensures ConvertRow(cast, before, after, b[j]).Some?
      {
        var i :| 0 <= i < |a| && a[i] == b[j];
      }
      var f := (row: Row) =>
        if |row| == |before| && ConvertRow(cast, before, after, row).Some? then ConvertRow(cast, before, after, row).value else row;
      MappedCounts(f, a, b, x.value, y.value);
    }
  }

  lemma {:induction false} WithNullCounts(a: seq<Row>, b: seq<Row>)
    requires multiset(a) == multiset(b)
    ensures multiset(WithNull(a)) == multiset(WithNull(b))
  {
    MappedCounts((row: Row) => row + [Null], a, b, WithNull(a), WithNull(b));
  }

  lemma {:induction false} StepServes(t: Table, step: Step, u: Table, ideal: Ideal)
    requires Ok(t) && Takes(t, step, u) && Ok(u)
    requires ideal.schema == t.schema && multiset(ideal.rows) == multiset(Content(t))
    ensures Served(ideal, step).schema == u.schema && multiset(Served(ideal, step).rows) == multiset(Content(u))
  {
    StepRows(t, step, u);
    match step
    case Append(rows) =>
    case Kill(_, _, taken) => WithoutCounts(ideal.rows, taken);
    case Flush(_) =>
    case Compact(_, _) =>
    case Add(_) => WithNullCounts(ideal.rows, Content(t));
    case Rename(_, _) =>
    case Rewrite(after, cast, _) => ConvertedCounts(cast, t.schema, after, Content(t), ideal.rows);
  }

  /**
   * Reading a table gives the rows its history says it has, after any sequence
   * of inserts, deletions, flushes, compactions, columns added, renamed, dropped
   * and cast, under the schema the history says is in force.
   */
  lemma {:induction false} ReadsItsHistory(tables: seq<Table>, steps: seq<Step>, i: nat)
    requires Run(tables, steps) && i < |tables|
    ensures Ok(tables[i])
    ensures var h := History(tables[0].schema, steps, i);
            tables[i].schema == h.schema && multiset(Content(tables[i])) == multiset(h.rows)
  {
    RunOk(tables, steps, i);
    if i == 0 {
      assert SegmentRows(tables[0].schema, [], 0) == [];
    } else {
      ReadsItsHistory(tables, steps, i - 1);
      StepServes(tables[i - 1], steps[i - 1], tables[i], History(tables[0].schema, steps, i - 1));
    }
  }

  // ---- Segments with nothing left ------------------------------------------------------------------

  /** Whether every entry could be opened, as a rewrite of the whole table by id would. */
  predicate AllReadable(hash: seq<Shape> -> nat, t: Table) {
    forall i :: 0 <= i < |t.segments| ==> LayoutOf(hash, t.schema).Accepts(|t.segments[i].shapes|, hash(t.segments[i].shapes))
  }

  /**
   * A rewriting change passes over entries with nothing left to read, and they
   * stay behind under their old shapes. Every entry is still readable if and
   * only if each of those happens to fit the new schema.
   */
  lemma {:induction false} ReadableAfterRewriteIff(hash: seq<Shape> -> nat, t: Table, after: Schema, groups: seq<Segment>)
    requires Ok(t) && Fresh(groups, after, t.nextId) && DistinctNames(after) && after != []
    requires forall a, b :: hash(a) == hash(b) ==> a == b
    ensures AllReadable(hash, Rewritten(t, after, groups)) <==>
              forall i :: 0 <= i < |t.segments| && !IsLive(t.segments[i]) ==> t.segments[i].shapes <= Shapes(after)
  {
    var u, dead := Rewritten(t, after, groups), DeadTo(t.segments, |t.segments|);
    DeadAreDead(t.segments, |t.segments|, t.nextId);
    assert t.segments[..|t.segments|] == t.segments;
    forall i | 0 <= i < |u.segments|
      ensures LayoutOf(hash, after).Accepts(|u.segments[i].shapes|, hash(u.segments[i].shapes))
         <==> u.segments[i].shapes <= Shapes(after)
    {
      AcceptedIffPrefix(hash, after, u.segments[i].shapes);
    }
    forall i | 0 <= i < |t.segments| && !IsLive(t.segments[i])
      ensures exists k :: 0 <= k < |dead| && u.segments[k] == t.segments[i]
    {
      assert t.segments[i] in dead;
      var k :| 0 <= k < |dead| && dead[k] == t.segments[i];
      assert u.segments[k] == dead[k];
    }
    forall k | 0 <= k < |u.segments|
      ensures u.segments[k].shapes <= Shapes(after) ||
              exists i :: 0 <= i < |t.segments| && !IsLive(t.segments[i]) && t.segments[i] == u.segments[k]
    {
      if k < |dead| {
        assert u.segments[k] == dead[k] && dead[k] in dead;
      } else {
        assert u.segments[k] == groups[k - |dead|];
      }
    }
  }

  /** Dropping a column of a table whose one segment is fully deleted leaves an entry nothing can open. */
  lemma {:induction false} DropLeavesUnreadable(hash: seq<Shape> -> nat)
    requires forall a, b :: hash(a) == hash(b) ==> a == b
    ensures var key, note := Field("key", Shape(0, false)), Field("note", Shape(1, true));
            var s := Segment(0, [key.shape, note.shape], [[Of(1), Of(2)]], {0});
            var t := Table([key, note], [s], 1, []);
            && Ok(t) && DropColumn(t.schema, "note") == Done([key])
            && Content(t) == [] && AllReadable(hash, t) && !AllReadable(hash, Rewritten(t, [key], []))
  {
    var key, note := Field("key", Shape(0, false)), Field("note", Shape(1, true));
    var s := Segment(0, [key.shape, note.shape], [[Of(1), Of(2)]], {0});
    var t := Table([key, note], [s], 1, []);
    assert !IsLive(s);
    assert SegmentRows(t.schema, t.segments, 0) == [];
    assert Shapes(t.schema) == s.shapes;
    AcceptedIffPrefix(hash, t.schema, s.shapes);
    NameAt(t.schema, 1);
    assert t.schema[..1] + t.schema[2..] == [key];
    ReadableAfterRewriteIff(hash, t, [key], []);
    assert !(t.segments[0].shapes <= Shapes([key]));
  }
}
