/** Schema changes whose sources were pinned before the writer was locked. */
module SchemaRaces {
  import opened Layout
  import opened Sequences
  import opened Evolve

  /** The first `n` pinned segments as the lock finds them: gone, or with a vector that may have grown. */
  function Lasting(segments: seq<Segment>, fate: seq<Option<set<nat>>>, n: nat): seq<Segment>
    requires n <= |segments| && |fate| == |segments|
  {
    if n == 0 then []
    else Lasting(segments, fate, n - 1) + (if fate[n - 1].None? then [] else [segments[n - 1].(dead := fate[n - 1].value)])
  }

  /** Between pin and lock others may have deleted rows, dropped or compacted segments, and flushed new ones. */
  ghost predicate Meanwhile(pin: Table, fate: seq<Option<set<nat>>>, added: seq<Segment>, t: Table) {
    && |fate| == |pin.segments|
    && (forall k :: 0 <= k < |fate| && fate[k].Some? ==> pin.segments[k].dead <= fate[k].value)
    && (forall k :: 0 <= k < |added| ==> added[k].id >= pin.nextId && added[k].shapes == Shapes(pin.schema))
    && t.schema == pin.schema && t.segments == Lasting(pin.segments, fate, |fate|) + added
  }

  /** No row of the segment was deleted meanwhile. */
  predicate SameLive(s: Segment, dead: set<nat>) {
    forall p :: 0 <= p < |s.rows| ==> (p in s.dead <==> p in dead)
  }

  /** Of the first `n` segments, every one with a row left is there still and has lost no row. */
  predicate Spared(segments: seq<Segment>, fate: seq<Option<set<nat>>>, n: nat)
    requires n <= |segments| && |fate| == |segments|
  {
    forall k :: 0 <= k < n && IsLive(segments[k]) ==> fate[k].Some? && SameLive(segments[k], fate[k].value)
  }

  predicate NothingLanded(segments: seq<Segment>, fate: seq<Option<set<nat>>>, added: seq<Segment>)
    requires |fate| == |segments|
  {
    Spared(segments, fate, |segments|) && forall k :: 0 <= k < |added| ==> !IsLive(added[k])
  }

  // ---- What is left to read ----------------------------------------------------------------

  lemma {:induction false} ReadSame(a: Segment, b: Segment, n: nat, width: nat)
    requires n <= |a.rows| && RowsFit(a.rows, a.shapes) && |a.shapes| <= width
    requires b.rows == a.rows && b.shapes == a.shapes && a.dead <= b.dead
    ensures |ReadTo(b, n, width)| <= |ReadTo(a, n, width)|
    ensures |ReadTo(b, n, width)| == |ReadTo(a, n, width)| <==> forall p :: 0 <= p < n ==> (p in a.dead <==> p in b.dead)
    ensures |ReadTo(b, n, width)| == |ReadTo(a, n, width)| ==> ReadTo(b, n, width) == ReadTo(a, n, width)
  {
    if n > 0 {
      ReadSame(a, b, n - 1, width);
    }
  }

  lemma {:induction false} ReadCount(s: Segment, n: nat, width: nat)
    requires n <= |s.rows| && RowsFit(s.rows, s.shapes) && |s.shapes| <= width
    ensures |ReadTo(s, n, width)| > 0 <==> exists p :: 0 <= p < n && p !in s.dead
  {
    if n > 0 {
      ReadCount(s, n - 1, width);
      if n - 1 !in s.dead {
        assert 0 <= n - 1 < n;
      }
    }
  }

  /** What one segment reads as; one with nothing left is not opened. */
  function RowsOf(schema: Schema, s: Segment): seq<Row>
    requires IsLive(s) ==> SegmentOk(schema, s)
  {
    if IsLive(s) then ReadTo(s, |s.rows|, |schema|) else []
  }

  /** A vector that grew leaves fewer rows, or the very same ones. */
  lemma {:induction false} OneLasts(schema: Schema, a: Segment, b: Segment)
    requires IsLive(a) ==> SegmentOk(schema, a)
    requires b.rows == a.rows && b.shapes == a.shapes && a.dead <= b.dead
    ensures IsLive(b) ==> IsLive(a) && SegmentOk(schema, b)
    ensures |RowsOf(schema, b)| <= |RowsOf(schema, a)|
    ensures |RowsOf(schema, b)| == |RowsOf(schema, a)| <==> !IsLive(a) || SameLive(a, b.dead)
    ensures |RowsOf(schema, b)| == |RowsOf(schema, a)| ==> RowsOf(schema, b) == RowsOf(schema, a)
  {
    if IsLive(b) {
      var p :| 0 <= p < |b.rows| && p !in b.dead;
      assert p !in a.dead;
    }
    if IsLive(a) {
      ReadSame(a, b, |a.rows|, |schema|);
      ReadCount(a, |a.rows|, |schema|);
      ReadCount(b, |a.rows|, |schema|);
      assert !IsLive(b) ==> |ReadTo(b, |a.rows|, |schema|)| == 0;
    }
  }

  lemma {:induction false} LastRows(schema: Schema, segments: seq<Segment>, s: Segment)
    requires forall i :: 0 <= i < |segments| && IsLive(segments[i]) ==> SegmentOk(schema, segments[i])
    requires IsLive(s) ==> SegmentOk(schema, s)
    ensures var all := segments + [s];
            && (forall i :: 0 <= i < |all| && IsLive(all[i]) ==> SegmentOk(schema, all[i]))
            && SegmentRows(schema, all, |all|) == SegmentRows(schema, segments, |segments|) + RowsOf(schema, s)
  {
    var all := segments + [s];
    assert all[|all| - 1] == s;
    SameRows(schema, segments, all, |segments|);
  }

  lemma {:induction false} SameRows(schema: Schema, a: seq<Segment>, b: seq<Segment>, n: nat)
    requires n <= |a| && n <= |b| && forall i :: 0 <= i < n ==> a[i] == b[i]
    requires forall i :: 0 <= i < n && IsLive(a[i]) ==> SegmentOk(schema, a[i])
    ensures SegmentRows(schema, a, n) == SegmentRows(schema, b, n)
  {
    if n > 0 {
      SameRows(schema, a, b, n - 1);
    }
  }

  /** So the pinned segments read as they did exactly when they were spared. */
  lemma {:induction false} SparedIff(schema: Schema, segments: seq<Segment>, fate: seq<Option<set<nat>>>, n: nat)
    requires n <= |segments| && |fate| == |segments|
    requires forall k :: 0 <= k < |fate| && fate[k].Some? ==> segments[k].dead <= fate[k].value
    requires forall i :: 0 <= i < n && IsLive(segments[i]) ==> SegmentOk(schema, segments[i])
    ensures var left := Lasting(segments, fate, n);
            && (forall i :: 0 <= i < |left| && IsLive(left[i]) ==> SegmentOk(schema, left[i]))
            && var before, now := SegmentRows(schema, segments, n), SegmentRows(schema, left, |left|);
               && |now| <= |before|
               && (|now| == |before| <==> Spared(segments, fate, n))
               && (|now| == |before| ==> now == before)
  {
    if n > 0 {
      SparedIff(schema, segments, fate, n - 1);
      var left, s := Lasting(segments, fate, n - 1), segments[n - 1];
      if fate[n - 1].Some? {
        OneLasts(schema, s, s.(dead := fate[n - 1].value));
        LastRows(schema, left, s.(dead := fate[n - 1].value));
      } else {
        NothingMore(left);
        if IsLive(s) {
          ReadCount(s, |s.rows|, |schema|);
        }
      }
    }
  }

  // ---- What the change leaves beside what it wrote -------------------------------------------

  lemma {:induction false} OthersIn(segments: seq<Segment>, ids: set<nat>, n: nat, s: Segment)
    requires n <= |segments|
    ensures s in Others(segments, ids, n) <==> s in segments[..n] && s.id !in ids
  {
    if n > 0 {
      OthersIn(segments, ids, n - 1, s);
      assert segments[..n] == segments[..n - 1] + [segments[n - 1]];
    }
  }

  lemma {:induction false} LastingIn(segments: seq<Segment>, fate: seq<Option<set<nat>>>, n: nat, s: Segment)
    requires n <= |segments| && |fate| == |segments| && s in Lasting(segments, fate, n)
    ensures exists k :: 0 <= k < n && fate[k].Some? && s == segments[k].(dead := fate[k].value)
  {
    if s in Lasting(segments, fate, n - 1) {
      LastingIn(segments, fate, n - 1, s);
    } else {
      assert s == segments[n - 1].(dead := fate[n - 1].value);
    }
  }

  /** A pinned segment that is no source had nothing left, and has nothing left now. */
  lemma {:induction false} OthersHaveNothing(pin: Table, fate: seq<Option<set<nat>>>, added: seq<Segment>, t: Table, s: Segment)
    requires Meanwhile(pin, fate, added, t)
    requires s in Others(t.segments, LiveIds(pin.segments, |pin.segments|), |t.segments|)
    ensures s in added || !IsLive(s)
  {
    OthersIn(t.segments, LiveIds(pin.segments, |pin.segments|), |t.segments|, s);
    assert t.segments[..|t.segments|] == t.segments;
    if s !in added {
      LastingIn(pin.segments, fate, |fate|, s);
      var k :| 0 <= k < |fate| && fate[k].Some? && s == pin.segments[k].(dead := fate[k].value);
      LiveIdsAt(pin.segments, |pin.segments|, s.id);
      assert !IsLive(pin.segments[k]);
    }
  }

  lemma {:induction false} AddedStay(pin: Table, fate: seq<Option<set<nat>>>, added: seq<Segment>, t: Table, s: Segment)
    requires Ok(pin) && Meanwhile(pin, fate, added, t) && s in added
    ensures s in Others(t.segments, LiveIds(pin.segments, |pin.segments|), |t.segments|)
  {
    OthersIn(t.segments, LiveIds(pin.segments, |pin.segments|), |t.segments|, s);
    LiveIdsAt(pin.segments, |pin.segments|, s.id);
    assert t.segments[..|t.segments|] == t.segments;
  }

  lemma {:induction false} OthersIds(segments: seq<Segment>, ids: set<nat>, n: nat, nextId: nat)
    requires n <= |segments| && DistinctIds(segments) && forall i :: 0 <= i < |segments| ==> segments[i].id < nextId
    ensures var o := Others(segments, ids, n); DistinctIds(o) && forall i :: 0 <= i < |o| ==> o[i].id < nextId
  {
    if n > 0 {
      OthersIds(segments, ids, n - 1, nextId);
      var o := Others(segments, ids, n - 1);
      forall i | 0 <= i < |o|
        ensures o[i].id != segments[n - 1].id
      {
        OthersIn(segments, ids, n - 1, o[i]);
        assert o[i] in segments[..n - 1];
      }
    }
  }

  /** With nothing else left to read, the table reads as what was written. */
  lemma {:induction false} OverReads(pinned: seq<Segment>, t: Table, after: Schema, written: seq<Segment>)
    requires Ok(t) && DistinctNames(after) && after != [] && Fresh(written, after, t.nextId)
    requires forall s :: s in Others(t.segments, LiveIds(pinned, |pinned|), |t.segments|) ==> !IsLive(s)
    ensures Ok(Over(pinned, t, after, written))
    ensures Content(Over(pinned, t, after, written)) == NewRows(written, |written|)
  {
    var others, u := Others(t.segments, LiveIds(pinned, |pinned|), |t.segments|), Over(pinned, t, after, written);
    OthersIds(t.segments, LiveIds(pinned, |pinned|), |t.segments|, t.nextId);
    FreshAreOk(after, written, t.nextId);
    assert forall i :: 0 <= i < |others| ==> others[i] in others;
    MixedOk(t, after, others, written);
    MixedRows(after, others, written, |written|);
    NothingMore(SegmentRows(after, u.segments, |u.segments|));
  }

  // ---- Exactness -----------------------------------------------------------------------------

  /** The table reads under the new schema, as the conversion of the rows the lock found. */
  ghost predicate Faithful(cast: Casts, t: Table, u: Table)
    requires Ok(t) && RowsFit(Content(t), Shapes(t.schema))
  {
    Ok(u) && Converted(cast, t.schema, u.schema, Content(t)) == Some(Content(u))
  }

  lemma {:induction false} DeadTail(schema: Schema, a: seq<Segment>, b: seq<Segment>, n: nat)
    requires n <= |b| && forall i :: 0 <= i < |b| ==> !IsLive(b[i])
    requires forall i :: 0 <= i < |a| && IsLive(a[i]) ==> SegmentOk(schema, a[i])
    ensures forall i :: 0 <= i < |a| + n && IsLive((a + b)[i]) ==> SegmentOk(schema, (a + b)[i])
    ensures SegmentRows(schema, a + b, |a| + n) == SegmentRows(schema, a, |a|)
  {
    if n == 0 {
      SameRows(schema, a, a + b, |a|);
    } else {
      DeadTail(schema, a, b, n - 1);
      NothingMore(SegmentRows(schema, a, |a|));
    }
  }

  /** When nothing new is there to read, exactly a loss among the sources shows. */
  lemma {:induction false} SourcesDecide(cast: Casts, pin: Table, fate: seq<Option<set<nat>>>, added: seq<Segment>, t: Table, after: Schema,
                      written: seq<Segment>)
    requires Ok(pin) && Ok(t) && t.memtable == [] && Meanwhile(pin, fate, added, t)
    requires DistinctNames(after) && after != [] && Fresh(written, after, t.nextId)
    requires RowsFit(Stored(pin), Shapes(pin.schema)) && RowsFit(Content(t), Shapes(t.schema))
    requires Converted(cast, pin.schema, after, Stored(pin)) == Some(NewRows(written, |written|))
    requires forall k :: 0 <= k < |added| ==> !IsLive(added[k])
    ensures Faithful(cast, t, Over(pin.segments, t, after, written)) <==> Spared(pin.segments, fate, |fate|)
  {
    forall s | s in Others(t.segments, LiveIds(pin.segments, |pin.segments|), |t.segments|)
      ensures !IsLive(s)
    {
      OthersHaveNothing(pin, fate, added, t, s);
    }
    OverReads(pin.segments, t, after, written);
    SparedIff(pin.schema, pin.segments, fate, |fate|);
    DeadTail(t.schema, Lasting(pin.segments, fate, |fate|), added, |added|);
    NothingMore(Stored(t));
  }

  /**
   * When a change that retypes or removes a column is exact: the table it commits
   * reads under the new schema as the rows the lock found, converted, if and only
   * if no source lost a row or left the table after the pin, and no new segment
   * has a row to read.
   */
  lemma {:induction false} ChangeIsExactIff(cast: Casts, pin: Table, fate: seq<Option<set<nat>>>, added: seq<Segment>, t: Table, after: Schema,
                         written: seq<Segment>)
    requires Ok(pin) && Ok(t) && t.memtable == [] && Meanwhile(pin, fate, added, t)
    requires DistinctNames(after) && after != [] && !(Shapes(pin.schema) <= Shapes(after))
    requires RowsFit(Stored(pin), Shapes(pin.schema)) && Fresh(written, after, t.nextId)
    requires Converted(cast, pin.schema, after, Stored(pin)) == Some(NewRows(written, |written|))
    ensures RowsFit(Content(t), Shapes(t.schema))
    ensures Faithful(cast, t, Over(pin.segments, t, after, written)) <==> NothingLanded(pin.segments, fate, added)
  {
    ReadsFit(t.schema, t.segments, |t.segments|);
    NothingMore(Stored(t));
    if k :| 0 <= k < |added| && IsLive(added[k]) {
      AddedStay(pin, fate, added, t, added[k]);
      UnreadableUnder(after, Over(pin.segments, t, after, written), added[k]);
    } else {
      SourcesDecide(cast, pin, fate, added, t, after, written);
    }
  }

  lemma {:induction false} UnreadableUnder(after: Schema, u: Table, s: Segment)
    requires u.schema == after && s in u.segments && IsLive(s) && !(s.shapes <= Shapes(after))
    ensures !Ok(u)
  {
    var i :| 0 <= i < |u.segments| && u.segments[i] == s;
    assert IsLive(u.segments[i]) && !SegmentOk(after, u.segments[i]);
  }

  /** Dropping or retyping a column always gives such a schema. */
  lemma {:induction false} DropsAndCastsMove(s: Schema, at: nat, shape: Shape)
    requires at < |s| && shape != s[at].shape
    ensures !(Shapes(s) <= Shapes(s[..at] + s[at + 1..]))
    ensures !(Shapes(s) <= Shapes(s[at := Field(s[at].name, shape)]))
  {
    assert Shapes(s)[at] != Shapes(s[at := Field(s[at].name, shape)])[at];
  }

  // ---- Two ways to miss ------------------------------------------------------------------------

  function TwoColumns(segments: seq<Segment>, nextId: nat): Table {
    Table([Field("a", Shape(1, false)), Field("b", Shape(1, false))], segments, nextId, [])
  }

  function Pinned(dead: set<nat>): Segment {
    Segment(0, [Shape(1, false), Shape(1, false)], [[Of(1), Of(2)]], dead)
  }

  lemma {:induction false} TwoColumnsOk(s: Segment, nextId: nat, a: nat, b: nat)
    requires s.id < nextId && s.shapes == [Shape(1, false), Shape(1, false)] && s.rows == [[Of(a), Of(b)]]
    ensures Ok(TwoColumns([s], nextId)) && Shapes(TwoColumns([s], nextId).schema) == s.shapes
    ensures Content(TwoColumns([s], nextId)) == if 0 in s.dead then [] else s.rows
  {
    var t := TwoColumns([s], nextId);
    assert Shapes(t.schema) == s.shapes;
    assert SegmentOk(t.schema, s) && t.segments[0] == s;
    OneSegmentReads(t.schema, t.segments, s);
    NothingMore(SegmentRows(t.schema, t.segments, 1));
  }

  lemma {:induction false} OneSegmentReads(schema: Schema, segments: seq<Segment>, s: Segment)
    requires segments == [s] && SegmentOk(schema, s) && |s.shapes| == |schema| && |s.rows| == 1
    ensures SegmentRows(schema, segments, 1) == if 0 in s.dead then [] else s.rows
  {
    assert Widened(s.rows[0], |schema|) == s.rows[0];
    assert ReadTo(s, 0, |schema|) == [];
    assert ReadTo(s, 1, |schema|) == if 0 in s.dead then [] else [s.rows[0]];
    assert SegmentRows(schema, segments, 0) == [];
    assert IsLive(s) <==> 0 !in s.dead;
  }

  /** A deletion logged between pin and lock: the dropped column goes, and the deleted row is back. */
  lemma {:induction false} DeletionComesBack()
    ensures var pin, t := TwoColumns([Pinned({})], 1), TwoColumns([Pinned({0})], 1);
            var u := Over(pin.segments, t, pin.schema[..1], [Segment(1, [Shape(1, false)], [[Of(1)]], {})]);
            && Ok(pin) && Ok(t) && Meanwhile(pin, [Some({0})], [], t) && Content(t) == []
            && Ok(u) && Content(u) == [[Of(1)]]
  {
    var pin, t := TwoColumns([Pinned({})], 1), TwoColumns([Pinned({0})], 1);
    var after, w := pin.schema[..1], [Segment(1, [Shape(1, false)], [[Of(1)]], {})];
    TwoColumnsOk(Pinned({}), 1, 1, 2);
    TwoColumnsOk(Pinned({0}), 1, 1, 2);
    DeletedMeanwhile(pin, t);
    forall s | s in Others(t.segments, LiveIds(pin.segments, 1), 1)
      ensures !IsLive(s)
    {
      OthersHaveNothing(pin, [Some({0})], [], t, s);
    }
    assert Shapes(after) == [Shape(1, false)];
    OverReads(pin.segments, t, after, w);
    OneNewRow(w);
  }

  lemma {:induction false} DeletedMeanwhile(pin: Table, t: Table)
    requires pin == TwoColumns([Pinned({})], 1) && t == TwoColumns([Pinned({0})], 1)
    ensures Meanwhile(pin, [Some({0})], [], t)
  {
    var fate := [Some({0})];
    assert Lasting(pin.segments, fate, 0) == [];
    assert Lasting(pin.segments, fate, 1) == [] + [Pinned({0})];
  }

  lemma {:induction false} OneNewRow(w: seq<Segment>)
    requires |w| == 1
    ensures NewRows(w, 1) == w[0].rows
  {
    assert NewRows(w, 0) == [];
  }

  /** A row written and flushed between pin and lock: its segment cannot be opened afterwards. */
  lemma {:induction false} FlushedRowIsLost(a: nat, b: nat, after: Schema, written: seq<Segment>)
    requires |after| == 1
    ensures var pin, t := TwoColumns([], 1), TwoColumns([Pinned({}).(id := 1, rows := [[Of(a), Of(b)]])], 2);
            && Ok(pin) && Ok(t) && Meanwhile(pin, [], t.segments, t) && Content(t) == [[Of(a), Of(b)]]
            && !Ok(Over(pin.segments, t, after, written))
  {
    var pin, s := TwoColumns([], 1), Pinned({}).(id := 1, rows := [[Of(a), Of(b)]]);
    var t := TwoColumns([s], 2);
    TwoColumnsOk(s, 2, a, b);
    FlushedMeanwhile(pin, t, s);
    assert IsLive(s);
    AddedStay(pin, [], t.segments, t, s);
    UnreadableUnder(after, Over(pin.segments, t, after, written), s);
  }

  lemma {:induction false} FlushedMeanwhile(pin: Table, t: Table, s: Segment)
    requires pin == TwoColumns([], 1) && t == TwoColumns([s], 2) && s.id == 1 && s.shapes == Pinned({}).shapes
    ensures Ok(pin) && Meanwhile(pin, [], t.segments, t) && s in t.segments
    ensures |s.rows| > 0 && s.dead == {} ==> IsLive(s)
  {
    assert Shapes(pin.schema) == s.shapes;
    assert Lasting(pin.segments, [], 0) == [];
    assert [] + t.segments == t.segments && t.segments[0] == s;
    if |s.rows| > 0 && s.dead == {} {
      assert 0 !in s.dead;
    }
  }
}
