/** Schema changes: which segments stay readable afterwards, and what their rows become. */
module Evolve {
  import opened Layout
  import opened Sequences

  /** What a column's bytes mean: its type and whether it may be null. Its name takes no part. */
  datatype Shape = Shape(kind: nat, nullable: bool)

  datatype Field = Field(name: string, shape: Shape)

  type Schema = seq<Field>

  datatype Val = Null | Of(v: nat)

  type Row = seq<Val>

  function Shapes(s: Schema): (r: seq<Shape>)
    ensures |r| == |s| && forall i :: 0 <= i < |s| ==> r[i] == s[i].shape
  {
    seq(|s|, i requires 0 <= i < |s| => s[i].shape)
  }

  predicate DistinctNames(s: Schema) {
    forall i, j :: 0 <= i < j < |s| ==> s[i].name != s[j].name
  }

  function IndexOf(s: Schema, name: string): (r: Option<nat>)
    ensures r.Some? ==> r.value < |s| && s[r.value].name == name
    ensures r.None? ==> forall i :: 0 <= i < |s| ==> s[i].name != name
  {
    if s == [] then None
    else if s[|s| - 1].name == name then Some(|s| - 1)
    else
      var r := IndexOf(s[..|s| - 1], name);
      assert r.None? ==> forall i :: 0 <= i < |s| - 1 ==> s[i] == s[..|s| - 1][i];
      r
  }

  lemma {:induction false} NameAt(s: Schema, at: nat)
    requires at < |s| && DistinctNames(s)
    ensures IndexOf(s, s[at].name) == Some(at)
  {
    var r := IndexOf(s, s[at].name).value;
    assert r == at || r < at || at < r;
  }

  // ---- Layouts -------------------------------------------------------------------------------

  /** Fingerprints of every prefix of a schema's shapes; `hash` is the checksum of the encoded shapes. */
  datatype SchemaLayout = SchemaLayout(prefixes: seq<nat>) {
    function Columns(): int { |prefixes| - 1 }

    predicate Accepts(columns: nat, fingerprint: nat) {
      columns < |prefixes| && prefixes[columns] == fingerprint
    }
  }

  function LayoutOf(hash: seq<Shape> -> nat, s: Schema): (l: SchemaLayout)
    ensures |l.prefixes| == |s| + 1
  {
    SchemaLayout(seq<nat>(|s| + 1, n requires 0 <= n < |s| + 1 => hash(Shapes(s)[..n])))
  }

  /** A segment stamped with the shapes of a prefix is accepted. */
  lemma {:induction false} PrefixIsAccepted(hash: seq<Shape> -> nat, s: Schema, shapes: seq<Shape>)
    requires shapes <= Shapes(s)
    ensures LayoutOf(hash, s).Accepts(|shapes|, hash(shapes))
  {
    assert Shapes(s)[..|shapes|] == shapes;
  }

  /** With a hash that tells shapes apart, nothing else is. */
  lemma {:induction false} AcceptedIffPrefix(hash: seq<Shape> -> nat, s: Schema, shapes: seq<Shape>)
    requires forall a, b :: hash(a) == hash(b) ==> a == b
    ensures LayoutOf(hash, s).Accepts(|shapes|, hash(shapes)) <==> shapes <= Shapes(s)
  {
    if shapes <= Shapes(s) {
      PrefixIsAccepted(hash, s, shapes);
    }
  }

  // ---- Segments and what they read as ------------------------------------------------------------

  datatype Segment = Segment(id: nat, shapes: seq<Shape>, rows: seq<Row>, dead: set<nat>)

  datatype Table = Table(schema: Schema, segments: seq<Segment>, nextId: nat, memtable: seq<Row>)

  /** A row of the columns' number, with nulls only where they may be. */
  predicate RowFits(row: Row, shapes: seq<Shape>) {
    |row| == |shapes| && forall j :: 0 <= j < |row| && row[j].Null? ==> shapes[j].nullable
  }

  predicate RowsFit(rows: seq<Row>, shapes: seq<Shape>) {
    forall i :: 0 <= i < |rows| ==> RowFits(rows[i], shapes)
  }

  /** A row read under a schema: columns it is older than are null. */
  function Widened(row: Row, width: nat): (r: Row)
    requires |row| <= width
    ensures |r| == width
  {
    row + seq(width - |row|, _ => Null)
  }

  /** The first `n` rows of a segment, deleted ones left out, as the schema reads them. */
  function ReadTo(s: Segment, n: nat, width: nat): seq<Row>
    requires n <= |s.rows| && RowsFit(s.rows, s.shapes) && |s.shapes| <= width
  {
    if n == 0 then []
    else ReadTo(s, n - 1, width) + (if n - 1 in s.dead then [] else [Widened(s.rows[n - 1], width)])
  }

  /** Some row of the segment is left to read. */
  predicate IsLive(s: Segment) {
    exists i :: 0 <= i < |s.rows| && i !in s.dead
  }

  /** A segment its table can read. */
  predicate SegmentOk(schema: Schema, s: Segment) {
    && RowsFit(s.rows, s.shapes)
    && s.shapes <= Shapes(schema)
    && forall i :: |s.shapes| <= i < |schema| ==> schema[i].shape.nullable
  }

  /** The rows of the first `n` segments; those with nothing left are not opened. */
  function SegmentRows(schema: Schema, segments: seq<Segment>, n: nat): seq<Row>
    requires n <= |segments| && forall i :: 0 <= i < n && IsLive(segments[i]) ==> SegmentOk(schema, segments[i])
  {
    if n == 0 then []
    else
      var s := segments[n - 1];
      assert IsLive(s) ==> SegmentOk(schema, s);
      SegmentRows(schema, segments, n - 1) + (if IsLive(s) then ReadTo(s, |s.rows|, |schema|) else [])
  }

  ghost predicate DistinctIds(segments: seq<Segment>) {
    forall i, j :: 0 <= i < j < |segments| ==> segments[i].id != segments[j].id
  }

  /** Every live segment's shapes are a prefix of the schema's, and a column beyond them may be null. */
  ghost predicate Ok(t: Table) {
    && DistinctNames(t.schema) && t.schema != []
    && (forall i :: 0 <= i < |t.segments| && IsLive(t.segments[i]) ==> SegmentOk(t.schema, t.segments[i]))
    && (forall i :: 0 <= i < |t.segments| ==> t.segments[i].id < t.nextId)
    && DistinctIds(t.segments)
    && RowsFit(t.memtable, Shapes(t.schema))
  }

  ghost function Content(t: Table): seq<Row>
    requires Ok(t)
  {
    SegmentRows(t.schema, t.segments, |t.segments|) + t.memtable
  }

  // ---- Changes that move no bytes ------------------------------------------------------------------

  datatype Outcome = Done(schema: Schema) | Refused

  function AddColumn(s: Schema, field: Field): Outcome {
    if !field.shape.nullable || IndexOf(s, field.name).Some? then Refused else Done(s + [field])
  }

  function RenameColumn(s: Schema, from: string, to: string): Outcome {
    var at := IndexOf(s, from);
    if at.None? || (from != to && IndexOf(s, to).Some?) then Refused
    else Done(s[at.value := Field(to, s[at.value].shape)])
  }

  function DropColumn(s: Schema, name: string): Outcome {
    var at := IndexOf(s, name);
    if at.None? || |s| == 1 then Refused else Done(s[..at.value] + s[at.value + 1..])
  }

  /** Retype a column. `can` says which casts exist; the same type is no change. */
  function CastColumn(s: Schema, name: string, to: nat, can: (nat, nat) -> bool): Outcome {
    var at := IndexOf(s, name);
    if at.None? then Refused
    else if s[at.value].shape.kind == to then Done(s)
    else if !can(s[at.value].shape.kind, to) then Refused
    else Done(s[at.value := Field(name, Shape(to, s[at.value].shape.nullable))])
  }

  lemma {:induction false} ReadLonger(s: Segment, n: nat, width: nat)
    requires n <= |s.rows| && RowsFit(s.rows, s.shapes) && |s.shapes| <= width
    ensures ReadTo(s, n, width + 1) == WithNull(ReadTo(s, n, width))
  {
    if n > 0 {
      ReadLonger(s, n - 1, width);
      assert Widened(s.rows[n - 1], width + 1) == Widened(s.rows[n - 1], width) + [Null];
    }
  }

  /** Every row with one more null at the end. */
  function WithNull(rows: seq<Row>): (r: seq<Row>)
    ensures |r| == |rows| && forall i :: 0 <= i < |rows| ==> r[i] == rows[i] + [Null]
  {
    seq(|rows|, i requires 0 <= i < |rows| => rows[i] + [Null])
  }

  lemma {:induction false} WithNullConcat(a: seq<Row>, b: seq<Row>)
    ensures WithNull(a + b) == WithNull(a) + WithNull(b)
  {
  }

  lemma {:induction false} LongerOk(schema: Schema, field: Field, s: Segment)
    requires SegmentOk(schema, s) && field.shape.nullable
    ensures SegmentOk(schema + [field], s)
  {
    assert Shapes(schema + [field]) == Shapes(schema) + [field.shape];
  }

  lemma {:induction false} AddedRows(schema: Schema, field: Field, segments: seq<Segment>, n: nat)
    requires n <= |segments| && field.shape.nullable
    requires forall i :: 0 <= i < n && IsLive(segments[i]) ==> SegmentOk(schema, segments[i])
    ensures forall i :: 0 <= i < n && IsLive(segments[i]) ==> SegmentOk(schema + [field], segments[i])
    ensures SegmentRows(schema + [field], segments, n) == WithNull(SegmentRows(schema, segments, n))
  {
    if n > 0 {
      AddedRows(schema, field, segments, n - 1);
      var s := segments[n - 1];
      if IsLive(s) {
        LongerOk(schema, field, s);
        ReadLonger(s, |s.rows|, |schema|);
        WithNullConcat(SegmentRows(schema, segments, n - 1), ReadTo(s, |s.rows|, |schema|));
      } else {
        WithNullConcat(SegmentRows(schema, segments, n - 1), []);
      }
    }
  }

  /** Adding a column rewrites nothing: every row reads as it did, with a null at the end. */
  lemma {:induction false} AddColumnKeeps(t: Table, field: Field)
    requires Ok(t) && t.memtable == [] && AddColumn(t.schema, field).Done?
    ensures var u := t.(schema := AddColumn(t.schema, field).schema);
            Ok(u) && Content(u) == WithNull(Content(t))
  {
    AddedRows(t.schema, field, t.segments, |t.segments|);
    WithNullConcat(SegmentRows(t.schema, t.segments, |t.segments|), []);
  }

  lemma {:induction false} RenamedRows(schema: Schema, renamed: Schema, segments: seq<Segment>, n: nat)
    requires n <= |segments| && Shapes(renamed) == Shapes(schema) && |renamed| == |schema|
    requires forall i :: 0 <= i < n && IsLive(segments[i]) ==> SegmentOk(schema, segments[i])
    ensures forall i :: 0 <= i < n && IsLive(segments[i]) ==> SegmentOk(renamed, segments[i])
    ensures SegmentRows(renamed, segments, n) == SegmentRows(schema, segments, n)
  {
    if n > 0 {
      RenamedRows(schema, renamed, segments, n - 1);
      assert forall i :: 0 <= i < |schema| ==> renamed[i].shape == Shapes(renamed)[i] == schema[i].shape;
    }
  }

  /** Renaming a column changes no row and loses no name. */
  lemma {:induction false} RenameColumnKeeps(t: Table, from: string, to: string)
    requires Ok(t) && RenameColumn(t.schema, from, to).Done?
    ensures var u := t.(schema := RenameColumn(t.schema, from, to).schema);
            Ok(u) && Content(u) == Content(t)
  {
    var u := t.(schema := RenameColumn(t.schema, from, to).schema);
    assert Shapes(u.schema) == Shapes(t.schema);
    RenamedRows(t.schema, u.schema, t.segments, |t.segments|);
  }

  // ---- Changes that rewrite ------------------------------------------------------------------------

  /** What casting a value from one type to another gives: null when the new type cannot hold it. */
  type Casts = (nat, nat, nat) -> Val

  function CastValue(cast: Casts, from: nat, to: nat, v: Val): Val {
    if v.Null? then Null else cast(from, to, v.v)
  }

  /** One column of a converted row: matched by name, cast when its type differs, null when it is new. */
  function ConvertValue(cast: Casts, before: Schema, row: Row, field: Field): Val
    requires |row| == |before|
  {
    var at := IndexOf(before, field.name);
    if at.None? then Null
    else if before[at.value].shape.kind == field.shape.kind then row[at.value]
    else CastValue(cast, before[at.value].shape.kind, field.shape.kind, row[at.value])
  }

  /** A row reshaped from one schema to another. */
  function ConvertCells(cast: Casts, before: Schema, after: Schema, row: Row): (r: Row)
    requires |row| == |before|
    ensures |r| == |after| && forall i :: 0 <= i < |after| ==> r[i] == ConvertValue(cast, before, row, after[i])
  {
    seq(|after|, i requires 0 <= i < |after| => ConvertValue(cast, before, row, after[i]))
  }

  /** ... which is refused when it would put a null where none may be. */
  function ConvertRow(cast: Casts, before: Schema, after: Schema, row: Row): (r: Option<Row>)
    requires |row| == |before|
    ensures r.Some? ==> RowFits(r.value, Shapes(after))
  {
    var cells := ConvertCells(cast, before, after, row);
    if RowFits(cells, Shapes(after)) then Some(cells) else None
  }

  /** The first `n` rows converted; one that is refused fails them all. */
  function ConvertRows(cast: Casts, before: Schema, after: Schema, rows: seq<Row>, n: nat): (r: Option<seq<Row>>)
    requires n <= |rows| && RowsFit(rows, Shapes(before))
    ensures r.Some? ==> |r.value| == n && RowsFit(r.value, Shapes(after))
  {
    if n == 0 then Some([])
    else
      var head := ConvertRows(cast, before, after, rows, n - 1);
      var last := ConvertRow(cast, before, after, rows[n - 1]);
      if head.None? || last.None? then None else Some(head.value + [last.value])
  }

  /** Dropping a column takes its value out and leaves the others in place. */
  lemma {:induction false} DropConverts(cast: Casts, s: Schema, at: nat, row: Row)
    requires DistinctNames(s) && at < |s| && RowFits(row, Shapes(s))
    ensures ConvertRow(cast, s, s[..at] + s[at + 1..], row) == Some(row[..at] + row[at + 1..])
  {
    var after, kept := s[..at] + s[at + 1..], row[..at] + row[at + 1..];
    var cells := ConvertCells(cast, s, after, row);
    forall i | 0 <= i < |after|
      ensures cells[i] == kept[i] && (kept[i].Null? ==> after[i].shape.nullable)
    {
      var from := if i < at then i else i + 1;
      assert after[i] == s[from] && kept[i] == row[from];
      NameAt(s, from);
    }
    assert cells == kept;
  }

  /**
   * Casting a column casts its value and touches no other. A value the new type
   * cannot hold becomes null, and fails the row only where null may not be.
   */
  lemma {:induction false} CastConverts(cast: Casts, s: Schema, at: nat, to: nat, row: Row)
    requires DistinctNames(s) && at < |s| && RowFits(row, Shapes(s)) && s[at].shape.kind != to
    ensures var after := s[at := Field(s[at].name, Shape(to, s[at].shape.nullable))];
            var v := CastValue(cast, s[at].shape.kind, to, row[at]);
            ConvertRow(cast, s, after, row) == if v.Null? && !s[at].shape.nullable then None else Some(row[at := v])
  {
    var after := s[at := Field(s[at].name, Shape(to, s[at].shape.nullable))];
    var v := CastValue(cast, s[at].shape.kind, to, row[at]);
    var cells := ConvertCells(cast, s, after, row);
    forall i | 0 <= i < |after|
      ensures cells[i] == row[at := v][i]
    {
      NameAt(s, i);
    }
    assert cells == row[at := v];
    if v.Null? && !s[at].shape.nullable {
      assert !RowFits(cells, Shapes(after)) by {
        assert cells[at].Null? && !Shapes(after)[at].nullable;
      }
    } else {
      forall j | 0 <= j < |cells| && cells[j].Null?
        ensures Shapes(after)[j].nullable
      {
        assert Shapes(after)[j].nullable == Shapes(s)[j].nullable;
        assert j != at ==> cells[j] == row[j];
      }
    }
  }

  // ---- Rewriting the segments --------------------------------------------------------------------

  /** The entries with nothing left to read: a rewrite passes them over. */
  function DeadTo(segments: seq<Segment>, n: nat): seq<Segment>
    requires n <= |segments|
  {
    if n == 0 then [] else DeadTo(segments, n - 1) + (if IsLive(segments[n - 1]) then [] else [segments[n - 1]])
  }

  /** Every row of the new segments, in order. */
  function NewRows(segments: seq<Segment>, n: nat): seq<Row>
    requires n <= |segments|
  {
    if n == 0 then [] else NewRows(segments, n - 1) + segments[n - 1].rows
  }

  predicate Fresh(segments: seq<Segment>, schema: Schema, firstId: nat) {
    forall i :: 0 <= i < |segments| ==>
      && segments[i].id == firstId + i && segments[i].shapes == Shapes(schema) && segments[i].dead == {}
      && segments[i].rows != [] && RowsFit(segments[i].rows, Shapes(schema))
  }

  /**
   * The new segments hold the conversion of all live rows, in order, with a
   * segment closed whenever the rows gathered since the last reach the budget.
   * `None` when some row has no conversion.
   */
  method ConvertSegments(cast: Casts, before: Schema, after: Schema, segments: seq<Segment>, sizes: seq<nat>, budget: nat,
                         firstId: nat) returns (written: Option<seq<Segment>>)
    requires |sizes| == |segments|
    requires forall i :: 0 <= i < |segments| && IsLive(segments[i]) ==> SegmentOk(before, segments[i])
    ensures RowsFit(SegmentRows(before, segments, |segments|), Shapes(before))
    ensures written.Some? <==> Converted(cast, before, after, SegmentRows(before, segments, |segments|)).Some?
    ensures written.Some? ==>
              && Fresh(written.value, after, firstId)
              && Converted(cast, before, after, SegmentRows(before, segments, |segments|))
                 == Some(NewRows(written.value, |written.value|))
  {
    var out: seq<Segment>, pending: seq<Row>, bytes := [], [], 0;
    ReadsFit(before, segments, |segments|);
    NothingMore(NewRows(out, 0));
    for i := 0 to |segments|
      invariant RowsFit(SegmentRows(before, segments, i), Shapes(before))
      invariant Fresh(out, after, firstId) && RowsFit(pending, Shapes(after))
      invariant Converted(cast, before, after, SegmentRows(before, segments, i)) == Some(NewRows(out, |out|) + pending)
    {
      ReadsFit(before, segments, i + 1);
      var ok;
      ok, pending := ConvertOne(cast, before, after, segments, i, NewRows(out, |out|), pending);
      if !ok {
        ConvertFails(cast, before, after, segments, i + 1, |segments|);
        return None;
      }
      bytes := bytes + (if IsLive(segments[i]) then sizes[i] else 0);
      if bytes >= Most(budget, 1) {
        out, pending := WriteAll(out, after, firstId, pending);
        bytes := 0;
      }
    }
    out := WriteGroup(out, after, firstId, pending);
    written := Some(out);
  }

  /** Read one segment, if anything of it is left, and convert what it holds. */
  method ConvertOne(cast: Casts, before: Schema, after: Schema, segments: seq<Segment>, i: nat,
                    ghost done: seq<Row>, pending: seq<Row>) returns (ok: bool, more: seq<Row>)
    requires i < |segments| && RowsFit(pending, Shapes(after))
    requires forall k :: 0 <= k <= i && IsLive(segments[k]) ==> SegmentOk(before, segments[k])
    requires RowsFit(SegmentRows(before, segments, i), Shapes(before)) && RowsFit(SegmentRows(before, segments, i + 1), Shapes(before))
    requires Converted(cast, before, after, SegmentRows(before, segments, i)) == Some(done + pending)
    ensures RowsFit(more, Shapes(after))
    ensures Converted(cast, before, after, SegmentRows(before, segments, i + 1)) == if ok then Some(done + more) else None
  {
    ok, more := true, pending;
    if !IsLive(segments[i]) {
      NothingMore(SegmentRows(before, segments, i));
      return;
    }
    SegmentReads(before, segments[i], |segments[i].rows|);
    var read := ReadTo(segments[i], |segments[i].rows|, |before|);
    var rows := Converted(cast, before, after, read);
    ConvertConcat(cast, before, after, SegmentRows(before, segments, i), read, |read|);
    if rows.None? {
      ok := false;
      return;
    }
    Associates(done, pending, rows.value);
    more := pending + rows.value;
  }

  function Converted(cast: Casts, before: Schema, after: Schema, rows: seq<Row>): (r: Option<seq<Row>>)
    requires RowsFit(rows, Shapes(before))
    ensures r.Some? ==> RowsFit(r.value, Shapes(after))
  {
    ConvertRows(cast, before, after, rows, |rows|)
  }

  /** Write the pending rows as one more segment; with none, write nothing. */
  method WriteGroup(before: seq<Segment>, schema: Schema, firstId: nat, rows: seq<Row>) returns (out: seq<Segment>)
    requires Fresh(before, schema, firstId) && RowsFit(rows, Shapes(schema))
    ensures Fresh(out, schema, firstId) && NewRows(out, |out|) == NewRows(before, |before|) + rows
  {
    out := before;
    if |rows| == 0 {
      NothingMore(NewRows(before, |before|));
      return;
    }
    var s := Segment(firstId + |before|, Shapes(schema), rows, {});
    out := before + [s];
    NewRowsSame(out, before, |before|);
  }

  /** Write the pending rows, leaving none. */
  method WriteAll(before: seq<Segment>, schema: Schema, firstId: nat, rows: seq<Row>)
    returns (out: seq<Segment>, left: seq<Row>)
    requires Fresh(before, schema, firstId) && RowsFit(rows, Shapes(schema))
    ensures Fresh(out, schema, firstId) && left == []
    ensures NewRows(out, |out|) + left == NewRows(before, |before|) + rows
  {
    out := WriteGroup(before, schema, firstId, rows);
    left := [];
    NothingMore(NewRows(out, |out|));
  }

  lemma {:induction false} NewRowsSame(a: seq<Segment>, b: seq<Segment>, n: nat)
    requires n <= |a| && n <= |b| && forall i :: 0 <= i < n ==> a[i] == b[i]
    ensures NewRows(a, n) == NewRows(b, n)
  {
    if n > 0 {
      NewRowsSame(a, b, n - 1);
    }
  }

  lemma {:induction false} SegmentReads(schema: Schema, s: Segment, n: nat)
    requires SegmentOk(schema, s) && n <= |s.rows|
    ensures RowsFit(ReadTo(s, n, |schema|), Shapes(schema))
  {
    if n > 0 {
      SegmentReads(schema, s, n - 1);
    }
  }

  lemma {:induction false} ReadsFit(schema: Schema, segments: seq<Segment>, n: nat)
    requires n <= |segments| && forall i :: 0 <= i < n && IsLive(segments[i]) ==> SegmentOk(schema, segments[i])
    ensures RowsFit(SegmentRows(schema, segments, n), Shapes(schema))
  {
    if n > 0 {
      ReadsFit(schema, segments, n - 1);
      if IsLive(segments[n - 1]) {
        SegmentReads(schema, segments[n - 1], |segments[n - 1].rows|);
      }
    }
  }

  lemma {:induction false} ConvertSame(cast: Casts, before: Schema, after: Schema, a: seq<Row>, b: seq<Row>, n: nat)
    requires n <= |a| && n <= |b| && RowsFit(a, Shapes(before)) && RowsFit(b, Shapes(before))
    requires forall i :: 0 <= i < n ==> a[i] == b[i]
    ensures ConvertRows(cast, before, after, a, n) == ConvertRows(cast, before, after, b, n)
  {
    if n > 0 {
      ConvertSame(cast, before, after, a, b, n - 1);
    }
  }

  function Both(a: Option<seq<Row>>, b: Option<seq<Row>>): Option<seq<Row>> {
    if a.None? || b.None? then None else Some(a.value + b.value)
  }

  lemma {:induction false} ConvertConcat(cast: Casts, before: Schema, after: Schema, a: seq<Row>, b: seq<Row>, n: nat)
    requires RowsFit(a, Shapes(before)) && RowsFit(b, Shapes(before)) && n <= |b|
    ensures RowsFit(a + b, Shapes(before))
    ensures ConvertRows(cast, before, after, a + b, |a| + n)
         == Both(Converted(cast, before, after, a), ConvertRows(cast, before, after, b, n))
  {
    var done := Converted(cast, before, after, a);
    if n == 0 {
      ConvertSame(cast, before, after, a + b, a, |a|);
      if done.Some? {
        NothingMore(done.value);
      }
    } else {
      ConvertConcat(cast, before, after, a, b, n - 1);
      assert (a + b)[|a| + n - 1] == b[n - 1];
      var head := ConvertRows(cast, before, after, b, n - 1);
      var last := ConvertRow(cast, before, after, b[n - 1]);
      if done.Some? && head.Some? && last.Some? {
        Associates(done.value, head.value, [last.value]);
      }
    }
  }

  /** Once some row cannot be converted, no longer list can be. */
  lemma {:induction false} ConvertFails(cast: Casts, before: Schema, after: Schema, segments: seq<Segment>, i: nat, n: nat)
    requires i <= n <= |segments|
    requires forall k :: 0 <= k < n && IsLive(segments[k]) ==> SegmentOk(before, segments[k])
    requires RowsFit(SegmentRows(before, segments, i), Shapes(before))
    requires Converted(cast, before, after, SegmentRows(before, segments, i)) == None
    ensures RowsFit(SegmentRows(before, segments, n), Shapes(before))
    ensures Converted(cast, before, after, SegmentRows(before, segments, n)) == None
    decreases n
  {
    if i < n {
      ConvertFails(cast, before, after, segments, i, n - 1);
      var s := segments[n - 1];
      if IsLive(s) {
        SegmentReads(before, s, |s.rows|);
        var read := ReadTo(s, |s.rows|, |before|);
        ConvertConcat(cast, before, after, SegmentRows(before, segments, n - 1), read, |read|);
      } else {
        NothingMore(SegmentRows(before, segments, n - 1));
      }
    }
  }

  // ---- The change as a whole ------------------------------------------------------------------------

  /** The table a rewriting change commits. Entries with nothing left to read stay behind as they were. */
  function Rewritten(t: Table, after: Schema, written: seq<Segment>): Table {
    Table(after, DeadTo(t.segments, |t.segments|) + written, t.nextId + |written|, [])
  }

  /** Ids of the first `n` segments that have a row left. */
  function LiveIds(segments: seq<Segment>, n: nat): set<nat>
    requires n <= |segments|
  {
    if n == 0 then {} else LiveIds(segments, n - 1) + (if IsLive(segments[n - 1]) then {segments[n - 1].id} else {})
  }

  function Others(segments: seq<Segment>, ids: set<nat>, n: nat): seq<Segment>
    requires n <= |segments|
  {
    if n == 0 then [] else Others(segments, ids, n - 1) + (if segments[n - 1].id in ids then [] else [segments[n - 1]])
  }

  /** What a change commits over `t` when its sources are the live segments of a table pinned before. */
  function Over(pinned: seq<Segment>, t: Table, after: Schema, written: seq<Segment>): Table {
    Table(after, Others(t.segments, LiveIds(pinned, |pinned|), |t.segments|) + written, t.nextId + |written|, [])
  }

  datatype Change = Changed(table: Table) | WriteLanded | NoConversion

  /**
   * Rewrite under a new schema what was pinned before the writer was locked. The
   * lock finds `t`, and only its memtable is looked at: a row there abandons the change.
   */
  method SetSchema(pin: Table, t: Table, after: Schema, cast: Casts, sizes: seq<nat>, budget: nat)
    returns (u: Change, ghost written: seq<Segment>)
    requires Ok(pin) && |sizes| == |pin.segments|
    ensures RowsFit(Stored(pin), Shapes(pin.schema))
    ensures u.WriteLanded? <==> t.memtable != []
    ensures !u.WriteLanded? ==> (u.NoConversion? <==> Converted(cast, pin.schema, after, Stored(pin)).None?)
    ensures u.Changed? ==>
              && Fresh(written, after, t.nextId)
              && Converted(cast, pin.schema, after, Stored(pin)) == Some(NewRows(written, |written|))
              && u.table == Over(pin.segments, t, after, written)
  {
    ReadsFit(pin.schema, pin.segments, |pin.segments|);
    written := [];
    if |t.memtable| > 0 {
      return WriteLanded, written;
    }
    var made := ConvertSegments(cast, pin.schema, after, pin.segments, sizes, budget, t.nextId);
    if made.None? {
      return NoConversion, written;
    }
    written := made.value;
    u := Changed(Over(pin.segments, t, after, made.value));
  }

  ghost function Stored(t: Table): seq<Row>
    requires Ok(t)
  {
    SegmentRows(t.schema, t.segments, |t.segments|)
  }

  /** The change when nothing lands between the pin and the lock. */
  method SetSchemaAlone(t: Table, after: Schema, cast: Casts, sizes: seq<nat>, budget: nat) returns (u: Option<Table>)
    requires Ok(t) && t.memtable == [] && |sizes| == |t.segments|
    requires DistinctNames(after) && after != []
    ensures RowsFit(Content(t), Shapes(t.schema))
    ensures u.Some? <==> Converted(cast, t.schema, after, Content(t)).Some?
    ensures u.Some? ==>
              && Ok(u.value) && u.value.schema == after
              && Converted(cast, t.schema, after, Content(t)) == Some(Content(u.value))
  {
    NothingMore(Stored(t));
    var change, written := SetSchema(t, t, after, cast, sizes, budget);
    if change.NoConversion? {
      return None;
    }
    OverItself(t, after, written);
    RewrittenReads(t, after, written);
    u := Some(change.table);
  }

  lemma {:induction false} LiveIdsAt(segments: seq<Segment>, n: nat, id: nat)
    requires n <= |segments|
    ensures id in LiveIds(segments, n) <==> exists i :: 0 <= i < n && segments[i].id == id && IsLive(segments[i])
  {
    if n > 0 {
      LiveIdsAt(segments, n - 1, id);
      if IsLive(segments[n - 1]) && segments[n - 1].id == id {
        assert 0 <= n - 1 < n;
      }
    }
  }

  lemma {:induction false} OthersAreDead(segments: seq<Segment>, n: nat)
    requires n <= |segments| && DistinctIds(segments)
    ensures Others(segments, LiveIds(segments, |segments|), n) == DeadTo(segments, n)
  {
    if n > 0 {
      OthersAreDead(segments, n - 1);
      LiveIdsAt(segments, |segments|, segments[n - 1].id);
      if segments[n - 1].id in LiveIds(segments, |segments|) {
        var i :| 0 <= i < |segments| && segments[i].id == segments[n - 1].id && IsLive(segments[i]);
        assert i == n - 1;
      }
    }
  }

  lemma OverItself(t: Table, after: Schema, written: seq<Segment>)
    requires DistinctIds(t.segments)
    ensures Over(t.segments, t, after, written) == Rewritten(t, after, written)
  {
    OthersAreDead(t.segments, |t.segments|);
  }

  /** After a rewrite the live segments are the new ones, and read as what was written into them. */
  lemma {:induction false} RewrittenReads(t: Table, after: Schema, written: seq<Segment>)
    requires Ok(t) && DistinctNames(after) && after != [] && Fresh(written, after, t.nextId)
    ensures Ok(Rewritten(t, after, written))
    ensures Content(Rewritten(t, after, written)) == NewRows(written, |written|)
  {
    var u := Rewritten(t, after, written);
    var before := DeadTo(t.segments, |t.segments|);
    DeadAreDead(t.segments, |t.segments|, t.nextId);
    DeadIds(t.segments, |t.segments|);
    FreshAreOk(after, written, t.nextId);
    MixedOk(t, after, before, written);
    MixedRows(after, before, written, |written|);
    NothingMore(SegmentRows(after, u.segments, |u.segments|));
  }

  lemma {:induction false} DeadIds(segments: seq<Segment>, n: nat)
    requires n <= |segments| && DistinctIds(segments)
    ensures DistinctIds(DeadTo(segments, n))
    ensures forall s :: s in DeadTo(segments, n) ==> s in segments[..n]
  {
    if n > 0 {
      DeadIds(segments, n - 1);
      var d := DeadTo(segments, n - 1);
      forall i | 0 <= i < |d|
        ensures d[i].id != segments[n - 1].id
      {
        assert d[i] in segments[..n - 1];
      }
      assert segments[..n] == segments[..n - 1] + [segments[n - 1]];
    }
  }

  lemma {:induction false} MixedOk(t: Table, after: Schema, before: seq<Segment>, written: seq<Segment>)
    requires forall i :: 0 <= i < |before| ==> !IsLive(before[i]) && before[i].id < t.nextId
    requires DistinctIds(before)
    requires forall i :: 0 <= i < |written| ==> SegmentOk(after, written[i]) && written[i].id == t.nextId + i
    ensures DistinctIds(before + written)
    ensures var all := before + written;
            forall i :: 0 <= i < |all| ==> all[i].id < t.nextId + |written| && (IsLive(all[i]) ==> SegmentOk(after, all[i]))
  {
  }

  lemma {:induction false} DeadAreDead(segments: seq<Segment>, n: nat, nextId: nat)
    requires n <= |segments| && forall i :: 0 <= i < n ==> segments[i].id < nextId
    ensures forall i :: 0 <= i < |DeadTo(segments, n)| ==>
              !IsLive(DeadTo(segments, n)[i]) && DeadTo(segments, n)[i].id < nextId
    ensures forall s :: s in DeadTo(segments, n) <==> s in segments[..n] && !IsLive(s)
  {
    if n > 0 {
      DeadAreDead(segments, n - 1, nextId);
      assert segments[..n] == segments[..n - 1] + [segments[n - 1]];
    }
  }

  lemma {:induction false} FreshAreOk(schema: Schema, segments: seq<Segment>, firstId: nat)
    requires Fresh(segments, schema, firstId)
    ensures forall i :: 0 <= i < |segments| ==> SegmentOk(schema, segments[i]) && IsLive(segments[i])
  {
    forall i | 0 <= i < |segments|
      ensures SegmentOk(schema, segments[i]) && IsLive(segments[i])
    {
      assert 0 !in segments[i].dead;
    }
  }

  lemma {:induction false} MixedRows(schema: Schema, dead: seq<Segment>, written: seq<Segment>, n: nat)
    requires n <= |written|
    requires forall i :: 0 <= i < |dead| ==> !IsLive(dead[i])
    requires forall i :: 0 <= i < |written| ==>
               SegmentOk(schema, written[i]) && IsLive(written[i]) && |written[i].shapes| == |schema| && written[i].dead == {}
    ensures forall i :: 0 <= i < |dead| + n && IsLive((dead + written)[i]) ==> SegmentOk(schema, (dead + written)[i])
    ensures SegmentRows(schema, dead + written, |dead| + n) == NewRows(written, n)
  {
    if n == 0 {
      NoRows(schema, dead + written, |dead|);
    } else {
      MixedRows(schema, dead, written, n - 1);
      var s := written[n - 1];
      assert (dead + written)[|dead| + n - 1] == s;
      ReadWhole(s, |s.rows|);
      assert s.rows[..|s.rows|] == s.rows;
    }
  }

  lemma {:induction false} NoRows(schema: Schema, segments: seq<Segment>, n: nat)
    requires n <= |segments| && forall i :: 0 <= i < n ==> !IsLive(segments[i])
    ensures SegmentRows(schema, segments, n) == []
  {
    if n > 0 {
      NoRows(schema, segments, n - 1);
    }
  }

  lemma {:induction false} ReadWhole(s: Segment, n: nat)
    requires n <= |s.rows| && RowsFit(s.rows, s.shapes) && s.dead == {}
    ensures ReadTo(s, n, |s.shapes|) == s.rows[..n]
  {
    if n > 0 {
      ReadWhole(s, n - 1);
      assert Widened(s.rows[n - 1], |s.shapes|) == s.rows[n - 1];
    }
  }

  /** Every row without one column. */
  function WithoutColumn(rows: seq<Row>, at: nat): (r: seq<Row>)
    requires forall i :: 0 <= i < |rows| ==> at < |rows[i]|
    ensures |r| == |rows| && forall i :: 0 <= i < |rows| ==> r[i] == rows[i][..at] + rows[i][at + 1..]
  {
    seq(|rows|, i requires 0 <= i < |rows| => rows[i][..at] + rows[i][at + 1..])
  }

  lemma {:induction false} DropConvertsAll(cast: Casts, s: Schema, at: nat, rows: seq<Row>, n: nat)
    requires DistinctNames(s) && at < |s| && RowsFit(rows, Shapes(s)) && n <= |rows|
    ensures ConvertRows(cast, s, s[..at] + s[at + 1..], rows, n) == Some(WithoutColumn(rows, at)[..n])
  {
    if n > 0 {
      DropConvertsAll(cast, s, at, rows, n - 1);
      DropConverts(cast, s, at, rows[n - 1]);
      assert WithoutColumn(rows, at)[..n] == WithoutColumn(rows, at)[..n - 1] + [WithoutColumn(rows, at)[n - 1]];
    }
  }

  lemma {:induction false} DroppedNames(s: Schema, at: nat)
    requires DistinctNames(s) && at < |s|
    ensures DistinctNames(s[..at] + s[at + 1..])
  {
    var u := s[..at] + s[at + 1..];
    forall i, j | 0 <= i < j < |u|
      ensures u[i].name != u[j].name
    {
      assert u[i] == s[if i < at then i else i + 1] && u[j] == s[if j < at then j else j + 1];
    }
  }

  /** Dropping a column: it is refused, or every row loses that value and keeps the others where they were. */
  method Drop(t: Table, name: string, cast: Casts, sizes: seq<nat>, budget: nat) returns (u: Option<Table>)
    requires Ok(t) && t.memtable == [] && |sizes| == |t.segments|
    ensures u.None? <==> IndexOf(t.schema, name).None? || |t.schema| == 1
    ensures RowsFit(Content(t), Shapes(t.schema))
    ensures u.Some? ==>
              && Ok(u.value) && Done(u.value.schema) == DropColumn(t.schema, name)
              && Content(u.value) == WithoutColumn(Content(t), IndexOf(t.schema, name).value)
  {
    ReadsFit(t.schema, t.segments, |t.segments|);
    NothingMore(SegmentRows(t.schema, t.segments, |t.segments|));
    var change := DropColumn(t.schema, name);
    if change.Refused? {
      return None;
    }
    var at := IndexOf(t.schema, name).value;
    DroppedNames(t.schema, at);
    DropConvertsAll(cast, t.schema, at, Content(t), |Content(t)|);
    assert WithoutColumn(Content(t), at)[..|Content(t)|] == WithoutColumn(Content(t), at);
    u := SetSchemaAlone(t, change.schema, cast, sizes, budget);
  }

  /** Every row with one value cast. */
  function CastAll(cast: Casts, from: nat, to: nat, rows: seq<Row>, at: nat): (r: seq<Row>)
    requires forall i :: 0 <= i < |rows| ==> at < |rows[i]|
    ensures |r| == |rows|
    ensures forall i :: 0 <= i < |rows| ==> r[i] == rows[i][at := CastValue(cast, from, to, rows[i][at])]
  {
    seq(|rows|, i requires 0 <= i < |rows| => rows[i][at := CastValue(cast, from, to, rows[i][at])])
  }

  /** Some value of the column is, or becomes, null. */
  predicate CastsToNull(cast: Casts, from: nat, to: nat, rows: seq<Row>, at: nat, n: nat)
    requires n <= |rows| && forall i :: 0 <= i < |rows| ==> at < |rows[i]|
  {
    exists i :: 0 <= i < n && CastValue(cast, from, to, rows[i][at]).Null?
  }

  lemma {:induction false} CastConvertsAll(cast: Casts, s: Schema, at: nat, to: nat, rows: seq<Row>, n: nat)
    requires DistinctNames(s) && at < |s| && RowsFit(rows, Shapes(s)) && n <= |rows| && s[at].shape.kind != to
    ensures ConvertRows(cast, s, s[at := Field(s[at].name, Shape(to, s[at].shape.nullable))], rows, n)
         == if !s[at].shape.nullable && CastsToNull(cast, s[at].shape.kind, to, rows, at, n) then None
            else Some(CastAll(cast, s[at].shape.kind, to, rows, at)[..n])
  {
    if n > 0 {
      CastConvertsAll(cast, s, at, to, rows, n - 1);
      CastConverts(cast, s, at, to, rows[n - 1]);
      var all := CastAll(cast, s[at].shape.kind, to, rows, at);
      assert all[..n] == all[..n - 1] + [all[n - 1]];
    }
  }

  /**
   * Casting a column: refused; abandoned when a null would land in a column that
   * takes none; or every row has that value cast and the rest as they were.
   */
  method Cast(t: Table, name: string, to: nat, can: (nat, nat) -> bool, cast: Casts, sizes: seq<nat>, budget: nat)
    returns (u: Option<Table>)
    requires Ok(t) && t.memtable == [] && |sizes| == |t.segments|
    ensures RowsFit(Content(t), Shapes(t.schema))
    ensures CastColumn(t.schema, name, to, can).Refused? ==> u == None
    ensures CastColumn(t.schema, name, to, can) == Done(t.schema) ==> u == Some(t)
    ensures var at := IndexOf(t.schema, name);
            at.Some? && t.schema[at.value].shape.kind != to && can(t.schema[at.value].shape.kind, to) ==>
              var from := t.schema[at.value].shape;
              && (u.None? <==> !from.nullable && CastsToNull(cast, from.kind, to, Content(t), at.value, |Content(t)|))
              && (u.Some? ==> (
                    && Ok(u.value) && Done(u.value.schema) == CastColumn(t.schema, name, to, can)
                    && Content(u.value) == CastAll(cast, from.kind, to, Content(t), at.value)))
  {
    ReadsFit(t.schema, t.segments, |t.segments|);
    NothingMore(SegmentRows(t.schema, t.segments, |t.segments|));
    var at := IndexOf(t.schema, name);
    if at.None? {
      return None;
    }
    var from := t.schema[at.value].shape;
    if from.kind == to {
      return Some(t);
    }
    if !can(from.kind, to) {
      return None;
    }
    CastConvertsAll(cast, t.schema, at.value, to, Content(t), |Content(t)|);
    WholeSlice(CastAll(cast, from.kind, to, Content(t), at.value));
    u := SetSchemaAlone(t, t.schema[at.value := Field(name, Shape(to, from.nullable))], cast, sizes, budget);
  }

  lemma WholeSlice<T>(s: seq<T>)
    ensures s[..|s|] == s
  {
  }

  /** No value turned into null: a row's column is null after a cast only where it was before. */
  predicate NoValueLost(cast: Casts, from: nat, to: nat, rows: seq<Row>, at: nat)
    requires forall i :: 0 <= i < |rows| ==> at < |rows[i]|
  {
    forall i :: 0 <= i < |rows| && CastAll(cast, from, to, rows, at)[i][at].Null? ==> rows[i][at].Null?
  }

  /** Every stored value of the column has a counterpart in the new type. */
  predicate AllCastable(cast: Casts, from: nat, to: nat, rows: seq<Row>, at: nat)
    requires forall i :: 0 <= i < |rows| ==> at < |rows[i]|
  {
    forall i :: 0 <= i < |rows| && rows[i][at].Of? ==> cast(from, to, rows[i][at].v).Of?
  }

  /**
   * The documented promise is that a cast either fails or loses no value. It is
   * kept iff the column takes no nulls, or every value stored in it can be cast.
   */
  lemma {:induction false} CastKeepsPromiseIff(cast: Casts, s: Schema, at: nat, to: nat, rows: seq<Row>)
    requires DistinctNames(s) && at < |s| && RowsFit(rows, Shapes(s)) && s[at].shape.kind != to
    ensures var after := s[at := Field(s[at].name, Shape(to, s[at].shape.nullable))];
            (Converted(cast, s, after, rows).None? || NoValueLost(cast, s[at].shape.kind, to, rows, at))
            <==> !s[at].shape.nullable || AllCastable(cast, s[at].shape.kind, to, rows, at)
  {
    CastConvertsAll(cast, s, at, to, rows, |rows|);
    var from := s[at].shape.kind;
    forall i | 0 <= i < |rows|
      ensures CastAll(cast, from, to, rows, at)[i][at] == CastValue(cast, from, to, rows[i][at])
    {
    }
    if !s[at].shape.nullable {
      forall i | 0 <= i < |rows| && CastValue(cast, from, to, rows[i][at]).Null?
        ensures Converted(cast, s, s[at := Field(s[at].name, Shape(to, false))], rows).None?
      {
        assert CastsToNull(cast, from, to, rows, at, |rows|);
      }
    }
  }

  /** A cast to a type that ends at 255. */
  function Narrow(from: nat, to: nat, v: nat): Val {
    if v <= 255 then Of(v) else Null
  }

  /** One such input: a nullable column holding 300, cast to that type, commits a null for it. */
  lemma CastCommitsNull()
    ensures Converted(Narrow, [Field("n", Shape(16, true))], [Field("n", Shape(8, true))], [[Of(300)]]) == Some([[Null]])
  {
    var s := [Field("n", Shape(16, true))];
    CastConvertsAll(Narrow, s, 0, 8, [[Of(300)]], 1);
    assert s[0 := Field("n", Shape(8, true))] == [Field("n", Shape(8, true))];
    var all := CastAll(Narrow, 16, 8, [[Of(300)]], 0);
    assert all[0] == [[Of(300)]][0][0 := Narrow(16, 8, 300)] == [Null];
    assert all[..1] == all == [[Null]];
  }
}
