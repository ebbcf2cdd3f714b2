/** Skipping segments that cannot hold a row a filter list is true of. */
module Pruning {
  import opened Bytes
  import opened ByteOrder
  import opened Layout
  import opened ValueCodec
  import opened Bloom
  import opened Trigrams
  import opened Likes

  // ---- Filters and their meaning ------------------------------------------------------------

  /** The filter expressions pruning looks at; anything else is `Other`. */
  datatype Expr =
    | Conj(left: Expr, right: Expr)
    | Disj(left: Expr, right: Expr)
    | Negation(inner: Expr)
    | Like(negated: bool, subject: Expr, pattern: Expr, escape: Option<Scalar>, caseInsensitive: bool)
    | Column(name: string)
    | TextLiteral(text: Option<Text>)
    | Other(n: nat)

  datatype Truth = True | False | Unknown {
    function And(o: Truth): Truth {
      if False? || o.False? then False else if True? && o.True? then True else Unknown
    }

    function Or(o: Truth): Truth {
      if True? || o.True? then True else if False? && o.False? then False else Unknown
    }

    function Not(): Truth {
      if True? then False else if False? then True else Unknown
    }
  }

  /** One cell of a row, as far as text goes. */
  datatype Cell = NullCell | TextCell(text: Text) | OtherCell(n: nat)

  type Row = seq<Cell>

  /** What expressions that pruning does not look at mean. */
  type Meaning = (Expr, Row) -> Truth

  /** The first column with this name. */
  function IndexOfName(schema: seq<string>, name: string): (r: Option<nat>)
    ensures r.Some? ==> r.value < |schema| && schema[r.value] == name
    ensures r.None? ==> forall i :: 0 <= i < |schema| ==> schema[i] != name
    ensures r.Some? ==> forall i :: 0 <= i < r.value ==> schema[i] != name
  {
    if schema == [] then None
    else if schema[0] == name then Some(0)
    else
      var rest := IndexOfName(schema[1..], name);
      assert forall i :: 0 < i < |schema| ==> schema[i] == schema[1..][i - 1];
      if rest.Some? then Some(rest.value + 1) else None
  }

  /** The text an operand stands for; null and operands that are no text give none. */
  function TextOf(schema: seq<string>, row: Row, e: Expr): Option<Text> {
    match e
    case TextLiteral(t) => t
    case Column(name) =>
      var i := IndexOfName(schema, name);
      if i.Some? && i.value < |row| && row[i.value].TextCell? then Some(row[i.value].text) else None
    case _ => None
  }

  /** LIKE on a column with a literal pattern; what else an expression may be is left to `other`. */
  predicate Plain(e: Expr) {
    e.Like? && !e.caseInsensitive && e.escape.None? && e.subject.Column? && e.pattern.TextLiteral?
  }

  /** Three-valued logic over one row. */
  function Eval(schema: seq<string>, other: Meaning, e: Expr, row: Row): Truth {
    match e
    case Conj(l, r) => Eval(schema, other, l, row).And(Eval(schema, other, r, row))
    case Disj(l, r) => Eval(schema, other, l, row).Or(Eval(schema, other, r, row))
    case Negation(x) => Eval(schema, other, x, row).Not()
    case Like(negated, subject, pattern, _, _) =>
      if !Plain(e) then other(e, row)
      else
        var s, p := TextOf(schema, row, subject), TextOf(schema, row, pattern);
        var holds := if s.None? || p.None? then Unknown else if Matches(p.value, s.value) then True else False;
        if negated then holds.Not() else holds
    case _ => other(e, row)
  }

  // ---- Requirements ----------------------------------------------------------------------------

  /** Pieces a LIKE filter needs a segment to hold in one column. */
  datatype Requirement = Requirement(column: nat, trigrams: seq<Piece>)

  /** The pattern of a LIKE that pruning may act on. */
  function UsablePattern(schema: seq<string>, e: Expr): Option<(nat, Text)> {
    if Plain(e) && !e.negated && e.pattern.text.Some? then
      var i := IndexOfName(schema, e.subject.name);
      if i.Some? then Some((i.value, e.pattern.text.value)) else None
    else None
  }

  /** Requirement `r` is one that a LIKE under nothing but ANDs of `e` makes. */
  predicate RequiredBy(schema: seq<string>, e: Expr, r: Requirement) {
    if e.Conj? then RequiredBy(schema, e.left, r) || RequiredBy(schema, e.right, r)
    else
      var u := UsablePattern(schema, e);
      u.Some? && r.column == u.value.0 && Places(r.trigrams) == RunPieces(Fragments(u.value.1))
  }

  /** The columns and patterns a filter makes requirements of, left to right. */
  function Wanted(schema: seq<string>, e: Expr): seq<(nat, Text)> {
    if e.Conj? then Wanted(schema, e.left) + Wanted(schema, e.right)
    else
      var u := UsablePattern(schema, e);
      // no trigram, no requirement
      if u.None? || RunPieces(Fragments(u.value.1)) == {} then [] else [u.value]
  }

  /** The requirement holds each piece of that pattern once, for that column. */
  predicate Describes(r: Requirement, w: (nat, Text)) {
    r.column == w.0 && Places(r.trigrams) == RunPieces(Fragments(w.1)) && NoRepeats(r.trigrams)
  }

  predicate DescribesAll(found: seq<Requirement>, from: nat, wanted: seq<(nat, Text)>) {
    |found| == from + |wanted| && forall k :: 0 <= k < |wanted| ==> Describes(found[from + k], wanted[k])
  }

  /** Read a filter's requirements, left to right, behind those already found. */
  method CollectSubstrings(schema: seq<string>, e: Expr, before: seq<Requirement>) returns (found: seq<Requirement>)
    ensures before <= found && DescribesAll(found, |before|, Wanted(schema, e))
    decreases e
  {
    found := before;
    if e.Conj? {
      // a conjunction is true only if both conjuncts are
      var half := CollectSubstrings(schema, e.left, before);
      found := CollectSubstrings(schema, e.right, half);
      BothSides(found, before, half, Wanted(schema, e.left), Wanted(schema, e.right));
    } else if e.Like? {
      var u := UsablePattern(schema, e);
      if u.Some? {
        var trigrams := Required(u.value.1);
        if |trigrams| > 0 {
          assert IndexOf(trigrams[|trigrams| - 1]) in Places(trigrams);
          found := found + [Requirement(u.value.0, trigrams)];
        }
      }
    }
  }

  lemma BothSides(found: seq<Requirement>, before: seq<Requirement>, half: seq<Requirement>,
                  left: seq<(nat, Text)>, right: seq<(nat, Text)>)
    requires before <= half <= found
    requires DescribesAll(half, |before|, left) && DescribesAll(found, |half|, right)
    ensures before <= found && DescribesAll(found, |before|, left + right)
  {
    forall k | 0 <= k < |left + right|
      ensures Describes(found[|before| + k], (left + right)[k])
    {
      if k < |left| {
        assert half[|before| + k] == found[|before| + k];
        assert Describes(half[|before| + k], left[k]);
      } else {
        assert Describes(found[|half| + (k - |left|)], right[k - |left|]);
      }
    }
  }

  lemma {:induction false} WantedIsRequired(schema: seq<string>, e: Expr, k: nat, r: Requirement)
    requires k < |Wanted(schema, e)| && Describes(r, Wanted(schema, e)[k])
    ensures RequiredBy(schema, e, r)
    decreases e
  {
    if e.Conj? {
      var left := Wanted(schema, e.left);
      if k < |left| {
        WantedIsRequired(schema, e.left, k, r);
      } else {
        WantedIsRequired(schema, e.right, k - |left|, r);
      }
    }
  }

  function WantedOfAll(schema: seq<string>, filters: seq<Expr>): seq<(nat, Text)> {
    if filters == [] then []
    else WantedOfAll(schema, filters[..|filters| - 1]) + Wanted(schema, filters[|filters| - 1])
  }

  lemma {:induction false} SomeFilterWants(schema: seq<string>, filters: seq<Expr>, m: nat, r: Requirement) returns (k: nat)
    requires m < |WantedOfAll(schema, filters)| && Describes(r, WantedOfAll(schema, filters)[m])
    ensures k < |filters| && RequiredBy(schema, filters[k], r)
  {
    var init := filters[..|filters| - 1];
    var before := WantedOfAll(schema, init);
    if m < |before| {
      k := SomeFilterWants(schema, init, m, r);
    } else {
      k := |filters| - 1;
      WantedIsRequired(schema, filters[k], m - |before|, r);
    }
  }

  method SubstringRequirements(schema: seq<string>, filters: seq<Expr>) returns (found: seq<Requirement>)
    ensures DescribesAll(found, 0, WantedOfAll(schema, filters))
  {
    found := [];
    for k := 0 to |filters|
      invariant DescribesAll(found, 0, WantedOfAll(schema, filters[..k]))
    {
      assert filters[..k + 1][..k] == filters[..k];
      var more := CollectSubstrings(schema, filters[k], found);
      BothSides(more, [], found, WantedOfAll(schema, filters[..k]), Wanted(schema, filters[k]));
      found := more;
    }
    assert filters[..|filters|] == filters;
  }

  // ---- Segments ------------------------------------------------------------------------------------

  /** A segment's rows, and the trigram filters loaded for some of its columns. */
  datatype Segment = Segment(rows: seq<Row>, trigrams: seq<(nat, seq<Word>)>)

  /** The first filter loaded for a column. */
  function Find(filters: seq<(nat, seq<Word>)>, column: nat): Option<seq<Word>> {
    if filters == [] then None
    else if filters[0].0 == column then Some(filters[0].1)
    else Find(filters[1..], column)
  }

  /** The bytes of a column's text values; null and other cells have none. */
  function ColumnBytes(rows: seq<Row>, column: nat): (r: Trigrams.Column)
    ensures |r| == |rows|
  {
    seq(|rows|, i requires 0 <= i < |rows| =>
      if column < |rows[i]| && rows[i][column].TextCell? then Some(Utf8(rows[i][column].text)) else None)
  }

  /** The filter is one that was built over this column of these rows. */
  ghost predicate BuiltFor(sum: seq<byte> -> U64, words: seq<Word>, rows: seq<Row>, column: nat) {
    exists empty: seq<Word> :: Whole(empty) && Holding(empty, PieceHashes(sum, ColumnPieces(ColumnBytes(rows, column))), words)
  }

  /** Every loaded filter was built for the column it is filed under. */
  ghost predicate FiltersOk(sum: seq<byte> -> U64, s: Segment) {
    forall k :: 0 <= k < |s.trigrams| ==> BuiltFor(sum, s.trigrams[k].1, s.rows, s.trigrams[k].0)
  }

  lemma {:induction false} FoundIsBuilt(sum: seq<byte> -> U64, filters: seq<(nat, seq<Word>)>, rows: seq<Row>, column: nat)
    requires forall k :: 0 <= k < |filters| ==> BuiltFor(sum, filters[k].1, rows, filters[k].0)
    ensures Find(filters, column).Some? ==> BuiltFor(sum, Find(filters, column).value, rows, column)
  {
    if filters != [] && filters[0].0 != column {
      FoundIsBuilt(sum, filters[1..], rows, column);
    }
  }

  /** False only when the segment's filter is sure some required piece is absent. */
  predicate MayMatch(sum: seq<byte> -> U64, s: Segment, r: Requirement) {
    var filter := Find(s.trigrams, r.column);
    filter.None? || !Whole(filter.value) ||
    forall i :: 0 <= i < |r.trigrams| ==> MayContain(filter.value, sum(r.trigrams[i]))
  }

  // ---- Soundness -------------------------------------------------------------------------------

  /** A requirement of a filter that is true on a row holds of that row's text. */
  lemma {:induction false} TrueFilterMeetsRequirement(schema: seq<string>, other: Meaning, e: Expr, row: Row, r: Requirement)
    requires Eval(schema, other, e, row) == True && RequiredBy(schema, e, r)
    ensures r.column < |row| && row[r.column].TextCell?
    ensures Places(r.trigrams) <= PiecesOf(Utf8(row[r.column].text))
    decreases e
  {
    if e.Conj? {
      if RequiredBy(schema, e.left, r) {
        TrueFilterMeetsRequirement(schema, other, e.left, row, r);
      } else {
        TrueFilterMeetsRequirement(schema, other, e.right, row, r);
      }
    } else {
      var u := UsablePattern(schema, e);
      MatchHoldsPieces(u.value.1, row[r.column].text);
    }
  }

  lemma RowPieces(s: Segment, i: nat, column: nat)
    requires i < |s.rows| && column < |s.rows[i]| && s.rows[i][column].TextCell?
    ensures PiecesOf(Utf8(s.rows[i][column].text)) <= ColumnPieces(ColumnBytes(s.rows, column))
  {
    ValuePieces(ColumnBytes(s.rows, column), i);
  }

  /**
   * Substring pruning never drops a segment with a match: when a filter is true
   * of some row, by whatever route and under any reading of the expressions
   * pruning ignores, each of its requirements passes on the segment.
   */
  lemma PruningIsSound(sum: seq<byte> -> U64, schema: seq<string>, other: Meaning, e: Expr, s: Segment, i: nat, r: Requirement)
    requires FiltersOk(sum, s) && i < |s.rows|
    requires Eval(schema, other, e, s.rows[i]) == True && RequiredBy(schema, e, r)
    ensures MayMatch(sum, s, r)
  {
    TrueFilterMeetsRequirement(schema, other, e, s.rows[i], r);
    RowPieces(s, i, r.column);
    FoundIsBuilt(sum, s.trigrams, s.rows, r.column);
    var filter := Find(s.trigrams, r.column);
    if filter.Some? {
      var places := ColumnPieces(ColumnBytes(s.rows, r.column));
      var empty: seq<Word> :| Whole(empty) && Holding(empty, PieceHashes(sum, places), filter.value);
      forall k | 0 <= k < |r.trigrams|
        ensures MayContain(filter.value, sum(r.trigrams[k]))
      {
        InPlaces(r.trigrams, r.trigrams[k]);
        PieceRoundTrip(r.trigrams[k]);
        assert IndexOf(r.trigrams[k]) in places;
        NoFalseNegatives(empty, PieceHashes(sum, places), filter.value, sum(r.trigrams[k]));
      }
    }
  }

  /** The whole decision: keep the segment unless some requirement fails on it. */
  method KeepSegment(sum: seq<byte> -> U64, schema: seq<string>, filters: seq<Expr>, s: Segment, ghost other: Meaning)
    returns (keep: bool, ghost found: seq<Requirement>)
    requires FiltersOk(sum, s)
    ensures DescribesAll(found, 0, WantedOfAll(schema, filters))
    ensures keep <==> forall n :: 0 <= n < |found| ==> MayMatch(sum, s, found[n])
    ensures !keep ==> forall i :: 0 <= i < |s.rows| ==>
              exists k :: 0 <= k < |filters| && Eval(schema, other, filters[k], s.rows[i]) != True
  {
    var requirements := SubstringRequirements(schema, filters);
    found := requirements;
    keep := true;
    for n := 0 to |requirements|
      invariant keep <==> forall m :: 0 <= m < n ==> MayMatch(sum, s, requirements[m])
    {
      keep := keep && MayMatch(sum, s, requirements[n]);
    }
    if !keep {
      DroppedHasNoMatch(sum, schema, filters, s, other, found);
    }
  }

  lemma DroppedHasNoMatch(sum: seq<byte> -> U64, schema: seq<string>, filters: seq<Expr>, s: Segment, other: Meaning,
                          found: seq<Requirement>)
    requires FiltersOk(sum, s) && DescribesAll(found, 0, WantedOfAll(schema, filters))
    requires exists n :: 0 <= n < |found| && !MayMatch(sum, s, found[n])
    ensures forall i :: 0 <= i < |s.rows| ==>
              exists k :: 0 <= k < |filters| && Eval(schema, other, filters[k], s.rows[i]) != True
  {
    var m :| 0 <= m < |found| && !MayMatch(sum, s, found[m]);
    assert Describes(found[0 + m], WantedOfAll(schema, filters)[m]);
    var k := SomeFilterWants(schema, filters, m, found[m]);
    forall i | 0 <= i < |s.rows|
      ensures Eval(schema, other, filters[k], s.rows[i]) != True
    {
      if Eval(schema, other, filters[k], s.rows[i]) == True {
        PruningIsSound(sum, schema, other, filters[k], s, i, found[m]);
      }
    }
  }

  // ---- Equality ----------------------------------------------------------------------------------

  /** Whether a segment's filter rules out every value asked for. */
  predicate RuledOut(sum: seq<byte> -> U64, t: Type, probes: seq<Option<Value>>, filter: Option<seq<Word>>)
    requires t.Ok() && t.Encodable() && (filter.Some? ==> Whole(filter.value))
    requires forall i :: 0 <= i < |probes| && probes[i].Some? ==> probes[i].value.HasType(t)
  {
    filter.Some? && AllAbsent(sum, t, probes, filter.value)
  }

  /**
   * What membership filters say of a set of values, segment by segment: `false`
   * where a segment certainly holds none of them, nothing otherwise. A value
   * that could not be read as the column's type says nothing about any segment,
   * and there is no answer at all without values or without a segment ruled out.
   */
  method Contained(sum: seq<byte> -> U64, t: Type, probes: seq<Option<Value>>, filters: seq<Option<seq<Word>>>)
    returns (answer: Option<seq<Option<bool>>>)
    requires t.Ok() && t.Encodable()
    requires forall i :: 0 <= i < |probes| && probes[i].Some? ==> probes[i].value.HasType(t) && !probes[i].value.Null?
    requires forall i :: 0 <= i < |filters| && filters[i].Some? ==> Whole(filters[i].value)
    ensures answer.Some? <==> probes != [] && exists i :: 0 <= i < |filters| && RuledOut(sum, t, probes, filters[i])
    ensures answer.Some? ==>
              && |answer.value| == |filters|
              && forall i :: 0 <= i < |filters| ==>
                   answer.value[i] == if RuledOut(sum, t, probes, filters[i]) then Some(false) else None
  {
    if |probes| == 0 {
      return None;
    }
    var verdicts: seq<Option<bool>>, anyKnown := [], false;
    for i := 0 to |filters|
      invariant |verdicts| == i
      invariant anyKnown <==> exists k :: 0 <= k < i && RuledOut(sum, t, probes, filters[k])
      invariant forall k :: 0 <= k < i ==>
                  verdicts[k] == if RuledOut(sum, t, probes, filters[k]) then Some(false) else None
    {
      var verdict: Option<bool> := None;
      if filters[i].Some? && AllAbsent(sum, t, probes, filters[i].value) {
        anyKnown, verdict := true, Some(false);
      }
      verdicts := verdicts + [verdict];
    }
    answer := if anyKnown then Some(verdicts) else None;
  }

  predicate AllAbsent(sum: seq<byte> -> U64, t: Type, probes: seq<Option<Value>>, words: seq<Word>)
    requires t.Ok() && t.Encodable() && Whole(words)
    requires forall i :: 0 <= i < |probes| && probes[i].Some? ==> probes[i].value.HasType(t)
  {
    forall i :: 0 <= i < |probes| ==> probes[i].Some? && !MayContain(words, HashOf(sum, t, probes[i].value))
  }

  /** A segment ruled out holds no value equal to any of those asked for. */
  lemma ContainedIsSound(sum: seq<byte> -> U64, t: Type, column: seq<Value>, probes: seq<Option<Value>>,
                         empty: seq<Word>, words: seq<Word>)
    requires ColumnOk(t, column) && t.Encodable() && Whole(empty) && Holding(empty, Hashes(sum, t, column), words)
    requires forall i :: 0 <= i < |probes| && probes[i].Some? ==> probes[i].value.HasType(t) && !probes[i].value.Null?
    requires AllAbsent(sum, t, probes, words)
    ensures forall i, k :: 0 <= i < |column| && 0 <= k < |probes| ==>
              probes[k].Some? && CompareValues(t, column[i], probes[k].value) != Same
  {
    forall i, k | 0 <= i < |column| && 0 <= k < |probes|
      ensures probes[k].Some? && CompareValues(t, column[i], probes[k].value) != Same
    {
      AbsentMeansAbsent(sum, t, column, empty, words, probes[k].value);
    }
  }
}
