/** The rows a page selection and a delete mask leave to read. */
module ReadRanges {
  import opened Bytes
  import opened Layout
  import opened Segments
  import opened Columns
  import opened Sequences

  /** A run of rows: where it starts, and how many. */
  datatype Range = Range(start: nat, len: nat) {
    function End(): nat { start + len }
  }

  /** The positions of a run, in order. */
  function Run(start: nat, len: nat): (r: seq<nat>)
    ensures |r| == len
  {
    if len == 0 then [] else Run(start, len - 1) + [start + len - 1]
  }

  lemma {:induction false} RunAt(start: nat, len: nat)
    ensures forall i :: 0 <= i < len ==> Run(start, len)[i] == start + i
  {
    if len > 0 {
      RunAt(start, len - 1);
    }
  }

  lemma {:induction false} RunJoins(start: nat, a: nat, b: nat)
    ensures Run(start, a) + Run(start + a, b) == Run(start, a + b)
  {
    if b == 0 {
      assert Run(start, a) + [] == Run(start, a);
    } else {
      RunJoins(start, a, b - 1);
      Associates(Run(start, a), Run(start + a, b - 1), [start + a + b - 1]);
    }
  }

  /** The positions the first `n` ranges cover, range by range. */
  function PositionsTo(ranges: seq<Range>, n: nat): seq<nat>
    requires n <= |ranges|
  {
    if n == 0 then [] else PositionsTo(ranges, n - 1) + Run(ranges[n - 1].start, ranges[n - 1].len)
  }

  function Positions(ranges: seq<Range>): seq<nat> {
    PositionsTo(ranges, |ranges|)
  }

  lemma {:induction false} PositionsSame(a: seq<Range>, b: seq<Range>, n: nat)
    requires n <= |a| && n <= |b| && forall i :: 0 <= i < n ==> a[i] == b[i]
    ensures PositionsTo(a, n) == PositionsTo(b, n)
  {
    if n > 0 {
      PositionsSame(a, b, n - 1);
    }
  }

  lemma PositionsPush(ranges: seq<Range>, r: Range)
    ensures Positions(ranges + [r]) == Positions(ranges) + Run(r.start, r.len)
  {
    PositionsSame(ranges + [r], ranges, |ranges|);
  }

  lemma {:induction false} PositionsConcat(a: seq<Range>, b: seq<Range>, n: nat)
    requires n <= |b|
    ensures PositionsTo(a + b, |a| + n) == Positions(a) + PositionsTo(b, n)
  {
    if n == 0 {
      PositionsSame(a + b, a, |a|);
      assert Positions(a) + [] == Positions(a);
    } else {
      PositionsConcat(a, b, n - 1);
      assert (a + b)[|a| + n - 1] == b[n - 1];
      Associates(Positions(a), PositionsTo(b, n - 1), Run(b[n - 1].start, b[n - 1].len));
    }
  }

  // ---- Pages ---------------------------------------------------------------------------------

  /** Page `page` as a range within the segment's rows, if it starts there. */
  function PageRange(rows: nat, pageRows: nat, page: nat): Option<Range> {
    var start := BlockStart(pageRows, page);
    if pageRows == 0 || start >= rows then None
    else Some(Range(start, Least(pageRows, rows - start)))
  }

  /** The positions page `page` hands on. */
  function PageRun(rows: nat, pageRows: nat, page: nat, wanted: bool): seq<nat> {
    var range := PageRange(rows, pageRows, page);
    if wanted && range.Some? then Run(range.value.start, range.value.len) else []
  }

  /** The positions in the first `n` pages that are kept. */
  function KeptTo(keep: seq<bool>, rows: nat, pageRows: nat, n: nat): seq<nat>
    requires n <= |keep|
  {
    if n == 0 then [] else KeptTo(keep, rows, pageRows, n - 1) + PageRun(rows, pageRows, n - 1, keep[n - 1])
  }

  /** Non-empty ranges up to `end`, in order, no two touching. */
  predicate Apart(ranges: seq<Range>, end: nat) {
    && (forall i :: 0 <= i < |ranges| ==> 0 < ranges[i].len)
    && (forall i :: 0 < i < |ranges| ==> ranges[i - 1].End() < ranges[i].start)
    && (ranges != [] ==> ranges[|ranges| - 1].End() <= end)
  }

  /** As few ranges as cover exactly the kept pages' rows. */
  method KeptRanges(rows: nat, pageRows: nat, keep: seq<bool>) returns (ranges: seq<Range>)
    ensures Positions(ranges) == KeptTo(keep, rows, pageRows, |keep|)
    ensures Apart(ranges, rows) && forall i :: 0 <= i < |ranges| ==> ranges[i].End() <= rows
  {
    ranges := [];
    for page := 0 to |keep|
      invariant Positions(ranges) == KeptTo(keep, rows, pageRows, page)
      invariant Apart(ranges, Least(rows, BlockStart(pageRows, page)))
    {
      ranges := AddPage(ranges, rows, pageRows, page, keep[page]);
    }
    ApartEnds(ranges, Least(rows, BlockStart(pageRows, |keep|)));
  }

  method AddPage(before: seq<Range>, rows: nat, pageRows: nat, page: nat, wanted: bool) returns (ranges: seq<Range>)
    requires Apart(before, Least(rows, BlockStart(pageRows, page)))
    ensures Positions(ranges) == Positions(before) + PageRun(rows, pageRows, page, wanted)
    ensures Apart(ranges, Least(rows, BlockStart(pageRows, page + 1)))
  {
    ranges := before;
    PageEnds(rows, pageRows, page);
    var range := PageRange(rows, pageRows, page);
    if !wanted || range.None? {
      NothingMore(Positions(before));
      return;
    }
    ranges := AddRange(before, range.value);
  }

  /** Pages follow one another, clamped to the segment. */
  lemma PageEnds(rows: nat, pageRows: nat, page: nat)
    ensures Least(rows, BlockStart(pageRows, page)) <= Least(rows, BlockStart(pageRows, page + 1))
    ensures var r := PageRange(rows, pageRows, page);
            r.Some? ==>
              && r.value.len > 0
              && r.value.start == Least(rows, BlockStart(pageRows, page))
              && r.value.End() == Least(rows, BlockStart(pageRows, page + 1))
  {
  }

  lemma {:induction false} ApartEnds(ranges: seq<Range>, end: nat)
    requires Apart(ranges, end)
    ensures forall i :: 0 <= i < |ranges| ==> ranges[i].End() <= end
    decreases |ranges|
  {
    if |ranges| > 1 {
      var n := |ranges| - 1;
      ApartEnds(ranges[..n], ranges[n].start);
      assert forall i :: 0 <= i < n ==> ranges[i] == ranges[..n][i];
    }
  }

  method AddRange(before: seq<Range>, r: Range) returns (ranges: seq<Range>)
    requires Apart(before, r.start) && r.len > 0
    ensures Positions(ranges) == Positions(before) + Run(r.start, r.len)
    ensures Apart(ranges, r.End())
  {
    if before != [] && before[|before| - 1].End() == r.start {
      var n := |before| - 1;
      ranges := before[n := Range(before[n].start, before[n].len + r.len)];
      ExtendLast(before, r, ranges);
    } else {
      PositionsPush(before, r);
      ranges := before + [r];
    }
  }

  lemma ExtendLast(before: seq<Range>, r: Range, ranges: seq<Range>)
    requires before != []
    requires var last := before[|before| - 1];
             last.End() == r.start && ranges == before[|before| - 1 := Range(last.start, last.len + r.len)]
    ensures Positions(ranges) == Positions(before) + Run(r.start, r.len)
  {
    var n := |before| - 1;
    PositionsSame(ranges, before, n);
    RunJoins(before[n].start, before[n].len, r.len);
    Associates(PositionsTo(before, n), Run(before[n].start, before[n].len), Run(r.start, r.len));
  }

  // ---- Blocks ---------------------------------------------------------------------------------

  /** The range lies inside one block. */
  ghost predicate InOneBlock(r: Range, blockRows: nat) {
    exists k: nat :: BlockStart(blockRows, k) <= r.start && r.End() <= BlockStart(blockRows, k + 1)
  }

  /** The same positions in the same order, each range inside one block. */
  method SplitAtBlocks(ranges: seq<Range>, blockRows: nat, ghost rows: nat) returns (out: seq<Range>)
    requires forall i :: 0 <= i < |ranges| ==> ranges[i].End() <= rows
    ensures Positions(out) == Positions(ranges)
    ensures forall i :: 0 <= i < |out| ==> out[i].End() <= rows
    ensures blockRows == 0 ==> out == ranges
    ensures blockRows > 0 ==> forall i :: 0 <= i < |out| ==> out[i].len > 0 && InOneBlock(out[i], blockRows)
  {
    if blockRows == 0 {
      return ranges;
    }
    out := [];
    for i := 0 to |ranges|
      invariant Positions(out) == PositionsTo(ranges, i)
      invariant forall k :: 0 <= k < |out| ==> out[k].End() <= rows
      invariant forall k :: 0 <= k < |out| ==> out[k].len > 0 && InOneBlock(out[k], blockRows)
    {
      var pieces := SplitOne(ranges[i], blockRows);
      PositionsConcat(out, pieces, |pieces|);
      out := out + pieces;
    }
  }

  method SplitOne(r: Range, blockRows: nat) returns (out: seq<Range>)
    requires blockRows > 0
    ensures Positions(out) == Run(r.start, r.len)
    ensures forall k :: 0 <= k < |out| ==> out[k].End() <= r.End()
    ensures forall k :: 0 <= k < |out| ==> out[k].len > 0 && InOneBlock(out[k], blockRows)
  {
    out := [];
    var at, end := r.start, r.End();
    while at < end
      invariant r.start <= at <= end
      invariant Positions(out) == Run(r.start, at - r.start)
      invariant forall k :: 0 <= k < |out| ==> out[k].End() <= r.End()
      invariant forall k :: 0 <= k < |out| ==> out[k].len > 0 && InOneBlock(out[k], blockRows)
      decreases end - at
    {
      // up to the next block or to the range's end, whichever comes first
      var block := BlockOf(at, blockRows);
      var boundary := BlockStart(blockRows, block + 1);
      var piece := Least(end, boundary) - at;
      PositionsPush(out, Range(at, piece));
      RunJoins(r.start, at - r.start, piece);
      assert InOneBlock(Range(at, piece), blockRows);
      out := out + [Range(at, piece)];
      at := at + piece;
    }
  }

  // ---- Rows ------------------------------------------------------------------------------------

  /** The rows at the first `n` of those positions that are not deleted, in order. */
  function LiveTo<T>(rows: seq<T>, positions: seq<nat>, n: nat, dead: set<nat>): seq<T>
    requires n <= |positions| && forall i :: 0 <= i < n ==> positions[i] < |rows|
  {
    if n == 0 then []
    else LiveTo(rows, positions, n - 1, dead) + (if positions[n - 1] in dead then [] else [rows[positions[n - 1]]])
  }

  function LiveAt<T>(rows: seq<T>, positions: seq<nat>, dead: set<nat>): seq<T>
    requires forall i :: 0 <= i < |positions| ==> positions[i] < |rows|
  {
    LiveTo(rows, positions, |positions|, dead)
  }

  lemma {:induction false} LiveSame<T>(rows: seq<T>, a: seq<nat>, b: seq<nat>, n: nat, dead: set<nat>)
    requires n <= |a| && n <= |b| && forall i :: 0 <= i < n ==> a[i] == b[i] < |rows|
    ensures LiveTo(rows, a, n, dead) == LiveTo(rows, b, n, dead)
  {
    if n > 0 {
      LiveSame(rows, a, b, n - 1, dead);
    }
  }

  lemma {:induction false} LiveAtConcat<T>(rows: seq<T>, a: seq<nat>, b: seq<nat>, n: nat, dead: set<nat>)
    requires n <= |b| && forall i :: 0 <= i < |a| ==> a[i] < |rows|
    requires forall i :: 0 <= i < |b| ==> b[i] < |rows|
    ensures LiveTo(rows, a + b, |a| + n, dead) == LiveAt(rows, a, dead) + LiveTo(rows, b, n, dead)
  {
    if n == 0 {
      LiveSame(rows, a + b, a, |a|, dead);
      assert LiveAt(rows, a, dead) + [] == LiveAt(rows, a, dead);
    } else {
      LiveAtConcat(rows, a, b, n - 1, dead);
      assert (a + b)[|a| + n - 1] == b[n - 1];
      Associates(LiveAt(rows, a, dead), LiveTo(rows, b, n - 1, dead), if b[n - 1] in dead then [] else [rows[b[n - 1]]]);
    }
  }

  /** The rows of the first `n` batches. */
  function FlattenTo<T>(batches: seq<seq<T>>, n: nat): seq<T>
    requires n <= |batches|
  {
    if n == 0 then [] else FlattenTo(batches, n - 1) + batches[n - 1]
  }

  function Flatten<T>(batches: seq<seq<T>>): seq<T> {
    FlattenTo(batches, |batches|)
  }

  lemma {:induction false} FlattenSame<T>(a: seq<seq<T>>, b: seq<seq<T>>, n: nat)
    requires n <= |a| && n <= |b| && forall i :: 0 <= i < n ==> a[i] == b[i]
    ensures FlattenTo(a, n) == FlattenTo(b, n)
  {
    if n > 0 {
      FlattenSame(a, b, n - 1);
    }
  }

  lemma {:induction false} FlattenConcat<T>(a: seq<seq<T>>, b: seq<seq<T>>, n: nat)
    requires n <= |b|
    ensures FlattenTo(a + b, |a| + n) == Flatten(a) + FlattenTo(b, n)
  {
    if n == 0 {
      FlattenSame(a + b, a, |a|);
      assert Flatten(a) + [] == Flatten(a);
    } else {
      FlattenConcat(a, b, n - 1);
      assert (a + b)[|a| + n - 1] == b[n - 1];
      Associates(Flatten(a), FlattenTo(b, n - 1), b[n - 1]);
    }
  }

  /** `true` exactly at the positions not deleted. */
  method KeepMask(rows: nat, dead: set<nat>) returns (mask: seq<bool>)
    ensures |mask| == rows && forall i :: 0 <= i < rows ==> (mask[i] <==> i !in dead)
  {
    mask := seq(rows, _ => true);
    var todo := dead;
    while todo != {}
      invariant |mask| == rows && todo <= dead
      invariant forall i :: 0 <= i < rows ==> (mask[i] <==> i !in dead || i in todo)
      decreases todo
    {
      var position :| position in todo;
      if position < rows {
        mask := mask[position := false];
      }
      todo := todo - {position};
    }
  }

  ghost predicate FitsRun(r: Range, rows: nat) {
    forall i :: 0 <= i < r.len ==> Run(r.start, r.len)[i] < rows
  }

  /** The rows of a decoded range that the mask keeps. */
  method FilterRange<T>(page: seq<T>, r: Range, mask: seq<bool>, ghost rows: seq<T>, ghost dead: set<nat>)
    returns (kept: seq<T>)
    requires r.End() <= |rows| == |mask| && page == rows[r.start..r.End()]
    requires forall i :: 0 <= i < |mask| ==> (mask[i] <==> i !in dead)
    ensures FitsRun(r, |rows|)
    ensures kept == LiveAt(rows, Run(r.start, r.len), dead)
  {
    kept := [];
    RunAt(r.start, r.len);
    for i := 0 to r.len
      invariant kept == LiveTo(rows, Run(r.start, r.len), i, dead)
    {
      assert page[i] == rows[r.start + i];
      if mask[r.start + i] {
        kept := kept + [page[i]];
      }
    }
  }

  /** The batch in pieces, all of `max` rows but the last; in one piece when `max` is zero. */
  method SliceBatches<T>(batch: seq<T>, max: nat) returns (out: seq<seq<T>>)
    ensures Flatten(out) == batch
    ensures forall i :: 0 <= i < |out| ==> 0 < |out[i]| && (max > 0 ==> |out[i]| <= max)
    ensures max > 0 ==> forall i :: 0 <= i < |out| - 1 ==> |out[i]| == max
  {
    out := [];
    if |batch| == 0 {
      return;
    }
    if max == 0 || |batch| <= max {
      OneBatch(batch);
      return [batch];
    }
    var start := 0;
    while start < |batch|
      invariant start <= |batch| && Flatten(out) == batch[..start]
      invariant Sliced(out, max) && (start < |batch| ==> AllFull(out, max))
      decreases |batch| - start
    {
      var len := Least(max, |batch| - start);
      SliceOne(out, batch, start, len);
      out := out + [batch[start..start + len]];
      start := start + len;
    }
    assert batch[..|batch|] == batch;
  }

  predicate AllFull<T>(out: seq<seq<T>>, max: nat) {
    forall i :: 0 <= i < |out| ==> |out[i]| == max
  }

  /** Pieces within the limit, all full but the last. */
  predicate Sliced<T>(out: seq<seq<T>>, max: nat) {
    && (forall i :: 0 <= i < |out| ==> 0 < |out[i]| <= max)
    && (forall i :: 0 <= i < |out| - 1 ==> |out[i]| == max)
  }

  lemma SliceOne<T>(out: seq<seq<T>>, batch: seq<T>, start: nat, len: nat)
    requires start + len <= |batch| && Flatten(out) == batch[..start]
    ensures Flatten(out + [batch[start..start + len]]) == batch[..start + len]
  {
    var piece := batch[start..start + len];
    FlattenSame(out + [piece], out, |out|);
    assert batch[..start + len] == batch[..start] + piece;
  }

  lemma OneBatch<T>(batch: seq<T>)
    ensures Flatten([batch]) == batch
  {
    var one := [batch];
    assert FlattenTo(one, 0) == [] && FlattenTo(one, 1) == FlattenTo(one, 0) + batch;
  }

  // ---- Decoding rows -----------------------------------------------------------------------------

  /** One row of a projection. */
  type Row = seq<Item>

  /** What a segment was written from, read as `width` columns: `absent` stands in for those it does not have. */
  datatype Written = Written(columns: seq<Column>, rows: nat, width: nat, absent: nat -> Item) {
    ghost predicate Ok() {
      && AllOk(columns) && |columns| <= width
      && forall k :: 0 <= k < |columns| ==> |columns[k].rows| == rows
    }

    /** What a segment holds at row `i` of column `p`. */
    function Cell(p: nat, i: nat): Item {
      if p < |columns| && i < |columns[p].rows| then columns[p].rows[i] else absent(p)
    }

    /** Row `i` of the projected columns. */
    function RowOf(projection: seq<nat>, i: nat): (r: Row)
      ensures |r| == |projection| && forall k :: 0 <= k < |projection| ==> r[k] == Cell(projection[k], i)
    {
      seq(|projection|, k requires 0 <= k < |projection| => Cell(projection[k], i))
    }

    function Rows(projection: seq<nat>): (r: seq<Row>)
      ensures |r| == rows && forall i :: 0 <= i < rows ==> r[i] == RowOf(projection, i)
    {
      seq(rows, i requires 0 <= i < rows => RowOf(projection, i))
    }
  }

  /** The cells of column `p` over `r`, all absent when the segment was written without it. */
  method ReadColumn(bytes: seq<byte>, chunks: seq<Chunk>, w: Written, p: nat, r: Range) returns (cells: seq<Item>)
    requires w.Ok() && ColumnsOk(bytes, chunks, w.columns) && r.End() <= w.rows
    ensures |cells| == r.len && forall i :: 0 <= i < r.len ==> cells[i] == w.Cell(p, r.start + i)
  {
    if p >= |chunks| {
      cells := seq(r.len, _ => w.absent(p));
      return;
    }
    cells := ReadStored(bytes, chunks, w.columns, p, r.start, r.len);
    SliceCells(w, p, r, cells);
  }

  lemma SliceCells(w: Written, p: nat, r: Range, cells: seq<Item>)
    requires p < |w.columns| && |w.columns[p].rows| == w.rows && r.End() <= w.rows
    requires cells == w.columns[p].rows[r.start..r.End()]
    ensures forall i :: 0 <= i < r.len ==> cells[i] == w.Cell(p, r.start + i)
  {
  }

  predicate InSchema(projection: seq<nat>, width: nat) {
    forall k :: 0 <= k < |projection| ==> projection[k] < width
  }

  /** The first `n` cells of each row of a range. */
  predicate HasCells(rows: seq<Row>, w: Written, projection: seq<nat>, r: Range, n: nat)
    requires n <= |projection|
  {
    && |rows| == r.len
    && forall i :: 0 <= i < r.len ==>
         |rows[i]| == n && forall j :: 0 <= j < n ==> rows[i][j] == w.Cell(projection[j], r.start + i)
  }

  lemma AllCells(rows: seq<Row>, w: Written, projection: seq<nat>, r: Range)
    requires HasCells(rows, w, projection, r, |projection|) && r.End() <= w.rows
    ensures rows == w.Rows(projection)[r.start..r.End()]
  {
    var all := w.Rows(projection);
    forall i | 0 <= i < r.len
      ensures rows[i] == all[r.start + i]
    {
      assert all[r.start + i] == w.RowOf(projection, r.start + i);
    }
  }

  /** The projected rows over `r`; `None` when the projection leaves the schema. */
  method ReadRows(bytes: seq<byte>, chunks: seq<Chunk>, w: Written, projection: seq<nat>, r: Range) returns (page: Option<seq<Row>>)
    requires w.Ok() && ColumnsOk(bytes, chunks, w.columns) && r.End() <= w.rows
    ensures page == if InSchema(projection, w.width) then Some(w.Rows(projection)[r.start..r.End()]) else None
  {
    for k := 0 to |projection|
      invariant forall j :: 0 <= j < k ==> projection[j] < w.width
    {
      if projection[k] >= w.width {
        return None;
      }
    }
    var rows: seq<Row> := seq(r.len, _ => []);
    for k := 0 to |projection|
      invariant HasCells(rows, w, projection, r, k)
    {
      var cells := ReadColumn(bytes, chunks, w, projection[k], r);
      rows := AddCells(rows, cells, w, projection, r, k);
    }
    AllCells(rows, w, projection, r);
    page := Some(rows);
  }

  method AddCells(before: seq<Row>, cells: seq<Item>, ghost w: Written, ghost projection: seq<nat>, ghost r: Range, ghost k: nat)
    returns (rows: seq<Row>)
    requires k < |projection| && HasCells(before, w, projection, r, k)
    requires |cells| == r.len && forall i :: 0 <= i < r.len ==> cells[i] == w.Cell(projection[k], r.start + i)
    ensures HasCells(rows, w, projection, r, k + 1)
  {
    rows := seq(|before|, i requires 0 <= i < |before| && i < |cells| => before[i] + [cells[i]]);
  }

  // ---- A whole segment ---------------------------------------------------------------------------

  /** The positions a reader hands on: all of them, or those of the kept pages. */
  function Wanted(rows: nat, pageRows: nat, keep: Option<seq<bool>>): seq<nat> {
    if keep.None? then Run(0, rows) else KeptTo(keep.value, rows, pageRows, |keep.value|)
  }

  /**
   * Read one segment from its bytes: exactly the undeleted rows of the pages
   * kept, as they were written, in order, once each, in batches no larger than
   * asked for.
   */
  method ReadSegment(bytes: seq<byte>, chunks: seq<Chunk>, w: Written, projection: seq<nat>, pageRows: nat,
                     keep: Option<seq<bool>>, dead: set<nat>, blockRows: nat, batchRows: nat)
    returns (out: Option<seq<seq<Row>>>)
    requires w.Ok() && ColumnsOk(bytes, chunks, w.columns)
    ensures InSchema(projection, w.width) ==> out.Some?
    ensures !InSchema(projection, w.width) && Wanted(w.rows, pageRows, keep) != [] ==> out.None?
    ensures WantedFit(w.rows, pageRows, keep)
    ensures out.Some? ==>
              && Flatten(out.value) == LiveAt(w.Rows(projection), Wanted(w.rows, pageRows, keep), dead)
              && forall i :: 0 <= i < |out.value| ==> 0 < |out.value[i]| && (batchRows > 0 ==> |out.value[i]| <= batchRows)
  {
    var mask := KeepMask(w.rows, dead);
    WantedInSegment(w.rows, pageRows, keep);
    var ranges := [Range(0, w.rows)];
    if keep.Some? {
      ranges := KeptRanges(w.rows, pageRows, keep.value);
    } else {
      OneRange(Range(0, w.rows));
    }
    assert Positions(ranges) == Wanted(w.rows, pageRows, keep);
    ranges := SplitAtBlocks(ranges, blockRows, w.rows);
    out := ReadRangeList(bytes, chunks, w, projection, ranges, mask, dead, batchRows);
  }

  /** Decode one range, drop its deleted rows, and cut what is left into batches. */
  method ReadOneRange(bytes: seq<byte>, chunks: seq<Chunk>, w: Written, projection: seq<nat>, r: Range,
                      mask: seq<bool>, ghost dead: set<nat>, batchRows: nat) returns (out: Option<seq<seq<Row>>>)
    requires w.Ok() && ColumnsOk(bytes, chunks, w.columns) && r.End() <= w.rows
    requires |mask| == w.rows && forall i :: 0 <= i < |mask| ==> (mask[i] <==> i !in dead)
    ensures out.Some? <==> InSchema(projection, w.width)
    ensures FitsRun(r, w.rows)
    ensures out.Some? ==>
              && Flatten(out.value) == LiveAt(w.Rows(projection), Run(r.start, r.len), dead)
              && forall i :: 0 <= i < |out.value| ==> 0 < |out.value[i]| && (batchRows > 0 ==> |out.value[i]| <= batchRows)
  {
    RunAt(r.start, r.len);
    var page := ReadRows(bytes, chunks, w, projection, r);
    if page.None? {
      return None;
    }
    var kept := FilterRange(page.value, r, mask, w.Rows(projection), dead);
    var batches := SliceBatches(kept, batchRows);
    out := Some(batches);
  }

  method ReadRangeList(bytes: seq<byte>, chunks: seq<Chunk>, w: Written, projection: seq<nat>, ranges: seq<Range>,
                       mask: seq<bool>, ghost dead: set<nat>, batchRows: nat) returns (out: Option<seq<seq<Row>>>)
    requires w.Ok() && ColumnsOk(bytes, chunks, w.columns)
    requires |mask| == w.rows && forall i :: 0 <= i < |mask| ==> (mask[i] <==> i !in dead)
    requires forall i :: 0 <= i < |ranges| ==> ranges[i].End() <= w.rows
    ensures FitTo(ranges, |ranges|, w.rows)
    ensures InSchema(projection, w.width) ==> out.Some?
    ensures !InSchema(projection, w.width) && ranges != [] ==> out.None?
    ensures out.Some? ==>
              && Flatten(out.value) == LiveAt(w.Rows(projection), Positions(ranges), dead)
              && forall i :: 0 <= i < |out.value| ==> 0 < |out.value[i]| && (batchRows > 0 ==> |out.value[i]| <= batchRows)
  {
    RangesFit(ranges, |ranges|, w.rows);
    ghost var rows := w.Rows(projection);
    var batches: seq<seq<Row>> := [];
    for i := 0 to |ranges|
      invariant FitTo(ranges, i, w.rows) && Flatten(batches) == LiveAt(rows, PositionsTo(ranges, i), dead)
      invariant forall k :: 0 <= k < |batches| ==> 0 < |batches[k]| && (batchRows > 0 ==> |batches[k]| <= batchRows)
      invariant i > 0 ==> InSchema(projection, w.width)
    {
      var read := ReadOneRange(bytes, chunks, w, projection, ranges[i], mask, dead, batchRows);
      if read.None? {
        return None;
      }
      OneMoreRange(rows, ranges, i, dead, batches, read.value);
      batches := batches + read.value;
    }
    out := Some(batches);
  }

  lemma OneMoreRange(rows: seq<Row>, ranges: seq<Range>, i: nat, dead: set<nat>, batches: seq<seq<Row>>, more: seq<seq<Row>>)
    requires i < |ranges| && FitTo(ranges, i, |rows|) && ranges[i].End() <= |rows| && FitsRun(ranges[i], |rows|)
    requires Flatten(batches) == LiveAt(rows, PositionsTo(ranges, i), dead)
    requires Flatten(more) == LiveAt(rows, Run(ranges[i].start, ranges[i].len), dead)
    ensures FitTo(ranges, i + 1, |rows|)
    ensures Flatten(batches + more) == LiveAt(rows, PositionsTo(ranges, i + 1), dead)
  {
    RangeFits(ranges, i, |rows|);
    LiveAtConcat(rows, PositionsTo(ranges, i), Run(ranges[i].start, ranges[i].len), ranges[i].len, dead);
    FlattenConcat(batches, more, |more|);
  }

  lemma {:induction false} RangesFit(ranges: seq<Range>, n: nat, rows: nat)
    requires n <= |ranges| && forall i :: 0 <= i < |ranges| ==> ranges[i].End() <= rows
    ensures FitTo(ranges, n, rows)
  {
    if n > 0 {
      RangesFit(ranges, n - 1, rows);
      RangeFits(ranges, n - 1, rows);
    }
  }

  ghost predicate FitTo(ranges: seq<Range>, n: nat, rows: nat)
    requires n <= |ranges|
  {
    forall i :: 0 <= i < |PositionsTo(ranges, n)| ==> PositionsTo(ranges, n)[i] < rows
  }

  lemma RangeFits(ranges: seq<Range>, i: nat, rows: nat)
    requires i < |ranges| && FitTo(ranges, i, rows) && ranges[i].End() <= rows
    ensures FitTo(ranges, i + 1, rows)
  {
    RunAt(ranges[i].start, ranges[i].len);
    var before, run := PositionsTo(ranges, i), Run(ranges[i].start, ranges[i].len);
    forall k | 0 <= k < |before + run|
      ensures (before + run)[k] < rows
    {
      if k >= |before| {
        assert (before + run)[k] == run[k - |before|];
      }
    }
  }

  lemma OneRange(r: Range)
    ensures Positions([r]) == Run(r.start, r.len)
  {
    var one := [r];
    assert PositionsTo(one, 0) == [] && PositionsTo(one, 1) == PositionsTo(one, 0) + Run(r.start, r.len);
  }

  ghost predicate WantedFit(rows: nat, pageRows: nat, keep: Option<seq<bool>>) {
    forall i :: 0 <= i < |Wanted(rows, pageRows, keep)| ==> Wanted(rows, pageRows, keep)[i] < rows
  }

  lemma WantedInSegment(rows: nat, pageRows: nat, keep: Option<seq<bool>>)
    ensures WantedFit(rows, pageRows, keep)
  {
    RunAt(0, rows);
    if keep.Some? {
      KeptInSegment(keep.value, rows, pageRows, |keep.value|);
    }
  }

  lemma {:induction false} KeptInSegment(keep: seq<bool>, rows: nat, pageRows: nat, n: nat)
    requires n <= |keep|
    ensures forall i :: 0 <= i < |KeptTo(keep, rows, pageRows, n)| ==> KeptTo(keep, rows, pageRows, n)[i] < rows
  {
    if n > 0 {
      KeptInSegment(keep, rows, pageRows, n - 1);
      var page := PageRange(rows, pageRows, n - 1);
      if page.Some? {
        RunAt(page.value.start, page.value.len);
      }
    }
  }

  // ---- Pages cover the rows ------------------------------------------------------------------------

  /** A row is handed on exactly when the page it is in is kept. */
  lemma {:induction false} KeptIff(keep: seq<bool>, rows: nat, pageRows: nat, n: nat, row: nat)
    requires pageRows > 0 && n <= |keep| && row < rows
    ensures row in KeptTo(keep, rows, pageRows, n) <==> BlockOf(row, pageRows) < n && keep[BlockOf(row, pageRows)]
  {
    if n > 0 {
      KeptIff(keep, rows, pageRows, n - 1, row);
      InPage(rows, pageRows, n - 1, keep[n - 1], row);
      InEither(KeptTo(keep, rows, pageRows, n - 1), PageRun(rows, pageRows, n - 1, keep[n - 1]), row);
    }
  }

  lemma InEither(a: seq<nat>, b: seq<nat>, x: nat)
    ensures x in a + b <==> x in a || x in b
  {
  }

  lemma InPage(rows: nat, pageRows: nat, page: nat, wanted: bool, row: nat)
    requires pageRows > 0 && row < rows
    ensures row in PageRun(rows, pageRows, page, wanted) <==> wanted && BlockOf(row, pageRows) == page
  {
    var r, k := PageRange(rows, pageRows, page), BlockOf(row, pageRows);
    if r.Some? {
      RunAt(r.value.start, r.value.len);
    }
    if k < page {
      StartsGrow(pageRows, k, page);
    } else if page < k {
      StartsGrow(pageRows, page, k);
    } else {
      assert Run(r.value.start, r.value.len)[row - r.value.start] == row;
    }
  }

  lemma NextPage(rows: nat, pageRows: nat, page: nat)
    requires pageRows > 0
    ensures Run(0, Least(BlockStart(pageRows, page), rows)) + PageRun(rows, pageRows, page, true)
         == Run(0, Least(BlockStart(pageRows, page + 1), rows))
  {
    var start := BlockStart(pageRows, page);
    if start < rows {
      RunJoins(0, start, Least(pageRows, rows - start));
    } else {
      NothingMore(Run(0, rows));
    }
  }

  /** Keeping every page hands on every row, in order. */
  lemma {:induction false} KeepAllIsWhole(keep: seq<bool>, rows: nat, pageRows: nat, n: nat)
    requires pageRows > 0 && n <= |keep| && forall i :: 0 <= i < n ==> keep[i]
    ensures KeptTo(keep, rows, pageRows, n) == Run(0, Least(BlockStart(pageRows, n), rows))
  {
    if n > 0 {
      KeepAllIsWhole(keep, rows, pageRows, n - 1);
      NextPage(rows, pageRows, n - 1);
    }
  }

  /**
   * A segment without pages hands on nothing under any selection. A selection
   * of a non-empty segment that keeps every page it names and covers them all
   * therefore reads all its rows if and only if the segment has pages.
   */
  lemma SelectionNeedsPages(keep: seq<bool>, rows: nat, pageRows: nat)
    requires rows > 0 && (forall i :: 0 <= i < |keep| ==> keep[i])
    requires pageRows > 0 ==> BlockStart(pageRows, |keep|) >= rows
    ensures KeptTo(keep, rows, pageRows, |keep|) == Run(0, rows) <==> pageRows > 0
  {
    if pageRows > 0 {
      KeepAllIsWhole(keep, rows, pageRows, |keep|);
    } else {
      NoPagesNoRows(keep, rows, |keep|);
    }
  }

  lemma {:induction false} NoPagesNoRows(keep: seq<bool>, rows: nat, n: nat)
    requires n <= |keep|
    ensures KeptTo(keep, rows, 0, n) == []
  {
    if n > 0 {
      NoPagesNoRows(keep, rows, n - 1);
    }
  }
}
