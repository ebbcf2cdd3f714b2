/** Columns cut into blocks, and decoding any row range of one. */
module Columns {
  import opened Bytes
  import opened Layout
  import opened Segments
  import opened Sequences

  /** Where block `k` of `blockRows` rows starts: `k * blockRows`. */
  function BlockStart(blockRows: nat, k: nat): nat {
    if k == 0 then 0 else BlockStart(blockRows, k - 1) + blockRows
  }

  /** The block a row is in. */
  function BlockOf(row: nat, blockRows: nat): (k: nat)
    requires blockRows > 0
    ensures BlockStart(blockRows, k) <= row < BlockStart(blockRows, k + 1)
  {
    StartIsProduct(blockRows, row / blockRows);
    row / blockRows
  }

  lemma {:induction false} StartIsProduct(blockRows: nat, k: nat)
    ensures BlockStart(blockRows, k) == k * blockRows
  {
    if k > 0 {
      StartIsProduct(blockRows, k - 1);
    }
  }

  // ---- Decoding ------------------------------------------------------------------------------

  /** Rows start..start+len of a chunk; `None` when it does not hold that many. */
  function DecodeRows(a: Libraries, bytes: seq<byte>, c: Chunk, start: nat, len: nat): Option<seq<Item>>
    decreases c, 3, 0
  {
    if start + len > c.len then None
    else if c.blocks != [] then DecodeBlocks(a, bytes, c, start, len)
    else
      var rebuilt := Rebuild(a, bytes, c);
      if rebuilt.None? then None
      else
        var stored := a.read(rebuilt.value);
        // sliced before the cast, so only the rows asked for are expanded
        if stored.None? || |stored.value| < start + len then None
        else Some(Expand(a, stored.value[start..start + len]))
  }

  /** The same for a chunk in blocks: what the blocks from the first row's to the last row's give. */
  function DecodeBlocks(a: Libraries, bytes: seq<byte>, c: Chunk, start: nat, len: nat): Option<seq<Item>>
    decreases c, 2, 0
  {
    if c.blockRows == 0 then None
    else if len == 0 then Some([])
    else DecodeFrom(a, bytes, c, start, len, BlockOf(start, c.blockRows), BlockOf(start + len - 1, c.blockRows))
  }

  /** The part of the range that block `index` holds. */
  function PartOf(a: Libraries, bytes: seq<byte>, c: Chunk, start: nat, len: nat, index: nat): Option<seq<Item>>
    decreases c, 0, 0
  {
    if index >= |c.blocks| then None
    else
      var block, blockStart := c.blocks[index], BlockStart(c.blockRows, index);
      var from, to := Most(start, blockStart) - blockStart, Least(start + len, blockStart + block.len) - blockStart;
      if to < from then None else DecodeRows(a, bytes, block, from, to - from)
  }

  /** The parts of the range that blocks `index` to `last` hold, joined. */
  function DecodeFrom(a: Libraries, bytes: seq<byte>, c: Chunk, start: nat, len: nat, index: nat, last: nat): Option<seq<Item>>
    decreases c, 1, last + 1 - index
  {
    if index > last then Some([])
    else
      var part := PartOf(a, bytes, c, start, len, index);
      if part.None? then None else Joins(part.value, DecodeFrom(a, bytes, c, start, len, index + 1, last))
  }

  /** What has been decoded, and what is still to come. */
  function Joins(done: seq<Item>, rest: Option<seq<Item>>): Option<seq<Item>> {
    if rest.None? then None else Some(done + rest.value)
  }

  // ---- What a written column looks like ----------------------------------------------------------

  /** Where block `k` of `rows` rows ends. */
  function BlockEnd(rows: nat, blockRows: nat, k: nat): nat {
    Least(BlockStart(blockRows, k + 1), rows)
  }

  lemma {:induction false} StartsGrow(blockRows: nat, k: nat, n: nat)
    requires k <= n
    ensures BlockStart(blockRows, k) <= BlockStart(blockRows, n)
    ensures k < n ==> BlockStart(blockRows, k + 1) <= BlockStart(blockRows, n)
    decreases n
  {
    if k < n {
      StartsGrow(blockRows, k, n - 1);
    }
  }

  /** Every block but the last is full, and together they hold all the rows. */
  ghost predicate BlocksOk(a: Libraries, bytes: seq<byte>, blocks: seq<Chunk>, rows: seq<Item>, blockRows: nat)
  {
    forall k: nat :: k < |blocks| ==> BlockOk(a, bytes, blocks[k], rows, blockRows, k)
  }

  ghost predicate BlockOk(a: Libraries, bytes: seq<byte>, block: Chunk, rows: seq<Item>, blockRows: nat, k: nat) {
    && BlockStart(blockRows, k) < BlockEnd(|rows|, blockRows, k)
    && ChunkOk(a, bytes, block, a.encode(rows[BlockStart(blockRows, k)..BlockEnd(|rows|, blockRows, k)]))
  }

  /** The chunk holds these rows: whole, or in blocks. */
  ghost predicate ColumnOk(a: Libraries, bytes: seq<byte>, c: Chunk, rows: seq<Item>) {
    if c.blocks == [] then ChunkOk(a, bytes, c, a.encode(rows))
    else
      && c.len == |rows| && c.blockRows > 0
      && BlockStart(c.blockRows, |c.blocks| - 1) < |rows| <= BlockStart(c.blockRows, |c.blocks|)
      && BlocksOk(a, bytes, c.blocks, rows, c.blockRows)
  }

  // ---- Any range reads back ------------------------------------------------------------------------

  lemma ExpandSlice(a: Libraries, stored: seq<Stored>, start: nat, len: nat)
    requires start + len <= |stored|
    ensures Expand(a, stored[start..start + len]) == Expand(a, stored)[start..start + len]
  {
  }

  lemma WholeReadsBack(a: Libraries, bytes: seq<byte>, c: Chunk, rows: seq<Item>, start: nat, len: nat)
    requires Sound(a) && ChunkOk(a, bytes, c, a.encode(rows)) && start + len <= |rows|
    ensures DecodeRows(a, bytes, c, start, len) == Some(rows[start..start + len])
    ensures c.len == |rows|
  {
    assert Encodes(a, rows);
    var e := a.encode(rows);
    RebuildUndoesWrite(a, bytes, c, e);
    var stored := a.read(ArrayOf(e)).value;
    ExpandSlice(a, stored, start, len);
    assert |Expand(a, stored)| == |stored|;
  }

  /** Every range of the chunk decodes to those rows. */
  ghost predicate Reads(a: Libraries, bytes: seq<byte>, c: Chunk, rows: seq<Item>) {
    && c.len == |rows|
    && forall start: nat, len: nat :: start + len <= |rows| ==>
         DecodeRows(a, bytes, c, start, len) == Some(rows[start..start + len])
  }

  /** Each block holds its stretch of the rows. */
  ghost predicate BlocksRead(a: Libraries, bytes: seq<byte>, blocks: seq<Chunk>, rows: seq<Item>, b: nat) {
    forall k: nat {:trigger blocks[k]} :: k < |blocks| ==>
      && BlockStart(b, k) < BlockEnd(|rows|, b, k)
      && Reads(a, bytes, blocks[k], rows[BlockStart(b, k)..BlockEnd(|rows|, b, k)])
  }

  lemma BlocksAreRead(a: Libraries, bytes: seq<byte>, blocks: seq<Chunk>, rows: seq<Item>, b: nat)
    requires Sound(a) && BlocksOk(a, bytes, blocks, rows, b)
    ensures BlocksRead(a, bytes, blocks, rows, b)
  {
    forall k: nat | k < |blocks|
      ensures BlockStart(b, k) < BlockEnd(|rows|, b, k)
      ensures Reads(a, bytes, blocks[k], rows[BlockStart(b, k)..BlockEnd(|rows|, b, k)])
    {
      assert BlockOk(a, bytes, blocks[k], rows, b, k);
      WholeReads(a, bytes, blocks[k], rows[BlockStart(b, k)..BlockEnd(|rows|, b, k)]);
    }
  }

  lemma WholeReads(a: Libraries, bytes: seq<byte>, c: Chunk, rows: seq<Item>)
    requires Sound(a) && ChunkOk(a, bytes, c, a.encode(rows))
    ensures Reads(a, bytes, c, rows)
  {
    forall start: nat, len: nat | start + len <= |rows|
      ensures DecodeRows(a, bytes, c, start, len) == Some(rows[start..start + len])
    {
      WholeReadsBack(a, bytes, c, rows, start, len);
    }
    WholeReadsBack(a, bytes, c, rows, 0, 0);
  }

  lemma BlockReadsBack(a: Libraries, bytes: seq<byte>, blocks: seq<Chunk>, rows: seq<Item>, b: nat, k: nat,
                       start: nat, end: nat)
    requires k < |blocks| && BlocksRead(a, bytes, blocks, rows, b)
    requires BlockStart(b, k) <= start <= end <= BlockEnd(|rows|, b, k)
    ensures blocks[k].len == BlockEnd(|rows|, b, k) - BlockStart(b, k)
    ensures DecodeRows(a, bytes, blocks[k], start - BlockStart(b, k), end - start) == Some(rows[start..end])
  {
    var from, to := BlockStart(b, k), BlockEnd(|rows|, b, k);
    assert Reads(a, bytes, blocks[k], rows[from..to]);
    SliceOfSlice(rows, from, to, start - from, end - from);
  }

  /** Where the decoder stands at block `index`: everything of the range from there on is still to come. */
  function Rest(start: nat, b: nat, index: nat): nat {
    Most(start, BlockStart(b, index))
  }

  /** From block `index` on, the decoder returns the rest of the range. */
  lemma {:induction false} BlocksReadBack(a: Libraries, bytes: seq<byte>, c: Chunk, rows: seq<Item>, start: nat, len: nat,
                                          end: nat, index: nat, last: nat)
    requires end == start + len && c.blockRows > 0 && BlocksRead(a, bytes, c.blocks, rows, c.blockRows) && start < end <= |rows|
    requires index <= last < |c.blocks|
    requires start < BlockStart(c.blockRows, index + 1)
    requires BlockStart(c.blockRows, last) < end <= BlockStart(c.blockRows, last + 1)
    ensures Rest(start, c.blockRows, index) <= end
    ensures DecodeFrom(a, bytes, c, start, len, index, last) == Some(rows[Rest(start, c.blockRows, index)..end])
    decreases last - index
  {
    var b := c.blockRows;
    StartsGrow(b, index, last);
    var from, to := Rest(start, b, index), Least(end, BlockEnd(|rows|, b, index));
    BlockReadsBack(a, bytes, c.blocks, rows, b, index, from, to);
    if index < last {
      StartsGrow(b, index + 1, last);
      BlocksReadBack(a, bytes, c, rows, start, len, end, index + 1, last);
      assert to == Rest(start, b, index + 1);
    } else {
      assert to == end;
      NothingLeft(rows, end);
    }
    JoinRanges(rows, from, to, end);
    FromSplits(a, bytes, c, start, len, index, last, rows[from..to], rows[to..end]);
  }

  lemma NothingLeft<T>(s: seq<T>, end: nat)
    requires end <= |s|
    ensures s[end..end] == []
  {
  }

  /** One step of the decoder: this block's part, then the rest. */
  lemma FromSplits(a: Libraries, bytes: seq<byte>, c: Chunk, start: nat, len: nat, index: nat, last: nat,
                   part: seq<Item>, rest: seq<Item>)
    requires index <= last && index < |c.blocks|
    requires var at := BlockStart(c.blockRows, index);
             var from, to := Most(start, at) - at, Least(start + len, at + c.blocks[index].len) - at;
             from <= to && DecodeRows(a, bytes, c.blocks[index], from, to - from) == Some(part)
    requires DecodeFrom(a, bytes, c, start, len, index + 1, last) == Some(rest)
    ensures DecodeFrom(a, bytes, c, start, len, index, last) == Some(part + rest)
  {
  }

  lemma JoinRanges<T>(s: seq<T>, from: nat, mid: nat, to: nat)
    requires from <= mid <= to <= |s|
    ensures s[from..mid] + s[mid..to] == s[from..to]
  {
  }

  /**
   * However a column was written, decoding rows start..start+len gives exactly
   * those rows, and a range outside the column is refused.
   */
  lemma AnyRangeReadsBack(a: Libraries, bytes: seq<byte>, c: Chunk, rows: seq<Item>, start: nat, len: nat)
    requires Sound(a) && ColumnOk(a, bytes, c, rows)
    ensures DecodeRows(a, bytes, c, start, len) == if start + len <= |rows| then Some(rows[start..start + len]) else None
  {
    if c.blocks == [] {
      WholeReads(a, bytes, c, rows);
    } else if start + len <= |rows| && len > 0 {
      BlocksAreRead(a, bytes, c.blocks, rows, c.blockRows);
      BlockedReadsBack(a, bytes, c, rows, start, len);
    }
  }

  lemma BlockedReadsBack(a: Libraries, bytes: seq<byte>, c: Chunk, rows: seq<Item>, start: nat, len: nat)
    requires c.blocks != [] && c.len == |rows| && c.blockRows > 0
    requires BlocksRead(a, bytes, c.blocks, rows, c.blockRows) && |rows| <= BlockStart(c.blockRows, |c.blocks|)
    requires start + len <= |rows| && len > 0
    ensures DecodeRows(a, bytes, c, start, len) == Some(rows[start..start + len])
  {
    var b, end := c.blockRows, start + len;
    var first, last := BlockOf(start, b), BlockOf(end - 1, b);
    FirstNotPastLast(b, start, first, end - 1, last);
    LastBlockIsThere(b, last, |c.blocks|, end, |rows|);
    BlocksReadBack(a, bytes, c, rows, start, len, end, first, last);
    ByBlocks(a, bytes, c, start, len);
  }

  lemma ByBlocks(a: Libraries, bytes: seq<byte>, c: Chunk, start: nat, len: nat)
    requires c.blocks != [] && c.blockRows > 0 && start + len <= c.len && len > 0
    ensures DecodeRows(a, bytes, c, start, len)
         == DecodeFrom(a, bytes, c, start, len, BlockOf(start, c.blockRows), BlockOf(start + len - 1, c.blockRows))
  {
  }

  lemma FirstNotPastLast(b: nat, x: nat, first: nat, y: nat, last: nat)
    requires x <= y && BlockStart(b, first) <= x && y < BlockStart(b, last + 1)
    ensures first <= last
  {
    if last < first {
      StartsGrow(b, last, first);
    }
  }

  lemma LastBlockIsThere(b: nat, last: nat, count: nat, end: nat, rows: nat)
    requires BlockStart(b, last) < end <= rows <= BlockStart(b, count)
    ensures last < count
  {
    if count <= last {
      StartsGrow(b, count, last);
    }
  }

  /** The decoder as it runs: block by block, keeping the parts. */
  method DecodeBlockRange(a: Libraries, bytes: seq<byte>, c: Chunk, start: nat, len: nat) returns (r: Option<seq<Item>>)
    requires c.blockRows > 0 && len > 0
    ensures r == DecodeBlocks(a, bytes, c, start, len)
  {
    r := DecodeParts(a, bytes, c, start, len, BlockOf(start, c.blockRows), BlockOf(start + len - 1, c.blockRows));
  }

  method DecodeParts(a: Libraries, bytes: seq<byte>, c: Chunk, start: nat, len: nat, first: nat, last: nat)
    returns (r: Option<seq<Item>>)
    ensures r == DecodeFrom(a, bytes, c, start, len, first, last)
  {
    var joined: seq<Item> := [];
    var index := first;
    JoinsFirst(DecodeFrom(a, bytes, c, start, len, first, last));
    while index <= last
      invariant Joins(joined, DecodeFrom(a, bytes, c, start, len, index, last)) == DecodeFrom(a, bytes, c, start, len, first, last)
      decreases last + 1 - index
    {
      var part := PartOf(a, bytes, c, start, len, index);
      if part.None? {
        return None;
      }
      JoinsStep(joined, part.value, DecodeFrom(a, bytes, c, start, len, index + 1, last));
      joined := joined + part.value;
      index := index + 1;
    }
    JoinsNothing(joined);
    r := Some(joined);
  }

  lemma JoinsStep(done: seq<Item>, part: seq<Item>, rest: Option<seq<Item>>)
    ensures Joins(done + part, rest) == Joins(done, Joins(part, rest))
  {
    if rest.Some? {
      Associates(done, part, rest.value);
    }
  }

  lemma JoinsFirst(rest: Option<seq<Item>>)
    ensures Joins([], rest) == rest
  {
    if rest.Some? {
      assert [] + rest.value == rest.value;
    }
  }

  lemma JoinsNothing(done: seq<Item>)
    ensures Joins(done, Some([])) == Some(done)
  {
    assert done + [] == done;
  }

  // ---- Writing a column --------------------------------------------------------------------------

  /** Arrow's types, as far as the decision to cut a column into blocks goes. */
  datatype Kind = Utf8 | LargeUtf8 | Binary | LargeBinary | ListOf | LargeListOf | MapOf | FixedWidth

  /** A packed column gains from blocks whatever its type; an unpacked one only when it has offsets to check. */
  predicate WorthBlocking(a: Libraries, kind: Kind) {
    a.on || !kind.FixedWidth?
  }

  predicate BlocksWanted(a: Libraries, kind: Kind, rows: nat, blockRows: nat) {
    blockRows > 0 && rows > blockRows && WorthBlocking(a, kind)
  }

  /** Write a column whole or, when `BlocksWanted` says so, block by block. */
  method WriteColumn(out: Output, a: Libraries, kind: Kind, rows: seq<Item>, blockRows: nat,
                     side: seq<(Role, seq<byte>)>) returns (c: Chunk)
    requires Sound(a) && SideOnly(side)
    modifies out
    ensures old(out.bytes) <= out.bytes
    ensures ColumnOk(a, out.bytes, c, rows) && SideOk(a, out.bytes, c, side)
    ensures Laid(Extents(c), |old(out.bytes)|, |out.bytes|)
    ensures c.blocks != [] <==> BlocksWanted(a, kind, |rows|, blockRows)
  {
    assert Encodes(a, rows);
    if !BlocksWanted(a, kind, |rows|, blockRows) {
      c := WriteChunk(out, a, a.encode(rows), side);
      return;
    }
    c := WriteBlocked(out, a, rows, blockRows, side);
  }

  method WriteBlocked(out: Output, a: Libraries, rows: seq<Item>, blockRows: nat, side: seq<(Role, seq<byte>)>)
    returns (c: Chunk)
    requires Sound(a) && SideOnly(side) && 0 < blockRows < |rows|
    modifies out
    ensures old(out.bytes) <= out.bytes && c.blocks != []
    ensures ColumnOk(a, out.bytes, c, rows) && SideOk(a, out.bytes, c, side)
    ensures Laid(Extents(c), |old(out.bytes)|, |out.bytes|)
    ensures c.packed <==> AnyPacked(c.blocks)
  {
    var blocks, packed := WriteBlocks(out, a, rows, blockRows);
    ghost var mid := out.bytes;
    // side buffers only: the rows are in the blocks
    var outer := WriteChunk(out, a, Encoded(|rows|, [], []), side);
    c := Chunk(packed, |rows|, outer.buffers, [], blockRows, blocks);
    BlocksStay(a, mid, out.bytes, blocks, rows, blockRows);
    SameSide(a, out.bytes, outer, c, side);
    OuterLaid(blocks, outer, c, |old(out.bytes)|, |mid|, |out.bytes|);
  }

  lemma SameSide(a: Libraries, bytes: seq<byte>, outer: Chunk, c: Chunk, side: seq<(Role, seq<byte>)>)
    requires SideOk(a, bytes, outer, side) && c.buffers == outer.buffers
    ensures SideOk(a, bytes, c, side)
  {
  }

  lemma OuterLaid(blocks: seq<Chunk>, outer: Chunk, c: Chunk, from: nat, mid: nat, to: nat)
    requires outer.blocks == [] && outer.children == []
    requires c == Chunk(c.packed, c.len, outer.buffers, [], c.blockRows, blocks)
    requires Laid(AllExtents(blocks), from, mid) && Laid(Extents(outer), mid, to)
    ensures Laid(Extents(c), from, to)
  {
    NothingFirst(SpecExtents(outer.buffers), []);
    var side := SpecExtents(outer.buffers);
    assert Extents(outer) == side + [] == side;
    LaidConcat(AllExtents(blocks), side, from, mid, to);
    assert Extents(c) == AllExtents(blocks) + side + [] == AllExtents(blocks) + side;
  }

  method WriteBlocks(out: Output, a: Libraries, rows: seq<Item>, blockRows: nat) returns (blocks: seq<Chunk>, packed: bool)
    requires Sound(a) && 0 < blockRows < |rows|
    modifies out
    ensures old(out.bytes) <= out.bytes && blocks != []
    ensures BlocksOk(a, out.bytes, blocks, rows, blockRows)
    ensures BlockStart(blockRows, |blocks| - 1) < |rows| <= BlockStart(blockRows, |blocks|)
    ensures Laid(AllExtents(blocks), |old(out.bytes)|, |out.bytes|)
    ensures packed <==> AnyPacked(blocks)
  {
    blocks, packed := [], false;
    var start := 0;
    while start < |rows|
      invariant old(out.bytes) <= out.bytes && BlocksTo(a, out.bytes, blocks, rows, blockRows, start)
      invariant Laid(AllExtents(blocks), |old(out.bytes)|, |out.bytes|)
      invariant packed <==> AnyPacked(blocks)
      decreases |rows| - start
    {
      ghost var was := out.bytes;
      var end := Least(start + blockRows, |rows|);
      var block := WriteBlock(out, a, rows, blockRows, |blocks|, start, end);
      BlocksGrow(a, was, out.bytes, blocks, block, rows, blockRows, start, end);
      LaidChunkPush(blocks, block, |old(out.bytes)|, |was|, |out.bytes|);
      packed := packed || block.packed;
      blocks := blocks + [block];
      start := end;
    }
  }

  predicate AnyPacked(blocks: seq<Chunk>) {
    exists k :: 0 <= k < |blocks| && blocks[k].packed
  }

  /** The blocks hold the first `start` rows, none of them empty. */
  ghost predicate BlocksTo(a: Libraries, bytes: seq<byte>, blocks: seq<Chunk>, rows: seq<Item>, blockRows: nat, start: nat) {
    && BlocksOk(a, bytes, blocks, rows, blockRows)
    && start == Least(BlockStart(blockRows, |blocks|), |rows|)
    && (blocks != [] ==> BlockStart(blockRows, |blocks| - 1) < |rows|)
  }

  method WriteBlock(out: Output, a: Libraries, rows: seq<Item>, blockRows: nat, k: nat, start: nat, end: nat)
    returns (block: Chunk)
    requires Sound(a) && start < end && start == BlockStart(blockRows, k) && end == BlockEnd(|rows|, blockRows, k)
    modifies out
    ensures old(out.bytes) <= out.bytes && BlockOk(a, out.bytes, block, rows, blockRows, k)
    ensures Laid(Extents(block), |old(out.bytes)|, |out.bytes|)
  {
    assert Encodes(a, rows[start..end]);
    block := WriteChunk(out, a, a.encode(rows[start..end]), []);
  }

  lemma BlocksGrow(a: Libraries, bytes: seq<byte>, more: seq<byte>, blocks: seq<Chunk>, block: Chunk, rows: seq<Item>,
                   blockRows: nat, start: nat, end: nat)
    requires bytes <= more && BlocksTo(a, bytes, blocks, rows, blockRows, start) && start < end <= |rows|
    requires end == Least(start + blockRows, |rows|)
    requires BlockOk(a, more, block, rows, blockRows, |blocks|)
    ensures BlocksTo(a, more, blocks + [block], rows, blockRows, end)
    ensures AnyPacked(blocks + [block]) <==> AnyPacked(blocks) || block.packed
  {
    BlocksStay(a, bytes, more, blocks, rows, blockRows);
    var longer := blocks + [block];
    forall k: nat | k < |longer|
      ensures BlockOk(a, more, longer[k], rows, blockRows, k)
    {
      if k < |blocks| {
        assert longer[k] == blocks[k];
      }
    }
    assert longer[|blocks|] == block;
    assert forall k :: 0 <= k < |blocks| ==> longer[k] == blocks[k];
  }

  lemma BlocksStay(a: Libraries, bytes: seq<byte>, more: seq<byte>, blocks: seq<Chunk>, rows: seq<Item>, blockRows: nat)
    requires bytes <= more && BlocksOk(a, bytes, blocks, rows, blockRows)
    ensures BlocksOk(a, more, blocks, rows, blockRows)
  {
    forall k: nat | k < |blocks|
      ensures BlockOk(a, more, blocks[k], rows, blockRows, k)
    {
      assert BlockOk(a, bytes, blocks[k], rows, blockRows, k);
      ChunkStays(a, bytes, more, blocks[k], a.encode(rows[BlockStart(blockRows, k)..BlockEnd(|rows|, blockRows, k)]));
    }
  }

  lemma ColumnStays(a: Libraries, bytes: seq<byte>, more: seq<byte>, c: Chunk, rows: seq<Item>)
    requires bytes <= more && ColumnOk(a, bytes, c, rows)
    ensures ColumnOk(a, more, c, rows)
  {
    if c.blocks == [] {
      ChunkStays(a, bytes, more, c, a.encode(rows));
    } else {
      BlocksStay(a, bytes, more, c.blocks, rows, c.blockRows);
    }
  }

  /** A column to be written: what encodes it, its rows, and the filters and page bounds beside it. */
  datatype Column = Column(a: Libraries, kind: Kind, rows: seq<Item>, side: seq<(Role, seq<byte>)>) {
    ghost predicate Ok() {
      Sound(a) && SideOnly(side)
    }
  }

  ghost predicate AllOk(columns: seq<Column>) {
    forall k :: 0 <= k < |columns| ==> columns[k].Ok()
  }

  /** Write a segment's columns one after another, each with its filters and page bounds. */
  method WriteColumns(out: Output, columns: seq<Column>, blockRows: nat) returns (chunks: seq<Chunk>)
    requires AllOk(columns)
    modifies out
    ensures old(out.bytes) <= out.bytes && ColumnsOk(out.bytes, chunks, columns)
    ensures Laid(AllExtents(chunks), |old(out.bytes)|, |out.bytes|)
  {
    chunks := [];
    for i := 0 to |columns|
      invariant old(out.bytes) <= out.bytes && ColumnsOk(out.bytes, chunks, columns[..i])
      invariant Laid(AllExtents(chunks), |old(out.bytes)|, |out.bytes|)
    {
      ghost var was := out.bytes;
      assert columns[i].Ok();
      var c := WriteColumn(out, columns[i].a, columns[i].kind, columns[i].rows, blockRows, columns[i].side);
      ColumnsGrow(was, out.bytes, chunks, columns, i, c);
      LaidChunkPush(chunks, c, |old(out.bytes)|, |was|, |out.bytes|);
      chunks := chunks + [c];
    }
    assert columns[..|columns|] == columns;
  }

  /** Each chunk holds its column's rows, and its side buffers load as they were given. */
  ghost predicate ColumnsOk(bytes: seq<byte>, chunks: seq<Chunk>, columns: seq<Column>) {
    && |chunks| == |columns|
    && forall k :: 0 <= k < |chunks| ==>
         && ColumnOk(columns[k].a, bytes, chunks[k], columns[k].rows)
         && SideOk(columns[k].a, bytes, chunks[k], columns[k].side)
  }

  lemma SideStays(a: Libraries, bytes: seq<byte>, more: seq<byte>, c: Chunk, side: seq<(Role, seq<byte>)>)
    requires bytes <= more && SideOk(a, bytes, c, side)
    ensures SideOk(a, more, c, side)
  {
    SidesStay(a, bytes, more, c.buffers);
  }

  lemma ColumnsStay(bytes: seq<byte>, more: seq<byte>, chunks: seq<Chunk>, columns: seq<Column>)
    requires bytes <= more && ColumnsOk(bytes, chunks, columns)
    ensures ColumnsOk(more, chunks, columns)
  {
    forall k | 0 <= k < |chunks|
      ensures ColumnOk(columns[k].a, more, chunks[k], columns[k].rows)
      ensures SideOk(columns[k].a, more, chunks[k], columns[k].side)
    {
      ColumnStays(columns[k].a, bytes, more, chunks[k], columns[k].rows);
      SideStays(columns[k].a, bytes, more, chunks[k], columns[k].side);
    }
  }

  lemma ColumnsGrow(bytes: seq<byte>, more: seq<byte>, chunks: seq<Chunk>, columns: seq<Column>, i: nat, c: Chunk)
    requires bytes <= more && i < |columns| && ColumnsOk(bytes, chunks, columns[..i])
    requires ColumnOk(columns[i].a, more, c, columns[i].rows) && SideOk(columns[i].a, more, c, columns[i].side)
    ensures ColumnsOk(more, chunks + [c], columns[..i + 1])
  {
    ColumnsStay(bytes, more, chunks, columns[..i]);
    assert columns[..i + 1] == columns[..i] + [columns[i]];
  }

  /**
   * Written and read back. Whatever comes after them in the file, every row
   * range of every column decodes to exactly its rows, every side buffer loads
   * as it was given, and a range outside the column is refused.
   */
  lemma SegmentReadsBack(bytes: seq<byte>, more: seq<byte>, chunks: seq<Chunk>, columns: seq<Column>,
                         i: nat, start: nat, len: nat)
    requires AllOk(columns) && ColumnsOk(bytes, chunks, columns) && i < |columns| && bytes <= more
    ensures DecodeRows(columns[i].a, more, chunks[i], start, len)
         == if start + len <= |columns[i].rows| then Some(columns[i].rows[start..start + len]) else None
    ensures SideOk(columns[i].a, more, chunks[i], columns[i].side)
  {
    assert columns[i].Ok();
    ColumnsStay(bytes, more, chunks, columns);
    AnyRangeReadsBack(columns[i].a, more, chunks[i], columns[i].rows, start, len);
  }

  /** Rows start..start+len of column `i`. */
  method ReadStored(bytes: seq<byte>, chunks: seq<Chunk>, columns: seq<Column>, i: nat, start: nat, len: nat)
    returns (cells: seq<Item>)
    requires AllOk(columns) && ColumnsOk(bytes, chunks, columns) && i < |columns| && start + len <= |columns[i].rows|
    ensures cells == columns[i].rows[start..start + len]
  {
    SegmentReadsBack(bytes, bytes, chunks, columns, i, start, len);
    cells := DecodeRows(columns[i].a, bytes, chunks[i], start, len).value;
  }
}
