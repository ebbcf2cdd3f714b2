/** Filters over the trigrams of a text column. */
module Trigrams {
  import opened Bits
  import opened Bytes
  import opened Layout
  import opened Bloom

  const SIZE: nat := 3
  const SPACE: nat := 0x100_0000
  const SPACE_WORDS: nat := 0x4_0000

  type Piece = s: seq<byte> | |s| == 3 witness [0, 0, 0]

  /** A piece's place among the 2^24 there are. */
  function IndexOf(piece: Piece): (at: nat)
    ensures at < SPACE
  {
    var a: int, b: int, c: int := piece[0], piece[1], piece[2];
    a * 65536 + b * 256 + c
  }

  function PieceAt(at: nat): Piece
    requires at < SPACE
  {
    [at / 65536, at / 256 % 256, at % 256]
  }

  lemma PieceRoundTrip(piece: Piece)
    ensures PieceAt(IndexOf(piece)) == piece
  {
  }

  /** The places of the pieces in the first `n` bytes of a text. */
  function PiecesTo(text: seq<byte>, n: nat): (r: set<nat>)
    requires n <= |text|
    ensures forall at :: at in r ==> at < SPACE
  {
    if n < SIZE then {} else PiecesTo(text, n - 1) + {IndexOf(text[n - SIZE..n])}
  }

  function PiecesOf(text: seq<byte>): (r: set<nat>)
    ensures forall at :: at in r ==> at < SPACE
  {
    PiecesTo(text, |text|)
  }

  /** A text's pieces are those of its three-byte windows. */
  lemma {:induction false} WindowIsPiece(text: seq<byte>, i: nat, n: nat)
    requires i + SIZE <= n <= |text|
    ensures IndexOf(text[i..i + SIZE]) in PiecesTo(text, n)
    decreases n
  {
    if i + SIZE < n {
      WindowIsPiece(text, i, n - 1);
    }
  }

  type Column = seq<Option<seq<byte>>>

  function ColumnPieces(column: Column): (r: set<nat>)
    ensures forall at :: at in r ==> at < SPACE
  {
    if column == [] then {}
    else
      var last := column[|column| - 1];
      ColumnPieces(column[..|column| - 1]) + (if last.Some? then PiecesOf(last.value) else {})
  }

  lemma {:induction false} ValuePieces(column: Column, i: nat)
    requires i < |column| && column[i].Some?
    ensures PiecesOf(column[i].value) <= ColumnPieces(column)
  {
    if i < |column| - 1 {
      ValuePieces(column[..|column| - 1], i);
    }
  }

  // ---- The bitmap ------------------------------------------------------------------------

  type Bitmap = s: seq<U64> | |s| == SPACE_WORDS witness seq(SPACE_WORDS, _ => 0)

  predicate Marked(seen: Bitmap, at: nat)
    requires at < SPACE
  {
    Bit(seen[at / 64], at % 64)
  }

  ghost predicate Marks(seen: Bitmap, places: set<nat>) {
    && (forall at :: at in places ==> at < SPACE)
    && forall at: nat :: at < SPACE ==> (Marked(seen, at) <==> at in places)
  }

  lemma WordIs64Bits()
    ensures Pow2(64) == 0x1_0000_0000_0000_0000
  {
    WordIs32Bits();
    TwiceTheBits(32);
  }

  lemma {:induction false} TwiceTheBits(n: nat)
    ensures Pow2(n + n) == Pow2(n) * Pow2(n)
  {
    if n > 0 {
      TwiceTheBits(n - 1);
      assert Pow2(n + n) == 4 * Pow2(n - 1 + n - 1);
    }
  }

  function Single(k: nat): (w: U64)
    requires k < 64
    ensures w == Pow2(k)
  {
    WordIs64Bits();
    Pow2Below(k, 64);
    Pow2(k)
  }

  function OrLong(a: U64, b: U64): (r: U64)
    ensures r == Or(a, b)
  {
    WordIs64Bits();
    OrFits(a, b, 64);
    Or(a, b)
  }

  lemma MarkOne(seen: Bitmap, at: nat, x: nat)
    requires at < SPACE && x < SPACE
    ensures Marked(seen[at / 64 := OrLong(seen[at / 64], Single(at % 64))], x) <==> x == at || Marked(seen, x)
  {
    OrBits(seen[at / 64], Single(at % 64), x % 64);
    Pow2Bits(at % 64, x % 64);
  }

  lemma MarkMore(seen: Bitmap, places: set<nat>, at: nat)
    requires Marks(seen, places) && at < SPACE
    ensures Marks(seen[at / 64 := OrLong(seen[at / 64], Single(at % 64))], places + {at})
    ensures And(seen[at / 64], Single(at % 64)) == 0 <==> at !in places
  {
    TestBit(seen[at / 64], at % 64);
    assert Marked(seen, at) <==> at in places;
    var next := seen[at / 64 := OrLong(seen[at / 64], Single(at % 64))];
    forall x: nat | x < SPACE
      ensures Marked(next, x) <==> x in places + {at}
    {
      MarkOne(seen, at, x);
      assert Marked(seen, x) <==> x in places;
    }
  }

  /** Mark the trigrams of one text; `added` counts those not marked before. */
  method MarkText(seen: array<U64>, text: seq<byte>, ghost places: set<nat>) returns (added: nat)
    requires seen.Length == SPACE_WORDS && Marks(seen[..], places)
    modifies seen
    ensures Marks(seen[..], WithPieces(places, text, |text|))
    ensures added == NewPieces(places, text, |text|)
  {
    added := 0;
    for n := 0 to |text|
      invariant Marks(seen[..], WithPieces(places, text, n))
      invariant added == NewPieces(places, text, n)
    {
      var isNew := MarkWindow(seen, text, n, WithPieces(places, text, n));
      if isNew {
        added := added + 1;
      }
    }
  }

  /** How many of a text's first pieces are at places of their own. */
  ghost function NewPieces(places: set<nat>, text: seq<byte>, n: nat): nat
    requires n <= |text|
  {
    if n == 0 then 0
    else NewPieces(places, text, n - 1) + (if EndingAt(text, n - 1) <= WithPieces(places, text, n - 1) then 0 else 1)
  }

  lemma {:induction false} NewPiecesCount(places: set<nat>, text: seq<byte>, n: nat)
    requires n <= |text|
    ensures |WithPieces(places, text, n)| == |places| + NewPieces(places, text, n)
  {
    if n > 0 {
      NewPiecesCount(places, text, n - 1);
      var was := WithPieces(places, text, n - 1);
      if EndingAt(text, n - 1) <= was {
        assert was + EndingAt(text, n - 1) == was;
      }
    }
  }

  /** These places, and those of the pieces in the first `n` bytes of a text. */
  ghost function WithPieces(places: set<nat>, text: seq<byte>, n: nat): set<nat>
    requires n <= |text|
  {
    if n == 0 then places else WithPieces(places, text, n - 1) + EndingAt(text, n - 1)
  }

  lemma {:induction false} WithPiecesIsUnion(places: set<nat>, text: seq<byte>, n: nat)
    requires n <= |text|
    ensures WithPieces(places, text, n) == places + PiecesTo(text, n)
  {
    if n > 0 {
      WithPiecesIsUnion(places, text, n - 1);
    }
  }

  /** The piece that ends with byte `n`, once there are three. */
  function EndingAt(text: seq<byte>, n: nat): set<nat>
    requires n < |text|
  {
    if n + 1 < SIZE then {} else {IndexOf(text[n + 1 - SIZE..n + 1])}
  }

  method MarkWindow(seen: array<U64>, text: seq<byte>, n: nat, ghost now: set<nat>) returns (isNew: bool)
    requires n < |text|
    requires seen.Length == SPACE_WORDS && Marks(seen[..], now)
    modifies seen
    ensures Marks(seen[..], now + EndingAt(text, n))
    ensures isNew <==> !(EndingAt(text, n) <= now)
  {
    if n + 1 < SIZE {
      assert now + EndingAt(text, n) == now;
      return false;
    }
    isNew := MarkPiece(seen, IndexOf(text[n + 1 - SIZE..n + 1]), now);
  }

  method MarkPiece(seen: array<U64>, at: nat, ghost places: set<nat>) returns (isNew: bool)
    requires seen.Length == SPACE_WORDS && at < SPACE && Marks(seen[..], places)
    modifies seen
    ensures Marks(seen[..], places + {at})
    ensures isNew <==> at !in places
  {
    ghost var was := seen[..];
    MarkMore(was, places, at);
    var bit := Single(at % 64);
    isNew := And(seen[at / 64], bit) == 0;
    if isNew {
      seen[at / 64] := OrLong(seen[at / 64], bit);
      assert seen[..] == was[at / 64 := OrLong(was[at / 64], bit)];
    } else {
      assert places + {at} == places;
    }
  }

  // ---- The filter ----------------------------------------------------------------------------

  /** The hashes the pieces at these places are stored under. */
  ghost function PieceHashes(sum: seq<byte> -> U64, places: set<nat>): set<U64>
    requires forall at :: at in places ==> at < SPACE
  {
    set at | at in places :: sum(PieceAt(at))
  }

  lemma PieceHashesAdd(sum: seq<byte> -> U64, places: set<nat>, at: nat)
    requires at < SPACE && forall x :: x in places ==> x < SPACE
    ensures PieceHashes(sum, places + {at}) == PieceHashes(sum, places) + {sum(PieceAt(at))}
  {
    var all := PieceHashes(sum, places + {at});
    forall h | h in PieceHashes(sum, places) + {sum(PieceAt(at))}
      ensures h in all
    {
      if h in PieceHashes(sum, places) {
        var x :| x in places && sum(PieceAt(x)) == h;
        assert x in places + {at};
      } else {
        assert at in places + {at};
      }
    }
  }

  /** The marked places below `index` words, and in the next word those with a bit in `done`. */
  ghost function Scanned(places: set<nat>, index: nat, bits: nat): (r: set<nat>)
    requires forall at :: at in places ==> at < SPACE
    ensures forall at :: at in r ==> at < SPACE
  {
    set at | at in places && (at / 64 < index || (at / 64 == index && !Bit(bits, at % 64)))
  }

  /** Taking a word's lowest set bit scans exactly one more place. */
  lemma ScanOne(seen: Bitmap, places: set<nat>, index: nat, bits: nat)
    requires Marks(seen, places) && index < SPACE_WORDS && 0 < bits < 0x1_0000_0000_0000_0000
    requires forall k: nat :: Bit(bits, k) ==> Bit(seen[index], k)
    ensures TrailingZeros(bits) < 64
    ensures var at := index * 64 + TrailingZeros(bits);
            && at < SPACE
            && Scanned(places, index, And(bits, bits - 1)) == Scanned(places, index, bits) + {at}
    ensures forall k: nat :: Bit(And(bits, bits - 1), k) ==> Bit(seen[index], k)
  {
    var low := TrailingZeros(bits);
    NonzeroHasABit(bits);
    WordIs64Bits();
    if low >= 64 {
      HighBitsClear(bits, 64, low);
    }
    var at := index * 64 + low;
    assert at / 64 == index && at % 64 == low;
    assert Marked(seen, at) && at in places;
    var next := And(bits, bits - 1);
    forall k: nat
      ensures Bit(next, k) <==> Bit(bits, k) && k != low
    {
      ClearLowest(bits, k);
    }
    forall x: nat | x in places
      ensures x in Scanned(places, index, next) <==> x in Scanned(places, index, bits) || x == at
    {
      assert Bit(next, x % 64) <==> Bit(bits, x % 64) && x % 64 != low;
    }
    assert Scanned(places, index, next) == Scanned(places, index, bits) + {at};
  }

  lemma ScanEdges(seen: Bitmap, places: set<nat>, index: nat)
    requires Marks(seen, places)
    ensures Scanned(places, 0, 0) == Scanned(places, 0, 0) * places
    ensures index < SPACE_WORDS ==> Scanned(places, index, seen[index]) == set at | at in places && at / 64 < index
    ensures Scanned(places, index, 0) == set at | at in places && at / 64 < index + 1
    ensures (set at | at in places && at / 64 < SPACE_WORDS) == places
  {
    forall k: nat
      ensures !Bit(0, k)
    {
      Bits.ZeroHasNoBits(k);
    }
    if index < SPACE_WORDS {
      forall at: nat | at in places && at / 64 == index
        ensures Bit(seen[index], at % 64)
      {
        assert Marked(seen, at);
      }
    }
  }

  /** Insert the hash of every marked piece, word by word, bit by bit. */
  method InsertMarked(sum: seq<byte> -> U64, seen: array<U64>, f: BloomFilter, ghost places: set<nat>)
    requires seen.Length == SPACE_WORDS && Marks(seen[..], places) && f.Valid()
    modifies f
    ensures f.Valid() && Holding(old(f.words), PieceHashes(sum, places), f.words)
  {
    ghost var none := set at | at in places && at / 64 < 0;
    assert none == {} && PieceHashes(sum, {}) == {};
    NothingHeld(f.words);
    for index := 0 to SPACE_WORDS
      invariant f.Valid()
      invariant Holding(old(f.words), PieceHashes(sum, set at | at in places && at / 64 < index), f.words)
    {
      ScanEdges(seen[..], places, index);
      InsertWord(sum, seen, index, f, places, old(f.words));
    }
    ScanEdges(seen[..], places, 0);
  }

  method InsertWord(sum: seq<byte> -> U64, seen: array<U64>, index: nat, f: BloomFilter, ghost places: set<nat>,
                    ghost first: seq<Word>)
    requires seen.Length == SPACE_WORDS && index < SPACE_WORDS && Marks(seen[..], places) && f.Valid() && Whole(first)
    requires Holding(first, PieceHashes(sum, Scanned(places, index, seen[index])), f.words)
    modifies f
    ensures f.Valid() && Holding(first, PieceHashes(sum, Scanned(places, index, 0)), f.words)
  {
    var bits: nat := seen[index];
    while bits != 0
      invariant f.Valid() && bits < 0x1_0000_0000_0000_0000
      invariant forall k: nat :: Bit(bits, k) ==> Bit(seen[index], k)
      invariant Holding(first, PieceHashes(sum, Scanned(places, index, bits)), f.words)
      decreases bits
    {
      bits := InsertLowest(sum, seen, index, bits, f, places, first);
    }
  }

  /** Insert the piece of the word's lowest set bit, and clear that bit. */
  method InsertLowest(sum: seq<byte> -> U64, seen: array<U64>, index: nat, bits: nat, f: BloomFilter,
                      ghost places: set<nat>, ghost first: seq<Word>)
    returns (rest: nat)
    requires seen.Length == SPACE_WORDS && index < SPACE_WORDS && Marks(seen[..], places) && f.Valid() && Whole(first)
    requires 0 < bits < 0x1_0000_0000_0000_0000
    requires forall k: nat :: Bit(bits, k) ==> Bit(seen[index], k)
    requires Holding(first, PieceHashes(sum, Scanned(places, index, bits)), f.words)
    modifies f
    ensures f.Valid() && rest < bits
    ensures forall k: nat :: Bit(rest, k) ==> Bit(seen[index], k)
    ensures Holding(first, PieceHashes(sum, Scanned(places, index, rest)), f.words)
  {
    ghost var before, mid := Scanned(places, index, bits), f.words;
    ScanOne(seen[..], places, index, bits);
    AndShrinks(bits, bits - 1);
    var at := index * 64 + TrailingZeros(bits);
    rest := And(bits, bits - 1);
    PieceHashesAdd(sum, before, at);
    var hash := sum(PieceAt(at));
    f.InsertHash(hash);
    InsertedGrows(first, PieceHashes(sum, before), mid, hash, f.words);
  }

  /** Build a column's filter, unless it would outgrow `maxBytes` or have nothing to hold. */
  method Build(sum: seq<byte> -> U64, isText: bool, column: Column, bitsPerValue: nat, maxBytes: nat)
    returns (filter: Option<BloomFilter>)
    ensures filter.None? <==>
              || !isText || ColumnPieces(column) == {}
              || 4 * Capacity(|ColumnPieces(column)|, bitsPerValue) > maxBytes
    ensures filter.Some? ==>
              && fresh(filter.value) && filter.value.Valid()
              && Holding(Empty(Capacity(|ColumnPieces(column)|, bitsPerValue)),
                         PieceHashes(sum, ColumnPieces(column)), filter.value.words)
  {
    if !isText || |column| == 0 {
      return None;
    }
    var seen := new U64[SPACE_WORDS](_ => 0);
    var distinct := MarkColumn(seen, column);
    if distinct == 0 {
      return None;
    }
    var f := new BloomFilter.WithCapacity(distinct, bitsPerValue);
    if 4 * |f.words| > maxBytes {
      return None;
    }
    InsertMarked(sum, seen, f, ColumnPieces(column));
    filter := Some(f);
  }

  method MarkColumn(seen: array<U64>, column: Column) returns (distinct: nat)
    requires seen.Length == SPACE_WORDS && forall i :: 0 <= i < SPACE_WORDS ==> seen[i] == 0
    modifies seen
    ensures Marks(seen[..], ColumnPieces(column)) && distinct == |ColumnPieces(column)|
  {
    distinct := 0;
    ClearMarksNothing(seen[..]);
    for i := 0 to |column|
      invariant Marks(seen[..], ColumnPieces(column[..i])) && distinct == |ColumnPieces(column[..i])|
    {
      assert column[..i + 1][..i] == column[..i];
      if column[i].Some? {
        WithPiecesIsUnion(ColumnPieces(column[..i]), column[i].value, |column[i].value|);
        NewPiecesCount(ColumnPieces(column[..i]), column[i].value, |column[i].value|);
        var more := MarkText(seen, column[i].value, ColumnPieces(column[..i]));
        distinct := distinct + more;
      }
    }
    assert column[..|column|] == column;
  }

  lemma ClearMarksNothing(seen: Bitmap)
    requires forall i :: 0 <= i < SPACE_WORDS ==> seen[i] == 0
    ensures Marks(seen, {})
  {
    forall at: nat | at < SPACE
      ensures !Marked(seen, at)
    {
      Bits.ZeroHasNoBits(at % 64);
    }
  }
}
