/** Split-block filters: sure about absence, silent about presence. */
module Bloom {
  import opened Bits
  import opened Bytes
  import opened ByteOrder
  import opened Layout
  import opened ValueCodec

  const WORDS_PER_BLOCK: nat := 8
  const BITS_PER_BLOCK: nat := 256

  const SALT: seq<nat> := [0x47b6137b, 0x44974d91, 0x8824ad5b, 0xa2b7289d, 0x705495c7, 0x2df1424b, 0x9efc4947, 0x5c6bfb31]

  type Word = n: int | 0 <= n < 0x1_0000_0000

  lemma WordIs32Bits()
    ensures Pow2(32) == 0x1_0000_0000
  {
    assert Pow2(8) == 256 by { assert Pow2(4) == 16; }
    assert Pow2(12) == 4096;
    assert Pow2(16) == 65536;
    assert Pow2(20) == 16 * 65536;
    assert Pow2(24) == 256 * 65536;
    assert Pow2(28) == 4096 * 65536;
  }

  /** The block of a hash: its high half scaled down to the number of blocks. */
  function BlockOf(hash: U64, blocks: nat): (b: nat)
    requires blocks > 0
    ensures b < blocks
  {
    var high := hash / 0x1_0000_0000;
    ScaleDown(high, blocks);
    high * blocks / 0x1_0000_0000
  }

  lemma ScaleDown(high: nat, blocks: nat)
    requires high < 0x1_0000_0000 && blocks > 0
    ensures high * blocks < 0x1_0000_0000 * blocks
    ensures high * blocks / 0x1_0000_0000 < blocks
  {
  }

  /** The bit of word `i` that a hash sets, taken from its salted low half. */
  function BitIn(hash: U64, i: nat): (k: nat)
    requires i < WORDS_PER_BLOCK
    ensures k < 32
  {
    var low := hash % 0x1_0000_0000;
    (low * SALT[i]) % 0x1_0000_0000 / 0x800_0000
  }

  function Mask(hash: U64, i: nat): (m: Word)
    requires i < WORDS_PER_BLOCK
    ensures m == Pow2(BitIn(hash, i))
  {
    WordIs32Bits();
    Pow2Below(BitIn(hash, i), 32);
    Pow2(BitIn(hash, i))
  }

  predicate Whole(words: seq<Word>) {
    |words| > 0 && |words| % WORDS_PER_BLOCK == 0
  }

  function Base(words: seq<Word>, hash: U64): (b: nat)
    requires Whole(words)
    ensures b + WORDS_PER_BLOCK <= |words|
  {
    BlockOf(hash, |words| / WORDS_PER_BLOCK) * WORDS_PER_BLOCK
  }

  // ---- What a filter knows, bit by bit -----------------------------------------------------

  /** The hash sets bit `k` of word `j`. */
  predicate Sets(words: seq<Word>, hash: U64, j: nat, k: nat)
    requires Whole(words)
  {
    var base := Base(words, hash);
    base <= j < base + WORDS_PER_BLOCK && BitIn(hash, j - base) == k
  }

  /** `after` is `before` with exactly the bits of these hashes added. */
  ghost predicate Holding(before: seq<Word>, hashes: set<U64>, after: seq<Word>)
    requires Whole(before)
  {
    && |after| == |before|
    && forall j: nat, k: nat :: j < |after| && k < 32 ==>
         (Bit(after[j], k) <==> Bit(before[j], k) || SetByOne(before, hashes, j, k))
  }

  ghost predicate SetByOne(words: seq<Word>, hashes: set<U64>, j: nat, k: nat)
    requires Whole(words)
  {
    exists h :: h in hashes && Sets(words, h, j, k)
  }

  /** Two words with the same 32 bits are the same word. */
  lemma SameWord(a: Word, b: Word)
    requires forall k: nat :: k < 32 ==> Bit(a, k) == Bit(b, k)
    ensures a == b
  {
    WordIs32Bits();
    SameBits(a, b, 32);
  }

  /**
   * A filter is determined by the set of hashes put in: any order, with any
   * repetition, gives the same words.
   */
  lemma OrderDoesNotMatter(before: seq<Word>, hashes: set<U64>, a: seq<Word>, b: seq<Word>)
    requires Whole(before) && Holding(before, hashes, a) && Holding(before, hashes, b)
    ensures a == b
  {
    forall j: nat | j < |a|
      ensures a[j] == b[j]
    {
      forall k: nat | k < 32
        ensures Bit(a[j], k) == Bit(b[j], k)
      {
        assert Bit(a[j], k) <==> Bit(before[j], k) || SetByOne(before, hashes, j, k);
      }
      SameWord(a[j], b[j]);
    }
  }

  /** Whether every bit the hash would set is set. */
  predicate MayContain(words: seq<Word>, hash: U64)
    requires Whole(words)
  {
    forall i: nat :: i < WORDS_PER_BLOCK ==> Bit(words[Base(words, hash) + i], BitIn(hash, i))
  }

  /** Nothing that was put in is ever reported absent. */
  lemma NoFalseNegatives(before: seq<Word>, hashes: set<U64>, after: seq<Word>, hash: U64)
    requires Whole(before) && Holding(before, hashes, after) && hash in hashes
    ensures MayContain(after, hash)
  {
    forall i: nat | i < WORDS_PER_BLOCK
      ensures Bit(after[Base(after, hash) + i], BitIn(hash, i))
    {
      assert Sets(before, hash, Base(before, hash) + i, BitIn(hash, i));
    }
  }

  /** Insertion only adds, so what was present stays so. */
  lemma InsertedGrows(before: seq<Word>, some: set<U64>, mid: seq<Word>, hash: U64, after: seq<Word>)
    requires Whole(before) && Holding(before, some, mid) && Holding(mid, {hash}, after)
    ensures Holding(before, some + {hash}, after)
  {
    forall j: nat, k: nat | j < |after| && k < 32
      ensures Bit(after[j], k) <==> Bit(before[j], k) || SetByOne(before, some + {hash}, j, k)
    {
      assert Bit(mid[j], k) <==> Bit(before[j], k) || SetByOne(before, some, j, k);
      assert Bit(after[j], k) <==> Bit(mid[j], k) || SetByOne(mid, {hash}, j, k);
      assert SetByOne(mid, {hash}, j, k) <==> Sets(before, hash, j, k);
      if SetByOne(before, some, j, k) {
        var h :| h in some && Sets(before, h, j, k);
        assert h in some + {hash};
      }
      if Sets(before, hash, j, k) {
        assert hash in some + {hash};
      }
    }
  }

  lemma NothingHeld(words: seq<Word>)
    requires Whole(words)
    ensures Holding(words, {}, words)
  {
  }

  // ---- The object --------------------------------------------------------------------------

  /** How many words a filter for `values` values gets: whole blocks, at least one. */
  function Capacity(values: nat, bitsPerValue: nat): (n: nat)
    ensures n > 0 && n % WORDS_PER_BLOCK == 0
    ensures n * 32 >= values * bitsPerValue
  {
    var bits := (if values == 0 then 1 else values) * (if bitsPerValue == 0 then 1 else bitsPerValue);
    var blocks := (bits + BITS_PER_BLOCK - 1) / BITS_PER_BLOCK;
    (if blocks == 0 then 1 else blocks) * WORDS_PER_BLOCK
  }

  function Empty(n: nat): (r: seq<Word>)
    ensures |r| == n
  {
    seq(n, _ => 0)
  }

  class BloomFilter {
    var words: seq<Word>

    ghost predicate Valid()
      reads this
    {
      Whole(words)
    }

    constructor WithCapacity(values: nat, bitsPerValue: nat)
      ensures Valid() && words == Empty(Capacity(values, bitsPerValue))
    {
      words := seq(Capacity(values, bitsPerValue), _ => 0);
    }

    method InsertHash(hash: U64)
      requires Valid()
      modifies this
      ensures Valid() && Holding(old(words), {hash}, words)
    {
      ghost var was := words;
      var base := Base(words, hash);
      for i := 0 to WORDS_PER_BLOCK
        invariant |words| == |was| && Valid()
        invariant forall j :: 0 <= j < |was| ==>
                    words[j] == if base <= j < base + i then OrWord(was[j], Mask(hash, j - base)) else was[j]
      {
        words := words[base + i := OrWord(words[base + i], Mask(hash, i))];
      }
      InsertedOne(was, hash, words);
    }

    /** False means the hash certainly was not inserted. */
    method MayContainHash(hash: U64) returns (present: bool)
      requires Valid()
      ensures present <==> MayContain(words, hash)
    {
      var base := Base(words, hash);
      for i := 0 to WORDS_PER_BLOCK
        invariant forall k: nat :: k < i ==> Bit(words[base + k], BitIn(hash, k))
      {
        TestBit(words[base + i], BitIn(hash, i));
        if And(words[base + i], Mask(hash, i)) == 0 {
          return false;
        }
      }
      present := true;
    }
  }

  function OrWord(a: Word, b: Word): (r: Word)
    ensures r == Or(a, b)
  {
    WordIs32Bits();
    OrFits(a, b, 32);
    Or(a, b)
  }

  lemma InsertedOne(was: seq<Word>, hash: U64, now: seq<Word>)
    requires Whole(was) && |now| == |was|
    requires var base := Base(was, hash);
             forall j :: 0 <= j < |was| ==>
               now[j] == if base <= j < base + WORDS_PER_BLOCK then OrWord(was[j], Mask(hash, j - base)) else was[j]
    ensures Holding(was, {hash}, now)
  {
    var base := Base(was, hash);
    forall j: nat, k: nat | j < |now| && k < 32
      ensures Bit(now[j], k) <==> Bit(was[j], k) || SetByOne(was, {hash}, j, k)
    {
      assert SetByOne(was, {hash}, j, k) <==> Sets(was, hash, j, k);
      if base <= j < base + WORDS_PER_BLOCK {
        OrBits(was[j], Mask(hash, j - base), k);
        Pow2Bits(BitIn(hash, j - base), k);
      }
    }
  }

  // ---- Stored form ---------------------------------------------------------------------------

  /** Every word's four bytes, least significant first. */
  function ToBytes(words: seq<Word>): (r: seq<byte>)
    ensures |r| == 4 * |words|
  {
    if words == [] then [] else Le(words[0], 4) + ToBytes(words[1..])
  }

  function WordsOf(bytes: seq<byte>): seq<Word>
    requires |bytes| % 4 == 0
  {
    if bytes == [] then []
    else
      FourBytes(bytes[..4]);
      [FromLe(bytes[..4])] + WordsOf(bytes[4..])
  }

  lemma FourBytes(b: seq<byte>)
    requires |b| == 4
    ensures FromLe(b) < 0x1_0000_0000
  {
    assert FromLe(b) == b[0] + 256 * FromLe(b[1..]);
    assert FromLe(b[1..]) == b[1] + 256 * FromLe(b[1..][1..]);
    assert FromLe(b[1..][1..]) == b[2] + 256 * FromLe(b[1..][1..][1..]);
    assert FromLe(b[1..][1..][1..]) == b[3] + 256 * FromLe(b[1..][1..][1..][1..]);
  }

  /** A filter from its bytes, refused unless they divide into blocks. */
  function FromBytes(bytes: seq<byte>): Option<seq<Word>> {
    if |bytes| % (WORDS_PER_BLOCK * 4) != 0 || bytes == [] then None
    else
      WholeWords(|bytes|);
      Some(WordsOf(bytes))
  }

  lemma WholeWords(n: nat)
    requires n % 32 == 0
    ensures n % 4 == 0 && n / 4 % 8 == 0
  {
    var m := n / 32;
    assert n == 4 * (8 * m);
  }

  lemma {:induction false} WordsRoundTrip(words: seq<Word>)
    ensures WordsOf(ToBytes(words)) == words
  {
    if words != [] {
      WordsRoundTrip(words[1..]);
      Pow256Eight();
      LeRoundTrip(words[0], 4);
      var bytes := ToBytes(words);
      assert bytes[..4] == Le(words[0], 4) && bytes[4..] == ToBytes(words[1..]);
    }
  }

  /** A stored filter comes back as it was, and answers as it did. */
  lemma StoredFilterRoundTrip(words: seq<Word>)
    requires Whole(words)
    ensures FromBytes(ToBytes(words)) == Some(words)
  {
    WordsRoundTrip(words);
    WholeBytes(|words|);
  }

  lemma WholeBytes(n: nat)
    requires n % 8 == 0
    ensures 4 * n % 32 == 0
  {
    var m := n / 8;
    assert 4 * n == 32 * m;
  }

  /** What reads back as a filter is one. */
  lemma ReadFiltersAreWhole(bytes: seq<byte>)
    ensures FromBytes(bytes).Some? ==> Whole(FromBytes(bytes).value)
    ensures FromBytes(bytes).None? <==> bytes == [] || |bytes| % 32 != 0
  {
    if FromBytes(bytes).Some? {
      WholeWords(|bytes|);
      WordCount(bytes);
    }
  }

  lemma {:induction false} WordCount(bytes: seq<byte>)
    requires |bytes| % 4 == 0
    ensures 4 * |WordsOf(bytes)| == |bytes|
  {
    if bytes != [] {
      WordCount(bytes[4..]);
    }
  }

  // ---- A column's filter -----------------------------------------------------------------------

  /** A value's hash: the checksum of its code. */
  function HashOf(sum: seq<byte> -> U64, t: Type, v: Value): U64
    requires t.Ok() && t.Encodable() && v.HasType(t)
  {
    sum(Code(t, v))
  }

  predicate ColumnOk(t: Type, column: seq<Value>) {
    t.Ok() && forall i :: 0 <= i < |column| ==> column[i].HasType(t)
  }

  /** The hashes of a column's values, nulls left out. */
  ghost function Hashes(sum: seq<byte> -> U64, t: Type, column: seq<Value>): set<U64>
    requires ColumnOk(t, column) && t.Encodable()
  {
    if column == [] then {}
    else
      var last := column[|column| - 1];
      Hashes(sum, t, column[..|column| - 1]) + (if last.Null? then {} else {HashOf(sum, t, last)})
  }

  lemma {:induction false} HashIsIn(sum: seq<byte> -> U64, t: Type, column: seq<Value>, i: nat)
    requires ColumnOk(t, column) && t.Encodable() && i < |column| && !column[i].Null?
    ensures HashOf(sum, t, column[i]) in Hashes(sum, t, column)
  {
    if i < |column| - 1 {
      HashIsIn(sum, t, column[..|column| - 1], i);
    }
  }

  lemma {:induction false} NoHashes(sum: seq<byte> -> U64, t: Type, column: seq<Value>)
    requires ColumnOk(t, column) && t.Encodable()
    requires forall i :: 0 <= i < |column| ==> column[i].Null?
    ensures Hashes(sum, t, column) == {}
  {
    if column != [] {
      NoHashes(sum, t, column[..|column| - 1]);
    }
  }

  /** Build a filter over a column, sized by its distinct hashes. */
  method Build(sum: seq<byte> -> U64, t: Type, column: seq<Value>, bitsPerValue: nat) returns (filter: Option<BloomFilter>)
    requires ColumnOk(t, column)
    ensures filter.None? <==> !t.Encodable() || forall i :: 0 <= i < |column| ==> column[i].Null?
    ensures filter.Some? ==>
              && fresh(filter.value) && filter.value.Valid()
              && Holding(Empty(Capacity(|Hashes(sum, t, column)|, bitsPerValue)), Hashes(sum, t, column), filter.value.words)
  {
    if !t.Encodable() || |column| == 0 {
      return None;
    }
    var hashes := CollectHashes(sum, t, column);
    if i: nat :| i < |column| && !column[i].Null? {
      HashIsIn(sum, t, column, i);
    } else {
      NoHashes(sum, t, column);
    }
    if hashes == {} {
      return None;
    }
    var f := new BloomFilter.WithCapacity(|hashes|, bitsPerValue);
    InsertAll(f, hashes);
    filter := Some(f);
  }

  method CollectHashes(sum: seq<byte> -> U64, t: Type, column: seq<Value>) returns (hashes: set<U64>)
    requires ColumnOk(t, column) && t.Encodable()
    ensures hashes == Hashes(sum, t, column)
  {
    hashes := {};
    var buffer := new KeyBuffer();
    for row := 0 to |column|
      invariant fresh(buffer) && hashes == Hashes(sum, t, column[..row])
    {
      assert column[..row + 1][..row] == column[..row];
      if column[row].Null? {
        continue;
      }
      var hash := HashInto(buffer, sum, t, column[row]);
      hashes := hashes + {hash};
    }
    assert column[..|column|] == column;
  }

  method HashInto(buffer: KeyBuffer, sum: seq<byte> -> U64, t: Type, v: Value) returns (hash: U64)
    requires t.Ok() && t.Encodable() && v.HasType(t)
    modifies buffer
    ensures hash == HashOf(sum, t, v)
  {
    buffer.out := [];
    var ok := buffer.EncodeValue(t, v);
    assert buffer.out == Code(t, v);
    hash := sum(buffer.out);
  }

  /** Insert a set of hashes, in whatever order it gives them. */
  method InsertAll(f: BloomFilter, hashes: set<U64>)
    requires f.Valid()
    modifies f
    ensures f.Valid() && Holding(old(f.words), hashes, f.words)
  {
    var todo := hashes;
    NothingHeld(f.words);
    assert hashes - todo == {};
    while todo != {}
      invariant f.Valid() && todo <= hashes && Holding(old(f.words), hashes - todo, f.words)
    {
      var hash :| hash in todo;
      ghost var mid := f.words;
      f.InsertHash(hash);
      InsertedGrows(old(f.words), hashes - todo, mid, hash, f.words);
      assert hashes - (todo - {hash}) == hashes - todo + {hash};
      todo := todo - {hash};
    }
    assert hashes - {} == hashes;
  }

  /**
   * A filter that says no is right: no value of the column equals the one
   * asked for, in the column's own equality, where -0.0 is 0.0.
   */
  lemma AbsentMeansAbsent(sum: seq<byte> -> U64, t: Type, column: seq<Value>, empty: seq<Word>, words: seq<Word>, wanted: Value)
    requires ColumnOk(t, column) && t.Encodable() && wanted.HasType(t) && !wanted.Null?
    requires Whole(empty) && Holding(empty, Hashes(sum, t, column), words)
    requires !MayContain(words, HashOf(sum, t, wanted))
    ensures forall i :: 0 <= i < |column| ==> CompareValues(t, column[i], wanted) != Same
  {
    forall i | 0 <= i < |column|
      ensures CompareValues(t, column[i], wanted) != Same
    {
      if !column[i].Null? {
        CodesAreCanonical(t, column[i], wanted);
        HashIsIn(sum, t, column, i);
        if Code(t, column[i]) == Code(t, wanted) {
          NoFalseNegatives(empty, Hashes(sum, t, column), words, HashOf(sum, t, wanted));
        }
      }
    }
  }
}
