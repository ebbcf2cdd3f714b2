/** Interleaved keys: bit by bit round robin over the dimensions. */
module ZOrder {
  import opened Bytes
  import opened ByteOrder
  import opened ValueCodec

  const DIM_BYTES: nat := 8
  const DIM_BITS: nat := 64

  // ---- Bits ----------------------------------------------------------------------------

  /** The value of the k-th most significant bit of a byte. */
  function Weight(k: nat): (r: nat)
    requires k < 8
    ensures r > 0
  {
    if k == 0 then 128 else if k == 1 then 64 else if k == 2 then 32 else if k == 3 then 16
    else if k == 4 then 8 else if k == 5 then 4 else if k == 6 then 2 else 1
  }

  /** A byte moved up one bit, its top bit lost. */
  function Shifted(b: byte): byte {
    if b >= 128 then 2 * b - 256 else 2 * b
  }

  predicate BitOf(b: byte, k: nat)
    requires k < 8
    decreases k
  {
    if k == 0 then b >= 128 else BitOf(Shifted(b), k - 1)
  }

  /** Bit `i` of a byte string, the most significant first. */
  predicate BitAt(s: seq<byte>, i: nat)
    requires i < 8 * |s|
  {
    BitOf(s[i / 8], i % 8)
  }

  /** Setting a clear bit carries nowhere, so it leaves the others alone. */
  lemma {:induction false} SetBit(b: byte, k: nat, j: nat)
    requires k < 8 && j < 8 && !BitOf(b, k)
    ensures b + Weight(k) < 256
    ensures k > 0 && b < 128 ==> b + Weight(k) < 128
    ensures BitOf(b + Weight(k), j) <==> j == k || BitOf(b, j)
    decreases k
  {
    if k == 0 {
      assert Shifted(b + 128) == Shifted(b);
    } else {
      SetBit(Shifted(b), k - 1, if j > 0 then j - 1 else 0);
      assert Weight(k - 1) == 2 * Weight(k);
      assert Shifted(b + Weight(k)) == Shifted(b) + Weight(k - 1);
    }
  }

  /** The byte with bit `k` set as well. */
  function WithBit(b: byte, k: nat): byte
    requires k < 8
  {
    if BitOf(b, k) then b
    else
      SetBit(b, k, 0);
      b + Weight(k)
  }

  lemma WithBitSets(b: byte, k: nat)
    requires k < 8
    ensures forall j: nat :: j < 8 ==> (BitOf(WithBit(b, k), j) <==> j == k || BitOf(b, j))
  {
    forall j: nat | j < 8
      ensures BitOf(WithBit(b, k), j) <==> j == k || BitOf(b, j)
    {
      if !BitOf(b, k) {
        SetBit(b, k, j);
      }
    }
  }

  lemma {:induction false} ZeroHasNoBits(k: nat)
    requires k < 8
    ensures !BitOf(0, k)
    decreases k
  {
    if k > 0 {
      ZeroHasNoBits(k - 1);
    }
  }

  /** The first bit in which two bytes differ decides their order. */
  lemma {:induction false} FirstBitDecides(a: byte, b: byte, k: nat)
    requires k < 8 && !BitOf(a, k) && BitOf(b, k)
    requires forall j: nat :: j < k ==> BitOf(a, j) == BitOf(b, j)
    ensures a < b
    decreases k
  {
    if k > 0 {
      assert BitOf(a, 0) == BitOf(b, 0);
      forall j: nat | j < k - 1
        ensures BitOf(Shifted(a), j) == BitOf(Shifted(b), j)
      {
        assert BitOf(a, j + 1) == BitOf(b, j + 1);
      }
      FirstBitDecides(Shifted(a), Shifted(b), k - 1);
    }
  }

  /** Bytes with the same first `n` bits differ by less than the last of them weighs. */
  lemma {:induction false} AgreeingBits(a: byte, b: byte, n: nat)
    requires 1 <= n <= 8
    requires forall j: nat :: j < n ==> BitOf(a, j) == BitOf(b, j)
    ensures 0 - Weight(n - 1) < a - b < Weight(n - 1)
    decreases n
  {
    assert BitOf(a, 0) == BitOf(b, 0);
    if n > 1 {
      forall j: nat | j < n - 1
        ensures BitOf(Shifted(a), j) == BitOf(Shifted(b), j)
      {
        assert BitOf(a, j + 1) == BitOf(b, j + 1);
      }
      AgreeingBits(Shifted(a), Shifted(b), n - 1);
      assert Weight(n - 2) == 2 * Weight(n - 1);
    }
  }

  /** The first `n` bits of two strings agree. */
  ghost predicate AgreeTo(x: seq<byte>, y: seq<byte>, n: nat) {
    n <= 8 * |x| && n <= 8 * |y| && forall i: nat :: i < n ==> BitAt(x, i) == BitAt(y, i)
  }

  lemma TailBits(x: seq<byte>, i: nat)
    requires x != [] && i < 8 * |x|
    ensures i >= 8 ==> BitAt(x, i) == BitAt(x[1..], i - 8)
    ensures i < 8 ==> BitAt(x, i) == BitOf(x[0], i)
  {
  }

  lemma FirstByteAgrees(x: seq<byte>, y: seq<byte>, n: nat)
    requires x != [] && y != [] && n >= 8 && AgreeTo(x, y, n)
    ensures x[0] == y[0] && AgreeTo(x[1..], y[1..], n - 8)
  {
    forall j: nat | j < 8
      ensures BitOf(x[0], j) == BitOf(y[0], j)
    {
      TailBits(x, j);
      TailBits(y, j);
      assert BitAt(x, j) == BitAt(y, j);
    }
    AgreeingBits(x[0], y[0], 8);
    forall i: nat | i < n - 8
      ensures BitAt(x[1..], i) == BitAt(y[1..], i)
    {
      TailBits(x, i + 8);
      TailBits(y, i + 8);
      assert BitAt(x, i + 8) == BitAt(y, i + 8);
    }
  }

  lemma {:induction false} SameBitsSameString(x: seq<byte>, y: seq<byte>)
    requires |x| == |y| && AgreeTo(x, y, 8 * |x|)
    ensures x == y
  {
    if x != [] {
      FirstByteAgrees(x, y, 8 * |x|);
      SameBitsSameString(x[1..], y[1..]);
      assert x == [x[0]] + x[1..] && y == [y[0]] + y[1..];
    }
  }

  /** The first differing bit decides the order of two strings of one length. */
  lemma {:induction false} FirstDifferenceDecides(x: seq<byte>, y: seq<byte>, p: nat)
    requires |x| == |y| && p < 8 * |x| && AgreeTo(x, y, p) && !BitAt(x, p) && BitAt(y, p)
    ensures Compare(x, y) == Below && Compare(y, x) == Above
  {
    TailBits(x, p);
    TailBits(y, p);
    if p < 8 {
      forall j: nat | j < p
        ensures BitOf(x[0], j) == BitOf(y[0], j)
      {
        TailBits(x, j);
        TailBits(y, j);
        assert BitAt(x, j) == BitAt(y, j);
      }
      FirstBitDecides(x[0], y[0], p);
    } else {
      FirstByteAgrees(x, y, p);
      FirstDifferenceDecides(x[1..], y[1..], p - 8);
    }
  }

  /** Where two strings of one length first differ, or their end. */
  lemma FirstDifference(x: seq<byte>, y: seq<byte>) returns (p: nat)
    requires |x| == |y|
    ensures p <= 8 * |x| && AgreeTo(x, y, p)
    ensures p == 8 * |x| ==> x == y
    ensures p < 8 * |x| ==> BitAt(x, p) != BitAt(y, p)
  {
    p := 0;
    while p < 8 * |x| && BitAt(x, p) == BitAt(y, p)
      invariant AgreeTo(x, y, p)
    {
      p := p + 1;
    }
    if p == 8 * |x| {
      SameBitsSameString(x, y);
    }
  }

  /** A string not above another has a zero where they first differ. */
  lemma FirstDifferenceOf(x: seq<byte>, y: seq<byte>, p: nat)
    requires |x| == |y| && Compare(x, y) != Above
    requires p < 8 * |x| && AgreeTo(x, y, p) && BitAt(x, p) != BitAt(y, p)
    ensures !BitAt(x, p) && BitAt(y, p)
  {
    if BitAt(x, p) {
      FirstDifferenceDecides(y, x, p);
    }
  }

  // ---- Interleaving --------------------------------------------------------------------

  predicate DimsOk(dims: seq<seq<byte>>) {
    forall d :: 0 <= d < |dims| ==> |dims[d]| == DIM_BYTES
  }

  /** The place of bit `bit` of dimension `d` among `count` interleaved dimensions. */
  function Place(bit: nat, d: nat, count: nat): nat {
    bit * count + d
  }

  lemma PlaceFits(bit: nat, d: nat, count: nat)
    requires bit < DIM_BITS && d < count
    ensures Place(bit, d, count) < 8 * (DIM_BYTES * count)
    ensures Place(bit, d, count) / 8 < DIM_BYTES * count
  {
    DigitDecides(count, bit, d, DIM_BITS, 0);
  }

  /** Each key bit comes from one place. */
  lemma PlaceInverse(at: nat, count: nat)
    requires count > 0
    ensures at == Place(at / count, at % count, count) && at % count < count
    ensures at < DIM_BITS * count ==> at / count < DIM_BITS
  {
    DivMod(at, count);
    DigitDecides(count, at / count, at % count, DIM_BITS, 0);
  }

  lemma PlaceUnique(bit: nat, d: nat, bit2: nat, d2: nat, count: nat)
    requires d < count && d2 < count
    ensures Place(bit, d, count) == Place(bit2, d2, count) <==> bit == bit2 && d == d2
    ensures bit < bit2 ==> Place(bit, d, count) < Place(bit2, d2, count)
  {
    DigitDecides(count, bit, d, bit2, d2);
  }

  /** The key bit that dimension `d` of `count` owns for its bit `bit`. */
  predicate KeyBitAt(key: seq<byte>, bit: nat, d: nat, count: nat)
    requires |key| == DIM_BYTES * count && bit < DIM_BITS && d < count
  {
    PlaceFits(bit, d, count);
    BitAt(key, Place(bit, d, count))
  }

  /** The key holds exactly the dimensions' bits, each in its place. */
  ghost predicate Interleaves(key: seq<byte>, dims: seq<seq<byte>>)
    requires DimsOk(dims)
  {
    && |key| == DIM_BYTES * |dims|
    && forall bit: nat, d: nat :: bit < DIM_BITS && d < |dims| ==>
         KeyBitAt(key, bit, d, |dims|) == BitAt(dims[d], bit)
  }

  /** Bits of the dimensions before `d`, and of `d` before `bit`, are in the key; the rest of it is clear. */
  ghost predicate InterleavedTo(key: seq<byte>, dims: seq<seq<byte>>, d: nat, bit: nat)
    requires DimsOk(dims)
  {
    && |key| == DIM_BYTES * |dims|
    && forall b: nat, e: nat :: b < DIM_BITS && e < |dims| ==>
         KeyBitAt(key, b, e, |dims|) == ((e < d || (e == d && b < bit)) && BitAt(dims[e], b))
  }

  function WithKeyBit(key: seq<byte>, bit: nat, d: nat, count: nat): seq<byte>
    requires |key| == DIM_BYTES * count && bit < DIM_BITS && d < count
  {
    PlaceFits(bit, d, count);
    var at := Place(bit, d, count);
    key[at / 8 := WithBit(key[at / 8], at % 8)]
  }

  lemma UpdateBit(key: seq<byte>, at: nat, i: nat)
    requires at < 8 * |key| && i < 8 * |key|
    ensures BitAt(key[at / 8 := WithBit(key[at / 8], at % 8)], i) <==> i == at || BitAt(key, i)
  {
    WithBitSets(key[at / 8], at % 8);
  }

  lemma InterleaveStep(key: seq<byte>, dims: seq<seq<byte>>, d: nat, bit: nat, next: seq<byte>)
    requires DimsOk(dims) && InterleavedTo(key, dims, d, bit) && d < |dims| && bit < DIM_BITS
    requires next == if BitAt(dims[d], bit) then WithKeyBit(key, bit, d, |dims|) else key
    ensures InterleavedTo(next, dims, d, bit + 1)
  {
    var n := |dims|;
    PlaceFits(bit, d, n);
    forall b: nat, e: nat | b < DIM_BITS && e < n
      ensures KeyBitAt(next, b, e, n) == ((e < d || (e == d && b < bit + 1)) && BitAt(dims[e], b))
    {
      PlaceFits(b, e, n);
      PlaceUnique(bit, d, b, e, n);
      UpdateBit(key, Place(bit, d, n), Place(b, e, n));
      assert KeyBitAt(key, b, e, n) == ((e < d || (e == d && b < bit)) && BitAt(dims[e], b));
    }
  }

  lemma ClearIsNothing(key: seq<byte>, dims: seq<seq<byte>>)
    requires DimsOk(dims) && |key| == DIM_BYTES * |dims| && forall i :: 0 <= i < |key| ==> key[i] == 0
    ensures InterleavedTo(key, dims, 0, 0)
  {
    forall b: nat, e: nat | b < DIM_BITS && e < |dims|
      ensures !KeyBitAt(key, b, e, |dims|)
    {
      PlaceFits(b, e, |dims|);
      ZeroHasNoBits(Place(b, e, |dims|) % 8);
    }
  }

  /** Write a row's key in place, one dimension's bits after another's. */
  method InterleaveInto(dims: seq<seq<byte>>, key: array<byte>)
    requires DimsOk(dims) && key.Length == DIM_BYTES * |dims|
    modifies key
    ensures Interleaves(key[..], dims)
  {
    for i := 0 to key.Length
      invariant forall k :: 0 <= k < i ==> key[k] == 0
    {
      key[i] := 0;
    }
    var count := |dims|;
    ClearIsNothing(key[..], dims);
    for d := 0 to count
      invariant InterleavedTo(key[..], dims, d, 0)
    {
      for bit := 0 to DIM_BITS
        invariant InterleavedTo(key[..], dims, d, bit)
      {
        PlaceFits(bit, d, count);
        var at := bit * count + d;
        ghost var before := key[..];
        if BitAt(dims[d], bit) {
          key[at / 8] := WithBit(key[at / 8], at % 8);
        }
        InterleaveStep(before, dims, d, bit, key[..]);
      }
      InterleaveRow(key[..], dims, d);
    }
  }

  lemma InterleaveRow(key: seq<byte>, dims: seq<seq<byte>>, d: nat)
    requires DimsOk(dims) && InterleavedTo(key, dims, d, DIM_BITS)
    ensures InterleavedTo(key, dims, d + 1, 0)
  {
    forall b: nat, e: nat | b < DIM_BITS && e < |dims|
      ensures KeyBitAt(key, b, e, |dims|) == (e < d + 1 && BitAt(dims[e], b))
    {
    }
  }

  // ---- What the key preserves --------------------------------------------------------------

  /** Every key bit is owned by one dimension, for one of its bits. */
  lemma Owner(at: nat, count: nat) returns (d: nat, bit: nat)
    requires at < 8 * (DIM_BYTES * count)
    ensures d < count && bit < DIM_BITS && at == Place(bit, d, count)
  {
    d, bit := at % count, at / count;
    PlaceInverse(at, count);
  }

  /**
   * Locality, both ways: two keys share their first k * count bits exactly when
   * every dimension shares its first k.
   */
  lemma SharedPrefixIff(x: seq<byte>, xs: seq<seq<byte>>, y: seq<byte>, ys: seq<seq<byte>>, k: nat)
    requires DimsOk(xs) && DimsOk(ys) && |xs| == |ys| && Interleaves(x, xs) && Interleaves(y, ys) && k <= DIM_BITS
    ensures AgreeTo(x, y, k * |xs|) <==> forall d :: 0 <= d < |xs| ==> AgreeTo(xs[d], ys[d], k)
  {
    PrefixFits(k, |xs|);
    if AgreeTo(x, y, k * |xs|) {
      KeysToDims(x, xs, y, ys, k);
    }
    if forall d :: 0 <= d < |xs| ==> AgreeTo(xs[d], ys[d], k) {
      DimsToKeys(x, xs, y, ys, k);
    }
  }

  lemma PrefixFits(k: nat, count: nat)
    requires k <= DIM_BITS
    ensures k * count <= 8 * (DIM_BYTES * count)
  {
    Scale(count, k, DIM_BITS);
  }

  lemma KeysToDims(x: seq<byte>, xs: seq<seq<byte>>, y: seq<byte>, ys: seq<seq<byte>>, k: nat)
    requires DimsOk(xs) && DimsOk(ys) && |xs| == |ys| && Interleaves(x, xs) && Interleaves(y, ys) && k <= DIM_BITS
    requires AgreeTo(x, y, k * |xs|)
    ensures forall d :: 0 <= d < |xs| ==> AgreeTo(xs[d], ys[d], k)
  {
    var n := |xs|;
    forall d, i: nat | 0 <= d < n && i < k
      ensures BitAt(xs[d], i) == BitAt(ys[d], i)
    {
      PlaceFits(i, d, n);
      PlaceBelow(i, d, k, n);
      assert BitAt(x, Place(i, d, n)) == BitAt(y, Place(i, d, n));
      assert KeyBitAt(x, i, d, n) == KeyBitAt(y, i, d, n);
    }
  }

  lemma DimsToKeys(x: seq<byte>, xs: seq<seq<byte>>, y: seq<byte>, ys: seq<seq<byte>>, k: nat)
    requires DimsOk(xs) && DimsOk(ys) && |xs| == |ys| && Interleaves(x, xs) && Interleaves(y, ys) && k <= DIM_BITS
    requires forall d :: 0 <= d < |xs| ==> AgreeTo(xs[d], ys[d], k)
    ensures AgreeTo(x, y, k * |xs|)
  {
    var n := |xs|;
    PrefixFits(k, n);
    forall at: nat | at < k * n
      ensures BitAt(x, at) == BitAt(y, at)
    {
      var d, bit := Owner(at, n);
      OwnerBelow(bit, d, k, n);
      assert AgreeTo(xs[d], ys[d], k);
      assert KeyBitAt(x, bit, d, n) == KeyBitAt(y, bit, d, n);
    }
  }

  lemma PlaceBelow(i: nat, d: nat, k: nat, count: nat)
    requires d < count && i < k
    ensures Place(i, d, count) < k * count
  {
    DigitDecides(count, i, d, k, 0);
  }

  lemma OwnerBelow(bit: nat, d: nat, k: nat, count: nat)
    requires d < count && Place(bit, d, count) < k * count
    ensures bit < k
  {
    DigitDecides(count, k, 0, bit, d);
  }

  /** Different dimensions give different keys. */
  lemma KeysAreInjective(key: seq<byte>, xs: seq<seq<byte>>, ys: seq<seq<byte>>)
    requires DimsOk(xs) && DimsOk(ys) && |xs| == |ys| && Interleaves(key, xs) && Interleaves(key, ys)
    ensures xs == ys
  {
    SharedPrefixIff(key, xs, key, ys, DIM_BITS);
    assert AgreeTo(key, key, DIM_BITS * |xs|);
    forall d | 0 <= d < |xs|
      ensures xs[d] == ys[d]
    {
      assert AgreeTo(xs[d], ys[d], DIM_BITS);
      SameBitsSameString(xs[d], ys[d]);
    }
  }

  /** A row that is nowhere above another, column by column, has a key that is not above the other's. */
  lemma KeysAreMonotone(x: seq<byte>, xs: seq<seq<byte>>, y: seq<byte>, ys: seq<seq<byte>>)
    requires DimsOk(xs) && DimsOk(ys) && |xs| == |ys| && Interleaves(x, xs) && Interleaves(y, ys)
    requires forall d :: 0 <= d < |xs| ==> Compare(xs[d], ys[d]) != Above
    ensures Compare(x, y) != Above
  {
    var p := FirstDifference(x, y);
    if p == 8 * |x| {
      CompareSelf(x);
    } else {
      var d, bit := Owner(p, |xs|);
      OwnersAgreeBefore(x, xs, y, ys, d, bit);
      assert KeyBitAt(x, bit, d, |xs|) == BitAt(xs[d], bit);
      assert KeyBitAt(y, bit, d, |xs|) == BitAt(ys[d], bit);
      FirstDifferenceOf(xs[d], ys[d], bit);
      FirstDifferenceDecides(x, y, p);
    }
  }

  lemma OwnersAgreeBefore(x: seq<byte>, xs: seq<seq<byte>>, y: seq<byte>, ys: seq<seq<byte>>, d: nat, bit: nat)
    requires DimsOk(xs) && DimsOk(ys) && |xs| == |ys| && Interleaves(x, xs) && Interleaves(y, ys)
    requires d < |xs| && bit < DIM_BITS && AgreeTo(x, y, Place(bit, d, |xs|))
    ensures AgreeTo(xs[d], ys[d], bit)
  {
    var n := |xs|;
    forall i: nat | i < bit
      ensures BitAt(xs[d], i) == BitAt(ys[d], i)
    {
      PlaceFits(i, d, n);
      PlaceUnique(i, d, bit, d, n);
      assert BitAt(x, Place(i, d, n)) == BitAt(y, Place(i, d, n));
      assert KeyBitAt(x, i, d, n) == KeyBitAt(y, i, d, n);
    }
  }
}
