/** Bounds of a column's values, cut short yet still bounds. */
module ZoneMaps {
  import opened Bytes
  import opened ByteOrder
  import opened Layout

  const MAX_BOUND_BYTES: nat := 64

  datatype ZoneMap = ZoneMap(nullCount: nat, min: Option<seq<byte>>, max: Option<seq<byte>>, minTruncated: bool)

  type Column = seq<Option<seq<byte>>>

  /** Bounds of the non-null byte strings of a column. */
  ghost predicate Extremes(column: Column, least: Option<seq<byte>>, greatest: Option<seq<byte>>) {
    && (least.None? <==> forall i :: 0 <= i < |column| ==> column[i].None?)
    && (greatest.None? <==> least.None?)
    && (least.Some? ==> least in column && greatest in column)
    && (forall i :: 0 <= i < |column| && column[i].Some? ==>
          least.Some? && greatest.Some?
          && Compare(least.value, column[i].value) != Above && Compare(column[i].value, greatest.value) != Above)
  }

  /** Known bounds that enclose every value there is. */
  ghost predicate Encloses(z: ZoneMap, column: Column) {
    forall i :: 0 <= i < |column| && column[i].Some? ==>
      && (z.min.Some? ==> Compare(z.min.value, column[i].value) != Above)
      && (z.max.Some? ==> Compare(column[i].value, z.max.value) != Above)
  }

  function NullCount(column: Column): nat {
    if column == [] then 0 else NullCount(column[..|column| - 1]) + (if column[|column| - 1].None? then 1 else 0)
  }

  method Bounds(column: Column) returns (least: Option<seq<byte>>, greatest: Option<seq<byte>>, nulls: nat)
    ensures Extremes(column, least, greatest) && nulls == NullCount(column)
  {
    least, greatest, nulls := None, None, 0;
    for i := 0 to |column|
      invariant Extremes(column[..i], least, greatest) && nulls == NullCount(column[..i])
    {
      assert column[..i + 1] == column[..i] + [column[i]];
      assert column[..i + 1][..i] == column[..i];
      ghost var was, was2 := least, greatest;
      if column[i].None? {
        nulls := nulls + 1;
      } else {
        if least.None? || Compare(column[i].value, least.value) == Below {
          least := column[i];
        }
        if greatest.None? || Compare(column[i].value, greatest.value) == Above {
          greatest := column[i];
        }
      }
      ExtremesNext(column[..i], column[i], was, was2, least, greatest);
    }
    assert column[..|column|] == column;
  }

  lemma ExtremesNext(column: Column, x: Option<seq<byte>>, least: Option<seq<byte>>, greatest: Option<seq<byte>>,
                     least2: Option<seq<byte>>, greatest2: Option<seq<byte>>)
    requires Extremes(column, least, greatest)
    requires least2 == if x.Some? && (least.None? || Compare(x.value, least.value) == Below) then x else least
    requires greatest2 == if x.Some? && (greatest.None? || Compare(x.value, greatest.value) == Above) then x else greatest
    ensures Extremes(column + [x], least2, greatest2)
  {
    var all := column + [x];
    forall i | 0 <= i < |all| && all[i].Some?
      ensures least2.Some? && greatest2.Some?
      ensures Compare(least2.value, all[i].value) != Above && Compare(all[i].value, greatest2.value) != Above
    {
      if i < |column| {
        assert column[i] == all[i];
        if least2 != least {
          CompareTransitive(x.value, least.value, all[i].value);
        }
        if greatest2 != greatest {
          CompareFlip(greatest.value, x.value);
          CompareTransitive(all[i].value, greatest.value, x.value);
        }
      } else {
        CompareSelf(x.value);
        if least.Some? {
          CompareFlip(x.value, least.value);
          CompareFlip(least.value, x.value);
        }
      }
    }
    assert forall i :: 0 <= i < |column| ==> all[i] == column[i];
    assert all[|column|] == x;
  }

  /**
   * Build a column's zone map. A long minimum is cut, which only lowers it. A
   * long maximum is cut and rounded up; when that is impossible it is dropped.
   */
  method Build(column: Column) returns (z: ZoneMap)
    ensures Encloses(z, column) && z.nullCount == NullCount(column)
    ensures z.min.None? <==> forall i :: 0 <= i < |column| ==> column[i].None?
    ensures z.max.None? <==>
              || (forall i :: 0 <= i < |column| ==> column[i].None?)
              || (exists least, greatest :: Extremes(column, least, greatest) && greatest.Some?
                    && |greatest.value| > MAX_BOUND_BYTES && AllOnes(greatest.value[..MAX_BOUND_BYTES]))
    ensures z.min.Some? && !z.minTruncated ==> z.min in column
  {
    var least, greatest, nulls := Bounds(column);
    var min, max, truncated := least, greatest, false;
    if least.Some? && |least.value| > MAX_BOUND_BYTES {
      min, truncated := Some(least.value[..MAX_BOUND_BYTES]), true;
    }
    if greatest.Some? && |greatest.value| > MAX_BOUND_BYTES {
      max := PrefixUpperBound(greatest.value[..MAX_BOUND_BYTES]);
      assert AllOnes(greatest.value[..MAX_BOUND_BYTES]) <==> max.None?;
    }
    z := ZoneMap(nulls, min, max, truncated);
    forall i | 0 <= i < |column| && column[i].Some?
      ensures z.min.Some? ==> Compare(z.min.value, column[i].value) != Above
      ensures z.max.Some? ==> Compare(column[i].value, z.max.value) != Above
    {
      CutMin(least.value, column[i].value);
      CutMax(greatest.value, column[i].value);
    }
    ExtremesAgree(column, least, greatest);
  }

  lemma CutMin(least: seq<byte>, v: seq<byte>)
    requires Compare(least, v) != Above
    ensures |least| > MAX_BOUND_BYTES ==> Compare(least[..MAX_BOUND_BYTES], v) != Above
  {
    if |least| > MAX_BOUND_BYTES {
      PrefixNotAbove(least[..MAX_BOUND_BYTES], least);
      CompareTransitive(least[..MAX_BOUND_BYTES], least, v);
    }
  }

  lemma CutMax(greatest: seq<byte>, v: seq<byte>)
    requires Compare(v, greatest) != Above
    ensures |greatest| > MAX_BOUND_BYTES && RoundUp(greatest[..MAX_BOUND_BYTES]).Some? ==>
              Compare(v, RoundUp(greatest[..MAX_BOUND_BYTES]).value) != Above
  {
    if |greatest| > MAX_BOUND_BYTES && RoundUp(greatest[..MAX_BOUND_BYTES]).Some? {
      BoundIsExact(greatest[..MAX_BOUND_BYTES], greatest);
      CompareTransitive(v, greatest, RoundUp(greatest[..MAX_BOUND_BYTES]).value);
    }
  }

  /** A column has one least and one greatest value. */
  lemma ExtremesAgree(column: Column, least: Option<seq<byte>>, greatest: Option<seq<byte>>)
    requires Extremes(column, least, greatest)
    ensures forall l, g :: Extremes(column, l, g) ==> l == least && g == greatest
  {
    forall l, g | Extremes(column, l, g)
      ensures l == least && g == greatest
    {
      if least.Some? {
        SameIsEqual(l.value, least.value);
        SameIsEqual(g.value, greatest.value);
        CompareFlip(l.value, least.value);
        CompareFlip(least.value, l.value);
        CompareFlip(g.value, greatest.value);
        CompareFlip(greatest.value, g.value);
      }
    }
  }

  /** A segment a bound rules out holds no match: the reader may skip it. */
  lemma PruningIsSound(z: ZoneMap, column: Column, wanted: seq<byte>)
    requires Encloses(z, column)
    requires (z.min.Some? && Compare(wanted, z.min.value) == Below) || (z.max.Some? && Compare(wanted, z.max.value) == Above)
    ensures Some(wanted) !in column
  {
    if z.min.Some? {
      CompareFlip(wanted, z.min.value);
    }
  }

  // ---- Fixed-width bounds ------------------------------------------------------------

  /** An integer bound as stored: two's complement, least significant byte first. */
  function StoreInt(n: int, w: nat): (r: seq<byte>)
    requires 0 - Pow256(w) <= n < Pow256(w)
    ensures |r| == w
  {
    Le(if n < 0 then n + Pow256(w) else n, w)
  }

  /** Read one back against the column's type; a bound of another width says nothing. */
  function LoadInt(bytes: seq<byte>, w: nat, signed: bool): Option<int> {
    if |bytes| != w then None
    else
      var n := FromLe(bytes);
      Some(if signed && n + n >= Pow256(w) then n - Pow256(w) else n)
  }

  /** Decoding an encoded bound gives the integer back. */
  lemma IntBoundRoundTrip(n: int, w: nat, signed: bool)
    requires if signed then 0 - Pow256(w) <= n + n < Pow256(w) else 0 <= n < Pow256(w)
    ensures LoadInt(StoreInt(n, w), w, signed) == Some(n)
  {
    LeRoundTrip(if n < 0 then n + Pow256(w) else n, w);
  }
}
