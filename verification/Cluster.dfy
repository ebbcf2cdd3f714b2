/** Sorting the rows of a flush by interleaved keys, before they are grouped. */
module Clusters {
  import opened Bytes
  import opened ByteOrder
  import opened ValueCodec
  import opened ZOrder

  // ---- One column of a key ------------------------------------------------------------

  /** A string cut to `n` bytes, or filled up to them with zeros. */
  function PadTo(s: seq<byte>, n: nat): (r: seq<byte>)
    ensures |r| == n
  {
    if n == 0 then []
    else if s == [] then [0] + PadTo([], n - 1)
    else [s[0]] + PadTo(s[1..], n - 1)
  }

  /** Cutting and filling may join two strings, but never swaps them. */
  lemma {:induction false} PadKeepsOrder(a: seq<byte>, b: seq<byte>, n: nat)
    requires Compare(a, b) != Above
    ensures Compare(PadTo(a, n), PadTo(b, n)) != Above
  {
    if n > 0 {
      var x, y := PadTo(a, n), PadTo(b, n);
      var a1, b1 := if a == [] then [] else a[1..], if b == [] then [] else b[1..];
      assert x[1..] == PadTo(a1, n - 1) && y[1..] == PadTo(b1, n - 1);
      if x[0] == y[0] {
        PadTailOrder(a, b);
        PadKeepsOrder(a1, b1, n - 1);
      }
    }
  }

  lemma PadTailOrder(a: seq<byte>, b: seq<byte>)
    requires Compare(a, b) != Above
    requires (if a == [] then 0 else a[0]) == (if b == [] then 0 else b[0])
    ensures Compare(if a == [] then [] else a[1..], if b == [] then [] else b[1..]) != Above
  {
  }

  /** A value's share of the key: the leading bytes of its code, tag left out; all zeros for null. */
  function Dimension(t: Type, v: Value): (r: seq<byte>)
    requires t.Ok() && t.Encodable() && v.HasType(t)
    ensures |r| == DIM_BYTES
  {
    PadTo(if v.Null? then [] else Body(t, v), DIM_BYTES)
  }

  /** A larger value never gets a smaller dimension, and null gets the least. */
  lemma DimensionsAreMonotone(t: Type, v: Value, w: Value)
    requires t.Ok() && t.Encodable() && v.HasType(t) && w.HasType(t)
    requires CompareValues(t, v, w) != Above
    ensures Compare(Dimension(t, v), Dimension(t, w)) != Above
  {
    if !v.Null? && !w.Null? {
      BodyOrder(t, v, w, [], []);
      Trailing(Body(t, v));
      Trailing(Body(t, w));
    }
    PadKeepsOrder(if v.Null? then [] else Body(t, v), if w.Null? then [] else Body(t, w), DIM_BYTES);
  }

  lemma Trailing(s: seq<byte>)
    ensures s + [] == s
  {
  }

  method DimensionBytes(t: Type, v: Value) returns (out: seq<byte>)
    requires t.Ok() && t.Encodable() && v.HasType(t)
    ensures out == Dimension(t, v)
  {
    if v.Null? {
      out := Truncate([]);
      return;
    }
    var scratch := new KeyBuffer();
    var ok := scratch.EncodeValue(t, v);
    WithoutTag(Body(t, v));
    // all non-null codes start with one tag, which is left out
    out := Truncate(scratch.out[1..]);
  }

  lemma WithoutTag(body: seq<byte>)
    ensures var code := [] + ([VALUE_TAG] + body); code[1..] == body
  {
  }

  method Truncate(value: seq<byte>) returns (out: seq<byte>)
    ensures out == PadTo(value, DIM_BYTES)
  {
    out := [0, 0, 0, 0, 0, 0, 0, 0];
    var take := if |value| < DIM_BYTES then |value| else DIM_BYTES;
    out := value[..take] + out[take..];
    PadIs(value, out, DIM_BYTES);
  }

  lemma {:induction false} PadIs(s: seq<byte>, out: seq<byte>, n: nat)
    requires |out| == n && forall i :: 0 <= i < n ==> out[i] == if i < |s| then s[i] else 0
    ensures PadTo(s, n) == out
  {
    if n > 0 {
      PadIs(if s == [] then [] else s[1..], out[1..], n - 1);
      assert out == [out[0]] + out[1..];
    }
  }

  // ---- A row's key -----------------------------------------------------------------------

  predicate ColumnsOk(types: seq<Type>, columns: seq<nat>) {
    forall k :: 0 <= k < |columns| ==> columns[k] < |types| && types[columns[k]].Ok() && types[columns[k]].Encodable()
  }

  predicate Fits(types: seq<Type>, row: seq<Value>) {
    |row| == |types| && forall i :: 0 <= i < |types| ==> row[i].HasType(types[i])
  }

  function Dims(types: seq<Type>, columns: seq<nat>, row: seq<Value>): (r: seq<seq<byte>>)
    requires ColumnsOk(types, columns) && Fits(types, row)
    ensures |r| == |columns| && DimsOk(r)
  {
    seq(|columns|, k requires 0 <= k < |columns| => Dimension(types[columns[k]], row[columns[k]]))
  }

  /** `key` is the z-order key of `row`. */
  ghost predicate IsKey(key: seq<byte>, types: seq<Type>, columns: seq<nat>, row: seq<Value>)
    requires ColumnsOk(types, columns) && Fits(types, row)
  {
    Interleaves(key, Dims(types, columns, row))
  }

  /**
   * Through encoding, truncation and interleaving, the key is monotone: a row
   * that is above another in no clustered column has a key that is not above.
   */
  lemma RowKeysAreMonotone(types: seq<Type>, columns: seq<nat>, a: seq<Value>, x: seq<byte>, b: seq<Value>, y: seq<byte>)
    requires ColumnsOk(types, columns) && Fits(types, a) && Fits(types, b)
    requires IsKey(x, types, columns, a) && IsKey(y, types, columns, b)
    requires forall k :: 0 <= k < |columns| ==>
               CompareValues(types[columns[k]], a[columns[k]], b[columns[k]]) != Above
    ensures Compare(x, y) != Above
  {
    forall d | 0 <= d < |columns|
      ensures Compare(Dims(types, columns, a)[d], Dims(types, columns, b)[d]) != Above
    {
      DimensionsAreMonotone(types[columns[d]], a[columns[d]], b[columns[d]]);
    }
    KeysAreMonotone(x, Dims(types, columns, a), y, Dims(types, columns, b));
  }

  // ---- Batches ---------------------------------------------------------------------------

  /** Rows held column by column. */
  datatype Batch = Batch(columns: seq<seq<Value>>, rows: nat)

  predicate BatchOk(types: seq<Type>, b: Batch) {
    && |b.columns| == |types|
    && forall c :: 0 <= c < |types| ==>
         |b.columns[c]| == b.rows && forall r :: 0 <= r < b.rows ==> b.columns[c][r].HasType(types[c])
  }

  function RowOf(types: seq<Type>, b: Batch, r: nat): (row: seq<Value>)
    requires BatchOk(types, b) && r < b.rows
    ensures Fits(types, row)
  {
    seq(|types|, c requires 0 <= c < |types| => b.columns[c][r])
  }

  function RowsOf(types: seq<Type>, b: Batch): (rows: seq<seq<Value>>)
    requires BatchOk(types, b)
    ensures |rows| == b.rows && forall r :: 0 <= r < b.rows ==> rows[r] == RowOf(types, b, r)
  {
    seq(b.rows, r requires 0 <= r < b.rows => RowOf(types, b, r))
  }

  predicate AllOk(types: seq<Type>, batches: seq<Batch>) {
    forall i :: 0 <= i < |batches| ==> BatchOk(types, batches[i])
  }

  function AllRows(types: seq<Type>, batches: seq<Batch>): (rows: seq<seq<Value>>)
    requires AllOk(types, batches)
    ensures forall i :: 0 <= i < |rows| ==> Fits(types, rows[i])
  {
    if batches == [] then []
    else AllRows(types, batches[..|batches| - 1]) + RowsOf(types, batches[|batches| - 1])
  }

  /** The rows a list of row numbers names. */
  function Pick<T>(rows: seq<T>, which: seq<nat>): (r: seq<T>)
    requires forall i :: 0 <= i < |which| ==> which[i] < |rows|
    ensures |r| == |which| && forall i :: 0 <= i < |which| ==> r[i] == rows[which[i]]
  {
    seq(|which|, i requires 0 <= i < |which| => rows[which[i]])
  }

  function UpTo(n: nat): (r: seq<nat>)
    ensures |r| == n && forall i :: 0 <= i < n ==> r[i] == i
  {
    seq(n, i => i)
  }

  /** Naming the same rows in another order gives the same rows, each as often. */
  lemma {:induction false} PickPermuted<T>(rows: seq<T>, a: seq<nat>, b: seq<nat>)
    requires forall i :: 0 <= i < |a| ==> a[i] < |rows|
    requires forall i :: 0 <= i < |b| ==> b[i] < |rows|
    requires multiset(a) == multiset(b)
    ensures multiset(Pick(rows, a)) == multiset(Pick(rows, b))
    decreases |a|
  {
    if a == [] {
      assert |multiset(b)| == 0;
    } else {
      var n := |a| - 1;
      RemoveAt(a, n);
      assert a[n] in multiset(b);
      var k :| 0 <= k < |b| && b[k] == a[n];
      RemoveAt(b, k);
      Cancel(multiset(Removed(a, n)), multiset(Removed(b, k)), a[n]);
      PickPermuted(rows, Removed(a, n), Removed(b, k));
      PickRemoved(rows, a, n);
      PickRemoved(rows, b, k);
    }
  }

  lemma Cancel(a: multiset<nat>, b: multiset<nat>, x: nat)
    requires a + multiset{x} == b + multiset{x}
    ensures a == b
  {
    assert a == (a + multiset{x}) - multiset{x};
    assert b == (b + multiset{x}) - multiset{x};
  }

  function Removed<T>(s: seq<T>, k: nat): seq<T>
    requires k < |s|
  {
    s[..k] + s[k + 1..]
  }

  lemma RemoveAt<T>(s: seq<T>, k: nat)
    requires k < |s|
    ensures multiset(s) == multiset(Removed(s, k)) + multiset{s[k]}
  {
    assert s == s[..k] + [s[k]] + s[k + 1..];
  }

  lemma PickRemoved<T>(rows: seq<T>, which: seq<nat>, k: nat)
    requires k < |which| && forall i :: 0 <= i < |which| ==> which[i] < |rows|
    ensures multiset(Pick(rows, which)) == multiset(Pick(rows, Removed(which, k))) + multiset{rows[which[k]]}
  {
    RemoveAt(Pick(rows, which), k);
    assert Removed(Pick(rows, which), k) == Pick(rows, Removed(which, k));
  }

  predicate Sorted(keys: seq<seq<byte>>) {
    forall i, j :: 0 <= i < j < |keys| ==> Compare(keys[i], keys[j]) != Above
  }

  // ---- Clustering ------------------------------------------------------------------------

  /** The batch and the row inside it, for every row number counted across the batches. */
  method Locate(types: seq<Type>, batches: seq<Batch>) returns (at: seq<(nat, nat)>)
    requires AllOk(types, batches)
    ensures Located(types, batches, at)
  {
    at := [];
    for index := 0 to |batches|
      invariant AllOk(types, batches[..index])
      invariant Located(types, batches[..index], at)
    {
      assert batches[..index + 1][..index] == batches[..index];
      ghost var before := at;
      for row := 0 to batches[index].rows
        invariant |at| == |before| + row && at[..|before|] == before
        invariant forall r :: 0 <= r < row ==> at[|before| + r] == (index, r)
      {
        at := at + [(index, row)];
      }
      LocatedNext(types, batches, index, before, at);
    }
    assert batches[..|batches|] == batches;
  }

  /** `at` names every row of the batches once, in order. */
  ghost predicate Located(types: seq<Type>, batches: seq<Batch>, at: seq<(nat, nat)>)
    requires AllOk(types, batches)
  {
    && |at| == |AllRows(types, batches)|
    && forall g :: 0 <= g < |at| ==>
         && at[g].0 < |batches| && at[g].1 < batches[at[g].0].rows
         && AllRows(types, batches)[g] == RowOf(types, batches[at[g].0], at[g].1)
  }

  lemma LocatedNext(types: seq<Type>, batches: seq<Batch>, index: nat, before: seq<(nat, nat)>, at: seq<(nat, nat)>)
    requires AllOk(types, batches) && index < |batches| && AllOk(types, batches[..index])
    requires Located(types, batches[..index], before)
    requires |at| == |before| + batches[index].rows && at[..|before|] == before
    requires forall r :: 0 <= r < batches[index].rows ==> at[|before| + r] == (index, r)
    ensures Located(types, batches[..index + 1], at)
  {
    var first, more := batches[..index], batches[..index + 1];
    assert more[..index] == first && more[index] == batches[index];
    assert AllRows(types, more) == AllRows(types, first) + RowsOf(types, batches[index]);
    forall g | 0 <= g < |at|
      ensures at[g].0 < |more| && at[g].1 < more[at[g].0].rows
      ensures AllRows(types, more)[g] == RowOf(types, more[at[g].0], at[g].1)
    {
      if g < |before| {
        assert before[g] == at[..|before|][g] == at[g];
        assert first[at[g].0] == more[at[g].0];
      } else {
        assert at[|before| + (g - |before|)] == (index, g - |before|);
      }
    }
  }

  /** One key for each row, in row order. */
  method BuildKeys(types: seq<Type>, batches: seq<Batch>, columns: seq<nat>, at: seq<(nat, nat)>)
    returns (keys: seq<seq<byte>>)
    requires AllOk(types, batches) && ColumnsOk(types, columns) && Located(types, batches, at)
    ensures |keys| == |at|
    ensures forall g :: 0 <= g < |keys| ==> IsKey(keys[g], types, columns, AllRows(types, batches)[g])
  {
    keys := [];
    for g := 0 to |at|
      invariant |keys| == g
      invariant forall k :: 0 <= k < g ==> IsKey(keys[k], types, columns, AllRows(types, batches)[k])
    {
      var key := RowKeyOf(types, columns, RowOf(types, batches[at[g].0], at[g].1));
      keys := keys + [key];
    }
  }

  method RowKeyOf(types: seq<Type>, columns: seq<nat>, row: seq<Value>) returns (key: seq<byte>)
    requires ColumnsOk(types, columns) && Fits(types, row)
    ensures IsKey(key, types, columns, row)
  {
    var dims: seq<seq<byte>> := [];
    for k := 0 to |columns|
      invariant |dims| == k
      invariant forall j :: 0 <= j < k ==> dims[j] == Dimension(types[columns[j]], row[columns[j]])
    {
      var d := DimensionBytes(types[columns[k]], row[columns[k]]);
      dims := dims + [d];
    }
    assert dims == Dims(types, columns, row);
    var out := new byte[DIM_BYTES * |dims|];
    InterleaveInto(dims, out);
    key := out[..];
  }

  /** A comparison sort of the row numbers by key; rows with equal keys may come in any order. */
  method SortRows(keys: seq<seq<byte>>) returns (order: seq<nat>)
    ensures multiset(order) == multiset(UpTo(|keys|))
    ensures forall i :: 0 <= i < |order| ==> order[i] < |keys|
    ensures Sorted(Pick(keys, order))
  {
    order := [];
    for n := 0 to |keys|
      invariant multiset(order) == multiset(UpTo(n))
      invariant forall i :: 0 <= i < |order| ==> order[i] < n
      invariant Sorted(Pick(keys, order))
    {
      var k := |order|;
      while k > 0 && Compare(keys[order[k - 1]], keys[n]) == Above
        invariant 0 <= k <= |order|
        invariant forall j :: k <= j < |order| ==> Compare(keys[n], keys[order[j]]) != Above
      {
        k := k - 1;
        CompareFlip(keys[n], keys[order[k]]);
      }
      InsertSorted(keys, order, n, k);
      InsertCounts(order, n, k);
      order := order[..k] + [n] + order[k..];
    }
  }

  lemma InsertCounts(order: seq<nat>, n: nat, k: nat)
    requires k <= |order| && multiset(order) == multiset(UpTo(n))
    ensures multiset(order[..k] + [n] + order[k..]) == multiset(UpTo(n + 1))
  {
    assert order == order[..k] + order[k..];
    assert UpTo(n + 1) == UpTo(n) + [n];
  }

  lemma InsertSorted(keys: seq<seq<byte>>, order: seq<nat>, n: nat, k: nat)
    requires n < |keys| && k <= |order| && forall i :: 0 <= i < |order| ==> order[i] < |keys|
    requires Sorted(Pick(keys, order))
    requires k > 0 ==> Compare(keys[order[k - 1]], keys[n]) != Above
    requires forall j :: k <= j < |order| ==> Compare(keys[n], keys[order[j]]) != Above
    ensures Sorted(Pick(keys, order[..k] + [n] + order[k..]))
  {
    var was := Pick(keys, order);
    forall i | 0 <= i < k
      ensures Compare(was[i], keys[n]) != Above
    {
      if i < k - 1 {
        CompareTransitive(was[i], was[k - 1], keys[n]);
      }
    }
    SortedInsert(was, k, keys[n]);
    PickInserted(keys, order, n, k);
  }

  lemma SortedInsert(s: seq<seq<byte>>, k: nat, x: seq<byte>)
    requires k <= |s| && Sorted(s)
    requires forall i :: 0 <= i < k ==> Compare(s[i], x) != Above
    requires forall i :: k <= i < |s| ==> Compare(x, s[i]) != Above
    ensures Sorted(s[..k] + [x] + s[k..])
  {
    var t := s[..k] + [x] + s[k..];
    forall i, j | 0 <= i < j < |t|
      ensures Compare(t[i], t[j]) != Above
    {
      assert t[i] == if i < k then s[i] else if i == k then x else s[i - 1];
      assert t[j] == if j < k then s[j] else if j == k then x else s[j - 1];
    }
  }

  lemma PickInserted<T>(rows: seq<T>, which: seq<nat>, n: nat, k: nat)
    requires n < |rows| && k <= |which| && forall i :: 0 <= i < |which| ==> which[i] < |rows|
    ensures Pick(rows, which[..k] + [n] + which[k..])
         == Pick(rows, which)[..k] + [rows[n]] + Pick(rows, which)[k..]
  {
  }

  /** The batch that holds, column by column, the rows picked out of all the batches. */
  method Gather(types: seq<Type>, batches: seq<Batch>, picks: seq<(nat, nat)>) returns (b: Batch)
    requires AllOk(types, batches)
    requires forall i :: 0 <= i < |picks| ==> picks[i].0 < |batches| && picks[i].1 < batches[picks[i].0].rows
    ensures BatchOk(types, b) && b.rows == |picks|
    ensures forall i :: 0 <= i < |picks| ==> RowOf(types, b, i) == RowOf(types, batches[picks[i].0], picks[i].1)
  {
    var columns: seq<seq<Value>> := [];
    for index := 0 to |types|
      invariant |columns| == index
      invariant forall c :: 0 <= c < index ==> |columns[c]| == |picks|
      invariant forall c, i :: 0 <= c < index && 0 <= i < |picks| ==>
                  columns[c][i] == batches[picks[i].0].columns[c][picks[i].1]
    {
      var column := seq(|picks|, i requires 0 <= i < |picks| => batches[picks[i].0].columns[index][picks[i].1]);
      columns := columns + [column];
    }
    b := Batch(columns, |picks|);
    forall c | 0 <= c < |types|
      ensures |b.columns[c]| == b.rows && forall r :: 0 <= r < b.rows ==> b.columns[c][r].HasType(types[c])
    {
      forall r | 0 <= r < b.rows
        ensures b.columns[c][r].HasType(types[c])
      {
        assert BatchOk(types, batches[picks[r].0]);
      }
    }
    forall i | 0 <= i < |picks|
      ensures RowOf(types, b, i) == RowOf(types, batches[picks[i].0], picks[i].1)
    {
      assert forall c :: 0 <= c < |types| ==> b.columns[c][i] == batches[picks[i].0].columns[c][picks[i].1];
    }
  }

  /** Every group is full but the last, which holds what is left. */
  predicate Filled(groups: seq<Batch>, perGroup: nat) {
    && (forall k :: 0 <= k < |groups| - 1 ==> groups[k].rows == perGroup)
    && (forall k :: 0 <= k < |groups| ==> 0 < groups[k].rows <= perGroup)
  }

  /**
   * The groups hold a permutation of the rows, whole, and keys only ever go up
   * from one row to the next; every group before the last is full.
   */
  method Cluster(types: seq<Type>, batches: seq<Batch>, columns: seq<nat>, groupRows: nat)
    returns (groups: seq<Batch>, ghost keys: seq<seq<byte>>)
    requires AllOk(types, batches) && ColumnsOk(types, columns)
    ensures AllOk(types, groups)
    ensures columns == [] ==> groups == []
    ensures columns != [] ==> multiset(AllRows(types, groups)) == multiset(AllRows(types, batches))
    ensures columns != [] ==>
              && |keys| == |AllRows(types, groups)| && Sorted(keys)
              && forall i :: 0 <= i < |keys| ==> IsKey(keys[i], types, columns, AllRows(types, groups)[i])
    ensures Filled(groups, if groupRows == 0 then |AllRows(types, batches)| else groupRows)
  {
    groups, keys := [], [];
    var at := Locate(types, batches);
    var total := |at|;
    if |columns| == 0 || total == 0 {
      return;
    }
    var rowKeys := BuildKeys(types, batches, columns, at);
    var order := SortRows(rowKeys);
    assert |order| == total by {
      assert |multiset(order)| == |multiset(UpTo(total))|;
    }
    ghost var rows := AllRows(types, batches);
    var perGroup := if groupRows == 0 then total else groupRows;
    groups := Chunks(types, batches, at, order, perGroup);
    keys := Pick(rowKeys, order);
    PickPermuted(rows, order, UpTo(total));
    assert Pick(rows, UpTo(total)) == rows;
  }

  method Chunks(types: seq<Type>, batches: seq<Batch>, at: seq<(nat, nat)>, order: seq<nat>, perGroup: nat)
    returns (groups: seq<Batch>)
    requires AllOk(types, batches) && Located(types, batches, at) && perGroup > 0
    requires forall i :: 0 <= i < |order| ==> order[i] < |at|
    ensures AllOk(types, groups) && Filled(groups, perGroup)
    ensures AllRows(types, groups) == Pick(AllRows(types, batches), order)
  {
    groups := [];
    var from := 0;
    ghost var rows := AllRows(types, batches);
    while from < |order|
      invariant from <= |order| && AllOk(types, groups) && Filled(groups, perGroup)
      invariant from < |order| ==> forall k :: 0 <= k < |groups| ==> groups[k].rows == perGroup
      invariant AllRows(types, groups) == Pick(rows, order[..from])
    {
      var end := if |order| - from > perGroup then from + perGroup else |order|;
      var picks := seq(end - from, i requires 0 <= i < end - from => at[order[from + i]]);
      var group := Gather(types, batches, picks);
      ChunkRows(types, batches, at, order, from, end, group);
      assert (groups + [group])[..|groups|] == groups;
      PickConcat(rows, order, from, end);
      groups := groups + [group];
      from := end;
    }
    assert order[..|order|] == order;
  }

  lemma ChunkRows(types: seq<Type>, batches: seq<Batch>, at: seq<(nat, nat)>, order: seq<nat>, from: nat, end: nat,
                  group: Batch)
    requires AllOk(types, batches) && Located(types, batches, at) && from <= end <= |order|
    requires forall i :: 0 <= i < |order| ==> order[i] < |at|
    requires BatchOk(types, group) && group.rows == end - from
    requires forall i :: 0 <= i < end - from ==>
               RowOf(types, group, i) == RowOf(types, batches[at[order[from + i]].0], at[order[from + i]].1)
    ensures RowsOf(types, group) == Pick(AllRows(types, batches), order[from..end])
  {
  }

  lemma PickConcat<T>(rows: seq<T>, order: seq<nat>, from: nat, end: nat)
    requires from <= end <= |order| && forall i :: 0 <= i < |order| ==> order[i] < |rows|
    ensures Pick(rows, order[..end]) == Pick(rows, order[..from]) + Pick(rows, order[from..end])
  {
  }
}
