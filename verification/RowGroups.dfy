/** Cutting a flush's batches into row groups. */
module RowGroups {
  import opened Memtables
  import opened Sequences

  /** Every row of every group, in order. */
  function AllRows(groups: seq<seq<seq<Row>>>): seq<Row> {
    if groups == [] then [] else AllRows(groups[..|groups| - 1]) + Flatten(groups[|groups| - 1])
  }

  /** Every batch of every group, in order. */
  function AllBatches(groups: seq<seq<seq<Row>>>): seq<seq<Row>> {
    if groups == [] then [] else AllBatches(groups[..|groups| - 1]) + groups[|groups| - 1]
  }

  /** A batch as it is stored: whole when it fits a group, else cut every `max` rows. */
  function Pieces(batch: seq<Row>, max: nat): seq<seq<Row>>
    requires max > 0
  {
    if batch == [] then []
    else if |batch| <= max then [batch]
    else [batch[..max]] + Pieces(batch[max..], max)
  }

  function Cut(batches: seq<seq<Row>>, max: nat): seq<seq<Row>>
    requires max > 0
  {
    if batches == [] then [] else Cut(batches[..|batches| - 1], max) + Pieces(batches[|batches| - 1], max)
  }

  lemma AllPush(groups: seq<seq<seq<Row>>>, g: seq<seq<Row>>)
    ensures AllRows(groups + [g]) == AllRows(groups) + Flatten(g)
    ensures AllBatches(groups + [g]) == AllBatches(groups) + g
  {
    assert (groups + [g])[..|groups|] == groups;
  }

  lemma {:induction false} FlattenConcat(a: seq<seq<Row>>, b: seq<seq<Row>>)
    ensures Flatten(a + b) == Flatten(a) + Flatten(b)
  {
    if b == [] {
      assert a + b == a;
    } else {
      FlattenConcat(a, b[..|b| - 1]);
      assert (a + b)[..|a + b| - 1] == a + b[..|b| - 1];
    }
  }

  lemma FlattenOne(b: seq<Row>)
    ensures Flatten([b]) == b
  {
    var one := [b];
    assert one[..0] == [];
  }

  /** Cutting loses and reorders nothing. */
  lemma {:induction false} PiecesJoin(batch: seq<Row>, max: nat)
    requires max > 0
    ensures Flatten(Pieces(batch, max)) == batch
    decreases |batch|
  {
    if batch == [] {
    } else if |batch| <= max {
      FlattenOne(batch);
    } else {
      PiecesJoin(batch[max..], max);
      FlattenFirst(batch[..max], Pieces(batch[max..], max));
      HeadAndTail(batch, max);
    }
  }

  lemma FlattenFirst(piece: seq<Row>, rest: seq<seq<Row>>)
    ensures Flatten([piece] + rest) == piece + Flatten(rest)
  {
    FlattenConcat([piece], rest);
    FlattenOne(piece);
  }

  lemma HeadAndTail(s: seq<Row>, n: nat)
    requires n <= |s|
    ensures s[..n] + s[n..] == s
  {
  }

  lemma {:induction false} CutJoins(batches: seq<seq<Row>>, max: nat)
    requires max > 0
    ensures Flatten(Cut(batches, max)) == Flatten(batches)
  {
    if batches != [] {
      CutJoins(batches[..|batches| - 1], max);
      PiecesJoin(batches[|batches| - 1], max);
      FlattenConcat(Cut(batches[..|batches| - 1], max), Pieces(batches[|batches| - 1], max));
    }
  }

  lemma {:induction false} RowsOfBatches(groups: seq<seq<seq<Row>>>)
    ensures AllRows(groups) == Flatten(AllBatches(groups))
  {
    if groups != [] {
      RowsOfBatches(groups[..|groups| - 1]);
      FlattenConcat(AllBatches(groups[..|groups| - 1]), groups[|groups| - 1]);
    }
  }

  lemma OneGroup(g: seq<seq<Row>>)
    ensures AllRows([g]) == Flatten(g)
  {
    AllPush([], g);
    var none: seq<seq<seq<Row>>> := [];
    assert none + [g] == [g] && AllRows(none) == [];
  }

  predicate Sized(groups: seq<seq<seq<Row>>>, max: nat) {
    forall i :: 0 <= i < |groups| ==> 0 < |Flatten(groups[i])| <= max
  }

  /**
   * The groups joined are the batches joined. With a limit no group exceeds it,
   * and a batch within the limit is never cut; without one there is one group.
   */
  method SplitRowGroups(batches: seq<seq<Row>>, max: nat) returns (groups: seq<seq<seq<Row>>>)
    ensures AllRows(groups) == Flatten(batches)
    ensures max > 0 ==> Sized(groups, max) && AllBatches(groups) == Cut(batches, max)
    ensures max == 0 ==> groups == if batches == [] then [] else [batches]
  {
    groups := [];
    if max == 0 {
      if batches != [] {
        groups := [batches];
        OneGroup(batches);
      }
      return;
    }
    var current: seq<seq<Row>>, rows := [], 0;
    for i := 0 to |batches|
      invariant Sized(groups, max)
      invariant rows == |Flatten(current)| < max && (rows == 0 ==> current == [])
      invariant AllBatches(groups) + current == Cut(batches[..i], max)
    {
      assert batches[..i + 1][..i] == batches[..i];
      groups, current, rows := AddBatch(groups, current, rows, batches[i], max);
    }
    if current != [] {
      AllPush(groups, current);
      groups := groups + [current];
    }
    assert batches[..|batches|] == batches;
    assert AllBatches(groups) == Cut(batches, max);
    CutJoins(batches, max);
    RowsOfBatches(groups);
  }

  /** Put one batch into the open group, closing that group first when it would overfill. */
  method AddBatch(before: seq<seq<seq<Row>>>, open: seq<seq<Row>>, held: nat, whole: seq<Row>, max: nat)
    returns (groups: seq<seq<seq<Row>>>, current: seq<seq<Row>>, rows: nat)
    requires max > 0 && Sized(before, max)
    requires held == |Flatten(open)| < max && (held == 0 ==> open == [])
    ensures Sized(groups, max)
    ensures rows == |Flatten(current)| < max && (rows == 0 ==> current == [])
    ensures AllBatches(groups) + current == AllBatches(before) + open + Pieces(whole, max)
  {
    groups, current, rows := before, open, held;
    if rows > 0 && |whole| > max - rows {
      groups, current, rows := Close(groups, current, max);
    }
    var batch;
    groups, batch := SliceOversized(groups, current, whole, max);
    if |batch| == 0 {
      return;
    }
    FlattenConcat(current, [batch]);
    FlattenOne(batch);
    Associates(AllBatches(groups), current, [batch]);
    rows := rows + |batch|;
    current := current + [batch];
    if rows >= max {
      groups, current, rows := Close(groups, current, max);
    }
  }

  method Close(before: seq<seq<seq<Row>>>, open: seq<seq<Row>>, max: nat)
    returns (groups: seq<seq<seq<Row>>>, current: seq<seq<Row>>, rows: nat)
    requires Sized(before, max) && 0 < |Flatten(open)| <= max
    ensures Sized(groups, max) && current == [] && rows == 0
    ensures AllBatches(groups) + current == AllBatches(before) + open
  {
    AllPush(before, open);
    groups, current, rows := before + [open], [], 0;
  }

  /** Full groups off the front of a batch that exceeds `max`. */
  method SliceOversized(before: seq<seq<seq<Row>>>, current: seq<seq<Row>>, whole: seq<Row>, max: nat)
    returns (groups: seq<seq<seq<Row>>>, batch: seq<Row>)
    requires max > 0 && Sized(before, max)
    requires current != [] ==> |whole| <= max
    ensures Sized(groups, max) && |batch| <= max
    ensures current != [] ==> groups == before && batch == whole
    ensures AllBatches(groups) + current + (if batch == [] then [] else [batch])
         == AllBatches(before) + current + Pieces(whole, max)
  {
    groups, batch := before, whole;
    while |batch| > max
      invariant Sized(groups, max)
      invariant current != [] ==> groups == before && batch == whole
      invariant AllBatches(groups) + Pieces(batch, max) == AllBatches(before) + Pieces(whole, max)
    {
      var head := batch[..max];
      FlattenOne(head);
      AllPush(groups, [head]);
      groups, batch := groups + [[head]], batch[max..];
    }
    assert Pieces(batch, max) == if batch == [] then [] else [batch];
    if current == [] {
      NoneBetween(AllBatches(groups), Pieces(batch, max));
      NoneBetween(AllBatches(before), Pieces(whole, max));
    }
  }

  lemma NoneBetween<T>(a: seq<T>, b: seq<T>)
    ensures a + [] + b == a + b
  {
  }
}
