/** The memtable: numbered rows in chunks, with tombstones for the deleted ones. */
module Memtables {
  import opened Sequences

  /** One row of the table; what it holds does not matter to storage. */
  type Row(==, !new)

  type Numbered = (nat, Row)

  /** Rows with consecutive sequence numbers from `base`. */
  function Number(base: nat, rows: seq<Row>): (r: seq<Numbered>)
    ensures |r| == |rows|
    ensures forall i :: 0 <= i < |r| ==> r[i] == (base + i, rows[i])
  {
    seq(|rows|, i requires 0 <= i < |rows| => (base + i, rows[i]))
  }

  /** The entries whose sequence number is not in `dead`, in order. */
  function Without(s: seq<Numbered>, dead: set<nat>): seq<Numbered> {
    if s == [] then []
    else Without(s[..|s| - 1], dead) + (if s[|s| - 1].0 in dead then [] else [s[|s| - 1]])
  }

  function RowsOf(s: seq<Numbered>): (r: seq<Row>)
    ensures |r| == |s|
    ensures forall i :: 0 <= i < |s| ==> r[i] == s[i].1
  {
    seq(|s|, i requires 0 <= i < |s| => s[i].1)
  }

  function SeqnosOf(s: seq<Numbered>): (r: seq<nat>)
    ensures |r| == |s|
    ensures forall i :: 0 <= i < |s| ==> r[i] == s[i].0
  {
    seq(|s|, i requires 0 <= i < |s| => s[i].0)
  }

  function SetOf(s: seq<nat>): set<nat> {
    set x | x in s
  }

  function Flatten(groups: seq<seq<Row>>): seq<Row> {
    if groups == [] then [] else Flatten(groups[..|groups| - 1]) + groups[|groups| - 1]
  }

  /**
   * A memtable as the rest of the system sees it: the live rows with their
   * sequence numbers, in insertion order, and the number the next row gets.
   */
  datatype Mem = Mem(live: seq<Numbered>, next: nat) {
    function Inserted(base: nat, rows: seq<Row>): Mem {
      if rows == [] then this
      else Mem(live + Number(base, rows), Most(next, base + |rows|))
    }

    function Deleted(seqnos: seq<nat>): Mem {
      Mem(Without(live, SetOf(seqnos)), next)
    }
  }

  // ---- Filtering ---------------------------------------------------------------

  lemma {:induction false} WithoutConcat(a: seq<Numbered>, b: seq<Numbered>, dead: set<nat>)
    ensures Without(a + b, dead) == Without(a, dead) + Without(b, dead)
  {
    if b == [] {
      assert a + b == a;
    } else {
      WithoutConcat(a, b[..|b| - 1], dead);
      assert (a + b)[..|a + b| - 1] == a + b[..|b| - 1];
    }
  }

  lemma {:induction false} WithoutTwice(s: seq<Numbered>, d1: set<nat>, d2: set<nat>)
    ensures Without(Without(s, d1), d2) == Without(s, d1 + d2)
  {
    if s != [] {
      var last := s[|s| - 1];
      WithoutTwice(s[..|s| - 1], d1, d2);
      var tail := if last.0 in d1 then [] else [last];
      WithoutConcat(Without(s[..|s| - 1], d1), tail, d2);
      if last.0 !in d1 {
        assert [last][..0] == [];
      }
    }
  }

  lemma {:induction false} WithoutNone(s: seq<Numbered>, dead: set<nat>)
    requires forall i :: 0 <= i < |s| ==> s[i].0 !in dead
    ensures Without(s, dead) == s
  {
    if s != [] {
      WithoutNone(s[..|s| - 1], dead);
    }
  }

  lemma {:induction false} WithoutAgree(s: seq<Numbered>, d1: set<nat>, d2: set<nat>)
    requires forall i :: 0 <= i < |s| ==> (s[i].0 in d1 <==> s[i].0 in d2)
    ensures Without(s, d1) == Without(s, d2)
  {
    if s != [] {
      WithoutAgree(s[..|s| - 1], d1, d2);
    }
  }

  /** What is left are entries of the original, none of them dead. */
  lemma {:induction false} WithoutKeeps(s: seq<Numbered>, dead: set<nat>)
    ensures |Without(s, dead)| <= |s|
    ensures forall x: Numbered :: x in Without(s, dead) <==> x in s && x.0 !in dead
  {
    if s != [] {
      WithoutKeeps(s[..|s| - 1], dead);
      assert s == s[..|s| - 1] + [s[|s| - 1]];
    }
  }

  lemma RowsConcat(a: seq<Numbered>, b: seq<Numbered>)
    ensures RowsOf(a + b) == RowsOf(a) + RowsOf(b)
    ensures SeqnosOf(a + b) == SeqnosOf(a) + SeqnosOf(b)
  {
  }

  /** The dead sequence numbers among `n` from `base`. */
  function DeadIn(dead: set<nat>, base: nat, n: nat): set<nat> {
    set s | s in dead && base <= s < base + n
  }

  // ---- Chunks --------------------------------------------------------------------

  const COALESCE_THRESHOLD: nat := 256

  datatype Chunk = Chunk(base: nat, rows: seq<Row>) {
    function End(): nat { base + |rows| }

    predicate Contains(seqno: nat) { base <= seqno < End() }
  }

  function LiveOf(chunks: seq<Chunk>, dead: set<nat>): seq<Numbered> {
    if chunks == [] then []
    else
      var c := chunks[|chunks| - 1];
      LiveOf(chunks[..|chunks| - 1], dead) + Without(Number(c.base, c.rows), dead)
  }

  function TotalRows(chunks: seq<Chunk>): nat {
    if chunks == [] then 0 else TotalRows(chunks[..|chunks| - 1]) + |chunks[|chunks| - 1].rows|
  }

  /** Non-empty chunks, in order, without overlap, below `next`. */
  predicate Ordered(chunks: seq<Chunk>, next: nat) {
    && (forall i :: 0 <= i < |chunks| ==> chunks[i].rows != [] && chunks[i].End() <= next)
    && (forall i, j :: 0 <= i < j < |chunks| ==> chunks[i].End() <= chunks[j].base)
  }

  predicate HeldBy(chunks: seq<Chunk>, seqno: nat) {
    exists i :: 0 <= i < |chunks| && chunks[i].Contains(seqno)
  }

  lemma LiveOfPush(chunks: seq<Chunk>, c: Chunk, dead: set<nat>)
    ensures LiveOf(chunks + [c], dead) == LiveOf(chunks, dead) + Without(Number(c.base, c.rows), dead)
    ensures TotalRows(chunks + [c]) == TotalRows(chunks) + |c.rows|
  {
    assert (chunks + [c])[..|chunks|] == chunks;
  }

  lemma {:induction false} LiveOfDies(chunks: seq<Chunk>, dead: set<nat>, more: set<nat>)
    ensures LiveOf(chunks, dead + more) == Without(LiveOf(chunks, dead), more)
  {
    if chunks != [] {
      var c := chunks[|chunks| - 1];
      LiveOfDies(chunks[..|chunks| - 1], dead, more);
      WithoutTwice(Number(c.base, c.rows), dead, more);
      WithoutConcat(LiveOf(chunks[..|chunks| - 1], dead), Without(Number(c.base, c.rows), dead), more);
    }
  }

  /** A sequence number no chunk holds is no live row's. */
  lemma {:induction false} LiveAreHeld(chunks: seq<Chunk>, dead: set<nat>, x: Numbered)
    requires x in LiveOf(chunks, dead)
    ensures HeldBy(chunks, x.0) && x.0 !in dead
  {
    var c := chunks[|chunks| - 1];
    WithoutKeeps(Number(c.base, c.rows), dead);
    if x in Without(Number(c.base, c.rows), dead) {
      assert c.Contains(x.0);
    } else {
      LiveAreHeld(chunks[..|chunks| - 1], dead, x);
      var i :| 0 <= i < |chunks| - 1 && chunks[..|chunks| - 1][i].Contains(x.0);
      assert chunks[i].Contains(x.0);
    }
  }

  /** Tombstones name distinct held rows, so they count what is missing exactly. */
  lemma {:induction false} LiveCount(chunks: seq<Chunk>, dead: set<nat>, next: nat)
    requires Ordered(chunks, next)
    requires forall s :: s in dead ==> HeldBy(chunks, s)
    ensures |LiveOf(chunks, dead)| + |dead| == TotalRows(chunks)
  {
    if chunks == [] {
      assert dead == {};
    } else {
      var c, rest := chunks[|chunks| - 1], chunks[..|chunks| - 1];
      var inLast := DeadIn(dead, c.base, |c.rows|);
      var before := dead - inLast;
      forall s | s in before
        ensures HeldBy(rest, s)
      {
        var i :| 0 <= i < |chunks| && chunks[i].Contains(s);
        assert rest[i].Contains(s);
      }
      LiveCount(rest, before, next);
      LiveIgnores(rest, dead, before, c.base);
      NumberCount(c.base, c.rows, dead, inLast);
      assert dead == before + inLast;
    }
  }

  lemma {:induction false} LiveIgnores(chunks: seq<Chunk>, d1: set<nat>, d2: set<nat>, bound: nat)
    requires forall i :: 0 <= i < |chunks| ==> chunks[i].End() <= bound
    requires forall s :: s < bound ==> (s in d1 <==> s in d2)
    ensures LiveOf(chunks, d1) == LiveOf(chunks, d2)
  {
    if chunks != [] {
      var c := chunks[|chunks| - 1];
      LiveIgnores(chunks[..|chunks| - 1], d1, d2, bound);
      WithoutAgree(Number(c.base, c.rows), d1, d2);
    }
  }

  lemma {:induction false} NumberCount(base: nat, rows: seq<Row>, dead: set<nat>, inside: set<nat>)
    requires inside == DeadIn(dead, base, |rows|)
    ensures |Without(Number(base, rows), dead)| + |inside| == |rows|
  {
    if rows == [] {
      assert inside == {};
    } else {
      var n := |rows| - 1;
      var less := DeadIn(dead, base, n);
      NumberCount(base, rows[..n], dead, less);
      assert Number(base, rows)[..n] == Number(base, rows[..n]);
      assert inside == if base + n in dead then less + {base + n} else less;
    }
  }

  lemma PushHolds(chunks: seq<Chunk>, dead: set<nat>, next: nat, c: Chunk)
    requires Ordered(chunks, next)
    requires forall s :: s in dead ==> HeldBy(chunks, s)
    ensures forall s :: s in dead ==> s < next && HeldBy(chunks + [c], s)
  {
    forall s | s in dead
      ensures s < next && HeldBy(chunks + [c], s)
    {
      var k :| 0 <= k < |chunks| && chunks[k].Contains(s);
      assert (chunks + [c])[k].Contains(s);
    }
  }

  /** A chunk at fresh numbers joins whole: no tombstone reaches it. */
  lemma PushKeeps(chunks: seq<Chunk>, dead: set<nat>, next: nat, c: Chunk)
    requires Ordered(chunks, next) && next <= c.base && c.rows != []
    requires forall s :: s in dead ==> HeldBy(chunks, s)
    ensures Ordered(chunks + [c], c.End())
    ensures forall s :: s in dead ==> HeldBy(chunks + [c], s)
    ensures LiveOf(chunks + [c], dead) == LiveOf(chunks, dead) + Number(c.base, c.rows)
    ensures TotalRows(chunks + [c]) == TotalRows(chunks) + |c.rows|
  {
    LiveOfPush(chunks, c, dead);
    PushHolds(chunks, dead, next, c);
    WithoutNone(Number(c.base, c.rows), dead);
  }

  lemma NumberRows(base: nat, rows: seq<Row>)
    ensures RowsOf(Number(base, rows)) == rows
    ensures Without(Number(base, rows), {}) == Number(base, rows)
  {
    WithoutNone(Number(base, rows), {});
  }

  lemma SingleChunk(c: Chunk)
    ensures LiveOf([c], {}) == Without(Number(c.base, c.rows), {})
    ensures TotalRows([c]) == |c.rows|
  {
    var one := [c];
    assert one[..|one| - 1] == [];
  }

  lemma Renumbered(base: nat, rows: seq<Row>)
    ensures var live := LiveOf([Chunk(base, rows)], {});
            && RowsOf(live) == rows && |live| == |rows|
            && forall x: Numbered :: x in live ==> base <= x.0
    ensures TotalRows([Chunk(base, rows)]) == |rows|
  {
    SingleChunk(Chunk(base, rows));
    NumberRows(base, rows);
  }

  lemma DeleteCount(chunks: seq<Chunk>, before: set<nat>, dead: set<nat>, next: nat)
    requires Ordered(chunks, next)
    requires forall s :: s in dead ==> HeldBy(chunks, s)
    requires forall s :: s in before ==> HeldBy(chunks, s)
    ensures |LiveOf(chunks, before)| - |LiveOf(chunks, dead)| == |dead| - |before|
  {
    LiveCount(chunks, before, next);
    LiveCount(chunks, dead, next);
  }

  // ---- The object ----------------------------------------------------------------

  class Memtable {
    var chunks: seq<Chunk>
    var tombstones: set<nat>
    var nextSeqno: nat
    var rows: nat

    ghost predicate Valid()
      reads this
    {
      && Ordered(chunks, nextSeqno)
      && (forall s :: s in tombstones ==> HeldBy(chunks, s))
      && rows == TotalRows(chunks)
    }

    ghost function View(): Mem
      reads this
    {
      Mem(LiveOf(chunks, tombstones), nextSeqno)
    }

    constructor (next: nat)
      ensures Valid() && View() == Mem([], next)
    {
      chunks, tombstones, nextSeqno, rows := [], {}, next, 0;
    }

    /** The number of entries of the view. */
    method LiveRows() returns (n: nat)
      requires Valid()
      ensures n == |View().live|
    {
      LiveCount(chunks, tombstones, nextSeqno);
      n := rows - |tombstones|;
    }

    /** Insert a batch at sequence numbers nothing has used. */
    method InsertAt(base: nat, batch: seq<Row>)
      requires Valid() && nextSeqno <= base
      modifies this
      ensures Valid() && View() == old(View()).Inserted(base, batch)
    {
      if batch == [] {
        return;
      }
      Push(base, batch);
    }

    method Push(base: nat, batch: seq<Row>)
      requires Valid() && nextSeqno <= base && batch != []
      modifies this
      ensures Valid() && View() == old(View()).Inserted(base, batch)
      ensures chunks == old(chunks) + [Chunk(base, batch)]
    {
      PushKeeps(chunks, tombstones, nextSeqno, Chunk(base, batch));
      rows := rows + |batch|;
      nextSeqno := Most(nextSeqno, base + |batch|);
      chunks := chunks + [Chunk(base, batch)];
    }

    /** Add a batch at the next numbers, coalescing when there are too many chunks. */
    method Insert(batch: seq<Row>) returns (base: nat)
      requires Valid()
      modifies this
      ensures Valid() && base == old(nextSeqno)
      ensures RowsOf(View().live) == RowsOf(old(View()).live) + batch
      ensures |old(chunks)| < COALESCE_THRESHOLD ==> View() == old(View()).Inserted(base, batch)
    {
      base := nextSeqno;
      if batch == [] {
        return;
      }
      Push(base, batch);
      RowsConcat(old(View()).live, Number(base, batch));
      NumberRows(base, batch);
      if |chunks| > COALESCE_THRESHOLD {
        Coalesce();
      }
    }

    predicate Holds(seqno: nat)
      reads this
    {
      HeldBy(chunks, seqno)
    }

    predicate IsDeleted(seqno: nat)
      reads this
    {
      seqno in tombstones
    }

    /** Bury the named rows; `count` is how many were live. */
    method Delete(seqnos: seq<nat>) returns (count: nat)
      requires Valid()
      modifies this`tombstones
      ensures Valid() && View() == old(View()).Deleted(seqnos)
      ensures count == |old(View()).live| - |View().live|
    {
      count := 0;
      ghost var live := View().live;
      WithoutNone(live, SetOf(seqnos[..0]));
      for i := 0 to |seqnos|
        invariant Valid() && chunks == old(chunks) && nextSeqno == old(nextSeqno)
        invariant View().live == Without(live, SetOf(seqnos[..i]))
        invariant count == |live| - |View().live|
      {
        var isNew := DeleteSeqno(seqnos[i]);
        WithoutTwice(live, SetOf(seqnos[..i]), {seqnos[i]});
        assert SetOf(seqnos[..i + 1]) == SetOf(seqnos[..i]) + {seqnos[i]};
        if isNew {
          count := count + 1;
        }
      }
      assert seqnos[..|seqnos|] == seqnos;
    }

    /** Mark one row deleted; true when a row was there to delete. */
    method DeleteSeqno(seqno: nat) returns (isNew: bool)
      requires Valid()
      modifies this`tombstones
      ensures Valid() && View().live == Without(old(View()).live, {seqno})
      ensures |old(View()).live| == |View().live| + (if isNew then 1 else 0)
    {
      isNew := Holds(seqno) && seqno !in tombstones;
      DeleteOne(chunks, tombstones, seqno);
      if isNew {
        tombstones := tombstones + {seqno};
      }
      DeleteCount(chunks, old(tombstones), tombstones, nextSeqno);
    }

    /** The numbers of the view, in its order. */
    method LiveSeqnos() returns (out: seq<nat>)
      requires Valid()
      ensures out == SeqnosOf(View().live)
    {
      out := [];
      for i := 0 to |chunks|
        invariant out == SeqnosOf(LiveOf(chunks[..i], tombstones))
      {
        var c := chunks[i];
        var more := ChunkSeqnos(c);
        out := out + more;
        assert chunks[..i + 1] == chunks[..i] + [c];
        LiveOfPush(chunks[..i], c, tombstones);
        RowsConcat(LiveOf(chunks[..i], tombstones), Without(Number(c.base, c.rows), tombstones));
      }
      assert chunks[..|chunks|] == chunks;
    }

    method ChunkSeqnos(c: Chunk) returns (out: seq<nat>)
      ensures out == SeqnosOf(Without(Number(c.base, c.rows), tombstones))
    {
      var numbered := Number(c.base, c.rows);
      out := [];
      for row := 0 to |c.rows|
        invariant out == SeqnosOf(Without(numbered[..row], tombstones))
      {
        assert numbered[..row + 1][..row] == numbered[..row];
        if c.base + row !in tombstones {
          out := out + [c.base + row];
        }
      }
      assert numbered[..|c.rows|] == numbered;
    }

    /** The rows of the view, cut where the chunks are. */
    method Batches() returns (out: seq<seq<Row>>)
      requires Valid()
      ensures Flatten(out) == RowsOf(View().live)
      ensures forall b :: b in out ==> b != []
    {
      out := [];
      for i := 0 to |chunks|
        invariant Flatten(out) == RowsOf(LiveOf(chunks[..i], tombstones))
        invariant forall b :: b in out ==> b != []
      {
        var kept := ChunkRows(chunks[i]);
        assert chunks[..i + 1] == chunks[..i] + [chunks[i]];
        LiveOfPush(chunks[..i], chunks[i], tombstones);
        RowsConcat(LiveOf(chunks[..i], tombstones), Without(Number(chunks[i].base, chunks[i].rows), tombstones));
        if kept != [] {
          assert (out + [kept])[..|out|] == out;
          out := out + [kept];
        }
      }
      assert chunks[..|chunks|] == chunks;
    }

    /** One chunk's live rows: untouched when none is deleted, nothing when all are, else filtered. */
    method ChunkRows(c: Chunk) returns (kept: seq<Row>)
      ensures kept == RowsOf(Without(Number(c.base, c.rows), tombstones))
    {
      var deleted := |DeadIn(tombstones, c.base, |c.rows|)|;
      NumberCount(c.base, c.rows, tombstones, DeadIn(tombstones, c.base, |c.rows|));
      if deleted == 0 {
        NothingDeleted(c.base, c.rows, tombstones);
        kept := c.rows;
      } else if deleted == |c.rows| {
        kept := [];
      } else {
        kept := FilterChunk(c);
      }
    }

    method FilterChunk(c: Chunk) returns (kept: seq<Row>)
      ensures kept == RowsOf(Without(Number(c.base, c.rows), tombstones))
    {
      var mask := seq(|c.rows|, _ => true);
      for row := 0 to |c.rows|
        invariant |mask| == |c.rows|
        invariant forall r :: 0 <= r < row ==> mask[r] == (c.base + r !in tombstones)
        invariant forall r :: row <= r < |c.rows| ==> mask[r]
      {
        if c.base + row in tombstones {
          mask := mask[row := false];
        }
      }
      var numbered := Number(c.base, c.rows);
      kept := [];
      for row := 0 to |c.rows|
        invariant kept == RowsOf(Without(numbered[..row], tombstones))
      {
        assert numbered[..row + 1][..row] == numbered[..row];
        if mask[row] {
          kept := kept + [c.rows[row]];
        }
      }
      assert numbered[..|c.rows|] == numbered;
    }

    /**
     * One chunk in place of all: the view keeps its rows and their order, under
     * numbers not used before, and no tombstone is left.
     */
    method Coalesce()
      requires Valid()
      modifies this
      ensures Valid() && tombstones == {} && |chunks| <= 1
      ensures RowsOf(View().live) == RowsOf(old(View()).live)
      ensures forall x :: x in View().live ==> old(nextSeqno) <= x.0
      ensures nextSeqno == old(nextSeqno) + |View().live|
    {
      var batches := Batches();
      if |batches| == 0 {
        chunks, tombstones, rows := [], {}, 0;
        assert View().live == [];
      } else {
        var merged := Concat(batches);
        FlattenNonempty(batches);
        Renumbered(nextSeqno, merged);
        chunks, tombstones, rows := [Chunk(nextSeqno, merged)], {}, |merged|;
        nextSeqno := nextSeqno + |merged|;
      }
    }

    /** Hand over the view's rows. Nothing is left but the next number. */
    method Freeze() returns (batches: seq<seq<Row>>, live: nat, next: nat)
      requires Valid()
      modifies this
      ensures Valid() && View() == Mem([], old(nextSeqno))
      ensures Flatten(batches) == RowsOf(old(View()).live)
      ensures live == |old(View()).live| && next == old(nextSeqno)
      ensures forall b :: b in batches ==> b != []
    {
      batches := Batches();
      live := LiveRows();
      next := nextSeqno;
      chunks, tombstones, rows := [], {}, 0;
    }
  }

  method Concat(batches: seq<seq<Row>>) returns (merged: seq<Row>)
    ensures merged == Flatten(batches)
  {
    merged := [];
    for i := 0 to |batches|
      invariant merged == Flatten(batches[..i])
    {
      assert batches[..i + 1][..i] == batches[..i];
      merged := merged + batches[i];
    }
    assert batches[..|batches|] == batches;
  }

  lemma {:induction false} FlattenNonempty(batches: seq<seq<Row>>)
    requires batches != [] && forall b :: b in batches ==> b != []
    ensures Flatten(batches) != []
  {
    assert batches[|batches| - 1] in batches;
  }

  lemma NothingDeleted(base: nat, rows: seq<Row>, dead: set<nat>)
    requires |DeadIn(dead, base, |rows|)| == 0
    ensures RowsOf(Without(Number(base, rows), dead)) == rows
  {
    var inside := DeadIn(dead, base, |rows|);
    assert inside == {};
    forall i | 0 <= i < |rows|
      ensures Number(base, rows)[i].0 !in dead
    {
      assert base + i !in inside;
    }
    WithoutNone(Number(base, rows), dead);
  }

  /** One deletion removes one live row, or none when the number names no live row. */
  lemma DeleteOne(chunks: seq<Chunk>, dead: set<nat>, s: nat)
    ensures Without(LiveOf(chunks, dead), {s})
         == LiveOf(chunks, if HeldBy(chunks, s) && s !in dead then dead + {s} else dead)
  {
    if HeldBy(chunks, s) && s !in dead {
      LiveOfDies(chunks, dead, {s});
    } else {
      var live := LiveOf(chunks, dead);
      forall i | 0 <= i < |live|
        ensures live[i].0 !in {s}
      {
        LiveAreHeld(chunks, dead, live[i]);
      }
      WithoutNone(live, {s});
    }
  }

  /** Live rows keep strictly increasing sequence numbers, all below the next one. */
  lemma {:induction false} LiveIncrease(chunks: seq<Chunk>, dead: set<nat>, next: nat)
    requires Ordered(chunks, next)
    ensures forall i, j :: 0 <= i < j < |LiveOf(chunks, dead)| ==>
              LiveOf(chunks, dead)[i].0 < LiveOf(chunks, dead)[j].0
    ensures forall x: Numbered :: x in LiveOf(chunks, dead) ==> x.0 < next
  {
    if chunks != [] {
      var c, rest := chunks[|chunks| - 1], chunks[..|chunks| - 1];
      LiveIncrease(rest, dead, c.base);
      WithoutIncreases(Number(c.base, c.rows), dead);
      WithoutKeeps(Number(c.base, c.rows), dead);
      var a: seq<Numbered> := LiveOf(rest, dead);
      var b: seq<Numbered> := Without(Number(c.base, c.rows), dead);
      var all: seq<Numbered> := a + b;
      forall i, j | 0 <= i < j < |all|
        ensures all[i].0 < all[j].0
      {
        if i < |a| <= j {
          assert a[i] in a && b[j - |a|] in b;
        }
      }
    }
  }

  lemma {:induction false} WithoutIncreases(s: seq<Numbered>, dead: set<nat>)
    requires forall i, j :: 0 <= i < j < |s| ==> s[i].0 < s[j].0
    ensures forall i, j :: 0 <= i < j < |Without(s, dead)| ==> Without(s, dead)[i].0 < Without(s, dead)[j].0
  {
    if s != [] {
      WithoutIncreases(s[..|s| - 1], dead);
      WithoutKeeps(s[..|s| - 1], dead);
      forall x | x in Without(s[..|s| - 1], dead)
        ensures x.0 < s[|s| - 1].0
      {
        var k :| 0 <= k < |s| - 1 && s[k] == x;
      }
    }
  }
}
