/** Reference counts of snapshots, and the registry that watches them. */
module Snapshots {
  import Store

  const U64_MAX: nat := 0xFFFF_FFFF_FFFF_FFFF

  /** A weak reference to a published snapshot, and the commit the snapshot reads. */
  datatype Weak = Weak(id: nat, txnId: nat)

  /** The least txn among the held snapshots, or the maximum when none is held. */
  ghost predicate LeastTxn(held: set<Weak>, min: nat) {
    && (held == {} ==> min == U64_MAX)
    && (forall w :: w in held ==> min <= w.txnId)
    && (held != {} ==> exists w :: w in held && min == w.txnId)
  }

  class SnapshotRegistry {
    /** Strong counts of the snapshots; readers change these, the registry only looks. */
    var strong: map<nat, nat>
    var live: seq<Weak>

    predicate Alive(w: Weak)
      reads this
    {
      w.id in strong && strong[w.id] > 0
    }

    ghost function Held(): set<Weak>
      reads this
    {
      set w | w in live && Alive(w)
    }

    constructor ()
      ensures live == [] && strong == map[] && Held() == {}
    {
      live, strong := [], map[];
    }

    /** Drop the entries whose snapshot is gone. */
    method Retain()
      modifies this`live
      ensures Held() == old(Held())
      ensures forall w :: w in live ==> Alive(w)
    {
      var kept: seq<Weak> := [];
      for i := 0 to |live|
        invariant live == old(live) && strong == old(strong)
        invariant forall w :: w in kept <==> w in live[..i] && Alive(w)
      {
        if Alive(live[i]) {
          kept := kept + [live[i]];
        }
      }
      assert live[..|live|] == live;
      live := kept;
    }

    /** One more entry, for a snapshot with the one reference its publisher has. */
    method Publish(id: nat, txnId: nat)
      requires id !in strong
      modifies this
      ensures strong == old(strong)[id := 1]
      ensures Held() == old(Held()) + {Weak(id, txnId)}
    {
      Retain();
      live := live + [Weak(id, txnId)];
      strong := strong[id := 1];
    }

    /** One more reference to a snapshot that has one. */
    method Clone(w: Weak)
      requires Alive(w)
      modifies this`strong
      ensures Held() == old(Held()) && strong == old(strong)[w.id := old(strong)[w.id] + 1]
    {
      strong := strong[w.id := strong[w.id] + 1];
    }

    /** A reference goes away; the last one releases the snapshot. */
    method Release(w: Weak)
      requires Alive(w)
      modifies this`strong
      ensures strong == old(strong)[w.id := old(strong)[w.id] - 1]
      ensures Held() == set x | x in old(Held()) && (x.id != w.id || old(strong)[w.id] > 1)
    {
      strong := strong[w.id := strong[w.id] - 1];
    }

    /** The least txn in `Held`. */
    method MinActiveTxn() returns (min: nat)
      modifies this`live
      ensures Held() == old(Held()) && LeastTxn(Held(), min)
    {
      Retain();
      min := U64_MAX;
      for i := 0 to |live|
        invariant forall w :: w in live[..i] ==> min <= w.txnId
        invariant i == 0 ==> min == U64_MAX
        invariant i > 0 ==> exists w :: w in live[..i] && min == w.txnId
      {
        if i == 0 || live[i].txnId < min {
          min := live[i].txnId;
        }
        assert live[i] in live[..i + 1];
      }
      assert live[..|live|] == live;
      assert forall w :: w in live ==> w in Held();
    }
  }

  ghost function HeldTxns(held: set<Weak>): set<nat> {
    set w | w in held :: w.txnId
  }

  ghost function PinnedTxns(pins: set<Store.Commit>): set<nat> {
    set c | c in pins :: c.meta.txnId
  }

  /** The commits the held snapshots read are exactly the pinned ones. */
  ghost predicate Tracks(held: set<Weak>, pins: set<Store.Commit>) {
    HeldTxns(held) == PinnedTxns(pins)
  }

  /** What the registry answers is the horizon the allocator needs. */
  lemma RegistryGivesMinActive(held: set<Weak>, pins: set<Store.Commit>, min: nat, cur: Store.Commit)
    requires Tracks(held, pins) && LeastTxn(held, min) && cur in pins
    ensures Store.MinActiveOf(pins, min) && min <= cur.meta.txnId
  {
    assert cur.meta.txnId in PinnedTxns(pins);
    forall c | c in pins
      ensures min <= c.meta.txnId
    {
      assert c.meta.txnId in PinnedTxns(pins);
    }
    assert min in HeldTxns(held);
  }
}
