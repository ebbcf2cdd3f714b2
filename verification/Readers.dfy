/** The handle readers and the writer share: the snapshot in force, its registry, and the file. */
module Readers {
  import opened Layout
  import opened Store
  import opened Snapshots
  import opened TableFiles

  /** Answers in the order they were given never go down. */
  ghost predicate Ascending(answers: seq<nat>) {
    forall i, j :: 0 <= i <= j < |answers| ==> answers[i] <= answers[j]
  }

  /** No reader is left at a commit older than an answer already given. */
  ghost predicate Behind(answers: seq<nat>, pins: set<Store.Commit>) {
    forall c, a :: c in pins && a in answers ==> a <= c.meta.txnId
  }

  /** The commits that some snapshot with a reference reads. */
  ghost function Referenced(strong: map<nat, nat>, commits: map<nat, Store.Commit>): set<Store.Commit> {
    set id | id in commits && id in strong && strong[id] > 0 :: commits[id]
  }

  ghost predicate Registered(held: set<Weak>, strong: map<nat, nat>, commits: map<nat, Store.Commit>) {
    && (forall w :: w in held ==> w.id in commits && w.id in strong && strong[w.id] > 0 && w.txnId == commits[w.id].meta.txnId)
    && forall id :: id in commits && id in strong && strong[id] > 0 ==> Weak(id, commits[id].meta.txnId) in held
  }

  /** Every reference is the handle's own, to the current snapshot, or one of a reader's. */
  ghost predicate Counted(strong: map<nat, nat>, commits: map<nat, Store.Commit>, clones: multiset<nat>, current: Weak,
                          nextId: nat)
  {
    && strong.Keys == commits.Keys
    && current.id in commits && current.txnId == commits[current.id].meta.txnId
    && (forall id :: id in clones ==> id in commits)
    && (forall id :: id in commits ==> id < nextId)
    && forall id :: id in commits ==> strong[id] == clones[id] + (if id == current.id then 1 else 0)
  }

  /** A registry that follows the referenced snapshots tracks the commits they read. */
  lemma RegisteredTracks(held: set<Weak>, strong: map<nat, nat>, commits: map<nat, Store.Commit>)
    requires Registered(held, strong, commits)
    ensures Tracks(held, Referenced(strong, commits))
  {
    var pins := Referenced(strong, commits);
    forall t | t in HeldTxns(held)
      ensures t in PinnedTxns(pins)
    {
      var w :| w in held && w.txnId == t;
      assert commits[w.id] in pins;
    }
    forall t | t in PinnedTxns(pins)
      ensures t in HeldTxns(held)
    {
      var c :| c in pins && c.meta.txnId == t;
      var id :| id in commits && id in strong && strong[id] > 0 && commits[id] == c;
      assert Weak(id, t) in held;
    }
  }

  /** The least pinned txn is an answer that keeps the answers in order. */
  lemma OneMoreAnswer(answers: seq<nat>, pins: set<Store.Commit>, min: nat)
    requires Ascending(answers) && Behind(answers, pins) && MinActiveOf(pins, min)
    ensures Ascending(answers + [min]) && Behind(answers + [min], pins)
  {
    var c :| c in pins && min == c.meta.txnId;
    assert forall i :: 0 <= i < |answers| ==> answers[i] in answers;
  }

  /** One reference fewer: at most the commit it was to loses its pin. */
  lemma ReleasedReferences(strong: map<nat, nat>, rest: map<nat, nat>, commits: map<nat, Store.Commit>, id: nat)
    requires id in strong && id in commits && strong[id] > 0 && rest == strong[id := strong[id] - 1]
    ensures Referenced(strong, commits) == Referenced(rest, commits) + {commits[id]}
  {
    forall c | c in Referenced(strong, commits)
      ensures c in Referenced(rest, commits) + {commits[id]}
    {
      var k :| k in commits && k in strong && strong[k] > 0 && commits[k] == c;
      assert k == id || (k in rest && rest[k] > 0);
    }
    assert commits[id] in Referenced(strong, commits);
    forall c | c in Referenced(rest, commits)
      ensures c in Referenced(strong, commits)
    {
      var k :| k in commits && k in rest && rest[k] > 0 && commits[k] == c;
      assert strong[k] > 0;
    }
  }

  lemma ReleasedRegistered(held: set<Weak>, strong: map<nat, nat>, rest: map<nat, nat>, commits: map<nat, Store.Commit>,
                           id: nat)
    requires id in strong && id in commits && strong[id] > 0 && rest == strong[id := strong[id] - 1]
    requires Registered(held, strong, commits)
    ensures Registered((set x | x in held && (x.id != id || strong[id] > 1)), rest, commits)
  {
  }

  /** A new snapshot takes over as current, and the reference to the one before it is one more to let go. */
  lemma PublishedCounted(strong: map<nat, nat>, commits: map<nat, Store.Commit>, clones: multiset<nat>, current: Weak,
                         id: nat, c: Store.Commit)
    requires Counted(strong, commits, clones, current, id)
    ensures Counted(strong[id := 1], commits[id := c], clones + multiset{current.id}, Weak(id, c.meta.txnId), id + 1)
  {
  }

  lemma PublishedRegistered(held: set<Weak>, strong: map<nat, nat>, commits: map<nat, Store.Commit>, id: nat, c: Store.Commit)
    requires Registered(held, strong, commits) && strong.Keys == commits.Keys && id !in strong
    ensures Registered(held + {Weak(id, c.meta.txnId)}, strong[id := 1], commits[id := c])
    ensures Referenced(strong[id := 1], commits[id := c]) == Referenced(strong, commits) + {c}
  {
    var strong2, commits2 := strong[id := 1], commits[id := c];
    assert commits2[id] in Referenced(strong2, commits2);
    forall x | x in Referenced(strong, commits)
      ensures x in Referenced(strong2, commits2)
    {
      var k :| k in commits && k in strong && strong[k] > 0 && commits[k] == x;
      assert k in commits2 && strong2[k] > 0 && commits2[k] == x;
    }
  }

  lemma ReleasedCounted(strong: map<nat, nat>, commits: map<nat, Store.Commit>, clones: multiset<nat>, current: Weak,
                        nextId: nat, id: nat)
    requires Counted(strong, commits, clones, current, nextId) && id in clones
    ensures strong[id] > 0
    ensures Counted(strong[id := strong[id] - 1], commits, clones - multiset{id}, current, nextId)
  {
  }

  class Table {
    const file: TableFile
    const registry: SnapshotRegistry
    /** The newest published snapshot, which the handle itself references. */
    var current: Weak
    var nextId: nat
    /** The references readers hold, one per clone. */
    ghost var clones: multiset<nat>
    /** The commit each snapshot ever published reads. */
    ghost var commits: map<nat, Store.Commit>
    /** What the registry answered so far. */
    ghost var answers: seq<nat>

    ghost predicate Valid()
      reads this, registry, file, file.io
    {
      file.Valid() && Tied(file.store.pins, file.store.cur)
    }

    /** What ties the references, the registry and the pinned commits together. */
    ghost predicate Tied(pins: set<Store.Commit>, cur: Store.Commit)
      reads this, registry
    {
      && Counted(registry.strong, commits, clones, current, nextId)
      && Registered(registry.Held(), registry.strong, commits)
      && pins == Referenced(registry.strong, commits)
      && commits[current.id] == cur
      && Ascending(answers)
      && Behind(answers, pins)
    }

    /** Wrap a file just created or opened, and publish its commit. */
    constructor (file: TableFile)
      requires file.Valid() && file.store.pins == {file.store.cur}
      ensures Valid() && this.file == file && fresh(registry)
      ensures clones == multiset{} && answers == []
    {
      this.file := file;
      var r := new SnapshotRegistry();
      registry := r;
      current, nextId := Weak(0, file.meta.txnId), 1;
      clones, commits, answers := multiset{}, map[0 := file.store.cur], [];
      new;
      registry.Publish(0, file.meta.txnId);
      assert registry.strong == map[0 := 1];
      assert Referenced(registry.strong, commits) == {file.store.cur} by {
        assert commits[0] in Referenced(registry.strong, commits);
      }
    }

    /** A reader loads the published snapshot and keeps a reference of its own. */
    method Snapshot() returns (w: Weak)
      requires Valid()
      modifies registry`strong, this`clones
      ensures Valid() && w == current && clones == old(clones) + multiset{w.id}
      ensures w.id in commits && commits[w.id] == file.store.cur
    {
      w := CloneCurrent(file.store.pins, file.store.cur);
    }

    method CloneCurrent(ghost pins: set<Store.Commit>, ghost cur: Store.Commit) returns (w: Weak)
      requires Tied(pins, cur)
      modifies registry`strong, this`clones
      ensures Tied(pins, cur) && w == current && clones == old(clones) + multiset{w.id}
    {
      w := current;
      ghost var strong := registry.strong;
      registry.Clone(w);
      clones := clones + multiset{w.id};
      assert Referenced(registry.strong, commits) == Referenced(strong, commits);
    }

    /** Whatever was called since, a reader finds the bytes its snapshot's commit was sealed with. */
    lemma ReaderFindsItsBytes(id: nat, p: nat)
      requires Valid() && id in clones && commits[id].Protects(p)
      ensures p < |file.io.image| && p < |commits[id].sealed| && file.io.image[p] == commits[id].sealed[p]
    {
      assert registry.strong[id] > 0;
      assert commits[id] in Referenced(registry.strong, commits);
      assert Holds(file.store.disk.image, commits[id]);
    }

    /**
     * The least txn referenced, which the handle's own reference keeps from
     * passing the newest commit. No answer is ever below an earlier one: `Valid`
     * keeps them in order, whatever is called in between.
     */
    method MinActive() returns (min: nat)
      requires Valid()
      modifies registry`live, this`answers
      ensures Valid() && answers == old(answers) + [min]
      ensures MinActiveOf(file.store.pins, min) && min <= file.store.cur.meta.txnId
    {
      min := AskRegistry(file.store.pins, file.store.cur);
    }

    method AskRegistry(ghost pins: set<Store.Commit>, ghost cur: Store.Commit) returns (min: nat)
      requires Tied(pins, cur)
      modifies registry`live, this`answers
      ensures Tied(pins, cur) && answers == old(answers) + [min]
      ensures MinActiveOf(pins, min) && min <= cur.meta.txnId
    {
      min := registry.MinActiveTxn();
      RegisteredTracks(registry.Held(), registry.strong, commits);
      assert registry.strong[current.id] > 0;
      RegistryGivesMinActive(registry.Held(), pins, min, cur);
      OneMoreAnswer(answers, pins, min);
      answers := answers + [min];
    }

    /** Start a build behind the horizon the registry gives. */
    method Begin(checkpointLsn: nat, nextSeqno: nat) returns (work: Manifest, min: nat)
      requires Valid() && (file.store.phase.Idle? || file.store.phase.Building?)
      modifies registry`live, this`answers, file`store
      ensures Valid() && file.store.phase == Building(work, min, [], [])
      ensures Takes(old(file.store), Step.Begin(min, checkpointLsn, nextSeqno), file.store)
    {
      min := MinActive();
      work := file.Begin(min, checkpointLsn, nextSeqno);
    }

    /** A reader lets go of a reference it holds; the commit is unpinned when that was the last one to it. */
    method Drop(w: Weak)
      requires Valid() && w.id in clones && w.txnId == commits[w.id].meta.txnId
      modifies registry`strong, this`clones, file`store
      ensures Valid() && clones == old(clones) - multiset{w.id}
      ensures file.store == old(file.store) || Takes(old(file.store), Step.Drop(commits[w.id]), file.store)
    {
      ghost var c := commits[w.id];
      Unclone(w, file.store.pins, file.store.cur);
      Unpin(c);
    }

    /** A commit without a reference left loses its pin; the newest one always has the handle's. */
    ghost method Unpin(c: Store.Commit)
      requires file.Valid() && file.store.pins == Referenced(registry.strong, commits) + {c}
      requires Tied(Referenced(registry.strong, commits), file.store.cur)
      modifies file`store
      ensures Valid()
      ensures file.store == old(file.store) || Takes(old(file.store), Step.Drop(c), file.store)
    {
      assert commits[current.id] in Referenced(registry.strong, commits);
      if c !in Referenced(registry.strong, commits) {
        file.Unpin(c);
      }
    }

    method Unclone(w: Weak, ghost pins: set<Store.Commit>, ghost cur: Store.Commit)
      requires Tied(pins, cur) && w.id in clones && w.txnId == commits[w.id].meta.txnId
      modifies registry`strong, this`clones
      ensures clones == old(clones) - multiset{w.id}
      ensures pins == Referenced(registry.strong, commits) + {commits[w.id]}
      ensures Tied(Referenced(registry.strong, commits), cur)
    {
      ghost var strong, held := registry.strong, registry.Held();
      ReleasedCounted(strong, commits, clones, current, nextId, w.id);
      registry.Release(w);
      clones := clones - multiset{w.id};
      ReleasedReferences(strong, registry.strong, commits, w.id);
      ReleasedRegistered(held, strong, registry.strong, commits, w.id);
    }

    /** Publish the writer's state under the commit it stands on. */
    method Publish()
      requires Valid()
      modifies registry, this`current, this`nextId, this`clones, this`commits
      ensures Valid() && clones == old(clones) && current.id == old(nextId)
    {
      ghost var pins, cur := file.store.pins, file.store.cur;
      assert cur in pins;
      Replace(file.meta.txnId, pins, cur);
      assert commits[current.id] in Referenced(registry.strong, commits);
      assert pins == Referenced(registry.strong, commits);
    }

    /** Make a snapshot of `cur` the current one and let go of the one before. */
    method Replace(txnId: nat, ghost pins: set<Store.Commit>, ghost cur: Store.Commit)
      requires Counted(registry.strong, commits, clones, current, nextId) && txnId == cur.meta.txnId
      requires Registered(registry.Held(), registry.strong, commits)
      requires pins == Referenced(registry.strong, commits) + {cur} && Ascending(answers) && Behind(answers, pins)
      modifies registry, this`current, this`nextId, this`clones, this`commits
      ensures clones == old(clones) && current.id == old(nextId)
      ensures Tied(Referenced(registry.strong, commits), cur)
      ensures pins == Referenced(registry.strong, commits) + {old(commits[current.id])}
    {
      var before := current;
      TakeOver(txnId, pins, cur);
      Unclone(before, pins, cur);
    }

    /** The new snapshot takes over; the handle's reference to the one before counts as a reader's for the moment. */
    method TakeOver(txnId: nat, ghost pins: set<Store.Commit>, ghost cur: Store.Commit)
      requires Counted(registry.strong, commits, clones, current, nextId) && txnId == cur.meta.txnId
      requires Registered(registry.Held(), registry.strong, commits)
      requires pins == Referenced(registry.strong, commits) + {cur} && Ascending(answers) && Behind(answers, pins)
      modifies registry, this`current, this`nextId, this`clones, this`commits
      ensures Tied(pins, cur) && clones == old(clones) + multiset{old(current).id}
      ensures current.id == old(nextId) && commits == old(commits)[old(nextId) := cur]
    {
      PublishedCounted(registry.strong, commits, clones, current, nextId, cur);
      PublishedRegistered(registry.Held(), registry.strong, commits, nextId, cur);
      registry.Publish(nextId, txnId);
      clones, commits := clones + multiset{current.id}, commits[nextId := cur];
      current := Weak(nextId, txnId);
      nextId := nextId + 1;
    }

    /**
     * Commit and publish. The new commit's snapshot becomes current, and the
     * commit before loses its pin iff no reader still holds a snapshot of it.
     */
    method Commit(work: Manifest) returns (ok: bool, ghost room: Room)
      requires Valid() && file.store.phase.Building? && file.store.phase.work == work
      modifies registry, this`current, this`nextId, this`clones, this`commits, file, file.io
      ensures Valid() && clones == old(clones)
      ensures !ok ==> file.store == old(file.store)
      ensures ok ==>
        var t := CommitStates(old(file.store), room).3;
        file.store == t || Takes(t, Step.Drop(old(file.store.cur)), file.store)
    {
      ghost var s := file.store;
      ok, room := file.Commit(work);
      if ok {
        CommitPublishes(s, room);
        Replace(file.meta.txnId, file.store.pins, file.store.cur);
        Unpin(s.cur);
      }
    }
  }
}
