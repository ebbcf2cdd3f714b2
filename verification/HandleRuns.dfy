/** What one handle promises over whole runs, on the bytes of its three files. */
module HandleRuns {
  import opened Layout
  import opened Sequences
  import opened Memtables
  import opened Wal
  import opened Registers
  import opened Handles
  import WalFiles
  import Store
  import StoreProof
  import StoreRuns
  import Durability
  import DurabilityProof
  import DurabilityRuns

  // ---- Runs of a handle ----------------------------------------------------------------

  /** A handle as `create` leaves it. */
  ghost predicate IsCreated(h: Handle) {
    && StoreRuns.Fresh(h.file)
    && h.wal == Files(Body(0, []), Body(0, []))
    && h.writer == DurabilityRuns.Created()
    && h.goal == None
  }

  ghost predicate HandleRun(c: Codec, log: WalFiles.Log<Record>, hs: seq<Handle>, moves: seq<Move>) {
    && log.Sound()
    && |hs| == |moves| + 1
    && IsCreated(hs[0])
    && forall i :: 0 <= i < |moves| ==> Moves(c, log, hs[i], moves[i], hs[i + 1])
  }

  ghost predicate SafeUpTo(hs: seq<Handle>, moves: seq<Move>, n: nat)
    requires n <= |moves| <= |hs|
  {
    forall k :: 0 <= k < n ==> Safe(hs[k], moves[k])
  }

  /** The writer's steps in the first `n` moves. */
  function Trace(log: WalFiles.Log<Record>, hs: seq<Handle>, moves: seq<Move>, n: nat): seq<Durability.Step>
    requires n <= |moves| <= |hs|
  {
    if n == 0 then [] else Trace(log, hs, moves, n - 1) + StepsOf(log, hs[n - 1], moves[n - 1])
  }

  lemma CreatedShows(c: Codec, file: Store.State)
    requires StoreRuns.Fresh(file)
    ensures Shown(c, file.cur) == DurabilityRuns.Created().table && file.phase.Idle?
  {
    var header: seq<Cell>, blob: seq<Cell>, p0: Store.Room, p1: Store.Room :|
      |header| == HEADER_SIZE && file == StoreRuns.Created(header, blob, p0, p1);
    StoreRuns.SeededShape(header, blob, p0, p1);
  }

  lemma CreatedLinked(c: Codec, log: WalFiles.Log<Record>, h: Handle)
    requires log.Sound() && IsCreated(h)
    ensures Linked(c, log, h)
  {
    StoreRuns.FreshInv(h.file);
    DurabilityRuns.CreatedInv();
    CreatedShows(c, h.file);
  }

  /** A run of the writer so far, every crash in it one that keeps the records. */
  ghost predicate GoodRun(states: seq<Durability.State>, steps: seq<Durability.Step>, last: Durability.State) {
    && DurabilityRuns.Run(states, steps)
    && states[|steps|] == last
    && forall k :: 0 <= k < |steps| ==> DurabilityRuns.CrashSafe(states[k], steps[k])
  }

  lemma OneMore(states: seq<Durability.State>, steps: seq<Durability.Step>, s: Durability.State, step: Durability.Step, u: Durability.State)
    requires GoodRun(states, steps, s) && Durability.Takes(s, step, u) && DurabilityRuns.CrashSafe(s, step)
    ensures GoodRun(states + [u], steps + [step], u)
  {
    var ss, es := states + [u], steps + [step];
    forall k | 0 <= k < |es|
      ensures Durability.Takes(ss[k], es[k], ss[k + 1]) && DurabilityRuns.CrashSafe(ss[k], es[k])
    {
      StillTakes(states, steps, step, u, k);
    }
  }

  lemma StillTakes(states: seq<Durability.State>, steps: seq<Durability.Step>, step: Durability.Step, u: Durability.State, k: nat)
    requires DurabilityRuns.Run(states, steps) && k <= |steps|
    requires forall i :: 0 <= i < |steps| ==> DurabilityRuns.CrashSafe(states[i], steps[i])
    requires Durability.Takes(states[|steps|], step, u) && DurabilityRuns.CrashSafe(states[|steps|], step)
    ensures var ss, es := states + [u], steps + [step];
            Durability.Takes(ss[k], es[k], ss[k + 1]) && DurabilityRuns.CrashSafe(ss[k], es[k])
  {
    if k < |steps| {
      DurabilityRuns.RunTakes(states, steps, k);
    }
  }

  lemma {:induction false} Lengthened(states: seq<Durability.State>, steps: seq<Durability.Step>, s: Durability.State,
                                      more: seq<Durability.Step>, u: Durability.State)
    returns (longer: seq<Durability.State>)
    requires GoodRun(states, steps, s) && Reaches(s, more, u)
    ensures GoodRun(longer, steps + more, u)
    decreases |more|
  {
    if more == [] {
      longer := states;
      assert steps + more == steps;
    } else {
      var v :| Durability.Takes(s, more[0], v) && DurabilityRuns.CrashSafe(s, more[0]) && Reaches(v, more[1..], u);
      OneMore(states, steps, s, more[0], v);
      longer := Lengthened(states + [v], steps + [more[0]], v, more[1..], u);
      assert (steps + [more[0]]) + more[1..] == steps + more;
    }
  }

  /** Bytes and memory agree throughout. */
  lemma {:induction false} LinkedThroughout(c: Codec, log: WalFiles.Log<Record>, hs: seq<Handle>, moves: seq<Move>, i: nat)
    requires HandleRun(c, log, hs, moves) && i <= |moves| && SafeUpTo(hs, moves, i)
    ensures Linked(c, log, hs[i])
  {
    if i == 0 {
      CreatedLinked(c, log, hs[0]);
    } else {
      LinkedThroughout(c, log, hs, moves, i - 1);
      NextMove(c, log, hs, moves, i - 1);
      MoveLinks(c, log, hs[i - 1], moves[i - 1], hs[i]);
    }
  }

  lemma MoveReaches(c: Codec, log: WalFiles.Log<Record>, hs: seq<Handle>, moves: seq<Move>, i: nat)
    requires HandleRun(c, log, hs, moves) && i < |moves| && SafeUpTo(hs, moves, i + 1)
    ensures Reaches(hs[i].writer, StepsOf(log, hs[i], moves[i]), hs[i + 1].writer)
  {
    LinkedThroughout(c, log, hs, moves, i);
    NextMove(c, log, hs, moves, i);
    MoveLinks(c, log, hs[i], moves[i], hs[i + 1]);
  }

  /** The handle refines the writer's own protocol: on its bytes, and through every power loss. */
  lemma {:induction false} HandleRefines(c: Codec, log: WalFiles.Log<Record>, hs: seq<Handle>, moves: seq<Move>, i: nat)
    returns (states: seq<Durability.State>)
    requires HandleRun(c, log, hs, moves) && i <= |moves| && SafeUpTo(hs, moves, i)
    ensures GoodRun(states, Trace(log, hs, moves, i), hs[i].writer)
  {
    if i == 0 {
      states := [hs[0].writer];
    } else {
      var before := HandleRefines(c, log, hs, moves, i - 1);
      MoveReaches(c, log, hs, moves, i - 1);
      states := Lengthened(before, Trace(log, hs, moves, i - 1), hs[i - 1].writer, StepsOf(log, hs[i - 1], moves[i - 1]), hs[i].writer);
    }
  }

  lemma NextMove(c: Codec, log: WalFiles.Log<Record>, hs: seq<Handle>, moves: seq<Move>, i: nat)
    requires HandleRun(c, log, hs, moves) && i < |moves|
    ensures Moves(c, log, hs[i], moves[i], hs[i + 1])
  {
  }

  /** At every moment the handle shows exactly the rows acknowledged. */
  lemma HandleShowsTheAcknowledged(c: Codec, log: WalFiles.Log<Record>, hs: seq<Handle>, moves: seq<Move>, i: nat)
    requires HandleRun(c, log, hs, moves) && i <= |moves| && SafeUpTo(hs, moves, i)
    ensures hs[i].writer.Rows() == DurabilityRuns.Acknowledged(Trace(log, hs, moves, i), |Trace(log, hs, moves, i)|)
  {
    var states := HandleRefines(c, log, hs, moves, i);
    var steps := Trace(log, hs, moves, i);
    DurabilityRuns.RowsAreTheAcknowledged(states, steps, |steps|);
  }

  /** The power may fail now, `bytes` bytes into an append of `records`, leaving `img` of the table file. */
  ghost predicate MayFail(log: WalFiles.Log<Record>, h: Handle, img: seq<Cell>, records: seq<Record>, bytes: nat) {
    && h.file.disk.Survives(img) && log.ReadsAll(records) && bytes <= |log.Join(records)|
    && (records != [] ==> Quiet(h.file) && h.writer.phase.Idle? && Durability.PlannedAll(h.writer.table, h.writer.live, records))
  }

  /** What is found when a handle is opened on what is left. */
  ghost function Found(c: Codec, log: WalFiles.Log<Record>, h: Handle, img: seq<Cell>, records: seq<Record>, bytes: nat): Durability.State
    requires log.Sound() && bytes <= |log.Join(records)| && Store.ReadCommitted(img).Some?
  {
    Reopened(c, log, img, h.wal.Extended(log.Join(records)[..bytes]))
  }

  lemma ReopenIsAStep(s: Store.State, img: seq<Cell>) returns (t: Store.State)
    requires Store.Inv(s) && s.disk.Survives(img)
    ensures Store.ReadCommitted(img).Some? && Store.Takes(s, Store.CrashAndReopen(img), t)
  {
    StoreProof.RecoversAcknowledgedOrInFlight(s, img);
    t := Store.Reopen(s, img, Store.ReadCommitted(img).value);
  }

  lemma LossIsAMove(c: Codec, log: WalFiles.Log<Record>, h: Handle, img: seq<Cell>, records: seq<Record>, bytes: nat)
    returns (k: Handle)
    requires log.Sound() && Store.Inv(h.file) && MayFail(log, h, img, records, bytes)
    ensures Store.ReadCommitted(img).Some? && Moves(c, log, h, PowerLoss(img, records, bytes), k)
    ensures k.writer == Found(c, log, h, img, records, bytes)
  {
    var t := ReopenIsAStep(h.file, img);
    var torn := h.wal.Extended(log.Join(records)[..bytes]);
    k := Handle(t, torn.Cut(log), Reopened(c, log, img, torn), None);
  }

  /** Where a power loss leads the writer. */
  lemma LossReaches(c: Codec, log: WalFiles.Log<Record>, h: Handle, img: seq<Cell>, records: seq<Record>, bytes: nat)
    requires log.Sound() && Linked(c, log, h) && MayFail(log, h, img, records, bytes) && Safe(h, PowerLoss(img, records, bytes))
    ensures Store.ReadCommitted(img).Some?
    ensures Reaches(h.writer, StepsOf(log, h, PowerLoss(img, records, bytes)), Found(c, log, h, img, records, bytes))
  {
    var k := LossIsAMove(c, log, h, img, records, bytes);
    PowerLossReopens(c, log, h, PowerLoss(img, records, bytes), k);
  }

  /**
   * Durability on the bytes. Whatever moment of whatever operation the power fails
   * at, whichever of the unsynced bytes of the table file are left, and wherever the
   * log is cut, opening the files finds a commit, and the rows it shows are exactly
   * those acknowledged, plus what the records whole in the log bring.
   */
  lemma BytesShowTheAcknowledged(c: Codec, log: WalFiles.Log<Record>, hs: seq<Handle>, moves: seq<Move>, i: nat,
                                 img: seq<Cell>, records: seq<Record>, bytes: nat)
    requires HandleRun(c, log, hs, moves) && i <= |moves| && SafeUpTo(hs, moves, i)
    requires MayFail(log, hs[i], img, records, bytes) && Safe(hs[i], PowerLoss(img, records, bytes))
    ensures Store.ReadCommitted(img).Some?
    ensures var steps := Trace(log, hs, moves, i) + StepsOf(log, hs[i], PowerLoss(img, records, bytes));
            Found(c, log, hs[i], img, records, bytes).Rows() == DurabilityRuns.Acknowledged(steps, |steps|)
  {
    var m := PowerLoss(img, records, bytes);
    var states := HandleRefines(c, log, hs, moves, i);
    LinkedThroughout(c, log, hs, moves, i);
    LossReaches(c, log, hs[i], img, records, bytes);
    var found := Found(c, log, hs[i], img, records, bytes);
    var longer := Lengthened(states, Trace(log, hs, moves, i), hs[i].writer, StepsOf(log, hs[i], m), found);
    var steps := Trace(log, hs, moves, i) + StepsOf(log, hs[i], m);
    DurabilityRuns.RowsAreTheAcknowledged(longer, steps, |steps|);
  }

  /** With nothing being appended and no drop in hand, exactly those acknowledged. */
  lemma PowerLossKeepsTheRows(c: Codec, log: WalFiles.Log<Record>, hs: seq<Handle>, moves: seq<Move>, i: nat, img: seq<Cell>)
    requires HandleRun(c, log, hs, moves) && i <= |moves| && SafeUpTo(hs, moves, i)
    requires hs[i].file.disk.Survives(img) && Safe(hs[i], PowerLoss(img, [], 0))
    requires hs[i].goal.Some? ==> !hs[i].goal.value.step.Discard?
    ensures Store.ReadCommitted(img).Some?
    ensures Found(c, log, hs[i], img, [], 0).Rows()
         == DurabilityRuns.Acknowledged(Trace(log, hs, moves, i), |Trace(log, hs, moves, i)|)
  {
    HandleShowsTheAcknowledged(c, log, hs, moves, i);
    LinkedThroughout(c, log, hs, moves, i);
    LossKeepsRows(c, log, hs[i], img);
  }

  lemma LossKeepsRows(c: Codec, log: WalFiles.Log<Record>, h: Handle, img: seq<Cell>)
    requires log.Sound() && Linked(c, log, h) && h.file.disk.Survives(img) && Safe(h, PowerLoss(img, [], 0))
    requires h.goal.Some? ==> !h.goal.value.step.Discard?
    ensures Store.ReadCommitted(img).Some? && Found(c, log, h, img, [], 0).Rows() == h.writer.Rows()
  {
    LossReaches(c, log, h, img, [], 0);
    LossSteps(c, log, h, img);
    SameRowsAfter(h.writer, StepsOf(log, h, PowerLoss(img, [], 0)), Found(c, log, h, img, [], 0));
  }


  lemma LossSteps(c: Codec, log: WalFiles.Log<Record>, h: Handle, img: seq<Cell>)
    requires log.Sound() && Linked(c, log, h) && h.file.disk.Survives(img)
    requires h.goal.Some? ==> !h.goal.value.step.Discard?
    ensures forall step :: step in StepsOf(log, h, PowerLoss(img, [], 0)) ==> step.CommitFlush? || step.Compact? || step.Crash?
  {
    LandedIsBusy(c, h.file, img);
  }

  lemma LandedIsBusy(c: Codec, file: Store.State, img: seq<Cell>)
    requires Store.Inv(file) && file.disk.Survives(img)
    ensures NotCurrent(file, img) ==> !Quiet(file)
  {
    CrashShows(c, file, img);
  }

  /** Commits that drop nothing, and crashes, change no row. */
  lemma {:induction false} SameRowsAfter(s: Durability.State, steps: seq<Durability.Step>, u: Durability.State)
    requires Durability.Inv(s) && Reaches(s, steps, u)
    requires forall step :: step in steps ==> step.CommitFlush? || step.Compact? || step.Crash?
    ensures u.Rows() == s.Rows()
    decreases |steps|
  {
    if steps != [] {
      var v :| Durability.Takes(s, steps[0], v) && DurabilityRuns.CrashSafe(s, steps[0]) && Reaches(v, steps[1..], u);
      DurabilityRuns.StepRows(s, steps[0], v);
      DurabilityProof.StepKeeps(s, steps[0], v);
      SameRowsAfter(v, steps[1..], u);
    }
  }

  // ---- A commit's build shows what the commit calls for ---------------------------------------

  function BuiltAll(c: Codec, t: Durability.Table, steps: seq<Store.Step>): Durability.Table {
    if steps == [] then t else Built(c, BuiltAll(c, t, steps[..|steps| - 1]), steps[|steps| - 1])
  }

  lemma {:induction false} BuiltConcat(c: Codec, t: Durability.Table, a: seq<Store.Step>, b: seq<Store.Step>)
    ensures BuiltAll(c, t, a + b) == BuiltAll(c, BuiltAll(c, t, a), b)
  {
    if b == [] {
      assert a + b == a;
    } else {
      BuiltConcat(c, t, a, b[..|b| - 1]);
      assert (a + b)[..|a + b| - 1] == a + b[..|b| - 1];
    }
  }

  /** A build: begun over the committed table, then steps that meet their conditions. */
  ghost predicate BuildRun(states: seq<Store.State>, steps: seq<Store.Step>) {
    && StoreRuns.Follows(states, steps) && steps != [] && Store.Inv(states[0]) && steps[0].Begin?
    && (forall k :: 0 < k < |steps| ==> Builds(steps[k]))
    && (forall k :: 0 <= k < |steps| ==> Store.StepSafe(states[k], steps[k]))
  }

  /** What a build shows is what its steps make of the committed table. */
  lemma {:induction false} BuildRunShows(c: Codec, states: seq<Store.State>, steps: seq<Store.Step>, n: nat)
    requires BuildRun(states, steps) && 0 < n <= |steps|
    ensures Store.Inv(states[n]) && states[n].phase.Building?
    ensures TableAt(c, states[n].disk.image, states[n].phase.work)
         == BuiltAll(c, Shown(c, states[0].cur).(checkpoint := steps[0].checkpointLsn, nextSeqno := steps[0].nextSeqno), steps[1..n])
  {
    var s, step, t := states[n - 1], steps[n - 1], states[n];
    BuildStep(states, steps, n - 1);
    if n == 1 {
      StoreProof.StepKeeps(s, step, t);
      BeginShows(c, s, step, t);
    } else {
      BuildRunShows(c, states, steps, n - 1);
      StoreProof.StepKeeps(s, step, t);
      BuildShows(c, s, step, t);
      assert steps[1..n][..n - 2] == steps[1..n - 1];
    }
  }

  lemma BuildStep(states: seq<Store.State>, steps: seq<Store.Step>, k: nat)
    requires BuildRun(states, steps) && k < |steps|
    ensures Store.Takes(states[k], steps[k], states[k + 1]) && Store.StepSafe(states[k], steps[k])
  {
  }

  /** Segments stored for row groups, in order. */
  ghost predicate Adds(c: Codec, steps: seq<Store.Step>, groups: seq<seq<Row>>) {
    |steps| == |groups| && forall k :: 0 <= k < |steps| ==> steps[k].AddSegment? && c.rows(steps[k].bytes) == groups[k]
  }

  lemma {:induction false} AddsBuild(c: Codec, t: Durability.Table, steps: seq<Store.Step>, groups: seq<seq<Row>>)
    requires Adds(c, steps, groups)
    ensures BuiltAll(c, t, steps) == t.(nextId := t.nextId + |groups|, segments := t.segments + Durability.NewSegments(t.nextId, groups))
  {
    if groups == [] {
      assert t.segments + [] == t.segments;
    } else {
      var n := |groups| - 1;
      AddsBuild(c, t, steps[..n], groups[..n]);
      assert steps[n].AddSegment? && c.rows(steps[n].bytes) == groups[n];
      Associates(t.segments, Durability.NewSegments(t.nextId, groups[..n]), [Durability.Segment(t.nextId + n, groups[n], None)]);
    }
  }

  /** Delete vectors stored for the entries of `ids`. */
  ghost predicate Sets(c: Codec, t: Durability.Table, steps: seq<Store.Step>, ids: seq<nat>, deletes: map<nat, set<nat>>) {
    && |steps| == |ids|
    && forall k :: 0 <= k < |steps| ==>
         && steps[k].SetDeletes? && steps[k].index < |t.segments| && t.segments[steps[k].index].id == ids[k]
         && ids[k] in deletes && c.dead(steps[k].bytes) == deletes[ids[k]]
  }

  lemma {:induction false} SetsBuild(c: Codec, t: Durability.Table, steps: seq<Store.Step>, ids: seq<nat>, deletes: map<nat, set<nat>>)
    requires Sets(c, t, steps, ids, deletes)
    requires forall a, b :: 0 <= a < b < |t.segments| ==> t.segments[a].id != t.segments[b].id
    ensures BuiltAll(c, t, steps) == t.(segments := Durability.Stamp(t.segments, SetOf(ids), deletes))
  {
    if ids == [] {
      DurabilityProof.StampAt(t.segments, SetOf(ids), deletes);
      assert Durability.Stamp(t.segments, SetOf(ids), deletes) == t.segments;
    } else {
      var n := |ids| - 1;
      SetsBuild(c, t, steps[..n], ids[..n], deletes);
      assert forall x :: x in SetOf(ids) <==> x in SetOf(ids[..n]) || x == ids[n];
      StampOne(t.segments, SetOf(ids[..n]), SetOf(ids), deletes, steps[n].index);
    }
  }

  lemma StampOne(segments: seq<Durability.Segment>, some: set<nat>, more: set<nat>, deletes: map<nat, set<nat>>, i: nat)
    requires i < |segments| && segments[i].id in deletes
    requires forall a, b :: 0 <= a < b < |segments| ==> segments[a].id != segments[b].id
    requires forall x :: x in more <==> x in some || x == segments[i].id
    ensures |Durability.Stamp(segments, some, deletes)| == |segments|
    ensures var before := Durability.Stamp(segments, some, deletes);
            before[i := before[i].(deletes := Some(deletes[segments[i].id]))] == Durability.Stamp(segments, more, deletes)
  {
    DurabilityProof.StampAt(segments, some, deletes);
    DurabilityProof.StampAt(segments, more, deletes);
  }

  /** Stamping a table's own entries leaves new ones alone. */
  lemma StampOld(t: Durability.Table, added: seq<Durability.Segment>, dirty: set<nat>, deletes: map<nat, set<nat>>)
    requires forall i :: 0 <= i < |added| ==> added[i].id !in dirty
    ensures Durability.Stamp(t.segments + added, dirty, deletes) == Durability.Stamp(t.segments, dirty, deletes) + added
  {
    DurabilityProof.StampAt(t.segments + added, dirty, deletes);
    DurabilityProof.StampAt(t.segments, dirty, deletes);
  }

  /** A flush stores a segment for each row group, and then every dirty vector: that shows the table it commits. */
  lemma FlushBuilds(c: Codec, states: seq<Store.State>, begin: Store.Step, adds: seq<Store.Step>, sets: seq<Store.Step>,
                    w: Durability.State, groups: seq<seq<Row>>, ids: seq<nat>)
    requires BuildRun(states, [begin] + adds + sets) && Shown(c, states[0].cur) == w.table
    requires w.table.Ok() && w.phase.Rotated? && Durability.DeletesOk(w.table, w.Whole()) && SetOf(ids) == w.phase.dirty
    requires begin.checkpointLsn + 1 == w.live.nextLsn && begin.nextSeqno == Most(w.phase.frozen.next, w.table.nextSeqno)
    requires Adds(c, adds, groups) && Sets(c, w.table, sets, ids, w.live.deletes)
    ensures var last := states[|states| - 1];
            && last.phase.Building?
            && TableAt(c, last.disk.image, last.phase.work)
               == Durability.Flushed(w.table, w.phase.frozen, w.phase.dirty, w.live.deletes, w.live.nextLsn, groups)
  {
    var t := w.table.(checkpoint := begin.checkpointLsn, nextSeqno := begin.nextSeqno);
    Parts(begin, adds, sets);
    BuildEnds(c, states, [begin] + adds + sets, adds, sets);
    AddsBuild(c, t, adds, groups);
    FlushStamps(c, w.table, w.Whole(), t, groups, sets, ids);
  }

  lemma Parts(begin: Store.Step, first: seq<Store.Step>, rest: seq<Store.Step>)
    ensures var steps := [begin] + first + rest; steps[0] == begin && steps[1..|steps|] == first + rest
  {
  }

  lemma BuildEnds(c: Codec, states: seq<Store.State>, steps: seq<Store.Step>, first: seq<Store.Step>, rest: seq<Store.Step>)
    requires BuildRun(states, steps) && steps[1..|steps|] == first + rest
    ensures |states| == |steps| + 1
    ensures var last := states[|steps|];
            var t := Shown(c, states[0].cur).(checkpoint := steps[0].checkpointLsn, nextSeqno := steps[0].nextSeqno);
            && last.phase.Building?
            && TableAt(c, last.disk.image, last.phase.work) == BuiltAll(c, BuiltAll(c, t, first), rest)
  {
    BuildRunShows(c, states, steps, |steps|);
    BuiltConcat(c, Shown(c, states[0].cur).(checkpoint := steps[0].checkpointLsn, nextSeqno := steps[0].nextSeqno), first, rest);
  }

  lemma FlushStamps(c: Codec, before: Durability.Table, l: Durability.Live, t: Durability.Table, groups: seq<seq<Row>>,
                    sets: seq<Store.Step>, ids: seq<nat>)
    requires before.Ok() && Durability.DeletesOk(before, l) && SetOf(ids) == l.dirty
    requires t.segments == before.segments && t.nextId == before.nextId && Sets(c, before, sets, ids, l.deletes)
    ensures var added := Durability.NewSegments(t.nextId, groups);
            var grown := t.(nextId := t.nextId + |groups|, segments := t.segments + added);
            BuiltAll(c, grown, sets) == grown.(segments := Durability.Stamp(before.segments, l.dirty, l.deletes) + added)
  {
    var added := Durability.NewSegments(t.nextId, groups);
    var grown := t.(nextId := t.nextId + |groups|, segments := t.segments + added);
    DurabilityProof.NewSegmentsAt(t.nextId, groups);
    forall id | id in l.dirty
      ensures id < t.nextId
    {
      DurabilityProof.KeysBelow(before, l, id);
    }
    SetsBuild(c, grown, sets, ids, l.deletes);
    StampOld(before, added, l.dirty, l.deletes);
  }

  /** A compaction stores its row groups and retires what it read: that shows the table it commits. */
  lemma CompactBuilds(c: Codec, states: seq<Store.State>, begin: Store.Step, adds: seq<Store.Step>, retire: Store.Step,
                      t: Durability.Table, groups: seq<seq<Row>>)
    requires BuildRun(states, [begin] + adds + [retire]) && Shown(c, states[0].cur) == t
    requires begin.checkpointLsn == t.checkpoint && begin.nextSeqno == t.nextSeqno
    requires Adds(c, adds, groups) && retire.Retire?
    ensures var last := states[|states| - 1];
            && last.phase.Building?
            && TableAt(c, last.disk.image, last.phase.work) == Durability.Compacted(t, Store.IdsOf(retire.sources), groups)
  {
    Parts(begin, adds, [retire]);
    BuildEnds(c, states, [begin] + adds + [retire], adds, [retire]);
    assert t.(checkpoint := begin.checkpointLsn, nextSeqno := begin.nextSeqno) == t;
    AddsBuild(c, t, adds, groups);
    OneBuilt(c, BuiltAll(c, t, adds), retire);
  }

  lemma OneBuilt(c: Codec, t: Durability.Table, step: Store.Step)
    ensures BuiltAll(c, t, [step]) == Built(c, t, step)
  {
    assert [step][..0] == [];
  }
}
