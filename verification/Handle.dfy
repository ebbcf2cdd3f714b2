/**
 * One handle on its bytes: the table file with its slots and manifests, the two log
 * files, and the writer in memory, moving together; and the power failing at any point.
 */
module Handles {
  import opened Layout
  import opened Wal
  import opened Bytes
  import opened Registers
  import opened WalFiles
  import Store
  import StoreProof
  import Durability
  import DurabilityProof
  import DurabilityRuns

  // ---- The log files -----------------------------------------------------------------

  /** A log file: the generation in its header, and the bytes behind it. */
  datatype Body = Body(generation: nat, bytes: seq<byte>)

  datatype Files = Files(a: Body, b: Body) {
    function Newest(): (i: nat)
      ensures i <= 1
    {
      if b.generation > a.generation then 1 else 0
    }

    function File(i: nat): Body
      requires i <= 1
    {
      if i == 0 then a else b
    }

    function With(i: nat, body: Body): Files
      requires i <= 1
    {
      if i == 0 then Files(body, b) else Files(a, body)
    }

    /** More bytes at the end of the newest log. */
    function Extended(bytes: seq<byte>): Files {
      With(Newest(), Body(File(Newest()).generation, File(Newest()).bytes + bytes))
    }

    function Rotated(): Files {
      With(1 - Newest(), Body(File(Newest()).generation + 1, []))
    }

    function Truncated(i: nat): Files
      requires i <= 1
    {
      With(i, Body(File(i).generation, []))
    }

    /** What recovery reads of both. */
    ghost function Read(log: WalFiles.Log<Record>): Logs
      requires log.Sound()
    {
      Logs(Wal.Log(a.generation, log.Records(a.bytes)), Wal.Log(b.generation, log.Records(b.bytes)))
    }

    /** ... and what it leaves of them. */
    ghost function Cut(log: WalFiles.Log<Record>): Files
      requires log.Sound()
    {
      Files(Body(a.generation, a.bytes[..log.GoodBytes(a.bytes)]), Body(b.generation, b.bytes[..log.GoodBytes(b.bytes)]))
    }
  }

  /** Two logs as bytes. */
  function Written(log: WalFiles.Log<Record>, logs: Logs): Files {
    Files(Body(logs.a.generation, log.Join(logs.a.records)), Body(logs.b.generation, log.Join(logs.b.records)))
  }

  ghost predicate Readable(log: WalFiles.Log<Record>, logs: Logs) {
    log.ReadsAll(logs.a.records) && log.ReadsAll(logs.b.records)
  }

  lemma {:induction false} WholeOfMore(log: WalFiles.Log<Record>, a: seq<Record>, b: seq<Record>, k: nat)
    ensures log.Whole(a + b, |log.Join(a)| + k) == |a| + log.Whole(b, k)
  {
    if a == [] {
      assert a + b == b;
    } else {
      WholeOfMore(log, a[1..], b, k);
      assert (a + b)[1..] == a[1..] + b && (a + b)[0] == a[0];
    }
  }

  lemma ReadsBoth(log: WalFiles.Log<Record>, a: seq<Record>, b: seq<Record>)
    requires log.ReadsAll(a) && log.ReadsAll(b)
    ensures log.ReadsAll(a + b)
  {
  }

  lemma SplitAt<T>(a: seq<T>, b: seq<T>, k: nat)
    requires k <= |b|
    ensures (a + b)[..|a| + k] == a + b[..k]
  {
  }

  /** A log with some bytes of a group behind it: the records that got there whole, and their bytes. */
  lemma TornReads(log: WalFiles.Log<Record>, a: seq<Record>, b: seq<Record>, k: nat)
    requires log.Sound() && log.ReadsAll(a + b) && k <= |log.Join(b)|
    ensures var bytes := log.Join(a) + log.Join(b)[..k];
            && log.Records(bytes) == a + b[..log.Whole(b, k)]
            && bytes[..log.GoodBytes(bytes)] == log.Join(a + b[..log.Whole(b, k)])
  {
    TornShape(log, a, b, k);
    CutReads(log, a + b, |log.Join(a)| + k, log.Join(a) + log.Join(b)[..k], a + b[..log.Whole(b, k)]);
  }

  lemma TornShape(log: WalFiles.Log<Record>, a: seq<Record>, b: seq<Record>, k: nat)
    requires k <= |log.Join(b)|
    ensures |log.Join(a)| + k <= |log.Join(a + b)|
    ensures log.Join(a + b)[..|log.Join(a)| + k] == log.Join(a) + log.Join(b)[..k]
    ensures (a + b)[..log.Whole(a + b, |log.Join(a)| + k)] == a + b[..log.Whole(b, k)]
  {
    log.JoinConcat(a, b);
    SplitAt(log.Join(a), log.Join(b), k);
    WholeOfMore(log, a, b, k);
    SplitAt(a, b, log.Whole(b, k));
  }

  lemma CutReads(log: WalFiles.Log<Record>, records: seq<Record>, k: nat, bytes: seq<byte>, kept: seq<Record>)
    requires log.Sound() && log.ReadsAll(records) && k <= |log.Join(records)|
    requires bytes == log.Join(records)[..k] && kept == records[..log.Whole(records, k)]
    ensures log.Records(bytes) == kept && bytes[..log.GoodBytes(bytes)] == log.Join(kept)
  {
    log.CutRecovers(records, k);
    log.CutKeepsWholeRecords(records, k);
  }

  lemma WholeReads(log: WalFiles.Log<Record>, records: seq<Record>)
    requires log.Sound() && log.ReadsAll(records)
    ensures var bytes := log.Join(records); log.Records(bytes) == records && bytes[..log.GoodBytes(bytes)] == bytes
  {
    assert records + [] == records;
    TornReads(log, records, [], 0);
    assert log.Join(records) + log.Join([])[..0] == log.Join(records);
    assert records + [][..0] == records;
  }

  /** The files after the power failed with `k` bytes of a group appended. */
  lemma TornFiles(log: WalFiles.Log<Record>, logs: Logs, records: seq<Record>, k: nat)
    requires log.Sound() && Readable(log, logs) && log.ReadsAll(records) && k <= |log.Join(records)|
    ensures var torn, left := Written(log, logs).Extended(log.Join(records)[..k]), logs.Appended(records[..log.Whole(records, k)]);
            torn.Read(log) == left && torn.Cut(log) == Written(log, left) && Readable(log, left)
  {
    WholeReads(log, logs.Inactive().records);
    ReadsBoth(log, logs.Active().records, records);
    TornReads(log, logs.Active().records, records, k);
    ReadsMore(log, logs.Active().records, records, log.Whole(records, k));
  }

  lemma ReadsMore(log: WalFiles.Log<Record>, a: seq<Record>, b: seq<Record>, n: nat)
    requires log.ReadsAll(a) && log.ReadsAll(b) && n <= |b|
    ensures log.ReadsAll(a + b[..n])
  {
  }

  // ---- The handle --------------------------------------------------------------------

  /** The commit in hand: the writer's step that it is, and the state that step leads to. */
  datatype Goal = Goal(step: Durability.Step, to: Durability.State)

  datatype Handle = Handle(file: Store.State, wal: Files, writer: Durability.State, goal: Option<Goal>)

  datatype Move =
    /** A group of records goes to the log and to memory. */
    | Append(records: seq<Record>)
    | Rotate
    /** A step of the file that commits nothing: building, syncing the manifest, writing the meta page, a reader letting go. */
    | OnFile(step: Store.Step)
    /** The manifest is appended, for a build that shows what the commit in hand calls for. */
    | Seal(room: Store.Room, goal: Goal)
    /** The meta page is on the medium. */
    | Land
    | Truncate
    /** The power fails, `bytes` bytes into an append of `records`, and the handle is opened again on what is left. */
    | PowerLoss(img: seq<Cell>, records: seq<Record>, bytes: nat)

  predicate Commits(step: Durability.Step) {
    step.CommitFlush? || step.Compact? || step.Discard?
  }

  predicate Quiet(file: Store.State) {
    file.phase.Idle? || file.phase.Building?
  }

  predicate Silent(step: Store.Step) {
    Builds(step) || step.Begin? || step.SyncManifest? || step.WriteMeta? || step.Drop?
  }

  /** What opening makes of the bytes: the commit it finds, and the logs replayed over it. */
  ghost function Reopened(c: Codec, log: WalFiles.Log<Record>, img: seq<Cell>, files: Files): Durability.State
    requires log.Sound() && Store.ReadCommitted(img).Some?
  {
    var t := TableAt(c, img, Store.ReadCommitted(img).value.manifest);
    Durability.State(t, files.Read(log), Durability.Recover(t, files.Read(log)), Durability.Idle)
  }

  ghost predicate Moves(c: Codec, log: WalFiles.Log<Record>, h: Handle, m: Move, k: Handle)
    requires log.Sound()
  {
    match m
    case Append(records) =>
      && Quiet(h.file) && log.ReadsAll(records)
      && Durability.Takes(h.writer, Durability.Write(records), k.writer)
      && k == h.(wal := h.wal.Extended(log.Join(records)), writer := k.writer)
    case Rotate =>
      && Quiet(h.file)
      && Durability.Takes(h.writer, Durability.Rotate, k.writer)
      && k == h.(wal := h.wal.Rotated(), writer := k.writer)
    case OnFile(step) =>
      Silent(step) && Store.Takes(h.file, step, k.file) && k == h.(file := k.file)
    case Seal(room, goal) =>
      && Store.Takes(h.file, Store.AppendManifest(room), k.file)
      && Commits(goal.step) && Durability.Takes(h.writer, goal.step, goal.to)
      && TableAt(c, h.file.disk.image, h.file.phase.work) == goal.to.table
      && k == h.(file := k.file, goal := Some(goal))
    case Land =>
      && h.goal.Some? && Store.Takes(h.file, Store.SyncMeta, k.file)
      && k == Handle(k.file, h.wal, h.goal.value.to, None)
    case Truncate =>
      && Quiet(h.file)
      && Durability.Takes(h.writer, Durability.TruncateRetired, k.writer)
      && k == h.(wal := h.wal.Truncated(h.writer.phase.retired), writer := k.writer)
    case PowerLoss(img, records, bytes) =>
      && log.ReadsAll(records) && bytes <= |log.Join(records)|
      && (records != [] ==> Quiet(h.file) && h.writer.phase.Idle? && Durability.PlannedAll(h.writer.table, h.writer.live, records))
      && Store.Takes(h.file, Store.CrashAndReopen(img), k.file)
      && var torn := h.wal.Extended(log.Join(records)[..bytes]);
         k == Handle(k.file, torn.Cut(log), Reopened(c, log, img, torn), None)
  }

  /** The meta page of the commit in hand got to the medium before the power failed. */
  predicate Landed(h: Handle, img: seq<Cell>) {
    NotCurrent(h.file, img)
  }

  /** The file's own conditions, and the one on crashes inside a flush. */
  ghost predicate Safe(h: Handle, m: Move) {
    match m
    case OnFile(step) => Store.StepSafe(h.file, step)
    case PowerLoss(img, _, _) => Landed(h, img) || DurabilityRuns.CrashSafe(h.writer, Durability.Crash)
    case _ => true
  }

  /** What a move is to the writer. */
  function StepsOf(log: WalFiles.Log<Record>, h: Handle, m: Move): seq<Durability.Step> {
    match m
    case Append(records) => [Durability.Write(records)]
    case Rotate => [Durability.Rotate]
    case OnFile(_) => []
    case Seal(_, _) => []
    case Land => if h.goal.Some? then [h.goal.value.step] else []
    case Truncate => [Durability.TruncateRetired]
    case PowerLoss(img, records, bytes) =>
      if Landed(h, img) && h.goal.Some? then [h.goal.value.step, Durability.Crash]
      else if records == [] then [Durability.Crash]
      else [Durability.CrashWriting(records, log.Whole(records, bytes))]
  }

  /** Bytes and memory agree, and a manifest on its way to the medium shows the table its commit calls for. */
  ghost predicate Linked(c: Codec, log: WalFiles.Log<Record>, h: Handle) {
    && Store.Inv(h.file) && Durability.Inv(h.writer)
    && h.wal == Written(log, h.writer.logs) && Readable(log, h.writer.logs)
    && Shown(c, h.file.cur) == h.writer.table
    && (!Quiet(h.file) ==> Pending(c, h))
  }

  ghost predicate Pending(c: Codec, h: Handle)
    requires !Quiet(h.file)
  {
    && h.goal.Some? && Commits(h.goal.value.step)
    && Durability.Takes(h.writer, h.goal.value.step, h.goal.value.to)
    && Shown(c, h.file.phase.next) == h.goal.value.to.table
  }

  /** The writer's steps lead from `s` to `u`, none of them a crash that loses records. */
  ghost predicate Reaches(s: Durability.State, steps: seq<Durability.Step>, u: Durability.State)
    decreases |steps|
  {
    if steps == [] then u == s
    else exists v :: Durability.Takes(s, steps[0], v) && DurabilityRuns.CrashSafe(s, steps[0]) && Reaches(v, steps[1..], u)
  }

  lemma OneStep(s: Durability.State, step: Durability.Step, u: Durability.State)
    requires Durability.Takes(s, step, u) && DurabilityRuns.CrashSafe(s, step)
    ensures Reaches(s, [step], u)
  {
    assert [step][1..] == [];
    assert Reaches(u, [], u);
  }

  lemma TwoSteps(s: Durability.State, first: Durability.Step, v: Durability.State, second: Durability.Step, u: Durability.State)
    requires Durability.Takes(s, first, v) && DurabilityRuns.CrashSafe(s, first)
    requires Durability.Takes(v, second, u) && DurabilityRuns.CrashSafe(v, second)
    ensures Reaches(s, [first, second], u)
  {
    OneStep(v, second, u);
    assert [first, second][1..] == [second];
  }

  // ---- What the file's part of a move does ----------------------------------------------

  lemma FileMoves(c: Codec, s: Store.State, step: Store.Step, t: Store.State)
    requires Store.Inv(s) && Store.Takes(s, step, t) && Store.StepSafe(s, step) && Silent(step)
    ensures Store.Inv(t) && Shown(c, t.cur) == Shown(c, s.cur)
    ensures !Quiet(t) ==> !Quiet(s) && t.phase.next == s.phase.next
  {
    StoreProof.StepKeeps(s, step, t);
  }

  lemma FileSeals(c: Codec, s: Store.State, room: Store.Room, t: Store.State)
    requires Store.Inv(s) && Store.Takes(s, Store.AppendManifest(room), t)
    ensures Store.Inv(t) && t.cur == s.cur && !Quiet(t)
    ensures Shown(c, t.phase.next) == TableAt(c, s.disk.image, s.phase.work)
  {
    StoreProof.StepKeeps(s, Store.AppendManifest(room), t);
    AppendShows(c, s, Store.AppendManifest(room), t);
  }

  lemma FileLands(c: Codec, s: Store.State, t: Store.State)
    requires Store.Inv(s) && Store.Takes(s, Store.SyncMeta, t)
    ensures Store.Inv(t) && Quiet(t) && !Quiet(s) && t.cur == s.phase.next
  {
    StoreProof.StepKeeps(s, Store.SyncMeta, t);
  }

  predicate NotCurrent(s: Store.State, img: seq<Cell>) {
    Store.ReadCommitted(img).Some? && Store.ReadCommitted(img).value.meta != s.cur.meta
  }

  lemma FileReopens(c: Codec, s: Store.State, img: seq<Cell>, t: Store.State)
    requires Store.Inv(s) && Store.Takes(s, Store.CrashAndReopen(img), t)
    ensures Store.Inv(t) && Quiet(t)
    ensures Shown(c, t.cur) == TableAt(c, img, Store.ReadCommitted(img).value.manifest)
    ensures !NotCurrent(s, img) ==> Shown(c, t.cur) == Shown(c, s.cur)
    ensures NotCurrent(s, img) ==> !Quiet(s) && Shown(c, t.cur) == Shown(c, s.phase.next)
  {
    StoreProof.CrashKeeps(s, Store.CrashAndReopen(img), t);
    HoldsShows(c, img, t.cur);
    CrashShows(c, s, img);
  }

  // ---- Every move ----------------------------------------------------------------------

  lemma AppendLinks(c: Codec, log: WalFiles.Log<Record>, h: Handle, m: Move, k: Handle)
    requires log.Sound() && Linked(c, log, h) && m.Append? && Moves(c, log, h, m, k)
    ensures Linked(c, log, k) && Reaches(h.writer, StepsOf(log, h, m), k.writer)
  {
    DurabilityProof.StepKeeps(h.writer, Durability.Write(m.records), k.writer);
    log.JoinConcat(h.writer.logs.Active().records, m.records);
    ReadsMore(log, h.writer.logs.Active().records, m.records, |m.records|);
    assert m.records[..|m.records|] == m.records;
    OneStep(h.writer, Durability.Write(m.records), k.writer);
  }

  lemma RotateLinks(c: Codec, log: WalFiles.Log<Record>, h: Handle, m: Move, k: Handle)
    requires log.Sound() && Linked(c, log, h) && m.Rotate? && Moves(c, log, h, m, k)
    ensures Linked(c, log, k) && Reaches(h.writer, StepsOf(log, h, m), k.writer)
  {
    DurabilityProof.StepKeeps(h.writer, Durability.Rotate, k.writer);
    OneStep(h.writer, Durability.Rotate, k.writer);
  }

  lemma TruncateLinks(c: Codec, log: WalFiles.Log<Record>, h: Handle, m: Move, k: Handle)
    requires log.Sound() && Linked(c, log, h) && m.Truncate? && Moves(c, log, h, m, k)
    ensures Linked(c, log, k) && Reaches(h.writer, StepsOf(log, h, m), k.writer)
  {
    DurabilityProof.StepKeeps(h.writer, Durability.TruncateRetired, k.writer);
    OneStep(h.writer, Durability.TruncateRetired, k.writer);
  }

  lemma OnFileLinks(c: Codec, log: WalFiles.Log<Record>, h: Handle, m: Move, k: Handle)
    requires log.Sound() && Linked(c, log, h) && m.OnFile? && Moves(c, log, h, m, k) && Safe(h, m)
    ensures Linked(c, log, k) && Reaches(h.writer, StepsOf(log, h, m), k.writer)
  {
    FileMoves(c, h.file, m.step, k.file);
  }

  lemma SealLinks(c: Codec, log: WalFiles.Log<Record>, h: Handle, m: Move, k: Handle)
    requires log.Sound() && Linked(c, log, h) && m.Seal? && Moves(c, log, h, m, k)
    ensures Linked(c, log, k) && Reaches(h.writer, StepsOf(log, h, m), k.writer)
  {
    FileSeals(c, h.file, m.room, k.file);
  }

  lemma LandLinks(c: Codec, log: WalFiles.Log<Record>, h: Handle, m: Move, k: Handle)
    requires log.Sound() && Linked(c, log, h) && m.Land? && Moves(c, log, h, m, k)
    ensures Linked(c, log, k) && Reaches(h.writer, StepsOf(log, h, m), k.writer)
  {
    FileLands(c, h.file, k.file);
    DurabilityProof.StepKeeps(h.writer, h.goal.value.step, k.writer);
    OneStep(h.writer, h.goal.value.step, k.writer);
  }

  /** A commit leaves the logs alone, and what follows it is not inside a flush. */
  lemma AfterCommit(s: Durability.State, step: Durability.Step, u: Durability.State)
    requires Durability.Takes(s, step, u) && Commits(step)
    ensures u.logs == s.logs && !u.phase.Rotated?
  {
  }

  /** The state a reopen finds: the table the crash image shows, and the logs with what got there whole. */
  lemma ReopenedIs(c: Codec, log: WalFiles.Log<Record>, img: seq<Cell>, logs: Logs, records: seq<Record>, bytes: nat)
    requires log.Sound() && Store.ReadCommitted(img).Some? && Readable(log, logs) && log.ReadsAll(records)
    requires bytes <= |log.Join(records)|
    ensures var t := TableAt(c, img, Store.ReadCommitted(img).value.manifest);
            var torn, left := Written(log, logs).Extended(log.Join(records)[..bytes]), logs.Appended(records[..log.Whole(records, bytes)]);
            && torn.Cut(log) == Written(log, left) && Readable(log, left)
            && Reopened(c, log, img, torn) == Durability.State(t, left, Durability.Recover(t, left), Durability.Idle)
            && (records == [] ==> left == logs)
  {
    TornFiles(log, logs, records, bytes);
    if records == [] {
      NothingAppended(logs, records, log.Whole(records, bytes));
    }
  }

  /** The writer after a power loss: the table that was current on the medium, and the records that were whole. */
  function Left(log: WalFiles.Log<Record>, h: Handle, m: Move): Durability.State
    requires m.PowerLoss?
  {
    var t := if Landed(h, m.img) && h.goal.Some? then h.goal.value.to.table else h.writer.table;
    var logs := if m.records == [] then h.writer.logs else h.writer.logs.Appended(m.records[..log.Whole(m.records, m.bytes)]);
    Durability.State(t, logs, Durability.Recover(t, logs), Durability.Idle)
  }

  lemma PowerLossFinds(c: Codec, log: WalFiles.Log<Record>, h: Handle, m: Move, k: Handle)
    requires log.Sound() && Linked(c, log, h) && m.PowerLoss? && Moves(c, log, h, m, k)
    ensures Shown(c, k.file.cur) == k.writer.table
    ensures k.wal == Written(log, k.writer.logs) && Readable(log, k.writer.logs)
  {
    FileReopens(c, h.file, m.img, k.file);
    ReopenedIs(c, log, m.img, h.writer.logs, m.records, m.bytes);
  }

  lemma PowerLossLeaves(c: Codec, log: WalFiles.Log<Record>, h: Handle, m: Move, k: Handle)
    requires log.Sound() && Linked(c, log, h) && m.PowerLoss? && Moves(c, log, h, m, k)
    ensures Landed(h, m.img) ==> m.records == [] && !Quiet(h.file) && Pending(c, h)
    ensures k.writer == Left(log, h, m)
  {
    FileReopens(c, h.file, m.img, k.file);
    ReopenedIs(c, log, m.img, h.writer.logs, m.records, m.bytes);
  }

  /**
   * What the bytes reopen to is where the writer's own crash leads: over the commit
   * before, or over the one in hand when its meta page had got there.
   */
  lemma PowerLossReopens(c: Codec, log: WalFiles.Log<Record>, h: Handle, m: Move, k: Handle)
    requires log.Sound() && Linked(c, log, h) && m.PowerLoss? && Moves(c, log, h, m, k) && Safe(h, m)
    ensures Reaches(h.writer, StepsOf(log, h, m), k.writer)
  {
    PowerLossLeaves(c, log, h, m, k);
    LossLeads(log, h, m);
  }

  lemma LossLeads(log: WalFiles.Log<Record>, h: Handle, m: Move)
    requires m.PowerLoss? && Safe(h, m)
    requires m.records != [] ==>
               !Landed(h, m.img) && h.writer.phase.Idle? && Durability.PlannedAll(h.writer.table, h.writer.live, m.records)
    requires Landed(h, m.img) ==>
               && h.goal.Some? && Commits(h.goal.value.step)
               && Durability.Takes(h.writer, h.goal.value.step, h.goal.value.to)
    ensures Reaches(h.writer, StepsOf(log, h, m), Left(log, h, m))
  {
    var u := Left(log, h, m);
    if m.records != [] {
      OneStep(h.writer, Durability.CrashWriting(m.records, log.Whole(m.records, m.bytes)), u);
    } else if Landed(h, m.img) {
      AfterCommit(h.writer, h.goal.value.step, h.goal.value.to);
      TwoSteps(h.writer, h.goal.value.step, h.goal.value.to, Durability.Crash, u);
    } else {
      OneStep(h.writer, Durability.Crash, u);
    }
  }

  lemma NothingAppended(logs: Logs, records: seq<Record>, n: nat)
    requires records == [] && n <= |records|
    ensures logs.Appended(records[..n]) == logs
  {
    assert logs.Active().records + records[..n] == logs.Active().records;
  }

  lemma {:induction false} ReachedInv(s: Durability.State, steps: seq<Durability.Step>, u: Durability.State)
    requires Durability.Inv(s) && Reaches(s, steps, u)
    ensures Durability.Inv(u)
    decreases |steps|
  {
    if steps != [] {
      var v :| Durability.Takes(s, steps[0], v) && DurabilityRuns.CrashSafe(s, steps[0]) && Reaches(v, steps[1..], u);
      DurabilityProof.StepKeeps(s, steps[0], v);
      ReachedInv(v, steps[1..], u);
    }
  }

  lemma PowerLossLinks(c: Codec, log: WalFiles.Log<Record>, h: Handle, m: Move, k: Handle)
    requires log.Sound() && Linked(c, log, h) && m.PowerLoss? && Moves(c, log, h, m, k) && Safe(h, m)
    ensures Linked(c, log, k) && Reaches(h.writer, StepsOf(log, h, m), k.writer)
  {
    PowerLossReopens(c, log, h, m, k);
    PowerLossFinds(c, log, h, m, k);
    FileReopens(c, h.file, m.img, k.file);
    ReachedInv(h.writer, StepsOf(log, h, m), k.writer);
  }

  /** Every move keeps bytes and memory in agreement, and is the writer's own steps. */
  lemma MoveLinks(c: Codec, log: WalFiles.Log<Record>, h: Handle, m: Move, k: Handle)
    requires log.Sound() && Linked(c, log, h) && Moves(c, log, h, m, k) && Safe(h, m)
    ensures Linked(c, log, k) && Reaches(h.writer, StepsOf(log, h, m), k.writer)
  {
    match m
    case Append(_) => AppendLinks(c, log, h, m, k);
    case Rotate => RotateLinks(c, log, h, m, k);
    case OnFile(_) => OnFileLinks(c, log, h, m, k);
    case Seal(_, _) => SealLinks(c, log, h, m, k);
    case Land => LandLinks(c, log, h, m, k);
    case Truncate => TruncateLinks(c, log, h, m, k);
    case PowerLoss(_, _, _) => PowerLossLinks(c, log, h, m, k);
  }
}
