/** The two logs of a table, and the order their records are replayed in. */
module Wal {
  import opened Memtables

  /** Deletions of one segment, as the whole new delete vector. */
  datatype SegmentDeletes = SegmentDeletes(segmentId: nat, rows: set<nat>)

  /** What one log entry says: rows added, rows deleted, or both. */
  datatype Record =
    | Insert(lsn: nat, base: nat, rows: seq<Row>)
    | Delete(lsn: nat, segments: seq<SegmentDeletes>, memtable: seq<nat>)
    | Update(lsn: nat, segments: seq<SegmentDeletes>, memtable: seq<nat>, base: nat, rows: seq<Row>)

  datatype Log = Log(generation: nat, records: seq<Record>)

  /** Both log files; index 0 and 1. */
  datatype Logs = Logs(a: Log, b: Log) {
    /** Which of the two takes appends: the higher generation, the first on a tie. */
    function Newest(): (i: nat)
      ensures i <= 1
    {
      if b.generation > a.generation then 1 else 0
    }

    function File(i: nat): Log
      requires i <= 1
    {
      if i == 0 then a else b
    }

    function With(i: nat, log: Log): Logs
      requires i <= 1
    {
      if i == 0 then Logs(log, b) else Logs(a, log)
    }

    function Active(): Log { File(Newest()) }

    function Inactive(): Log { File(1 - Newest()) }

    /** More records at the end of the active log. */
    function Appended(records: seq<Record>): Logs {
      With(Newest(), Log(Active().generation, Active().records + records))
    }

    /** The other log becomes the active one: empty, and one generation newer. */
    function Rotated(): Logs {
      With(1 - Newest(), Log(Active().generation + 1, []))
    }

    function Truncated(i: nat): Logs
      requires i <= 1
    {
      With(i, Log(File(i).generation, []))
    }

    /** The records of both logs, oldest generation first, then sorted by lsn. */
    function Recovered(): seq<Record> {
      SortByLsn(if a.generation <= b.generation then a.records + b.records else b.records + a.records)
    }

    /** The records in the order they were written: the log retired last, then the active one. */
    function InOrder(): seq<Record> {
      Inactive().records + Active().records
    }
  }

  /** A stable sort. */
  function SortByLsn(records: seq<Record>): seq<Record> {
    if records == [] then [] else InsertByLsn(SortByLsn(records[..|records| - 1]), records[|records| - 1])
  }

  function InsertByLsn(sorted: seq<Record>, r: Record): seq<Record> {
    if sorted == [] || sorted[|sorted| - 1].lsn <= r.lsn then sorted + [r]
    else InsertByLsn(sorted[..|sorted| - 1], r) + [sorted[|sorted| - 1]]
  }

  predicate Increasing(records: seq<Record>) {
    forall i, j :: 0 <= i < j < |records| ==> records[i].lsn < records[j].lsn
  }

  lemma {:induction false} SortIsIdentity(records: seq<Record>)
    requires Increasing(records)
    ensures SortByLsn(records) == records
  {
    if records != [] {
      SortIsIdentity(records[..|records| - 1]);
    }
  }

  /** Only fresh logs share a generation, and then only the first holds anything. */
  predicate Told(logs: Logs) {
    logs.a.generation == logs.b.generation ==> logs.b.records == []
  }

  /**
   * Recovery returns the records in the order they were written, however the
   * two files happen to be laid out, as long as lsns rose across them.
   */
  lemma RecoveredInOrder(logs: Logs)
    requires Told(logs) && Increasing(logs.InOrder())
    ensures logs.Recovered() == logs.InOrder()
  {
    SortIsIdentity(logs.InOrder());
    var laid := if logs.a.generation <= logs.b.generation then logs.a.records + logs.b.records
                else logs.b.records + logs.a.records;
    assert laid == logs.InOrder();
  }

  /** The two files behind `Logs`. */
  class WalPair {
    var files: Logs
    var active: nat

    ghost predicate Valid()
      reads this
    {
      active == files.Newest()
    }

    constructor (files: Logs)
      ensures Valid() && this.files == files
    {
      this.files := files;
      active := files.Newest();
    }

    method AppendGroup(records: seq<Record>)
      requires Valid()
      modifies this
      ensures Valid() && files == old(files).Appended(records)
    {
      var log := files.File(active);
      files := files.With(active, Log(log.generation, log.records + records));
    }

    /** `Logs.Rotated` on the files; `retired` is the log that was active. */
    method Rotate() returns (retired: nat)
      requires Valid()
      modifies this
      ensures Valid() && files == old(files).Rotated()
      ensures retired == old(files).Newest() && active == 1 - retired
    {
      retired := active;
      var generation := files.File(active).generation + 1;
      var next := 1 - active;
      files := files.With(next, Log(generation, []));
      active := next;
    }

    /** `Logs.Truncated` on the files. */
    method Truncate(i: nat)
      requires Valid() && i <= 1
      modifies this
      ensures Valid() && files == old(files).Truncated(i)
    {
      files := files.With(i, Log(files.File(i).generation, []));
    }

    /** Read both logs, oldest generation first, and settle which takes appends. */
    method Recover() returns (records: seq<Record>)
      requires Valid()
      modifies this`active
      ensures Valid() && records == files.Recovered()
    {
      var first, second := files.a, files.b;
      if files.a.generation > files.b.generation {
        first, second := files.b, files.a;
      }
      active := files.Newest();
      records := SortByLsn(first.records + second.records);
    }
  }
}
