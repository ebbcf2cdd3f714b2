/** A log file as bytes: what appends leave, and what a cut leaves of it. */
module WalFiles {
  import opened Layout
  import opened Bytes
  import opened Frames

  /**
   * A log as its reader sees it: how a record is framed, and what the frame at
   * the start of some bytes decodes to, with its length.
   */
  datatype Log<!R> = Log(frame: R -> seq<byte>, first: seq<byte> -> Option<(R, nat)>) {

    /** A decoded frame takes at least one byte, and none that is not there. */
    ghost predicate Sound() {
      forall bytes :: first(bytes).Some? ==> 0 < first(bytes).value.1 <= |bytes|
    }

    /** A whole frame decodes to its record whatever follows; a cut frame never decodes. */
    ghost predicate Reads(r: R) {
      && |frame(r)| > 0
      && (forall rest :: first(frame(r) + rest) == Some((r, |frame(r)|)))
      && (forall k :: 0 <= k < |frame(r)| ==> first(frame(r)[..k]) == None)
    }

    ghost predicate ReadsAll(records: seq<R>) {
      forall i :: 0 <= i < |records| ==> Reads(records[i])
    }

    /** The records that read back from the start of `bytes`, up to the first damaged one. */
    ghost function Records(bytes: seq<byte>): seq<R>
      requires Sound()
      decreases |bytes|
    {
      if first(bytes).None? then []
      else [first(bytes).value.0] + Records(bytes[first(bytes).value.1..])
    }

    /** How many bytes those records take. */
    ghost function GoodBytes(bytes: seq<byte>): (n: nat)
      requires Sound()
      ensures n <= |bytes|
      decreases |bytes|
    {
      if first(bytes).None? then 0
      else first(bytes).value.1 + GoodBytes(bytes[first(bytes).value.1..])
    }

    function Join(records: seq<R>): seq<byte> {
      if records == [] then [] else frame(records[0]) + Join(records[1..])
    }

    /** How many whole records lie in the first `k` bytes of a log. */
    function Whole(records: seq<R>, k: nat): (n: nat)
      ensures n <= |records|
    {
      if records == [] || k < |frame(records[0])| then 0
      else 1 + Whole(records[1..], k - |frame(records[0])|)
    }

    /** `Whole` is what its name says: the largest count whose frames fit within `k` bytes. */
    lemma {:induction false} WholeIsLargest(records: seq<R>, k: nat)
      requires k <= |Join(records)|
      ensures |Join(records[..Whole(records, k)])| <= k
      ensures Whole(records, k) < |records| ==> k < |Join(records[..Whole(records, k) + 1])|
    {
      if records != [] {
        var n := Whole(records, k);
        if k < |frame(records[0])| {
          assert records[..1][1..] == [];
          assert Join(records[..1]) == frame(records[0]) + [];
        } else {
          WholeIsLargest(records[1..], k - |frame(records[0])|);
          assert records[..n][1..] == records[1..][..n - 1];
          if n < |records| {
            assert records[..n + 1][1..] == records[1..][..n];
          }
        }
      }
    }

    lemma CutInFirst(r: R, rest: seq<byte>, k: nat)
      requires Sound() && Reads(r) && k < |frame(r)|
      ensures Records((frame(r) + rest)[..k]) == [] && GoodBytes((frame(r) + rest)[..k]) == 0
    {
      assert (frame(r) + rest)[..k] == frame(r)[..k];
    }

    lemma CutPastFirst(r: R, rest: seq<byte>, k: nat)
      requires Sound() && Reads(r) && |frame(r)| <= k <= |frame(r)| + |rest|
      ensures var bytes, tail := (frame(r) + rest)[..k], rest[..k - |frame(r)|];
              && Records(bytes) == [r] + Records(tail)
              && bytes[..GoodBytes(bytes)] == frame(r) + tail[..GoodBytes(tail)]
    {
      var bytes, tail := (frame(r) + rest)[..k], rest[..k - |frame(r)|];
      assert bytes == frame(r) + tail;
      assert bytes[|frame(r)|..] == tail;
    }

    /** Cut the log at any byte: recovery returns exactly the records that fit whole before the cut. */
    lemma {:induction false} CutRecovers(records: seq<R>, k: nat)
      requires Sound() && ReadsAll(records) && k <= |Join(records)|
      ensures Records(Join(records)[..k]) == records[..Whole(records, k)]
    {
      if records == [] {
        assert Join(records)[..k] == [];
        EmptyReads();
      } else {
        var r, rest := records[0], records[1..];
        if k < |frame(r)| {
          CutInFirst(r, Join(rest), k);
        } else {
          ReadsTail(records);
          CutPastFirst(r, Join(rest), k);
          CutRecovers(rest, k - |frame(r)|);
          TakeCons(records, Whole(rest, k - |frame(r)|));
        }
      }
    }

    /** And it keeps exactly their bytes, so the file ends on a record boundary. */
    lemma {:induction false} CutKeepsWholeRecords(records: seq<R>, k: nat)
      requires Sound() && ReadsAll(records) && k <= |Join(records)|
      ensures Join(records)[..k][..GoodBytes(Join(records)[..k])] == Join(records[..Whole(records, k)])
    {
      if records == [] {
        assert Join(records)[..k] == [];
        EmptyReads();
      } else {
        var r, rest := records[0], records[1..];
        if k < |frame(r)| {
          CutInFirst(r, Join(rest), k);
        } else {
          ReadsTail(records);
          CutPastFirst(r, Join(rest), k);
          CutKeepsWholeRecords(rest, k - |frame(r)|);
          TakeCons(records, Whole(rest, k - |frame(r)|));
        }
      }
    }

    lemma ReadsTail(records: seq<R>)
      requires records != [] && ReadsAll(records)
      ensures ReadsAll(records[1..])
    {
    }

    lemma TakeCons(records: seq<R>, n: nat)
      requires records != [] && n <= |records| - 1
      ensures records[..1 + n] == [records[0]] + records[1..][..n]
      ensures Join(records[..1 + n]) == frame(records[0]) + Join(records[1..][..n])
    {
      assert records[..1 + n][1..] == records[1..][..n];
    }

    /** `records` is what the first `offset` bytes hold, and reading goes on from there. */
    ghost predicate ReadUpTo(bytes: seq<byte>, records: seq<R>, offset: nat)
      requires Sound()
    {
      && offset <= |bytes|
      && records + Records(bytes[offset..]) == Records(bytes)
      && offset + GoodBytes(bytes[offset..]) == GoodBytes(bytes)
    }

    lemma ReadStart(bytes: seq<byte>)
      requires Sound()
      ensures ReadUpTo(bytes, [], 0)
    {
      assert bytes[0..] == bytes;
    }

    lemma ReadStep(bytes: seq<byte>, records: seq<R>, offset: nat)
      requires Sound() && ReadUpTo(bytes, records, offset) && first(bytes[offset..]).Some?
      ensures var (r, n) := first(bytes[offset..]).value; ReadUpTo(bytes, records + [r], offset + n)
    {
      var (r, n) := first(bytes[offset..]).value;
      DropTwice(bytes, offset, n);
      assert records + ([r] + Records(bytes[offset + n..])) == (records + [r]) + Records(bytes[offset + n..]);
    }

    lemma ReadEnd(bytes: seq<byte>, records: seq<R>, offset: nat)
      requires Sound() && ReadUpTo(bytes, records, offset)
      requires offset == |bytes| || first(bytes[offset..]).None?
      ensures records == Records(bytes) && GoodBytes(bytes) == offset
    {
      EmptyReads();
      assert offset == |bytes| ==> bytes[offset..] == [];
    }

    lemma EmptyReads()
      requires Sound()
      ensures Records([]) == [] && GoodBytes([]) == 0
    {
      assert first([]).None?;
    }

    lemma {:induction false} JoinConcat(a: seq<R>, b: seq<R>)
      ensures Join(a + b) == Join(a) + Join(b)
    {
      if a == [] {
        assert a + b == b;
      } else {
        JoinConcat(a[1..], b);
        assert (a + b)[1..] == a[1..] + b;
        assert (a + b)[0] == a[0];
      }
    }

    lemma JoinPush(a: seq<R>, r: R)
      ensures Join(a + [r]) == Join(a) + frame(r)
    {
      JoinConcat(a, [r]);
      assert Join([r]) == frame(r) + Join([]);
    }

    lemma {:induction false} WholeAll(records: seq<R>)
      ensures Whole(records, |Join(records)|) == |records|
    {
      if records != [] {
        WholeAll(records[1..]);
      }
    }

    /**
     * Recovery loses nothing it keeps: append more records after a cut log was
     * recovered, and recovering again returns the survivors and then those.
     */
    lemma AppendAfterRecovery(records: seq<R>, k: nat, more: seq<R>)
      requires Sound() && ReadsAll(records) && ReadsAll(more) && k <= |Join(records)|
      ensures var bytes := Join(records)[..k];
              var kept := bytes[..GoodBytes(bytes)];
              Records(kept + Join(more)) == records[..Whole(records, k)] + more
    {
      CutKeepsWholeRecords(records, k);
      var all := records[..Whole(records, k)] + more;
      JoinConcat(records[..Whole(records, k)], more);
      WholeAll(all);
      CutRecovers(all, |Join(all)|);
      assert Join(all)[..|Join(all)|] == Join(all);
      assert all[..|all|] == all;
    }
  }

  // ---- The log the format defines -----------------------------------------------

  /** Serialization is a library's, as an inverse pair on the records written. */
  ghost predicate Inverse<R>(ser: R -> seq<byte>, de: seq<byte> -> Option<R>, r: R) {
    de(ser(r)) == Some(r) && |ser(r)| < 0x1_0000_0000_0000_0000
  }

  /** The whole frame at the start of `bytes`, decoded: the record and the frame's length. */
  function FirstRecord<R>(cs: Checksum, de: seq<byte> -> Option<R>, bytes: seq<byte>): (r: Option<(R, nat)>)
    ensures r.Some? ==> 0 < r.value.1 <= |bytes|
  {
    var len := PeekLen(cs, bytes, WAL_REC);
    if len.None? || FRAME_HEADER_LEN + len.value > |bytes| then None
    else
      var payload := Frames.Decode(cs, bytes[..FRAME_HEADER_LEN + len.value], WAL_REC);
      if payload.None? then None
      else
        var record := de(payload.value);
        if record.None? then None else Some((record.value, FRAME_HEADER_LEN + len.value))
  }

  function RecordLog<R>(cs: Checksum, ser: R -> seq<byte>, de: seq<byte> -> Option<R>): Log<R> {
    Log((r: R) => Frames.Encode(cs, WAL_REC, ser(r)), bytes => FirstRecord(cs, de, bytes))
  }

  lemma WholeFrameReads<R>(cs: Checksum, ser: R -> seq<byte>, de: seq<byte> -> Option<R>, r: R, rest: seq<byte>)
    requires Inverse(ser, de, r)
    ensures var f := Frames.Encode(cs, WAL_REC, ser(r));
            FirstRecord(cs, de, f + rest) == Some((r, |f|))
  {
    var f := Frames.Encode(cs, WAL_REC, ser(r));
    assert (f + rest)[..FRAME_HEADER_LEN] == f[..FRAME_HEADER_LEN];
    PeekEncoded(cs, WAL_REC, ser(r), f + rest);
    assert (f + rest)[..|f|] == f;
    RoundTrip(cs, WAL_REC, ser(r));
  }

  lemma CutFrameFails<R>(cs: Checksum, ser: R -> seq<byte>, de: seq<byte> -> Option<R>, r: R, k: nat)
    requires Inverse(ser, de, r) && k < |Frames.Encode(cs, WAL_REC, ser(r))|
    ensures FirstRecord(cs, de, Frames.Encode(cs, WAL_REC, ser(r))[..k]) == None
  {
    var f := Frames.Encode(cs, WAL_REC, ser(r));
    if FRAME_HEADER_LEN <= k {
      assert f[..k][..FRAME_HEADER_LEN] == f[..FRAME_HEADER_LEN];
      PeekEncoded(cs, WAL_REC, ser(r), f[..k]);
    }
  }

  /** The format's log reads back: so everything proved of logs holds of it, for every checksum. */
  lemma RecordLogReads<R>(cs: Checksum, ser: R -> seq<byte>, de: seq<byte> -> Option<R>, records: seq<R>)
    requires forall i :: 0 <= i < |records| ==> Inverse(ser, de, records[i])
    ensures RecordLog(cs, ser, de).Sound()
    ensures RecordLog(cs, ser, de).ReadsAll(records)
  {
    var log := RecordLog(cs, ser, de);
    forall i | 0 <= i < |records|
      ensures log.Reads(records[i])
    {
      forall rest
        ensures log.first(log.frame(records[i]) + rest) == Some((records[i], |log.frame(records[i])|))
      {
        WholeFrameReads(cs, ser, de, records[i], rest);
      }
      forall k | 0 <= k < |log.frame(records[i])|
        ensures log.first(log.frame(records[i])[..k]) == None
      {
        CutFrameFails(cs, ser, de, records[i], k);
      }
    }
  }

  // ---- The file -------------------------------------------------------------------

  lemma DropTwice<T>(s: seq<T>, i: nat, j: nat)
    requires i + j <= |s|
    ensures s[i..][j..] == s[i + j..]
  {
  }

  /** An open log file. `body` is what follows the 64-byte header. */
  class WalFile<!R> {
    const log: Log<R>
    var generation: nat
    var body: seq<byte>
    /** Bytes of records, as the handle believes. */
    var len: nat

    ghost predicate Valid()
      reads this
    {
      len == |body| && log.Sound()
    }

    constructor (log: Log<R>, generation: nat, body: seq<byte>)
      requires log.Sound()
      ensures Valid() && this.log == log && this.generation == generation && this.body == body
    {
      this.log, this.generation, this.body, len := log, generation, body, |body|;
    }

    /** The contents grow by these records, in order, under one sync. */
    method AppendGroup(records: seq<R>)
      requires Valid()
      modifies this`body, this`len
      ensures Valid() && body == old(body) + log.Join(records)
    {
      var joined: seq<byte> := [];
      for i := 0 to |records|
        invariant len == old(len) && body == old(body)
        invariant joined == log.Join(records[..i])
      {
        log.JoinPush(records[..i], records[i]);
        assert records[..i + 1] == records[..i] + [records[i]];
        joined := joined + log.frame(records[i]);
      }
      assert records[..|records|] == records;
      body := body[..len] + joined;
      len := len + |joined|;
    }

    /** No records are left; the generation stays. */
    method Truncate()
      requires Valid()
      modifies this`body, this`len
      ensures Valid() && body == []
    {
      body, len := [], 0;
    }

    /** No records are left, under another generation. */
    method Rotate(next: nat)
      requires Valid()
      modifies this
      ensures Valid() && body == [] && generation == next
    {
      generation, body, len := next, [], 0;
    }

    /** The readable records, with the file cut where they end. */
    method Recover() returns (records: seq<R>, truncated: bool)
      requires Valid()
      modifies this`body, this`len
      ensures Valid()
      ensures records == log.Records(old(body))
      ensures body == old(body)[..log.GoodBytes(old(body))]
      ensures truncated <==> |body| < |old(body)|
    {
      records := [];
      var offset := 0;
      var truncatedAt: Option<nat> := None;
      log.ReadStart(body);
      while offset < |body|
        invariant body == old(body) && len == |body| && offset <= |body|
        invariant log.ReadUpTo(body, records, offset)
      {
        var first := log.first(body[offset..]);
        if first.None? {
          truncatedAt := Some(offset);
          break;
        }
        log.ReadStep(body, records, offset);
        records := records + [first.value.0];
        offset := offset + first.value.1;
      }
      log.ReadEnd(body, records, offset);
      truncated := truncatedAt.Some?;
      if truncated {
        body := body[..truncatedAt.value];
        len := truncatedAt.value;
      }
    }
  }
}
