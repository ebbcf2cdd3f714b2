/** The envelope around every stored payload: tag, length and two checksums. */
module Frames {
  import opened Layout
  import opened Bytes

  type Checksum = seq<byte> -> U64

  const WAL_REC: U64 := FromTag([76, 84, 87, 65, 76, 82, 69, 67])

  /** A tag is eight ASCII letters read as a little-endian integer; this one spells LTWALREC. */
  function FromTag(s: seq<byte>): U64
    requires |s| == 8
  {
    var n := FromLe(s);
    if n < 0x1_0000_0000_0000_0000 then n else 0
  }

  function Header(cs: Checksum, tag: U64, payload: seq<byte>): (r: seq<byte>)
    ensures |r| == 24
  {
    Le(tag, 8) + Le(|payload|, 8) + Le(cs(payload), 8)
  }

  function Encode(cs: Checksum, tag: U64, payload: seq<byte>): (r: seq<byte>)
    ensures |r| == FRAME_HEADER_LEN + |payload|
  {
    Header(cs, tag, payload) + Le(cs(Header(cs, tag, payload)), 8) + payload
  }

  /** The payload length a frame's header claims; `None` when the header is short, damaged or another kind's. */
  function PeekLen(cs: Checksum, bytes: seq<byte>, tag: U64): Option<nat> {
    if |bytes| < FRAME_HEADER_LEN then None
    else if cs(bytes[..24]) != FromLe(bytes[24..32]) then None
    else if FromLe(bytes[..8]) != tag then None
    else Some(FromLe(bytes[8..16]))
  }

  function Decode(cs: Checksum, bytes: seq<byte>, tag: U64): Option<seq<byte>> {
    var len := PeekLen(cs, bytes, tag);
    if len.None? || |bytes| < FRAME_HEADER_LEN + len.value then None
    else
      var payload := bytes[FRAME_HEADER_LEN..FRAME_HEADER_LEN + len.value];
      if cs(payload) != FromLe(bytes[16..24]) then None else Some(payload)
  }

  /** The header of a frame reads back however much follows it, and however much of the payload is missing. */
  lemma PeekEncoded(cs: Checksum, tag: U64, payload: seq<byte>, bytes: seq<byte>)
    requires |payload| < 0x1_0000_0000_0000_0000
    requires FRAME_HEADER_LEN <= |bytes|
    requires bytes[..FRAME_HEADER_LEN] == Encode(cs, tag, payload)[..FRAME_HEADER_LEN]
    ensures PeekLen(cs, bytes, tag) == Some(|payload|)
    ensures FromLe(bytes[16..24]) == cs(payload)
  {
    Pow256Eight();
    var h := Header(cs, tag, payload);
    var head := bytes[..FRAME_HEADER_LEN];
    assert head == h + Le(cs(h), 8);
    assert bytes[..24] == head[..24] == h;
    assert bytes[24..32] == head[24..32] == Le(cs(h), 8);
    assert bytes[..8] == h[..8] == Le(tag, 8);
    assert bytes[8..16] == h[8..16] == Le(|payload|, 8);
    assert bytes[16..24] == h[16..24] == Le(cs(payload), 8);
    LeRoundTrip(tag, 8);
    LeRoundTrip(|payload|, 8);
    LeRoundTrip(cs(payload), 8);
    LeRoundTrip(cs(h), 8);
  }

  lemma RoundTrip(cs: Checksum, tag: U64, payload: seq<byte>)
    requires |payload| < 0x1_0000_0000_0000_0000
    ensures Decode(cs, Encode(cs, tag, payload), tag) == Some(payload)
  {
    var f := Encode(cs, tag, payload);
    PeekEncoded(cs, tag, payload, f);
    assert f[FRAME_HEADER_LEN..FRAME_HEADER_LEN + |payload|] == payload;
  }
}
