/** Columns as chunks of aligned buffers, and back. */
module Segments {
  import opened Bytes
  import opened Layout
  import opened Sequences

  /** One value of a column, and one as an encoding stores it. */
  type Item(==, !new)
  type Stored(==, !new)

  datatype Role = Validity | Data | BloomFilter | TrigramFilter | PageZones

  /** What the encoder makes of a run of rows, children included. */
  datatype Encoded = Encoded(len: nat, buffers: seq<(Role, seq<byte>)>, children: seq<Encoded>)

  /** What the decoder hands back to Arrow. */
  datatype ArrayData = ArrayData(len: nat, nulls: Option<seq<byte>>, buffers: seq<seq<byte>>, children: seq<ArrayData>)

  datatype BufferSpec = BufferSpec(role: Role, extent: Extent, uncompressedLen: nat, checksum: U64)

  /** One column chunk's entry in the metadata. `packed` is its codec: none, or the column's. */
  datatype Chunk = Chunk(packed: bool, len: nat, buffers: seq<BufferSpec>, children: seq<Chunk>, blockRows: nat, blocks: seq<Chunk>)

  /**
   * The libraries underneath: a checksum, a codec, and Arrow's own reading of
   * buffers. A codec that is switched off never packs.
   */
  datatype Libraries = Libraries(
    sum: seq<byte> -> U64,
    on: bool,
    pack: seq<byte> -> seq<byte>,
    unpack: (seq<byte>, nat) -> Option<seq<byte>>,
    encode: seq<Item> -> Encoded,
    read: ArrayData -> Option<seq<Stored>>,
    cast: Stored -> Item)

  /** What they promise: unpacking undoes packing, and Arrow reads back what it wrote. */
  ghost predicate Sound(a: Libraries) {
    && (forall b: seq<byte> :: a.unpack(a.pack(b), |b|) == Some(b))
    && (forall rows: seq<Item> :: Encodes(a, rows))
  }

  ghost predicate Encodes(a: Libraries, rows: seq<Item>) {
    var e := a.encode(rows);
    && e.len == |rows|
    && WellFormed(e)
    && var stored := a.read(ArrayOf(e));
    && stored.Some? && Expand(a, stored.value) == rows
  }

  /** Only a column's own buffers come from the encoder, and a bit for each row in its null bitmap. */
  predicate WellFormed(e: Encoded) {
    && (forall i :: 0 <= i < |e.buffers| ==> e.buffers[i].0.Validity? || e.buffers[i].0.Data?)
    && (FirstValidity(e.buffers).Some? ==> 8 * |FirstValidity(e.buffers).value| >= e.len)
    && (forall i :: 0 <= i < |e.children| ==> WellFormed(e.children[i]))
  }

  function Expand(a: Libraries, stored: seq<Stored>): (rows: seq<Item>)
    ensures |rows| == |stored|
  {
    seq(|stored|, i requires 0 <= i < |stored| => a.cast(stored[i]))
  }

  // ---- Arrow's view of what was encoded ------------------------------------------------------

  function FirstValidity(buffers: seq<(Role, seq<byte>)>): Option<seq<byte>> {
    if buffers == [] then None
    else if buffers[0].0.Validity? then Some(buffers[0].1)
    else FirstValidity(buffers[1..])
  }

  function DataOf(buffers: seq<(Role, seq<byte>)>): seq<seq<byte>> {
    if buffers == [] then []
    else (if buffers[0].0.Data? then [buffers[0].1] else []) + DataOf(buffers[1..])
  }

  function ArrayOf(e: Encoded): ArrayData {
    ArrayData(e.len, FirstValidity(e.buffers), DataOf(e.buffers), ArraysOf(e.children))
  }

  function ArraysOf(es: seq<Encoded>): (r: seq<ArrayData>)
    ensures |r| == |es| && forall i :: 0 <= i < |es| ==> r[i] == ArrayOf(es[i])
  {
    if es == [] then [] else [ArrayOf(es[0])] + ArraysOf(es[1..])
  }

  // ---- Buffers -----------------------------------------------------------------------------

  /** The packed form, kept only when it is strictly smaller. */
  function Compress(a: Libraries, buffer: seq<byte>): Option<seq<byte>> {
    if a.on && |a.pack(buffer)| < |buffer| then Some(a.pack(buffer)) else None
  }

  /** Read one buffer and check it; its stored length tells packed from raw. */
  function Load(a: Libraries, bytes: seq<byte>, spec: BufferSpec, packed: bool): Option<seq<byte>> {
    if spec.extent.End() > |bytes| then None
    else
      var stored := bytes[spec.extent.offset..spec.extent.End()];
      if a.sum(stored) != spec.checksum then None
      else if !packed || |stored| == spec.uncompressedLen then Some(stored)
      else a.unpack(stored, spec.uncompressedLen)
  }

  /** The bytes that are stored for a buffer. */
  function StoredForm(a: Libraries, buffer: seq<byte>): seq<byte> {
    if Compress(a, buffer).Some? then Compress(a, buffer).value else buffer
  }

  ghost predicate At(bytes: seq<byte>, e: Extent, content: seq<byte>) {
    e.End() <= |bytes| && bytes[e.offset..e.End()] == content
  }

  ghost predicate SpecOk(a: Libraries, bytes: seq<byte>, spec: BufferSpec, role: Role, buffer: seq<byte>) {
    && spec.role == role && spec.uncompressedLen == |buffer|
    && At(bytes, spec.extent, StoredForm(a, buffer))
    && spec.checksum == a.sum(StoredForm(a, buffer))
  }

  /**
   * The reader's length test is exact: a buffer comes back as it was written
   * whenever the chunk records the codec if any of its buffers was packed.
   */
  lemma LoadUndoesStore(a: Libraries, bytes: seq<byte>, spec: BufferSpec, role: Role, buffer: seq<byte>, packed: bool)
    requires Sound(a) && SpecOk(a, bytes, spec, role, buffer)
    requires Compress(a, buffer).Some? ==> packed
    ensures Load(a, bytes, spec, packed) == Some(buffer)
  {
    assert a.unpack(a.pack(buffer), |buffer|) == Some(buffer);
  }

  // ---- Chunks and their extents ----------------------------------------------------------------

  function SpecExtents(specs: seq<BufferSpec>): (r: seq<Extent>)
    ensures |r| == |specs|
  {
    seq(|specs|, i requires 0 <= i < |specs| => specs[i].extent)
  }

  /** Every extent of a chunk, at every nesting level, in the order they were written. */
  function Extents(c: Chunk): seq<Extent> {
    AllExtents(c.blocks) + SpecExtents(c.buffers) + AllExtents(c.children)
  }

  function AllExtents(cs: seq<Chunk>): seq<Extent> {
    if cs == [] then [] else Extents(cs[0]) + AllExtents(cs[1..])
  }

  /** Aligned extents, one after another, within [from, to]. */
  predicate Laid(es: seq<Extent>, from: nat, to: nat) {
    && from <= to
    && (forall i :: 0 <= i < |es| ==> es[i].offset % BUFFER_ALIGN == 0 && from <= es[i].offset && es[i].End() <= to)
    && (forall i, j :: 0 <= i < j < |es| ==> es[i].End() <= es[j].offset)
  }

  lemma LaidConcat(a: seq<Extent>, b: seq<Extent>, from: nat, mid: nat, to: nat)
    requires Laid(a, from, mid) && Laid(b, mid, to)
    ensures Laid(a + b, from, to)
  {
  }

  lemma LaidPush(specs: seq<BufferSpec>, spec: BufferSpec, from: nat, mid: nat, to: nat)
    requires Laid(SpecExtents(specs), from, mid) && Laid([spec.extent], mid, to)
    ensures Laid(SpecExtents(specs + [spec]), from, to)
  {
    LaidConcat(SpecExtents(specs), [spec.extent], from, mid, to);
    assert SpecExtents(specs + [spec]) == SpecExtents(specs) + [spec.extent];
  }

  /** No two buffers share a byte. */
  lemma LaidDisjoint(es: seq<Extent>, from: nat, to: nat, i: nat, j: nat, p: nat)
    requires Laid(es, from, to) && i < |es| && j < |es| && i != j
    ensures !(es[i].Holds(p) && es[j].Holds(p))
  {
    if i < j {
      assert es[i].End() <= es[j].offset;
    } else {
      assert es[j].End() <= es[i].offset;
    }
  }

  /** The column's buffers, in order, then side buffers alone; the codec recorded if any of them was packed. */
  ghost predicate BuffersOk(a: Libraries, bytes: seq<byte>, specs: seq<BufferSpec>, buffers: seq<(Role, seq<byte>)>, packed: bool) {
    && |specs| >= |buffers|
    && (forall i :: 0 <= i < |buffers| ==> SpecOk(a, bytes, specs[i], buffers[i].0, buffers[i].1))
    && (forall i :: 0 <= i < |buffers| && Compress(a, buffers[i].1).Some? ==> packed)
    && (forall i :: |buffers| <= i < |specs| ==> !specs[i].role.Validity? && !specs[i].role.Data?)
  }

  lemma BuffersStay(a: Libraries, bytes: seq<byte>, more: seq<byte>, specs: seq<BufferSpec>,
                    buffers: seq<(Role, seq<byte>)>, packed: bool)
    requires BuffersOk(a, bytes, specs, buffers, packed) && bytes <= more
    ensures BuffersOk(a, more, specs, buffers, packed)
  {
    forall i | 0 <= i < |buffers|
      ensures SpecOk(a, more, specs[i], buffers[i].0, buffers[i].1)
    {
      assert SpecOk(a, bytes, specs[i], buffers[i].0, buffers[i].1);
      var x := specs[i].extent;
      assert more[x.offset..x.End()] == bytes[x.offset..x.End()];
    }
  }

  lemma RestOk(a: Libraries, bytes: seq<byte>, specs: seq<BufferSpec>, buffers: seq<(Role, seq<byte>)>, packed: bool)
    requires Sound(a) && BuffersOk(a, bytes, specs, buffers, packed) && specs != []
    ensures buffers != [] ==>
              && BuffersOk(a, bytes, specs[1..], buffers[1..], packed)
              && specs[0].role == buffers[0].0 && Load(a, bytes, specs[0], packed) == Some(buffers[0].1)
    ensures buffers == [] ==>
              BuffersOk(a, bytes, specs[1..], [], packed) && !specs[0].role.Validity? && !specs[0].role.Data?
  {
    if buffers != [] {
      assert SpecOk(a, bytes, specs[0], buffers[0].0, buffers[0].1);
      LoadUndoesStore(a, bytes, specs[0], buffers[0].0, buffers[0].1, packed);
    }
  }

  /** The chunk holds the encoded rows, in these bytes. */
  ghost predicate ChunkOk(a: Libraries, bytes: seq<byte>, c: Chunk, e: Encoded)
    decreases e
  {
    && c.len == e.len && c.blocks == [] && c.blockRows == 0
    && BuffersOk(a, bytes, c.buffers, e.buffers, c.packed)
    && |c.children| == |e.children|
    && (forall i :: 0 <= i < |e.children| ==> ChunkOk(a, bytes, c.children[i], e.children[i]))
  }

  /** Bytes written later disturb nothing. */
  lemma {:induction false} ChunkStays(a: Libraries, bytes: seq<byte>, more: seq<byte>, c: Chunk, e: Encoded)
    requires ChunkOk(a, bytes, c, e) && bytes <= more
    ensures ChunkOk(a, more, c, e)
    decreases e
  {
    BuffersStay(a, bytes, more, c.buffers, e.buffers, c.packed);
    forall i | 0 <= i < |e.children|
      ensures ChunkOk(a, more, c.children[i], e.children[i])
    {
      ChunkStays(a, bytes, more, c.children[i], e.children[i]);
    }
  }

  // ---- Writing ---------------------------------------------------------------------------------

  /** The segment under construction. */
  class Output {
    var bytes: seq<byte>

    constructor ()
      ensures bytes == []
    {
      bytes := [];
    }

    method PadToAlignment()
      modifies this
      ensures old(bytes) <= bytes && |bytes| == AlignUp(|old(bytes)|, BUFFER_ALIGN)
    {
      var padded := AlignUp(|bytes|, BUFFER_ALIGN);
      bytes := bytes + seq(padded - |bytes|, _ => 0);
    }

    /** Append one stored buffer on the next aligned byte. */
    method Put(a: Libraries, role: Role, stored: seq<byte>, uncompressedLen: nat) returns (spec: BufferSpec)
      modifies this
      ensures old(bytes) <= bytes
      ensures spec.role == role && spec.uncompressedLen == uncompressedLen && spec.checksum == a.sum(stored)
      ensures At(bytes, spec.extent, stored) && Laid([spec.extent], |old(bytes)|, |bytes|)
    {
      PadToAlignment();
      var offset := |bytes|;
      bytes := bytes + stored;
      spec := BufferSpec(role, Extent(offset, |stored|), uncompressedLen, a.sum(stored));
    }

    /** Append a column's own buffers, packed where that makes them smaller. */
    method PutBuffers(a: Libraries, buffers: seq<(Role, seq<byte>)>) returns (packed: bool, specs: seq<BufferSpec>)
      modifies this
      ensures old(bytes) <= bytes && |specs| == |buffers|
      ensures forall i :: 0 <= i < |buffers| ==> SpecOk(a, bytes, specs[i], buffers[i].0, buffers[i].1)
      ensures packed <==> exists i :: 0 <= i < |buffers| && Compress(a, buffers[i].1).Some?
      ensures Laid(SpecExtents(specs), |old(bytes)|, |bytes|)
    {
      packed, specs := false, [];
      for i := 0 to |buffers|
        invariant old(bytes) <= bytes && |specs| == i
        invariant forall k :: 0 <= k < i ==> SpecOk(a, bytes, specs[k], buffers[k].0, buffers[k].1)
        invariant packed <==> exists k :: 0 <= k < i && Compress(a, buffers[k].1).Some?
        invariant Laid(SpecExtents(specs), |old(bytes)|, |bytes|)
      {
        ghost var was := bytes;
        var spec, smaller := PutBuffer(a, buffers[i].0, buffers[i].1);
        packed := packed || smaller;
        SpecsStay(a, was, bytes, specs, buffers[..i]);
        LaidPush(specs, spec, |old(bytes)|, |was|, |bytes|);
        specs := specs + [spec];
      }
    }

    method PutBuffer(a: Libraries, role: Role, buffer: seq<byte>) returns (spec: BufferSpec, smaller: bool)
      modifies this
      ensures old(bytes) <= bytes && SpecOk(a, bytes, spec, role, buffer)
      ensures smaller <==> Compress(a, buffer).Some?
      ensures Laid([spec.extent], |old(bytes)|, |bytes|)
    {
      var packed := Compress(a, buffer);
      smaller := packed.Some?;
      spec := Put(a, role, if smaller then packed.value else buffer, |buffer|);
    }

    /** Filters and page bounds are stored raw, whatever the codec. */
    method PutSide(a: Libraries, side: seq<(Role, seq<byte>)>) returns (specs: seq<BufferSpec>)
      modifies this
      ensures old(bytes) <= bytes && |specs| == |side|
      ensures forall i :: 0 <= i < |side| ==> specs[i].role == side[i].0 && Load(a, bytes, specs[i], false) == Some(side[i].1)
      ensures Laid(SpecExtents(specs), |old(bytes)|, |bytes|)
    {
      specs := [];
      for i := 0 to |side|
        invariant old(bytes) <= bytes && |specs| == i
        invariant forall k :: 0 <= k < i ==> specs[k].role == side[k].0 && Load(a, bytes, specs[k], false) == Some(side[k].1)
        invariant Laid(SpecExtents(specs), |old(bytes)|, |bytes|)
      {
        ghost var was := bytes;
        var spec := Put(a, side[i].0, side[i].1, |side[i].1|);
        SidesStay(a, was, bytes, specs);
        LaidPush(specs, spec, |old(bytes)|, |was|, |bytes|);
        specs := specs + [spec];
      }
    }
  }

  lemma SpecsStay(a: Libraries, bytes: seq<byte>, more: seq<byte>, specs: seq<BufferSpec>, buffers: seq<(Role, seq<byte>)>)
    requires bytes <= more && |specs| == |buffers|
    requires forall k :: 0 <= k < |specs| ==> SpecOk(a, bytes, specs[k], buffers[k].0, buffers[k].1)
    ensures forall k :: 0 <= k < |specs| ==> SpecOk(a, more, specs[k], buffers[k].0, buffers[k].1)
  {
    forall k | 0 <= k < |specs|
      ensures SpecOk(a, more, specs[k], buffers[k].0, buffers[k].1)
    {
      var x := specs[k].extent;
      assert more[x.offset..x.End()] == bytes[x.offset..x.End()];
    }
  }

  lemma SidesStay(a: Libraries, bytes: seq<byte>, more: seq<byte>, specs: seq<BufferSpec>)
    requires bytes <= more
    ensures forall k :: 0 <= k < |specs| && Load(a, bytes, specs[k], false).Some? ==>
              Load(a, more, specs[k], false) == Load(a, bytes, specs[k], false)
  {
    forall k | 0 <= k < |specs| && Load(a, bytes, specs[k], false).Some?
      ensures Load(a, more, specs[k], false) == Load(a, bytes, specs[k], false)
    {
      var x := specs[k].extent;
      assert more[x.offset..x.End()] == bytes[x.offset..x.End()];
    }
  }

  predicate SideOnly(side: seq<(Role, seq<byte>)>) {
    forall i :: 0 <= i < |side| ==> !side[i].0.Validity? && !side[i].0.Data?
  }

  /** The side buffers read back from a chunk. */
  ghost predicate SideOk(a: Libraries, bytes: seq<byte>, c: Chunk, side: seq<(Role, seq<byte>)>) {
    && |c.buffers| >= |side|
    && forall i :: 0 <= i < |side| ==>
         var spec := c.buffers[|c.buffers| - |side| + i];
         spec.role == side[i].0 && Load(a, bytes, spec, false) == Some(side[i].1)
  }

  /** Write one chunk: its buffers, then its side buffers, then its children. */
  method WriteChunk(out: Output, a: Libraries, e: Encoded, side: seq<(Role, seq<byte>)>) returns (c: Chunk)
    requires WellFormed(e) && SideOnly(side)
    modifies out
    ensures old(out.bytes) <= out.bytes
    ensures ChunkOk(a, out.bytes, c, e)
    ensures SideOk(a, out.bytes, c, side) && |c.buffers| == |e.buffers| + |side|
    ensures Laid(Extents(c), |old(out.bytes)|, |out.bytes|)
    decreases e
  {
    var packed, specs := out.PutBuffers(a, e.buffers);
    ghost var one := out.bytes;
    var sides := out.PutSide(a, side);
    ghost var two := out.bytes;
    var children := WriteChildren(out, a, e.children);
    SpecsStay(a, one, out.bytes, specs, e.buffers);
    SidesStay(a, two, out.bytes, sides);
    c := Chunk(packed, e.len, specs + sides, children, 0, []);
    AssembledOk(a, out.bytes, e, side, specs, sides, c);
    ChunkLaid(packed, e.len, specs, sides, children, |old(out.bytes)|, |one|, |two|, |out.bytes|);
  }

  lemma AssembledOk(a: Libraries, bytes: seq<byte>, e: Encoded, side: seq<(Role, seq<byte>)>,
                    specs: seq<BufferSpec>, sides: seq<BufferSpec>, c: Chunk)
    requires SideOnly(side) && |specs| == |e.buffers| && |sides| == |side|
    requires forall i :: 0 <= i < |specs| ==> SpecOk(a, bytes, specs[i], e.buffers[i].0, e.buffers[i].1)
    requires c.packed <==> exists i :: 0 <= i < |e.buffers| && Compress(a, e.buffers[i].1).Some?
    requires forall i :: 0 <= i < |side| ==> sides[i].role == side[i].0 && Load(a, bytes, sides[i], false) == Some(side[i].1)
    requires c == Chunk(c.packed, e.len, specs + sides, c.children, 0, []) && |c.children| == |e.children|
    requires forall i :: 0 <= i < |e.children| ==> ChunkOk(a, bytes, c.children[i], e.children[i])
    ensures ChunkOk(a, bytes, c, e) && SideOk(a, bytes, c, side)
  {
    forall i | |e.buffers| <= i < |c.buffers|
      ensures !c.buffers[i].role.Validity? && !c.buffers[i].role.Data?
    {
      assert c.buffers[i] == sides[i - |specs|];
    }
  }

  lemma ChunkLaid(packed: bool, len: nat, specs: seq<BufferSpec>, sides: seq<BufferSpec>, children: seq<Chunk>,
                  from: nat, one: nat, two: nat, to: nat)
    requires Laid(SpecExtents(specs), from, one) && Laid(SpecExtents(sides), one, two) && Laid(AllExtents(children), two, to)
    ensures Laid(Extents(Chunk(packed, len, specs + sides, children, 0, [])), from, to)
  {
    LaidConcat(SpecExtents(specs), SpecExtents(sides), from, one, two);
    assert SpecExtents(specs + sides) == SpecExtents(specs) + SpecExtents(sides);
    LaidConcat(SpecExtents(specs + sides), AllExtents(children), from, two, to);
    NothingFirst(SpecExtents(specs + sides), AllExtents(children));
  }

  lemma NothingFirst<T>(a: seq<T>, b: seq<T>)
    ensures [] + a + b == a + b
  {
  }

  method WriteChildren(out: Output, a: Libraries, es: seq<Encoded>) returns (cs: seq<Chunk>)
    requires forall i :: 0 <= i < |es| ==> WellFormed(es[i])
    modifies out
    ensures old(out.bytes) <= out.bytes && |cs| == |es|
    ensures forall i :: 0 <= i < |es| ==> ChunkOk(a, out.bytes, cs[i], es[i])
    ensures Laid(AllExtents(cs), |old(out.bytes)|, |out.bytes|)
    decreases es
  {
    cs := [];
    for i := 0 to |es|
      invariant old(out.bytes) <= out.bytes && |cs| == i
      invariant forall k :: 0 <= k < i ==> ChunkOk(a, out.bytes, cs[k], es[k])
      invariant Laid(AllExtents(cs), |old(out.bytes)|, |out.bytes|)
    {
      ghost var was := out.bytes;
      var c := WriteChunk(out, a, es[i], []);
      ChunksStay(a, was, out.bytes, cs, es[..i]);
      LaidChunkPush(cs, c, |old(out.bytes)|, |was|, |out.bytes|);
      cs := cs + [c];
    }
  }

  lemma ChunksStay(a: Libraries, bytes: seq<byte>, more: seq<byte>, cs: seq<Chunk>, es: seq<Encoded>)
    requires bytes <= more && |cs| == |es|
    requires forall k :: 0 <= k < |cs| ==> ChunkOk(a, bytes, cs[k], es[k])
    ensures forall k :: 0 <= k < |cs| ==> ChunkOk(a, more, cs[k], es[k])
  {
    forall k | 0 <= k < |cs|
      ensures ChunkOk(a, more, cs[k], es[k])
    {
      ChunkStays(a, bytes, more, cs[k], es[k]);
    }
  }

  lemma LaidChunkPush(cs: seq<Chunk>, c: Chunk, from: nat, mid: nat, to: nat)
    requires Laid(AllExtents(cs), from, mid) && Laid(Extents(c), mid, to)
    ensures Laid(AllExtents(cs + [c]), from, to)
  {
    AllExtentsPush(cs, c);
    LaidConcat(AllExtents(cs), Extents(c), from, mid, to);
  }

  lemma {:induction false} AllExtentsPush(cs: seq<Chunk>, c: Chunk)
    ensures AllExtents(cs + [c]) == AllExtents(cs) + Extents(c)
  {
    if cs == [] {
      assert ([] + [c])[1..] == [];
    } else {
      AllExtentsPush(cs[1..], c);
      assert (cs + [c])[1..] == cs[1..] + [c];
      Associates(Extents(cs[0]), AllExtents(cs[1..]), Extents(c));
    }
  }

  // ---- Reading a chunk ---------------------------------------------------------------------------

  function FirstOf(specs: seq<BufferSpec>, role: Role): Option<BufferSpec> {
    if specs == [] then None else if specs[0].role == role then Some(specs[0]) else FirstOf(specs[1..], role)
  }

  /** The validity buffer, if any, refused when it has fewer bits than there are rows. */
  function LoadNulls(a: Libraries, bytes: seq<byte>, c: Chunk): Option<Option<seq<byte>>> {
    var spec := FirstOf(c.buffers, Validity);
    if spec.None? then Some(None)
    else
      var buffer := Load(a, bytes, spec.value, c.packed);
      if buffer.None? || 8 * |buffer.value| < c.len then None else Some(Some(buffer.value))
  }

  function LoadData(a: Libraries, bytes: seq<byte>, specs: seq<BufferSpec>, packed: bool): Option<seq<seq<byte>>> {
    if specs == [] then Some([])
    else
      var rest := LoadData(a, bytes, specs[1..], packed);
      if !specs[0].role.Data? then rest
      else
        var first := Load(a, bytes, specs[0], packed);
        if first.None? || rest.None? then None else Some([first.value] + rest.value)
  }

  function Rebuild(a: Libraries, bytes: seq<byte>, c: Chunk): Option<ArrayData> {
    var nulls, data, children := LoadNulls(a, bytes, c), LoadData(a, bytes, c.buffers, c.packed), RebuildAll(a, bytes, c.children);
    if nulls.None? || data.None? || children.None? then None
    else Some(ArrayData(c.len, nulls.value, data.value, children.value))
  }

  function RebuildAll(a: Libraries, bytes: seq<byte>, cs: seq<Chunk>): Option<seq<ArrayData>> {
    if cs == [] then Some([])
    else
      var first, rest := Rebuild(a, bytes, cs[0]), RebuildAll(a, bytes, cs[1..]);
      if first.None? || rest.None? then None else Some([first.value] + rest.value)
  }

  /** The array a chunk was written from comes back whole, children and all. */
  lemma {:induction false} RebuildUndoesWrite(a: Libraries, bytes: seq<byte>, c: Chunk, e: Encoded)
    requires Sound(a) && WellFormed(e) && ChunkOk(a, bytes, c, e)
    ensures Rebuild(a, bytes, c) == Some(ArrayOf(e))
    decreases e, 0, 0
  {
    NullsComeBack(a, bytes, c.buffers, e.buffers, c.packed);
    DataComesBack(a, bytes, c.buffers, e.buffers, c.packed);
    ChildrenComeBack(a, bytes, c.children, e.children);
    BuildFrom(a, bytes, c, e);
  }

  lemma BuildFrom(a: Libraries, bytes: seq<byte>, c: Chunk, e: Encoded)
    requires c.len == e.len && (FirstValidity(e.buffers).Some? ==> 8 * |FirstValidity(e.buffers).value| >= e.len)
    requires NullsAre(a, bytes, c.buffers, e.buffers, c.packed)
    requires LoadData(a, bytes, c.buffers, c.packed) == Some(DataOf(e.buffers))
    requires RebuildAll(a, bytes, c.children) == Some(ArraysOf(e.children))
    ensures Rebuild(a, bytes, c) == Some(ArrayOf(e))
  {
  }

  /** The first null bitmap among the specs loads as the first among the buffers. */
  ghost predicate NullsAre(a: Libraries, bytes: seq<byte>, specs: seq<BufferSpec>, buffers: seq<(Role, seq<byte>)>, packed: bool) {
    match FirstOf(specs, Validity)
    case None => FirstValidity(buffers) == None
    case Some(spec) => FirstValidity(buffers).Some? && Load(a, bytes, spec, packed) == FirstValidity(buffers)
  }

  lemma {:induction false} ChildrenComeBack(a: Libraries, bytes: seq<byte>, cs: seq<Chunk>, es: seq<Encoded>)
    requires Sound(a) && |cs| == |es|
    requires forall i :: 0 <= i < |es| ==> WellFormed(es[i]) && ChunkOk(a, bytes, cs[i], es[i])
    ensures RebuildAll(a, bytes, cs) == Some(ArraysOf(es))
    decreases es, 1, |es|
  {
    if es != [] {
      RebuildUndoesWrite(a, bytes, cs[0], es[0]);
      ChildrenComeBack(a, bytes, cs[1..], es[1..]);
    }
  }

  lemma {:induction false} NullsComeBack(a: Libraries, bytes: seq<byte>, specs: seq<BufferSpec>,
                                         buffers: seq<(Role, seq<byte>)>, packed: bool)
    requires Sound(a) && BuffersOk(a, bytes, specs, buffers, packed)
    ensures NullsAre(a, bytes, specs, buffers, packed)
    decreases |specs|
  {
    if specs != [] {
      RestOk(a, bytes, specs, buffers, packed);
      if specs[0].role != Validity {
        NullsComeBack(a, bytes, specs[1..], if buffers == [] then [] else buffers[1..], packed);
      }
    }
  }

  lemma {:induction false} DataComesBack(a: Libraries, bytes: seq<byte>, specs: seq<BufferSpec>,
                                         buffers: seq<(Role, seq<byte>)>, packed: bool)
    requires Sound(a) && BuffersOk(a, bytes, specs, buffers, packed)
    ensures LoadData(a, bytes, specs, packed) == Some(DataOf(buffers))
    decreases |specs|
  {
    if specs != [] {
      var tail := if buffers == [] then [] else buffers[1..];
      RestOk(a, bytes, specs, buffers, packed);
      DataComesBack(a, bytes, specs[1..], tail, packed);
      DataStep(a, bytes, specs, buffers, tail, packed);
    }
  }

  lemma DataStep(a: Libraries, bytes: seq<byte>, specs: seq<BufferSpec>, buffers: seq<(Role, seq<byte>)>,
                 tail: seq<(Role, seq<byte>)>, packed: bool)
    requires specs != [] && tail == if buffers == [] then [] else buffers[1..]
    requires LoadData(a, bytes, specs[1..], packed) == Some(DataOf(tail))
    requires if buffers == [] then !specs[0].role.Data?
             else specs[0].role == buffers[0].0 && Load(a, bytes, specs[0], packed) == Some(buffers[0].1)
    ensures LoadData(a, bytes, specs, packed) == Some(DataOf(buffers))
  {
    if buffers != [] && !buffers[0].0.Data? {
      assert DataOf(buffers) == DataOf(tail);
    }
  }
}
