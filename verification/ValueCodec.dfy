/** Value codes: equal for equal values, and in the values' order. */
module ValueCodec {
  import opened Bits
  import opened Bytes
  import opened ByteOrder
  import opened Layout
  import opened Sequences

  const NULL_TAG: byte := 0
  const VALUE_TAG: byte := 1
  const ESCAPE: byte := 0
  const ESCAPED: byte := 255
  const TERMINATOR: byte := 0

  /** Column types, by what their encoding depends on. Dates, times and timestamps are signed integers. */
  datatype Type = Bool | Signed(width: nat) | Unsigned(width: nat) | Float(format: Format) | Text | Nested {
    predicate Ok() {
      match this
      case Signed(w) => w == 1 || w == 2 || w == 4 || w == 8
      case Unsigned(w) => w == 1 || w == 2 || w == 4 || w == 8
      case Float(f) => f == SINGLE || f == DOUBLE
      case _ => true
    }

    predicate Encodable() { !Nested? }
  }

  datatype Value = Null | BoolOf(b: bool) | IntOf(n: int) | FloatOf(bits: nat) | TextOf(bytes: seq<byte>) | NestedOf {
    predicate HasType(t: Type) {
      match this
      case Null => true
      case BoolOf(_) => t.Bool?
      case IntOf(n) =>
        || (t.Unsigned? && 0 <= n < Pow256(t.width))
        || (t.Signed? && t.width > 0 && 0 - Half(t.width) <= n < Half(t.width))
      case FloatOf(bits) => t.Float? && bits < t.format.Limit()
      case TextOf(_) => t.Text?
      case NestedOf => t.Nested?
    }
  }

  /** Half the range of a `w`-byte integer. */
  function Half(w: nat): (r: nat)
    requires w > 0
    ensures r + r == Pow256(w)
  {
    128 * Pow256(w - 1)
  }

  // ---- Floats ------------------------------------------------------------------------

  /** A binary interchange format: exponent and trailing significand widths, and its size in bytes. */
  datatype Format = Format(exponent: nat, significand: nat, width: nat) {
    function Unit(): (u: nat)
      ensures u > 0
    {
      Pow2(significand)
    }

    function Sign(): nat { Pow2(exponent + significand) }

    function Limit(): nat { 2 * Sign() }

    predicate Negative(bits: nat) { bits >= Sign() }

    /** The bits below the sign bit. */
    function Low(bits: nat): nat {
      if Negative(bits) then bits - Sign() else bits
    }

    /** What the bits below the sign stand for, counted in units of the smallest subnormal; infinity is past the rest. */
    function Magnitude(low: nat): nat {
      var u := Unit();
      DivMod(low, u);
      Scaled(u, low / u, low % u)
    }

    /**
     * The number the bits stand for, in the same units. Both zeros stand for 0.
     * A NaN stands for no number; it is placed beyond the infinity of its sign.
     */
    function Number(bits: nat): int {
      if Negative(bits) then 0 - Magnitude(Low(bits)) else Magnitude(Low(bits))
    }
  }

  /** A significand's value at biased exponent `e`; exponent zero has no implicit leading bit. */
  function Scaled(unit: nat, e: nat, trailing: nat): nat {
    if e == 0 then trailing else (unit + trailing) * Pow2(e - 1)
  }

  /** binary32 and binary64, clause 3.6 of IEEE 754-2008. */
  const SINGLE: Format := Format(8, 23, 4)
  const DOUBLE: Format := Format(11, 52, 8)

  /** A float's bits, turned so that unsigned order is the floats' order. */
  function OrderBits(f: Format, bits: nat): (r: nat)
    requires bits < f.Limit()
    ensures r < f.Limit()
  {
    var canonical := if f.Low(bits) == 0 then 0 else bits;
    if f.Negative(canonical) then f.Limit() - 1 - canonical else canonical + f.Sign()
  }

  lemma {:induction false} Pow2Grows(a: nat, b: nat)
    requires a <= b
    ensures Pow2(a) <= Pow2(b)
    decreases b
  {
    if a < b {
      Pow2Grows(a, b - 1);
    }
  }

  lemma {:induction false} Pow2Adds(a: nat, b: nat)
    ensures Pow2(a + b) == Pow2(a) * Pow2(b)
  {
    if a > 0 {
      Pow2Adds(a - 1, b);
      assert Pow2(a) * Pow2(b) == 2 * (Pow2(a - 1) * Pow2(b));
    }
  }

  lemma {:induction false} Pow2OfPow256(w: nat)
    ensures Pow2(8 * w) == Pow256(w)
  {
    if w > 0 {
      Pow2OfPow256(w - 1);
      Pow2Adds(8, 8 * (w - 1));
      assert Pow2(8) == 256 by {
        assert Pow2(4) == 16;
        Pow2Adds(4, 4);
      }
    }
  }

  /** Both formats fill their bytes exactly. */
  lemma FormatFits(f: Format)
    requires f == SINGLE || f == DOUBLE
    ensures f.Limit() == Pow256(f.width)
  {
    Pow2OfPow256(f.width);
    assert Pow2(f.exponent + f.significand + 1) == 2 * Pow2(f.exponent + f.significand);
  }

  lemma Product(a: nat, b: nat, c: nat, d: nat)
    ensures a <= b && c <= d ==> a * c <= b * d
  {
    if a <= b && c <= d {
      assert a * c <= b * c;
      assert b * c <= b * d;
    }
  }

  lemma Times(a: nat, b: nat, c: nat)
    requires a < b && c > 0
    ensures a * c < b * c
  {
  }

  lemma Twice(a: nat, b: nat, u: nat)
    requires b > 0 && a < u
    ensures (u + a) * b < u * (2 * b)
  {
    assert (u + a) * b < (u + u) * b by {
      Times(u + a, u + u, b);
    }
    assert (u + u) * b == u * (2 * b);
  }

  lemma ScaledGrows(u: nat, e: nat, g: nat, e2: nat, g2: nat)
    requires g < u && g2 < u
    requires e < e2 || (e == e2 && g < g2)
    ensures Scaled(u, e, g) < Scaled(u, e2, g2)
  {
    if e == e2 {
      if e > 0 {
        Times(u + g, u + g2, Pow2(e - 1));
      }
    } else {
      BelowNext(u, e, g);
      Pow2Grows(e, e2 - 1);
      Product(u, u + g2, Pow2(e), Pow2(e2 - 1));
    }
  }

  lemma BelowNext(u: nat, e: nat, g: nat)
    requires g < u
    ensures Scaled(u, e, g) < u * Pow2(e)
  {
    if e > 0 {
      Twice(g, Pow2(e - 1), u);
    } else {
      assert u * Pow2(0) == u;
    }
  }

  lemma DivMod(x: nat, u: nat)
    requires u > 0
    ensures x / u >= 0 && 0 <= x % u < u && x == u * (x / u) + x % u
  {
  }

  /** Larger low bits stand for a larger magnitude, across every exponent boundary and into infinity. */
  lemma MagnitudeGrows(f: Format, x: nat, y: nat)
    requires x < y
    ensures f.Magnitude(x) < f.Magnitude(y)
  {
    var u := f.Unit();
    DivMod(x, u);
    DivMod(y, u);
    DigitDecides(u, y / u, y % u, x / u, x % u);
    ScaledGrows(u, x / u, x % u, y / u, y % u);
  }

  lemma MagnitudeOrder(f: Format, x: nat, y: nat)
    ensures CompareInts(f.Magnitude(x), f.Magnitude(y)) == CompareInts(x, y)
  {
    if x < y {
      MagnitudeGrows(f, x, y);
    } else if y < x {
      MagnitudeGrows(f, y, x);
    }
  }

  lemma MagnitudeZero(f: Format, x: nat)
    ensures f.Magnitude(0) == 0
    ensures x > 0 ==> f.Magnitude(x) > 0
  {
    assert 0 / f.Unit() == 0 && 0 % f.Unit() == 0;
    MagnitudeOrder(f, 0, x);
  }

  /** The integer compares as the numbers do; the two zeros share one. */
  lemma OrderBitsOrder(f: Format, a: nat, b: nat)
    requires a < f.Limit() && b < f.Limit()
    ensures CompareInts(OrderBits(f, a), OrderBits(f, b)) == CompareInts(f.Number(a), f.Number(b))
  {
    MagnitudeOrder(f, f.Low(a), f.Low(b));
    MagnitudeZero(f, f.Low(a));
    MagnitudeZero(f, f.Low(b));
  }

  // ---- Encoding ------------------------------------------------------------------------

  /** Zeros escaped by a following 255, two zeros to end. */
  function Escape(s: seq<byte>): seq<byte> {
    if s == [] then [ESCAPE, TERMINATOR]
    else if s[0] == ESCAPE then [ESCAPE, ESCAPED] + Escape(s[1..])
    else [s[0]] + Escape(s[1..])
  }

  function Body(t: Type, v: Value): seq<byte>
    requires t.Ok() && t.Encodable() && v.HasType(t) && !v.Null?
  {
    match v
    case BoolOf(b) => [if b then 1 else 0]
    case IntOf(n) => if t.Signed? then Be(n + Half(t.width), t.width) else Be(n, t.width)
    case FloatOf(bits) =>
      FormatFits(t.format);
      Be(OrderBits(t.format, bits), t.format.width)
    case TextOf(bytes) => Escape(bytes)
  }

  function Code(t: Type, v: Value): seq<byte>
    requires t.Ok() && v.HasType(t) && (v.Null? || t.Encodable())
  {
    if v.Null? then [NULL_TAG] else [VALUE_TAG] + Body(t, v)
  }

  /** The order of the values themselves: null first, floats as numbers, text byte by byte. */
  function CompareValues(t: Type, v: Value, w: Value): Order
    requires t.Ok() && t.Encodable() && v.HasType(t) && w.HasType(t)
  {
    if v.Null? || w.Null? then
      (if v.Null? && w.Null? then Same else if v.Null? then Below else Above)
    else
      match v
      case BoolOf(b) => if b == w.b then Same else if w.b then Below else Above
      case IntOf(n) => CompareInts(n, w.n)
      case FloatOf(bits) => CompareInts(t.format.Number(bits), t.format.Number(w.bits))
      case TextOf(bytes) => Compare(bytes, w.bytes)
  }

  /** The terminator sorts below anything that can follow, so whatever comes next decides ties alone. */
  lemma {:induction false} EscapeOrder(a: seq<byte>, b: seq<byte>, p: seq<byte>, q: seq<byte>)
    ensures Compare(Escape(a) + p, Escape(b) + q) == Compare(a, b).Then(Compare(p, q))
  {
    if a != [] && b != [] && a[0] == b[0] {
      var head: seq<byte> := if a[0] == ESCAPE then [ESCAPE, ESCAPED] else [a[0]];
      EscapeOrder(a[1..], b[1..], p, q);
      SharedHead(head, Escape(a[1..]), p, Escape(b[1..]), q);
    } else if a == [] && b == [] {
      CompareAfter([ESCAPE, TERMINATOR], p, q);
    } else {
      EscapeHead(a, p);
      EscapeHead(b, q);
      TwoBytesDecide(Escape(a) + p, Escape(b) + q);
    }
  }

  lemma SharedHead(head: seq<byte>, a: seq<byte>, p: seq<byte>, b: seq<byte>, q: seq<byte>)
    ensures Compare(head + a + p, head + b + q) == Compare(a + p, b + q)
  {
    CompareAfter(head, a + p, b + q);
    Associates(head, a, p);
    Associates(head, b, q);
  }

  lemma TwoBytesDecide(x: seq<byte>, y: seq<byte>)
    requires |x| >= 2 && |y| >= 2 && (x[0] != y[0] || x[1] != y[1])
    ensures Compare(x, y) == CompareInts(x[0], y[0]).Then(CompareInts(x[1], y[1]))
  {
    assert x[1..][0] == x[1] && y[1..][0] == y[1];
  }

  /** How an escaped value begins: with its first byte, and after a zero with the escape or the end. */
  lemma EscapeHead(a: seq<byte>, p: seq<byte>)
    ensures var e := Escape(a) + p;
            && |e| >= 2
            && e[0] == (if a == [] then ESCAPE else a[0])
            && (a == [] ==> e[1] == TERMINATOR)
            && (a != [] && a[0] == ESCAPE ==> e[1] == ESCAPED)
  {
    if a != [] && a[0] != ESCAPE {
      EscapeHead(a[1..], []);
    }
  }

  lemma BodyOrder(t: Type, v: Value, w: Value, p: seq<byte>, q: seq<byte>)
    requires t.Ok() && t.Encodable() && v.HasType(t) && w.HasType(t) && !v.Null? && !w.Null?
    ensures Compare(Body(t, v) + p, Body(t, w) + q) == CompareValues(t, v, w).Then(Compare(p, q))
  {
    if v.TextOf? {
      EscapeOrder(v.bytes, w.bytes, p, q);
    } else {
      FixedBodyOrder(t, v, w);
      CompareFixed(Body(t, v), Body(t, w), p, q);
    }
  }

  lemma FixedBodyOrder(t: Type, v: Value, w: Value)
    requires t.Ok() && t.Encodable() && v.HasType(t) && w.HasType(t) && !v.Null? && !w.Null? && !v.TextOf?
    ensures |Body(t, v)| == |Body(t, w)|
    ensures Compare(Body(t, v), Body(t, w)) == CompareValues(t, v, w)
  {
    match v
    case BoolOf(_) =>
    case IntOf(n) => IntOrder(t, n, w.n);
    case FloatOf(bits) => FloatOrder(t.format, bits, w.bits);
  }

  lemma IntOrder(t: Type, a: int, b: int)
    requires t.Ok() && IntOf(a).HasType(t) && IntOf(b).HasType(t)
    ensures |Body(t, IntOf(a))| == |Body(t, IntOf(b))|
    ensures Compare(Body(t, IntOf(a)), Body(t, IntOf(b))) == CompareInts(a, b)
  {
    if t.Signed? {
      BeOrder(a + Half(t.width), b + Half(t.width), t.width);
    } else {
      BeOrder(a, b, t.width);
    }
  }

  lemma FloatOrder(f: Format, a: nat, b: nat)
    requires (f == SINGLE || f == DOUBLE) && a < f.Limit() && b < f.Limit()
    ensures f.Limit() == Pow256(f.width) &&
            Compare(Be(OrderBits(f, a), f.width), Be(OrderBits(f, b), f.width)) == CompareInts(f.Number(a), f.Number(b))
  {
    FormatFits(f);
    BeOrder(OrderBits(f, a), OrderBits(f, b), f.width);
    OrderBitsOrder(f, a, b);
  }

  /** A value's code decides the order of anything it begins; equal values leave it to what follows. */
  lemma ValueOrder(t: Type, v: Value, w: Value, p: seq<byte>, q: seq<byte>)
    requires t.Ok() && t.Encodable() && v.HasType(t) && w.HasType(t)
    ensures Compare(Code(t, v) + p, Code(t, w) + q) == CompareValues(t, v, w).Then(Compare(p, q))
  {
    if v.Null? && w.Null? {
      CompareAfter([NULL_TAG], p, q);
    } else if v.Null? || w.Null? {
    } else {
      BodyOrder(t, v, w, p, q);
      SharedHead([VALUE_TAG], Body(t, v), p, Body(t, w), q);
    }
  }

  /** One value, one code: two values of a type share a code exactly when they are equal. */
  lemma CodesAreCanonical(t: Type, v: Value, w: Value)
    requires t.Ok() && t.Encodable() && v.HasType(t) && w.HasType(t)
    ensures Code(t, v) == Code(t, w) <==> CompareValues(t, v, w) == Same
    ensures Compare(Code(t, v), Code(t, w)) == CompareValues(t, v, w)
  {
    ValueOrder(t, v, w, [], []);
    assert Code(t, v) + [] == Code(t, v) && Code(t, w) + [] == Code(t, w);
    SameIsEqual(Code(t, v), Code(t, w));
  }

  /** No code is a proper prefix of another of the same type. */
  lemma CodesArePrefixFree(t: Type, v: Value, w: Value)
    requires t.Ok() && t.Encodable() && v.HasType(t) && w.HasType(t)
    requires Code(t, v) <= Code(t, w)
    ensures Code(t, v) == Code(t, w)
  {
    var a, b := Code(t, v), Code(t, w);
    var rest := b[|a|..];
    assert a + rest == b && b + [] == b;
    // were the values unequal, their codes would differ before either one ends
    ValueOrder(t, v, w, rest, []);
    ValueOrder(t, w, v, [], rest);
    SameIsEqual(b, b);
    CompareFlips(t, v, w);
    CodesAreCanonical(t, v, w);
  }

  lemma CompareFlips(t: Type, v: Value, w: Value)
    requires t.Ok() && t.Encodable() && v.HasType(t) && w.HasType(t)
    ensures CompareValues(t, v, w) == Below <==> CompareValues(t, w, v) == Above
  {
    if v.TextOf? && w.TextOf? {
      CompareFlip(v.bytes, w.bytes);
    }
  }

  // ---- Rows ----------------------------------------------------------------------------

  predicate RowOk(types: seq<Type>, row: seq<Value>) {
    && |types| == |row|
    && forall i :: 0 <= i < |types| ==> types[i].Ok() && types[i].Encodable() && row[i].HasType(types[i])
  }

  /** The codes of a row's columns. */
  function Codes(types: seq<Type>, row: seq<Value>): (r: seq<seq<byte>>)
    requires RowOk(types, row)
    ensures |r| == |types|
  {
    seq(|types|, i requires 0 <= i < |types| => Code(types[i], row[i]))
  }

  function Concat(codes: seq<seq<byte>>): seq<byte> {
    if codes == [] then [] else codes[0] + Concat(codes[1..])
  }

  function RowKey(types: seq<Type>, row: seq<Value>): seq<byte>
    requires RowOk(types, row)
  {
    Concat(Codes(types, row))
  }

  lemma {:induction false} ConcatPush(codes: seq<seq<byte>>, code: seq<byte>)
    ensures Concat(codes + [code]) == Concat(codes) + code
  {
    if codes == [] {
      assert ([] + [code])[1..] == [];
    } else {
      ConcatPush(codes[1..], code);
      assert (codes + [code])[1..] == codes[1..] + [code];
      Associates(codes[0], Concat(codes[1..]), code);
    }
  }

  /** Column by column, the first difference deciding. */
  function CompareRows(types: seq<Type>, a: seq<Value>, b: seq<Value>): Order
    requires RowOk(types, a) && RowOk(types, b)
  {
    if types == [] then Same
    else CompareValues(types[0], a[0], b[0]).Then(CompareRows(types[1..], a[1..], b[1..]))
  }

  /** The key of a row sorts as the row does, for every list of columns. */
  lemma {:induction false} RowOrder(types: seq<Type>, a: seq<Value>, b: seq<Value>)
    requires RowOk(types, a) && RowOk(types, b)
    ensures Compare(RowKey(types, a), RowKey(types, b)) == CompareRows(types, a, b)
  {
    if types != [] {
      RowOrder(types[1..], a[1..], b[1..]);
      assert Codes(types, a)[1..] == Codes(types[1..], a[1..]);
      assert Codes(types, b)[1..] == Codes(types[1..], b[1..]);
      ValueOrder(types[0], a[0], b[0], RowKey(types[1..], a[1..]), RowKey(types[1..], b[1..]));
    }
  }

  /** Rows share a key exactly when they agree in every column. */
  lemma RowKeysAreCanonical(types: seq<Type>, a: seq<Value>, b: seq<Value>)
    requires RowOk(types, a) && RowOk(types, b)
    ensures RowKey(types, a) == RowKey(types, b) <==> CompareRows(types, a, b) == Same
  {
    RowOrder(types, a, b);
    SameIsEqual(RowKey(types, a), RowKey(types, b));
  }

  // ---- The buffer a key is built in -------------------------------------------------------

  class KeyBuffer {
    var out: seq<byte>

    constructor ()
      ensures out == []
    {
      out := [];
    }

    method EncodeBytes(bytes: seq<byte>)
      modifies this
      ensures out == old(out) + Escape(bytes)
    {
      for i := 0 to |bytes|
        invariant out + Escape(bytes[i..]) == old(out) + Escape(bytes)
      {
        assert bytes[i..][1..] == bytes[i + 1..];
        out := out + [bytes[i]];
        if bytes[i] == ESCAPE {
          out := out + [ESCAPED];
        }
      }
      out := out + [ESCAPE];
      out := out + [TERMINATOR];
    }

    /** Append one value. A type without a code is refused, unless the value is null. */
    method EncodeValue(t: Type, v: Value) returns (ok: bool)
      requires t.Ok() && v.HasType(t)
      modifies this
      ensures ok <==> v.Null? || t.Encodable()
      ensures ok ==> out == old(out) + Code(t, v)
      ensures !ok ==> out == old(out) + [VALUE_TAG]
    {
      if v.Null? {
        out := out + [NULL_TAG];
        return true;
      }
      out := out + [VALUE_TAG];
      ok := t.Encodable();
      if ok {
        AppendBody(t, v);
      }
    }

    method AppendBody(t: Type, v: Value)
      requires t.Ok() && t.Encodable() && v.HasType(t) && !v.Null?
      modifies this
      ensures out == old(out) + Body(t, v)
    {
      match v
      case BoolOf(b) => out := out + [if b then 1 else 0];
      case IntOf(n) =>
        if t.Signed? {
          // adding 2^63 modulo 2^64 keeps the order of the signed range
          out := out + Be(n + Half(t.width), t.width);
        } else {
          out := out + Be(n, t.width);
        }
      case FloatOf(bits) =>
        FormatFits(t.format);
        out := out + Be(OrderBits(t.format, bits), t.format.width);
      case TextOf(bytes) => EncodeBytes(bytes);
    }

    /** Append a row's columns in turn, stopping at the first that has no code. */
    method EncodeRow(types: seq<Type>, row: seq<Value>) returns (ok: bool)
      requires Typed(types, row)
      modifies this
      ensures ok <==> KeyOf(types, row, |types|).Some?
      ensures ok ==> out == old(out) + KeyOf(types, row, |types|).value
    {
      for i := 0 to |types|
        invariant KeyOf(types, row, i).Some? && out == old(out) + KeyOf(types, row, i).value
      {
        ok := EncodeColumn(types, row, i);
        if !ok {
          NoKeyAfter(types, row, i, |types|);
          return;
        }
        Associates(old(out), KeyOf(types, row, i).value, CodeAt(types, row, i).value);
      }
      ok := true;
    }

    method EncodeColumn(types: seq<Type>, row: seq<Value>, i: nat) returns (ok: bool)
      requires Typed(types, row) && i < |types|
      modifies this
      ensures ok <==> CodeAt(types, row, i).Some?
      ensures ok ==> out == old(out) + CodeAt(types, row, i).value
    {
      ok := EncodeValue(types[i], row[i]);
    }
  }

  predicate Typed(types: seq<Type>, row: seq<Value>) {
    |types| == |row| && forall i :: 0 <= i < |types| ==> types[i].Ok() && row[i].HasType(types[i])
  }

  /** A column's code; null has one in every type, anything else in an encodable type only. */
  ghost function CodeAt(types: seq<Type>, row: seq<Value>, i: nat): Option<seq<byte>>
    requires Typed(types, row) && i < |types|
  {
    if row[i].Null? || types[i].Encodable() then Some(Code(types[i], row[i])) else None
  }

  /** The joined codes of `n` columns, unless one has none. */
  ghost function KeyOf(types: seq<Type>, row: seq<Value>, n: nat): Option<seq<byte>>
    requires Typed(types, row) && n <= |types|
  {
    if n == 0 then Some([])
    else if KeyOf(types, row, n - 1).Some? && CodeAt(types, row, n - 1).Some?
    then Some(KeyOf(types, row, n - 1).value + CodeAt(types, row, n - 1).value)
    else None
  }

  lemma {:induction false} NoKeyAfter(types: seq<Type>, row: seq<Value>, i: nat, n: nat)
    requires Typed(types, row) && i < n <= |types| && CodeAt(types, row, i).None?
    ensures KeyOf(types, row, n).None?
  {
    if i < n - 1 {
      NoKeyAfter(types, row, i, n - 1);
    }
  }

  lemma {:induction false} KeyPrefix(types: seq<Type>, row: seq<Value>, n: nat)
    requires RowOk(types, row) && n <= |types|
    ensures KeyOf(types, row, n) == Some(Concat(Codes(types, row)[..n]))
  {
    var codes := Codes(types, row);
    if n > 0 {
      KeyPrefix(types, row, n - 1);
      ConcatPush(codes[..n - 1], codes[n - 1]);
      assert codes[..n] == codes[..n - 1] + [codes[n - 1]];
    }
  }

  /** A row of encodable columns always gets a key, and it is the one whose order is proved above. */
  lemma KeyIsRowKey(types: seq<Type>, row: seq<Value>)
    requires RowOk(types, row)
    ensures KeyOf(types, row, |types|) == Some(RowKey(types, row))
  {
    KeyPrefix(types, row, |types|);
    assert Codes(types, row)[..|types|] == Codes(types, row);
  }
}
