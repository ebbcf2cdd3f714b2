/** Byte strings in `memcmp` order, big-endian integers, and bounds on prefixes. */
module ByteOrder {
  import opened Bytes
  import opened Layout

  datatype Order = Below | Same | Above {
    /** This order, or the other one where this is a tie. */
    function Then(o: Order): Order {
      if Same? then o else this
    }
  }

  function CompareInts(a: int, b: int): Order {
    if a < b then Below else if a > b then Above else Same
  }

  /** Byte by byte, a proper prefix first. */
  function Compare(a: seq<byte>, b: seq<byte>): Order {
    if a == [] && b == [] then Same
    else if a == [] then Below
    else if b == [] then Above
    else CompareInts(a[0], b[0]).Then(Compare(a[1..], b[1..]))
  }

  lemma {:induction false} CompareSelf(a: seq<byte>)
    ensures Compare(a, a) == Same
  {
    if a != [] {
      CompareSelf(a[1..]);
    }
  }

  /** Only equal strings tie. */
  lemma {:induction false} SameIsEqual(a: seq<byte>, b: seq<byte>)
    ensures Compare(a, b) == Same <==> a == b
  {
    if a != [] && b != [] {
      SameIsEqual(a[1..], b[1..]);
      assert a == [a[0]] + a[1..] && b == [b[0]] + b[1..];
    }
  }

  lemma {:induction false} CompareFlip(a: seq<byte>, b: seq<byte>)
    ensures Compare(a, b) == Below <==> Compare(b, a) == Above
  {
    if a != [] && b != [] {
      CompareFlip(a[1..], b[1..]);
    }
  }

  lemma {:induction false} CompareTransitive(a: seq<byte>, b: seq<byte>, c: seq<byte>)
    requires Compare(a, b) != Above && Compare(b, c) != Above
    ensures Compare(a, c) != Above
    ensures Compare(a, c) == Same ==> Compare(a, b) == Same && Compare(b, c) == Same
  {
    if a != [] && b != [] && c != [] && a[0] == b[0] == c[0] {
      CompareTransitive(a[1..], b[1..], c[1..]);
    }
  }

  /** A shared head does not matter. */
  lemma {:induction false} CompareAfter(head: seq<byte>, a: seq<byte>, b: seq<byte>)
    ensures Compare(head + a, head + b) == Compare(a, b)
  {
    if head == [] {
      assert head + a == a && head + b == b;
    } else {
      CompareAfter(head[1..], a, b);
      assert (head + a)[1..] == head[1..] + a && (head + b)[1..] == head[1..] + b;
    }
  }

  /** A string's prefix never sorts above it. */
  lemma {:induction false} PrefixNotAbove(p: seq<byte>, s: seq<byte>)
    requires p <= s
    ensures Compare(p, s) != Above
  {
    if p != [] {
      PrefixNotAbove(p[1..], s[1..]);
    }
  }

  /** Strings of equal length decide before anything that follows them does. */
  lemma {:induction false} CompareFixed(a: seq<byte>, b: seq<byte>, p: seq<byte>, q: seq<byte>)
    requires |a| == |b|
    ensures Compare(a + p, b + q) == Compare(a, b).Then(Compare(p, q))
  {
    if a == [] {
      assert a + p == p && b + q == q;
    } else {
      CompareFixed(a[1..], b[1..], p, q);
      assert (a + p)[1..] == a[1..] + p && (b + q)[1..] == b[1..] + q;
    }
  }

  // ---- Big-endian integers ---------------------------------------------------------

  /** `n` in `w` bytes, most significant first. */
  function Be(n: nat, w: nat): (r: seq<byte>)
    requires n < Pow256(w)
    ensures |r| == w
  {
    if w == 0 then [] else Be(n / 256, w - 1) + [n % 256]
  }

  /** Big-endian bytes compare as the integers do. */
  lemma {:induction false} BeOrder(a: nat, b: nat, w: nat)
    requires a < Pow256(w) && b < Pow256(w)
    ensures Compare(Be(a, w), Be(b, w)) == CompareInts(a, b)
  {
    if w > 0 {
      BeOrder(a / 256, b / 256, w - 1);
      var x: seq<byte>, y: seq<byte> := [a % 256], [b % 256];
      CompareFixed(Be(a / 256, w - 1), Be(b / 256, w - 1), x, y);
      assert Compare(x, y) == CompareInts(a % 256, b % 256);
    }
  }

  lemma Scale(p: nat, a: int, b: int)
    ensures a <= b ==> p * a <= p * b
  {
  }

  lemma DigitDecides(p: nat, x: nat, r: nat, y: nat, s: nat)
    requires r < p && s < p
    ensures x < y ==> p * x + r < p * y + s
    ensures x > y ==> p * x + r > p * y + s
  {
    if x < y {
      Scale(p, x + 1, y);
      assert p * (x + 1) == p * x + p;
    } else if x > y {
      Scale(p, y + 1, x);
      assert p * (y + 1) == p * y + p;
    }
  }

  // ---- Rounding a prefix up ---------------------------------------------------------

  predicate AllOnes(s: seq<byte>) {
    forall i :: 0 <= i < |s| ==> s[i] == 255
  }

  /** The prefix with its trailing 0xff run dropped and the byte before it raised. */
  function RoundUp(prefix: seq<byte>): Option<seq<byte>> {
    if prefix == [] then None
    else if prefix[|prefix| - 1] < 255 then Some(prefix[..|prefix| - 1] + [prefix[|prefix| - 1] + 1])
    else RoundUp(prefix[..|prefix| - 1])
  }

  lemma {:induction false} RoundUpFront(prefix: seq<byte>)
    requires prefix != []
    ensures RoundUp(prefix) ==
            (match RoundUp(prefix[1..])
             case Some(b) => Some([prefix[0]] + b)
             case None => if prefix[0] < 255 then Some([prefix[0] + 1]) else None)
  {
    var n := |prefix| - 1;
    if n == 0 {
      assert prefix[..0] == [] && prefix[1..] == [];
      if prefix[0] < 255 {
        var last: seq<byte> := [prefix[0] + 1];
        assert prefix[..0] + last == last;
      }
    } else if prefix[n] < 255 {
      assert prefix[..n] == [prefix[0]] + prefix[1..][..n - 1];
      var last := [prefix[n] + 1];
      assert prefix[..n] + last == [prefix[0]] + (prefix[1..][..n - 1] + last);
    } else {
      RoundUpFront(prefix[..n]);
      assert prefix[1..][n - 1] == prefix[n];
      assert prefix[..n][1..] == prefix[1..][..n - 1];
    }
  }

  lemma {:induction false} NoBoundIff(prefix: seq<byte>)
    ensures RoundUp(prefix) == None <==> AllOnes(prefix)
  {
    if prefix != [] {
      NoBoundIff(prefix[..|prefix| - 1]);
    }
  }

  /**
   * The bound is exact: a string starts with the prefix if and only if it lies
   * in [prefix, bound), or above the prefix when there is no bound.
   */
  lemma {:induction false} BoundIsExact(prefix: seq<byte>, s: seq<byte>)
    ensures prefix <= s
       <==> && Compare(prefix, s) != Above
            && (RoundUp(prefix).Some? ==> Compare(s, RoundUp(prefix).value) == Below)
  {
    if prefix == [] {
    } else if s != [] {
      RoundUpFront(prefix);
      BoundIsExact(prefix[1..], s[1..]);
      assert prefix == [prefix[0]] + prefix[1..] && s == [s[0]] + s[1..];
      assert prefix <= s <==> prefix[0] == s[0] && prefix[1..] <= s[1..];
      var up := RoundUp(prefix[1..]);
      if up.Some? {
        assert ([prefix[0]] + up.value)[1..] == up.value;
      } else if prefix[0] < 255 {
        assert [prefix[0] + 1][1..] == [];
      }
    }
  }

  /** And least: below it there is no other such bound. */
  lemma BoundIsLeast(prefix: seq<byte>, c: seq<byte>)
    requires forall s :: prefix <= s ==> Compare(s, c) == Below
    ensures RoundUp(prefix).Some? && Compare(RoundUp(prefix).value, c) != Above
  {
    BoundIsExact(prefix, c);
    CompareSelf(c);
    if RoundUp(prefix).Some? {
      CompareFlip(c, RoundUp(prefix).value);
      CompareFlip(RoundUp(prefix).value, c);
    }
  }

  /** The loop both callers of the bound share. */
  method PrefixUpperBound(prefix: seq<byte>) returns (bound: Option<seq<byte>>)
    ensures bound == RoundUp(prefix)
    ensures bound.None? <==> AllOnes(prefix)
  {
    NoBoundIff(prefix);
    var out := prefix;
    while out != []
      invariant RoundUp(out) == RoundUp(prefix)
      decreases |out|
    {
      var last := |out| - 1;
      if out[last] < 255 {
        assert out[last := out[last] + 1] == out[..last] + [out[last] + 1];
        return Some(out[last := out[last] + 1]);
      }
      out := out[..last];
    }
    bound := None;
  }
}
