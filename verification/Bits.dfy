/** Machine words as numbers, with the bit operations that the filters use: or, and, shift, lowest bit. */
module Bits {

  function Pow2(n: nat): (r: nat)
    ensures r > 0
  {
    if n == 0 then 1 else 2 * Pow2(n - 1)
  }

  /** Bit `k` of a number, the least significant first. */
  predicate Bit(n: nat, k: nat)
    decreases k
  {
    if k == 0 then n % 2 == 1 else Bit(n / 2, k - 1)
  }

  function Or(a: nat, b: nat): nat
    decreases a
  {
    if a == 0 then b
    else 2 * Or(a / 2, b / 2) + (if a % 2 == 1 || b % 2 == 1 then 1 else 0)
  }

  function And(a: nat, b: nat): nat
    decreases a
  {
    if a == 0 then 0
    else 2 * And(a / 2, b / 2) + (if a % 2 == 1 && b % 2 == 1 then 1 else 0)
  }

  /** The number of zero bits below the lowest set one. */
  function TrailingZeros(n: nat): nat
    requires n > 0
    decreases n
  {
    if n % 2 == 1 then 0 else 1 + TrailingZeros(n / 2)
  }

  lemma {:induction false} ZeroHasNoBits(k: nat)
    ensures !Bit(0, k)
    decreases k
  {
    if k > 0 {
      ZeroHasNoBits(k - 1);
    }
  }

  lemma {:induction false} OrBits(a: nat, b: nat, k: nat)
    ensures Bit(Or(a, b), k) <==> Bit(a, k) || Bit(b, k)
    decreases k
  {
    if a == 0 {
      ZeroHasNoBits(k);
    } else if k > 0 {
      OrBits(a / 2, b / 2, k - 1);
    }
  }

  lemma {:induction false} AndBits(a: nat, b: nat, k: nat)
    ensures Bit(And(a, b), k) <==> Bit(a, k) && Bit(b, k)
    decreases k
  {
    if a == 0 {
      ZeroHasNoBits(k);
    } else if k > 0 {
      AndBits(a / 2, b / 2, k - 1);
    }
  }

  lemma {:induction false} Pow2Bits(n: nat, k: nat)
    ensures Bit(Pow2(n), k) <==> k == n
    decreases k
  {
    if k > 0 && n > 0 {
      Pow2Bits(n - 1, k - 1);
    } else if k > 0 {
      ZeroHasNoBits(k - 1);
    }
  }

  /** Only zero has no bits. */
  lemma {:induction false} NonzeroHasABit(n: nat)
    requires n > 0
    ensures Bit(n, TrailingZeros(n))
    ensures forall k: nat :: k < TrailingZeros(n) ==> !Bit(n, k)
    decreases n
  {
    if n % 2 == 0 {
      NonzeroHasABit(n / 2);
      forall k: nat | k < TrailingZeros(n)
        ensures !Bit(n, k)
      {
        assert k > 0 ==> Bit(n, k) == Bit(n / 2, k - 1);
      }
    }
  }

  /** A mask of one bit tests exactly that bit. */
  lemma TestBit(n: nat, k: nat)
    ensures And(n, Pow2(k)) != 0 <==> Bit(n, k)
  {
    AndBits(n, Pow2(k), k);
    Pow2Bits(k, k);
    ZeroHasNoBits(k);
    var m := And(n, Pow2(k));
    if m != 0 {
      NonzeroHasABit(m);
      AndBits(n, Pow2(k), TrailingZeros(m));
      Pow2Bits(k, TrailingZeros(m));
    }
  }

  /** Numbers below 2^w with the same `w` bits are equal. */
  lemma {:induction false} SameBits(a: nat, b: nat, w: nat)
    requires a < Pow2(w) && b < Pow2(w)
    requires forall k: nat :: k < w ==> Bit(a, k) == Bit(b, k)
    ensures a == b
    decreases w
  {
    if w > 0 {
      assert Bit(a, 0) == Bit(b, 0);
      forall k: nat | k < w - 1
        ensures Bit(a / 2, k) == Bit(b / 2, k)
      {
        assert Bit(a, k + 1) == Bit(b, k + 1);
      }
      SameBits(a / 2, b / 2, w - 1);
    }
  }

  lemma {:induction false} OrFits(a: nat, b: nat, w: nat)
    requires a < Pow2(w) && b < Pow2(w)
    ensures Or(a, b) < Pow2(w)
    decreases a
  {
    if a != 0 && w > 0 {
      OrFits(a / 2, b / 2, w - 1);
    }
  }

  lemma {:induction false} Pow2Below(k: nat, w: nat)
    requires k < w
    ensures Pow2(k) < Pow2(w)
    decreases w
  {
    if k < w - 1 {
      Pow2Below(k, w - 1);
    }
  }

  /** No bit at or above `w`. */
  lemma {:induction false} HighBitsClear(n: nat, w: nat, k: nat)
    requires n < Pow2(w) && k >= w
    ensures !Bit(n, k)
    decreases k
  {
    if w == 0 {
      ZeroHasNoBits(k);
    } else {
      HighBitsClear(n / 2, w - 1, k - 1);
    }
  }

  /** `n & (n - 1)` clears the lowest set bit and nothing else. */
  lemma {:induction false} ClearLowest(n: nat, k: nat)
    requires n > 0
    ensures Bit(And(n, n - 1), k) <==> Bit(n, k) && k != TrailingZeros(n)
    decreases n
  {
    AndBits(n, n - 1, k);
    if n % 2 == 1 {
      assert k > 0 ==> (n - 1) / 2 == n / 2;
    } else {
      ClearLowest(n / 2, if k > 0 then k - 1 else 0);
      if k > 0 {
        assert (n - 1) / 2 == n / 2 - 1;
        AndBits(n / 2, n / 2 - 1, k - 1);
      }
    }
  }

  lemma {:induction false} AndShrinks(a: nat, b: nat)
    ensures And(a, b) <= a && And(a, b) <= b
    decreases a
  {
    if a != 0 {
      AndShrinks(a / 2, b / 2);
    }
  }
}
