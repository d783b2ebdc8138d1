/** Integer facts behind the multiply-to-shift rewrite: the bit test the pass uses to
    recognise a power of two, and the base-2 logarithm that becomes the shift amount. */
module PowerOfTwo {

  /** 2 to the power k. */
  function Pow2(k: nat): (r: nat)
    ensures r >= 1
  {
    if k == 0 then 1 else 2 * Pow2(k - 1)
  }

  /** Bitwise AND of two non-negative integers, one bit at a time from the least
      significant end. On non-negative 64-bit operands this is what `&` computes. */
  function BitAnd(a: nat, b: nat): (r: nat)
    ensures r <= a && r <= b
  {
    if a == 0 || b == 0 then 0
    else 2 * BitAnd(a / 2, b / 2) + (if a % 2 == 1 && b % 2 == 1 then 1 else 0)
  }

  /** v is one of 1, 2, 4, 8, ... */
  predicate IsPow2(v: int)
    decreases if v > 0 then v else 0
  {
    v == 1 || (v >= 2 && v % 2 == 0 && IsPow2(v / 2))
  }

  /** The floor of the base-2 logarithm of a positive integer: what Log2_64 returns
      for a positive argument (63 minus the count of leading zero bits). */
  function Log2(v: int): (k: nat)
    requires v >= 1
    ensures Pow2(k) <= v < Pow2(k + 1)
  {
    if v == 1 then 0 else 1 + Log2(v / 2)
  }

  lemma {:induction false} BitAndSelf(m: nat)
    ensures BitAnd(m, m) == m
  {
    if m > 0 {
      BitAndSelf(m / 2);
    }
  }

  /** The test `v > 0 && (v & (v - 1)) == 0` accepts exactly the powers of two. */
  lemma {:induction false} PowerOfTwoTest(v: int)
    requires v >= 1
    ensures BitAnd(v, v - 1) == 0 <==> IsPow2(v)
  {
    if v >= 2 {
      if v % 2 == 0 {
        assert (v - 1) / 2 == v / 2 - 1;
        PowerOfTwoTest(v / 2);
      } else {
        assert (v - 1) / 2 == v / 2;
        BitAndSelf(v / 2);
      }
    }
  }

  lemma {:induction false} Pow2Monotone(a: nat, b: nat)
    requires a <= b
    ensures Pow2(a) <= Pow2(b)
  {
    if a < b {
      Pow2Monotone(a, b - 1);
    }
  }

  lemma {:induction false} Pow2Exceeds(k: nat)
    ensures k < Pow2(k)
  {
    if k > 0 {
      Pow2Exceeds(k - 1);
    }
  }

  /** A power of two is 2 raised to its logarithm, and nothing else is. */
  lemma {:induction false} Log2Exact(v: int)
    ensures IsPow2(v) <==> v >= 1 && Pow2(Log2(v)) == v
  {
    if v >= 2 {
      Log2Exact(v / 2);
      if v % 2 == 1 {
        assert Pow2(Log2(v)) == 2 * Pow2(Log2(v / 2));
      }
    }
  }

  /** Logarithm and power are inverse: Log2(2^k) == k. */
  lemma {:induction false} Log2OfPow2(k: nat)
    ensures IsPow2(Pow2(k)) && Log2(Pow2(k)) == k
  {
    if k > 0 {
      Log2OfPow2(k - 1);
      assert Pow2(k) / 2 == Pow2(k - 1);
    }
  }

  /** The recursive definition agrees with "some power 2^k". */
  lemma IsPow2Iff(v: int)
    ensures IsPow2(v) <==> exists k: nat :: Pow2(k) == v
  {
    Log2Exact(v);
    if exists k: nat :: Pow2(k) == v {
      var k: nat :| Pow2(k) == v;
      Log2OfPow2(k);
    }
  }
}
