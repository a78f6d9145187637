/**
 Bitwise arithmetic on non-negative integers of any size, as Python has it.
 */
module Bits {

  function Pow2(k: nat): (p: nat)
    ensures p > 0
  {
    if k == 0 then 1 else 2 * Pow2(k - 1)
  }

  /** Bit `k` of `x`. */
  predicate Bit(x: nat, k: nat)
  {
    if k == 0 then x % 2 == 1 else Bit(x / 2, k - 1)
  }

  function BitOr(x: nat, y: nat): nat
  {
    if x == 0 then y else if y == 0 then x
    else 2 * BitOr(x / 2, y / 2) + (if x % 2 == 1 || y % 2 == 1 then 1 else 0)
  }

  function BitAnd(x: nat, y: nat): nat
  {
    if x == 0 || y == 0 then 0
    else 2 * BitAnd(x / 2, y / 2) + (if x % 2 == 1 && y % 2 == 1 then 1 else 0)
  }

  lemma {:induction false} ZeroHasNoBits(k: nat)
    ensures !Bit(0, k)
  {
    if k > 0 { ZeroHasNoBits(k - 1); }
  }

  lemma {:induction false} BitOfOr(x: nat, y: nat, k: nat)
    ensures Bit(BitOr(x, y), k) <==> Bit(x, k) || Bit(y, k)
    decreases x
  {
    ZeroHasNoBits(k);
    if x != 0 && y != 0 && k > 0 {
      BitOfOr(x / 2, y / 2, k - 1);
      assert BitOr(x, y) / 2 == BitOr(x / 2, y / 2);
    }
  }

  lemma {:induction false} BitOfAnd(x: nat, y: nat, k: nat)
    ensures Bit(BitAnd(x, y), k) <==> Bit(x, k) && Bit(y, k)
    decreases x
  {
    ZeroHasNoBits(k);
    if x != 0 && y != 0 && k > 0 {
      BitOfAnd(x / 2, y / 2, k - 1);
      assert BitAnd(x, y) / 2 == BitAnd(x / 2, y / 2);
    }
  }

  lemma {:induction false} BitOfPow2(k: nat, j: nat)
    ensures Bit(Pow2(k), j) <==> j == k
  {
    if k == 0 {
      if j > 0 { ZeroHasNoBits(j - 1); }
    } else if j > 0 {
      assert Pow2(k) / 2 == Pow2(k - 1);
      BitOfPow2(k - 1, j - 1);
    }
  }

  /** Numbers with the same bits are equal. */
  lemma {:induction false} SameBits(x: nat, y: nat)
    requires forall k: nat :: Bit(x, k) <==> Bit(y, k)
    ensures x == y
    decreases x + y
  {
    assert Bit(x, 0) <==> Bit(y, 0);
    if x + y > 0 {
      forall k: nat ensures Bit(x / 2, k) <==> Bit(y / 2, k) {
        assert Bit(x, k + 1) <==> Bit(y, k + 1);
      }
      SameBits(x / 2, y / 2);
    }
  }

  lemma {:induction false} NonZeroHasBit(x: nat)
    requires x > 0
    ensures exists k: nat :: Bit(x, k)
  {
    if x % 2 == 1 {
      assert Bit(x, 0);
    } else {
      NonZeroHasBit(x / 2);
      var k: nat :| Bit(x / 2, k);
      assert Bit(x, k + 1);
    }
  }

  /** A number below 2^n has no bit from `n` on, and conversely. */
  lemma {:induction false} BitBelow(x: nat, n: nat, k: nat)
    requires x < Pow2(n) && Bit(x, k)
    ensures k < n
  {
    if n == 0 {
      ZeroHasNoBits(k);
    } else if k > 0 {
      BitBelow(x / 2, n - 1, k - 1);
    }
  }

  lemma {:induction false} HighBit(x: nat, n: nat)
    requires x >= Pow2(n)
    ensures exists k: nat :: Bit(x, k) && k >= n
  {
    if n == 0 {
      NonZeroHasBit(x);
    } else {
      HighBit(x / 2, n - 1);
      var k: nat :| Bit(x / 2, k) && k >= n - 1;
      assert Bit(x, k + 1);
    }
  }

  /** Every bit of `m` is set in `x`. */
  ghost predicate Includes(x: nat, m: nat)
  {
    forall k: nat :: Bit(m, k) ==> Bit(x, k)
  }

  /** The test every filter is made of. */
  lemma AndIsSubset(x: nat, m: nat)
    ensures BitAnd(x, m) == m <==> Includes(x, m)
  {
    forall k: nat ensures Bit(BitAnd(x, m), k) <==> Bit(x, k) && Bit(m, k) {
      BitOfAnd(x, m, k);
    }
    if Includes(x, m) {
      SameBits(BitAnd(x, m), m);
    }
  }

  /** `m & (1 << k)` is non-zero exactly when bit `k` is set. */
  lemma AndPow2(m: nat, k: nat)
    ensures BitAnd(m, Pow2(k)) != 0 <==> Bit(m, k)
  {
    BitOfAnd(m, Pow2(k), k);
    BitOfPow2(k, k);
    ZeroHasNoBits(k);
    if BitAnd(m, Pow2(k)) != 0 {
      NonZeroHasBit(BitAnd(m, Pow2(k)));
      var j: nat :| Bit(BitAnd(m, Pow2(k)), j);
      BitOfAnd(m, Pow2(k), j);
      BitOfPow2(k, j);
    }
  }

  // ----- counting

  /** How many numbers below `n` have bit `k`. */
  function CountWithBit(n: nat, k: nat): nat
  {
    if n == 0 then 0 else CountWithBit(n - 1, k) + (if Bit(n - 1, k) then 1 else 0)
  }

  lemma {:induction false} CountLowBit(n: nat)
    ensures CountWithBit(2 * n, 0) == n
  {
    if n > 0 {
      CountLowBit(n - 1);
      assert CountWithBit(2 * n, 0) == CountWithBit(2 * n - 1, 0) + 1;
      assert CountWithBit(2 * n - 1, 0) == CountWithBit(2 * n - 2, 0);
    }
  }

  lemma {:induction false} CountHighBit(n: nat, k: nat)
    requires k > 0
    ensures CountWithBit(2 * n, k) == 2 * CountWithBit(n, k - 1)
  {
    if n > 0 {
      CountHighBit(n - 1, k);
      var b := if Bit(n - 1, k - 1) then 1 else 0;
      assert (2 * n - 1) / 2 == n - 1 && (2 * n - 2) / 2 == n - 1;
      assert CountWithBit(2 * n, k) == CountWithBit(2 * n - 1, k) + b;
      assert CountWithBit(2 * n - 1, k) == CountWithBit(2 * n - 2, k) + b;
    }
  }

  /** Half of the numbers below 2^n have any one of their n bits. */
  lemma {:induction false} HalfHaveBit(n: nat, k: nat)
    requires k < n
    ensures CountWithBit(Pow2(n), k) == Pow2(n - 1)
  {
    if k == 0 {
      CountLowBit(Pow2(n - 1));
    } else {
      CountHighBit(Pow2(n - 1), k);
      HalfHaveBit(n - 1, k - 1);
    }
  }
}
