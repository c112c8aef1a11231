/**
 * Bit operations on non-negative integers, written arithmetically so that
 * proofs about them stay in integer arithmetic: bit `k` of `x` is the parity of
 * `x` halved `k` times, and `&`, `|` combine two values bit by bit from the
 * least significant.
 */
module Bits {
  import opened Bytes

  /** Bit `k` of `x` is set. */
  predicate HasBit(x: nat, k: nat)
  {
    if k == 0 then x % 2 == 1 else HasBit(x / 2, k - 1)
  }

  /** `a & b`. */
  function BitAnd(a: nat, b: nat): (r: nat)
    decreases a + b
  {
    if a == 0 || b == 0 then 0
    else 2 * BitAnd(a / 2, b / 2) + (if a % 2 == 1 && b % 2 == 1 then 1 else 0)
  }

  /** `a | b`. */
  function BitOr(a: nat, b: nat): (r: nat)
    decreases a + b
  {
    if a == 0 then b
    else if b == 0 then a
    else 2 * BitOr(a / 2, b / 2) + (if a % 2 == 1 || b % 2 == 1 then 1 else 0)
  }

  lemma {:induction false} NoBitOfZero(k: nat)
    ensures !HasBit(0, k)
  {
    if k > 0 {
      NoBitOfZero(k - 1);
    }
  }

  /** Bit `k` of `a | b` is set exactly when it is set in `a` or in `b`. */
  lemma {:induction false} BitOrHasBit(a: nat, b: nat, k: nat)
    ensures HasBit(BitOr(a, b), k) <==> HasBit(a, k) || HasBit(b, k)
    decreases a + b
  {
    if a == 0 {
      NoBitOfZero(k);
    } else if b == 0 {
      NoBitOfZero(k);
    } else {
      var r := BitOr(a, b);
      assert r / 2 == BitOr(a / 2, b / 2);
      if k > 0 {
        BitOrHasBit(a / 2, b / 2, k - 1);
      }
    }
  }

  /** Bit `j` of the single-bit value `2^k` is set exactly when `j == k`. */
  lemma {:induction false} Pow2HasBit(k: nat, j: nat)
    ensures HasBit(Pow2(k), j) <==> j == k
  {
    if k == 0 {
      if j > 0 {
        NoBitOfZero(j - 1);
      }
    } else if j > 0 {
      Pow2HasBit(k - 1, j - 1);
    }
  }

  /** Masking with a single bit keeps that bit or yields zero. */
  lemma {:induction false} BitAndPow2(k: nat, x: nat)
    ensures BitAnd(Pow2(k), x) == if HasBit(x, k) then Pow2(k) else 0
  {
    if x == 0 {
      NoBitOfZero(k);
    } else if k > 0 {
      BitAndPow2(k - 1, x / 2);
    }
  }

  /** So a single-bit mask meets `x` exactly when that bit of `x` is set. */
  lemma {:induction false} MaskMeets(k: nat, x: nat)
    ensures BitAnd(Pow2(k), x) != 0 <==> HasBit(x, k)
  {
    BitAndPow2(k, x);
  }

  /** A value below `2^n` has no bit at or above `n`. */
  lemma {:induction false} NoHighBits(x: nat, n: nat, k: nat)
    requires x < Pow2(n) && k >= n
    ensures !HasBit(x, k)
  {
    if n == 0 {
      NoBitOfZero(k);
    } else {
      NoHighBits(x / 2, n - 1, k - 1);
    }
  }

  /** Or-ing values below `2^n` stays below `2^n`. */
  lemma {:induction false} BitOrBound(a: nat, b: nat, n: nat)
    requires a < Pow2(n) && b < Pow2(n)
    ensures BitOr(a, b) < Pow2(n)
    decreases a + b
  {
    if a != 0 && b != 0 {
      BitOrBound(a / 2, b / 2, n - 1);
    }
  }

  /** Values that agree on every bit below `n` and are below `2^n` are equal. */
  lemma {:induction false} BitsDetermine(x: nat, y: nat, n: nat)
    requires x < Pow2(n) && y < Pow2(n)
    requires forall k :: 0 <= k < n ==> (HasBit(x, k) <==> HasBit(y, k))
    ensures x == y
  {
    if n > 0 {
      assert HasBit(x, 0) <==> HasBit(y, 0);
      forall k | 0 <= k < n - 1
        ensures HasBit(x / 2, k) <==> HasBit(y / 2, k)
      {
        assert HasBit(x, k + 1) <==> HasBit(y, k + 1);
      }
      BitsDetermine(x / 2, y / 2, n - 1);
    }
  }
}
