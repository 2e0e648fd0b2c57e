/** Bit masks as natural numbers: bit `i` of `x` is the `i`-th binary digit, and the bitwise
    operators are defined digit by digit. */
module Bits {
  import opened Divisibility

  /** Bit `i` of `x` is set. */
  predicate Bit(x: nat, i: nat)
  {
    if i == 0 then x % 2 == 1 else Bit(x / 2, i - 1)
  }

  /** `x | y`. */
  function Or(x: nat, y: nat): nat
    decreases x + y
  {
    if x == 0 && y == 0 then 0
    else 2 * Or(x / 2, y / 2) + (if x % 2 == 1 || y % 2 == 1 then 1 else 0)
  }

  /** `x ^ y`. */
  function Xor(x: nat, y: nat): nat
    decreases x + y
  {
    if x == 0 && y == 0 then 0
    else 2 * Xor(x / 2, y / 2) + (if x % 2 != y % 2 then 1 else 0)
  }

  /** `count_ones`. */
  function PopCount(x: nat): nat
  {
    if x == 0 then 0 else x % 2 + PopCount(x / 2)
  }

  /** Each bit of an OR is set when it is set on either side. */
  lemma {:induction false} BitOr(x: nat, y: nat, i: nat)
    ensures Bit(Or(x, y), i) <==> Bit(x, i) || Bit(y, i)
    decreases i
  {
    if x == 0 && y == 0 {
      BitZero(i);
    } else if i > 0 {
      BitOr(x / 2, y / 2, i - 1);
    }
  }

  /** Each bit of an XOR is set when the two sides differ there. */
  lemma {:induction false} BitXor(x: nat, y: nat, i: nat)
    ensures Bit(Xor(x, y), i) <==> Bit(x, i) != Bit(y, i)
    decreases i
  {
    if x == 0 && y == 0 {
      BitZero(i);
    } else if i > 0 {
      BitXor(x / 2, y / 2, i - 1);
    }
  }

  lemma {:induction false} BitZero(i: nat)
    ensures !Bit(0, i)
  {
    if i > 0 {
      BitZero(i - 1);
    }
  }

  /** `1 << c` has bit `c` and no other. */
  lemma {:induction false} BitPow2(c: nat, i: nat)
    ensures Bit(Pow2(c), i) <==> i == c
    decreases c
  {
    if c == 0 {
      if i > 0 {
        BitZero(i - 1);
      }
    } else if i > 0 {
      BitPow2(c - 1, i - 1);
    }
  }

  /** A mask with no bit set is zero. */
  lemma {:induction false} NoBits(x: nat, n: nat)
    requires x < Pow2(n)
    requires forall i :: 0 <= i < n ==> !Bit(x, i)
    ensures x == 0
    decreases n
  {
    if n > 0 {
      assert !Bit(x, 0);
      forall i | 0 <= i < n - 1 ensures !Bit(x / 2, i) {
        assert !Bit(x, i + 1);
      }
      NoBits(x / 2, n - 1);
    }
  }

  lemma {:induction false} OrZero(x: nat)
    ensures Or(x, 0) == x && Or(0, x) == x
    decreases x
  {
    if x > 0 {
      OrZero(x / 2);
    }
  }

  /** Only equal masks have a zero XOR. */
  lemma {:induction false} XorZero(x: nat, y: nat)
    ensures Xor(x, y) == 0 <==> x == y
    decreases x + y
  {
    if x != 0 || y != 0 {
      XorZero(x / 2, y / 2);
    }
  }

  /** An OR is zero exactly when both sides are. */
  lemma OrIsZero(x: nat, y: nat)
    ensures Or(x, y) == 0 <==> x == 0 && y == 0
  {
  }

  /** Only zero has no bit set. */
  lemma PopCountZero(x: nat)
    ensures PopCount(x) == 0 <==> x == 0
  {
  }

  /** An OR sets no more bits than its two sides together. */
  lemma {:induction false} PopCountOr(x: nat, y: nat)
    ensures PopCount(Or(x, y)) <= PopCount(x) + PopCount(y)
    decreases x + y
  {
    if x != 0 || y != 0 {
      PopCountOr(x / 2, y / 2);
    }
  }
}
