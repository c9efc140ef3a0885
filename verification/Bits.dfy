/** Bitwise operations on unbounded integers, as Python defines them: every
    integer is an infinite two's-complement bit string, `>>` floors, and `&`,
    `|`, `^`, `~` work bit by bit. */
module Bits {

  /** Bit `i` of `x`. */
  predicate Bit(x: int, i: nat)
    decreases i
  {
    if i == 0 then x % 2 == 1 else Bit(x / 2, i - 1)
  }

  function Abs(x: int): nat { if x < 0 then -x else x }

  function And(a: int, b: int): int
    decreases Abs(a)
  {
    if a == 0 || b == 0 then 0
    else if a == -1 then b
    else if b == -1 then a
    else 2 * And(a / 2, b / 2) + (if a % 2 == 1 && b % 2 == 1 then 1 else 0)
  }

  function Not(x: int): int { -x - 1 }

  function Or(a: int, b: int): int { Not(And(Not(a), Not(b))) }

  function Xor(a: int, b: int): int { And(Or(a, b), Not(And(a, b))) }

  function Shl(x: int, n: nat): int
    decreases n
  {
    if n == 0 then x else 2 * Shl(x, n - 1)
  }

  function Shr(x: int, n: nat): int
    decreases n
  {
    if n == 0 then x else Shr(x / 2, n - 1)
  }

  function Pow2(n: nat): (r: int)
    ensures r >= 1
    decreases n
  {
    if n == 0 then 1 else 2 * Pow2(n - 1)
  }

  // ----- bit-level meaning -----

  lemma {:induction false} BitOfZero(i: nat)
    ensures !Bit(0, i) && Bit(-1, i)
    decreases i
  {
    if i > 0 { BitOfZero(i - 1); }
  }

  lemma {:induction false} BitNot(x: int, i: nat)
    ensures Bit(Not(x), i) == !Bit(x, i)
    decreases i
  {
    if i > 0 {
      assert Not(x) / 2 == Not(x / 2);
      BitNot(x / 2, i - 1);
    }
  }

  lemma {:induction false} BitAnd(a: int, b: int, i: nat)
    ensures Bit(And(a, b), i) == (Bit(a, i) && Bit(b, i))
    decreases i
  {
    if a == 0 || b == 0 || a == -1 || b == -1 {
      BitOfZero(i);
    } else if i > 0 {
      assert And(a, b) / 2 == And(a / 2, b / 2);
      BitAnd(a / 2, b / 2, i - 1);
    }
  }

  lemma BitOr(a: int, b: int, i: nat)
    ensures Bit(Or(a, b), i) == (Bit(a, i) || Bit(b, i))
  {
    BitNot(a, i);
    BitNot(b, i);
    BitAnd(Not(a), Not(b), i);
    BitNot(And(Not(a), Not(b)), i);
  }

  lemma BitXor(a: int, b: int, i: nat)
    ensures Bit(Xor(a, b), i) == (Bit(a, i) != Bit(b, i))
  {
    BitOr(a, b, i);
    BitAnd(a, b, i);
    BitNot(And(a, b), i);
    BitAnd(Or(a, b), Not(And(a, b)), i);
  }

  lemma {:induction false} BitShl(x: int, n: nat, i: nat)
    ensures Bit(Shl(x, n), i) == (i >= n && Bit(x, i - n))
    decreases n
  {
    if n > 0 {
      assert Shl(x, n) % 2 == 0 && Shl(x, n) / 2 == Shl(x, n - 1);
      if i > 0 { BitShl(x, n - 1, i - 1); }
    }
  }

  /** Two integers with the same bits are equal. */
  lemma {:induction false} BitsExtensional(a: int, b: int)
    requires forall i: nat :: Bit(a, i) == Bit(b, i)
    ensures a == b
    decreases Abs(a) + Abs(b)
  {
    assert Bit(a, 0) == Bit(b, 0);
    forall i: nat
      ensures Bit(a / 2, i) == Bit(b / 2, i)
    {
      assert Bit(a, i + 1) == Bit(b, i + 1);
    }
    if Abs(a / 2) + Abs(b / 2) < Abs(a) + Abs(b) {
      BitsExtensional(a / 2, b / 2);
    }
  }

  lemma {:induction false} ShlNonneg(x: int, n: nat)
    requires x >= 0
    ensures Shl(x, n) >= x
    decreases n
  {
    if n > 0 { ShlNonneg(x, n - 1); }
  }

  lemma {:induction false} ShlIsMul(x: int, n: nat)
    ensures Shl(x, n) == x * Pow2(n)
    decreases n
  {
    if n > 0 { ShlIsMul(x, n - 1); }
  }

  /** `x >> n` is the floor of `x / 2^n`. */
  lemma {:induction false} ShrIsFloorDiv(x: int, n: nat)
    ensures Shr(x, n) * Pow2(n) <= x < (Shr(x, n) + 1) * Pow2(n)
    decreases n
  {
    if n > 0 {
      ShrIsFloorDiv(x / 2, n - 1);
      FloorDivOfHalf(x, Shr(x / 2, n - 1), Pow2(n - 1));
    }
  }

  lemma FloorDivOfHalf(x: int, q: int, m: int)
    requires q * m <= x / 2 < (q + 1) * m
    ensures q * (2 * m) <= x < (q + 1) * (2 * m)
  {
    assert q * (2 * m) == 2 * (q * m);
    assert (q + 1) * (2 * m) == 2 * ((q + 1) * m);
  }

  /** A nonnegative number below 2^n has no bit at or above `n`. */
  lemma {:induction false} BitAbove(x: int, n: nat, i: nat)
    requires 0 <= x < Pow2(n) && i >= n
    ensures !Bit(x, i)
    decreases n
  {
    if n == 0 { BitOfZero(i); } else { BitAbove(x / 2, n - 1, i - 1); }
  }

  /** ...and a nonnegative number with no bit at or above `n` is below 2^n. */
  lemma {:induction false} BoundFromBits(x: int, n: nat)
    requires x >= 0
    requires forall i: nat :: i >= n ==> !Bit(x, i)
    ensures x < Pow2(n)
    decreases n
  {
    if n == 0 {
      forall i: nat
        ensures Bit(x, i) == Bit(0, i)
      {
        BitOfZero(i);
      }
      BitsExtensional(x, 0);
    } else {
      forall i: nat | i >= n - 1
        ensures !Bit(x / 2, i)
      {
        assert !Bit(x, i + 1);
      }
      BoundFromBits(x / 2, n - 1);
    }
  }

  lemma {:induction false} AndNonneg(a: int, b: int)
    requires a >= 0 || b >= 0
    ensures 0 <= And(a, b)
    ensures a >= 0 ==> And(a, b) <= a
    ensures b >= 0 ==> And(a, b) <= b
    decreases Abs(a)
  {
    if a != 0 && b != 0 && a != -1 && b != -1 { AndNonneg(a / 2, b / 2); }
  }

  lemma {:induction false} AndNegative(a: int, b: int)
    requires a < 0 && b < 0
    ensures And(a, b) < 0
    decreases Abs(a)
  {
    if a != -1 && b != -1 { AndNegative(a / 2, b / 2); }
  }

  lemma OrNonneg(a: int, b: int)
    requires a >= 0 && b >= 0
    ensures Or(a, b) >= 0
  {
    AndNegative(Not(a), Not(b));
  }

  lemma XorNonneg(a: int, b: int)
    requires a >= 0 && b >= 0
    ensures Xor(a, b) >= 0
  {
    OrNonneg(a, b);
    AndNonneg(Or(a, b), Not(And(a, b)));
  }

  /** `x & (1 << i)` tests bit `i`. */
  lemma {:induction false} TestBit(x: int, i: nat)
    ensures And(x, Shl(1, i)) != 0 <==> Bit(x, i)
  {
    var m := And(x, Shl(1, i));
    forall j: nat
      ensures Bit(m, j) == (j == i && Bit(x, i))
    {
      BitAnd(x, Shl(1, i), j);
      BitShl(1, i, j);
      if j > i { BitOfZero(j - i - 1); }
    }
    if Bit(x, i) {
      assert Bit(m, i);
      BitOfZero(i);
    } else {
      forall j: nat
        ensures Bit(m, j) == Bit(0, j)
      {
        BitOfZero(j);
      }
      BitsExtensional(m, 0);
    }
  }

  /** The bits of `(1 << n) - 1` are exactly 0..n-1. */
  lemma {:induction false} BitOnes(n: nat, i: nat)
    ensures Bit(Shl(1, n) - 1, i) <==> i < n
    decreases n
  {
    if n == 0 {
      BitOfZero(i);
    } else {
      assert (Shl(1, n) - 1) / 2 == Shl(1, n - 1) - 1;
      if i > 0 { BitOnes(n - 1, i - 1); }
    }
  }

  lemma {:induction false} Pow2Add(a: nat, b: nat)
    ensures Pow2(a + b) == Pow2(a) * Pow2(b)
    decreases a
  {
    if a > 0 {
      Pow2Add(a - 1, b);
      DoubleProduct(Pow2(a - 1), Pow2(b));
    }
  }

  lemma DoubleProduct(x: int, y: int)
    ensures 2 * (x * y) == (2 * x) * y
  {
  }
}
