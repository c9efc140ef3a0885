/** Signed 64-bit arithmetic of the patch language: the helpers the compiled
    predicates call, and the mathematical meaning each of them has. */
module Words {
  import opened Bits

  const TWO63: int := 0x8000_0000_0000_0000
  const TWO64: int := 0x1_0000_0000_0000_0000
  const INT64_MIN: int := -TWO63

  predicate IsWord(x: int) { -TWO63 <= x < TWO63 }

  /** The 64-bit word congruent to `v`. */
  function Signed(v: int): (r: int)
    ensures IsWord(r)
  {
    (v + TWO63) % TWO64 - TWO63
  }

  // ----- the source's helpers -----

  function Wrap64(v: int): int
  {
    var m := And(v, TWO64 - 1);
    if m >= TWO63 then m - TWO64 else m
  }

  function TruncDiv(a: int, b: int): int
    requires b != 0
  {
    var q := Abs(a) / Abs(b);
    if (a < 0) != (b < 0) then -q else q
  }

  function ShiftLeft(a: int, b: int): int
  {
    if b >= 64 then 0
    else if b <= -64 then (if a < 0 then -1 else 0)
    else if b >= 0 then Wrap64(Shl(a, b))
    else Shr(a, -b)
  }

  function ShiftRight(a: int, b: int): int
  {
    if b >= 64 then (if a < 0 then -1 else 0)
    else if b <= -64 then 0
    else if b >= 0 then Shr(a, b)
    else Wrap64(Shl(a, -b))
  }

  // ----- their meaning -----

  lemma MulMono(x: int, y: int, m: int)
    requires x <= y && m >= 0
    ensures x * m <= y * m
  {
  }

  lemma DivUnique(v: int, m: int, q: int, r: int)
    requires m != 0 && 0 <= r < Abs(m) && v == q * m + r
    ensures v / m == q && v % m == r
  {
    var d, e := v / m, v % m;
    assert v == m * d + e;
    assert (d - q) * m == r - e;
    if d > q {
      MulMono(1, d - q, Abs(m));
    } else if d < q {
      MulMono(1, q - d, Abs(m));
    }
  }

  lemma ModOfDouble(v: int, m: int)
    requires m >= 1
    ensures v % (2 * m) == 2 * ((v / 2) % m) + v % 2
  {
    var q := (v / 2) / m;
    assert v / 2 == m * q + (v / 2) % m;
    assert q * (2 * m) == 2 * (m * q);
    DivUnique(v, 2 * m, q, 2 * ((v / 2) % m) + v % 2);
  }

  lemma AndOddMask(v: int, m: int)
    requires m >= 1
    ensures And(v, 2 * m - 1) == 2 * And(v / 2, m - 1) + v % 2
  {
    assert (2 * m - 1) / 2 == m - 1 && (2 * m - 1) % 2 == 1;
  }

  lemma {:induction false} MaskIsMod(v: int, n: nat)
    ensures And(v, Pow2(n) - 1) == v % Pow2(n)
    decreases n
  {
    if n > 0 {
      AndOddMask(v, Pow2(n - 1));
      MaskIsMod(v / 2, n - 1);
      ModOfDouble(v, Pow2(n - 1));
    }
  }

  lemma Pow2At64()
    ensures Pow2(63) == TWO63 && Pow2(64) == TWO64
  {
    assert Pow2(16) == 0x1_0000;
    Pow2Add(16, 16);
    Pow2Add(32, 16);
    Pow2Add(48, 15);
    assert Pow2(15) == 0x8000;
  }

  lemma Wrap64IsSigned(v: int)
    ensures Wrap64(v) == Signed(v)
  {
    Pow2At64();
    MaskIsMod(v, 64);
    var q := v / TWO64;
    var r := v % TWO64;
    if r >= TWO63 {
      DivUnique(v + TWO63, TWO64, q + 1, r - TWO63);
    } else {
      DivUnique(v + TWO63, TWO64, q, r + TWO63);
    }
  }

  lemma SignedCongruent(v: int, k: int)
    ensures Signed(v + k * TWO64) == Signed(v)
  {
    var q, r := (v + TWO63) / TWO64, (v + TWO63) % TWO64;
    assert v + TWO63 == q * TWO64 + r;
    DivUnique(v + k * TWO64 + TWO63, TWO64, q + k, r);
  }

  lemma SignedOf(v: int)
    ensures exists k: int :: v == Signed(v) + k * TWO64
  {
    var q := (v + TWO63) / TWO64;
    assert v == Signed(v) + q * TWO64;
  }

  /** The quotient of section 6.5.5 of C11: the algebraic quotient with any
      fractional part discarded. */
  function CQuotient(a: int, b: int): int
    requires b != 0
  {
    if a >= 0 then a / b else -((-a) / b)
  }

  lemma TruncDivIsCQuotient(a: int, b: int)
    requires b != 0
    ensures TruncDiv(a, b) == CQuotient(a, b)
  {
    var q, r := Abs(a) / Abs(b), Abs(a) % Abs(b);
    assert Abs(a) == Abs(b) * q + r;
    if b < 0 {
      assert Abs(b) * q == (-q) * b;
      DivUnique(Abs(a), b, -q, r);
    }
  }

  /** `(a/b)*b + a%b` equals `a`, the remainder is smaller than the divisor and
      takes the sign of the dividend. */
  lemma CQuotientLaw(a: int, b: int)
    requires b != 0
    ensures var r := a - CQuotient(a, b) * b;
            Abs(r) < Abs(b) && (a >= 0 ==> r >= 0) && (a <= 0 ==> r <= 0)
  {
    if a >= 0 {
      assert a == b * (a / b) + a % b;
      assert CQuotient(a, b) * b == b * (a / b);
    } else {
      assert -a == b * ((-a) / b) + (-a) % b;
      assert CQuotient(a, b) * b == -(b * ((-a) / b));
    }
  }

  lemma QuotientBound(x: nat, y: nat)
    requires y >= 1
    ensures 0 <= x / y <= x && (y >= 2 ==> 2 * (x / y) <= x)
  {
    assert x == y * (x / y) + x % y;
    if y >= 2 { MulMono(2, y, x / y); }
  }

  lemma QuotientIsWord(a: int, b: int)
    requires IsWord(a) && IsWord(b) && b != 0 && !(a == INT64_MIN && b == -1)
    ensures IsWord(CQuotient(a, b))
  {
    TruncDivIsCQuotient(a, b);
    QuotientBound(Abs(a), Abs(b));
  }

  /** `a >> n` is the only integer with the floor property. */
  lemma ShrUnique(a: int, n: nat, q: int)
    requires q * Pow2(n) <= a < (q + 1) * Pow2(n)
    ensures Shr(a, n) == q
  {
    ShrIsFloorDiv(a, n);
    if Shr(a, n) < q {
      MulMono(Shr(a, n) + 1, q, Pow2(n));
    } else if q < Shr(a, n) {
      MulMono(q + 1, Shr(a, n), Pow2(n));
    }
  }

  lemma Pow2Mono(a: nat, b: nat)
    requires a <= b
    ensures Pow2(a) <= Pow2(b)
    decreases b
  {
    if a < b { Pow2Mono(a, b - 1); }
  }

  /** Shifting left is multiplying by 2^n modulo 2^64, for every count. */
  lemma LeftShiftMeaning(a: int, n: nat)
    ensures (if n >= 64 then 0 else Wrap64(Shl(a, n))) == Signed(a * Pow2(n))
  {
    if n >= 64 {
      Pow2At64();
      Pow2Add(n - 64, 64);
      var k := a * Pow2(n - 64);
      assert a * (Pow2(n - 64) * TWO64) == k * TWO64;
      SignedCongruent(0, k);
    } else {
      ShlIsMul(a, n);
      Wrap64IsSigned(Shl(a, n));
    }
  }

  /** Shifting right is the floor of dividing by 2^n, for every count. */
  lemma RightShiftMeaning(a: int, n: nat)
    requires IsWord(a)
    ensures (if n >= 64 then (if a < 0 then -1 else 0) else Shr(a, n)) == Shr(a, n)
    ensures IsWord(Shr(a, n))
  {
    Pow2At64();
    if n >= 64 {
      Pow2Mono(64, n);
      ShrUnique(a, n, if a < 0 then -1 else 0);
    } else {
      ShrIsFloorDiv(a, n);
      var s, m := Shr(a, n), Pow2(n);
      if s >= 0 {
        MulMono(1, m, s);
      } else {
        MulMono(1, m, -(s + 1));
        assert m * -(s + 1) == -((s + 1) * m);
      }
    }
  }

  // Bitwise operations stay inside the word.

  lemma {:induction false} AndFloorPow(a: int, b: int, n: nat)
    requires a >= -Pow2(n) && b >= -Pow2(n)
    ensures And(a, b) >= -Pow2(n)
    decreases n
  {
    if a >= 0 || b >= 0 {
      AndNonneg(a, b);
    } else if a != -1 && b != -1 && n > 0 {
      AndFloorPow(a / 2, b / 2, n - 1);
    }
  }

  lemma AndIsWord(a: int, b: int)
    requires IsWord(a) && IsWord(b)
    ensures IsWord(And(a, b))
  {
    Pow2At64();
    AndFloorPow(a, b, 63);
    if a >= 0 || b >= 0 { AndNonneg(a, b); } else { AndNegative(a, b); }
  }

  lemma OrIsWord(a: int, b: int)
    requires IsWord(a) && IsWord(b)
    ensures IsWord(Or(a, b))
  {
    AndIsWord(Not(a), Not(b));
  }

  lemma XorIsWord(a: int, b: int)
    requires IsWord(a) && IsWord(b)
    ensures IsWord(Xor(a, b))
  {
    OrIsWord(a, b);
    AndIsWord(a, b);
    AndIsWord(Or(a, b), Not(And(a, b)));
  }
}
