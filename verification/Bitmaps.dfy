/** Byte strings as bitmaps: little-endian conversion to integers and bit
    membership. */
module Bitmaps {
  import opened Bits

  type Byte = b: nat | b < 256

  /** Membership of index `i` in a byte buffer. */
  predicate Has(bits: seq<Byte>, i: nat) { i / 8 < |bits| && Bit(bits[i / 8], i % 8) }

  lemma BitInByte(value: Byte, k: nat)
    ensures Bit(value, k) ==> k < 8
  {
    assert Pow2(8) == 256;
    if k >= 8 { BitAbove(value, 8, k); }
  }

  /** Low bits and shifted high bits do not mix. */
  lemma {:induction false} BitOfParts(low: nat, high: nat, n: nat, i: nat)
    requires low < Pow2(n)
    ensures Bit(low + Shl(high, n), i) == if i < n then Bit(low, i) else Bit(high, i - n)
    decreases n
  {
    if n > 0 {
      assert (low + Shl(high, n)) / 2 == low / 2 + Shl(high, n - 1);
      if i > 0 { BitOfParts(low / 2, high, n - 1, i - 1); }
    }
  }

  lemma BitOfByteAndRest(low: Byte, high: nat, i: nat)
    ensures Bit(low + 256 * high, i) == if i < 8 then Bit(low, i) else Bit(high, i - 8)
  {
    assert Pow2(8) == 256;
    ShlIsMul(high, 8);
    BitOfParts(low, high, 8, i);
  }

  // ----- conversions -----

  /** Python's `int.from_bytes(data, "little")`. */
  function FromBytes(data: seq<Byte>): nat
  {
    if data == [] then 0 else data[0] + 256 * FromBytes(data[1..])
  }

  lemma {:induction false} FromBytesBit(data: seq<Byte>, i: nat)
    ensures Bit(FromBytes(data), i) <==> Has(data, i)
    decreases |data|
  {
    if data == [] {
      BitOfZero(i);
    } else {
      BitOfByteAndRest(data[0], FromBytes(data[1..]), i);
      if i >= 8 {
        FromBytesBit(data[1..], i - 8);
        assert (i - 8) / 8 == i / 8 - 1 && (i - 8) % 8 == i % 8;
      }
    }
  }

  /** Python's `x.to_bytes(width, "little")`, for numbers that fit. */
  function ToBytes(x: nat, width: nat): (data: seq<Byte>)
    ensures |data| == width
    decreases width, x
  {
    if width == 0 then [] else [x % 256] + ToBytes(x / 256, width - 1)
  }

  lemma {:induction false} ToBytesHas(x: nat, width: nat, i: nat)
    requires i < 8 * width
    ensures Has(ToBytes(x, width), i) <==> Bit(x, i)
    decreases width
  {
    assert x == x % 256 + 256 * (x / 256);
    BitOfByteAndRest(x % 256, x / 256, i);
    if i >= 8 {
      ToBytesHas(x / 256, width - 1, i - 8);
      assert (i - 8) / 8 == i / 8 - 1 && (i - 8) % 8 == i % 8;
    }
  }

  lemma {:induction false} FromToBytes(x: nat, width: nat)
    requires x < Pow256(width)
    ensures FromBytes(ToBytes(x, width)) == x
    decreases width
  {
    if width > 0 {
      FromToBytes(x / 256, width - 1);
      assert ToBytes(x, width)[1..] == ToBytes(x / 256, width - 1);
    }
  }

  lemma {:induction false} ToFromBytes(data: seq<Byte>)
    ensures FromBytes(data) < Pow256(|data|) && ToBytes(FromBytes(data), |data|) == data
    decreases |data|
  {
    if data != [] {
      ToFromBytes(data[1..]);
      LowByte(data[0], FromBytes(data[1..]));
    }
  }

  lemma LowByte(low: Byte, high: nat)
    ensures (low + 256 * high) % 256 == low && (low + 256 * high) / 256 == high
  {
  }

  function Pow256(n: nat): (r: nat)
    ensures r >= 1
  {
    if n == 0 then 1 else 256 * Pow256(n - 1)
  }

  /** A number whose bits all lie below `8 * width` fits in `width` bytes. */
  lemma {:induction false} Pow256IsPow2(n: nat)
    ensures Pow256(n) == Pow2(8 * n)
    decreases n
  {
    if n > 0 {
      Pow256IsPow2(n - 1);
      Pow2Add(8, 8 * (n - 1));
      assert Pow2(8) == 256;
    }
  }
}
