/** The candidate indices one input still has to test, as a bitset with a
    cursor.  It refines a finite set whose `Pop` takes the minimum. */
module Sweep {
  import opened Sequences
  import opened Bits
  import opened Bitmaps

  /** Python's `int.bit_length` on nonnegative integers. */
  function BitLength(x: nat): nat { if x == 0 then 0 else 1 + BitLength(x / 2) }

  /** The least set bit. */
  function LowestBit(v: nat): (k: nat)
    requires v > 0
  {
    if v % 2 == 1 then 0 else 1 + LowestBit(v / 2)
  }

  lemma {:induction false} LowestBitIsLeast(v: nat, j: nat)
    requires v > 0 && j <= LowestBit(v)
    ensures Bit(v, j) <==> j == LowestBit(v)
    decreases v
  {
    if v % 2 == 0 && j > 0 { LowestBitIsLeast(v / 2, j - 1); }
  }

  /** Python's `v & -v`. */
  function Isolate(v: int): int { And(v, 0 - v) }

  /** `(v & -v).bit_length() - 1` finds the least set bit. */
  lemma {:induction false} IsolateLowest(v: nat)
    requires v > 0
    ensures Isolate(v) == Shl(1, LowestBit(v)) && Isolate(v) > 0
    ensures BitLength(Isolate(v)) == LowestBit(v) + 1
    decreases v
  {
    if v % 2 == 0 {
      IsolateLowest(v / 2);
      assert (0 - v) / 2 == 0 - v / 2;
    } else if v > 1 {
      assert (0 - v) / 2 == Not(v / 2);
      AndComplement(v / 2);
    }
  }

  lemma AndComplement(x: int)
    ensures And(x, Not(x)) == 0
  {
    forall i: nat
      ensures Bit(And(x, Not(x)), i) == Bit(0, i)
    {
      BitAnd(x, Not(x), i);
      BitNot(x, i);
      BitOfZero(i);
    }
    BitsExtensional(And(x, Not(x)), 0);
  }

  /** Clearing one bit removes exactly that index. */
  lemma ClearedByte(b: Byte, k: nat)
    requires k < 8
    ensures 0 <= And(b, Not(Shl(1, k))) <= b
    ensures forall j: nat :: Bit(And(b, Not(Shl(1, k))), j) == (Bit(b, j) && j != k)
  {
    AndNonneg(b, Not(Shl(1, k)));
    forall j: nat
      ensures Bit(And(b, Not(Shl(1, k))), j) == (Bit(b, j) && j != k)
    {
      BitAnd(b, Not(Shl(1, k)), j);
      BitNot(Shl(1, k), j);
      BitShl(1, k, j);
      if j > k { BitOfZero(j - k - 1); }
    }
  }

  lemma Cleared(bits: seq<Byte>, i: nat, j: nat)
    requires i / 8 < |bits|
    ensures var b := And(bits[i / 8], Not(Shl(1, i % 8)));
            0 <= b < 256 && (Has(bits[i / 8 := b], j) <==> Has(bits, j) && j != i)
  {
    ClearedByte(bits[i / 8], i % 8);
    if j / 8 == i / 8 { assert j == i <==> j % 8 == i % 8; }
  }

  /** The initial buffer: all ones, the last byte cut to the count. */
  function Full(n: nat): (bits: seq<Byte>)
    ensures |bits| == (n + 7) / 8
  {
    seq((n + 7) / 8, b requires 0 <= b < (n + 7) / 8 =>
      if b == n / 8 then Ones(n % 8) else 255)
  }

  function Ones(k: nat): Byte
    requires k < 8
  {
    assert Shl(1, 1) == 2 && Shl(1, 2) == 4 && Shl(1, 3) == 8 && Shl(1, 4) == 16;
    assert Shl(1, 5) == 32 && Shl(1, 6) == 64 && Shl(1, 7) == 128;
    Shl(1, k) - 1
  }

  lemma FullHas(n: nat, i: nat)
    ensures Has(Full(n), i) <==> i < n
  {
    assert Shl(1, 8) - 1 == 255;
    BitOnes(n % 8, i % 8);
    BitOnes(8, i % 8);
  }

  /** The indices below `n`. */
  function UpTo(n: nat): (s: set<nat>)
    ensures |s| == n && forall i: nat :: i in s <==> i < n
  {
    if n == 0 then {} else UpTo(n - 1) + {n - 1}
  }

  lemma ByteIndex(byte: nat, k: nat)
    requires k < 8
    ensures (byte * 8 + k) / 8 == byte && (byte * 8 + k) % 8 == k
  {
  }

  /** The least set bit of the first nonempty byte is the least index. */
  lemma LeastHere(bits: seq<Byte>, pending: set<nat>, cursor: nat, index: nat)
    requires forall i: nat :: i in pending <==> Has(bits, i)
    requires forall i :: i in pending ==> cursor <= i
    requires cursor / 8 < |bits| && bits[cursor / 8] != 0 && index == cursor / 8 * 8 + LowestBit(bits[cursor / 8])
    ensures index / 8 < |bits| && index in pending && forall j :: j in pending ==> index <= j
  {
    var value := bits[cursor / 8];
    LowestInByte(value);
    ByteIndex(cursor / 8, LowestBit(value));
    assert Has(bits, index);
    forall j | j in pending
      ensures index <= j
    {
      assert cursor <= j && Has(bits, j);
      if j / 8 == cursor / 8 && j % 8 < LowestBit(value) { LowestBitIsLeast(value, j % 8); }
    }
  }

  class ConcreteInputSweep {
    const bits: array<Byte>
    var cursor: nat
    var remaining: nat
    ghost var pending: set<nat>  // the indices still to be tried

    ghost predicate Valid()
      reads this, bits
    {
      && (forall i: nat :: i in pending <==> Has(bits[..], i))
      && remaining == |pending|
      && forall i :: i in pending ==> cursor <= i
    }

    constructor (count: nat)
      ensures Valid() && fresh(bits) && cursor == 0 && pending == UpTo(count)
    {
      var full := Full(count);
      bits := new Byte[|full|](i requires 0 <= i < |full| => full[i]);
      cursor := 0;
      remaining := count;
      pending := UpTo(count);
      new;
      assert bits[..] == full;
      forall i: nat
        ensures i in pending <==> Has(bits[..], i)
      {
        FullHas(count, i);
      }
    }

    method Discard(index: nat)
      requires Valid() && index / 8 < bits.Length
      modifies this`remaining, this`pending, bits
      ensures Valid() && pending == old(pending) - {index}
    {
      ghost var before := bits[..];
      TestBit(bits[index / 8], index % 8);
      if And(bits[index / 8], Shl(1, index % 8)) != 0 {
        forall j: nat
          ensures var b := And(before[index / 8], Not(Shl(1, index % 8)));
                  0 <= b < 256 && (Has(before[index / 8 := b], j) <==> Has(before, j) && j != index)
        {
          Cleared(before, index, j);
        }
        assert Has(before, index) && index in pending;
        ClearedByte(bits[index / 8], index % 8);
        bits[index / 8] := And(bits[index / 8], Not(Shl(1, index % 8)));
        remaining := remaining - 1;
        assert bits[..] == before[index / 8 := bits[index / 8]];
        pending := pending - {index};
      } else {
        assert index !in pending;
      }
    }

    /** Skip the empty bytes before the least pending index. */
    method SkipEmptyBytes()
      requires Valid() && remaining > 0
      modifies this`cursor
      ensures Valid() && cursor / 8 < bits.Length && bits[cursor / 8] != 0
    {
      ghost var some :| some in pending;
      while bits[cursor / 8] == 0
        invariant cursor <= some && Valid()
        decreases some - cursor
      {
        forall j | j in pending
          ensures (cursor / 8 + 1) * 8 <= j
        {
          assert cursor <= j && Has(bits[..], j);
          if j / 8 == cursor / 8 { BitOfZero(j % 8); }
        }
        cursor := (cursor / 8 + 1) * 8;
      }
    }

    /** Take the least pending index; everything below the cursor stays clear. */
    method Pop() returns (index: nat)
      requires Valid() && remaining > 0
      modifies this, bits
      ensures Valid()
      ensures index in old(pending) && forall j :: j in old(pending) ==> index <= j
      ensures pending == old(pending) - {index} && cursor == index + 1
      ensures remaining == old(remaining) - 1
    {
      SkipEmptyBytes();
      var byte := cursor / 8;
      var value := bits[byte];
      IsolateLowest(value);
      index := byte * 8 + BitLength(Isolate(value)) - 1;
      LeastHere(bits[..], pending, cursor, index);
      Discard(index);
      cursor := index + 1;
    }

    /** All pending indices in increasing order, from the cursor's byte on. */
    method PendingIndices() returns (indices: seq<nat>)
      requires Valid()
      ensures Increasing(indices)
      ensures forall i :: i in indices <==> i in pending
    {
      indices := [];
      var byte := cursor / 8;
      while byte < bits.Length
        invariant cursor / 8 <= byte
        invariant Increasing(indices)
        invariant forall i :: i in indices <==> i in pending && i / 8 < byte
      {
        var found := ByteIndices(byte, bits[byte]);
        forall i: nat
          ensures i in found <==> i in pending && i / 8 == byte
        {
          assert i in pending <==> Has(bits[..], i);
        }
        IncreasingConcat(indices, found, 8 * byte);
        indices := indices + found;
        byte := byte + 1;
      }
    }
  }

  lemma IncreasingConcat(a: seq<nat>, b: seq<nat>, bound: nat)
    requires Increasing(a) && Increasing(b)
    requires forall i :: i in a ==> i < bound
    requires forall i :: i in b ==> bound <= i
    ensures Increasing(a + b) && forall i :: i in a + b <==> i in a || i in b
  {
    forall i, j | 0 <= i < j < |a + b|
      ensures (a + b)[i] < (a + b)[j]
    {
      assert i < |a| ==> (a + b)[i] in a;
      assert j >= |a| ==> (a + b)[j] in b;
    }
  }

  lemma LowestInByte(value: Byte)
    requires value > 0
    ensures Bit(value, LowestBit(value)) && LowestBit(value) < 8
  {
    LowestBitIsLeast(value, LowestBit(value));
    BitInByte(value, LowestBit(value));
  }

  /** `v ^ (v & -v)` clears the least set bit and nothing else. */
  lemma ClearLowest(v: nat, k: nat)
    requires v > 0
    ensures Bit(Xor(v, Isolate(v)), k) == (Bit(v, k) && k != LowestBit(v))
  {
    IsolateLowest(v);
    LowestBitIsLeast(v, LowestBit(v));
    BitXor(v, Isolate(v), k);
    BitShl(1, LowestBit(v), k);
    if k > LowestBit(v) { BitOfZero(k - LowestBit(v) - 1); }
  }

  lemma ClearLowestShrinks(v: nat)
    requires v > 0
    ensures 0 <= Xor(v, Isolate(v)) < v
  {
    IsolateLowest(v);
    var rest, low := Xor(v, Isolate(v)), Isolate(v);
    forall k: nat
      ensures Bit(And(v, Not(low)), k) == Bit(rest, k)
    {
      BitAnd(v, Not(low), k);
      BitNot(low, k);
      ClearLowest(v, k);
      BitShl(1, LowestBit(v), k);
      if k > LowestBit(v) { BitOfZero(k - LowestBit(v) - 1); }
    }
    BitsExtensional(And(v, Not(low)), rest);
    AndNonneg(v, Not(low));
    ClearLowest(v, LowestBit(v));
    LowestBitIsLeast(v, LowestBit(v));
  }

  /** Peel the set bits of one byte, lowest first. */
  method ByteIndices(byte: nat, start: Byte) returns (found: seq<nat>)
    ensures Increasing(found)
    ensures forall i: nat :: i in found <==> i / 8 == byte && Bit(start, i % 8)
  {
    found := [];
    var value: nat := start;
    while value != 0
      invariant value < 256 && Increasing(found)
      invariant forall k: nat :: k < 8 && Bit(value, k) ==> Bit(start, k)
      invariant forall i: nat :: i in found <==> i / 8 == byte && Bit(start, i % 8) && !Bit(value, i % 8)
      invariant forall i, k: nat :: i in found && k < 8 && Bit(value, k) ==> i < byte * 8 + k
      decreases value
    {
      var low := LowestBit(value);
      IsolateLowest(value);
      LowestInByte(value);
      ClearLowestShrinks(value);
      forall k: nat
        ensures Bit(Xor(value, Isolate(value)), k) == (Bit(value, k) && k != low)
        ensures k < low ==> !Bit(value, k)
      {
        ClearLowest(value, k);
        if k < low { LowestBitIsLeast(value, k); }
      }
      var bit := Isolate(value);
      var index := byte * 8 + BitLength(bit) - 1;
      assert index / 8 == byte && index % 8 == low;
      assert forall i :: i in found ==> i < index;
      AppendIndex(found, index);
      found := found + [index];
      value := Xor(value, bit);
    }
    forall k: nat
      ensures !Bit(0, k)
    {
      BitOfZero(k);
    }
  }

  lemma AppendIndex(found: seq<nat>, index: nat)
    requires Increasing(found) && forall i :: i in found ==> i < index
    ensures Increasing(found + [index])
    ensures forall i :: i in found + [index] <==> i in found || i == index
  {
    IncreasingConcat(found, [index], index);
  }
}
