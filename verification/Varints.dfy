/** Unsigned LEB128 numbers (section 7.6 of DWARF 5), limited to five bytes and
    to 32 bits. */
module Varints {
  import opened Bits
  import opened Bitmaps
  import opened Options
  import BranchCodec

  const MAX_U32: nat := 0xFFFF_FFFF

  function Encode(v: nat): (b: seq<Byte>)
    ensures |b| > 0
  {
    if v < 128 then [v] else [128 + v % 128] + Encode(v / 128)
  }

  /** A value and the number of bytes it took. */
  datatype Number = MakeNumber(value: nat, size: nat)

  function Read(data: seq<Byte>, rounds: nat): (r: Option<Number>)
    ensures r.Some? ==> 0 < r.value.size <= |data|
    decreases |data|
  {
    if rounds == 0 || data == [] then None
    else if data[0] < 128 then Some(MakeNumber(data[0], 1))
    else
      var rest := Read(data[1..], rounds - 1);
      if rest.None? then None else Some(MakeNumber(data[0] - 128 + 128 * rest.value.value, rest.value.size + 1))
  }

  /** At most five bytes, and a value that fits in 32 bits. */
  function ReadU32(data: seq<Byte>): (r: Option<Number>)
    ensures r.Some? ==> 0 < r.value.size <= |data| && r.value.value <= MAX_U32
  {
    var r := Read(data, 5);
    if r.Some? && r.value.value <= MAX_U32 then r else None
  }

  function Pow128(n: nat): nat { if n == 0 then 1 else 128 * Pow128(n - 1) }

  lemma {:induction false} ReadEncoded(v: nat, rest: seq<Byte>, rounds: nat)
    requires rounds > 0 && v < Pow128(rounds)
    ensures Read(Encode(v) + rest, rounds) == Some(MakeNumber(v, |Encode(v)|))
    decreases rounds
  {
    if v >= 128 {
      ReadEncoded(v / 128, rest, rounds - 1);
      assert (Encode(v) + rest)[1..] == Encode(v / 128) + rest;
    }
  }

  /** Every 32-bit number reads back, whatever follows it. */
  lemma U32RoundTrip(v: nat, rest: seq<Byte>)
    requires v <= MAX_U32
    ensures ReadU32(Encode(v) + rest) == Some(MakeNumber(v, |Encode(v)|))
  {
    assert Pow128(5) == 128 * 128 * 128 * 128 * 128;
    ReadEncoded(v, rest, 5);
  }

  // ----- what is read -----

  /** The number that seven-bit digits stand for, lowest first. */
  function Total(b: seq<Byte>): nat { if b == [] then 0 else b[0] % 128 + 128 * Total(b[1..]) }

  /** Every byte but the last announces another. */
  ghost predicate Terminated(b: seq<Byte>)
  {
    b != [] && b[|b| - 1] < 128 && forall i :: 0 <= i < |b| - 1 ==> b[i] >= 128
  }

  /** One to five bytes for a 32-bit number; high digits may be zero. */
  ghost predicate Spells(b: seq<Byte>, v: nat) { Terminated(b) && |b| <= 5 && v == Total(b) <= MAX_U32 }

  lemma {:induction false} ReadTerminated(data: seq<Byte>, rounds: nat, n: Number)
    ensures Read(data, rounds) == Some(n) <==>
            n.size <= rounds && n.size <= |data| && Terminated(data[..n.size]) && n.value == Total(data[..n.size])
    decreases rounds
  {
    if rounds > 0 && data != [] && n.size > 0 {
      var m := n.size - 1;
      if n.size <= |data| {
        assert data[..n.size] == [data[0]] + data[1..][..m];
        TerminatedCons(data[0], data[1..][..m]);
      }
      if data[0] >= 128 {
        ReadTerminated(data[1..], rounds - 1, MakeNumber(n.value / 128, m));
      } else if n.size > 1 && n.size <= |data| {
        assert data[..n.size][0] == data[0];
      }
    }
  }

  lemma TerminatedCons(x: Byte, b: seq<Byte>)
    ensures Total([x] + b) == x % 128 + 128 * Total(b)
    ensures Terminated([x] + b) <==> if b == [] then x < 128 else x >= 128 && Terminated(b)
  {
    assert ([x] + b)[1..] == b;
    if b != [] && Terminated([x] + b) {
      assert forall i :: 0 <= i < |b| ==> b[i] == ([x] + b)[i + 1];
    }
  }

  /** What is read is spelled by the bytes taken, and whatever is spelled is read. */
  lemma ReadSpells(data: seq<Byte>, n: Number)
    ensures ReadU32(data) == Some(n) <==> n.size <= |data| && Spells(data[..n.size], n.value)
  {
    ReadTerminated(data, 5, n);
  }

  // ----- the decoding loop -----

  lemma BitSplit(b: Byte, i: nat)
    ensures Bit(b, i) == if i < 7 then Bit(b % 128, i) else Bit(b / 128, i - 7)
  {
    assert Pow2(7) == 128;
    ShlIsMul(b / 128, 7);
    BitOfParts(b % 128, b / 128, 7, i);
  }

  lemma LowSeven(b: Byte)
    ensures And(b, 127) == b % 128
  {
    forall i: nat
      ensures Bit(And(b, 127), i) == Bit(b % 128, i)
    {
      BitAnd(b, 127, i);
      assert Shl(1, 7) - 1 == 127;
      BitOnes(7, i);
      BitSplit(b, i);
      assert Pow2(7) == 128;
      if i >= 7 { BitAbove(b % 128, 7, i); }
    }
    BitsExtensional(And(b, 127), b % 128);
  }

  lemma TopBit(b: Byte)
    ensures And(b, 128) != 0 <==> b >= 128
  {
    assert Shl(1, 7) == 128;
    TestBit(b, 7);
    BitSplit(b, 7);
  }

  /** A partial value with the rest of the number above it. */
  function Above(value: nat, bits: nat, size: nat, rest: Option<Number>): Option<Number>
  {
    if rest.None? then None
    else
      ShlNonneg(rest.value.value, bits);
      Some(MakeNumber(value + Shl(rest.value.value, bits), size + rest.value.size))
  }

  lemma {:induction false} ShlAdd(x: nat, y: nat, n: nat)
    ensures Shl(x + 128 * y, n) == Shl(x, n) + Shl(y, n + 7)
    decreases n
  {
    if n == 0 {
      ShlIsMul(y, 7);
      assert Pow2(7) == 128;
    } else {
      ShlAdd(x, y, n - 1);
    }
  }

  lemma {:induction false} ShlBelow(low: nat, n: nat)
    requires low < 128
    ensures 0 <= Shl(low, n) && Shl(low, n) + Pow2(n) <= Pow2(n + 7)
    decreases n
  {
    if n == 0 {
      assert Pow2(7) == 128;
    } else {
      ShlBelow(low, n - 1);
    }
  }

  lemma AboveNext(value: nat, bits: nat, size: nat, data: seq<Byte>, rounds: nat)
    requires rounds > 0 && data != []
    ensures 0 <= Shl(data[0] % 128, bits)
    ensures Above(value, bits, size, Read(data, rounds))
            == if data[0] < 128 then Some(MakeNumber(value + Shl(data[0] % 128, bits), size + 1))
               else Above(value + Shl(data[0] % 128, bits), bits + 7, size + 1, Read(data[1..], rounds - 1))
  {
    ShlNonneg(data[0] % 128, bits);
    var rest := Read(data[1..], rounds - 1);
    if rest.Some? { ShlAdd(data[0] % 128, rest.value.value, bits); }
  }

  lemma Accumulate(value: nat, bits: nat, b: Byte)
    requires value < Pow2(bits)
    ensures 0 <= Or(value, Shl(And(b, 127), bits)) == value + Shl(b % 128, bits) < Pow2(bits + 7)
  {
    LowSeven(b);
    BranchCodec.OrAbove(value, b % 128, bits);
    ShlBelow(b % 128, bits);
  }

  /** The value so far, and the digits to come, make up the number. */
  ghost predicate DigitsRead(whole: Option<Number>, payload: seq<Byte>, start: nat, k: nat, value: nat, bits: nat)
  {
    && k <= 5 && start + k <= |payload| && value < Pow2(bits)
    && whole == Above(value, bits, k, Read(payload[start + k..], 5 - k))
  }

  lemma DigitsStart(payload: seq<Byte>, start: nat)
    requires start <= |payload|
    ensures DigitsRead(Read(payload[start..], 5), payload, start, 0, 0, 0)
  {
  }

  lemma DigitsNext(whole: Option<Number>, payload: seq<Byte>, start: nat, k: nat, value: nat, bits: nat, b: Byte)
    requires DigitsRead(whole, payload, start, k, value, bits) && k < 5 && start + k < |payload|
             && b == payload[start + k]
    ensures var next := Or(value, Shl(And(b, 127), bits));
            && next >= 0
            && (And(b, 128) == 0 ==> whole == Some(MakeNumber(next, k + 1)))
            && (And(b, 128) != 0 ==> DigitsRead(whole, payload, start, k + 1, next, bits + 7))
  {
    Accumulate(value, bits, b);
    TopBit(b);
    AboveNext(value, bits, k, payload[start + k..], 5 - k);
    Rest(payload, start + k);
  }

  lemma DigitsEnd(whole: Option<Number>, payload: seq<Byte>, start: nat, k: nat, value: nat, bits: nat)
    requires DigitsRead(whole, payload, start, k, value, bits) && (k == 5 || start + k == |payload|)
    ensures whole.None?
  {
  }

  method Decode(payload: seq<Byte>, start: nat) returns (r: Option<Number>)
    requires start <= |payload|
    ensures r == ReadU32(payload[start..])
  {
    var value: nat, bits: nat, offset := 0, 0, start;
    ghost var whole := Read(payload[start..], 5);
    DigitsStart(payload, start);
    for k := 0 to 5
      invariant offset == start + k && DigitsRead(whole, payload, start, k, value, bits)
    {
      if offset >= |payload| {
        DigitsEnd(whole, payload, start, k, value, bits);
        return None;
      }
      var b := payload[offset];
      DigitsNext(whole, payload, start, k, value, bits, b);
      offset, value, bits := offset + 1, Or(value, Shl(And(b, 127), bits)), bits + 7;
      if And(b, 128) == 0 { return if value > MAX_U32 then None else Some(MakeNumber(value, offset - start)); }
    }
    DigitsEnd(whole, payload, start, 5, value, bits);
    return None;
  }

  lemma Rest(payload: seq<Byte>, offset: nat)
    requires offset < |payload|
    ensures payload[offset..][0] == payload[offset] && payload[offset..][1..] == payload[offset + 1..]
  {
  }
}
