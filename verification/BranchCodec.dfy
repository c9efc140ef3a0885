/** Two-bit packing of branch vectors and its hexadecimal text form. */
module BranchCodec {
  import opened Bits
  import opened Words
  import opened Options
  import opened Text
  import opened Predicates
  import opened Bitmaps

  // ----- one byte: up to four branches, the first in the low bits -----

  function PackByte(bs: seq<Branch>): (b: nat)
    decreases |bs|
  {
    if bs == [] then 0 else bs[0] + 4 * PackByte(bs[1..])
  }

  function Pow4(n: nat): (r: nat)
    ensures r >= 1
  {
    if n == 0 then 1 else 4 * Pow4(n - 1)
  }

  lemma {:induction false} PackByteBound(bs: seq<Branch>)
    ensures PackByte(bs) < Pow4(|bs|)
    decreases |bs|
  {
    if bs != [] { PackByteBound(bs[1..]); }
  }

  /** `(b >> (2 * i)) & 3`. */
  function Slot(b: nat, i: nat): (s: nat)
    ensures s <= 3
  {
    AndNonneg(Shr(b, 2 * i), 3);
    And(Shr(b, 2 * i), 3)
  }

  lemma SlotIsDigit(b: nat, i: nat)
    ensures Slot(b, i) == Shr(b, 2 * i) % 4
    ensures i > 0 ==> Shr(b, 2 * i) == Shr(b / 4, 2 * (i - 1))
  {
    assert Pow2(2) == 4;
    MaskIsMod(Shr(b, 2 * i), 2);
    if i > 0 { assert b / 2 / 2 == b / 4; }
  }

  lemma {:induction false} SlotOfPacked(bs: seq<Branch>, i: nat)
    ensures Slot(PackByte(bs), i) == if i < |bs| then bs[i] else 0
    decreases |bs|
  {
    SlotIsDigit(PackByte(bs), i);
    if bs == [] {
      ShrZero(2 * i);
    } else if i > 0 {
      SlotOfPacked(bs[1..], i - 1);
      SlotIsDigit(PackByte(bs[1..]), i - 1);
    }
  }

  lemma {:induction false} ShrZero(n: nat)
    ensures Shr(0, n) == 0
    decreases n
  {
    if n > 0 { ShrZero(n - 1); }
  }

  predicate AllBranches(s: seq<nat>) { forall i :: 0 <= i < |s| ==> s[i] <= 2 }

  /** A byte with nothing above its first `n` slots is what packing them gives. */
  lemma {:induction false} RepackSlots(b: nat, n: nat, bs: seq<Branch>)
    requires Shr(b, 2 * n) == 0 && |bs| == n
    requires forall i :: 0 <= i < n ==> bs[i] == Slot(b, i)
    ensures PackByte(bs) == b
    decreases n
  {
    if n > 0 {
      SlotIsDigit(b, 0);
      assert b / 2 / 2 == b / 4;
      forall i | 0 <= i < n - 1
        ensures bs[1..][i] == Slot(b / 4, i)
      {
        SlotIsDigit(b, i + 1);
        SlotIsDigit(b / 4, i);
      }
      RepackSlots(b / 4, n - 1, bs[1..]);
    }
  }

  // ----- whole vectors -----

  function Min(a: nat, b: nat): nat { if a < b then a else b }

  function PackBytes(bs: seq<Branch>): (data: seq<Byte>)
    ensures |data| == (|bs| + 3) / 4
    decreases |bs|
  {
    if bs == [] then []
    else
      var n := Min(4, |bs|);
      PackByteBound(bs[..n]);
      assert Pow4(1) == 4 && Pow4(2) == 16 && Pow4(3) == 64 && Pow4(4) == 256;
      [PackByte(bs[..n])] + PackBytes(bs[n..])
  }

  /** The outcomes that byte `k` holds. */
  function Part(bs: seq<Branch>, k: nat): seq<Branch>
    requires 4 * k <= |bs|
  {
    bs[4 * k..Min(4 * k + 4, |bs|)]
  }

  lemma {:induction false} PackedByteAt(bs: seq<Branch>, k: nat)
    requires 4 * k < |bs|
    ensures PackBytes(bs)[k] == PackByte(Part(bs, k))
    decreases k
  {
    if k > 0 {
      PackedByteAt(bs[4..], k - 1);
      PackTail(bs, k);
      PartOfTail(bs, k);
    }
  }

  lemma PackTail(bs: seq<Branch>, k: nat)
    requires 0 < k && 4 * k < |bs|
    ensures PackBytes(bs)[k] == PackBytes(bs[4..])[k - 1]
  {
  }

  lemma PartOfTail(bs: seq<Branch>, k: nat)
    requires 0 < k && 4 * k < |bs|
    ensures Part(bs[4..], k - 1) == Part(bs, k)
  {
  }

  lemma PackedSlot(bs: seq<Branch>, i: nat)
    requires i < |bs|
    ensures Slot(PackBytes(bs)[i / 4], i % 4) == bs[i]
  {
    PackedSlotAt(bs, i / 4, i % 4);
  }

  lemma PackedSlotAt(bs: seq<Branch>, k: nat, j: nat)
    requires j < 4 && 4 * k + j < |bs|
    ensures Slot(PackBytes(bs)[k], j) == bs[4 * k + j]
  {
    PackedByteAt(bs, k);
    SlotOfPacked(Part(bs, k), j);
  }

  lemma QuarterIndex(k: nat, i: nat)
    requires i < 4
    ensures (4 * k + i) / 4 == k && (4 * k + i) % 4 == i
  {
  }

  /** The raw values `count` slots hold. */
  function RawSlots(data: seq<Byte>, count: nat): (s: seq<nat>)
    requires |data| == (count + 3) / 4
    ensures |s| == count
  {
    seq(count, i requires 0 <= i < count => Slot(data[i / 4], i % 4))
  }

  /** Unpack, refusing a wrong length, nonzero padding or the value 3. */
  function UnpackBytes(data: seq<Byte>, count: nat): Option<seq<Branch>>
  {
    if |data| != (count + 3) / 4 then None
    else if !PaddingClear(data, count) then None
    else if !AllBranches(RawSlots(data, count)) then None
    else
      var branches: seq<Branch> := RawSlots(data, count);
      Some(branches)
  }

  lemma PackedPadding(bs: seq<Branch>)
    requires |bs| % 4 != 0
    ensures Shr(PackBytes(bs)[|PackBytes(bs)| - 1], 2 * (|bs| % 4)) == 0
  {
    var k := |bs| / 4;
    PackedByteAt(bs, k);
    ShrOfPacked(bs[4 * k..]);
    assert bs[4 * k..Min(4 * k + 4, |bs|)] == bs[4 * k..];
  }

  lemma {:induction false} ShrOfPacked(bs: seq<Branch>)
    ensures Shr(PackByte(bs), 2 * |bs|) == 0
    decreases |bs|
  {
    if bs != [] {
      ShrOfPacked(bs[1..]);
      assert PackByte(bs) / 2 / 2 == PackByte(bs[1..]);
    }
  }

  predicate PaddingClear(data: seq<Byte>, count: nat)
    requires |data| == (count + 3) / 4
  {
    count % 4 != 0 ==> Shr(data[|data| - 1], 2 * (count % 4)) == 0
  }

  lemma RawSlotsOfPacked(bs: seq<Branch>)
    ensures RawSlots(PackBytes(bs), |bs|) == bs
  {
    forall i | 0 <= i < |bs|
      ensures RawSlots(PackBytes(bs), |bs|)[i] == bs[i]
    {
      PackedSlot(bs, i);
    }
  }

  /** Unpacking undoes packing. */
  lemma UnpackPacked(bs: seq<Branch>)
    ensures UnpackBytes(PackBytes(bs), |bs|) == Some(bs)
  {
    RawSlotsOfPacked(bs);
    if |bs| % 4 != 0 { PackedPadding(bs); }
  }

  lemma RepackByte(data: seq<Byte>, bs: seq<Branch>, k: nat)
    requires |data| == (|bs| + 3) / 4 && PaddingClear(data, |bs|) && k < |data|
    requires forall i :: 0 <= i < |bs| ==> bs[i] == Slot(data[i / 4], i % 4)
    ensures PackByte(Part(bs, k)) == data[k]
  {
    var n := Min(4, |bs| - 4 * k);
    var part := bs[4 * k..4 * k + n];
    ByteShift(data[k]);
    forall i | 0 <= i < n
      ensures part[i] == Slot(data[k], i)
    {
      QuarterIndex(k, i);
    }
    RepackSlots(data[k], n, part);
  }

  /** Only packed vectors are accepted. */
  lemma PackUnpacked(data: seq<Byte>, count: nat)
    requires UnpackBytes(data, count).Some?
    ensures |UnpackBytes(data, count).value| == count
    ensures PackBytes(UnpackBytes(data, count).value) == data
  {
    var bs := UnpackBytes(data, count).value;
    assert bs == RawSlots(data, count);
    forall k | 0 <= k < |data|
      ensures PackBytes(bs)[k] == data[k]
    {
      PackedByteAt(bs, k);
      RepackByte(data, bs, k);
    }
  }

  lemma ByteShift(b: Byte)
    ensures Shr(b, 8) == 0
  {
    assert Pow2(8) == 256;
    ShrUnique(b, 8, 0);
  }

  // ----- the in-place packer -----

  lemma {:induction false} OrOfHalves(a: nat, b: nat)
    ensures Or(a, b) == 2 * Or(a / 2, b / 2) + (if a % 2 == 1 || b % 2 == 1 then 1 else 0)
  {
    var x, y := Not(a), Not(b);
    assert x / 2 == Not(a / 2) && y / 2 == Not(b / 2);
    assert And(x, y) == 2 * And(x / 2, y / 2) + (if x % 2 == 1 && y % 2 == 1 then 1 else 0);
  }

  /** Setting bits above everything present is addition. */
  lemma {:induction false} OrAbove(a: nat, b: nat, n: nat)
    requires a < Pow2(n)
    ensures Or(a, Shl(b, n)) == a + Shl(b, n)
    decreases n
  {
    if n == 0 {
      assert a == 0 && Shl(b, 0) == b;
      OrZero(b);
    } else {
      ShlNonneg(b, n);
      OrOfHalves(a, Shl(b, n));
      OrAbove(a / 2, b, n - 1);
    }
  }

  lemma OrZero(b: nat)
    ensures Or(0, b) == b && Or(b, 0) == b
  {
  }

  lemma {:induction false} PackByteSnoc(bs: seq<Branch>, b: Branch)
    ensures PackByte(bs + [b]) == PackByte(bs) + Shl(b, 2 * |bs|)
    decreases |bs|
  {
    if bs != [] {
      PackByteSnoc(bs[1..], b);
      assert (bs + [b])[1..] == bs[1..] + [b];
    }
  }

  lemma {:induction false} Pow4IsPow2(n: nat)
    ensures Pow4(n) == Pow2(2 * n)
    decreases n
  {
    if n > 0 { Pow4IsPow2(n - 1); }
  }

  lemma AppendSlot(bs: seq<Branch>, b: Branch)
    requires |bs| < 4
    ensures Or(PackByte(bs), Shl(b, 2 * |bs|)) == PackByte(bs + [b]) < 256
  {
    PackByteBound(bs);
    Pow4IsPow2(|bs|);
    OrAbove(PackByte(bs), b, 2 * |bs|);
    PackByteSnoc(bs, b);
    PackByteBound(bs + [b]);
    assert Pow4(1) == 4 && Pow4(2) == 16 && Pow4(3) == 64 && Pow4(4) == 256;
  }

  /** The outcomes of byte `k` among the first `i`. */
  function InByte(bs: seq<Branch>, i: nat, k: nat): seq<Branch>
    requires i <= |bs|
  {
    bs[Min(4 * k, i)..Min(4 * k + 4, i)]
  }

  lemma InByteNext(bs: seq<Branch>, i: nat, k: nat)
    requires i < |bs|
    ensures InByte(bs, i + 1, k) == if k == i / 4 then InByte(bs, i, k) + [bs[i]] else InByte(bs, i, k)
    ensures |InByte(bs, i, i / 4)| == i % 4
  {
  }

  /** The first `i` outcomes are in their bytes. */
  ghost predicate PackedUpTo(packed: seq<Byte>, bs: seq<Branch>, i: nat)
  {
    && i <= |bs| && |packed| == (|bs| + 3) / 4
    && forall k :: 0 <= k < |packed| ==> packed[k] == PackByte(InByte(bs, i, k))
  }

  lemma PackedNext(packed: seq<Byte>, bs: seq<Branch>, i: nat)
    requires PackedUpTo(packed, bs, i) && i < |bs|
    ensures i / 4 < |packed|
    ensures var b := Or(packed[i / 4], Shl(bs[i], 2 * (i % 4)));
            0 <= b < 256 && PackedUpTo(packed[i / 4 := b], bs, i + 1)
  {
    InByteNext(bs, i, i / 4);
    AppendSlot(InByte(bs, i, i / 4), bs[i]);
    forall k | 0 <= k < |packed| && k != i / 4
      ensures packed[k] == PackByte(InByte(bs, i + 1, k))
    {
      InByteNext(bs, i, k);
    }
  }

  lemma PackedAll(packed: seq<Byte>, bs: seq<Branch>)
    requires PackedUpTo(packed, bs, |bs|)
    ensures packed == PackBytes(bs)
  {
    forall k | 0 <= k < |packed|
      ensures packed[k] == PackBytes(bs)[k]
    {
      PackedByteAt(bs, k);
    }
  }

  /** `packed[i // 4] |= branch << (2 * (i % 4))`, over the whole vector. */
  method PackInPlace(bs: seq<Branch>) returns (packed: array<Byte>)
    ensures fresh(packed) && packed[..] == PackBytes(bs)
  {
    packed := new Byte[(|bs| + 3) / 4](_ => 0);
    var i := 0;
    while i < |bs|
      invariant PackedUpTo(packed[..], bs, i)
    {
      PackedNext(packed[..], bs, i);
      ghost var before := packed[..];
      packed[i / 4] := Or(packed[i / 4], Shl(bs[i], 2 * (i % 4)));
      assert packed[..] == before[i / 4 := packed[i / 4]];
      i := i + 1;
    }
    PackedAll(packed[..], bs);
  }

  // ----- the text form: a hit count and lowercase hexadecimal -----

  function Hex(data: seq<Byte>): (s: string)
    ensures |s| == 2 * |data|
  {
    if data == [] then [] else [DigitChar(data[0] / 16), DigitChar(data[0] % 16)] + Hex(data[1..])
  }

  predicate LowerHex(s: string) { forall i :: 0 <= i < |s| ==> IsHex(s[i]) && !('A' <= s[i] <= 'F') }

  function FromHex(s: string): (data: seq<Byte>)
    requires LowerHex(s) && |s| % 2 == 0
    ensures |data| == |s| / 2
  {
    if s == [] then [] else [16 * DigitValue(s[0]) + DigitValue(s[1])] + FromHex(s[2..])
  }

  lemma {:induction false} HexRoundTrip(data: seq<Byte>)
    ensures LowerHex(Hex(data)) && FromHex(Hex(data)) == data
  {
    if data != [] {
      HexRoundTrip(data[1..]);
      assert Hex(data)[2..] == Hex(data[1..]);
    }
  }

  lemma DigitBack(c: char)
    requires IsHex(c) && !('A' <= c <= 'F')
    ensures DigitChar(DigitValue(c)) == c
  {
  }

  lemma PairOfDigits(c: char, d: char)
    requires IsHex(c) && !('A' <= c <= 'F') && IsHex(d) && !('A' <= d <= 'F')
    ensures var b := 16 * DigitValue(c) + DigitValue(d);
            b < 256 && DigitChar(b / 16) == c && DigitChar(b % 16) == d
  {
    DigitBack(c);
    DigitBack(d);
  }

  lemma {:induction false} FromHexRoundTrip(s: string)
    requires LowerHex(s) && |s| % 2 == 0
    ensures Hex(FromHex(s)) == s
    decreases |s|
  {
    if s != [] {
      FromHexRoundTrip(s[2..]);
      PairOfDigits(s[0], s[1]);
      var data := FromHex(s);
      assert data[1..] == FromHex(s[2..]);
      assert s == [s[0], s[1]] + s[2..];
    }
  }

  datatype Packed = Packed(hits: int, text: string)

  datatype Unpacked = Vector(branches: Option<seq<Branch>>) | Malformed

  function PackBranches(branches: Option<seq<Branch>>): Packed
  {
    match branches
    case None => Packed(-1, "none")
    case Some(bs) => Packed(|bs|, if bs == [] then "none" else Hex(PackBytes(bs)))
  }

  function UnpackBranches(p: Packed): Unpacked
  {
    if p.hits < -1 then Malformed
    else if p.hits <= 0 then
      if p.text != "none" then Malformed else Vector(if p.hits == -1 then None else Some([]))
    else if !LowerHex(p.text) || |p.text| != 2 * ((p.hits + 3) / 4) then Malformed
    else
      var bs := UnpackBytes(FromHex(p.text), p.hits);
      if bs.None? then Malformed else Vector(bs)
  }

  /** Packing and unpacking are inverse, and nothing else is accepted. */
  lemma BranchCodecRoundTrip(branches: Option<seq<Branch>>)
    ensures UnpackBranches(PackBranches(branches)) == Vector(branches)
  {
    if branches.Some? && branches.value != [] {
      HexRoundTrip(PackBytes(branches.value));
      UnpackPacked(branches.value);
    }
  }

  lemma BranchCodecCanonical(p: Packed)
    requires UnpackBranches(p).Vector?
    ensures PackBranches(UnpackBranches(p).branches) == p
  {
    if p.hits > 0 {
      PackUnpacked(FromHex(p.text), p.hits);
      FromHexRoundTrip(p.text);
    }
  }
}
