/** Bit-sliced counters: plane `b` holds bit `b` of every candidate's count, and
    adding a mask ripples carries through the planes. */
module BitCounts {
  import opened Bits
  import opened Bitmaps

  // ----- one bin -----

  function Indicator(mask: int, c: nat): nat { if Bit(mask, c) then 1 else 0 }

  /** The count of candidate `c`: its plane bits, weighted by powers of two. */
  function Count(planes: seq<nat>, c: nat): nat
  {
    if planes == [] then 0 else Indicator(planes[0], c) + 2 * Count(planes[1..], c)
  }

  /** Ripple-carry addition of one to every candidate in `carry`. */
  function AddMask(planes: seq<nat>, carry: nat): seq<nat>
    decreases |planes|
  {
    if carry == 0 then planes
    else if planes == [] then [carry]
    else
      XorNonneg(planes[0], carry);
      AndNonneg(carry, planes[0]);
      [Xor(planes[0], carry)] + AddMask(planes[1..], And(carry, planes[0]))
  }

  /** Adding a mask adds one to exactly the candidates it contains. */
  lemma {:induction false} AddMaskCounts(planes: seq<nat>, carry: nat, c: nat)
    ensures Count(AddMask(planes, carry), c) == Count(planes, c) + Indicator(carry, c)
    decreases |planes|
  {
    if carry == 0 {
      BitOfZero(c);
    } else if planes != [] {
      XorNonneg(planes[0], carry);
      AndNonneg(carry, planes[0]);
      AddMaskCounts(planes[1..], And(carry, planes[0]), c);
      BitXor(planes[0], carry, c);
      BitAnd(carry, planes[0], c);
      assert AddMask(planes, carry)[1..] == AddMask(planes[1..], And(carry, planes[0]));
    }
  }

  /** How many of the added masks contain `c`. */
  function Occurrences(masks: seq<nat>, c: nat): nat
  {
    if masks == [] then 0 else Occurrences(masks[..|masks| - 1], c) + Indicator(masks[|masks| - 1], c)
  }

  function AddAll(masks: seq<nat>): seq<nat>
  {
    if masks == [] then [] else AddMask(AddAll(masks[..|masks| - 1]), masks[|masks| - 1])
  }

  /** After any sequence of additions the weighted plane bits are plain counts. */
  lemma {:induction false} SlicedCountsArePlain(masks: seq<nat>, c: nat)
    ensures Count(AddAll(masks), c) == Occurrences(masks, c)
    decreases |masks|
  {
    if masks != [] {
      SlicedCountsArePlain(masks[..|masks| - 1], c);
      AddMaskCounts(AddAll(masks[..|masks| - 1]), masks[|masks| - 1], c);
    }
  }

  // ----- planes stay inside the universe -----

  predicate Within(planes: seq<nat>, n: nat) { forall b :: 0 <= b < |planes| ==> planes[b] < Pow2(n) }

  lemma XorWithin(a: nat, b: nat, n: nat)
    requires a < Pow2(n) && b < Pow2(n)
    ensures 0 <= Xor(a, b) < Pow2(n)
  {
    XorNonneg(a, b);
    forall i: nat | i >= n
      ensures !Bit(Xor(a, b), i)
    {
      BitAbove(a, n, i);
      BitAbove(b, n, i);
      BitXor(a, b, i);
    }
    BoundFromBits(Xor(a, b), n);
  }

  lemma {:induction false} AddMaskWithin(planes: seq<nat>, carry: nat, n: nat)
    requires Within(planes, n) && carry < Pow2(n)
    ensures Within(AddMask(planes, carry), n)
    decreases |planes|
  {
    if carry != 0 && planes != [] {
      XorWithin(planes[0], carry, n);
      AndNonneg(carry, planes[0]);
      AddMaskWithin(planes[1..], And(carry, planes[0]), n);
    }
  }

  // ----- the counters -----

  const BIN_COUNT := 6

  /** The weight of plane `b` summed over the planes whose byte has the bit. */
  function ByteCount(planes: seq<nat>, width: nat, i: nat, weight: nat): nat
    requires i < 8 * width
    decreases |planes|
  {
    if planes == [] then 0
    else
      (if planes[0] != 0 && And(ToBytes(planes[0], width)[i / 8], Shl(1, i % 8)) != 0 then weight else 0)
      + ByteCount(planes[1..], width, i, 2 * weight)
  }

  lemma {:induction false} ByteCountIsCount(planes: seq<nat>, width: nat, i: nat, weight: nat)
    requires i < 8 * width
    ensures ByteCount(planes, width, i, weight) == weight * Count(planes, i)
    decreases |planes|
  {
    if planes != [] {
      ByteCountIsCount(planes[1..], width, i, 2 * weight);
      TestBit(ToBytes(planes[0], width)[i / 8], i % 8);
      ToBytesHas(planes[0], width, i);
      BitOfZero(i);
      Spread(weight, Indicator(planes[0], i), Count(planes[1..], i));
    }
  }

  lemma Spread(w: nat, x: nat, y: nat)
    ensures w * (x + 2 * y) == w * x + 2 * w * y
  {
  }

  lemma RippleStep(planes: seq<nat>, bit: nat, carry: nat)
    requires bit < |planes| && carry != 0
    ensures 0 <= Xor(planes[bit], carry) && 0 <= And(carry, planes[bit])
    ensures var after: seq<nat> := planes[bit := Xor(planes[bit], carry)];
            planes[..bit] + AddMask(planes[bit..], carry)
            == after[..bit + 1] + AddMask(after[bit + 1..], And(carry, planes[bit]))
  {
    XorNonneg(planes[bit], carry);
    AndNonneg(carry, planes[bit]);
    var after: seq<nat> := planes[bit := Xor(planes[bit], carry)];
    assert planes[bit..][1..] == after[bit + 1..];
    assert after[..bit + 1] == planes[..bit] + [after[bit]];
    var rest := AddMask(after[bit + 1..], And(carry, planes[bit]));
    assert AddMask(planes[bit..], carry) == [after[bit]] + rest;
    assert planes[..bit] + ([after[bit]] + rest) == planes[..bit] + [after[bit]] + rest;
  }

  /** The carry loop, rewriting one plane at a time. */
  method Ripple(start: seq<nat>, members: nat) returns (planes: seq<nat>)
    ensures planes == AddMask(start, members)
  {
    planes := start;
    var bit: nat, carry: nat := 0, members;
    assert planes[..0] + AddMask(planes[0..], carry) == AddMask(start, members);
    while carry != 0
      invariant bit <= |planes|
      invariant planes[..bit] + AddMask(planes[bit..], carry) == AddMask(start, members)
      decreases |planes| - bit
    {
      if bit == |planes| {
        return planes + [carry];
      }
      RippleStep(planes, bit, carry);
      var previous := planes[bit];
      planes := planes[bit := Xor(previous, carry)];
      carry := And(carry, previous);
      bit := bit + 1;
    }
    assert planes == planes[..bit] + planes[bit..];
  }

  class Counters {
    var bins: seq<seq<nat>>
    ghost var added: seq<seq<nat>>  // the masks each bin was given, in order

    ghost predicate Valid()
      reads this
    {
      |bins| == |added| == BIN_COUNT && forall b :: 0 <= b < BIN_COUNT ==> bins[b] == AddAll(added[b])
    }

    constructor ()
      ensures Valid() && added == seq(BIN_COUNT, _ => [])
    {
      bins := seq(BIN_COUNT, _ => []);
      added := seq(BIN_COUNT, _ => []);
    }

    /** Add one mask to one bin. */
    method Add(bin: nat, members: nat)
      requires Valid() && bin < BIN_COUNT
      modifies this
      ensures Valid() && added == old(added)[bin := old(added)[bin] + [members]]
    {
      var planes := Ripple(bins[bin], members);
      bins := bins[bin := planes];
      ghost var masks := added[bin] + [members];
      assert masks[..|masks| - 1] == added[bin];
      added := added[bin := masks];
    }

    /** Compare every stored row with the sliced counts.  A plane that does not
        fit in the candidates' bytes raises, which also refuses. */
    method Validate(rows: seq<seq<nat>>) returns (ok: bool)
      requires Valid() && forall i :: 0 <= i < |rows| ==> |rows[i]| == BIN_COUNT
      ensures ok <==>
              && (forall b :: 0 <= b < BIN_COUNT ==> Within(bins[b], 8 * ((|rows| + 7) / 8)))
              && (forall i, b :: 0 <= i < |rows| && 0 <= b < BIN_COUNT ==> rows[i][b] == Occurrences(added[b], i))
    {
      var width := (|rows| + 7) / 8;
      Pow256IsPow2(width);
      for b := 0 to BIN_COUNT
        invariant forall c :: 0 <= c < b ==> Within(bins[c], 8 * width)
      {
        if !(forall k :: 0 <= k < |bins[b]| ==> bins[b][k] < Pow256(width)) {
          assert !Within(bins[b], 8 * width);
          return false;
        }
      }
      for i := 0 to |rows|
        invariant forall k, b :: 0 <= k < i && 0 <= b < BIN_COUNT ==> rows[k][b] == Occurrences(added[b], k)
      {
        for b := 0 to BIN_COUNT
          invariant forall c :: 0 <= c < b ==> rows[i][c] == Occurrences(added[c], i)
        {
          ByteCountIsCount(bins[b], width, i, 1);
          SlicedCountsArePlain(added[b], i);
          if rows[i][b] != ByteCount(bins[b], width, i, 1) {
            assert rows[i][b] != Occurrences(added[b], i);
            return false;
          }
        }
      }
      return true;
    }
  }

  /** Masks inside the universe keep every plane inside it. */
  lemma {:induction false} AddAllWithin(masks: seq<nat>, n: nat)
    requires forall k :: 0 <= k < |masks| ==> masks[k] < Pow2(n)
    ensures Within(AddAll(masks), n)
    decreases |masks|
  {
    if masks != [] {
      AddAllWithin(masks[..|masks| - 1], n);
      AddMaskWithin(AddAll(masks[..|masks| - 1]), masks[|masks| - 1], n);
    }
  }
}
