/** The FILTER result payload: a candidate count, a survivor count and one bit
    per candidate. */
module Filter {
  import opened Sequences
  import opened Bits
  import opened Bitmaps
  import opened Options
  import opened Frames
  import MemberPool

  function Prefix(total: nat, count: nat, size: nat): (b: seq<Byte>)
    ensures |b| == 12
  {
    ToBytes(total, 4) + ToBytes(count, 4) + ToBytes(size, 4)
  }

  /** The bitmap of a set of survivors: candidate `p` is bit `p - 1`. */
  ghost predicate IsBitmap(bitmap: seq<Byte>, total: nat, selected: set<nat>)
  {
    |bitmap| == (total + 7) / 8 && forall i: nat :: Has(bitmap, i) <==> i + 1 in selected
  }

  ghost predicate InRange(total: nat, selected: set<nat>)
  {
    total <= 0xFFFF_FFFF && 12 + (total + 7) / 8 <= MAX_FRAME && forall p :: p in selected ==> 1 <= p <= total
  }

  /** What the writer emits for a set of survivors. */
  ghost predicate IsPayload(payload: seq<Byte>, total: nat, selected: set<nat>)
  {
    && InRange(total, selected) && |payload| >= 12
    && payload[..12] == Prefix(total, |selected|, (total + 7) / 8) && IsBitmap(payload[12..], total, selected)
  }

  datatype Written = Payload(data: seq<Byte>) | BadCount | OutsideRange | TooBig

  // ----- writing -----

  /** Set the bit of every survivor. */
  method WriteBitmap(total: nat, selected: set<nat>) returns (bitmap: array<Byte>)
    requires forall p :: p in selected ==> 1 <= p <= total
    ensures fresh(bitmap) && IsBitmap(bitmap[..], total, selected)
  {
    bitmap := new Byte[(total + 7) / 8](_ => 0);
    forall i: nat ensures !Has(bitmap[..], i) { BitOfZero(i % 8); }
    var rest := selected;
    while rest != {}
      invariant rest <= selected
      invariant forall i: nat :: Has(bitmap[..], i) <==> i + 1 in selected - rest
      decreases |rest|
    {
      var p :| p in rest;
      var k := (p - 1) % 8;
      MemberPool.OnesMask(k, k + 1);
      assert Shl(1, 1) - 1 == 1;
      MemberPool.OrByte(bitmap, (p - 1) / 8, Shl(1, k), k, k + 1);
      rest := rest - {p};
    }
  }

  method WriteFilter(total: int, selected: set<nat>) returns (r: Written)
    ensures r.BadCount? <==> !(0 <= total <= 0xFFFF_FFFF)
    ensures r.OutsideRange? <==> 0 <= total <= 0xFFFF_FFFF && exists p :: p in selected && !(1 <= p <= total)
    ensures r.Payload? <==> total >= 0 && InRange(total, selected)
    ensures r.Payload? ==> IsPayload(r.data, total, selected)
  {
    if total < 0 || total > 0xFFFF_FFFF { return BadCount; }
    if exists p :: p in selected && !(1 <= p <= total) { return OutsideRange; }
    var size := (total + 7) / 8;
    if 12 + size > MAX_FRAME { return TooBig; }
    var bitmap := WriteBitmap(total, selected);
    var data := Prefix(total, |selected|, size) + bitmap[..];
    assert data[..12] == Prefix(total, |selected|, size) && data[12..] == bitmap[..];
    return Payload(data);
  }

  // ----- reading -----

  /** The set bits among the first `n`, as candidate ids in order. */
  function Survivors(bitmap: seq<Byte>, n: nat): (s: seq<nat>)
    requires n <= 8 * |bitmap|
  {
    if n == 0 then []
    else
      var before := Survivors(bitmap, n - 1);
      if And(bitmap[(n - 1) / 8], Shl(1, (n - 1) % 8)) != 0 then before + [n] else before
  }

  datatype Result = MakeResult(total: nat, passed: seq<nat>)

  predicate TailClear(bitmap: seq<Byte>, total: nat)
  {
    total % 8 == 0 || bitmap == [] || And(bitmap[|bitmap| - 1], Not(Shl(1, total % 8) - 1)) == 0
  }

  function ReadFilter(payload: seq<Byte>): Option<Result>
  {
    if |payload| < 12 then None
    else
      var total, count, size := FromBytes(payload[..4]), FromBytes(payload[4..8]), FromBytes(payload[8..12]);
      var bitmap := payload[12..];
      if size != (total + 7) / 8 || |bitmap| != size || !TailClear(bitmap, total) then None
      else if |Survivors(bitmap, total)| != count then None
      else Some(MakeResult(total, Survivors(bitmap, total)))
  }

  // ----- the survivors are the set bits -----

  ghost predicate Lists(s: seq<nat>, selected: set<nat>)
  {
    Increasing(s) && (forall i :: 0 <= i < |s| ==> s[i] in selected) && forall p :: p in selected ==> p in s
  }

  lemma SurvivorsNext(bitmap: seq<Byte>, n: nat, p: nat)
    requires 0 < n <= 8 * |bitmap|
    ensures p in Survivors(bitmap, n) <==> p in Survivors(bitmap, n - 1) || (p == n && Has(bitmap, n - 1))
  {
    TestBit(bitmap[(n - 1) / 8], (n - 1) % 8);
  }

  lemma {:induction false} SurvivorsExact(bitmap: seq<Byte>, n: nat, p: nat)
    requires n <= 8 * |bitmap|
    ensures p in Survivors(bitmap, n) <==> 1 <= p <= n && Has(bitmap, p - 1)
    decreases n
  {
    if n > 0 {
      SurvivorsExact(bitmap, n - 1, p);
      SurvivorsNext(bitmap, n, p);
    }
  }

  lemma {:induction false} SurvivorsIncrease(bitmap: seq<Byte>, n: nat)
    requires n <= 8 * |bitmap|
    ensures Increasing(Survivors(bitmap, n)) && forall i :: 0 <= i < |Survivors(bitmap, n)| ==>
            Survivors(bitmap, n)[i] <= n
    decreases n
  {
    if n > 0 { SurvivorsIncrease(bitmap, n - 1); }
  }

  /** An increasing list has as many elements as its set. */
  lemma {:induction false} ListSize(s: seq<nat>, selected: set<nat>)
    requires Lists(s, selected)
    ensures |s| == |selected|
    decreases |s|
  {
    if s == [] {
      assert selected == {};
    } else {
      var n := |s| - 1;
      assert s[n] in selected;
      forall p | p in selected - {s[n]}
        ensures p in s[..n]
      {
        assert p in s;
        var i :| 0 <= i < |s| && s[i] == p;
        assert s[..n][i] == p;
      }
      ListSize(s[..n], selected - {s[n]});
    }
  }

  ghost predicate ClearFrom(x: Byte, k: nat) { forall j: nat :: k <= j < 8 ==> !Bit(x, j) }

  lemma TailBit(x: Byte, k: nat, j: nat)
    ensures Bit(And(x, Not(Shl(1, k) - 1)), j) <==> j >= k && Bit(x, j)
  {
    BitAnd(x, Not(Shl(1, k) - 1), j);
    BitNot(Shl(1, k) - 1, j);
    BitOnes(k, j);
  }

  lemma TailBits(x: Byte, k: nat)
    ensures And(x, Not(Shl(1, k) - 1)) == 0 <==> ClearFrom(x, k)
  {
    var tail := And(x, Not(Shl(1, k) - 1));
    if tail == 0 {
      forall j: nat | k <= j < 8
        ensures !Bit(x, j)
      {
        TailBit(x, k, j);
        BitOfZero(j);
      }
    }
    if ClearFrom(x, k) {
      forall j: nat
        ensures Bit(tail, j) == Bit(0, j)
      {
        TailBit(x, k, j);
        BitInByte(x, j);
        BitOfZero(j);
      }
      BitsExtensional(tail, 0);
    }
  }

  lemma IndexBelow(i: nat, total: nat)
    ensures i < total <==> i / 8 < total / 8 || (i / 8 == total / 8 && i % 8 < total % 8)
  {
  }

  lemma TailStops(bitmap: seq<Byte>, total: nat, i: nat)
    requires |bitmap| == (total + 7) / 8 && (total % 8 == 0 || ClearFrom(bitmap[|bitmap| - 1], total % 8))
             && Has(bitmap, i)
    ensures i < total
  {
    IndexBelow(i, total);
  }

  lemma TailCleared(bitmap: seq<Byte>, total: nat, j: nat)
    requires |bitmap| == (total + 7) / 8 && 0 < total % 8 <= j < 8 && forall i: nat :: Has(bitmap, i) ==> i < total
    ensures !Bit(bitmap[|bitmap| - 1], j)
  {
    var i := 8 * (total / 8) + j;
    assert i / 8 == total / 8 && i % 8 == j;
    assert Has(bitmap, i) ==> i < total;
    IndexBelow(i, total);
  }

  /** A clear tail means no candidate past the count. */
  lemma TailClearMeans(bitmap: seq<Byte>, total: nat)
    requires |bitmap| == (total + 7) / 8
    ensures TailClear(bitmap, total) <==> forall i: nat :: Has(bitmap, i) ==> i < total
  {
    if total % 8 != 0 { TailBits(bitmap[|bitmap| - 1], total % 8); }
    if TailClear(bitmap, total) {
      forall i: nat | Has(bitmap, i) ensures i < total { TailStops(bitmap, total, i); }
    }
    if total % 8 != 0 && forall i: nat :: Has(bitmap, i) ==> i < total {
      var last := bitmap[|bitmap| - 1];
      forall j: nat | total % 8 <= j < 8 ensures !Bit(last, j) { TailCleared(bitmap, total, j); }
    }
  }

  lemma WordReads(word: seq<Byte>, x: nat)
    requires |word| == 4 && x <= 0xFFFF_FFFF
    ensures word == ToBytes(x, 4) <==> FromBytes(word) == x
  {
    assert Pow256(4) == 0x1_0000_0000;
    FromToBytes(x, 4);
    ToFromBytes(word);
  }

  lemma ThreeWords(payload: seq<Byte>, a: seq<Byte>, b: seq<Byte>, c: seq<Byte>)
    requires |payload| >= 12 && |a| == |b| == |c| == 4
    ensures payload[..12] == a + b + c <==> payload[..4] == a && payload[4..8] == b && payload[8..12] == c
  {
    var head := payload[..12];
    assert payload[..4] == head[..4] && payload[4..8] == head[4..8] && payload[8..12] == head[8..12];
    assert head == head[..4] + head[4..8] + head[8..12];
  }

  lemma PrefixReads(payload: seq<Byte>, total: nat, count: nat, size: nat)
    requires |payload| >= 12 && total <= 0xFFFF_FFFF && count <= 0xFFFF_FFFF && size <= 0xFFFF_FFFF
    ensures payload[..12] == Prefix(total, count, size) <==>
            FromBytes(payload[..4]) == total && FromBytes(payload[4..8]) == count && FromBytes(payload[8..12]) == size
  {
    WordReads(payload[..4], total);
    WordReads(payload[4..8], count);
    WordReads(payload[8..12], size);
    ThreeWords(payload, ToBytes(total, 4), ToBytes(count, 4), ToBytes(size, 4));
  }

  lemma BoundedSize(selected: set<nat>, total: nat)
    requires forall p :: p in selected ==> 1 <= p <= total
    ensures |selected| <= total
    decreases total
  {
    if total > 0 {
      BoundedSize(selected - {total}, total - 1);
    } else {
      assert selected == {};
    }
  }

  /** What was written reads back, as the sorted list of survivors. */
  lemma WrittenReads(payload: seq<Byte>, total: nat, selected: set<nat>)
    requires IsPayload(payload, total, selected)
    ensures ReadFilter(payload).Some? && ReadFilter(payload).value.total == total
    ensures Lists(ReadFilter(payload).value.passed, selected)
  {
    var bitmap := payload[12..];
    BoundedSize(selected, total);
    PrefixReads(payload, total, |selected|, (total + 7) / 8);
    TailClearMeans(bitmap, total);
    SurvivorsIncrease(bitmap, total);
    var s := Survivors(bitmap, total);
    forall p: nat
      ensures p in s <==> p in selected
    {
      SurvivorsExact(bitmap, total, p);
      if 1 <= p { assert Has(bitmap, p - 1) <==> (p - 1) + 1 in selected; }
    }
    ListSize(s, selected);
  }

  lemma ReadBitmap(bitmap: seq<Byte>, total: nat)
    requires |bitmap| == (total + 7) / 8 && TailClear(bitmap, total)
    ensures var s := Survivors(bitmap, total);
            |Elements(s)| == |s| && IsBitmap(bitmap, total, Elements(s)) && forall p :: p in s ==> 1 <= p <= total
  {
    var s := Survivors(bitmap, total);
    TailClearMeans(bitmap, total);
    SurvivorsIncrease(bitmap, total);
    ListSize(s, Elements(s));
    forall p: nat
      ensures p in s <==> 1 <= p <= total && Has(bitmap, p - 1)
    {
      SurvivorsExact(bitmap, total, p);
    }
    forall i: nat
      ensures Has(bitmap, i) <==> i + 1 in s
    {
      if Has(bitmap, i) { assert i < total; }
    }
  }

  /** Only what could have been written is accepted. */
  lemma ReadWasWritten(payload: seq<Byte>)
    requires |payload| <= MAX_FRAME && ReadFilter(payload).Some?
    ensures var r := ReadFilter(payload).value; IsPayload(payload, r.total, Elements(r.passed))
  {
    var r := ReadFilter(payload).value;
    ReadBitmap(payload[12..], r.total);
    ToFromBytes(payload[..4]);
    assert Pow256(4) == 0x1_0000_0000;
    BoundedSize(Elements(r.passed), r.total);
    PrefixReads(payload, r.total, |r.passed|, (r.total + 7) / 8);
  }
}
