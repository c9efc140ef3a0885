/** The packed forms of a member set and the pool that interns them. */
module MemberPool {
  import opened Sequences
  import opened Bits
  import opened Bitmaps
  import opened Options
  import opened IdRanges
  import opened Members
  import Text

  // ----- writing a bitmap in place -----

  lemma OrBelow(a: nat, b: nat, n: nat)
    requires a < Pow2(n) && b < Pow2(n)
    ensures 0 <= Or(a, b) < Pow2(n)
  {
    OrNonneg(a, b);
    forall i: nat | i >= n
      ensures !Bit(Or(a, b), i)
    {
      BitAbove(a, n, i);
      BitAbove(b, n, i);
      BitOr(a, b, i);
    }
    BoundFromBits(Or(a, b), n);
  }

  /** Or-ing a byte whose bits are `lo <= j < hi` sets exactly those. */
  ghost predicate MaskOf(mask: int, lo: nat, hi: nat)
  {
    0 <= mask < 256 && forall j: nat :: Bit(mask, j) <==> lo <= j < hi
  }

  lemma OnesMask(lo: nat, hi: nat)
    requires lo <= hi <= 8
    ensures MaskOf(Shl(Shl(1, hi - lo) - 1, lo), lo, hi)
  {
    var mask := Shl(Shl(1, hi - lo) - 1, lo);
    forall j: nat
      ensures Bit(mask, j) <==> lo <= j < hi
    {
      BitShl(Shl(1, hi - lo) - 1, lo, j);
      if j >= lo { BitOnes(hi - lo, j - lo); }
    }
    ShlNonneg(1, hi - lo);
    ShlNonneg(Shl(1, hi - lo) - 1, lo);
    assert Pow2(8) == 256;
    BoundFromBits(mask, 8);
  }

  lemma HighMask(lo: nat)
    requires lo < 8
    ensures MaskOf(And(Shl(255, lo), 255), lo, 8)
  {
    var mask := And(Shl(255, lo), 255);
    AndNonneg(Shl(255, lo), 255);
    forall j: nat
      ensures Bit(mask, j) <==> lo <= j < 8
    {
      BitAnd(Shl(255, lo), 255, j);
      BitShl(255, lo, j);
      ByteOnes(j);
      if j >= lo { ByteOnes(j - lo); }
    }
  }

  lemma ByteOnes(j: nat)
    ensures Bit(255, j) <==> j < 8
  {
    assert Shl(1, 8) - 1 == 255;
    BitOnes(8, j);
  }

  lemma LowMask(hi: nat)
    requires hi <= 8
    ensures MaskOf(Shl(1, hi) - 1, 0, hi)
  {
    OnesMask(0, hi);
    assert Shl(Shl(1, hi) - 1, 0) == Shl(1, hi) - 1;
  }

  /** `result[k] |= mask`. */
  method OrByte(result: array<Byte>, k: nat, mask: int, ghost lo: nat, ghost hi: nat)
    requires k < result.Length && hi <= 8 && MaskOf(mask, lo, hi)
    modifies result
    ensures forall i: nat :: Has(result[..], i) <==> Has(old(result[..]), i) || (8 * k + lo <= i < 8 * k + hi)
  {
    ghost var before := result[..];
    assert Pow2(8) == 256;
    OrBelow(before[k], mask, 8);
    result[k] := Or(result[k], mask);
    ghost var after := result[..];
    assert after == before[k := after[k]];
    forall i: nat
      ensures Has(after, i) <==> Has(before, i) || (8 * k + lo <= i < 8 * k + hi)
    {
      if i / 8 == k {
        BitOr(before[k], mask, i % 8);
        assert i == 8 * k + i % 8;
      }
    }
  }

  /** `result[lo:hi] = b"\\xff" * (hi - lo)`. */
  method FillBytes(result: array<Byte>, lo: nat, hi: nat)
    requires lo <= hi <= result.Length
    modifies result
    ensures forall i: nat :: Has(result[..], i) <==> Has(old(result[..]), i) || (8 * lo <= i < 8 * hi)
  {
    ghost var before := result[..];
    for k := lo to hi
      invariant forall j :: 0 <= j < result.Length ==> result[j] == if lo <= j < k then 255 else before[j]
    {
      result[k] := 255;
    }
    ghost var after := result[..];
    forall i: nat
      ensures Has(after, i) <==> Has(before, i) || (8 * lo <= i < 8 * hi)
    {
      ByteOnes(i % 8);
      if i / 8 < |after| { assert after[i / 8] == if lo <= i / 8 < hi then 255 else before[i / 8]; }
    }
  }

  /** Set the bits `start <= i < stop`, byte-wise. */
  method FillInterval(result: array<Byte>, start: nat, stop: nat)
    requires start < stop <= 8 * result.Length
    modifies result
    ensures forall i: nat :: Has(result[..], i) <==> Has(old(result[..]), i) || start <= i < stop
  {
    var first, last := start / 8, (stop - 1) / 8;
    if first == last {
      OnesMask(start % 8, start % 8 + (stop - start));
      OrByte(result, first, Shl(Shl(1, stop - start) - 1, start % 8), start % 8, start % 8 + (stop - start));
    } else {
      HighMask(start % 8);
      OrByte(result, first, And(Shl(255, start % 8), 255), start % 8, 8);
      FillBytes(result, first + 1, last);
      LowMask((stop - 1) % 8 + 1);
      OrByte(result, last, Shl(1, (stop - 1) % 8 + 1) - 1, 0, (stop - 1) % 8 + 1);
    }
  }

  function BitmapSize(bounds: seq<nat>): nat
  {
    if bounds == [] then 0 else (bounds[|bounds| - 1] + 7) / 8
  }

  /** `data` is the bitmap of the bounds. */
  ghost predicate IsBitmap(bounds: seq<nat>, data: seq<Byte>)
  {
    |data| == BitmapSize(bounds) && forall i: nat :: Has(data, i) <==> Inside(bounds, i)
  }

  /** Pack half-open index intervals without enumerating members. */
  method Bitmap(bounds: seq<nat>) returns (result: array<Byte>)
    requires StrictlyUp(bounds) && |bounds| % 2 == 0
    ensures fresh(result) && IsBitmap(bounds, result[..])
  {
    result := new Byte[BitmapSize(bounds)](_ => 0);
    assert forall i: nat :: !Has(result[..], i) by {
      forall i: nat
        ensures !Has(result[..], i)
      {
        BitOfZero(i % 8);
      }
    }
    var offset := 0;
    while offset < |bounds|
      invariant 0 <= offset <= |bounds| && offset % 2 == 0
      invariant forall i: nat :: Has(result[..], i) <==> Inside(bounds[..offset], i)
    {
      var start, stop := bounds[offset], bounds[offset + 1];
      assert stop <= bounds[|bounds| - 1];
      ghost var before := result[..];
      FillInterval(result, start, stop);
      forall i: nat
        ensures Has(result[..], i) <==> Inside(bounds[..offset + 2], i)
      {
        assert Has(before, i) <==> Inside(bounds[..offset], i);
        NextInterval(bounds, offset, i);
      }
      offset := offset + 2;
    }
    assert bounds[..offset] == bounds;
  }

  lemma NextInterval(bounds: seq<nat>, offset: nat, i: nat)
    requires StrictlyUp(bounds) && offset + 1 < |bounds| && offset % 2 == 0
    ensures Inside(bounds[..offset + 2], i) <==> Inside(bounds[..offset], i) || bounds[offset] <= i < bounds[offset + 1]
  {
    var start, stop := bounds[offset], bounds[offset + 1];
    assert bounds[..offset + 2] == bounds[..offset] + [start] + [(stop - 1) + 1];
    AppendInterval(bounds[..offset], start, stop - 1, i);
  }

  /** Byte strings with the same members and length are equal. */
  lemma BitmapsEqual(a: seq<Byte>, b: seq<Byte>)
    requires |a| == |b| && forall i: nat :: Has(a, i) == Has(b, i)
    ensures a == b
  {
    forall k | 0 <= k < |a|
      ensures a[k] == b[k]
    {
      forall j: nat
        ensures Bit(a[k], j) == Bit(b[k], j)
      {
        BitInByte(a[k], j);
        BitInByte(b[k], j);
        if j < 8 {
          assert Has(a, 8 * k + j) == Has(b, 8 * k + j);
          assert (8 * k + j) / 8 == k && (8 * k + j) % 8 == j;
        }
      }
      BitsExtensional(a[k], b[k]);
    }
  }

  // ----- the bounds as 32-bit words -----

  function Words32(bounds: seq<nat>): seq<Byte>
  {
    if bounds == [] then [] else ToBytes(bounds[0], 4) + Words32(bounds[1..])
  }

  function FromWords32(data: seq<Byte>): seq<nat>
    decreases |data|
  {
    if |data| < 4 then [] else [FromBytes(data[..4])] + FromWords32(data[4..])
  }

  lemma {:induction false} WordsRoundTrip(bounds: seq<nat>)
    requires forall k :: 0 <= k < |bounds| ==> bounds[k] <= MAX_ID
    ensures FromWords32(Words32(bounds)) == bounds
    decreases |bounds|
  {
    if bounds != [] {
      WordsRoundTrip(bounds[1..]);
      assert Pow256(4) == MAX_ID + 1;
      FromToBytes(bounds[0], 4);
      var data := Words32(bounds);
      assert data[..4] == ToBytes(bounds[0], 4) && data[4..] == Words32(bounds[1..]);
    }
  }

  // ----- keys -----

  /** How a set is stored: as a bitmap when that is smaller, else as bounds. */
  datatype Key = MakeKey(bitmap: bool, data: seq<Byte>)

  predicate UseBitmap(bounds: seq<nat>) { bounds != [] && BitmapSize(bounds) < 4 * |bounds| }

  ghost predicate IsKey(bounds: seq<nat>, key: Key)
  {
    key.bitmap == UseBitmap(bounds)
    && if key.bitmap then IsBitmap(bounds, key.data) else key.data == Words32(bounds)
  }

  /** Bounds inside a universe of 32-bit ids. */
  ghost predicate Packable(bounds: seq<nat>)
  {
    StrictlyUp(bounds) && |bounds| % 2 == 0 && forall k :: 0 <= k < |bounds| ==> bounds[k] <= MAX_ID
  }

  lemma KeyUnique(bounds: seq<nat>, a: Key, b: Key)
    requires IsKey(bounds, a) && IsKey(bounds, b)
    ensures a == b
  {
    if a.bitmap {
      forall i: nat
        ensures Has(a.data, i) == Has(b.data, i)
      {
        assert Inside(bounds, i) == Has(a.data, i);
      }
      BitmapsEqual(a.data, b.data);
    }
  }

  /** One key, one set. */
  lemma KeyInjective(a: seq<nat>, b: seq<nat>, key: Key)
    requires Packable(a) && Packable(b) && IsKey(a, key) && IsKey(b, key)
    ensures a == b
  {
    if key.bitmap {
      forall i: nat
        ensures Inside(a, i) == Inside(b, i)
      {
        assert Has(key.data, i) == Inside(a, i);
      }
      BoundsCanonical(a, b);
    } else {
      WordsRoundTrip(a);
      WordsRoundTrip(b);
    }
  }

  /** An immutable packed set; two sets are the same object iff interned as one. */
  class MemberSet {
    const key: Key

    constructor (key: Key)
      ensures this.key == key
    {
      this.key := key;
    }

    /** Whether the set is nonempty. */
    function Nonempty(): bool { key.data != [] }

    function Contains(index: int): bool
    {
      if index < 0 then false
      else if key.bitmap then index / 8 < |key.data| && And(key.data[index / 8], Shl(1, index % 8)) != 0
      else BisectRight(FromWords32(key.data), index) % 2 == 1
    }

    /** Both stored forms answer membership in the denoted set. */
    lemma ContainsExactly(bounds: seq<nat>, index: int)
      requires Packable(bounds) && IsKey(bounds, key)
      ensures Contains(index) <==> index >= 0 && Inside(bounds, index)
      ensures Nonempty() <==> bounds != []
    {
      WordsRoundTrip(bounds);
      if index >= 0 && key.bitmap && index / 8 < |key.data| { TestBit(key.data[index / 8], index % 8); }
      if index >= 0 && key.bitmap { assert Has(key.data, index) <==> Inside(bounds, index); }
      if bounds != [] && key.bitmap {
        FirstInside(bounds);
        assert Has(key.data, bounds[0]);
      }
    }

    /** The integer whose bits are the members. */
    method Mask(ghost bounds: seq<nat>) returns (mask: nat)
      requires Packable(bounds) && IsKey(bounds, key)
      ensures forall i: nat :: Bit(mask, i) <==> Inside(bounds, i)
    {
      var data := key.data;
      if !key.bitmap {
        WordsRoundTrip(bounds);
        var packed := Bitmap(FromWords32(key.data));
        data := packed[..];
      }
      mask := FromBytes(data);
      forall i: nat
        ensures Bit(mask, i) <==> Inside(bounds, i)
      {
        FromBytesBit(data, i);
        assert Has(data, i) <==> Inside(bounds, i);
      }
    }
  }

  // ----- the pool -----

  /** What a text denotes over the universe: index bounds, or nothing. */
  function BoundsOfText(ordered: seq<nat>, text: string): Option<seq<nat>>
  {
    var ranges := ParseRanges(text);
    if ranges.None? then None else BoundsFrom(ordered, ranges.value, [])
  }

  ghost predicate Universe(ordered: seq<nat>) { Increasing(ordered) && Bounded(ordered, 0) }

  lemma UniverseSize(ordered: seq<nat>)
    requires Universe(ordered)
    ensures |ordered| <= MAX_ID
  {
    if ordered != [] { GapsAreOne(ordered, 0, |ordered| - 1); }
  }

  lemma ParsedOrdered(text: string)
    requires ParseRanges(text).Some?
    ensures Ordered(ParseRanges(text).value, 0)
  {
    if text != "none" { ParsedAreOrdered(Text.Split(text, ','), 0); }
  }

  lemma ClosedPacks(b: seq<nat>, n: nat)
    requires Closed(b, n) && n <= MAX_ID
    ensures Packable(b)
  {
    assert forall k :: 0 <= k < |b| - 1 ==> b[k] < b[|b| - 1];
  }

  lemma RangesExact(ordered: seq<nat>, ranges: seq<Range>, i: nat)
    requires Universe(ordered) && Ordered(ranges, 0)
    ensures BoundsFrom(ordered, ranges, []).Some? <==> forall id: nat :: Covers(ranges, id) ==> id in ordered
    ensures BoundsFrom(ordered, ranges, []).Some? ==>
              var b := BoundsFrom(ordered, ranges, []).value;
              Packable(b) && (Inside(b, i) <==> i < |ordered| && Covers(ranges, ordered[i]))
  {
    BoundsAccepted(ordered, ranges, 0, []);
    if BoundsFrom(ordered, ranges, []).Some? {
      BoundsInside(ordered, ranges, 0, [], i);
      UniverseSize(ordered);
      ClosedPacks(BoundsFrom(ordered, ranges, []).value, |ordered|);
    }
  }

  /** Interning is exact: a parsable text is accepted iff every id it denotes is
      a candidate, and its bounds hold exactly the positions of those ids. */
  lemma InternExact(ordered: seq<nat>, text: string, i: nat)
    requires Universe(ordered) && ParseRanges(text).Some?
    ensures BoundsOfText(ordered, text).Some? <==> forall id: nat :: Covers(ParseRanges(text).value, id) ==>
            id in ordered
    ensures BoundsOfText(ordered, text).Some? ==>
              var b := BoundsOfText(ordered, text).value;
              Packable(b) && (Inside(b, i) <==> i < |ordered| && Covers(ParseRanges(text).value, ordered[i]))
  {
    ParsedOrdered(text);
    RangesExact(ordered, ParseRanges(text).value, i);
  }

  class Pool {
    const ordered: seq<nat>
    var texts: map<string, MemberSet>
    var values: map<Key, MemberSet>

    ghost predicate Valid()
      reads this
    {
      && Universe(ordered)
      && (forall k :: k in values ==> values[k].key == k)
      && (forall t :: t in texts ==>
            BoundsOfText(ordered, t).Some? && IsKey(BoundsOfText(ordered, t).value, texts[t].key)
            && texts[t].key in values && values[texts[t].key] == texts[t])
    }

    constructor (ordered: seq<nat>)
      requires Universe(ordered)
      ensures Valid() && this.ordered == ordered && texts == map[]
    {
      this.ordered := ordered;
      texts, values := map[], map[];
    }

    /** Collect the bounds of a list of ranges, refusing the first that spans a
        hole of the universe. */
    method CollectBounds(ranges: seq<Range>) returns (r: Option<seq<nat>>)
      ensures r == BoundsFrom(ordered, ranges, [])
    {
      var bounds: seq<nat> := [];
      for i := 0 to |ranges|
        invariant BoundsFrom(ordered, ranges, []) == BoundsFrom(ordered, ranges[i..], bounds)
      {
        assert ranges[i..][0] == ranges[i] && ranges[i..][1..] == ranges[i + 1..];
        var first, last := Position(ordered, ranges[i].first), Position(ordered, ranges[i].last);
        if first.None? || last.None? || last.value + ranges[i].first != ranges[i].last + first.value { return None; }
        if bounds != [] && bounds[|bounds| - 1] == first.value {
          bounds := bounds[|bounds| - 1 := last.value + 1];
        } else {
          bounds := bounds + [first.value] + [last.value + 1];
        }
      }
      return Some(bounds);
    }

    method PackKey(bounds: seq<nat>) returns (key: Key)
      requires Packable(bounds)
      ensures IsKey(bounds, key)
    {
      if UseBitmap(bounds) {
        var packed := Bitmap(bounds);
        return MakeKey(true, packed[..]);
      }
      return MakeKey(false, Words32(bounds));
    }

    /** Intern one text; a refused one raises and changes nothing. */
    method Intern(text: string) returns (m: MemberSet?)
      requires Valid()
      modifies this
      ensures Valid() && (m == null <==> BoundsOfText(ordered, text).None?)
      ensures m == null ==> texts == old(texts)
      ensures m != null ==> text in texts && texts[text] == m && forall t :: t in old(texts) ==>
              t in texts && texts[t] == old(texts)[t]
    {
      if text in texts { return texts[text]; }
      var ranges := ParseIdRanges(text);
      if ranges.None? { return null; }
      var bounds := CollectBounds(ranges.value);
      if bounds.None? { return null; }
      InternExact(ordered, text, 0);
      var key := PackKey(bounds.value);
      if key in values {
        m := values[key];
      } else {
        m := new MemberSet(key);
        values := values[key := m];
      }
      texts := texts[text := m];
    }

    /** Two interned texts share one object iff they denote the same set. */
    lemma SharedIffEqual(a: string, b: string)
      requires Valid() && a in texts && b in texts
      ensures texts[a] == texts[b] <==> forall i: nat ::
                Inside(BoundsOfText(ordered, a).value, i) == Inside(BoundsOfText(ordered, b).value, i)
    {
      var x, y := BoundsOfText(ordered, a).value, BoundsOfText(ordered, b).value;
      InternExact(ordered, a, 0);
      InternExact(ordered, b, 0);
      if texts[a] == texts[b] {
        KeyInjective(x, y, texts[a].key);
      } else if forall i: nat :: Inside(x, i) == Inside(y, i) {
        BoundsCanonical(x, y);
        KeyUnique(x, texts[a].key, texts[b].key);
      }
    }
  }
}
