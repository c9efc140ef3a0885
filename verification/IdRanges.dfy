/** Candidate-id sets as text: sorted inclusive ranges, and back. */
module IdRanges {
  import opened Sequences
  import opened Options
  import opened Text

  datatype Range = MakeRange(first: nat, last: nat)

  const MAX_ID: nat := 0xffff_ffff

  // ----- runs of consecutive ids -----

  /** The maximal runs of an increasing sequence, with one run open. */
  function RunsFrom(start: nat, previous: nat, rest: seq<nat>): (r: seq<Range>)
    ensures |r| > 0
    decreases |rest|
  {
    if rest == [] then [MakeRange(start, previous)]
    else if rest[0] == previous + 1 then RunsFrom(start, rest[0], rest[1..])
    else [MakeRange(start, previous)] + RunsFrom(rest[0], rest[0], rest[1..])
  }

  function Runs(ids: seq<nat>): seq<Range>
  {
    if ids == [] then [] else RunsFrom(ids[0], ids[0], ids[1..])
  }

  function UpFrom(first: nat, count: nat): (s: seq<nat>)
    ensures |s| == count && forall i :: 0 <= i < count ==> s[i] == first + i
  {
    seq(count, i requires 0 <= i < count => first + i)
  }

  /** The ids a range denotes. */
  function Members(r: Range): seq<nat>
    requires r.first <= r.last
  {
    UpFrom(r.first, r.last - r.first + 1)
  }

  predicate Ordered(ranges: seq<Range>, previous: nat)
  {
    ranges == [] || (Follows(previous, ranges[0]) && Ordered(ranges[1..], ranges[0].last))
  }

  /** The ids a valid list of ranges denotes, in order. */
  function Expand(ranges: seq<Range>, previous: nat): seq<nat>
    requires Ordered(ranges, previous)
  {
    if ranges == [] then [] else Members(ranges[0]) + Expand(ranges[1..], ranges[0].last)
  }

  predicate Bounded(ids: seq<nat>, lo: nat) { forall i :: 0 <= i < |ids| ==> lo < ids[i] <= MAX_ID }

  ghost predicate Expands(ranges: seq<Range>, before: nat, ids: seq<nat>)
  {
    Ordered(ranges, before) && Expand(ranges, before) == ids
  }

  lemma {:induction false} RunsExpand(start: nat, previous: nat, rest: seq<nat>, before: nat)
    requires before < start <= previous <= MAX_ID && Increasing(rest) && Bounded(rest, previous)
    ensures Expands(RunsFrom(start, previous, rest), before, UpFrom(start, previous - start + 1) + rest)
    decreases |rest|
  {
    if rest == [] {
      LastRun(start, previous, before);
    } else {
      TailBounded(rest, previous);
      if rest[0] == previous + 1 {
        RunsExpand(start, rest[0], rest[1..], before);
        UpFromNext(start, previous, rest);
      } else {
        RunsExpand(rest[0], rest[0], rest[1..], previous);
        RunBreaks(start, previous, rest, before);
      }
    }
  }

  lemma TailBounded(rest: seq<nat>, previous: nat)
    requires rest != [] && Increasing(rest) && Bounded(rest, previous)
    ensures Increasing(rest[1..]) && Bounded(rest[1..], rest[0]) && previous < rest[0] <= MAX_ID
  {
  }

  lemma LastRun(start: nat, previous: nat, before: nat)
    requires before < start <= previous <= MAX_ID
    ensures Expands(RunsFrom(start, previous, []), before, UpFrom(start, previous - start + 1) + [])
  {
    assert [MakeRange(start, previous)][1..] == [];
  }

  lemma UpFromNext(start: nat, previous: nat, rest: seq<nat>)
    requires start <= previous && rest != [] && rest[0] == previous + 1
    ensures UpFrom(start, rest[0] - start + 1) + rest[1..] == UpFrom(start, previous - start + 1) + rest
  {
  }

  lemma RunBreaks(start: nat, previous: nat, rest: seq<nat>, before: nat)
    requires before < start <= previous <= MAX_ID && rest != [] && previous + 1 < rest[0]
    requires Expands(RunsFrom(rest[0], rest[0], rest[1..]), previous,
                     UpFrom(rest[0], rest[0] - rest[0] + 1) + rest[1..])
    ensures Expands(RunsFrom(start, previous, rest), before, UpFrom(start, previous - start + 1) + rest)
  {
    assert UpFrom(rest[0], 1) + rest[1..] == rest;
    ExpandCons(MakeRange(start, previous), RunsFrom(rest[0], rest[0], rest[1..]), before, rest);
  }

  lemma ExpandCons(r: Range, tail: seq<Range>, before: nat, ids: seq<nat>)
    requires before < r.first <= r.last <= MAX_ID && Expands(tail, r.last, ids)
    ensures Expands([r] + tail, before, Members(r) + ids)
  {
    assert ([r] + tail)[1..] == tail;
  }

  /** The runs of an increasing sequence denote exactly that sequence. */
  lemma RunsAreExact(ids: seq<nat>)
    requires Increasing(ids) && Bounded(ids, 0)
    ensures Ordered(Runs(ids), 0) && Expand(Runs(ids), 0) == ids
  {
    if ids != [] {
      RunsExpand(ids[0], ids[0], ids[1..], 0);
      assert UpFrom(ids[0], 1) + ids[1..] == ids;
    }
  }

  // ----- text -----

  function RangeText(r: Range): string
  {
    if r.first == r.last then Digits(r.first, 10) else Digits(r.first, 10) + ['-'] + Digits(r.last, 10)
  }

  function RangeTexts(ranges: seq<Range>): (parts: seq<string>)
    ensures |parts| == |ranges| && forall i :: 0 <= i < |ranges| ==> parts[i] == RangeText(ranges[i])
  {
    if ranges == [] then [] else [RangeText(ranges[0])] + RangeTexts(ranges[1..])
  }

  function RangesText(ranges: seq<Range>): string
  {
    if ranges == [] then "none" else Join(RangeTexts(ranges), ',')
  }

  datatype Encoded = Text(text: string) | NotPositive | Duplicate

  /** The list rises from its neighbour into place `i`. */
  ghost predicate Up(s: seq<nat>, i: nat) { 0 < i < |s| ==> s[i - 1] < s[i] }

  /** The first `n` ids rise. */
  ghost predicate Rising(s: seq<nat>, n: nat) { forall i: nat :: i < n ==> Up(s, i) }

  lemma {:induction false} RisingBetween(s: seq<nat>, i: nat, j: nat)
    requires Rising(s, |s|) && i < j < |s|
    ensures s[i] < s[j]
    decreases j
  {
    assert Up(s, j);
    if i < j - 1 { RisingBetween(s, i, j - 1); }
  }

  lemma RisingIncreases(s: seq<nat>)
    requires Rising(s, |s|)
    ensures Increasing(s)
  {
    forall i, j | 0 <= i < j < |s| ensures s[i] < s[j] { RisingBetween(s, i, j); }
  }

  /** The finished runs, the open run and the ids to come make up the whole. */
  ghost predicate RunsSoFar(whole: seq<Range>, ordered: seq<nat>, i: nat, parts: seq<Range>, start: nat, previous: nat)
  {
    && 1 <= i <= |ordered| && previous == ordered[i - 1] && Rising(ordered, i)
    && whole == parts + RunsFrom(start, previous, ordered[i..])
  }

  lemma RunsStart(ordered: seq<nat>)
    requires ordered != []
    ensures RunsSoFar(Runs(ordered), ordered, 1, [], ordered[0], ordered[0])
  {
    assert [] + Runs(ordered) == Runs(ordered);
  }

  lemma RunContinues(whole: seq<Range>, ordered: seq<nat>, i: nat, parts: seq<Range>, start: nat, previous: nat)
    requires RunsSoFar(whole, ordered, i, parts, start, previous) && i < |ordered| && ordered[i] == previous + 1
    ensures RunsSoFar(whole, ordered, i + 1, parts, start, ordered[i])
  {
    var tail := ordered[i..];
    assert tail[0] == ordered[i] && tail[1..] == ordered[i + 1..];
  }

  lemma RunEnds(whole: seq<Range>, ordered: seq<nat>, i: nat, parts: seq<Range>, start: nat, previous: nat)
    requires RunsSoFar(whole, ordered, i, parts, start, previous) && i < |ordered| && ordered[i] > previous + 1
    ensures RunsSoFar(whole, ordered, i + 1, parts + [MakeRange(start, previous)], ordered[i], ordered[i])
  {
    var tail := ordered[i..];
    assert tail[0] == ordered[i] && tail[1..] == ordered[i + 1..];
    assert parts + ([MakeRange(start, previous)] + RunsFrom(ordered[i], ordered[i], tail[1..]))
        == parts + [MakeRange(start, previous)] + RunsFrom(ordered[i], ordered[i], tail[1..]);
  }

  lemma RunsEnd(whole: seq<Range>, ordered: seq<nat>, parts: seq<Range>, start: nat, previous: nat)
    requires RunsSoFar(whole, ordered, |ordered|, parts, start, previous)
    ensures Increasing(ordered) && whole == parts + [MakeRange(start, previous)]
  {
    RisingIncreases(ordered);
  }

  predicate Sorted(s: seq<nat>) { forall i, j :: 0 <= i < j < |s| ==> s[i] <= s[j] }

  /** No drop into place `i`, and a repetition spoils the rise. */
  ghost predicate Level(s: seq<nat>, i: nat)
  {
    0 < i < |s| ==> s[i - 1] <= s[i] && (s[i - 1] == s[i] ==> !Increasing(s))
  }

  lemma SortedLevel(s: seq<nat>)
    requires Sorted(s)
    ensures forall i: nat :: Level(s, i)
  {
  }

  /** The encoder's loop over the sorted ids, with a running start and previous. */
  method EncodeIds(ordered: seq<nat>) returns (r: Encoded)
    requires Sorted(ordered)
    ensures r.NotPositive? <==> 0 in ordered
    ensures r.Duplicate? <==> 0 !in ordered && !Increasing(ordered)
    ensures r.Text? ==> r.text == RangesText(Runs(ordered))
  {
    if exists i :: 0 <= i < |ordered| && ordered[i] < 1 { return NotPositive; }
    if ordered == [] { return Text("none"); }
    assert 0 !in ordered;
    SortedLevel(ordered);
    RunsStart(ordered);
    var parts := EncodeRuns(ordered, Runs(ordered));
    return if parts.None? then Duplicate else Text(RangesText(parts.value));
  }

  method EncodeRuns(ordered: seq<nat>, ghost whole: seq<Range>) returns (r: Option<seq<Range>>)
    requires ordered != [] && RunsSoFar(whole, ordered, 1, [], ordered[0], ordered[0])
    requires forall i: nat :: Level(ordered, i)
    ensures r == if Increasing(ordered) then Some(whole) else None
  {
    var parts: seq<Range>, start, previous, i := [], ordered[0], ordered[0], 1;
    while i < |ordered|
      invariant RunsSoFar(whole, ordered, i, parts, start, previous)
    {
      var value := ordered[i];
      assert Level(ordered, i);
      if value == previous { return None; }
      if value == previous + 1 {
        RunContinues(whole, ordered, i, parts, start, previous);
      } else {
        RunEnds(whole, ordered, i, parts, start, previous);
        parts, start := parts + [MakeRange(start, previous)], value;
      }
      previous, i := value, i + 1;
    }
    RunsEnd(whole, ordered, parts, start, previous);
    return Some(parts + [MakeRange(start, previous)]);
  }

  // ----- parsing -----

  predicate IsNumeral(s: string) { |s| > 0 && AllDecimal(s) && s[0] != '0' }

  lemma DecimalIsHex(s: string)
    requires AllDecimal(s)
    ensures AllHex(s)
  {
  }

  function ParsePart(part: string): Option<Range>
  {
    var k := Find(part, '-');
    if k == |part| then
      if !IsNumeral(part) then None else
      DecimalIsHex(part);
      Some(MakeRange(Value(part, 10), Value(part, 10)))
    else if !IsNumeral(part[..k]) || !IsNumeral(part[k + 1..]) then None
    else
      DecimalIsHex(part[..k]);
      DecimalIsHex(part[k + 1..]);
      Some(MakeRange(Value(part[..k], 10), Value(part[k + 1..], 10)))
  }

  /** Ranges must be positive, ordered, disjoint and fit in 32 bits. */
  function ParseParts(parts: seq<string>, previous: nat): Option<seq<Range>>
    decreases |parts|
  {
    if parts == [] then Some([])
    else
      var r := ParsePart(parts[0]);
      if r.None? then None
      else if !Follows(previous, r.value) then None
      else
        var rest := ParseParts(parts[1..], r.value.last);
        if rest.None? then None else Some([r.value] + rest.value)
  }

  function ParseRanges(text: string): Option<seq<Range>>
  {
    if text == "none" then Some([]) else ParseParts(Split(text, ','), 0)
  }

  /** The next range may not reach back to the previous one, nor past the limit. */
  predicate Follows(previous: nat, r: Range) { previous < r.first <= r.last <= MAX_ID }

  /** The ranges read so far, and the parts to come, make up the whole. */
  ghost predicate PartsRead(whole: Option<seq<Range>>, parts: seq<string>, i: nat, result: seq<Range>, previous: nat)
  {
    i <= |parts| && whole == Prepend(result, ParseParts(parts[i..], previous))
  }

  lemma PartsStart(parts: seq<string>)
    ensures PartsRead(ParseParts(parts, 0), parts, 0, [], 0)
  {
    var whole := ParseParts(parts, 0);
    assert parts[0..] == parts && (whole.Some? ==> [] + whole.value == whole.value);
  }

  lemma PartsNext(whole: Option<seq<Range>>, parts: seq<string>, i: nat, result: seq<Range>, previous: nat,
                  r: Option<Range>)
    requires PartsRead(whole, parts, i, result, previous) && i < |parts| && ParsePart(parts[i]) == r
    ensures r.None? || !Follows(previous, r.value) ==> whole.None?
    ensures r.Some? && Follows(previous, r.value) ==> PartsRead(whole, parts, i + 1, result + [r.value], r.value.last)
  {
    assert parts[i..][0] == parts[i] && parts[i..][1..] == parts[i + 1..];
    if r.Some? && Follows(previous, r.value) {
      var rest := ParseParts(parts[i + 1..], r.value.last);
      assert rest.Some? ==> result + ([r.value] + rest.value) == result + [r.value] + rest.value;
    }
  }

  lemma PartsEnd(whole: Option<seq<Range>>, parts: seq<string>, result: seq<Range>, previous: nat)
    requires PartsRead(whole, parts, |parts|, result, previous)
    ensures whole == Some(result)
  {
    assert result + [] == result;
  }

  /** The parser's loop, with the end of the previous range. */
  method ParseIdRanges(text: string) returns (r: Option<seq<Range>>)
    ensures r == ParseRanges(text)
  {
    if text == "none" { return Some([]); }
    var parts := Split(text, ',');
    var result: seq<Range>, previous: nat := [], 0;
    ghost var whole := ParseParts(parts, 0);
    PartsStart(parts);
    for i := 0 to |parts|
      invariant PartsRead(whole, parts, i, result, previous)
    {
      var part := ParsePart(parts[i]);
      PartsNext(whole, parts, i, result, previous, part);
      if part.None? || !Follows(previous, part.value) { return None; }
      result, previous := result + [part.value], part.value.last;
    }
    PartsEnd(whole, parts, result, previous);
    return Some(result);
  }

  function Prepend(done: seq<Range>, rest: Option<seq<Range>>): Option<seq<Range>>
  {
    if rest.None? then None else Some(done + rest.value)
  }

  lemma {:induction false} ParsedAreOrdered(parts: seq<string>, previous: nat)
    requires ParseParts(parts, previous).Some?
    ensures Ordered(ParseParts(parts, previous).value, previous)
    decreases |parts|
  {
    if parts != [] { ParsedAreOrdered(parts[1..], ParsePart(parts[0]).value.last); }
  }

  lemma NumeralOf(n: nat)
    requires n > 0
    ensures Spells(Digits(n, 10), n)
  {
    DigitsRoundTrip(n, 10);
  }

  /** A numeral for `n`, without separators. */
  ghost predicate Spells(s: string, n: nat)
  {
    IsNumeral(s) && AllHex(s) && Value(s, 10) == n && forall i :: 0 <= i < |s| ==> s[i] != '-' && s[i] != ','
  }

  lemma ParseSingle(a: string, first: nat)
    requires Spells(a, first)
    ensures ParsePart(a) == Some(MakeRange(first, first))
  {
    FindAfter(a, [], '-');
  }

  lemma ParsePair(part: string, a: string, b: string, first: nat, last: nat)
    requires part == a + ['-'] + b && Spells(a, first) && Spells(b, last)
    ensures ParsePart(part) == Some(MakeRange(first, last)) && forall i :: 0 <= i < |part| ==> part[i] != ','
  {
    FindAfter(a, b, '-');
    assert part[..|a|] == a && part[|a| + 1..] == b;
  }

  lemma ParsePartOf(r: Range)
    requires 0 < r.first <= r.last
    ensures ParsePart(RangeText(r)) == Some(r)
    ensures forall i :: 0 <= i < |RangeText(r)| ==> RangeText(r)[i] != ','
  {
    NumeralOf(r.first);
    NumeralOf(r.last);
    ParseSingle(Digits(r.first, 10), r.first);
    ParsePair(Digits(r.first, 10) + ['-'] + Digits(r.last, 10), Digits(r.first, 10), Digits(r.last, 10), r.first,
              r.last);
  }

  lemma {:induction false} ParsePartsOf(ranges: seq<Range>, previous: nat)
    requires Ordered(ranges, previous)
    ensures ParseParts(RangeTexts(ranges), previous) == Some(ranges)
    ensures forall p, i :: 0 <= p < |ranges| && 0 <= i < |RangeTexts(ranges)[p]| ==> RangeTexts(ranges)[p][i] != ','
    decreases |ranges|
  {
    if ranges != [] {
      ParsePartOf(ranges[0]);
      ParsePartsOf(ranges[1..], ranges[0].last);
      assert RangeTexts(ranges)[1..] == RangeTexts(ranges[1..]);
      assert [ranges[0]] + ranges[1..] == ranges;
      forall p, i | 0 <= p < |ranges| && 0 <= i < |RangeTexts(ranges)[p]|
        ensures RangeTexts(ranges)[p][i] != ','
      {
        if p > 0 { assert RangeTexts(ranges)[p] == RangeTexts(ranges[1..])[p - 1]; }
      }
    }
  }

  /** Parsing undoes printing. */
  lemma RangesRoundTrip(ranges: seq<Range>)
    requires Ordered(ranges, 0)
    ensures ParseRanges(RangesText(ranges)) == Some(ranges)
  {
    if ranges != [] {
      ParsePartsOf(ranges, 0);
      SplitJoin(RangeTexts(ranges), ',');
      NotNone(ranges);
    }
  }

  lemma NotNone(ranges: seq<Range>)
    requires ranges != [] && ranges[0].first > 0
    ensures RangesText(ranges) != "none"
  {
    NumeralOf(ranges[0].first);
    var t := Join(RangeTexts(ranges), ',');
    assert RangeTexts(ranges)[0] == RangeText(ranges[0]);
    assert t[0] == Digits(ranges[0].first, 10)[0];
  }

  // ----- what is accepted -----

  /** One id, or two with a dash, without leading zeros; equal ends may be written
      either way. */
  ghost predicate Names(part: string, r: Range)
  {
    && r.first > 0 && r.last > 0
    && (part == Digits(r.first, 10) + ['-'] + Digits(r.last, 10) || (part == Digits(r.first, 10) && r.first == r.last))
  }

  lemma PartExactly(part: string, r: Range)
    ensures ParsePart(part) == Some(r) <==> Names(part, r)
  {
    if ParsePart(part) == Some(r) { ParsedNames(part, r); }
    if Names(part, r) {
      NumeralOf(r.first);
      NumeralOf(r.last);
      if part == Digits(r.first, 10) && r.first == r.last {
        ParseSingle(part, r.first);
      } else {
        ParsePair(part, Digits(r.first, 10), Digits(r.last, 10), r.first, r.last);
      }
    }
  }

  lemma ParsedNames(part: string, r: Range)
    requires ParsePart(part) == Some(r)
    ensures Names(part, r)
  {
    var k := Find(part, '-');
    if k == |part| {
      NumeralOfValue(part);
    } else {
      NumeralOfValue(part[..k]);
      NumeralOfValue(part[k + 1..]);
      assert part == part[..k] + ['-'] + part[k + 1..];
    }
  }

  /** Where the previous range ended. */
  function EndBefore(ranges: seq<Range>, previous: nat, i: nat): nat
    requires i <= |ranges|
  {
    if i == 0 then previous else ranges[i - 1].last
  }

  /** The ranges rise without touching backwards, and the parts name them. */
  ghost predicate Lists(parts: seq<string>, previous: nat, ranges: seq<Range>)
  {
    && |parts| == |ranges|
    && forall i :: 0 <= i < |ranges| ==>
         && Names(parts[i], ranges[i]) && EndBefore(ranges, previous, i) < ranges[i].first
         && ranges[i].first <= ranges[i].last <= MAX_ID
  }

  lemma {:induction false} PartsExactly(parts: seq<string>, previous: nat, ranges: seq<Range>)
    ensures ParseParts(parts, previous) == Some(ranges) <==> Lists(parts, previous, ranges)
    decreases |parts|
  {
    if parts != [] && ranges != [] {
      PartExactly(parts[0], ranges[0]);
      PartsExactly(parts[1..], ranges[0].last, ranges[1..]);
      ListsCons(parts, previous, ranges);
      assert ranges == [ranges[0]] + ranges[1..];
    }
  }

  lemma ListsCons(parts: seq<string>, previous: nat, ranges: seq<Range>)
    requires parts != [] && ranges != []
    ensures Lists(parts, previous, ranges) <==>
            && Names(parts[0], ranges[0]) && previous < ranges[0].first <= ranges[0].last <= MAX_ID
            && Lists(parts[1..], ranges[0].last, ranges[1..])
  {
    assert EndBefore(ranges, previous, 0) == previous;
    forall i | 0 <= i < |ranges[1..]|
      ensures ranges[1..][i] == ranges[i + 1]
              && EndBefore(ranges[1..], ranges[0].last, i) == EndBefore(ranges, previous, i + 1)
    {
    }
    assert |parts| == |ranges| ==> forall i :: 0 <= i < |ranges[1..]| ==> parts[1..][i] == parts[i + 1];
    assert forall i :: 0 < i < |ranges| ==> ranges[i] == ranges[1..][i - 1];
  }

  /** A text is accepted iff it is `none`, or names rising ranges of positive 32-bit
      ids between commas. */
  lemma ParsesExactly(text: string, ranges: seq<Range>)
    ensures ParseRanges(text) == Some(ranges) <==>
            if ranges == [] then text == "none" else Lists(Split(text, ','), 0, ranges)
  {
    PartsExactly(Split(text, ','), 0, ranges);
    if text == "none" {
      FindAfter(text, [], ',');
      assert Split(text, ',') == [text];
      NotNamed(ranges);
    }
  }

  lemma NotNamed(ranges: seq<Range>)
    ensures !Lists(["none"], 0, ranges)
  {
    if |ranges| == 1 && ranges[0].first > 0 && ranges[0].last > 0 {
      NumeralOf(ranges[0].first);
      var digits := Digits(ranges[0].first, 10);
      assert IsDecimal(digits[0]) && !IsDecimal("none"[0]);
      assert (digits + ['-'] + Digits(ranges[0].last, 10))[0] == digits[0];
      assert !Names("none", ranges[0]);
    }
  }

  // ----- decoding against a universe -----

  predicate AllIn(ids: seq<nat>, universe: set<nat>) { forall i :: 0 <= i < |ids| ==> ids[i] in universe }

  /** The decoder refuses a range larger than the universe before expanding it,
      then any id outside it. */
  function DecodeRanges(ranges: seq<Range>, universe: set<nat>): Option<seq<nat>>
    decreases |ranges|
  {
    if ranges == [] then Some([])
    else
      var r := ranges[0];
      if r.last < r.first then DecodeRanges(ranges[1..], universe)
      else if r.last - r.first + 1 > |universe| then None
      else if !AllIn(Members(r), universe) then None
      else
        var rest := DecodeRanges(ranges[1..], universe);
        if rest.None? then None else Some(Members(r) + rest.value)
  }

  function DecodeIds(text: string, universe: set<nat>): Option<seq<nat>>
  {
    var ranges := ParseRanges(text);
    if ranges.None? then None else DecodeRanges(ranges.value, universe)
  }

  /** A run inside the universe is no longer than the universe. */
  lemma {:induction false} RunFits(first: nat, count: nat, universe: set<nat>)
    requires forall v: nat :: first <= v < first + count ==> v in universe
    ensures count <= |universe|
    decreases count
  {
    if count > 0 {
      var last := first + count - 1;
      RunFits(first, count - 1, universe - {last});
    }
  }

  lemma {:induction false} DecodeExact(ranges: seq<Range>, previous: nat, universe: set<nat>)
    requires Ordered(ranges, previous)
    ensures DecodeRanges(ranges, universe) ==
            if AllIn(Expand(ranges, previous), universe) then Some(Expand(ranges, previous)) else None
    decreases |ranges|
  {
    if ranges != [] {
      var r, rest := ranges[0], Expand(ranges[1..], ranges[0].last);
      DecodeExact(ranges[1..], r.last, universe);
      var all := Members(r) + rest;
      assert AllIn(all, universe) <==> AllIn(Members(r), universe) && AllIn(rest, universe) by {
        assert forall i :: 0 <= i < |rest| ==> all[|Members(r)| + i] == rest[i];
        assert forall i :: 0 <= i < |Members(r)| ==> all[i] == Members(r)[i];
      }
      if AllIn(Members(r), universe) {
        forall v: nat | r.first <= v < r.first + (r.last - r.first + 1)
          ensures v in universe
        {
          assert Members(r)[v - r.first] == v;
        }
        RunFits(r.first, r.last - r.first + 1, universe);
      }
    }
  }

  /** Decoding an encoded set gives it back, whenever its ids fit in 32 bits and
      lie in the supplied universe, and is refused when one does not. */
  lemma IdsRoundTrip(ids: seq<nat>, universe: set<nat>)
    requires Increasing(ids) && Bounded(ids, 0)
    ensures DecodeIds(RangesText(Runs(ids)), universe) == if AllIn(ids, universe) then Some(ids) else None
  {
    RunsAreExact(ids);
    RangesRoundTrip(Runs(ids));
    DecodeExact(Runs(ids), 0, universe);
  }

  // ----- decoding without a universe -----

  const MAX_SPAN: nat := 1_000_000

  function DecodeAnyRanges(ranges: seq<Range>): Option<seq<nat>>
    decreases |ranges|
  {
    if ranges == [] then Some([])
    else
      var r := ranges[0];
      if r.last < r.first then DecodeAnyRanges(ranges[1..])
      else if r.last - r.first > MAX_SPAN then None
      else
        var rest := DecodeAnyRanges(ranges[1..]);
        if rest.None? then None else Some(Members(r) + rest.value)
  }

  function DecodeAnyIds(text: string): Option<seq<nat>>
  {
    var ranges := ParseRanges(text);
    if ranges.None? then None else DecodeAnyRanges(ranges.value)
  }

  /** No run of the sorted ids spans more than the decoder's limit. */
  predicate ShortRuns(ranges: seq<Range>)
  {
    forall i :: 0 <= i < |ranges| ==> ranges[i].last - ranges[i].first <= MAX_SPAN
  }

  lemma {:induction false} DecodeAnyExact(ranges: seq<Range>, previous: nat)
    requires Ordered(ranges, previous)
    ensures DecodeAnyRanges(ranges) == if ShortRuns(ranges) then Some(Expand(ranges, previous)) else None
    decreases |ranges|
  {
    if ranges != [] {
      DecodeAnyExact(ranges[1..], ranges[0].last);
      assert ShortRuns(ranges) <==> ranges[0].last - ranges[0].first <= MAX_SPAN && ShortRuns(ranges[1..]) by {
        assert forall i :: 0 <= i < |ranges[1..]| ==> ranges[1..][i] == ranges[i + 1];
        assert forall i :: 1 <= i < |ranges| ==> ranges[i] == ranges[1..][i - 1];
      }
    }
  }

  /** Without a universe the round trip holds exactly when no run is too long. */
  lemma IdsRoundTripAlone(ids: seq<nat>)
    requires Increasing(ids) && Bounded(ids, 0)
    ensures DecodeAnyIds(RangesText(Runs(ids))) == if ShortRuns(Runs(ids)) then Some(ids) else None
  {
    RunsAreExact(ids);
    RangesRoundTrip(Runs(ids));
    DecodeAnyExact(Runs(ids), 0);
  }

  lemma {:induction false} OneRun(start: nat, previous: nat, count: nat)
    ensures RunsFrom(start, previous, UpFrom(previous + 1, count)) == [MakeRange(start, previous + count)]
    decreases count
  {
    if count > 0 {
      OneRun(start, previous + 1, count - 1);
      assert UpFrom(previous + 1, count)[1..] == UpFrom(previous + 2, count - 1);
    }
  }

  /** The limit is real: more than a million and one consecutive candidates do
      not survive the round trip without a universe. */
  lemma LongRunRefused(count: nat)
    requires MAX_SPAN + 1 < count <= MAX_ID
    ensures DecodeAnyIds(RangesText(Runs(UpFrom(1, count)))) == None
  {
    var ids := UpFrom(1, count);
    assert ids[1..] == UpFrom(2, count - 1);
    OneRun(1, 1, count - 1);
    assert !ShortRuns([MakeRange(1, count)]) by {
      assert [MakeRange(1, count)][0].last - [MakeRange(1, count)][0].first > MAX_SPAN;
    }
    IdsRoundTripAlone(ids);
  }
}
