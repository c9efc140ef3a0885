/** Excluded address ranges: half-open intervals, their canonical union and its
    text form. */
module Intervals {
  import opened Options
  import opened Text

  datatype Range = MakeRange(start: nat, end: nat)

  predicate In(r: Range, x: nat) { r.start <= x < r.end }

  ghost predicate Covers(rs: seq<Range>, x: nat) { exists i :: 0 <= i < |rs| && In(rs[i], x) }

  predicate Nonempty(rs: seq<Range>) { forall i :: 0 <= i < |rs| ==> rs[i].start < rs[i].end }

  /** Nonempty intervals in order, with a gap between any two. */
  ghost predicate Canonical(rs: seq<Range>)
  {
    Nonempty(rs) && forall i, j :: 0 <= i < j < |rs| ==> rs[i].end < rs[j].start
  }

  // ----- sorting by start, then end -----

  predicate Before(a: Range, b: Range) { a.start < b.start || (a.start == b.start && a.end <= b.end) }

  ghost predicate Sorted(rs: seq<Range>) { forall i, j :: 0 <= i < j < |rs| ==> Before(rs[i], rs[j]) }

  function Insert(r: Range, rs: seq<Range>): seq<Range>
  {
    if rs == [] || Before(r, rs[0]) then [r] + rs else [rs[0]] + Insert(r, rs[1..])
  }

  function Sort(rs: seq<Range>): seq<Range> { if rs == [] then [] else Insert(rs[0], Sort(rs[1..])) }

  lemma {:induction false} InsertKeeps(r: Range, rs: seq<Range>)
    ensures multiset(Insert(r, rs)) == multiset{r} + multiset(rs)
    ensures Sorted(rs) ==> Sorted(Insert(r, rs))
    decreases |rs|
  {
    if rs != [] && !Before(r, rs[0]) {
      InsertKeeps(r, rs[1..]);
      assert rs == [rs[0]] + rs[1..];
      var rest := Insert(r, rs[1..]);
      if Sorted(rs) {
        forall k | 0 <= k < |rest|
          ensures Before(rs[0], rest[k])
        {
          assert rest[k] in multiset(rest);
          assert rest[k] == r || rest[k] in rs[1..];
        }
      }
    }
  }

  lemma {:induction false} SortKeeps(rs: seq<Range>)
    ensures multiset(Sort(rs)) == multiset(rs) && Sorted(Sort(rs))
    decreases |rs|
  {
    if rs != [] {
      SortKeeps(rs[1..]);
      InsertKeeps(rs[0], Sort(rs[1..]));
      assert rs == [rs[0]] + rs[1..];
    }
  }

  lemma SameElements(a: seq<Range>, b: seq<Range>, x: nat)
    requires multiset(a) == multiset(b)
    ensures Covers(a, x) ==> Covers(b, x)
    ensures Nonempty(a) ==> Nonempty(b)
  {
    if Covers(a, x) {
      var i :| 0 <= i < |a| && In(a[i], x);
      assert a[i] in multiset(b);
      var j :| 0 <= j < |b| && b[j] == a[i];
      assert In(b[j], x);
    }
    if Nonempty(a) {
      forall j | 0 <= j < |b|
        ensures b[j].start < b[j].end
      {
        assert b[j] in multiset(a);
        assert b[j] in a;
      }
    }
  }

  // ----- merging -----

  /** Extend the last interval if the next one touches it, else start another. */
  function Step(merged: seq<Range>, r: Range): seq<Range>
  {
    if merged != [] && r.start <= merged[|merged| - 1].end then
      if r.end > merged[|merged| - 1].end then merged[|merged| - 1 := MakeRange(merged[|merged| - 1].start, r.end)]
        else merged
    else merged + [r]
  }

  function MergeAll(sorted: seq<Range>): seq<Range>
  {
    if sorted == [] then [] else Step(MergeAll(sorted[..|sorted| - 1]), sorted[|sorted| - 1])
  }

  lemma StepCovers(merged: seq<Range>, r: Range, x: nat)
    requires merged != [] ==> merged[|merged| - 1].start <= r.start
    ensures Covers(Step(merged, r), x) <==> Covers(merged, x) || In(r, x)
  {
    var after, n := Step(merged, r), |merged| - 1;
    if merged != [] && r.start <= merged[n].end && r.end > merged[n].end {
      if Covers(merged, x) {
        var i :| 0 <= i < |merged| && In(merged[i], x);
        assert In(after[i], x);
      }
      if In(r, x) { assert In(after[n], x); }
      if Covers(after, x) {
        var i :| 0 <= i < |after| && In(after[i], x);
        assert i < n ==> In(merged[i], x);
        assert i == n ==> In(merged[n], x) || In(r, x);
      }
    } else if merged != [] && r.start <= merged[n].end {
      if In(r, x) { assert In(merged[n], x); }
    } else {
      if Covers(merged, x) {
        var i :| 0 <= i < |merged| && In(merged[i], x);
        assert In(after[i], x);
      }
      if In(r, x) { assert In(after[|merged|], x); }
      if Covers(after, x) {
        var i :| 0 <= i < |after| && In(after[i], x);
        assert i < |merged| ==> In(merged[i], x);
      }
    }
  }

  ghost predicate LastStart(rs: seq<Range>, bound: nat) { rs != [] ==> rs[|rs| - 1].start <= bound }

  lemma StepCanonical(merged: seq<Range>, r: Range)
    requires Canonical(merged) && r.start < r.end && LastStart(merged, r.start)
    ensures Canonical(Step(merged, r)) && LastStart(Step(merged, r), r.start)
  {
  }

  /** Merging sorted intervals yields the canonical form of their union. */
  lemma {:induction false} MergeExact(sorted: seq<Range>, x: nat)
    requires Sorted(sorted) && Nonempty(sorted)
    ensures Canonical(MergeAll(sorted)) && (Covers(MergeAll(sorted), x) <==> Covers(sorted, x))
    ensures sorted != [] ==> LastStart(MergeAll(sorted), sorted[|sorted| - 1].start)
    decreases |sorted|
  {
    if sorted != [] {
      var n := |sorted| - 1;
      var before, r := sorted[..n], sorted[n];
      MergeExact(before, x);
      if n > 0 { assert Before(sorted[n - 1], sorted[n]); }
      StepCanonical(MergeAll(before), r);
      StepCovers(MergeAll(before), r, x);
      SnocCovers(before, r, x);
      assert sorted == before + [r];
    }
  }

  lemma SnocCovers(rs: seq<Range>, r: Range, x: nat)
    ensures Covers(rs + [r], x) <==> Covers(rs, x) || In(r, x)
  {
    if Covers(rs, x) {
      var i :| 0 <= i < |rs| && In(rs[i], x);
      assert In((rs + [r])[i], x);
    }
    if In(r, x) { assert In((rs + [r])[|rs|], x); }
  }

  // ----- normalization -----

  function Normal(ranges: seq<Range>): seq<Range> { MergeAll(Sort(ranges)) }

  /** Normalization keeps exactly the covered addresses, in canonical form. */
  lemma NormalExact(ranges: seq<Range>, x: nat)
    requires Nonempty(ranges)
    ensures Canonical(Normal(ranges)) && (Covers(Normal(ranges), x) <==> Covers(ranges, x))
  {
    SortKeeps(ranges);
    SameElements(ranges, Sort(ranges), x);
    SameElements(Sort(ranges), ranges, x);
    MergeExact(Sort(ranges), x);
  }

  /** Validate, sort and merge; an empty or reversed interval raises. */
  method Normalize(ranges: seq<Range>) returns (r: Option<seq<Range>>)
    ensures r == if Nonempty(ranges) then Some(Normal(ranges)) else None
  {
    for i := 0 to |ranges|
      invariant forall k :: 0 <= k < i ==> ranges[k].start < ranges[k].end
    {
      if ranges[i].start >= ranges[i].end { return None; }
    }
    var sorted := Sort(ranges);
    var merged: seq<Range> := [];
    for i := 0 to |sorted|
      invariant merged == MergeAll(sorted[..i])
    {
      assert sorted[..i + 1][..i] == sorted[..i];
      var next, n := sorted[i], |merged| - 1;
      if merged != [] && next.start <= merged[n].end {
        if next.end > merged[n].end { merged := merged[n := MakeRange(merged[n].start, next.end)]; }
      } else {
        merged := merged + [next];
      }
    }
    assert sorted[..|sorted|] == sorted;
    return Some(merged);
  }

  // ----- the canonical form is unique -----

  lemma CoveredTail(rs: seq<Range>, x: nat)
    requires Canonical(rs) && rs != []
    ensures Covers(rs[1..], x) <==> Covers(rs, x) && rs[0].end <= x
    ensures Covers(rs, x) ==> rs[0].start <= x
    ensures Covers(rs, rs[0].start) && !Covers(rs, rs[0].end) && Canonical(rs[1..])
  {
    if Covers(rs[1..], x) {
      var i :| 0 <= i < |rs| - 1 && In(rs[1..][i], x);
      assert In(rs[i + 1], x);
    }
    if Covers(rs, x) {
      var i :| 0 <= i < |rs| && In(rs[i], x);
      if rs[0].end <= x { assert In(rs[1..][i - 1], x); }
    }
    assert In(rs[0], rs[0].start);
  }

  lemma FirstStart(a: seq<Range>, b: seq<Range>)
    requires Canonical(a) && Canonical(b) && a != [] && b != []
    requires forall x: nat :: Covers(a, x) <==> Covers(b, x)
    ensures a[0].start >= b[0].start
  {
    CoveredTail(a, a[0].start);
    CoveredTail(b, a[0].start);
  }

  lemma FirstEnd(a: seq<Range>, b: seq<Range>)
    requires Canonical(a) && Canonical(b) && a != [] && b != [] && a[0].start == b[0].start
    requires forall x: nat :: Covers(a, x) <==> Covers(b, x)
    ensures a[0].end >= b[0].end
  {
    var x := a[0].end;
    CoveredTail(a, x);
    assert !Covers(b, x);
    assert !In(b[0], x);
  }

  lemma {:induction false} CanonicalUnique(a: seq<Range>, b: seq<Range>)
    requires Canonical(a) && Canonical(b) && forall x: nat :: Covers(a, x) <==> Covers(b, x)
    ensures a == b
    decreases |a|
  {
    if a != [] { CoveredTail(a, 0); }
    if b != [] { CoveredTail(b, 0); }
    assert forall x: nat :: !Covers([], x);
    if a != [] && b != [] {
      FirstStart(a, b);
      FirstStart(b, a);
      FirstEnd(a, b);
      FirstEnd(b, a);
      forall x: nat
        ensures Covers(a[1..], x) <==> Covers(b[1..], x)
      {
        CoveredTail(a, x);
        CoveredTail(b, x);
      }
      CanonicalUnique(a[1..], b[1..]);
    }
  }

  /** Two inputs with the same union normalize to the same intervals. */
  lemma NormalDependsOnUnion(a: seq<Range>, b: seq<Range>)
    requires Nonempty(a) && Nonempty(b)
    ensures Normal(a) == Normal(b) <==> forall x: nat :: Covers(a, x) <==> Covers(b, x)
  {
    forall x: nat
      ensures Canonical(Normal(a)) && (Covers(Normal(a), x) <==> Covers(a, x))
      ensures Canonical(Normal(b)) && (Covers(Normal(b), x) <==> Covers(b, x))
    {
      NormalExact(a, x);
      NormalExact(b, x);
    }
    NormalExact(a, 0);
    NormalExact(b, 0);
    if forall x: nat :: Covers(a, x) <==> Covers(b, x) { CanonicalUnique(Normal(a), Normal(b)); }
  }

  /** A canonical list is left alone. */
  lemma NormalOfCanonical(rs: seq<Range>)
    requires Canonical(rs)
    ensures Normal(rs) == rs
  {
    forall x: nat
      ensures Canonical(Normal(rs)) && (Covers(Normal(rs), x) <==> Covers(rs, x))
    {
      NormalExact(rs, x);
    }
    NormalExact(rs, 0);
    CanonicalUnique(Normal(rs), rs);
  }

  // ----- the text form -----

  function Token(r: Range): string { "0x" + Digits(r.start, 16) + "-0x" + Digits(r.end, 16) }

  function Tokens(rs: seq<Range>): (t: seq<string>)
    ensures |t| == |rs|
  {
    seq(|rs|, i requires 0 <= i < |rs| => Token(rs[i]))
  }

  function Serialize(rs: seq<Range>): string { Join(Tokens(rs), ',') }

  predicate IsNumeral(s: string) { |s| > 2 && s[0] == '0' && s[1] == 'x' && AllHex(s[2..]) }

  /** `0x<hex>-0x<hex>` and nothing else. */
  function ParseToken(s: string): Option<Range>
  {
    var k := Find(s, '-');
    if k < |s| && IsNumeral(s[..k]) && IsNumeral(s[k + 1..]) then
      Some(MakeRange(Value(s[..k][2..], 16), Value(s[k + 1..][2..], 16)))
    else None
  }

  function ParseTokens(tokens: seq<string>): Option<seq<Range>>
  {
    if tokens == [] then Some([])
    else
      var first, rest := ParseToken(tokens[0]), ParseTokens(tokens[1..]);
      if first.None? || first.value.start >= first.value.end || rest.None? then None
        else Some([first.value] + rest.value)
  }

  function Parse(text: string): Option<seq<Range>>
  {
    if text == "" then Some([])
    else
      var rs := ParseTokens(Split(text, ','));
      if rs.None? then None else Some(Normal(rs.value))
  }

  lemma NumeralReads(n: nat)
    ensures IsNumeral("0x" + Digits(n, 16)) && Value(("0x" + Digits(n, 16))[2..], 16) == n
    ensures forall i :: 0 <= i < |"0x" + Digits(n, 16)| ==>
            ("0x" + Digits(n, 16))[i] != '-' && ("0x" + Digits(n, 16))[i] != ','
  {
    DigitsRoundTrip(n, 16);
    var s := "0x" + Digits(n, 16);
    assert s[2..] == Digits(n, 16);
    assert forall i :: 2 <= i < |s| ==> s[i] == Digits(n, 16)[i - 2];
  }

  predicate NoComma(s: string) { forall i :: 0 <= i < |s| ==> s[i] != ',' }

  lemma TokenReads(r: Range)
    ensures ParseToken(Token(r)) == Some(r) && NoComma(Token(r))
  {
    var a, b := "0x" + Digits(r.start, 16), "0x" + Digits(r.end, 16);
    NumeralReads(r.start);
    NumeralReads(r.end);
    assert Token(r) == a + ['-'] + b;
    FindAfter(a, b, '-');
    var s := Token(r);
    assert s[..|a|] == a && s[|a| + 1..] == b;
  }

  lemma TokensCons(rs: seq<Range>)
    requires rs != []
    ensures Tokens(rs)[0] == Token(rs[0]) && Tokens(rs)[1..] == Tokens(rs[1..])
  {
  }

  lemma {:induction false} TokensRead(rs: seq<Range>)
    requires Nonempty(rs)
    ensures ParseTokens(Tokens(rs)) == Some(rs)
    decreases |rs|
  {
    if rs != [] {
      TokensRead(rs[1..]);
      TokenReads(rs[0]);
      TokensCons(rs);
      assert [rs[0]] + rs[1..] == rs;
    }
  }

  /** Parsing the text of a canonical list returns it unchanged. */
  lemma ParseSerialized(rs: seq<Range>)
    requires Canonical(rs)
    ensures Parse(Serialize(rs)) == Some(rs)
  {
    if rs != [] {
      forall p, i | 0 <= p < |rs| && 0 <= i < |Tokens(rs)[p]|
        ensures Tokens(rs)[p][i] != ','
      {
        TokenReads(rs[p]);
        assert NoComma(Tokens(rs)[p]);
      }
      SplitJoin(Tokens(rs), ',');
      TokensRead(rs);
      NormalOfCanonical(rs);
      TextNotEmpty(rs);
    }
  }

  lemma TextNotEmpty(rs: seq<Range>)
    requires rs != []
    ensures Serialize(rs) != ""
  {
    assert Tokens(rs)[0] == Token(rs[0]);
  }

  /** Whatever parses is canonical. */
  lemma ParsedIsCanonical(text: string)
    requires Parse(text).Some?
    ensures Canonical(Parse(text).value)
  {
    if text != "" {
      var rs := ParseTokens(Split(text, ',')).value;
      ParsedNonempty(Split(text, ','));
      NormalExact(rs, 0);
    }
  }

  lemma {:induction false} ParsedNonempty(tokens: seq<string>)
    requires ParseTokens(tokens).Some?
    ensures Nonempty(ParseTokens(tokens).value)
    decreases |tokens|
  {
    if tokens != [] { ParsedNonempty(tokens[1..]); }
  }

  // ----- what the text form accepts -----

  /** `0x`, digits, `-0x`, digits, with these values. */
  ghost predicate Names(s: string, r: Range) { exists a, b :: NamedBy(s, r, a, b) }

  ghost predicate NamedBy(s: string, r: Range, a: string, b: string)
  {
    && a != [] && b != [] && AllHex(a) && AllHex(b) && s == "0x" + a + "-0x" + b
    && r == MakeRange(Value(a, 16), Value(b, 16))
  }

  lemma TokenExactly(s: string, r: Range)
    ensures ParseToken(s) == Some(r) <==> Names(s, r)
  {
    if ParseToken(s) == Some(r) {
      var k := Find(s, '-');
      var a, b := s[..k][2..], s[k + 1..][2..];
      assert s[..k] == "0x" + a && s[k + 1..] == "0x" + b;
      assert s == s[..k] + ['-'] + s[k + 1..];
      assert NamedBy(s, r, a, b);
    }
    if Names(s, r) {
      var a, b :| NamedBy(s, r, a, b);
      NamedReads(s, r, a, b);
    }
  }

  lemma NamedReads(s: string, r: Range, a: string, b: string)
    requires NamedBy(s, r, a, b)
    ensures ParseToken(s) == Some(r)
  {
    var x, y := "0x" + a, "0x" + b;
    assert forall i :: 2 <= i < |x| ==> x[i] == a[i - 2];
    assert s == x + ['-'] + y;
    FindAfter(x, y, '-');
    assert s[..|x|] == x && s[|x| + 1..] == y && x[2..] == a && y[2..] == b;
  }

  /** A comma-separated list of named, nonempty ranges; nothing for none. */
  ghost predicate Lists(text: string, ranges: seq<Range>)
  {
    Nonempty(ranges)
    && if ranges == [] then text == ""
       else |Split(text, ',')| == |ranges|
            && forall i :: 0 <= i < |ranges| ==> Names(Split(text, ',')[i], ranges[i])
  }

  lemma {:induction false} TokensExactly(tokens: seq<string>, ranges: seq<Range>)
    ensures ParseTokens(tokens) == Some(ranges) <==>
            Nonempty(ranges) && |tokens| == |ranges| && forall i :: 0 <= i < |ranges| ==> Names(tokens[i], ranges[i])
    decreases |tokens|
  {
    if tokens != [] && ranges != [] {
      TokenExactly(tokens[0], ranges[0]);
      TokensExactly(tokens[1..], ranges[1..]);
      assert ranges == [ranges[0]] + ranges[1..];
    }
  }

  /** The canonical list of the same addresses. */
  ghost predicate IsUnion(rs: seq<Range>, ranges: seq<Range>)
  {
    Canonical(rs) && forall x: nat :: Covers(rs, x) <==> Covers(ranges, x)
  }

  lemma NormalIsUnion(rs: seq<Range>, ranges: seq<Range>)
    requires Nonempty(ranges)
    ensures rs == Normal(ranges) <==> IsUnion(rs, ranges)
  {
    NormalExact(ranges, 0);
    forall x: nat
      ensures Covers(Normal(ranges), x) <==> Covers(ranges, x)
    {
      NormalExact(ranges, x);
    }
    if IsUnion(rs, ranges) { CanonicalUnique(rs, Normal(ranges)); }
  }

  /** A text is accepted iff it lists nonempty ranges, and what comes back is their
      union in canonical form. */
  lemma ParsesExactly(text: string, rs: seq<Range>)
    ensures Parse(text) == Some(rs) <==> exists ranges :: Lists(text, ranges) && IsUnion(rs, ranges)
  {
    if Parse(text) == Some(rs) {
      var ranges := if text == "" then [] else ParseTokens(Split(text, ',')).value;
      TokensExactly(Split(text, ','), ranges);
      NormalIsUnion(rs, ranges);
      assert Lists(text, ranges) && IsUnion(rs, ranges);
    }
    if exists ranges :: Lists(text, ranges) && IsUnion(rs, ranges) {
      var ranges :| Lists(text, ranges) && IsUnion(rs, ranges);
      NormalIsUnion(rs, ranges);
      ListsReads(text, ranges);
    }
  }

  lemma ListsReads(text: string, ranges: seq<Range>)
    requires Lists(text, ranges)
    ensures Parse(text) == Some(Normal(ranges))
  {
    if ranges != [] {
      assert Names(Split(text, ',')[0], ranges[0]);
      TokensExactly(Split(text, ','), ranges);
    }
  }
}
