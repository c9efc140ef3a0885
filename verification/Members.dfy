/** Interned member sets: range texts become candidate-index intervals, packed
    as a bitmap or as interval bounds, and equal sets share one object. */
module Members {
  import opened Sequences
  import opened Options
  import opened IdRanges

  // ----- interval bounds: the parity form -----

  ghost predicate StrictlyUp(b: seq<nat>) { forall i, j :: 0 <= i < j < |b| ==> b[i] < b[j] }

  /** Python's `bisect_right`: how many bounds are at most `i`. */
  function BisectRight(bounds: seq<nat>, i: nat): nat
  {
    if bounds == [] || bounds[0] > i then 0 else 1 + BisectRight(bounds[1..], i)
  }

  /** Index `i` is inside one of the half-open intervals. */
  predicate Inside(bounds: seq<nat>, i: nat) { BisectRight(bounds, i) % 2 == 1 }

  lemma {:induction false} BisectSnoc(bounds: seq<nat>, x: nat, i: nat)
    requires StrictlyUp(bounds + [x])
    ensures BisectRight(bounds + [x], i) == BisectRight(bounds, i) + (if x <= i then 1 else 0)
    decreases |bounds|
  {
    if bounds == [] {
    } else {
      assert (bounds + [x])[1..] == bounds[1..] + [x];
      assert bounds[0] == (bounds + [x])[0] && x == (bounds + [x])[|bounds|];
      StrictTail(bounds + [x]);
      if bounds[0] <= i { BisectSnoc(bounds[1..], x, i); }
    }
  }

  lemma StrictTail(b: seq<nat>)
    requires StrictlyUp(b) && b != []
    ensures StrictlyUp(b[1..])
  {
  }

  /** Bounds are determined by the set they denote. */
  lemma {:induction false} BoundsCanonical(a: seq<nat>, b: seq<nat>)
    requires StrictlyUp(a) && StrictlyUp(b)
    requires forall i: nat :: Inside(a, i) == Inside(b, i)
    ensures a == b
    decreases |a| + |b|
  {
    if a != [] { FirstInside(a); }
    if b != [] { FirstInside(b); }
    forall i: nat
      ensures !Inside([], i)
    {
    }
    if a != [] && b != [] {
      StrictTail(a);
      StrictTail(b);
      forall i: nat
        ensures Inside(a[1..], i) == Inside(b[1..], i)
      {
        assert Inside(a, i) == Inside(b, i);
        TailBisect(a, i);
        TailBisect(b, i);
      }
      BoundsCanonical(a[1..], b[1..]);
    }
  }

  lemma FirstInside(b: seq<nat>)
    requires StrictlyUp(b) && b != []
    ensures Inside(b, b[0]) && forall i: nat :: i < b[0] ==> !Inside(b, i)
  {
    if |b| > 1 { assert b[1..][0] == b[1] && b[0] < b[1]; }
  }

  lemma TailBisect(b: seq<nat>, i: nat)
    requires StrictlyUp(b) && b != []
    ensures b[0] <= i ==> BisectRight(b, i) == 1 + BisectRight(b[1..], i)
    ensures b[0] > i ==> BisectRight(b[1..], i) == 0
  {
    if |b| > 1 { assert b[1..][0] == b[1] && b[0] < b[1]; }
  }

  // ----- from ranges to bounds -----

  /** Position of `id` in the sorted universe. */
  function Position(ordered: seq<nat>, id: nat): (p: Option<nat>)
    ensures p.Some? ==> p.value < |ordered| && ordered[p.value] == id
    ensures p.None? ==> id !in ordered
  {
    if ordered == [] then None
    else if ordered[0] == id then Some(0)
    else
      var p := Position(ordered[1..], id);
      if p.None? then None else Some(p.value + 1)
  }

  /** One range adds an interval, or lengthens the last one if it continues it. */
  function AddRange(bounds: seq<nat>, first: nat, last: nat): seq<nat>
  {
    if bounds != [] && bounds[|bounds| - 1] == first then bounds[|bounds| - 1 := last + 1]
    else bounds + [first] + [last + 1]
  }

  /** The range's endpoints are present and as far apart as their positions. */
  predicate Fits(ordered: seq<nat>, r: Range)
  {
    var first, last := Position(ordered, r.first), Position(ordered, r.last);
    first.Some? && last.Some? && last.value - first.value == r.last - r.first
  }

  function BoundsFrom(ordered: seq<nat>, ranges: seq<Range>, bounds: seq<nat>): Option<seq<nat>>
    decreases |ranges|
  {
    if ranges == [] then Some(bounds)
    else if !Fits(ordered, ranges[0]) then None
    else BoundsFrom(ordered, ranges[1..],
                    AddRange(bounds, Position(ordered, ranges[0].first).value, Position(ordered, ranges[0].last).value))
  }

  // ----- endpoints suffice: the pigeonhole argument -----

  lemma {:induction false} GapsAreOne(ordered: seq<nat>, i: nat, j: nat)
    requires Increasing(ordered) && i <= j < |ordered|
    ensures ordered[j] - ordered[i] >= j - i
    decreases j - i
  {
    if i < j { GapsAreOne(ordered, i, j - 1); }
  }

  lemma Between(ordered: seq<nat>, p: nat, k: nat, q: nat)
    requires Increasing(ordered) && p <= k <= q < |ordered| && ordered[q] - ordered[p] == q - p
    ensures ordered[k] == ordered[p] + (k - p)
  {
    GapsAreOne(ordered, p, k);
    GapsAreOne(ordered, k, q);
  }

  /** Endpoints as far apart as their positions leave no hole between them. */
  lemma FitsMeansAll(ordered: seq<nat>, r: Range, id: nat)
    requires Increasing(ordered) && Fits(ordered, r) && r.first <= id <= r.last
    ensures id in ordered
    ensures Position(ordered, id) == Some(Position(ordered, r.first).value + (id - r.first))
  {
    var p, q := Position(ordered, r.first).value, Position(ordered, r.last).value;
    Between(ordered, p, p + (id - r.first), q);
    PositionUnique(ordered, id, p + (id - r.first));
  }

  lemma SameOrder(ordered: seq<nat>, i: nat, j: nat)
    requires Increasing(ordered) && i < |ordered| && j < |ordered|
    ensures i < j <==> ordered[i] < ordered[j]
  {
  }

  lemma PositionUnique(ordered: seq<nat>, id: nat, k: nat)
    requires Increasing(ordered) && k < |ordered| && ordered[k] == id
    ensures Position(ordered, id) == Some(k)
  {
    assert id in ordered;
    var p := Position(ordered, id).value;
    SameOrder(ordered, p, k);
  }

  /** A range with every id present passes the endpoint test. */
  lemma {:induction false} AllMeansFits(ordered: seq<nat>, first: nat, last: nat)
    requires Increasing(ordered) && first <= last
    requires forall id: nat :: first <= id <= last ==> id in ordered
    ensures Fits(ordered, MakeRange(first, last))
    decreases last - first
  {
    assert first in ordered && last in ordered;
    if first < last {
      AllMeansFits(ordered, first, last - 1);
      var p, q, m := Position(ordered, first).value, Position(ordered, last).value, Position(ordered, last - 1).value;
      assert ordered[m] == last - 1 && ordered[q] == last;
      SameOrder(ordered, m, q);
      SameOrder(ordered, m + 1, q);
      SameOrder(ordered, m, m + 1);
    }
  }

  // ----- what the bounds denote -----

  lemma {:induction false} BisectAll(bounds: seq<nat>, i: nat)
    requires forall k :: 0 <= k < |bounds| ==> bounds[k] <= i
    ensures BisectRight(bounds, i) == |bounds|
    decreases |bounds|
  {
    if bounds != [] { BisectAll(bounds[1..], i); }
  }

  /** Well-formed bounds: whole intervals, ending no later than `end`. */
  ghost predicate Closed(bounds: seq<nat>, end: nat)
  {
    StrictlyUp(bounds) && |bounds| % 2 == 0 && (bounds == [] || bounds[|bounds| - 1] <= end)
  }

  lemma ClosedBelow(bounds: seq<nat>, end: nat, i: nat)
    requires Closed(bounds, end) && end <= i
    ensures BisectRight(bounds, i) == |bounds|
  {
    forall k | 0 <= k < |bounds|
      ensures bounds[k] <= i
    {
      assert k < |bounds| - 1 ==> bounds[k] < bounds[|bounds| - 1];
    }
    BisectAll(bounds, i);
  }

  lemma StrictSnoc(b: seq<nat>, x: nat)
    requires StrictlyUp(b) && (b == [] || b[|b| - 1] < x)
    ensures StrictlyUp(b + [x])
  {
    forall i, j | 0 <= i < j < |b + [x]|
      ensures (b + [x])[i] < (b + [x])[j]
    {
      if j == |b| && i < |b| - 1 { assert b[i] < b[|b| - 1]; }
    }
  }

  lemma AppendClosed(bounds: seq<nat>, first: nat, last: nat)
    requires Closed(bounds, first) && first <= last && (bounds == [] || bounds[|bounds| - 1] < first)
    ensures StrictlyUp(bounds + [first]) && Closed(bounds + [first] + [last + 1], last + 1)
  {
    StrictSnoc(bounds, first);
    StrictSnoc(bounds + [first], last + 1);
  }

  lemma AppendInterval(bounds: seq<nat>, first: nat, last: nat, i: nat)
    requires Closed(bounds, first) && first <= last && (bounds == [] || bounds[|bounds| - 1] < first)
    ensures Inside(bounds + [first] + [last + 1], i) <==> Inside(bounds, i) || first <= i <= last
  {
    AppendClosed(bounds, first, last);
    BisectSnoc(bounds, first, i);
    BisectSnoc(bounds + [first], last + 1, i);
    if first <= i { ClosedBelow(bounds, first, i); }
  }

  lemma ExtendInterval(pre: seq<nat>, first: nat, last: nat, i: nat)
    requires Closed(pre + [first], first) && first <= last
    ensures Closed(pre + [last + 1], last + 1)
    ensures Inside(pre + [last + 1], i) <==> Inside(pre + [first], i) || first <= i <= last
  {
    PrefixBelow(pre, first);
    assert pre == [] || pre[|pre| - 1] < first;
    assert StrictlyUp(pre);
    StrictSnoc(pre, last + 1);
    BisectSnoc(pre, first, i);
    BisectSnoc(pre, last + 1, i);
    if first <= i { BisectAll(pre, i); }
  }

  lemma PrefixBelow(pre: seq<nat>, x: nat)
    requires StrictlyUp(pre + [x])
    ensures StrictlyUp(pre) && forall k :: 0 <= k < |pre| ==> pre[k] < x
  {
    var b := pre + [x];
    assert forall k :: 0 <= k < |pre| ==> b[k] == pre[k];
    assert b[|pre|] == x;
  }

  lemma AddRangeInside(bounds: seq<nat>, first: nat, last: nat, i: nat)
    requires Closed(bounds, first) && first <= last
    ensures Closed(AddRange(bounds, first, last), last + 1)
    ensures Inside(AddRange(bounds, first, last), i) <==> Inside(bounds, i) || first <= i <= last
  {
    if bounds != [] && bounds[|bounds| - 1] == first {
      var pre := bounds[..|bounds| - 1];
      assert bounds == pre + [first];
      assert bounds[|bounds| - 1 := last + 1] == pre + [last + 1];
      ExtendInterval(pre, first, last, i);
    } else {
      AppendClosed(bounds, first, last);
      AppendInterval(bounds, first, last, i);
    }
  }

  /** Some range denotes `id`. */
  predicate Covers(ranges: seq<Range>, id: nat)
  {
    exists k :: 0 <= k < |ranges| && ranges[k].first <= id <= ranges[k].last
  }

  lemma CoversCons(ranges: seq<Range>, id: nat)
    requires ranges != []
    ensures Covers(ranges, id) <==> ranges[0].first <= id <= ranges[0].last || Covers(ranges[1..], id)
  {
    if Covers(ranges[1..], id) {
      var k :| 0 <= k < |ranges[1..]| && ranges[1..][k].first <= id <= ranges[1..][k].last;
      assert ranges[k + 1] == ranges[1..][k];
    }
    if k :| 1 <= k < |ranges| && ranges[k].first <= id <= ranges[k].last {
      assert ranges[1..][k - 1] == ranges[k];
    }
  }

  /** A fitting range covers exactly the positions between its endpoints'. */
  lemma FittingRange(ordered: seq<nat>, r: Range, i: nat)
    requires Increasing(ordered) && Fits(ordered, r) && r.first <= r.last && i < |ordered|
    ensures Position(ordered, r.first).value <= i <= Position(ordered, r.last).value <==>
            r.first <= ordered[i] <= r.last
  {
    SameOrderBetween(ordered, Position(ordered, r.first).value, i, Position(ordered, r.last).value);
  }

  lemma SameOrderBetween(ordered: seq<nat>, p: nat, i: nat, q: nat)
    requires Increasing(ordered) && p < |ordered| && i < |ordered| && q < |ordered|
    ensures p <= i <= q <==> ordered[p] <= ordered[i] <= ordered[q]
  {
    SameOrder(ordered, p, i);
    SameOrder(ordered, i, q);
  }

  /** The next range starts at or after the end of the previous one. */
  lemma NextPosition(ordered: seq<nat>, previous: nat, first: nat)
    requires Increasing(ordered) && Position(ordered, previous).Some? && Position(ordered, first).Some?
             && previous < first
    ensures Position(ordered, previous).value + 1 <= Position(ordered, first).value
  {
    var p, q := Position(ordered, previous).value, Position(ordered, first).value;
    SameOrder(ordered, p, q);
  }

  ghost predicate EndsBefore(ordered: seq<nat>, bounds: seq<nat>, previous: nat)
  {
    bounds == [] || (Position(ordered, previous).Some? && Closed(bounds, Position(ordered, previous).value + 1))
  }

  /** Accepted exactly when every denoted id is in the universe. */
  lemma {:induction false} BoundsAccepted(ordered: seq<nat>, ranges: seq<Range>, previous: nat, bounds: seq<nat>)
    requires Increasing(ordered) && Ordered(ranges, previous)
    ensures BoundsFrom(ordered, ranges, bounds).Some? <==> forall id: nat :: Covers(ranges, id) ==> id in ordered
    decreases |ranges|
  {
    if ranges != [] {
      var r := ranges[0];
      if Fits(ordered, r) {
        BoundsAccepted(ordered, ranges[1..], r.last,
                       AddRange(bounds, Position(ordered, r.first).value, Position(ordered, r.last).value));
        forall id: nat
          ensures Covers(ranges, id) ==> (id in ordered || Covers(ranges[1..], id))
          ensures Covers(ranges[1..], id) ==> Covers(ranges, id)
        {
          CoversCons(ranges, id);
          if r.first <= id <= r.last { FitsMeansAll(ordered, r, id); }
        }
      } else {
        forall id: nat | r.first <= id <= r.last
          ensures Covers(ranges, id)
        {
          assert ranges[0] == r;
        }
        if forall id: nat :: Covers(ranges, id) ==> id in ordered {
          AllMeansFits(ordered, r.first, r.last);
        }
      }
    }
  }

  lemma {:induction false} BoundsInside(ordered: seq<nat>, ranges: seq<Range>, previous: nat, bounds: seq<nat>, i: nat)
    requires Increasing(ordered) && Ordered(ranges, previous) && BoundsFrom(ordered, ranges, bounds).Some?
    requires EndsBefore(ordered, bounds, previous)
    ensures var b := BoundsFrom(ordered, ranges, bounds).value;
            && Closed(b, |ordered|)
            && (Inside(b, i) <==> Inside(bounds, i) || (i < |ordered| && Covers(ranges, ordered[i])))
    decreases |ranges|
  {
    if ranges != [] {
      var r := ranges[0];
      var p, q := Position(ordered, r.first).value, Position(ordered, r.last).value;
      if bounds != [] { NextPosition(ordered, previous, r.first); }
      AddRangeInside(bounds, p, q, i);
      if i < |ordered| {
        FittingRange(ordered, r, i);
        CoversCons(ranges, ordered[i]);
      }
      BoundsInside(ordered, ranges[1..], r.last, AddRange(bounds, p, q), i);
    }
  }
}
