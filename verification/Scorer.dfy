/** The novelty scorer: histories of outcomes, signatures and edges, and scores
    that count what each input adds to them. */
module Scorer {
  import opened Bits
  import opened Bitmaps
  import opened Options
  import opened Predicates
  import opened BranchCodec
  import opened Novelty

  // ----- counting new bits -----

  /** The set bits among the first `n`. */
  function BitCount(x: int, n: nat): nat
    decreases n, x
  {
    if n == 0 then 0 else BitCount(x, n - 1) + (if Bit(x, n - 1) then 1 else 0)
  }

  /** Python's `int.bit_count` of a byte. */
  function PopCount(x: int): nat { BitCount(x, 8) }

  /** What is seen afterwards is what was seen before and what was added. */
  lemma {:induction false} CountAdded(mask: int, seen: int, n: nat)
    ensures BitCount(Or(seen, mask), n) == BitCount(seen, n) + BitCount(And(mask, Not(seen)), n)
    decreases n
  {
    if n > 0 {
      CountAdded(mask, seen, n - 1);
      BitOr(seen, mask, n - 1);
      BitAnd(mask, Not(seen), n - 1);
      BitNot(seen, n - 1);
    }
  }

  ghost function BitsOf(x: int, n: nat): set<nat> { set k: nat | k < n && Bit(x, k) }

  lemma {:induction false} BitCountMeans(x: int, n: nat)
    ensures BitCount(x, n) == |BitsOf(x, n)|
    decreases n
  {
    if n > 0 {
      BitCountMeans(x, n - 1);
      assert BitsOf(x, n) == BitsOf(x, n - 1) + (if Bit(x, n - 1) then {n - 1} else {});
    }
  }

  function Total(masks: seq<nat>): nat
  {
    if masks == [] then 0 else Total(masks[..|masks| - 1]) + PopCount(masks[|masks| - 1])
  }

  /** The sum over the zipped masks; the shorter list ends it. */
  function NewBits(masks: seq<nat>, seen: seq<nat>): nat
    requires |masks| <= |seen|
  {
    if masks == [] then 0
    else
      var n := |masks| - 1;
      NewBits(masks[..n], seen) + PopCount(And(masks[n], Not(seen[n])))
  }

  lemma {:induction false} NewBitsAdd(masks: seq<nat>, seen: seq<nat>, after: seq<nat>)
    requires |masks| == |seen| == |after| && forall i :: 0 <= i < |masks| ==> after[i] == Or(seen[i], masks[i])
    ensures Total(after) == Total(seen) + NewBits(masks, seen)
    decreases |masks|
  {
    if masks != [] {
      var n := |masks| - 1;
      NewBitsAdd(masks[..n], seen[..n], after[..n]);
      NewBitsPrefix(masks[..n], seen, n);
      CountAdded(masks[n], seen[n], 8);
    }
  }

  lemma {:induction false} NewBitsPrefix(masks: seq<nat>, seen: seq<nat>, n: nat)
    requires |masks| <= n <= |seen|
    ensures NewBits(masks, seen[..n]) == NewBits(masks, seen)
    decreases |masks|
  {
    if masks != [] { NewBitsPrefix(masks[..|masks| - 1], seen, n); }
  }

  /** The (position, bit) pairs set in a list of masks. */
  ghost function PairsOf(masks: seq<nat>): set<(nat, nat)>
  {
    set i: nat, k: nat | i < |masks| && k < 8 && Bit(masks[i], k) :: (i, k)
  }

  ghost function Tagged(i: nat, ks: set<nat>): set<(nat, nat)> { set k | k in ks :: (i, k) }

  lemma {:induction false} TaggedSize(i: nat, ks: set<nat>)
    ensures |Tagged(i, ks)| == |ks|
    decreases ks
  {
    if ks == {} {
      assert Tagged(i, ks) == {};
    } else {
      var k :| k in ks;
      TaggedSize(i, ks - {k});
      assert Tagged(i, ks) == Tagged(i, ks - {k}) + {(i, k)};
    }
  }

  lemma {:induction false} TotalMeans(masks: seq<nat>)
    ensures Total(masks) == |PairsOf(masks)|
    decreases |masks|
  {
    if masks == [] {
      assert PairsOf(masks) == {};
    } else {
      var n := |masks| - 1;
      var before, last := PairsOf(masks[..n]), Tagged(n, BitsOf(masks[n], 8));
      TotalMeans(masks[..n]);
      BitCountMeans(masks[n], 8);
      TaggedSize(n, BitsOf(masks[n], 8));
      PairsLast(masks);
      assert before !! last && PairsOf(masks) == before + last;
    }
  }

  lemma PairsLast(masks: seq<nat>)
    requires masks != []
    ensures var n := |masks| - 1; PairsOf(masks) == PairsOf(masks[..n]) + Tagged(n, BitsOf(masks[n], 8))
  {
    var n := |masks| - 1;
    assert forall i :: 0 <= i < n ==> masks[..n][i] == masks[i];
    forall d | d in PairsOf(masks)
      ensures d in PairsOf(masks[..n]) + Tagged(n, BitsOf(masks[n], 8))
    {
      if d.0 == n { assert d.1 in BitsOf(masks[n], 8); }
    }
  }

  // ----- features of appended states -----

  lemma {:induction false} MaskAppend<P, S>(eval: (P, S) -> Branch, p: P, a: seq<S>, b: seq<S>)
    ensures Mask(eval, p, a + b) == Or(Mask(eval, p, a), Mask(eval, p, b))
    decreases |b|
  {
    if b == [] {
      assert a + b == a;
      OrZero(Mask(eval, p, a));
    } else {
      var n := |b| - 1;
      MaskAppend(eval, p, a, b[..n]);
      assert a + b == a + b[..n] + [b[n]];
      assert b == b[..n] + [b[n]];
      MaskSnoc(eval, p, a + b[..n], b[n]);
      MaskSnoc(eval, p, b[..n], b[n]);
      OrAssociates(Mask(eval, p, a), Mask(eval, p, b[..n]), Shl(1, eval(p, b[n])));
    }
  }

  lemma MaskSnoc<P, S>(eval: (P, S) -> Branch, p: P, states: seq<S>, state: S)
    ensures Mask(eval, p, states + [state]) == Or(Mask(eval, p, states), Shl(1, eval(p, state)))
  {
    assert (states + [state])[..|states|] == states;
  }

  lemma OrAssociates(a: int, b: int, c: int)
    ensures Or(Or(a, b), c) == Or(a, Or(b, c))
  {
    forall i: nat
      ensures Bit(Or(Or(a, b), c), i) == Bit(Or(a, Or(b, c)), i)
    {
      BitOr(Or(a, b), c, i);
      BitOr(a, b, i);
      BitOr(a, Or(b, c), i);
      BitOr(b, c, i);
    }
    BitsExtensional(Or(Or(a, b), c), Or(a, Or(b, c)));
  }

  lemma {:induction false} SignaturesAppend<P, S, D>(eval: (P, S) -> Branch, digest: seq<Byte> -> D, preds: seq<P>,
                                                     a: seq<S>, b: seq<S>)
    ensures Signatures(eval, digest, preds, a + b)
            == Signatures(eval, digest, preds, a) + Signatures(eval, digest, preds, b)
    decreases |b|
  {
    if b == [] {
      assert a + b == a;
    } else {
      var n := |b| - 1;
      SignaturesAppend(eval, digest, preds, a, b[..n]);
      assert a + b == a + b[..n] + [b[n]];
      assert b == b[..n] + [b[n]];
      SignaturesSnoc(eval, digest, preds, a + b[..n], b[n]);
      SignaturesSnoc(eval, digest, preds, b[..n], b[n]);
    }
  }

  lemma SignaturesSnoc<P, S, D>(eval: (P, S) -> Branch, digest: seq<Byte> -> D, preds: seq<P>, states: seq<S>, state: S)
    ensures Signatures(eval, digest, preds, states + [state])
            == Signatures(eval, digest, preds, states) + Signatures(eval, digest, preds, [state])
  {
    assert (states + [state])[..|states|] == states && [state][..0] == [];
  }

  // ----- scores -----

  datatype Score = MakeScore(seqno: nat, outcomes: nat, signatures: nat, edges: nat)

  function SumOutcomes(issued: seq<Score>): nat
  {
    if issued == [] then 0 else SumOutcomes(issued[..|issued| - 1]) + issued[|issued| - 1].outcomes
  }

  function SumSignatures(issued: seq<Score>): nat
  {
    if issued == [] then 0 else SumSignatures(issued[..|issued| - 1]) + issued[|issued| - 1].signatures
  }

  function SumEdges(issued: seq<Score>): nat
  {
    if issued == [] then 0 else SumEdges(issued[..|issued| - 1]) + issued[|issued| - 1].edges
  }

  lemma SumsSnoc(issued: seq<Score>, score: Score)
    ensures SumOutcomes(issued + [score]) == SumOutcomes(issued) + score.outcomes
    ensures SumSignatures(issued + [score]) == SumSignatures(issued) + score.signatures
    ensures SumEdges(issued + [score]) == SumEdges(issued) + score.edges
  {
    assert (issued + [score])[..|issued|] == issued;
  }

  lemma NewOnes<T>(history: set<T>, found: set<T>)
    ensures |history + found| == |history| + |found - history|
  {
    assert history + found == history + (found - history);
  }

  const COVERAGE_SIZE := 65536

  /** Where a call breaks off: the deadline before or after the reduction, or the
      reducer itself. */
  datatype Trouble = Untroubled | BeforeReduction | InReduction | AfterReduction

  /** What was not captured is not scored. */
  predicate ScoresOnly(score: Score, patched: bool, covered: bool)
  {
    (!patched ==> score.outcomes == 0 && score.signatures == 0) && (!covered ==> score.edges == 0)
  }

  datatype Reply = Issued(score: Score) | Refused | Invalid | Cancelled

  /** The covered edges: the indices of nonzero bytes. */
  function EdgesOf(coverage: Option<seq<Byte>>): set<nat>
  {
    if coverage.None? then {} else set i: nat | i < |coverage.value| && coverage.value[i] != 0
  }

  function StatesOf<S>(snapshots: Option<seq<S>>): seq<S> { if snapshots.None? then [] else snapshots.value }

  /** The histories are the plain features of everything committed. */
  ghost predicate Histories<P, S, D>(eval: (P, S) -> Branch, digest: seq<Byte> -> D, preds: seq<P>, seen: seq<S>,
                                     outcomes: seq<nat>, signatures: set<D>)
  {
    && |outcomes| == |preds| && (forall i :: 0 <= i < |preds| ==> outcomes[i] == Mask(eval, preds[i], seen))
    && signatures == Signatures(eval, digest, preds, seen)
  }

  /** The features of the given states; without a capture there are none. */
  ghost predicate Gathered<P, S, D>(eval: (P, S) -> Branch, digest: seq<Byte> -> D, preds: seq<P>, states: seq<S>,
                                    masks: seq<nat>, digests: set<D>)
  {
    && ((masks == [] && states == []) || |masks| == |preds|)
    && (forall i :: 0 <= i < |masks| ==> masks[i] == Mask(eval, preds[i], states))
    && digests == Signatures(eval, digest, preds, states)
  }

  /** The scores issued so far add up to the histories' sizes. */
  ghost predicate Conserved(issued: seq<Score>, outcomes: seq<nat>, outcomeCount: nat, signatures: nat, edges: nat)
  {
    && outcomeCount == Total(outcomes) == SumOutcomes(issued) && signatures == SumSignatures(issued)
    && edges == SumEdges(issued)
  }

  /** The scorer's whole state after a run. */
  ghost predicate Scored<P, S, D>(eval: (P, S) -> Branch, digest: seq<Byte> -> D, preds: seq<P>, seen: seq<S>,
                                  covered: set<nat>, issued: seq<Score>, outcomes: seq<nat>, outcomeCount: nat,
                                  signatures: set<D>, edges: set<nat>)
  {
    && Histories(eval, digest, preds, seen, outcomes, signatures) && edges == covered
    && Conserved(issued, outcomes, outcomeCount, |signatures|, |edges|)
  }

  lemma ScoredNext<P, S, D>(eval: (P, S) -> Branch, digest: seq<Byte> -> D, preds: seq<P>, seen: seq<S>,
                            covered: set<nat>, issued: seq<Score>, outcomes: seq<nat>, outcomeCount: nat,
                            signatures: set<D>, edges: set<nat>, states: seq<S>, masks: seq<nat>, digests: set<D>,
                            found: set<nat>, after: seq<nat>, score: Score)
    requires Scored(eval, digest, preds, seen, covered, issued, outcomes, outcomeCount, signatures, edges)
    requires Gathered(eval, digest, preds, states, masks, digests) && Folded(outcomes, masks, after)
    requires score.outcomes == NewBits(masks, outcomes) && score.signatures == |digests - signatures|
             && score.edges == |found - edges|
    ensures Scored(eval, digest, preds, seen + states, covered + found, issued + [score], after,
                   outcomeCount + score.outcomes,
                   signatures + digests, edges + found)
  {
    HistoriesNext(eval, digest, preds, seen, states, outcomes, signatures, masks, digests, after);
    ConservedNext(issued, outcomes, outcomeCount, signatures, digests, edges, found, masks, after, score);
  }

  /** The (candidate position, outcome) pairs shown by the given states. */
  ghost function Shown<P, S>(eval: (P, S) -> Branch, preds: seq<P>, states: seq<S>): set<(nat, nat)>
  {
    set i: nat, k: nat | i < |preds| && k < 3 && (exists j :: 0 <= j < |states| && eval(preds[i], states[j]) == k)
      :: (i, k)
  }

  /** The scores ever issued add up to what all committed inputs showed: outcome
      scores to the pairs of a candidate and an outcome it had in some state,
      signature scores to the digests of the states' outcome vectors, and edge
      scores to the edges covered. */
  lemma ScoresAddUp<P, S, D>(eval: (P, S) -> Branch, digest: seq<Byte> -> D, preds: seq<P>, seen: seq<S>,
                             covered: set<nat>, issued: seq<Score>, outcomes: seq<nat>, outcomeCount: nat,
                             signatures: set<D>, edges: set<nat>)
    requires Scored(eval, digest, preds, seen, covered, issued, outcomes, outcomeCount, signatures, edges)
    ensures SumOutcomes(issued) == |Shown(eval, preds, seen)|
    ensures SumSignatures(issued) == |Signatures(eval, digest, preds, seen)| && SumEdges(issued) == |covered|
  {
    TotalMeans(outcomes);
    forall i: nat, k: nat | i < |preds|
      ensures k < 8 && Bit(outcomes[i], k) <==> (exists j :: 0 <= j < |seen| && eval(preds[i], seen[j]) == k)
    {
      MaskMeans(eval, preds[i], seen, k);
    }
    assert PairsOf(outcomes) == Shown(eval, preds, seen);
  }

  class NoveltyScorer<P(==), S(==), D(==)> {
    const eval: (P, S) -> Branch
    const digest: seq<Byte> -> D
    const preds: seq<P>  // in ascending candidate order
    const groups: seq<Group<P>>
    var outcomes: seq<nat>
    var outcomeCount: nat
    var signatures: set<D>
    var edges: set<nat>
    var closed: bool
    var busy: bool
    ghost var seen: seq<S>          // every committed state
    ghost var covered: set<nat>     // every committed edge
    ghost var issued: seq<Score>

    ghost predicate Valid()
      reads this
    {
      GroupsFit(groups, preds) && Consistent()
    }

    ghost predicate Consistent()
      reads this
    {
      Scored(eval, digest, preds, seen, covered, issued, outcomes, outcomeCount, signatures, edges)
    }

    constructor (eval: (P, S) -> Branch, digest: seq<Byte> -> D, preds: seq<P>)
      ensures Valid() && !closed && !busy && this.preds == preds && issued == [] && seen == [] && covered == {}
    {
      var parts := BuildGroups(preds);
      this.eval, this.digest, this.preds, this.groups := eval, digest, preds, parts;
      outcomes, outcomeCount := seq(|preds|, _ => 0), 0;
      signatures, edges, closed, busy := {}, {}, false, false;
      seen, covered, issued := [], {}, [];
      new;
      NothingSeen(outcomes);
    }

    /** The arguments the scorer insists on. */
    predicate Acceptable(snapshots: Option<seq<S>>, coverage: Option<seq<Byte>>, patchComplete: bool,
                         coverageComplete: bool)
    {
      && (snapshots.Some? <==> patchComplete) && (coverage.Some? <==> coverageComplete)
      && (snapshots.Some? ==> preds != []) && (coverage.Some? ==> |coverage.value| == COVERAGE_SIZE)
    }

    /** Whether the trouble stops a call; without a capture nothing is reduced. */
    predicate Stops(trouble: Trouble, snapshots: Option<seq<S>>)
    {
      trouble == BeforeReduction || trouble == AfterReduction || (trouble == InReduction && snapshots.Some?)
    }

    twostate predicate SameHistory()
      reads this
    {
      && outcomes == old(outcomes) && outcomeCount == old(outcomeCount) && signatures == old(signatures)
      && edges == old(edges)
      && issued == old(issued) && seen == old(seen) && covered == old(covered)
    }

    twostate predicate Learned(states: seq<S>, found: set<nat>, score: Score)
      reads this
    {
      seen == old(seen) + states && covered == old(covered) + found && issued == old(issued) + [score]
    }

    method Close()
      modifies this`closed
      ensures closed
    {
      closed := true;
    }

    /** Score one input.  A refused or invalid call changes nothing, a cancelled
        one closes the scorer, and neither touches the histories. */
    method Score(seqno: nat, snapshots: Option<seq<S>>, coverage: Option<seq<Byte>>, patchComplete: bool,
                 coverageComplete: bool, trouble: Trouble) returns (r: Reply)
      requires Valid()
      modifies this
      ensures Valid()
      ensures r.Refused? <==> old(closed) || old(busy)
      ensures r.Invalid? <==>
              && !old(closed) && !old(busy)
              && (snapshots.Some? != patchComplete || coverage.Some? != coverageComplete
                  || (snapshots.Some? && preds == []) || (coverage.Some? && |coverage.value| != 65536))
      ensures r.Cancelled? <==>
              !old(closed) && !old(busy) && Acceptable(snapshots, coverage, patchComplete, coverageComplete)
                                && Stops(trouble, snapshots)
      ensures closed <==> old(closed) || r.Cancelled?
      ensures busy <==> old(busy) && r.Refused?
      ensures !r.Issued? ==> SameHistory()
      ensures r.Issued? ==> ScoresOnly(r.score, patchComplete, coverageComplete)
      ensures r.Issued? ==> r.score.seqno == seqno && Learned(StatesOf(snapshots), EdgesOf(coverage), r.score)
      ensures r.Issued? ==> seen == old(seen) + (if snapshots.Some? then snapshots.value else [])
      ensures r.Issued? ==> forall i: nat :: i in covered <==>
                i in old(covered) || (coverage.Some? && i < |coverage.value| && coverage.value[i] != 0)
    {
      if closed || busy { return Refused; }
      if !Acceptable(snapshots, coverage, patchComplete, coverageComplete) { return Invalid; }
      busy := true;
      var score := Attempt(seqno, snapshots, coverage, trouble);
      if score.None? { Close(); }
      busy := false;
      return if score.Some? then Issued(score.value) else Cancelled;
    }

    /** The guarded part of a call. */
    method Attempt(seqno: nat, snapshots: Option<seq<S>>, coverage: Option<seq<Byte>>, trouble: Trouble)
      returns (score: Option<Score>)
      requires Valid()
      modifies this`outcomes, this`outcomeCount, this`signatures, this`edges, this`seen, this`covered, this`issued
      ensures Valid() && (score.None? <==> Stops(trouble, snapshots))
      ensures score.None? ==> SameHistory()
      ensures score.Some? ==> ScoresOnly(score.value, snapshots.Some?, coverage.Some?)
      ensures score.Some? ==> score.value.seqno == seqno && Learned(StatesOf(snapshots), EdgesOf(coverage), score.value)
    {
      if trouble == BeforeReduction { return None; }
      var masks: seq<nat>, digests: set<D> := [], {};
      if snapshots.Some? {
        if trouble == InReduction { return None; }
        masks, digests := Features(snapshots.value);
      }
      if trouble == AfterReduction { return None; }
      var found := EdgesOf(coverage);
      var issuedNow := Learn(seqno, StatesOf(snapshots), masks, digests, found);
      return Some(issuedNow);
    }

    /** Issue the score and fold the features into the histories. */
    method Learn(seqno: nat, ghost states: seq<S>, masks: seq<nat>, digests: set<D>, found: set<nat>)
      returns (score: Score)
      requires Valid() && Gathered(eval, digest, preds, states, masks, digests)
      modifies this`outcomes, this`outcomeCount, this`signatures, this`edges, this`seen, this`covered, this`issued
      ensures ScoresOnly(score, masks != [] || digests != {}, found != {})
      ensures Valid() && score.seqno == seqno && Learned(states, found, score)
    {
      score := MakeScore(seqno, NewBits(masks, outcomes), |digests - signatures|, |found - edges|);
      Commit(masks, digests, found, states, score);
      ScoredNext(eval, digest, preds, old(seen), old(covered), old(issued), old(outcomes), old(outcomeCount),
                 old(signatures),
                 old(edges), states, masks, digests, found, outcomes, score);
    }

    method Features(states: seq<S>) returns (masks: seq<nat>, digests: set<D>)
      requires GroupsFit(groups, preds)
      ensures |masks| == |preds| && forall i :: 0 <= i < |preds| ==> masks[i] == Mask(eval, preds[i], states)
      ensures digests == Signatures(eval, digest, preds, states)
    {
      var found;
      found, digests := Reduce(eval, digest, groups, |preds|, states, preds);
      masks := found[..];
    }

    /** Fold the features of one input into the histories. */
    method Commit(masks: seq<nat>, digests: set<D>, found: set<nat>, ghost states: seq<S>, score: Score)
      requires |masks| <= |outcomes|
      modifies this`outcomes, this`outcomeCount, this`signatures, this`edges, this`seen, this`covered, this`issued
      ensures Folded(old(outcomes), masks, outcomes) && outcomeCount == old(outcomeCount) + score.outcomes
      ensures signatures == old(signatures) + digests && edges == old(edges) + found && Learned(states, found, score)
    {
      outcomes := Fold(outcomes, masks);
      outcomeCount := outcomeCount + score.outcomes;
      signatures, edges := signatures + digests, edges + found;
      seen, covered, issued := seen + states, covered + found, issued + [score];
    }
  }

  lemma {:induction false} NothingSeen(masks: seq<nat>)
    requires forall i :: 0 <= i < |masks| ==> masks[i] == 0
    ensures Total(masks) == 0
    decreases |masks|
  {
    if masks != [] { NothingSeen(masks[..|masks| - 1]); }
  }

  ghost predicate Folded(outcomes: seq<nat>, masks: seq<nat>, after: seq<nat>)
  {
    |after| == |outcomes|
    && forall i :: 0 <= i < |outcomes| ==> after[i] == if i < |masks| then Or(outcomes[i], masks[i]) else outcomes[i]
  }

  /** The history after or-ing in the masks, which may be none. */
  method Fold(outcomes: seq<nat>, masks: seq<nat>) returns (after: seq<nat>)
    requires |masks| <= |outcomes|
    ensures Folded(outcomes, masks, after)
  {
    after := outcomes;
    for i := 0 to |masks|
      invariant |after| == |outcomes|
      invariant forall k :: 0 <= k < |outcomes| ==> after[k] == if k < i then Or(outcomes[k], masks[k]) else outcomes[k]
    {
      OrNonneg(after[i], masks[i]);
      after := after[i := Or(after[i], masks[i])];
    }
  }

  lemma HistoriesNext<P, S, D>(eval: (P, S) -> Branch, digest: seq<Byte> -> D, preds: seq<P>, seen: seq<S>,
                               states: seq<S>, outcomes: seq<nat>, signatures: set<D>, masks: seq<nat>, digests: set<D>,
                               after: seq<nat>)
    requires Histories(eval, digest, preds, seen, outcomes, signatures) && Folded(outcomes, masks, after)
    requires Gathered(eval, digest, preds, states, masks, digests)
    ensures Histories(eval, digest, preds, seen + states, after, signatures + digests)
  {
    SignaturesAppend(eval, digest, preds, seen, states);
    if masks == [] && states == [] {
      assert seen + states == seen;
    } else {
      forall i | 0 <= i < |preds|
        ensures after[i] == Mask(eval, preds[i], seen + states)
      {
        MaskAppend(eval, preds[i], seen, states);
      }
    }
  }

  lemma ConservedNext<D>(issued: seq<Score>, outcomes: seq<nat>, outcomeCount: nat, signatures: set<D>, digests: set<D>,
                         edges: set<nat>, found: set<nat>, masks: seq<nat>, after: seq<nat>, score: Score)
    requires Conserved(issued, outcomes, outcomeCount, |signatures|, |edges|) && Folded(outcomes, masks, after)
    requires masks == [] || |masks| == |outcomes|
    requires score.outcomes == NewBits(masks, outcomes) && score.signatures == |digests - signatures|
             && score.edges == |found - edges|
    ensures Conserved(issued + [score], after, outcomeCount + score.outcomes, |signatures + digests|, |edges + found|)
  {
    if masks == [] {
      assert after == outcomes;
    } else {
      NewBitsAdd(masks, outcomes, after);
    }
    NewOnes(signatures, digests);
    NewOnes(edges, found);
    SumsSnoc(issued, score);
  }
}
