/** Novelty features of a captured input: which outcome each candidate showed,
    and the digests of the outcome vectors.  `eval` is the deterministic guard
    evaluation and `digest` the prefixed hash of a packed vector. */
module Novelty {
  import opened Bits
  import opened Bitmaps
  import opened Predicates
  import opened BranchCodec

  // ----- the plain features: every predicate on every state -----

  /** Bit `k` is set iff some state made the predicate yield `k`. */
  function Mask<P, S>(eval: (P, S) -> Branch, p: P, states: seq<S>): (m: nat)
    ensures m < 8
  {
    if states == [] then 0
    else
      var n := |states| - 1;
      TokenBelow(Mask(eval, p, states[..n]), eval(p, states[n]));
      Or(Mask(eval, p, states[..n]), Shl(1, eval(p, states[n])))
  }

  lemma TokenBelow(m: nat, outcome: Branch)
    requires m < 8
    ensures 0 <= Or(m, Shl(1, outcome)) < 8
  {
    OrNonneg(m, Shl(1, outcome));
    forall i: nat | i >= 3
      ensures !Bit(Or(m, Shl(1, outcome)), i)
    {
      assert Pow2(3) == 8;
      BitAbove(m, 3, i);
      BitOr(m, Shl(1, outcome), i);
      BitAbove(Shl(1, outcome), 3, i);
    }
    assert Pow2(3) == 8;
    BoundFromBits(Or(m, Shl(1, outcome)), 3);
  }

  lemma TokenBit(outcome: nat, k: nat)
    ensures Bit(Shl(1, outcome), k) <==> k == outcome
  {
    BitShl(1, outcome, k);
    if k > outcome { BitOfZero(k - outcome - 1); }
  }

  lemma {:induction false} MaskMeans<P, S>(eval: (P, S) -> Branch, p: P, states: seq<S>, k: nat)
    ensures Bit(Mask(eval, p, states), k) <==> exists j :: 0 <= j < |states| && eval(p, states[j]) == k
    decreases |states|
  {
    if states == [] {
      BitOfZero(k);
    } else {
      var n := |states| - 1;
      MaskMeans(eval, p, states[..n], k);
      BitOr(Mask(eval, p, states[..n]), Shl(1, eval(p, states[n])), k);
      TokenBit(eval(p, states[n]), k);
      assert forall j :: 0 <= j < n ==> states[..n][j] == states[j];
    }
  }

  /** The outcome vector of one state, one slot per candidate. */
  function Vector<P, S>(eval: (P, S) -> Branch, preds: seq<P>, s: S): (v: seq<Branch>)
    ensures |v| == |preds|
  {
    seq(|preds|, i requires 0 <= i < |preds| => eval(preds[i], s))
  }

  function Signature<P, S, D>(eval: (P, S) -> Branch, digest: seq<Byte> -> D, preds: seq<P>, s: S): D
  {
    digest(PackBytes(Vector(eval, preds, s)))
  }

  function Signatures<P, S, D(==)>(eval: (P, S) -> Branch, digest: seq<Byte> -> D, preds: seq<P>,
                                   states: seq<S>): set<D>
  {
    if states == [] then {}
    else
      Signatures(eval, digest, preds, states[..|states| - 1])
      + {Signature(eval, digest, preds, states[|states| - 1])}
  }

  // ----- equal neighbours add nothing -----

  lemma OrAgain(a: nat, t: nat)
    ensures Or(Or(a, t), t) == Or(a, t)
  {
    forall i: nat
      ensures Bit(Or(Or(a, t), t), i) == Bit(Or(a, t), i)
    {
      BitOr(Or(a, t), t, i);
      BitOr(a, t, i);
    }
    BitsExtensional(Or(Or(a, t), t), Or(a, t));
  }

  lemma FeaturesNext<P, S, D>(eval: (P, S) -> Branch, digest: seq<Byte> -> D, preds: seq<P>, states: seq<S>, k: nat)
    requires k < |states|
    ensures Signatures(eval, digest, preds, states[..k + 1])
            == Signatures(eval, digest, preds, states[..k]) + {Signature(eval, digest, preds, states[k])}
    ensures forall p :: Mask(eval, p, states[..k + 1]) == Or(Mask(eval, p, states[..k]), Shl(1, eval(p, states[k])))
  {
    assert states[..k + 1][..k] == states[..k];
  }

  lemma RepeatAddsNothing<P, S, D>(eval: (P, S) -> Branch, digest: seq<Byte> -> D, preds: seq<P>, states: seq<S>,
                                   k: nat)
    requires 0 < k < |states| && states[k] == states[k - 1]
    ensures Signatures(eval, digest, preds, states[..k + 1]) == Signatures(eval, digest, preds, states[..k])
    ensures forall p :: Mask(eval, p, states[..k + 1]) == Mask(eval, p, states[..k])
  {
    FeaturesNext(eval, digest, preds, states, k);
    FeaturesNext(eval, digest, preds, states, k - 1);
    forall p
      ensures Mask(eval, p, states[..k + 1]) == Mask(eval, p, states[..k])
    {
      ShlNonneg(1, eval(p, states[k]));
      OrAgain(Mask(eval, p, states[..k - 1]), Shl(1, eval(p, states[k])));
    }
  }

  // ----- setting one two-bit slot -----

  lemma OrQuarters(a: nat, b: nat)
    requires a % 4 == 0 || b % 4 == 0
    ensures Or(a, b) == 4 * Or(a / 4, b / 4) + a % 4 + b % 4
  {
    OrOfHalves(a, b);
    OrOfHalves(a / 2, b / 2);
    assert a / 2 / 2 == a / 4 && b / 2 / 2 == b / 4;
  }

  lemma {:induction false} OrSlot(bs: seq<Branch>, j: nat, b: Branch)
    requires j < |bs| && bs[j] == 0
    ensures Or(PackByte(bs), Shl(b, 2 * j)) == PackByte(bs[j := b])
    decreases |bs|
  {
    var rest := PackByte(bs[1..]);
    if j == 0 {
      OrQuarters(4 * rest, b);
      OrZero(rest);
      assert bs[0 := b][1..] == bs[1..];
    } else {
      ShlNonneg(b, 2 * (j - 1));
      OrHigher(bs[0], rest, Shl(b, 2 * (j - 1)));
      OrSlot(bs[1..], j - 1, b);
      assert bs[j := b][1..] == bs[1..][j - 1 := b];
    }
  }

  lemma OrHigher(low: Branch, rest: nat, high: nat)
    ensures Or(low + 4 * rest, 4 * high) == low + 4 * Or(rest, high)
  {
    OrQuarters(low + 4 * rest, 4 * high);
    OrZero(low);
  }

  /** Or-ing an outcome into a clear slot of the packed vector fills the slot. */
  lemma SetSlot(slots: seq<Branch>, i: nat, b: Branch)
    requires i < |slots| && slots[i] == 0
    ensures var data := PackBytes(slots);
            0 <= Or(data[i / 4], Shl(b, 2 * (i % 4))) < 256
            && PackBytes(slots[i := b]) == data[i / 4 := Or(data[i / 4], Shl(b, 2 * (i % 4)))]
  {
    var data, after := PackBytes(slots), PackBytes(slots[i := b]);
    forall k | 0 <= k < |data|
      ensures after[k] == if k == i / 4 then Or(data[k], Shl(b, 2 * (i % 4))) else data[k]
    {
      SlotByte(slots, i, b, k);
    }
  }

  lemma SlotByte(slots: seq<Branch>, i: nat, b: Branch, k: nat)
    requires i < |slots| && slots[i] == 0 && k < |PackBytes(slots)|
    ensures PackBytes(slots[i := b])[k] == if k == i / 4 then Or(PackBytes(slots)[k], Shl(b, 2 * (i % 4)))
            else PackBytes(slots)[k]
  {
    var last := BranchCodec.Min(4 * k + 4, |slots|);
    PackedByteAt(slots, k);
    PackedByteAt(slots[i := b], k);
    var part := slots[4 * k..last];
    if k == i / 4 {
      assert i == 4 * k + i % 4;
      OrSlot(part, i % 4, b);
      assert slots[i := b][4 * k..last] == part[i % 4 := b];
    } else {
      assert slots[i := b][4 * k..last] == part;
    }
  }

  // ----- sharing equal predicates -----

  datatype Group<P> = MakeGroup(pred: P, positions: seq<nat>)

  /** Each predicate once, with exactly its positions, each listed once. */
  ghost predicate GroupsFit<P>(groups: seq<Group<P>>, preds: seq<P>)
  {
    && (forall g, i :: 0 <= g < |groups| && 0 <= i < |preds| ==>
        (i in groups[g].positions <==> preds[i] == groups[g].pred))
    && (forall g :: 0 <= g < |groups| ==> Ascending(groups[g].positions, |preds|))
    && (forall g, h :: 0 <= g < h < |groups| ==> groups[g].pred != groups[h].pred)
    && (forall i :: 0 <= i < |preds| ==> Owned(groups, preds[i]))
  }

  ghost predicate Owned<P>(groups: seq<Group<P>>, p: P) { exists g :: 0 <= g < |groups| && groups[g].pred == p }

  ghost predicate Ascending(s: seq<nat>, n: nat)
  {
    (forall k :: 0 <= k < |s| ==> s[k] < n) && forall j, k :: 0 <= j < k < |s| ==> s[j] < s[k]
  }

  lemma AppendToGroup<P>(groups: seq<Group<P>>, preds: seq<P>, p: P, g: nat)
    requires GroupsFit(groups, preds) && g < |groups| && groups[g].pred == p
    ensures GroupsFit(groups[g := MakeGroup(p, groups[g].positions + [|preds|])], preds + [p])
  {
    var n, all := |preds|, preds + [p];
    var after := groups[g := MakeGroup(p, groups[g].positions + [n])];
    forall h, i | 0 <= h < |after| && 0 <= i < |all|
      ensures i in after[h].positions <==> all[i] == after[h].pred
    {
      assert Ascending(groups[h].positions, n);
      if h == g { assert i in after[h].positions <==> i in groups[h].positions || i == n; }
    }
    forall i | 0 <= i < |all|
      ensures Owned(after, all[i])
    {
      if i < n {
        assert Owned(groups, preds[i]);
        var h :| 0 <= h < |groups| && groups[h].pred == preds[i];
        assert after[h].pred == all[i];
      } else {
        assert after[g].pred == all[i];
      }
    }
  }

  lemma AddGroup<P>(groups: seq<Group<P>>, preds: seq<P>, p: P)
    requires GroupsFit(groups, preds) && !Owned(groups, p)
    ensures GroupsFit(groups + [MakeGroup(p, [|preds|])], preds + [p])
  {
    var n, all := |preds|, preds + [p];
    var after := groups + [MakeGroup(p, [n])];
    forall h, i | 0 <= h < |after| && 0 <= i < |all|
      ensures i in after[h].positions <==> all[i] == after[h].pred
    {
      if h < |groups| {
        assert Ascending(groups[h].positions, n);
      } else if i < n {
        assert Owned(groups, preds[i]);
      }
    }
    forall i | 0 <= i < |all|
      ensures Owned(after, all[i])
    {
      if i < n {
        assert Owned(groups, preds[i]);
        var h :| 0 <= h < |groups| && groups[h].pred == preds[i];
        assert after[h].pred == all[i];
      } else {
        assert after[|groups|].pred == all[i];
      }
    }
  }

  /** Group the candidates by predicate, in order of first appearance. */
  method BuildGroups<P(==)>(preds: seq<P>) returns (groups: seq<Group<P>>)
    ensures GroupsFit(groups, preds)
  {
    groups := [];
    for i := 0 to |preds|
      invariant GroupsFit(groups, preds[..i])
    {
      var p := preds[i];
      assert preds[..i + 1] == preds[..i] + [p];
      var g := 0;
      while g < |groups| && groups[g].pred != p
        invariant 0 <= g <= |groups| && forall h :: 0 <= h < g ==> groups[h].pred != p
      {
        g := g + 1;
      }
      if g < |groups| {
        AppendToGroup(groups, preds[..i], p, g);
        groups := groups[g := MakeGroup(p, groups[g].positions + [i])];
      } else {
        AddGroup(groups, preds[..i], p);
        groups := groups + [MakeGroup(p, [i])];
      }
    }
    assert preds[..|preds|] == preds;
  }

  // ----- one state -----

  function Filled(slots: seq<Branch>, positions: seq<nat>, b: Branch): (r: seq<Branch>)
    ensures |r| == |slots|
  {
    seq(|slots|, i requires 0 <= i < |slots| => if i in positions then b else slots[i])
  }

  /** Record one outcome at every position that shares the predicate. */
  method Apply(outcomes: array<Byte>, packed: array<Byte>, positions: seq<nat>, outcome: Branch,
               ghost slots: seq<Branch>)
    requires outcomes != packed && outcomes.Length == |slots| && packed[..] == PackBytes(slots)
    requires Ascending(positions, |slots|) && forall k :: 0 <= k < |positions| ==> slots[positions[k]] == 0
    requires forall i :: 0 <= i < outcomes.Length ==> outcomes[i] < 8
    modifies outcomes, packed
    ensures packed[..] == PackBytes(Filled(slots, positions, outcome))
    ensures forall i :: 0 <= i < outcomes.Length ==>
              outcomes[i] == (if i in positions then Or(old(outcomes[i]), Shl(1, outcome)) else old(outcomes[i])) < 8
  {
    assert Filled(slots, positions[..0], outcome) == slots;
    for k := 0 to |positions|
      invariant packed.Length == |PackBytes(slots)| && packed[..] == PackBytes(Filled(slots, positions[..k], outcome))
      invariant forall i :: 0 <= i < outcomes.Length ==>
                  outcomes[i] == (if i in positions[..k] then Or(old(outcomes[i]), Shl(1, outcome))
                                  else old(outcomes[i])) < 8
    {
      var index := positions[k];
      ghost var before := Filled(slots, positions[..k], outcome);
      FilledNext(slots, positions, k, outcome);
      TokenBelow(outcomes[index], outcome);
      SetSlot(before, index, outcome);
      outcomes[index] := Or(outcomes[index], Shl(1, outcome));
      packed[index / 4] := Or(packed[index / 4], Shl(outcome, 2 * (index % 4)));
    }
    assert positions[..|positions|] == positions;
  }

  lemma FilledNext(slots: seq<Branch>, positions: seq<nat>, k: nat, b: Branch)
    requires Ascending(positions, |slots|) && k < |positions| && forall j :: 0 <= j < |positions| ==>
             slots[positions[j]] == 0
    ensures positions[k] !in positions[..k] && Filled(slots, positions[..k], b)[positions[k]] == 0
    ensures Filled(slots, positions[..k + 1], b) == Filled(slots, positions[..k], b)[positions[k] := b]
    ensures forall i: nat :: i in positions[..k + 1] <==> i in positions[..k] || i == positions[k]
  {
    assert positions[..k + 1] == positions[..k] + [positions[k]];
  }

  /** The vector with only the candidates of the given groups filled in. */
  ghost function Partial<P, S>(eval: (P, S) -> Branch, preds: seq<P>, s: S, groups: seq<Group<P>>): (v: seq<Branch>)
    ensures |v| == |preds|
  {
    seq(|preds|, i requires 0 <= i < |preds| => if Owned(groups, preds[i]) then eval(preds[i], s) else 0)
  }

  lemma OwnedNext<P>(groups: seq<Group<P>>, g: nat, p: P)
    requires g < |groups|
    ensures Owned(groups[..g + 1], p) <==> Owned(groups[..g], p) || p == groups[g].pred
  {
    assert groups[..g + 1] == groups[..g] + [groups[g]];
    if Owned(groups[..g], p) {
      var h :| 0 <= h < g && groups[..g][h].pred == p;
      assert groups[..g + 1][h].pred == p;
    }
    if p == groups[g].pred { assert groups[..g + 1][g].pred == p; }
  }

  lemma PartialNext<P, S>(eval: (P, S) -> Branch, preds: seq<P>, s: S, groups: seq<Group<P>>, g: nat)
    requires GroupsFit(groups, preds) && g < |groups|
    ensures var slots := Partial(eval, preds, s, groups[..g]); var positions := groups[g].positions;
            && Ascending(positions, |preds|) && (forall k :: 0 <= k < |positions| ==> slots[positions[k]] == 0)
            && Filled(slots, positions, eval(groups[g].pred, s)) == Partial(eval, preds, s, groups[..g + 1])
            && (forall i :: 0 <= i < |preds| ==>
                (Owned(groups[..g + 1], preds[i]) <==> Owned(groups[..g], preds[i]) || i in positions))
            && (forall i :: 0 <= i < |preds| && i in positions ==> preds[i] == groups[g].pred)
  {
    var slots, positions := Partial(eval, preds, s, groups[..g]), groups[g].positions;
    assert Ascending(positions, |preds|);
    forall i | 0 <= i < |preds|
      ensures Owned(groups[..g + 1], preds[i]) <==> Owned(groups[..g], preds[i]) || i in positions
    {
      OwnedNext(groups, g, preds[i]);
    }
    forall k | 0 <= k < |positions|
      ensures slots[positions[k]] == 0
    {
      assert preds[positions[k]] == groups[g].pred;
    }
  }

  /** One state: evaluate each distinct predicate once. */
  method ReduceState<P, S>(eval: (P, S) -> Branch, groups: seq<Group<P>>, s: S, outcomes: array<Byte>,
                           ghost preds: seq<P>)
    returns (packed: array<Byte>)
    requires GroupsFit(groups, preds) && outcomes.Length == |preds|
    requires forall i :: 0 <= i < outcomes.Length ==> outcomes[i] < 8
    modifies outcomes
    ensures fresh(packed) && packed[..] == PackBytes(Vector(eval, preds, s))
    ensures forall i :: 0 <= i < outcomes.Length ==> outcomes[i] == Or(old(outcomes[i]), Shl(1, eval(preds[i], s))) < 8
  {
    packed := new Byte[(outcomes.Length + 3) / 4](_ => 0);
    assert forall p :: !Owned(groups[..0], p);
    NothingPacked(Partial(eval, preds, s, groups[..0]), packed[..]);
    for g := 0 to |groups|
      invariant packed[..] == PackBytes(Partial(eval, preds, s, groups[..g]))
      invariant forall i :: 0 <= i < outcomes.Length ==>
                  outcomes[i] == (if Owned(groups[..g], preds[i]) then Or(old(outcomes[i]), Shl(1, eval(preds[i], s)))
                                  else old(outcomes[i])) < 8
    {
      PartialNext(eval, preds, s, groups, g);
      Apply(outcomes, packed, groups[g].positions, eval(groups[g].pred, s), Partial(eval, preds, s, groups[..g]));
    }
    assert groups[..|groups|] == groups;
    assert Partial(eval, preds, s, groups) == Vector(eval, preds, s);
  }

  lemma {:induction false} ZeroByte(bs: seq<Branch>)
    requires forall i :: 0 <= i < |bs| ==> bs[i] == 0
    ensures PackByte(bs) == 0
    decreases |bs|
  {
    if bs != [] { ZeroByte(bs[1..]); }
  }

  lemma NothingPacked(slots: seq<Branch>, data: seq<Byte>)
    requires |data| == (|slots| + 3) / 4 && forall i :: 0 <= i < |slots| ==> slots[i] == 0
    requires forall k :: 0 <= k < |data| ==> data[k] == 0
    ensures data == PackBytes(slots)
  {
    forall k | 0 <= k < |data|
      ensures data[k] == PackBytes(slots)[k]
    {
      PackedByteAt(slots, k);
      ZeroByte(slots[4 * k..BranchCodec.Min(4 * k + 4, |slots|)]);
    }
  }

  /** The whole reduction: repeated neighbours are skipped and equal predicates
      shared, and the features are those of every predicate on every state. */
  method Reduce<P, S(==), D(==)>(eval: (P, S) -> Branch, digest: seq<Byte> -> D, groups: seq<Group<P>>, count: nat,
                                 states: seq<S>, ghost preds: seq<P>)
    returns (outcomes: array<Byte>, signatures: set<D>)
    requires GroupsFit(groups, preds) && count == |preds|
    ensures fresh(outcomes) && outcomes.Length == |preds|
    ensures forall i :: 0 <= i < |preds| ==> outcomes[i] == Mask(eval, preds[i], states)
    ensures signatures == Signatures(eval, digest, preds, states)
  {
    outcomes := new Byte[count](_ => 0);
    signatures := {};
    for k := 0 to |states|
      invariant forall i :: 0 <= i < |preds| ==> outcomes[i] == Mask(eval, preds[i], states[..k])
      invariant signatures == Signatures(eval, digest, preds, states[..k])
    {
      FeaturesNext(eval, digest, preds, states, k);
      if k > 0 && states[k] == states[k - 1] {
        RepeatAddsNothing(eval, digest, preds, states, k);
      } else {
        var packed := ReduceState(eval, groups, states[k], outcomes, preds);
        signatures := signatures + {digest(packed[..])};
      }
    }
    assert states[..|states|] == states;
  }
}
