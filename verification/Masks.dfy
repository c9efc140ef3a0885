/** Integers as sets of bit positions. */
module Masks {
  import opened Bits

  ghost predicate IsMask(mask: nat, s: set<nat>) { forall i: nat :: Bit(mask, i) <==> i in s }

  lemma MaskEmpty(mask: nat, s: set<nat>)
    requires IsMask(mask, s)
    ensures mask == 0 <==> s == {}
  {
    if mask == 0 {
      forall i: nat ensures i !in s { BitOfZero(i); }
    } else if s == {} {
      forall i: nat ensures Bit(mask, i) == Bit(0, i) { BitOfZero(i); }
      BitsExtensional(mask, 0);
    }
  }

  lemma MaskAnd(a: nat, b: nat, s: set<nat>, t: set<nat>)
    requires IsMask(a, s) && IsMask(b, t)
    ensures And(a, b) >= 0 && IsMask(And(a, b), s * t)
  {
    AndNonneg(a, b);
    forall i: nat ensures Bit(And(a, b), i) <==> i in s * t { BitAnd(a, b, i); }
  }

  lemma MaskOr(a: nat, b: nat, s: set<nat>, t: set<nat>)
    requires IsMask(a, s) && IsMask(b, t)
    ensures Or(a, b) >= 0 && IsMask(Or(a, b), s + t)
  {
    OrNonneg(a, b);
    forall i: nat ensures Bit(Or(a, b), i) <==> i in s + t { BitOr(a, b, i); }
  }

  /** Overlap of the masks is overlap of the sets. */
  lemma MaskMeets(a: nat, b: nat, s: set<nat>, t: set<nat>)
    requires IsMask(a, s) && IsMask(b, t)
    ensures And(a, b) == 0 <==> s !! t
  {
    MaskAnd(a, b, s, t);
    MaskEmpty(And(a, b), s * t);
    forall i | i in s && i in t ensures i in s * t {}
  }

  lemma MaskEqual(a: nat, b: nat, s: set<nat>, t: set<nat>)
    requires IsMask(a, s) && IsMask(b, t)
    ensures a == b <==> s == t
  {
    if s == t { BitsExtensional(a, b); }
    if a == b {
      forall i: nat ensures i in s <==> i in t { assert Bit(a, i) <==> i in s; }
    }
  }

  /** A set of positions below `n` is a number below 2^n. */
  lemma MaskBound(mask: nat, s: set<nat>, n: nat)
    requires IsMask(mask, s) && forall i :: i in s ==> i < n
    ensures mask < Pow2(n)
  {
    BoundFromBits(mask, n);
  }
}
