/** Shared vocabulary on sequences. */
module Sequences {

  ghost predicate Increasing(s: seq<nat>) { forall i, j :: 0 <= i < j < |s| ==> s[i] < s[j] }

  ghost predicate Distinct(s: seq<nat>) { forall i, j :: 0 <= i < j < |s| ==> s[i] != s[j] }

  function Elements(s: seq<nat>): set<nat> { set x | x in s }

  /** Dropping twice is dropping once. */
  lemma Advance<T>(s: seq<T>, a: nat, b: nat)
    requires a + b <= |s|
    ensures s[a..][b..] == s[a + b..]
  {
  }

  /** Dropping what was put in front. */
  lemma DropFront<T>(head: seq<T>, s: seq<T>, n: nat)
    requires n <= |s|
    ensures (head + s)[|head| + n..] == s[n..]
  {
  }

  /** The first `a + b` elements are the first `a` and the `b` after them. */
  lemma CutFront<T>(s: seq<T>, a: nat, b: nat)
    requires a + b <= |s|
    ensures s[..a + b][..a] == s[..a] && s[..a + b][a..] == s[a..][..b] && s[..a] + s[a..][..b] == s[..a + b]
  {
  }

  lemma PrefixSnoc<T>(s: seq<T>, k: nat)
    requires k < |s|
    ensures s[..k + 1] == s[..k] + [s[k]]
  {
  }
}
