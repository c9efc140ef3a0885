/** Branch-equivalence caching: when one execution may stand for another. */
module Equivalence {
  import opened Options
  import opened Predicates

  /** A deterministic target on one fixed input: after the branch decisions
      taken so far it reaches the patch site in some state, or ends. */
  datatype Step<S, O> = Hit(state: S) | Stop(outcome: O)

  datatype Trace<S, O> = MakeTrace(states: seq<S>, branches: seq<Branch>, outcome: O)

  /** `t` is the complete execution of the target under the candidate `choose`. */
  ghost predicate Executes<S, O>(target: seq<Branch> -> Step<S, O>, choose: S -> Branch, t: Trace<S, O>)
  {
    && |t.states| == |t.branches|
    && (forall i :: 0 <= i < |t.states| ==> target(t.branches[..i]) == Hit(t.states[i]))
    && (forall i :: 0 <= i < |t.states| ==> t.branches[i] == choose(t.states[i]))
    && target(t.branches) == Stop(t.outcome)
  }

  lemma {:induction false} SamePrefix<S, O>(target: seq<Branch> -> Step<S, O>, choose: S -> Branch,
                                            a: Trace<S, O>, b: Trace<S, O>, n: nat)
    requires Executes(target, choose, a) && Executes(target, choose, b)
    requires n <= |a.states| && n <= |b.states|
    ensures a.branches[..n] == b.branches[..n] && a.states[..n] == b.states[..n]
    decreases n
  {
    if n > 0 {
      SamePrefix(target, choose, a, b, n - 1);
      assert a.states[n - 1] == b.states[n - 1];
      assert a.branches[..n] == a.branches[..n - 1] + [a.branches[n - 1]];
      assert b.branches[..n] == b.branches[..n - 1] + [b.branches[n - 1]];
      assert a.states[..n] == a.states[..n - 1] + [a.states[n - 1]];
      assert b.states[..n] == b.states[..n - 1] + [b.states[n - 1]];
    }
  }

  lemma NotLonger<S, O>(target: seq<Branch> -> Step<S, O>, choose: S -> Branch, a: Trace<S, O>, b: Trace<S, O>)
    requires Executes(target, choose, a) && Executes(target, choose, b)
    ensures |a.states| <= |b.states|
  {
    assert b.branches[..|b.states|] == b.branches;
    if |b.states| < |a.states| { SamePrefix(target, choose, a, b, |b.states|); }
  }

  /** A candidate has at most one execution. */
  lemma ExecutionUnique<S, O>(target: seq<Branch> -> Step<S, O>, choose: S -> Branch, a: Trace<S, O>, b: Trace<S, O>)
    requires Executes(target, choose, a) && Executes(target, choose, b)
    ensures a == b
  {
    NotLonger(target, choose, a, b);
    NotLonger(target, choose, b, a);
    SamePrefix(target, choose, a, b, |a.states|);
    assert a.branches[..|a.states|] == a.branches && b.branches[..|a.states|] == b.branches;
    assert a.states[..|a.states|] == a.states && b.states[..|a.states|] == b.states;
  }

  /** The candidate would have decided as recorded at every captured state. */
  predicate AgreesOn<S>(choose: S -> Branch, states: seq<S>, branches: seq<Branch>)
    requires |states| == |branches|
  {
    forall i :: 0 <= i < |states| ==> choose(states[i]) == branches[i]
  }

  /** Agreeing on a representative's captured states is the same as having its
      branch vector, and then the whole execution is the representative's. */
  lemma GroupingSound<S, O>(target: seq<Branch> -> Step<S, O>, p: S -> Branch, q: S -> Branch,
                            tp: Trace<S, O>, tq: Trace<S, O>)
    requires Executes(target, p, tp) && Executes(target, q, tq)
    ensures AgreesOn(q, tp.states, tp.branches) <==> tq.branches == tp.branches
    ensures AgreesOn(q, tp.states, tp.branches) ==> tq == tp
  {
    if AgreesOn(q, tp.states, tp.branches) {
      assert Executes(target, q, tp);
      ExecutionUnique(target, q, tp, tq);
    } else if tq.branches == tp.branches {
      forall i | 0 <= i < |tp.states|
        ensures q(tp.states[i]) == tp.branches[i]
      {
        assert target(tp.branches[..i]) == Hit(tp.states[i]);
        assert target(tq.branches[..i]) == Hit(tq.states[i]);
      }
    }
  }

  // ----- the offline evaluator and the first-hit shortcut -----

  /** Offline evaluation is faithful where it does not raise. */
  ghost predicate Faithful<S(!new)>(guess: S -> Option<Branch>, choose: S -> Branch)
  {
    forall s :: guess(s).Some? ==> guess(s).value == choose(s)
  }

  /** Compare a vector suffix, stopping at the first difference; a raised
      evaluation gives no answer. */
  function MatchesFrom<S>(guess: S -> Option<Branch>, states: seq<S>, expected: seq<Branch>, start: nat): Option<bool>
    decreases |states| - start
  {
    if |states| != |expected| then Some(false)
    else if start > |states| then None
    else if start == |states| then Some(true)
    else
      var b := guess(states[start]);
      if b.None? then None
      else if b.value != expected[start] then Some(false)
      else MatchesFrom(guess, states, expected, start + 1)
  }

  method CachedMatches<S>(guess: S -> Option<Branch>, states: seq<S>, expected: seq<Branch>, start: nat)
    returns (r: Option<bool>)
    ensures r == MatchesFrom(guess, states, expected, start)
  {
    if |states| != |expected| { return Some(false); }
    if start > |states| { return None; }
    var i := start;
    while i < |states|
      invariant start <= i <= |states|
      invariant MatchesFrom(guess, states, expected, start) == MatchesFrom(guess, states, expected, i)
    {
      var b := guess(states[i]);
      if b.None? { return None; }
      if b.value != expected[i] { return Some(false); }
      i := i + 1;
    }
    return Some(true);
  }

  lemma {:induction false} MatchMeansAgreement<S>(guess: S -> Option<Branch>, states: seq<S>, expected: seq<Branch>,
                                                  start: nat)
    requires |states| == |expected| && start <= |states|
    ensures MatchesFrom(guess, states, expected, start) == Some(true)
            <==> forall i :: start <= i < |states| ==> guess(states[i]) == Some(expected[i])
    decreases |states| - start
  {
    if start < |states| { MatchMeansAgreement(guess, states, expected, start + 1); }
  }

  /** Whether a pending candidate joins the representative's group.  `known` is
      its entry in the first-hit table, if any. */
  function Joins<S>(known: Option<Branch>, guess: S -> Option<Branch>, states: seq<S>, observed: seq<Branch>): bool
    requires |states| == |observed|
  {
    if observed == [] then MatchesFrom(guess, states, observed, 0) == Some(true)
    else
      var first := if known.Some? then known else guess(states[0]);
      if first.None? then MatchesFrom(guess, states, observed, 0) == Some(true)
      else first.value == observed[0] && MatchesFrom(guess, states, observed, 1) == Some(true)
  }

  /** The state of the first hit, the same for every candidate. */
  predicate FirstHit<S, O(==)>(target: seq<Branch> -> Step<S, O>, known: Option<Branch>, choose: S -> Branch)
  {
    known.Some? ==> target([]).Hit? && known.value == choose(target([]).state)
  }

  /** The table and the one-step-in comparison select only candidates whose own
      execution is the representative's, and all of them whose predicate can be
      evaluated on the captured states. */
  lemma JoinsExactly<S(!new), O>(target: seq<Branch> -> Step<S, O>, p: S -> Branch, q: S -> Branch,
                                 tp: Trace<S, O>, tq: Trace<S, O>, guess: S -> Option<Branch>, known: Option<Branch>)
    requires Executes(target, p, tp) && Executes(target, q, tq) && Faithful(guess, q) && FirstHit(target, known, q)
    ensures Joins(known, guess, tp.states, tp.branches) ==> tq == tp
    ensures (forall i :: 0 <= i < |tp.states| ==> guess(tp.states[i]).Some?) && tq.branches == tp.branches
            ==> Joins(known, guess, tp.states, tp.branches)
  {
    GroupingSound(target, p, q, tp, tq);
    MatchMeansAgreement(guess, tp.states, tp.branches, 0);
    if tp.branches != [] {
      MatchMeansAgreement(guess, tp.states, tp.branches, 1);
      assert tp.branches[..0] == [];
      assert target([]) == Hit(tp.states[0]);
    }
  }

  // ----- the table of first branches -----

  type Table = map<nat, Branch>

  /** Every entry of the table, which may be disabled, is the candidate's own
      branch at the first hit. */
  ghost predicate TableOk<S, O>(target: seq<Branch> -> Step<S, O>, choose: nat -> (S -> Branch), table: Option<Table>)
  {
    table.Some? ==> forall q :: q in table.value ==> FirstHit(target, Some(table.value[q]), choose(q))
  }

  /** Record a representative's first branch, if it has one; a changed one
      disables the table. */
  function Remember(table: Option<Table>, p: nat, observed: seq<Branch>): Option<Table>
  {
    if table.None? || observed == [] then table
    else if p in table.value && table.value[p] != observed[0] then None
    else Some(table.value[p := observed[0]])
  }

  lemma FirstOfTrace<S, O>(target: seq<Branch> -> Step<S, O>, choose: S -> Branch, t: Trace<S, O>)
    requires Executes(target, choose, t) && t.branches != []
    ensures target([]) == Hit(t.states[0]) && FirstHit(target, Some(t.branches[0]), choose)
  {
    assert t.branches[..0] == [];
  }

  lemma RememberOk<S, O>(target: seq<Branch> -> Step<S, O>, choose: nat -> (S -> Branch), table: Option<Table>, p: nat,
                         t: Trace<S, O>)
    requires TableOk(target, choose, table) && Executes(target, choose(p), t)
    ensures TableOk(target, choose, Remember(table, p, t.branches))
  {
    if t.branches != [] { FirstOfTrace(target, choose(p), t); }
  }

  /** Offline evaluation reproduces the whole vector. */
  ghost predicate Reproduces<S, O>(guess: S -> Option<Branch>, t: Trace<S, O>)
  {
    |t.states| == |t.branches| && forall i :: 0 <= i < |t.states| ==> guess(t.states[i]) == Some(t.branches[i])
  }

  /** A match from index one after a matching first branch, or from the start, is
      the representative's execution over again. */
  lemma MatchedIsSame<S(!new), O>(target: seq<Branch> -> Step<S, O>, p: S -> Branch, q: S -> Branch,
                                  tp: Trace<S, O>, tq: Trace<S, O>, guess: S -> Option<Branch>, first: Option<Branch>)
    requires Executes(target, p, tp) && Executes(target, q, tq) && Faithful(guess, q) && FirstHit(target, first, q)
    requires first.Some? ==> tp.branches != [] && first.value == tp.branches[0]
    requires MatchesFrom(guess, tp.states, tp.branches, if first.Some? then 1 else 0) == Some(true)
    ensures tq == tp
  {
    if first.None? {
      MatchMeansAgreement(guess, tp.states, tp.branches, 0);
      GroupingSound(target, p, q, tp, tq);
    } else {
      JoinsExactly(target, p, q, tp, tq, guess, first);
    }
  }

  /** A candidate that reproduces the vector matches from every index. */
  lemma ReproducingMatches<S, O>(guess: S -> Option<Branch>, t: Trace<S, O>, start: nat)
    requires Reproduces(guess, t) && start <= |t.states|
    ensures MatchesFrom(guess, t.states, t.branches, start) == Some(true)
  {
    MatchMeansAgreement(guess, t.states, t.branches, start);
  }
}
