/** The setup filter: candidates run on the reference input, one cached run per
    group of equal branch vectors. */
module SetupFilter {
  import opened Options
  import opened Predicates
  import opened Equivalence

  /** One setup: the deterministic target on the reference input, each
      candidate's guard and its offline evaluation, the cached run (if usable),
      the policy on an execution, and the decision of an individual run. */
  datatype Setup<!S, !O, !D> = MakeSetup(
    target: seq<Branch> -> Step<S, O>,
    choose: nat -> (S -> Branch),
    guess: nat -> (S -> Option<Branch>),
    trace: nat -> Trace<S, O>,
    run: nat -> Option<Trace<S, O>>,
    decide: Trace<S, O> -> D,
    individual: nat -> D)

  /** Usable runs are the candidates' executions and evaluation is faithful. */
  ghost predicate Deterministic<S(!new), O, D>(setup: Setup<S, O, D>, ids: seq<nat>)
  {
    forall k :: 0 <= k < |ids| ==>
      var q := ids[k];
      && Executes(setup.target, setup.choose(q), setup.trace(q)) && Faithful(setup.guess(q), setup.choose(q))
      && (setup.run(q).Some? ==> setup.run(q).value == setup.trace(q))
  }

  /** The whole vector, unless some evaluation raises. */
  function Evaluated<S>(guess: S -> Option<Branch>, states: seq<S>): Option<seq<Branch>>
  {
    if states == [] then Some([])
    else
      var n := |states| - 1;
      var before, last := Evaluated(guess, states[..n]), guess(states[n]);
      if before.None? || last.None? then None else Some(before.value + [last.value])
  }

  /** No cached run vouches for this candidate. */
  predicate Unusable<S, O, D>(setup: Setup<S, O, D>, q: nat)
  {
    setup.run(q).None? || Evaluated(setup.guess(q), setup.run(q).value.states) != Some(setup.run(q).value.branches)
  }

  /** There is a cached run, and offline evaluation gives its branch everywhere. */
  ghost predicate Vouched<S, O, D>(setup: Setup<S, O, D>, q: nat)
  {
    setup.run(q).Some? && Reproduces(setup.guess(q), setup.run(q).value)
  }

  ghost predicate Right<S, O, D>(setup: Setup<S, O, D>, q: nat, d: D)
  {
    d == setup.decide(setup.trace(q)) || (!Vouched(setup, q) && d == setup.individual(q))
  }

  lemma {:induction false} EvaluatedMeans<S>(guess: S -> Option<Branch>, states: seq<S>, branches: seq<Branch>)
    ensures Evaluated(guess, states) == Some(branches) <==>
            |states| == |branches| && forall i :: 0 <= i < |states| ==> guess(states[i]) == Some(branches[i])
    decreases |states|
  {
    if states != [] && branches != [] {
      var n, m := |states| - 1, |branches| - 1;
      EvaluatedMeans(guess, states[..n], branches[..m]);
      assert branches == branches[..m] + [branches[m]];
      if n == m { assert forall i :: 0 <= i < n ==> states[..n][i] == states[i] && branches[..n][i] == branches[i]; }
    }
  }

  lemma UnusableMeans<S, O, D>(setup: Setup<S, O, D>, q: nat)
    ensures Unusable(setup, q) <==> !Vouched(setup, q)
  {
    if setup.run(q).Some? {
      EvaluatedMeans(setup.guess(q), setup.run(q).value.states, setup.run(q).value.branches);
    }
  }

  // ----- one group -----

  /** Candidates whose first branch is the representative's; unknown ones are
      evaluated at the first captured state and remembered. */
  method Eligible<S(!new), O, D>(setup: Setup<S, O, D>, remaining: seq<nat>, t: Trace<S, O>, table: Table, ghost p: nat)
    returns (eligible: seq<nat>, first: Table)
    requires Deterministic(setup, remaining) && Executes(setup.target, setup.choose(p), t)
    requires t.branches != [] && |t.states| == |t.branches| && TableOk(setup.target, setup.choose, Some(table))
    ensures TableOk(setup.target, setup.choose, Some(first))
    ensures forall k :: 0 <= k < |eligible| ==>
            eligible[k] in remaining && eligible[k] in first && first[eligible[k]] == t.branches[0]
    ensures forall k :: 0 <= k < |remaining| && setup.guess(remaining[k])(t.states[0]) == Some(t.branches[0]) ==>
            remaining[k] in eligible
  {
    eligible, first := [], table;
    FirstOfTrace(setup.target, setup.choose(p), t);
    for i := 0 to |remaining|
      invariant TableOk(setup.target, setup.choose, Some(first))
      invariant forall k :: 0 <= k < |eligible| ==>
                eligible[k] in remaining && eligible[k] in first && first[eligible[k]] == t.branches[0]
      invariant forall k :: 0 <= k < i && setup.guess(remaining[k])(t.states[0]) == Some(t.branches[0]) ==>
                remaining[k] in eligible
    {
      var q := remaining[i];
      if q !in first {
        var b := setup.guess(q)(t.states[0]);
        if b.None? { continue; }
        first := first[q := b.value];
      }
      if first[q] == t.branches[0] { eligible := eligible + [q]; }
    }
  }

  /** Candidates that match the rest of the vector. */
  method Matching<S(!new), O, D>(setup: Setup<S, O, D>, eligible: seq<nat>, t: Trace<S, O>, start: nat)
    returns (matched: set<nat>)
    requires |t.states| == |t.branches|
    ensures forall q :: q in matched ==>
            q in eligible && MatchesFrom(setup.guess(q), t.states, t.branches, start) == Some(true)
    ensures forall k :: 0 <= k < |eligible| ==>
              (eligible[k] in matched <==>
               MatchesFrom(setup.guess(eligible[k]), t.states, t.branches, start) == Some(true))
  {
    matched := {};
    for i := 0 to |eligible|
      invariant forall q :: q in matched ==>
                q in eligible && MatchesFrom(setup.guess(q), t.states, t.branches, start) == Some(true)
      invariant forall k :: 0 <= k < i ==>
                  (eligible[k] in matched <==>
                   MatchesFrom(setup.guess(eligible[k]), t.states, t.branches, start) == Some(true))
    {
      var m := CachedMatches(setup.guess(eligible[i]), t.states, t.branches, start);
      if m == Some(true) { matched := matched + {eligible[i]}; }
    }
  }

  // ----- one representative -----

  ghost predicate AllKnown<S(!new), O, D>(setup: Setup<S, O, D>, ids: seq<nat>, p: nat)
  {
    Deterministic(setup, ids) && Deterministic(setup, [p])
  }

  lemma Pair<S(!new), O, D>(setup: Setup<S, O, D>, ids: seq<nat>, p: nat, q: nat)
    requires AllKnown(setup, ids, p) && q in ids
    ensures Deterministic(setup, [p, q]) && Executes(setup.target, setup.choose(p), setup.trace(p))
  {
    var k :| 0 <= k < |ids| && ids[k] == q;
    assert [p][0] == p;
  }

  /** The remaining candidates that share the representative's execution. */
  method FindGroup<S(!new), O, D>(setup: Setup<S, O, D>, remaining: seq<nat>, p: nat, t: Trace<S, O>,
                                  table: Option<Table>)
    returns (matched: set<nat>, after: Option<Table>)
    requires AllKnown(setup, remaining, p) && t == setup.trace(p) && TableOk(setup.target, setup.choose, table)
    ensures TableOk(setup.target, setup.choose, after)
    ensures forall q :: q in matched ==> q in remaining && setup.trace(q) == t
    ensures forall k :: 0 <= k < |remaining| && Reproduces(setup.guess(remaining[k]), t) ==> remaining[k] in matched
  {
    assert [p][0] == p;
    RememberOk(setup.target, setup.choose, table, p, t);
    after := Remember(table, p, t.branches);
    var start, first := 0, map[];
    var eligible := remaining;
    if t.branches != [] && after.Some? {
      start := 1;
      eligible, first := Eligible(setup, remaining, t, after.value, p);
      after := Some(first);
    }
    matched := Matching(setup, eligible, t, start);
    forall q | q in matched
      ensures q in remaining && setup.trace(q) == t
    {
      Pair(setup, remaining, p, q);
      MatchedIsSame(setup.target, setup.choose(p), setup.choose(q), t, setup.trace(q), setup.guess(q),
                    if start == 1 then Some(first[q]) else None);
    }
    forall k | 0 <= k < |remaining| && Reproduces(setup.guess(remaining[k]), t)
      ensures remaining[k] in matched
    {
      ReproducingMatches(setup.guess(remaining[k]), t, start);
    }
  }

  // ----- all candidates -----

  function Without(ids: seq<nat>, gone: set<nat>): (r: seq<nat>)
    ensures |r| <= |ids| && forall q :: q in r <==> q in ids && q !in gone
  {
    if ids == [] then []
    else if ids[0] in gone then Without(ids[1..], gone) else [ids[0]] + Without(ids[1..], gone)
  }

  lemma StillDeterministic<S(!new), O, D>(setup: Setup<S, O, D>, ids: seq<nat>, part: seq<nat>)
    requires Deterministic(setup, ids) && forall q :: q in part ==> q in ids
    ensures Deterministic(setup, part)
  {
    forall k | 0 <= k < |part|
      ensures exists j :: 0 <= j < |ids| && ids[j] == part[k]
    {
      assert part[k] in ids;
    }
  }

  /** Everybody whose offline evaluation reproduces the execution was taken. */
  ghost predicate TakesAll<S, O, D>(setup: Setup<S, O, D>, remaining: seq<nat>, t: Trace<S, O>, taken: set<nat>)
  {
    forall k :: 0 <= k < |remaining| && Reproduces(setup.guess(remaining[k]), t) ==> remaining[k] in taken
  }

  /** The decision of one representative, and who shares it: by the policy on its
      execution if its cached run is vouched for, and by itself otherwise. */
  method Decide<S(!new), O, D>(setup: Setup<S, O, D>, remaining: seq<nat>, p: nat, table: Option<Table>)
    returns (decision: D, matched: set<nat>, after: Option<Table>)
    requires AllKnown(setup, remaining, p) && TableOk(setup.target, setup.choose, table)
    ensures TableOk(setup.target, setup.choose, after)
    ensures decision == if Vouched(setup, p) then setup.decide(setup.trace(p)) else setup.individual(p)
    ensures forall q :: q in matched ==> q in remaining && decision == setup.decide(setup.trace(q))
    ensures Vouched(setup, p) ==> TakesAll(setup, remaining, setup.trace(p), matched)
  {
    assert [p][0] == p;
    UnusableMeans(setup, p);
    var cached := setup.run(p);
    if Unusable(setup, p) { return setup.individual(p), {}, table; }
    matched, after := FindGroup(setup, remaining, p, cached.value, table);
    decision := setup.decide(cached.value);
  }

  function Assign<D>(decisions: map<nat, D>, group: set<nat>, decision: D): (r: map<nat, D>)
    ensures forall q :: q in r <==> q in decisions || q in group
    ensures forall q :: q in r ==> r[q] == if q in group then decision else decisions[q]
  {
    map q | q in decisions.Keys + group :: if q in group then decision else decisions[q]
  }

  /** Every candidate gets the decision its own execution calls for, or that of
      an individual run when its cached run is unusable. */
  method FilterAll<S(!new), O, D>(setup: Setup<S, O, D>, ids: seq<nat>) returns (decisions: map<nat, D>)
    requires Deterministic(setup, ids)
    ensures forall q :: q in decisions <==> q in ids
    ensures forall q :: q in decisions ==> Right(setup, q, decisions[q])
  {
    decisions := map[];
    var remaining, table: Option<Table> := ids, Some(map[]);
    while remaining != []
      invariant forall q :: q in remaining || q in decisions <==> q in ids
      invariant forall q :: q in decisions ==> Right(setup, q, decisions[q])
      invariant TableOk(setup.target, setup.choose, table)
      decreases |remaining|
    {
      var p, rest := remaining[0], remaining[1..];
      StillDeterministic(setup, ids, rest);
      StillDeterministic(setup, ids, [p]);
      var decision, matched;
      decision, matched, table := Decide(setup, rest, p, table);
      decisions := Assign(decisions, {p} + matched, decision);
      remaining := Without(rest, matched);
    }
  }
}
