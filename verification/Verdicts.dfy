/** What the verifier knows at any moment, and what every step keeps true of it:
    the evidence ledger, the verdicts, the candidates still active and the
    (input, candidate) pairs already classified. */
module Verdicts {
  import opened Sequences
  import opened Options
  import opened Predicates
  import opened Classification
  import opened Equivalence

  // ----- the evidence ledger -----

  datatype Ledger = MakeLedger(
    counts: Counts, total: map<nat, nat>, accepted: map<nat, nat>,
    security: set<nat>, hard: set<nat>)

  function Get<K>(m: map<K, nat>, k: K): nat { if k in m then m[k] else 0 }

  type Counts = map<nat, map<Observation, nat>>

  function CountIn(counts: Counts, p: nat, o: Observation): nat
  {
    if p in counts then Get(counts[p], o) else 0
  }

  function CountOf(l: Ledger, p: nat, o: Observation): nat { CountIn(l.counts, p, o) }

  /** Two observations are reported to the journal but never counted. */
  predicate IsCounted(o: Observation) { !o.Unobserved? && !o.AttemptedUnusable? }

  function RowOf(counts: Counts, p: nat): map<Observation, nat>
  {
    if p in counts then counts[p] else map[]
  }

  function Bump(counts: Counts, p: nat, o: Observation): Counts
  {
    counts[p := RowOf(counts, p)[o := Get(RowOf(counts, p), o) + 1]]
  }

  lemma BumpCount(counts: Counts, p: nat, o: Observation, q: nat, n: Observation)
    ensures CountIn(Bump(counts, p, o), q, n) == CountIn(counts, q, n) + (if q == p && n == o then 1 else 0)
  {
    var row := RowOf(counts, p);
    if q == p {
      assert Bump(counts, p, o)[q] == row[o := Get(row, o) + 1];
    }
  }

  /** One more observation of candidate `p`. */
  function Tally(l: Ledger, p: nat, o: Observation): Ledger
  {
    MakeLedger(
      if IsCounted(o) then Bump(l.counts, p, o) else l.counts,
      if IsEvidence(o) then l.total[p := Get(l.total, p) + 1] else l.total,
      if IsAccepted(o) then l.accepted[p := Get(l.accepted, p) + 1] else l.accepted,
      if IsHard(o) then l.security + {p} else l.security,
      if IsFeedbackHard(o) then l.hard + {p} else l.hard)
  }

  function Evidential(l: Ledger, p: nat): nat
  {
    CountOf(l, p, PatchCrashed) + CountOf(l, p, CrashFail) + CountOf(l, p, NoCrashFail)
    + CountOf(l, p, CrashPass) + CountOf(l, p, NoCrashSameBranch) + CountOf(l, p, NoCrashDiffBranch)
  }

  /** How the flags and totals of one candidate follow from its counts. */
  predicate Balanced(l: Ledger, p: nat)
  {
    && (p in l.security <==> CountOf(l, p, PatchCrashed) + CountOf(l, p, CrashFail) + CountOf(l, p, NoCrashFail) > 0)
    && (p in l.hard <==> CountOf(l, p, PatchCrashed) + CountOf(l, p, NoCrashFail) > 0)
    && Get(l.total, p) == Evidential(l, p)
    && Get(l.accepted, p) == CountOf(l, p, CrashPass) + CountOf(l, p, NoCrashSameBranch)
  }

  lemma TallyCount(l: Ledger, p: nat, o: Observation, q: nat, n: Observation)
    ensures CountOf(Tally(l, p, o), q, n)
            == CountOf(l, q, n) + (if q == p && n == o && IsCounted(o) then 1 else 0)
  {
    BumpCount(l.counts, p, o, q, n);
  }

  function HardCount(l: Ledger, p: nat): nat
  {
    CountOf(l, p, PatchCrashed) + CountOf(l, p, CrashFail) + CountOf(l, p, NoCrashFail)
  }

  lemma TallyHard(l: Ledger, p: nat, o: Observation, q: nat)
    ensures HardCount(Tally(l, p, o), q) == HardCount(l, q) + (if q == p && IsHard(o) then 1 else 0)
    ensures var n := CountOf(l, q, PatchCrashed) + CountOf(l, q, NoCrashFail);
            CountOf(Tally(l, p, o), q, PatchCrashed) + CountOf(Tally(l, p, o), q, NoCrashFail)
            == n + (if q == p && IsFeedbackHard(o) then 1 else 0)
  {
    TallyCount(l, p, o, q, PatchCrashed);
    TallyCount(l, p, o, q, CrashFail);
    TallyCount(l, p, o, q, NoCrashFail);
  }

  lemma TallySoft(l: Ledger, p: nat, o: Observation, q: nat)
    ensures var n := CountOf(l, q, CrashPass) + CountOf(l, q, NoCrashSameBranch);
            CountOf(Tally(l, p, o), q, CrashPass) + CountOf(Tally(l, p, o), q, NoCrashSameBranch)
            == n + (if q == p && IsAccepted(o) then 1 else 0)
    ensures CountOf(Tally(l, p, o), q, NoCrashDiffBranch)
            == CountOf(l, q, NoCrashDiffBranch) + (if q == p && o.NoCrashDiffBranch? then 1 else 0)
  {
    TallyCount(l, p, o, q, CrashPass);
    TallyCount(l, p, o, q, NoCrashSameBranch);
    TallyCount(l, p, o, q, NoCrashDiffBranch);
  }

  /** Any observation whatever keeps every candidate's books balanced. */
  lemma TallyBalances(l: Ledger, p: nat, o: Observation, q: nat)
    requires Balanced(l, q)
    ensures Balanced(Tally(l, p, o), q)
  {
    TallyHard(l, p, o, q);
    TallySoft(l, p, o, q);
  }

  // ----- the laboratory: everything outside the verifier -----

  /** A captured pre-branch state. */
  datatype Snapshot = MakeSnapshot(registers: seq<int>, clamps: seq<(int, int)>, stack: seq<int>)

  /** The candidates, the mode, the inputs, and one deterministic target per
      input; `guess` evaluates a candidate offline on a captured state.  In a
      `reliable` lab no attempt to run a candidate comes back unusable or
      without its branch vector; without a `deadline` no run is cut off. */
  datatype Lab = MakeLab(
    patches: seq<nat>, feedback: bool, poc: Option<nat>, reliable: bool, deadline: bool,
    tests: nat -> Testcase,
    target: nat -> (seq<Branch> -> Step<Snapshot, Probe>),
    choose: nat -> (Snapshot -> Branch),
    guess: nat -> (Snapshot -> Option<Branch>),
    trace: (nat, nat) -> Trace<Snapshot, Probe>)

  ghost predicate TraceOk(lab: Lab, t: nat, p: nat)
  {
    Executes(lab.target(t), lab.choose(p), lab.trace(t, p))
  }

  /** Executions are deterministic, only crashes carry fault addresses, and
      offline evaluation is faithful. */
  ghost predicate Sound(lab: Lab)
  {
    && Distinct(lab.patches)
    && (forall t: nat, p: nat :: TraceOk(lab, t, p))
    && (forall t: nat, p: nat :: ValidProbe(lab.trace(t, p).outcome))
    && (forall p: nat :: Faithful(lab.guess(p), lab.choose(p)))
  }

  // ----- generic candidates -----

  /** What offline evaluation of a compiled generic candidate answers. */
  function GenericGuess(a: Ast): Snapshot -> Option<Branch>
  {
    (s: Snapshot) =>
      var b := CachedBranch(EmitBranch(a), s.registers);
      if b.Ok? then Some(b.value) else None
  }

  /** The candidate jumps exactly when its predicate is zero on the captured
      registers, and traps exactly when the predicate does. */
  ghost predicate Guards(choose: Snapshot -> Branch, a: Ast)
  {
    forall s: Snapshot :: JumpOnZero(Meaning(a, Captured(s.registers))).Ok? ==>
      JumpOnZero(Meaning(a, Captured(s.registers))) == Ok(choose(s), "")
  }

  /** Offline evaluation of a compiled candidate is faithful: it answers on every
      captured state with the registers it reads, unless the emission merged two
      operators, and only with the branch its predicate calls for. */
  lemma CompiledIsFaithful(a: Ast, choose: Snapshot -> Branch)
    ensures Guards(choose, a) ==> Faithful(GenericGuess(a), choose)
    ensures Merges(a) == 0 ==> (Faithful(GenericGuess(a), choose) <==> Guards(choose, a))
    ensures forall s: Snapshot :: GenericGuess(a)(s).Some? <==>
              Merges(a) == 0 && JumpOnZero(Meaning(a, Captured(s.registers))).Ok?
  {
    forall s: Snapshot
      ensures CachedBranch(EmitBranch(a), s.registers)
              == if Merges(a) == 0 then JumpOnZero(Meaning(a, Captured(s.registers))) else Bad
    {
      BranchJumpsOnZero(a, s.registers);
    }
  }

  // ----- what an execution earns -----

  /** The candidate's own execution traps, or crashes at the fault of the proof
      of concept. */
  predicate Fails(lab: Lab, t: nat, p: nat)
  {
    2 in lab.trace(t, p).branches || AtPocFault(lab.trace(t, p).outcome, lab.poc)
  }

  /** The candidate's own execution rejects it at once: in feedback mode a crash
      where the unpatched input crashed does not. */
  predicate Condemned(lab: Lab, t: nat, p: nat)
  {
    2 in lab.trace(t, p).branches
    || (AtPocFault(lab.trace(t, p).outcome, lab.poc) && !(lab.feedback && lab.tests(t).exit.ExitCrash?))
  }

  /** What is known of a pair's execution: the outcome, and the branch vector
      unless the attempt came back without one. */
  function Earns(lab: Lab, blind: set<(nat, nat)>, t: nat, p: nat): Observation
  {
    var tr := lab.trace(t, p);
    Observe(lab.tests(t), lab.poc, tr.outcome, if (t, p) in blind then None else Some(tr.branches))
  }

  /** The observation candidate `p` earns on input `t`, by its own execution. */
  function Verdict(lab: Lab, t: nat, p: nat): Observation { Earns(lab, {}, t, p) }

  /** A hard observation is never wrong, and with the vector none is missed. */
  lemma HardIsFailure(lab: Lab, blind: set<(nat, nat)>, t: nat, p: nat)
    requires Sound(lab)
    ensures IsHard(Earns(lab, blind, t, p)) ==> Fails(lab, t, p)
    ensures (t, p) !in blind ==> (IsHard(Earns(lab, blind, t, p)) <==> Fails(lab, t, p))
  {
    var tr := lab.trace(t, p);
    assert ValidProbe(tr.outcome);
    HardMeansFailure(lab.tests(t), lab.poc, tr.outcome, if (t, p) in blind then None else Some(tr.branches));
  }

  /** The same of an immediate rejection. */
  lemma RejectionIsCondemned(lab: Lab, blind: set<(nat, nat)>, t: nat, p: nat)
    requires Sound(lab)
    ensures Rejects(Earns(lab, blind, t, p), lab.feedback) ==> Condemned(lab, t, p)
    ensures (t, p) !in blind ==> (Rejects(Earns(lab, blind, t, p), lab.feedback) <==> Condemned(lab, t, p))
  {
    assert ValidProbe(lab.trace(t, p).outcome);
  }

  /** What happened on input `t`, as far as the attempt shows it. */
  predicate HappenedOn(lab: Lab, blind: set<(nat, nat)>, t: nat, p: nat, o: Observation)
  {
    var tr := lab.trace(t, p);
    Happened(o, lab.tests(t), lab.poc, tr.outcome, if (t, p) in blind then None else Some(tr.branches))
  }

  // ----- the verifier's knowledge -----

  /** A final verdict; a rejection during the run names the input. */
  datatype Decision = Verified | RejectedOn(input: Option<nat>)
  {
    function Input(): Option<nat> { if RejectedOn? then input else None }
  }

  /** `done` holds the classified pairs, `blind` those of them classified
      without a branch vector, and `lost` the pairs whose attempt was unusable. */
  datatype Core = MakeCore(
    ledger: Ledger, verdicts: map<nat, Decision>, active: set<nat>,
    done: set<(nat, nat)>, blind: set<(nat, nat)>, lost: set<(nat, nat)>)

  ghost predicate VerdictsInv(lab: Lab, c: Core)
  {
    && (forall p :: p in c.active ==> p in lab.patches)
    && (forall p :: p in c.verdicts <==> p in lab.patches && p !in c.active)
    && (forall p :: p in c.verdicts ==> c.verdicts[p].Input().Some?)
    && (forall p :: p in lab.patches ==>
          (p !in c.active <==> p in (if lab.feedback then c.ledger.hard else c.ledger.security)))
  }

  ghost predicate LedgerInv(lab: Lab, c: Core, admitted: set<nat>)
  {
    && (forall p :: Balanced(c.ledger, p) && CountOf(c.ledger, p, Unobserved) == 0)
    && (forall p :: CountOf(c.ledger, p, AttemptedUnusable) == 0)
    && (forall d :: d in c.done ==> d.0 in admitted && d.1 in lab.patches)
    && (forall d :: d in c.done && IsHard(Earns(lab, c.blind, d.0, d.1)) ==> d.1 in c.ledger.security)
    && (forall p :: p in c.ledger.security ==> HasHard(lab, c.done, c.blind, p))
  }

  ghost predicate HasHard(lab: Lab, done: set<(nat, nat)>, blind: set<(nat, nat)>, p: nat)
  {
    exists t: nat :: (t, p) in done && IsHard(Earns(lab, blind, t, p))
  }

  /** The inputs whose observation rejects the candidate are the one its verdict
      names, or none while it has no verdict. */
  ghost predicate NamesRejectors(lab: Lab, c: Core)
  {
    forall t: nat, p :: (t, p) in c.done && Rejects(Earns(lab, c.blind, t, p), lab.feedback) <==>
                        p in c.verdicts && c.verdicts[p] == RejectedOn(Some(t))
  }

  /** Nothing is lost in a reliable lab. */
  ghost predicate Dependable(lab: Lab, c: Core)
  {
    c.blind <= c.done && (lab.reliable ==> c.lost == {} && c.blind == {})
  }

  /** The parts of what is always true of the verifier's knowledge. */
  datatype CorePart = TheVerdicts | TheLedger | TheNames | TheLosses

  ghost predicate CoreHolds(part: CorePart, lab: Lab, c: Core, admitted: set<nat>)
  {
    match part
    case TheVerdicts => VerdictsInv(lab, c)
    case TheLedger => LedgerInv(lab, c, admitted)
    case TheNames => NamesRejectors(lab, c)
    case TheLosses => Dependable(lab, c)
  }

  ghost predicate CoreInv(lab: Lab, c: Core, admitted: set<nat>)
  {
    forall part: CorePart :: CoreHolds(part, lab, c, admitted)
  }

  lemma OpenCore(lab: Lab, c: Core, admitted: set<nat>)
    ensures CoreInv(lab, c, admitted) <==>
            VerdictsInv(lab, c) && LedgerInv(lab, c, admitted) && NamesRejectors(lab, c) && Dependable(lab, c)
  {
    if CoreInv(lab, c, admitted) {
      assert CoreHolds(TheVerdicts, lab, c, admitted) && CoreHolds(TheLedger, lab, c, admitted);
      assert CoreHolds(TheNames, lab, c, admitted) && CoreHolds(TheLosses, lab, c, admitted);
    }
  }

  /** Input `t` still has exactly the indices `left` to test: none of those is
      done, and every other candidate is done, lost, or no longer active. */
  ghost predicate JobInv(lab: Lab, c: Core, t: nat, left: set<nat>)
  {
    && (forall i :: i in left ==> i < |lab.patches| && (t, lab.patches[i]) !in c.done)
    && (forall i :: 0 <= i < |lab.patches| && i !in left && lab.patches[i] in c.active
          ==> (t, lab.patches[i]) in c.done + c.lost)
  }

  /** Only input `t` was worked on. */
  ghost predicate Advances(c: Core, c': Core, t: nat)
  {
    && c.done <= c'.done && c.lost <= c'.lost && c'.active <= c.active
    && (forall d :: d in c'.done ==> d in c.done || d.0 == t)
  }

  function Reject(c: Core, p: nat, t: nat): Core
  {
    if p in c.active then c.(verdicts := c.verdicts[p := RejectedOn(Some(t))], active := c.active - {p}) else c
  }

  /** Classify candidate `p` on input `t`, with or without its branch vector. */
  function ClassifyOne(lab: Lab, c: Core, t: nat, p: nat, seen: bool): Core
  {
    var blind := if seen then c.blind else c.blind + {(t, p)};
    var o := Earns(lab, blind, t, p);
    var c1 := c.(ledger := Tally(c.ledger, p, o), done := c.done + {(t, p)}, blind := blind);
    if Rejects(o, lab.feedback) then Reject(c1, p, t) else c1
  }

  lemma ClassifyFields(lab: Lab, c: Core, t: nat, p: nat, seen: bool)
    ensures var c' := ClassifyOne(lab, c, t, p, seen);
            && c'.blind == (if seen then c.blind else c.blind + {(t, p)})
            && c'.ledger == Tally(c.ledger, p, Earns(lab, c'.blind, t, p))
            && c'.done == c.done + {(t, p)} && c'.lost == c.lost
  {
  }

  lemma ClassifyVerdicts(lab: Lab, c: Core, t: nat, p: nat, seen: bool)
    requires VerdictsInv(lab, c) && p in c.active
    ensures VerdictsInv(lab, ClassifyOne(lab, c, t, p, seen))
  {
  }

  /** Other pairs keep what they earned. */
  lemma SameEarned(lab: Lab, blind: set<(nat, nat)>, t: nat, p: nat, u: nat, q: nat)
    requires (u, q) != (t, p)
    ensures Earns(lab, blind + {(t, p)}, u, q) == Earns(lab, blind, u, q)
  {
  }

  lemma ClassifyLedger(lab: Lab, c: Core, t: nat, p: nat, seen: bool, admitted: set<nat>)
    requires LedgerInv(lab, c, admitted) && p in lab.patches && t in admitted && (t, p) !in c.done && c.blind <= c.done
    ensures LedgerInv(lab, ClassifyOne(lab, c, t, p, seen), admitted)
  {
    var c' := ClassifyOne(lab, c, t, p, seen);
    ClassifyFields(lab, c, t, p, seen);
    forall q
      ensures Balanced(c'.ledger, q) && CountOf(c'.ledger, q, Unobserved) == 0
              && CountOf(c'.ledger, q, AttemptedUnusable) == 0
    {
      TallyBalances(c.ledger, p, Earns(lab, c'.blind, t, p), q);
      TallyCount(c.ledger, p, Earns(lab, c'.blind, t, p), q, Unobserved);
      TallyCount(c.ledger, p, Earns(lab, c'.blind, t, p), q, AttemptedUnusable);
    }
    forall d | d in c.done
      ensures Earns(lab, c'.blind, d.0, d.1) == Earns(lab, c.blind, d.0, d.1)
    {
      SameEarned(lab, c.blind, t, p, d.0, d.1);
    }
    forall q | q in c'.ledger.security
      ensures HasHard(lab, c'.done, c'.blind, q)
    {
      if q in c.ledger.security {
        var u: nat :| (u, q) in c.done && IsHard(Earns(lab, c.blind, u, q));
        assert (u, q) in c'.done;
      } else {
        assert q == p && (t, p) in c'.done;
      }
    }
  }

  lemma ClassifyNames(lab: Lab, c: Core, t: nat, p: nat, seen: bool)
    requires NamesRejectors(lab, c) && (t, p) !in c.done && p in c.active && p !in c.verdicts
    ensures NamesRejectors(lab, ClassifyOne(lab, c, t, p, seen))
  {
    var c' := ClassifyOne(lab, c, t, p, seen);
    ClassifyFields(lab, c, t, p, seen);
    forall u: nat, q
      ensures (u, q) in c'.done && Rejects(Earns(lab, c'.blind, u, q), lab.feedback) <==>
              q in c'.verdicts && c'.verdicts[q] == RejectedOn(Some(u))
    {
      if (u, q) != (t, p) { SameEarned(lab, c.blind, t, p, u, q); }
    }
  }

  /** Classifying one pending candidate keeps every invariant and removes one
      index from the input's work. */
  lemma ClassifyKeeps(lab: Lab, c: Core, t: nat, i: nat, seen: bool, left: set<nat>, admitted: set<nat>)
    requires Distinct(lab.patches) && CoreInv(lab, c, admitted) && JobInv(lab, c, t, left)
    requires t in admitted && i in left && lab.patches[i] in c.active && (lab.reliable ==> seen)
    ensures var c' := ClassifyOne(lab, c, t, lab.patches[i], seen);
            CoreInv(lab, c', admitted) && JobInv(lab, c', t, left - {i}) && Advances(c, c', t)
  {
    OpenCore(lab, c, admitted);
    OpenCore(lab, ClassifyOne(lab, c, t, lab.patches[i], seen), admitted);
    ClassifyFields(lab, c, t, lab.patches[i], seen);
    ClassifyVerdicts(lab, c, t, lab.patches[i], seen);
    ClassifyLedger(lab, c, t, lab.patches[i], seen, admitted);
    ClassifyNames(lab, c, t, lab.patches[i], seen);
  }

  /** An unusable execution gives no evidence; the pair is only remembered. */
  function LoseOne(c: Core, t: nat, p: nat): Core { c.(lost := c.lost + {(t, p)}) }

  lemma LoseKeeps(lab: Lab, c: Core, t: nat, i: nat, left: set<nat>, admitted: set<nat>)
    requires CoreInv(lab, c, admitted) && JobInv(lab, c, t, left) && i in left && !lab.reliable
    ensures var c' := LoseOne(c, t, lab.patches[i]);
            CoreInv(lab, c', admitted) && JobInv(lab, c', t, left - {i}) && Advances(c, c', t)
  {
    OpenCore(lab, c, admitted);
    OpenCore(lab, LoseOne(c, t, lab.patches[i]), admitted);
  }

  lemma SkipKeeps(lab: Lab, c: Core, t: nat, i: nat, left: set<nat>)
    requires JobInv(lab, c, t, left) && i in left && lab.patches[i] !in c.active
    ensures JobInv(lab, c, t, left - {i})
  {
  }

  /** Work on one input leaves every other input's job as it was. */
  lemma OtherJobKeeps(lab: Lab, c: Core, c': Core, t: nat, u: nat, left: set<nat>)
    requires Advances(c, c', t) && u != t && JobInv(lab, c, u, left)
    ensures JobInv(lab, c', u, left)
  {
  }

  lemma AdvancesTransitive(a: Core, b: Core, c: Core, t: nat)
    requires Advances(a, b, t) && Advances(b, c, t)
    ensures Advances(a, c, t)
  {
  }

  // ----- the final verdicts -----

  /** The verdict pass at the end of a run: the candidates still active. */
  function Conclude(lab: Lab, c: Core): map<nat, Decision>
  {
    map p | p in c.active + c.verdicts.Keys ::
      if p in c.verdicts then c.verdicts[p]
      else if p in c.ledger.security then RejectedOn(None) else Verified
  }

  /** The serialized flag: a verified verdict without a security rejection. */
  predicate IsVerified(c: Core, verdicts: map<nat, Decision>, p: nat)
  {
    p in verdicts && verdicts[p].Verified? && p !in c.ledger.security
  }

  /** Every candidate gets exactly one verdict, and it is determined by the
      candidate's counts, whether the run was cut off or not. */
  lemma VerdictsAreCounted(lab: Lab, c: Core, admitted: set<nat>, p: nat)
    requires CoreInv(lab, c, admitted) && p in lab.patches
    ensures forall q :: q in Conclude(lab, c) <==> q in lab.patches
    ensures forall q :: q in c.verdicts ==> q !in c.active
    ensures IsVerified(c, Conclude(lab, c), p) <==>
            CountOf(c.ledger, p, PatchCrashed) == CountOf(c.ledger, p, CrashFail) == CountOf(c.ledger, p, NoCrashFail)
              == 0
    ensures p !in c.ledger.hard <==>
            CountOf(c.ledger, p, PatchCrashed) == CountOf(c.ledger, p, NoCrashFail) == 0
    ensures Get(c.ledger.total, p) == Evidential(c.ledger, p)
    ensures Get(c.ledger.accepted, p) == CountOf(c.ledger, p, CrashPass) + CountOf(c.ledger, p, NoCrashSameBranch)
  {
    OpenCore(lab, c, admitted);
    assert Balanced(c.ledger, p);
    assert p in c.ledger.hard ==> p in c.ledger.security;
  }

  /** No admitted input makes the candidate trap or crash at the fault. */
  ghost predicate NeverFails(lab: Lab, admitted: set<nat>, p: nat) { forall t :: t in admitted ==> !Fails(lab, t, p) }

  /** The verdict does not depend on the schedule: once every admitted input has
      tried every active candidate, and no attempt was unusable, a candidate is
      verified iff it fails on none of the admitted inputs. */
  lemma VerdictsAreScheduleFree(lab: Lab, c: Core, admitted: set<nat>, p: nat)
    requires Sound(lab) && CoreInv(lab, c, admitted) && p in lab.patches && lab.reliable
    requires forall t :: t in admitted ==> JobInv(lab, c, t, {})
    ensures IsVerified(c, Conclude(lab, c), p) <==> NeverFails(lab, admitted, p)
  {
    OpenCore(lab, c, admitted);
    VerdictsAreCounted(lab, c, admitted, p);
    if p in c.ledger.security {
      SecurityIsFailure(lab, c, admitted, p);
    } else {
      assert p in c.active by { assert Balanced(c.ledger, p); }
      forall t | t in admitted
        ensures !Fails(lab, t, p)
      {
        var i :| 0 <= i < |lab.patches| && lab.patches[i] == p;
        assert JobInv(lab, c, t, {});
        assert (t, p) in c.done;
        HardIsFailure(lab, c.blind, t, p);
      }
    }
  }

  lemma SecurityIsFailure(lab: Lab, c: Core, admitted: set<nat>, p: nat)
    requires Sound(lab) && LedgerInv(lab, c, admitted) && p in c.ledger.security
    ensures !NeverFails(lab, admitted, p)
  {
    var t: nat :| (t, p) in c.done && IsHard(Earns(lab, c.blind, t, p));
    assert t in admitted;
    HardIsFailure(lab, c.blind, t, p);
  }

  /** ...and when every candidate was rejected, each fails on an admitted input,
      however early the run stopped and whatever was unusable. */
  lemma AllRejectedIsRight(lab: Lab, c: Core, admitted: set<nat>, p: nat)
    requires Sound(lab) && CoreInv(lab, c, admitted) && p in lab.patches && c.active == {}
    ensures !IsVerified(c, Conclude(lab, c), p) && !NeverFails(lab, admitted, p)
  {
    OpenCore(lab, c, admitted);
    assert Balanced(c.ledger, p);
    SecurityIsFailure(lab, c, admitted, p);
  }

  // ----- exact counts -----

  /** The inputs on which candidate `p` earned observation `o`. */
  ghost function Earned(lab: Lab, done: set<(nat, nat)>, blind: set<(nat, nat)>, p: nat,
                        o: Observation): set<(nat, nat)>
  {
    set d | d in done && d.1 == p && Earns(lab, blind, d.0, d.1) == o
  }

  ghost predicate Exact(lab: Lab, c: Core)
  {
    forall p, o :: IsCounted(o) ==> CountOf(c.ledger, p, o) == |Earned(lab, c.done, c.blind, p, o)|
  }

  /** One more pair adds to exactly the set its observation belongs to. */
  lemma PairAdds(before: set<(nat, nat)>, after: set<(nat, nat)>, d: (nat, nat), earned: bool)
    requires d !in before && after == if earned then before + {d} else before
    ensures |after| == |before| + (if earned then 1 else 0)
  {
  }

  lemma EarnedSame(lab: Lab, done: set<(nat, nat)>, blind: set<(nat, nat)>, t: nat, p: nat, q: nat, n: Observation)
    requires (t, p) !in done
    ensures Earned(lab, done, blind + {(t, p)}, q, n) == Earned(lab, done, blind, q, n)
  {
    forall d | d in done
      ensures Earns(lab, blind + {(t, p)}, d.0, d.1) == Earns(lab, blind, d.0, d.1)
    {
      SameEarned(lab, blind, t, p, d.0, d.1);
    }
  }

  lemma EarnedStep(lab: Lab, done: set<(nat, nat)>, blind: set<(nat, nat)>, t: nat, p: nat, q: nat, n: Observation)
    requires (t, p) !in done
    ensures |Earned(lab, done + {(t, p)}, blind, q, n)|
            == |Earned(lab, done, blind, q, n)| + (if q == p && n == Earns(lab, blind, t, p) then 1 else 0)
  {
    PairAdds(Earned(lab, done, blind, q, n), Earned(lab, done + {(t, p)}, blind, q, n), (t, p),
             q == p && n == Earns(lab, blind, t, p));
  }

  /** Each pair is counted once: the counts are the sizes of the sets of inputs
      that earned them. */
  lemma ClassifyExact(lab: Lab, c: Core, t: nat, p: nat, seen: bool)
    requires Exact(lab, c) && (t, p) !in c.done && c.blind <= c.done
    ensures Exact(lab, ClassifyOne(lab, c, t, p, seen))
  {
    var c' := ClassifyOne(lab, c, t, p, seen);
    ClassifyFields(lab, c, t, p, seen);
    forall q, n | IsCounted(n)
      ensures CountOf(c'.ledger, q, n) == |Earned(lab, c'.done, c'.blind, q, n)|
    {
      TallyCount(c.ledger, p, Earns(lab, c'.blind, t, p), q, n);
      EarnedStep(lab, c.done, c'.blind, t, p, q, n);
      EarnedSame(lab, c.done, c.blind, t, p, q, n);
    }
  }

  lemma LoseExact(lab: Lab, c: Core, t: nat, p: nat)
    requires Exact(lab, c)
    ensures Exact(lab, LoseOne(c, t, p))
  {
    var c' := LoseOne(c, t, p);
    assert c'.ledger == c.ledger && c'.done == c.done && c'.blind == c.blind;
  }

  /** The admitted inputs on which `o` was seen to happen to the candidate. */
  ghost function Seen(lab: Lab, c: Core, admitted: set<nat>, p: nat, o: Observation): set<nat>
  {
    set t | t in admitted && (t, p) in c.done && HappenedOn(lab, c.blind, t, p, o)
  }

  /** The admitted inputs on which `o` happens in the candidate's own execution. */
  ghost function Occasions(lab: Lab, admitted: set<nat>, p: nat, o: Observation): set<nat>
  {
    set t | t in admitted && HappenedOn(lab, {}, t, p, o)
  }

  /** Every count, at every reachable state, is the number of admitted inputs on
      which exactly that was seen to happen. */
  lemma CountsAreSeen(lab: Lab, c: Core, admitted: set<nat>, p: nat, o: Observation)
    requires CoreInv(lab, c, admitted) && Exact(lab, c) && IsCounted(o)
    ensures CountOf(c.ledger, p, o) == |Seen(lab, c, admitted, p, o)|
  {
    OpenCore(lab, c, admitted);
    var inputs, pairs := Seen(lab, c, admitted, p, o), Earned(lab, c.done, c.blind, p, o);
    forall t: nat
      ensures t in inputs <==> (t, p) in pairs
    {
      var tr := lab.trace(t, p);
      ObservedIsWhatHappened(lab.tests(t), lab.poc, tr.outcome, if (t, p) in c.blind then None else Some(tr.branches),
                             o);
      assert (t, p) in c.done ==> (t, p).0 in admitted;
    }
    PairsLikeInputs(inputs, pairs, p);
  }

  /** The counts of a candidate that was not rejected on the way are the same for
      every schedule: on how many admitted inputs each thing happens to it. */
  lemma SurvivorCounts(lab: Lab, c: Core, admitted: set<nat>, p: nat, o: Observation)
    requires CoreInv(lab, c, admitted) && Exact(lab, c) && p in c.active && lab.reliable && IsCounted(o)
    requires forall t :: t in admitted ==> JobInv(lab, c, t, {})
    ensures CountOf(c.ledger, p, o) == |Occasions(lab, admitted, p, o)|
  {
    OpenCore(lab, c, admitted);
    CountsAreSeen(lab, c, admitted, p, o);
    var i :| 0 <= i < |lab.patches| && lab.patches[i] == p;
    forall t | t in admitted
      ensures (t, p) in c.done
    {
      assert JobInv(lab, c, t, {});
    }
    assert Seen(lab, c, admitted, p, o) == Occasions(lab, admitted, p, o);
  }

  /** Input `t` condemned the candidate, and no other input it was seen whole on did. */
  ghost predicate RejectedAt(lab: Lab, c: Core, admitted: set<nat>, p: nat, t: nat)
  {
    && t in admitted && (t, p) in c.done && Condemned(lab, t, p)
    && forall u: nat :: (u, p) in c.done && (u, p) !in c.blind && Condemned(lab, u, p) ==> u == t
  }

  /** A candidate rejected on the way was condemned by one input only, the one its
      verdict names. */
  lemma RejectedOnce(lab: Lab, c: Core, admitted: set<nat>, p: nat)
    requires Sound(lab) && CoreInv(lab, c, admitted) && p in c.verdicts
    ensures c.verdicts[p].Input().Some? && RejectedAt(lab, c, admitted, p, c.verdicts[p].Input().value)
  {
    OpenCore(lab, c, admitted);
    var t := c.verdicts[p].Input().value;
    assert c.verdicts[p] == RejectedOn(Some(t));
    assert (t, p).0 in admitted;
    RejectionIsCondemned(lab, c.blind, t, p);
    forall u: nat | (u, p) in c.done && (u, p) !in c.blind && Condemned(lab, u, p)
      ensures u == t
    {
      RejectionIsCondemned(lab, c.blind, u, p);
    }
  }

  /** The named input is right for a complete run of reliable attempts: some input
      condemns the candidate exactly when its verdict names one. */
  lemma NamedIsCondemned(lab: Lab, c: Core, admitted: set<nat>, p: nat)
    requires Sound(lab) && CoreInv(lab, c, admitted) && p in lab.patches && lab.reliable
    requires forall t :: t in admitted ==> JobInv(lab, c, t, {})
    ensures p !in c.active <==> exists t :: t in admitted && Condemned(lab, t, p)
  {
    OpenCore(lab, c, admitted);
    if p in c.verdicts {
      RejectedOnce(lab, c, admitted, p);
    } else {
      var i :| 0 <= i < |lab.patches| && lab.patches[i] == p;
      forall t | t in admitted
        ensures !Condemned(lab, t, p)
      {
        assert JobInv(lab, c, t, {}) && (t, p) in c.done;
        RejectionIsCondemned(lab, c.blind, t, p);
      }
    }
  }

  lemma {:induction false} PairsLikeInputs(inputs: set<nat>, pairs: set<(nat, nat)>, p: nat)
    requires forall t: nat :: t in inputs <==> (t, p) in pairs
    requires forall d :: d in pairs ==> d.1 == p
    ensures |inputs| == |pairs|
    decreases inputs
  {
    assert forall d :: d in pairs ==> d == (d.0, p);
    if inputs == {} {
      assert pairs == {};
    } else {
      var t :| t in inputs;
      PairsLikeInputs(inputs - {t}, pairs - {(t, p)}, p);
    }
  }
}
