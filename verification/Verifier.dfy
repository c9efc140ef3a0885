/** The concrete verifier: classification, one input's quantum, and the records
    it writes at the end. */
module Verifier {
  import opened Sequences
  import opened Options
  import opened Predicates
  import opened Classification
  import opened Equivalence
  import opened Bitmaps
  import opened Sweep
  import opened Verdicts
  import opened Journal

  /** The candidate at index `i` is not one the group could have taken. */
  ghost predicate Missed(lab: Lab, t: nat, p: nat, i: nat)
  {
    i < |lab.patches| && !Reproduces(lab.guess(lab.patches[i]), lab.trace(t, p))
  }

  /** The table of first branches is right for input `t`. */
  ghost predicate Right(lab: Lab, t: nat, table: Option<Table>) { TableOk(lab.target(t), lab.choose, table) }

  lemma RememberRight(lab: Lab, t: nat, p: nat, table: Option<Table>)
    requires Sound(lab) && Right(lab, t, table)
    ensures Right(lab, t, Remember(table, p, lab.trace(t, p).branches))
  {
    assert TraceOk(lab, t, p);
    RememberOk(lab.target(t), lab.choose, table, p, lab.trace(t, p));
  }

  /** What became of a pending candidate in the grouping loop. */
  datatype Fate = Joined | Skipped | Kept

  class ConcreteVerifier {
    const lab: Lab
    const useCache: bool
    var counts: Counts
    var total: map<nat, nat>
    var accepted: map<nat, nat>
    var security: set<nat>
    var hard: set<nat>
    var verdicts: map<nat, Decision>
    var active: set<nat>
    var last: Observation
    var wallTime: bool  // the budget's end was recorded as the stop reason
    var result: Option<Artifact>
    ghost var done: set<(nat, nat)>
    ghost var blind: set<(nat, nat)>
    ghost var lost: set<(nat, nat)>

    ghost function Books(): Ledger
      reads this
    {
      MakeLedger(counts, total, accepted, security, hard)
    }

    ghost function Knowledge(): Core
      reads this
    {
      MakeCore(Books(), verdicts, active, done, blind, lost)
    }

    constructor (lab: Lab, useCache: bool)
      ensures this.lab == lab && this.useCache == useCache
      ensures Consistent({}) && done == {} && blind == {} && lost == {}
    {
      this.lab := lab;
      this.useCache := useCache;
      counts, total, accepted := map p | p in lab.patches :: map[], map p | p in lab.patches :: 0,
        map p | p in lab.patches :: 0;
      security, hard, verdicts := {}, {}, map[];
      active := set p | p in lab.patches;
      last, wallTime, result := Unobserved, false, None;
      done, blind, lost := {}, {}, {};
      new;
      assert forall p, o :: Earned(lab, {}, {}, p, o) == {};
    }

    // ----- classification -----

    method RecordObservation(p: nat, o: Observation)
      modifies this`counts, this`last
      ensures counts == Bump(old(counts), p, o) && last == o
    {
      last := o;
      var row := if p in counts then counts[p] else map[];
      counts := counts[p := row[o := (if o in row then row[o] else 0) + 1]];
    }

    method RecordEvidence(p: nat, isAccepted: bool)
      modifies this`total, this`accepted
      ensures total == old(total)[p := Get(old(total), p) + 1]
      ensures accepted == if isAccepted then old(accepted)[p := Get(old(accepted), p) + 1] else old(accepted)
    {
      total := total[p := (if p in total then total[p] else 0) + 1];
      if isAccepted { accepted := accepted[p := (if p in accepted then accepted[p] else 0) + 1]; }
    }

    /** An observation that is no evidence. */
    method Plain(p: nat, o: Observation)
      requires IsCounted(o) && !IsEvidence(o)
      modifies this`counts, this`last
      ensures Books() == Tally(old(Books()), p, o) && last == o
    {
      RecordObservation(p, o);
    }

    /** Evidence that condemns nothing, accepted or not. */
    method Evidence(p: nat, o: Observation, isAccepted: bool)
      requires IsEvidence(o) && !IsHard(o) && isAccepted == IsAccepted(o)
      modifies this`counts, this`last, this`total, this`accepted
      ensures Books() == Tally(old(Books()), p, o) && last == o
    {
      RecordObservation(p, o);
      RecordEvidence(p, isAccepted);
    }

    /** A hard failure; only a crash that was there before spares the feedback set. */
    method Condemn(p: nat, o: Observation)
      requires IsHard(o)
      modifies this`counts, this`last, this`total, this`accepted, this`security, this`hard
      ensures Books() == Tally(old(Books()), p, o) && last == o
    {
      security := security + {p};
      if !o.CrashFail? { hard := hard + {p}; }
      RecordObservation(p, o);
      RecordEvidence(p, false);
    }

    method TestCrashInput(p: nat, probe: Probe) returns (rejected: bool)
      requires last == Unobserved
      modifies this`counts, this`last, this`total, this`accepted, this`security, this`hard
      ensures var o := Observe(MakeTestcase(ExitCrash, []), lab.poc, probe, None);
              Books() == Tally(old(Books()), p, o) && last == o && rejected == Rejects(o, lab.feedback)
    {
      match probe.exit
      case ExitCrash =>
        if probe.fault.None? || lab.poc.None? || probe.fault != lab.poc {
          Plain(p, CrashSkipDiffAddr);
          return false;
        }
        Condemn(p, CrashFail);
        return !lab.feedback;
      case ExitOk =>
        Evidence(p, CrashPass, true);
        return false;
      case ExitTimeout =>
        Plain(p, CrashTimeout);
        return false;
      case ExitOther =>
        return false;
    }

    method TestNormalInput(p: nat, t: Testcase, probe: Probe, branches: Option<seq<Branch>>) returns (rejected: bool)
      requires last == Unobserved && !t.exit.ExitCrash? && !(branches.Some? && 2 in branches.value)
      modifies this`counts, this`last, this`total, this`accepted, this`security, this`hard
      ensures var o := Observe(t, lab.poc, probe, branches);
              Books() == Tally(old(Books()), p, o) && last == o && rejected == Rejects(o, lab.feedback)
    {
      match probe.exit
      case ExitCrash =>
        if probe.fault.None? || lab.poc.None? || probe.fault != lab.poc {
          Plain(p, NoCrashSkipDiffAddr);
          return false;
        }
        Condemn(p, NoCrashFail);
        return true;
      case ExitOk =>
        if branches.None? { return false; }
        if t.br == branches.value {
          Evidence(p, NoCrashSameBranch, true);
        } else {
          Evidence(p, NoCrashDiffBranch, false);
        }
        return false;
      case ExitTimeout =>
        Plain(p, NoCrashTimeout);
        return false;
      case ExitOther =>
        return false;
    }

    /** Classify one execution: the ledger takes exactly one observation, the one
        that happened, and the answer says whether the candidate is rejected at
        once. */
    method TestResult(p: nat, t: Testcase, probe: Probe, branches: Option<seq<Branch>>) returns (rejected: bool)
      modifies this`counts, this`last, this`total, this`accepted, this`security, this`hard
      ensures var o := Observe(t, lab.poc, probe, branches);
              Books() == Tally(old(Books()), p, o) && last == o && rejected == Rejects(o, lab.feedback)
      ensures Happened(last, t, lab.poc, probe, branches)
    {
      last := Unobserved;
      ObservedIsWhatHappened(t, lab.poc, probe, branches, Observe(t, lab.poc, probe, branches));
      if branches.Some? && 2 in branches.value {
        Condemn(p, PatchCrashed);
        return true;
      }
      if t.exit.ExitCrash? {
        rejected := TestCrashInput(p, probe);
      } else {
        rejected := TestNormalInput(p, t, probe, branches);
      }
    }

    /** One verdict per candidate: a second one raises and changes nothing. */
    method LogResult(p: nat, d: Decision) returns (ok: bool)
      modifies this`verdicts
      ensures ok <==> p !in old(verdicts)
      ensures verdicts == if ok then old(verdicts)[p := d] else old(verdicts)
    {
      ok := p !in verdicts;
      if ok { verdicts := verdicts[p := d]; }
    }

    method RecordRejection(p: nat, t: nat) returns (ok: bool)
      modifies this`verdicts, this`active
      ensures ok <==> !(p in old(active) && p in old(verdicts))
      ensures ok ==> Knowledge() == Reject(old(Knowledge()), p, t)
    {
      ok := true;
      if p in active {
        ok := LogResult(p, RejectedOn(Some(t)));
        if ok { active := active - {p}; }
      }
    }

    /** Classify one execution and remember the pair. */
    method TakeResult(t: nat, p: nat, probe: Probe, branches: Option<seq<Branch>>) returns (rejected: bool)
      modifies this`counts, this`last, this`total, this`accepted, this`security, this`hard, this`done, this`blind
      ensures var o, c := Observe(lab.tests(t), lab.poc, probe, branches), old(Knowledge());
              && last == o && rejected == Rejects(o, lab.feedback)
              && Knowledge() == MakeCore(Tally(c.ledger, p, o), c.verdicts, c.active, c.done + {(t, p)},
                                         if branches.None? then c.blind + {(t, p)} else c.blind, c.lost)
    {
      rejected := TestResult(p, lab.tests(t), probe, branches);
      done := done + {(t, p)};
      if branches.None? { blind := blind + {(t, p)}; }
    }

    /** Classify an active candidate by an execution equal to its own, whose
        branch vector may be missing. */
    method TestOne(t: nat, p: nat, probe: Probe, branches: Option<seq<Branch>>)
      requires p in active && p !in verdicts && (t, p) !in blind
      requires probe == lab.trace(t, p).outcome && (branches.Some? ==> branches.value == lab.trace(t, p).branches)
      modifies this
      ensures Knowledge() == ClassifyOne(lab, old(Knowledge()), t, p, branches.Some?)
      ensures wallTime == old(wallTime) && result == old(result)
      ensures last == Observe(lab.tests(t), lab.poc, probe, branches)
    {
      ghost var before := Knowledge();
      var rejected := TakeResult(t, p, probe, branches);
      OneStep(lab, before, Knowledge(), t, p, branches, last, rejected);
      if rejected {
        var ok := RecordRejection(p, t);
        assert ok;
      }
    }

    // ----- one quantum of one input -----

    /** The verifier's knowledge is consistent and input `t` still has to test
        exactly the sweep's pending indices. */
    ghost predicate Ready(t: nat, sweep: ConcreteInputSweep, admitted: set<nat>)
      reads this, sweep, sweep.bits
    {
      Sound(lab) && t in admitted && sweep.Valid() && Consistent(admitted)
      && JobInv(lab, Knowledge(), t, sweep.pending)
    }

    ghost predicate Consistent(admitted: set<nat>)
      reads this
    {
      CoreInv(lab, Knowledge(), admitted) && Exact(lab, Knowledge()) && !wallTime && result.None?
    }

    /** Classify the candidate at index `i`, which `left` still held. */
    method Classify(t: nat, i: nat, probe: Probe, branches: Option<seq<Branch>>, ghost left: set<nat>,
                    ghost admitted: set<nat>)
      requires Sound(lab) && t in admitted && Consistent(admitted) && JobInv(lab, Knowledge(), t, left)
      requires i in left && lab.patches[i] in active && (lab.reliable ==> branches.Some?)
      requires probe == lab.trace(t, lab.patches[i]).outcome
      requires branches.Some? ==> branches.value == lab.trace(t, lab.patches[i]).branches
      modifies this
      ensures Consistent(admitted) && JobInv(lab, Knowledge(), t, left - {i})
      ensures Advances(old(Knowledge()), Knowledge(), t)
      ensures Learnt(old(Knowledge()), Knowledge(), t, {lab.patches[i]},
                     if branches.None? then {lab.patches[i]} else {}, {})
      ensures last == Observe(lab.tests(t), lab.poc, probe, branches)
    {
      OpenCore(lab, Knowledge(), admitted);
      ClassifyKeeps(lab, Knowledge(), t, i, branches.Some?, left, admitted);
      ClassifyExact(lab, Knowledge(), t, lab.patches[i], branches.Some?);
      ClassifyLearns(lab, Knowledge(), t, lab.patches[i], branches.Some?);
      TestOne(t, lab.patches[i], probe, branches);
    }

    /** What the journal gets from a stretch of work since `before` that settled
        the indices `gone`. */
    ghost predicate Tells(before: Core, t: nat, notes: seq<Note>, gone: set<nat>, cut: bool)
      reads this
    {
      Noted(lab, before, Knowledge(), t, notes, gone, cut)
    }

    /** An unusable attempt gives no evidence. */
    method Lose(t: nat, i: nat, ghost left: set<nat>, ghost admitted: set<nat>)
      requires Consistent(admitted) && JobInv(lab, Knowledge(), t, left) && i in left && !lab.reliable
      modifies this`lost
      ensures Consistent(admitted) && Advances(old(Knowledge()), Knowledge(), t)
      ensures JobInv(lab, Knowledge(), t, left - {i})
      ensures Learnt(old(Knowledge()), Knowledge(), t, {}, {}, {lab.patches[i]})
    {
      LoseKeeps(lab, Knowledge(), t, i, left, admitted);
      LoseExact(lab, Knowledge(), t, lab.patches[i]);
      LoseLearns(Knowledge(), t, lab.patches[i]);
      lost := lost + {(t, lab.patches[i])};
    }

    /** The uncached path: run the candidate itself, which may not be compiled,
        may be unusable, may lack its vector or may be past the deadline. */
    method TestAlone(t: nat, i: nat, ghost left: set<nat>, ghost admitted: set<nat>)
      returns (timedOut: bool, notes: seq<Note>)
      requires Sound(lab) && t in admitted && Consistent(admitted) && JobInv(lab, Knowledge(), t, left)
      requires i in left && lab.patches[i] in active
      modifies this
      ensures Consistent(admitted) && Advances(old(Knowledge()), Knowledge(), t)
      ensures Tells(old(Knowledge()), t, notes, {i}, timedOut)
      ensures timedOut ==> lab.deadline
      ensures !timedOut ==> JobInv(lab, Knowledge(), t, left - {i})
    {
      NotedTooLate(lab, Knowledge(), t, i);
      var late: bool := *;
      if late && lab.deadline { return true, []; }
      var compiled: bool, usable: bool := *, *;
      if !compiled && !lab.reliable {
        notes := Drop(t, i, Skip({lab.patches[i]}, NoArtifact), left, admitted);
        return false, notes;
      }
      var overran: bool := *;
      if overran && lab.deadline && !lab.feedback { return true, []; }
      if !usable && !lab.reliable {
        notes := Drop(t, i, Attempt(lab.patches[i], {lab.patches[i]}, None, None, AttemptedUnusable), left, admitted);
        return false, notes;
      }
      notes := RunAlone(t, i, left, admitted);
      return false, notes;
    }

    /** Note a candidate of which no execution was seen. */
    method Drop(t: nat, i: nat, note: Note, ghost left: set<nat>, ghost admitted: set<nat>) returns (notes: seq<Note>)
      requires Consistent(admitted) && JobInv(lab, Knowledge(), t, left) && i in left && !lab.reliable
      requires Says(note, WithoutResult) && note.members == {lab.patches[i]} && Truthful(lab, t, note)
      requires note.Attempt? ==> note.representative == lab.patches[i]
      modifies this`lost
      ensures Consistent(admitted) && Advances(old(Knowledge()), Knowledge(), t)
      ensures JobInv(lab, Knowledge(), t, left - {i}) && Tells(old(Knowledge()), t, notes, {i}, false)
    {
      ghost var before := Knowledge();
      Lose(t, i, left, admitted);
      NamedOne(lab.patches, i);
      AccurateOne(before, Knowledge(), t, note);
      NotedOne(lab, before, Knowledge(), t, note, {i});
      return [note];
    }

    /** Note a candidate's own execution, whose vector may be missing. */
    method RunAlone(t: nat, i: nat, ghost left: set<nat>, ghost admitted: set<nat>) returns (notes: seq<Note>)
      requires Sound(lab) && t in admitted && Consistent(admitted) && JobInv(lab, Knowledge(), t, left)
      requires i in left && lab.patches[i] in active
      modifies this
      ensures Consistent(admitted) && Advances(old(Knowledge()), Knowledge(), t)
      ensures JobInv(lab, Knowledge(), t, left - {i}) && Tells(old(Knowledge()), t, notes, {i}, false)
    {
      ghost var before := Knowledge();
      var p := lab.patches[i];
      var tr := lab.trace(t, p);
      var captured: bool := *;
      var branches := if captured || lab.reliable then Some(tr.branches) else None;
      Classify(t, i, tr.outcome, branches, left, admitted);
      var note := Attempt(p, {p}, Some(tr.outcome), branches, last);
      NamedOne(lab.patches, i);
      AccurateOne(before, Knowledge(), t, note);
      NotedOne(lab, before, Knowledge(), t, note, {i});
      return [note];
    }

    /** Whether the pending candidate `q` joins the group of `p`, using and
        extending the first-hit table while it is enabled. */
    method SelectMember(t: nat, p: nat, q: nat, table: Option<Table>) returns (joins: bool, table': Option<Table>)
      requires Sound(lab) && Right(lab, t, table)
      ensures Right(lab, t, table')
      ensures joins ==> lab.trace(t, q) == lab.trace(t, p)
      ensures Reproduces(lab.guess(q), lab.trace(t, p)) ==> joins
    {
      var tr := lab.trace(t, p);
      assert TraceOk(lab, t, p) && TraceOk(lab, t, q) && Faithful(lab.guess(q), lab.choose(q));
      table' := table;
      var first: Option<Branch> := None;
      if tr.branches != [] && table.Some? {
        FirstOfTrace(lab.target(t), lab.choose(p), tr);
        first := if q in table.value then Some(table.value[q]) else lab.guess(q)(tr.states[0]);
        if first.Some? { table' := Some(table.value[q := first.value]); }
      }
      if first.Some? && first.value != tr.branches[0] { return false, table'; }
      var start := if first.Some? then 1 else 0;
      var matches := CachedMatches(lab.guess(q), tr.states, tr.branches, start);
      joins := matches == Some(true);
      if joins {
        MatchedIsSame(lab.target(t), lab.choose(p), lab.choose(q), tr, lab.trace(t, q), lab.guess(q), first);
      }
      if Reproduces(lab.guess(q), tr) { ReproducingMatches(lab.guess(q), tr, start); }
    }

    /** Group the pending candidates with the representative's execution.  The
        indices taken into the group are `joined`; rejected ones are skipped. */
    method GroupPending(t: nat, p: nat, sweep: ConcreteInputSweep, table: Option<Table>, ghost admitted: set<nat>)
      returns (timedOut: bool, table': Option<Table>, joined: set<nat>, notes: seq<Note>)
      requires Ready(t, sweep, admitted) && Right(lab, t, table)
      modifies this, sweep, sweep.bits
      ensures Ready(t, sweep, admitted) && Right(lab, t, table')
      ensures Advances(old(Knowledge()), Knowledge(), t) && sweep.pending <= old(sweep.pending)
      ensures joined <= old(sweep.pending) - sweep.pending && AllLike(t, p, joined)
      ensures Learnt(old(Knowledge()), Knowledge(), t, Named(lab.patches, joined), {}, {})
      ensures Skips(lab, Knowledge(), t, notes, old(sweep.pending) - sweep.pending - joined)
      ensures sweep.cursor == old(sweep.cursor) && (timedOut ==> lab.deadline && !lab.feedback)
      ensures !timedOut ==> forall i :: i in sweep.pending ==> Missed(lab, t, p, i)
    {
      table', joined, notes := table, {}, [];
      var indices := sweep.PendingIndices();
      ghost var all := sweep.pending;
      LearntNothing(Knowledge(), t);
      NoSkips(lab, Knowledge(), t);
      assert Named(lab.patches, {}) == {} && all - sweep.pending - joined == {};
      var k := 0;
      while k < |indices|
        invariant Ready(t, sweep, admitted) && Right(lab, t, table')
        invariant Advances(old(Knowledge()), Knowledge(), t) && sweep.cursor == old(sweep.cursor)
        invariant Grouping(t, p, indices, k, all, sweep.pending, joined)
        invariant GroupTold(lab, old(Knowledge()), Knowledge(), t, notes, all - sweep.pending - joined, joined)
      {
        var late: bool := *;
        if late && lab.deadline && !lab.feedback { return true, table', joined, notes; }
        ghost var before := Knowledge();
        table', joined, notes := GroupNext(t, p, indices, k, sweep, table', joined, notes, old(Knowledge()), all,
                                           admitted);
        AdvancesTransitive(old(Knowledge()), before, Knowledge(), t);
        k := k + 1;
      }
      return false, table', joined, notes;
    }

    /** The candidates at the given indices have the execution of `p`. */
    ghost predicate AllLike(t: nat, p: nat, joined: set<nat>)
    {
      forall j :: j in joined ==> j < |lab.patches| && lab.trace(t, lab.patches[j]) == lab.trace(t, p)
    }

    /** Where the grouping loop stands: the indices from `k` on are untouched, and
        every other one still pending was missed by the group. */
    ghost predicate Grouping(t: nat, p: nat, indices: seq<nat>, k: nat, all: set<nat>, pending: set<nat>,
                             joined: set<nat>)
    {
      && k <= |indices| && pending <= all && joined <= all - pending && AllLike(t, p, joined)
      && (forall i :: i in indices[k..] ==> i in pending)
      && (forall i :: i in pending ==> i in indices[k..] || Missed(lab, t, p, i))
    }

    method GroupNext(t: nat, p: nat, indices: seq<nat>, k: nat, sweep: ConcreteInputSweep, table: Option<Table>,
                     joined: set<nat>, notes: seq<Note>, ghost before: Core, ghost all: set<nat>,
                     ghost admitted: set<nat>)
      returns (table': Option<Table>, joined': set<nat>, notes': seq<Note>)
      requires Ready(t, sweep, admitted) && Right(lab, t, table) && k < |indices| && Increasing(indices)
      requires Grouping(t, p, indices, k, all, sweep.pending, joined)
      requires GroupTold(lab, before, Knowledge(), t, notes, all - sweep.pending - joined, joined)
      modifies this, sweep, sweep.bits
      ensures Ready(t, sweep, admitted) && Right(lab, t, table')
      ensures Advances(old(Knowledge()), Knowledge(), t) && sweep.cursor == old(sweep.cursor)
      ensures Grouping(t, p, indices, k + 1, all, sweep.pending, joined')
      ensures GroupTold(lab, before, Knowledge(), t, notes', all - sweep.pending - joined', joined')
    {
      var i := indices[k];
      assert i in indices[k..];
      ghost var middle, pending := Knowledge(), sweep.pending;
      var fate;
      fate, table' := GroupOne(t, p, i, sweep, table, admitted);
      joined' := if fate.Joined? then joined + {i} else joined;
      notes' := if fate.Skipped? then notes + [Skip({lab.patches[i]}, GlobalReject)] else notes;
      GroupingNext(t, p, indices, k, all, pending, joined, fate);
      ToldNext(lab, before, middle, Knowledge(), t, notes, all, pending, sweep.pending, joined, joined', i, fate);
    }

    lemma GroupingNext(t: nat, p: nat, indices: seq<nat>, k: nat, all: set<nat>, pending: set<nat>, joined: set<nat>,
                       fate: Fate)
      requires k < |indices| && Increasing(indices) && indices[k] < |lab.patches|
      requires Grouping(t, p, indices, k, all, pending, joined) && (fate.Kept? ==> Missed(lab, t, p, indices[k]))
      requires fate.Joined? ==> lab.trace(t, lab.patches[indices[k]]) == lab.trace(t, p)
      ensures Grouping(t, p, indices, k + 1, all, if fate.Kept? then pending else pending - {indices[k]},
                       if fate.Joined? then joined + {indices[k]} else joined)
    {
      var i := indices[k];
      assert indices[k..] == [i] + indices[k + 1..] && i !in indices[k + 1..];
    }

    method GroupOne(t: nat, p: nat, i: nat, sweep: ConcreteInputSweep, table: Option<Table>, ghost admitted: set<nat>)
      returns (fate: Fate, table': Option<Table>)
      requires Ready(t, sweep, admitted) && Right(lab, t, table) && i in sweep.pending
      modifies this, sweep, sweep.bits
      ensures Ready(t, sweep, admitted) && Right(lab, t, table')
      ensures Advances(old(Knowledge()), Knowledge(), t)
      ensures Learnt(old(Knowledge()), Knowledge(), t, if fate.Joined? then {lab.patches[i]} else {}, {}, {})
      ensures sweep.pending == if fate.Kept? then old(sweep.pending) else old(sweep.pending) - {i}
      ensures fate.Kept? ==> Missed(lab, t, p, i)
      ensures fate.Joined? ==> lab.trace(t, lab.patches[i]) == lab.trace(t, p)
      ensures fate.Skipped? ==> lab.patches[i] !in active
      ensures sweep.cursor == old(sweep.cursor)
    {
      table', fate := table, Kept;
      ghost var left := sweep.pending;
      LearntNothing(Knowledge(), t);
      assert Has(sweep.bits[..], i);
      var q := lab.patches[i];
      if q !in active {
        SkipKeeps(lab, Knowledge(), t, i, left);
        sweep.Discard(i);
        return Skipped, table';
      }
      var joins;
      joins, table' := SelectMember(t, p, q, table);
      if joins {
        sweep.Discard(i);
        var tr := lab.trace(t, p);
        Classify(t, i, tr.outcome, Some(tr.branches), left, admitted);
        fate := Joined;
      }
    }

    /** Run one popped representative, cached when possible, and group with it. */
    method ServeRepresentative(t: nat, i: nat, sweep: ConcreteInputSweep, table: Option<Table>, ghost left: set<nat>,
                               ghost admitted: set<nat>)
      returns (timedOut: bool, table': Option<Table>, notes: seq<Note>)
      requires Sound(lab) && t in admitted && Consistent(admitted) && JobInv(lab, Knowledge(), t, left)
      requires i in left && lab.patches[i] in active && sweep.Valid() && sweep.pending == left - {i}
      requires Right(lab, t, table)
      modifies this, sweep, sweep.bits
      ensures Consistent(admitted) && Advances(old(Knowledge()), Knowledge(), t) && Right(lab, t, table')
      ensures sweep.Valid() && sweep.pending <= left - {i}
      ensures Tells(old(Knowledge()), t, notes, left - sweep.pending, timedOut)
      ensures (timedOut ==> lab.deadline) && (!timedOut ==> Ready(t, sweep, admitted))
    {
      if useCache {
        timedOut, table', notes := ServeCached(t, i, sweep, table, left, admitted);
      } else {
        table' := table;
        timedOut, notes := ServeAlone(t, i, sweep, left, admitted);
      }
    }

    /** The popped index, by itself. */
    method ServeAlone(t: nat, i: nat, sweep: ConcreteInputSweep, ghost left: set<nat>, ghost admitted: set<nat>)
      returns (timedOut: bool, notes: seq<Note>)
      requires Sound(lab) && t in admitted && Consistent(admitted) && JobInv(lab, Knowledge(), t, left)
      requires i in left && lab.patches[i] in active && sweep.Valid() && sweep.pending == left - {i}
      modifies this
      ensures Consistent(admitted) && Advances(old(Knowledge()), Knowledge(), t)
      ensures Tells(old(Knowledge()), t, notes, left - sweep.pending, timedOut)
      ensures (timedOut ==> lab.deadline) && (!timedOut ==> Ready(t, sweep, admitted))
    {
      OneGone(left, sweep.pending, i);
      timedOut, notes := TestAlone(t, i, left, admitted);
    }

    lemma TooLate(t: nat, i: nat, left: set<nat>, pending: set<nat>)
      requires i in left && pending == left - {i}
      ensures Tells(Knowledge(), t, [], left - pending, true)
    {
      OneGone(left, pending, i);
      NotedTooLate(lab, Knowledge(), t, i);
    }

    /** A cached run, usable or not. */
    method ServeCached(t: nat, i: nat, sweep: ConcreteInputSweep, table: Option<Table>, ghost left: set<nat>,
                       ghost admitted: set<nat>)
      returns (timedOut: bool, table': Option<Table>, notes: seq<Note>)
      requires Sound(lab) && t in admitted && Consistent(admitted) && JobInv(lab, Knowledge(), t, left)
      requires i in left && lab.patches[i] in active && sweep.Valid() && sweep.pending == left - {i}
      requires Right(lab, t, table)
      modifies this, sweep, sweep.bits
      ensures Consistent(admitted) && Advances(old(Knowledge()), Knowledge(), t) && Right(lab, t, table')
      ensures sweep.Valid() && sweep.pending <= left - {i}
      ensures Tells(old(Knowledge()), t, notes, left - sweep.pending, timedOut)
      ensures (timedOut ==> lab.deadline) && (!timedOut ==> Ready(t, sweep, admitted))
    {
      var p := lab.patches[i];
      var captured: bool, overran: bool := *, *;
      if overran && lab.deadline && !lab.feedback {
        TooLate(t, i, left, sweep.pending);
        return true, table, [];
      }
      var tr := lab.trace(t, p);
      var evaluated := CachedMatches(lab.guess(p), tr.states, tr.branches, 0);
      if !captured || evaluated != Some(true) {
        timedOut, notes := FallBack(t, i, sweep, if captured then Some(tr) else None, left, admitted);
        return timedOut, table, notes;
      }
      RememberRight(lab, t, p, table);
      timedOut, table', notes := RunGroup(t, i, sweep, Remember(table, p, tr.branches), left, admitted);
    }

    /** A cached attempt that cannot be used is noted for nobody, and the
        candidate is run by itself. */
    method FallBack(t: nat, i: nat, sweep: ConcreteInputSweep, capture: Option<Trace<Snapshot, Probe>>,
                    ghost left: set<nat>, ghost admitted: set<nat>)
      returns (timedOut: bool, notes: seq<Note>)
      requires Sound(lab) && t in admitted && Consistent(admitted) && JobInv(lab, Knowledge(), t, left)
      requires i in left && lab.patches[i] in active && sweep.Valid() && sweep.pending == left - {i}
      modifies this
      ensures Consistent(admitted) && Advances(old(Knowledge()), Knowledge(), t)
      ensures Tells(old(Knowledge()), t, notes, left - sweep.pending, timedOut)
      ensures (timedOut ==> lab.deadline) && (!timedOut ==> Ready(t, sweep, admitted))
    {
      ghost var before := Knowledge();
      timedOut, notes := ServeAlone(t, i, sweep, left, admitted);
      var failed := match capture
                    case None => Attempt(lab.patches[i], {}, None, None, AttemptedUnusable)
                    case Some(tr) => Attempt(lab.patches[i], {}, Some(tr.outcome), Some(tr.branches),
                                             AttemptedUnusable);
      NotedFailure(lab, before, Knowledge(), t, failed, notes, left - sweep.pending, timedOut);
      notes := [failed] + notes;
    }

    /** Classify the representative and its group by one captured execution. */
    method RunGroup(t: nat, i: nat, sweep: ConcreteInputSweep, table: Option<Table>, ghost left: set<nat>,
                    ghost admitted: set<nat>)
      returns (timedOut: bool, table': Option<Table>, notes: seq<Note>)
      requires Sound(lab) && t in admitted && Consistent(admitted) && JobInv(lab, Knowledge(), t, left)
      requires i in left && lab.patches[i] in active && sweep.Valid() && sweep.pending == left - {i}
      requires Right(lab, t, table)
      modifies this, sweep, sweep.bits
      ensures Ready(t, sweep, admitted) && Advances(old(Knowledge()), Knowledge(), t) && Right(lab, t, table')
      ensures sweep.pending <= left - {i} && (timedOut ==> lab.deadline)
      ensures Tells(old(Knowledge()), t, notes, left - sweep.pending, timedOut)
    {
      var p := lab.patches[i];
      var tr := lab.trace(t, p);
      ghost var before := Knowledge();
      Classify(t, i, tr.outcome, Some(tr.branches), left, admitted);
      var observation := last;
      ghost var middle := Knowledge();
      var joined;
      timedOut, table', joined, notes := GroupPending(t, p, sweep, table, admitted);
      AdvancesTransitive(before, middle, Knowledge(), t);
      var group := Attempt(p, Named(lab.patches, joined + {i}), Some(tr.outcome), Some(tr.branches), observation);
      GroupSettled(before, middle, Knowledge(), t, i, group, notes, joined, left, sweep.pending, timedOut);
      if !timedOut { notes := notes + [group]; }
    }

    lemma GroupSettled(a: Core, b: Core, c: Core, t: nat, i: nat, group: Note, notes: seq<Note>, joined: set<nat>,
                       left: set<nat>, pending: set<nat>, cut: bool)
      requires Distinct(lab.patches) && i in left && i < |lab.patches|
      requires pending <= left - {i} && joined <= left - {i} - pending
      requires Learnt(a, b, t, {lab.patches[i]}, {}, {}) && Learnt(b, c, t, Named(lab.patches, joined), {}, {})
      requires Skips(lab, c, t, notes, left - {i} - pending - joined)
      requires var tr := lab.trace(t, lab.patches[i]);
               && group.Attempt?
               && group == Attempt(lab.patches[i], Named(lab.patches, joined + {i}), Some(tr.outcome),
                                   Some(tr.branches), group.observation)
               && group.observation == Observe(lab.tests(t), lab.poc, tr.outcome, Some(tr.branches))
      requires AllLike(t, lab.patches[i], joined)
      requires cut ==> !lab.feedback
      ensures Noted(lab, a, c, t, if cut then notes else notes + [group], left - pending, cut)
    {
      NamedOne(lab.patches, i);
      NamedUnion(lab.patches, joined, {i});
      LearntMore(a, b, c, t, {lab.patches[i]}, {}, {}, Named(lab.patches, joined), {}, {});
      assert {lab.patches[i]} + Named(lab.patches, joined) == group.members;
      var skipped, taken := left - {i} - pending - joined, joined + {i};
      assert skipped + taken == left - pending;
      if cut {
        GroupCut(lab, a, c, t, notes, skipped, left - pending);
      } else {
        GroupNoted(lab, a, c, t, notes, group, skipped, taken);
      }
    }

    /** One turn of one input: pop representatives until the quantum ends.  The
        sweep strictly shrinks, and unless the deadline cuts the turn the input
        has tried everything it no longer holds. */
    method Quantum(t: nat, sweep: ConcreteInputSweep, ghost admitted: set<nat>)
      returns (timedOut: bool, notes: seq<Note>)
      requires Ready(t, sweep, admitted) && sweep.remaining > 0
      modifies this, sweep, sweep.bits
      ensures Consistent(admitted) && Advances(old(Knowledge()), Knowledge(), t) && sweep.Valid()
      ensures sweep.pending <= old(sweep.pending)
      ensures Tells(old(Knowledge()), t, notes, old(sweep.pending) - sweep.pending, timedOut)
      ensures timedOut ==> lab.deadline
      ensures !timedOut ==> Ready(t, sweep, admitted) && sweep.pending < old(sweep.pending)
    {
      ghost var start, all := Knowledge(), sweep.pending;
      var table: Option<Table> := Some(map[]);
      var worked := false;
      notes := [];
      NotedNothing(lab, start, t);
      assert all - sweep.pending == {};
      while sweep.remaining > 0
        invariant Ready(t, sweep, admitted) && Right(lab, t, table)
        invariant Advances(start, Knowledge(), t)
        invariant sweep.pending <= all && (worked ==> sweep.pending < all)
        invariant Tells(start, t, notes, all - sweep.pending, false)
        decreases sweep.remaining
      {
        var late: bool := *;
        if late && lab.deadline {
          NotedThenCut(lab, start, Knowledge(), t, notes, all - sweep.pending);
          return true, notes;
        }
        var expired: bool := *;
        if worked && expired { break; }
        ghost var left, before := sweep.pending, Knowledge();
        var more;
        timedOut, worked, table, more := NextRepresentative(t, sweep, table, worked, admitted);
        AdvancesTransitive(start, before, Knowledge(), t);
        assert all - sweep.pending == (all - left) + (left - sweep.pending);
        NotedConcat(lab, start, before, Knowledge(), t, notes, more, all - left, left - sweep.pending,
                    all - sweep.pending, timedOut);
        notes := notes + more;
        if timedOut { return true, notes; }
      }
      return false, notes;
    }

    /** Pop the least pending index and serve it, unless it was rejected. */
    method NextRepresentative(t: nat, sweep: ConcreteInputSweep, table: Option<Table>, worked: bool,
                              ghost admitted: set<nat>)
      returns (timedOut: bool, worked': bool, table': Option<Table>, notes: seq<Note>)
      requires Ready(t, sweep, admitted) && Right(lab, t, table) && sweep.remaining > 0
      modifies this, sweep, sweep.bits
      ensures Consistent(admitted) && Advances(old(Knowledge()), Knowledge(), t) && Right(lab, t, table')
      ensures sweep.Valid() && sweep.pending < old(sweep.pending) && sweep.remaining < old(sweep.remaining)
      ensures Tells(old(Knowledge()), t, notes, old(sweep.pending) - sweep.pending, timedOut)
      ensures (timedOut ==> lab.deadline) && (!timedOut ==> Ready(t, sweep, admitted))
    {
      ghost var left := sweep.pending;
      var i := sweep.Pop();
      if lab.patches[i] !in active {
        SkipKeeps(lab, Knowledge(), t, i, left);
        SkipTold(lab, Knowledge(), t, i, left, sweep.pending);
        return false, worked, table, [Skip({lab.patches[i]}, GlobalReject)];
      }
      worked' := true;
      timedOut, table', notes := ServeRepresentative(t, i, sweep, table, left, admitted);
      SmallerSet(sweep.pending, left - {i});
    }

    // ----- the end of a run -----

    /** Give every candidate that is still active its verdict. */
    method LogRemaining()
      requires Distinct(lab.patches) && VerdictsInv(lab, Knowledge())
      modifies this`verdicts
      ensures verdicts == Conclude(lab, old(Knowledge()))
    {
      ghost var c := Knowledge();
      for i := 0 to |lab.patches|
        invariant verdicts == ConcludeTo(lab, c, i)
      {
        var p := lab.patches[i];
        ConcludedKeys(lab, c, i);
        if p in active {
          var ok := LogResult(p, if p in security then RejectedOn(None) else Verified);
          assert ok;
        }
      }
      ConcludedAll(lab, c);
    }

    /** Serialize one record per candidate, with the stop reason known by now;
        verdicts that do not cover exactly the candidates are refused. */
    method WriteResults() returns (ok: bool, records: seq<PatchRecord>)
      modifies this`result
      ensures ok <==> forall p :: p in verdicts <==> p in lab.patches
      ensures ok ==> records == RecordsOf(lab, Knowledge(), verdicts) && result == Some(MakeArtifact(records, wallTime))
      ensures !ok ==> result == old(result)
    {
      records, ok := [], verdicts.Keys == Elements(lab.patches);
      assert ok <==> forall p :: p in verdicts <==> p in lab.patches;
      if !ok { return; }
      for i := 0 to |lab.patches|
        invariant |records| == i && result == old(result)
        invariant forall k :: 0 <= k < i ==> records[k] == RecordOf(lab, Knowledge(), verdicts, lab.patches[k])
      {
        var p := lab.patches[i];
        assert p in lab.patches;
        records := records + [MakePatchRecord(
          p, verdicts[p].Verified? && p !in security,
          if p in accepted then accepted[p] else 0, if p in total then total[p] else 0,
          RowOf(counts, p), verdicts[p].Input(), lab.feedback, lab.feedback && p !in hard, p in security)];
      }
      result := Some(MakeArtifact(records, wallTime));
    }

    /** The budget has run out: recorded once, and results that are complete
        already are written again with that reason. */
    method MarkWallTimeReached()
      modifies this`wallTime, this`result
      ensures wallTime
      ensures result == if !old(wallTime) && Covers(lab, verdicts)
                          then Some(MakeArtifact(RecordsOf(lab, Knowledge(), verdicts), true)) else old(result)
    {
      if wallTime { return; }
      wallTime := true;
      assert Covers(lab, verdicts) <==> verdicts.Keys == Elements(lab.patches);
      if verdicts.Keys == Elements(lab.patches) { var _, _ := WriteResults(); }
    }
  }

  ghost predicate Covers(lab: Lab, verdicts: map<nat, Decision>) { forall p :: p in verdicts <==> p in lab.patches }

  /** Classification, up to the rejection it calls for. */
  lemma OneStep(lab: Lab, c: Core, c': Core, t: nat, p: nat, branches: Option<seq<Branch>>, o: Observation,
                rejected: bool)
    requires (t, p) !in c.blind && (branches.Some? ==> branches.value == lab.trace(t, p).branches)
    requires o == Observe(lab.tests(t), lab.poc, lab.trace(t, p).outcome, branches)
    requires rejected == Rejects(o, lab.feedback)
    requires c' == MakeCore(Tally(c.ledger, p, o), c.verdicts, c.active, c.done + {(t, p)},
                            if branches.None? then c.blind + {(t, p)} else c.blind, c.lost)
    ensures ClassifyOne(lab, c, t, p, branches.Some?) == if rejected then Reject(c', p, t) else c'
  {
    assert Earns(lab, c'.blind, t, p) == o;
  }

  // ----- steps of the journal -----

  lemma ClassifyLearns(lab: Lab, c: Core, t: nat, p: nat, seen: bool)
    ensures Learnt(c, ClassifyOne(lab, c, t, p, seen), t, {p}, if seen then {} else {p}, {})
  {
    ClassifyFields(lab, c, t, p, seen);
    assert Tagged(t, {p}) == {(t, p)} && Tagged(t, {}) == {};
  }

  lemma LoseLearns(c: Core, t: nat, p: nat)
    ensures Learnt(c, LoseOne(c, t, p), t, {}, {}, {p})
  {
    assert Tagged(t, {p}) == {(t, p)} && Tagged(t, {}) == {};
  }

  lemma LearntNothing(c: Core, t: nat)
    ensures Learnt(c, c, t, {}, {}, {})
  {
  }

  /** What was learnt and noted so far around a group not noted yet. */
  ghost predicate GroupTold(lab: Lab, a: Core, c: Core, t: nat, notes: seq<Note>, gone: set<nat>, joined: set<nat>)
  {
    Learnt(a, c, t, Named(lab.patches, joined), {}, {}) && Skips(lab, c, t, notes, gone)
  }

  /** One more index looked at by the grouping loop. */
  lemma ToldNext(lab: Lab, a: Core, b: Core, c: Core, t: nat, notes: seq<Note>, all: set<nat>, pending: set<nat>,
                 rest: set<nat>, joined: set<nat>, taken: set<nat>, i: nat, fate: Fate)
    requires Distinct(lab.patches) && i < |lab.patches| && i in pending && pending <= all && c.active <= b.active
    requires GroupTold(lab, a, b, t, notes, all - pending - joined, joined) && joined <= all - pending
    requires Learnt(b, c, t, if fate.Joined? then {lab.patches[i]} else {}, {}, {})
    requires fate.Skipped? ==> lab.patches[i] !in c.active
    requires rest == (if fate.Kept? then pending else pending - {i})
             && taken == if fate.Joined? then joined + {i} else joined
    ensures GroupTold(lab, a, c, t, if fate.Skipped? then notes + [Skip({lab.patches[i]}, GlobalReject)] else notes,
                      all - rest - taken, taken)
  {
    var gone := all - pending - joined;
    var ran: set<nat> := if fate.Joined? then {lab.patches[i]} else {};
    LearntMore(a, b, c, t, Named(lab.patches, joined), {}, {}, ran, {}, {});
    NamedOne(lab.patches, i);
    NamedUnion(lab.patches, joined, {i});
    assert Named(lab.patches, taken) == Named(lab.patches, joined) + ran;
    SkipsLater(lab, b, c, t, notes, gone);
    if fate.Skipped? { SkipsMore(lab, c, t, notes, gone, i); }
    assert all - rest - taken == if fate.Skipped? then gone + {i} else gone;
  }

  lemma SkipTold(lab: Lab, c: Core, t: nat, i: nat, left: set<nat>, pending: set<nat>)
    requires i in left && pending == left - {i} && i < |lab.patches| && lab.patches[i] !in c.active
    ensures Noted(lab, c, c, t, [Skip({lab.patches[i]}, GlobalReject)], left - pending, false)
  {
    NamedOne(lab.patches, i);
    NotedSkip(lab, c, t, {i});
    OneGone(left, pending, i);
  }

  // ----- the final verdicts and records -----

  /** The verdicts once the first `k` candidates were looked at. */
  function ConcludeTo(lab: Lab, c: Core, k: nat): map<nat, Decision>
    requires k <= |lab.patches|
  {
    if k == 0 then c.verdicts
    else
      var p, before := lab.patches[k - 1], ConcludeTo(lab, c, k - 1);
      if p in c.active then before[p := if p in c.ledger.security then RejectedOn(None) else Verified] else before
  }

  lemma {:induction false} ConcludedKeys(lab: Lab, c: Core, k: nat)
    requires k <= |lab.patches|
    ensures forall p :: p in ConcludeTo(lab, c, k) <==> p in c.verdicts || (p in c.active && p in lab.patches[..k])
    decreases k
  {
    if k > 0 {
      ConcludedKeys(lab, c, k - 1);
      assert lab.patches[..k] == lab.patches[..k - 1] + [lab.patches[k - 1]];
    }
  }

  lemma {:induction false} ConcludedValue(lab: Lab, c: Core, k: nat, p: nat)
    requires VerdictsInv(lab, c) && k <= |lab.patches| && p in ConcludeTo(lab, c, k)
    ensures p in Conclude(lab, c) && ConcludeTo(lab, c, k)[p] == Conclude(lab, c)[p]
    decreases k
  {
    if k > 0 && !(lab.patches[k - 1] == p && p in c.active) { ConcludedValue(lab, c, k - 1, p); }
  }

  lemma ConcludedAll(lab: Lab, c: Core)
    requires VerdictsInv(lab, c)
    ensures ConcludeTo(lab, c, |lab.patches|) == Conclude(lab, c)
  {
    var n := |lab.patches|;
    ConcludedKeys(lab, c, n);
    assert lab.patches[..n] == lab.patches;
    forall p | p in ConcludeTo(lab, c, n)
      ensures p in Conclude(lab, c) && ConcludeTo(lab, c, n)[p] == Conclude(lab, c)[p]
    {
      ConcludedValue(lab, c, n, p);
    }
  }

  /** What is written about one candidate. */
  datatype PatchRecord = MakePatchRecord(
    patch: nat, verified: bool, acceptEvidences: nat, totalEvidences: nat,
    observations: map<Observation, nat>, testcase: Option<nat>,
    hasFeedback: bool, feedbackAccepted: bool, securityRejected: bool)

  function RecordOf(lab: Lab, c: Core, verdicts: map<nat, Decision>, p: nat): PatchRecord
  {
    MakePatchRecord(p, IsVerified(c, verdicts, p), Get(c.ledger.accepted, p), Get(c.ledger.total, p),
                    RowOf(c.ledger.counts, p), if p in verdicts then verdicts[p].Input() else None,
                    lab.feedback, lab.feedback && p !in c.ledger.hard, p in c.ledger.security)
  }

  function RecordsOf(lab: Lab, c: Core, verdicts: map<nat, Decision>): (r: seq<PatchRecord>)
    ensures |r| == |lab.patches|
  {
    seq(|lab.patches|, i requires 0 <= i < |lab.patches| => RecordOf(lab, c, verdicts, lab.patches[i]))
  }

  /** The result file: its records, and whether the budget ran out. */
  datatype Artifact = MakeArtifact(records: seq<PatchRecord>, wallTime: bool)

  /** Every record, of a complete run or a cut one, follows from its
      candidate's counts: a testcase is named exactly when the candidate was
      rejected on the way, and it is the one that did it. */
  lemma RecordsFollowCounts(lab: Lab, c: Core, admitted: set<nat>, p: nat)
    requires Sound(lab) && CoreInv(lab, c, admitted) && p in lab.patches
    ensures var r := RecordOf(lab, c, Conclude(lab, c), p);
            var feedbackHard := CountOf(c.ledger, p, PatchCrashed) + CountOf(c.ledger, p, NoCrashFail);
            var hard := feedbackHard + CountOf(c.ledger, p, CrashFail);
            && r.patch == p && r.hasFeedback == lab.feedback
            && Get(r.observations, Unobserved) == Get(r.observations, AttemptedUnusable) == 0
            && (r.verified <==> hard == 0) && (r.securityRejected <==> hard > 0)
            && (r.feedbackAccepted <==> lab.feedback && feedbackHard == 0)
            && (r.testcase.Some? <==> (if lab.feedback then feedbackHard else hard) > 0)
            && (r.testcase.Some? ==> RejectedAt(lab, c, admitted, p, r.testcase.value))
            && r.totalEvidences == Evidential(c.ledger, p)
            && r.acceptEvidences == CountOf(c.ledger, p, CrashPass) + CountOf(c.ledger, p, NoCrashSameBranch)
  {
    OpenCore(lab, c, admitted);
    VerdictsAreCounted(lab, c, admitted, p);
    assert Balanced(c.ledger, p);
    assert CountOf(c.ledger, p, Unobserved) == CountOf(c.ledger, p, AttemptedUnusable) == 0;
    if p in c.verdicts { RejectedOnce(lab, c, admitted, p); }
  }

  /** The observation counts of a record are the numbers of admitted inputs on
      which each thing was seen to happen. */
  lemma RecordCounts(lab: Lab, c: Core, admitted: set<nat>, p: nat, o: Observation)
    requires CoreInv(lab, c, admitted) && Exact(lab, c) && IsCounted(o)
    ensures Get(RecordOf(lab, c, Conclude(lab, c), p).observations, o) == |Seen(lab, c, admitted, p, o)|
  {
    CountsAreSeen(lab, c, admitted, p, o);
  }

  lemma OneGone(left: set<nat>, pending: set<nat>, i: nat)
    requires i in left && pending == left - {i}
    ensures left - pending == {i}
  {
  }

  lemma SmallerSet(a: set<nat>, b: set<nat>)
    requires a <= b
    ensures |a| <= |b|
  {
    assert b == a + (b - a);
  }
}
