/** The journal of a whole run: the notes on every admitted input, and what they
    say about the verifier's knowledge while inputs are queued and served. */
module RunJournal {
  import opened Sequences
  import opened Options
  import opened Sweep
  import opened Verdicts
  import opened Journal
  import opened Schedule

  // ----- one input -----

  /** The notes on input `t`, which still has `left` to try: nobody is noted
      twice or too early, and every note is true. */
  ghost predicate Recorded(lab: Lab, t: nat, notes: seq<Note>, left: set<nat>)
  {
    Fits(lab.patches, notes, UpTo(|lab.patches|) - left) && AllTruthful(lab, t, notes)
  }

  /** Everybody but the candidates at `left` is noted. */
  ghost predicate NotedBut(lab: Lab, notes: seq<Note>, left: set<nat>)
  {
    Covered(lab.patches, notes, UpTo(|lab.patches|) - left)
  }

  lemma RecordedLess(lab: Lab, t: nat, notes: seq<Note>, left: set<nat>, less: set<nat>)
    requires Recorded(lab, t, notes, left) && less <= left
    ensures Recorded(lab, t, notes, less)
  {
    NamedGrows(lab.patches, UpTo(|lab.patches|) - left, UpTo(|lab.patches|) - less);
  }

  /** A stretch of work on `t` that leaves `after` of `left`. */
  lemma RecordedMore(lab: Lab, c: Core, c': Core, t: nat, notes: seq<Note>, more: seq<Note>, left: set<nat>,
                     after: set<nat>, cut: bool)
    requires Distinct(lab.patches) && Recorded(lab, t, notes, left) && NotedBut(lab, notes, left)
    requires Noted(lab, c, c', t, more, left - after, cut) && after <= left <= UpTo(|lab.patches|)
    ensures Recorded(lab, t, notes + more, after) && (!cut ==> NotedBut(lab, notes + more, after))
  {
    var all := UpTo(|lab.patches|);
    assert (all - left) + (left - after) == all - after;
    OpenNotes(lab, c, c', t, more, left - after, cut);
    FitsConcat(lab.patches, notes, more, all - left, left - after);
    TruthfulConcat(lab, t, notes, more);
    if !cut { CoveredConcat(lab.patches, notes, more, all - left, left - after); }
  }

  // ----- all inputs -----

  ghost predicate AllRecorded(lab: Lab, journal: seq<seq<Note>>)
  {
    forall t :: 0 <= t < |journal| ==> Recorded(lab, t, journal[t], {})
  }

  /** Of a queued input exactly what it no longer has left is noted, and nothing
      if it was never started. */
  ghost predicate QueueRecorded(lab: Lab, journal: seq<seq<Note>>, jobs: seq<Job>)
  {
    forall k :: 0 <= k < |jobs| ==> JobRecorded(lab, journal, jobs[k])
  }

  ghost predicate JobRecorded(lab: Lab, journal: seq<seq<Note>>, j: Job)
  {
    && j.input < |journal| && Recorded(lab, j.input, journal[j.input], LeftOf(lab, j))
    && NotedBut(lab, journal[j.input], LeftOf(lab, j)) && (j.left.None? ==> journal[j.input] == [])
  }

  /** Of an input neither queued nor in flight every candidate is noted. */
  ghost predicate RestComplete(lab: Lab, journal: seq<seq<Note>>, jobs: seq<Job>, flying: set<nat>)
  {
    forall t: nat :: t < |journal| && t !in flying && !Queued(jobs, t) ==> NotedBut(lab, journal[t], {})
  }

  ghost function Pairs(kind: Kind, journal: seq<seq<Note>>): set<(nat, nat)>
  {
    set t: nat, q: nat | t < |journal| && q in Those(kind, journal[t]) :: (t, q)
  }

  /** The notes are the verifier's knowledge: the pairs noted with an execution
      are those classified, the ones without a vector are the blind ones, those
      noted without a result are lost, and a candidate skipped as rejected is. */
  ghost predicate Matches(c: Core, journal: seq<seq<Note>>)
  {
    && c.done == Pairs(Executed, journal) && c.blind == Pairs(WithoutVector, journal)
    && c.lost == Pairs(WithoutResult, journal)
    && forall t :: 0 <= t < |journal| ==> Those(Refused, journal[t]) !! c.active
  }

  lemma PairsAt(kind: Kind, journal: seq<seq<Note>>, t: nat, notes: seq<Note>)
    requires t < |journal|
    ensures Pairs(kind, journal[t := journal[t] + notes]) == Pairs(kind, journal) + Tagged(t, Those(kind, notes))
  {
    ThoseConcat(kind, journal[t], notes);
  }

  lemma PairsSnoc(kind: Kind, journal: seq<seq<Note>>)
    ensures Pairs(kind, journal + [[]]) == Pairs(kind, journal)
  {
  }

  lemma MatchesAt(c: Core, c': Core, journal: seq<seq<Note>>, t: nat, notes: seq<Note>)
    requires Matches(c, journal) && t < |journal| && Accurate(c, c', t, notes) && c'.active <= c.active
    ensures Matches(c', journal[t := journal[t] + notes])
  {
    PairsAt(Executed, journal, t, notes);
    PairsAt(WithoutVector, journal, t, notes);
    PairsAt(WithoutResult, journal, t, notes);
    ThoseConcat(Refused, journal[t], notes);
  }

  lemma MatchesSnoc(c: Core, journal: seq<seq<Note>>)
    requires Matches(c, journal)
    ensures Matches(c, journal + [[]])
  {
    PairsSnoc(Executed, journal);
    PairsSnoc(WithoutVector, journal);
    PairsSnoc(WithoutResult, journal);
  }

  /** The parts of what is always true of a run's journal. */
  datatype JournalPart = TheNotes | TheQueued | TheOthers | TheFacts

  ghost predicate JournalHolds(part: JournalPart, lab: Lab, c: Core, journal: seq<seq<Note>>, jobs: seq<Job>,
                               flying: set<nat>)
  {
    match part
    case TheNotes => AllRecorded(lab, journal)
    case TheQueued => QueueRecorded(lab, journal, jobs)
    case TheOthers => RestComplete(lab, journal, jobs, flying)
    case TheFacts => Matches(c, journal)
  }

  /** The journal while the given inputs are in flight. */
  ghost predicate KeptBut(lab: Lab, c: Core, journal: seq<seq<Note>>, jobs: seq<Job>, flying: set<nat>)
  {
    forall part: JournalPart :: JournalHolds(part, lab, c, journal, jobs, flying)
  }

  lemma OpenKept(lab: Lab, c: Core, journal: seq<seq<Note>>, jobs: seq<Job>, flying: set<nat>)
    ensures KeptBut(lab, c, journal, jobs, flying) <==>
            && AllRecorded(lab, journal) && QueueRecorded(lab, journal, jobs)
            && RestComplete(lab, journal, jobs, flying) && Matches(c, journal)
  {
    if KeptBut(lab, c, journal, jobs, flying) {
      assert JournalHolds(TheNotes, lab, c, journal, jobs, flying)
          && JournalHolds(TheQueued, lab, c, journal, jobs, flying);
      assert JournalHolds(TheOthers, lab, c, journal, jobs, flying)
          && JournalHolds(TheFacts, lab, c, journal, jobs, flying);
    }
  }

  lemma KeptNothing(lab: Lab, c: Core)
    requires c.done == {} && c.blind == {} && c.lost == {}
    ensures KeptBut(lab, c, [], [], {})
  {
    OpenKept(lab, c, [], [], {});
  }

  // ----- admission -----

  /** A fresh input has an empty page. */
  lemma FreshRecorded(lab: Lab, t: nat)
    ensures Recorded(lab, t, [], UpTo(|lab.patches|)) && Recorded(lab, t, [], {})
    ensures NotedBut(lab, [], UpTo(|lab.patches|))
  {
  }

  lemma KeptAdmits(lab: Lab, c: Core, journal: seq<seq<Note>>, jobs: seq<Job>, j: Job)
    requires KeptBut(lab, c, journal, jobs, {}) && j.input == |journal| && j.left.None?
    ensures KeptBut(lab, c, journal + [[]], jobs + [j], {})
  {
    var longer := journal + [[]];
    OpenKept(lab, c, journal, jobs, {});
    OpenKept(lab, c, longer, jobs + [j], {});
    MatchesSnoc(c, journal);
    FreshRecorded(lab, |journal|);
    assert longer[|journal|] == [];
    assert forall t :: 0 <= t < |journal| ==> longer[t] == journal[t];
    forall k | 0 <= k < |jobs|
      ensures JobRecorded(lab, longer, jobs[k])
    {
      assert JobRecorded(lab, journal, jobs[k]);
    }
    forall t: nat | t < |longer| && !Queued(jobs + [j], t)
      ensures NotedBut(lab, longer[t], {})
    {
      QueuedSnoc(jobs, j, t);
    }
  }

  // ----- a turn -----

  /** The page of the input in flight. */
  ghost predicate PageOf(lab: Lab, journal: seq<seq<Note>>, t: nat, left: set<nat>)
  {
    t < |journal| && Recorded(lab, t, journal[t], left) && NotedBut(lab, journal[t], left)
  }

  lemma KeptTakes(lab: Lab, c: Core, journal: seq<seq<Note>>, jobs: seq<Job>, k: nat)
    requires KeptBut(lab, c, journal, jobs, {}) && k < |jobs| && Proper(jobs)
    ensures KeptBut(lab, c, journal, Without(jobs, k), {jobs[k].input})
    ensures PageOf(lab, journal, jobs[k].input, LeftOf(lab, jobs[k]))
  {
    var t := jobs[k].input;
    OpenKept(lab, c, journal, jobs, {});
    OpenKept(lab, c, journal, Without(jobs, k), {t});
    assert JobRecorded(lab, journal, jobs[k]);
    forall u: nat | u < |journal| && u != t && !Queued(Without(jobs, k), u)
      ensures NotedBut(lab, journal[u], {})
    {
      QueuedWithout(jobs, k, u);
    }
  }

  /** Writing about an input that is not queued leaves the queue's pages alone. */
  lemma QueueRecordedAt(lab: Lab, journal: seq<seq<Note>>, jobs: seq<Job>, t: nat, notes: seq<Note>)
    requires QueueRecorded(lab, journal, jobs) && t < |journal| && !Queued(jobs, t)
    ensures QueueRecorded(lab, journal[t := notes], jobs)
  {
    forall k | 0 <= k < |jobs|
      ensures JobRecorded(lab, journal[t := notes], jobs[k])
    {
      assert jobs[k].input != t && JobRecorded(lab, journal, jobs[k]);
    }
  }

  lemma AllRecordedAt(lab: Lab, journal: seq<seq<Note>>, t: nat, notes: seq<Note>)
    requires AllRecorded(lab, journal) && t < |journal| && Recorded(lab, t, notes, {})
    ensures AllRecorded(lab, journal[t := notes])
  {
  }

  /** What the end of a turn the deadline cut leaves of the journal. */
  ghost predicate CutShort(lab: Lab, c: Core, journal: seq<seq<Note>>)
  {
    AllRecorded(lab, journal) && (lab.feedback ==> Matches(c, journal))
  }

  /** A stretch of work on the input in flight is written down. */
  lemma KeptWrites(lab: Lab, c: Core, c': Core, journal: seq<seq<Note>>, jobs: seq<Job>, t: nat, more: seq<Note>,
                   left: set<nat>, after: set<nat>, cut: bool)
    requires Distinct(lab.patches) && KeptBut(lab, c, journal, jobs, {t}) && PageOf(lab, journal, t, left)
    requires Noted(lab, c, c', t, more, left - after, cut) && after <= left <= UpTo(|lab.patches|)
    requires c'.active <= c.active && !Queued(jobs, t)
    ensures var written := journal[t := journal[t] + more];
            if cut then CutShort(lab, c', written)
            else KeptBut(lab, c', written, jobs, {t}) && PageOf(lab, written, t, after)
  {
    var written := journal[t := journal[t] + more];
    OpenKept(lab, c, journal, jobs, {t});
    OpenKept(lab, c', written, jobs, {t});
    OpenNotes(lab, c, c', t, more, left - after, cut);
    RecordedMore(lab, c, c', t, journal[t], more, left, after, cut);
    RecordedLess(lab, t, journal[t] + more, after, {});
    AllRecordedAt(lab, journal, t, journal[t] + more);
    QueueRecordedAt(lab, journal, jobs, t, journal[t] + more);
    if !cut || lab.feedback { MatchesAt(c, c', journal, t, more); }
  }

  /** The input goes back to the queue, or everybody is noted. */
  lemma KeptLands(lab: Lab, q: Queue, core: Core, journal: seq<seq<Note>>, j: Job, left: set<nat>)
    requires KeptBut(lab, core, journal, q.jobs, {j.input}) && j.input < |q.served|
    requires PageOf(lab, journal, j.input, if core.active == {} then {} else left)
    ensures KeptBut(lab, core, journal, Land(q, core, j, left).jobs, {})
  {
    OpenKept(lab, core, journal, q.jobs, {j.input});
    OpenKept(lab, core, journal, Land(q, core, j, left).jobs, {});
    if !(core.active == {} || left == {}) {
      forall u: nat | u < |journal| && !Queued(q.jobs + [Later(j, left)], u)
        ensures NotedBut(lab, journal[u], {})
      {
        QueuedSnoc(q.jobs, Later(j, left), u);
      }
    }
  }

  // ----- the end -----

  ghost predicate AllComplete(lab: Lab, journal: seq<seq<Note>>)
  {
    forall t :: 0 <= t < |journal| ==> NotedBut(lab, journal[t], {})
  }

  /** With an empty queue everybody is noted for every input. */
  lemma EmptyQueueIsNoted(lab: Lab, c: Core, journal: seq<seq<Note>>)
    requires KeptBut(lab, c, journal, [], {})
    ensures AllRecorded(lab, journal) && AllComplete(lab, journal) && Matches(c, journal)
  {
    OpenKept(lab, c, journal, [], {});
    assert forall t :: !Queued([], t);
  }

  /** Every input not in the queue was never started, or everybody is noted. */
  ghost predicate RestClosed(lab: Lab, journal: seq<seq<Note>>, jobs: seq<Job>)
  {
    forall t: nat :: t < |journal| && !Queued(jobs, t) ==> journal[t] == [] || NotedBut(lab, journal[t], {})
  }

  ghost predicate AllClosed(lab: Lab, journal: seq<seq<Note>>)
  {
    forall t :: 0 <= t < |journal| ==> journal[t] == [] || NotedBut(lab, journal[t], {})
  }

  /** Where the closing of the journal stands: the jobs are what is left of it. */
  ghost predicate Closing(lab: Lab, c: Core, journal: seq<seq<Note>>, jobs: seq<Job>)
  {
    && AllRecorded(lab, journal) && QueueRecorded(lab, journal, jobs) && RestClosed(lab, journal, jobs)
    && Matches(c, journal)
  }

  lemma StartClosing(lab: Lab, c: Core, journal: seq<seq<Note>>, jobs: seq<Job>)
    requires KeptBut(lab, c, journal, jobs, {})
    ensures Closing(lab, c, journal, jobs)
  {
    OpenKept(lab, c, journal, jobs, {});
  }

  lemma QueuedHead(jobs: seq<Job>, t: nat)
    requires jobs != []
    ensures Queued(jobs, t) <==> jobs[0].input == t || Queued(jobs[1..], t)
  {
    if Queued(jobs, t) && jobs[0].input != t {
      var k :| 0 <= k < |jobs| && jobs[k].input == t;
      assert jobs[1..][k - 1] == jobs[k];
    }
  }

  /** A queued input that was never started stays blank. */
  lemma CloseFresh(lab: Lab, c: Core, journal: seq<seq<Note>>, jobs: seq<Job>)
    requires Closing(lab, c, journal, jobs) && jobs != [] && jobs[0].left.None?
    ensures Closing(lab, c, journal, jobs[1..])
  {
    assert JobRecorded(lab, journal, jobs[0]);
    forall t: nat | t < |journal| && !Queued(jobs[1..], t)
      ensures journal[t] == [] || NotedBut(lab, journal[t], {})
    {
      QueuedHead(jobs, t);
    }
  }

  /** What a started one has left is skipped. */
  lemma CloseStarted(lab: Lab, c: Core, journal: seq<seq<Note>>, jobs: seq<Job>, rest: set<nat>)
    requires Distinct(lab.patches) && Closing(lab, c, journal, jobs) && jobs != [] && jobs[0].left == Some(rest)
    requires c.active == {} && Proper(jobs) && rest <= UpTo(|lab.patches|)
    ensures jobs[0].input < |journal|
    ensures var t := jobs[0].input;
            Closing(lab, c, journal[t := journal[t] + [Skip(Named(lab.patches, rest), GlobalReject)]], jobs[1..])
  {
    var t := jobs[0].input;
    var more := [Skip(Named(lab.patches, rest), GlobalReject)];
    assert JobRecorded(lab, journal, jobs[0]) && rest - {} == rest;
    NotedSkip(lab, c, t, rest);
    RecordedMore(lab, c, c, t, journal[t], more, rest, {}, false);
    OpenNotes(lab, c, c, t, more, rest, false);
    MatchesAt(c, c, journal, t, more);
    AllRecordedAt(lab, journal, t, journal[t] + more);
    assert forall i :: 0 <= i < |jobs[1..]| ==> jobs[1..][i] == jobs[i + 1];
    QueueRecordedAt(lab, journal, jobs[1..], t, journal[t] + more);
    var written := journal[t := journal[t] + more];
    forall u: nat | u < |written| && !Queued(jobs[1..], u)
      ensures written[u] == [] || NotedBut(lab, written[u], {})
    {
      QueuedHead(jobs, u);
    }
  }

  lemma ClosedAll(lab: Lab, c: Core, journal: seq<seq<Note>>)
    requires Closing(lab, c, journal, [])
    ensures AllRecorded(lab, journal) && AllClosed(lab, journal) && Matches(c, journal)
  {
    assert forall t :: !Queued([], t);
  }
}
