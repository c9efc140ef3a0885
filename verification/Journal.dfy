/** What a capture journal holds about one input: attempts with the group they
    stand for, and candidates that were not run. */
module Journal {
  import opened Sequences
  import opened Options
  import opened Predicates
  import opened Classification
  import opened Verdicts

  /** Why a candidate was not run: it is not in the compiled artifact, or it was
      rejected already. */
  datatype Excuse = NoArtifact | GlobalReject

  datatype Note =
    | Attempt(representative: nat, members: set<nat>, probe: Option<Probe>, branches: Option<seq<Branch>>,
              observation: Observation)
    | Skip(members: set<nat>, excuse: Excuse)

  /** The candidates at the given indices. */
  function Named(patches: seq<nat>, indices: set<nat>): set<nat> { set i | i in indices && i < |patches| :: patches[i] }

  // ----- whom the notes name -----

  datatype Kind = AnyNote | Executed | WithoutVector | WithoutResult | Refused

  /** What a note says happened to its members. */
  predicate Says(note: Note, kind: Kind)
  {
    match kind
    case AnyNote => true
    case Executed => note.Attempt? && note.probe.Some?
    case WithoutVector => note.Attempt? && note.probe.Some? && note.branches.None?
    case WithoutResult => if note.Attempt? then note.probe.None? else note.excuse.NoArtifact?
    case Refused => note.Skip? && note.excuse.GlobalReject?
  }

  function Those(kind: Kind, notes: seq<Note>): set<nat>
  {
    set k, q | 0 <= k < |notes| && Says(notes[k], kind) && q in notes[k].members :: q
  }

  lemma ThoseConcat(kind: Kind, a: seq<Note>, b: seq<Note>)
    ensures Those(kind, a + b) == Those(kind, a) + Those(kind, b)
  {
    var notes := a + b;
    forall q | q in Those(kind, a)
      ensures q in Those(kind, notes)
    {
      var k :| 0 <= k < |a| && Says(a[k], kind) && q in a[k].members;
      assert notes[k] == a[k];
    }
    forall q | q in Those(kind, b)
      ensures q in Those(kind, notes)
    {
      var k :| 0 <= k < |b| && Says(b[k], kind) && q in b[k].members;
      assert notes[|a| + k] == b[k];
    }
  }

  lemma ThoseOne(kind: Kind, note: Note)
    ensures Those(kind, [note]) == if Says(note, kind) then note.members else {}
  {
    assert [note][0] == note;
  }

  lemma NamedUnion(patches: seq<nat>, a: set<nat>, b: set<nat>)
    ensures Named(patches, a + b) == Named(patches, a) + Named(patches, b)
  {
  }

  lemma NamedApart(patches: seq<nat>, a: set<nat>, b: set<nat>)
    requires Distinct(patches) && a !! b
    ensures Named(patches, a) !! Named(patches, b)
  {
  }

  lemma NamedGrows(patches: seq<nat>, a: set<nat>, b: set<nat>)
    requires a <= b
    ensures Named(patches, a) <= Named(patches, b)
  {
  }

  lemma NamedOne(patches: seq<nat>, i: nat)
    requires i < |patches|
    ensures Named(patches, {i}) == {patches[i]}
  {
    assert patches[i] in Named(patches, {i});
  }

  // ----- what notes promise by themselves -----

  /** No candidate is noted twice, only candidates at the given indices are, and
      a representative stands in its own group. */
  ghost predicate Fits(patches: seq<nat>, notes: seq<Note>, gone: set<nat>)
  {
    && (forall k :: 0 <= k < |notes| ==> notes[k].members <= Named(patches, gone))
    && (forall j, k :: 0 <= j < k < |notes| ==> notes[j].members !! notes[k].members)
    && (forall k :: 0 <= k < |notes| && notes[k].Attempt? && notes[k].members != {} ==>
          notes[k].representative in notes[k].members)
  }

  /** A candidate is noted in one place, which says what happened to it. */
  lemma ThoseAt(patches: seq<nat>, notes: seq<Note>, gone: set<nat>, kind: Kind, k: nat, p: nat)
    requires Fits(patches, notes, gone) && k < |notes| && p in notes[k].members
    ensures p in Those(kind, notes) <==> Says(notes[k], kind)
  {
    if p in Those(kind, notes) {
      var j :| 0 <= j < |notes| && Says(notes[j], kind) && p in notes[j].members;
      SameNote(patches, notes, gone, j, k, p);
    }
  }

  lemma SameNote(patches: seq<nat>, notes: seq<Note>, gone: set<nat>, j: nat, k: nat, p: nat)
    requires Fits(patches, notes, gone) && j < |notes| && k < |notes| && p in notes[j].members && p in notes[k].members
    ensures j == k
  {
  }

  /** Every candidate at the given indices is noted. */
  ghost predicate Covered(patches: seq<nat>, notes: seq<Note>, gone: set<nat>)
  {
    Named(patches, gone) <= Those(AnyNote, notes)
  }

  /** Every candidate at the given indices is noted, or every one but that at a
      single index. */
  ghost predicate Reaches(patches: seq<nat>, notes: seq<Note>, gone: set<nat>, cut: bool)
  {
    if cut then exists i: nat :: Covered(patches, notes, gone - {i}) else Covered(patches, notes, gone)
  }

  /** The note tells of candidate `q` what its own execution on input `t` is: the
      outcome, the branch vector if there is one, and their classification. */
  predicate TellsOf(lab: Lab, t: nat, note: Note, q: nat)
    requires note.Attempt?
  {
    match note.probe
    case None => note.branches.None? && note.observation.AttemptedUnusable?
    case Some(p) =>
      && p == lab.trace(t, q).outcome && (note.branches.Some? ==> note.branches.value == lab.trace(t, q).branches)
      && note.observation == Observe(lab.tests(t), lab.poc, p, note.branches)
  }

  /** A note is true of every member of its group. */
  ghost predicate Truthful(lab: Lab, t: nat, note: Note)
  {
    note.Attempt? ==> forall q :: q in note.members ==> TellsOf(lab, t, note, q)
  }

  ghost predicate AllTruthful(lab: Lab, t: nat, notes: seq<Note>)
  {
    forall k :: 0 <= k < |notes| ==> Truthful(lab, t, notes[k])
  }

  // ----- what notes say about the verifier's knowledge -----

  function Tagged(t: nat, s: set<nat>): set<(nat, nat)> { set q | q in s :: (t, q) }

  /** From `c` to `c'` the pairs of input `t` with the given candidates were
      classified, classified without a vector, and lost; and nothing else. */
  ghost predicate Learnt(c: Core, c': Core, t: nat, ran: set<nat>, blind: set<nat>, lost: set<nat>)
  {
    && c'.done == c.done + Tagged(t, ran) && c'.blind == c.blind + Tagged(t, blind)
    && c'.lost == c.lost + Tagged(t, lost)
  }

  lemma LearntMore(a: Core, b: Core, c: Core, t: nat, ran: set<nat>, blind: set<nat>, lost: set<nat>, ran': set<nat>,
                   blind': set<nat>, lost': set<nat>)
    requires Learnt(a, b, t, ran, blind, lost) && Learnt(b, c, t, ran', blind', lost')
    ensures Learnt(a, c, t, ran + ran', blind + blind', lost + lost')
  {
    TaggedUnion(t, ran, ran');
    TaggedUnion(t, blind, blind');
    TaggedUnion(t, lost, lost');
  }

  lemma TaggedUnion(t: nat, a: set<nat>, b: set<nat>)
    ensures Tagged(t, a + b) == Tagged(t, a) + Tagged(t, b)
  {
  }

  /** The notes tell exactly what was learnt from `c` to `c'`, and every skip as
      rejected is of a candidate that is. */
  ghost predicate Accurate(c: Core, c': Core, t: nat, notes: seq<Note>)
  {
    && Learnt(c, c', t, Those(Executed, notes), Those(WithoutVector, notes), Those(WithoutResult, notes))
    && Those(Refused, notes) !! c'.active
  }

  lemma AccurateConcat(a: Core, b: Core, c: Core, t: nat, notes: seq<Note>, more: seq<Note>)
    requires Accurate(a, b, t, notes) && Accurate(b, c, t, more) && c.active <= b.active
    ensures Accurate(a, c, t, notes + more)
  {
    ThoseConcat(Executed, notes, more);
    ThoseConcat(WithoutVector, notes, more);
    ThoseConcat(WithoutResult, notes, more);
    ThoseConcat(Refused, notes, more);
    LearntMore(a, b, c, t, Those(Executed, notes), Those(WithoutVector, notes), Those(WithoutResult, notes),
               Those(Executed, more), Those(WithoutVector, more), Those(WithoutResult, more));
  }

  /** Nothing was learnt, and nothing is noted. */
  lemma AccurateSilence(c: Core, t: nat)
    ensures Accurate(c, c, t, [])
  {
  }

  lemma AccurateOne(c: Core, c': Core, t: nat, note: Note)
    requires Learnt(c, c', t, if Says(note, Executed) then note.members else {},
                    if Says(note, WithoutVector) then note.members else {},
                    if Says(note, WithoutResult) then note.members else {})
    requires Says(note, Refused) ==> note.members !! c'.active
    ensures Accurate(c, c', t, [note])
  {
    ThoseOne(Executed, note);
    ThoseOne(WithoutVector, note);
    ThoseOne(WithoutResult, note);
    ThoseOne(Refused, note);
  }

  // ----- the notes of a stretch of work -----

  /** Who is noted, what is noted, that nobody is missed, and what was learnt. */
  datatype Aspect = WhoIsNoted | WhatIsNoted | NobodyIsMissed | WhatWasLearnt

  ghost predicate NotedIn(aspect: Aspect, lab: Lab, c: Core, c': Core, t: nat, notes: seq<Note>, gone: set<nat>,
                          cut: bool)
  {
    match aspect
    case WhoIsNoted => Fits(lab.patches, notes, gone)
    case WhatIsNoted => AllTruthful(lab, t, notes)
    case NobodyIsMissed => (cut && !lab.feedback) || Reaches(lab.patches, notes, gone, cut)
    case WhatWasLearnt => (cut && !lab.feedback) || Accurate(c, c', t, notes)
  }

  /** The notes of a stretch of work on input `t` that settled the indices `gone`
      and took the verifier from knowing `c` to knowing `c'`.  In feedback mode, in
      which the journal is kept, a stretch the deadline `cut` misses at most the
      index it was about to run, and nothing that was classified. */
  ghost predicate Noted(lab: Lab, c: Core, c': Core, t: nat, notes: seq<Note>, gone: set<nat>, cut: bool)
  {
    forall aspect: Aspect :: NotedIn(aspect, lab, c, c', t, notes, gone, cut)
  }

  lemma OpenNotes(lab: Lab, c: Core, c': Core, t: nat, notes: seq<Note>, gone: set<nat>, cut: bool)
    ensures Noted(lab, c, c', t, notes, gone, cut) <==>
            && Fits(lab.patches, notes, gone) && AllTruthful(lab, t, notes)
            && (!cut || lab.feedback ==> Reaches(lab.patches, notes, gone, cut) && Accurate(c, c', t, notes))
  {
    if Noted(lab, c, c', t, notes, gone, cut) {
      assert NotedIn(WhoIsNoted, lab, c, c', t, notes, gone, cut)
          && NotedIn(WhatIsNoted, lab, c, c', t, notes, gone, cut);
      assert NotedIn(NobodyIsMissed, lab, c, c', t, notes, gone, cut)
          && NotedIn(WhatWasLearnt, lab, c, c', t, notes, gone, cut);
    }
  }

  lemma FitsConcat(patches: seq<nat>, a: seq<Note>, b: seq<Note>, g: set<nat>, h: set<nat>)
    requires Distinct(patches) && Fits(patches, a, g) && Fits(patches, b, h) && g !! h
    ensures Fits(patches, a + b, g + h)
  {
    NamedApart(patches, g, h);
    NamedUnion(patches, g, h);
    var notes := a + b;
    forall j, k | 0 <= j < k < |notes|
      ensures notes[j].members !! notes[k].members
    {
      if j < |a| <= k { assert notes[j] == a[j] && notes[k] == b[k - |a|]; }
    }
  }

  lemma TruthfulConcat(lab: Lab, t: nat, a: seq<Note>, b: seq<Note>)
    requires AllTruthful(lab, t, a) && AllTruthful(lab, t, b)
    ensures AllTruthful(lab, t, a + b)
  {
  }

  lemma CoveredConcat(patches: seq<nat>, a: seq<Note>, b: seq<Note>, g: set<nat>, h: set<nat>)
    requires Covered(patches, a, g) && Covered(patches, b, h)
    ensures Covered(patches, a + b, g + h)
  {
    NamedUnion(patches, g, h);
    ThoseConcat(AnyNote, a, b);
  }

  lemma CoveredLess(patches: seq<nat>, notes: seq<Note>, g: set<nat>, h: set<nat>)
    requires Covered(patches, notes, h) && g <= h
    ensures Covered(patches, notes, g)
  {
    NamedGrows(patches, g, h);
  }

  lemma ReachesConcat(patches: seq<nat>, a: seq<Note>, b: seq<Note>, g: set<nat>, h: set<nat>, cut: bool)
    requires Covered(patches, a, g) && Reaches(patches, b, h, cut)
    ensures Reaches(patches, a + b, g + h, cut)
  {
    if cut {
      var i: nat :| Covered(patches, b, h - {i});
      CoveredConcat(patches, a, b, g, h - {i});
      CoveredLess(patches, a + b, (g + h) - {i}, g + (h - {i}));
    } else {
      CoveredConcat(patches, a, b, g, h);
    }
  }

  /** Work on disjoint indices adds up, and only the last stretch may be cut. */
  lemma NotedConcat(lab: Lab, a: Core, b: Core, c: Core, t: nat, notes: seq<Note>, more: seq<Note>, g: set<nat>,
                    h: set<nat>, all: set<nat>, cut: bool)
    requires Distinct(lab.patches) && g !! h && all == g + h && c.active <= b.active
    requires Noted(lab, a, b, t, notes, g, false) && Noted(lab, b, c, t, more, h, cut)
    ensures Noted(lab, a, c, t, notes + more, all, cut)
  {
    OpenNotes(lab, a, b, t, notes, g, false);
    OpenNotes(lab, b, c, t, more, h, cut);
    OpenNotes(lab, a, c, t, notes + more, all, cut);
    FitsConcat(lab.patches, notes, more, g, h);
    TruthfulConcat(lab, t, notes, more);
    if !cut || lab.feedback {
      ReachesConcat(lab.patches, notes, more, g, h, cut);
      AccurateConcat(a, b, c, t, notes, more);
    }
  }

  /** Before any work there is nothing to note. */
  lemma NotedNothing(lab: Lab, c: Core, t: nat)
    ensures Noted(lab, c, c, t, [], {}, false)
  {
    OpenNotes(lab, c, c, t, [], {}, false);
    AccurateSilence(c, t);
  }

  /** The deadline came before index `i` was run. */
  lemma NotedTooLate(lab: Lab, c: Core, t: nat, i: nat)
    ensures Noted(lab, c, c, t, [], {i}, true)
  {
    OpenNotes(lab, c, c, t, [], {i}, true);
    AccurateSilence(c, t);
    assert Covered(lab.patches, [], {i} - {i});
  }

  /** The deadline may come right after a complete stretch. */
  lemma NotedThenCut(lab: Lab, a: Core, c: Core, t: nat, notes: seq<Note>, gone: set<nat>)
    requires Noted(lab, a, c, t, notes, gone, false)
    ensures Noted(lab, a, c, t, notes, gone, true)
  {
    OpenNotes(lab, a, c, t, notes, gone, false);
    OpenNotes(lab, a, c, t, notes, gone, true);
    CoveredLess(lab.patches, notes, gone - {0}, gone);
  }

  /** One note about exactly the candidates settled. */
  lemma NotedOne(lab: Lab, c: Core, c': Core, t: nat, note: Note, gone: set<nat>)
    requires note.members == Named(lab.patches, gone) && Truthful(lab, t, note)
    requires note.Attempt? && note.members != {} ==> note.representative in note.members
    requires Accurate(c, c', t, [note])
    ensures Noted(lab, c, c', t, [note], gone, false)
  {
    OpenNotes(lab, c, c', t, [note], gone, false);
    ThoseOne(AnyNote, note);
  }

  /** A failed attempt noted for nobody. */
  lemma NotedFailure(lab: Lab, c: Core, c': Core, t: nat, failed: Note, notes: seq<Note>, gone: set<nat>, cut: bool)
    requires Distinct(lab.patches) && failed.Attempt? && failed.members == {} && Noted(lab, c, c', t, notes, gone, cut)
    requires c'.active <= c.active
    ensures Noted(lab, c, c', t, [failed] + notes, gone, cut)
  {
    assert Named(lab.patches, {}) == {};
    AccurateOne(c, c, t, failed);
    NotedOne(lab, c, c, t, failed, {});
    NotedConcat(lab, c, c, c', t, [failed], notes, {}, gone, gone, cut);
  }

  /** Candidates that were rejected already are skipped with that excuse. */
  lemma NotedSkip(lab: Lab, c: Core, t: nat, gone: set<nat>)
    requires Named(lab.patches, gone) !! c.active
    ensures Noted(lab, c, c, t, [Skip(Named(lab.patches, gone), GlobalReject)], gone, false)
  {
    AccurateOne(c, c, t, Skip(Named(lab.patches, gone), GlobalReject));
    NotedOne(lab, c, c, t, Skip(Named(lab.patches, gone), GlobalReject), gone);
  }

  // ----- a group and what was skipped around it -----

  /** Skips of candidates rejected by now, at the given indices. */
  ghost predicate Skips(lab: Lab, c: Core, t: nat, notes: seq<Note>, gone: set<nat>)
  {
    (forall k :: 0 <= k < |notes| ==> Says(notes[k], Refused)) && Noted(lab, c, c, t, notes, gone, false)
  }

  lemma RefusalsSayNothing(notes: seq<Note>)
    requires forall k :: 0 <= k < |notes| ==> Says(notes[k], Refused)
    ensures Those(Executed, notes) == {} && Those(WithoutVector, notes) == {} && Those(WithoutResult, notes) == {}
  {
  }

  lemma SkipsSayNothing(lab: Lab, c: Core, t: nat, notes: seq<Note>, gone: set<nat>)
    requires Skips(lab, c, t, notes, gone)
    ensures Those(Executed, notes) == {} && Those(WithoutVector, notes) == {} && Those(WithoutResult, notes) == {}
    ensures Fits(lab.patches, notes, gone) && AllTruthful(lab, t, notes) && Covered(lab.patches, notes, gone)
    ensures Those(Refused, notes) !! c.active
  {
    RefusalsSayNothing(notes);
    OpenNotes(lab, c, c, t, notes, gone, false);
  }

  /** A rejected candidate stays rejected. */
  lemma SkipsLater(lab: Lab, c: Core, c': Core, t: nat, notes: seq<Note>, gone: set<nat>)
    requires Skips(lab, c, t, notes, gone) && c'.active <= c.active
    ensures Skips(lab, c', t, notes, gone)
  {
    SkipsSayNothing(lab, c, t, notes, gone);
    OpenNotes(lab, c', c', t, notes, gone, false);
    assert Tagged(t, {}) == {};
  }

  lemma NoSkips(lab: Lab, c: Core, t: nat)
    ensures Skips(lab, c, t, [], {})
  {
    NotedNothing(lab, c, t);
  }

  lemma SkipsMore(lab: Lab, c: Core, t: nat, notes: seq<Note>, gone: set<nat>, i: nat)
    requires Distinct(lab.patches) && Skips(lab, c, t, notes, gone) && i < |lab.patches| && i !in gone
    requires lab.patches[i] !in c.active
    ensures Skips(lab, c, t, notes + [Skip({lab.patches[i]}, GlobalReject)], gone + {i})
  {
    NamedOne(lab.patches, i);
    NotedSkip(lab, c, t, {i});
    NotedConcat(lab, c, c, c, t, notes, [Skip({lab.patches[i]}, GlobalReject)], gone, {i}, gone + {i}, false);
  }

  /** The group of one execution, noted after the skips on the way. */
  lemma GroupNoted(lab: Lab, a: Core, b: Core, t: nat, notes: seq<Note>, group: Note, g: set<nat>, h: set<nat>)
    requires Distinct(lab.patches) && g !! h && Skips(lab, b, t, notes, g)
    requires Says(group, Executed) && group.branches.Some? && Truthful(lab, t, group)
    requires group.members == Named(lab.patches, h) && group.representative in group.members
    requires Learnt(a, b, t, group.members, {}, {})
    ensures Noted(lab, a, b, t, notes + [group], g + h, false)
  {
    SkipsSayNothing(lab, b, t, notes, g);
    OpenNotes(lab, a, b, t, notes + [group], g + h, false);
    AccurateGroup(a, b, t, notes, group);
    ThoseOne(AnyNote, group);
    FitsConcat(lab.patches, notes, [group], g, h);
    CoveredConcat(lab.patches, notes, [group], g, h);
  }

  lemma AccurateGroup(a: Core, b: Core, t: nat, notes: seq<Note>, group: Note)
    requires Those(Executed, notes) == {} && Those(WithoutVector, notes) == {} && Those(WithoutResult, notes) == {}
    requires Those(Refused, notes) !! b.active && Says(group, Executed) && group.branches.Some?
    requires Learnt(a, b, t, group.members, {}, {})
    ensures Accurate(a, b, t, notes + [group])
  {
    AccurateOne(a, b, t, group);
    ThoseConcat(Executed, notes, [group]);
    ThoseConcat(WithoutVector, notes, [group]);
    ThoseConcat(WithoutResult, notes, [group]);
    ThoseConcat(Refused, notes, [group]);
  }

  /** The same cut before its group note, which only happens where no journal is
      kept. */
  lemma GroupCut(lab: Lab, a: Core, b: Core, t: nat, notes: seq<Note>, g: set<nat>, h: set<nat>)
    requires Skips(lab, b, t, notes, g) && g <= h && !lab.feedback
    ensures Noted(lab, a, b, t, notes, h, true)
  {
    SkipsSayNothing(lab, b, t, notes, g);
    OpenNotes(lab, a, b, t, notes, h, true);
    NamedGrows(lab.patches, g, h);
  }
}
