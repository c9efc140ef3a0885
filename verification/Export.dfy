/** From the verifier's journal to a bundle: what a run notes about its inputs
    passes every guard of the exporter, the loader accepts the result, and the
    exported counts are the verifier's own. */
module Export {
  import opened Sequences
  import opened Options
  import opened Predicates
  import opened BranchCodec
  import opened Classification
  import opened IdRanges
  import opened MemberPool
  import opened BitCounts
  import opened Bundle
  import opened BundleWriter
  import opened Journal
  import opened Sweep
  import opened Verdicts
  import opened Verifier
  import opened RunJournal
  import Streaming
  import S = Stream

  /** The bin the exporter recomputes from a note; an unreadable vector raises. */
  function NoteBin(row: BaselineRow, poc: Option<nat>, note: Note): Option<Bin>
    requires note.Attempt?
  {
    RecomputedBin(BaselineRecord(row), JournalRecord(note.probe, note.branches), poc)
  }

  /** The exporter's comparison of that bin with the advertised observation. */
  predicate Agrees(row: BaselineRow, poc: Option<nat>, note: Note)
  {
    note.Attempt? && note.members != {} ==>
      NoteBin(row, poc, note) == Some(CanonicalBin(note.observation,
                                                 LabelOf(JournalRecord(note.probe, note.branches), poc)))
  }

  function RecOf(row: BaselineRow, poc: Option<nat>, note: Note): Rec
  {
    match note
    case Skip(members, _) => Rec.Skipped(members)
    case Attempt(representative, members, _, _, _) =>
      var bin := NoteBin(row, poc, note);
      Traced(representative, members, if bin.Some? then bin.value else UnusableBin)
  }

  function RecsOf(row: BaselineRow, poc: Option<nat>, notes: seq<Note>): (r: seq<Rec>)
    ensures |r| == |notes|
  {
    seq(|notes|, k requires 0 <= k < |notes| => RecOf(row, poc, notes[k]))
  }

  /** The baseline row published for an input is the one the verifier read. */
  predicate Published(test: Testcase, row: BaselineRow)
  {
    ValidProbe(row.probe) && test == MakeTestcase(row.probe.exit, row.br)
  }

  /** The exporter classifies only against these two kinds of baselines. */
  predicate Labelled(row: BaselineRow, poc: Option<nat>)
  {
    LabelOf(BaselineRecord(row), poc).LabelNormal? || LabelOf(BaselineRecord(row), poc).LabelTarget?
  }

  /** The classification disagreement is raised only for a lost baseline vector. */
  lemma NotesAgree(lab: Lab, t: nat, row: BaselineRow, note: Note)
    requires Sound(lab) && Published(lab.tests(t), row) && Labelled(row, lab.poc) && Truthful(lab, t, note)
    ensures note.Attempt? && note.members != {} ==>
              (Agrees(row, lab.poc, note) <==> !BaselineVectorLost(row, note.probe, note.branches))
  {
    if note.Attempt? && note.members != {} {
      var q :| q in note.members;
      assert TellsOf(lab, t, note, q) && ValidProbe(lab.trace(t, q).outcome);
      ExporterAgrees(row, lab.poc, note.probe, note.branches);
    }
  }

  // ----- the guards -----

  /** Notes that name nobody twice pass the exporter's guards one by one. */
  lemma {:induction false} NotesFit(patches: seq<nat>, ordered: seq<nat>, row: BaselineRow, poc: Option<nat>,
                                    notes: seq<Note>, gone: set<nat>, n: nat)
    requires Fits(patches, notes, gone) && n <= |notes| && Elements(patches) <= Ids(ordered)
    ensures AllFit(ordered, Concrete, RecsOf(row, poc, notes)[..n])
    decreases n
  {
    if n > 0 {
      var records := RecsOf(row, poc, notes)[..n];
      var before, r := records[..n - 1], records[n - 1];
      NotesFit(patches, ordered, row, poc, notes, gone, n - 1);
      assert before == RecsOf(row, poc, notes)[..n - 1];
      forall x | x in Observed(before) + SkippedOnes(before)
        ensures x !in r.members
      {
        var k := RecordHolding(before, x);
        assert before[k].members == notes[k].members;
      }
      NamedInside(patches, gone);
    }
  }

  lemma NamedInside(patches: seq<nat>, gone: set<nat>)
    ensures Named(patches, gone) <= Elements(patches)
  {
  }

  /** What the verifier noted about one input, the exporter can stream: no
      candidate is observed twice, every group holds its representative, and its
      classification agrees unless the baseline's vector was lost. */
  lemma JournalExports(lab: Lab, t: nat, notes: seq<Note>, row: BaselineRow, ordered: seq<nat>)
    requires Sound(lab) && Recorded(lab, t, notes, {}) && Elements(lab.patches) <= Ids(ordered)
    ensures AllFit(ordered, Concrete, RecsOf(row, lab.poc, notes))
    ensures Published(lab.tests(t), row) && Labelled(row, lab.poc) && |row.br| == row.patchHits ==>
              forall k :: 0 <= k < |notes| ==> Agrees(row, lab.poc, notes[k])
  {
    NotesFit(lab.patches, ordered, row, lab.poc, notes, UpTo(|lab.patches|) - {}, |notes|);
    assert RecsOf(row, lab.poc, notes)[..|notes|] == RecsOf(row, lab.poc, notes);
    if Published(lab.tests(t), row) && Labelled(row, lab.poc) && |row.br| == row.patchHits {
      forall k | 0 <= k < |notes|
        ensures Agrees(row, lab.poc, notes[k])
      {
        NotesAgree(lab, t, row, notes[k]);
      }
    }
  }

  /** Where everybody was noted, the exported list of candidates not run is
      empty. */
  lemma EverybodyCovered(lab: Lab, t: nat, notes: seq<Note>, row: BaselineRow, ordered: seq<nat>)
    requires Recorded(lab, t, notes, {}) && NotedBut(lab, notes, {}) && Elements(lab.patches) == Ids(ordered)
    ensures var e := PageEvidence(lab, notes, row);
            && Observed(e.records) + SkippedOnes(e.records) == Ids(ordered)
            && WriteInput(ordered, e).coverage.notRun == EncodeSet(ordered, {})
  {
    var records := RecsOf(row, lab.poc, notes);
    forall p | p in Ids(ordered)
      ensures p in Observed(records) + SkippedOnes(records)
    {
      var i :| 0 <= i < |lab.patches| && lab.patches[i] == p;
      assert i in UpTo(|lab.patches|) - {} && p in Those(AnyNote, notes);
      var k :| 0 <= k < |notes| && p in notes[k].members;
      RecordedSomewhere(records, k);
      assert records[k].members == notes[k].members;
    }
    forall p | p in Observed(records) + SkippedOnes(records)
      ensures p in Ids(ordered)
    {
      var k := RecordHolding(records, p);
      assert records[k].members == notes[k].members;
      NamedInside(lab.patches, UpTo(|lab.patches|) - {});
    }
    assert Ids(ordered) - Observed(records) - SkippedOnes(records) == {};
  }

  // ----- the whole journal -----

  function EvidenceOf(lab: Lab, journal: seq<seq<Note>>, rows: seq<BaselineRow>): (e: seq<Evidence>)
    requires |rows| == |journal|
    ensures |e| == |journal|
  {
    seq(|journal|, t requires 0 <= t < |journal| => PageEvidence(lab, journal[t], rows[t]))
  }

  function PageEvidence(lab: Lab, notes: seq<Note>, row: BaselineRow): Evidence
  {
    MakeEvidence(Concrete, RecsOf(row, lab.poc, notes))
  }

  /** A run's journal always exports, and the loader accepts the bundle exactly
      when the candidate list has no run longer than the loader's limit. */
  lemma JournalLoads(lab: Lab, journal: seq<seq<Note>>, rows: seq<BaselineRow>, ordered: seq<nat>, tids: map<nat, nat>,
                     terminal: set<nat>)
    requires Sound(lab) && AllRecorded(lab, journal) && |rows| == |journal|
    requires Universe(ordered) && Elements(lab.patches) <= Ids(ordered) && forall p :: p in tids ==> tids[p] >= 1
    ensures LoaderAccepts(ordered, WriteBundle(ordered, EvidenceOf(lab, journal, rows), tids, terminal)) <==>
            ShortRuns(Runs(ordered))
  {
    var evidence := EvidenceOf(lab, journal, rows);
    forall t | 0 <= t < |evidence|
      ensures RecordsOk(ordered, evidence[t].records)
    {
      JournalExports(lab, t, journal[t], rows[t], ordered);
      FitRecordsAreOk(ordered, Concrete, evidence[t].records);
    }
    LoaderAcceptsWriter(ordered, evidence, tids, terminal);
  }

  /** After an exhausted stop nobody is exported as not run, for any input; after
      everything was rejected, only inputs that were never started have anyone. */
  lemma NobodyNotRun(lab: Lab, m: nat, reason: S.StopReason, records: seq<PatchRecord>, journal: seq<seq<Note>>,
                     rows: seq<BaselineRow>, ordered: seq<nat>, t: nat)
    requires Streaming.Explained(lab, m, reason, records, journal) && |rows| == |journal| && t < |journal|
    requires Elements(lab.patches) == Ids(ordered)
    requires reason == S.Exhausted || (reason == S.AllRejected && journal[t] != [])
    ensures WriteInput(ordered, EvidenceOf(lab, journal, rows)[t]).coverage.notRun == EncodeSet(ordered, {})
  {
    var c: Core :| Streaming.Accounted(lab, c, m, reason, journal) && records == RecordsOf(lab, c, Conclude(lab, c));
    EverybodyCovered(lab, t, journal[t], rows[t], ordered);
  }

  // ----- the exported counts -----

  /** The observation counted in a bin's column. */
  function CountedAs(b: nat): Observation
    requires b < BIN_COUNT
  {
    match b
    case 0 => CrashFail
    case 1 => CrashPass
    case 2 => NoCrashSameBranch
    case 3 => NoCrashDiffBranch
    case 4 => NoCrashFail
    case _ => PatchCrashed
  }

  /** Only the two bins that compare vectors need the baseline's. */
  predicate Comparable(row: BaselineRow, b: nat) { b == 2 || b == 3 ==> |row.br| == row.patchHits }

  /** A note lands in a column exactly when its observation is the one counted
      there and the exporter classifies against its baseline. */
  lemma BinOfNote(lab: Lab, t: nat, row: BaselineRow, note: Note, b: nat)
    requires Sound(lab) && Published(lab.tests(t), row) && Truthful(lab, t, note) && b < BIN_COUNT && Comparable(row, b)
    requires note.Attempt? && note.members != {}
    ensures NoteBin(row, lab.poc, note).Some?
    ensures BinIndex(NoteBin(row, lab.poc, note).value) == Some(b)
            <==> Labelled(row, lab.poc) && note.observation == CountedAs(b)
  {
    var q :| q in note.members;
    assert TellsOf(lab, t, note, q) && ValidProbe(lab.trace(t, q).outcome);
    NoteBinIs(row, lab.poc, note);
    if Labelled(row, lab.poc) {
      JournalKeepsLabel(Some(row.probe), KeptVector(row), lab.poc);
      ColumnsAgree(row, lab.poc, note.probe, note.branches, b);
    }
  }

  /** The baseline vector the exporter keeps. */
  function KeptVector(row: BaselineRow): Option<seq<Branch>>
  {
    if |row.br| == row.patchHits then Some(row.br) else None
  }

  lemma NoteBinIs(row: BaselineRow, poc: Option<nat>, note: Note)
    requires note.Attempt?
    ensures Labelled(row, poc) ==>
              NoteBin(row, poc, note) == Some(BinOf(ProbeLabel(Some(row.probe), poc), ProbeLabel(note.probe, poc),
                                                    KeptVector(row), note.branches))
    ensures !Labelled(row, poc) ==>
              NoteBin(row, poc, note) == Some(IgnoredOtherFault) || NoteBin(row, poc, note) == Some(Unclassified)
  {
    if Labelled(row, poc) {
      BranchCodecRoundTrip(KeptVector(row));
      BranchCodecRoundTrip(note.branches);
      RecomputedFromVectors(BaselineRecord(row), JournalRecord(note.probe, note.branches), poc, KeptVector(row),
                            note.branches);
      JournalKeepsLabel(note.probe, note.branches, poc);
      JournalKeepsLabel(Some(row.probe), KeptVector(row), poc);
    }
  }

  /** The same on labels and vectors. */
  lemma ColumnsAgree(row: BaselineRow, poc: Option<nat>, probe: Option<Probe>, branches: Option<seq<Branch>>, b: nat)
    requires ValidProbe(row.probe) && (probe.Some? ==> ValidProbe(probe.value)) && (probe.None? ==> branches.None?)
    requires ProbeLabel(Some(row.probe), poc).LabelNormal? || ProbeLabel(Some(row.probe), poc).LabelTarget?
    requires b < BIN_COUNT && Comparable(row, b)
    ensures BinIndex(BinOf(ProbeLabel(Some(row.probe), poc), ProbeLabel(probe, poc), KeptVector(row), branches))
            == Some(b)
            <==> Advertised(row, poc, probe, branches) == CountedAs(b)
  {
  }

  /** A candidate in one record alone is counted there or nowhere. */
  lemma {:induction false} EarnedOnce(records: seq<Rec>, b: nat, p: nat, k: nat)
    requires k < |records| && p in records[k].members
    requires forall j :: 0 <= j < |records| && j != k ==> p !in records[j].members
    ensures EarnedIn(records, b, p) == if records[k].Traced? && BinIndex(records[k].bin) == Some(b) then 1 else 0
    decreases |records|
  {
    var n := |records| - 1;
    if k == n {
      EarnedNever(records[..n], b, p);
    } else {
      EarnedOnce(records[..n], b, p, k);
    }
  }

  lemma {:induction false} EarnedNever(records: seq<Rec>, b: nat, p: nat)
    requires forall j :: 0 <= j < |records| && records[j].Traced? && BinIndex(records[j].bin) == Some(b) ==>
                           p !in records[j].members
    ensures EarnedIn(records, b, p) == 0
    decreases |records|
  {
    if records != [] { EarnedNever(records[..|records| - 1], b, p); }
  }

  /** The pair was classified with what the column counts, against a baseline the
      exporter classifies against. */
  ghost predicate Counted(lab: Lab, c: Core, row: BaselineRow, t: nat, p: nat, b: nat)
    requires b < BIN_COUNT
  {
    (t, p) in c.done && Labelled(row, lab.poc) && Earns(lab, c.blind, t, p) == CountedAs(b)
  }

  /** The note that holds a classified pair carries what the pair earned. */
  lemma NoteOfPair(lab: Lab, c: Core, journal: seq<seq<Note>>, t: nat, p: nat, k: nat)
    requires Matches(c, journal) && AllRecorded(lab, journal) && t < |journal| && k < |journal[t]|
    requires p in journal[t][k].members && Says(journal[t][k], Executed)
    ensures (t, p) in c.done && journal[t][k].observation == Earns(lab, c.blind, t, p)
  {
    var notes := journal[t];
    assert Recorded(lab, t, notes, {}) && Truthful(lab, t, notes[k]) && TellsOf(lab, t, notes[k], p);
    ThoseAt(lab.patches, notes, UpTo(|lab.patches|) - {}, Executed, k, p);
    ThoseAt(lab.patches, notes, UpTo(|lab.patches|) - {}, WithoutVector, k, p);
    assert (t, p) in c.blind <==> p in Those(WithoutVector, notes);
  }

  /** What one page adds to a column: one for a counted pair, nothing otherwise. */
  lemma PageEarns(lab: Lab, c: Core, journal: seq<seq<Note>>, t: nat, row: BaselineRow, p: nat, b: nat)
    requires Sound(lab) && Matches(c, journal) && AllRecorded(lab, journal) && t < |journal| && b < BIN_COUNT
    requires Published(lab.tests(t), row) && Comparable(row, b)
    ensures EarnedIn(RecsOf(row, lab.poc, journal[t]), b, p) == if Counted(lab, c, row, t, p, b) then 1 else 0
  {
    var notes := journal[t];
    var records := RecsOf(row, lab.poc, notes);
    assert Recorded(lab, t, notes, {});
    if k :| 0 <= k < |notes| && p in notes[k].members {
      forall j | 0 <= j < |records| && p in records[j].members
        ensures j == k
      {
        SameNote(lab.patches, notes, UpTo(|lab.patches|) - {}, j, k, p);
      }
      EarnedOnce(records, b, p, k);
      NoteEarns(lab, c, journal, t, row, p, b, k);
    } else {
      EarnedNever(records, b, p);
      assert (t, p) !in Pairs(Executed, journal);
    }
  }

  lemma NoteEarns(lab: Lab, c: Core, journal: seq<seq<Note>>, t: nat, row: BaselineRow, p: nat, b: nat, k: nat)
    requires Sound(lab) && Matches(c, journal) && AllRecorded(lab, journal) && t < |journal| && b < BIN_COUNT
    requires Published(lab.tests(t), row) && Comparable(row, b) && k < |journal[t]| && p in journal[t][k].members
    ensures var r := RecOf(row, lab.poc, journal[t][k]);
            r.Traced? && BinIndex(r.bin) == Some(b) <==> Counted(lab, c, row, t, p, b)
  {
    var notes := journal[t];
    assert Recorded(lab, t, notes, {}) && Truthful(lab, t, notes[k]);
    if notes[k].Attempt? { BinOfNote(lab, t, row, notes[k], b); }
    if Says(notes[k], Executed) {
      NoteOfPair(lab, c, journal, t, p, k);
    } else {
      assert notes[k].Attempt? ==> TellsOf(lab, t, notes[k], p);
      ThoseAt(lab.patches, notes, UpTo(|lab.patches|) - {}, Executed, k, p);
      assert (t, p) !in Pairs(Executed, journal);
    }
  }

  /** The counted pairs of a candidate among the first `n` inputs. */
  ghost function CountedPairs(lab: Lab, c: Core, rows: seq<BaselineRow>, n: nat, p: nat, b: nat): set<(nat, nat)>
    requires n <= |rows| && b < BIN_COUNT
  {
    set d | d in c.done && d.0 < n && d.1 == p && Counted(lab, c, rows[d.0], d.0, p, b)
  }

  /** Every input's row is the one the verifier read. */
  ghost predicate AllPublished(lab: Lab, rows: seq<BaselineRow>)
  {
    forall t :: 0 <= t < |rows| ==> Published(lab.tests(t), rows[t])
  }

  ghost predicate AllComparable(rows: seq<BaselineRow>, b: nat)
  {
    forall t :: 0 <= t < |rows| ==> Comparable(rows[t], b)
  }

  /** Every page adds to the column what its input's pair earned. */
  ghost predicate PagesEarn(lab: Lab, c: Core, journal: seq<seq<Note>>, rows: seq<BaselineRow>, p: nat, b: nat)
    requires |rows| == |journal| && b < BIN_COUNT
  {
    forall t :: 0 <= t < |rows| ==>
      EarnedIn(RecsOf(rows[t], lab.poc, journal[t]), b, p) == if Counted(lab, c, rows[t], t, p, b) then 1 else 0
  }

  lemma AllPagesEarn(lab: Lab, c: Core, journal: seq<seq<Note>>, rows: seq<BaselineRow>, p: nat, b: nat)
    requires Sound(lab) && Matches(c, journal) && AllRecorded(lab, journal) && |rows| == |journal| && b < BIN_COUNT
    requires AllPublished(lab, rows) && AllComparable(rows, b)
    ensures PagesEarn(lab, c, journal, rows, p, b)
  {
    forall t | 0 <= t < |rows|
      ensures EarnedIn(RecsOf(rows[t], lab.poc, journal[t]), b, p)
              == if Counted(lab, c, rows[t], t, p, b) then 1 else 0
    {
      PageEarns(lab, c, journal, t, rows[t], p, b);
    }
  }

  lemma CountedStep(lab: Lab, c: Core, rows: seq<BaselineRow>, t: nat, p: nat, b: nat)
    requires t < |rows| && b < BIN_COUNT
    ensures |CountedPairs(lab, c, rows, t + 1, p, b)|
            == |CountedPairs(lab, c, rows, t, p, b)| + (if Counted(lab, c, rows[t], t, p, b) then 1 else 0)
  {
    var before, after := CountedPairs(lab, c, rows, t, p, b), CountedPairs(lab, c, rows, t + 1, p, b);
    forall d | d in after
      ensures d in before || d == (t, p)
    {
      assert d == (d.0, d.1);
    }
    PairAdds(before, after, (t, p), Counted(lab, c, rows[t], t, p, b));
  }

  lemma {:induction false} ColumnCounts(lab: Lab, c: Core, journal: seq<seq<Note>>, rows: seq<BaselineRow>, n: nat,
                                        p: nat, b: nat)
    requires |rows| == |journal| && b < BIN_COUNT && PagesEarn(lab, c, journal, rows, p, b) && n <= |rows|
    ensures Bundle.Earned(EvidenceOf(lab, journal, rows)[..n], Concrete, b, p) == |CountedPairs(lab, c, rows, n, p, b)|
    decreases n
  {
    if n > 0 {
      var t, evidence := n - 1, EvidenceOf(lab, journal, rows);
      ColumnCounts(lab, c, journal, rows, t, p, b);
      CountedStep(lab, c, rows, t, p, b);
      assert evidence[..n][..t] == evidence[..t] && evidence[..n][t] == PageEvidence(lab, journal[t], rows[t]);
    }
  }

  /** A whole column. */
  lemma ColumnIs(lab: Lab, c: Core, journal: seq<seq<Note>>, rows: seq<BaselineRow>, p: nat, b: nat)
    requires Sound(lab) && Matches(c, journal) && AllRecorded(lab, journal) && |rows| == |journal| && b < BIN_COUNT
    requires AllPublished(lab, rows) && AllComparable(rows, b)
    ensures Bundle.Earned(EvidenceOf(lab, journal, rows), Concrete, b, p)
            == |CountedPairs(lab, c, rows, |rows|, p, b)|
  {
    AllPagesEarn(lab, c, journal, rows, p, b);
    ColumnCounts(lab, c, journal, rows, |rows|, p, b);
    assert EvidenceOf(lab, journal, rows)[..|rows|] == EvidenceOf(lab, journal, rows);
  }

  lemma CountedAreEarned(lab: Lab, c: Core, journal: seq<seq<Note>>, rows: seq<BaselineRow>, p: nat, b: nat)
    requires Matches(c, journal) && |rows| == |journal| && b < BIN_COUNT
    ensures CountedPairs(lab, c, rows, |rows|, p, b) <= Verdicts.Earned(lab, c.done, c.blind, p, CountedAs(b))
    ensures (forall t :: 0 <= t < |rows| ==> Labelled(rows[t], lab.poc)) ==>
              CountedPairs(lab, c, rows, |rows|, p, b) == Verdicts.Earned(lab, c.done, c.blind, p, CountedAs(b))
  {
    forall d | d in c.done
      ensures d.0 < |rows| && d == (d.0, d.1)
    {
      assert d in Pairs(Executed, journal);
    }
  }

  /** The exported columns are the verifier's own counts, restricted to the inputs
      the exporter classifies against; when it does so for all of them, they are
      the verifier's counts. */
  lemma ExportedCounts(lab: Lab, c: Core, journal: seq<seq<Note>>, rows: seq<BaselineRow>, p: nat, b: nat)
    requires Sound(lab) && Matches(c, journal) && AllRecorded(lab, journal) && |rows| == |journal| && b < BIN_COUNT
    requires Exact(lab, c) && AllPublished(lab, rows) && AllComparable(rows, b)
    ensures Bundle.Earned(EvidenceOf(lab, journal, rows), Concrete, b, p)
            == |CountedPairs(lab, c, rows, |rows|, p, b)| <= CountOf(c.ledger, p, CountedAs(b))
    ensures (forall t :: 0 <= t < |rows| ==> Labelled(rows[t], lab.poc)) ==>
              Bundle.Earned(EvidenceOf(lab, journal, rows), Concrete, b, p) == CountOf(c.ledger, p, CountedAs(b))
  {
    ColumnIs(lab, c, journal, rows, p, b);
    CountedAreEarned(lab, c, journal, rows, p, b);
    assert IsCounted(CountedAs(b));
    SmallerPairs(CountedPairs(lab, c, rows, |rows|, p, b), Verdicts.Earned(lab, c.done, c.blind, p, CountedAs(b)));
  }

  lemma SmallerPairs(a: set<(nat, nat)>, b: set<(nat, nat)>)
    requires a <= b
    ensures |a| <= |b|
  {
    assert b == a + (b - a);
  }

  // ----- rejected without a witness -----

  /** The candidates a run's records report as rejected in feedback mode. */
  function Terminal(records: seq<PatchRecord>): set<nat>
  {
    set i | 0 <= i < |records| && !records[i].feedbackAccepted :: records[i].patch
  }

  lemma TerminalIsHard(lab: Lab, c: Core, p: nat)
    requires lab.feedback && p in lab.patches
    ensures p in Terminal(RecordsOf(lab, c, Conclude(lab, c))) <==> p in c.ledger.hard
  {
    var records := RecordsOf(lab, c, Conclude(lab, c));
    var i :| 0 <= i < |lab.patches| && lab.patches[i] == p;
    assert records[i].patch == p;
  }

  /** Evidence of the mutation domain adds nothing to a concrete column. */
  lemma {:induction false} OtherDomain(evidence: seq<Evidence>, more: seq<Evidence>, b: nat, p: nat)
    requires forall k :: 0 <= k < |more| ==> more[k].domain == Mutation
    ensures Bundle.Earned(evidence + more, Concrete, b, p) == Bundle.Earned(evidence, Concrete, b, p)
    decreases |more|
  {
    if more == [] {
      assert evidence + more == evidence;
    } else {
      var n := |more| - 1;
      OtherDomain(evidence, more[..n], b, p);
      assert (evidence + more)[..|evidence + more| - 1] == evidence + more[..n];
      assert (evidence + more)[|evidence + more| - 1] == more[n];
    }
  }

  /** Input `t` condemned the candidate in feedback mode. */
  ghost predicate Condemns(lab: Lab, c: Core, t: nat, p: nat)
  {
    (t, p) in c.done && IsFeedbackHard(Earns(lab, c.blind, t, p))
  }

  lemma CondemnsCounted(lab: Lab, c: Core, row: BaselineRow, t: nat, p: nat)
    ensures Condemns(lab, c, t, p) && Labelled(row, lab.poc)
            <==> Counted(lab, c, row, t, p, 4) || Counted(lab, c, row, t, p, 5)
  {
  }

  /** The concrete columns show a failure exactly when an input the exporter
      classifies against condemned the candidate. */
  lemma FailureShown(lab: Lab, c: Core, journal: seq<seq<Note>>, rows: seq<BaselineRow>, p: nat)
    requires Sound(lab) && Matches(c, journal) && AllRecorded(lab, journal) && |rows| == |journal|
    requires AllPublished(lab, rows)
    ensures var evidence := EvidenceOf(lab, journal, rows);
            Bundle.Earned(evidence, Concrete, 4, p) + Bundle.Earned(evidence, Concrete, 5, p) > 0
            <==> exists t :: 0 <= t < |rows| && Condemns(lab, c, t, p) && Labelled(rows[t], lab.poc)
  {
    ColumnIs(lab, c, journal, rows, p, 4);
    ColumnIs(lab, c, journal, rows, p, 5);
    CondemningPairs(lab, c, rows, p);
  }

  lemma CondemningPairs(lab: Lab, c: Core, rows: seq<BaselineRow>, p: nat)
    ensures |CountedPairs(lab, c, rows, |rows|, p, 4)| + |CountedPairs(lab, c, rows, |rows|, p, 5)| > 0
            <==> exists t :: 0 <= t < |rows| && Condemns(lab, c, t, p) && Labelled(rows[t], lab.poc)
  {
    var fails, traps := CountedPairs(lab, c, rows, |rows|, p, 4), CountedPairs(lab, c, rows, |rows|, p, 5);
    if t :| 0 <= t < |rows| && Condemns(lab, c, t, p) && Labelled(rows[t], lab.poc) {
      CondemnsCounted(lab, c, rows[t], t, p);
      assert (t, p) in fails || (t, p) in traps;
    }
    if |fails| + |traps| > 0 {
      assert fails != {} || traps != {};
      var d: (nat, nat) :| d in fails || d in traps;
      CondemnsCounted(lab, c, rows[d.0], d.0, p);
      assert Condemns(lab, c, d.0, p);
    }
  }

  /** A rejection appears in the verifier's books exactly when an input condemned
      the candidate. */
  lemma HardIsCondemned(lab: Lab, c: Core, p: nat)
    requires Exact(lab, c) && Balanced(c.ledger, p)
    ensures p in c.ledger.hard <==> exists t: nat :: Condemns(lab, c, t, p)
  {
    var traps := Verdicts.Earned(lab, c.done, c.blind, p, PatchCrashed);
    var fails := Verdicts.Earned(lab, c.done, c.blind, p, NoCrashFail);
    assert CountOf(c.ledger, p, PatchCrashed) == |traps| && CountOf(c.ledger, p, NoCrashFail) == |fails|;
    if t: nat :| Condemns(lab, c, t, p) { assert (t, p) in traps + fails; }
    if |traps| + |fails| > 0 {
      assert traps != {} || fails != {};
      var d: (nat, nat) :| d in traps || d in fails;
      assert Condemns(lab, c, d.0, p);
    }
  }

  /** Exactly when a rejected candidate is exported as rejected without a witness:
      every input that condemned it has a baseline the exporter does not classify
      against, and no mutation failed it.  With classifiable baselines only it
      never is. */
  lemma WitnessExactly(lab: Lab, c: Core, journal: seq<seq<Note>>, rows: seq<BaselineRow>, more: seq<Evidence>,
                       tids: map<nat, nat>, p: nat)
    requires Sound(lab) && lab.feedback && p in lab.patches && Exact(lab, c) && Balanced(c.ledger, p)
    requires Matches(c, journal) && AllRecorded(lab, journal) && |rows| == |journal| && AllPublished(lab, rows)
    requires forall k :: 0 <= k < |more| ==> more[k].domain == Mutation
    ensures var evidence := EvidenceOf(lab, journal, rows) + more;
            var terminal := Terminal(RecordsOf(lab, c, Conclude(lab, c)));
            var row := WriteCandidate(evidence, tids, terminal, p);
            row.ExcludedRow? && row.reason == WitnessUnavailable <==>
            && (exists t: nat :: Condemns(lab, c, t, p))
            && (forall t: nat :: t < |rows| && Condemns(lab, c, t, p) ==> !Labelled(rows[t], lab.poc))
            && Bundle.Earned(evidence, Mutation, 4, p) + Bundle.Earned(evidence, Mutation, 5, p) == 0
  {
    var concrete := EvidenceOf(lab, journal, rows);
    TerminalIsHard(lab, c, p);
    HardIsCondemned(lab, c, p);
    FailureShown(lab, c, journal, rows, p);
    OtherDomain(concrete, more, 4, p);
    OtherDomain(concrete, more, 5, p);
    WitnessRow(concrete + more, tids, Terminal(RecordsOf(lab, c, Conclude(lab, c))), p);
    CondemnedInside(lab, c, journal, p);
  }

  lemma WitnessRow(evidence: seq<Evidence>, tids: map<nat, nat>, terminal: set<nat>, p: nat)
    ensures var row := WriteCandidate(evidence, tids, terminal, p);
            row.ExcludedRow? && row.reason == WitnessUnavailable <==>
            && Bundle.Earned(evidence, Concrete, 4, p) + Bundle.Earned(evidence, Concrete, 5, p) == 0
            && Bundle.Earned(evidence, Mutation, 4, p) + Bundle.Earned(evidence, Mutation, 5, p) == 0 && p in terminal
    ensures var row := WriteCandidate(evidence, tids, terminal, p);
            row.ExcludedRow? && row.reason == HardReject <==>
            || Bundle.Earned(evidence, Concrete, 4, p) + Bundle.Earned(evidence, Concrete, 5, p) > 0
            || Bundle.Earned(evidence, Mutation, 4, p) + Bundle.Earned(evidence, Mutation, 5, p) > 0
  {
  }

  lemma CondemnedInside(lab: Lab, c: Core, journal: seq<seq<Note>>, p: nat)
    requires Matches(c, journal)
    ensures forall t: nat :: Condemns(lab, c, t, p) ==> t < |journal|
  {
    forall t: nat | Condemns(lab, c, t, p)
      ensures t < |journal|
    {
      assert (t, p) in Pairs(Executed, journal);
    }
  }

  /** Against baselines the exporter classifies against, concrete evidence alone
      exports a rejected candidate as rejected, and never without a witness. */
  lemma VerdictExports(lab: Lab, c: Core, journal: seq<seq<Note>>, rows: seq<BaselineRow>, tids: map<nat, nat>, p: nat)
    requires Sound(lab) && lab.feedback && p in lab.patches && Exact(lab, c) && Balanced(c.ledger, p)
    requires Matches(c, journal) && AllRecorded(lab, journal) && |rows| == |journal| && AllPublished(lab, rows)
    requires forall t :: 0 <= t < |rows| ==> Labelled(rows[t], lab.poc)
    ensures var terminal := Terminal(RecordsOf(lab, c, Conclude(lab, c)));
            var row := WriteCandidate(EvidenceOf(lab, journal, rows), tids, terminal, p);
            && ((row.ExcludedRow? && row.reason == HardReject) <==> p in c.ledger.hard)
            && !(row.ExcludedRow? && row.reason == WitnessUnavailable)
  {
    TerminalIsHard(lab, c, p);
    HardIsCondemned(lab, c, p);
    FailureShown(lab, c, journal, rows, p);
    NoMutations(lab, journal, rows, p);
    WitnessRow(EvidenceOf(lab, journal, rows), tids, Terminal(RecordsOf(lab, c, Conclude(lab, c))), p);
    CondemnedInside(lab, c, journal, p);
  }

  /** A record's fields for one candidate. */
  lemma RecordSays(lab: Lab, c: Core, i: nat)
    requires i < |lab.patches|
    ensures var r := RecordsOf(lab, c, Conclude(lab, c))[i];
            && r.patch == lab.patches[i] && (lab.feedback ==> (r.feedbackAccepted <==> r.patch !in c.ledger.hard))
            && forall o :: Get(r.observations, o) == CountOf(c.ledger, r.patch, o)
  {
  }

  /** In feedback mode, however the run stopped: against baselines the exporter
      classifies against, a candidate is exported as rejected exactly when its
      record is, never without a witness, and every exported count is the count in
      its record. */
  lemma RunExports(lab: Lab, m: nat, reason: S.StopReason, records: seq<PatchRecord>, journal: seq<seq<Note>>,
                   rows: seq<BaselineRow>, tids: map<nat, nat>, i: nat)
    requires Sound(lab) && lab.feedback && Streaming.Explained(lab, m, reason, records, journal)
    requires |rows| == |journal| && AllPublished(lab, rows) && i < |records|
    requires forall t :: 0 <= t < |rows| ==> Labelled(rows[t], lab.poc)
    ensures var row := WriteCandidate(EvidenceOf(lab, journal, rows), tids, Terminal(records), records[i].patch);
            && ((row.ExcludedRow? && row.reason == HardReject) <==> !records[i].feedbackAccepted)
            && !(row.ExcludedRow? && row.reason == WitnessUnavailable)
    ensures forall b | 0 <= b < BIN_COUNT && AllComparable(rows, b) ::
              Bundle.Earned(EvidenceOf(lab, journal, rows), Concrete, b, records[i].patch)
              == Get(records[i].observations, CountedAs(b))
  {
    var c := KnowledgeBehind(lab, m, reason, records, journal);
    RecordSays(lab, c, i);
    var p := lab.patches[i];
    forall b | 0 <= b < BIN_COUNT && AllComparable(rows, b)
      ensures Bundle.Earned(EvidenceOf(lab, journal, rows), Concrete, b, p) == CountOf(c.ledger, p, CountedAs(b))
    {
      ExportedCounts(lab, c, journal, rows, p, b);
    }
    VerdictExports(lab, c, journal, rows, tids, p);
  }

  lemma KnowledgeBehind(lab: Lab, m: nat, reason: S.StopReason, records: seq<PatchRecord>, journal: seq<seq<Note>>)
    returns (c: Core)
    requires lab.feedback && Streaming.Explained(lab, m, reason, records, journal)
    ensures Exact(lab, c) && AllRecorded(lab, journal) && Matches(c, journal)
    ensures forall p :: Balanced(c.ledger, p)
    ensures records == RecordsOf(lab, c, Conclude(lab, c))
  {
    c :| Streaming.Accounted(lab, c, m, reason, journal) && records == RecordsOf(lab, c, Conclude(lab, c));
    OpenCore(lab, c, UpTo(m));
  }

  lemma {:induction false} OnlyConcrete(evidence: seq<Evidence>, b: nat, p: nat)
    requires forall k :: 0 <= k < |evidence| ==> evidence[k].domain == Concrete
    ensures Bundle.Earned(evidence, Mutation, b, p) == 0
    decreases |evidence|
  {
    if evidence != [] { OnlyConcrete(evidence[..|evidence| - 1], b, p); }
  }

  lemma NoMutations(lab: Lab, journal: seq<seq<Note>>, rows: seq<BaselineRow>, p: nat)
    requires |rows| == |journal|
    ensures Bundle.Earned(EvidenceOf(lab, journal, rows), Mutation, 4, p) == 0
            && Bundle.Earned(EvidenceOf(lab, journal, rows), Mutation, 5, p) == 0
  {
    OnlyConcrete(EvidenceOf(lab, journal, rows), 4, p);
    OnlyConcrete(EvidenceOf(lab, journal, rows), 5, p);
  }

  /** The case is real: against an input whose own run timed out, a crash at the
      fault of the proof of concept rejects the candidate and is exported as
      unclassified. */
  lemma TimedOutBaselineHides(fault: nat, br: seq<Branch>, hits: nat)
    ensures var row, crash := MakeRow(MakeProbe(ExitTimeout, None), br, hits), MakeProbe(ExitCrash, Some(fault));
            && Eligible(row, Some(fault)) && !Labelled(row, Some(fault))
            && IsFeedbackHard(Observe(MakeTestcase(ExitTimeout, br), Some(fault), crash, None))
            && RecomputedBin(BaselineRecord(row), JournalRecord(Some(crash), None), Some(fault)) == Some(Unclassified)
  {
  }
}
