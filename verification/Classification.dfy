/** How one execution of one candidate is classified, by the verifier while it
    runs and by the exporter from the packed journal record. */
module Classification {
  import opened Options
  import opened Predicates
  import opened BranchCodec

  datatype Exit = ExitOk | ExitCrash | ExitTimeout | ExitOther

  /** A probe result; only a crash can carry a proved fault address. */
  datatype Probe = MakeProbe(exit: Exit, fault: Option<nat>)

  predicate ValidProbe(p: Probe) { p.fault.Some? ==> p.exit.ExitCrash? }

  datatype Testcase = MakeTestcase(exit: Exit, br: seq<Branch>)

  datatype Observation =
    | PatchCrashed | CrashSkipDiffAddr | CrashFail | CrashPass | CrashTimeout
    | NoCrashSkipDiffAddr | NoCrashFail | NoCrashSameBranch | NoCrashDiffBranch | NoCrashTimeout
    | Unobserved | AttemptedUnusable

  // ----- the verifier's side -----

  /** The crash is at the fault of the proof of concept. */
  predicate AtPocFault(probe: Probe, poc: Option<nat>)
  {
    probe.fault.Some? && poc.Some? && probe.fault == poc
  }

  function Observe(t: Testcase, poc: Option<nat>, probe: Probe, branches: Option<seq<Branch>>): Observation
  {
    if branches.Some? && 2 in branches.value then PatchCrashed
    else if t.exit.ExitCrash? then
      match probe.exit
      case ExitCrash => if AtPocFault(probe, poc) then CrashFail else CrashSkipDiffAddr
      case ExitOk => CrashPass
      case ExitTimeout => CrashTimeout
      case ExitOther => Unobserved
    else
      match probe.exit
      case ExitCrash => if AtPocFault(probe, poc) then NoCrashFail else NoCrashSkipDiffAddr
      case ExitOk =>
        if branches.None? then Unobserved
        else if t.br == branches.value then NoCrashSameBranch else NoCrashDiffBranch
      case ExitTimeout => NoCrashTimeout
      case ExitOther => Unobserved
  }

  /** The three observations that condemn a candidate. */
  predicate IsHard(o: Observation) { o.PatchCrashed? || o.CrashFail? || o.NoCrashFail? }

  /** The two that condemn it in feedback mode. */
  predicate IsFeedbackHard(o: Observation) { o.PatchCrashed? || o.NoCrashFail? }

  /** Whether the verifier rejects the candidate at once. */
  predicate Rejects(o: Observation, feedback: bool)
  {
    if feedback then IsFeedbackHard(o) else IsHard(o)
  }

  predicate IsEvidence(o: Observation)
  {
    IsHard(o) || o.CrashPass? || o.NoCrashSameBranch? || o.NoCrashDiffBranch?
  }

  predicate IsAccepted(o: Observation) { o.CrashPass? || o.NoCrashSameBranch? }

  /** A hard observation is a trap or a crash at the fault of the proof of
      concept, and nothing else. */
  lemma HardMeansFailure(t: Testcase, poc: Option<nat>, probe: Probe, branches: Option<seq<Branch>>)
    requires ValidProbe(probe)
    ensures IsHard(Observe(t, poc, probe, branches)) <==>
            (branches.Some? && 2 in branches.value) || AtPocFault(probe, poc)
  {
  }

  /** What each observation says happened, case by case: how the baseline ended,
      how the candidate did, and whether its patch trapped. */
  predicate Happened(o: Observation, t: Testcase, poc: Option<nat>, probe: Probe, branches: Option<seq<Branch>>)
  {
    var trapped := branches.Some? && 2 in branches.value;
    var crashing, atPoc := t.exit.ExitCrash?, probe.fault.Some? && probe.fault == poc;
    match o
    case PatchCrashed => trapped
    case CrashFail => !trapped && crashing && probe.exit.ExitCrash? && atPoc
    case CrashSkipDiffAddr => !trapped && crashing && probe.exit.ExitCrash? && !atPoc
    case CrashPass => !trapped && crashing && probe.exit.ExitOk?
    case CrashTimeout => !trapped && crashing && probe.exit.ExitTimeout?
    case NoCrashFail => !trapped && !crashing && probe.exit.ExitCrash? && atPoc
    case NoCrashSkipDiffAddr => !trapped && !crashing && probe.exit.ExitCrash? && !atPoc
    case NoCrashSameBranch => !trapped && !crashing && probe.exit.ExitOk? && branches == Some(t.br)
    case NoCrashDiffBranch => !trapped && !crashing && probe.exit.ExitOk? && branches.Some? && branches.value != t.br
    case NoCrashTimeout => !trapped && !crashing && probe.exit.ExitTimeout?
    case Unobserved => !trapped && (probe.exit.ExitOther? || (!crashing && probe.exit.ExitOk? && branches.None?))
    case AttemptedUnusable => false
  }

  /** For every baseline and every execution, exactly one observation happened,
      and it is the one recorded. */
  lemma ObservedIsWhatHappened(t: Testcase, poc: Option<nat>, probe: Probe, branches: Option<seq<Branch>>,
                               o: Observation)
    ensures Observe(t, poc, probe, branches) == o <==> Happened(o, t, poc, probe, branches)
  {
  }

  // ----- the exporter's side -----

  datatype RecordedOutcome = Normal | Crash | TimedOut | Unusable

  /** A journal record, as far as classification reads it. */
  datatype Record = MakeRecord(
    outcome: RecordedOutcome, faultValid: bool, faultAddr: nat, packed: Packed)

  function OutcomeOf(e: Exit): RecordedOutcome
  {
    match e
    case ExitOk => Normal
    case ExitCrash => Crash
    case ExitTimeout => TimedOut
    case ExitOther => Unusable
  }

  /** What the journal stores for an attempt; no probe is an unusable attempt. */
  function JournalRecord(probe: Option<Probe>, branches: Option<seq<Branch>>): Record
  {
    match probe
    case None => MakeRecord(Unusable, false, 0, PackBranches(branches))
    case Some(p) =>
      MakeRecord(OutcomeOf(p.exit), p.fault.Some?, if p.fault.Some? then p.fault.value else 0,
                 PackBranches(branches))
  }

  /** The journal keeps what an attempt showed: how it ended, the fault address if
      one was proved, and the branch vector if there is one. */
  lemma JournalKeeps(probe: Option<Probe>, branches: Option<seq<Branch>>)
    ensures var r := JournalRecord(probe, branches);
            && (r.outcome.Normal? <==> probe.Some? && probe.value.exit.ExitOk?)
            && (r.outcome.Crash? <==> probe.Some? && probe.value.exit.ExitCrash?)
            && (r.outcome.TimedOut? <==> probe.Some? && probe.value.exit.ExitTimeout?)
            && (r.faultValid <==> probe.Some? && probe.value.fault.Some?)
            && (r.faultValid ==> r.faultAddr == probe.value.fault.value) && (!r.faultValid ==> r.faultAddr == 0)
            && UnpackBranches(r.packed) == Vector(branches)
  {
    BranchCodecRoundTrip(branches);
  }

  /** A published baseline row: how the unpatched input behaved. */
  datatype BaselineRow = MakeRow(probe: Probe, br: seq<Branch>, patchHits: nat)

  /** The exporter's reading of it: a vector of the wrong length is dropped. */
  function BaselineRecord(row: BaselineRow): Record
  {
    JournalRecord(Some(row.probe), if |row.br| == row.patchHits then Some(row.br) else None)
  }

  datatype Label = LabelNormal | LabelTarget | LabelOther | LabelUnknown

  function LabelOf(r: Record, poc: Option<nat>): Label
  {
    if r.outcome.Normal? then LabelNormal
    else if !r.outcome.Crash? || !r.faultValid || poc.None? then LabelUnknown
    else if r.faultAddr == poc.value then LabelTarget else LabelOther
  }

  datatype Bin =
    | BinCrashFail | BinCrashPass | BinSameBranch | BinDiffBranch | BinNoCrashFail | BinPatchCrashed
    | IgnoredOtherFault | Unclassified | UnusableBin

  /** The exporter's bin; an unreadable vector raises. */
  function RecomputedBin(baseline: Record, trace: Record, poc: Option<nat>): Option<Bin>
  {
    var original := LabelOf(baseline, poc);
    if !original.LabelNormal? && !original.LabelTarget? then
      Some(if original.LabelOther? then IgnoredOtherFault else Unclassified)
    else
      var u := UnpackBranches(trace.packed);
      if u.Malformed? then None
      else if u.branches.Some? && 2 in u.branches.value then Some(BinPatchCrashed)
      else
        var outcome := LabelOf(trace, poc);
        if outcome.LabelOther? then Some(IgnoredOtherFault)
        else if outcome.LabelUnknown? then Some(UnusableBin)
        else if original.LabelTarget? then Some(if outcome.LabelNormal? then BinCrashPass else BinCrashFail)
        else if outcome.LabelTarget? then Some(BinNoCrashFail)
        else
          var v := UnpackBranches(baseline.packed);
          if v.Malformed? then None
          else if u.branches.None? || v.branches.None? then Some(UnusableBin)
          else Some(if u.branches == v.branches then BinSameBranch else BinDiffBranch)
  }

  /** The exporter's canonical form of the observation the verifier advertised. */
  function CanonicalBin(o: Observation, outcome: Label): Bin
  {
    match o
    case PatchCrashed => BinPatchCrashed
    case CrashFail => BinCrashFail
    case CrashPass => BinCrashPass
    case NoCrashFail => BinNoCrashFail
    case NoCrashSameBranch => BinSameBranch
    case NoCrashDiffBranch => BinDiffBranch
    case CrashSkipDiffAddr => if outcome.LabelUnknown? then UnusableBin else IgnoredOtherFault
    case NoCrashSkipDiffAddr => if outcome.LabelUnknown? then UnusableBin else IgnoredOtherFault
    case _ => UnusableBin
  }

  /** What the verifier records for an attempt against a published input. */
  function Advertised(row: BaselineRow, poc: Option<nat>, probe: Option<Probe>,
                    branches: Option<seq<Branch>>): Observation
  {
    match probe
    case None => AttemptedUnusable
    case Some(p) => Observe(MakeTestcase(row.probe.exit, row.br), poc, p, branches)
  }

  /** The one family on which the two readings can differ: a normal baseline
      whose vector is not as long as its hit count, and a clean normal run. */
  predicate BaselineVectorLost(row: BaselineRow, probe: Option<Probe>, branches: Option<seq<Branch>>)
  {
    && row.probe.exit.ExitOk? && |row.br| != row.patchHits
    && probe.Some? && probe.value.exit.ExitOk?
    && branches.Some? && 2 !in branches.value
  }

  /** The exporter recomputes the verifier's bin for every normal or
      target-crash baseline and every execution result, except exactly when
      the baseline's vector was lost. */
  lemma ExporterAgrees(row: BaselineRow, poc: Option<nat>, probe: Option<Probe>, branches: Option<seq<Branch>>)
    requires ValidProbe(row.probe) && (probe.Some? ==> ValidProbe(probe.value))
    requires probe.None? ==> branches.None?
    requires LabelOf(BaselineRecord(row), poc).LabelNormal? || LabelOf(BaselineRecord(row), poc).LabelTarget?
    ensures var trace := JournalRecord(probe, branches);
            RecomputedBin(BaselineRecord(row), trace, poc)
              == Some(CanonicalBin(Advertised(row, poc, probe, branches), LabelOf(trace, poc)))
            <==> !BaselineVectorLost(row, probe, branches)
  {
    BranchCodecRoundTrip(branches);
    var kept := if |row.br| == row.patchHits then Some(row.br) else None;
    BranchCodecRoundTrip(kept);
    RecomputedFromVectors(BaselineRecord(row), JournalRecord(probe, branches), poc, kept, branches);
    BinsAgree(row, poc, probe, branches);
  }

  /** The excepted family is real: one hit whose vector was not captured, and a
      candidate that ran normally without reaching the patch site. */
  lemma LostVectorDisagrees(poc: Option<nat>)
    ensures var normal := MakeProbe(ExitOk, None);
            var row, probe, branches := MakeRow(normal, [], 1), Some(normal), Some([]);
            var trace := JournalRecord(probe, branches);
            RecomputedBin(BaselineRecord(row), trace, poc)
              != Some(CanonicalBin(Advertised(row, poc, probe, branches), LabelOf(trace, poc)))
  {
    var normal := MakeProbe(ExitOk, None);
    ExporterAgrees(MakeRow(normal, [], 1), poc, Some(normal), Some([]));
  }

  /** The label an execution result gets once it is journalled. */
  function ProbeLabel(probe: Option<Probe>, poc: Option<nat>): Label
  {
    match probe
    case None => LabelUnknown
    case Some(p) =>
      if p.exit.ExitOk? then LabelNormal
      else if !p.exit.ExitCrash? || p.fault.None? || poc.None? then LabelUnknown
      else if p.fault == poc then LabelTarget else LabelOther
  }

  lemma JournalKeepsLabel(probe: Option<Probe>, branches: Option<seq<Branch>>, poc: Option<nat>)
    ensures LabelOf(JournalRecord(probe, branches), poc) == ProbeLabel(probe, poc)
  {
  }

  lemma BinsAgree(row: BaselineRow, poc: Option<nat>, probe: Option<Probe>, branches: Option<seq<Branch>>)
    requires ValidProbe(row.probe) && (probe.Some? ==> ValidProbe(probe.value))
    requires probe.None? ==> branches.None?
    requires LabelOf(BaselineRecord(row), poc).LabelNormal? || LabelOf(BaselineRecord(row), poc).LabelTarget?
    ensures var kept := if |row.br| == row.patchHits then Some(row.br) else None;
            var outcome := LabelOf(JournalRecord(probe, branches), poc);
            BinOf(LabelOf(BaselineRecord(row), poc), outcome, kept, branches)
              == CanonicalBin(Advertised(row, poc, probe, branches), outcome)
            <==> !BaselineVectorLost(row, probe, branches)
  {
    JournalKeepsLabel(probe, branches, poc);
    JournalKeepsLabel(Some(row.probe), if |row.br| == row.patchHits then Some(row.br) else None, poc);
  }

  /** The bin as a function of the labels and the two vectors alone. */
  function BinOf(original: Label, outcome: Label, kept: Option<seq<Branch>>, branches: Option<seq<Branch>>): Bin
  {
    if branches.Some? && 2 in branches.value then BinPatchCrashed
    else match outcome
      case LabelOther => IgnoredOtherFault
      case LabelUnknown => UnusableBin
      case LabelNormal =>
        if original.LabelTarget? then BinCrashPass
        else if branches.None? || kept.None? then UnusableBin
        else if branches == kept then BinSameBranch else BinDiffBranch
      case LabelTarget => if original.LabelTarget? then BinCrashFail else BinNoCrashFail
  }

  lemma RecomputedFromVectors(baseline: Record, trace: Record, poc: Option<nat>,
                              kept: Option<seq<Branch>>, branches: Option<seq<Branch>>)
    requires UnpackBranches(baseline.packed) == Vector(kept) && UnpackBranches(trace.packed) == Vector(branches)
    requires LabelOf(baseline, poc).LabelNormal? || LabelOf(baseline, poc).LabelTarget?
    ensures RecomputedBin(baseline, trace, poc)
            == Some(BinOf(LabelOf(baseline, poc), LabelOf(trace, poc), kept, branches))
  {
  }

  /** What each bin says happened, for any published baseline and any attempt. */
  predicate BinHappened(bin: Bin, row: BaselineRow, poc: Option<nat>, probe: Option<Probe>,
                        branches: Option<seq<Branch>>)
  {
    var fine, kept := row.probe.exit.ExitOk?, |row.br| == row.patchHits;
    var located := row.probe.fault.Some? && poc.Some?;
    var target, other := located && row.probe.fault == poc, located && row.probe.fault != poc;
    var trapped, passed := branches.Some? && 2 in branches.value, probe.Some? && probe.value.exit.ExitOk?;
    var crashed := probe.Some? && probe.value.fault.Some? && poc.Some?;
    var failed := crashed && probe.value.fault == poc;
    match bin
    case BinPatchCrashed => (fine || target) && trapped
    case BinCrashFail => target && !trapped && failed
    case BinCrashPass => target && !trapped && passed
    case BinNoCrashFail => fine && !trapped && failed
    case BinSameBranch => fine && !trapped && passed && kept && branches == Some(row.br)
    case BinDiffBranch => fine && !trapped && passed && kept && branches.Some? && branches.value != row.br
    case IgnoredOtherFault => other || ((fine || target) && !trapped && crashed && !failed)
    case Unclassified => !fine && !target && !other
    case UnusableBin =>
      (fine || target) && !trapped && !crashed && (!passed || (fine && (branches.None? || !kept)))
  }

  /** For every baseline and every attempt the journal can hold, exactly one bin
      happened, and it is the one recomputed from the packed records. */
  lemma RecomputedIsWhatHappened(row: BaselineRow, poc: Option<nat>, probe: Option<Probe>,
                                 branches: Option<seq<Branch>>, bin: Bin)
    requires ValidProbe(row.probe) && (probe.Some? ==> ValidProbe(probe.value))
    ensures RecomputedBin(BaselineRecord(row), JournalRecord(probe, branches), poc) == Some(bin)
            <==> BinHappened(bin, row, poc, probe, branches)
  {
    var kept := if |row.br| == row.patchHits then Some(row.br) else None;
    var baseline, trace := BaselineRecord(row), JournalRecord(probe, branches);
    BranchCodecRoundTrip(branches);
    BranchCodecRoundTrip(kept);
    JournalKeepsLabel(probe, branches, poc);
    JournalKeepsLabel(Some(row.probe), kept, poc);
    if LabelOf(baseline, poc).LabelNormal? || LabelOf(baseline, poc).LabelTarget? {
      RecomputedFromVectors(baseline, trace, poc, kept, branches);
      LabelledBin(row, poc, probe, branches, bin);
    }
  }

  lemma LabelledBin(row: BaselineRow, poc: Option<nat>, probe: Option<Probe>, branches: Option<seq<Branch>>, bin: Bin)
    requires ValidProbe(row.probe) && (probe.Some? ==> ValidProbe(probe.value))
    requires var original := ProbeLabel(Some(row.probe), poc); original.LabelNormal? || original.LabelTarget?
    ensures BinOf(ProbeLabel(Some(row.probe), poc), ProbeLabel(probe, poc),
                  if |row.br| == row.patchHits then Some(row.br) else None, branches) == bin
            <==> BinHappened(bin, row, poc, probe, branches)
  {
  }

  /** An admitted baseline is one of the two labels, or neither crashed nor
      exited normally. */
  predicate Eligible(row: BaselineRow, poc: Option<nat>)
  {
    !row.probe.exit.ExitCrash? || AtPocFault(row.probe, poc)
  }

  lemma LabelledRowsAreAdmitted(row: BaselineRow, poc: Option<nat>)
    requires ValidProbe(row.probe)
    ensures LabelOf(BaselineRecord(row), poc).LabelNormal? <==> row.probe.exit.ExitOk?
    ensures LabelOf(BaselineRecord(row), poc).LabelTarget? <==> row.probe.exit.ExitCrash? && Eligible(row, poc)
  {
  }
}
