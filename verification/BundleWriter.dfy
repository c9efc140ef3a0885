/** The writer of a feedback bundle: it streams one input's evidence at a time
    and keeps only per-candidate counters between inputs. */
module BundleWriter {
  import opened Options
  import opened IdRanges
  import opened MemberPool
  import opened BitCounts
  import opened Bundle
  import opened BundleMeaning

  type Counts = map<nat, seq<nat>>

  ghost predicate Shaped(ordered: seq<nat>, counts: Counts)
  {
    counts.Keys == Ids(ordered) && forall p :: p in counts ==> |counts[p]| == BIN_COUNT
  }

  /** The counters hold the earlier inputs' evidence and this input's records. */
  ghost predicate Holds(ordered: seq<nat>, counts: Counts, evidence: seq<Evidence>, d: Domain, records: seq<Rec>)
  {
    Shaped(ordered, counts)
    && forall p, b :: p in counts && 0 <= b < BIN_COUNT ==>
      counts[p][b] == Earned(evidence, d, b, p) + EarnedIn(records, b, p)
  }

  // ----- one record -----

  /** One more in column `bin` for every member, and nothing else. */
  method CountMembers(ordered: seq<nat>, counts: Counts, members: set<nat>, bin: nat) returns (after: Counts)
    requires Shaped(ordered, counts) && members <= Ids(ordered) && bin < BIN_COUNT
    ensures Shaped(ordered, after)
    ensures forall p, b :: p in counts && 0 <= b < BIN_COUNT ==>
              after[p][b] == counts[p][b] + (if b == bin && p in members then 1 else 0)
  {
    after := counts;
    var rest := members;
    while rest != {}
      invariant rest <= members && Shaped(ordered, after)
      invariant forall p, b :: p in counts && 0 <= b < BIN_COUNT ==>
                  after[p][b] == counts[p][b] + (if b == bin && p in members && p !in rest then 1 else 0)
      decreases |rest|
    {
      var p :| p in rest;
      after := after[p := after[p][bin := after[p][bin] + 1]];
      rest := rest - {p};
    }
  }

  /** The guards of one record: members are candidates not yet recorded for
      this input, and a traced group contains its representative.  A mutation
      group whose representative is the unpatched baseline drops it. */
  predicate RecordFits(ordered: seq<nat>, d: Domain, seen: set<nat>, r: Rec)
  {
    && r.members <= Ids(ordered) && r.members !! seen
    && (r.Traced? && r.members != {} ==> r.representative in r.members || (d == Mutation && r.representative == 0))
  }

  /** Every record passes its guard when its turn comes. */
  ghost predicate AllFit(ordered: seq<nat>, d: Domain, records: seq<Rec>)
  {
    records == [] ||
    var n := |records| - 1;
    AllFit(ordered, d, records[..n]) && RecordFits(ordered, d, Observed(records[..n]) + SkippedOnes(records[..n]),
                                                   records[n])
  }

  /** What the guards establish, independently of the order of checking. */
  lemma {:induction false} FitRecordsAreOk(ordered: seq<nat>, d: Domain, records: seq<Rec>)
    requires AllFit(ordered, d, records)
    ensures RecordsOk(ordered, records)
    decreases |records|
  {
    if records != [] {
      var n := |records| - 1;
      var before := records[..n];
      FitRecordsAreOk(ordered, d, before);
      forall j | 0 <= j < n
        ensures records[j].members !! records[n].members
      {
        RecordedSomewhere(before, j);
        assert before[j] == records[j];
      }
      OkSnoc(ordered, records);
    }
  }

  /** A group with members stands for one of them; a mutation group may stand for
      the unpatched baseline, which it dropped. */
  predicate StandsInside(d: Domain, r: Rec)
  {
    r.Traced? && r.members != {} ==> r.representative in r.members || (d == Mutation && r.representative == 0)
  }

  /** The guards pass exactly when the records name candidates only, none twice,
      and every group its own representative. */
  lemma {:induction false} FitExactly(ordered: seq<nat>, d: Domain, records: seq<Rec>)
    ensures AllFit(ordered, d, records) <==>
            RecordsOk(ordered, records) && forall k :: 0 <= k < |records| ==> StandsInside(d, records[k])
    decreases |records|
  {
    if AllFit(ordered, d, records) { FitRecordsAreOk(ordered, d, records); }
    if records != [] {
      var n := |records| - 1;
      FitExactly(ordered, d, records[..n]);
      assert forall k :: 0 <= k < n ==> records[..n][k] == records[k];
      if RecordsOk(ordered, records) {
        PrefixOk(ordered, records);
        LastIsNew(ordered, records);
      }
    }
  }

  lemma {:induction false} RecordedSomewhere(records: seq<Rec>, j: nat)
    requires j < |records|
    ensures records[j].members <= Observed(records) + SkippedOnes(records)
    decreases |records|
  {
    var n := |records| - 1;
    if j < n {
      RecordedSomewhere(records[..n], j);
      assert records[..n][j] == records[j];
    }
  }

  lemma OkSnoc(ordered: seq<nat>, records: seq<Rec>)
    requires records != [] && RecordsOk(ordered, records[..|records| - 1])
    requires records[|records| - 1].members <= Ids(ordered)
    requires forall j :: 0 <= j < |records| - 1 ==> records[j].members !! records[|records| - 1].members
    requires var r := records[|records| - 1];
             r.Traced? && r.members != {} && r.representative != 0 ==> r.representative in r.members
    ensures RecordsOk(ordered, records)
  {
    var before := records[..|records| - 1];
    assert forall k :: 0 <= k < |before| ==> before[k] == records[k];
  }

  // ----- one input -----

  /** The state while one input is streamed. */
  ghost predicate Streamed(ordered: seq<nat>, records: seq<Rec>, rows: seq<ObservationRow>,
                           observed: set<nat>, usable: set<nat>, skipped: set<nat>)
  {
    && rows == ObservationRows(ordered, records)
    && observed == Observed(records) && usable == Usable(records) && skipped == SkippedOnes(records)
  }

  lemma StreamedSkip(ordered: seq<nat>, before: seq<Rec>, r: Rec, rows: seq<ObservationRow>,
                     observed: set<nat>, usable: set<nat>, skipped: set<nat>)
    requires Streamed(ordered, before, rows, observed, usable, skipped) && r.Skipped?
    ensures Streamed(ordered, before + [r], rows, observed, usable, skipped + r.members)
  {
    assert (before + [r])[..|before|] == before;
  }

  lemma StreamedTrace(ordered: seq<nat>, before: seq<Rec>, r: Rec, rows: seq<ObservationRow>,
                      observed: set<nat>, usable: set<nat>, skipped: set<nat>)
    requires Streamed(ordered, before, rows, observed, usable, skipped) && r.Traced?
    ensures Streamed(ordered, before + [r], if r.members == {} then rows else rows + [ObserveRow(ordered, r)],
                     observed + r.members, if BinIndex(r.bin).Some? then usable + r.members else usable, skipped)
  {
    assert (before + [r])[..|before|] == before;
  }

  lemma EarnedInSnoc(before: seq<Rec>, r: Rec, b: nat, p: nat)
    ensures EarnedIn(before + [r], b, p) == EarnedIn(before, b, p)
            + (if r.Traced? && BinIndex(r.bin) == Some(b) && p in r.members then 1 else 0)
  {
    assert (before + [r])[..|before|] == before;
  }

  lemma HoldsUncounted(ordered: seq<nat>, counts: Counts, evidence: seq<Evidence>, d: Domain, before: seq<Rec>, r: Rec)
    requires Holds(ordered, counts, evidence, d, before) && (r.Skipped? || BinIndex(r.bin).None?)
    ensures Holds(ordered, counts, evidence, d, before + [r])
  {
    forall p, b | p in counts && 0 <= b < BIN_COUNT
      ensures EarnedIn(before + [r], b, p) == EarnedIn(before, b, p)
    {
      EarnedInSnoc(before, r, b, p);
    }
  }

  /** Count one record, if its bin is counted. */
  method CountRecord(ordered: seq<nat>, counts: Counts, ghost evidence: seq<Evidence>, ghost d: Domain,
                     ghost before: seq<Rec>, r: Rec)
    returns (after: Counts)
    requires Holds(ordered, counts, evidence, d, before) && r.members <= Ids(ordered)
    ensures Holds(ordered, after, evidence, d, before + [r])
  {
    if r.Skipped? || BinIndex(r.bin).None? {
      HoldsUncounted(ordered, counts, evidence, d, before, r);
      return counts;
    }
    after := CountMembers(ordered, counts, r.members, BinIndex(r.bin).value);
    forall p, b | p in after && 0 <= b < BIN_COUNT
      ensures after[p][b] == Earned(evidence, d, b, p) + EarnedIn(before + [r], b, p)
    {
      EarnedInSnoc(before, r, b, p);
    }
  }

  lemma AllFitSnoc(ordered: seq<nat>, d: Domain, before: seq<Rec>, r: Rec)
    ensures AllFit(ordered, d, before + [r]) <==>
            AllFit(ordered, d, before) && RecordFits(ordered, d, Observed(before) + SkippedOnes(before), r)
  {
    assert (before + [r])[..|before|] == before;
  }

  lemma {:induction false} FitPrefix(ordered: seq<nat>, d: Domain, records: seq<Rec>, k: nat)
    requires AllFit(ordered, d, records) && k <= |records|
    ensures AllFit(ordered, d, records[..k])
    decreases |records|
  {
    if k < |records| {
      FitPrefix(ordered, d, records[..|records| - 1], k);
      assert records[..|records| - 1][..k] == records[..k];
    } else {
      assert records[..k] == records;
    }
  }

  /** Stream one input: its rows, its coverage, and its share of the counters. */
  method WriteInputRows(ordered: seq<nat>, e: Evidence, counts: Counts, ghost evidence: seq<Evidence>)
    returns (ok: bool, input: InputRows, after: Counts)
    requires Holds(ordered, counts, evidence, e.domain, [])
    ensures ok <==> AllFit(ordered, e.domain, e.records)
    ensures ok ==> input == WriteInput(ordered, e) && Holds(ordered, after, evidence, e.domain, e.records)
  {
    var rows: seq<ObservationRow>, observed: set<nat>, usable: set<nat>, skipped: set<nat> := [], {}, {}, {};
    after, input := counts, MakeInput(e.domain, [], MakeCoverage(Complete, "", "", ""));
    for k := 0 to |e.records|
      invariant AllFit(ordered, e.domain, e.records[..k])
      invariant Streamed(ordered, e.records[..k], rows, observed, usable, skipped)
      invariant Holds(ordered, after, evidence, e.domain, e.records[..k])
    {
      var r := e.records[k];
      ghost var before := e.records[..k];
      assert e.records[..k + 1] == before + [r];
      AllFitSnoc(ordered, e.domain, before, r);
      if !RecordFits(ordered, e.domain, observed + skipped, r) {
        if AllFit(ordered, e.domain, e.records) { FitPrefix(ordered, e.domain, e.records, k + 1); }
        return false, input, after;
      }
      after := CountRecord(ordered, after, evidence, e.domain, before, r);
      match r
      case Skipped(members) =>
        StreamedSkip(ordered, before, r, rows, observed, usable, skipped);
        skipped := skipped + members;
      case Traced(representative, members, bin) =>
        StreamedTrace(ordered, before, r, rows, observed, usable, skipped);
        if members != {} { rows := rows + [ObserveRow(ordered, r)]; }
        observed := observed + members;
        if BinIndex(bin).Some? { usable := usable + members; }
    }
    assert e.records[..|e.records|] == e.records;
    return true, MakeInput(e.domain, rows, WriteCoverage(ordered, observed, usable, skipped)), after;
  }

  // ----- the writer -----

  /** Rows and counters are those of the evidence streamed so far. */
  ghost predicate Written(ordered: seq<nat>, evidence: seq<Evidence>, inputs: seq<InputRows>, concrete: Counts,
                          mutation: Counts)
  {
    && inputs == WriteInputs(ordered, evidence) && AllRecordsOk(ordered, evidence)
    && Holds(ordered, concrete, evidence, Concrete, []) && Holds(ordered, mutation, evidence, Mutation, [])
  }

  ghost predicate AllRecordsOk(ordered: seq<nat>, evidence: seq<Evidence>)
  {
    forall k :: 0 <= k < |evidence| ==> RecordsOk(ordered, evidence[k].records)
  }

  lemma WrittenNext(ordered: seq<nat>, evidence: seq<Evidence>, inputs: seq<InputRows>, concrete: Counts,
                    mutation: Counts, e: Evidence, input: InputRows, counts: Counts)
    requires Written(ordered, evidence, inputs, concrete, mutation)
    requires AllFit(ordered, e.domain, e.records) && input == WriteInput(ordered, e)
    requires Holds(ordered, counts, evidence, e.domain, e.records)
    ensures Written(ordered, evidence + [e], inputs + [input], if e.domain == Concrete then counts else concrete,
                    if e.domain == Mutation then counts else mutation)
  {
    AllOkSnoc(ordered, evidence, e);
    InputsSnoc(ordered, evidence, e);
    HoldsNext(ordered, counts, evidence, e);
    match e.domain
    case Concrete => HoldsOther(ordered, mutation, evidence, e, Mutation);
    case Mutation => HoldsOther(ordered, concrete, evidence, e, Concrete);
  }

  lemma AllOkSnoc(ordered: seq<nat>, evidence: seq<Evidence>, e: Evidence)
    requires AllRecordsOk(ordered, evidence) && AllFit(ordered, e.domain, e.records)
    ensures AllRecordsOk(ordered, evidence + [e])
  {
    FitRecordsAreOk(ordered, e.domain, e.records);
  }

  class Writer {
    const ordered: seq<nat>
    var inputs: seq<InputRows>
    var concrete: Counts
    var mutation: Counts
    ghost var evidence: seq<Evidence>

    ghost predicate Valid()
      reads this
    {
      Universe(ordered) && Written(ordered, evidence, inputs, concrete, mutation)
    }

    constructor (ordered: seq<nat>)
      requires Universe(ordered)
      ensures Valid() && this.ordered == ordered && evidence == []
    {
      this.ordered := ordered;
      inputs, evidence := [], [];
      concrete := map p | p in Ids(ordered) :: seq(BIN_COUNT, _ => 0);
      mutation := map p | p in Ids(ordered) :: seq(BIN_COUNT, _ => 0);
    }

    /** Stream one input; a violated guard raises. */
    method Input(e: Evidence) returns (ok: bool)
      requires Valid()
      modifies this
      ensures ok <==> AllFit(ordered, e.domain, e.records)
      ensures Valid() && evidence == if ok then old(evidence) + [e] else old(evidence)
    {
      var input, counts;
      ok, input, counts := WriteInputRows(ordered, e, if e.domain == Concrete then concrete else mutation, evidence);
      if !ok { return; }
      WrittenNext(ordered, evidence, inputs, concrete, mutation, e, input, counts);
      match e.domain {
        case Concrete => concrete := counts;
        case Mutation => mutation := counts;
      }
      inputs := inputs + [input];
      evidence := evidence + [e];
    }

    /** The last rows, from the counters alone. */
    method LastRows(tids: map<nat, nat>, terminal: set<nat>) returns (last: seq<CandidateRow>)
      requires Valid()
      ensures last == WriteCandidates(ordered, evidence, tids, terminal)
      ensures forall i :: 0 <= i < |last| ==> Classified(evidence, tids, terminal, ordered[i], last[i])
    {
      last := [];
      for i := 0 to |ordered|
        invariant last == WriteCandidates(ordered, evidence, tids, terminal)[..i]
      {
        var row := LastRow(i, tids, terminal);
        last := last + [row];
      }
      forall i | 0 <= i < |last|
        ensures Classified(evidence, tids, terminal, ordered[i], last[i])
      {
        CandidateMeans(evidence, tids, terminal, ordered[i]);
      }
    }

    method LastRow(i: nat, tids: map<nat, nat>, terminal: set<nat>) returns (row: CandidateRow)
      requires Valid() && i < |ordered|
      ensures row == WriteCandidate(evidence, tids, terminal, ordered[i])
    {
      var p := ordered[i];
      assert p in Ids(ordered);
      var c, m := concrete[p], mutation[p];
      assert c == CountsOf(evidence, Concrete, p) && m == CountsOf(evidence, Mutation, p);
      if c[4] > 0 || c[5] > 0 || m[4] > 0 || m[5] > 0 { return ExcludedRow(p, HardReject, c, m); }
      if p in terminal { return ExcludedRow(p, WitnessUnavailable, c, m); }
      if p !in tids { return ExcludedRow(p, UnsupportedFamily, c, m); }
      return PredicateRow(p, tids[p], ObservedClass(c), c, ObservedClass(m), m);
    }

    /** The whole bundle.  The loader accepts it exactly when the candidate list
        has no run longer than the loader's limit. */
    method Finish(tids: map<nat, nat>, terminal: set<nat>) returns (rows: Rows)
      requires Valid() && forall p :: p in tids ==> tids[p] >= 1
      ensures rows == WriteBundle(ordered, evidence, tids, terminal)
      ensures LoaderAccepts(ordered, rows) <==> ShortRuns(Runs(ordered))
      ensures |rows.rows| == |ordered|
              && forall i :: 0 <= i < |ordered| ==> Classified(evidence, tids, terminal, ordered[i], rows.rows[i])
    {
      var last := LastRows(tids, terminal);
      var candidates := EncodeIds(ordered);
      LoaderAcceptsWriter(ordered, evidence, tids, terminal);
      return MakeRows(candidates.text, inputs, last);
    }
  }

  lemma InputsSnoc(ordered: seq<nat>, evidence: seq<Evidence>, e: Evidence)
    ensures WriteInputs(ordered, evidence + [e]) == WriteInputs(ordered, evidence) + [WriteInput(ordered, e)]
  {
  }

  lemma EarnedSnoc(evidence: seq<Evidence>, e: Evidence, d: Domain, b: nat, p: nat)
    ensures Earned(evidence + [e], d, b, p) == Earned(evidence, d, b, p)
            + (if e.domain == d then EarnedIn(e.records, b, p) else 0)
  {
    assert (evidence + [e])[..|evidence|] == evidence;
  }

  lemma HoldsNext(ordered: seq<nat>, counts: Counts, evidence: seq<Evidence>, e: Evidence)
    requires Holds(ordered, counts, evidence, e.domain, e.records)
    ensures Holds(ordered, counts, evidence + [e], e.domain, [])
  {
    forall p, b | p in counts && 0 <= b < BIN_COUNT
      ensures counts[p][b] == Earned(evidence + [e], e.domain, b, p) + EarnedIn([], b, p)
    {
      EarnedSnoc(evidence, e, e.domain, b, p);
    }
  }

  lemma HoldsOther(ordered: seq<nat>, counts: Counts, evidence: seq<Evidence>, e: Evidence, d: Domain)
    requires Holds(ordered, counts, evidence, d, []) && e.domain != d
    ensures Holds(ordered, counts, evidence + [e], d, [])
  {
    forall p, b | p in counts && 0 <= b < BIN_COUNT
      ensures Earned(evidence + [e], d, b, p) == Earned(evidence, d, b, p)
    {
      EarnedSnoc(evidence, e, d, b, p);
    }
  }
}
