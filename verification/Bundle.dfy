/** The feedback bundle: what the writer emits for the recorded evidence, and
    the loader that re-checks every row with masks and sliced counters. */
module Bundle {
  import opened Sequences
  import opened Options
  import opened Classification
  import opened IdRanges
  import opened Members
  import opened MemberPool
  import opened BitCounts
  import Sweep

  // ----- bins and classes -----

  /** The six counted bins, in column order. */
  function BinIndex(b: Bin): (i: Option<nat>)
    ensures i.Some? ==> i.value < BIN_COUNT
  {
    match b
    case BinCrashFail => Some(0)
    case BinCrashPass => Some(1)
    case BinSameBranch => Some(2)
    case BinDiffBranch => Some(3)
    case BinNoCrashFail => Some(4)
    case BinPatchCrashed => Some(5)
    case _ => None
  }

  datatype Class = Equivalent | Subset | Superset | Mixed | Insufficient

  function ObservedClass(c: seq<nat>): Class
    requires |c| == BIN_COUNT
  {
    if c[4] > 0 || c[5] > 0 || c[1] == 0 || (c[2] == 0 && c[3] == 0) then Insufficient
    else if c[0] > 0 then (if c[3] > 0 then Mixed else Subset)
    else (if c[3] > 0 then Superset else Equivalent)
  }

  datatype Domain = Concrete | Mutation

  datatype Status = Complete | Partial | Unavailable

  // ----- evidence: what was recorded for one input -----

  /** An executed group with its bin, or candidates that were not run. */
  datatype Rec = Traced(representative: nat, members: set<nat>, bin: Bin) | Skipped(members: set<nat>)

  datatype Evidence = MakeEvidence(domain: Domain, records: seq<Rec>)

  function Observed(records: seq<Rec>): set<nat>
  {
    if records == [] then {}
    else
      var before, r := Observed(records[..|records| - 1]), records[|records| - 1];
      if r.Traced? then before + r.members else before
  }

  function Usable(records: seq<Rec>): set<nat>
  {
    if records == [] then {}
    else
      var before, r := Usable(records[..|records| - 1]), records[|records| - 1];
      if r.Traced? && BinIndex(r.bin).Some? then before + r.members else before
  }

  function SkippedOnes(records: seq<Rec>): set<nat>
  {
    if records == [] then {}
    else
      var before, r := SkippedOnes(records[..|records| - 1]), records[|records| - 1];
      if r.Skipped? then before + r.members else before
  }

  function Ids(ordered: seq<nat>): set<nat> { set i | 0 <= i < |ordered| :: ordered[i] }

  predicate RepresentativeInside(r: Rec)
  {
    r.Traced? && r.members != {} && r.representative != 0 ==> r.representative in r.members
  }

  /** The writer's guards: members are candidates, no candidate is recorded
      twice for one input, and a representative stands in its own group. */
  ghost predicate RecordsOk(ordered: seq<nat>, records: seq<Rec>)
  {
    && (forall k :: 0 <= k < |records| ==> records[k].members <= Ids(ordered))
    && (forall j, k :: 0 <= j < k < |records| ==> records[j].members !! records[k].members)
    && (forall k :: 0 <= k < |records| ==> RepresentativeInside(records[k]))
  }

  /** How often candidate `p` earned bin `b` in domain `d`. */
  function EarnedIn(records: seq<Rec>, b: nat, p: nat): nat
  {
    if records == [] then 0
    else
      var r := records[|records| - 1];
      EarnedIn(records[..|records| - 1], b, p) + (if r.Traced? && BinIndex(r.bin) == Some(b)
                                                  && p in r.members then 1 else 0)
  }

  function Earned(evidence: seq<Evidence>, d: Domain, b: nat, p: nat): nat
  {
    if evidence == [] then 0
    else
      var e := evidence[|evidence| - 1];
      Earned(evidence[..|evidence| - 1], d, b, p) + (if e.domain == d then EarnedIn(e.records, b, p) else 0)
  }

  // ----- rows -----

  datatype ObservationRow = MakeObservation(representative: nat, members: string, bin: Bin)

  datatype CoverageRow = MakeCoverage(status: Status, notRun: string, unusable: string, skipped: string)

  datatype InputRows = MakeInput(domain: Domain, observations: seq<ObservationRow>, coverage: CoverageRow)

  /** Why a candidate is left out: observed to fail, known to fail from a run
      whose witness is gone, or without a predicate descriptor. */
  datatype Exclusion = HardReject | WitnessUnavailable | UnsupportedFamily

  datatype CandidateRow =
    | PredicateRow(id: nat, tid: nat, concrete: Class, concreteCounts: seq<nat>, mutation: Class,
                   mutationCounts: seq<nat>)
    | ExcludedRow(id: nat, reason: Exclusion, concreteCounts: seq<nat>, mutationCounts: seq<nat>)

  datatype Rows = MakeRows(candidates: string, inputs: seq<InputRows>, rows: seq<CandidateRow>)

  // ----- texts of sets -----

  /** The sorted members of a set of candidates. */
  function Select(ordered: seq<nat>, s: set<nat>): seq<nat>
  {
    if ordered == [] then []
    else Select(ordered[..|ordered| - 1], s) + (if ordered[|ordered| - 1] in s then [ordered[|ordered| - 1]] else [])
  }

  function EncodeSet(ordered: seq<nat>, s: set<nat>): string { RangesText(Runs(Select(ordered, s))) }

  lemma {:induction false} SelectMembers(ordered: seq<nat>, s: set<nat>, x: nat)
    ensures x in Select(ordered, s) <==> x in ordered && x in s
    decreases |ordered|
  {
    if ordered != [] {
      var n := |ordered| - 1;
      SelectMembers(ordered[..n], s, x);
      assert ordered == ordered[..n] + [ordered[n]];
    }
  }

  lemma {:induction false} SelectIncreases(ordered: seq<nat>, s: set<nat>)
    requires Increasing(ordered) && Bounded(ordered, 0)
    ensures Increasing(Select(ordered, s)) && Bounded(Select(ordered, s), 0)
    decreases |ordered|
  {
    if ordered != [] {
      var n := |ordered| - 1;
      SelectIncreases(ordered[..n], s);
      var pre := Select(ordered[..n], s);
      forall i | 0 <= i < |pre|
        ensures pre[i] < ordered[n]
      {
        SelectMembers(ordered[..n], s, pre[i]);
      }
    }
  }

  lemma {:induction false} CoversIsExpand(ranges: seq<Range>, previous: nat, id: nat)
    requires Ordered(ranges, previous)
    ensures Covers(ranges, id) <==> id in Expand(ranges, previous)
    decreases |ranges|
  {
    if ranges != [] {
      CoversCons(ranges, id);
      CoversIsExpand(ranges[1..], ranges[0].last, id);
      var r := ranges[0];
      if r.first <= id <= r.last { assert IdRanges.Members(r)[id - r.first] == id; }
    }
  }

  /** The loader reads an encoded set back as exactly its members' indices. */
  lemma EncodedSetDenotes(ordered: seq<nat>, s: set<nat>, i: nat)
    requires Universe(ordered) && s <= Ids(ordered)
    ensures BoundsOfText(ordered, EncodeSet(ordered, s)).Some?
    ensures Inside(BoundsOfText(ordered, EncodeSet(ordered, s)).value, i) <==> i < |ordered| && ordered[i] in s
  {
    var ids, text := Select(ordered, s), EncodeSet(ordered, s);
    SelectIncreases(ordered, s);
    RunsAreExact(ids);
    RangesRoundTrip(Runs(ids));
    InternExact(ordered, text, i);
    forall id: nat
      ensures Covers(Runs(ids), id) <==> id in ordered && id in s
    {
      CoversIsExpand(Runs(ids), 0, id);
      SelectMembers(ordered, s, id);
    }
  }

  // ----- the loader's view of rows, as index sets -----

  /** The candidate indices a text denotes; nothing if it is refused. */
  ghost function Indices(ordered: seq<nat>, text: string): set<nat>
  {
    var b := BoundsOfText(ordered, text);
    set i: nat | i < |ordered| && b.Some? && Inside(b.value, i)
  }

  ghost predicate TextOk(ordered: seq<nat>, text: string) { BoundsOfText(ordered, text).Some? }

  ghost predicate ObservationOk(ordered: seq<nat>, r: ObservationRow)
  {
    && TextOk(ordered, r.members) && Indices(ordered, r.members) != {}
    && (r.representative == 0 ||
        (Position(ordered, r.representative).Some?
         && Position(ordered, r.representative).value in Indices(ordered, r.members)))
  }

  /** Every row from the `i`-th on is accepted. */
  ghost predicate RowsJoin(ordered: seq<nat>, rows: seq<ObservationRow>, i: nat)
  {
    forall k :: i <= k < |rows| ==> ObservationOk(ordered, rows[k])
  }

  ghost function RowsObserved(ordered: seq<nat>, rows: seq<ObservationRow>): set<nat>
  {
    if rows == [] then {}
    else RowsObserved(ordered, rows[..|rows| - 1]) + Indices(ordered, rows[|rows| - 1].members)
  }

  ghost function RowsUsable(ordered: seq<nat>, rows: seq<ObservationRow>): set<nat>
  {
    if rows == [] then {}
    else
      var before, r := RowsUsable(ordered, rows[..|rows| - 1]), rows[|rows| - 1];
      if BinIndex(r.bin).Some? then before + Indices(ordered, r.members) else before
  }

  /** No candidate is observed twice for one input. */
  ghost predicate RowsDisjoint(ordered: seq<nat>, rows: seq<ObservationRow>)
  {
    rows == [] ||
    (RowsDisjoint(ordered, rows[..|rows| - 1])
     && RowsObserved(ordered, rows[..|rows| - 1]) !! Indices(ordered, rows[|rows| - 1].members))
  }

  function ExpectedStatus(incomplete: bool, observed: bool): Status
  {
    if !incomplete then Complete else if observed then Partial else Unavailable
  }

  /** Everything the loader demands of one input's rows. */
  ghost predicate CoverageOk(n: nat, status: Status, observed: set<nat>, usable: set<nat>,
                             missing: set<nat>, unusable: set<nat>, skipped: set<nat>)
  {
    && missing !! unusable && (missing + unusable) !! skipped
    && observed !! (missing + skipped) && usable !! unusable
    && observed + missing + skipped == Sweep.UpTo(n)
    && usable + unusable == observed
    && status == ExpectedStatus(missing != {} || unusable != {} || skipped != {}, observed != {})
  }

  ghost predicate InputOk(ordered: seq<nat>, r: InputRows)
  {
    && RowsJoin(ordered, r.observations, 0) && RowsDisjoint(ordered, r.observations)
    && TextOk(ordered, r.coverage.notRun) && TextOk(ordered, r.coverage.unusable) && TextOk(ordered, r.coverage.skipped)
    && CoverageOk(|ordered|, r.coverage.status, RowsObserved(ordered, r.observations),
                  RowsUsable(ordered, r.observations),
                  Indices(ordered, r.coverage.notRun), Indices(ordered, r.coverage.unusable),
                  Indices(ordered, r.coverage.skipped))
  }

  /** Every input from the `i`-th on is accepted. */
  ghost predicate InputsOk(ordered: seq<nat>, inputs: seq<InputRows>, i: nat)
    requires i <= |inputs|
    decreases |inputs| - i
  {
    i == |inputs| || (InputOk(ordered, inputs[i]) && InputsOk(ordered, inputs, i + 1))
  }

  /** How many rows of one input count candidate index `i` in bin `b`. */
  ghost function RowCount(ordered: seq<nat>, rows: seq<ObservationRow>, b: nat, i: nat): nat
  {
    if rows == [] then 0
    else
      var r := rows[|rows| - 1];
      RowCount(ordered, rows[..|rows| - 1], b, i)
      + (if BinIndex(r.bin) == Some(b) && i in Indices(ordered, r.members) then 1 else 0)
  }

  ghost function TotalCount(ordered: seq<nat>, inputs: seq<InputRows>, d: Domain, b: nat, i: nat): nat
  {
    if inputs == [] then 0
    else
      var r := inputs[|inputs| - 1];
      TotalCount(ordered, inputs[..|inputs| - 1], d, b, i)
      + (if r.domain == d then RowCount(ordered, r.observations, b, i) else 0)
  }

  /** A row that is classified was never hard-rejected, and its classes follow
      from its own counts. */
  predicate RowFormed(r: CandidateRow)
  {
    && |r.concreteCounts| == |r.mutationCounts| == BIN_COUNT
    && (r.PredicateRow? ==>
          && r.tid >= 1
          && r.concreteCounts[4] == r.concreteCounts[5] == 0 && r.mutationCounts[4] == r.mutationCounts[5] == 0
          && r.concrete == ObservedClass(r.concreteCounts) && r.mutation == ObservedClass(r.mutationCounts))
  }

  ghost predicate AllFormed(rows: seq<CandidateRow>) { forall k :: 0 <= k < |rows| ==> RowFormed(rows[k]) }

  /** A candidate's row agrees with the observations. */
  ghost predicate CountsAgree(ordered: seq<nat>, inputs: seq<InputRows>, r: CandidateRow, i: nat)
  {
    |r.concreteCounts| == |r.mutationCounts| == BIN_COUNT &&
    forall b :: 0 <= b < BIN_COUNT ==>
      r.concreteCounts[b] == TotalCount(ordered, inputs, Concrete, b, i)
      && r.mutationCounts[b] == TotalCount(ordered, inputs, Mutation, b, i)
  }

  predicate HasRow(rows: seq<CandidateRow>, p: nat) { exists k :: 0 <= k < |rows| && rows[k].id == p }

  /** One row for every candidate, in any order. */
  ghost predicate OneRowEach(ordered: seq<nat>, rows: seq<CandidateRow>)
  {
    && (forall k :: 0 <= k < |rows| ==> rows[k].id in ordered)
    && (forall j, k :: 0 <= j < k < |rows| ==> rows[j].id != rows[k].id)
    && (forall i :: 0 <= i < |ordered| ==> HasRow(rows, ordered[i]))
  }

  ghost predicate RowsAgree(ordered: seq<nat>, inputs: seq<InputRows>, rows: seq<CandidateRow>)
  {
    forall k, i :: 0 <= k < |rows| && 0 <= i < |ordered| && rows[k].id == ordered[i] ==>
      CountsAgree(ordered, inputs, rows[k], i)
  }

  /** What the loader accepts, over the universe its header declares. */
  ghost predicate LoaderAccepts(ordered: seq<nat>, rows: Rows)
  {
    && DecodeAnyIds(rows.candidates) == Some(ordered)
    && InputsOk(ordered, rows.inputs, 0)
    && AllFormed(rows.rows)
    && OneRowEach(ordered, rows.rows) && RowsAgree(ordered, rows.inputs, rows.rows)
  }

  // ----- what the writer emits -----

  function ObserveRow(ordered: seq<nat>, r: Rec): ObservationRow
    requires r.Traced?
  {
    MakeObservation(r.representative, EncodeSet(ordered, r.members), r.bin)
  }

  /** One row per executed group that still stands for some candidate. */
  function ObservationRows(ordered: seq<nat>, records: seq<Rec>): seq<ObservationRow>
  {
    if records == [] then []
    else
      var before, r := ObservationRows(ordered, records[..|records| - 1]), records[|records| - 1];
      if r.Traced? && r.members != {} then before + [ObserveRow(ordered, r)] else before
  }

  function WriteCoverage(ordered: seq<nat>, observed: set<nat>, usable: set<nat>, skipped: set<nat>): CoverageRow
  {
    var missing := Ids(ordered) - observed - skipped;
    var unusable := observed - usable;
    MakeCoverage(ExpectedStatus(missing != {} || unusable != {} || skipped != {}, observed != {}),
                 EncodeSet(ordered, missing), EncodeSet(ordered, unusable), EncodeSet(ordered, skipped))
  }

  function WriteInput(ordered: seq<nat>, e: Evidence): InputRows
  {
    MakeInput(e.domain, ObservationRows(ordered, e.records),
              WriteCoverage(ordered, Observed(e.records), Usable(e.records), SkippedOnes(e.records)))
  }

  function WriteInputs(ordered: seq<nat>, evidence: seq<Evidence>): (r: seq<InputRows>)
    ensures |r| == |evidence|
  {
    seq(|evidence|, k requires 0 <= k < |evidence| => WriteInput(ordered, evidence[k]))
  }

  function CountsOf(evidence: seq<Evidence>, d: Domain, p: nat): (c: seq<nat>)
    ensures |c| == BIN_COUNT
  {
    seq(BIN_COUNT, b requires 0 <= b < BIN_COUNT => Earned(evidence, d, b, p))
  }

  /** The first reason that applies. */
  function ReasonOf(c: seq<nat>, m: seq<nat>, tids: map<nat, nat>, terminal: set<nat>, p: nat): Option<Exclusion>
    requires |c| == |m| == BIN_COUNT
  {
    if c[4] > 0 || c[5] > 0 || m[4] > 0 || m[5] > 0 then Some(HardReject)
    else if p in terminal then Some(WitnessUnavailable)
    else if p !in tids then Some(UnsupportedFamily)
    else None
  }

  /** The last rows: excluded for the first reason that applies, otherwise
      classified. */
  function WriteCandidate(evidence: seq<Evidence>, tids: map<nat, nat>, terminal: set<nat>, p: nat): CandidateRow
  {
    var c, m := CountsOf(evidence, Concrete, p), CountsOf(evidence, Mutation, p);
    var reason := ReasonOf(c, m, tids, terminal, p);
    if reason.Some? then ExcludedRow(p, reason.value, c, m)
    else PredicateRow(p, tids[p], ObservedClass(c), c, ObservedClass(m), m)
  }

  /** Some executed group with candidate `p` in it earned the bin. */
  ghost predicate Shows(records: seq<Rec>, bin: Bin, p: nat)
  {
    exists k :: 0 <= k < |records| && records[k].Traced? && records[k].bin == bin && p in records[k].members
  }

  ghost predicate ShownBy(evidence: seq<Evidence>, d: Domain, bin: Bin, p: nat)
  {
    exists k :: 0 <= k < |evidence| && evidence[k].domain == d && Shows(evidence[k].records, bin, p)
  }

  lemma {:induction false} EarnedInMeans(records: seq<Rec>, bin: Bin, p: nat)
    requires BinIndex(bin).Some?
    ensures EarnedIn(records, BinIndex(bin).value, p) > 0 <==> Shows(records, bin, p)
    decreases |records|
  {
    if records != [] {
      var n := |records| - 1;
      EarnedInMeans(records[..n], bin, p);
      if Shows(records[..n], bin, p) {
        var k :| 0 <= k < n && records[..n][k].Traced? && records[..n][k].bin == bin && p in records[..n][k].members;
        assert records[k].Traced? && records[k].bin == bin && p in records[k].members;
      }
      if Shows(records, bin, p) {
        var k :| 0 <= k < |records| && records[k].Traced? && records[k].bin == bin && p in records[k].members;
        if k < n { assert records[..n][k].Traced? && records[..n][k].bin == bin && p in records[..n][k].members; }
      }
    }
  }

  /** A count is positive exactly when some record shows it. */
  lemma {:induction false} EarnedMeans(evidence: seq<Evidence>, d: Domain, bin: Bin, p: nat)
    requires BinIndex(bin).Some?
    ensures Earned(evidence, d, BinIndex(bin).value, p) > 0 <==> ShownBy(evidence, d, bin, p)
    decreases |evidence|
  {
    if evidence != [] {
      var n := |evidence| - 1;
      EarnedMeans(evidence[..n], d, bin, p);
      EarnedInMeans(evidence[n].records, bin, p);
      if ShownBy(evidence[..n], d, bin, p) {
        var k :| 0 <= k < n && evidence[..n][k].domain == d && Shows(evidence[..n][k].records, bin, p);
        assert evidence[k].domain == d && Shows(evidence[k].records, bin, p);
      }
      if ShownBy(evidence, d, bin, p) {
        var k :| 0 <= k < |evidence| && evidence[k].domain == d && Shows(evidence[k].records, bin, p);
        if k < n { assert evidence[..n][k].domain == d && Shows(evidence[..n][k].records, bin, p); }
      }
    }
  }

  /** Some group with the candidate in it failed, in either domain. */
  ghost predicate SeenFailing(evidence: seq<Evidence>, p: nat)
  {
    || ShownBy(evidence, Concrete, BinNoCrashFail, p) || ShownBy(evidence, Concrete, BinPatchCrashed, p)
    || ShownBy(evidence, Mutation, BinNoCrashFail, p) || ShownBy(evidence, Mutation, BinPatchCrashed, p)
  }

  /** A candidate is excluded as rejected exactly when some record shows it
      failing; one known to fail otherwise says so; only then does a missing
      descriptor count. */
  lemma ExclusionMeans(evidence: seq<Evidence>, tids: map<nat, nat>, terminal: set<nat>, p: nat)
    ensures var row := WriteCandidate(evidence, tids, terminal, p);
            && row.id == p
            && (row.ExcludedRow? <==> SeenFailing(evidence, p) || p in terminal || p !in tids)
            && (row.ExcludedRow? ==>
                  && (row.reason == HardReject <==> SeenFailing(evidence, p))
                  && (row.reason == WitnessUnavailable <==> !SeenFailing(evidence, p) && p in terminal)
                  && (row.reason == UnsupportedFamily <==> !SeenFailing(evidence, p) && p !in terminal && p !in tids))
  {
    EarnedMeans(evidence, Concrete, BinNoCrashFail, p);
    EarnedMeans(evidence, Concrete, BinPatchCrashed, p);
    EarnedMeans(evidence, Mutation, BinNoCrashFail, p);
    EarnedMeans(evidence, Mutation, BinPatchCrashed, p);
  }

  function WriteCandidates(ordered: seq<nat>, evidence: seq<Evidence>, tids: map<nat, nat>,
                           terminal: set<nat>): seq<CandidateRow>
  {
    seq(|ordered|, i requires 0 <= i < |ordered| => WriteCandidate(evidence, tids, terminal, ordered[i]))
  }

  function WriteBundle(ordered: seq<nat>, evidence: seq<Evidence>, tids: map<nat, nat>, terminal: set<nat>): Rows
  {
    MakeRows(RangesText(Runs(ordered)), WriteInputs(ordered, evidence),
             WriteCandidates(ordered, evidence, tids, terminal))
  }

  // ----- from ids to indices -----

  ghost function Idx(ordered: seq<nat>, s: set<nat>): set<nat> { set i: nat | i < |ordered| && ordered[i] in s }

  lemma EncodedIndices(ordered: seq<nat>, s: set<nat>)
    requires Universe(ordered) && s <= Ids(ordered)
    ensures TextOk(ordered, EncodeSet(ordered, s)) && Indices(ordered, EncodeSet(ordered, s)) == Idx(ordered, s)
  {
    EncodedSetDenotes(ordered, s, 0);
    forall i: nat
      ensures i in Indices(ordered, EncodeSet(ordered, s)) <==> i in Idx(ordered, s)
    {
      EncodedSetDenotes(ordered, s, i);
    }
  }

  lemma IdxEmpty(ordered: seq<nat>, s: set<nat>)
    requires s <= Ids(ordered)
    ensures Idx(ordered, s) == {} <==> s == {}
  {
    if s != {} {
      var x :| x in s;
      assert x in Ids(ordered);
      var i :| 0 <= i < |ordered| && ordered[i] == x;
      assert i in Idx(ordered, s);
    }
  }

  lemma IdxUnion(ordered: seq<nat>, a: set<nat>, b: set<nat>)
    ensures Idx(ordered, a + b) == Idx(ordered, a) + Idx(ordered, b)
  {
  }

  lemma IdxAll(ordered: seq<nat>)
    ensures Idx(ordered, Ids(ordered)) == Sweep.UpTo(|ordered|)
  {
    assert forall i: nat :: i < |ordered| ==> ordered[i] in Ids(ordered);
  }

  // ----- the written rows pass -----

  lemma PrefixOk(ordered: seq<nat>, records: seq<Rec>)
    requires RecordsOk(ordered, records) && records != []
    ensures RecordsOk(ordered, records[..|records| - 1]) && records[|records| - 1].members <= Ids(ordered)
  {
  }

  lemma {:induction false} RecordedSets(ordered: seq<nat>, records: seq<Rec>)
    requires RecordsOk(ordered, records)
    ensures Usable(records) <= Observed(records) <= Ids(ordered) && SkippedOnes(records) <= Ids(ordered)
    ensures Observed(records) !! SkippedOnes(records)
    decreases |records|
  {
    if records != [] {
      PrefixOk(ordered, records);
      RecordedSets(ordered, records[..|records| - 1]);
      LastIsNew(ordered, records);
    }
  }

  /** A later record shares no candidate with the earlier ones. */
  lemma LastIsNew(ordered: seq<nat>, records: seq<Rec>)
    requires RecordsOk(ordered, records) && records != []
    ensures (Observed(records[..|records| - 1])
             + SkippedOnes(records[..|records| - 1])) !! records[|records| - 1].members
  {
    var n := |records| - 1;
    forall x | x in Observed(records[..n]) + SkippedOnes(records[..n])
      ensures x !in records[n].members
    {
      var k := RecordHolding(records[..n], x);
      assert records[k] == records[..n][k];
    }
  }

  lemma {:induction false} RecordHolding(records: seq<Rec>, x: nat) returns (k: nat)
    requires x in Observed(records) + SkippedOnes(records)
    ensures k < |records| && x in records[k].members
    decreases |records|
  {
    var n := |records| - 1;
    if x in records[n].members {
      k := n;
    } else {
      k := RecordHolding(records[..n], x);
      assert records[k] == records[..n][k];
    }
  }

  /** The rows denote, index for index, what was recorded. */
  lemma {:induction false} WrittenObserved(ordered: seq<nat>, records: seq<Rec>)
    requires Universe(ordered) && RecordsOk(ordered, records)
    ensures RowsObserved(ordered, ObservationRows(ordered, records)) == Idx(ordered, Observed(records))
    decreases |records|
  {
    if records != [] {
      var n := |records| - 1;
      var r := records[n];
      PrefixOk(ordered, records);
      WrittenObserved(ordered, records[..n]);
      IdxUnion(ordered, Observed(records[..n]), r.members);
      IdxEmpty(ordered, r.members);
      if r.Traced? && r.members != {} {
        RowDenotes(ordered, r);
        RowsObservedSnoc(ordered, ObservationRows(ordered, records[..n]), ObserveRow(ordered, r));
      }
    }
  }

  lemma {:induction false} WrittenUsable(ordered: seq<nat>, records: seq<Rec>)
    requires Universe(ordered) && RecordsOk(ordered, records)
    ensures RowsUsable(ordered, ObservationRows(ordered, records)) == Idx(ordered, Usable(records))
    decreases |records|
  {
    if records != [] {
      var n := |records| - 1;
      var r := records[n];
      PrefixOk(ordered, records);
      WrittenUsable(ordered, records[..n]);
      IdxUnion(ordered, Usable(records[..n]), r.members);
      IdxEmpty(ordered, r.members);
      if r.Traced? && r.members != {} {
        RowDenotes(ordered, r);
        RowsUsableSnoc(ordered, ObservationRows(ordered, records[..n]), ObserveRow(ordered, r));
      }
    }
  }

  lemma RowDenotes(ordered: seq<nat>, r: Rec)
    requires Universe(ordered) && r.Traced? && r.members <= Ids(ordered)
    ensures TextOk(ordered, ObserveRow(ordered, r).members)
    ensures Indices(ordered, ObserveRow(ordered, r).members) == Idx(ordered, r.members)
  {
    EncodedIndices(ordered, r.members);
  }

  lemma RowsObservedSnoc(ordered: seq<nat>, rows: seq<ObservationRow>, row: ObservationRow)
    ensures RowsObserved(ordered, rows + [row]) == RowsObserved(ordered, rows) + Indices(ordered, row.members)
  {
    assert (rows + [row])[..|rows|] == rows;
  }

  lemma RowsUsableSnoc(ordered: seq<nat>, rows: seq<ObservationRow>, row: ObservationRow)
    ensures RowsUsable(ordered, rows + [row])
            == if BinIndex(row.bin).Some? then RowsUsable(ordered, rows) + Indices(ordered, row.members)
              else RowsUsable(ordered, rows)
  {
    assert (rows + [row])[..|rows|] == rows;
  }

  lemma RowsDisjointSnoc(ordered: seq<nat>, rows: seq<ObservationRow>, row: ObservationRow)
    requires RowsDisjoint(ordered, rows) && RowsObserved(ordered, rows) !! Indices(ordered, row.members)
    ensures RowsDisjoint(ordered, rows + [row])
  {
    assert (rows + [row])[..|rows|] == rows;
  }

  lemma RowCountSnoc(ordered: seq<nat>, rows: seq<ObservationRow>, row: ObservationRow, b: nat, i: nat)
    ensures RowCount(ordered, rows + [row], b, i)
            == RowCount(ordered, rows, b, i) + (if BinIndex(row.bin) == Some(b)
                                                && i in Indices(ordered, row.members) then 1 else 0)
  {
    assert (rows + [row])[..|rows|] == rows;
  }

  lemma {:induction false} WrittenDisjoint(ordered: seq<nat>, records: seq<Rec>)
    requires Universe(ordered) && RecordsOk(ordered, records)
    ensures RowsDisjoint(ordered, ObservationRows(ordered, records))
    decreases |records|
  {
    if records != [] {
      var n := |records| - 1;
      var r := records[n];
      PrefixOk(ordered, records);
      WrittenDisjoint(ordered, records[..n]);
      if r.Traced? && r.members != {} {
        RowDenotes(ordered, r);
        LastIsNew(ordered, records);
        WrittenObserved(ordered, records[..n]);
        RowsDisjointSnoc(ordered, ObservationRows(ordered, records[..n]), ObserveRow(ordered, r));
      }
    }
  }

  lemma {:induction false} WrittenObservations(ordered: seq<nat>, records: seq<Rec>, k: nat)
    requires Universe(ordered) && RecordsOk(ordered, records) && k < |ObservationRows(ordered, records)|
    ensures ObservationOk(ordered, ObservationRows(ordered, records)[k])
    decreases |records|
  {
    var n := |records| - 1;
    PrefixOk(ordered, records);
    if k < |ObservationRows(ordered, records[..n])| {
      WrittenObservations(ordered, records[..n], k);
    } else {
      RowOk(ordered, records[n]);
    }
  }

  lemma WrittenJoin(ordered: seq<nat>, records: seq<Rec>)
    requires Universe(ordered) && RecordsOk(ordered, records)
    ensures RowsJoin(ordered, ObservationRows(ordered, records), 0)
  {
    var rows := ObservationRows(ordered, records);
    forall k | 0 <= k < |rows| ensures ObservationOk(ordered, rows[k]) { WrittenObservations(ordered, records, k); }
  }

  lemma RowOk(ordered: seq<nat>, r: Rec)
    requires Universe(ordered) && r.Traced? && r.members <= Ids(ordered) && r.members != {}
    requires r.representative != 0 ==> r.representative in r.members
    ensures ObservationOk(ordered, ObserveRow(ordered, r))
  {
    RowDenotes(ordered, r);
    IdxEmpty(ordered, r.members);
    RepresentativeOk(ordered, r);
  }

  lemma RepresentativeOk(ordered: seq<nat>, r: Rec)
    requires Universe(ordered) && r.Traced? && r.members <= Ids(ordered) && r.members != {}
    requires r.representative != 0 ==> r.representative in r.members
    ensures r.representative == 0 ||
            (Position(ordered, r.representative).Some?
             && Position(ordered, r.representative).value in Idx(ordered, r.members))
  {
    if r.representative != 0 {
      assert r.representative in Ids(ordered);
      assert r.representative in ordered;
    }
  }

  /** One input's rows satisfy the loader. */
  lemma WrittenInputOk(ordered: seq<nat>, e: Evidence)
    requires Universe(ordered) && RecordsOk(ordered, e.records)
    ensures InputOk(ordered, WriteInput(ordered, e))
  {
    RecordedSets(ordered, e.records);
    WrittenObserved(ordered, e.records);
    WrittenUsable(ordered, e.records);
    WrittenDisjoint(ordered, e.records);
    WrittenJoin(ordered, e.records);
    WrittenCoverage(ordered, Observed(e.records), Usable(e.records), SkippedOnes(e.records));
  }

  lemma WrittenCoverage(ordered: seq<nat>, observed: set<nat>, usable: set<nat>, skipped: set<nat>)
    requires Universe(ordered) && usable <= observed <= Ids(ordered) && skipped <= Ids(ordered) && observed !! skipped
    ensures var c := WriteCoverage(ordered, observed, usable, skipped);
            && TextOk(ordered, c.notRun) && TextOk(ordered, c.unusable) && TextOk(ordered, c.skipped)
            && CoverageOk(|ordered|, c.status, Idx(ordered, observed), Idx(ordered, usable),
                          Indices(ordered, c.notRun), Indices(ordered, c.unusable), Indices(ordered, c.skipped))
  {
    var missing, unusable := Ids(ordered) - observed - skipped, observed - usable;
    EncodedIndices(ordered, missing);
    EncodedIndices(ordered, unusable);
    EncodedIndices(ordered, skipped);
    CoverageHolds(ordered, observed, usable, missing, unusable, skipped);
  }

  /** The writer's set arithmetic is the partition the loader expects. */
  lemma CoverageHolds(ordered: seq<nat>, observed: set<nat>, usable: set<nat>, missing: set<nat>, unusable: set<nat>,
                      skipped: set<nat>)
    requires usable <= observed <= Ids(ordered) && skipped <= Ids(ordered) && observed !! skipped
    requires missing == Ids(ordered) - observed - skipped && unusable == observed - usable
    ensures CoverageOk(|ordered|, ExpectedStatus(missing != {} || unusable != {} || skipped != {}, observed != {}),
                       Idx(ordered, observed), Idx(ordered, usable), Idx(ordered, missing), Idx(ordered, unusable),
                         Idx(ordered, skipped))
  {
    IdxEmpty(ordered, missing);
    IdxEmpty(ordered, unusable);
    IdxEmpty(ordered, skipped);
    IdxEmpty(ordered, observed);
    PartitionHolds(ordered, observed, usable, missing, unusable, skipped);
  }

  lemma PartitionHolds(ordered: seq<nat>, observed: set<nat>, usable: set<nat>, missing: set<nat>, unusable: set<nat>,
                       skipped: set<nat>)
    requires usable <= observed <= Ids(ordered) && skipped <= Ids(ordered) && observed !! skipped
    requires missing == Ids(ordered) - observed - skipped && unusable == observed - usable
    ensures Idx(ordered, observed) + Idx(ordered, missing) + Idx(ordered, skipped) == Sweep.UpTo(|ordered|)
    ensures Idx(ordered, usable) + Idx(ordered, unusable) == Idx(ordered, observed)
  {
    IdxAll(ordered);
    assert observed + missing + skipped == Ids(ordered);
    Partition(ordered, Ids(ordered), observed, missing, skipped);
    IdxUnion(ordered, usable, unusable);
    assert usable + unusable == observed;
  }

  lemma Partition(ordered: seq<nat>, all: set<nat>, a: set<nat>, b: set<nat>, c: set<nat>)
    requires a + b + c == all
    ensures Idx(ordered, a) + Idx(ordered, b) + Idx(ordered, c) == Idx(ordered, all)
  {
    IdxUnion(ordered, a + b, c);
    IdxUnion(ordered, a, b);
  }

  lemma {:induction false} WrittenInputsOk(ordered: seq<nat>, evidence: seq<Evidence>, i: nat)
    requires Universe(ordered) && i <= |evidence|
    requires forall k :: 0 <= k < |evidence| ==> RecordsOk(ordered, evidence[k].records)
    ensures InputsOk(ordered, WriteInputs(ordered, evidence), i)
    decreases |evidence| - i
  {
    if i < |evidence| {
      WrittenInputOk(ordered, evidence[i]);
      WrittenInputsOk(ordered, evidence, i + 1);
    }
  }

  // ----- the counters agree -----

  lemma {:induction false} WrittenRowCount(ordered: seq<nat>, records: seq<Rec>, b: nat, i: nat)
    requires Universe(ordered) && RecordsOk(ordered, records) && i < |ordered|
    ensures RowCount(ordered, ObservationRows(ordered, records), b, i) == EarnedIn(records, b, ordered[i])
    decreases |records|
  {
    if records != [] {
      var n := |records| - 1;
      var r := records[n];
      PrefixOk(ordered, records);
      WrittenRowCount(ordered, records[..n], b, i);
      if r.Traced? && r.members != {} {
        RowDenotes(ordered, r);
        RowCountSnoc(ordered, ObservationRows(ordered, records[..n]), ObserveRow(ordered, r), b, i);
      }
    }
  }

  lemma {:induction false} WrittenTotalCount(ordered: seq<nat>, evidence: seq<Evidence>, d: Domain, b: nat, i: nat)
    requires Universe(ordered) && i < |ordered|
    requires forall k :: 0 <= k < |evidence| ==> RecordsOk(ordered, evidence[k].records)
    ensures TotalCount(ordered, WriteInputs(ordered, evidence), d, b, i) == Earned(evidence, d, b, ordered[i])
    decreases |evidence|
  {
    if evidence != [] {
      var n := |evidence| - 1;
      WrittenTotalCount(ordered, evidence[..n], d, b, i);
      WrittenRowCount(ordered, evidence[n].records, b, i);
      WrittenPrefix(ordered, evidence);
    }
  }

  lemma WrittenPrefix(ordered: seq<nat>, evidence: seq<Evidence>)
    requires evidence != []
    ensures WriteInputs(ordered, evidence)[..|evidence| - 1] == WriteInputs(ordered, evidence[..|evidence| - 1])
  {
  }

  lemma WrittenCandidateOk(ordered: seq<nat>, evidence: seq<Evidence>, tids: map<nat, nat>, terminal: set<nat>, i: nat)
    requires Universe(ordered) && i < |ordered|
    requires forall k :: 0 <= k < |evidence| ==> RecordsOk(ordered, evidence[k].records)
    requires forall p :: p in tids ==> tids[p] >= 1
    ensures RowFormed(WriteCandidate(evidence, tids, terminal, ordered[i]))
    ensures CountsAgree(ordered, WriteInputs(ordered, evidence), WriteCandidate(evidence, tids, terminal, ordered[i]),
                        i)
  {
    forall b | 0 <= b < BIN_COUNT
      ensures TotalCount(ordered, WriteInputs(ordered, evidence), Concrete, b, i)
              == Earned(evidence, Concrete, b, ordered[i])
      ensures TotalCount(ordered, WriteInputs(ordered, evidence), Mutation, b, i)
              == Earned(evidence, Mutation, b, ordered[i])
    {
      WrittenTotalCount(ordered, evidence, Concrete, b, i);
      WrittenTotalCount(ordered, evidence, Mutation, b, i);
    }
  }

  lemma WrittenOneEach(ordered: seq<nat>, rows: seq<CandidateRow>)
    requires Increasing(ordered) && |rows| == |ordered| && forall i :: 0 <= i < |rows| ==> rows[i].id == ordered[i]
    ensures OneRowEach(ordered, rows)
    ensures forall k, i :: 0 <= k < |rows| && 0 <= i < |ordered| && rows[k].id == ordered[i] ==> k == i
  {
    forall i | 0 <= i < |ordered|
      ensures HasRow(rows, ordered[i])
    {
      assert rows[i].id == ordered[i];
    }
  }

  lemma WrittenCandidates(ordered: seq<nat>, evidence: seq<Evidence>, tids: map<nat, nat>, terminal: set<nat>)
    requires Universe(ordered)
    requires forall k :: 0 <= k < |evidence| ==> RecordsOk(ordered, evidence[k].records)
    requires forall p :: p in tids ==> tids[p] >= 1
    ensures var rows := WriteCandidates(ordered, evidence, tids, terminal);
            && AllFormed(rows)
            && OneRowEach(ordered, rows) && RowsAgree(ordered, WriteInputs(ordered, evidence), rows)
  {
    var rows, inputs := WriteCandidates(ordered, evidence, tids, terminal), WriteInputs(ordered, evidence);
    WrittenOneEach(ordered, rows);
    forall k | 0 <= k < |rows|
      ensures RowFormed(rows[k]) && CountsAgree(ordered, inputs, rows[k], k)
    {
      WrittenCandidateOk(ordered, evidence, tids, terminal, k);
    }
  }

  /** The loader accepts everything the writer emits, exactly when the header's
      candidate list has no run longer than the decoder's limit. */
  lemma LoaderAcceptsWriter(ordered: seq<nat>, evidence: seq<Evidence>, tids: map<nat, nat>, terminal: set<nat>)
    requires Universe(ordered)
    requires forall k :: 0 <= k < |evidence| ==> RecordsOk(ordered, evidence[k].records)
    requires forall p :: p in tids ==> tids[p] >= 1
    ensures LoaderAccepts(ordered, WriteBundle(ordered, evidence, tids, terminal)) <==> ShortRuns(Runs(ordered))
  {
    IdsRoundTripAlone(ordered);
    WrittenCandidates(ordered, evidence, tids, terminal);
    WrittenInputsOk(ordered, evidence, 0);
  }
}
