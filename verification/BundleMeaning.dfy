/** What the rows of a bundle say about the evidence: the classes of a candidate,
    the coverage of an input and the order of its rows, as the exporter writes
    them and as the loader accepts them. */
module BundleMeaning {
  import opened Options
  import opened Classification
  import opened IdRanges
  import opened MemberPool
  import opened Bundle
  import Sweep

  /** Some element of the sequence has the property. */
  ghost predicate Any<T>(s: seq<T>, has: T -> bool) { exists k :: 0 <= k < |s| && has(s[k]) }

  lemma AnyStep<T>(s: seq<T>, has: T -> bool)
    requires s != []
    ensures Any(s, has) <==> Any(s[..|s| - 1], has) || has(s[|s| - 1])
  {
    var n := |s| - 1;
    assert forall k :: 0 <= k < n ==> s[..n][k] == s[k];
  }

  // ----- classes -----

  /** What each class says of the bins shown for a candidate. */
  predicate ClassMeans(c: Class, shown: set<Bin>)
  {
    var condemned := BinNoCrashFail in shown || BinPatchCrashed in shown;
    match c
    case Equivalent =>
      !condemned && BinCrashPass in shown && BinSameBranch in shown && BinCrashFail !in shown && BinDiffBranch !in shown
    case Subset =>
      !condemned && BinCrashPass in shown && BinSameBranch in shown && BinCrashFail in shown && BinDiffBranch !in shown
    case Superset => !condemned && BinCrashPass in shown && BinDiffBranch in shown && BinCrashFail !in shown
    case Mixed => !condemned && BinCrashPass in shown && BinDiffBranch in shown && BinCrashFail in shown
    case Insufficient =>
      condemned || BinCrashPass !in shown || (BinSameBranch !in shown && BinDiffBranch !in shown)
  }

  /** The class computed from counters is the one that holds, and no other. */
  lemma ClassOfCounts(c: seq<nat>, shown: set<Bin>, k: Class)
    requires |c| == BitCounts.BIN_COUNT
    requires CountsOfBins(c, shown)
    ensures ObservedClass(c) == k <==> ClassMeans(k, shown)
  {
    assert BinIndex(BinCrashFail) == Some(0) && BinIndex(BinCrashPass) == Some(1);
    assert BinIndex(BinSameBranch) == Some(2) && BinIndex(BinDiffBranch) == Some(3);
    assert BinIndex(BinNoCrashFail) == Some(4) && BinIndex(BinPatchCrashed) == Some(5);
  }

  /** The bins some executed group with the candidate in it earned. */
  ghost function Shown(evidence: seq<Evidence>, d: Domain, p: nat): set<Bin>
  {
    set b: Bin | ShownBy(evidence, d, b, p)
  }

  /** A candidate is classified unless it failed, is known to fail or has no
      descriptor; then its row carries the descriptor, and its classes say exactly
      what was shown of it in each domain. */
  ghost predicate Classified(evidence: seq<Evidence>, tids: map<nat, nat>, terminal: set<nat>, p: nat,
                             row: CandidateRow)
  {
    && row.id == p && (row.PredicateRow? <==> !SeenFailing(evidence, p) && p !in terminal && p in tids)
    && (row.PredicateRow? ==>
          && row.tid == tids[p]
          && (forall k :: row.concrete == k <==> ClassMeans(k, Shown(evidence, Concrete, p)))
          && (forall k :: row.mutation == k <==> ClassMeans(k, Shown(evidence, Mutation, p))))
  }

  lemma CandidateMeans(evidence: seq<Evidence>, tids: map<nat, nat>, terminal: set<nat>, p: nat)
    ensures Classified(evidence, tids, terminal, p, WriteCandidate(evidence, tids, terminal, p))
  {
    ExclusionMeans(evidence, tids, terminal, p);
    forall d: Domain, k
      ensures ObservedClass(CountsOf(evidence, d, p)) == k <==> ClassMeans(k, Shown(evidence, d, p))
    {
      forall b: Bin | BinIndex(b).Some?
        ensures Earned(evidence, d, BinIndex(b).value, p) > 0 <==> b in Shown(evidence, d, p)
      {
        EarnedMeans(evidence, d, b, p);
      }
      ClassOfCounts(CountsOf(evidence, d, p), Shown(evidence, d, p), k);
    }
  }

  /** The row has the bin and names the candidate. */
  ghost function WithBin(ordered: seq<nat>, bin: Bin, i: nat): ObservationRow -> bool
  {
    (r: ObservationRow) => r.bin == bin && i in Indices(ordered, r.members)
  }

  ghost function OfInput(ordered: seq<nat>, d: Domain, bin: Bin, i: nat): InputRows -> bool
  {
    (r: InputRows) => r.domain == d && Any(r.observations, WithBin(ordered, bin, i))
  }

  /** Some observation row of some input of the domain has the bin and names the
      candidate. */
  ghost predicate InputShows(ordered: seq<nat>, inputs: seq<InputRows>, d: Domain, bin: Bin, i: nat)
  {
    Any(inputs, OfInput(ordered, d, bin, i))
  }

  lemma {:induction false} RowCountMeans(ordered: seq<nat>, rows: seq<ObservationRow>, bin: Bin, i: nat)
    requires BinIndex(bin).Some?
    ensures RowCount(ordered, rows, BinIndex(bin).value, i) > 0 <==> Any(rows, WithBin(ordered, bin, i))
    decreases |rows|
  {
    if rows != [] {
      RowCountMeans(ordered, rows[..|rows| - 1], bin, i);
      AnyStep(rows, WithBin(ordered, bin, i));
      SameBin(rows[|rows| - 1].bin, bin);
    }
  }

  /** Different counted bins have different columns. */
  lemma SameBin(a: Bin, b: Bin)
    requires BinIndex(b).Some?
    ensures BinIndex(a) == BinIndex(b) <==> a == b
  {
  }

  lemma {:induction false} TotalCountMeans(ordered: seq<nat>, inputs: seq<InputRows>, d: Domain, bin: Bin, i: nat)
    requires BinIndex(bin).Some?
    ensures TotalCount(ordered, inputs, d, BinIndex(bin).value, i) > 0 <==> InputShows(ordered, inputs, d, bin, i)
    decreases |inputs|
  {
    if inputs != [] {
      TotalCountMeans(ordered, inputs[..|inputs| - 1], d, bin, i);
      RowCountMeans(ordered, inputs[|inputs| - 1].observations, bin, i);
      AnyStep(inputs, OfInput(ordered, d, bin, i));
    }
  }

  /** The bins the observation rows show for a candidate index. */
  ghost function Seen(ordered: seq<nat>, inputs: seq<InputRows>, d: Domain, i: nat): set<Bin>
  {
    set b: Bin | InputShows(ordered, inputs, d, b, i)
  }

  /** A classified candidate has a descriptor and was never seen failing, and its
      classes say what the observation rows show of it. */
  ghost predicate AsSeen(ordered: seq<nat>, inputs: seq<InputRows>, row: CandidateRow, i: nat)
  {
    var concrete, mutation := Seen(ordered, inputs, Concrete, i), Seen(ordered, inputs, Mutation, i);
    row.PredicateRow? ==>
      && row.tid >= 1 && {BinNoCrashFail, BinPatchCrashed} !! concrete + mutation
      && ClassMeans(row.concrete, concrete) && ClassMeans(row.mutation, mutation)
  }

  /** A row that agrees with the observations is well formed exactly when it is
      as seen. */
  lemma FormedExactly(ordered: seq<nat>, inputs: seq<InputRows>, row: CandidateRow, i: nat)
    requires CountsAgree(ordered, inputs, row, i)
    ensures RowFormed(row) <==> AsSeen(ordered, inputs, row, i)
  {
    CountsShow(ordered, inputs, Concrete, i, row.concreteCounts);
    CountsShow(ordered, inputs, Mutation, i, row.mutationCounts);
    NeverCondemned(row.concreteCounts, Seen(ordered, inputs, Concrete, i));
    NeverCondemned(row.mutationCounts, Seen(ordered, inputs, Mutation, i));
  }

  /** Every candidate row of an accepted bundle is as seen. */
  lemma AcceptedClasses(ordered: seq<nat>, rows: Rows, k: nat, i: nat)
    requires LoaderAccepts(ordered, rows) && k < |rows.rows| && i < |ordered| && rows.rows[k].id == ordered[i]
    ensures AsSeen(ordered, rows.inputs, rows.rows[k], i)
  {
    assert RowFormed(rows.rows[k]) && CountsAgree(ordered, rows.inputs, rows.rows[k], i);
    FormedExactly(ordered, rows.inputs, rows.rows[k], i);
  }

  /** Counters are those of the bins the rows show. */
  ghost predicate CountsOfBins(c: seq<nat>, shown: set<Bin>)
    requires |c| == BitCounts.BIN_COUNT
  {
    forall b: Bin :: BinIndex(b).Some? ==> (c[BinIndex(b).value] > 0 <==> b in shown)
  }

  lemma CountsShow(ordered: seq<nat>, inputs: seq<InputRows>, d: Domain, i: nat, c: seq<nat>)
    requires |c| == BitCounts.BIN_COUNT
    requires forall b :: 0 <= b < BitCounts.BIN_COUNT ==> c[b] == TotalCount(ordered, inputs, d, b, i)
    ensures CountsOfBins(c, Seen(ordered, inputs, d, i))
    ensures forall k :: ObservedClass(c) == k <==> ClassMeans(k, Seen(ordered, inputs, d, i))
  {
    forall b: Bin | BinIndex(b).Some?
      ensures c[BinIndex(b).value] > 0 <==> b in Seen(ordered, inputs, d, i)
    {
      TotalCountMeans(ordered, inputs, d, b, i);
    }
    forall k
      ensures ObservedClass(c) == k <==> ClassMeans(k, Seen(ordered, inputs, d, i))
    {
      ClassOfCounts(c, Seen(ordered, inputs, d, i), k);
    }
  }

  lemma NeverCondemned(c: seq<nat>, shown: set<Bin>)
    requires |c| == BitCounts.BIN_COUNT && CountsOfBins(c, shown)
    ensures c[4] == c[5] == 0 <==> BinNoCrashFail !in shown && BinPatchCrashed !in shown
  {
    assert BinIndex(BinNoCrashFail) == Some(4) && BinIndex(BinPatchCrashed) == Some(5);
  }

  // ----- coverage -----

  /** A bin that says something about the candidate. */
  predicate Informative(bin: Bin) { !bin.IgnoredOtherFault? && !bin.Unclassified? && !bin.UnusableBin? }

  /** Complete when everybody has a usable observation, unavailable when nobody
      has any, and partial in between. */
  predicate StatusMeans(status: Status, n: nat, observed: set<nat>, usable: set<nat>)
  {
    match status
    case Complete => usable == Sweep.UpTo(n)
    case Unavailable => usable != Sweep.UpTo(n) && observed == {}
    case Partial => usable != Sweep.UpTo(n) && observed != {}
  }

  lemma CoverageStatus(n: nat, status: Status, observed: set<nat>, usable: set<nat>, missing: set<nat>,
                       unusable: set<nat>, skipped: set<nat>, s: Status)
    requires CoverageOk(n, status, observed, usable, missing, unusable, skipped)
    ensures status == s <==> StatusMeans(s, n, observed, usable)
  {
    if missing == {} && unusable == {} && skipped == {} {
      assert usable == observed == Sweep.UpTo(n);
    } else {
      var i :| i in missing + unusable + skipped;
      assert i in Sweep.UpTo(n) && i !in usable;
    }
  }

  /** The row names the candidate, with any bin or with a usable one. */
  ghost function Naming(ordered: seq<nat>, i: nat): ObservationRow -> bool
  {
    (r: ObservationRow) => i in Indices(ordered, r.members)
  }

  ghost function NamingUsably(ordered: seq<nat>, i: nat): ObservationRow -> bool
  {
    (r: ObservationRow) => Informative(r.bin) && i in Indices(ordered, r.members)
  }

  lemma {:induction false} RowSetsMean(ordered: seq<nat>, rows: seq<ObservationRow>, i: nat)
    ensures i in RowsObserved(ordered, rows) <==> Any(rows, Naming(ordered, i))
    ensures i in RowsUsable(ordered, rows) <==> Any(rows, NamingUsably(ordered, i))
    decreases |rows|
  {
    if rows != [] {
      RowSetsMean(ordered, rows[..|rows| - 1], i);
      AnyStep(rows, Naming(ordered, i));
      AnyStep(rows, NamingUsably(ordered, i));
      UsableIsCounted(rows[|rows| - 1].bin);
    }
  }

  lemma UsableIsCounted(bin: Bin)
    ensures BinIndex(bin).Some? <==> Informative(bin)
  {
  }

  ghost function SetsOf(ordered: seq<nat>, rows: seq<ObservationRow>): (s: seq<set<nat>>)
    ensures |s| == |rows|
  {
    if rows == [] then []
    else SetsOf(ordered, rows[..|rows| - 1]) + [Indices(ordered, rows[|rows| - 1].members)]
  }

  ghost predicate Apart(sets: seq<set<nat>>) { forall j, k :: 0 <= j < k < |sets| ==> sets[j] !! sets[k] }

  ghost predicate Avoids(sets: seq<set<nat>>, last: set<nat>) { forall k :: 0 <= k < |sets| ==> sets[k] !! last }

  lemma AvoidsSnoc(sets: seq<set<nat>>, next: set<nat>, last: set<nat>)
    ensures Avoids(sets + [next], last) <==> Avoids(sets, last) && next !! last
  {
    assert (sets + [next])[|sets|] == next;
    assert forall k :: 0 <= k < |sets| ==> (sets + [next])[k] == sets[k];
  }

  lemma ApartSnoc(sets: seq<set<nat>>, last: set<nat>)
    ensures Apart(sets + [last]) <==> Apart(sets) && Avoids(sets, last)
  {
    assert (sets + [last])[|sets|] == last;
    assert forall k :: 0 <= k < |sets| ==> (sets + [last])[k] == sets[k];
  }

  lemma {:induction false} ObservedAvoids(ordered: seq<nat>, rows: seq<ObservationRow>, last: set<nat>)
    ensures RowsObserved(ordered, rows) !! last <==> Avoids(SetsOf(ordered, rows), last)
    decreases |rows|
  {
    if rows != [] {
      ObservedAvoids(ordered, rows[..|rows| - 1], last);
      AvoidsSnoc(SetsOf(ordered, rows[..|rows| - 1]), Indices(ordered, rows[|rows| - 1].members), last);
    }
  }

  /** The loader's running check refuses an input exactly when two of its rows name
      the same candidate. */
  lemma {:induction false} DisjointMeans(ordered: seq<nat>, rows: seq<ObservationRow>)
    ensures RowsDisjoint(ordered, rows) <==> Apart(SetsOf(ordered, rows))
    decreases |rows|
  {
    if rows != [] {
      var before, last := rows[..|rows| - 1], Indices(ordered, rows[|rows| - 1].members);
      DisjointMeans(ordered, before);
      ObservedAvoids(ordered, before, last);
      ApartSnoc(SetsOf(ordered, before), last);
    }
  }

  /** An accepted input: the lists are exactly the candidates nobody ran and those
      without a usable bin, and the status says how much was seen. */
  lemma AcceptedCoverage(ordered: seq<nat>, r: InputRows, i: nat, s: Status)
    requires InputOk(ordered, r) && i < |ordered|
    ensures var rows, c := r.observations, r.coverage;
            && (i in Indices(ordered, c.unusable) <==>
                Any(rows, Naming(ordered, i)) && !Any(rows, NamingUsably(ordered, i)))
            && (i in Indices(ordered, c.notRun) + Indices(ordered, c.skipped) <==> !Any(rows, Naming(ordered, i)))
            && (c.status == s <==> StatusMeans(s, |ordered|, RowsObserved(ordered, rows), RowsUsable(ordered, rows)))
  {
    var rows, c := r.observations, r.coverage;
    RowSetsMean(ordered, rows, i);
    assert i in Sweep.UpTo(|ordered|);
    CoverageStatus(|ordered|, c.status, RowsObserved(ordered, rows), RowsUsable(ordered, rows),
                   Indices(ordered, c.notRun), Indices(ordered, c.unusable), Indices(ordered, c.skipped), s);
  }

  // ----- the rows of one input -----

  predicate HasRowOfItsOwn(r: Rec) { r.Traced? && r.members != {} }

  /** The row says what the record does. */
  ghost predicate Tells(ordered: seq<nat>, row: ObservationRow, r: Rec)
  {
    && r.Traced? && row.representative == r.representative && row.bin == r.bin
    && TextOk(ordered, row.members) && Indices(ordered, row.members) == Idx(ordered, r.members)
  }

  /** How many records have a row. */
  function RowsOf(records: seq<Rec>): nat
  {
    if records == [] then 0
    else RowsOf(records[..|records| - 1]) + (if HasRowOfItsOwn(records[|records| - 1]) then 1 else 0)
  }

  lemma RowsAppend(ordered: seq<nat>, records: seq<Rec>)
    requires records != []
    ensures var n := |records| - 1;
            ObservationRows(ordered, records) == ObservationRows(ordered, records[..n])
            + (if HasRowOfItsOwn(records[n]) then [ObserveRow(ordered, records[n])] else [])
  {
  }

  lemma {:induction false} RowsPrefix(ordered: seq<nat>, records: seq<Rec>, j: nat)
    requires j <= |records|
    ensures ObservationRows(ordered, records[..j]) <= ObservationRows(ordered, records)
    decreases |records|
  {
    if j == |records| {
      assert records[..j] == records;
    } else {
      assert records[..|records| - 1][..j] == records[..j];
      RowsPrefix(ordered, records[..|records| - 1], j);
    }
  }

  lemma {:induction false} RowsCount(ordered: seq<nat>, records: seq<Rec>)
    ensures |ObservationRows(ordered, records)| == RowsOf(records)
    decreases |records|
  {
    if records != [] {
      RowsCount(ordered, records[..|records| - 1]);
      RowsAppend(ordered, records);
    }
  }

  lemma OwnRowTells(ordered: seq<nat>, r: Rec)
    requires Universe(ordered) && r.members <= Ids(ordered) && HasRowOfItsOwn(r)
    ensures Tells(ordered, ObserveRow(ordered, r), r)
  {
    RowDenotes(ordered, r);
  }

  /** The rows of an input are its executed groups that stand for somebody, in
      order, each with its own representative, bin and members, and nothing else. */
  lemma RowTellsRecord(ordered: seq<nat>, records: seq<Rec>, j: nat)
    requires Universe(ordered) && RecordsOk(ordered, records) && j < |records| && HasRowOfItsOwn(records[j])
    ensures |ObservationRows(ordered, records)| == RowsOf(records) > RowsOf(records[..j])
    ensures Tells(ordered, ObservationRows(ordered, records)[RowsOf(records[..j])], records[j])
  {
    RowsCount(ordered, records);
    RowsCount(ordered, records[..j]);
    RowsPrefix(ordered, records, j + 1);
    assert records[..j + 1][..j] == records[..j];
    RowsAppend(ordered, records[..j + 1]);
    OwnRowTells(ordered, records[j]);
  }

  /** What the coverage row of an input lists: who is in no record, who was
      executed without a usable bin, and who was skipped. */
  lemma WrittenCoverageMeans(ordered: seq<nat>, e: Evidence, i: nat, s: Status)
    requires Universe(ordered) && RecordsOk(ordered, e.records) && i < |ordered|
    ensures var c, records, p := WriteInput(ordered, e).coverage, e.records, ordered[i];
            && (i in Indices(ordered, c.notRun) <==> !Any(records, Executing(p)) && !Any(records, Skipping(p)))
            && (i in Indices(ordered, c.unusable) <==> Any(records, Executing(p)) && !Any(records, ExecutingUsably(p)))
            && (i in Indices(ordered, c.skipped) <==> Any(records, Skipping(p)))
            && (c.status == s <==> StatusMeans(s, |ordered|, Idx(ordered, Observed(records)),
                                               Idx(ordered, Usable(records))))
  {
    var observed, usable, skipped := Observed(e.records), Usable(e.records), SkippedOnes(e.records);
    RecordedSets(ordered, e.records);
    RecordSetsMean(e.records, ordered[i]);
    CoverageLists(ordered, observed, usable, skipped, i, s);
  }

  lemma CoverageLists(ordered: seq<nat>, observed: set<nat>, usable: set<nat>, skipped: set<nat>, i: nat, s: Status)
    requires Universe(ordered) && usable <= observed <= Ids(ordered) && skipped <= Ids(ordered) && observed !! skipped
    requires i < |ordered|
    ensures var c, p := WriteCoverage(ordered, observed, usable, skipped), ordered[i];
            && (i in Indices(ordered, c.notRun) <==> p !in observed && p !in skipped)
            && (i in Indices(ordered, c.unusable) <==> p in observed && p !in usable)
            && (i in Indices(ordered, c.skipped) <==> p in skipped)
            && (c.status == s <==> StatusMeans(s, |ordered|, Idx(ordered, observed), Idx(ordered, usable)))
  {
    var c := WriteCoverage(ordered, observed, usable, skipped);
    assert ordered[i] in Ids(ordered);
    ListDenotes(ordered, Ids(ordered) - observed - skipped, i);
    ListDenotes(ordered, observed - usable, i);
    ListDenotes(ordered, skipped, i);
    WrittenStatus(ordered, observed, usable, skipped, s);
  }

  lemma ListDenotes(ordered: seq<nat>, ids: set<nat>, i: nat)
    requires Universe(ordered) && ids <= Ids(ordered) && i < |ordered|
    ensures i in Indices(ordered, EncodeSet(ordered, ids)) <==> ordered[i] in ids
  {
    EncodedIndices(ordered, ids);
  }

  lemma WrittenStatus(ordered: seq<nat>, observed: set<nat>, usable: set<nat>, skipped: set<nat>, s: Status)
    requires Universe(ordered) && usable <= observed <= Ids(ordered) && skipped <= Ids(ordered) && observed !! skipped
    ensures WriteCoverage(ordered, observed, usable, skipped).status == s <==>
            StatusMeans(s, |ordered|, Idx(ordered, observed), Idx(ordered, usable))
  {
    var c := WriteCoverage(ordered, observed, usable, skipped);
    WrittenCoverage(ordered, observed, usable, skipped);
    CoverageStatus(|ordered|, c.status, Idx(ordered, observed), Idx(ordered, usable), Indices(ordered, c.notRun),
                   Indices(ordered, c.unusable), Indices(ordered, c.skipped), s);
  }

  function Executing(p: nat): Rec -> bool { (r: Rec) => r.Traced? && p in r.members }

  function ExecutingUsably(p: nat): Rec -> bool { (r: Rec) => r.Traced? && Informative(r.bin) && p in r.members }

  function Skipping(p: nat): Rec -> bool { (r: Rec) => r.Skipped? && p in r.members }

  lemma {:induction false} RecordSetsMean(records: seq<Rec>, p: nat)
    ensures p in Observed(records) <==> Any(records, Executing(p))
    ensures p in Usable(records) <==> Any(records, ExecutingUsably(p))
    ensures p in SkippedOnes(records) <==> Any(records, Skipping(p))
    decreases |records|
  {
    if records != [] {
      var r := records[|records| - 1];
      RecordSetsMean(records[..|records| - 1], p);
      AnyStep(records, Executing(p));
      AnyStep(records, ExecutingUsably(p));
      AnyStep(records, Skipping(p));
      if r.Traced? { UsableIsCounted(r.bin); }
    }
  }
}
