/** The loader of a feedback bundle: texts are interned, sets are compared as
    integer masks and counts are kept in bit-sliced counters. */
module Loader {
  import opened Sequences
  import opened Bits
  import opened Options
  import opened Masks
  import opened IdRanges
  import opened Members
  import opened MemberPool
  import opened BitCounts
  import opened Bundle
  import opened BundleMeaning
  import Sweep

  // ----- from texts to masks -----

  ghost predicate Known(pool: Pool, text: string)
    reads pool
  {
    text in pool.texts
  }

  /** The mask of an interned text. */
  method MaskOf(pool: Pool, text: string) returns (mask: nat)
    requires pool.Valid() && Known(pool, text)
    ensures IsMask(mask, Indices(pool.ordered, text)) && mask < Pow2(|pool.ordered|)
  {
    ghost var bounds := BoundsOfText(pool.ordered, text).value;
    TextParses(pool.ordered, text);
    InternExact(pool.ordered, text, 0);
    mask := pool.texts[text].Mask(bounds);
    forall i: nat
      ensures Bit(mask, i) <==> i in Indices(pool.ordered, text)
    {
      InternExact(pool.ordered, text, i);
    }
    MaskBound(mask, Indices(pool.ordered, text), |pool.ordered|);
  }

  lemma TextParses(ordered: seq<nat>, text: string)
    requires BoundsOfText(ordered, text).Some?
    ensures ParseRanges(text).Some?
  {
  }

  /** An interned set answers for its indices. */
  lemma MemberAnswers(ordered: seq<nat>, text: string, m: MemberSet, index: nat)
    requires Universe(ordered) && TextOk(ordered, text) && IsKey(BoundsOfText(ordered, text).value, m.key)
    ensures m.Nonempty() <==> Indices(ordered, text) != {}
    ensures m.Contains(index) <==> index in Indices(ordered, text)
  {
    var bounds := BoundsOfText(ordered, text).value;
    InternExact(ordered, text, index);
    m.ContainsExactly(bounds, index);
    if bounds != [] {
      FirstInside(bounds);
      InternExact(ordered, text, bounds[0]);
      assert bounds[0] in Indices(ordered, text);
    } else {
      forall i: nat ensures !Inside(bounds, i) {}
    }
  }

  // ----- first pass: join and intern the rows of one input -----

  ghost predicate AllKnown(pool: Pool, rows: seq<ObservationRow>)
    reads pool
  {
    forall k :: 0 <= k < |rows| ==> Known(pool, rows[k].members)
  }

  ghost predicate CoverageKnown(pool: Pool, c: CoverageRow)
    reads pool
  {
    Known(pool, c.notRun) && Known(pool, c.unusable) && Known(pool, c.skipped)
  }

  ghost predicate InputKnown(pool: Pool, r: InputRows)
    reads pool
  {
    AllKnown(pool, r.observations) && CoverageKnown(pool, r.coverage)
  }

  /** Everything interned before is still interned. */
  twostate predicate Grows(pool: Pool)
    reads pool
  {
    forall t :: t in old(pool.texts) ==> t in pool.texts
  }

  method JoinObservation(pool: Pool, row: ObservationRow) returns (ok: bool)
    requires pool.Valid()
    modifies pool
    ensures pool.Valid() && Grows(pool)
    ensures ok <==> ObservationOk(pool.ordered, row)
    ensures ok ==> Known(pool, row.members)
  {
    var m := pool.Intern(row.members);
    if m == null { return false; }
    MemberAnswers(pool.ordered, row.members, m, 0);
    if !m.Nonempty() { return false; }
    if row.representative == 0 { return true; }
    var p := Position(pool.ordered, row.representative);
    if p.None? { return false; }
    MemberAnswers(pool.ordered, row.members, m, p.value);
    return m.Contains(p.value);
  }

  lemma RowsJoinNext(ordered: seq<nat>, rows: seq<ObservationRow>, i: nat)
    requires i < |rows|
    ensures RowsJoin(ordered, rows, i) <==> ObservationOk(ordered, rows[i]) && RowsJoin(ordered, rows, i + 1)
  {
    if RowsJoin(ordered, rows, i) {
      assert ObservationOk(ordered, rows[i]);
    } else {
      var k :| i <= k < |rows| && !ObservationOk(ordered, rows[k]);
    }
  }

  method JoinNext(pool: Pool, rows: seq<ObservationRow>, i: nat) returns (ok: bool)
    requires i < |rows| && pool.Valid() && AllKnown(pool, rows[..i])
    modifies pool
    ensures pool.Valid() && Grows(pool)
    ensures ok ==> AllKnown(pool, rows[..i + 1])
    ensures RowsJoin(pool.ordered, rows, i) <==> ok && RowsJoin(pool.ordered, rows, i + 1)
  {
    ok := JoinObservation(pool, rows[i]);
    RowsJoinNext(pool.ordered, rows, i);
    PrefixSnoc(rows, i);
  }

  method JoinObservations(pool: Pool, rows: seq<ObservationRow>) returns (ok: bool)
    requires pool.Valid()
    modifies pool
    ensures pool.Valid() && Grows(pool)
    ensures ok <==> RowsJoin(pool.ordered, rows, 0)
    ensures ok ==> AllKnown(pool, rows)
  {
    for i := 0 to |rows|
      invariant pool.Valid() && Grows(pool)
      invariant RowsJoin(pool.ordered, rows, i) <==> RowsJoin(pool.ordered, rows, 0)
      invariant AllKnown(pool, rows[..i])
    {
      ok := JoinNext(pool, rows, i);
      if !ok { return; }
    }
    assert rows[..|rows|] == rows;
    return true;
  }

  /** The three coverage texts denote pairwise disjoint sets of candidates. */
  ghost predicate GroupsApart(ordered: seq<nat>, c: CoverageRow)
  {
    && TextOk(ordered, c.notRun) && TextOk(ordered, c.unusable) && TextOk(ordered, c.skipped)
    && Indices(ordered, c.notRun) !! Indices(ordered, c.unusable)
    && (Indices(ordered, c.notRun) + Indices(ordered, c.unusable)) !! Indices(ordered, c.skipped)
  }

  method JoinGroup(pool: Pool, text: string, covered: nat, ghost sofar: set<nat>) returns (ok: bool, after: nat)
    requires pool.Valid() && IsMask(covered, sofar)
    modifies pool
    ensures pool.Valid() && Grows(pool)
    ensures ok <==> TextOk(pool.ordered, text) && sofar !! Indices(pool.ordered, text)
    ensures ok ==> Known(pool, text) && IsMask(after, sofar + Indices(pool.ordered, text))
  {
    after := covered;
    var m := pool.Intern(text);
    if m == null { return false, after; }
    var mask := MaskOf(pool, text);
    MaskMeets(covered, mask, sofar, Indices(pool.ordered, text));
    if And(covered, mask) != 0 { return false, after; }
    MaskOr(covered, mask, sofar, Indices(pool.ordered, text));
    return true, Or(covered, mask);
  }

  method JoinCoverage(pool: Pool, c: CoverageRow) returns (ok: bool)
    requires pool.Valid()
    modifies pool
    ensures pool.Valid() && Grows(pool)
    ensures ok <==> GroupsApart(pool.ordered, c)
    ensures ok ==> CoverageKnown(pool, c)
  {
    var covered: nat := 0;
    forall i: nat ensures !Bit(0, i) { BitOfZero(i); }
    ok, covered := JoinGroup(pool, c.notRun, covered, {});
    if !ok { return; }
    ghost var a := Indices(pool.ordered, c.notRun);
    assert {} + a == a;
    ok, covered := JoinGroup(pool, c.unusable, covered, a);
    if !ok { return; }
    ok, covered := JoinGroup(pool, c.skipped, covered, a + Indices(pool.ordered, c.unusable));
  }

  // ----- second pass: masks and counters -----

  /** The counters hold `base` plus what the rows add. */
  ghost predicate Tallied(added: seq<seq<nat>>, base: seq<seq<nat>>, ordered: seq<nat>, rows: seq<ObservationRow>)
  {
    |added| == |base| == BIN_COUNT
    && forall b: nat, i: nat :: b < BIN_COUNT ==>
      Occurrences(added[b], i) == Occurrences(base[b], i) + RowCount(ordered, rows, b, i)
  }

  ghost predicate Small(added: seq<seq<nat>>, n: nat)
  {
    forall b, k :: 0 <= b < |added| && 0 <= k < |added[b]| ==> added[b][k] < Pow2(n)
  }

  lemma OccurrencesSnoc(masks: seq<nat>, mask: nat, i: nat)
    ensures Occurrences(masks + [mask], i) == Occurrences(masks, i) + Indicator(mask, i)
  {
    assert (masks + [mask])[..|masks|] == masks;
  }

  lemma TallyUncounted(added: seq<seq<nat>>, base: seq<seq<nat>>, ordered: seq<nat>, rows: seq<ObservationRow>,
                       row: ObservationRow)
    requires Tallied(added, base, ordered, rows) && BinIndex(row.bin).None?
    ensures Tallied(added, base, ordered, rows + [row])
  {
    forall b: nat, i: nat | b < BIN_COUNT
      ensures RowCount(ordered, rows + [row], b, i) == RowCount(ordered, rows, b, i)
    {
      RowCountSnoc(ordered, rows, row, b, i);
    }
  }

  lemma TallyCounted(added: seq<seq<nat>>, base: seq<seq<nat>>, ordered: seq<nat>, rows: seq<ObservationRow>,
                     row: ObservationRow, bin: nat, mask: nat)
    requires Tallied(added, base, ordered, rows) && BinIndex(row.bin) == Some(bin)
    requires IsMask(mask, Indices(ordered, row.members))
    ensures Tallied(added[bin := added[bin] + [mask]], base, ordered, rows + [row])
  {
    var after := added[bin := added[bin] + [mask]];
    forall b: nat, i: nat | b < BIN_COUNT
      ensures Occurrences(after[b], i) == Occurrences(base[b], i) + RowCount(ordered, rows + [row], b, i)
    {
      RowCountSnoc(ordered, rows, row, b, i);
      OccurrencesSnoc(added[bin], mask, i);
    }
  }

  lemma {:induction false} DisjointPrefix(ordered: seq<nat>, rows: seq<ObservationRow>, k: nat)
    requires k <= |rows| && RowsDisjoint(ordered, rows)
    ensures RowsDisjoint(ordered, rows[..k])
    decreases |rows|
  {
    if k < |rows| {
      DisjointPrefix(ordered, rows[..|rows| - 1], k);
      assert rows[..|rows| - 1][..k] == rows[..k];
    } else {
      assert rows[..k] == rows;
    }
  }

  /** An overlap with what was already observed is an overlap of the rows. */
  lemma OverlapRefused(ordered: seq<nat>, rows: seq<ObservationRow>, k: nat)
    requires k < |rows| && !(RowsObserved(ordered, rows[..k]) !! Indices(ordered, rows[k].members))
    ensures !RowsDisjoint(ordered, rows)
  {
    assert rows[..k + 1][..k] == rows[..k];
    if RowsDisjoint(ordered, rows) { DisjointPrefix(ordered, rows, k + 1); }
  }

  /** After the rows `before`: the masks and the counters hold them. */
  ghost predicate Counted(ordered: seq<nat>, before: seq<ObservationRow>, observed: nat, usable: nat,
                          added: seq<seq<nat>>, base: seq<seq<nat>>)
  {
    && RowsDisjoint(ordered, before)
    && IsMask(observed, RowsObserved(ordered, before)) && IsMask(usable, RowsUsable(ordered, before))
    && Tallied(added, base, ordered, before) && Small(added, |ordered|)
  }

  lemma NothingCounted(ordered: seq<nat>, base: seq<seq<nat>>)
    requires |base| == BIN_COUNT && Small(base, |ordered|)
    ensures Counted(ordered, [], 0, 0, base, base)
  {
    forall i: nat ensures !Bit(0, i) { BitOfZero(i); }
  }

  lemma CountedPlain(ordered: seq<nat>, before: seq<ObservationRow>, row: ObservationRow, mask: nat, observed: nat,
                     usable: nat, added: seq<seq<nat>>, base: seq<seq<nat>>)
    requires Counted(ordered, before, observed, usable, added, base) && IsMask(mask, Indices(ordered, row.members))
    requires BinIndex(row.bin).None? && RowsObserved(ordered, before) !! Indices(ordered, row.members)
    ensures Or(observed, mask) >= 0 && Counted(ordered, before + [row], Or(observed, mask), usable, added, base)
  {
    MaskOr(observed, mask, RowsObserved(ordered, before), Indices(ordered, row.members));
    RowsObservedSnoc(ordered, before, row);
    RowsUsableSnoc(ordered, before, row);
    RowsDisjointSnoc(ordered, before, row);
    TallyUncounted(added, base, ordered, before, row);
  }

  lemma CountedBin(ordered: seq<nat>, before: seq<ObservationRow>, row: ObservationRow, mask: nat, observed: nat,
                   usable: nat, added: seq<seq<nat>>, base: seq<seq<nat>>, bin: nat)
    requires Counted(ordered, before, observed, usable, added, base) && IsMask(mask, Indices(ordered, row.members))
    requires BinIndex(row.bin) == Some(bin) && RowsObserved(ordered, before) !! Indices(ordered, row.members)
    requires mask < Pow2(|ordered|)
    ensures Or(observed, mask) >= 0 && Or(usable, mask) >= 0
    ensures Counted(ordered, before + [row], Or(observed, mask), Or(usable, mask), added[bin := added[bin] + [mask]],
                    base)
  {
    MaskOr(observed, mask, RowsObserved(ordered, before), Indices(ordered, row.members));
    MaskOr(usable, mask, RowsUsable(ordered, before), Indices(ordered, row.members));
    RowsObservedSnoc(ordered, before, row);
    RowsUsableSnoc(ordered, before, row);
    RowsDisjointSnoc(ordered, before, row);
    TallyCounted(added, base, ordered, before, row, bin, mask);
  }

  /** One row: refuse a candidate observed before, add the rest. */
  method CountRow(pool: Pool, counters: Counters, rows: seq<ObservationRow>, k: nat, observed: nat, usable: nat,
                  ghost base: seq<seq<nat>>)
    returns (ok: bool, observedAfter: nat, usableAfter: nat)
    requires k < |rows| && pool.Valid() && Known(pool, rows[k].members) && counters.Valid()
    requires Counted(pool.ordered, rows[..k], observed, usable, counters.added, base)
    modifies counters
    ensures counters.Valid()
    ensures ok ==> Counted(pool.ordered, rows[..k + 1], observedAfter, usableAfter, counters.added, base)
    ensures !ok ==> !RowsDisjoint(pool.ordered, rows) && counters.added == old(counters.added)
  {
    var row := rows[k];
    ghost var before := rows[..k];
    PrefixSnoc(rows, k);
    var mask := MaskOf(pool, row.members);
    observedAfter, usableAfter := observed, usable;
    MaskMeets(observed, mask, RowsObserved(pool.ordered, before), Indices(pool.ordered, row.members));
    if And(observed, mask) != 0 {
      OverlapRefused(pool.ordered, rows, k);
      return false, observedAfter, usableAfter;
    }
    observedAfter, usableAfter := AddRow(pool, counters, before, row, mask, observed, usable, base);
    ok := true;
  }

  /** Add a row that no candidate was observed in before. */
  method AddRow(pool: Pool, counters: Counters, ghost before: seq<ObservationRow>, row: ObservationRow, mask: nat,
                observed: nat, usable: nat, ghost base: seq<seq<nat>>)
    returns (observedAfter: nat, usableAfter: nat)
    requires counters.Valid() && Counted(pool.ordered, before, observed, usable, counters.added, base)
    requires IsMask(mask, Indices(pool.ordered, row.members)) && mask < Pow2(|pool.ordered|)
    requires RowsObserved(pool.ordered, before) !! Indices(pool.ordered, row.members)
    modifies counters
    ensures counters.Valid() && Counted(pool.ordered, before + [row], observedAfter, usableAfter, counters.added, base)
  {
    OrNonneg(observed, mask);
    OrNonneg(usable, mask);
    observedAfter, usableAfter := Or(observed, mask), usable;
    match BinIndex(row.bin)
    case None =>
      CountedPlain(pool.ordered, before, row, mask, observed, usable, counters.added, base);
    case Some(bin) =>
      CountedBin(pool.ordered, before, row, mask, observed, usable, counters.added, base, bin);
      usableAfter := Or(usable, mask);
      counters.Add(bin, mask);
  }

  method CountRows(pool: Pool, counters: Counters, rows: seq<ObservationRow>)
    returns (ok: bool, observed: nat, usable: nat)
    requires pool.Valid() && AllKnown(pool, rows) && counters.Valid() && Small(counters.added, |pool.ordered|)
    modifies counters
    ensures counters.Valid()
    ensures ok ==> Counted(pool.ordered, rows, observed, usable, counters.added, old(counters.added))
    ensures !ok ==> !RowsDisjoint(pool.ordered, rows)
  {
    ghost var base := counters.added;
    observed, usable := 0, 0;
    NothingCounted(pool.ordered, base);
    for k := 0 to |rows|
      invariant counters.Valid()
      invariant Counted(pool.ordered, rows[..k], observed, usable, counters.added, base)
    {
      ok, observed, usable := CountRow(pool, counters, rows, k, observed, usable, base);
      if !ok { return; }
    }
    assert rows[..|rows|] == rows;
    ok := true;
  }

  /** The coverage row against the observations, all as masks. */
  method CheckCoverage(pool: Pool, c: CoverageRow, observed: nat, usable: nat, ghost seen: set<nat>,
                       ghost counted: set<nat>)
    returns (ok: bool)
    requires pool.Valid() && CoverageKnown(pool, c) && GroupsApart(pool.ordered, c)
    requires IsMask(observed, seen) && IsMask(usable, counted)
    ensures ok <==> CoverageOk(|pool.ordered|, c.status, seen, counted, Indices(pool.ordered, c.notRun),
                               Indices(pool.ordered, c.unusable), Indices(pool.ordered, c.skipped))
  {
    var missing := MaskOf(pool, c.notRun);
    var unusable := MaskOf(pool, c.unusable);
    var skipped := MaskOf(pool, c.skipped);
    ok := CoverageMasks(|pool.ordered|, c.status, observed, usable, missing, unusable, skipped);
    CoverageMasksExact(|pool.ordered|, c.status, observed, usable, missing, unusable, skipped, seen, counted,
                       Indices(pool.ordered, c.notRun), Indices(pool.ordered, c.unusable),
                         Indices(pool.ordered, c.skipped));
  }

  function CoverageMasks(n: nat, status: Status, observed: nat, usable: nat, missing: nat, unusable: nat,
                         skipped: nat): bool
  {
    && And(observed, Or(missing, skipped)) == 0 && And(usable, unusable) == 0
    && Or(Or(observed, missing), skipped) == Shl(1, n) - 1
    && Or(usable, unusable) == observed
    && status == ExpectedStatus(missing != 0 || unusable != 0 || skipped != 0, observed != 0)
  }

  lemma UniverseMask(n: nat)
    ensures Shl(1, n) - 1 >= 0 && IsMask(Shl(1, n) - 1, Sweep.UpTo(n))
  {
    ShlNonneg(1, n);
    forall i: nat ensures Bit(Shl(1, n) - 1, i) <==> i in Sweep.UpTo(n) { BitOnes(n, i); }
  }

  /** The mask comparisons decide the set conditions. */
  lemma CoverageMasksExact(n: nat, status: Status, observed: nat, usable: nat, missing: nat, unusable: nat,
                           skipped: nat, seen: set<nat>, counted: set<nat>, a: set<nat>, b: set<nat>, c: set<nat>)
    requires IsMask(observed, seen) && IsMask(usable, counted) && IsMask(missing, a) && IsMask(unusable, b)
             && IsMask(skipped, c)
    requires a !! b && (a + b) !! c
    ensures CoverageMasks(n, status, observed, usable, missing, unusable, skipped) <==>
            CoverageOk(n, status, seen, counted, a, b, c)
  {
    MaskOr(missing, skipped, a, c);
    MaskMeets(observed, Or(missing, skipped), seen, a + c);
    MaskMeets(usable, unusable, counted, b);
    MaskOr(observed, missing, seen, a);
    MaskOr(Or(observed, missing), skipped, seen + a, c);
    UniverseMask(n);
    MaskEqual(Or(Or(observed, missing), skipped), Shl(1, n) - 1, seen + a + c, Sweep.UpTo(n));
    MaskOr(usable, unusable, counted, b);
    MaskEqual(Or(usable, unusable), observed, counted + b, seen);
    MaskEmpty(missing, a);
    MaskEmpty(unusable, b);
    MaskEmpty(skipped, c);
    MaskEmpty(observed, seen);
  }

  // ----- whole inputs -----

  ghost predicate InputJoins(ordered: seq<nat>, r: InputRows)
  {
    RowsJoin(ordered, r.observations, 0) && GroupsApart(ordered, r.coverage)
  }

  method JoinInput(pool: Pool, r: InputRows) returns (ok: bool)
    requires pool.Valid()
    modifies pool
    ensures pool.Valid() && Grows(pool)
    ensures ok <==> InputJoins(pool.ordered, r)
    ensures ok ==> InputKnown(pool, r)
  {
    ok := JoinObservations(pool, r.observations);
    if !ok { return; }
    ok := JoinCoverage(pool, r.coverage);
  }

  /** The second pass over one input decides its rows and counts them. */
  method CountInput(pool: Pool, counters: Counters, r: InputRows) returns (ok: bool)
    requires pool.Valid() && InputKnown(pool, r) && InputJoins(pool.ordered, r)
    requires counters.Valid() && Small(counters.added, |pool.ordered|)
    modifies counters
    ensures counters.Valid()
    ensures ok <==> InputOk(pool.ordered, r)
    ensures ok ==>
            Small(counters.added, |pool.ordered|) && Tallied(counters.added, old(counters.added), pool.ordered,
                                                             r.observations)
  {
    var observed, usable;
    ok, observed, usable := CountRows(pool, counters, r.observations);
    if !ok { return; }
    ok := CheckCoverage(pool, r.coverage, observed, usable, RowsObserved(pool.ordered, r.observations),
                        RowsUsable(pool.ordered, r.observations));
  }

  // ----- the candidates' rows -----

  /** The rows so far are good, distinct, and exactly what the map holds. */
  ghost predicate Indexed(ordered: seq<nat>, rows: seq<CandidateRow>, byId: map<nat, CandidateRow>)
  {
    && (forall k :: 0 <= k < |rows| ==> rows[k].id in ordered && rows[k].id in byId && byId[rows[k].id] == rows[k])
    && (forall j, k :: 0 <= j < k < |rows| ==> rows[j].id != rows[k].id)
    && (forall p :: p in byId ==> HasRow(rows, p))
  }

  lemma IndexedSnoc(ordered: seq<nat>, rows: seq<CandidateRow>, row: CandidateRow, byId: map<nat, CandidateRow>)
    requires Indexed(ordered, rows, byId) && row.id in ordered && row.id !in byId
    ensures Indexed(ordered, rows + [row], byId[row.id := row])
  {
    var all := rows + [row];
    assert all[|rows|] == row;
    forall p | p in byId
      ensures HasRow(all, p)
    {
      var k :| 0 <= k < |rows| && rows[k].id == p;
      assert all[k].id == p;
    }
  }

  /** Why a row is refused: it is malformed, unknown, or its candidate has one. */
  lemma RowRefused(ordered: seq<nat>, rows: seq<CandidateRow>, k: nat, byId: map<nat, CandidateRow>)
    requires k < |rows| && Indexed(ordered, rows[..k], byId)
    requires rows[k].id !in ordered || rows[k].id in byId || !RowFormed(rows[k])
    ensures !(AllFormed(rows) && OneRowEach(ordered, rows))
  {
    if rows[k].id in byId {
      var j :| 0 <= j < k && rows[..k][j].id == rows[k].id;
      assert rows[j].id == rows[k].id;
    }
  }

  lemma RowIndexed(ordered: seq<nat>, rows: seq<CandidateRow>, k: nat, byId: map<nat, CandidateRow>)
    requires k < |rows| && Indexed(ordered, rows[..k], byId) && AllFormed(rows[..k])
    requires rows[k].id in ordered && rows[k].id !in byId && RowFormed(rows[k])
    ensures Indexed(ordered, rows[..k + 1], byId[rows[k].id := rows[k]]) && AllFormed(rows[..k + 1])
  {
    IndexedSnoc(ordered, rows[..k], rows[k], byId);
    assert rows[..k + 1] == rows[..k] + [rows[k]];
  }

  /** Index the candidate rows; refuse a malformed, unknown, repeated or absent one. */
  method IndexRows(ordered: seq<nat>, rows: seq<CandidateRow>) returns (ok: bool, byId: map<nat, CandidateRow>)
    ensures ok <==> AllFormed(rows) && OneRowEach(ordered, rows)
    ensures ok ==> Indexed(ordered, rows, byId) && forall p :: p in ordered ==> p in byId
  {
    byId := map[];
    for k := 0 to |rows|
      invariant Indexed(ordered, rows[..k], byId) && AllFormed(rows[..k])
    {
      if rows[k].id !in ordered || rows[k].id in byId || !RowFormed(rows[k]) {
        RowRefused(ordered, rows, k, byId);
        return false, byId;
      }
      RowIndexed(ordered, rows, k, byId);
      byId := byId[rows[k].id := rows[k]];
    }
    assert rows[..|rows|] == rows;
    ok := forall i :: 0 <= i < |ordered| ==> ordered[i] in byId;
  }

  // ----- all inputs -----

  /** The counters of one domain hold the totals of the inputs. */
  ghost predicate Totalled(added: seq<seq<nat>>, ordered: seq<nat>, inputs: seq<InputRows>, d: Domain)
  {
    |added| == BIN_COUNT && Small(added, |ordered|)
    && forall b: nat, i: nat :: b < BIN_COUNT ==> Occurrences(added[b], i) == TotalCount(ordered, inputs, d, b, i)
  }

  lemma TotalCountSnoc(ordered: seq<nat>, inputs: seq<InputRows>, r: InputRows, d: Domain, b: nat, i: nat)
    ensures TotalCount(ordered, inputs + [r], d, b, i)
            == TotalCount(ordered, inputs, d, b, i)
              + (if r.domain == d then RowCount(ordered, r.observations, b, i) else 0)
  {
    assert (inputs + [r])[..|inputs|] == inputs;
  }

  lemma TotalledSame(added: seq<seq<nat>>, after: seq<seq<nat>>, ordered: seq<nat>, inputs: seq<InputRows>,
                     r: InputRows)
    requires Totalled(added, ordered, inputs, r.domain)
    requires Small(after, |ordered|) && Tallied(after, added, ordered, r.observations)
    ensures Totalled(after, ordered, inputs + [r], r.domain)
  {
    forall b: nat, i: nat | b < BIN_COUNT
      ensures Occurrences(after[b], i) == TotalCount(ordered, inputs + [r], r.domain, b, i)
    {
      TotalCountSnoc(ordered, inputs, r, r.domain, b, i);
    }
  }

  lemma TotalledOther(added: seq<seq<nat>>, ordered: seq<nat>, inputs: seq<InputRows>, r: InputRows, d: Domain)
    requires Totalled(added, ordered, inputs, d) && r.domain != d
    ensures Totalled(added, ordered, inputs + [r], d)
  {
    forall b: nat, i: nat | b < BIN_COUNT
      ensures TotalCount(ordered, inputs + [r], d, b, i) == TotalCount(ordered, inputs, d, b, i)
    {
      TotalCountSnoc(ordered, inputs, r, d, b, i);
    }
  }

  ghost predicate BothTotalled(c: seq<seq<nat>>, m: seq<seq<nat>>, ordered: seq<nat>, inputs: seq<InputRows>)
  {
    Totalled(c, ordered, inputs, Concrete) && Totalled(m, ordered, inputs, Mutation)
  }

  ghost predicate AllKnownInputs(pool: Pool, inputs: seq<InputRows>)
    reads pool
  {
    forall k :: 0 <= k < |inputs| ==> InputKnown(pool, inputs[k])
  }

  ghost predicate InputsJoin(ordered: seq<nat>, inputs: seq<InputRows>, i: nat)
    requires i <= |inputs|
    decreases |inputs| - i
  {
    i == |inputs| || (InputJoins(ordered, inputs[i]) && InputsJoin(ordered, inputs, i + 1))
  }

  lemma OkInputJoins(ordered: seq<nat>, r: InputRows)
    requires InputOk(ordered, r)
    ensures InputJoins(ordered, r)
  {
  }

  /** The first pass only refuses what the second would. */
  lemma {:induction false} OkJoins(ordered: seq<nat>, inputs: seq<InputRows>, i: nat)
    requires i <= |inputs| && InputsOk(ordered, inputs, i)
    ensures InputsJoin(ordered, inputs, i)
    decreases |inputs| - i
  {
    if i < |inputs| {
      OkInputJoins(ordered, inputs[i]);
      OkJoins(ordered, inputs, i + 1);
    }
  }

  lemma WholePrefix(inputs: seq<InputRows>)
    ensures inputs[..|inputs|] == inputs
  {
  }

  lemma NextPrefix(inputs: seq<InputRows>, k: nat)
    requires k < |inputs|
    ensures inputs[..k + 1] == inputs[..k] + [inputs[k]]
  {
  }

  method JoinNextInput(pool: Pool, inputs: seq<InputRows>, k: nat) returns (ok: bool)
    requires k < |inputs| && pool.Valid() && AllKnownInputs(pool, inputs[..k])
    modifies pool
    ensures pool.Valid()
    ensures ok ==> AllKnownInputs(pool, inputs[..k + 1])
    ensures InputsJoin(pool.ordered, inputs, k) <==> ok && InputsJoin(pool.ordered, inputs, k + 1)
  {
    ok := JoinInput(pool, inputs[k]);
    NextPrefix(inputs, k);
  }

  method JoinInputs(pool: Pool, inputs: seq<InputRows>) returns (ok: bool)
    requires pool.Valid()
    modifies pool
    ensures pool.Valid()
    ensures ok <==> InputsJoin(pool.ordered, inputs, 0)
    ensures ok ==> AllKnownInputs(pool, inputs)
  {
    for k := 0 to |inputs|
      invariant pool.Valid() && AllKnownInputs(pool, inputs[..k])
      invariant InputsJoin(pool.ordered, inputs, 0) <==> InputsJoin(pool.ordered, inputs, k)
    {
      ok := JoinNextInput(pool, inputs, k);
      if !ok { return; }
    }
    WholePrefix(inputs);
    ok := true;
  }

  /** The second pass: every input is decided, and the counters of its domain
      hold what its rows say. */
  method CountInputs(pool: Pool, concrete: Counters, mutation: Counters, inputs: seq<InputRows>) returns (ok: bool)
    requires pool.Valid() && AllKnownInputs(pool, inputs) && concrete != mutation
    requires InputsJoin(pool.ordered, inputs, 0)
    requires concrete.Valid() && mutation.Valid() && BothTotalled(concrete.added, mutation.added, pool.ordered, [])
    modifies concrete, mutation
    ensures concrete.Valid() && mutation.Valid()
    ensures ok <==> InputsOk(pool.ordered, inputs, 0)
    ensures ok ==> BothTotalled(concrete.added, mutation.added, pool.ordered, inputs)
  {
    for k := 0 to |inputs|
      invariant concrete.Valid() && mutation.Valid()
                && BothTotalled(concrete.added, mutation.added, pool.ordered, inputs[..k])
      invariant InputsJoin(pool.ordered, inputs, k)
      invariant InputsOk(pool.ordered, inputs, 0) <==> InputsOk(pool.ordered, inputs, k)
    {
      ok := CountNext(pool, concrete, mutation, inputs, k);
      if !ok { return; }
    }
    WholePrefix(inputs);
    ok := true;
  }

  method CountNext(pool: Pool, concrete: Counters, mutation: Counters, inputs: seq<InputRows>, k: nat)
    returns (ok: bool)
    requires k < |inputs| && pool.Valid() && InputKnown(pool, inputs[k]) && concrete != mutation
    requires InputsJoin(pool.ordered, inputs, k)
    requires concrete.Valid() && mutation.Valid() && BothTotalled(concrete.added, mutation.added, pool.ordered,
                                                                  inputs[..k])
    modifies concrete, mutation
    ensures concrete.Valid() && mutation.Valid()
    ensures InputsOk(pool.ordered, inputs, k) <==> ok && InputsOk(pool.ordered, inputs, k + 1)
    ensures InputsJoin(pool.ordered, inputs, k + 1)
    ensures ok ==> BothTotalled(concrete.added, mutation.added, pool.ordered, inputs[..k + 1])
  {
    NextPrefix(inputs, k);
    var r := inputs[k];
    ghost var c, m := concrete.added, mutation.added;
    match r.domain
    case Concrete =>
      ok := CountInput(pool, concrete, r);
      if ok { TotalledSame(c, concrete.added, pool.ordered, inputs[..k], r); }
      TotalledOther(m, pool.ordered, inputs[..k], r, Mutation);
    case Mutation =>
      ok := CountInput(pool, mutation, r);
      if ok { TotalledSame(m, mutation.added, pool.ordered, inputs[..k], r); }
      TotalledOther(c, pool.ordered, inputs[..k], r, Concrete);
  }

  // ----- the header's universe -----

  lemma {:induction false} ExpandIncreases(ranges: seq<Range>, previous: nat)
    requires Ordered(ranges, previous)
    ensures Increasing(Expand(ranges, previous)) && Bounded(Expand(ranges, previous), previous)
    decreases |ranges|
  {
    if ranges != [] {
      ExpandIncreases(ranges[1..], ranges[0].last);
      var head, rest := IdRanges.Members(ranges[0]), Expand(ranges[1..], ranges[0].last);
      assert forall i :: 0 <= i < |head| ==> ranges[0].first <= head[i] <= ranges[0].last;
    }
  }

  lemma DecodedUniverse(text: string)
    requires DecodeAnyIds(text).Some?
    ensures Universe(DecodeAnyIds(text).value)
  {
    ParsedOrdered(text);
    DecodeAnyExact(ParseRanges(text).value, 0);
    ExpandIncreases(ParseRanges(text).value, 0);
  }

  // ----- the stored counts -----

  lemma PlanesFit(added: seq<seq<nat>>, n: nat, b: nat)
    requires Small(added, n) && b < |added|
    ensures Within(AddAll(added[b]), 8 * ((n + 7) / 8))
  {
    var width := 8 * ((n + 7) / 8);
    Pow2Add(n, width - n);
    forall k | 0 <= k < |added[b]|
      ensures added[b][k] < Pow2(width)
    {
      Bigger(Pow2(n), Pow2(width - n));
    }
    AddAllWithin(added[b], width);
  }

  lemma Bigger(x: nat, y: nat)
    requires y >= 1
    ensures x <= x * y
  {
  }

  /** The sliced counters accept exactly the stored counts that equal the totals. */
  method CheckCounts(counters: Counters, ordered: seq<nat>, counts: seq<seq<nat>>, ghost inputs: seq<InputRows>,
                     ghost d: Domain)
    returns (ok: bool)
    requires counters.Valid() && Totalled(counters.added, ordered, inputs, d)
    requires |counts| == |ordered| && forall i :: 0 <= i < |counts| ==> |counts[i]| == BIN_COUNT
    ensures ok <==> forall i, b :: 0 <= i < |ordered| && 0 <= b < BIN_COUNT ==>
            counts[i][b] == TotalCount(ordered, inputs, d, b, i)
  {
    ok := counters.Validate(counts);
    forall b | 0 <= b < BIN_COUNT
      ensures Within(counters.bins[b], 8 * ((|counts| + 7) / 8))
    {
      PlanesFit(counters.added, |ordered|, b);
    }
  }

  /** The rows in candidate order. */
  function InOrder(ordered: seq<nat>, byId: map<nat, CandidateRow>): (r: seq<CandidateRow>)
    requires forall p :: p in ordered ==> p in byId
    ensures |r| == |ordered| && forall i :: 0 <= i < |r| ==> r[i] == byId[ordered[i]]
  {
    seq(|ordered|, i requires 0 <= i < |ordered| => byId[ordered[i]])
  }

  ghost predicate OrderedAgree(ordered: seq<nat>, inputs: seq<InputRows>, rows: seq<CandidateRow>)
    requires |rows| == |ordered|
  {
    forall i :: 0 <= i < |ordered| ==> CountsAgree(ordered, inputs, rows[i], i)
  }

  /** Comparing in candidate order compares every row with its candidate. */
  lemma InOrderAgrees(ordered: seq<nat>, inputs: seq<InputRows>, rows: seq<CandidateRow>, byId: map<nat, CandidateRow>)
    requires Indexed(ordered, rows, byId) && forall p :: p in ordered ==> p in byId
    ensures OrderedAgree(ordered, inputs, InOrder(ordered, byId)) <==> RowsAgree(ordered, inputs, rows)
  {
    var sorted := InOrder(ordered, byId);
    if RowsAgree(ordered, inputs, rows) {
      forall i | 0 <= i < |ordered|
        ensures CountsAgree(ordered, inputs, sorted[i], i)
      {
        assert ordered[i] in byId && HasRow(rows, ordered[i]);
        var k :| 0 <= k < |rows| && rows[k].id == ordered[i];
        assert rows[k] == sorted[i];
      }
    }
    if OrderedAgree(ordered, inputs, sorted) {
      forall k, i | 0 <= k < |rows| && 0 <= i < |ordered| && rows[k].id == ordered[i]
        ensures CountsAgree(ordered, inputs, rows[k], i)
      {
        assert rows[k] == sorted[i];
      }
    }
  }

  lemma IndexedFormed(ordered: seq<nat>, rows: seq<CandidateRow>, byId: map<nat, CandidateRow>, i: nat)
    requires Indexed(ordered, rows, byId) && AllFormed(rows) && i < |ordered| && ordered[i] in byId
    ensures |byId[ordered[i]].concreteCounts| == |byId[ordered[i]].mutationCounts| == BIN_COUNT
  {
    var k :| 0 <= k < |rows| && rows[k].id == ordered[i];
    assert RowFormed(rows[k]);
  }

  /** Both domains' stored counts, compared in candidate order. */
  method CheckRows(concrete: Counters, mutation: Counters, ordered: seq<nat>, rows: seq<CandidateRow>,
                   ghost inputs: seq<InputRows>)
    returns (ok: bool)
    requires concrete.Valid() && mutation.Valid() && BothTotalled(concrete.added, mutation.added, ordered, inputs)
    requires |rows| == |ordered|
    requires forall i :: 0 <= i < |rows| ==> |rows[i].concreteCounts| == |rows[i].mutationCounts| == BIN_COUNT
    ensures ok <==> OrderedAgree(ordered, inputs, rows)
  {
    var c := seq(|rows|, i requires 0 <= i < |rows| => rows[i].concreteCounts);
    var m := seq(|rows|, i requires 0 <= i < |rows| => rows[i].mutationCounts);
    var first := CheckCounts(concrete, ordered, c, inputs, Concrete);
    var second := CheckCounts(mutation, ordered, m, inputs, Mutation);
    ok := first && second;
    if ok {
      forall i, b | 0 <= i < |ordered| && 0 <= b < BIN_COUNT
        ensures rows[i].concreteCounts[b] == TotalCount(ordered, inputs, Concrete, b, i)
        ensures rows[i].mutationCounts[b] == TotalCount(ordered, inputs, Mutation, b, i)
      {
        assert c[i][b] == TotalCount(ordered, inputs, Concrete, b, i)
            && m[i][b] == TotalCount(ordered, inputs, Mutation, b, i);
      }
    } else if OrderedAgree(ordered, inputs, rows) {
      CountsFollow(ordered, inputs, rows, c, m);
    }
  }

  lemma CountsFollow(ordered: seq<nat>, inputs: seq<InputRows>, rows: seq<CandidateRow>, c: seq<seq<nat>>,
                     m: seq<seq<nat>>)
    requires |rows| == |ordered| == |c| == |m| && OrderedAgree(ordered, inputs, rows)
    requires forall i :: 0 <= i < |rows| ==> c[i] == rows[i].concreteCounts && m[i] == rows[i].mutationCounts
    requires forall i :: 0 <= i < |rows| ==> |c[i]| == |m[i]| == BIN_COUNT
    ensures forall i, b :: 0 <= i < |ordered| && 0 <= b < BIN_COUNT ==>
            c[i][b] == TotalCount(ordered, inputs, Concrete, b, i)
    ensures forall i, b :: 0 <= i < |ordered| && 0 <= b < BIN_COUNT ==>
            m[i][b] == TotalCount(ordered, inputs, Mutation, b, i)
  {
    forall i, b | 0 <= i < |ordered| && 0 <= b < BIN_COUNT
      ensures c[i][b] == TotalCount(ordered, inputs, Concrete, b, i)
              && m[i][b] == TotalCount(ordered, inputs, Mutation, b, i)
    {
      assert CountsAgree(ordered, inputs, rows[i], i);
    }
  }

  lemma NothingTotalled(added: seq<seq<nat>>, ordered: seq<nat>)
    requires added == seq(BIN_COUNT, _ => [])
    ensures BothTotalled(added, added, ordered, [])
  {
  }

  /** Loading succeeds exactly on the bundles the specification accepts, in which
      every candidate row is as its observations show. */
  method LoadBundle(rows: Rows) returns (r: Option<seq<nat>>)
    ensures r.Some? ==> LoaderAccepts(r.value, rows) && AllAsSeen(r.value, rows)
    ensures r.None? ==> forall ordered :: !LoaderAccepts(ordered, rows)
  {
    r := DecodeAnyIds(rows.candidates);
    if r.None? { return; }
    var ordered := r.value;
    DecodedUniverse(rows.candidates);
    var ok, byId := IndexRows(ordered, rows.rows);
    if !ok { return None; }
    ok := LoadInputs(ordered, rows.inputs, rows.rows, byId);
    if !ok { return None; }
    AcceptedAsSeen(ordered, rows);
  }

  ghost predicate AllAsSeen(ordered: seq<nat>, rows: Rows)
  {
    forall k, i :: 0 <= k < |rows.rows| && 0 <= i < |ordered| && rows.rows[k].id == ordered[i] ==>
      AsSeen(ordered, rows.inputs, rows.rows[k], i)
  }

  lemma AcceptedAsSeen(ordered: seq<nat>, rows: Rows)
    requires LoaderAccepts(ordered, rows)
    ensures AllAsSeen(ordered, rows)
  {
    forall k, i | 0 <= k < |rows.rows| && 0 <= i < |ordered| && rows.rows[k].id == ordered[i]
      ensures AsSeen(ordered, rows.inputs, rows.rows[k], i)
    {
      AcceptedClasses(ordered, rows, k, i);
    }
  }

  method LoadInputs(ordered: seq<nat>, inputs: seq<InputRows>, ghost rows: seq<CandidateRow>,
                    byId: map<nat, CandidateRow>) returns (ok: bool)
    requires Universe(ordered) && AllFormed(rows) && Indexed(ordered, rows, byId) && forall p :: p in ordered ==>
             p in byId
    ensures ok <==> InputsOk(ordered, inputs, 0) && RowsAgree(ordered, inputs, rows)
  {
    var pool := new Pool(ordered);
    ok := JoinInputs(pool, inputs);
    if !ok {
      if InputsOk(ordered, inputs, 0) { OkJoins(ordered, inputs, 0); }
      return;
    }
    var concrete := new Counters();
    var mutation := new Counters();
    NothingTotalled(concrete.added, ordered);
    ok := CountInputs(pool, concrete, mutation, inputs);
    if !ok { return; }
    forall i | 0 <= i < |ordered|
      ensures |byId[ordered[i]].concreteCounts| == |byId[ordered[i]].mutationCounts| == BIN_COUNT
    {
      IndexedFormed(ordered, rows, byId, i);
    }
    ok := CheckRows(concrete, mutation, ordered, InOrder(ordered, byId), inputs);
    InOrderAgrees(ordered, inputs, rows, byId);
  }
}
