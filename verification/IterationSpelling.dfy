/** Exactly what the reader of BINRADAR logs accepts.  A payload must hold heads,
    fault sites and branch vectors as written, and deltas that may carry padding;
    a log yields one iteration per frame up to the first that may not follow. */
module IterationSpelling {
  import opened Sequences
  import opened Bitmaps
  import opened Options
  import opened Varints
  import opened Frames
  import opened Iterations
  import opened BinradarLog
  import Predicates
  import Structs
  import BranchCodec

  // ----- member lists -----

  ghost predicate DeltasSpell(b: seq<Byte>, members: seq<nat>, previous: Option<nat>)
    decreases |members|
  {
    if members == [] then b == []
    else exists k: nat :: DeltaEnds(b, k, Delta(members[0], previous))
                          && DeltasSpell(b[k..], members[1..], Some(members[0]))
  }

  ghost predicate DeltaEnds(b: seq<Byte>, k: nat, delta: nat) { k <= |b| && Spells(b[..k], delta) }

  lemma {:induction false} ParsedMembersSpell(data: seq<Byte>, count: nat, previous: Option<nat>, seen: set<nat>,
                                              r: Parsed<seq<nat>>)
    requires ParseMembers(data, count, previous, seen) == Some(r)
    ensures DeltasSpell(data[..r.size], r.value, previous)
    decreases count
  {
    if count > 0 {
      var n := ReadU32(data).value;
      var member := if previous.None? then n.value else previous.value + n.value;
      var rest := ParseMembers(data[n.size..], count - 1, Some(member), seen + {member}).value;
      ParsedMembersSpell(data[n.size..], count - 1, Some(member), seen + {member}, rest);
      ReadSpells(data, n);
      DeltaInFront(data, n, member, previous, rest, r);
    }
  }

  lemma DeltaInFront(data: seq<Byte>, n: Number, member: nat, previous: Option<nat>, rest: Parsed<seq<nat>>,
                     r: Parsed<seq<nat>>)
    requires n.size <= |data| && Spells(data[..n.size], n.value) && n.value == Delta(member, previous)
    requires n.size + rest.size <= |data| && DeltasSpell(data[n.size..][..rest.size], rest.value, Some(member))
    requires r.value == [member] + rest.value && r.size == n.size + rest.size
    ensures DeltasSpell(data[..r.size], r.value, previous)
  {
    var b := data[..r.size];
    CutFront(data, n.size, rest.size);
    assert r.value[1..] == rest.value;
    assert DeltaEnds(b, n.size, n.value);
  }

  lemma {:induction false} SpelledMembersParse(b: seq<Byte>, members: seq<nat>, previous: Option<nat>, seen: set<nat>,
                                               rest: seq<Byte>)
    requires MembersUp(members, previous) && Elements(members) !! seen && DeltasSpell(b, members, previous)
    ensures ParseMembers(b + rest, |members|, previous, seen) == Some(MakeParsed(members, |b|))
    decreases |members|
  {
    if members != [] {
      var x := members[0];
      var k: nat :| DeltaEnds(b, k, Delta(x, previous)) && DeltasSpell(b[k..], members[1..], Some(x));
      UpHead(members, previous, seen);
      SpelledMembersParse(b[k..], members[1..], Some(x), seen + {x}, rest);
      DeltaReads(b, k, Delta(x, previous), rest);
      SpelledStep(b + rest, k, members, previous, seen, b[k..] + rest, |b[k..]|, |b|);
    }
  }

  lemma DeltaReads(b: seq<Byte>, k: nat, delta: nat, rest: seq<Byte>)
    requires DeltaEnds(b, k, delta)
    ensures ReadU32(b + rest) == Some(MakeNumber(delta, k)) && (b + rest)[k..] == b[k..] + rest
  {
    assert (b + rest)[..k] == b[..k];
    ReadSpells(b + rest, MakeNumber(delta, k));
  }

  lemma SpelledStep(data: seq<Byte>, k: nat, members: seq<nat>, previous: Option<nat>, seen: set<nat>,
                    tail: seq<Byte>, more: nat, size: nat)
    requires members != [] && Accepts(members[0], previous, seen) && k <= |data| && data[k..] == tail
    requires size == k + more
    requires ReadU32(data) == Some(MakeNumber(Delta(members[0], previous), k))
    requires ParseMembers(tail, |members[1..]|, Some(members[0]), seen + {members[0]})
             == Some(MakeParsed(members[1..], more))
    ensures ParseMembers(data, |members|, previous, seen) == Some(MakeParsed(members, size))
  {
    var x := members[0];
    ParseCons(data, |members|, previous, seen, Delta(x, previous), k, x, members[1..], more);
    assert [x] + members[1..] == members;
  }

  // ----- one group -----

  ghost predicate GroupSpelled(b: seq<Byte>, g: Group)
  {
    exists deltas ::
      DeltasSpell(deltas, g.members, None)
      && b == HeadBytes(HeadOf(g)) + (SiteBytes(g.site) + (VectorBytes(g.branches) + deltas))
  }

  lemma SpelledGroupParses(version: nat, b: seq<Byte>, g: Group, seen: set<nat>, rest: seq<Byte>)
    requires GroupOk(version, g) && Elements(g.members) !! seen && GroupSpelled(b, g)
    ensures ParseGroup(version, b + rest, seen) == Some(MakeParsed(g, |b|))
  {
    var deltas :| DeltasSpell(deltas, g.members, None)
               && b == HeadBytes(HeadOf(g)) + (SiteBytes(g.site) + (VectorBytes(g.branches) + deltas));
    SpelledMembersParse(deltas, g.members, None, seen, rest);
    FourParts(HeadBytes(HeadOf(g)), SiteBytes(g.site), VectorBytes(g.branches), deltas, rest);
    SpelledPartsParse(version, g, seen, deltas + rest, |deltas|, b + rest, |b|);
  }

  lemma SpelledPartsParse(version: nat, g: Group, seen: set<nat>, tail: seq<Byte>, more: nat, data: seq<Byte>,
                          size: nat)
    requires GroupOk(version, g) && ParseMembers(tail, |g.members|, None, seen) == Some(MakeParsed(g.members, more))
    requires data == HeadBytes(HeadOf(g)) + (SiteBytes(g.site) + (VectorBytes(g.branches) + tail))
    requires size == GROUP_HEAD + |SiteBytes(g.site)| + |VectorBytes(g.branches)| + more
    ensures ParseGroup(version, data, seen) == Some(MakeParsed(g, size))
  {
    SpelledBodyParses(version, g, seen, tail, more);
    MemberFits(g.members, None, g.representative);
    HeadOfOk(version, g);
    GroupParts(version, HeadOf(g), SiteBytes(g.site) + (VectorBytes(g.branches) + tail), seen, g, data, size);
  }

  lemma SpelledBodyParses(version: nat, g: Group, seen: set<nat>, tail: seq<Byte>, size: nat)
    requires GroupOk(version, g) && ParseMembers(tail, |g.members|, None, seen) == Some(MakeParsed(g.members, size))
    ensures ParseBody(HeadOf(g), SiteBytes(g.site) + (VectorBytes(g.branches) + tail), seen)
            == Some(MakeParsed(g, |SiteBytes(g.site)| + |VectorBytes(g.branches)| + size))
  {
    HeadDescribes(version, g);
    BodyAround(HeadOf(g), g, seen, tail, size);
  }

  lemma FourParts(a: seq<Byte>, b: seq<Byte>, c: seq<Byte>, d: seq<Byte>, rest: seq<Byte>)
    ensures a + (b + (c + d)) + rest == a + (b + (c + (d + rest)))
    ensures |a + (b + (c + d))| == |a| + |b| + |c| + |d|
  {
  }

  lemma ParsedGroupSpelled(version: nat, data: seq<Byte>, seen: set<nat>)
    requires ParseGroup(version, data, seen).Some?
    ensures var r := ParseGroup(version, data, seen).value; GroupSpelled(data[..r.size], r.value)
  {
    var h, body := ReadHead(data), data[GROUP_HEAD..];
    var r := ParseBody(h, body, seen).value;
    var fixed := SiteSize(h) + VectorSize(h);
    ParsedBodySpelled(version, h, body, seen, r);
    HeadReadBack(data);
    HeadInFront(data, r, body[fixed..r.size]);
  }

  lemma HeadInFront(data: seq<Byte>, r: Parsed<Group>, deltas: seq<Byte>)
    requires |data| >= GROUP_HEAD + r.size && HeadBytes(HeadOf(r.value)) == data[..GROUP_HEAD]
    requires data[GROUP_HEAD..][..r.size] == SiteBytes(r.value.site) + (VectorBytes(r.value.branches) + deltas)
    requires DeltasSpell(deltas, r.value.members, None)
    ensures GroupSpelled(data[..GROUP_HEAD + r.size], r.value)
  {
    CutFront(data, GROUP_HEAD, r.size);
    SpelledFrom(data[..GROUP_HEAD + r.size], r.value, deltas);
  }

  lemma SpelledFrom(b: seq<Byte>, g: Group, deltas: seq<Byte>)
    requires b == HeadBytes(HeadOf(g)) + (SiteBytes(g.site) + (VectorBytes(g.branches) + deltas))
    requires DeltasSpell(deltas, g.members, None)
    ensures GroupSpelled(b, g)
  {
  }

  lemma ParsedBodySpelled(version: nat, h: Head, body: seq<Byte>, seen: set<nat>, r: Parsed<Group>)
    requires HeadOk(version, h) && ParseBody(h, body, seen) == Some(r)
    ensures HeadOf(r.value) == h && SiteSize(h) + VectorSize(h) <= r.size <= |body|
    ensures var deltas := body[SiteSize(h) + VectorSize(h)..r.size];
            && body[..r.size] == SiteBytes(r.value.site) + (VectorBytes(r.value.branches) + deltas)
            && DeltasSpell(deltas, r.value.members, None)
  {
    var fixed := SiteSize(h) + VectorSize(h);
    var members := ParseMembers(body[fixed..], h.memberCount, None, seen);
    FinishedBack(version, h, body, body[SiteSize(h)..fixed], members, r);
    BodyCut(body, SiteSize(h), fixed, r.size);
    DeltasBack(body[fixed..], h.memberCount, seen, members.value, body[fixed..r.size]);
  }

  lemma DeltasBack(data: seq<Byte>, count: nat, seen: set<nat>, r: Parsed<seq<nat>>, deltas: seq<Byte>)
    requires ParseMembers(data, count, None, seen) == Some(r) && deltas == data[..r.size]
    ensures DeltasSpell(deltas, r.value, None)
  {
    ParsedMembersSpell(data, count, None, seen, r);
  }

  lemma FinishedBack(version: nat, h: Head, body: seq<Byte>, packed: seq<Byte>, members: Option<Parsed<seq<nat>>>,
                     r: Parsed<Group>)
    requires HeadOk(version, h) && |body| >= SiteSize(h) + VectorSize(h)
    requires packed == body[SiteSize(h)..SiteSize(h) + VectorSize(h)]
    requires members.Some? ==>
               SiteSize(h) + VectorSize(h) + members.value.size <= |body| && |members.value.value| == h.memberCount
    requires FinishBody(h, body, members) == Some(r)
    ensures members.Some? && r.value.members == members.value.value && HeadOf(r.value) == h
    ensures r.size == SiteSize(h) + VectorSize(h) + members.value.size
    ensures SiteBytes(r.value.site) == body[..SiteSize(h)] && VectorBytes(r.value.branches) == packed
  {
    HeadOfBuilt(version, h, body, packed, members.value.value);
    SiteReadBack(h, body);
    VectorReadBack(h, packed);
  }

  lemma BodyCut(body: seq<Byte>, site: nat, fixed: nat, end: nat)
    requires site <= fixed <= end <= |body|
    ensures body[fixed..][..end - fixed] == body[fixed..end]
    ensures body[..end] == body[..site] + (body[site..fixed] + body[fixed..end])
  {
  }

  /** A head that is allowed is the head of the group built from it. */
  lemma HeadOfBuilt(version: nat, h: Head, body: seq<Byte>, packed: seq<Byte>, members: seq<nat>)
    requires HeadOk(version, h) && |body| >= SiteSize(h) && ReadVector(h, packed).Known? && |members| == h.memberCount
    ensures HeadOf(BuildGroup(h, ReadSite(h, body), ReadVector(h, packed).branches, members)) == h
  {
    ReadSiteFits(h, body);
    ReadVectorFits(h, packed);
  }

  lemma HeadReadBack(data: seq<Byte>)
    requires |data| >= GROUP_HEAD
    ensures HeadBytes(ReadHead(data)) == data[..GROUP_HEAD]
  {
    assert HeadValues(ReadHead(data)) == Structs.Unpack(HeadWidths(), data);
    Structs.PackUnpacked(HeadWidths(), data);
  }

  lemma SiteReadBack(h: Head, body: seq<Byte>)
    requires |body| >= SiteSize(h)
    ensures SiteBytes(ReadSite(h, body)) == body[..SiteSize(h)]
  {
    if HasSite(h) {
      ToFromBytes(body[32..40]);
      assert body[..40] == body[..32] + body[32..40];
    }
  }

  lemma VectorReadBack(h: Head, packed: seq<Byte>)
    requires |packed| == VectorSize(h) && ReadVector(h, packed).Known? && (NoVector(h) ==> h.branchCount == 0)
    ensures VectorBytes(ReadVector(h, packed).branches) == packed
  {
    if !NoVector(h) { BranchCodec.PackUnpacked(packed, h.branchCount); }
  }

  // ----- iterations -----

  ghost predicate GroupsSpelled(b: seq<Byte>, groups: seq<Group>)
    decreases |groups|
  {
    if groups == [] then b == []
    else exists k: nat :: GroupEnds(b, k, groups[0]) && GroupsSpelled(b[k..], groups[1..])
  }

  ghost predicate GroupEnds(b: seq<Byte>, k: nat, g: Group) { k <= |b| && GroupSpelled(b[..k], g) }

  ghost predicate ParsesSpelled(version: nat, parse: GroupParser)
  {
    forall b, g, s, rest :: GroupOk(version, g) && Elements(g.members) !! s && GroupSpelled(b, g) ==>
      parse(b + rest, s) == Some(MakeParsed(g, |b|))
  }

  ghost predicate SpellsParsed(parse: GroupParser)
  {
    forall data, s :: parse(data, s).Some? ==>
      GroupSpelled(data[..parse(data, s).value.size], parse(data, s).value.value)
  }

  lemma {:induction false} ParsedGroupsSpelled(parse: GroupParser, data: seq<Byte>, count: nat, seen: set<nat>,
                                               r: Parsed<seq<Group>>)
    requires SpellsParsed(parse) && ParseGroups(parse, data, count, seen) == Some(r)
    ensures GroupsSpelled(data[..r.size], r.value)
    decreases count
  {
    if count > 0 {
      var g := parse(data, seen).value;
      var after := seen + Elements(g.value.members);
      var rest := ParseGroups(parse, data[g.size..], count - 1, after).value;
      ParsedGroupsSpelled(parse, data[g.size..], count - 1, after, rest);
      GroupInFrontOf(data, g, rest, r);
    }
  }

  lemma GroupInFrontOf(data: seq<Byte>, g: Parsed<Group>, rest: Parsed<seq<Group>>, r: Parsed<seq<Group>>)
    requires g.size + rest.size <= |data| && GroupSpelled(data[..g.size], g.value)
    requires GroupsSpelled(data[g.size..][..rest.size], rest.value)
    requires r.value == [g.value] + rest.value && r.size == g.size + rest.size
    ensures GroupsSpelled(data[..r.size], r.value)
  {
    CutFront(data, g.size, rest.size);
    assert r.value[1..] == rest.value;
    GroupsCons(data[..r.size], g.size, r.value, rest.value, data[g.size..][..rest.size]);
  }

  lemma GroupsCons(b: seq<Byte>, k: nat, groups: seq<Group>, tail: seq<Group>, rest: seq<Byte>)
    requires groups != [] && groups[1..] == tail && k <= |b| && b[k..] == rest
    requires GroupSpelled(b[..k], groups[0]) && GroupsSpelled(rest, tail)
    ensures GroupsSpelled(b, groups)
  {
    assert GroupEnds(b, k, groups[0]);
  }

  lemma {:induction false} SpelledGroupsParse(version: nat, parse: GroupParser, b: seq<Byte>, groups: seq<Group>,
                                              seen: set<nat>)
    requires ParsesSpelled(version, parse) && GroupsOk(version, groups, seen) && GroupsSpelled(b, groups)
    ensures ParseGroups(parse, b, |groups|, seen) == Some(MakeParsed(groups, |b|))
    decreases |groups|
  {
    if groups != [] {
      var g := groups[0];
      var k: nat :| GroupEnds(b, k, g) && GroupsSpelled(b[k..], groups[1..]);
      SpelledGroupsParse(version, parse, b[k..], groups[1..], seen + Elements(g.members));
      FirstParses(version, parse, b, k, g, seen);
      GroupsStep(parse, b, k, groups, seen);
    }
  }

  lemma GroupsStep(parse: GroupParser, b: seq<Byte>, k: nat, groups: seq<Group>, seen: set<nat>)
    requires groups != [] && k <= |b| && parse(b, seen) == Some(MakeParsed(groups[0], k))
    requires ParseGroups(parse, b[k..], |groups[1..]|, seen + Elements(groups[0].members))
             == Some(MakeParsed(groups[1..], |b[k..]|))
    ensures ParseGroups(parse, b, |groups|, seen) == Some(MakeParsed(groups, |b|))
  {
    GroupsAt(parse, b, groups[0], k, groups[1..], |b[k..]|, seen);
    assert [groups[0]] + groups[1..] == groups;
  }

  lemma FirstParses(version: nat, parse: GroupParser, b: seq<Byte>, k: nat, g: Group, seen: set<nat>)
    requires ParsesSpelled(version, parse) && GroupOk(version, g) && Elements(g.members) !! seen && GroupEnds(b, k, g)
    ensures parse(b, seen) == Some(MakeParsed(g, k))
  {
    assert b[..k] + b[k..] == b;
    assert parse(b[..k] + b[k..], seen) == Some(MakeParsed(g, |b[..k]|));
  }

  lemma ReaderIsExact(version: nat)
    ensures ParsesSpelled(version, GroupReader(version)) && SpellsParsed(GroupReader(version))
  {
    forall b, g, s, rest | GroupOk(version, g) && Elements(g.members) !! s && GroupSpelled(b, g)
      ensures ParseGroup(version, b + rest, s) == Some(MakeParsed(g, |b|))
    {
      SpelledGroupParses(version, b, g, s, rest);
    }
    forall data, s | ParseGroup(version, data, s).Some?
      ensures GroupSpelled(data[..ParseGroup(version, data, s).value.size], ParseGroup(version, data, s).value.value)
    {
      ParsedGroupSpelled(version, data, s);
    }
  }

  ghost predicate Spelled(payload: seq<Byte>, it: Iteration)
  {
    && |payload| >= 8 && payload[..4] == ToBytes(it.id, 4) && payload[4..8] == ToBytes(|it.groups|, 4)
    && GroupsSpelled(payload[8..], it.groups)
  }

  lemma ParsedIsSpelled(version: nat, payload: seq<Byte>)
    requires ParseIteration(version, payload).Some?
    ensures Spelled(payload, ParseIteration(version, payload).value)
  {
    ReaderIsExact(version);
    ToFromBytes(payload[..4]);
    ToFromBytes(payload[4..8]);
    var body := payload[8..];
    var groups := ParseGroups(GroupReader(version), body, FromBytes(payload[4..8]), {}).value;
    ParsedGroupsSpelled(GroupReader(version), body, FromBytes(payload[4..8]), {}, groups);
    assert body[..|body|] == body;
  }

  lemma SpelledParses(version: nat, payload: seq<Byte>, it: Iteration)
    requires IterationOk(version, it) && Spelled(payload, it)
    ensures ParseIteration(version, payload) == Some(it)
  {
    WordReads(it.id);
    WordReads(|it.groups|);
    DisjointGroupsAreOk(version, it.groups, {});
    ReaderIsExact(version);
    SpelledGroupsParse(version, GroupReader(version), payload[8..], it.groups, {});
  }

  /** A payload is read as an iteration iff the iteration is well formed for the
      version and the payload spells it. */
  lemma ReadsExactly(version: nat, payload: seq<Byte>, it: Iteration)
    ensures ParseIteration(version, payload) == Some(it) <==> IterationOk(version, it) && Spelled(payload, it)
  {
    if ParseIteration(version, payload) == Some(it) {
      ParsedIteration(version, payload);
      ParsedIsSpelled(version, payload);
    }
    if IterationOk(version, it) && Spelled(payload, it) { SpelledParses(version, payload, it); }
  }

  // ----- logs -----

  /** The first id of a log is one; later ids count up in the first version and
      increase in every other. */
  ghost predicate MayFollow(version: nat, previous: nat, id: nat)
  {
    if previous == 0 then id == 1 else if version == 1 then id == previous + 1 else id > previous
  }

  /** The id before the `k`-th iteration. */
  function Before(its: seq<Iteration>, previous: nat, k: nat): nat
    requires k <= |its|
  {
    if k == 0 then previous else its[k - 1].id
  }

  ghost predicate EachFollows(version: nat, its: seq<Iteration>, previous: nat)
  {
    forall k :: 0 <= k < |its| ==> MayFollow(version, Before(its, previous, k), its[k].id)
  }

  lemma EachFollowsCons(version: nat, it: Iteration, rest: seq<Iteration>, previous: nat)
    ensures EachFollows(version, [it] + rest, previous) <==>
            MayFollow(version, previous, it.id) && EachFollows(version, rest, it.id)
  {
    var its := [it] + rest;
    assert Before(its, previous, 0) == previous && its[0] == it;
    forall k | 0 <= k < |rest|
      ensures MayFollow(version, Before(its, previous, k + 1), its[k + 1].id)
              <==> MayFollow(version, Before(rest, it.id, k), rest[k].id)
    {
    }
    if EachFollows(version, its, previous) {
      forall k | 0 <= k < |rest| ensures MayFollow(version, Before(rest, it.id, k), rest[k].id) {
        assert MayFollow(version, Before(its, previous, k + 1), its[k + 1].id);
      }
    }
    if MayFollow(version, previous, it.id) && EachFollows(version, rest, it.id) {
      forall k | 0 <= k < |its| ensures MayFollow(version, Before(its, previous, k), its[k].id) {
        if k > 0 { assert MayFollow(version, Before(rest, it.id, k - 1), rest[k - 1].id); }
      }
    }
  }

  lemma {:induction false} SequenceMeans(version: nat, its: seq<Iteration>, previous: nat)
    ensures InSequence(version, its, previous) <==> EachFollows(version, its, previous)
    decreases |its|
  {
    if its != [] {
      SequenceMeans(version, its[1..], its[0].id);
      EachFollowsCons(version, its[0], its[1..], previous);
      assert [its[0]] + its[1..] == its;
    }
  }

  /** A frame with an iteration in it. */
  ghost predicate Holds(parse: IterationParser, frame: Frame, it: Iteration)
  {
    frame.kind == 4 && frame.flags == 0 && parse(frame.payload) == Some(it)
  }

  /** The iterations are those of the first frames, one each. */
  ghost predicate Heads(parse: IterationParser, frames: seq<Frame>, its: seq<Iteration>)
  {
    |its| <= |frames| && forall k :: 0 <= k < |its| ==> Holds(parse, frames[k], its[k])
  }

  /** The id of the last iteration. */
  function Last(its: seq<Iteration>, previous: nat): nat { Before(its, previous, |its|) }

  /** No iteration that may follow is next. */
  ghost predicate Stuck(version: nat, parse: IterationParser, frames: seq<Frame>, previous: nat)
  {
    frames != [] && !exists it :: Holds(parse, frames[0], it) && MayFollow(version, previous, it.id)
  }

  /** One iteration is yielded for each frame up to the first that holds none that
      may follow; that frame, or an error of the frame reader, is the only failure. */
  lemma {:induction false} YieldsUpToFault(version: nat, parse: IterationParser, frames: seq<Frame>, failed: bool,
                                           previous: nat, log: Log)
    requires log == Iterate(version, parse, frames, failed, previous)
    ensures Heads(parse, frames, log.iterations) && EachFollows(version, log.iterations, previous)
    ensures var rest := frames[|log.iterations|..];
            if rest == [] then log.failed == failed
            else log.failed && Stuck(version, parse, rest, Last(log.iterations, previous))
    decreases |frames|
  {
    if frames != [] && frames[0].kind == 4 && frames[0].flags == 0 && parse(frames[0].payload).Some?
       && MayFollow(version, previous, parse(frames[0].payload).value.id)
    {
      var it := parse(frames[0].payload).value;
      var rest := Iterate(version, parse, frames[1..], failed, it.id);
      YieldsUpToFault(version, parse, frames[1..], failed, it.id, rest);
      EachFollowsCons(version, it, rest.iterations, previous);
      HeadsCons(parse, frames, it, rest.iterations, previous);
    }
  }

  lemma HeadsCons(parse: IterationParser, frames: seq<Frame>, it: Iteration, rest: seq<Iteration>, previous: nat)
    requires frames != [] && Holds(parse, frames[0], it) && Heads(parse, frames[1..], rest)
    ensures Heads(parse, frames, [it] + rest) && Last([it] + rest, previous) == Last(rest, it.id)
    ensures frames[|[it] + rest|..] == frames[1..][|rest|..]
  {
    var its := [it] + rest;
    forall k | 0 <= k < |its|
      ensures Holds(parse, frames[k], its[k])
    {
      if k > 0 { assert Holds(parse, frames[1..][k - 1], rest[k - 1]); }
    }
  }
}
