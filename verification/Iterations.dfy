/** BINRADAR iteration frames: equivalence groups of candidates, their branch
    vector and outcome, with members as varint deltas. */
module Iterations {
  import opened Sequences
  import opened Bitmaps
  import opened Options
  import opened Varints
  import opened Frames
  import Predicates
  import Structs
  import BranchCodec

  // ----- member lists -----

  ghost predicate MembersUp(members: seq<nat>, previous: Option<nat>)
    decreases |members|
  {
    members == [] ||
    (members[0] <= MAX_U32 && (previous.Some? ==> previous.value < members[0])
     && MembersUp(members[1..], Some(members[0])))
  }

  /** The first member as it is, every later one as its distance. */
  function Delta(member: nat, previous: Option<nat>): nat
  {
    if previous.Some? && previous.value <= member then member - previous.value else member
  }

  /** The members in front of the bytes that follow them. */
  function EncodeMembers(members: seq<nat>, previous: Option<nat>, rest: seq<Byte>): seq<Byte>
    decreases |members|
  {
    if members == [] then rest
    else Encode(Delta(members[0], previous)) + EncodeMembers(members[1..], Some(members[0]), rest)
  }

  function MembersSize(members: seq<nat>, previous: Option<nat>): nat
    decreases |members|
  {
    if members == [] then 0 else |Encode(Delta(members[0], previous))| + MembersSize(members[1..], Some(members[0]))
  }

  lemma {:induction false} MembersInFront(members: seq<nat>, previous: Option<nat>, rest: seq<Byte>)
    ensures var data, n := EncodeMembers(members, previous, rest), MembersSize(members, previous);
            n <= |data| && data[n..] == rest
    decreases |members|
  {
    if members != [] {
      MembersInFront(members[1..], Some(members[0]), rest);
      DropFront(Encode(Delta(members[0], previous)), EncodeMembers(members[1..], Some(members[0]), rest),
                MembersSize(members[1..], Some(members[0])));
    }
  }

  datatype Parsed<T> = MakeParsed(value: T, size: nat)

  function Accepts(member: nat, previous: Option<nat>, seen: set<nat>): bool
  {
    member <= MAX_U32 && (previous.Some? ==> previous.value < member) && member !in seen
  }

  function ParseMembers(data: seq<Byte>, count: nat, previous: Option<nat>,
                        seen: set<nat>): (r: Option<Parsed<seq<nat>>>)
    ensures r.Some? ==> r.value.size <= |data| && |r.value.value| == count
    decreases count
  {
    if count == 0 then Some(MakeParsed([], 0))
    else
      var delta := ReadU32(data);
      if delta.None? then None
      else
        var member := if previous.None? then delta.value.value else previous.value + delta.value.value;
        if !Accepts(member, previous, seen) then None
        else
          var rest := ParseMembers(data[delta.value.size..], count - 1, Some(member), seen + {member});
          if rest.None? then None else Some(MakeParsed([member] + rest.value.value, delta.value.size + rest.value.size))
  }

  /** Parsed members increase, fit in 32 bits and were not seen before. */
  lemma {:induction false} ParsedMembers(data: seq<Byte>, count: nat, previous: Option<nat>, seen: set<nat>)
    requires ParseMembers(data, count, previous, seen).Some?
    ensures var members := ParseMembers(data, count, previous, seen).value.value;
            MembersUp(members, previous) && Elements(members) !! seen
    decreases count
  {
    if count > 0 {
      var delta := ReadU32(data).value;
      var member := if previous.None? then delta.value else previous.value + delta.value;
      ParsedMembers(data[delta.size..], count - 1, Some(member), seen + {member});
      UpCons(member, ParseMembers(data[delta.size..], count - 1, Some(member), seen + {member}).value.value, previous,
             seen);
    }
  }

  lemma UpCons(x: nat, members: seq<nat>, previous: Option<nat>, seen: set<nat>)
    requires Accepts(x, previous, seen) && MembersUp(members, Some(x)) && Elements(members) !! seen + {x}
    ensures MembersUp([x] + members, previous) && Elements([x] + members) !! seen
  {
    assert ([x] + members)[1..] == members;
    ElementsCons([x] + members);
  }

  lemma ElementsCons(s: seq<nat>)
    requires s != []
    ensures Elements(s) == {s[0]} + Elements(s[1..])
  {
    assert s == [s[0]] + s[1..];
  }

  lemma {:induction false} MembersFrom(members: seq<nat>, previous: nat)
    requires MembersUp(members, Some(previous))
    ensures forall x :: x in members ==> previous < x
    decreases |members|
  {
    if members != [] {
      MembersFrom(members[1..], members[0]);
      assert members == [members[0]] + members[1..];
    }
  }

  /** Any increasing list of 32-bit ids reads back from its deltas. */
  lemma {:induction false} MembersRoundTrip(members: seq<nat>, previous: Option<nat>, seen: set<nat>, rest: seq<Byte>)
    requires MembersUp(members, previous) && Elements(members) !! seen
    ensures ParseMembers(EncodeMembers(members, previous, rest), |members|, previous, seen)
            == Some(MakeParsed(members, MembersSize(members, previous)))
    decreases |members|
  {
    if members != [] {
      var x := members[0];
      UpHead(members, previous, seen);
      MembersRoundTrip(members[1..], Some(x), seen + {x}, rest);
      MemberStep(members, previous, seen, EncodeMembers(members[1..], Some(x), rest),
                 MembersSize(members[1..], Some(x)),
                 EncodeMembers(members, previous, rest), MembersSize(members, previous));
    }
  }

  lemma UpHead(members: seq<nat>, previous: Option<nat>, seen: set<nat>)
    requires members != [] && MembersUp(members, previous) && Elements(members) !! seen
    ensures Accepts(members[0], previous, seen) && Elements(members[1..]) !! seen + {members[0]}
  {
    ElementsCons(members);
    MembersFrom(members[1..], members[0]);
  }

  lemma MemberStep(members: seq<nat>, previous: Option<nat>, seen: set<nat>, tail: seq<Byte>, more: nat,
                   data: seq<Byte>, size: nat)
    requires members != [] && Accepts(members[0], previous, seen) && data == Encode(Delta(members[0], previous)) + tail
    requires ParseMembers(tail, |members[1..]|, Some(members[0]), seen + {members[0]})
             == Some(MakeParsed(members[1..], more))
    requires size == |Encode(Delta(members[0], previous))| + more
    ensures ParseMembers(data, |members|, previous, seen) == Some(MakeParsed(members, size))
  {
    var x := members[0];
    var delta := Delta(x, previous);
    U32RoundTrip(delta, tail);
    DropFront(Encode(delta), tail, 0);
    ParseCons(data, |members|, previous, seen, delta, |Encode(delta)|, x, members[1..], more);
    assert [x] + members[1..] == members;
  }

  lemma ParseCons(data: seq<Byte>, count: nat, previous: Option<nat>, seen: set<nat>, delta: nat, size: nat,
                  member: nat, members: seq<nat>, more: nat)
    requires count > 0 && ReadU32(data) == Some(MakeNumber(delta, size))
    requires member == (if previous.None? then delta else previous.value + delta) && Accepts(member, previous, seen)
    requires ParseMembers(data[size..], count - 1, Some(member), seen + {member}) == Some(MakeParsed(members, more))
    ensures ParseMembers(data, count, previous, seen) == Some(MakeParsed([member] + members, size + more))
  {
  }

  // ----- one group -----

  datatype Head = MakeHead(representative: nat, outcome: nat, flags: nat, source: nat, fault: nat, branchCount: nat,
                           memberCount: nat)

  const GROUP_HEAD := 24

  /** The fields of a group head: `<IBBHQII`. */
  function HeadWidths(): (w: seq<nat>)
    ensures Structs.Size(w) == GROUP_HEAD
  {
    SizeOfSeven(4, 1, 1, 2, 8, 4, 4);
    [4, 1, 1, 2, 8, 4, 4]
  }

  lemma SizeOfSeven(a: nat, b: nat, c: nat, d: nat, e: nat, f: nat, g: nat)
    ensures Structs.Size([a, b, c, d, e, f, g]) == a + b + c + d + e + f + g
  {
    assert [a, b, c, d, e, f, g][1..] == [b, c, d, e, f, g] && [b, c, d, e, f, g][1..] == [c, d, e, f, g];
    assert [c, d, e, f, g][1..] == [d, e, f, g] && [d, e, f, g][1..] == [e, f, g] && [e, f, g][1..] == [f, g];
    assert [f, g][1..] == [g] && [g][1..] == [];
    assert Structs.Size([g]) == g && Structs.Size([f, g]) == f + g && Structs.Size([e, f, g]) == e + f + g;
    assert Structs.Size([d, e, f, g]) == d + e + f + g && Structs.Size([c, d, e, f, g]) == c + d + e + f + g;
  }

  function HeadValues(h: Head): (v: seq<nat>)
    ensures |v| == 7
  {
    [h.representative, h.outcome, h.flags, h.source, h.fault, h.branchCount, h.memberCount]
  }

  function HeadBytes(h: Head): (b: seq<Byte>)
    ensures |b| == GROUP_HEAD
  {
    Structs.Pack(HeadWidths(), HeadValues(h))
  }

  function ReadHead(data: seq<Byte>): Head
    requires |data| >= GROUP_HEAD
  {
    var v := Structs.Unpack(HeadWidths(), data);
    MakeHead(v[0], v[1], v[2], v[3], v[4], v[5], v[6])
  }

  ghost predicate HeadFits(h: Head)
  {
    && h.representative <= MAX_U32 && h.outcome < 256 && h.flags < 256 && h.source < 65536
    && h.fault < Pow256(8) && h.branchCount <= MAX_U32 && h.memberCount <= MAX_U32
  }

  lemma HeadFitsWidths(h: Head)
    ensures HeadFits(h) <==> Structs.Fits(HeadWidths(), HeadValues(h))
  {
    assert Pow256(1) == 256 && Pow256(2) == 65536 && Pow256(4) == MAX_U32 + 1;
    var w, v := HeadWidths(), HeadValues(h);
    if Structs.Fits(w, v) {
      assert v[0] < Pow256(w[0]) && v[1] < Pow256(w[1]) && v[2] < Pow256(w[2]) && v[3] < Pow256(w[3]);
      assert v[4] < Pow256(w[4]) && v[5] < Pow256(w[5]) && v[6] < Pow256(w[6]);
    }
  }

  lemma HeadRoundTrip(h: Head, rest: seq<Byte>)
    requires HeadFits(h)
    ensures ReadHead(HeadBytes(h) + rest) == h && (HeadBytes(h) + rest)[GROUP_HEAD..] == rest
  {
    HeadFitsWidths(h);
    Structs.UnpackPacked(HeadWidths(), HeadValues(h), rest);
  }

  lemma HeadReadFits(data: seq<Byte>)
    requires |data| >= GROUP_HEAD
    ensures HeadFits(ReadHead(data))
  {
    Structs.UnpackFits(HeadWidths(), data);
    assert HeadValues(ReadHead(data)) == Structs.Unpack(HeadWidths(), data);
    HeadFitsWidths(ReadHead(data));
  }

  predicate HasSite(h: Head) { h.flags / 2 % 2 == 1 }

  predicate NoVector(h: Head) { h.flags % 2 == 1 }

  /** Where a format version keeps the source of a crash: version 4 reuses a
      field that is reserved before it. */
  predicate SourceOk(version: nat, outcome: nat, source: nat)
  {
    if version == 4 && outcome == 2 then 1 <= source <= 3 else source == 0
  }

  /** The flag, outcome and source combinations of a format version. */
  predicate HeadOk(version: nat, h: Head)
  {
    && h.flags <= (if version == 3 || version == 4 then 3 else 1)
    && SourceOk(version, h.outcome, h.source) && (h.outcome == 1 || h.outcome == 2) && (HasSite(h) ==> h.outcome == 2)
    && h.memberCount > 0 && (NoVector(h) ==> h.branchCount == 0)
  }

  /** Where a crash happened: an image digest and an offset into the image. */
  datatype Site = MakeSite(image: seq<Byte>, offset: nat)

  datatype Group = MakeGroup(representative: nat, crash: bool, fault: nat, source: Option<nat>, site: Option<Site>,
                             branches: Option<seq<Predicates.Branch>>, members: seq<nat>)

  /** What a format version can say about a crash. */
  ghost predicate CrashOk(version: nat, g: Group)
  {
    && (g.source.Some? <==> version == 4 && g.crash) && (g.source.Some? ==> 1 <= g.source.value <= 3)
    && (g.site.Some? ==> g.crash && (version == 3 || version == 4) && SiteFits(g.site.value))
  }

  ghost predicate SiteFits(site: Site) { |site.image| == 32 && site.offset < Pow256(8) }

  ghost predicate GroupOk(version: nat, g: Group)
  {
    && g.fault < Pow256(8) && CrashOk(version, g)
    && (g.branches.Some? ==> |g.branches.value| <= MAX_U32)
    && 0 < |g.members| <= MAX_U32 && MembersUp(g.members, None) && g.representative in g.members
  }

  function HeadOf(g: Group): Head
  {
    MakeHead(g.representative, if g.crash then 2 else 1,
             (if g.branches.None? then 1 else 0) + (if g.site.Some? then 2 else 0),
             if g.source.Some? then g.source.value else 0, g.fault,
             if g.branches.Some? then |g.branches.value| else 0, |g.members|)
  }

  function SiteBytes(site: Option<Site>): seq<Byte>
  {
    if site.None? then [] else site.value.image + ToBytes(site.value.offset, 8)
  }

  function VectorBytes(branches: Option<seq<Predicates.Branch>>): seq<Byte>
  {
    if branches.None? then [] else BranchCodec.PackBytes(branches.value)
  }

  /** Fault site, branch vector and members, in that order. */
  function BodyBytes(g: Group, rest: seq<Byte>): seq<Byte>
  {
    SiteBytes(g.site) + (VectorBytes(g.branches) + EncodeMembers(g.members, None, rest))
  }

  function EncodeGroup(g: Group, rest: seq<Byte>): seq<Byte>
  {
    HeadBytes(HeadOf(g)) + BodyBytes(g, rest)
  }

  function BodySize(g: Group): nat { |SiteBytes(g.site)| + |VectorBytes(g.branches)| + MembersSize(g.members, None) }

  function GroupSize(g: Group): nat { GROUP_HEAD + BodySize(g) }

  lemma GroupInFront(g: Group, rest: seq<Byte>)
    ensures GroupSize(g) <= |EncodeGroup(g, rest)| && EncodeGroup(g, rest)[GroupSize(g)..] == rest
  {
    BodyInFront(g, rest);
    DropFront(HeadBytes(HeadOf(g)), BodyBytes(g, rest), BodySize(g));
  }

  lemma BodyInFront(g: Group, rest: seq<Byte>)
    ensures BodySize(g) <= |BodyBytes(g, rest)| && BodyBytes(g, rest)[BodySize(g)..] == rest
  {
    var members, n := EncodeMembers(g.members, None, rest), MembersSize(g.members, None);
    MembersInFront(g.members, None, rest);
    DropFront(VectorBytes(g.branches), members, n);
    DropFront(SiteBytes(g.site), VectorBytes(g.branches) + members, |VectorBytes(g.branches)| + n);
  }

  function SiteSize(h: Head): nat { if HasSite(h) then 40 else 0 }

  function VectorSize(h: Head): nat { (h.branchCount + 3) / 4 }

  function ReadSite(h: Head, body: seq<Byte>): Option<Site>
    requires |body| >= SiteSize(h)
  {
    if HasSite(h) then Some(MakeSite(body[..32], FromBytes(body[32..40]))) else None
  }

  datatype Vector = Refused | Known(branches: Option<seq<Predicates.Branch>>)

  function ReadVector(h: Head, packed: seq<Byte>): Vector
  {
    if NoVector(h) then Known(None)
    else
      var bs := BranchCodec.UnpackBytes(packed, h.branchCount);
      if bs.None? then Refused else Known(Some(bs.value))
  }

  function BuildGroup(h: Head, site: Option<Site>, branches: Option<seq<Predicates.Branch>>, members: seq<nat>): Group
  {
    MakeGroup(h.representative, h.outcome == 2, h.fault, if h.source != 0 then Some(h.source) else None, site, branches,
              members)
  }

  /** The parts of a group after its head, once its members are read. */
  function FinishBody(h: Head, body: seq<Byte>, members: Option<Parsed<seq<nat>>>): (r: Option<Parsed<Group>>)
    requires |body| >= SiteSize(h) + VectorSize(h)
    requires members.Some? ==> SiteSize(h) + VectorSize(h) + members.value.size <= |body|
    ensures r.Some? ==> r.value.size <= |body|
  {
    var site, vector := SiteSize(h), VectorSize(h);
    var branches := ReadVector(h, body[site..site + vector]);
    if branches.Refused? || members.None? || h.representative !in members.value.value then None
    else Some(MakeParsed(BuildGroup(h, ReadSite(h, body), branches.branches, members.value.value),
                         site + vector + members.value.size))
  }

  function ParseBody(h: Head, body: seq<Byte>, seen: set<nat>): (r: Option<Parsed<Group>>)
    ensures r.Some? ==> r.value.size <= |body|
  {
    if |body| < SiteSize(h) + VectorSize(h) then None
    else FinishBody(h, body, ParseMembers(body[SiteSize(h) + VectorSize(h)..], h.memberCount, None, seen))
  }

  function ParseGroup(version: nat, data: seq<Byte>, seen: set<nat>): (r: Option<Parsed<Group>>)
    ensures r.Some? ==> r.value.size <= |data|
  {
    if |data| < GROUP_HEAD || !HeadOk(version, ReadHead(data)) then None
    else
      var g := ParseBody(ReadHead(data), data[GROUP_HEAD..], seen);
      if g.None? then None else Some(MakeParsed(g.value.value, GROUP_HEAD + g.value.size))
  }

  /** A parsed group is well formed and shares no member with earlier ones. */
  lemma ParsedGroup(version: nat, data: seq<Byte>, seen: set<nat>)
    requires ParseGroup(version, data, seen).Some?
    ensures GroupOk(version, ParseGroup(version, data, seen).value.value)
            && Elements(ParseGroup(version, data, seen).value.value.members) !! seen
  {
    var h, body := ReadHead(data), data[GROUP_HEAD..];
    HeadReadFits(data);
    ParsedBody(version, h, body, seen);
  }

  lemma ParsedBody(version: nat, h: Head, body: seq<Byte>, seen: set<nat>)
    requires HeadFits(h) && HeadOk(version, h) && ParseBody(h, body, seen).Some?
    ensures var g := ParseBody(h, body, seen).value.value; GroupOk(version, g) && Elements(g.members) !! seen
  {
    var size := SiteSize(h) + VectorSize(h);
    ParsedMembers(body[size..], h.memberCount, None, seen);
    FinishedBody(version, h, body, ParseMembers(body[size..], h.memberCount, None, seen));
  }

  lemma FinishedBody(version: nat, h: Head, body: seq<Byte>, members: Option<Parsed<seq<nat>>>)
    requires HeadFits(h) && HeadOk(version, h) && |body| >= SiteSize(h) + VectorSize(h)
    requires members.Some? && SiteSize(h) + VectorSize(h) + members.value.size <= |body|
    requires |members.value.value| == h.memberCount && MembersUp(members.value.value, None)
    requires FinishBody(h, body, members).Some?
    ensures var g := FinishBody(h, body, members).value.value; GroupOk(version, g) && g.members == members.value.value
  {
    var site, vector := SiteSize(h), VectorSize(h);
    ReadSiteFits(h, body);
    ReadVectorFits(h, body[site..site + vector]);
    BuiltOk(version, h, ReadSite(h, body), ReadVector(h, body[site..site + vector]).branches, members.value.value);
  }

  lemma ReadSiteFits(h: Head, body: seq<Byte>)
    requires |body| >= SiteSize(h)
    ensures var site := ReadSite(h, body);
            (site.Some? <==> HasSite(h)) && (site.Some? ==> SiteFits(site.value))
  {
    if HasSite(h) { ToFromBytes(body[32..40]); }
  }

  lemma ReadVectorFits(h: Head, packed: seq<Byte>)
    requires ReadVector(h, packed).Known?
    ensures var bs := ReadVector(h, packed).branches; bs.Some? ==> |bs.value| == h.branchCount
  {
    if !NoVector(h) { BranchCodec.PackUnpacked(packed, h.branchCount); }
  }

  lemma BuiltOk(version: nat, h: Head, site: Option<Site>, branches: Option<seq<Predicates.Branch>>, members: seq<nat>)
    requires HeadFits(h) && HeadOk(version, h) && (site.Some? <==> HasSite(h))
    requires site.Some? ==> SiteFits(site.value)
    requires branches.Some? ==> |branches.value| == h.branchCount
    requires |members| == h.memberCount && MembersUp(members, None) && h.representative in members
    ensures GroupOk(version, BuildGroup(h, site, branches, members))
  {
  }

  // ----- a group reads back -----

  /** What the head of a group says about the parts behind it. */
  ghost predicate Describes(h: Head, g: Group)
  {
    && (HasSite(h) <==> g.site.Some?) && (g.site.Some? ==> SiteFits(g.site.value))
    && (NoVector(h) <==> g.branches.None?) && h.branchCount == (if g.branches.Some? then |g.branches.value| else 0)
    && h.memberCount == |g.members| && h.representative in g.members
    && BuildGroup(h, g.site, g.branches, g.members) == g
  }

  lemma HeadDescribes(version: nat, g: Group)
    requires GroupOk(version, g)
    ensures Describes(HeadOf(g), g)
  {
  }

  lemma SiteRoundTrip(h: Head, g: Group, rest: seq<Byte>)
    requires Describes(h, g)
    ensures |SiteBytes(g.site)| == SiteSize(h) && ReadSite(h, SiteBytes(g.site) + rest) == g.site
  {
    if g.site.Some? {
      var body := SiteBytes(g.site) + rest;
      assert body[..32] == g.site.value.image && body[32..40] == ToBytes(g.site.value.offset, 8);
      FromToBytes(g.site.value.offset, 8);
    }
  }

  lemma VectorRoundTrip(h: Head, g: Group)
    requires Describes(h, g)
    ensures |VectorBytes(g.branches)| == VectorSize(h) && ReadVector(h, VectorBytes(g.branches)) == Known(g.branches)
  {
    if g.branches.Some? { BranchCodec.UnpackPacked(g.branches.value); }
  }

  lemma BodySlices(a: seq<Byte>, b: seq<Byte>, c: seq<Byte>)
    ensures (a + (b + c))[|a|..|a| + |b|] == b && (a + (b + c))[|a| + |b|..] == c
  {
  }

  lemma BodyRoundTrip(version: nat, g: Group, seen: set<nat>, rest: seq<Byte>)
    requires GroupOk(version, g) && Elements(g.members) !! seen
    ensures ParseBody(HeadOf(g), BodyBytes(g, rest), seen) == Some(MakeParsed(g, BodySize(g)))
  {
    HeadDescribes(version, g);
    MembersRoundTrip(g.members, None, seen, rest);
    BodyAround(HeadOf(g), g, seen, EncodeMembers(g.members, None, rest), MembersSize(g.members, None));
  }

  lemma BodyAround(h: Head, g: Group, seen: set<nat>, tail: seq<Byte>, size: nat)
    requires Describes(h, g) && ParseMembers(tail, h.memberCount, None, seen) == Some(MakeParsed(g.members, size))
    ensures ParseBody(h, SiteBytes(g.site) + (VectorBytes(g.branches) + tail), seen)
            == Some(MakeParsed(g, |SiteBytes(g.site)| + |VectorBytes(g.branches)| + size))
  {
    SiteRoundTrip(h, g, VectorBytes(g.branches) + tail);
    VectorRoundTrip(h, g);
    BodyParts(h, SiteBytes(g.site), VectorBytes(g.branches), tail, seen, g.site, g.branches, g.members, size);
  }

  lemma BodyParts(h: Head, a: seq<Byte>, b: seq<Byte>, c: seq<Byte>, seen: set<nat>,
                  site: Option<Site>, branches: Option<seq<Predicates.Branch>>, members: seq<nat>, size: nat)
    requires |a| == SiteSize(h) && |b| == VectorSize(h)
    requires ReadSite(h, a + (b + c)) == site && ReadVector(h, b) == Known(branches)
    requires ParseMembers(c, h.memberCount, None, seen) == Some(MakeParsed(members, size))
             && h.representative in members
    ensures ParseBody(h, a + (b + c), seen) == Some(MakeParsed(BuildGroup(h, site, branches, members),
                                                               |a| + |b| + size))
  {
    BodySlices(a, b, c);
    BodyFinished(h, a + (b + c), seen, site, branches, members, size);
  }

  lemma BodyFinished(h: Head, body: seq<Byte>, seen: set<nat>,
                     site: Option<Site>, branches: Option<seq<Predicates.Branch>>, members: seq<nat>, size: nat)
    requires |body| >= SiteSize(h) + VectorSize(h) && ReadSite(h, body) == site
    requires ReadVector(h, body[SiteSize(h)..SiteSize(h) + VectorSize(h)]) == Known(branches)
    requires ParseMembers(body[SiteSize(h) + VectorSize(h)..], h.memberCount, None, seen)
             == Some(MakeParsed(members, size))
    requires h.representative in members
    ensures ParseBody(h, body, seen)
            == Some(MakeParsed(BuildGroup(h, site, branches, members), SiteSize(h) + VectorSize(h) + size))
  {
  }

  lemma HeadOfOk(version: nat, g: Group)
    requires GroupOk(version, g) && g.representative <= MAX_U32
    ensures HeadOk(version, HeadOf(g)) && HeadFits(HeadOf(g))
  {
  }

  lemma {:induction false} MemberFits(members: seq<nat>, previous: Option<nat>, x: nat)
    requires MembersUp(members, previous) && x in members
    ensures x <= MAX_U32
    decreases |members|
  {
    if x != members[0] {
      assert members == [members[0]] + members[1..];
      MemberFits(members[1..], Some(members[0]), x);
    }
  }

  lemma GroupRoundTrip(version: nat, g: Group, seen: set<nat>, rest: seq<Byte>)
    requires GroupOk(version, g) && Elements(g.members) !! seen
    ensures ParseGroup(version, EncodeGroup(g, rest), seen) == Some(MakeParsed(g, GroupSize(g)))
  {
    BodyRoundTrip(version, g, seen, rest);
    MemberFits(g.members, None, g.representative);
    HeadOfOk(version, g);
    GroupParts(version, HeadOf(g), BodyBytes(g, rest), seen, g, EncodeGroup(g, rest), GroupSize(g));
  }

  lemma GroupParts(version: nat, h: Head, body: seq<Byte>, seen: set<nat>, g: Group, data: seq<Byte>, size: nat)
    requires HeadFits(h) && HeadOk(version, h) && size >= GROUP_HEAD && data == HeadBytes(h) + body
    requires ParseBody(h, body, seen) == Some(MakeParsed(g, size - GROUP_HEAD))
    ensures ParseGroup(version, data, seen) == Some(MakeParsed(g, size))
  {
    HeadRoundTrip(h, body);
  }

  // ----- all groups of an iteration -----

  ghost predicate GroupsOk(version: nat, groups: seq<Group>, seen: set<nat>)
    decreases |groups|
  {
    groups == [] ||
    (GroupOk(version, groups[0]) && Elements(groups[0].members) !! seen
     && GroupsOk(version, groups[1..], seen + Elements(groups[0].members)))
  }

  /** A parser of one group, given the members seen before it. */
  type GroupParser = p: (seq<Byte>, set<nat>) -> Option<Parsed<Group>>
    | forall data, seen :: p(data, seen).Some? ==> p(data, seen).value.size <= |data|
    witness (data, seen) => None

  function GroupReader(version: nat): GroupParser { (data, seen) => ParseGroup(version, data, seen) }

  type GroupEncoder = (Group, seq<Byte>) -> seq<Byte>

  /** The groups in front of the bytes that follow them. */
  function EncodeGroups(encode: GroupEncoder, groups: seq<Group>, rest: seq<Byte>): seq<Byte>
    decreases |groups|
  {
    if groups == [] then rest else encode(groups[0], EncodeGroups(encode, groups[1..], rest))
  }

  function ParseGroups(parse: GroupParser, data: seq<Byte>, count: nat, seen: set<nat>): (r: Option<Parsed<seq<Group>>>)
    ensures r.Some? ==> r.value.size <= |data| && |r.value.value| == count
    decreases count
  {
    if count == 0 then Some(MakeParsed([], 0))
    else
      var g := parse(data, seen);
      if g.None? then None
      else
        var rest := ParseGroups(parse, data[g.value.size..], count - 1, seen + Elements(g.value.value.members));
        if rest.None? then None else Some(MakeParsed([g.value.value] + rest.value.value,
                                                     g.value.size + rest.value.size))
  }

  ghost predicate Separates(version: nat, parse: GroupParser)
  {
    forall d, s :: parse(d, s).Some? ==>
      GroupOk(version, parse(d, s).value.value) && Elements(parse(d, s).value.value.members) !! s
  }

  lemma {:induction false} ParsedGroups(version: nat, parse: GroupParser, data: seq<Byte>, count: nat, seen: set<nat>)
    requires Separates(version, parse)
    requires ParseGroups(parse, data, count, seen).Some?
    ensures GroupsOk(version, ParseGroups(parse, data, count, seen).value.value, seen)
    decreases count
  {
    if count > 0 {
      var groups := ParseGroups(parse, data, count, seen).value.value;
      var g := parse(data, seen).value;
      ParsedGroups(version, parse, data[g.size..], count - 1, seen + Elements(g.value.members));
      assert groups[1..] == ParseGroups(parse, data[g.size..], count - 1, seen + Elements(g.value.members)).value.value;
    }
  }

  lemma {:induction false} GroupsAreOk(version: nat, groups: seq<Group>, seen: set<nat>)
    requires GroupsOk(version, groups, seen)
    ensures forall k :: 0 <= k < |groups| ==> GroupOk(version, groups[k])
    ensures forall k :: 0 <= k < |groups| ==> Elements(groups[k].members) !! seen
    ensures forall j, k :: 0 <= j < k < |groups| ==> Elements(groups[j].members) !! Elements(groups[k].members)
    decreases |groups|
  {
    if groups != [] {
      GroupsAreOk(version, groups[1..], seen + Elements(groups[0].members));
      assert forall k :: 0 < k < |groups| ==> groups[k] == groups[1..][k - 1];
    }
  }

  /** The invariant is exactly: good groups, pairwise disjoint. */
  lemma {:induction false} DisjointGroupsAreOk(version: nat, groups: seq<Group>, seen: set<nat>)
    requires forall k :: 0 <= k < |groups| ==> GroupOk(version, groups[k]) && Elements(groups[k].members) !! seen
    requires forall j, k :: 0 <= j < k < |groups| ==> Elements(groups[j].members) !! Elements(groups[k].members)
    ensures GroupsOk(version, groups, seen)
    decreases |groups|
  {
    if groups != [] { DisjointGroupsAreOk(version, groups[1..], seen + Elements(groups[0].members)); }
  }

  function GroupsSize(size: Group -> nat, groups: seq<Group>): nat
    decreases |groups|
  {
    if groups == [] then 0 else size(groups[0]) + GroupsSize(size, groups[1..])
  }

  /** Encoding puts so many bytes in front, and parsing undoes it. */
  ghost predicate Inverts(version: nat, parse: GroupParser, encode: GroupEncoder, size: Group -> nat)
  {
    && (forall g, r :: size(g) <= |encode(g, r)| && encode(g, r)[size(g)..] == r)
    && (forall g, s, r :: GroupOk(version, g) && Elements(g.members) !! s ==>
        parse(encode(g, r), s) == Some(MakeParsed(g, size(g))))
  }

  /** Parsing undoes encoding on a list if it does so on each group. */
  lemma {:induction false} GroupsRoundTrip(version: nat, parse: GroupParser, encode: GroupEncoder, size: Group -> nat,
                                           groups: seq<Group>, seen: set<nat>, rest: seq<Byte>)
    requires Inverts(version, parse, encode, size) && GroupsOk(version, groups, seen)
    ensures var data := EncodeGroups(encode, groups, rest);
            && |data| == GroupsSize(size, groups) + |rest|
            && ParseGroups(parse, data, |groups|, seen) == Some(MakeParsed(groups, GroupsSize(size, groups)))
    decreases |groups|
  {
    if groups != [] {
      var g, tail := groups[0], EncodeGroups(encode, groups[1..], rest);
      GroupsRoundTrip(version, parse, encode, size, groups[1..], seen + Elements(g.members), rest);
      assert parse(encode(g, tail), seen) == Some(MakeParsed(g, size(g)));
      GroupsAt(parse, encode(g, tail), g, size(g), groups[1..], GroupsSize(size, groups[1..]), seen);
      assert [g] + groups[1..] == groups;
    }
  }

  lemma GroupsAt(parse: GroupParser, data: seq<Byte>, g: Group, size: nat, groups: seq<Group>, more: nat,
                 seen: set<nat>)
    requires parse(data, seen) == Some(MakeParsed(g, size))
    requires ParseGroups(parse, data[size..], |groups|, seen + Elements(g.members)) == Some(MakeParsed(groups, more))
    ensures ParseGroups(parse, data, |groups| + 1, seen) == Some(MakeParsed([g] + groups, size + more))
  {
  }

  // ----- iterations -----

  datatype Iteration = MakeIteration(id: nat, groups: seq<Group>)

  /** Groups are well formed, pairwise disjoint and not none; the id is positive. */
  ghost predicate IterationOk(version: nat, it: Iteration)
  {
    && 0 < it.id <= MAX_U32 && 0 < |it.groups| <= MAX_U32
    && (forall k :: 0 <= k < |it.groups| ==> GroupOk(version, it.groups[k]))
    && (forall j, k :: 0 <= j < k < |it.groups| ==> Elements(it.groups[j].members) !! Elements(it.groups[k].members))
  }

  function EncodeIteration(it: Iteration): seq<Byte>
  {
    ToBytes(it.id, 4) + ToBytes(|it.groups|, 4) + EncodeGroups(EncodeGroup, it.groups, [])
  }

  function ParseIteration(version: nat, payload: seq<Byte>): Option<Iteration>
  {
    if |payload| < 8 then None
    else
      var id, count := FromBytes(payload[..4]), FromBytes(payload[4..8]);
      if id == 0 then None
      else
        var groups := ParseGroups(GroupReader(version), payload[8..], count, {});
        if groups.None? || groups.value.size != |payload| - 8 || groups.value.value == [] then None
        else Some(MakeIteration(id, groups.value.value))
  }

  lemma ParserIsSound(version: nat)
    ensures Separates(version, GroupReader(version))
  {
    forall d, s | ParseGroup(version, d, s).Some?
      ensures GroupOk(version, ParseGroup(version, d, s).value.value)
              && Elements(ParseGroup(version, d, s).value.value.members) !! s
    {
      ParsedGroup(version, d, s);
    }
  }

  lemma ParsedList(version: nat, parse: GroupParser, data: seq<Byte>, count: nat)
    requires Separates(version, parse) && ParseGroups(parse, data, count, {}).Some?
    ensures var groups := ParseGroups(parse, data, count, {}).value.value;
            && (forall k :: 0 <= k < |groups| ==> GroupOk(version, groups[k]))
            && (forall j, k :: 0 <= j < k < |groups| ==> Elements(groups[j].members) !! Elements(groups[k].members))
  {
    ParsedGroups(version, parse, data, count, {});
    GroupsAreOk(version, ParseGroups(parse, data, count, {}).value.value, {});
  }

  lemma WordFits(word: seq<Byte>)
    requires |word| == 4
    ensures FromBytes(word) <= MAX_U32
  {
    assert Pow256(4) == MAX_U32 + 1;
    ToFromBytes(word);
  }

  lemma WordReads(n: nat)
    requires n <= MAX_U32
    ensures FromBytes(ToBytes(n, 4)) == n
  {
    assert Pow256(4) == MAX_U32 + 1;
    FromToBytes(n, 4);
  }

  /** Every iteration the parser accepts is well formed. */
  lemma ParsedIteration(version: nat, payload: seq<Byte>)
    requires ParseIteration(version, payload).Some?
    ensures IterationOk(version, ParseIteration(version, payload).value)
  {
    WordFits(payload[..4]);
    WordFits(payload[4..8]);
    ParserIsSound(version);
    ParsedList(version, GroupReader(version), payload[8..], FromBytes(payload[4..8]));
  }

  /** The two words in front of the groups. */
  lemma IterationParts(id: nat, count: nat, body: seq<Byte>)
    requires id <= MAX_U32 && count <= MAX_U32
    ensures var payload := ToBytes(id, 4) + ToBytes(count, 4) + body;
            |payload| >= 8 && FromBytes(payload[..4]) == id && FromBytes(payload[4..8]) == count && payload[8..] == body
  {
    var a, b := ToBytes(id, 4), ToBytes(count, 4);
    assert (a + b + body)[..4] == a && (a + b + body)[4..8] == b;
    WordReads(id);
    WordReads(count);
  }

  lemma ReaderRoundTrip(version: nat)
    ensures Inverts(version, GroupReader(version), EncodeGroup, GroupSize)
  {
    forall g, r
      ensures GroupSize(g) <= |EncodeGroup(g, r)| && EncodeGroup(g, r)[GroupSize(g)..] == r
    {
      GroupInFront(g, r);
    }
    forall g, s, r | GroupOk(version, g) && Elements(g.members) !! s
      ensures ParseGroup(version, EncodeGroup(g, r), s) == Some(MakeParsed(g, GroupSize(g)))
    {
      GroupRoundTrip(version, g, s, r);
    }
  }

  /** Every well-formed iteration reads back from its encoding. */
  lemma IterationRoundTrip(version: nat, it: Iteration)
    requires IterationOk(version, it)
    ensures ParseIteration(version, EncodeIteration(it)) == Some(it)
  {
    var body := EncodeGroups(EncodeGroup, it.groups, []);
    IterationParts(it.id, |it.groups|, body);
    DisjointGroupsAreOk(version, it.groups, {});
    ReaderRoundTrip(version);
    GroupsRoundTrip(version, GroupReader(version), EncodeGroup, GroupSize, it.groups, {}, []);
  }
}
