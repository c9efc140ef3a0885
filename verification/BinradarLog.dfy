/** Reading a BINRADAR evidence log: the parsing loops over a payload offset,
    and the sequence of iterations a log yields. */
module BinradarLog {
  import opened Sequences
  import opened Bitmaps
  import opened Options
  import opened Varints
  import opened Frames
  import opened Iterations

  // ----- the parsing loops -----

  function After<T>(done: seq<T>, size: nat, rest: Option<Parsed<seq<T>>>): Option<Parsed<seq<T>>>
  {
    if rest.None? then None else Some(MakeParsed(done + rest.value.value, size + rest.value.size))
  }

  lemma AfterNext<T>(done: seq<T>, size: nat, x: T, more: nat, rest: Option<Parsed<seq<T>>>)
    ensures After(done, size, After([x], more, rest)) == After(done + [x], size + more, rest)
  {
    if rest.Some? { assert done + ([x] + rest.value.value) == done + [x] + rest.value.value; }
  }

  lemma AfterNothing<T>(rest: Option<Parsed<seq<T>>>)
    ensures After([], 0, rest) == rest
  {
    if rest.Some? { assert [] + rest.value.value == rest.value.value; }
  }

  /** The members read so far, and what is left, make up the whole. */
  ghost predicate MembersRead(whole: Option<Parsed<seq<nat>>>, payload: seq<Byte>, start: nat, members: seq<nat>,
                              offset: nat, left: nat, previous: Option<nat>, seen: set<nat>)
  {
    start <= offset <= |payload|
    && whole == After(members, offset - start, ParseMembers(payload[offset..], left, previous, seen))
  }

  lemma MembersNext(data: seq<Byte>, count: nat, previous: Option<nat>, seen: set<nat>, delta: Number, member: nat,
                    tail: seq<Byte>)
    requires count > 0 && ReadU32(data) == Some(delta) && tail == data[delta.size..]
    requires member == if previous.None? then delta.value else previous.value + delta.value
    ensures ParseMembers(data, count, previous, seen)
            == if Accepts(member, previous, seen)
               then After([member], delta.size, ParseMembers(tail, count - 1, Some(member), seen + {member}))
               else None
  {
  }

  lemma MembersStep(whole: Option<Parsed<seq<nat>>>, payload: seq<Byte>, start: nat, members: seq<nat>, offset: nat,
                    left: nat, previous: Option<nat>, seen: set<nat>, delta: Number, member: nat)
    requires MembersRead(whole, payload, start, members, offset, left, previous, seen)
    requires left > 0 && ReadU32(payload[offset..]) == Some(delta)
    requires member == if previous.None? then delta.value else previous.value + delta.value
    ensures !Accepts(member, previous, seen) ==> whole.None?
    ensures Accepts(member, previous, seen) ==>
              MembersRead(whole, payload, start, members + [member], offset + delta.size, left - 1, Some(member),
                          seen + {member})
  {
    Advance(payload, offset, delta.size);
    MembersNext(payload[offset..], left, previous, seen, delta, member, payload[offset + delta.size..]);
    AfterNext(members, offset - start, member, delta.size,
              ParseMembers(payload[offset + delta.size..], left - 1, Some(member), seen + {member}));
  }

  lemma MembersEnd(whole: Option<Parsed<seq<nat>>>, payload: seq<Byte>, start: nat, members: seq<nat>, offset: nat,
                   previous: Option<nat>, seen: set<nat>)
    requires MembersRead(whole, payload, start, members, offset, 0, previous, seen)
    ensures whole == Some(MakeParsed(members, offset - start))
  {
    assert members + [] == members;
  }

  method NextMember(ghost whole: Option<Parsed<seq<nat>>>, payload: seq<Byte>, ghost start: nat,
                    ghost members: seq<nat>, offset: nat, ghost left: nat, previous: Option<nat>, seen: set<nat>)
    returns (r: Option<Number>)
    requires left > 0 && MembersRead(whole, payload, start, members, offset, left, previous, seen)
    ensures r.None? ==> whole.None?
    ensures r.Some? ==> MembersRead(whole, payload, start, members + [r.value.value], offset + r.value.size, left - 1,
                                    Some(r.value.value), seen + {r.value.value})
  {
    var delta := Decode(payload, offset);
    if delta.None? { return None; }
    var member := if previous.None? then delta.value.value else previous.value + delta.value.value;
    MembersStep(whole, payload, start, members, offset, left, previous, seen, delta.value, member);
    if !Accepts(member, previous, seen) { return None; }
    return Some(MakeNumber(member, delta.value.size));
  }

  /** The member loop: deltas accumulate, repeats are refused. */
  method ReadMembers(payload: seq<Byte>, start: nat, count: nat, before: set<nat>) returns (r: Option<Parsed<seq<nat>>>)
    requires start <= |payload|
    ensures r == ParseMembers(payload[start..], count, None, before)
  {
    var members: seq<nat>, offset: nat, seen: set<nat>, previous: Option<nat> := [], start, before, None;
    ghost var whole := ParseMembers(payload[start..], count, None, before);
    AfterNothing(whole);
    for k := 0 to count
      invariant MembersRead(whole, payload, start, members, offset, count - k, previous, seen)
    {
      var next := NextMember(whole, payload, start, members, offset, count - k, previous, seen);
      if next.None? { return None; }
      var member := next.value.value;
      seen, members, previous := seen + {member}, members + [member], Some(member);
      offset := offset + next.value.size;
    }
    MembersEnd(whole, payload, start, members, offset, previous, seen);
    return Some(MakeParsed(members, offset - start));
  }

  /** One group, its members read by the loop. */
  method ReadGroup(version: nat, payload: seq<Byte>, start: nat, seen: set<nat>) returns (r: Option<Parsed<Group>>)
    requires start <= |payload|
    ensures r == ParseGroup(version, payload[start..], seen)
  {
    var data := payload[start..];
    if |data| < GROUP_HEAD { return None; }
    var h := ReadHead(data);
    if !HeadOk(version, h) { return None; }
    var body := ReadBody(payload, start + GROUP_HEAD, h, seen);
    Advance(payload, start, GROUP_HEAD);
    if body.None? { return None; }
    return Some(MakeParsed(body.value.value, GROUP_HEAD + body.value.size));
  }

  method ReadBody(payload: seq<Byte>, start: nat, h: Head, seen: set<nat>) returns (r: Option<Parsed<Group>>)
    requires start <= |payload|
    ensures r == ParseBody(h, payload[start..], seen)
  {
    var body, size := payload[start..], SiteSize(h) + VectorSize(h);
    if |body| < size { return None; }
    Advance(payload, start, size);
    var members := ReadMembers(payload, start + size, h.memberCount, seen);
    return FinishBody(h, body, members);
  }

  lemma GroupsNext(parse: GroupParser, data: seq<Byte>, count: nat, seen: set<nat>)
    requires count > 0
    ensures var g := parse(data, seen);
            ParseGroups(parse, data, count, seen)
            == if g.None? then None
               else After([g.value.value], g.value.size,
                          ParseGroups(parse, data[g.value.size..], count - 1, seen + Elements(g.value.value.members)))
  {
  }

  ghost predicate GroupsRead(parse: GroupParser, payload: seq<Byte>, start: nat, count: nat, groups: seq<Group>,
                             offset: nat, left: nat, seen: set<nat>)
  {
    start <= offset <= |payload|
    && ParseGroups(parse, payload[start..], count, {})
       == After(groups, offset - start, ParseGroups(parse, payload[offset..], left, seen))
  }

  lemma GroupsStart(parse: GroupParser, payload: seq<Byte>, start: nat, count: nat)
    requires start <= |payload|
    ensures GroupsRead(parse, payload, start, count, [], start, count, {})
  {
    AfterNothing(ParseGroups(parse, payload[start..], count, {}));
  }

  lemma GroupsEnd(parse: GroupParser, payload: seq<Byte>, start: nat, count: nat, groups: seq<Group>, offset: nat,
                  seen: set<nat>)
    requires GroupsRead(parse, payload, start, count, groups, offset, 0, seen)
    ensures ParseGroups(parse, payload[start..], count, {}) == Some(MakeParsed(groups, offset - start))
  {
    assert groups + [] == groups;
  }

  lemma GroupsStep(parse: GroupParser, payload: seq<Byte>, start: nat, count: nat, groups: seq<Group>, offset: nat,
                   left: nat, seen: set<nat>, g: Option<Parsed<Group>>)
    requires GroupsRead(parse, payload, start, count, groups, offset, left, seen)
    requires left > 0 && parse(payload[offset..], seen) == g
    ensures g.None? ==> ParseGroups(parse, payload[start..], count, {}).None?
    ensures g.Some? ==>
            GroupsRead(parse, payload, start, count, groups + [g.value.value], offset + g.value.size, left - 1,
                                   seen + Elements(g.value.value.members))
  {
    GroupsNext(parse, payload[offset..], left, seen);
    if g.Some? {
      Advance(payload, offset, g.value.size);
      AfterNext(groups, offset - start, g.value.value, g.value.size,
                ParseGroups(parse, payload[offset + g.value.size..], left - 1, seen + Elements(g.value.value.members)));
    }
  }

  ghost predicate ReadsGroups(version: nat, parse: GroupParser)
  {
    forall data, seen {:trigger ParseGroup(version, data, seen)} :: parse(data, seen) == ParseGroup(version, data, seen)
  }

  method NextGroup(version: nat, payload: seq<Byte>, ghost start: nat, ghost count: nat, ghost groups: seq<Group>,
                   offset: nat, ghost left: nat, seen: set<nat>, ghost parse: GroupParser)
    returns (r: Option<Parsed<Group>>)
    requires ReadsGroups(version, parse) && GroupsRead(parse, payload, start, count, groups, offset, left + 1, seen)
    ensures r.None? ==> ParseGroups(parse, payload[start..], count, {}).None?
    ensures r.Some? ==> GroupsRead(parse, payload, start, count, groups + [r.value.value], offset + r.value.size, left,
                                   seen + Elements(r.value.value.members))
  {
    r := ReadGroup(version, payload, offset, seen);
    GroupsStep(parse, payload, start, count, groups, offset, left + 1, seen, r);
  }

  method ReadGroups(version: nat, payload: seq<Byte>, start: nat, count: nat, ghost parse: GroupParser)
    returns (r: Option<Parsed<seq<Group>>>)
    requires start <= |payload| && ReadsGroups(version, parse)
    ensures r == ParseGroups(parse, payload[start..], count, {})
  {
    var groups: seq<Group>, offset: nat, seen: set<nat> := [], start, {};
    GroupsStart(parse, payload, start, count);
    for k := 0 to count
      invariant GroupsRead(parse, payload, start, count, groups, offset, count - k, seen)
    {
      var g := NextGroup(version, payload, start, count, groups, offset, count - k - 1, seen, parse);
      if g.None? { return None; }
      groups, offset, seen := groups + [g.value.value], offset + g.value.size, seen + Elements(g.value.value.members);
    }
    GroupsEnd(parse, payload, start, count, groups, offset, seen);
    return Some(MakeParsed(groups, offset - start));
  }

  method ReadIteration(version: nat, payload: seq<Byte>) returns (r: Option<Iteration>)
    ensures r == ParseIteration(version, payload)
    ensures r.Some? ==> IterationOk(version, r.value)
  {
    if |payload| < 8 { return None; }
    var id, count := FromBytes(payload[..4]), FromBytes(payload[4..8]);
    if id == 0 { return None; }
    var groups := ReadGroups(version, payload, 8, count, GroupReader(version));
    if groups.None? || groups.value.size != |payload| - 8 || groups.value.value == [] { return None; }
    ParsedIteration(version, payload);
    return Some(MakeIteration(id, groups.value.value));
  }

  // ----- the log -----

  /** The iterations a reader yields, and whether it then raises. */
  datatype Log = MakeLog(iterations: seq<Iteration>, failed: bool)

  type IterationParser = seq<Byte> -> Option<Iteration>

  /** Attempt ids start at the baseline and strictly increase; the first
      format version allows no gaps. */
  predicate Follows(version: nat, previous: nat, id: nat)
  {
    if version == 1 || previous == 0 then id == previous + 1 else previous < id
  }

  predicate InSequence(version: nat, ids: seq<Iteration>, previous: nat)
    decreases |ids|
  {
    ids == [] || (Follows(version, previous, ids[0].id) && InSequence(version, ids[1..], ids[0].id))
  }

  function Iterate(version: nat, parse: IterationParser, frames: seq<Frame>, failed: bool, previous: nat): Log
    decreases |frames|
  {
    if frames == [] then MakeLog([], failed)
    else if frames[0].kind != 4 || frames[0].flags != 0 then MakeLog([], true)
    else
      var it := parse(frames[0].payload);
      if it.None? || !Follows(version, previous, it.value.id) then MakeLog([], true)
      else
        var rest := Iterate(version, parse, frames[1..], failed, it.value.id);
        MakeLog([it.value] + rest.iterations, rest.failed)
  }

  function IterationReader(version: nat): IterationParser { payload => ParseIteration(version, payload) }

  /** The format version a header names; a shorter file has none. */
  function LogVersion(data: seq<Byte>): nat { if |data| >= 10 then FromBytes(data[8..10]) else 0 }

  /** Reading a log file of any version, tolerating one cut tail. */
  function ReadLog(crc: Checksum, data: seq<Byte>): Log
  {
    var r := ReadFile(crc, Binradar, data, true);
    if r.None? then MakeLog([], true)
    else Iterate(LogVersion(data), IterationReader(LogVersion(data)), r.value.frames, r.value.fault.Some?, 0)
  }

  ghost predicate AllOk(version: nat, its: seq<Iteration>)
  {
    forall k :: 0 <= k < |its| ==> IterationOk(version, its[k])
  }

  /** Whatever a log holds, what it yields is well formed and in sequence. */
  lemma {:induction false} YieldedInSequence(version: nat, parse: IterationParser, frames: seq<Frame>, failed: bool,
                                             previous: nat)
    requires forall p :: parse(p).Some? ==> IterationOk(version, parse(p).value)
    ensures var its := Iterate(version, parse, frames, failed, previous).iterations;
            InSequence(version, its, previous) && AllOk(version, its)
    decreases |frames|
  {
    if frames != [] {
      var it := parse(frames[0].payload);
      if frames[0].kind == 4 && frames[0].flags == 0 && it.Some? && Follows(version, previous, it.value.id) {
        YieldedInSequence(version, parse, frames[1..], failed, it.value.id);
        var rest := Iterate(version, parse, frames[1..], failed, it.value.id).iterations;
        assert ([it.value] + rest)[1..] == rest;
      }
    }
  }

  /** For any bytes at all: the iterations yielded obey the rules of the
      version the header names. */
  lemma LogIsSound(crc: Checksum, data: seq<Byte>)
    ensures var its := ReadLog(crc, data).iterations;
            InSequence(LogVersion(data), its, 0) && AllOk(LogVersion(data), its)
  {
    var r := ReadFile(crc, Binradar, data, true);
    if r.Some? {
      var version := LogVersion(data);
      forall p | ParseIteration(version, p).Some?
        ensures IterationOk(version, ParseIteration(version, p).value)
      {
        ParsedIteration(version, p);
      }
      YieldedInSequence(version, IterationReader(version), r.value.frames, r.value.fault.Some?, 0);
    }
  }

  /** Without gaps the ids simply count up. */
  lemma {:induction false} ContiguousIds(its: seq<Iteration>, previous: nat, k: nat)
    requires InSequence(1, its, previous) && k < |its|
    ensures its[k].id == previous + 1 + k
    decreases k
  {
    if k > 0 { ContiguousIds(its[1..], its[0].id, k - 1); }
  }

  /** In every version the first id is the baseline and later ids are larger. */
  lemma {:induction false} IdsIncrease(version: nat, its: seq<Iteration>, previous: nat, j: nat, k: nat)
    requires InSequence(version, its, previous) && j < k < |its|
    ensures its[j].id < its[k].id && previous < its[j].id
    decreases j + k
  {
    if j > 0 {
      IdsIncrease(version, its[1..], its[0].id, j - 1, k - 1);
    } else if k > 1 {
      IdsIncrease(version, its[1..], its[0].id, 0, k - 1);
    }
  }

  // ----- a cut log -----

  function FrameOf(encode: Iteration -> seq<Byte>, it: Iteration): Frame { MakeFrame(4, 0, encode(it)) }

  function FramesOf(encode: Iteration -> seq<Byte>, its: seq<Iteration>): (r: seq<Frame>)
    ensures |r| == |its|
  {
    seq(|its|, k requires 0 <= k < |its| => FrameOf(encode, its[k]))
  }

  /** What the writer, which knows only the current version, can log. */
  ghost predicate Loggable(its: seq<Iteration>)
  {
    InSequence(4, its, 0) && AllOk(4, its) && forall k :: 0 <= k < |its| ==> |EncodeIteration(its[k])| <= MAX_FRAME
  }

  lemma {:induction false} FramesRead(version: nat, parse: IterationParser, encode: Iteration -> seq<Byte>,
                                      its: seq<Iteration>, previous: nat)
    requires InSequence(version, its, previous) && forall k :: 0 <= k < |its| ==> parse(encode(its[k])) == Some(its[k])
    ensures Iterate(version, parse, FramesOf(encode, its), false, previous) == MakeLog(its, false)
    decreases |its|
  {
    if its != [] {
      FramesRead(version, parse, encode, its[1..], its[0].id);
      var frames := FramesOf(encode, its);
      assert frames[0] == FrameOf(encode, its[0]) && frames[1..] == FramesOf(encode, its[1..]);
      assert [its[0]] + its[1..] == its;
    }
  }

  lemma {:induction false} SequencePrefix(version: nat, its: seq<Iteration>, previous: nat, k: nat)
    requires InSequence(version, its, previous) && k <= |its|
    ensures InSequence(version, its[..k], previous)
    decreases k
  {
    if k > 0 {
      SequencePrefix(version, its[1..], its[0].id, k - 1);
      assert its[..k][1..] == its[1..][..k - 1];
    }
  }

  /** Cut anywhere after its header, a log yields exactly the iterations whose
      frames are wholly present, and no error. */
  lemma CutLogReadsAsPrefix(crc: Checksum, its: seq<Iteration>, n: nat)
    requires Loggable(its) && 16 <= n <= |WriteFile(crc, Binradar, FramesOf(EncodeIteration, its))|
    ensures var frames := FramesOf(EncodeIteration, its);
            ReadLog(crc, WriteFile(crc, Binradar, frames)[..n]) == MakeLog(its[..Whole(crc, frames, n - 16)], false)
  {
    var frames := FramesOf(EncodeIteration, its);
    var k := Whole(crc, frames, n - 16);
    LoggableFrames(its);
    CutFileReadsAsPrefix(crc, Binradar, frames, n, true);
    CutVersion(crc, frames, n);
    LogPrefixReads(its, k);
    FramesPrefix(EncodeIteration, its, k);
  }

  lemma LoggableFrames(its: seq<Iteration>)
    requires Loggable(its)
    ensures AllWritable(FramesOf(EncodeIteration, its))
  {
  }

  lemma FramesPrefix(encode: Iteration -> seq<Byte>, its: seq<Iteration>, k: nat)
    requires k <= |its|
    ensures FramesOf(encode, its)[..k] == FramesOf(encode, its[..k])
  {
  }

  lemma CutVersion(crc: Checksum, frames: seq<Frame>, n: nat)
    requires 16 <= n <= |WriteFile(crc, Binradar, frames)|
    ensures LogVersion(WriteFile(crc, Binradar, frames)[..n]) == 4
  {
    var body := EncodeFrames(crc, frames);
    assert WriteFile(crc, Binradar, frames)[..n] == FileHeader(Binradar) + body[..n - 16];
    HeaderReads(Binradar, body[..n - 16]);
  }

  lemma LogPrefixReads(its: seq<Iteration>, k: nat)
    requires Loggable(its) && k <= |its|
    ensures Iterate(4, IterationReader(4), FramesOf(EncodeIteration, its[..k]), false, 0) == MakeLog(its[..k], false)
  {
    SequencePrefix(4, its, 0, k);
    forall j | 0 <= j < k
      ensures IterationReader(4)(EncodeIteration(its[..k][j])) == Some(its[..k][j])
    {
      IterationRoundTrip(4, its[j]);
    }
    FramesRead(4, IterationReader(4), EncodeIteration, its[..k], 0);
  }
}
