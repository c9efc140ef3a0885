/** Evidence files: a fixed header, then length-delimited checksummed frames.
    The checksum is a parameter: any function of type, flags and payload. */
module Frames {
  import opened Sequences
  import opened Options
  import opened Bitmaps

  const MAX_FRAME: nat := 256 * 1024 * 1024

  datatype Frame = MakeFrame(kind: nat, flags: nat, payload: seq<Byte>)

  type Checksum = Frame -> nat

  /** The four record types. */
  predicate KnownKind(kind: nat) { 1 <= kind <= 4 }

  predicate Writable(f: Frame) { KnownKind(f.kind) && f.flags < 65536 && |f.payload| <= MAX_FRAME }

  function Stamp(crc: Checksum, f: Frame): (b: seq<Byte>)
    ensures |b| == 4
  {
    ToBytes(crc(f) % 0x1_0000_0000, 4)
  }

  function FrameHead(f: Frame): (b: seq<Byte>)
    ensures |b| == 8
  {
    ToBytes(|f.payload|, 4) + ToBytes(f.kind, 2) + ToBytes(f.flags, 2)
  }

  function EncodeFrame(crc: Checksum, f: Frame): (b: seq<Byte>)
    ensures |b| == |f.payload| + 12
  {
    FrameHead(f) + f.payload + Stamp(crc, f)
  }

  function EncodeFrames(crc: Checksum, frames: seq<Frame>): seq<Byte>
  {
    if frames == [] then [] else EncodeFrame(crc, frames[0]) + EncodeFrames(crc, frames[1..])
  }

  // ----- reading -----

  datatype Fault = Truncated | TooLarge | BadChecksum | UnknownKind

  /** One step of the reader on the bytes not yet read. */
  datatype Next = End | Stop(fault: Fault) | Got(frame: Frame, size: nat)

  function HeadLength(data: seq<Byte>): nat
    requires |data| >= 8
  {
    FromBytes(data[..4])
  }

  function HeadFrame(data: seq<Byte>): Frame
    requires |data| >= 8 && |data| >= 8 + HeadLength(data)
  {
    MakeFrame(FromBytes(data[4..6]), FromBytes(data[6..8]), data[8..8 + HeadLength(data)])
  }

  function NextFrame(crc: Checksum, data: seq<Byte>): (r: Next)
    ensures r.Got? ==> 12 <= r.size <= |data|
  {
    if data == [] then End
    else if |data| < 8 then Stop(Truncated)
    else if HeadLength(data) > MAX_FRAME then Stop(TooLarge)
    else if |data| < 12 + HeadLength(data) then Stop(Truncated)
    else
      var f, n := HeadFrame(data), HeadLength(data);
      if FromBytes(data[8 + n..12 + n]) != crc(f) % 0x1_0000_0000 then Stop(BadChecksum)
      else if !KnownKind(f.kind) then Stop(UnknownKind)
      else Got(f, 12 + n)
  }

  /** The frames a reader yields, and the error it then raises if any. */
  datatype Reading = Reading(frames: seq<Frame>, fault: Option<Fault>)

  function ReadFrames(crc: Checksum, data: seq<Byte>, tolerant: bool): Reading
    decreases |data|
  {
    match NextFrame(crc, data)
    case End => Reading([], None)
    case Stop(fault) => Reading([], if tolerant && fault == Truncated then None else Some(fault))
    case Got(f, n) =>
      var r := ReadFrames(crc, data[n..], tolerant);
      Reading([f] + r.frames, r.fault)
  }

  /** The frames read so far, and what is left, make up the whole. */
  ghost predicate FramesAre(whole: Reading, crc: Checksum, data: seq<Byte>, tolerant: bool, frames: seq<Frame>,
                            offset: nat)
  {
    offset <= |data| && whole == After(frames, ReadFrames(crc, data[offset..], tolerant))
  }

  /** The reading loop over a stream position. */
  method ReadAll(crc: Checksum, data: seq<Byte>, tolerant: bool) returns (r: Reading)
    ensures r == ReadFrames(crc, data, tolerant)
  {
    var frames: seq<Frame>, offset: nat, next: Next := [], 0, NextFrame(crc, data);
    ghost var whole := ReadFrames(crc, data, tolerant);
    ReadStart(crc, data, tolerant);
    while next.Got?
      invariant FramesAre(whole, crc, data, tolerant, frames, offset) && next == NextFrame(crc, data[offset..])
      decreases |data| - offset
    {
      ReadStep(whole, crc, data, tolerant, frames, offset, next.frame, next.size);
      frames, offset := frames + [next.frame], offset + next.size;
      next := NextFrame(crc, data[offset..]);
    }
    ReadEnd(whole, crc, data, tolerant, frames, offset, next);
    r := Reading(frames, FaultOf(next, tolerant));
  }

  /** The error at the end of the readable frames; a tolerated one is none. */
  function FaultOf(next: Next, tolerant: bool): Option<Fault>
  {
    if !next.Stop? || (tolerant && next.fault == Truncated) then None else Some(next.fault)
  }

  function After(frames: seq<Frame>, r: Reading): Reading { Reading(frames + r.frames, r.fault) }

  lemma AfterCons(frames: seq<Frame>, f: Frame, r: Reading)
    ensures After(frames, Reading([f] + r.frames, r.fault)) == After(frames + [f], r)
  {
    assert frames + ([f] + r.frames) == frames + [f] + r.frames;
  }

  lemma ReadStart(crc: Checksum, data: seq<Byte>, tolerant: bool)
    ensures FramesAre(ReadFrames(crc, data, tolerant), crc, data, tolerant, [], 0)
    ensures NextFrame(crc, data) == NextFrame(crc, data[0..])
  {
    assert data[0..] == data;
    assert [] + ReadFrames(crc, data, tolerant).frames == ReadFrames(crc, data, tolerant).frames;
  }

  lemma ReadStep(whole: Reading, crc: Checksum, data: seq<Byte>, tolerant: bool, frames: seq<Frame>, offset: nat,
                 f: Frame, n: nat)
    requires FramesAre(whole, crc, data, tolerant, frames, offset) && NextFrame(crc, data[offset..]) == Got(f, n)
    ensures n > 0 && FramesAre(whole, crc, data, tolerant, frames + [f], offset + n)
  {
    Advance(data, offset, n);
    AfterCons(frames, f, ReadFrames(crc, data[offset + n..], tolerant));
  }

  lemma ReadEnd(whole: Reading, crc: Checksum, data: seq<Byte>, tolerant: bool, frames: seq<Frame>, offset: nat,
                next: Next)
    requires FramesAre(whole, crc, data, tolerant, frames, offset) && NextFrame(crc, data[offset..]) == next
             && !next.Got?
    ensures whole == Reading(frames, FaultOf(next, tolerant))
  {
    assert frames + [] == frames;
  }

  // ----- one frame reads back -----

  /** The header has room for the frame, whatever its type. */
  predicate Framed(f: Frame) { f.kind < 65536 && f.flags < 65536 && |f.payload| <= MAX_FRAME }

  lemma HeadReads(f: Frame, rest: seq<Byte>)
    requires Framed(f)
    ensures var data := FrameHead(f) + rest;
            HeadLength(data) == |f.payload| && FromBytes(data[4..6]) == f.kind && FromBytes(data[6..8]) == f.flags
  {
    var data := FrameHead(f) + rest;
    assert Pow256(4) == 0x1_0000_0000 && Pow256(2) == 65536;
    assert data[..4] == ToBytes(|f.payload|, 4) && data[4..6] == ToBytes(f.kind, 2)
        && data[6..8] == ToBytes(f.flags, 2);
    FromToBytes(|f.payload|, 4);
    FromToBytes(f.kind, 2);
    FromToBytes(f.flags, 2);
  }

  lemma FrameParts(crc: Checksum, f: Frame, rest: seq<Byte>)
    ensures var data := EncodeFrame(crc, f) + rest; var n := |f.payload|;
            && data == FrameHead(f) + (f.payload + Stamp(crc, f) + rest)
            && data[8..8 + n] == f.payload && data[8 + n..12 + n] == Stamp(crc, f) && data[12 + n..] == rest
  {
  }

  lemma FrameReadsBack(crc: Checksum, f: Frame, rest: seq<Byte>)
    requires Writable(f)
    ensures NextFrame(crc, EncodeFrame(crc, f) + rest) == Got(f, |f.payload| + 12)
    ensures (EncodeFrame(crc, f) + rest)[|f.payload| + 12..] == rest
  {
    FrameParts(crc, f, rest);
    HeadReads(f, f.payload + Stamp(crc, f) + rest);
    assert Pow256(4) == 0x1_0000_0000;
    FromToBytes(crc(f) % 0x1_0000_0000, 4);
  }

  /** What any whole frame is read as: its checksum decides first, then its type. */
  lemma WholeFrameReads(crc: Checksum, f: Frame, sum: seq<Byte>, rest: seq<Byte>)
    requires Framed(f) && |sum| == 4
    ensures NextFrame(crc, FrameHead(f) + (f.payload + (sum + rest)))
            == if sum != ToBytes(crc(f) % 0x1_0000_0000, 4) then Stop(BadChecksum)
               else if f.kind < 1 || f.kind > 4 then Stop(UnknownKind)
               else Got(f, |f.payload| + 12)
  {
    var data, n := FrameHead(f) + (f.payload + (sum + rest)), |f.payload|;
    HeadReads(f, f.payload + (sum + rest));
    assert data[8..8 + n] == f.payload && data[8 + n..12 + n] == sum;
    assert Pow256(4) == 0x1_0000_0000;
    FromToBytes(crc(f) % 0x1_0000_0000, 4);
    ToFromBytes(sum);
  }

  /** Too few bytes for a header, or for the payload and checksum it announces. */
  predicate CutShort(data: seq<Byte>)
  {
    |data| < 8 || (FromBytes(data[..4]) <= MAX_FRAME && |data| < 12 + FromBytes(data[..4]))
  }

  /** Bytes are a whole frame unless they are cut short or announce too much. */
  lemma WholeOrNot(crc: Checksum, data: seq<Byte>) returns (f: Frame, sum: seq<Byte>, rest: seq<Byte>)
    ensures data == [] ==> NextFrame(crc, data) == End
    ensures data != [] && CutShort(data) ==> NextFrame(crc, data) == Stop(Truncated)
    ensures |data| >= 8 && FromBytes(data[..4]) > MAX_FRAME ==> NextFrame(crc, data) == Stop(TooLarge)
    ensures data != [] && !CutShort(data) && FromBytes(data[..4]) <= MAX_FRAME ==>
              Framed(f) && |sum| == 4 && data == FrameHead(f) + (f.payload + (sum + rest))
  {
    f, sum, rest := MakeFrame(0, 0, []), [], [];
    if data != [] && !CutShort(data) && HeadLength(data) <= MAX_FRAME {
      var n := HeadLength(data);
      f, sum, rest := HeadFrame(data), data[8 + n..12 + n], data[12 + n..];
      HeadBack(data, f);
      assert data == data[..8] + (data[8..8 + n] + (data[8 + n..12 + n] + data[12 + n..]));
    }
  }

  lemma HeadBack(data: seq<Byte>, f: Frame)
    requires |data| >= 8 && |f.payload| == FromBytes(data[..4])
    requires f.kind == FromBytes(data[4..6]) && f.flags == FromBytes(data[6..8])
    ensures FrameHead(f) == data[..8] && f.kind < 65536 && f.flags < 65536
  {
    ToFromBytes(data[..4]);
    ToFromBytes(data[4..6]);
    ToFromBytes(data[6..8]);
    assert Pow256(2) == 65536;
    assert data[..8] == data[..4] + data[4..6] + data[6..8];
  }

  /** A frame is read exactly where a writable frame lies in full. */
  lemma GotExactly(crc: Checksum, data: seq<Byte>, f: Frame, n: nat)
    ensures NextFrame(crc, data) == Got(f, n) <==>
            Writable(f) && n == |f.payload| + 12 && EncodeFrame(crc, f) <= data
  {
    if NextFrame(crc, data) == Got(f, n) { GotIsEncoded(crc, data); }
    if Writable(f) && EncodeFrame(crc, f) <= data {
      FrameReadsBack(crc, f, data[|f.payload| + 12..]);
      assert data == EncodeFrame(crc, f) + data[|f.payload| + 12..];
    }
  }

  /** Reading stops at the first place where no frame lies in full, and complains
      unless that is the end of the file or a tolerated cut. */
  lemma {:induction false} StopsWhereItMust(crc: Checksum, data: seq<Byte>, tolerant: bool)
    ensures var r := ReadFrames(crc, data, tolerant);
            var n := |EncodeFrames(crc, r.frames)|;
            && EncodeFrames(crc, r.frames) <= data
            && (forall f :: Writable(f) ==> !(EncodeFrame(crc, f) <= data[n..]))
            && (r.fault.None? <==> data[n..] == [] || (tolerant && CutShort(data[n..])))
    decreases |data|
  {
    match NextFrame(crc, data)
    case Got(f, n) =>
      var r := ReadFrames(crc, data[n..], tolerant);
      StopsWhereItMust(crc, data[n..], tolerant);
      GotIsEncoded(crc, data);
      EncodedCons(crc, f, r.frames, data, n);
      EncodedLength(crc, f, r.frames, data, n);
    case _ =>
      forall f | Writable(f)
        ensures !(EncodeFrame(crc, f) <= data)
      {
        GotExactly(crc, data, f, |f.payload| + 12);
      }
  }

  lemma EncodedLength(crc: Checksum, f: Frame, frames: seq<Frame>, data: seq<Byte>, n: nat)
    requires n == |EncodeFrame(crc, f)| && n + |EncodeFrames(crc, frames)| <= |data|
    ensures |EncodeFrames(crc, [f] + frames)| == n + |EncodeFrames(crc, frames)|
    ensures data[n..][|EncodeFrames(crc, frames)|..] == data[|EncodeFrames(crc, [f] + frames)|..]
  {
    assert ([f] + frames)[1..] == frames;
    Advance(data, n, |EncodeFrames(crc, frames)|);
  }

  /** A proper nonempty prefix of one frame only looks truncated. */
  lemma CutFrameIsTruncated(crc: Checksum, f: Frame, n: nat)
    requires Writable(f) && 0 < n < |f.payload| + 12
    ensures NextFrame(crc, EncodeFrame(crc, f)[..n]) == Stop(Truncated)
  {
    if n >= 8 {
      var cut := EncodeFrame(crc, f)[..n];
      assert cut == FrameHead(f) + (f.payload + Stamp(crc, f))[..n - 8];
      HeadReads(f, (f.payload + Stamp(crc, f))[..n - 8]);
    }
  }

  lemma ReadOneFrame(crc: Checksum, f: Frame, rest: seq<Byte>, tolerant: bool)
    requires Writable(f)
    ensures var r := ReadFrames(crc, rest, tolerant);
            ReadFrames(crc, EncodeFrame(crc, f) + rest, tolerant) == Reading([f] + r.frames, r.fault)
  {
    FrameReadsBack(crc, f, rest);
  }

  lemma ReadCutFrame(crc: Checksum, f: Frame, n: nat, tolerant: bool)
    requires Writable(f) && 0 < n < |f.payload| + 12
    ensures ReadFrames(crc, EncodeFrame(crc, f)[..n], tolerant)
            == Reading([], if tolerant then None else Some(Truncated))
  {
    CutFrameIsTruncated(crc, f, n);
  }

  // ----- a cut log reads as a prefix -----

  ghost predicate AllWritable(frames: seq<Frame>) { forall k :: 0 <= k < |frames| ==> Writable(frames[k]) }

  /** How many frames lie wholly inside the first `n` bytes. */
  function Whole(crc: Checksum, frames: seq<Frame>, n: nat): (k: nat)
    ensures k <= |frames|
  {
    if frames == [] || n < |EncodeFrame(crc, frames[0])| then 0
    else 1 + Whole(crc, frames[1..], n - |EncodeFrame(crc, frames[0])|)
  }

  lemma {:induction false} WholeIsLargest(crc: Checksum, frames: seq<Frame>, n: nat, k: nat)
    requires k <= |frames|
    ensures k <= Whole(crc, frames, n) <==> |EncodeFrames(crc, frames[..k])| <= n
    decreases k
  {
    if k > 0 {
      assert frames[..k][0] == frames[0] && frames[..k][1..] == frames[1..][..k - 1];
      if n >= |EncodeFrame(crc, frames[0])| {
        WholeIsLargest(crc, frames[1..], n - |EncodeFrame(crc, frames[0])|, k - 1);
      }
    }
  }

  /** What a reader makes of a log cut after `n` bytes: the frames wholly
      present; the strict reader complains unless the cut falls between two
      frames. */
  function CutReading(crc: Checksum, frames: seq<Frame>, n: nat, tolerant: bool): Reading
  {
    var k := Whole(crc, frames, n);
    Reading(frames[..k], if tolerant || n == |EncodeFrames(crc, frames[..k])| then None else Some(Truncated))
  }

  lemma CutReadingCons(crc: Checksum, frames: seq<Frame>, n: nat, tolerant: bool)
    requires frames != [] && n >= |EncodeFrame(crc, frames[0])|
    ensures var r := CutReading(crc, frames[1..], n - |EncodeFrame(crc, frames[0])|, tolerant);
            CutReading(crc, frames, n, tolerant) == Reading([frames[0]] + r.frames, r.fault)
  {
    PrefixCons(crc, frames, 1 + Whole(crc, frames[1..], n - |EncodeFrame(crc, frames[0])|));
  }

  /** A log cut anywhere yields exactly the frames wholly present.  The tolerant
      reader raises nothing; the strict one raises iff the cut is inside a frame. */
  lemma {:induction false} CutReadsAsPrefix(crc: Checksum, frames: seq<Frame>, n: nat, tolerant: bool)
    requires AllWritable(frames) && n <= |EncodeFrames(crc, frames)|
    ensures ReadFrames(crc, EncodeFrames(crc, frames)[..n], tolerant) == CutReading(crc, frames, n, tolerant)
    decreases |frames|
  {
    if frames != [] && n > 0 {
      var head, rest := EncodeFrame(crc, frames[0]), EncodeFrames(crc, frames[1..]);
      if n < |head| {
        CutInside(head, rest, n);
        ReadCutFrame(crc, frames[0], n, tolerant);
      } else {
        CutReadsAsPrefix(crc, frames[1..], n - |head|, tolerant);
        CutFirst(crc, frames, rest, n, tolerant, (head + rest)[..n]);
      }
    }
  }

  lemma CutFirst(crc: Checksum, frames: seq<Frame>, rest: seq<Byte>, n: nat, tolerant: bool, cut: seq<Byte>)
    requires frames != [] && Writable(frames[0]) && |EncodeFrame(crc, frames[0])| <= n
             <= |EncodeFrame(crc, frames[0])| + |rest|
    requires cut == (EncodeFrame(crc, frames[0]) + rest)[..n]
    requires ReadFrames(crc, rest[..n - |EncodeFrame(crc, frames[0])|], tolerant)
             == CutReading(crc, frames[1..], n - |EncodeFrame(crc, frames[0])|, tolerant)
    ensures ReadFrames(crc, cut, tolerant) == CutReading(crc, frames, n, tolerant)
  {
    var head := EncodeFrame(crc, frames[0]);
    CutBeyond(head, rest, n);
    ReadOneFrame(crc, frames[0], rest[..n - |head|], tolerant);
    CutReadingCons(crc, frames, n, tolerant);
  }

  lemma CutInside(head: seq<Byte>, rest: seq<Byte>, n: nat)
    requires n <= |head|
    ensures (head + rest)[..n] == head[..n]
  {
  }

  lemma CutBeyond(head: seq<Byte>, rest: seq<Byte>, n: nat)
    requires |head| <= n <= |head| + |rest|
    ensures (head + rest)[..n] == head + rest[..n - |head|]
  {
  }

  lemma PrefixCons(crc: Checksum, frames: seq<Frame>, k: nat)
    requires 0 < k <= |frames|
    ensures frames[..k] == [frames[0]] + frames[1..][..k - 1]
    ensures EncodeFrames(crc, frames[..k]) == EncodeFrame(crc, frames[0]) + EncodeFrames(crc, frames[1..][..k - 1])
  {
    assert frames[..k][1..] == frames[1..][..k - 1];
  }

  // ----- nothing else is accepted -----

  lemma GotIsEncoded(crc: Checksum, data: seq<Byte>)
    requires NextFrame(crc, data).Got?
    ensures Writable(NextFrame(crc, data).frame)
    ensures data[..NextFrame(crc, data).size] == EncodeFrame(crc, NextFrame(crc, data).frame)
  {
    var n := HeadLength(data);
    var f := HeadFrame(data);
    ToFromBytes(data[..4]);
    ToFromBytes(data[4..6]);
    ToFromBytes(data[6..8]);
    ToFromBytes(data[8 + n..12 + n]);
    assert Pow256(2) == 65536;
    assert data[..12 + n] == (data[..4] + data[4..6] + data[6..8]) + data[8..8 + n] + data[8 + n..12 + n];
  }

  /** Whatever is yielded was written, byte for byte, and a strict reading
      without error consumed the whole file. */
  lemma {:induction false} ReadIsWritten(crc: Checksum, data: seq<Byte>, tolerant: bool)
    ensures var r := ReadFrames(crc, data, tolerant);
            && AllWritable(r.frames)
            && EncodeFrames(crc, r.frames) <= data
            && (!tolerant && r.fault.None? ==> EncodeFrames(crc, r.frames) == data)
    decreases |data|
  {
    match NextFrame(crc, data)
    case End =>
    case Stop(fault) =>
    case Got(f, n) =>
      ReadIsWritten(crc, data[n..], tolerant);
      GotIsEncoded(crc, data);
      EncodedCons(crc, f, ReadFrames(crc, data[n..], tolerant).frames, data, n);
  }

  lemma EncodedCons(crc: Checksum, f: Frame, frames: seq<Frame>, data: seq<Byte>, n: nat)
    requires n <= |data| && data[..n] == EncodeFrame(crc, f) && EncodeFrames(crc, frames) <= data[n..]
    ensures EncodeFrames(crc, [f] + frames) <= data
    ensures EncodeFrames(crc, frames) == data[n..] ==> EncodeFrames(crc, [f] + frames) == data
  {
    assert ([f] + frames)[1..] == frames;
    assert data == data[..n] + data[n..];
  }

  // ----- the file header -----

  datatype Kind = Filter | Verifier | Binradar

  function KindCode(kind: Kind): nat { match kind case Filter => 1 case Verifier => 2 case Binradar => 3 }

  function Version(kind: Kind): nat { if kind == Binradar then 4 else 1 }

  const MAGIC: seq<Byte> := [0x42, 0x52, 0x44, 0x41, 0x54, 0x41, 0x42, 0x31]

  function FileHeader(kind: Kind): (b: seq<Byte>)
    ensures |b| == 16
  {
    MAGIC + ToBytes(Version(kind), 2) + ToBytes(KindCode(kind), 2) + ToBytes(0, 4)
  }

  predicate VersionRead(kind: Kind, version: nat) { if kind == Binradar then 1 <= version <= 4 else version == 1 }

  predicate HeaderOk(kind: Kind, data: seq<Byte>)
  {
    && |data| >= 16 && data[..8] == MAGIC && VersionRead(kind, FromBytes(data[8..10]))
    && FromBytes(data[10..12]) == KindCode(kind) && FromBytes(data[12..16]) == 0
  }

  lemma SmallWords(x: Byte)
    ensures ToBytes(x, 2) == [x, 0] && ToBytes(0, 4) == [0, 0, 0, 0]
  {
    assert ToBytes(0, 1) == [0] && x % 256 == x && x / 256 == 0;
    assert ToBytes(0, 2) == [0, 0] && ToBytes(0, 3) == [0, 0, 0];
  }

  /** The sixteen bytes a file of each kind starts with. */
  lemma HeaderLayout(kind: Kind)
    ensures FileHeader(kind)
            == [0x42, 0x52, 0x44, 0x41, 0x54, 0x41, 0x42, 0x31]
               + match kind
                 case Filter => [1, 0, 1, 0, 0, 0, 0, 0]
                 case Verifier => [1, 0, 2, 0, 0, 0, 0, 0]
                 case Binradar => [4, 0, 3, 0, 0, 0, 0, 0]
  {
    SmallWords(Version(kind));
    SmallWords(KindCode(kind));
  }

  /** A header is accepted iff it is the kind's own, up to older log versions. */
  lemma HeaderExactly(kind: Kind, data: seq<Byte>)
    requires |data| >= 16
    ensures HeaderOk(kind, data) <==>
            && data[..8] == FileHeader(kind)[..8] && data[9] == 0 && data[10..12] == FileHeader(kind)[10..12]
            && data[12..16] == [0, 0, 0, 0]
            && (data[8] == FileHeader(kind)[8] || (kind == Binradar && 1 <= data[8] <= 3))
  {
    HeaderLayout(kind);
    WordIs(data[8..10]);
    WordIs(data[10..12]);
    ZeroWord(data[12..16]);
    CodeIs(data[10..12], KindCode(kind));
  }

  lemma CodeIs(word: seq<Byte>, code: Byte)
    requires |word| == 2
    ensures FromBytes(word) == code <==> word == [code, 0]
  {
    WordIs(word);
  }

  lemma WordIs(word: seq<Byte>)
    requires |word| == 2
    ensures var low: nat, high: nat := word[0], word[1]; FromBytes(word) == low + 256 * high
  {
    assert word[1..] == [word[1]] && [word[1]][1..] == [];
    assert FromBytes([]) == 0 && FromBytes([word[1]]) == word[1];
  }

  lemma ZeroWord(word: seq<Byte>)
    requires |word| == 4
    ensures FromBytes(word) == 0 <==> word == [0, 0, 0, 0]
  {
    SmallWords(0);
    ToFromBytes(word);
    assert Pow256(4) == 0x1_0000_0000;
    FromToBytes(0, 4);
  }

  /** A file as written, or nothing if its header is refused. */
  function ReadFile(crc: Checksum, kind: Kind, data: seq<Byte>, tolerant: bool): Option<Reading>
  {
    if HeaderOk(kind, data) then Some(ReadFrames(crc, data[16..], tolerant)) else None
  }

  function WriteFile(crc: Checksum, kind: Kind, frames: seq<Frame>): seq<Byte>
  {
    FileHeader(kind) + EncodeFrames(crc, frames)
  }

  lemma HeaderReads(kind: Kind, rest: seq<Byte>)
    ensures HeaderOk(kind, FileHeader(kind) + rest) && (FileHeader(kind) + rest)[16..] == rest
    ensures FromBytes((FileHeader(kind) + rest)[8..10]) == Version(kind)
  {
    var data := FileHeader(kind) + rest;
    assert Pow256(4) == 0x1_0000_0000 && Pow256(2) == 65536;
    assert data[..8] == MAGIC && data[8..10] == ToBytes(Version(kind), 2) && data[10..12] == ToBytes(KindCode(kind), 2)
        && data[12..16] == ToBytes(0, 4);
    FromToBytes(Version(kind), 2);
    FromToBytes(KindCode(kind), 2);
    FromToBytes(0, 4);
  }

  /** Cut after its header, a file reads as the frames wholly present. */
  lemma CutFileReadsAsPrefix(crc: Checksum, kind: Kind, frames: seq<Frame>, n: nat, tolerant: bool)
    requires AllWritable(frames) && 16 <= n <= |WriteFile(crc, kind, frames)|
    ensures var k := Whole(crc, frames, n - 16);
            ReadFile(crc, kind, WriteFile(crc, kind, frames)[..n], tolerant)
            == Some(Reading(frames[..k], if tolerant
                            || n == |WriteFile(crc, kind, frames[..k])| then None else Some(Truncated)))
  {
    var body := EncodeFrames(crc, frames);
    assert WriteFile(crc, kind, frames)[..n] == FileHeader(kind) + body[..n - 16];
    HeaderReads(kind, body[..n - 16]);
    CutReadsAsPrefix(crc, frames, n - 16, tolerant);
  }
}
