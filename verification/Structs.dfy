/** Packed little-endian records: Python's `struct` with unsigned fields. */
module Structs {
  import opened Bitmaps

  function Size(widths: seq<nat>): nat { if widths == [] then 0 else widths[0] + Size(widths[1..]) }

  ghost predicate Fits(widths: seq<nat>, values: seq<nat>)
  {
    |values| == |widths| && forall k :: 0 <= k < |widths| ==> values[k] < Pow256(widths[k])
  }

  function Pack(widths: seq<nat>, values: seq<nat>): (b: seq<Byte>)
    requires |values| == |widths|
    ensures |b| == Size(widths)
    decreases |widths|, values
  {
    if widths == [] then [] else ToBytes(values[0], widths[0]) + Pack(widths[1..], values[1..])
  }

  function Unpack(widths: seq<nat>, data: seq<Byte>): (v: seq<nat>)
    requires |data| >= Size(widths)
    ensures |v| == |widths|
    decreases |widths|, data
  {
    if widths == [] then [] else [FromBytes(data[..widths[0]])] + Unpack(widths[1..], data[widths[0]..])
  }

  /** What was packed unpacks, whatever follows it. */
  lemma {:induction false} UnpackPacked(widths: seq<nat>, values: seq<nat>, rest: seq<Byte>)
    requires Fits(widths, values)
    ensures Unpack(widths, Pack(widths, values) + rest) == values
            && (Pack(widths, values) + rest)[Size(widths)..] == rest
    decreases |widths|
  {
    if widths != [] {
      var head, tail := ToBytes(values[0], widths[0]), Pack(widths[1..], values[1..]);
      UnpackPacked(widths[1..], values[1..], rest);
      FromToBytes(values[0], widths[0]);
      Split(head, tail, rest);
    }
  }

  lemma Split(head: seq<Byte>, tail: seq<Byte>, rest: seq<Byte>)
    ensures (head + tail + rest)[..|head|] == head && (head + tail + rest)[|head|..] == tail + rest
  {
  }

  /** Packing what was unpacked gives the bytes back. */
  lemma {:induction false} PackUnpacked(widths: seq<nat>, data: seq<Byte>)
    requires |data| >= Size(widths)
    ensures Pack(widths, Unpack(widths, data)) == data[..Size(widths)]
    decreases |widths|
  {
    if widths != [] {
      var w := widths[0];
      PackUnpacked(widths[1..], data[w..]);
      ToFromBytes(data[..w]);
      assert data[..w] + data[w..][..Size(widths[1..])] == data[..Size(widths)];
    }
  }

  lemma {:induction false} UnpackFits(widths: seq<nat>, data: seq<Byte>)
    requires |data| >= Size(widths)
    ensures Fits(widths, Unpack(widths, data))
    decreases |widths|
  {
    if widths != [] {
      ToFromBytes(data[..widths[0]]);
      UnpackFits(widths[1..], data[widths[0]..]);
    }
  }
}
