/** Re-encoding an indirect call through RSP-based memory as a jump, after the
    return address has been pushed: FF /2 becomes FF /4 with the displacement
    raised by eight. */
module CallJump {
  import opened Bits
  import opened Bitmaps
  import opened Options
  import Words
  import BranchCodec

  // ----- prefixes -----

  predicate IsRex(b: Byte) { 0x40 <= b <= 0x4F }

  predicate IsLegacy(b: Byte)
  {
    b in {0x67, 0xF0, 0xF2, 0xF3, 0x2E, 0x36, 0x3E, 0x26, 0x64, 0x65, 0x66}
  }

  /** The bytes as the manual lists them: REX is `0100WRXB`; then lock and repeat,
      the segment overrides, and the operand and address sizes. */
  lemma PrefixBytes(b: Byte)
    ensures IsRex(b) <==> b / 16 == 4
    ensures IsLegacy(b) <==>
            || b in [0xF0, 0xF2, 0xF3]
            || b in [0x2E, 0x36, 0x3E, 0x26, 0x64, 0x65]
            || b in [0x66, 0x67]
  {
    assert b / 16 == 4 <==> 64 <= b < 80;
  }

  /** The length of the run of prefixes. */
  function PrefixLength(code: seq<Byte>): (n: nat)
    ensures n <= |code| && (n < |code| ==> !IsRex(code[n]) && !IsLegacy(code[n]))
    ensures forall k :: 0 <= k < n ==> IsRex(code[k]) || IsLegacy(code[k])
  {
    if code == [] || (!IsRex(code[0]) && !IsLegacy(code[0])) then 0 else 1 + PrefixLength(code[1..])
  }

  /** The last REX byte among the prefixes, wherever it stands. */
  function LastRex(prefixes: seq<Byte>): Byte
  {
    if prefixes == [] then 0
    else if IsRex(prefixes[|prefixes| - 1]) then prefixes[|prefixes| - 1]
    else LastRex(prefixes[..|prefixes| - 1])
  }

  // ----- the instruction, by the ModR/M and SIB rules -----

  /** Signed little-endian numbers. */
  function SignedOf(data: seq<Byte>): int
  {
    if 2 * FromBytes(data) >= Pow256(|data|) then FromBytes(data) - Pow256(|data|) else FromBytes(data)
  }

  function ToSigned(d: int, width: nat): (data: seq<Byte>)
    ensures |data| == width
  {
    ToBytes(d % Pow256(width), width)
  }

  datatype Index = MakeIndex(register: nat, scale: nat)

  datatype Operand =
    | Register(register: nat)
    | Memory(base: Option<nat>, index: Option<Index>, disp: int)
    | RipRelative(disp: int)

  /** `FF /reg` with its operand; only the REX byte right before the opcode is
      effective. */
  datatype Instruction = MakeInstruction(prefixes: seq<Byte>, reg: nat, operand: Operand)

  function EffectiveRex(prefixes: seq<Byte>): Byte
  {
    if prefixes != [] && IsRex(prefixes[|prefixes| - 1]) then prefixes[|prefixes| - 1] else 0
  }

  function RexB(rex: Byte): nat { rex % 2 }

  function RexX(rex: Byte): nat { rex / 2 % 2 }

  function DispWidth(mod: nat): nat { if mod == 0 then 0 else if mod == 1 then 1 else 4 }

  /** The operand of `mod`, `rm` and the bytes after ModR/M. */
  function DecodeOperand(rex: Byte, mod: nat, rm: nat, rest: seq<Byte>): Option<Operand>
  {
    if mod == 3 then if rest == [] then Some(Register(rm + 8 * RexB(rex))) else None
    else if rm == 4 then if rest == [] then None else DecodeSib(rex, mod, rest[0], rest[1..])
    else if mod == 0 && rm == 5 then if |rest| == 4 then Some(RipRelative(SignedOf(rest))) else None
    else if |rest| == DispWidth(mod) then Some(Memory(Some(rm + 8 * RexB(rex)), None, SignedOf(rest)))
    else None
  }

  function DecodeSib(rex: Byte, mod: nat, sib: Byte, disp: seq<Byte>): Option<Operand>
  {
    var number := sib / 8 % 8 + 8 * RexX(rex);
    var index := if number == 4 then None else Some(MakeIndex(number, Pow2(sib / 64)));
    if mod == 0 && sib % 8 == 5 then if |disp| == 4 then Some(Memory(None, index, SignedOf(disp))) else None
    else if |disp| == DispWidth(mod) then Some(Memory(Some(sib % 8 + 8 * RexB(rex)), index, SignedOf(disp)))
    else None
  }

  function Decode(code: seq<Byte>): Option<Instruction>
  {
    var i := PrefixLength(code);
    if i + 1 >= |code| || code[i] != 0xFF then None
    else
      var modrm := code[i + 1];
      var operand := DecodeOperand(EffectiveRex(code[..i]), modrm / 64, modrm % 8, code[i + 2..]);
      if operand.None? then None else Some(MakeInstruction(code[..i], modrm / 8 % 8, operand.value))
  }

  // ----- the effective address -----

  const RSP := 4
  const M64: nat := 0x1_0000_0000_0000_0000
  const M32: nat := 0x1_0000_0000

  predicate Registers(regs: seq<nat>) { |regs| == 16 && forall i :: 0 <= i < 16 ==> regs[i] < M64 }

  function AddressModulus(prefixes: seq<Byte>): nat { if 0x67 in prefixes then M32 else M64 }

  function Address(regs: seq<nat>, modulus: nat, m: Operand): int
    requires m.Memory? && modulus > 0 && (m.base.Some? ==> m.base.value < |regs|)
             && (m.index.Some? ==> m.index.value.register < |regs|)
  {
    ((if m.base.Some? then regs[m.base.value] else 0)
     + (if m.index.Some? then m.index.value.scale * regs[m.index.value.register] else 0)
     + m.disp) % modulus
  }

  /** RSP after a return address was pushed. */
  function Pushed(regs: seq<nat>): seq<nat>
    requires |regs| == 16
  {
    regs[RSP := (regs[RSP] - 8) % M64]
  }

  lemma ModulusStep(r: nat, y: int, modulus: nat)
    requires r < M64 && (modulus == M64 || modulus == M32)
    ensures ((r - 8) % M64 + y + 8) % modulus == (r + y) % modulus
  {
    if r < 8 {
      if modulus == M64 { FullTurn(r + y); } else { HalfTurns(r + y); }
    }
  }

  lemma FullTurn(x: int)
    ensures (x + M64) % M64 == x % M64
  {
  }

  lemma HalfTurns(x: int)
    ensures (x + M64) % M32 == x % M32
  {
    assert M64 == M32 * M32;
  }

  // ----- the re-encoding -----

  predicate Fits32(d: int) { -0x8000_0000 <= d < 0x8000_0000 }

  function NewWidth(d: int): nat { if d == 0 then 0 else if -128 <= d <= 127 then 1 else 4 }

  function NewMod(width: nat): nat { if width == 0 then 0 else if width == 1 then 1 else 2 }

  /** A call through memory at RSP: FF /2 with a SIB byte whose base is RSP. */
  predicate Matches(code: seq<Byte>, i: nat)
  {
    && i + 2 < |code| && code[i] == 0xFF && LastRex(code[..i]) % 2 == 0
    && code[i + 1] / 64 != 3 && code[i + 1] % 64 == 0x14 && code[i + 2] % 8 == 4
    && |code| == i + 3 + DispWidth(code[i + 1] / 64)
  }

  function Rebuilt(code: seq<Byte>, i: nat, d: int): seq<Byte>
    requires i + 2 < |code|
  {
    code[..i + 1] + ([0x24 + 64 * NewMod(NewWidth(d)), code[i + 2]] + ToSigned(d, NewWidth(d)))
  }

  /** Nothing for other instructions; empty if the displacement leaves 32 bits. */
  function Jump(code: seq<Byte>): Option<seq<Byte>>
  {
    var i := PrefixLength(code);
    if !Matches(code, i) then None
    else
      var d := SignedOf(code[i + 3..]) + 8;
      if Fits32(d) then Some(Rebuilt(code, i, d)) else Some([])
  }

  // ----- the bytes -----

  lemma SignedRange(data: seq<Byte>)
    requires |data| in {0, 1, 4}
    ensures |data| == 0 ==> SignedOf(data) == 0
    ensures |data| == 1 ==> -128 <= SignedOf(data) <= 127
    ensures Fits32(SignedOf(data))
  {
    ToFromBytes(data);
    assert Pow256(0) == 1 && Pow256(1) == 256 && Pow256(4) == 0x1_0000_0000;
  }

  lemma SignedRoundTrip(d: int)
    requires Fits32(d)
    ensures SignedOf(ToSigned(d, NewWidth(d))) == d
  {
    assert Pow256(0) == 1 && Pow256(1) == 256 && Pow256(4) == 0x1_0000_0000;
    var w := NewWidth(d);
    FromToBytes(d % Pow256(w), w);
  }

  lemma {:induction false} PrefixDetermined(a: seq<Byte>, b: seq<Byte>, n: nat)
    requires n < |a| && n < |b| && a[..n + 1] == b[..n + 1] && PrefixLength(a) == n
    ensures PrefixLength(b) == n
    decreases n
  {
    assert a[0] == a[..n + 1][0] == b[0];
    if n > 0 {
      assert a[1..][..n] == a[..n + 1][1..] == b[1..][..n];
      PrefixDetermined(a[1..], b[1..], n - 1);
    }
  }

  lemma {:induction false} RexAgrees(prefixes: seq<Byte>)
    requires LastRex(prefixes) % 2 == 0
    ensures RexB(EffectiveRex(prefixes)) == 0
  {
  }

  // ----- what is decoded -----

  function SibIndex(rex: Byte, sib: Byte): Option<Index>
  {
    var number := sib / 8 % 8 + 8 * RexX(rex);
    if number == RSP then None else Some(MakeIndex(number, Pow2(sib / 64)))
  }

  /** Any FF instruction with a SIB base of RSP decodes so. */
  lemma RspOperand(code: seq<Byte>, i: nat)
    requires i == PrefixLength(code) && i + 2 < |code| && code[i] == 0xFF && RexB(EffectiveRex(code[..i])) == 0
    requires code[i + 1] / 64 != 3 && code[i + 1] % 8 == 4 && code[i + 2] % 8 == 4
    requires |code| == i + 3 + DispWidth(code[i + 1] / 64)
    ensures Decode(code) == Some(MakeInstruction(code[..i], code[i + 1] / 8 % 8,
                                                 Memory(Some(RSP), SibIndex(EffectiveRex(code[..i]), code[i + 2]),
                                                        SignedOf(code[i + 3..]))))
  {
    var rest := code[i + 2..];
    assert rest[0] == code[i + 2] && rest[1..] == code[i + 3..];
  }

  lemma RebuiltParts(code: seq<Byte>, i: nat, d: int)
    requires i + 2 < |code|
    ensures var out := Rebuilt(code, i, d); var w := NewWidth(d);
            && |out| == i + 3 + w && out[..i + 1] == code[..i + 1] && out[..i] == code[..i] && out[i] == code[i]
            && out[i + 1] == 0x24 + 64 * NewMod(w) && out[i + 2] == code[i + 2] && out[i + 3..] == ToSigned(d, w)
  {
    var out := Rebuilt(code, i, d);
    assert out[..i + 1] == code[..i + 1];
    assert out[..i] == out[..i + 1][..i] && code[..i] == code[..i + 1][..i];
    assert out[i] == out[..i + 1][i] && code[i] == code[..i + 1][i];
  }

  /** The result is FF /4 with the same prefixes, base, index and scale, and the
      displacement raised by eight. */
  lemma JumpDecodes(code: seq<Byte>)
    requires Jump(code).Some? && Jump(code).value != []
    ensures Decode(code).Some? && Decode(Jump(code).value).Some?
    ensures var a, b := Decode(code).value, Decode(Jump(code).value).value;
            && a.reg == 2 && a.operand.Memory? && a.operand.base == Some(RSP)
            && (a.operand.index.Some? ==> a.operand.index.value.register < 16 && a.operand.index.value.register != RSP)
            && b == a.(reg := 4, operand := a.operand.(disp := a.operand.disp + 8))
  {
    DecodesTo(code, PrefixLength(code));
  }

  /** The call and the jump, as instructions. */
  function At(code: seq<Byte>, i: nat, reg: nat, d: int): Instruction
    requires i + 2 < |code|
  {
    MakeInstruction(code[..i], reg, Memory(Some(RSP), SibIndex(EffectiveRex(code[..i]), code[i + 2]), d))
  }

  lemma DecodesTo(code: seq<Byte>, i: nat)
    requires i == PrefixLength(code) && Jump(code).Some? && Jump(code).value != []
    ensures i + 2 < |code| && Decode(code) == Some(At(code, i, 2, SignedOf(code[i + 3..])))
    ensures Decode(Jump(code).value) == Some(At(code, i, 4, SignedOf(code[i + 3..]) + 8))
  {
    JumpIs(code, i);
    CallDecodes(code, i);
    RebuiltDecodes(code, i, SignedOf(code[i + 3..]) + 8);
  }

  lemma JumpIs(code: seq<Byte>, i: nat)
    requires i == PrefixLength(code) && Jump(code).Some? && Jump(code).value != []
    ensures Matches(code, i) && Fits32(SignedOf(code[i + 3..]) + 8)
    ensures Jump(code).value == Rebuilt(code, i, SignedOf(code[i + 3..]) + 8)
  {
  }

  lemma CallDecodes(code: seq<Byte>, i: nat)
    requires i == PrefixLength(code) && Matches(code, i)
    ensures Decode(code) == Some(At(code, i, 2, SignedOf(code[i + 3..]))) && RexB(EffectiveRex(code[..i])) == 0
  {
    RexAgrees(code[..i]);
    RspOperand(code, i);
  }

  lemma RebuiltDecodes(code: seq<Byte>, i: nat, d: int)
    requires i == PrefixLength(code) && i + 2 < |code| && code[i] == 0xFF && RexB(EffectiveRex(code[..i])) == 0
    requires code[i + 2] % 8 == 4 && Fits32(d)
    ensures Decode(Rebuilt(code, i, d))
            == Some(MakeInstruction(code[..i], 4, Memory(Some(RSP), SibIndex(EffectiveRex(code[..i]), code[i + 2]), d)))
  {
    RebuiltParts(code, i, d);
    SignedRoundTrip(d);
    OutDecodes(code, Rebuilt(code, i, d), i, d, NewWidth(d));
  }

  lemma OutDecodes(code: seq<Byte>, out: seq<Byte>, i: nat, d: int, w: nat)
    requires i == PrefixLength(code) && i + 2 < |code| && code[i] == 0xFF && RexB(EffectiveRex(code[..i])) == 0
             && code[i + 2] % 8 == 4
    requires w in {0, 1, 4} && |out| == i + 3 + w && out[..i + 1] == code[..i + 1] && out[..i] == code[..i]
             && out[i] == code[i]
    requires out[i + 1] == 0x24 + 64 * NewMod(w) && out[i + 2] == code[i + 2] && SignedOf(out[i + 3..]) == d
    ensures Decode(out) == Some(MakeInstruction(code[..i], 4,
                                                Memory(Some(RSP), SibIndex(EffectiveRex(code[..i]), code[i + 2]), d)))
  {
    PrefixDetermined(code, out, i);
    ModReads(NewMod(w));
    RspOperand(out, i);
  }

  lemma ModReads(mod: nat)
    requires mod < 3
    ensures (0x24 + 64 * mod) / 64 == mod && (0x24 + 64 * mod) / 8 % 8 == 4 && (0x24 + 64 * mod) % 8 == 4
  {
  }

  /** The jump, taken after the push, reads the address the call would have. */
  lemma AddressKept(code: seq<Byte>, regs: seq<nat>)
    requires Jump(code).Some? && Jump(code).value != [] && Registers(regs)
    ensures Decode(code).Some? && Decode(Jump(code).value).Some?
    ensures var a, b := Decode(code).value, Decode(Jump(code).value).value;
            && a.operand.Memory? && a.operand.base == Some(RSP) && b.operand.Memory? && b.operand.base == Some(RSP)
            && (a.operand.index.Some? ==> a.operand.index.value.register < 16) && b.operand.index == a.operand.index
            && Address(Pushed(regs), AddressModulus(b.prefixes), b.operand)
              == Address(regs, AddressModulus(a.prefixes), a.operand)
  {
    JumpDecodes(code);
    var a := Decode(code).value;
    var index := if a.operand.index.Some? then a.operand.index.value.scale * regs[a.operand.index.value.register]
      else 0;
    ModulusStep(regs[RSP], index + a.operand.disp, AddressModulus(a.prefixes));
  }

  // ----- which instructions, and how short -----

  /** An FF /2 instruction with memory at RSP whose last REX byte has no B bit. */
  ghost predicate CallsAtRsp(code: seq<Byte>)
  {
    && Decode(code).Some? && Decode(code).value.reg == 2
    && Decode(code).value.operand.Memory? && Decode(code).value.operand.base == Some(RSP)
    && LastRex(Decode(code).value.prefixes) % 2 == 0
  }

  lemma MatchedCalls(code: seq<Byte>, i: nat)
    requires i == PrefixLength(code) && Matches(code, i)
    ensures CallsAtRsp(code) && Decode(code).value.operand.disp == SignedOf(code[i + 3..])
            && Fits32(SignedOf(code[i + 3..]))
  {
    RexAgrees(code[..i]);
    RspOperand(code, i);
    SignedRange(code[i + 3..]);
  }

  lemma CallMatches(code: seq<Byte>, i: nat)
    requires i == PrefixLength(code) && CallsAtRsp(code)
    ensures Matches(code, i)
  {
    RexAgrees(code[..i]);
    RspShape(code, i);
  }

  /** Exactly the FF /2 instructions with memory at RSP are handled, except that
      a REX.B byte anywhere among the prefixes is taken to select R12. */
  lemma HandledExactly(code: seq<Byte>)
    ensures Jump(code).Some? <==> CallsAtRsp(code)
    ensures Jump(code).Some? ==> (Jump(code).value == [] <==> Decode(code).value.operand.disp + 8 >= 0x8000_0000)
  {
    var i := PrefixLength(code);
    if Matches(code, i) {
      MatchedCalls(code, i);
    } else if CallsAtRsp(code) {
      CallMatches(code, i);
    }
  }

  /** Memory at RSP needs a SIB byte, and its length follows from `mod`. */
  lemma RspShape(code: seq<Byte>, i: nat)
    requires i == PrefixLength(code) && Decode(code).Some?
    requires Decode(code).value.operand.Memory? && Decode(code).value.operand.base == Some(RSP)
    ensures i + 2 < |code| && code[i] == 0xFF && code[i + 1] / 64 != 3 && code[i + 1] % 8 == 4 && code[i + 2] % 8 == 4
    ensures |code| == i + 3 + DispWidth(code[i + 1] / 64)
    ensures Decode(code).value.operand.disp == SignedOf(code[i + 3..])
  {
    RspRest(EffectiveRex(code[..i]), code[i + 1] / 64, code[i + 1] % 8, code[i + 2..]);
    RestParts(code, i);
  }

  lemma RestParts(code: seq<Byte>, i: nat)
    requires i + 2 < |code|
    ensures code[i + 2..][0] == code[i + 2] && code[i + 2..][1..] == code[i + 3..]
  {
  }

  lemma RspRest(rex: Byte, mod: nat, rm: nat, rest: seq<Byte>)
    requires rm < 8 && DecodeOperand(rex, mod, rm, rest).Some?
    requires var m := DecodeOperand(rex, mod, rm, rest).value; m.Memory? && m.base == Some(RSP)
    ensures mod != 3 && rm == 4 && rest != [] && rest[0] % 8 == 4 && |rest| == 1 + DispWidth(mod)
    ensures DecodeOperand(rex, mod, rm, rest).value.disp == SignedOf(rest[1..])
  {
  }

  /** No shorter bytes decode to the same instruction. */
  lemma JumpIsShortest(code: seq<Byte>, other: seq<Byte>)
    requires Jump(code).Some? && Jump(code).value != [] && Decode(other) == Decode(Jump(code).value)
    ensures |other| >= |Jump(code).value|
  {
    JumpDecodes(code);
    var out := Jump(code).value;
    var i, j := PrefixLength(out), PrefixLength(other);
    RspShape(out, i);
    RspShape(other, j);
    assert |out[..i]| == |other[..j]|;
    SignedRange(other[j + 3..]);
    RebuiltParts(code, PrefixLength(code), SignedOf(code[PrefixLength(code) + 3..]) + 8);
    RspShape(code, PrefixLength(code));
  }

  // ----- the scan -----

  lemma {:induction false} PrefixFrom(code: seq<Byte>, i: nat)
    requires i <= PrefixLength(code)
    ensures PrefixLength(code) == i + PrefixLength(code[i..])
    decreases i
  {
    if i > 0 {
      PrefixFrom(code[1..], i - 1);
      assert code[1..][i - 1..] == code[i..];
    } else {
      assert code[0..] == code;
    }
  }

  lemma RexNext(code: seq<Byte>, i: nat)
    requires i < |code|
    ensures LastRex(code[..i + 1]) == if IsRex(code[i]) then code[i] else LastRex(code[..i])
  {
    assert code[..i + 1][..i] == code[..i];
  }

  /** The prefix loop: where the opcode is, and the last REX byte. */
  method ScanPrefixes(code: seq<Byte>) returns (i: nat, rex: Byte)
    ensures i == PrefixLength(code) && rex == LastRex(code[..i])
  {
    i, rex := 0, 0;
    while i < |code|
      invariant i <= PrefixLength(code) && rex == LastRex(code[..i])
      decreases |code| - i
    {
      PrefixFrom(code, i);
      RexNext(code, i);
      var b := code[i];
      assert code[i..][0] == b;
      if IsRex(b) {
        rex := b;
      } else if !IsLegacy(b) {
        break;
      }
      i := i + 1;
    }
  }

  /** `(b >> 6, b & 0x3f, b & 7, b & 1)`. */
  method FieldsOf(b: Byte) returns (top: int, low6: int, low3: int, low1: int)
    ensures top == b / 64 && low6 == b % 64 && low3 == b % 8 && low1 == b % 2
  {
    assert Pow2(6) == 64 && Pow2(3) == 8 && Pow2(1) == 2;
    ShrIsFloorDiv(b, 6);
    Words.MaskIsMod(b, 6);
    Words.MaskIsMod(b, 3);
    Words.MaskIsMod(b, 1);
    return Shr(b, 6), And(b, 0x3F), And(b, 7), And(b, 1);
  }

  /** `(modrm & 7) | 0x20 | (mod << 6)` for an `rm` of 4. */
  method JumpModRm(low3: int, mod: nat) returns (b: Byte)
    requires low3 == 4 && mod < 3
    ensures b == 0x24 + 64 * mod
  {
    assert Or(4, 0x20) == 0x24;
    assert Pow2(6) == 64;
    BranchCodec.OrAbove(0x24, mod, 6);
    ShlIsMul(mod, 6);
    b := Or(Or(low3, 0x20), Shl(mod, 6));
  }

  method RspCallJump(code: seq<Byte>) returns (r: Option<seq<Byte>>)
    ensures r == Jump(code)
  {
    var i, rex := ScanPrefixes(code);
    if i + 2 >= |code| || code[i] != 0xFF { return None; }
    var _, _, _, b := FieldsOf(rex);
    if b != 0 { return None; }
    var mod, low6, low3, _ := FieldsOf(code[i + 1]);
    var _, _, base, _ := FieldsOf(code[i + 2]);
    if mod == 3 || low6 != 0x14 || base != 4 { return None; }
    if |code| != i + 3 + DispWidth(mod) { return None; }
    var displacement := SignedOf(code[i + 3..]) + 8;
    if !Fits32(displacement) { return Some([]); }
    var width := NewWidth(displacement);
    var modrm := JumpModRm(low3, NewMod(width));
    return Some(code[..i + 1] + ([modrm, code[i + 2]] + ToSigned(displacement, width)));
  }
}
