// The symbolic instruction list and the two-pass assembler that turns it into EVM bytes.

module Opcodes {
  import opened Words

  const STOP: byte := 0x00
  const LT: byte := 0x10
  const GT: byte := 0x11
  const EQ: byte := 0x14
  const ISZERO: byte := 0x15
  const SHR: byte := 0x1c
  const CALLDATALOAD: byte := 0x35
  const CODECOPY: byte := 0x39
  const MLOAD: byte := 0x51
  const MSTORE: byte := 0x52
  const JUMP: byte := 0x56
  const JUMPI: byte := 0x57
  const JUMPDEST: byte := 0x5b
  const PUSH0: byte := 0x5f
  const PUSH1: byte := 0x60
  const PUSH2: byte := 0x61
  const PUSH32: byte := 0x7f
  const DUP1: byte := 0x80
  const DUP16: byte := 0x8f
  const SWAP1: byte := 0x90
  const SWAP16: byte := 0x9f
  const RETURN: byte := 0xf3
  const REVERT: byte := 0xfd

  predicate IsImmediatePush(c: byte) {
    PUSH1 <= c <= PUSH32
  }

  // Number of immediate bytes that follow opcode c.
  function ImmLen(c: byte): (n: nat)
    ensures n <= 32
  {
    if IsImmediatePush(c) then c - PUSH0 else 0
  }
}

module Bytecode {
  import opened Wrappers
  import opened Sequences
  import opened Words
  import opened Opcodes

  type LabelID = x: int | 0 <= x < 0x1_0000

  type PushCode = c: byte | PUSH0 <= c <= PUSH32 witness PUSH0
  type Bytes32 = s: seq<byte> | |s| == 32 witness seq(32, _ => 0)

  datatype Instr =
    | Op(code: byte)
    | Push(width: PushCode, value: Bytes32)
    | LabelRef(id: LabelID)
    | LabelDef(id: LabelID)

  function Increment(l: LabelID): LabelID {
    if l == 0xFFFF then 0 else l + 1
  }

  // ---------- specification of the assembler ----------

  function Size(i: Instr): nat {
    match i
    case Op(_) => 1
    case Push(c, _) => 1 + ImmLen(c)
    case LabelRef(_) => 3
    case LabelDef(_) => 0
  }

  // Byte position of instruction k.
  function Offset(prog: seq<Instr>, k: nat): nat
    requires k <= |prog|
  {
    if k == 0 then 0 else Offset(prog, k - 1) + Size(prog[k - 1])
  }

  // Labels defined by the first k instructions; a later definition overrides an earlier one.
  function LabelsUpTo(prog: seq<Instr>, k: nat): map<LabelID, nat>
    requires k <= |prog|
  {
    if k == 0 then map[]
    else
      match prog[k - 1]
      case LabelDef(l) => LabelsUpTo(prog, k - 1)[l := Offset(prog, k - 1)]
      case _ => LabelsUpTo(prog, k - 1)
  }

  function LabelOffsets(prog: seq<Instr>): map<LabelID, nat> {
    LabelsUpTo(prog, |prog|)
  }

  // Only the low 16 bits of an offset fit the PUSH2 operand; an unknown label leaves the placeholder.
  function Address(labels: map<LabelID, nat>, l: LabelID): seq<byte> {
    var offset := if l in labels then labels[l] else 0;
    [(offset / 256) % 256, offset % 256]
  }

  function Encode(i: Instr, labels: map<LabelID, nat>): (s: seq<byte>)
    ensures |s| == Size(i)
  {
    match i
    case Op(c) => [c]
    case Push(c, v) => [c] + v[32 - ImmLen(c)..]
    case LabelRef(l) => [PUSH2] + Address(labels, l)
    case LabelDef(_) => []
  }

  function EncodeUpTo(prog: seq<Instr>, labels: map<LabelID, nat>, k: nat): (s: seq<byte>)
    requires k <= |prog|
    ensures |s| == Offset(prog, k)
  {
    if k == 0 then [] else EncodeUpTo(prog, labels, k - 1) + Encode(prog[k - 1], labels)
  }

  ghost predicate RefsDefined(prog: seq<Instr>) {
    forall k :: 0 <= k < |prog| && prog[k].LabelRef? ==> prog[k].id in LabelOffsets(prog)
  }

  // The bytes finalize() produces when every referenced label is defined.
  function Assembled(prog: seq<Instr>): (s: seq<byte>)
    ensures |s| == Offset(prog, |prog|)
  {
    EncodeUpTo(prog, LabelOffsets(prog), |prog|)
  }

  // The shortest push of a 32-byte word.
  function LeadingZeros(value: seq<byte>): (n: nat)
    ensures n <= |value|
    ensures value[..n] == Zeros(n)
    ensures n < |value| ==> value[n] != 0
  {
    if value == [] || value[0] != 0 then 0
    else
      var n := LeadingZeros(value[1..]);
      assert value[..n + 1] == [0] + value[1..][..n];
      n + 1
  }

  lemma LeadingZerosUnique(value: seq<byte>, n: nat)
    requires n <= |value|
    requires forall i :: 0 <= i < n ==> value[i] == 0
    requires n < |value| ==> value[n] != 0
    ensures n == LeadingZeros(value)
  {
    var m := LeadingZeros(value);
    assert forall i :: 0 <= i < m ==> value[..m][i] == value[i];
  }

  function PushOf(value: Bytes32): (i: Instr)
    ensures i.Push? && i.value == value
    ensures value[..32 - ImmLen(i.width)] == Zeros(32 - ImmLen(i.width))
    ensures i.width != PUSH0 ==> value[32 - ImmLen(i.width)] != 0
  {
    var n := 32 - LeadingZeros(value);
    Push(PUSH0 + n, value)
  }

  function PushNat(v: nat): Instr {
    PushOf(ToBytes(v, 32))
  }

  // PUSH0 is the push of zero.
  const PUSH_ZERO: Instr := Push(PUSH0, Zeros(32))

  // ---------- structural lemmas ----------

  lemma {:induction false} OffsetMono(prog: seq<Instr>, j: nat, k: nat)
    requires j <= k <= |prog|
    ensures Offset(prog, j) <= Offset(prog, k)
  {
    if j < k {
      OffsetMono(prog, j, k - 1);
    }
  }

  ghost predicate ArePieces(prog: seq<Instr>, labels: map<LabelID, nat>, pieces: seq<seq<byte>>) {
    |pieces| == |prog| && forall i :: 0 <= i < |prog| ==> pieces[i] == Encode(prog[i], labels)
  }

  ghost function Pieces(prog: seq<Instr>, labels: map<LabelID, nat>): (pieces: seq<seq<byte>>)
    ensures ArePieces(prog, labels, pieces)
  {
    seq(|prog|, i requires 0 <= i < |prog| => Encode(prog[i], labels))
  }

  lemma {:induction false} EncodeIsFlat(prog: seq<Instr>, labels: map<LabelID, nat>, pieces: seq<seq<byte>>, k: nat)
    requires k <= |prog| && ArePieces(prog, labels, pieces)
    ensures EncodeUpTo(prog, labels, k) == Flat(pieces, k)
  {
    if k > 0 {
      EncodeIsFlat(prog, labels, pieces, k - 1);
      EncodeStep(prog, labels, k, pieces[k - 1]);
      FlatStep(pieces, k, EncodeUpTo(prog, labels, k - 1), pieces[k - 1]);
    }
  }

  lemma EncodeStep(prog: seq<Instr>, labels: map<LabelID, nat>, k: nat, piece: seq<byte>)
    requires 0 < k <= |prog| && piece == Encode(prog[k - 1], labels)
    ensures EncodeUpTo(prog, labels, k) == EncodeUpTo(prog, labels, k - 1) + piece
  {
  }

  // The bytes of instruction j stand between the offsets of j and j + 1.
  lemma EncodedAt(prog: seq<Instr>, labels: map<LabelID, nat>, j: nat, k: nat)
    requires j < k <= |prog|
    ensures Offset(prog, j + 1) <= Offset(prog, k)
    ensures EncodeUpTo(prog, labels, k)[Offset(prog, j)..Offset(prog, j + 1)] == Encode(prog[j], labels)
  {
    var pieces := Pieces(prog, labels);
    EncodeIsFlat(prog, labels, pieces, j);
    EncodeIsFlat(prog, labels, pieces, k);
    FlatAt(pieces, j, k);
    var lo, hi, piece := Offset(prog, j), Offset(prog, j + 1), Encode(prog[j], labels);
    assert hi == lo + |piece|;
    assert Flat(pieces, k)[lo..hi] == piece;
  }

  lemma {:induction false} LabelsUpToDefined(prog: seq<Instr>, k: nat, l: LabelID)
    requires k <= |prog|
    ensures l in LabelsUpTo(prog, k) <==> LabelDef(l) in prog[..k]
    ensures l in LabelsUpTo(prog, k) ==>
      exists j :: 0 <= j < k && prog[j] == LabelDef(l) && LabelsUpTo(prog, k)[l] == Offset(prog, j)
  {
    if k > 0 {
      LabelsUpToDefined(prog, k - 1, l);
      assert prog[..k] == prog[..k - 1] + [prog[k - 1]];
    }
  }

  // ---------- the value a push leaves, and why no shorter push can ----------

  lemma PushImmediate(value: Bytes32)
    ensures FromBytes(PushOf(value).value[32 - ImmLen(PushOf(value).width)..]) == FromBytes(value)
  {
    var z := 32 - ImmLen(PushOf(value).width);
    assert value == Zeros(z) + value[z..];
    FromBytesConcat(Zeros(z), value[z..]);
    FromBytesZeros(z);
  }

  lemma LeadingByte(s: seq<byte>)
    requires s != [] && s[0] != 0
    ensures FromBytes(s) >= Pow256(|s| - 1)
  {
    FromBytesConcat([s[0]], s[1..]);
    assert s == [s[0]] + s[1..];
    OneByte(s[0]);
    Scales(s[0], Pow256(|s| - 1));
  }

  lemma OneByte(b: byte)
    ensures FromBytes([b]) == b
  {
    assert [b][..0] == [];
    assert FromBytes([]) == 0;
  }

  lemma Scales(x: nat, p: nat)
    requires x >= 1
    ensures x * p >= p
  {
    assert x * p == p + (x - 1) * p;
  }

  // Push encoding round trip: the immediate of PushNat(v) reads back as v, and every byte string that
  // reads as v is at least that long.
  lemma PushRoundTrip(v: Word, shorter: seq<byte>)
    ensures Encode(PushNat(v), map[])[0] == PushNat(v).width
    ensures FromBytes(Encode(PushNat(v), map[])[1..]) == v
    ensures FromBytes(shorter) == v ==> |shorter| >= ImmLen(PushNat(v).width)
  {
    var i := PushNat(v);
    var imm := i.value[32 - ImmLen(i.width)..];
    assert Encode(i, map[])[1..] == imm;
    PushValue(v);
    if FromBytes(shorter) == v {
      ShortestPush(imm, shorter);
    }
  }

  lemma PushValue(v: Word)
    ensures FromBytes(PushNat(v).value[32 - ImmLen(PushNat(v).width)..]) == v
  {
    WordBytes(v);
    PushImmediate(ToBytes(v, 32));
  }

  lemma ShortestPush(imm: seq<byte>, shorter: seq<byte>)
    requires imm != [] ==> imm[0] != 0
    requires FromBytes(imm) == FromBytes(shorter)
    ensures |shorter| >= |imm|
  {
    FromBytesBound(shorter);
    if imm != [] {
      LeadingByte(imm);
      PowMono(|shorter|, |imm| - 1);
    }
  }

  lemma {:induction false} ToBytesSplit(v: nat, a: nat, b: nat)
    ensures ToBytes(v, a + b) == ToBytes(Shift(v, b), a) + ToBytes(v, b)
  {
    if b == 0 {
      assert ToBytes(v, b) == [];
    } else {
      ToBytesSplit(v / 256, a, b - 1);
      Assoc(ToBytes(Shift(v, b), a), ToBytes(v / 256, b - 1), [v % 256]);
    }
  }

  lemma ShiftChunk(v: nat)
    ensures Shift(v, 4) == v / 0x1_0000_0000
    ensures Shift(v, 8) == v / 0x1_0000_0000_0000_0000
  {
    ShiftFour(v);
    ShiftFour(v / 0x1_0000_0000);
    ShiftAdd(v, 4, 4);
  }

  lemma ShiftFour(v: nat)
    ensures Shift(v, 4) == v / 0x1_0000_0000
  {
    assert Shift(v, 4) == Shift(v / 256, 3) == Shift(v / 256 / 256, 2);
    assert Shift(v / 256 / 256, 2) == Shift(v / 256 / 256 / 256, 1) == Shift(v / 256 / 256 / 256 / 256, 0);
  }

  lemma EightBytes(c: nat)
    ensures ToBytes(c, 8)
         == [c / 0x100_0000_0000_0000 % 256, c / 0x1_0000_0000_0000 % 256, c / 0x100_0000_0000 % 256,
             c / 0x1_0000_0000 % 256, c / 0x100_0000 % 256, c / 0x1_0000 % 256, c / 0x100 % 256, c % 256]
  {
    var d := c / 0x1_0000_0000;
    FourBytes(c);
    FourBytes(d);
    ShiftFour(c);
    ToBytesSplit(c, 4, 4);
    assert d / 0x100_0000 == c / 0x100_0000_0000_0000 && d / 0x1_0000 == c / 0x1_0000_0000_0000
        && d / 0x100 == c / 0x100_0000_0000;
  }

  lemma FourBytes(c: nat)
    ensures ToBytes(c, 4) == [c / 0x100_0000 % 256, c / 0x1_0000 % 256, c / 0x100 % 256, c % 256]
  {
    var c1 := c / 256;
    var c2 := c1 / 256;
    var c3 := c2 / 256;
    TwoLow(c3, c2);
    LowByte(c1, 2);
    LowByte(c, 3);
    assert c2 == c / 0x1_0000 && c3 == c / 0x100_0000;
  }

  lemma LowByte(v: nat, n: nat)
    ensures ToBytes(v, n + 1) == ToBytes(v / 256, n) + [v % 256]
  {
  }

  lemma TwoLow(high: nat, v: nat)
    requires high == v / 256
    ensures ToBytes(v, 2) == [high % 256, v % 256]
  {
    LowByte(v, 1);
    LowByte(high, 0);
    assert ToBytes(high / 256, 0) == [];
  }

  lemma {:induction false} ToBytesZero(n: nat)
    ensures ToBytes(0, n) == Zeros(n)
  {
    if n > 0 {
      ToBytesZero(n - 1);
      assert Zeros(n) == Zeros(n - 1) + [0];
    }
  }

  lemma PushZeroIsPush(v: nat)
    requires v == 0
    ensures PushNat(v) == PUSH_ZERO
  {
    ToBytesZero(32);
    LeadingZerosUnique(Zeros(32), 32);
  }

  lemma Uint32Bytes(v: uint32)
    ensures ToBytes(v, 32)
         == Zeros(28) + [v / 0x100_0000 % 256, v / 0x1_0000 % 256, v / 0x100 % 256, v % 256]
  {
    ShiftFour(v);
    assert Shift(v, 4) == 0;
    calc {
      ToBytes(v, 32);
      ToBytes(v, 28 + 4);
      { ToBytesSplit(v, 28, 4); }
      ToBytes(0, 28) + ToBytes(v, 4);
      { ToBytesZero(28); FourBytes(v); }
      Zeros(28) + [v / 0x100_0000 % 256, v / 0x1_0000 % 256, v / 0x100 % 256, v % 256];
    }
  }

  lemma PushOneByte(v: uint32)
    requires 0 < v < 256
    ensures PushNat(v) == Push(PUSH1, Zeros(31) + [v])
  {
    OneByteWord(v, 31);
    LeadingZerosUnique(Zeros(31) + [v], 31);
  }

  lemma OneByteWord(v: nat, n: nat)
    requires v < 256
    ensures ToBytes(v, n + 1) == Zeros(n) + [v]
  {
    ToBytesZero(n);
    assert v / 256 == 0 && v % 256 == v;
  }

  // ---------- the stream ----------

  // Positions of the PUSH2 operands to patch in the code of the first k instructions.
  ghost function Sites(prog: seq<Instr>, k: nat): seq<(nat, LabelID)>
    requires k <= |prog|
  {
    if k == 0 then []
    else if prog[k - 1].LabelRef? then Sites(prog, k - 1) + [(Offset(prog, k - 1) + 1, prog[k - 1].id)]
    else Sites(prog, k - 1)
  }

  lemma {:induction false} SitesPrefix(prog: seq<Instr>, j: nat, k: nat)
    requires j <= k <= |prog|
    ensures Sites(prog, j) <= Sites(prog, k)
  {
    if j < k {
      SitesPrefix(prog, j, k - 1);
    }
  }

  // The pieces of code in which only the first `done` instructions carry their final bytes.
  ghost predicate HalfPatched(prog: seq<Instr>, labels: map<LabelID, nat>, done: nat, pieces: seq<seq<byte>>) {
    && |pieces| == |prog|
    && forall i :: 0 <= i < |prog| ==> pieces[i] == Encode(prog[i], if i < done then labels else map[])
  }

  lemma {:induction false} HalfPatchedSize(prog: seq<Instr>, labels: map<LabelID, nat>, done: nat,
                                           pieces: seq<seq<byte>>, k: nat)
    requires k <= |prog| && HalfPatched(prog, labels, done, pieces)
    ensures |Flat(pieces, k)| == Offset(prog, k)
  {
    if k > 0 {
      HalfPatchedSize(prog, labels, done, pieces, k - 1);
    }
  }

  ghost predicate RefsDefinedUpTo(prog: seq<Instr>, labels: map<LabelID, nat>, n: nat)
    requires n <= |prog|
  {
    forall k :: 0 <= k < n && prog[k].LabelRef? ==> prog[k].id in labels
  }

  lemma PatchedNonRef(prog: seq<Instr>, labels: map<LabelID, nat>, done: nat, pieces: seq<seq<byte>>)
    requires done < |prog| && !prog[done].LabelRef?
    requires HalfPatched(prog, labels, done, pieces)
    ensures HalfPatched(prog, labels, done + 1, pieces)
  {
    assert pieces[done] == Encode(prog[done], labels);
  }

  // Instructions other than references look the same before and after patching, so the boundary can
  // move to the next reference, whose site is the next one in the list.
  lemma {:induction false} NextRef(prog: seq<Instr>, labels: map<LabelID, nat>, done: nat, pieces: seq<seq<byte>>)
    returns (next: nat)
    requires done <= |prog| && HalfPatched(prog, labels, done, pieces)
    requires RefsDefinedUpTo(prog, labels, done)
    ensures done <= next <= |prog| && RefsDefinedUpTo(prog, labels, next)
    ensures HalfPatched(prog, labels, next, pieces)
    ensures Sites(prog, done) == Sites(prog, next)
    ensures next < |prog| ==> prog[next].LabelRef? && Sites(prog, next + 1) <= Sites(prog, |prog|)
    decreases |prog| - done
  {
    if done == |prog| {
      next := done;
    } else if prog[done].LabelRef? {
      next := done;
      SitesPrefix(prog, done + 1, |prog|);
    } else {
      PatchedNonRef(prog, labels, done, pieces);
      next := NextRef(prog, labels, done + 1, pieces);
    }
  }

  // Writing the two address bytes of reference `done` completes its piece.
  lemma PatchSite(prog: seq<Instr>, labels: map<LabelID, nat>, done: nat, pieces: seq<seq<byte>>)
    returns (pieces': seq<seq<byte>>)
    requires done < |prog| && prog[done].LabelRef? && prog[done].id in labels
    requires HalfPatched(prog, labels, done, pieces)
    ensures HalfPatched(prog, labels, done + 1, pieces')
    ensures Offset(prog, done) + 2 < |Flat(pieces, |prog|)|
    ensures var site, a := Offset(prog, done) + 1, Address(labels, prog[done].id);
      Flat(pieces, |prog|)[site := a[0]][site + 1 := a[1]] == Flat(pieces', |prog|)
  {
    var a := Address(labels, prog[done].id);
    HalfPatchedSize(prog, labels, done, pieces, done);
    assert pieces[done] == [PUSH2, 0, 0];
    FlatUpdateTwo(pieces, done, a[0], a[1], |prog|);
    pieces' := pieces[done := [PUSH2, a[0], a[1]]];
  }

  // What the first pass has recorded after k instructions.
  ghost predicate LaidOut(prog: seq<Instr>, k: nat, bytecode: seq<byte>, labels: map<LabelID, nat>,
                          sites: seq<(nat, LabelID)>)
  {
    && k <= |prog|
    && bytecode == EncodeUpTo(prog, map[], k)
    && labels == LabelsUpTo(prog, k)
    && sites == Sites(prog, k)
  }

  lemma LayoutStep(prog: seq<Instr>, k: nat, bytecode: seq<byte>, labels: map<LabelID, nat>,
                   sites: seq<(nat, LabelID)>, bytecode': seq<byte>, labels': map<LabelID, nat>,
                   sites': seq<(nat, LabelID)>)
    requires LaidOut(prog, k, bytecode, labels, sites) && k < |prog|
    requires bytecode' == bytecode + Encode(prog[k], map[])
    requires labels' == if prog[k].LabelDef? then labels[prog[k].id := |bytecode|] else labels
    requires sites' == if prog[k].LabelRef? then sites + [(|bytecode| + 1, prog[k].id)] else sites
    ensures LaidOut(prog, k + 1, bytecode', labels', sites')
  {
  }

  // The state of the second pass after j patches.
  ghost predicate Patching(prog: seq<Instr>, labels: map<LabelID, nat>, j: nat, done: nat, pieces: seq<seq<byte>>) {
    && done <= |prog|
    && j == |Sites(prog, done)|
    && (done < |prog| ==> prog[done].LabelRef? && Sites(prog, done + 1) <= Sites(prog, |prog|))
    && HalfPatched(prog, labels, done, pieces)
    && RefsDefinedUpTo(prog, labels, done)
  }

  lemma NextSite(prog: seq<Instr>, labels: map<LabelID, nat>, j: nat, done: nat, pieces: seq<seq<byte>>)
    requires Patching(prog, labels, j, done, pieces)
    ensures j <= |Sites(prog, |prog|)|
    ensures j == |Sites(prog, |prog|)| <==> done == |prog|
    ensures done < |prog| ==> Sites(prog, |prog|)[j] == (Offset(prog, done) + 1, prog[done].id)
  {
    if done < |prog| {
      assert Sites(prog, done + 1)[j] == (Offset(prog, done) + 1, prog[done].id);
    }
  }

  lemma PatchStep(prog: seq<Instr>, labels: map<LabelID, nat>, j: nat, done: nat, pieces: seq<seq<byte>>)
    returns (done': nat, pieces': seq<seq<byte>>)
    requires Patching(prog, labels, j, done, pieces)
    requires done < |prog| && prog[done].id in labels
    ensures Patching(prog, labels, j + 1, done', pieces')
    ensures Offset(prog, done) + 2 < |Flat(pieces, |prog|)|
    ensures var site, a := Offset(prog, done) + 1, Address(labels, prog[done].id);
      Flat(pieces, |prog|)[site := a[0]][site + 1 := a[1]] == Flat(pieces', |prog|)
  {
    pieces' := PatchSite(prog, labels, done, pieces);
    SitePassed(prog, labels, j, done, done + 1);
    done' := NextRef(prog, labels, done + 1, pieces');
  }

  lemma SitePassed(prog: seq<Instr>, labels: map<LabelID, nat>, j: nat, done: nat, next: nat)
    requires done < |prog| && next == done + 1 && prog[done].LabelRef? && prog[done].id in labels
    requires j == |Sites(prog, done)| && RefsDefinedUpTo(prog, labels, done)
    ensures |Sites(prog, next)| == j + 1 && RefsDefinedUpTo(prog, labels, next)
  {
  }

  lemma EightBytesAt(before: seq<byte>, after: seq<byte>, base: nat, chunk: nat)
    requires base + 8 <= |before| == |after|
    requires forall k :: 0 <= k < |before| && !(base <= k < base + 8) ==> after[k] == before[k]
    requires after[base..base + 8] == ToBytes(chunk, 8)
    ensures after[base..] == ToBytes(chunk, 8) + before[base + 8..]
  {
  }

  class BytecodeStream {
    var instructions: seq<Instr>
    var nextLabelID: LabelID

    constructor ()
      ensures instructions == [] && nextLabelID == 0
    {
      instructions := [];
      nextLabelID := 0;
    }

    method Emit(opcode: byte)
      modifies this`instructions
      ensures instructions == old(instructions) + [Op(opcode)]
    {
      instructions := instructions + [Op(opcode)];
    }

    method EmitPushBytes(value: array<byte>)
      requires value.Length == 32
      modifies this`instructions
      ensures instructions == old(instructions) + [PushOf(value[..])]
    {
      var leadingZeros := 0;
      while leadingZeros < 32 && value[leadingZeros] == 0
        invariant 0 <= leadingZeros <= 32
        invariant forall i :: 0 <= i < leadingZeros ==> value[i] == 0
      {
        leadingZeros := leadingZeros + 1;
      }
      var numBytes := 32 - leadingZeros;
      var opcode: byte := if numBytes == 0 then PUSH0 else PUSH1 + (numBytes - 1);
      LeadingZerosUnique(value[..], leadingZeros);
      instructions := instructions + [Push(opcode, value[..])];
    }

    method EmitPush(value: uint32)
      modifies this`instructions
      ensures instructions == old(instructions) + [PushNat(value)]
    {
      var bytes := new byte[32](_ => 0);
      bytes[28] := value / 0x100_0000 % 256;
      bytes[29] := value / 0x1_0000 % 256;
      bytes[30] := value / 0x100 % 256;
      bytes[31] := value % 256;
      Uint32Bytes(value);
      ghost var word := bytes[..];
      assert word == ToBytes(value, 32);
      EmitPushBytes(bytes);
      assert bytes[..] == word;
    }

    // The low 256 bits of an integer of that width or more are copied out in four 64-bit chunks, least
    // significant first. Narrower integers have no such chunks.
    method EmitPushWord(value: nat)
      modifies this`instructions
      ensures instructions == old(instructions) + [PushNat(value)]
    {
      var bytes := new byte[32](_ => 0);
      var i := 0;
      var shifted: nat := value;
      while i < 4
        invariant 0 <= i <= 4
        invariant instructions == old(instructions)
        invariant shifted == Shift(value, 8 * i)
        invariant bytes[32 - 8 * i..] == ToBytes(value, 8 * i)
      {
        var chunk := shifted % 0x1_0000_0000_0000_0000;
        NextChunk(value, 8 * i, shifted, chunk);
        PutChunk(bytes, 24 - i * 8, chunk);
        i := i + 1;
        shifted := shifted / 0x1_0000_0000_0000_0000;
      }
      ghost var word := bytes[..];
      assert word == bytes[0..] == ToBytes(value, 32);
      EmitPushBytes(bytes);
      assert bytes[..] == word;
    }

    static method PutChunk(bytes: array<byte>, base: nat, chunk: nat)
      requires base + 8 <= bytes.Length
      modifies bytes
      ensures bytes[base..] == ToBytes(chunk, 8) + old(bytes[base + 8..])
    {
      ghost var before := bytes[..];
      bytes[base] := chunk / 0x100_0000_0000_0000 % 256;
      bytes[base + 1] := chunk / 0x1_0000_0000_0000 % 256;
      bytes[base + 2] := chunk / 0x100_0000_0000 % 256;
      bytes[base + 3] := chunk / 0x1_0000_0000 % 256;
      bytes[base + 4] := chunk / 0x100_0000 % 256;
      bytes[base + 5] := chunk / 0x1_0000 % 256;
      bytes[base + 6] := chunk / 0x100 % 256;
      bytes[base + 7] := chunk % 256;
      EightBytes(chunk);
      assert bytes[..][base..base + 8] == ToBytes(chunk, 8);
      EightBytesAt(before, bytes[..], base, chunk);
      assert bytes[..][base..] == bytes[base..];
    }

    // The 16-bit counter wraps around.
    method CreateLabel() returns (l: LabelID)
      modifies this`nextLabelID
      ensures l == old(nextLabelID) && nextLabelID == Increment(l)
    {
      l := nextLabelID;
      nextLabelID := if nextLabelID == 0xFFFF then 0 else nextLabelID + 1;
    }

    method EmitJumpTarget(id: LabelID)
      modifies this`instructions
      ensures instructions == old(instructions) + [LabelRef(id)]
    {
      instructions := instructions + [LabelRef(id)];
    }

    method DefineLabel(id: LabelID)
      modifies this`instructions
      ensures instructions == old(instructions) + [LabelDef(id)]
    {
      instructions := instructions + [LabelDef(id)];
    }

    // First pass: lay the instructions out with zero operands for label references.
    method Layout() returns (bytecode: seq<byte>, labelOffsets: map<LabelID, nat>,
                             patchSites: seq<(nat, LabelID)>)
      ensures LaidOut(instructions, |instructions|, bytecode, labelOffsets, patchSites)
    {
      bytecode, labelOffsets, patchSites := [], map[], [];
      ghost var prog := instructions;
      var i := 0;
      while i < |instructions|
        invariant 0 <= i <= |prog|
        invariant LaidOut(prog, i, bytecode, labelOffsets, patchSites)
      {
        ghost var before, labels, sites := bytecode, labelOffsets, patchSites;
        bytecode, labelOffsets, patchSites := LayoutOne(instructions[i], bytecode, labelOffsets, patchSites);
        LayoutStep(prog, i, before, labels, sites, bytecode, labelOffsets, patchSites);
        i := i + 1;
      }
    }

    static method LayoutOne(instr: Instr, bytecode: seq<byte>, labelOffsets: map<LabelID, nat>,
                            patchSites: seq<(nat, LabelID)>)
      returns (bytecode': seq<byte>, labelOffsets': map<LabelID, nat>, patchSites': seq<(nat, LabelID)>)
      ensures bytecode' == bytecode + Encode(instr, map[])
      ensures labelOffsets' == if instr.LabelDef? then labelOffsets[instr.id := |bytecode|] else labelOffsets
      ensures patchSites' == if instr.LabelRef? then patchSites + [(|bytecode| + 1, instr.id)] else patchSites
    {
      bytecode', labelOffsets', patchSites' := bytecode, labelOffsets, patchSites;
      match instr {
        case Op(c) =>
          bytecode' := bytecode' + [c];
        case Push(c, v) =>
          bytecode' := bytecode' + [c];
          if c != PUSH0 {
            var numBytes := c - PUSH1 + 1;
            bytecode' := bytecode' + v[32 - numBytes..];
          }
        case LabelRef(l) =>
          bytecode' := bytecode' + [PUSH2];
          patchSites' := patchSites' + [(|bytecode'|, l)];
          bytecode' := bytecode' + [0, 0];
        case LabelDef(l) =>
          labelOffsets' := labelOffsets'[l := |bytecode'|];
      }
    }

    // Second pass: patch the operands. The lookup of an undefined label is the only failure.
    method Finalize() returns (r: Result<seq<byte>, LabelID>)
      ensures r.Ok? <==> RefsDefined(instructions)
      ensures r.Ok? ==> r.value == Assembled(instructions)
      ensures r.Err? ==> LabelRef(r.error) in instructions && LabelDef(r.error) !in instructions
    {
      var bytecode, labelOffsets, patchSites := Layout();
      // `done` instructions already carry their final bytes.
      ghost var prog, n := instructions, |instructions|;
      ghost var pieces := Pieces(prog, map[]);
      EncodeIsFlat(prog, map[], pieces, n);
      ghost var done := NextRef(prog, labelOffsets, 0, pieces);
      NextSite(prog, labelOffsets, 0, done, pieces);
      var j := 0;
      while j < |patchSites|
        invariant Patching(prog, labelOffsets, j, done, pieces)
        invariant 0 <= j <= |patchSites| && (j == |patchSites| <==> done == n)
        invariant j < |patchSites| ==> patchSites[j] == (Offset(prog, done) + 1, prog[done].id)
        invariant bytecode == Flat(pieces, n)
      {
        var (site, id) := patchSites[j];
        if id !in labelOffsets {
          LabelsUpToDefined(prog, n, id);
          assert prog[..n] == prog;
          return Err(id);
        }
        ghost var done', pieces' := PatchStep(prog, labelOffsets, j, done, pieces);
        var offset := labelOffsets[id];
        bytecode := bytecode[site := (offset / 256) % 256];
        bytecode := bytecode[site + 1 := offset % 256];
        done, pieces, j := done', pieces', j + 1;
        NextSite(prog, labelOffsets, j, done, pieces);
      }
      EncodeIsFlat(prog, labelOffsets, pieces, n);
      r := Ok(bytecode);
    }
  }

  // Of a wider integer the low 256 bits are pushed.
  lemma PushLow(low: Word, high: nat, v: nat)
    requires v == low + high * WORD_LIMIT
    ensures PushNat(v) == PushNat(low)
  {
    WordLimitIsPow();
    LowBytes(low, high, 32, WORD_LIMIT, v);
  }

  lemma LowBytes(low: nat, high: nat, n: nat, limit: nat, v: nat)
    requires limit == Pow256(n) && v == low + high * limit
    ensures ToBytes(v, n) == ToBytes(low, n)
  {
    ToBytesLow(low, high, n);
  }

  // The next eight bytes of the word are those of the chunk, and the bytes already written follow.
  lemma NextChunk(value: nat, n: nat, shifted: nat, chunk: nat)
    requires shifted == Shift(value, n)
    requires chunk == shifted % 0x1_0000_0000_0000_0000
    ensures ToBytes(value, 8 + n) == ToBytes(chunk, 8) + ToBytes(value, n)
    ensures shifted / 0x1_0000_0000_0000_0000 == Shift(value, 8 + n)
  {
    ShiftAdd(value, n, 8);
    ShiftChunk(shifted);
    calc {
      ToBytes(value, 8 + n);
      { ToBytesSplit(value, 8, n); }
      ToBytes(shifted, 8) + ToBytes(value, n);
      { ChunkBytes(shifted); }
      ToBytes(chunk, 8) + ToBytes(value, n);
    }
  }

  lemma ChunkBytes(v: nat)
    ensures ToBytes(v, 8) == ToBytes(v % 0x1_0000_0000_0000_0000, 8)
  {
    PowFour();
    PowAdd(4, 4);
    ToBytesLow(v % 0x1_0000_0000_0000_0000, v / 0x1_0000_0000_0000_0000, 8);
  }

  lemma {:induction false} ToBytesLow(v: nat, q: nat, n: nat)
    ensures ToBytes(v + q * Pow256(n), n) == ToBytes(v, n)
  {
    if n > 0 {
      var m := q * Pow256(n - 1);
      ToBytesLow(v / 256, q, n - 1);
      PullOut(q, Pow256(n - 1));
      AddMultiple(v, m);
    }
  }

  lemma PullOut(q: nat, p: nat)
    ensures q * (256 * p) == 256 * (q * p)
  {
  }

  lemma AddMultiple(v: nat, m: nat)
    ensures (v + 256 * m) / 256 == v / 256 + m && (v + 256 * m) % 256 == v % 256
  {
  }
}
