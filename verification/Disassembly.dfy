// Reading assembled bytes back: the linear decoder and the jump destination scan.

module Disassembly {
  import opened Sequences
  import opened Words
  import opened Opcodes
  import opened Bytecode
  import opened Machine

  datatype Insn = Insn(op: byte, imm: seq<byte>)

  // One instruction after the other; a truncated immediate is completed with zeros.
  function Decode(code: seq<byte>, i: nat): seq<Insn>
    decreases |code| - i
  {
    if i >= |code| then []
    else
      [Insn(code[i], Window(code, i + 1, ImmLen(code[i])))] + Decode(code, i + 1 + ImmLen(code[i]))
  }

  // The instruction the byte machine sees at the offset of a non-definition.
  function InsnOf(i: Instr, labels: map<LabelID, nat>): (insn: Insn)
    requires !i.LabelDef?
    ensures |insn.imm| <= 32
  {
    match i
    case Op(c) => Insn(c, [])
    case Push(c, v) => Insn(c, v[32 - ImmLen(c)..])
    case LabelRef(l) => Insn(PUSH2, Address(labels, l))
  }

  // The instruction list from index k with label definitions erased and every label reference
  // replaced by a PUSH2 of its address.
  function Resolve(prog: seq<Instr>, labels: map<LabelID, nat>, k: nat): seq<Insn>
    requires k <= |prog|
    decreases |prog| - k
  {
    if k == |prog| then []
    else if prog[k].LabelDef? then Resolve(prog, labels, k + 1)
    else [InsnOf(prog[k], labels)] + Resolve(prog, labels, k + 1)
  }

  predicate NoBarePush(prog: seq<Instr>) {
    forall k :: 0 <= k < |prog| && prog[k].Op? ==> !IsImmediatePush(prog[k].code)
  }

  // `code` starts with the assembled program.
  ghost predicate StartsWith(code: seq<byte>, prog: seq<Instr>) {
    Assembled(prog) <= code
  }

  lemma BytesAt(prog: seq<Instr>, code: seq<byte>, k: nat)
    requires StartsWith(code, prog) && k < |prog|
    ensures Offset(prog, k + 1) == Offset(prog, k) + Size(prog[k]) <= Offset(prog, |prog|) <= |code|
    ensures code[Offset(prog, k)..Offset(prog, k + 1)] == Encode(prog[k], LabelOffsets(prog))
  {
    var a, lo, hi := Assembled(prog), Offset(prog, k), Offset(prog, k + 1);
    EncodedAt(prog, LabelOffsets(prog), k, |prog|);
    assert code[lo..hi] == code[..|a|][lo..hi];
  }

  lemma InsnAt(prog: seq<Instr>, code: seq<byte>, k: nat)
    requires StartsWith(code, prog) && NoBarePush(prog) && k < |prog| && !prog[k].LabelDef?
    ensures var at, insn := Offset(prog, k), InsnOf(prog[k], LabelOffsets(prog));
      && at < |code| && code[at] == insn.op
      && |insn.imm| == ImmLen(insn.op)
      && at + 1 + ImmLen(insn.op) == Offset(prog, k + 1)
      && Window(code, at + 1, ImmLen(insn.op)) == insn.imm
  {
    var at, insn := Offset(prog, k), InsnOf(prog[k], LabelOffsets(prog));
    BytesAt(prog, code, k);
    EncodeInsn(prog[k], LabelOffsets(prog));
    WindowAt(code, at, insn.op, insn.imm);
  }

  lemma EncodeInsn(i: Instr, labels: map<LabelID, nat>)
    requires !i.LabelDef?
    ensures var insn := InsnOf(i, labels);
      && Encode(i, labels) == [insn.op] + insn.imm
      && (i.Op? || |insn.imm| == ImmLen(insn.op))
  {
  }

  lemma WindowAt(code: seq<byte>, at: nat, op: byte, imm: seq<byte>)
    requires at + 1 + |imm| <= |code|
    requires code[at..at + 1 + |imm|] == [op] + imm
    ensures code[at] == op && Window(code, at + 1, |imm|) == imm
  {
    var piece := code[at..at + 1 + |imm|];
    assert piece[0] == code[at];
    assert forall j :: 0 <= j < |imm| ==> code[at + 1 + j] == piece[1 + j] == imm[j];
  }

  // Assemble/disassemble round trip.
  lemma {:induction false} DecodeFrom(prog: seq<Instr>, code: seq<byte>, k: nat)
    requires StartsWith(code, prog) && NoBarePush(prog) && k <= |prog|
    ensures Decode(code, Offset(prog, k))
         == Resolve(prog, LabelOffsets(prog), k) + Decode(code, Offset(prog, |prog|))
    decreases |prog| - k
  {
    if k < |prog| {
      DecodeFrom(prog, code, k + 1);
      if !prog[k].LabelDef? {
        InsnAt(prog, code, k);
        var insn := InsnOf(prog[k], LabelOffsets(prog));
        DecodeStep(code, Offset(prog, k), insn);
        Assoc([insn], Resolve(prog, LabelOffsets(prog), k + 1), Decode(code, Offset(prog, |prog|)));
      }
    }
  }

  lemma DecodeStep(code: seq<byte>, at: nat, insn: Insn)
    requires at < |code| && code[at] == insn.op
    requires Window(code, at + 1, ImmLen(insn.op)) == insn.imm
    ensures Decode(code, at) == [insn] + Decode(code, at + 1 + ImmLen(insn.op))
  {
  }

  // A decoder never yields an immediate of the wrong length, so a bare push opcode cannot survive.
  lemma {:induction false} DecodedLengths(code: seq<byte>, i: nat)
    ensures forall insn :: insn in Decode(code, i) ==> |insn.imm| == ImmLen(insn.op)
    decreases |code| - i
  {
    if i < |code| {
      DecodedLengths(code, i + 1 + ImmLen(code[i]));
    }
  }

  lemma {:induction false} ResolvedOps(prog: seq<Instr>, labels: map<LabelID, nat>, k: nat, j: nat)
    requires k <= j < |prog| && prog[j].Op?
    ensures Insn(prog[j].code, []) in Resolve(prog, labels, k)
    decreases j - k
  {
    if k < j {
      ResolvedOps(prog, labels, k + 1, j);
    }
  }

  lemma RoundTrip(prog: seq<Instr>)
    ensures Decode(Assembled(prog), 0) == Resolve(prog, LabelOffsets(prog), 0) <==> NoBarePush(prog)
  {
    var code, labels := Assembled(prog), LabelOffsets(prog);
    if NoBarePush(prog) {
      DecodeFrom(prog, code, 0);
      assert Decode(code, Offset(prog, |prog|)) == [];
    } else {
      var j :| 0 <= j < |prog| && prog[j].Op? && IsImmediatePush(prog[j].code);
      ResolvedOps(prog, labels, 0, j);
      DecodedLengths(code, 0);
    }
  }

  ghost predicate JumpDestAt(prog: seq<Instr>, k: nat, d: nat) {
    k < |prog| && prog[k] == Op(JUMPDEST) && Offset(prog, k) == d
  }

  // The valid destinations inside the assembled part are exactly the offsets of its JUMPDESTs.
  lemma {:induction false} DestsFrom(prog: seq<Instr>, code: seq<byte>, k: nat, d: nat)
    requires StartsWith(code, prog) && NoBarePush(prog) && k <= |prog|
    ensures ValidDest(code, Offset(prog, k), d) <==>
      (exists j :: k <= j && JumpDestAt(prog, j, d)) || ValidDest(code, Offset(prog, |prog|), d)
    decreases |prog| - k
  {
    if k < |prog| {
      DestsFrom(prog, code, k + 1, d);
      if prog[k].LabelDef? {
        assert Offset(prog, k + 1) == Offset(prog, k);
      } else {
        InsnAt(prog, code, k);
        assert ValidDest(code, Offset(prog, k), d)
          <==> JumpDestAt(prog, k, d) || ValidDest(code, Offset(prog, k + 1), d);
      }
    }
  }

  lemma {:induction false} DestsAfter(code: seq<byte>, i: nat, d: nat)
    requires d < i
    ensures !ValidDest(code, i, d)
    decreases |code| - i
  {
    if i < |code| {
      DestsAfter(code, i + 1 + ImmLen(code[i]), d);
    }
  }

  lemma DestsExact(prog: seq<Instr>, code: seq<byte>, d: nat)
    requires StartsWith(code, prog) && NoBarePush(prog)
    requires d < Offset(prog, |prog|) || code == Assembled(prog)
    ensures ValidDest(code, 0, d) <==> exists j :: JumpDestAt(prog, j, d)
  {
    DestsFrom(prog, code, 0, d);
    if d < Offset(prog, |prog|) {
      DestsAfter(code, Offset(prog, |prog|), d);
    }
  }
}
