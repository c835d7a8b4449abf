// Running fragments of a linked stream: one lemma per kind of instruction, and chains of steps.

module Fragments {
  import opened Wrappers
  import opened Words
  import opened Opcodes
  import opened Bytecode
  import opened Machine
  import opened Disassembly
  import opened Simulation

  // A stream in its environment, with the addresses its labels stand for. The runs below stay within
  // the first `bound` instructions until they end.
  datatype Linked = Linked(sem: Semantics, env: Env, prog: seq<Instr>, addr: map<LabelID, nat>, bound: nat)

  // The instructions mean what the EVM says they mean.
  ghost predicate Interprets(sem: Semantics, env: Env) {
    match env
    case Env(_, _, _, _) =>
      forall pc: nat, op: byte, imm: Imm, core: Core {:trigger Perform(env, pc, op, imm, core)} ::
        sem(pc, op, imm, core) == Perform(env, pc, op, imm, core)
  }

  function Target(c: Linked, l: LabelID): Option<nat> {
    if l in c.addr then FindTarget(c.prog, c.addr, c.addr[l], 0) else None
  }

  // Addresses fit PUSH2, every reference has one, and a label in front of a JUMPDEST leads there.
  ghost predicate Valid(c: Linked) {
    match c
    case Linked(sem, env, prog, addr, _) =>
      && Interprets(sem, env)
      && (forall l :: l in addr ==> addr[l] < 0x1_0000)
      && (forall k :: 0 <= k < |prog| && prog[k].LabelRef? ==> prog[k].id in addr)
      && (forall k :: 0 < k < |prog| && prog[k] == Op(JUMPDEST) && prog[k - 1].LabelDef? ==>
            Target(c, prog[k - 1].id) == Some(k))
  }

  // `frag` stands in the stream from index k on, within the bound.
  ghost predicate At(c: Linked, k: nat, frag: seq<Instr>) {
    match c
    case Linked(_, _, prog, _, bound) =>
      k + |frag| <= bound <= |prog| && forall i :: 0 <= i < |frag| ==> prog[k + i] == frag[i]
  }

  lemma Nth(c: Linked, k: nat, frag: seq<Instr>, i: nat)
    requires At(c, k, frag) && i < |frag|
    ensures k + i < c.bound <= |c.prog| && c.prog[k + i] == frag[i]
  {
  }

  lemma AtSplit(c: Linked, k: nat, a: seq<Instr>, b: seq<Instr>)
    requires At(c, k, a + b)
    ensures At(c, k, a) && At(c, k + |a|, b)
  {
    forall i | 0 <= i < |a| ensures c.prog[k + i] == a[i] {
      assert (a + b)[i] == a[i];
    }
    forall i | 0 <= i < |b| ensures c.prog[k + |a| + i] == b[i] {
      assert (a + b)[|a| + i] == b[i];
    }
  }

  function Next1(c: Linked, s: State): State {
    SymStep(c.sem, c.prog, c.addr, s)
  }

  // The next instruction is one of the first `bound`.
  predicate Within(c: Linked, s: State) {
    s.Running? && Skip(c.prog, s.pc) < c.bound
  }

  predicate WithinAfter(c: Linked, s: State, i: nat) {
    Within(c, SymRun(c.sem, c.prog, c.addr, s, i))
  }

  ghost predicate ReachesIn(c: Linked, s: State, t: State, n: nat) {
    && SymRun(c.sem, c.prog, c.addr, s, n) == t
    && forall i :: 0 <= i < n ==> WithinAfter(c, s, i)
  }

  // From s the run comes to t, and every state before t is within the bound.
  ghost predicate Reaches(c: Linked, s: State, t: State) {
    exists n: nat :: ReachesIn(c, s, t, n)
  }

  lemma Here(c: Linked, s: State)
    ensures Reaches(c, s, s)
  {
    assert ReachesIn(c, s, s, 0);
  }

  lemma Then(c: Linked, s: State, t: State, u: State)
    requires Reaches(c, s, t) && Reaches(c, t, u)
    ensures Reaches(c, s, u)
  {
    var a: nat :| ReachesIn(c, s, t, a);
    var b: nat :| ReachesIn(c, t, u, b);
    ThenIn(c, s, t, u, a, b);
  }

  lemma ThenIn(c: Linked, s: State, t: State, u: State, a: nat, b: nat)
    requires ReachesIn(c, s, t, a) && ReachesIn(c, t, u, b)
    ensures ReachesIn(c, s, u, a + b)
  {
    SymRunAdd(c.sem, c.prog, c.addr, s, a, b);
    forall i | 0 <= i < a + b ensures WithinAfter(c, s, i) {
      if i >= a {
        SymRunAdd(c.sem, c.prog, c.addr, s, a, i - a);
        assert WithinAfter(c, t, i - a);
      }
    }
  }

  lemma OneStep(c: Linked, s: State, t: State)
    requires Within(c, s) && Next1(c, s) == t
    ensures Reaches(c, s, t)
  {
    assert SymRun(c.sem, c.prog, c.addr, t, 0) == t;
    assert SymRun(c.sem, c.prog, c.addr, s, 1) == t;
    assert SymRun(c.sem, c.prog, c.addr, s, 0) == s;
    assert ReachesIn(c, s, t, 1);
  }

  lemma ThenStep(c: Linked, s: State, t: State, u: State)
    requires Reaches(c, s, t) && Within(c, t) && Next1(c, t) == u
    ensures Reaches(c, s, u)
  {
    OneStep(c, t, u);
    Then(c, s, t, u);
  }

  lemma TwoSteps(c: Linked, s: State, t: State, u: State)
    requires Within(c, s) && Within(c, t)
    requires Next1(c, s) == t && Next1(c, t) == u
    ensures Reaches(c, s, u)
  {
    OneStep(c, s, t);
    ThenStep(c, s, t, u);
  }

  // Linking by the assembler is one way to be valid.
  lemma LinkableIsValid(env: Env, prog: seq<Instr>, bound: nat)
    requires Linkable(prog)
    ensures Valid(Linked(Evm(env), env, prog, LabelOffsets(prog), bound))
  {
    var addr := LabelOffsets(prog);
    var c := Linked(Evm(env), env, prog, addr, bound);
    forall l | l in addr ensures addr[l] < 0x1_0000 {
      LabelsUpToDefined(prog, |prog|, l);
      var j :| 0 <= j < |prog| && prog[j] == LabelDef(l) && addr[l] == Offset(prog, j);
      OffsetMono(prog, j, |prog|);
    }
    forall k | 0 < k < |prog| && prog[k] == Op(JUMPDEST) && prog[k - 1].LabelDef?
      ensures Target(c, prog[k - 1].id) == Some(k)
    {
      LabelAddress(prog, k - 1);
      assert IsTarget(prog, addr, Offset(prog, k), k);
      var r := FindTarget(prog, addr, Offset(prog, k), 0);
      assert r.Some?;
      LabelAddress(prog, r.value - 1);
      SameDest(prog, r.value, k);
    }
  }

  // Linked by the assembler.
  ghost predicate Assembles(c: Linked) {
    Linkable(c.prog) && c.sem == Evm(c.env) && c.addr == LabelOffsets(c.prog) && c.bound <= |c.prog|
  }

  // What is reachable over the labels is reachable in the bytes, and until then the program counter
  // stays in front of the bound.
  lemma RunsInBytes(c: Linked, k: nat, core: Core, t: State) returns (n: nat)
    requires Assembles(c) && k <= |c.prog| && Reaches(c, Running(k, core), t)
    ensures InRange(c.prog, t)
    ensures Run(c.sem, Assembled(c.prog), Running(Offset(c.prog, k), core), n) == Concrete(c.prog, t)
    ensures forall i :: 0 <= i < n ==>
      InFront(Run(c.sem, Assembled(c.prog), Running(Offset(c.prog, k), core), i), Offset(c.prog, c.bound))
  {
    var s := Running(k, core);
    n :| ReachesIn(c, s, t, n);
    RunMatches(c.sem, c.prog, s, n);
    forall i | 0 <= i < n
      ensures InFront(Run(c.sem, Assembled(c.prog), Concrete(c.prog, s), i), Offset(c.prog, c.bound))
    {
      assert WithinAfter(c, s, i);
      RunMatches(c.sem, c.prog, s, i);
      WithinInFront(c, SymRun(c.sem, c.prog, c.addr, s, i));
    }
  }

  // The program counter is below `end`.
  predicate InFront(s: State, end: nat) {
    s.Running? && s.pc < end
  }

  lemma WithinInFront(c: Linked, s: State)
    requires c.bound <= |c.prog| && Within(c, s) && InRange(c.prog, s)
    ensures InFront(Concrete(c.prog, s), Offset(c.prog, c.bound))
  {
    var k := Skip(c.prog, s.pc);
    SkipOffset(c.prog, s.pc);
    OffsetMono(c.prog, k + 1, c.bound);
  }

  // Two JUMPDESTs at the same offset are the same instruction.
  lemma SameDest(prog: seq<Instr>, j: nat, k: nat)
    requires j < |prog| && k < |prog|
    requires prog[j] == Op(JUMPDEST) && prog[k] == Op(JUMPDEST)
    requires Offset(prog, j) == Offset(prog, k)
    ensures j == k
  {
    OffsetStrict(prog, j, k);
    OffsetStrict(prog, k, j);
  }

  lemma OffsetStrict(prog: seq<Instr>, j: nat, k: nat)
    requires j < |prog| && prog[j].Op? && k <= |prog|
    ensures j < k ==> Offset(prog, j) < Offset(prog, k)
  {
    if j < k {
      OffsetMono(prog, j + 1, k);
    }
  }

  // ---------- one instruction ----------

  function Ran(env: Env, op: byte, core: Core, stack: seq<Word>): Core {
    core.(stack := stack, spent := core.spent + env.gas(op))
  }

  lemma DoOp(c: Linked, k: nat, core: Core, op: byte, after: Core)
    requires Interprets(c.sem, c.env)
    requires k < |c.prog| && c.prog[k] == Op(op) && !IsImmediatePush(op)
    requires Perform(c.env, Offset(c.prog, k), op, [], core) == Fall(after)
    ensures Next1(c, Running(k, core)) == Running(k + 1, after)
  {
  }

  lemma DoHalt(c: Linked, k: nat, core: Core, op: byte, h: Halt)
    requires Interprets(c.sem, c.env)
    requires k < |c.prog| && c.prog[k] == Op(op) && !IsImmediatePush(op)
    requires Perform(c.env, Offset(c.prog, k), op, [], core) == End(h)
    ensures Next1(c, Running(k, core)) == Halted(h)
  {
  }

  lemma DoPush(c: Linked, k: nat, core: Core, v: Word)
    requires Interprets(c.sem, c.env)
    requires k < |c.prog| && c.prog[k] == PushNat(v)
    requires |core.stack| < STACK_LIMIT
    ensures Next1(c, Running(k, core)) == Running(k + 1, Ran(c.env, PushNat(v).width, core, [v] + core.stack))
  {
    PushValue(v);
    DoPushInstr(c, k, core, PushNat(v), v);
  }

  lemma DoPushInstr(c: Linked, k: nat, core: Core, i: Instr, v: Word)
    requires Interprets(c.sem, c.env)
    requires k < |c.prog| && c.prog[k] == i && i.Push?
    requires FromBytes(i.value[32 - ImmLen(i.width)..]) == v
    requires |core.stack| < STACK_LIMIT
    ensures Next1(c, Running(k, core)) == Running(k + 1, Ran(c.env, i.width, core, [v] + core.stack))
  {
    PushPerforms(c.env, Offset(c.prog, k), i.width, i.value[32 - ImmLen(i.width)..], core, v);
  }

  lemma DoPushZero(c: Linked, k: nat, core: Core)
    requires Interprets(c.sem, c.env)
    requires k < |c.prog| && c.prog[k] == PUSH_ZERO && |core.stack| < STACK_LIMIT
    ensures Next1(c, Running(k, core)) == Running(k + 1, Ran(c.env, PUSH0, core, [0 as Word] + core.stack))
  {
    assert PUSH_ZERO.value[32 - ImmLen(PUSH0)..] == [];
    DoPushInstr(c, k, core, PUSH_ZERO, 0);
  }

  lemma DoRef(c: Linked, k: nat, core: Core, l: LabelID)
    requires Interprets(c.sem, c.env)
    requires k < |c.prog| && c.prog[k] == LabelRef(l)
    requires l in c.addr && c.addr[l] < 0x1_0000
    requires |core.stack| < STACK_LIMIT
    ensures Next1(c, Running(k, core)) == Running(k + 1, Ran(c.env, PUSH2, core, [c.addr[l]] + core.stack))
  {
    var a := Address(c.addr, l);
    TwoBytes(a);
    PushPerforms(c.env, Offset(c.prog, k), PUSH2, a, core, c.addr[l]);
  }

  lemma PushPerforms(env: Env, pc: nat, op: PushCode, imm: Imm, core: Core, v: Word)
    requires FromBytes(imm) == v && |core.stack| < STACK_LIMIT
    ensures Perform(env, pc, op, imm, core) == Fall(Ran(env, op, core, [v] + core.stack))
  {
  }

  lemma TwoBytes(a: seq<byte>)
    requires |a| == 2
    ensures FromBytes(a) == 256 * (a[0] as int) + a[1] as int
  {
    assert a[..1][..0] == [];
    assert FromBytes([]) == 0;
    assert FromBytes(a[..1]) == a[0] as int;
  }

  // The two operand bytes of a label reference read back as its offset iff the offset is below 65536.
  lemma AddressFits(labels: map<LabelID, nat>, l: LabelID)
    requires l in labels
    ensures FromBytes(Address(labels, l)) == labels[l] <==> labels[l] < 0x1_0000
  {
    TwoBytes(Address(labels, l));
  }

  // The operand of reference k, in the assembled bytes, reads back as the offset of its label.
  ghost predicate OperandRight(prog: seq<Instr>, k: nat)
    requires k < |prog| && prog[k].LabelRef? && RefsDefined(prog)
  {
    var at := Offset(prog, k) + 1;
    && at + 2 <= |Assembled(prog)|
    && FromBytes(Assembled(prog)[at..at + 2]) == LabelOffsets(prog)[prog[k].id]
  }

  lemma OperandExact(prog: seq<Instr>, k: nat)
    requires k < |prog| && prog[k].LabelRef? && RefsDefined(prog)
    ensures OperandRight(prog, k) <==> LabelOffsets(prog)[prog[k].id] < 0x1_0000
  {
    var labels, at := LabelOffsets(prog), Offset(prog, k);
    BytesAt(prog, Assembled(prog), k);
    assert Assembled(prog)[at..at + 3] == [PUSH2] + Address(labels, prog[k].id);
    assert Assembled(prog)[at + 1..at + 3] == Assembled(prog)[at..at + 3][1..];
    AddressFits(labels, prog[k].id);
  }

  // Every operand of a stream is right iff every label referred to lies below 65536; a stream of fewer
  // bytes has no other labels.
  lemma OperandsExact(prog: seq<Instr>)
    requires RefsDefined(prog)
    ensures (forall k :: 0 <= k < |prog| && prog[k].LabelRef? ==> OperandRight(prog, k))
       <==> (forall k :: 0 <= k < |prog| && prog[k].LabelRef? ==> LabelOffsets(prog)[prog[k].id] < 0x1_0000)
    ensures |Assembled(prog)| < 0x1_0000 ==>
      forall k :: 0 <= k < |prog| && prog[k].LabelRef? ==> OperandRight(prog, k)
  {
    forall k | 0 <= k < |prog| && prog[k].LabelRef?
      ensures OperandRight(prog, k) <==> LabelOffsets(prog)[prog[k].id] < 0x1_0000
      ensures LabelOffsets(prog)[prog[k].id] <= |Assembled(prog)|
    {
      OperandExact(prog, k);
      LabelsUpToDefined(prog, |prog|, prog[k].id);
      var j :| 0 <= j < |prog| && LabelOffsets(prog)[prog[k].id] == Offset(prog, j);
      OffsetMono(prog, j, |prog|);
    }
  }

  // n times STOP, then a labelled JUMPDEST and a reference to it.
  function Far(n: nat): (prog: seq<Instr>)
    ensures |prog| == n + 3
  {
    seq(n, _ => Op(STOP)) + [LabelDef(0), Op(JUMPDEST), LabelRef(0)]
  }

  lemma {:induction false} FarOffset(n: nat, k: nat)
    requires k <= n
    ensures Offset(Far(n), k) == k && LabelsUpTo(Far(n), k) == map[]
  {
    if k > 0 {
      FarOffset(n, k - 1);
      assert Far(n)[k - 1] == Op(STOP);
    }
  }

  // From 65536 bytes on, the operand no longer leads to the label.
  lemma FarLabelWrong(n: nat)
    requires n >= 0x1_0000
    ensures RefsDefined(Far(n)) && !OperandRight(Far(n), n + 2)
  {
    var prog := Far(n);
    FarOffset(n, n);
    assert LabelsUpTo(prog, n + 1) == map[0 := n];
    assert LabelsUpTo(prog, n + 2) == LabelsUpTo(prog, n + 1);
    assert LabelOffsets(prog) == LabelsUpTo(prog, n + 2);
    OperandExact(prog, n + 2);
  }

  lemma DoJump(c: Linked, k: nat, core: Core, l: LabelID, rest: seq<Word>)
    requires Interprets(c.sem, c.env)
    requires k < |c.prog| && c.prog[k] == Op(JUMP)
    requires l in c.addr && c.addr[l] < 0x1_0000 && Target(c, l).Some?
    requires core.stack == [c.addr[l]] + rest
    ensures Next1(c, Running(k, core)) == Running(Target(c, l).value, Ran(c.env, JUMP, core, rest))
  {
    assert core.stack[1..] == rest;
    assert Perform(c.env, Offset(c.prog, k), JUMP, [], core) == Jump(c.addr[l], Ran(c.env, JUMP, core, rest));
  }

  lemma DoJumpI(c: Linked, k: nat, core: Core, l: LabelID, cond: bool, rest: seq<Word>)
    requires Interprets(c.sem, c.env)
    requires k < |c.prog| && c.prog[k] == Op(JUMPI)
    requires l in c.addr && c.addr[l] < 0x1_0000 && Target(c, l).Some?
    requires core.stack == [c.addr[l], Bool(cond)] + rest
    ensures Next1(c, Running(k, core)) ==
      Running(if cond then Target(c, l).value else k + 1, Ran(c.env, JUMPI, core, rest))
  {
    assert core.stack[2..] == rest;
    assert Perform(c.env, Offset(c.prog, k), JUMPI, [], core) ==
      if cond then Jump(c.addr[l], Ran(c.env, JUMPI, core, rest)) else Fall(Ran(c.env, JUMPI, core, rest));
  }
}
