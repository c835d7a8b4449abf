// The symbolic label machine, and the proof that assembled bytes run exactly as it does.

module Simulation {
  import opened Wrappers
  import opened Words
  import opened Opcodes
  import opened Bytecode
  import opened Machine
  import opened Disassembly

  // Label definitions take no step: the index of the next real instruction.
  function Skip(prog: seq<Instr>, k: nat): (j: nat)
    ensures k <= j && (k <= |prog| ==> j <= |prog|)
    ensures j < |prog| ==> !prog[j].LabelDef?
    decreases |prog| - k
  {
    if k < |prog| && prog[k].LabelDef? then Skip(prog, k + 1) else k
  }

  // A JUMPDEST right behind the definition of a label whose address is d.
  predicate IsTarget(prog: seq<Instr>, addr: map<LabelID, nat>, d: nat, k: nat) {
    && 0 < k < |prog|
    && prog[k] == Op(JUMPDEST)
    && prog[k - 1].LabelDef?
    && prog[k - 1].id in addr
    && addr[prog[k - 1].id] == d
  }

  function FindTarget(prog: seq<Instr>, addr: map<LabelID, nat>, d: nat, k: nat): (r: Option<nat>)
    ensures r.Some? ==> IsTarget(prog, addr, d, r.value)
    ensures r.None? ==> forall j :: k <= j ==> !IsTarget(prog, addr, d, j)
    decreases |prog| - k
  {
    if k >= |prog| then None
    else if IsTarget(prog, addr, d, k) then Some(k)
    else FindTarget(prog, addr, d, k + 1)
  }

  function SymJump(prog: seq<Instr>, addr: map<LabelID, nat>, d: nat, core: Core): State {
    match FindTarget(prog, addr, d, 0)
    case Some(k) => Running(k, core)
    case None => Halted(Failed)
  }

  function SymResume(prog: seq<Instr>, addr: map<LabelID, nat>, next: nat, action: Action): State {
    match action
    case Fall(core) => Running(next, core)
    case Jump(d, core) => SymJump(prog, addr, d, core)
    case End(h) => Halted(h)
  }

  // One step over the instruction list, where the program counter is an instruction index and `addr`
  // says which address stands for each label. Jumps go to labels only. A bare PUSH1..PUSH32 has no
  // symbolic meaning.
  function SymStep(sem: Semantics, prog: seq<Instr>, addr: map<LabelID, nat>, s: State): State {
    if s.Halted? then s
    else
      var k := Skip(prog, s.pc);
      if k >= |prog| then Halted(Stopped(s.core))
      else if prog[k].LabelRef? && prog[k].id !in addr then Halted(Failed)
      else if prog[k].Op? && IsImmediatePush(prog[k].code) then Halted(Failed)
      else
        var insn := InsnOf(prog[k], addr);
        SymResume(prog, addr, k + 1, sem(Offset(prog, k), insn.op, insn.imm, s.core))
  }

  function SymRun(sem: Semantics, prog: seq<Instr>, addr: map<LabelID, nat>, s: State, n: nat): State
    decreases n
  {
    if n == 0 then s else SymRun(sem, prog, addr, SymStep(sem, prog, addr, s), n - 1)
  }

  lemma {:induction false} SymRunAdd(sem: Semantics, prog: seq<Instr>, addr: map<LabelID, nat>, s: State,
                                     a: nat, b: nat)
    ensures SymRun(sem, prog, addr, s, a + b) == SymRun(sem, prog, addr, SymRun(sem, prog, addr, s, a), b)
    decreases a
  {
    if a > 0 {
      SymRunAdd(sem, prog, addr, SymStep(sem, prog, addr, s), a - 1, b);
    }
  }

  // ---------- what the assembler needs of a stream ----------

  ghost predicate UniqueDefs(prog: seq<Instr>) {
    forall j, k :: 0 <= j < k < |prog| && prog[j].LabelDef? && prog[k].LabelDef? ==> prog[j].id != prog[k].id
  }

  ghost predicate DestsLabelled(prog: seq<Instr>) {
    forall k :: 0 <= k < |prog| && prog[k] == Op(JUMPDEST) ==> k > 0 && prog[k - 1].LabelDef?
  }

  ghost predicate Linkable(prog: seq<Instr>) {
    && RefsDefined(prog)
    && NoBarePush(prog)
    && UniqueDefs(prog)
    && DestsLabelled(prog)
    && Offset(prog, |prog|) < 0x1_0000
  }

  // The byte-machine state that a symbolic state stands for.
  function Concrete(prog: seq<Instr>, s: State): State
    requires s.Running? ==> s.pc <= |prog|
  {
    match s
    case Running(k, core) => Running(Offset(prog, k), core)
    case Halted(h) => Halted(h)
  }

  predicate InRange(prog: seq<Instr>, s: State) {
    s.Running? ==> s.pc <= |prog|
  }

  lemma {:induction false} SkipOffset(prog: seq<Instr>, k: nat)
    requires k <= |prog|
    ensures Offset(prog, Skip(prog, k)) == Offset(prog, k)
    decreases |prog| - k
  {
    if k < |prog| && prog[k].LabelDef? {
      SkipOffset(prog, k + 1);
    }
  }

  lemma LabelAddress(prog: seq<Instr>, k: nat)
    requires UniqueDefs(prog) && Offset(prog, |prog|) < 0x1_0000
    requires k < |prog| && prog[k].LabelDef?
    ensures prog[k].id in LabelOffsets(prog) && LabelOffsets(prog)[prog[k].id] == Offset(prog, k)
  {
    var l := prog[k].id;
    LabelsUpToDefined(prog, |prog|, l);
    assert prog[..|prog|] == prog;
    assert LabelDef(l) in prog;
    OffsetMono(prog, k, |prog|);
  }

  // A jump is valid in the bytes iff it is valid over labels, and both land on the same JUMPDEST.
  lemma JumpMatches(prog: seq<Instr>, d: nat, core: Core)
    requires Linkable(prog)
    ensures InRange(prog, SymJump(prog, LabelOffsets(prog), d, core))
    ensures JumpTo(Assembled(prog), d, core) == Concrete(prog, SymJump(prog, LabelOffsets(prog), d, core))
  {
    var addr, code := LabelOffsets(prog), Assembled(prog);
    DestsExact(prog, code, d);
    match FindTarget(prog, addr, d, 0)
    case Some(k) =>
      LabelAddress(prog, k - 1);
      assert JumpDestAt(prog, k, d);
    case None =>
      forall j: nat ensures !JumpDestAt(prog, j, d) {
        if JumpDestAt(prog, j, d) {
          LabelAddress(prog, j - 1);
          assert IsTarget(prog, addr, d, j);
        }
      }
  }

  ghost predicate StaysInside(sem: Semantics, prog: seq<Instr>, at: nat, core: Core) {
    var k := Skip(prog, at);
    && k < |prog|
    && var insn := InsnOf(prog[k], LabelOffsets(prog));
      !sem(Offset(prog, k), insn.op, insn.imm, core).Jump?
  }

  lemma ResumeMatches(prog: seq<Instr>, code: seq<byte>, next: nat, action: Action)
    requires Linkable(prog) && next <= |prog|
    requires code == Assembled(prog) || !action.Jump?
    ensures InRange(prog, SymResume(prog, LabelOffsets(prog), next, action))
    ensures Resume(code, Offset(prog, next), action)
         == Concrete(prog, SymResume(prog, LabelOffsets(prog), next, action))
  {
    if action.Jump? {
      JumpMatches(prog, action.dest, action.core);
    }
  }

  // Lock step, whatever the instructions mean. With code behind the program (as in deployment) the
  // two machines agree as long as control neither jumps nor runs off the end.
  lemma StepMatches(sem: Semantics, prog: seq<Instr>, code: seq<byte>, s: State)
    requires Linkable(prog) && InRange(prog, s) && StartsWith(code, prog)
    requires code == Assembled(prog) || (s.Running? ==> StaysInside(sem, prog, s.pc, s.core))
    ensures InRange(prog, SymStep(sem, prog, LabelOffsets(prog), s))
    ensures Step(sem, code, Concrete(prog, s)) == Concrete(prog, SymStep(sem, prog, LabelOffsets(prog), s))
  {
    if s.Running? {
      var k := Skip(prog, s.pc);
      SkipOffset(prog, s.pc);
      if k < |prog| {
        var action := Acts(sem, prog, code, s.pc, s.core, k);
        ResumeMatches(prog, code, k + 1, action);
      }
    }
  }

  // Both machines perform the instruction at k.
  lemma Acts(sem: Semantics, prog: seq<Instr>, code: seq<byte>, pc: nat, core: Core, k: nat) returns (action: Action)
    requires Linkable(prog) && StartsWith(code, prog) && pc <= |prog| && k == Skip(prog, pc) < |prog|
    requires Offset(prog, k) == Offset(prog, pc)
    ensures action == sem(Offset(prog, k), InsnOf(prog[k], LabelOffsets(prog)).op,
                          InsnOf(prog[k], LabelOffsets(prog)).imm, core)
    ensures Step(sem, code, Running(Offset(prog, pc), core)) == Resume(code, Offset(prog, k + 1), action)
    ensures SymStep(sem, prog, LabelOffsets(prog), Running(pc, core))
         == SymResume(prog, LabelOffsets(prog), k + 1, action)
  {
    InsnAt(prog, code, k);
    var insn := InsnOf(prog[k], LabelOffsets(prog));
    action := sem(Offset(prog, k), insn.op, insn.imm, core);
  }

  // Assembler simulation: n steps of the bytes are n steps over the labels, for every n.
  lemma {:induction false} RunMatches(sem: Semantics, prog: seq<Instr>, s: State, n: nat)
    requires Linkable(prog) && InRange(prog, s)
    ensures InRange(prog, SymRun(sem, prog, LabelOffsets(prog), s, n))
    ensures Run(sem, Assembled(prog), Concrete(prog, s), n)
         == Concrete(prog, SymRun(sem, prog, LabelOffsets(prog), s, n))
    decreases n
  {
    if n > 0 {
      StepMatches(sem, prog, Assembled(prog), s);
      RunMatches(sem, prog, SymStep(sem, prog, LabelOffsets(prog), s), n - 1);
    }
  }
}
