// The two complete EVM programs the emitter writes itself: the deployment code, and the tail of an
// external return.

module Emitter {
  import opened Sequences
  import opened Words
  import opened Opcodes
  import opened Bytecode
  import opened Machine
  import opened Disassembly
  import opened Simulation
  import opened Fragments
  import opened Dispatch

  // ---------- running code that is followed by more bytes ----------

  ghost predicate NoJumps(prog: seq<Instr>) {
    forall k :: 0 <= k < |prog| && prog[k].Op? ==> prog[k].code != JUMP && prog[k].code != JUMPI
  }

  lemma {:induction false} HaltedStays(sem: Semantics, prog: seq<Instr>, addr: map<LabelID, nat>, h: Halt, n: nat)
    ensures SymRun(sem, prog, addr, Halted(h), n) == Halted(h)
  {
    if n > 0 {
      HaltedStays(sem, prog, addr, h, n - 1);
    }
  }

  ghost predicate NeverJumps(sem: Semantics, prog: seq<Instr>) {
    forall at: nat, core: Core :: Skip(prog, at) < |prog| ==> StaysInside(sem, prog, at, core)
  }

  lemma NoJumpInside(env: Env, prog: seq<Instr>)
    requires NoJumps(prog)
    ensures NeverJumps(Evm(env), prog)
  {
  }

  // `code` starts with the linked program c, which never jumps.
  ghost predicate IsFront(code: seq<byte>, c: Linked) {
    Linkable(c.prog) && c.addr == LabelOffsets(c.prog) && NeverJumps(c.sem, c.prog) && StartsWith(code, c.prog)
  }

  // The byte machine, started in s, ends with h.
  ghost predicate Ends(c: Linked, code: seq<byte>, s: State, h: Halt) {
    match c
    case Linked(sem, _, _, _, _) => exists n: nat :: Run(sem, code, s, n) == Halted(h)
  }

  lemma EndsHere(c: Linked, code: seq<byte>, h: Halt)
    ensures Ends(c, code, Halted(h), h)
  {
    assert Run(c.sem, code, Halted(h), 0) == Halted(h);
  }

  lemma EndsLater(c: Linked, code: seq<byte>, s: State, t: State, h: Halt)
    requires Step(c.sem, code, s) == t && Ends(c, code, t, h)
    ensures Ends(c, code, s, h)
  {
    var sem := c.sem;
    var n: nat :| Run(sem, code, t, n) == Halted(h);
    assert Run(sem, code, s, n + 1) == Halted(h);
  }

  // A run without jumps that ends in a RETURN or REVERT of its own is the same with any bytes behind.
  lemma {:induction false} RunInside(c: Linked, code: seq<byte>, s: State, h: Halt, n: nat)
    requires IsFront(code, c) && InRange(c.prog, s)
    requires SymRun(c.sem, c.prog, c.addr, s, n) == Halted(h) && !h.Stopped?
    ensures Ends(c, code, Concrete(c.prog, s), h)
    decreases n
  {
    if s.Halted? {
      HaltedStays(c.sem, c.prog, c.addr, s.halt, n);
      EndsHere(c, code, h);
    } else if n > 0 {
      var t, m := StepInside(c, code, s.pc, s.core, h, n);
      RunInside(c, code, t, h, m);
      EndsLater(c, code, Concrete(c.prog, s), Concrete(c.prog, t), h);
    }
  }

  lemma StepInside(c: Linked, code: seq<byte>, k: nat, core: Core, h: Halt, n: nat)
      returns (t: State, m: nat)
    requires IsFront(code, c) && k <= |c.prog|
    requires n > 0 && SymRun(c.sem, c.prog, c.addr, Running(k, core), n) == Halted(h) && !h.Stopped?
    ensures m < n && InRange(c.prog, t) && SymRun(c.sem, c.prog, c.addr, t, m) == Halted(h)
    ensures Step(c.sem, code, Concrete(c.prog, Running(k, core))) == Concrete(c.prog, t)
  {
    m := n - 1;
    NotBehind(c, k, core, h, n, m);
    t := StepShifts(c, code, k, core);
  }

  lemma NotBehind(c: Linked, k: nat, core: Core, h: Halt, n: nat, m: nat)
    requires n == m + 1 && SymRun(c.sem, c.prog, c.addr, Running(k, core), n) == Halted(h) && !h.Stopped?
    ensures Skip(c.prog, k) < |c.prog|
  {
    if Skip(c.prog, k) >= |c.prog| {
      HaltedStays(c.sem, c.prog, c.addr, Stopped(core), m);
    }
  }

  lemma StepShifts(c: Linked, code: seq<byte>, k: nat, core: Core) returns (t: State)
    requires IsFront(code, c) && k <= |c.prog| && Skip(c.prog, k) < |c.prog|
    ensures t == Next1(c, Running(k, core)) && InRange(c.prog, t)
    ensures Step(c.sem, code, Concrete(c.prog, Running(k, core))) == Concrete(c.prog, t)
  {
    t := Next1(c, Running(k, core));
    StepMatches(c.sem, c.prog, code, Running(k, core));
  }

  // ---------- deployment ----------

  function DeployCode(size: uint32, start: LabelID): seq<Instr> {
    [PushNat(size), LabelRef(start), PUSH_ZERO, Op(CODECOPY), PushNat(size), PUSH_ZERO, Op(RETURN), LabelDef(start)]
  }

  lemma Append8<T>(s: seq<T>, a: T, b: T, c: T, d: T, e: T, f: T, g: T, h: T)
    ensures s + [a] + [b] + [c] + [d] + [e] + [f] + [g] + [h] == s + [a, b, c, d, e, f, g, h]
  {
  }

  // For a module without a constructor.
  method EmitDeploy(stream: BytecodeStream, runtimeSize: uint32)
    modifies stream
    ensures stream.instructions == old(stream.instructions) + DeployCode(runtimeSize, old(stream.nextLabelID))
    ensures stream.nextLabelID == Increment(old(stream.nextLabelID))
  {
    var runtimeStart := stream.CreateLabel();
    PushZeroIsPush(0);
    Append8(stream.instructions, PushNat(runtimeSize), LabelRef(runtimeStart), PUSH_ZERO, Op(CODECOPY),
            PushNat(runtimeSize), PUSH_ZERO, Op(RETURN), LabelDef(runtimeStart));
    stream.EmitPush(runtimeSize);
    stream.EmitJumpTarget(runtimeStart);
    stream.EmitPush(0);
    stream.Emit(CODECOPY);
    stream.EmitPush(runtimeSize);
    stream.EmitPush(0);
    stream.Emit(RETURN);
    stream.DefineLabel(runtimeStart);
  }

  lemma DeployShape(size: uint32, start: LabelID, prog: seq<Instr>)
    requires prog == DeployCode(size, start)
    ensures NoBarePush(prog) && UniqueDefs(prog) && DestsLabelled(prog) && NoJumps(prog)
  {
  }

  lemma DeployLinks(size: uint32, start: LabelID, prog: seq<Instr>)
    requires prog == DeployCode(size, start)
    ensures Linkable(prog) && NoJumps(prog)
    ensures LabelOffsets(prog) == map[start := Offset(prog, |prog|)]
  {
    DeployShape(size, start, prog);
    SmallOffset(prog, |prog|);
    assert LabelsUpTo(prog, 7) == map[] by {
      NoDefs(prog, 7);
    }
    assert LabelOffsets(prog) == LabelsUpTo(prog, 7)[start := Offset(prog, 7)];
    assert Offset(prog, 8) == Offset(prog, 7);
  }

  lemma {:induction false} SmallOffset(prog: seq<Instr>, k: nat)
    requires k <= |prog|
    ensures Offset(prog, k) <= 33 * k
  {
    if k > 0 {
      SmallOffset(prog, k - 1);
    }
  }

  lemma {:induction false} NoDefs(prog: seq<Instr>, k: nat)
    requires k <= |prog| && forall j :: 0 <= j < k ==> !prog[j].LabelDef?
    ensures LabelsUpTo(prog, k) == map[]
  {
    if k > 0 {
      NoDefs(prog, k - 1);
    }
  }

  lemma DoCodeCopy(c: Linked, k: nat, core: Core, to: Word, from: Word, n: Word, rest: seq<Word>)
    requires Interprets(c.sem, c.env)
    requires k < |c.prog| && c.prog[k] == Op(CODECOPY) && core.stack == [to, from, n] + rest
    ensures Next1(c, Running(k, core)) ==
      Running(k + 1, Ran(c.env, CODECOPY, core, rest).(mem := Write(core.mem, to, Window(c.env.code, from, n))))
  {
    var after := Ran(c.env, CODECOPY, core, rest).(mem := Write(core.mem, to, Window(c.env.code, from, n)));
    assert core.stack[3..] == rest;
    assert Perform(c.env, Offset(c.prog, k), CODECOPY, [], core) == Fall(after);
    DoOp(c, k, core, CODECOPY, after);
  }

  lemma DoReturn(c: Linked, k: nat, core: Core, at: Word, n: Word, rest: seq<Word>)
    requires Interprets(c.sem, c.env)
    requires k < |c.prog| && c.prog[k] == Op(RETURN) && core.stack == [at, n] + rest
    ensures Next1(c, Running(k, core)) == Halted(Returned(Window(core.mem, at, n), Ran(c.env, RETURN, core, rest)))
  {
    assert core.stack[2..] == rest;
    var h := Returned(Window(core.mem, at, n), Ran(c.env, RETURN, core, rest));
    assert Perform(c.env, Offset(c.prog, k), RETURN, [], core) == End(h);
    DoHalt(c, k, core, RETURN, h);
  }

  // Push a size, push zero, RETURN: both programs end this way.
  lemma ReturnRuns(c: Linked, k: nat, core: Core, n: uint32) returns (after: Core)
    requires Interprets(c.sem, c.env) && At(c, k, [PushNat(n), PUSH_ZERO, Op(RETURN)])
    requires |core.stack| + 2 <= STACK_LIMIT
    ensures after.stack == core.stack && after.storage == core.storage
    ensures Reaches(c, Running(k, core), Halted(Returned(Window(core.mem, 0, n), after)))
  {
    Nth(c, k, [PushNat(n), PUSH_ZERO, Op(RETURN)], 0);
    Nth(c, k, [PushNat(n), PUSH_ZERO, Op(RETURN)], 1);
    Nth(c, k, [PushNat(n), PUSH_ZERO, Op(RETURN)], 2);
    var c1 := Ran(c.env, PushNat(n).width, core, [n as Word] + core.stack);
    DoPush(c, k, core, n);
    var c2 := Ran(c.env, PUSH0, c1, [0 as Word] + c1.stack);
    DoPushZero(c, k + 1, c1);
    assert c2.stack == [0 as Word, n] + core.stack;
    DoReturn(c, k + 2, c2, 0, n, core.stack);
    after := Ran(c.env, RETURN, c2, core.stack);
    TwoSteps(c, Running(k, core), Running(k + 1, c1), Running(k + 2, c2));
    ThenStep(c, Running(k, core), Running(k + 2, c2), Halted(Returned(Window(core.mem, 0, n), after)));
  }

  lemma CopyRuns(c: Linked, k: nat, core: Core, n: uint32, start: LabelID) returns (after: Core)
    requires Interprets(c.sem, c.env)
    requires At(c, k, [PushNat(n), LabelRef(start)]) && At(c, k + 2, [PUSH_ZERO, Op(CODECOPY)])
    requires start in c.addr && c.addr[start] < 0x1_0000 && |core.stack| + 3 <= STACK_LIMIT
    ensures after.stack == core.stack && after.storage == core.storage
    ensures after.mem == Write(core.mem, 0, Window(c.env.code, c.addr[start], n))
    ensures Reaches(c, Running(k, core), Running(k + 4, after))
  {
    var c1 := SourceRuns(c, k, core, n, start);
    after := TargetRuns(c, k + 2, c1, c.addr[start], n, core.stack);
    Then(c, Running(k, core), Running(k + 2, c1), Running(k + 4, after));
  }

  lemma SourceRuns(c: Linked, k: nat, core: Core, n: uint32, start: LabelID) returns (after: Core)
    requires Interprets(c.sem, c.env) && At(c, k, [PushNat(n), LabelRef(start)])
    requires start in c.addr && c.addr[start] < 0x1_0000 && |core.stack| + 3 <= STACK_LIMIT
    ensures after == core.(stack := [c.addr[start] as Word, n] + core.stack, spent := after.spent)
    ensures Reaches(c, Running(k, core), Running(k + 2, after))
  {
    Nth(c, k, [PushNat(n), LabelRef(start)], 0);
    Nth(c, k, [PushNat(n), LabelRef(start)], 1);
    var c1 := Ran(c.env, PushNat(n).width, core, [n as Word] + core.stack);
    DoPush(c, k, core, n);
    after := Ran(c.env, PUSH2, c1, [c.addr[start] as Word] + c1.stack);
    DoRef(c, k + 1, c1, start);
    TwoSteps(c, Running(k, core), Running(k + 1, c1), Running(k + 2, after));
  }

  lemma TargetRuns(c: Linked, k: nat, core: Core, from: Word, n: Word, rest: seq<Word>) returns (after: Core)
    requires Interprets(c.sem, c.env) && At(c, k, [PUSH_ZERO, Op(CODECOPY)])
    requires core.stack == [from, n] + rest && |rest| + 3 <= STACK_LIMIT
    ensures after.stack == rest && after.storage == core.storage
    ensures after.mem == Write(core.mem, 0, Window(c.env.code, from, n))
    ensures Reaches(c, Running(k, core), Running(k + 2, after))
  {
    Nth(c, k, [PUSH_ZERO, Op(CODECOPY)], 0);
    Nth(c, k, [PUSH_ZERO, Op(CODECOPY)], 1);
    var c1 := Ran(c.env, PUSH0, core, [0 as Word] + core.stack);
    DoPushZero(c, k, core);
    assert c1.stack == [0 as Word, from, n] + rest;
    DoCodeCopy(c, k + 1, c1, 0, from, n, rest);
    after := Ran(c.env, CODECOPY, c1, rest).(mem := Write(c1.mem, 0, Window(c.env.code, from, n)));
    TwoSteps(c, Running(k, core), Running(k + 1, c1), Running(k + 2, after));
  }

  lemma DeployRuns(c: Linked, core: Core, size: uint32, start: LabelID) returns (after: Core)
    requires Interprets(c.sem, c.env)
    requires At(c, 0, [PushNat(size), LabelRef(start)]) && At(c, 2, [PUSH_ZERO, Op(CODECOPY)])
    requires At(c, 4, [PushNat(size), PUSH_ZERO, Op(RETURN)])
    requires start in c.addr && c.addr[start] < 0x1_0000 && |core.stack| + 3 <= STACK_LIMIT
    ensures after.stack == core.stack && after.storage == core.storage
    ensures Reaches(c, Running(0, core), Halted(Returned(Window(c.env.code, c.addr[start], size), after)))
  {
    var data := Window(c.env.code, c.addr[start], size);
    var c1 := CopyRuns(c, 0, core, size, start);
    ReadBack(core.mem, 0, data);
    after := ReturnRuns(c, 4, c1, size);
    Then(c, Running(0, core), Running(4, c1), Halted(Returned(data, after)));
  }

  lemma DeployParts(c: Linked, source: seq<Instr>, copy: seq<Instr>, finish: seq<Instr>, l: Instr)
    requires |source| == 2 && |copy| == 2 && |finish| == 3 && c.bound == |c.prog|
    ensures c.prog == [source[0], source[1], copy[0], copy[1], finish[0], finish[1], finish[2], l] ==>
      At(c, 0, source) && At(c, 2, copy) && At(c, 4, finish)
  {
  }

  lemma WindowTail(a: seq<byte>, b: seq<byte>)
    ensures Window(a + b, |a|, |b|) == b
  {
  }

  // Deployment: the finalized deploy code followed by the runtime bytes returns exactly those bytes.
  lemma DeployReturnsRuntime(env: Env, core: Core, runtime: seq<byte>, size: uint32, start: LabelID)
    requires |runtime| == size && |core.stack| + 3 <= STACK_LIMIT
    requires env.code == Assembled(DeployCode(size, start)) + runtime
    ensures RefsDefined(DeployCode(size, start))
    ensures exists n: nat, after: Core ::
      && Run(Evm(env), env.code, Running(0, core), n) == Halted(Returned(runtime, after))
      && after.stack == core.stack && after.storage == core.storage
  {
    var prog := DeployCode(size, start);
    DeployLinks(size, start, prog);
    LinkableIsValid(env, prog, |prog|);
    var c := Linked(Evm(env), env, prog, LabelOffsets(prog), |prog|);
    DeployParts(c, [PushNat(size), LabelRef(start)], [PUSH_ZERO, Op(CODECOPY)],
                [PushNat(size), PUSH_ZERO, Op(RETURN)], LabelDef(start));
    var after := DeployRuns(c, core, size, start);
    WindowTail(Assembled(prog), runtime);
    DeployInBytes(c, prog, core, Returned(runtime, after));
  }

  lemma DeployInBytes(c: Linked, prog: seq<Instr>, core: Core, h: Halt)
    requires Linkable(prog) && NoJumps(prog) && StartsWith(c.env.code, prog) && !h.Stopped?
    requires Assembles(c) && c.prog == prog
    requires Reaches(c, Running(0, core), Halted(h))
    ensures exists n: nat :: Run(Evm(c.env), c.env.code, Running(0, core), n) == Halted(h)
  {
    var n: nat :| ReachesIn(c, Running(0, core), Halted(h), n);
    NoJumpInside(c.env, prog);
    RunInside(c, c.env.code, Running(0, core), h, n);
  }

  // ---------- external return ----------

  // Computed in 32 bits.
  function Scaled(i: nat): uint32 {
    Low32(i * 32)
  }

  // Stores m values, the deepest one at offset 0.
  function Stores(m: nat): (code: seq<Instr>)
    ensures |code| == 2 * m
  {
    if m == 0 then [] else [PushNat(Scaled(m - 1)), Op(MSTORE)] + Stores(m - 1)
  }

  function ReturnTail(n: nat): seq<Instr> {
    Stores(n) + [PushNat(Scaled(n)), PUSH_ZERO, Op(RETURN)]
  }

  method EmitExternalReturn(stream: BytecodeStream, numValues: uint32)
    modifies stream`instructions
    ensures stream.instructions == old(stream.instructions) + ReturnTail(numValues)
  {
    EmitStores(stream, numValues);
    EmitClose(stream, old(stream.instructions), numValues);
  }

  method EmitStores(stream: BytecodeStream, numValues: uint32)
    modifies stream`instructions
    ensures stream.instructions == old(stream.instructions) + Stores(numValues)
  {
    var i := 0;
    ghost var s0, m: nat := stream.instructions, numValues;
    while i < numValues
      invariant 0 <= i <= numValues && m == numValues - i
      invariant stream.instructions + Stores(m) == s0 + Stores(numValues)
    {
      i, m := i + 1, m - 1;
      EmitStore(stream, Scaled(numValues - i), m);
    }
    StoresDone(stream.instructions, m);
  }

  method EmitStore(stream: BytecodeStream, offset: uint32, ghost m: nat)
    requires offset == Scaled(m)
    modifies stream`instructions
    ensures stream.instructions + Stores(m) == old(stream.instructions) + Stores(m + 1)
  {
    StoresStep(m, offset);
    TwoMore(stream.instructions, PushNat(offset), Op(MSTORE), Stores(m));
    stream.EmitPush(offset);
    stream.Emit(MSTORE);
  }

  method EmitClose(stream: BytecodeStream, ghost s0: seq<Instr>, n: uint32)
    requires stream.instructions == s0 + Stores(n)
    modifies stream`instructions
    ensures stream.instructions == s0 + ReturnTail(n)
  {
    PushZeroIsPush(0);
    TailParts(s0, Stores(n), PushNat(Scaled(n)), PUSH_ZERO, Op(RETURN));
    stream.EmitPush(Scaled(n));
    stream.EmitPush(0);
    stream.Emit(RETURN);
  }

  lemma TailParts(s0: seq<Instr>, stores: seq<Instr>, a: Instr, b: Instr, c: Instr)
    ensures s0 + stores + [a] + [b] + [c] == s0 + (stores + [a, b, c])
  {
  }

  lemma TwoMore(s: seq<Instr>, a: Instr, b: Instr, rest: seq<Instr>)
    ensures s + [a] + [b] + rest == s + ([a, b] + rest)
  {
  }

  lemma StoresStep(m: nat, offset: uint32)
    requires offset == Scaled(m)
    ensures Stores(m + 1) == [PushNat(offset), Op(MSTORE)] + Stores(m)
  {
  }

  lemma StoresDone(s: seq<Instr>, m: nat)
    requires m == 0
    ensures s + Stores(m) == s
  {
  }

  // The ABI encoding of static return values: value k is the word at 32 * k.
  ghost predicate Packed(data: seq<byte>, values: seq<Word>, from: nat) {
    forall k :: from <= k < |values| ==> Window(data, 32 * k, 32) == ToBytes(values[k], 32)
  }

  function Reversed(s: seq<Word>): (r: seq<Word>)
    ensures |r| == |s| && forall k :: 0 <= k < |s| ==> r[k] == s[|s| - 1 - k]
  {
    if s == [] then [] else [s[|s| - 1]] + Reversed(s[..|s| - 1])
  }

  lemma DoStore(c: Linked, k: nat, core: Core, at: Word, v: Word, rest: seq<Word>)
    requires Interprets(c.sem, c.env)
    requires k < |c.prog| && c.prog[k] == Op(MSTORE) && core.stack == [at, v] + rest
    ensures Next1(c, Running(k, core)) ==
      Running(k + 1, Ran(c.env, MSTORE, core, rest).(mem := Write(core.mem, at, ToBytes(v, 32))))
  {
    var after := Ran(c.env, MSTORE, core, rest).(mem := Write(core.mem, at, ToBytes(v, 32)));
    assert core.stack[2..] == rest;
    assert Perform(c.env, Offset(c.prog, k), MSTORE, [], core) == Fall(after);
    DoOp(c, k, core, MSTORE, after);
  }

  lemma StoreRuns(c: Linked, k: nat, core: Core, at: uint32, v: Word, rest: seq<Word>) returns (after: Core)
    requires Interprets(c.sem, c.env) && At(c, k, [PushNat(at), Op(MSTORE)])
    requires core.stack == [v] + rest && |rest| + 2 <= STACK_LIMIT
    ensures after.stack == rest && after.storage == core.storage
    ensures after.mem == Write(core.mem, at, ToBytes(v, 32))
    ensures Reaches(c, Running(k, core), Running(k + 2, after))
  {
    Nth(c, k, [PushNat(at), Op(MSTORE)], 0);
    Nth(c, k, [PushNat(at), Op(MSTORE)], 1);
    var c1 := Ran(c.env, PushNat(at).width, core, [at as Word] + core.stack);
    DoPush(c, k, core, at);
    assert c1.stack == [at as Word, v] + rest;
    DoStore(c, k + 1, c1, at, v, rest);
    after := Ran(c.env, MSTORE, c1, rest).(mem := Write(c1.mem, at, ToBytes(v, 32)));
    TwoSteps(c, Running(k, core), Running(k + 1, c1), Running(k + 2, after));
  }

  lemma StoreStep(mem: seq<byte>, values: seq<Word>, m: nat, n: nat, mem': seq<byte>)
    requires m == n + 1 <= |values| && Packed(mem, values, m)
    requires mem' == Write(mem, 32 * n, ToBytes(values[n], 32))
    ensures Packed(mem', values, n)
  {
    ReadBack(mem, 32 * n, ToBytes(values[n], 32));
    forall k | m <= k < |values| ensures Window(mem', 32 * k, 32) == ToBytes(values[k], 32) {
      ReadElsewhere(mem, 32 * n, ToBytes(values[n], 32), 32 * k, 32);
    }
  }

  lemma TopValue(values: seq<Word>, m: nat, n: nat, rest: seq<Word>) returns (below: seq<Word>)
    requires m == n + 1 <= |values|
    ensures below == Reversed(values[..n]) + rest && |below| == n + |rest|
    ensures Reversed(values[..m]) + rest == [values[n]] + below
  {
    assert values[..m][..n] == values[..n];
    below := Reversed(values[..n]) + rest;
    Assoc([values[n]], Reversed(values[..n]), rest);
  }

  lemma {:induction false} StoresRun(c: Linked, k: nat, core: Core, values: seq<Word>, m: nat, rest: seq<Word>)
    returns (end: nat, after: Core)
    requires Interprets(c.sem, c.env) && At(c, k, Stores(m)) && m <= |values| && 32 * |values| < 0x1_0000_0000
    requires core.stack == Reversed(values[..m]) + rest && |rest| + m + 1 <= STACK_LIMIT
    requires Packed(core.mem, values, m)
    ensures end == k + 2 * m
    ensures after.stack == rest && after.storage == core.storage && Packed(after.mem, values, 0)
    ensures Reaches(c, Running(k, core), Running(end, after))
    decreases m
  {
    if m == 0 {
      end, after := k, core;
      Here(c, Running(k, core));
    } else {
      var n := m - 1;
      var c1 := StoreTop(c, k, core, values, m, n, rest);
      end, after := StoresRun(c, k + 2, c1, values, n, rest);
      Then(c, Running(k, core), Running(k + 2, c1), Running(end, after));
    }
  }

  lemma StoresAt(c: Linked, k: nat, n: nat, m: nat, at: uint32)
    requires At(c, k, Stores(n)) && n == m + 1 && at == Scaled(m)
    ensures At(c, k, [PushNat(at), Op(MSTORE)]) && At(c, k + 2, Stores(m))
  {
    StoresStep(m, at);
    HeadAt(c, k, Stores(n), PushNat(at), Op(MSTORE), Stores(m));
  }

  lemma StoreTop(c: Linked, k: nat, core: Core, values: seq<Word>, m: nat, n: nat, rest: seq<Word>)
    returns (after: Core)
    requires Interprets(c.sem, c.env) && At(c, k, Stores(m)) && m == n + 1 <= |values| && 32 * |values| < 0x1_0000_0000
    requires core.stack == Reversed(values[..m]) + rest && |rest| + m + 1 <= STACK_LIMIT
    requires Packed(core.mem, values, m)
    ensures after.stack == Reversed(values[..n]) + rest && after.storage == core.storage
    ensures Packed(after.mem, values, n) && At(c, k + 2, Stores(n))
    ensures Reaches(c, Running(k, core), Running(k + 2, after))
  {
    ScaledSmall(n);
    StoresAt(c, k, m, n, Scaled(n));
    var below := TopValue(values, m, n, rest);
    after := StoreRuns(c, k, core, 32 * n, values[n], below);
    StoreStep(core.mem, values, m, n, after.mem);
  }

  lemma TailAt(c: Linked, k: nat, n: nat)
    requires At(c, k, ReturnTail(n))
    ensures At(c, k, Stores(n)) && At(c, k + 2 * n, [PushNat(Scaled(n)), PUSH_ZERO, Op(RETURN)])
  {
    AtSplit(c, k, Stores(n), [PushNat(Scaled(n)), PUSH_ZERO, Op(RETURN)]);
  }

  // With n values on the stack, the last on top, the tail returns 32 * n bytes with value i at 32 * i,
  // whatever memory held before. The stack limit keeps every offset within 32 bits.
  lemma ExternalReturn(c: Linked, k: nat, core: Core, values: seq<Word>, rest: seq<Word>)
    returns (data: seq<byte>, after: Core)
    requires Interprets(c.sem, c.env) && At(c, k, ReturnTail(|values|))
    requires core.stack == Reversed(values) + rest && |core.stack| + 1 <= STACK_LIMIT && |rest| + 2 <= STACK_LIMIT
    ensures Reaches(c, Running(k, core), Halted(Returned(data, after)))
    ensures IsEncoding(data, values) && after.stack == rest && after.storage == core.storage
  {
    AllOf(values);
    var mem;
    data, after, mem := ReturnRun(c, k, core, values, |values|, rest);
    PackedData(mem, values, data);
  }

  // The same in the bytes of any linkable stream that holds the tail at index k.
  lemma ExternalReturnInBytes(env: Env, prog: seq<Instr>, k: nat, core: Core, values: seq<Word>, rest: seq<Word>)
    returns (n: nat, data: seq<byte>, after: Core)
    requires Linkable(prog) && k <= |prog|
    requires At(Linked(Evm(env), env, prog, LabelOffsets(prog), |prog|), k, ReturnTail(|values|))
    requires core.stack == Reversed(values) + rest && |core.stack| + 1 <= STACK_LIMIT && |rest| + 2 <= STACK_LIMIT
    ensures Run(Evm(env), Assembled(prog), Running(Offset(prog, k), core), n) == Halted(Returned(data, after))
    ensures IsEncoding(data, values) && after.stack == rest && after.storage == core.storage
  {
    var c := Linked(Evm(env), env, prog, LabelOffsets(prog), |prog|);
    data, after := ExternalReturn(c, k, core, values, rest);
    n := RunsInBytes(c, k, core, Halted(Returned(data, after)));
  }

  lemma AllOf<T>(s: seq<T>)
    ensures s[..|s|] == s
  {
  }

  lemma ScaledSmall(n: nat)
    requires 32 * n < 0x1_0000_0000
    ensures Scaled(n) == 32 * n
  {
  }

  lemma ReturnRun(c: Linked, k: nat, core: Core, values: seq<Word>, n: nat, rest: seq<Word>)
    returns (data: seq<byte>, after: Core, mem: seq<byte>)
    requires Interprets(c.sem, c.env) && At(c, k, ReturnTail(n)) && n == |values|
    requires core.stack == Reversed(values[..n]) + rest && |rest| + n + 1 <= STACK_LIMIT && |rest| + 2 <= STACK_LIMIT
    ensures Reaches(c, Running(k, core), Halted(Returned(data, after)))
    ensures data == Window(mem, 0, 32 * n) && Packed(mem, values, 0)
    ensures after.stack == rest && after.storage == core.storage
  {
    TailAt(c, k, n);
    var end, c1 := StoresRun(c, k, core, values, n, rest);
    mem := c1.mem;
    data := Window(mem, 0, 32 * n);
    ScaledSmall(n);
    after := ReturnRuns(c, end, c1, Scaled(n));
    Then(c, Running(k, core), Running(end, c1), Halted(Returned(data, after)));
  }

  ghost predicate IsEncoding(data: seq<byte>, values: seq<Word>) {
    && |data| == 32 * |values|
    && forall i :: 0 <= i < |values| ==> data[32 * i..32 * i + 32] == ToBytes(values[i], 32)
  }

  lemma PackedData(mem: seq<byte>, values: seq<Word>, data: seq<byte>)
    requires Packed(mem, values, 0) && data == Window(mem, 0, 32 * |values|)
    ensures IsEncoding(data, values)
  {
    forall i | 0 <= i < |values| ensures data[32 * i..32 * i + 32] == ToBytes(values[i], 32) {
      assert data[32 * i..32 * i + 32] == Window(mem, 32 * i, 32);
    }
  }
}
