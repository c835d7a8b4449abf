// The byte-level EVM: program counter, stack, memory, jump destinations (Yellow Paper section 9.4
// and Appendix H, PUSH0 from EIP-3855). Gas never runs out; the static gas spent is recorded.

module Machine {
  import opened Words
  import opened Opcodes

  const STACK_LIMIT := 1024

  // stack[0] is the top of the stack.
  datatype Core = Core(stack: seq<Word>, mem: seq<byte>, storage: map<Word, Word>, spent: nat)

  // A revert undoes every effect but the gas.
  datatype Halt =
    | Returned(data: seq<byte>, core: Core)
    | Reverted(data: seq<byte>, spent: nat)
    | Stopped(core: Core)
    | Failed

  datatype Effect = Next(core: Core) | Done(halt: Halt)

  datatype State = Running(pc: nat, core: Core) | Halted(halt: Halt)

  // `other` gives the meaning of every opcode not interpreted below; it may depend on the position.
  datatype Env = Env(calldata: seq<byte>, code: seq<byte>, gas: byte -> nat, other: (byte, nat, Core) -> Effect)

  // n bytes of s from position `at`, with zeros past its end.
  function Window(s: seq<byte>, at: nat, n: nat): (w: seq<byte>)
    ensures |w| == n
    ensures forall k :: 0 <= k < n ==> w[k] == if at + k < |s| then s[at + k] else 0
  {
    seq(n, k requires 0 <= k < n => if at + k < |s| then s[at + k] else 0)
  }

  // Memory with `data` written at `at`, grown with zeros when it is too short.
  function Write(mem: seq<byte>, at: nat, data: seq<byte>): seq<byte> {
    if data == [] then mem
    else
      var grown := if |mem| < at + |data| then mem + Zeros(at + |data| - |mem|) else mem;
      grown[..at] + data + grown[at + |data|..]
  }

  lemma WriteAt(mem: seq<byte>, at: nat, data: seq<byte>)
    ensures |Write(mem, at, data)| >= |mem|
    ensures data != [] ==> |Write(mem, at, data)| >= at + |data|
    ensures forall i :: 0 <= i < |Write(mem, at, data)| ==>
      Write(mem, at, data)[i] == if at <= i < at + |data| then data[i - at] else if i < |mem| then mem[i] else 0
  {
  }

  lemma ReadBack(mem: seq<byte>, at: nat, data: seq<byte>)
    ensures Window(Write(mem, at, data), at, |data|) == data
  {
    WriteAt(mem, at, data);
  }

  lemma ReadElsewhere(mem: seq<byte>, at: nat, data: seq<byte>, from: nat, n: nat)
    requires from + n <= at || at + |data| <= from
    ensures Window(Write(mem, at, data), from, n) == Window(mem, from, n)
  {
    WriteAt(mem, at, data);
  }

  function Bool(b: bool): Word {
    if b then 1 else 0
  }

  function HalfTimes(v: Word, n: nat): Word {
    if n == 0 then v else HalfTimes(v / 2, n - 1)
  }

  function Charge(env: Env, op: byte, core: Core): Core {
    core.(spent := core.spent + env.gas(op))
  }

  function PushWord(core: Core, w: Word): Effect {
    if |core.stack| >= STACK_LIMIT then Done(Failed) else Next(core.(stack := [w] + core.stack))
  }

  function Compare(op: byte, a: Word, b: Word): Word {
    if op == LT then Bool(a < b)
    else if op == GT then Bool(a > b)
    else Bool(a == b)
  }

  // Opcodes that neither push code bytes nor jump.
  function Exec(env: Env, pc: nat, op: byte, core: Core): Effect {
    var st := core.stack;
    if op == STOP then Done(Stopped(core))
    else if op == LT || op == GT || op == EQ then
      if |st| < 2 then Done(Failed) else Next(core.(stack := [Compare(op, st[0], st[1])] + st[2..]))
    else if op == ISZERO then
      if |st| < 1 then Done(Failed) else Next(core.(stack := [Bool(st[0] == 0)] + st[1..]))
    else if op == SHR then
      if |st| < 2 then Done(Failed)
      else Next(core.(stack := [if st[0] >= 256 then 0 else HalfTimes(st[1], st[0])] + st[2..]))
    else if op == CALLDATALOAD then
      if |st| < 1 then Done(Failed)
      else Next(core.(stack := [WordOf(Window(env.calldata, st[0], 32))] + st[1..]))
    else if op == CODECOPY then
      if |st| < 3 then Done(Failed)
      else Next(core.(stack := st[3..], mem := Write(core.mem, st[0], Window(env.code, st[1], st[2]))))
    else if op == MLOAD then
      if |st| < 1 then Done(Failed) else Next(core.(stack := [WordOf(Window(core.mem, st[0], 32))] + st[1..]))
    else if op == MSTORE then
      if |st| < 2 then Done(Failed)
      else Next(core.(stack := st[2..], mem := Write(core.mem, st[0], ToBytes(st[1], 32))))
    else if op == JUMPDEST then Next(core)
    else if DUP1 <= op <= DUP16 then
      if |st| <= op - DUP1 then Done(Failed) else PushWord(core, st[op - DUP1])
    else if SWAP1 <= op <= SWAP16 then
      var n := op - SWAP1 + 1;
      if |st| <= n then Done(Failed) else Next(core.(stack := st[0 := st[n]][n := st[0]]))
    else if op == RETURN then
      if |st| < 2 then Done(Failed)
      else Done(Returned(Window(core.mem, st[0], st[1]), core.(stack := st[2..])))
    else if op == REVERT then
      if |st| < 2 then Done(Failed) else Done(Reverted(Window(core.mem, st[0], st[1]), core.spent))
    else env.other(op, pc, core)
  }

  // Membership in the set of valid jump destinations D(c, i) of Yellow Paper section 9.4.3.
  predicate ValidDest(code: seq<byte>, i: nat, d: nat)
    decreases |code| - i
  {
    i < |code| && ((code[i] == JUMPDEST && i == d) || ValidDest(code, i + 1 + ImmLen(code[i]), d))
  }

  // What one instruction asks for: fall through, jump, or end the run.
  datatype Action = Fall(core: Core) | Jump(dest: Word, core: Core) | End(halt: Halt)

  type Imm = s: seq<byte> | |s| <= 32 witness []

  function Perform(env: Env, pc: nat, op: byte, imm: Imm, before: Core): Action {
    var core := Charge(env, op, before);
    var st := core.stack;
    if op == JUMP then
      if |st| < 1 then End(Failed) else Jump(st[0], core.(stack := st[1..]))
    else if op == JUMPI then
      if |st| < 2 then End(Failed)
      else if st[1] != 0 then Jump(st[0], core.(stack := st[2..]))
      else Fall(core.(stack := st[2..]))
    else
      var o := if op == PUSH0 || IsImmediatePush(op) then PushWord(core, WordOf(imm)) else Exec(env, pc, op, core);
      match o
      case Next(c) => Fall(c)
      case Done(h) => End(h)
  }

  // The machines below work for any meaning of (position, opcode, immediate, core).
  type Semantics = (nat, byte, Imm, Core) -> Action

  function Evm(env: Env): Semantics {
    (pc: nat, op: byte, imm: Imm, core: Core) => Perform(env, pc, op, imm, core)
  }

  function JumpTo(code: seq<byte>, d: nat, core: Core): State {
    if ValidDest(code, 0, d) then Running(d, core) else Halted(Failed)
  }

  function Resume(code: seq<byte>, next: nat, action: Action): State {
    match action
    case Fall(core) => Running(next, core)
    case Jump(d, core) => JumpTo(code, d, core)
    case End(h) => Halted(h)
  }

  function Step(sem: Semantics, code: seq<byte>, s: State): State {
    if s.Halted? then s
    else if s.pc >= |code| then Halted(Stopped(s.core))
    else
      var op := code[s.pc];
      Resume(code, s.pc + 1 + ImmLen(op), sem(s.pc, op, Window(code, s.pc + 1, ImmLen(op)), s.core))
  }

  function Run(sem: Semantics, code: seq<byte>, s: State, n: nat): State
    decreases n
  {
    if n == 0 then s else Run(sem, code, Step(sem, code, s), n - 1)
  }
}
