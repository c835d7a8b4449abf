// Where the dispatcher's code takes a selector, for the comparison as emitted and as intended.

module Dispatch {
  import opened Wrappers
  import opened Sequences
  import opened Words
  import opened Opcodes
  import opened Bytecode
  import opened Machine
  import opened Fragments
  import opened Dispatcher

  // ---------- what the code is meant to do ----------

  // The entry whose leaf a selector ends at.
  function Route(entries: seq<Entry>, v: Variant, sel: Word): (j: nat)
    requires entries != []
    ensures j < |entries|
    decreases |entries|
  {
    if |entries| == 1 then 0
    else
      var mid := |entries| / 2;
      if GoesRight(v, entries[mid].selector, sel) then mid + Route(entries[mid..], v, sel)
      else Route(entries[..mid], v, sel)
  }

  // ABI argument words in order.
  function ArgWords(calldata: seq<byte>, n: nat): (w: seq<Word>)
    ensures |w| == n
  {
    if n == 0 then [] else ArgWords(calldata, n - 1) + [ArgWord(calldata, n - 1)]
  }

  // Argument i is the word at calldata offset 4 + 32 * i.
  function ArgWord(calldata: seq<byte>, i: nat): Word {
    WordOf(Window(calldata, 4 + 32 * i, 32))
  }

  // ---------- static gas ----------

  function BranchGas(env: Env, v: Variant): nat {
    match v
    case AsEmitted => env.gas(LT)
    case Intended => env.gas(GT) + env.gas(ISZERO)
  }

  // An inner node up to and including its JUMPI.
  function NodeGas(env: Env, pivot: uint32, v: Variant): nat {
    env.gas(DUP1) + env.gas(PushNat(pivot).width) + BranchGas(env, v) + env.gas(PUSH2) + env.gas(JUMPI)
  }

  // The inner nodes between the root and the leaf of `sel`.
  function PathGas(env: Env, entries: seq<Entry>, v: Variant, sel: Word): nat
    decreases |entries|
  {
    if |entries| <= 1 then 0
    else
      var mid := |entries| / 2;
      NodeGas(env, entries[mid].selector, v) +
      if GoesRight(v, entries[mid].selector, sel) then env.gas(JUMPDEST) + PathGas(env, entries[mid..], v, sel)
      else PathGas(env, entries[..mid], v, sel)
  }

  function LoadGas(env: Env, i: nat): nat {
    env.gas(PushNat(ArgOffset(i)).width) + env.gas(CALLDATALOAD)
  }

  function ArgumentsGas(env: Env, n: nat): nat {
    if n == 0 then 0 else LoadGas(env, n - 1) + ArgumentsGas(env, n - 1)
  }

  // A leaf up to and including its JUMPI.
  function TestGas(env: Env, e: Entry): nat {
    env.gas(DUP1) + env.gas(PushNat(e.selector).width) + env.gas(EQ) + env.gas(PUSH2) + env.gas(JUMPI)
  }

  // From a leaf whose selector matches to the entry's label.
  function MatchGas(env: Env, e: Entry): nat {
    TestGas(env, e)
    + if e.args == 0 then 0
      else env.gas(JUMPDEST) + ArgumentsGas(env, e.args) + env.gas(PUSH2) + env.gas(JUMP)
  }

  function RevertGas(env: Env): nat {
    env.gas(PUSH0) + env.gas(PUSH0) + env.gas(REVERT)
  }

  // REVERT(0, 0), reached after g more gas.
  function Rejected(env: Env, core: Core, g: nat): State {
    Halted(Reverted([], core.spent + g + RevertGas(env)))
  }

  function Spend(core: Core, g: nat): Core {
    core.(spent := core.spent + g)
  }

  // ---------- running the pieces ----------

  lemma RevertRuns(c: Linked, k: nat, core: Core)
    requires Interprets(c.sem, c.env)
    requires At(c, k, REVERT_CODE) && |core.stack| + 2 <= STACK_LIMIT
    ensures Reaches(c, Running(k, core), Rejected(c.env, core, 0))
  {
    Nth(c, k, REVERT_CODE, 0);
    Nth(c, k, REVERT_CODE, 1);
    Nth(c, k, REVERT_CODE, 2);
    var c1 := Ran(c.env, PUSH0, core, [0 as Word] + core.stack);
    DoPushZero(c, k, core);
    DoPushZero(c, k + 1, c1);
    RevertSteps(c, k, core, c1, Ran(c.env, PUSH0, c1, [0 as Word] + c1.stack));
  }

  lemma RevertSteps(c: Linked, k: nat, core: Core, c1: Core, c2: Core)
    requires Interprets(c.sem, c.env)
    requires Within(c, Running(k, core)) && Within(c, Running(k + 1, c1))
    requires Next1(c, Running(k, core)) == Running(k + 1, c1)
    requires Next1(c, Running(k + 1, c1)) == Running(k + 2, c2)
    requires k + 2 < c.bound <= |c.prog| && c.prog[k + 2] == Op(REVERT)
    requires |c2.stack| >= 2 && c2.stack[0] == 0 && c2.stack[1] == 0
    ensures Reaches(c, Running(k, core), Halted(Reverted([], c2.spent + c.env.gas(REVERT))))
  {
    DoRevert(c, k + 2, c2);
    TwoSteps(c, Running(k, core), Running(k + 1, c1), Running(k + 2, c2));
    ThenStep(c, Running(k, core), Running(k + 2, c2), Halted(Reverted([], c2.spent + c.env.gas(REVERT))));
  }

  lemma DoRevert(c: Linked, k: nat, core: Core)
    requires Interprets(c.sem, c.env)
    requires k < |c.prog| && c.prog[k] == Op(REVERT)
    requires |core.stack| >= 2 && core.stack[0] == 0 && core.stack[1] == 0
    ensures Next1(c, Running(k, core)) == Halted(Reverted([], core.spent + c.env.gas(REVERT)))
  {
    assert Window(core.mem, 0, 0) == [];
    var h := Reverted([], core.spent + c.env.gas(REVERT));
    assert Perform(c.env, Offset(c.prog, k), REVERT, [], core) == End(h);
    DoHalt(c, k, core, REVERT, h);
  }

  // DUP1, push a constant: the compared pair is on top.
  lemma DupPush(c: Linked, k: nat, core: Core, sel: Word, rest: seq<Word>, v: uint32) returns (after: Core)
    requires Interprets(c.sem, c.env)
    requires At(c, k, [Op(DUP1), PushNat(v)])
    requires core.stack == [sel] + rest && |rest| + 3 <= STACK_LIMIT
    ensures after == Ran(c.env, PushNat(v).width, Ran(c.env, DUP1, core, [sel, sel] + rest), [v, sel, sel] + rest)
    ensures Reaches(c, Running(k, core), Running(k + 2, after))
  {
    var c1 := Ran(c.env, DUP1, core, [sel, sel] + rest);
    assert [sel] + core.stack == [sel, sel] + rest;
    assert Perform(c.env, Offset(c.prog, k), DUP1, [], core) == Fall(c1);
    Nth(c, k, [Op(DUP1), PushNat(v)], 0);
    Nth(c, k, [Op(DUP1), PushNat(v)], 1);
    DoOp(c, k, core, DUP1, c1);
    assert [v] + c1.stack == [v, sel, sel] + rest;
    DoPush(c, k + 1, c1, v);
    after := Ran(c.env, PushNat(v).width, c1, [v, sel, sel] + rest);
    TwoSteps(c, Running(k, core), Running(k + 1, c1), Running(k + 2, after));
  }

  // A comparison of the two top words.
  lemma DoCompare(c: Linked, k: nat, core: Core, op: byte, a: Word, b: Word, rest: seq<Word>)
    requires Interprets(c.sem, c.env)
    requires op == LT || op == GT || op == EQ
    requires k < |c.prog| && c.prog[k] == Op(op)
    requires core.stack == [a, b] + rest
    ensures Next1(c, Running(k, core)) == Running(k + 1, Ran(c.env, op, core, [Compare(op, a, b)] + rest))
  {
    assert core.stack[2..] == rest;
    assert Perform(c.env, Offset(c.prog, k), op, [], core) == Fall(Ran(c.env, op, core, [Compare(op, a, b)] + rest));
    DoOp(c, k, core, op, Ran(c.env, op, core, [Compare(op, a, b)] + rest));
  }

  lemma DoIsZero(c: Linked, k: nat, core: Core, a: Word, rest: seq<Word>)
    requires Interprets(c.sem, c.env)
    requires k < |c.prog| && c.prog[k] == Op(ISZERO)
    requires core.stack == [a] + rest
    ensures Next1(c, Running(k, core)) == Running(k + 1, Ran(c.env, ISZERO, core, [Bool(a == 0)] + rest))
  {
    assert core.stack[1..] == rest;
    assert Perform(c.env, Offset(c.prog, k), ISZERO, [], core) == Fall(Ran(c.env, ISZERO, core, [Bool(a == 0)] + rest));
    DoOp(c, k, core, ISZERO, Ran(c.env, ISZERO, core, [Bool(a == 0)] + rest));
  }

  // The comparison sequence of either variant decides GoesRight.
  lemma BranchRuns(c: Linked, k: nat, core: Core, v: Variant, pivot: Word, sel: Word, rest: seq<Word>)
    returns (after: Core)
    requires Interprets(c.sem, c.env)
    requires At(c, k, BranchOps(v)) && core.stack == [pivot, sel] + rest
    ensures after == Spend(core, BranchGas(c.env, v)).(stack := [Bool(GoesRight(v, pivot, sel))] + rest)
    ensures Reaches(c, Running(k, core), Running(k + |BranchOps(v)|, after))
  {
    Nth(c, k, BranchOps(v), 0);
    var op := if v.AsEmitted? then LT else GT;
    var c1 := Ran(c.env, op, core, [Compare(op, pivot, sel)] + rest);
    DoCompare(c, k, core, op, pivot, sel, rest);
    OneStep(c, Running(k, core), Running(k + 1, c1));
    if v.AsEmitted? {
      after := c1;
    } else {
      Nth(c, k, BranchOps(v), 1);
      DoIsZero(c, k + 1, c1, Compare(op, pivot, sel), rest);
      after := Ran(c.env, ISZERO, c1, [Bool(GoesRight(v, pivot, sel))] + rest);
      ThenStep(c, Running(k, core), Running(k + 1, c1), Running(k + 2, after));
    }
  }

  // Push a label and jump to it when the condition below holds.
  lemma BranchTo(c: Linked, k: nat, core: Core, l: LabelID, cond: bool, rest: seq<Word>) returns (after: Core)
    requires Valid(c) && At(c, k, [LabelRef(l), Op(JUMPI)]) && Target(c, l).Some?
    requires core.stack == [Bool(cond)] + rest && |core.stack| < STACK_LIMIT
    ensures after == Ran(c.env, JUMPI, Ran(c.env, PUSH2, core, [c.addr[l], Bool(cond)] + rest), rest)
    ensures Reaches(c, Running(k, core), Running(if cond then Target(c, l).value else k + 2, after))
  {
    Nth(c, k, [LabelRef(l), Op(JUMPI)], 0);
    Nth(c, k, [LabelRef(l), Op(JUMPI)], 1);
    var c1 := Ran(c.env, PUSH2, core, [c.addr[l], Bool(cond)] + rest);
    assert [c.addr[l] as Word] + core.stack == c1.stack;
    DoRef(c, k, core, l);
    DoJumpI(c, k + 1, c1, l, cond, rest);
    after := Ran(c.env, JUMPI, c1, rest);
    TwoSteps(c, Running(k, core), Running(k + 1, c1), Running(if cond then Target(c, l).value else k + 2, after));
  }

  lemma JumpsTo(c: Linked, k: nat, core: Core, l: LabelID)
    requires Valid(c) && At(c, k, [LabelRef(l), Op(JUMP)]) && Target(c, l).Some?
    requires |core.stack| < STACK_LIMIT
    ensures Reaches(c, Running(k, core),
                    Running(Target(c, l).value, Spend(core, c.env.gas(PUSH2) + c.env.gas(JUMP))))
  {
    Nth(c, k, [LabelRef(l), Op(JUMP)], 0);
    Nth(c, k, [LabelRef(l), Op(JUMP)], 1);
    var c1 := Ran(c.env, PUSH2, core, [c.addr[l]] + core.stack);
    DoRef(c, k, core, l);
    DoJump(c, k + 1, c1, l, core.stack);
    TwoSteps(c, Running(k, core), Running(k + 1, c1),
             Running(Target(c, l).value, Spend(core, c.env.gas(PUSH2) + c.env.gas(JUMP))));
  }

  // ---------- nodes, leaves, the tree ----------

  lemma CompareRuns(c: Linked, k: nat, core: Core, v: Variant, pivot: uint32, sel: Word, rest: seq<Word>)
    returns (after: Core)
    requires Interprets(c.sem, c.env) && At(c, k, [Op(DUP1), PushNat(pivot)] + BranchOps(v))
    requires core.stack == [sel] + rest && |rest| + 3 <= STACK_LIMIT
    ensures after == Spend(core, c.env.gas(DUP1) + c.env.gas(PushNat(pivot).width) + BranchGas(c.env, v))
                       .(stack := [Bool(GoesRight(v, pivot, sel))] + core.stack)
    ensures Reaches(c, Running(k, core), Running(k + 2 + |BranchOps(v)|, after))
  {
    AtSplit(c, k, [Op(DUP1), PushNat(pivot)], BranchOps(v));
    var c1 := DupPush(c, k, core, sel, rest, pivot);
    assert c1.stack == [pivot as Word, sel] + core.stack;
    after := BranchRuns(c, k + 2, c1, v, pivot, sel, core.stack);
    Then(c, Running(k, core), Running(k + 2, c1), Running(k + 2 + |BranchOps(v)|, after));
  }

  lemma PivotRuns(c: Linked, k: nat, core: Core, v: Variant, pivot: uint32, right: LabelID, sel: Word, rest: seq<Word>)
    requires Valid(c) && At(c, k, PivotCode(pivot, v, right)) && Target(c, right).Some?
    requires core.stack == [sel] + rest && |rest| + 5 <= STACK_LIMIT
    ensures Reaches(c, Running(k, core),
      Running(if GoesRight(v, pivot, sel) then Target(c, right).value else k + |PivotCode(pivot, v, right)|,
              Spend(core, NodeGas(c.env, pivot, v))))
  {
    var m := k + 2 + |BranchOps(v)|;
    AtSplit(c, k, [Op(DUP1), PushNat(pivot)] + BranchOps(v), [LabelRef(right), Op(JUMPI)]);
    var c2 := CompareRuns(c, k, core, v, pivot, sel, rest);
    var c3 := BranchTo(c, m, c2, right, GoesRight(v, pivot, sel), core.stack);
    var t := Running(if GoesRight(v, pivot, sel) then Target(c, right).value else m + 2, c3);
    Then(c, Running(k, core), Running(m, c2), t);
    assert c3 == Spend(core, NodeGas(c.env, pivot, v));
    assert k + |PivotCode(pivot, v, right)| == m + 2;
  }

  lemma TestRuns(c: Linked, k: nat, core: Core, e: Entry, l: LabelID, sel: Word, rest: seq<Word>)
    requires Valid(c) && At(c, k, TestCode(e, l)) && Target(c, l).Some?
    requires core.stack == [sel] + rest && |rest| + 5 <= STACK_LIMIT
    ensures Reaches(c, Running(k, core),
      Running(if e.selector == sel then Target(c, l).value else k + 5, Spend(core, TestGas(c.env, e))))
  {
    TestParts(c, k, e, l);
    var c2 := EqualRuns(c, k, core, e.selector, sel, rest);
    var c3 := BranchTo(c, k + 3, c2, l, e.selector == sel, [sel] + rest);
    Then(c, Running(k, core), Running(k + 3, c2),
         Running(if e.selector == sel then Target(c, l).value else k + 5, c3));
  }

  lemma TestParts(c: Linked, k: nat, e: Entry, l: LabelID)
    requires At(c, k, TestCode(e, l))
    ensures At(c, k, [Op(DUP1), PushNat(e.selector)]) && At(c, k + 2, [Op(EQ)])
    ensures At(c, k + 3, [LabelRef(l), Op(JUMPI)])
  {
    assert TestCode(e, l) == [Op(DUP1), PushNat(e.selector)] + ([Op(EQ)] + [LabelRef(l), Op(JUMPI)]);
    AtSplit(c, k, [Op(DUP1), PushNat(e.selector)], [Op(EQ)] + [LabelRef(l), Op(JUMPI)]);
    AtSplit(c, k + 2, [Op(EQ)], [LabelRef(l), Op(JUMPI)]);
  }

  lemma EqualRuns(c: Linked, k: nat, core: Core, v: uint32, sel: Word, rest: seq<Word>) returns (after: Core)
    requires Interprets(c.sem, c.env)
    requires At(c, k, [Op(DUP1), PushNat(v)]) && At(c, k + 2, [Op(EQ)])
    requires core.stack == [sel] + rest && |rest| + 3 <= STACK_LIMIT
    ensures after == Spend(core, c.env.gas(DUP1) + c.env.gas(PushNat(v).width) + c.env.gas(EQ))
                       .(stack := [Bool(v == sel)] + ([sel] + rest))
    ensures Reaches(c, Running(k, core), Running(k + 3, after))
  {
    var c1 := DupPush(c, k, core, sel, rest, v);
    assert c1.stack == [v as Word, sel] + ([sel] + rest);
    Nth(c, k + 2, [Op(EQ)], 0);
    DoCompare(c, k + 2, c1, EQ, v, sel, [sel] + rest);
    after := Ran(c.env, EQ, c1, [Bool(v == sel)] + ([sel] + rest));
    ThenStep(c, Running(k, core), Running(k + 2, c1), Running(k + 3, after));
  }

  lemma DestRuns(c: Linked, k: nat, core: Core)
    requires Interprets(c.sem, c.env)
    requires k < c.bound <= |c.prog| && c.prog[k] == Op(JUMPDEST)
    ensures Reaches(c, Running(k, core), Running(k + 1, Spend(core, c.env.gas(JUMPDEST))))
  {
    DoOp(c, k, core, JUMPDEST, Spend(core, c.env.gas(JUMPDEST)));
    OneStep(c, Running(k, core), Running(k + 1, Spend(core, c.env.gas(JUMPDEST))));
  }

  lemma LoadRuns(c: Linked, k: nat, core: Core, offset: uint32) returns (after: Core)
    requires Interprets(c.sem, c.env)
    requires At(c, k, [PushNat(offset), Op(CALLDATALOAD)]) && |core.stack| < STACK_LIMIT
    ensures after.stack == [WordOf(Window(c.env.calldata, offset, 32))] + core.stack
    ensures after == Spend(core, c.env.gas(PushNat(offset).width) + c.env.gas(CALLDATALOAD)).(stack := after.stack)
    ensures Reaches(c, Running(k, core), Running(k + 2, after))
  {
    Nth(c, k, [PushNat(offset), Op(CALLDATALOAD)], 0);
    Nth(c, k, [PushNat(offset), Op(CALLDATALOAD)], 1);
    var c1 := Ran(c.env, PushNat(offset).width, core, [offset] + core.stack);
    DoPush(c, k, core, offset);
    after := Ran(c.env, CALLDATALOAD, c1, [WordOf(Window(c.env.calldata, offset, 32))] + core.stack);
    DoLoad(c, k + 1, c1, offset, core.stack, after);
    TwoSteps(c, Running(k, core), Running(k + 1, c1), Running(k + 2, after));
  }

  lemma DoLoad(c: Linked, k: nat, core: Core, at: Word, rest: seq<Word>, after: Core)
    requires Interprets(c.sem, c.env)
    requires k < |c.prog| && c.prog[k] == Op(CALLDATALOAD)
    requires core.stack == [at] + rest
    requires after == Ran(c.env, CALLDATALOAD, core, [WordOf(Window(c.env.calldata, at, 32))] + rest)
    ensures Next1(c, Running(k, core)) == Running(k + 1, after)
  {
    assert core.stack[1..] == rest;
    DoOp(c, k, core, CALLDATALOAD, after);
  }

  lemma ArgWordsSnoc(calldata: seq<byte>, n: nat, rest: seq<Word>)
    ensures ArgWords(calldata, n) + ([ArgWord(calldata, n)] + rest) == ArgWords(calldata, n + 1) + rest
  {
    Assoc(ArgWords(calldata, n), [ArgWord(calldata, n)], rest);
  }

  // One round of the argument loop.
  lemma ArgumentStep(c: Linked, k: nat, core: Core, i: nat) returns (after: Core)
    requires Interprets(c.sem, c.env)
    requires At(c, k, [PushNat(ArgOffset(i)), Op(CALLDATALOAD)]) && |core.stack| + i < STACK_LIMIT
    ensures after == Spend(core, LoadGas(c.env, i)).(stack := [ArgWord(c.env.calldata, i)] + core.stack)
    ensures Reaches(c, Running(k, core), Running(k + 2, after))
  {
    after := LoadRuns(c, k, core, ArgOffset(i));
    OffsetSmall(c.env.calldata, i);
  }

  lemma ArgumentsAt(c: Linked, k: nat, n: nat, i: nat)
    requires At(c, k, Arguments(n)) && n == i + 1
    ensures At(c, k, [PushNat(ArgOffset(i)), Op(CALLDATALOAD)]) && At(c, k + 2, Arguments(i))
  {
    ArgumentsUnfold(n, i);
    HeadAt(c, k, Arguments(n), PushNat(ArgOffset(i)), Op(CALLDATALOAD), Arguments(i));
  }

  lemma HeadAt(c: Linked, k: nat, code: seq<Instr>, a: Instr, b: Instr, tail: seq<Instr>)
    requires At(c, k, code) && code == [a, b] + tail
    ensures At(c, k, [a, b]) && At(c, k + 2, tail)
  {
    AtSplit(c, k, [a, b], tail);
  }

  lemma ArgumentsUnfold(n: nat, i: nat)
    requires n == i + 1
    ensures Arguments(n) == [PushNat(ArgOffset(i)), Op(CALLDATALOAD)] + Arguments(i)
  {
  }

  lemma OffsetSmall(calldata: seq<byte>, i: nat)
    requires i < STACK_LIMIT
    ensures WordOf(Window(calldata, ArgOffset(i), 32)) == ArgWord(calldata, i)
  {
    assert ArgOffset(i) == 4 + 32 * i;
  }

  // The argument loop leaves calldata word i at depth i.
  lemma {:induction false} ArgumentsRun(c: Linked, k: nat, core: Core, n: nat) returns (end: nat, after: Core)
    requires Interprets(c.sem, c.env)
    requires At(c, k, Arguments(n)) && |core.stack| + n <= STACK_LIMIT
    ensures end == k + 2 * n
    ensures after == Spend(core, ArgumentsGas(c.env, n)).(stack := ArgWords(c.env.calldata, n) + core.stack)
    ensures Reaches(c, Running(k, core), Running(end, after))
    decreases n
  {
    if n == 0 {
      end, after := k, core;
      assert ArgWords(c.env.calldata, 0) + core.stack == core.stack;
      Here(c, Running(k, core));
    } else {
      var i := n - 1;
      ArgumentsAt(c, k, n, i);
      var c1 := ArgumentStep(c, k, core, i);
      end, after := ArgumentsRun(c, k + 2, c1, i);
      ArgumentsMore(c.env, core, c1, i);
      Then(c, Running(k, core), Running(k + 2, c1), Running(end, after));
    }
  }

  lemma ArgumentsMore(env: Env, core: Core, c1: Core, i: nat)
    requires c1 == Spend(core, LoadGas(env, i)).(stack := [ArgWord(env.calldata, i)] + core.stack)
    ensures Spend(c1, ArgumentsGas(env, i)).(stack := ArgWords(env.calldata, i) + c1.stack)
         == Spend(core, ArgumentsGas(env, i + 1)).(stack := ArgWords(env.calldata, i + 1) + core.stack)
  {
    ArgWordsSnoc(env.calldata, i, core.stack);
  }

  // The state in which the function of a matched entry starts: its arguments in order, then the
  // selector, then whatever was below.
  function Arrived(c: Linked, e: Entry, core: Core, gas: nat): State
    requires Target(c, e.dest).Some?
  {
    Running(Target(c, e.dest).value, Spend(core, gas).(stack := ArgWords(c.env.calldata, e.args) + core.stack))
  }

  lemma LeafRuns(c: Linked, k: nat, core: Core, e: Entry, next: nat, sel: Word, rest: seq<Word>)
    requires Valid(c) && At(c, k, LeafCode(e, next)) && Target(c, e.dest).Some?
    requires core.stack == [sel] + rest && |rest| + e.args + 5 <= STACK_LIMIT
    ensures Reaches(c, Running(k, core),
      if e.selector == sel then Arrived(c, e, core, MatchGas(c.env, e)) else Rejected(c.env, core, TestGas(c.env, e)))
  {
    if e.args == 0 {
      DirectLeafRuns(c, k, core, e, sel, rest);
    } else {
      DecodingLeafRuns(c, k, core, e, Wrap(next), sel, rest);
    }
  }

  lemma DirectLeafRuns(c: Linked, k: nat, core: Core, e: Entry, sel: Word, rest: seq<Word>)
    requires Valid(c) && At(c, k, TestCode(e, e.dest) + REVERT_CODE) && Target(c, e.dest).Some?
    requires e.args == 0
    requires core.stack == [sel] + rest && |rest| + 5 <= STACK_LIMIT
    ensures Reaches(c, Running(k, core),
      if e.selector == sel then Arrived(c, e, core, MatchGas(c.env, e)) else Rejected(c.env, core, TestGas(c.env, e)))
  {
    AtSplit(c, k, TestCode(e, e.dest), REVERT_CODE);
    TestRuns(c, k, core, e, e.dest, sel, rest);
    var c1 := Spend(core, TestGas(c.env, e));
    assert Arrived(c, e, core, MatchGas(c.env, e)) == Running(Target(c, e.dest).value, c1) by {
      assert ArgWords(c.env.calldata, 0) + core.stack == core.stack;
    }
    TestFails(c, k, core, c1, e, e.dest);
    if e.selector != sel {
      Then(c, Running(k, core), Running(k + 5, c1), Rejected(c.env, core, TestGas(c.env, e)));
    }
  }

  lemma TestFails(c: Linked, k: nat, core: Core, c1: Core, e: Entry, l: LabelID)
    requires Interprets(c.sem, c.env) && At(c, k, TestCode(e, l) + REVERT_CODE) && |c1.stack| + 2 <= STACK_LIMIT
    ensures Reaches(c, Running(k + 5, c1), Rejected(c.env, c1, 0))
  {
    AtSplit(c, k, TestCode(e, l), REVERT_CODE);
    assert |TestCode(e, l)| == 5;
    RevertRuns(c, k + 5, c1);
  }

  lemma DecodingLeafAt(c: Linked, k: nat, e: Entry, l: LabelID)
    requires Valid(c) && At(c, k, DecodingLeaf(e, l))
    ensures At(c, k, TestCode(e, l)) && At(c, k, TestCode(e, l) + REVERT_CODE)
    ensures Target(c, l) == Some(k + 9) && k + 9 < c.bound <= |c.prog| && c.prog[k + 9] == Op(JUMPDEST)
    ensures At(c, k + 10, Arguments(e.args) + [LabelRef(e.dest), Op(JUMP)])
  {
    LeafPartsAt(c, k, TestCode(e, l), REVERT_CODE, l, Arguments(e.args) + [LabelRef(e.dest), Op(JUMP)], REVERT_CODE);
  }

  lemma LeafPartsAt(c: Linked, k: nat, test: seq<Instr>, revert: seq<Instr>, l: LabelID, body: seq<Instr>,
                    tail: seq<Instr>)
    requires Valid(c) && At(c, k, test + revert + Dest(l) + (body + tail))
    requires |test| == 5 && |revert| == 3
    ensures At(c, k, test) && At(c, k, test + revert)
    ensures Target(c, l) == Some(k + 9) && k + 9 < c.bound <= |c.prog| && c.prog[k + 9] == Op(JUMPDEST)
    ensures At(c, k + 10, body)
  {
    var dest := Dest(l);
    AtSplit(c, k, test + revert + dest, body + tail);
    AtSplit(c, k, test + revert, dest);
    AtSplit(c, k, test, revert);
    AtSplit(c, k + 10, body, tail);
    Nth(c, k + 8, dest, 0);
    Nth(c, k + 8, dest, 1);
  }

  lemma DecodingLeafRuns(c: Linked, k: nat, core: Core, e: Entry, l: LabelID, sel: Word, rest: seq<Word>)
    requires Valid(c) && Target(c, e.dest).Some?
    requires At(c, k, DecodingLeaf(e, l)) && e.args > 0
    requires core.stack == [sel] + rest && |rest| + e.args + 5 <= STACK_LIMIT
    ensures Reaches(c, Running(k, core),
      if e.selector == sel then Arrived(c, e, core, MatchGas(c.env, e)) else Rejected(c.env, core, TestGas(c.env, e)))
  {
    DecodingLeafAt(c, k, e, l);
    TestRuns(c, k, core, e, l, sel, rest);
    var c1 := Spend(core, TestGas(c.env, e));
    if e.selector == sel {
      MatchedLeafRuns(c, k + 9, c1, core, e);
      Then(c, Running(k, core), Running(k + 9, c1), Arrived(c, e, core, MatchGas(c.env, e)));
    } else {
      TestFails(c, k, core, c1, e, l);
      Then(c, Running(k, core), Running(k + 5, c1), Rejected(c.env, core, TestGas(c.env, e)));
    }
  }

  lemma MatchedLeafRuns(c: Linked, k: nat, c1: Core, core: Core, e: Entry)
    requires Valid(c) && Target(c, e.dest).Some? && e.args > 0
    requires k < c.bound <= |c.prog| && c.prog[k] == Op(JUMPDEST)
    requires At(c, k + 1, Arguments(e.args) + [LabelRef(e.dest), Op(JUMP)])
    requires c1 == Spend(core, TestGas(c.env, e))
    requires |core.stack| + e.args < STACK_LIMIT
    ensures Reaches(c, Running(k, c1), Arrived(c, e, core, MatchGas(c.env, e)))
  {
    var c2 := Spend(c1, c.env.gas(JUMPDEST));
    var g := ArgumentsGas(c.env, e.args) + c.env.gas(PUSH2) + c.env.gas(JUMP);
    DestRuns(c, k, c1);
    BodyRuns(c, k + 1, c2, e, g);
    assert Arrived(c, e, c2, g) == Arrived(c, e, core, MatchGas(c.env, e));
    Then(c, Running(k, c1), Running(k + 1, c2), Arrived(c, e, c2, g));
  }

  lemma BodyRuns(c: Linked, k: nat, core: Core, e: Entry, g: nat)
    requires Valid(c) && Target(c, e.dest).Some?
    requires At(c, k, Arguments(e.args) + [LabelRef(e.dest), Op(JUMP)])
    requires |core.stack| + e.args < STACK_LIMIT
    requires g == ArgumentsGas(c.env, e.args) + c.env.gas(PUSH2) + c.env.gas(JUMP)
    ensures Reaches(c, Running(k, core), Arrived(c, e, core, g))
  {
    AtSplit(c, k, Arguments(e.args), [LabelRef(e.dest), Op(JUMP)]);
    var end, c1 := ArgumentsRun(c, k, core, e.args);
    JumpsTo(c, end, c1, e.dest);
    BodyEnds(c, core, c1, e, g);
    Then(c, Running(k, core), Running(end, c1), Arrived(c, e, core, g));
  }

  lemma BodyEnds(c: Linked, core: Core, c1: Core, e: Entry, g: nat)
    requires Target(c, e.dest).Some?
    requires c1 == Spend(core, ArgumentsGas(c.env, e.args)).(stack := ArgWords(c.env.calldata, e.args) + core.stack)
    requires g == ArgumentsGas(c.env, e.args) + c.env.gas(PUSH2) + c.env.gas(JUMP)
    ensures Running(Target(c, e.dest).value, Spend(c1, c.env.gas(PUSH2) + c.env.gas(JUMP))) == Arrived(c, e, core, g)
  {
  }

  // Where the tree takes a selector: to the entry of its leaf if that entry has this very selector,
  // otherwise to REVERT(0, 0). A fallback is used only when the whole table is empty.
  function Verdict(c: Linked, entries: seq<Entry>, fallback: Option<LabelID>, v: Variant, core: Core, sel: Word): State
    requires forall e :: e in entries ==> Target(c, e.dest).Some?
    requires entries == [] && fallback.Some? ==> Target(c, fallback.value).Some?
  {
    if entries == [] then
      match fallback
      case Some(l) => Running(Target(c, l).value, Spend(core, c.env.gas(PUSH2) + c.env.gas(JUMP)))
      case None => Rejected(c.env, core, 0)
    else
      AtLeaf(c, entries[Route(entries, v, sel)], core, PathGas(c.env, entries, v, sel), sel)
  }

  // The end of a search that came to the leaf of e for gas g.
  function AtLeaf(c: Linked, e: Entry, core: Core, g: nat, sel: Word): State
    requires Target(c, e.dest).Some?
  {
    if e.selector == sel then Arrived(c, e, core, g + MatchGas(c.env, e))
    else Rejected(c.env, core, g + TestGas(c.env, e))
  }

  // The code of a (sub)table as a function of the table and the labels created before. The proofs see
  // Tree through it, one level at a time.
  type Coder = (seq<Entry>, nat) -> seq<Instr>

  function TreeCoder(fallback: Option<LabelID>, v: Variant): Coder {
    (entries: seq<Entry>, next: nat) => Tree(entries, fallback, v, next)
  }

  ghost predicate Codes(code: Coder, fallback: Option<LabelID>, v: Variant) {
    forall entries: seq<Entry>, next: nat {:trigger Tree(entries, fallback, v, next)} ::
      code(entries, next) == Tree(entries, fallback, v, next)
  }

  lemma TreeRuns(c: Linked, k: nat, entries: seq<Entry>, fallback: Option<LabelID>, v: Variant,
                 next: nat, core: Core, sel: Word, rest: seq<Word>)
    requires Valid(c) && At(c, k, Tree(entries, fallback, v, next))
    requires forall e :: e in entries ==> Target(c, e.dest).Some? && |rest| + e.args + 5 <= STACK_LIMIT
    requires entries == [] && fallback.Some? ==> Target(c, fallback.value).Some?
    requires core.stack == [sel] + rest && |rest| + 5 <= STACK_LIMIT
    ensures Reaches(c, Running(k, core), Verdict(c, entries, fallback, v, core, sel))
  {
    CodeRuns(c, k, TreeCoder(fallback, v), entries, fallback, v, next, core, sel, rest);
  }

  lemma {:induction false} CodeRuns(c: Linked, k: nat, code: Coder, entries: seq<Entry>, fallback: Option<LabelID>,
                                    v: Variant, next: nat, core: Core, sel: Word, rest: seq<Word>)
    requires Valid(c) && Codes(code, fallback, v) && At(c, k, code(entries, next))
    requires forall e :: e in entries ==> Target(c, e.dest).Some? && |rest| + e.args + 5 <= STACK_LIMIT
    requires entries == [] && fallback.Some? ==> Target(c, fallback.value).Some?
    requires core.stack == [sel] + rest && |rest| + 5 <= STACK_LIMIT
    ensures Reaches(c, Running(k, core), Verdict(c, entries, fallback, v, core, sel))
    decreases |entries|
  {
    if |entries| == 0 {
      EmptyCode(code, fallback, v, next);
      EmptyRuns(c, k, fallback, v, core, sel);
    } else if |entries| == 1 {
      SingleCode(code, entries, fallback, v, next);
      SingleRuns(c, k, entries, fallback, v, next, core, sel, rest);
    } else {
      var k', sub, g, next' := Descend(c, k, code, entries, fallback, v, next, core, sel, rest);
      HalfSubset(c.env, entries, v, sel, sub, g);
      CodeRuns(c, k', code, sub, fallback, v, next', Spend(core, g), sel, rest);
      VerdictStep(c, entries, fallback, v, core, sel, sub, g);
      Then(c, Running(k, core), Running(k', Spend(core, g)), Verdict(c, sub, fallback, v, Spend(core, g), sel));
    }
  }

  lemma EmptyCode(code: Coder, fallback: Option<LabelID>, v: Variant, next: nat)
    requires Codes(code, fallback, v)
    ensures code([], next) == FallbackCode(fallback)
  {
    assert code([], next) == Tree([], fallback, v, next);
  }

  lemma SingleCode(code: Coder, entries: seq<Entry>, fallback: Option<LabelID>, v: Variant, next: nat)
    requires Codes(code, fallback, v) && |entries| == 1
    ensures code(entries, next) == LeafCode(entries[0], next)
  {
    assert code(entries, next) == Tree(entries, fallback, v, next);
  }

  lemma NodeCode(code: Coder, entries: seq<Entry>, fallback: Option<LabelID>, v: Variant, next: nat, n1: nat)
    requires Codes(code, fallback, v) && |entries| >= 2 && n1 == next + 1 + Labels(entries[..|entries| / 2])
    ensures var mid := |entries| / 2;
      code(entries, next) == PivotCode(entries[mid].selector, v, Wrap(next)) + code(entries[..mid], next + 1)
                             + (Dest(Wrap(next)) + code(entries[mid..], n1))
  {
    TreeNode(entries, fallback, v, next);
  }

  lemma EmptyRuns(c: Linked, k: nat, fallback: Option<LabelID>, v: Variant, core: Core, sel: Word)
    requires Valid(c) && At(c, k, FallbackCode(fallback)) && |core.stack| + 2 <= STACK_LIMIT
    requires fallback.Some? ==> Target(c, fallback.value).Some?
    ensures Reaches(c, Running(k, core), Verdict(c, [], fallback, v, core, sel))
  {
    if fallback.Some? {
      JumpsTo(c, k, core, fallback.value);
    } else {
      RevertRuns(c, k, core);
    }
  }

  lemma SingleRuns(c: Linked, k: nat, entries: seq<Entry>, fallback: Option<LabelID>, v: Variant,
                   next: nat, core: Core, sel: Word, rest: seq<Word>)
    requires |entries| == 1
    requires Valid(c) && At(c, k, LeafCode(entries[0], next))
    requires forall e :: e in entries ==> Target(c, e.dest).Some?
    requires core.stack == [sel] + rest && |rest| + entries[0].args + 5 <= STACK_LIMIT
    ensures Reaches(c, Running(k, core), Verdict(c, entries, fallback, v, core, sel))
  {
    LeafRuns(c, k, core, entries[0], next, sel, rest);
    SingleVerdict(c, entries, fallback, v, core, sel);
  }

  lemma SingleVerdict(c: Linked, entries: seq<Entry>, fallback: Option<LabelID>, v: Variant, core: Core, sel: Word)
    requires |entries| == 1
    requires forall e :: e in entries ==> Target(c, e.dest).Some?
    ensures Verdict(c, entries, fallback, v, core, sel) ==
      if entries[0].selector == sel then Arrived(c, entries[0], core, MatchGas(c.env, entries[0]))
      else Rejected(c.env, core, TestGas(c.env, entries[0]))
  {
  }

  // The half of the table a node searches on for `sel`, and the gas spent until its code starts.
  ghost predicate Half(env: Env, entries: seq<Entry>, v: Variant, sel: Word, sub: seq<Entry>, g: nat)
    requires |entries| >= 2
  {
    var mid := |entries| / 2;
    var right := GoesRight(v, entries[mid].selector, sel);
    && sub == (if right then entries[mid..] else entries[..mid])
    && g == NodeGas(env, entries[mid].selector, v) + (if right then env.gas(JUMPDEST) else 0)
  }

  lemma HalfSubset(env: Env, entries: seq<Entry>, v: Variant, sel: Word, sub: seq<Entry>, g: nat)
    requires |entries| >= 2 && Half(env, entries, v, sel, sub, g)
    ensures 0 < |sub| < |entries| && forall e :: e in sub ==> e in entries
  {
  }

  lemma Descend(c: Linked, k: nat, code: Coder, entries: seq<Entry>, fallback: Option<LabelID>, v: Variant,
                next: nat, core: Core, sel: Word, rest: seq<Word>)
    returns (k': nat, sub: seq<Entry>, g: nat, next': nat)
    requires Valid(c) && Codes(code, fallback, v) && |entries| >= 2 && At(c, k, code(entries, next))
    requires core.stack == [sel] + rest && |rest| + 5 <= STACK_LIMIT
    ensures Half(c.env, entries, v, sel, sub, g)
    ensures At(c, k', code(sub, next'))
    ensures Reaches(c, Running(k, core), Running(k', Spend(core, g)))
  {
    var left, right := entries[..|entries| / 2], entries[|entries| / 2..];
    var pivot, n0, n1 := entries[|entries| / 2].selector, next + 1, next + 1 + Labels(left);
    NodeCode(code, entries, fallback, v, next, n1);
    AtSame(c, k, code(entries, next),
           PivotCode(pivot, v, Wrap(next)) + code(left, n0) + (Dest(Wrap(next)) + code(right, n1)));
    k', g := NodeRuns(c, k, pivot, v, Wrap(next), code(left, n0), code(right, n1), core, sel, rest);
    if GoesRight(v, pivot, sel) {
      sub, next' := right, n1;
    } else {
      sub, next' := left, n0;
    }
  }

  // A node takes control to the code of the half it searches on, which starts at k'.
  lemma NodeRuns(c: Linked, k: nat, pivot: uint32, v: Variant, l: LabelID, left: seq<Instr>, right: seq<Instr>,
                 core: Core, sel: Word, rest: seq<Word>)
    returns (k': nat, g: nat)
    requires Valid(c) && At(c, k, PivotCode(pivot, v, l) + left + (Dest(l) + right))
    requires core.stack == [sel] + rest && |rest| + 5 <= STACK_LIMIT
    ensures At(c, k', if GoesRight(v, pivot, sel) then right else left)
    ensures g == NodeGas(c.env, pivot, v) + (if GoesRight(v, pivot, sel) then c.env.gas(JUMPDEST) else 0)
    ensures Reaches(c, Running(k, core), Running(k', Spend(core, g)))
  {
    var code := PivotCode(pivot, v, l);
    var r := NodeAt(c, k, code, left, l, right);
    PivotRuns(c, k, core, v, pivot, l, sel, rest);
    k', g := HalfRuns(c, k, core, k + |code|, r, GoesRight(v, pivot, sel), NodeGas(c.env, pivot, v));
  }

  // The left half starts at `after`, the right one behind the JUMPDEST at r.
  lemma HalfRuns(c: Linked, k: nat, core: Core, after: nat, r: nat, goesRight: bool, base: nat)
    returns (k': nat, g: nat)
    requires Interprets(c.sem, c.env) && r < c.bound <= |c.prog| && c.prog[r] == Op(JUMPDEST)
    requires Reaches(c, Running(k, core), Running(if goesRight then r else after, Spend(core, base)))
    ensures k' == (if goesRight then r + 1 else after)
    ensures g == base + if goesRight then c.env.gas(JUMPDEST) else 0
    ensures Reaches(c, Running(k, core), Running(k', Spend(core, g)))
  {
    if goesRight {
      k', g := r + 1, base + c.env.gas(JUMPDEST);
      ThenDest(c, Running(k, core), r, core, base);
    } else {
      k', g := after, base;
    }
  }

  lemma AtSame(c: Linked, k: nat, a: seq<Instr>, b: seq<Instr>)
    requires At(c, k, a) && a == b
    ensures At(c, k, b)
  {
  }

  lemma ThenDest(c: Linked, s: State, r: nat, core: Core, g: nat)
    requires Interprets(c.sem, c.env) && r < c.bound <= |c.prog| && c.prog[r] == Op(JUMPDEST)
    requires Reaches(c, s, Running(r, Spend(core, g)))
    ensures Reaches(c, s, Running(r + 1, Spend(core, g + c.env.gas(JUMPDEST))))
  {
    DestRuns(c, r, Spend(core, g));
    assert Spend(Spend(core, g), c.env.gas(JUMPDEST)) == Spend(core, g + c.env.gas(JUMPDEST));
    Then(c, s, Running(r, Spend(core, g)), Running(r + 1, Spend(core, g + c.env.gas(JUMPDEST))));
  }

  // The two subtrees of a node, and the JUMPDEST the right one is reached through.
  lemma NodeAt(c: Linked, k: nat, pivot: seq<Instr>, left: seq<Instr>, l: LabelID, right: seq<Instr>) returns (r: nat)
    requires Valid(c) && At(c, k, pivot + left + (Dest(l) + right))
    ensures At(c, k, pivot) && At(c, k + |pivot|, left)
    ensures Target(c, l) == Some(r) && r < c.bound <= |c.prog| && c.prog[r] == Op(JUMPDEST)
    ensures At(c, r + 1, right)
  {
    var dest := Dest(l);
    AtSplit(c, k, pivot + left, dest + right);
    AtSplit(c, k, pivot, left);
    AtSplit(c, k + |pivot + left|, dest, right);
    r := k + |pivot + left| + 1;
    Nth(c, r - 1, dest, 0);
    Nth(c, r - 1, dest, 1);
  }

  // One level of Route and PathGas: `sub` is the half that is searched on.
  lemma RouteStep(env: Env, entries: seq<Entry>, v: Variant, sel: Word, sub: seq<Entry>, g: nat)
    requires |entries| >= 2 && Half(env, entries, v, sel, sub, g)
    ensures sub[Route(sub, v, sel)] == entries[Route(entries, v, sel)]
    ensures PathGas(env, entries, v, sel) == g + PathGas(env, sub, v, sel)
  {
  }

  lemma VerdictStep(c: Linked, entries: seq<Entry>, fallback: Option<LabelID>, v: Variant, core: Core, sel: Word,
                    sub: seq<Entry>, g: nat)
    requires |entries| >= 2 && Half(c.env, entries, v, sel, sub, g)
    requires forall e :: e in entries ==> Target(c, e.dest).Some?
    requires forall e :: e in sub ==> Target(c, e.dest).Some?
    ensures Verdict(c, entries, fallback, v, core, sel) == Verdict(c, sub, fallback, v, Spend(core, g), sel)
  {
    RouteStep(c.env, entries, v, sel, sub, g);
    SpendMore(c, sub[Route(sub, v, sel)], core, g, PathGas(c.env, sub, v, sel));
  }

  lemma SpendMore(c: Linked, e: Entry, core: Core, g: nat, h: nat)
    requires Target(c, e.dest).Some?
    ensures Arrived(c, e, core, g + h + MatchGas(c.env, e)) == Arrived(c, e, Spend(core, g), h + MatchGas(c.env, e))
    ensures Rejected(c.env, core, g + h + TestGas(c.env, e)) == Rejected(c.env, Spend(core, g), h + TestGas(c.env, e))
  {
  }
}
