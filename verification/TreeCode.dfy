// Evaluating a tree of pure operations on the machine: it gives the value of the tree for exactly the gas
// the cost model counts.

module TreeCode {
  import opened Wrappers
  import opened Words
  import opened Opcodes
  import opened Bytecode
  import opened Cfg
  import opened CostModel
  import opened Execution
  import opened Machine
  import opened Fragments

  // The opcodes one after the other.
  function Ops(codes: seq<byte>): (code: seq<Instr>)
    ensures |code| == |codes| && forall i :: 0 <= i < |code| ==> code[i] == Op(codes[i])
  {
    seq(|codes|, i requires 0 <= i < |codes| => Op(codes[i]))
  }

  lemma OpsConcat(a: seq<byte>, b: seq<byte>)
    ensures Ops(a + b) == Ops(a) + Ops(b)
  {
  }

  // The opcode of a pure operation takes its operands from the stack, the first one on top, leaves what the
  // operation means, and costs the gas of the fork.
  ghost predicate Executes(env: Env, spec: ForkSpec, f: Function, meaning: Meaning) {
    && (forall c: byte :: env.gas(c) == spec.gas(c))
    && forall v, pc: nat, core: Core, args, rest ::
        Applies(f, v, core, args, rest) ==>
          var op := DefiningOp(f, v).value;
          Perform(env, pc, op.opcode.value, [], core)
          == Fall(Ran(env, op.opcode.value, core, [meaning(op, v, args)] + rest))
  }

  // The operands of the operation that defines v lie on the stack, with room for its result.
  ghost predicate Applies(f: Function, v: Value, core: Core, args: seq<Word>, rest: seq<Word>) {
    && DefiningOp(f, v).Some?
    && var op := DefiningOp(f, v).value;
      && op.pure && op.opcode.Some? && !IsImmediatePush(op.opcode.value)
      && |args| == |op.operands| && core.stack == args + rest && |rest| < STACK_LIMIT
  }

  // No opcode asks for immediate bytes.
  ghost predicate NoPushes(codes: seq<byte>) {
    forall i :: 0 <= i < |codes| ==> !IsImmediatePush(codes[i])
  }

  function Evaluated(core: Core, values: seq<Word>, gas: nat): Core {
    core.(stack := values + core.stack, spent := core.spent + gas)
  }

  // The code of a tree stands in the stream from index k on, and the stack has room for it.
  ghost predicate Placed(c: Linked, k: nat, core: Core, codes: seq<byte>) {
    At(c, k, Ops(codes)) && NoPushes(codes) && |core.stack| + |codes| <= STACK_LIMIT
  }

  lemma PlacedSplit(c: Linked, k: nat, core: Core, a: seq<byte>, b: seq<byte>, m: nat)
    requires Placed(c, k, core, a + b) && m == k + |a|
    ensures Placed(c, k, core, a) && At(c, m, Ops(b)) && NoPushes(b)
  {
    OpsConcat(a, b);
    AtSplit(c, k, Ops(a), Ops(b));
    forall i | 0 <= i < |a| ensures !IsImmediatePush(a[i]) {
      assert (a + b)[i] == a[i];
    }
    forall i | 0 <= i < |b| ensures !IsImmediatePush(b[i]) {
      assert (a + b)[|a| + i] == b[i];
    }
  }

  // An evaluation of codes from index k on gives these values for this gas and changes nothing else.
  ghost predicate Evaluates(c: Linked, k: nat, core: Core, codes: seq<byte>, values: seq<Word>, gas: nat) {
    Reaches(c, Running(k, core), Running(k + |codes|, Evaluated(core, values, gas)))
  }

  lemma EvaluatedTwice(core: Core, a: seq<Word>, g: nat, b: seq<Word>, h: nat)
    ensures Evaluated(Evaluated(core, a, g), b, h) == Evaluated(core, b + a, g + h)
  {
  }

  lemma EvaluateBoth(c: Linked, k: nat, core: Core, a: seq<byte>, b: seq<byte>, x: seq<Word>, g: nat, y: seq<Word>,
                     h: nat, m: nat, codes: seq<byte>, values: seq<Word>, gas: nat)
    requires m == k + |a| && Evaluates(c, k, core, a, x, g) && Evaluates(c, m, Evaluated(core, x, g), b, y, h)
    requires codes == a + b && values == y + x && gas == g + h
    ensures Evaluates(c, k, core, codes, values, gas)
  {
    EvaluatedTwice(core, x, g, y, h);
    Then(c, Running(k, core), Running(m, Evaluated(core, x, g)), Running(m + |b|, Evaluated(core, values, gas)));
  }

  lemma EvaluateNothing(c: Linked, k: nat, core: Core)
    ensures Evaluates(c, k, core, [], [], 0)
  {
    assert Evaluated(core, [], 0) == core;
    Here(c, Running(k, core));
  }

  // The root of a tree, once its operands are on the stack.
  lemma RootEvaluates(c: Linked, k: nat, core: Core, spec: ForkSpec, f: Function, meaning: Meaning, v: Value,
                      operands: seq<byte>, args: seq<Word>, gas: nat, m: nat, op: Operation, code: byte,
                      codes: seq<byte>, value: Word, total: nat)
    requires Interprets(c.sem, c.env) && Executes(c.env, spec, f, meaning)
    requires DefiningOp(f, v) == Some(op) && op.pure && op.opcode == Some(code) && !IsImmediatePush(code)
    requires |args| == |op.operands| && |core.stack| < STACK_LIMIT
    requires Evaluates(c, k, core, operands, args, gas) && m == k + |operands| && At(c, m, Ops([code]))
    requires codes == operands + [code] && value == meaning(op, v, args) && total == gas + spec.gas(code)
    ensures Evaluates(c, k, core, codes, [value], total)
  {
    var before := Evaluated(core, args, gas);
    var after := Ran(c.env, code, before, [meaning(op, v, args)] + core.stack);
    assert Applies(f, v, before, args, core.stack);
    Nth(c, m, Ops([code]), 0);
    DoOp(c, m, before, code, after);
    assert after == Evaluated(core, [value], total);
    ThenStep(c, Running(k, core), Running(m, before), Running(m + 1, after));
  }

  // A tree is its operands and its root.
  lemma TreeParts(spec: ForkSpec, f: Function, meaning: Meaning, v: Value, n: nat, j: nat)
    returns (op: Operation, code: byte, operands: seq<byte>, args: seq<Word>)
    requires PureTree(f, v, n) && n == j + 1
    ensures DefiningOp(f, v) == Some(op) && op.pure && op.opcode == Some(code)
    ensures forall i :: 0 <= i < |op.operands| ==> KnownTree(f, op.operands[i], {}, j)
    ensures operands == OperandOps(f, op.operands, |op.operands|, {}, j)
    ensures args == Operands(f, meaning, op.operands, j, |op.operands|)
    ensures TreeOps(f, v, {}, n) == operands + [code] && TreeValue(f, meaning, v, n) == meaning(op, v, args)
    ensures GasOf(spec, TreeOps(f, v, {}, n)) == GasOf(spec, operands) + spec.gas(code)
  {
    op := DefiningOp(f, v).value;
    code := op.opcode.value;
    operands := OperandOps(f, op.operands, |op.operands|, {}, j);
    args := Operands(f, meaning, op.operands, j, |op.operands|);
    GasConcat(spec, operands, [code]);
  }

  // Running the opcodes of a tree leaves its value on the stack, for the gas of the opcodes.
  lemma {:induction false} TreeEvaluates(c: Linked, k: nat, core: Core, spec: ForkSpec, f: Function,
                                         meaning: Meaning, v: Value, n: nat)
    requires Interprets(c.sem, c.env) && Executes(c.env, spec, f, meaning)
    requires PureTree(f, v, n) && Placed(c, k, core, TreeOps(f, v, {}, n))
    ensures Evaluates(c, k, core, TreeOps(f, v, {}, n), [TreeValue(f, meaning, v, n)],
                      GasOf(spec, TreeOps(f, v, {}, n)))
    decreases n, 0, 0
  {
    var op, code, operands, args := TreeParts(spec, f, meaning, v, n, n - 1);
    var m, codes := k + |operands|, TreeOps(f, v, {}, n);
    PlacedSplit(c, k, core, operands, [code], m);
    assert [code][0] == code;
    OperandsEvaluate(c, k, core, spec, f, meaning, op.operands, |op.operands|, n - 1);
    RootEvaluates(c, k, core, spec, f, meaning, v, operands, args, GasOf(spec, operands), m, op, code, codes,
                  TreeValue(f, meaning, v, n), GasOf(spec, codes));
  }

  lemma {:induction false} OperandsEvaluate(c: Linked, k: nat, core: Core, spec: ForkSpec, f: Function,
                                            meaning: Meaning, operands: seq<Value>, j: nat, n: nat)
    requires Interprets(c.sem, c.env) && Executes(c.env, spec, f, meaning)
    requires j <= |operands| && forall i :: 0 <= i < |operands| ==> KnownTree(f, operands[i], {}, n)
    requires Placed(c, k, core, OperandOps(f, operands, j, {}, n))
    ensures Evaluates(c, k, core, OperandOps(f, operands, j, {}, n), Operands(f, meaning, operands, n, j),
                      GasOf(spec, OperandOps(f, operands, j, {}, n)))
    decreases n, 1, j
  {
    if j == 0 {
      EvaluateNothing(c, k, core);
    } else {
      var i := j - 1;
      var last, others := TreeOps(f, operands[i], {}, n), OperandOps(f, operands, i, {}, n);
      var x, y := [TreeValue(f, meaning, operands[i], n)], Operands(f, meaning, operands, n, i);
      var g, m := GasOf(spec, last), k + |last|;
      PlacedSplit(c, k, core, last, others, m);
      TreeEvaluates(c, k, core, spec, f, meaning, operands[i], n);
      TreeGives(last, operands[i], f, n);
      OperandsEvaluate(c, m, Evaluated(core, x, g), spec, f, meaning, operands, i, n);
      OperandsJoin(spec, f, meaning, operands, i, j, n, last, others);
      var codes := OperandOps(f, operands, j, {}, n);
      EvaluateBoth(c, k, core, last, others, x, g, y, GasOf(spec, others), m, codes,
                   Operands(f, meaning, operands, n, j), GasOf(spec, codes));
    }
  }

  lemma OperandsJoin(spec: ForkSpec, f: Function, meaning: Meaning, operands: seq<Value>, i: nat, j: nat, n: nat,
                     last: seq<byte>, others: seq<byte>)
    requires j == i + 1 <= |operands| && forall i :: 0 <= i < |operands| ==> KnownTree(f, operands[i], {}, n)
    requires last == TreeOps(f, operands[i], {}, n) && others == OperandOps(f, operands, i, {}, n)
    ensures OperandOps(f, operands, j, {}, n) == last + others
    ensures Operands(f, meaning, operands, n, j)
         == Operands(f, meaning, operands, n, i) + [TreeValue(f, meaning, operands[i], n)]
    ensures GasOf(spec, OperandOps(f, operands, j, {}, n)) == GasOf(spec, last) + GasOf(spec, others)
  {
    GasConcat(spec, last, others);
  }

  lemma TreeGives(codes: seq<byte>, v: Value, f: Function, n: nat)
    requires PureTree(f, v, n) && codes == TreeOps(f, v, {}, n)
    ensures |codes| >= 1
  {
  }
}
