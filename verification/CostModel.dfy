// Recompute or spill: a budgeted search for the gas of evaluating a value again, against the plain sum.

module CostModel {
  import opened Wrappers
  import opened Words
  import opened Opcodes
  import opened Cfg

  const MAX_DEPTH := 5

  // No static gas of the fork exceeds that of CREATE.
  const MAX_GAS := 32000

  type Gas = g: int | 0 <= g <= MAX_GAS

  datatype ForkSpec = ForkSpec(gas: byte -> Gas)

  // ---------- the plain cost ----------

  // Static gas of evaluating v from the values in `stack`, over pure definitions, if MAX_DEPTH levels
  // of operations suffice.
  function PlainCost(spec: ForkSpec, f: Function, v: Value, stack: set<Value>, depth: nat): Option<nat>
    decreases MAX_DEPTH - depth, 0, v
  {
    if v in stack then Some(0)
    else if depth >= MAX_DEPTH then None
    else
      match DefiningOp(f, v)
      case None => None
      case Some(op) =>
        if !op.pure || op.opcode.None? then None
        else
          match PlainSum(spec, f, op.operands, |op.operands|, stack, depth + 1)
          case None => None
          case Some(rest) => Some(spec.gas(op.opcode.value) + rest)
  }

  // The first k operands together.
  function PlainSum(spec: ForkSpec, f: Function, operands: seq<Value>, k: nat, stack: set<Value>, depth: nat)
    : Option<nat>
    requires k <= |operands|
    decreases MAX_DEPTH - depth, 1, k
  {
    if k == 0 then Some(0)
    else
      var init := PlainSum(spec, f, operands, k - 1, stack, depth);
      var last := PlainCost(spec, f, operands[k - 1], stack, depth);
      if init.Some? && last.Some? then Some(init.value + last.value) else None
  }

  lemma {:induction false} SumGrows(spec: ForkSpec, f: Function, operands: seq<Value>, k: nat, n: nat,
                                    stack: set<Value>, depth: nat)
    requires k <= n <= |operands| && PlainSum(spec, f, operands, n, stack, depth).Some?
    ensures PlainSum(spec, f, operands, k, stack, depth).Some?
    ensures PlainSum(spec, f, operands, k, stack, depth).value <= PlainSum(spec, f, operands, n, stack, depth).value
  {
    if k < n {
      SumGrows(spec, f, operands, k, n - 1, stack, depth);
    }
  }

  function Within(cost: Option<nat>, accumulated: nat, threshold: nat): Option<nat> {
    if cost.Some? && accumulated + cost.value < threshold then cost else None
  }

  function Add32(a: uint32, b: uint32): uint32 {
    if a + b < 0x1_0000_0000 then a + b else a + b - 0x1_0000_0000
  }

  // One MSTORE and one MLOAD, each growing memory when the next slot is a fresh one.
  function SpillCost(spec: ForkSpec, warm: bool, expansion: uint32): uint32 {
    var grow := if warm then 0 else expansion;
    Add32(spec.gas(MSTORE) + spec.gas(MLOAD), Add32(grow, grow))
  }

  // The same without a width.
  function FullSpillCost(spec: ForkSpec, warm: bool, expansion: nat): nat {
    spec.gas(MSTORE) + spec.gas(MLOAD) + if warm then 0 else 2 * expansion
  }

  // ---------- the search ----------

  class EVMCostModel {
    const spec: ForkSpec

    constructor (spec: ForkSpec)
      ensures this.spec == spec
    {
      this.spec := spec;
    }

    // The price of a spill is that of one store and one load, with the expansion of memory charged to
    // both unless a freed slot is reused; it is right iff it fits 32 bits.
    method SpillMemoryCost(warm: bool, expansion: uint32) returns (cost: uint32)
      ensures cost == SpillCost(spec, warm, expansion)
      ensures cost == FullSpillCost(spec, warm, expansion) <==> FullSpillCost(spec, warm, expansion) < 0x1_0000_0000
    {
      var grow := if warm then 0 else expansion;
      cost := Add32(spec.gas(MSTORE) + spec.gas(MLOAD), Add32(grow, grow));
    }

    // The budgeted search finds the plain cost iff that is below the price of a spill. Sums stay
    // within 32 bits as long as the threshold leaves room for one more operation.
    method RecomputeCost(f: Function, v: Value, currentStack: set<Value>, warm: bool, expansion: uint32)
      returns (cost: Option<uint32>)
      ensures var threshold := SpillCost(spec, warm, expansion);
        threshold + MAX_GAS < 0x1_0000_0000 && (threshold > 0 || v !in currentStack) ==>
          cost == Within(PlainCost(spec, f, v, currentStack, 0), 0, threshold)
      // a tree of at most 5 levels is found iff the gas of its opcodes is below that price
      ensures var price := spec.gas(MSTORE) + spec.gas(MLOAD) + if warm then 0 else 2 * expansion;
        price + MAX_GAS < 0x1_0000_0000 && (price > 0 || v !in currentStack) ==>
          forall n: nat :: n == 5 ==>
            && (cost.Some? <==>
                  KnownTree(f, v, currentStack, n) && GasOf(spec, TreeOps(f, v, currentStack, n)) < price)
            && (cost.Some? ==> cost.value == GasOf(spec, TreeOps(f, v, currentStack, n)))
    {
      CostIsGas(spec, f, v, currentStack, 0, MAX_DEPTH);
      var threshold := SpillMemoryCost(warm, expansion);
      cost := RecomputeCostImpl(f, v, currentStack, threshold, 0, 0);
    }

    method RecomputeCostImpl(f: Function, v: Value, currentStack: set<Value>, threshold: uint32, depth: nat,
                             accumulatedCost: uint32)
      returns (r: Option<uint32>)
      ensures accumulatedCost < threshold && threshold + MAX_GAS < 0x1_0000_0000 ==>
        r == Within(PlainCost(spec, f, v, currentStack, depth), accumulatedCost, threshold)
      ensures accumulatedCost >= threshold ==> r == if v in currentStack then Some(0) else None
      decreases MAX_DEPTH - depth
    {
      if v in currentStack {
        return Some(0);
      }
      if depth >= MAX_DEPTH {
        return None;
      }
      if accumulatedCost >= threshold {
        return None;
      }
      var defOp := DefiningOp(f, v);
      if defOp.None? {
        return None;
      }
      var op := defOp.value;
      if !op.pure {
        return None;
      }
      if op.opcode.None? {
        return None;
      }
      var cost: uint32 := spec.gas(op.opcode.value);
      ghost var own := cost;
      var budget: uint32 := Add32(accumulatedCost, cost);
      if budget >= threshold {
        return None;
      }
      ghost var room := threshold + MAX_GAS < 0x1_0000_0000;
      ghost var sum := PlainSum(spec, f, op.operands, 0, currentStack, depth + 1);
      var i := 0;
      while i < |op.operands|
        invariant 0 <= i <= |op.operands|
        // every recursive call starts below the threshold
        invariant budget < threshold
        invariant sum == PlainSum(spec, f, op.operands, i, currentStack, depth + 1)
        invariant room ==> sum.Some? && cost == own + sum.value && budget == accumulatedCost + cost
      {
        var operandCost := RecomputeCostImpl(f, op.operands[i], currentStack, threshold, depth + 1, budget);
        sum := PlainSum(spec, f, op.operands, i + 1, currentStack, depth + 1);
        if room && PlainSum(spec, f, op.operands, |op.operands|, currentStack, depth + 1).Some? {
          SumGrows(spec, f, op.operands, i + 1, |op.operands|, currentStack, depth + 1);
        }
        if operandCost.None? {
          return None;
        }
        cost := Add32(cost, operandCost.value);
        budget := Add32(budget, operandCost.value);
        if budget >= threshold {
          return None;
        }
        i := i + 1;
      }
      r := Some(cost);
    }
  }

  // ---------- what can be recomputed ----------

  // Given the values in `known`, v takes a tree of pure operations, at most n on any path, with no block
  // argument in it.
  ghost predicate KnownTree(f: Function, v: Value, known: set<Value>, n: nat)
    decreases n, v
  {
    v !in known ==>
      && n > 0
      && DefiningOp(f, v).Some?
      && var op := DefiningOp(f, v).value;
        op.pure && op.opcode.Some? && forall i :: 0 <= i < |op.operands| ==> KnownTree(f, op.operands[i], known, n - 1)
  }

  // The same with nothing known.
  ghost predicate PureTree(f: Function, v: Value, n: nat) {
    KnownTree(f, v, {}, n)
  }

  // A tree of at most 5 levels.
  ghost predicate ShallowTree(f: Function, v: Value) {
    exists n: nat :: n == 5 && PureTree(f, v, n)
  }

  // One whose opcodes cost less gas than this.
  ghost predicate CheapTree(spec: ForkSpec, f: Function, v: Value, price: nat) {
    exists n: nat :: n == 5 && PureTree(f, v, n) && GasOf(spec, TreeOps(f, v, {}, n)) < price
  }

  // The opcodes of the tree in the order of evaluation: last operand first, the root at the end.
  ghost function TreeOps(f: Function, v: Value, known: set<Value>, n: nat): seq<byte>
    requires KnownTree(f, v, known, n)
    decreases n, 0, v
  {
    if v in known then []
    else
      var op := DefiningOp(f, v).value;
      OperandOps(f, op.operands, |op.operands|, known, n - 1) + [op.opcode.value]
  }

  // The opcodes of the first k operands.
  ghost function OperandOps(f: Function, operands: seq<Value>, k: nat, known: set<Value>, n: nat): seq<byte>
    requires k <= |operands| && forall i :: 0 <= i < |operands| ==> KnownTree(f, operands[i], known, n)
    decreases n, 1, k
  {
    if k == 0 then [] else TreeOps(f, operands[k - 1], known, n) + OperandOps(f, operands, k - 1, known, n)
  }

  function GasOf(spec: ForkSpec, ops: seq<byte>): nat {
    if ops == [] then 0 else GasOf(spec, ops[..|ops| - 1]) + spec.gas(ops[|ops| - 1])
  }

  lemma {:induction false} GasConcat(spec: ForkSpec, a: seq<byte>, b: seq<byte>)
    ensures GasOf(spec, a + b) == GasOf(spec, a) + GasOf(spec, b)
  {
    if b == [] {
      assert a + b == a;
    } else {
      GasConcat(spec, a, b[..|b| - 1]);
      assert (a + b)[..|a + b| - 1] == a + b[..|b| - 1];
    }
  }

  // A value has a plain cost iff it takes such a tree of at most as many levels as are left, and the cost
  // is the gas of the tree's opcodes.
  lemma {:induction false} CostIsGas(spec: ForkSpec, f: Function, v: Value, known: set<Value>, depth: nat, n: nat)
    requires depth + n == MAX_DEPTH
    ensures PlainCost(spec, f, v, known, depth).Some? <==> KnownTree(f, v, known, n)
    ensures KnownTree(f, v, known, n) ==>
      PlainCost(spec, f, v, known, depth).value == GasOf(spec, TreeOps(f, v, known, n))
    decreases n, 0, 0
  {
    if v !in known && n > 0 {
      match DefiningOp(f, v)
      case None =>
      case Some(op) =>
        SumIsGas(spec, f, op.operands, |op.operands|, known, depth + 1, n - 1);
        if KnownTree(f, v, known, n) {
          GasConcat(spec, OperandOps(f, op.operands, |op.operands|, known, n - 1), [op.opcode.value]);
        }
    }
  }

  lemma {:induction false} SumIsGas(spec: ForkSpec, f: Function, operands: seq<Value>, k: nat, known: set<Value>,
                                    depth: nat, n: nat)
    requires depth + n == MAX_DEPTH && k <= |operands|
    ensures PlainSum(spec, f, operands, k, known, depth).Some?
       <==> forall i :: 0 <= i < k ==> KnownTree(f, operands[i], known, n)
    ensures (forall i :: 0 <= i < |operands| ==> KnownTree(f, operands[i], known, n)) ==>
      PlainSum(spec, f, operands, k, known, depth).value == GasOf(spec, OperandOps(f, operands, k, known, n))
    decreases n, 1, k
  {
    if k > 0 {
      SumIsGas(spec, f, operands, k - 1, known, depth, n);
      CostIsGas(spec, f, operands[k - 1], known, depth, n);
      if forall i :: 0 <= i < |operands| ==> KnownTree(f, operands[i], known, n) {
        GasConcat(spec, TreeOps(f, operands[k - 1], known, n), OperandOps(f, operands, k - 1, known, n));
      }
    }
  }
}
