// Three modules and what calls to them do: an argument that arrives, and two fallbacks that are not called.

module Samples {
  import opened Wrappers
  import opened Words
  import opened Opcodes
  import opened Bytecode
  import opened Machine
  import opened Dispatcher
  import opened Runtime
  import opened Calls
  import opened EmitRuntime
  import opened Emitter
  import opened Functions
  import opened Abi
  import opened Contract

  // A function with selector 1 and one argument.
  const DECODING: Module := [Func(Some(0), Some(0), Some(1), 1, 1, [Begin(0), Opcode(STOP)])]

  // A function with selector 1, and a fallback with a selector of its own.
  const OVERSHADOWED: Module := [
    Func(Some(0), Some(0), Some(1), 0, 1, [Begin(0), Opcode(STOP)]),
    Func(Some(0), Some(2), Some(0), 0, 1, [Begin(1), Opcode(STOP)])
  ]

  // Nothing but a fallback, which has no selector.
  const UNRECOGNISED: Module := [Func(Some(0), Some(2), None, 0, 1, [Begin(0), Opcode(STOP)])]

  lemma DecodingPlan(m: Module, p: Plan)
    requires m == DECODING && p == PlanOf(m)
    ensures p == Plan(1, [External(1, 0, 1)], None, [Begin(0), Opcode(STOP)])
    ensures Accepted(m) && |m| == 1 && Dispatched(m[0]) && m[0].selector == Some(1) && m[0].args == 1
  {
    assert Collect(m, 0) == Plan(0, [], None, []);
    assert Collect(m, 1) == Extend(Collect(m, 0), m[0]);
  }

  lemma OvershadowedPlan(m: Module, p: Plan)
    requires m == OVERSHADOWED && p == PlanOf(m)
    ensures p == Plan(2, [External(1, 0, 0)], Some(1), [Begin(0), Opcode(STOP), Begin(1), Opcode(STOP)])
    ensures Accepted(m) && |m| == 2 && Dispatched(m[0]) && m[0].selector == Some(1) && m[0].args == 0
    ensures !Dispatched(m[1]) && Recognised(m[1])
  {
    assert Collect(m, 1) == Plan(1, [External(1, 0, 0)], None, [Begin(0), Opcode(STOP)]) by {
      assert Collect(m, 0) == Plan(0, [], None, []);
    }
    assert Collect(m, 2) == Extend(Collect(m, 1), m[1]);
  }

  lemma UnrecognisedPlan(m: Module, p: Plan)
    requires m == UNRECOGNISED && p == PlanOf(m)
    ensures p == Plan(1, [], None, [Begin(0), Opcode(STOP)])
    ensures Accepted(m) && |m| == 1 && m[0].kind == Some(2) && m[0].selector == None
  {
    assert Collect(m, 0) == Plan(0, [], None, []);
    assert Collect(m, 1) == Extend(Collect(m, 0), m[0]);
  }

  lemma NoCalls(items: seq<Item>, k: nat)
    requires k <= |items| && forall i :: i in items ==> !i.Call?
    ensures CallLabels(items, k) == 0
  {
  }

  lemma FewInstructions(p: Plan, table: seq<Entry>, items: seq<Item>)
    requires p.items == items && |items| <= 4 && |Tree(table, FallbackLabel(p), AsEmitted, p.blocks)| <= 20
    ensures Offset(RuntimeStream(p, table), |RuntimeStream(p, table)|) < 0x1_0000
  {
    ItemsLength(items, |items|, LabelsBefore(p, table));
    SmallOffset(RuntimeStream(p, table), |RuntimeStream(p, table)|);
  }

  lemma DecodingLoads(p: Plan, table: seq<Entry>, items: seq<Item>)
    requires p == Plan(1, [External(1, 0, 1)], None, items) && table == Entries(p.externals)
    requires items == [Begin(0), Opcode(STOP)]
    ensures Loadable(p, table)
  {
    NoCalls(items, 2);
    assert Closed(p) by {
      assert Begin(0) == items[0];
    }
    assert |Tree(table, FallbackLabel(p), AsEmitted, p.blocks)| == 17;
    FewInstructions(p, table, items);
  }

  lemma OvershadowedLoads(p: Plan, table: seq<Entry>, items: seq<Item>)
    requires p == Plan(2, [External(1, 0, 0)], Some(1), items) && table == Entries(p.externals)
    requires items == [Begin(0), Opcode(STOP), Begin(1), Opcode(STOP)]
    ensures Loadable(p, table)
  {
    NoCalls(items, 4);
    assert Closed(p) by {
      assert Begin(0) == items[0] && Begin(1) == items[2];
    }
    assert |Tree(table, FallbackLabel(p), AsEmitted, p.blocks)| == 8;
    FewInstructions(p, table, items);
  }

  lemma UnrecognisedLoads(p: Plan, table: seq<Entry>, items: seq<Item>)
    requires p == Plan(1, [], None, items) && table == [] && items == [Begin(0), Opcode(STOP)]
    ensures Loadable(p, table)
  {
    NoCalls(items, 2);
    assert Closed(p) by {
      assert Begin(0) == items[0];
    }
    assert |Tree(table, FallbackLabel(p), AsEmitted, p.blocks)| == 3;
    FewInstructions(p, table, items);
    assert IsTable(p, table) by {
      assert Entries(p.externals) == [];
    }
  }

  // The call the ABI encodes for selector 1 and this argument enters the function with it.
  lemma ArgumentArrives(m: Module, table: seq<Entry>, runtime: seq<byte>, env: Env, core: Core, x: Word)
    returns (P: seq<nat>, t: State)
    requires m == DECODING && table == Entries(PlanOf(m).externals)
    requires runtime == Assembled(RuntimeStream(PlanOf(m), table))
    requires env.calldata == EncodeCall(1, [x]) && core.stack == []
    ensures Accepted(m) && ServesAt(m, runtime, P) && Leaves(Evm(env), runtime, P[0], Running(0, core), t)
    ensures EntersFunction(m, 0, P, env, [x], core, t) && t.core.stack == [x, 1]
  {
    DecodingPlan(m, PlanOf(m));
    DecodingLoads(PlanOf(m), table, PlanOf(m).items);
    P := CodeStands(m, table, runtime);
    ServedThere(m, table, runtime, P);
    t := OnlyOneEntered(m, table, P, env, core, x);
  }

  lemma OnlyOneEntered(m: Module, table: seq<Entry>, P: seq<nat>, env: Env, core: Core, x: Word) returns (t: State)
    requires Loadable(PlanOf(m), table) && Stands(m, table, P) && Accepted(m) && |m| == 1
    requires Dispatched(m[0]) && m[0].selector == Some(1) && m[0].args == 1
    requires env.calldata == EncodeCall(1, [x]) && core.stack == []
    ensures Leaves(Evm(env), Assembled(RuntimeStream(PlanOf(m), table)), P[0], Running(0, core), t)
    ensures EntersFunction(m, 0, P, env, [x], core, t) && t.core.stack == [x, 1]
  {
    t := LeastEntered(m, table, P, env, core, 0, [x]);
  }

  // The call with selector 2 is rejected, although the module declares a fallback, with a selector.
  lemma FallbackIgnored(m: Module, table: seq<Entry>, runtime: seq<byte>, env: Env, core: Core)
    returns (P: seq<nat>, t: State)
    requires m == OVERSHADOWED && table == Entries(PlanOf(m).externals)
    requires runtime == Assembled(RuntimeStream(PlanOf(m), table))
    requires env.calldata == EncodeCall(2, []) && core.stack == []
    ensures Accepted(m) && ServesAt(m, runtime, P) && Leaves(Evm(env), runtime, P[0], Running(0, core), t)
    ensures Rejects(t)
  {
    OvershadowedPlan(m, PlanOf(m));
    OvershadowedLoads(PlanOf(m), table, PlanOf(m).items);
    P := CodeStands(m, table, runtime);
    ServedThere(m, table, runtime, P);
    SelectorDecodes(2, []);
    t := SecondIgnored(m, table, P, env, core);
  }

  lemma SecondIgnored(m: Module, table: seq<Entry>, P: seq<nat>, env: Env, core: Core) returns (t: State)
    requires Loadable(PlanOf(m), table) && Stands(m, table, P) && Accepted(m) && |m| == 2
    requires Dispatched(m[0]) && m[0].selector == Some(1) && m[0].args == 0 && !Dispatched(m[1]) && Recognised(m[1])
    requires Selector(env.calldata) == 2 && core.stack == []
    ensures Leaves(Evm(env), Assembled(RuntimeStream(PlanOf(m), table)), P[0], Running(0, core), t) && Rejects(t)
  {
    t := FallbackCall(m, table, P, env, core, 1);
  }

  // Every call is rejected, although the module is accepted and its only function is a fallback.
  lemma FallbackUnrecognised(m: Module, runtime: seq<byte>, env: Env, core: Core) returns (P: seq<nat>, t: State)
    requires m == UNRECOGNISED && |core.stack| + 6 <= STACK_LIMIT
    requires runtime == Assembled(RuntimeStream(PlanOf(m), []))
    ensures Accepted(m) && ServesAt(m, runtime, P) && Leaves(Evm(env), runtime, P[0], Running(0, core), t)
    ensures Rejects(t)
  {
    UnrecognisedPlan(m, PlanOf(m));
    UnrecognisedLoads(PlanOf(m), [], PlanOf(m).items);
    P := CodeStands(m, [], runtime);
    ServedThere(m, [], runtime, P);
    t := OnlyIgnored(m, [], P, env, core);
  }

  lemma OnlyIgnored(m: Module, table: seq<Entry>, P: seq<nat>, env: Env, core: Core) returns (t: State)
    requires Loadable(PlanOf(m), table) && Stands(m, table, P) && Accepted(m) && |m| == 1
    requires m[0].kind == Some(2) && m[0].selector == None && |core.stack| + 6 <= STACK_LIMIT
    ensures Leaves(Evm(env), Assembled(RuntimeStream(PlanOf(m), table)), P[0], Running(0, core), t) && Rejects(t)
  {
    t := FallbackCall(m, table, P, env, core, 0);
  }
}
