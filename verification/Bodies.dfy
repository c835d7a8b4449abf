// What the code of the functions does: the bytes behind the dispatcher run the items one after the other.

module Bodies {
  import opened Wrappers
  import opened Words
  import opened Opcodes
  import opened Bytecode
  import opened Machine
  import opened Disassembly
  import opened Simulation
  import opened Fragments
  import opened Dispatcher
  import opened Runtime
  import opened EmitRuntime

  // ---------- what the bytes owe the items ----------

  // The byte machine comes from this position to state t.
  ghost predicate Leads(env: Env, code: seq<byte>, from: nat, core: Core, t: State) {
    exists n: nat :: Run(Evm(env), code, Running(from, core), n) == t
  }

  // It comes to position `to` with w on top of the stack, and nothing but that and the gas has changed.
  ghost predicate BringsTo(env: Env, code: seq<byte>, from: nat, core: Core, to: nat, w: nat) {
    exists after: Core ::
      && Leads(env, code, from, core, Running(to, after))
      && w < WORD_LIMIT && after.stack == [w as Word] + core.stack
      && after.mem == core.mem && after.storage == core.storage
  }

  // The same whenever the stack has this much room.
  ghost predicate Brings(env: Env, code: seq<byte>, from: nat, to: nat, w: nat, room: nat) {
    forall core: Core :: |core.stack| + room <= STACK_LIMIT ==> BringsTo(env, code, from, core, to, w)
  }

  // Item j stands at P[j], and from there the bytes do what it says:
  // - a block starts with a valid jump destination and goes on to the next item,
  // - an opcode is performed,
  // - a number is pushed,
  // - a reference to a block pushes the position of that block,
  // - a call goes to the block with a return address on top, from which a jump comes to the next item.
  ghost predicate ItemRuns(env: Env, code: seq<byte>, items: seq<Item>, P: seq<nat>, j: nat)
    requires |P| == |items| + 1 && j < |items|
  {
    match items[j]
    case Begin(_) =>
      ReturnsTo(env, code, P[j], P[j + 1])
    case Opcode(c) =>
      forall core: Core ::
        Step(Evm(env), code, Running(P[j], core)) == Resume(code, P[j + 1], Perform(env, P[j], c, [], core))
    case Number(v) =>
      Brings(env, code, P[j], P[j + 1], v, 1)
    case ToBlock(b) =>
      exists i :: 0 <= i < |items| && items[i] == Begin(b) && Brings(env, code, P[j], P[j + 1], P[i], 1)
    case Call(b) =>
      exists i, r: nat :: 0 <= i < |items| && items[i] == Begin(b)
                          && ReturnsTo(env, code, r, P[j + 1]) && Brings(env, code, P[j], P[i], r, 2)
  }

  // A jump to r is valid and goes on at `to`.
  ghost predicate ReturnsTo(env: Env, code: seq<byte>, r: nat, to: nat) {
    ValidDest(code, 0, r) && forall core: Core :: Leads(env, code, r, core, Running(to, Charge(env, JUMPDEST, core)))
  }

  // The bytes run the items, which stand at these positions up to the end of the code.
  ghost predicate CodeRuns(env: Env, code: seq<byte>, items: seq<Item>, P: seq<nat>) {
    && |P| == |items| + 1 && P[|items|] == |code|
    && forall j :: 0 <= j < |items| ==> ItemRuns(env, code, items, P, j)
  }

  // ---------- where the items stand ----------

  lemma {:induction false} ItemsCodePrefix(items: seq<Item>, j: nat, k: nat, next: nat)
    requires j <= k <= |items|
    ensures ItemsCode(items, j, next) <= ItemsCode(items, k, next)
    decreases k
  {
    if j < k {
      ItemsCodePrefix(items, j, k - 1, next);
    }
  }

  // The items' code stands in the stream from index `base` on to its end.
  ghost predicate Holds(c: Linked, base: nat, items: seq<Item>, next: nat) {
    Assembles(c) && c.bound == |c.prog| && At(c, base, ItemsCode(items, |items|, next))
    && |c.prog| == base + |ItemsCode(items, |items|, next)|
  }

  lemma ItemAt(c: Linked, base: nat, items: seq<Item>, next: nat, j: nat, k: nat, m: nat, n: nat)
    requires Holds(c, base, items, next) && j < |items| && n == next + CallLabels(items, j)
    requires k == base + |ItemsCode(items, j, next)| && m == k + |ItemCode(items[j], n)|
    ensures At(c, k, ItemCode(items[j], n)) && m == base + |ItemsCode(items, j + 1, next)|
  {
    var all, before, mine := ItemsCode(items, |items|, next), ItemsCode(items, j, next), ItemCode(items[j], n);
    ItemsStep(items, j, next, n);
    ItemsCodePrefix(items, j + 1, |items|, next);
    forall i | 0 <= i < |mine| ensures c.prog[k + i] == mine[i] {
      assert (before + mine)[|before| + i] == mine[i];
      assert all[|before| + i] == mine[i];
      assert c.prog[base + (|before| + i)] == all[|before| + i];
    }
  }

  // The byte position of item j, or of the end of the items.
  function Position(prog: seq<Instr>, base: nat, items: seq<Item>, next: nat, j: nat): nat
    requires j <= |items| && base + |ItemsCode(items, j, next)| <= |prog|
  {
    Offset(prog, base + |ItemsCode(items, j, next)|)
  }

  // All these positions.
  ghost function Positions(prog: seq<Instr>, base: nat, items: seq<Item>, next: nat): (P: seq<nat>)
    requires base + |ItemsCode(items, |items|, next)| <= |prog|
    ensures |P| == |items| + 1
    ensures forall j :: 0 <= j <= |items| ==> base + |ItemsCode(items, j, next)| <= |prog|
                                               && P[j] == Position(prog, base, items, next, j)
  {
    PositionsFit(prog, base, items, next);
    seq(|items| + 1, j requires 0 <= j <= |items| => Position(prog, base, items, next, j))
  }

  lemma PositionsFit(prog: seq<Instr>, base: nat, items: seq<Item>, next: nat)
    requires base + |ItemsCode(items, |items|, next)| <= |prog|
    ensures forall j :: 0 <= j <= |items| ==> base + |ItemsCode(items, j, next)| <= |prog|
  {
    forall j | 0 <= j <= |items| ensures base + |ItemsCode(items, j, next)| <= |prog| {
      ItemsCodePrefix(items, j, |items|, next);
    }
  }

  // ---------- one item ----------

  lemma InBytes(c: Linked, k: nat, core: Core, t: State)
    requires Assembles(c) && k <= |c.prog| && Reaches(c, Running(k, core), t)
    ensures InRange(c.prog, t) && Leads(c.env, Assembled(c.prog), Offset(c.prog, k), core, Concrete(c.prog, t))
  {
    var n := RunsInBytes(c, k, core, t);
  }

  lemma DefinitionsAreEmpty(prog: seq<Instr>, k: nat)
    requires k < |prog| && prog[k].LabelDef?
    ensures Offset(prog, k + 1) == Offset(prog, k)
  {
  }

  lemma DestItem(c: Linked, k: nat, l: LabelID)
    requires Assembles(c) && Valid(c) && At(c, k, Dest(l))
    ensures ReturnsTo(c.env, Assembled(c.prog), Offset(c.prog, k), Offset(c.prog, k + 2))
  {
    Nth(c, k, Dest(l), 0);
    Nth(c, k, Dest(l), 1);
    DefinitionsAreEmpty(c.prog, k);
    assert JumpDestAt(c.prog, k + 1, Offset(c.prog, k));
    DestsExact(c.prog, Assembled(c.prog), Offset(c.prog, k));
    forall core: Core
      ensures Leads(c.env, Assembled(c.prog), Offset(c.prog, k + 1), core,
                    Running(Offset(c.prog, k + 2), Charge(c.env, JUMPDEST, core)))
    {
      DestPasses(c, k + 1, core, Charge(c.env, JUMPDEST, core));
    }
  }

  lemma DestPasses(c: Linked, k: nat, core: Core, after: Core)
    requires Assembles(c) && Valid(c) && k < c.bound && c.prog[k] == Op(JUMPDEST)
    requires after == Charge(c.env, JUMPDEST, core)
    ensures Leads(c.env, Assembled(c.prog), Offset(c.prog, k), core, Running(Offset(c.prog, k + 1), after))
  {
    DoOp(c, k, core, JUMPDEST, after);
    OneStep(c, Running(k, core), Running(k + 1, after));
    InBytes(c, k, core, Running(k + 1, after));
  }

  lemma OpcodeItem(c: Linked, k: nat, op: byte, core: Core)
    requires Assembles(c) && At(c, k, [Op(op)]) && !IsImmediatePush(op)
    ensures Step(c.sem, Assembled(c.prog), Running(Offset(c.prog, k), core))
         == Resume(Assembled(c.prog), Offset(c.prog, k + 1), Perform(c.env, Offset(c.prog, k), op, [], core))
  {
    Nth(c, k, [Op(op)], 0);
    InsnAt(c.prog, Assembled(c.prog), k);
  }

  lemma NumberItem(c: Linked, k: nat, v: Word)
    requires Assembles(c) && Valid(c) && At(c, k, [PushNat(v)])
    ensures Brings(c.env, Assembled(c.prog), Offset(c.prog, k), Offset(c.prog, k + 1), v, 1)
  {
    Nth(c, k, [PushNat(v)], 0);
    forall core: Core | |core.stack| + 1 <= STACK_LIMIT
      ensures BringsTo(c.env, Assembled(c.prog), Offset(c.prog, k), core, Offset(c.prog, k + 1), v)
    {
      var after := Ran(c.env, PushNat(v).width, core, [v] + core.stack);
      DoPush(c, k, core, v);
      OneStep(c, Running(k, core), Running(k + 1, after));
      InBytes(c, k, core, Running(k + 1, after));
    }
  }

  // A label stands for the position it is defined at.
  lemma LabelIsPosition(c: Linked, d: nat, l: LabelID)
    requires Assembles(c) && Valid(c) && d < |c.prog| && c.prog[d] == LabelDef(l)
    ensures l in c.addr && c.addr[l] == Offset(c.prog, d) < 0x1_0000
  {
    LabelAddress(c.prog, d);
  }

  lemma ReferenceItem(c: Linked, k: nat, l: LabelID, d: nat)
    requires Assembles(c) && Valid(c) && At(c, k, [LabelRef(l)]) && d < |c.prog| && c.prog[d] == LabelDef(l)
    ensures Brings(c.env, Assembled(c.prog), Offset(c.prog, k), Offset(c.prog, k + 1), Offset(c.prog, d), 1)
  {
    Nth(c, k, [LabelRef(l)], 0);
    LabelIsPosition(c, d, l);
    forall core: Core | |core.stack| + 1 <= STACK_LIMIT
      ensures BringsTo(c.env, Assembled(c.prog), Offset(c.prog, k), core, Offset(c.prog, k + 1), Offset(c.prog, d))
    {
      var after := Ran(c.env, PUSH2, core, [c.addr[l]] + core.stack);
      DoRef(c, k, core, l);
      OneStep(c, Running(k, core), Running(k + 1, after));
      InBytes(c, k, core, Running(k + 1, after));
    }
  }

  lemma CallItem(c: Linked, k: nat, ret: LabelID, l: LabelID, d: nat, r: nat, m: nat)
    requires Assembles(c) && Valid(c) && At(c, k, [LabelRef(ret), LabelRef(l), Op(JUMP)] + Dest(ret))
    requires d + 1 < |c.prog| && c.prog[d] == LabelDef(l) && c.prog[d + 1] == Op(JUMPDEST)
    requires r == k + 3 && m == r + 2 <= |c.prog|
    ensures ReturnsTo(c.env, Assembled(c.prog), Offset(c.prog, r), Offset(c.prog, m))
    ensures Brings(c.env, Assembled(c.prog), Offset(c.prog, k), Offset(c.prog, d), Offset(c.prog, r), 2)
  {
    var refs := [LabelRef(ret), LabelRef(l), Op(JUMP)];
    AtSplit(c, k, refs, Dest(ret));
    DestItem(c, r, ret);
    Nth(c, r, Dest(ret), 0);
    forall core: Core | |core.stack| + 2 <= STACK_LIMIT
      ensures BringsTo(c.env, Assembled(c.prog), Offset(c.prog, k), core, Offset(c.prog, d), Offset(c.prog, r))
    {
      CallRuns(c, k, ret, l, r, d, core);
    }
  }

  lemma CallRuns(c: Linked, k: nat, ret: LabelID, l: LabelID, r: nat, d: nat, core: Core)
    requires Assembles(c) && Valid(c) && At(c, k, [LabelRef(ret), LabelRef(l), Op(JUMP)])
    requires r < |c.prog| && c.prog[r] == LabelDef(ret)
    requires d + 1 < |c.prog| && c.prog[d] == LabelDef(l) && c.prog[d + 1] == Op(JUMPDEST)
    requires |core.stack| + 2 <= STACK_LIMIT
    ensures BringsTo(c.env, Assembled(c.prog), Offset(c.prog, k), core, Offset(c.prog, d), Offset(c.prog, r))
  {
    LabelIsPosition(c, d, l);
    LabelIsPosition(c, r, ret);
    DefinitionsAreEmpty(c.prog, d);
    var after := CallReaches(c, k, ret, l, d, core);
    InBytes(c, k, core, Running(d + 1, after));
  }

  lemma CallReaches(c: Linked, k: nat, ret: LabelID, l: LabelID, d: nat, core: Core) returns (after: Core)
    requires Valid(c) && At(c, k, [LabelRef(ret), LabelRef(l), Op(JUMP)])
    requires ret in c.addr && l in c.addr && c.addr[ret] < 0x1_0000 && c.addr[l] < 0x1_0000
    requires d + 1 < |c.prog| && c.prog[d] == LabelDef(l) && c.prog[d + 1] == Op(JUMPDEST)
    requires |core.stack| + 2 <= STACK_LIMIT
    ensures Reaches(c, Running(k, core), Running(d + 1, after))
    ensures after.stack == [c.addr[ret]] + core.stack && after.mem == core.mem && after.storage == core.storage
  {
    var refs := [LabelRef(ret), LabelRef(l), Op(JUMP)];
    Nth(c, k, refs, 0);
    Nth(c, k, refs, 1);
    Nth(c, k, refs, 2);
    assert Target(c, c.prog[d].id) == Some(d + 1);
    var c1 := Ran(c.env, PUSH2, core, [c.addr[ret]] + core.stack);
    DoRef(c, k, core, ret);
    var c2 := Ran(c.env, PUSH2, c1, [c.addr[l]] + c1.stack);
    DoRef(c, k + 1, c1, l);
    after := Ran(c.env, JUMP, c2, c1.stack);
    DoJump(c, k + 2, c2, l, c1.stack);
    TwoSteps(c, Running(k, core), Running(k + 1, c1), Running(k + 2, c2));
    ThenStep(c, Running(k, core), Running(k + 2, c2), Running(d + 1, after));
  }

  // ---------- all items ----------

  // What the items need of each other: opcodes are no bare pushes, and every block that is mentioned starts
  // somewhere.
  ghost predicate SelfContained(items: seq<Item>) {
    && Opaque(items)
    && forall i :: i in items && (i.ToBlock? || i.Call?) ==> Begin(i.block) in items
  }

  lemma BlockAt(c: Linked, base: nat, items: seq<Item>, next: nat, b: nat) returns (i: nat, d: nat)
    requires Holds(c, base, items, next) && Begin(b) in items
    ensures i < |items| && items[i] == Begin(b) && d == base + |ItemsCode(items, i, next)|
    ensures d + 1 < |c.prog| && c.prog[d] == LabelDef(Wrap(b)) && c.prog[d + 1] == Op(JUMPDEST)
  {
    i :| 0 <= i < |items| && items[i] == Begin(b);
    d := base + |ItemsCode(items, i, next)|;
    var n := next + CallLabels(items, i);
    ItemAt(c, base, items, next, i, d, d + |ItemCode(items[i], n)|, n);
    Nth(c, d, Dest(Wrap(b)), 0);
    Nth(c, d, Dest(Wrap(b)), 1);
  }

  lemma AssembledIsValid(c: Linked)
    requires Assembles(c)
    ensures Valid(c)
  {
    LinkableIsValid(c.env, c.prog, c.bound);
    assert c == Linked(Evm(c.env), c.env, c.prog, LabelOffsets(c.prog), c.bound);
  }

  lemma PositionIs(prog: seq<Instr>, base: nat, items: seq<Item>, next: nat, P: seq<nat>, j: nat, k: nat)
    requires base + |ItemsCode(items, |items|, next)| <= |prog| && P == Positions(prog, base, items, next)
    requires j <= |items| && k == base + |ItemsCode(items, j, next)|
    ensures |P| == |items| + 1 && k <= |prog| && P[j] == Offset(prog, k)
  {
  }

  lemma OneItemRuns(c: Linked, base: nat, items: seq<Item>, next: nat, P: seq<nat>, j: nat)
    requires Holds(c, base, items, next) && SelfContained(items) && j < |items|
    requires P == Positions(c.prog, base, items, next)
    ensures ItemRuns(c.env, Assembled(c.prog), items, P, j)
  {
    var k, n := base + |ItemsCode(items, j, next)|, next + CallLabels(items, j);
    var m := k + |ItemCode(items[j], n)|;
    ItemAt(c, base, items, next, j, k, m, n);
    PositionIs(c.prog, base, items, next, P, j, k);
    PositionIs(c.prog, base, items, next, P, j + 1, m);
    assert items[j] in items;
    if items[j].ToBlock? || items[j].Call? {
      var i, d := BlockAt(c, base, items, next, items[j].block);
      PositionIs(c.prog, base, items, next, P, i, d);
      ReferringItemRuns(c, items, P, j, k, n, m, i, d);
    } else {
      PlainItemRuns(c, items, P, j, k, n, m);
    }
  }

  lemma PlainItemRuns(c: Linked, items: seq<Item>, P: seq<nat>, j: nat, k: nat, n: nat, m: nat)
    requires Assembles(c) && j < |items| && |P| == |items| + 1 && At(c, k, ItemCode(items[j], n))
    requires m == k + |ItemCode(items[j], n)| <= |c.prog| && P[j] == Offset(c.prog, k) && P[j + 1] == Offset(c.prog, m)
    requires items[j].Begin? || items[j].Number? || (items[j].Opcode? && !IsImmediatePush(items[j].code))
    ensures ItemRuns(c.env, Assembled(c.prog), items, P, j)
  {
    AssembledIsValid(c);
    match items[j]
    case Begin(b) => DestItem(c, k, Wrap(b));
    case Number(v) => NumberItem(c, k, v);
    case Opcode(op) =>
      forall core: Core
        ensures Step(Evm(c.env), Assembled(c.prog), Running(P[j], core))
             == Resume(Assembled(c.prog), P[j + 1], Perform(c.env, P[j], op, [], core))
      {
        OpcodeItem(c, k, op, core);
      }
  }

  lemma ReferringItemRuns(c: Linked, items: seq<Item>, P: seq<nat>, j: nat, k: nat, n: nat, m: nat, i: nat,
                          d: nat)
    requires Assembles(c) && j < |items| && |P| == |items| + 1 && At(c, k, ItemCode(items[j], n))
    requires m == k + |ItemCode(items[j], n)| <= |c.prog| && P[j] == Offset(c.prog, k) && P[j + 1] == Offset(c.prog, m)
    requires items[j].ToBlock? || items[j].Call?
    requires i < |items| && items[i] == Begin(items[j].block) && d + 1 < |c.prog| && P[i] == Offset(c.prog, d)
    requires c.prog[d] == LabelDef(Wrap(items[j].block)) && c.prog[d + 1] == Op(JUMPDEST)
    ensures ItemRuns(c.env, Assembled(c.prog), items, P, j)
  {
    AssembledIsValid(c);
    var b := items[j].block;
    if items[j].ToBlock? {
      ReferenceItem(c, k, Wrap(b), d);
      ReferenceDone(c.env, Assembled(c.prog), items, P, j, i);
    } else {
      CallItem(c, k, Wrap(n), Wrap(b), d, k + 3, m);
      CallDone(c.env, Assembled(c.prog), items, P, j, i, Offset(c.prog, k + 3));
    }
  }

  lemma ReferenceDone(env: Env, code: seq<byte>, items: seq<Item>, P: seq<nat>, j: nat, i: nat)
    requires j < |items| && |P| == |items| + 1 && items[j].ToBlock? && i < |items| && items[i] == Begin(items[j].block)
    requires Brings(env, code, P[j], P[j + 1], P[i], 1)
    ensures ItemRuns(env, code, items, P, j)
  {
  }

  lemma CallDone(env: Env, code: seq<byte>, items: seq<Item>, P: seq<nat>, j: nat, i: nat, r: nat)
    requires j < |items| && |P| == |items| + 1 && items[j].Call? && i < |items| && items[i] == Begin(items[j].block)
    requires ReturnsTo(env, code, r, P[j + 1]) && Brings(env, code, P[j], P[i], r, 2)
    ensures ItemRuns(env, code, items, P, j)
  {
  }

  lemma AllItemsRun(c: Linked, base: nat, items: seq<Item>, next: nat)
    requires Holds(c, base, items, next) && SelfContained(items)
    ensures CodeRuns(c.env, Assembled(c.prog), items, Positions(c.prog, base, items, next))
  {
    forall j | 0 <= j < |items|
      ensures ItemRuns(c.env, Assembled(c.prog), items, Positions(c.prog, base, items, next), j)
    {
      OneItemRuns(c, base, items, next, Positions(c.prog, base, items, next), j);
    }
  }

  // ---------- the functions of a plan ----------

  lemma ClosedIsContained(p: Plan)
    requires Closed(p)
    ensures SelfContained(p.items)
  {
  }

  // Where the items of a plan stand in its runtime code.
  ghost function RuntimePositions(p: Plan, table: seq<Entry>): seq<nat> {
    Positions(RuntimeStream(p, table), DispatcherLength(p, table), p.items, LabelsBefore(p, table))
  }

  // The number of instructions in front of them.
  function DispatcherLength(p: Plan, table: seq<Entry>): nat {
    |SELECTOR_LOAD + Tree(table, FallbackLabel(p), AsEmitted, p.blocks)|
  }

  lemma RuntimeLinks(p: Plan, table: seq<Entry>)
    requires Closed(p) && LabelsNeeded(p) <= 0x1_0000 && IsTable(p, table)
    requires Offset(RuntimeStream(p, table), |RuntimeStream(p, table)|) < 0x1_0000
    ensures Linkable(RuntimeStream(p, table))
  {
    BodiesAccepted(p, table);
    StreamLinks(table, FallbackLabel(p), AsEmitted, p.blocks, Bodies(p, table));
  }

  // The items' code is the end of the stream.
  ghost predicate EndsWith(prog: seq<Instr>, base: nat, items: seq<Item>, next: nat) {
    base <= |prog| && prog[base..] == ItemsCode(items, |items|, next)
  }

  lemma RuntimeEnds(p: Plan, table: seq<Entry>)
    ensures EndsWith(RuntimeStream(p, table), DispatcherLength(p, table), p.items, LabelsBefore(p, table))
  {
    var tree := Tree(table, FallbackLabel(p), AsEmitted, p.blocks);
    PartsEnd(SELECTOR_LOAD, tree, p.items, LabelsBefore(p, table), RuntimeStream(p, table), DispatcherLength(p, table));
  }

  lemma PartsEnd(a: seq<Instr>, b: seq<Instr>, items: seq<Item>, next: nat, prog: seq<Instr>, base: nat)
    requires prog == a + b + ItemsCode(items, |items|, next) && base == |a + b|
    ensures EndsWith(prog, base, items, next)
  {
  }

  lemma ItemsRunIn(env: Env, prog: seq<Instr>, base: nat, items: seq<Item>, next: nat, code: seq<byte>,
                   P: seq<nat>)
    requires Linkable(prog) && SelfContained(items) && EndsWith(prog, base, items, next)
    requires code == Assembled(prog) && P == Positions(prog, base, items, next)
    ensures CodeRuns(env, code, items, P)
  {
    var c := Linked(Evm(env), env, prog, LabelOffsets(prog), |prog|);
    forall i | 0 <= i < |prog| - base ensures prog[base + i] == prog[base..][i] {
    }
    assert Holds(c, base, items, next);
    AllItemsRun(c, base, items, next);
  }

  lemma BlockStands(prog: seq<Instr>, base: nat, items: seq<Item>, next: nat, b: nat, i: nat)
    requires Linkable(prog) && EndsWith(prog, base, items, next) && i < |items| && items[i] == Begin(b)
    ensures PositionOf(prog, Wrap(b)) == Positions(prog, base, items, next)[i]
  {
    var n, before := next + CallLabels(items, i), ItemsCode(items, i, next);
    ItemsStep(items, i, next, n);
    ItemsCodePrefix(items, i + 1, |items|, next);
    assert (before + ItemCode(items[i], n))[|before|] == LabelDef(Wrap(b));
    assert prog[base + |before|] == prog[base..][|before|];
    LabelAddress(prog, base + |before|);
  }

  // In bytes, the items run one after the other from the end of the dispatcher on, and a block that starts
  // with item i is at the position of that item.
  lemma RuntimeItemsRun(p: Plan, table: seq<Entry>, code: seq<byte>, P: seq<nat>)
    requires Closed(p) && LabelsNeeded(p) <= 0x1_0000 && IsTable(p, table)
    requires code == Assembled(RuntimeStream(p, table)) && |code| < 0x1_0000 && P == RuntimePositions(p, table)
    ensures |P| == |p.items| + 1
    ensures forall env: Env :: CodeRuns(env, code, p.items, P)
    ensures forall i, b :: 0 <= i < |p.items| && p.items[i] == Begin(b) ==>
      PositionOf(RuntimeStream(p, table), Wrap(b)) == P[i]
  {
    RuntimeLinks(p, table);
    RuntimeEnds(p, table);
    ClosedIsContained(p);
    StreamItemsRun(RuntimeStream(p, table), DispatcherLength(p, table), p.items, LabelsBefore(p, table), code, P);
  }

  lemma StreamItemsRun(prog: seq<Instr>, base: nat, items: seq<Item>, next: nat, code: seq<byte>, P: seq<nat>)
    requires Linkable(prog) && SelfContained(items) && EndsWith(prog, base, items, next)
    requires code == Assembled(prog) && P == Positions(prog, base, items, next)
    ensures |P| == |items| + 1
    ensures forall env: Env :: CodeRuns(env, code, items, P)
    ensures forall i, b :: 0 <= i < |items| && items[i] == Begin(b) ==> PositionOf(prog, Wrap(b)) == P[i]
  {
    forall env: Env ensures CodeRuns(env, code, items, P) {
      ItemsRunIn(env, prog, base, items, next, code, P);
    }
    forall i, b | 0 <= i < |items| && items[i] == Begin(b) ensures PositionOf(prog, Wrap(b)) == P[i] {
      BlockStands(prog, base, items, next, b, i);
    }
  }
}
