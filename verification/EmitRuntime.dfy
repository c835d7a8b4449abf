// Emitting the runtime stream of a module, and why it meets the needs of its dispatcher.

module EmitRuntime {
  import opened Wrappers
  import opened Sequences
  import opened Words
  import opened Opcodes
  import opened Bytecode
  import opened Machine
  import opened Dispatcher
  import opened DispatchProofs
  import opened Runtime
  import opened Calls

  // What the code of the functions asks of the stream, in order: the start of a block, an opcode, a
  // constant, a reference to a block, or a call with its return label.
  datatype Item =
    | Begin(block: nat)
    | Opcode(code: byte)
    | Number(value: Word)
    | ToBlock(block: nat)
    | Call(block: nat)

  // An integer attribute, if it is there; its value is cast to 32 bits where it is used.
  type Attr = Option<int>

  const EXTERNAL: uint32 := 0

  const FUNCTION: uint32 := 0
  const CONSTRUCTOR: uint32 := 1
  const FALLBACK: uint32 := 2

  predicate Has(a: Attr, n: uint32) {
    a.Some? && Low32(a.value) == n
  }

  // A function: its three attributes, its numbers of arguments and of blocks, its code. Blocks are
  // numbered through all functions of a module, and the first one of a function is where it is entered.
  datatype Func = Func(visibility: Attr, kind: Attr, selector: Attr, args: nat, blocks: nat, items: seq<Item>)

  type Module = seq<Func>

  // An external function: its selector, its first block, its number of arguments.
  datatype External = External(selector: uint32, front: nat, args: nat)

  // What of a module goes into its runtime stream.
  datatype Plan = Plan(blocks: nat, externals: seq<External>, fallback: Option<nat>, items: seq<Item>)

  // Functions are looked at only if they have all three attributes.
  predicate Described(f: Func) {
    f.visibility.Some? && f.kind.Some? && f.selector.Some?
  }

  predicate IsEntry(f: Func) {
    Described(f) && Has(f.visibility, EXTERNAL) && Has(f.kind, FUNCTION)
  }

  predicate IsFallback(f: Func) {
    Described(f) && Has(f.kind, FALLBACK)
  }

  // The plan of the first n functions.
  function Collect(m: Module, n: nat): Plan
    requires n <= |m|
  {
    if n == 0 then Plan(0, [], None, [])
    else Extend(Collect(m, n - 1), m[n - 1])
  }

  function Extend(p: Plan, f: Func): Plan {
    Plan(p.blocks + f.blocks,
         if IsEntry(f) then p.externals + [External(Low32(f.selector.value), p.blocks, f.args)] else p.externals,
         if IsFallback(f) then Some(p.blocks) else p.fallback,
         p.items + f.items)
  }

  function PlanOf(m: Module): Plan {
    Collect(m, |m|)
  }

  // ---------- the stream ----------

  function ItemCode(i: Item, next: nat): seq<Instr> {
    match i
    case Begin(b) => Dest(Wrap(b))
    case Opcode(c) => [Op(c)]
    case Number(v) => [PushNat(v)]
    case ToBlock(b) => [LabelRef(Wrap(b))]
    case Call(b) => [LabelRef(Wrap(next)), LabelRef(Wrap(b)), Op(JUMP)] + Dest(Wrap(next))
  }

  // Return labels created by the first k items.
  function CallLabels(items: seq<Item>, k: nat): nat
    requires k <= |items|
  {
    if k == 0 then 0 else CallLabels(items, k - 1) + if items[k - 1].Call? then 1 else 0
  }

  function ItemsCode(items: seq<Item>, k: nat, next: nat): seq<Instr>
    requires k <= |items|
  {
    if k == 0 then [] else ItemsCode(items, k - 1, next) + CodeOf(items, k - 1, next)
  }

  function CodeOf(items: seq<Item>, j: nat, next: nat): seq<Instr>
    requires j < |items|
  {
    ItemCode(items[j], next + CallLabels(items, j))
  }

  function Entries(externals: seq<External>): (r: seq<Entry>)
    ensures |r| == |externals|
    ensures forall i :: 0 <= i < |r| ==>
      r[i] == Entry(externals[i].selector, Wrap(externals[i].front), externals[i].args)
  {
    seq(|externals|, i requires 0 <= i < |externals| =>
      Entry(externals[i].selector, Wrap(externals[i].front), externals[i].args))
  }

  function FallbackLabel(p: Plan): Option<LabelID> {
    match p.fallback
    case Some(b) => Some(Wrap(b))
    case None => None
  }

  // What follows the dispatcher of a sorted table.
  function Bodies(p: Plan, table: seq<Entry>): seq<Instr> {
    ItemsCode(p.items, |p.items|, LabelsBefore(p, table))
  }

  // Labels created before the functions: those of blocks and dispatcher.
  function LabelsBefore(p: Plan, table: seq<Entry>): nat {
    p.blocks + Labels(table)
  }

  // The stream of a plan whose sorted table is `table`.
  function RuntimeStream(p: Plan, table: seq<Entry>): seq<Instr> {
    Stream(table, FallbackLabel(p), AsEmitted, p.blocks, Bodies(p, table))
  }

  method EmitItem(i: Item, stream: BytecodeStream, ghost next: nat) returns (ghost next': nat)
    requires stream.nextLabelID == Wrap(next)
    modifies stream
    ensures stream.instructions == old(stream.instructions) + ItemCode(i, next)
    ensures next' == (if i.Call? then next + 1 else next) && stream.nextLabelID == Wrap(next')
  {
    next' := if i.Call? then next + 1 else next;
    match i
    case Begin(b) =>
      stream.DefineLabel(LabelOf(b));
      stream.Emit(JUMPDEST);
    case Opcode(c) => stream.Emit(c);
    case Number(v) => stream.EmitPushWord(v);
    case ToBlock(b) => stream.EmitJumpTarget(LabelOf(b));
    case Call(b) =>
      WrapNext(next);
      var retLabel := stream.CreateLabel();
      stream.EmitJumpTarget(retLabel);
      stream.EmitJumpTarget(LabelOf(b));
      stream.Emit(JUMP);
      stream.DefineLabel(retLabel);
      stream.Emit(JUMPDEST);
  }

  function LabelOf(b: nat): (l: LabelID)
    ensures l == Wrap(b)
  {
    Wrap(b)
  }

  method EmitItems(items: seq<Item>, stream: BytecodeStream, ghost next: nat) returns (ghost next': nat)
    requires stream.nextLabelID == Wrap(next)
    modifies stream
    ensures stream.instructions == old(stream.instructions) + ItemsCode(items, |items|, next)
    ensures next' == next + CallLabels(items, |items|) && stream.nextLabelID == Wrap(next')
  {
    ghost var s0 := stream.instructions;
    var k := 0;
    next' := next;
    while k < |items|
      invariant 0 <= k <= |items|
      invariant stream.instructions == s0 + ItemsCode(items, k, next)
      invariant next' == next + CallLabels(items, k) && stream.nextLabelID == Wrap(next')
    {
      Assoc(s0, ItemsCode(items, k, next), ItemCode(items[k], next'));
      ItemsStep(items, k, next, next');
      next' := EmitItem(items[k], stream, next');
      k := k + 1;
    }
  }

  lemma ItemsStep(items: seq<Item>, j: nat, next: nat, n: nat)
    requires j < |items| && n == next + CallLabels(items, j)
    ensures ItemsCode(items, j + 1, next) == ItemsCode(items, j, next) + ItemCode(items[j], n)
    ensures CallLabels(items, j + 1) == CallLabels(items, j) + if items[j].Call? then 1 else 0
  {
    var k := j + 1;
    assert ItemsCode(items, k, next) == ItemsCode(items, j, next) + CodeOf(items, j, next);
    assert CallLabels(items, k) == CallLabels(items, j) + if items[j].Call? then 1 else 0;
  }

  method CreateBlockLabels(blocks: nat, stream: BytecodeStream, ghost next: nat)
    requires stream.nextLabelID == Wrap(next)
    modifies stream
    ensures stream.instructions == old(stream.instructions) && stream.nextLabelID == Wrap(next + blocks)
  {
    var b := 0;
    while b < blocks
      invariant 0 <= b <= blocks
      invariant stream.instructions == old(stream.instructions) && stream.nextLabelID == Wrap(next + b)
    {
      WrapNext(next + b);
      var blockLabel := stream.CreateLabel();
      assert blockLabel == LabelOf(next + b);
      b := b + 1;
    }
  }

  // Labels for all blocks, the entries of the dispatch table, and the label of the fallback.
  method CollectEntries(m: Module, stream: BytecodeStream)
    returns (entries: seq<Entry>, fallbackLabel: Option<LabelID>)
    requires stream.nextLabelID == 0
    modifies stream
    ensures entries == Entries(PlanOf(m).externals) && fallbackLabel == FallbackLabel(PlanOf(m))
    ensures stream.instructions == old(stream.instructions) && stream.nextLabelID == Wrap(PlanOf(m).blocks)
  {
    entries, fallbackLabel := [], None;
    var k, front := 0, 0;
    while k < |m|
      invariant 0 <= k <= |m| && front == Collect(m, k).blocks
      invariant entries == Entries(Collect(m, k).externals) && fallbackLabel == FallbackLabel(Collect(m, k))
      invariant stream.instructions == old(stream.instructions) && stream.nextLabelID == Wrap(front)
    {
      var func := m[k];
      CreateBlockLabels(func.blocks, stream, front);
      if func.visibility.Some? && func.kind.Some? && func.selector.Some? {
        if Low32(func.kind.value) == FALLBACK {
          fallbackLabel := Some(LabelOf(front));
        }
        if Low32(func.visibility.value) == EXTERNAL && Low32(func.kind.value) == FUNCTION {
          entries := entries + [Entry(Low32(func.selector.value), LabelOf(front), func.args)];
        }
      }
      front := front + func.blocks;
      k := k + 1;
    }
  }

  // Labels for all blocks first, then the selector load, the dispatcher and the code of the functions.
  method EmitRuntime(m: Module, stream: BytecodeStream) returns (ghost table: seq<Entry>)
    requires stream.instructions == [] && stream.nextLabelID == 0
    modifies stream
    ensures Sorted(table) && IsTable(PlanOf(m), table)
    ensures stream.instructions == RuntimeStream(PlanOf(m), table)
  {
    ghost var p := PlanOf(m);
    var entries, fallbackLabel := CollectEntries(m, stream);
    EmitSelectorLoad(stream);
    table := Emit(entries, stream, fallbackLabel, p.blocks);
    EmitFunctions(m, stream, LabelsBefore(p, table));
    EmptyFront(SELECTOR_LOAD, Tree(table, FallbackLabel(p), AsEmitted, p.blocks), Bodies(p, table));
  }

  method EmitFunctions(m: Module, stream: BytecodeStream, ghost next: nat)
    requires stream.nextLabelID == Wrap(next)
    modifies stream
    ensures stream.instructions == old(stream.instructions) + ItemsCode(PlanOf(m).items, |PlanOf(m).items|, next)
  {
    ghost var s0, items, n := stream.instructions, [], next;
    var k := 0;
    while k < |m|
      invariant 0 <= k <= |m| && items == Collect(m, k).items
      invariant stream.instructions == s0 + ItemsCode(items, |items|, next)
      invariant n == next + CallLabels(items, |items|) && stream.nextLabelID == Wrap(n)
    {
      FunctionAppended(s0, items, m[k].items, next, n);
      n := EmitItems(m[k].items, stream, n);
      items := items + m[k].items;
      k := k + 1;
    }
  }

  lemma FunctionAppended(s0: seq<Instr>, a: seq<Item>, b: seq<Item>, next: nat, n: nat)
    requires n == next + CallLabels(a, |a|)
    ensures s0 + ItemsCode(a, |a|, next) + ItemsCode(b, |b|, n) == s0 + ItemsCode(a + b, |a + b|, next)
    ensures n + CallLabels(b, |b|) == next + CallLabels(a + b, |a + b|)
  {
    ItemsAppend(a, b, |b|, |a + b|, next, n);
    Assoc(s0, ItemsCode(a, |a|, next), ItemsCode(b, |b|, n));
  }

  lemma {:induction false} ItemsAppend(a: seq<Item>, b: seq<Item>, k: nat, end: nat, next: nat, n: nat)
    requires k <= |b| && end == |a| + k && n == next + CallLabels(a, |a|)
    ensures ItemsCode(a + b, end, next) == ItemsCode(a, |a|, next) + ItemsCode(b, k, n)
    ensures next + CallLabels(a + b, end) == n + CallLabels(b, k)
  {
    if k > 0 {
      var j, e := k - 1, end - 1;
      ItemsAppend(a, b, j, e, next, n);
      AppendStep(a, b, j, e, next, n, n + CallLabels(b, j));
    } else {
      AppendNothing(a, b, end, next);
    }
  }

  lemma AppendNothing(a: seq<Item>, b: seq<Item>, end: nat, next: nat)
    requires end == |a|
    ensures ItemsCode(a + b, end, next) == ItemsCode(a, end, next) + []
    ensures CallLabels(a + b, end) == CallLabels(a, end)
  {
    ItemsPrefix(a, b, end, next);
  }

  lemma AppendStep(a: seq<Item>, b: seq<Item>, j: nat, end: nat, next: nat, n: nat, at: nat)
    requires j < |b| && end == |a| + j && at == n + CallLabels(b, j)
    requires ItemsCode(a + b, end, next) == ItemsCode(a, |a|, next) + ItemsCode(b, j, n)
    requires next + CallLabels(a + b, end) == at
    ensures ItemsCode(a + b, end + 1, next) == ItemsCode(a, |a|, next) + ItemsCode(b, j + 1, n)
    ensures next + CallLabels(a + b, end + 1) == n + CallLabels(b, j + 1)
  {
    assert (a + b)[end] == b[j];
    ItemsStep(a + b, end, next, at);
    ItemsStep(b, j, n, at);
    Assoc(ItemsCode(a, |a|, next), ItemsCode(b, j, n), ItemCode(b[j], at));
  }

  lemma {:induction false} ItemsPrefix(a: seq<Item>, b: seq<Item>, k: nat, next: nat)
    requires k <= |a|
    ensures ItemsCode(a + b, k, next) == ItemsCode(a, k, next) && CallLabels(a + b, k) == CallLabels(a, k)
  {
    if k > 0 {
      var j := k - 1;
      ItemsPrefix(a, b, j, next);
      assert (a + b)[j] == a[j];
      assert CodeOf(a + b, j, next) == CodeOf(a, j, next);
    }
  }

  lemma EmptyFront<T>(a: seq<T>, b: seq<T>, c: seq<T>)
    ensures [] + a + b + c == a + b + c
  {
    assert [] + a == a;
  }

  lemma {:induction false} ItemsLength(items: seq<Item>, k: nat, next: nat)
    requires k <= |items|
    ensures |ItemsCode(items, k, next)| <= 5 * k
  {
    if k > 0 {
      var j := k - 1;
      ItemsLength(items, j, next);
      ItemsStep(items, k - 1, next, next + CallLabels(items, j));
    }
  }

  // ---------- what the functions owe their callers ----------

  // Every block starts once, every block that is mentioned starts somewhere, and no opcode is a bare
  // push or a JUMPDEST of its own.
  ghost predicate Closed(p: Plan) {
    && (forall i, j :: 0 <= i < j < |p.items| && p.items[i].Begin? && p.items[j].Begin? ==>
          p.items[i].block != p.items[j].block)
    && (forall i :: i in p.items && i.Begin? ==> i.block < p.blocks)
    && (forall i :: i in p.items && (i.ToBlock? || i.Call?) ==> Begin(i.block) in p.items)
    && Opaque(p.items)
    && (forall e :: e in p.externals ==> Begin(e.front) in p.items)
    && (p.fallback.Some? ==> Begin(p.fallback.value) in p.items)
  }

  ghost predicate Opaque(items: seq<Item>) {
    forall i :: i in items && i.Opcode? ==> i.code != JUMPDEST && !IsImmediatePush(i.code)
  }

  function LabelsNeeded(p: Plan): nat {
    p.blocks + Labels(Entries(p.externals)) + CallLabels(p.items, |p.items|)
  }

  lemma ItemShaped(i: Item, next: nat)
    requires i.Opcode? ==> i.code != JUMPDEST && !IsImmediatePush(i.code)
    ensures Shaped(ItemCode(i, next))
  {
    if i.Call? {
      var refs := [LabelRef(Wrap(next)), LabelRef(Wrap(i.block)), Op(JUMP)];
      PlainShaped(refs);
      DestShaped(Wrap(next));
      ShapedConcat(refs, Dest(Wrap(next)));
    } else if i.Begin? {
      DestShaped(Wrap(i.block));
    } else {
      PlainShaped(ItemCode(i, next));
    }
  }

  lemma {:induction false} ItemsShaped(items: seq<Item>, k: nat, next: nat)
    requires k <= |items| && Opaque(items)
    ensures Shaped(ItemsCode(items, k, next))
  {
    if k > 0 {
      var j := k - 1;
      var n := next + CallLabels(items, j);
      ItemsShaped(items, j, next);
      ItemShaped(items[j], n);
      ItemsStep(items, k - 1, next, n);
      ShapedConcat(ItemsCode(items, j, next), ItemCode(items[j], n));
    }
  }

  // How often the first k items start a block with label l.
  function Begins(items: seq<Item>, k: nat, l: LabelID): nat
    requires k <= |items|
  {
    if k == 0 then 0 else Begins(items, k - 1, l) + Bool(items[k - 1].Begin? && Wrap(items[k - 1].block) == l)
  }

  lemma ItemDefs(i: Item, next: nat, l: LabelID)
    ensures DefCount(ItemCode(i, next), l) == Bool(i.Begin? && Wrap(i.block) == l) + Bool(i.Call? && Wrap(next) == l)
  {
    match i
    case Begin(b) => DestCounts(Wrap(b), l);
    case Opcode(c) => CountOne(Op(c), l);
    case Number(v) => CountOne(PushNat(v), l);
    case ToBlock(b) => CountOne(LabelRef(Wrap(b)), l);
    case Call(b) =>
      var refs := [LabelRef(Wrap(next)), LabelRef(Wrap(b)), Op(JUMP)];
      PlainCounts(refs, l);
      DestCounts(Wrap(next), l);
      CountConcat(refs, Dest(Wrap(next)), l);
  }

  // The blocks an item refers to.
  predicate Mentions(i: Item, l: LabelID) {
    (i.ToBlock? || i.Call?) && Wrap(i.block) == l
  }

  lemma ItemRefs(i: Item, next: nat, l: LabelID)
    ensures RefCount(ItemCode(i, next), l) > 0 ==> Mentions(i, l) || (i.Call? && Wrap(next) == l)
  {
    match i
    case Begin(b) => DestCounts(Wrap(b), l);
    case Opcode(c) => CountOne(Op(c), l);
    case Number(v) => CountOne(PushNat(v), l);
    case ToBlock(b) => CountOne(LabelRef(Wrap(b)), l);
    case Call(b) =>
      var refs := [LabelRef(Wrap(next)), LabelRef(Wrap(b)), Op(JUMP)];
      DestCounts(Wrap(next), l);
      CountConcat(refs, Dest(Wrap(next)), l);
      if LabelRef(l) !in refs {
        NoRefs(refs, l);
      }
  }

  lemma HandedOneMore(lo: nat, hi: nat, l: LabelID)
    requires lo <= hi
    ensures Handed(lo, hi + 1, l) == Handed(lo, hi, l) + Bool(Wrap(hi) == l)
  {
    HandedSplit(lo, hi, hi + 1, l);
    assert Handed(hi + 1, hi + 1, l) == 0;
  }

  // A count of the definitions of l, or of the references to l, that is known item by item.
  ghost predicate CountsItems(c: Counter) {
    match c
    case Counter(m, l, refs) =>
      && m([]) == 0
      && (forall a, b {:trigger Plus(a, b)} :: m(Plus(a, b)) == m(a) + m(b))
      && (forall i, n {:trigger ItemCode(i, n)} ::
            if refs then m(ItemCode(i, n)) > 0 ==> Mentions(i, l) || Creates(i, n, l)
            else m(ItemCode(i, n)) == Bool(i.Begin? && Wrap(i.block) == l) + Bool(Creates(i, n, l)))
  }

  // The item creates the label l when n exist already.
  predicate Creates(i: Item, n: nat, l: LabelID) {
    i.Call? && Wrap(n) == l
  }

  lemma ItemsSum(c: Counter, items: seq<Item>, j: nat, next: nat, n: nat)
    requires CountsItems(c) && j < |items| && n == next + CallLabels(items, j)
    ensures c.m(ItemsCode(items, j + 1, next)) == c.m(ItemsCode(items, j, next)) + c.m(ItemCode(items[j], n))
    ensures Handed(next, next + CallLabels(items, j + 1), c.l)
         == Handed(next, next + CallLabels(items, j), c.l) + Bool(Creates(items[j], n, c.l))
  {
    ItemsStep(items, j, next, n);
    assert c.m(Plus(ItemsCode(items, j, next), ItemCode(items[j], n)))
        == c.m(ItemsCode(items, j, next)) + c.m(ItemCode(items[j], n));
    HandedOneMore(next, n, c.l);
  }

  lemma ItemsCountStep(c: Counter, items: seq<Item>, j: nat, next: nat, n: nat)
    requires CountsItems(c) && j < |items| && n == next + CallLabels(items, j)
    requires !c.refs ==> c.m(ItemsCode(items, j, next)) == Begins(items, j, c.l) + Handed(next, n, c.l)
    requires c.refs && c.m(ItemsCode(items, j, next)) > 0 ==>
      (exists i :: i in items && Mentions(i, c.l)) || Handed(next, n, c.l) > 0
    ensures var end := next + CallLabels(items, j + 1);
      && (!c.refs ==> c.m(ItemsCode(items, j + 1, next)) == Begins(items, j + 1, c.l) + Handed(next, end, c.l))
      && (c.refs && c.m(ItemsCode(items, j + 1, next)) > 0 ==>
            (exists i :: i in items && Mentions(i, c.l)) || Handed(next, end, c.l) > 0)
  {
    ItemsSum(c, items, j, next, n);
    assert items[j] in items;
  }

  lemma {:induction false} ItemsCount(c: Counter, items: seq<Item>, k: nat, next: nat)
    requires CountsItems(c) && k <= |items|
    ensures !c.refs ==>
      c.m(ItemsCode(items, k, next)) == Begins(items, k, c.l) + Handed(next, next + CallLabels(items, k), c.l)
    ensures c.refs && c.m(ItemsCode(items, k, next)) > 0 ==>
      (exists i :: i in items && Mentions(i, c.l)) || Handed(next, next + CallLabels(items, k), c.l) > 0
  {
    if k > 0 {
      var j := k - 1;
      ItemsCount(c, items, j, next);
      ItemsCountStep(c, items, j, next, next + CallLabels(items, j));
    }
  }

  lemma DefsCountItems(l: LabelID)
    ensures CountsItems(Counter(s => DefCount(s, l), l, false))
  {
    forall a, b ensures DefCount(Plus(a, b), l) == DefCount(a, l) + DefCount(b, l) {
      CountConcat(a, b, l);
    }
    forall i, n ensures DefCount(ItemCode(i, n), l) == Bool(i.Begin? && Wrap(i.block) == l) + Bool(Creates(i, n, l)) {
      ItemDefs(i, n, l);
    }
  }

  lemma RefsCountItems(l: LabelID)
    ensures CountsItems(Counter(s => RefCount(s, l), l, true))
  {
    forall a, b ensures RefCount(Plus(a, b), l) == RefCount(a, l) + RefCount(b, l) {
      CountConcat(a, b, l);
    }
    forall i, n ensures RefCount(ItemCode(i, n), l) > 0 ==> Mentions(i, l) || Creates(i, n, l) {
      ItemRefs(i, n, l);
    }
  }

  lemma ItemsDefs(items: seq<Item>, k: nat, next: nat, l: LabelID)
    requires k <= |items|
    ensures DefCount(ItemsCode(items, k, next), l) == Begins(items, k, l) + Handed(next, next + CallLabels(items, k), l)
  {
    DefsCountItems(l);
    ItemsCount(Counter(s => DefCount(s, l), l, false), items, k, next);
  }

  lemma ItemsRefs(items: seq<Item>, k: nat, next: nat, l: LabelID)
    requires k <= |items|
    ensures RefCount(ItemsCode(items, k, next), l) > 0 ==>
      (exists i :: i in items && Mentions(i, l)) || Handed(next, next + CallLabels(items, k), l) > 0
  {
    RefsCountItems(l);
    ItemsCount(Counter(s => RefCount(s, l), l, true), items, k, next);
  }

  lemma {:induction false} BeginsPositive(items: seq<Item>, k: nat, l: LabelID)
    requires k <= |items|
    ensures Begins(items, k, l) > 0 <==> exists i :: 0 <= i < k && items[i].Begin? && Wrap(items[i].block) == l
  {
    if k > 0 {
      BeginsPositive(items, k - 1, l);
    }
  }

  lemma {:induction false} BeginsOnce(p: Plan, k: nat, l: LabelID)
    requires Closed(p) && p.blocks <= 0x1_0000 && k <= |p.items|
    ensures Begins(p.items, k, l) <= 1 && (Begins(p.items, k, l) > 0 ==> l < p.blocks)
  {
    if k > 0 {
      BeginsOnce(p, k - 1, l);
      BeginsPositive(p.items, k - 1, l);
      assert p.items[k - 1] in p.items;
    }
  }

  lemma BlockStarts(p: Plan, b: nat, next: nat)
    requires Closed(p) && p.blocks <= 0x1_0000 && Begin(b) in p.items
    ensures b < p.blocks && Wrap(b) == b
    ensures DefCount(ItemsCode(p.items, |p.items|, next), b) > 0
    ensures Entrance(ItemsCode(p.items, |p.items|, next), b)
  {
    var i :| 0 <= i < |p.items| && p.items[i] == Begin(b);
    assert b < p.blocks;
    BlockDefined(p.items, next, b, i);
    EntranceIn(p.items, |p.items|, next, b);
  }

  lemma BlockDefined(items: seq<Item>, next: nat, b: LabelID, i: nat)
    requires i < |items| && items[i] == Begin(b)
    ensures DefCount(ItemsCode(items, |items|, next), b) > 0
  {
    BeginsPositive(items, |items|, b);
    ItemsDefs(items, |items|, next, b);
  }

  lemma {:induction false} EntranceIn(items: seq<Item>, k: nat, next: nat, b: nat)
    requires k <= |items| && b < 0x1_0000 && exists i :: 0 <= i < k && items[i] == Begin(b)
    ensures Entrance(ItemsCode(items, k, next), b)
  {
    var before := ItemsCode(items, k - 1, next);
    var last := ItemCode(items[k - 1], next + CallLabels(items, k - 1));
    if items[k - 1] == Begin(b) {
      assert (before + last)[|before|] == LabelDef(b) && (before + last)[|before| + 1] == Op(JUMPDEST);
    } else {
      EntranceIn(items, k - 1, next, b);
      var j :| 0 < j < |before| && before[j - 1] == LabelDef(b) && before[j] == Op(JUMPDEST);
      assert (before + last)[j - 1] == LabelDef(b) && (before + last)[j] == Op(JUMPDEST);
    }
  }

  // ---------- the dispatcher's needs are met ----------

  // Entries that need a label of their own.
  function Decoding(entries: seq<Entry>): nat {
    if entries == [] then 0 else Bool(entries[0].args > 0) + Decoding(entries[1..])
  }

  lemma {:induction false} DecodingConcat(a: seq<Entry>, b: seq<Entry>)
    ensures Decoding(a + b) == Decoding(a) + Decoding(b)
  {
    if a == [] {
      assert a + b == b;
    } else {
      DecodingConcat(a[1..], b);
      assert (a + b)[1..] == a[1..] + b;
    }
  }

  // One label an inner node and one an entry with arguments, wherever they stand.
  lemma {:induction false} LabelsCount(entries: seq<Entry>)
    requires entries != []
    ensures Labels(entries) == |entries| - 1 + Decoding(entries)
    decreases |entries|
  {
    if |entries| == 1 {
      assert Decoding(entries[1..]) == 0;
    } else {
      var mid := |entries| / 2;
      LabelsCount(entries[..mid]);
      LabelsCount(entries[mid..]);
      DecodingConcat(entries[..mid], entries[mid..]);
      assert entries[..mid] + entries[mid..] == entries;
    }
  }

  lemma TakeOne(b: seq<Entry>, e: Entry) returns (rest: seq<Entry>)
    requires e in multiset(b)
    ensures multiset(rest) == multiset(b) - multiset{e} && Decoding(b) == Bool(e.args > 0) + Decoding(rest)
  {
    var j :| 0 <= j < |b| && b[j] == e;
    var before, after := b[..j], b[j + 1..];
    rest := before + after;
    assert b == before + ([e] + after);
    assert multiset(b) == multiset(before) + (multiset{e} + multiset(after));
    DecodingConcat(before, [e] + after);
    DecodingConcat(before, after);
    assert ([e] + after)[1..] == after;
  }

  lemma {:induction false} DecodingPermutes(a: seq<Entry>, b: seq<Entry>)
    requires multiset(a) == multiset(b)
    ensures Decoding(a) == Decoding(b)
  {
    if a == [] {
      assert |b| == |multiset(b)| == 0;
    } else {
      assert a == [a[0]] + a[1..];
      assert a[0] in multiset(b);
      var rest := TakeOne(b, a[0]);
      DecodingPermutes(a[1..], rest);
    }
  }

  lemma LabelsPermute(a: seq<Entry>, b: seq<Entry>)
    requires multiset(a) == multiset(b)
    ensures Labels(a) == Labels(b)
  {
    assert |a| == |multiset(a)| == |multiset(b)| == |b|;
    if a != [] {
      LabelsCount(a);
      LabelsCount(b);
      DecodingPermutes(a, b);
    }
  }

  lemma {:induction false} DestIsEntry(entries: seq<Entry>, l: LabelID)
    ensures DestCount(entries, l) > 0 ==> exists e :: e in entries && e.dest == l
  {
    if entries != [] {
      DestIsEntry(entries[1..], l);
    }
  }

  // The table of a module, in any order.
  ghost predicate IsTable(p: Plan, table: seq<Entry>) {
    multiset(table) == multiset(Entries(p.externals))
  }

  lemma EntryStarts(p: Plan, table: seq<Entry>, e: Entry) returns (b: nat)
    requires Closed(p) && IsTable(p, table) && e in table
    ensures Begin(b) in p.items && e.dest == Wrap(b)
  {
    assert e in multiset(table);
    var i :| 0 <= i < |p.externals| && Entries(p.externals)[i] == e;
    b := p.externals[i].front;
  }

  // The labels of blocks, dispatcher and calls are told apart, and the dispatcher finds all it jumps to.
  lemma BodiesAccepted(p: Plan, table: seq<Entry>)
    requires Closed(p) && LabelsNeeded(p) <= 0x1_0000 && IsTable(p, table)
    ensures Accepts(Bodies(p, table), table, FallbackLabel(p), p.blocks)
  {
    var n, next, bodies := |p.items|, LabelsBefore(p, table), Bodies(p, table);
    LabelsPermute(table, Entries(p.externals));
    ItemsShaped(p.items, n, next);
    forall l: LabelID
      ensures DefCount(bodies, l) <= 1
      ensures DefCount(bodies, l) > 0 ==> !(p.blocks <= l < next)
      ensures RefCount(bodies, l) > 0 ==> DefCount(bodies, l) > 0
      ensures DestCount(table, l) > 0 ==> DefCount(bodies, l) > 0
    {
      BodiesLabels(p, table, next, l);
    }
    if table == [] && p.fallback.Some? {
      BlockStarts(p, p.fallback.value, next);
    }
  }

  lemma BodiesLabels(p: Plan, table: seq<Entry>, next: nat, l: LabelID)
    requires Closed(p) && IsTable(p, table)
    requires p.blocks <= next && next + CallLabels(p.items, |p.items|) <= 0x1_0000
    ensures var bodies := ItemsCode(p.items, |p.items|, next);
      && DefCount(bodies, l) <= 1
      && (DefCount(bodies, l) > 0 ==> !(p.blocks <= l < next))
      && (RefCount(bodies, l) > 0 ==> DefCount(bodies, l) > 0)
      && (DestCount(table, l) > 0 ==> DefCount(bodies, l) > 0)
  {
    BodiesDefine(p, next, |p.items|, l);
    BodiesRefer(p, next, |p.items|, l);
    DestIsEntry(table, l);
    if e :| e in table && e.dest == l {
      var b := EntryStarts(p, table, e);
      BlockStarts(p, b, next);
    }
  }

  lemma BodiesDefine(p: Plan, next: nat, n: nat, l: LabelID)
    requires Closed(p) && n == |p.items| && p.blocks <= next && next + CallLabels(p.items, n) <= 0x1_0000
    ensures DefCount(ItemsCode(p.items, n, next), l) <= 1
    ensures DefCount(ItemsCode(p.items, n, next), l) > 0 ==> !(p.blocks <= l < next)
  {
    ItemsDefs(p.items, n, next, l);
    BeginsOnce(p, n, l);
    HandedOnce(next, next + CallLabels(p.items, n), l);
  }

  lemma BodiesRefer(p: Plan, next: nat, n: nat, l: LabelID)
    requires Closed(p) && n == |p.items| && p.blocks <= next && next + CallLabels(p.items, n) <= 0x1_0000
    ensures RefCount(ItemsCode(p.items, n, next), l) > 0 ==> DefCount(ItemsCode(p.items, n, next), l) > 0
  {
    ItemsDefs(p.items, n, next, l);
    ItemsRefs(p.items, n, next, l);
    if i :| i in p.items && Mentions(i, l) {
      BlockStarts(p, i.block, next);
    }
  }

  // Room on the caller's stack for the dispatcher and the arguments it decodes.
  predicate RoomFor(table: seq<Entry>, core: Core) {
    |core.stack| + 6 <= STACK_LIMIT && forall e :: e in table ==> |core.stack| + e.args + 5 <= STACK_LIMIT
  }

  // Every stream `EmitRuntime` produces for a closed module meets the needs of its dispatcher.
  lemma RuntimeReady(p: Plan, table: seq<Entry>, v: Variant, core: Core)
    requires Closed(p) && LabelsNeeded(p) <= 0x1_0000 && IsTable(p, table) && RoomFor(table, core)
    requires var prog := Stream(table, FallbackLabel(p), v, p.blocks, Bodies(p, table));
      Offset(prog, |prog|) < 0x1_0000
    ensures Ready(table, FallbackLabel(p), v, p.blocks, Bodies(p, table), core)
  {
    BodiesAccepted(p, table);
    BodiesCallable(p, table, core);
  }

  lemma BodiesCallable(p: Plan, table: seq<Entry>, core: Core)
    requires Closed(p) && p.blocks <= 0x1_0000 && IsTable(p, table) && RoomFor(table, core)
    ensures Callable(Bodies(p, table), table, FallbackLabel(p), core)
  {
    forall e | e in table ensures Entrance(Bodies(p, table), e.dest) {
      EntryEntrance(p, table, e);
    }
    if table == [] && p.fallback.Some? {
      BlockStarts(p, p.fallback.value, LabelsBefore(p, table));
    }
  }

  lemma EntryEntrance(p: Plan, table: seq<Entry>, e: Entry)
    requires Closed(p) && p.blocks <= 0x1_0000 && IsTable(p, table) && e in table
    ensures Entrance(Bodies(p, table), e.dest)
  {
    var b := EntryStarts(p, table, e);
    BlockStarts(p, b, LabelsBefore(p, table));
  }
}
