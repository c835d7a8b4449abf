// The runtime stream: selector load, dispatch tree, function bodies. It links, and its bytes take a
// call to the function the tree routes the selector to.

module Runtime {
  import opened Wrappers
  import opened Words
  import opened Opcodes
  import opened Bytecode
  import opened Machine
  import opened Disassembly
  import opened Simulation
  import opened Fragments
  import opened Dispatcher
  import opened Dispatch
  import opened DispatchProofs

  // ---------- the selector ----------

  function Selector(calldata: seq<byte>): Word {
    WordOf(Window(calldata, 0, 4))
  }

  lemma HalfEight(v: Word, n: nat)
    ensures HalfTimes(v, n + 8) == HalfTimes(v / 256, n)
  {
    assert HalfTimes(v, n + 8) == HalfTimes(v / 2 / 2, n + 6);
    assert HalfTimes(v / 4, n + 6) == HalfTimes(v / 4 / 2 / 2, n + 4);
    assert HalfTimes(v / 16, n + 4) == HalfTimes(v / 16 / 2 / 2, n + 2);
    assert HalfTimes(v / 64, n + 2) == HalfTimes(v / 64 / 2 / 2, n);
  }

  lemma {:induction false} HalfIsShift(v: Word, n: nat)
    ensures HalfTimes(v, 8 * n) == Shift(v, n)
  {
    if n > 0 {
      HalfEight(v, 8 * (n - 1));
      HalfIsShift(v / 256, n - 1);
    }
  }

  lemma {:induction false} ShiftDropsBytes(s: seq<byte>, n: nat)
    requires n <= |s|
    ensures Shift(FromBytes(s), n) == FromBytes(s[..|s| - n])
  {
    if n > 0 {
      var init := s[..|s| - 1];
      ShiftDropsBytes(init, n - 1);
      assert init[..|init| - (n - 1)] == s[..|s| - n];
    } else {
      assert s[..|s|] == s;
    }
  }

  // Shifting the first calldata word right by 224 bits leaves its first four bytes, zero padded.
  lemma SelectorIsPrefix(calldata: seq<byte>, shift: Word)
    requires shift == 0xE0
    ensures HalfTimes(WordOf(Window(calldata, 0, 32)), shift) == Selector(calldata)
  {
    var w := Window(calldata, 0, 32);
    HalfIsShift(WordOf(w), 28);
    ShiftDropsBytes(w, 28);
    assert w[..4] == Window(calldata, 0, 4);
  }

  lemma DoShift(c: Linked, k: nat, core: Core, shift: Word, v: Word, rest: seq<Word>, after: Core)
    requires Interprets(c.sem, c.env)
    requires k < |c.prog| && c.prog[k] == Op(SHR)
    requires core.stack == [shift, v] + rest && shift < 256
    requires after == Ran(c.env, SHR, core, [HalfTimes(v, shift)] + rest)
    ensures Next1(c, Running(k, core)) == Running(k + 1, after)
  {
    assert core.stack[2..] == rest;
    DoOp(c, k, core, SHR, after);
  }

  function SelectorGas(env: Env): nat {
    env.gas(PUSH0) + env.gas(CALLDATALOAD) + env.gas(PUSH1) + env.gas(SHR)
  }

  // The prologue leaves the selector on top.
  lemma SelectorRuns(c: Linked, k: nat, core: Core, m: nat, c1: Core)
    requires Interprets(c.sem, c.env) && At(c, k, SELECTOR_LOAD) && |core.stack| + 2 <= STACK_LIMIT
    requires m == k + 4 && c1 == Loaded(c.env, core)
    ensures Reaches(c, Running(k, core), Running(m, c1))
  {
    AtSplit(c, k, [PUSH_ZERO, Op(CALLDATALOAD)], [PUSH_SHIFT, Op(SHR)]);
    var w := WordOf(Window(c.env.calldata, 0, 32));
    var c0 := FirstWordRuns(c, k, core, w);
    SelectorIsPrefix(c.env.calldata, 0xE0);
    ShiftRuns(c, k + 2, c0, 0xE0, w, core.stack, c1);
    Then(c, Running(k, core), Running(k + 2, c0), Running(m, c1));
  }

  lemma FirstWordRuns(c: Linked, k: nat, core: Core, w: Word) returns (after: Core)
    requires Interprets(c.sem, c.env) && At(c, k, [PUSH_ZERO, Op(CALLDATALOAD)]) && |core.stack| < STACK_LIMIT
    requires w == WordOf(Window(c.env.calldata, 0, 32))
    ensures after == Spend(core, c.env.gas(PUSH0) + c.env.gas(CALLDATALOAD)).(stack := [w] + core.stack)
    ensures Reaches(c, Running(k, core), Running(k + 2, after))
  {
    Nth(c, k, [PUSH_ZERO, Op(CALLDATALOAD)], 0);
    Nth(c, k, [PUSH_ZERO, Op(CALLDATALOAD)], 1);
    var c1 := Ran(c.env, PUSH0, core, [0 as Word] + core.stack);
    DoPushZero(c, k, core);
    after := Ran(c.env, CALLDATALOAD, c1, [w] + core.stack);
    DoLoad(c, k + 1, c1, 0, core.stack, after);
    TwoSteps(c, Running(k, core), Running(k + 1, c1), Running(k + 2, after));
  }

  lemma ShiftRuns(c: Linked, k: nat, core: Core, shift: Word, v: Word, rest: seq<Word>, after: Core)
    requires Interprets(c.sem, c.env) && At(c, k, [PUSH_SHIFT, Op(SHR)]) && shift == 0xE0
    requires core.stack == [v] + rest && |rest| + 2 <= STACK_LIMIT
    requires after == Spend(core, c.env.gas(PUSH1) + c.env.gas(SHR)).(stack := [HalfTimes(v, shift)] + rest)
    ensures Reaches(c, Running(k, core), Running(k + 2, after))
  {
    Nth(c, k, [PUSH_SHIFT, Op(SHR)], 0);
    Nth(c, k, [PUSH_SHIFT, Op(SHR)], 1);
    var c1 := Ran(c.env, PUSH1, core, [shift] + core.stack);
    DoPushShift(c, k, core, shift);
    assert c1.stack == [shift, v] + rest;
    DoShift(c, k + 1, c1, shift, v, rest, after);
    TwoSteps(c, Running(k, core), Running(k + 1, c1), Running(k + 2, after));
  }

  lemma DoPushShift(c: Linked, k: nat, core: Core, shift: Word)
    requires Interprets(c.sem, c.env)
    requires k < |c.prog| && c.prog[k] == PUSH_SHIFT && |core.stack| < STACK_LIMIT && shift == 0xE0
    ensures Next1(c, Running(k, core)) == Running(k + 1, Ran(c.env, PUSH1, core, [shift] + core.stack))
  {
    assert PUSH_SHIFT.value[32 - ImmLen(PUSH1)..] == [0xE0];
    assert [0xE0 as byte][..0] == [] && FromBytes([]) == 0;
    assert FromBytes([0xE0]) == shift;
    DoPushInstr(c, k, core, PUSH_SHIFT, shift);
  }

  // ---------- linking ----------

  function Stream(entries: seq<Entry>, fallback: Option<LabelID>, v: Variant, next: nat, bodies: seq<Instr>)
    : seq<Instr>
  {
    SELECTOR_LOAD + Tree(entries, fallback, v, next) + bodies
  }

  lemma DestsConcat(a: seq<Instr>, b: seq<Instr>)
    requires DestsLabelled(a) && DestsLabelled(b)
    ensures DestsLabelled(a + b)
  {
    forall k | 0 <= k < |a + b| && (a + b)[k] == Op(JUMPDEST) ensures k > 0 && (a + b)[k - 1].LabelDef? {
      if k >= |a| {
        assert b[k - |a|] == Op(JUMPDEST);
        assert (a + b)[k - 1] == b[k - |a| - 1];
      }
    }
  }

  // What the shape of the tree gives regardless of labels.
  ghost predicate Shaped(prog: seq<Instr>) {
    NoBarePush(prog) && DestsLabelled(prog)
  }

  lemma PlainShaped(prog: seq<Instr>)
    requires Plain(prog)
    ensures Shaped(prog)
  {
  }

  lemma ShapedConcat(a: seq<Instr>, b: seq<Instr>)
    requires Shaped(a) && Shaped(b)
    ensures Shaped(a + b)
  {
    DestsConcat(a, b);
  }

  lemma TestPlain(e: Entry, l: LabelID)
    ensures Plain(TestCode(e, l))
  {
  }

  lemma RevertPlain()
    ensures Plain(REVERT_CODE)
  {
    PushesPlain(PUSH_ZERO, PUSH_ZERO);
  }

  lemma PushesPlain(a: Instr, b: Instr)
    requires a.Push? && b.Push?
    ensures Plain([a, b, Op(REVERT)])
  {
  }

  lemma SelectorPlain()
    ensures Plain(SELECTOR_LOAD)
  {
  }

  lemma LoadPlain(n: nat, l: LabelID)
    ensures Plain(LoadAndJump(n, l))
  {
    ArgumentsPlain(n);
  }

  lemma PivotPlain(p: uint32, v: Variant, l: LabelID)
    ensures Plain(PivotCode(p, v, l))
  {
  }

  lemma DestShaped(l: LabelID)
    ensures Shaped(Dest(l))
  {
  }

  lemma LeafShaped(e: Entry, next: nat)
    ensures Shaped(LeafCode(e, next))
  {
    RevertPlain();
    PlainShaped(REVERT_CODE);
    if e.args == 0 {
      TestPlain(e, e.dest);
      PlainShaped(TestCode(e, e.dest));
      ShapedConcat(TestCode(e, e.dest), REVERT_CODE);
    } else {
      var l := Wrap(next);
      TestPlain(e, l);
      PlainShaped(TestCode(e, l));
      LoadPlain(e.args, e.dest);
      PlainShaped(LoadAndJump(e.args, e.dest));
      DestShaped(l);
      ShapedConcat(LoadAndJump(e.args, e.dest), REVERT_CODE);
      ShapedNode(TestCode(e, l), REVERT_CODE, Dest(l), LoadAndJump(e.args, e.dest) + REVERT_CODE);
      LeafIsDecoding(e, next);
    }
  }

  lemma ShapedNode(a: seq<Instr>, b: seq<Instr>, x: seq<Instr>, y: seq<Instr>)
    requires Shaped(a) && Shaped(b) && Shaped(x) && Shaped(y)
    ensures Shaped(a + b + (x + y))
  {
    ShapedConcat(a, b);
    ShapedConcat(x, y);
    ShapedConcat(a + b, x + y);
  }

  lemma {:induction false} TreeShaped(entries: seq<Entry>, fallback: Option<LabelID>, v: Variant, next: nat)
    ensures Shaped(Tree(entries, fallback, v, next))
    decreases |entries|
  {
    if |entries| == 0 {
      RevertPlain();
      PlainShaped(FallbackCode(fallback));
    } else if |entries| == 1 {
      LeafShaped(entries[0], next);
    } else {
      var mid := |entries| / 2;
      var n0, n1 := next + 1, next + 1 + Labels(entries[..mid]);
      TreeShaped(entries[..mid], fallback, v, n0);
      TreeShaped(entries[mid..], fallback, v, n1);
      TreeNodeShaped(entries, fallback, v, next, n0, n1);
    }
  }

  lemma TreeNodeShaped(entries: seq<Entry>, fallback: Option<LabelID>, v: Variant, next: nat, n0: nat, n1: nat)
    requires |entries| >= 2
    requires n0 == next + 1 && n1 == next + 1 + Labels(entries[..|entries| / 2])
    requires Shaped(Tree(entries[..|entries| / 2], fallback, v, n0))
    requires Shaped(Tree(entries[|entries| / 2..], fallback, v, n1))
    ensures Shaped(Tree(entries, fallback, v, next))
  {
    var mid := |entries| / 2;
    var pivot := PivotCode(entries[mid].selector, v, Wrap(next));
    var left, right := Tree(entries[..mid], fallback, v, n0), Tree(entries[mid..], fallback, v, n1);
    PivotPlain(entries[mid].selector, v, Wrap(next));
    PlainShaped(pivot);
    DestShaped(Wrap(next));
    ShapedNode(pivot, left, Dest(Wrap(next)), right);
    TreeNode(entries, fallback, v, next);
    var node := pivot + left + (Dest(Wrap(next)) + right);
    assert Tree(entries, fallback, v, next) == node;
  }

  lemma {:induction false} CountPositive(prog: seq<Instr>, i: Instr, k: nat)
    requires k <= |prog|
    ensures CountUpTo(prog, i, k) > 0 <==> exists j :: 0 <= j < k && prog[j] == i
  {
    if k > 0 {
      CountPositive(prog, i, k - 1);
    }
  }

  lemma {:induction false} CountTwice(prog: seq<Instr>, i: Instr, j: nat, k: nat, n: nat)
    requires j < k < n <= |prog| && prog[j] == i && prog[k] == i
    ensures CountUpTo(prog, i, n) >= 2
  {
    if k == n - 1 {
      CountPositive(prog, i, k);
    } else {
      CountTwice(prog, i, j, k, n - 1);
    }
  }

  lemma CountsTwice(prog: seq<Instr>, j: nat, k: nat)
    requires j < k < |prog|
    ensures prog[j] == prog[k] ==> CountUpTo(prog, prog[j], |prog|) >= 2
  {
    if prog[j] == prog[k] {
      CountTwice(prog, prog[j], j, k, |prog|);
    }
  }

  lemma CountsDefined(prog: seq<Instr>)
    requires forall l: LabelID {:trigger RefCount(prog, l)} :: RefCount(prog, l) > 0 ==> DefCount(prog, l) > 0
    ensures RefsDefined(prog)
  {
    forall k | 0 <= k < |prog| && prog[k].LabelRef? ensures prog[k].id in LabelOffsets(prog) {
      var l := prog[k].id;
      CountPositive(prog, LabelRef(l), |prog|);
      assert RefCount(prog, l) > 0;
      CountPositive(prog, LabelDef(l), |prog|);
      LabelsUpToDefined(prog, |prog|, l);
      assert prog[..|prog|] == prog;
    }
  }

  // Linkability in terms of counts.
  lemma CountsLink(prog: seq<Instr>)
    requires Shaped(prog) && Offset(prog, |prog|) < 0x1_0000
    requires forall l: LabelID {:trigger DefCount(prog, l)} :: DefCount(prog, l) <= 1
    requires forall l: LabelID {:trigger RefCount(prog, l)} :: RefCount(prog, l) > 0 ==> DefCount(prog, l) > 0
    ensures Linkable(prog)
  {
    CountsDefined(prog);
    forall j, k | 0 <= j < k < |prog| && prog[j].LabelDef? && prog[k].LabelDef? ensures prog[j].id != prog[k].id {
      assert DefCount(prog, prog[j].id) <= 1;
      CountsTwice(prog, j, k);
    }
  }

  // What the function bodies owe the dispatcher: they define their labels once and refer to no others,
  // they stay clear of the labels the tree creates, and they define the labels the tree jumps to.
  ghost predicate Accepts(bodies: seq<Instr>, entries: seq<Entry>, fallback: Option<LabelID>, next: nat) {
    var end := next + Labels(entries);
    && Shaped(bodies)
    && end <= 0x1_0000
    && (forall l: LabelID {:trigger DefCount(bodies, l)} :: DefCount(bodies, l) <= 1)
    && (forall l: LabelID {:trigger DefCount(bodies, l)} :: DefCount(bodies, l) > 0 ==> !(next <= l < end))
    && (forall l: LabelID {:trigger RefCount(bodies, l)} :: RefCount(bodies, l) > 0 ==> DefCount(bodies, l) > 0)
    && (forall l: LabelID {:trigger DestCount(entries, l)} :: DestCount(entries, l) > 0 ==> DefCount(bodies, l) > 0)
    && (entries == [] && fallback.Some? ==> DefCount(bodies, fallback.value) > 0)
  }

  lemma FallbackCounts(fallback: Option<LabelID>, l: LabelID)
    ensures DefCount(FallbackCode(fallback), l) == 0
    ensures RefCount(FallbackCode(fallback), l) == Bool(fallback == Some(l))
  {
    match fallback
    case None => RevertCounts(l);
    case Some(r) =>
      JumpCounts([], r, Op(JUMP), l);
      assert [] + [LabelRef(r), Op(JUMP)] == FallbackCode(fallback);
  }

  lemma SelectorCounts(l: LabelID)
    ensures DefCount(SELECTOR_LOAD, l) == 0 && RefCount(SELECTOR_LOAD, l) == 0
  {
    PlainCounts(SELECTOR_LOAD, l);
    NoRefs(SELECTOR_LOAD, l);
  }

  lemma StreamCounts(entries: seq<Entry>, fallback: Option<LabelID>, v: Variant, next: nat,
                    bodies: seq<Instr>, l: LabelID)
    requires Accepts(bodies, entries, fallback, next)
    ensures var prog := Stream(entries, fallback, v, next, bodies);
      DefCount(prog, l) <= 1 && (RefCount(prog, l) > 0 ==> DefCount(prog, l) > 0)
  {
    var tree := Tree(entries, fallback, v, next);
    SelectorCounts(l);
    CountConcat(SELECTOR_LOAD, tree, l);
    CountConcat(SELECTOR_LOAD + tree, bodies, l);
    if entries == [] {
      FallbackCounts(fallback, l);
    } else {
      TreeLabels(entries, fallback, v, next, l);
    }
    assert DefCount(bodies, l) <= 1 && RefCount(bodies, l) >= 0 && DestCount(entries, l) >= 0;
  }

  lemma StreamShaped(entries: seq<Entry>, fallback: Option<LabelID>, v: Variant, next: nat, bodies: seq<Instr>)
    requires Shaped(bodies)
    ensures Shaped(Stream(entries, fallback, v, next, bodies))
  {
    var tree := Tree(entries, fallback, v, next);
    SelectorPlain();
    PlainShaped(SELECTOR_LOAD);
    TreeShaped(entries, fallback, v, next);
    ShapedConcat(SELECTOR_LOAD, tree);
    ShapedConcat(SELECTOR_LOAD + tree, bodies);
  }

  lemma StreamDefined(entries: seq<Entry>, fallback: Option<LabelID>, v: Variant, next: nat, bodies: seq<Instr>)
    requires Accepts(bodies, entries, fallback, next)
    ensures RefsDefined(Stream(entries, fallback, v, next, bodies))
  {
    var prog := Stream(entries, fallback, v, next, bodies);
    forall l ensures RefCount(prog, l) > 0 ==> DefCount(prog, l) > 0 {
      StreamCounts(entries, fallback, v, next, bodies, l);
    }
    CountsDefined(prog);
  }

  // The labels of the dispatcher never clash with those of the bodies: the stream links.
  lemma StreamLinks(entries: seq<Entry>, fallback: Option<LabelID>, v: Variant, next: nat, bodies: seq<Instr>)
    requires Accepts(bodies, entries, fallback, next)
    requires var prog := Stream(entries, fallback, v, next, bodies); Offset(prog, |prog|) < 0x1_0000
    ensures Linkable(Stream(entries, fallback, v, next, bodies))
  {
    var prog := Stream(entries, fallback, v, next, bodies);
    StreamShaped(entries, fallback, v, next, bodies);
    forall l ensures DefCount(prog, l) <= 1 && (RefCount(prog, l) > 0 ==> DefCount(prog, l) > 0) {
      StreamCounts(entries, fallback, v, next, bodies, l);
    }
    CountsLink(prog);
  }

  // ---------- the dispatcher in bytes ----------

  // Label l stands in front of a JUMPDEST, as the label of an emitted block does.
  ghost predicate Entrance(prog: seq<Instr>, l: LabelID) {
    exists k :: 0 < k < |prog| && prog[k - 1] == LabelDef(l) && prog[k] == Op(JUMPDEST)
  }

  function PositionOf(prog: seq<Instr>, l: LabelID): nat {
    var labels := LabelOffsets(prog);
    if l in labels then labels[l] else 0
  }

  // The byte machine after the prologue: the selector on top.
  function Loaded(env: Env, core: Core): Core {
    Spend(core, SelectorGas(env)).(stack := [Selector(env.calldata)] + core.stack)
  }

  // The byte machine's state when the dispatcher is done with a call.
  function Landed(prog: seq<Instr>, env: Env, entries: seq<Entry>, fallback: Option<LabelID>, v: Variant, core: Core)
    : State
  {
    Routed(prog, env, entries, fallback, v, Loaded(env, core), Selector(env.calldata))
  }

  function Routed(prog: seq<Instr>, env: Env, entries: seq<Entry>, fallback: Option<LabelID>, v: Variant, core: Core,
                  sel: Word): State {
    if entries == [] then
      match fallback
      case Some(l) => Running(PositionOf(prog, l), Spend(core, env.gas(PUSH2) + env.gas(JUMP)))
      case None => Rejected(env, core, 0)
    else
      RoutedLeaf(prog, env, entries[Route(entries, v, sel)], core, PathGas(env, entries, v, sel), sel)
  }

  function RoutedLeaf(prog: seq<Instr>, env: Env, e: Entry, core: Core, g: nat, sel: Word): State {
    if e.selector == sel then
      Running(PositionOf(prog, e.dest),
              Spend(core, g + MatchGas(env, e)).(stack := ArgWords(env.calldata, e.args) + core.stack))
    else Rejected(env, core, g + TestGas(env, e))
  }

  ghost predicate Callable(bodies: seq<Instr>, entries: seq<Entry>, fallback: Option<LabelID>, core: Core) {
    && |core.stack| + 6 <= STACK_LIMIT
    && (forall e :: e in entries ==> Entrance(bodies, e.dest) && |core.stack| + e.args + 5 <= STACK_LIMIT)
    && (entries == [] && fallback.Some? ==> Entrance(bodies, fallback.value))
  }

  lemma EntranceTarget(c: Linked, pre: seq<Instr>, bodies: seq<Instr>, l: LabelID)
    requires Valid(c) && c.prog == pre + bodies && Entrance(bodies, l)
    ensures Target(c, l).Some? && Target(c, l).value > |pre|
  {
    var k :| 0 < k < |bodies| && bodies[k - 1] == LabelDef(l) && bodies[k] == Op(JUMPDEST);
    var j := |pre| + k;
    assert c.prog[j] == Op(JUMPDEST) && c.prog[j - 1] == LabelDef(l);
    assert Target(c, c.prog[j - 1].id) == Some(j);
  }

  lemma TargetPosition(c: Linked, l: LabelID)
    requires Assembles(c) && Target(c, l).Some?
    ensures var k := Target(c, l).value; k < |c.prog| && Offset(c.prog, k) == PositionOf(c.prog, l)
  {
    var k := Target(c, l).value;
    LabelAddress(c.prog, k - 1);
    assert Offset(c.prog, k) == Offset(c.prog, k - 1);
  }

  lemma PrefixAt(c: Linked, a: seq<Instr>, b: seq<Instr>, rest: seq<Instr>)
    requires c.prog == a + b + rest && c.bound == |a + b|
    ensures At(c, 0, a) && At(c, |a|, b)
  {
    assert At(c, 0, a + b);
    AtSplit(c, 0, a, b);
  }

  // The labels the tree jumps to lie behind it.
  lemma TargetsBehind(c: Linked, pre: seq<Instr>, entries: seq<Entry>, fallback: Option<LabelID>, bodies: seq<Instr>,
                      core: Core)
    requires Valid(c) && c.prog == pre + bodies && c.bound == |pre| && Callable(bodies, entries, fallback, core)
    ensures Behind(c, entries, fallback)
  {
    forall e | e in entries ensures Target(c, e.dest).Some? && Target(c, e.dest).value > c.bound {
      EntranceTarget(c, pre, bodies, e.dest);
    }
    if entries == [] && fallback.Some? {
      EntranceTarget(c, pre, bodies, fallback.value);
    }
  }

  ghost predicate Behind(c: Linked, entries: seq<Entry>, fallback: Option<LabelID>) {
    && (forall e :: e in entries ==> Target(c, e.dest).Some? && Target(c, e.dest).value > c.bound)
    && (entries == [] && fallback.Some? ==>
          Target(c, fallback.value).Some? && Target(c, fallback.value).value > c.bound)
  }

  lemma StreamReaches(c: Linked, entries: seq<Entry>, fallback: Option<LabelID>, v: Variant, next: nat,
                      core: Core, c1: Core, sel: Word)
    requires Valid(c) && At(c, 0, SELECTOR_LOAD) && At(c, 4, Tree(entries, fallback, v, next))
    requires forall e :: e in entries ==> Target(c, e.dest).Some? && |core.stack| + e.args + 5 <= STACK_LIMIT
    requires entries == [] && fallback.Some? ==> Target(c, fallback.value).Some?
    requires |core.stack| + 6 <= STACK_LIMIT
    requires sel == Selector(c.env.calldata) && c1 == Loaded(c.env, core)
    ensures Reaches(c, Running(0, core), Verdict(c, entries, fallback, v, c1, sel))
  {
    SelectorRuns(c, 0, core, 4, c1);
    TreeRuns(c, 4, entries, fallback, v, next, c1, sel, core.stack);
    Then(c, Running(0, core), Running(4, c1), Verdict(c, entries, fallback, v, c1, sel));
  }

  lemma ArrivedLands(c: Linked, e: Entry, core: Core, g: nat)
    requires Assembles(c) && Target(c, e.dest).Some? && Target(c, e.dest).value > c.bound
    ensures InRange(c.prog, Arrived(c, e, core, g)) && PositionOf(c.prog, e.dest) >= Offset(c.prog, c.bound)
    ensures Concrete(c.prog, Arrived(c, e, core, g)) ==
      Running(PositionOf(c.prog, e.dest), Spend(core, g).(stack := ArgWords(c.env.calldata, e.args) + core.stack))
  {
    TargetPosition(c, e.dest);
    OffsetMono(c.prog, c.bound, Target(c, e.dest).value);
  }

  lemma VerdictLands(c: Linked, entries: seq<Entry>, fallback: Option<LabelID>, v: Variant, core: Core, sel: Word)
    requires Assembles(c) && Behind(c, entries, fallback)
    ensures var t := Verdict(c, entries, fallback, v, core, sel);
      && InRange(c.prog, t) && !InFront(Concrete(c.prog, t), Offset(c.prog, c.bound))
      && Concrete(c.prog, t) == Routed(c.prog, c.env, entries, fallback, v, core, sel)
  {
    if entries != [] {
      LeafLands(c, entries[Route(entries, v, sel)], core, PathGas(c.env, entries, v, sel), sel);
    } else if fallback.Some? {
      TargetPosition(c, fallback.value);
      OffsetMono(c.prog, c.bound, Target(c, fallback.value).value);
    }
  }

  lemma LeafLands(c: Linked, e: Entry, core: Core, g: nat, sel: Word)
    requires Assembles(c) && Target(c, e.dest).Some? && Target(c, e.dest).value > c.bound
    ensures var t := AtLeaf(c, e, core, g, sel);
      && InRange(c.prog, t) && !InFront(Concrete(c.prog, t), Offset(c.prog, c.bound))
      && Concrete(c.prog, t) == RoutedLeaf(c.prog, c.env, e, core, g, sel)
  {
    ArrivedLands(c, e, core, g + MatchGas(c.env, e));
  }

  // The byte machine, started in s, is in t when the program counter is first not below `end`.
  ghost predicate Leaves(sem: Semantics, code: seq<byte>, end: nat, s: State, t: State) {
    exists n: nat :: LeavesAfter(sem, code, end, s, t, n)
  }

  ghost predicate LeavesAfter(sem: Semantics, code: seq<byte>, end: nat, s: State, t: State, n: nat) {
    && Run(sem, code, s, n) == t && !InFront(t, end)
    && forall i :: 0 <= i < n ==> InFront(Run(sem, code, s, i), end)
  }

  // There is only one such state.
  lemma LeavesOnce(sem: Semantics, code: seq<byte>, end: nat, s: State, t: State, u: State)
    requires Leaves(sem, code, end, s, t) && Leaves(sem, code, end, s, u)
    ensures t == u
  {
    var m: nat :| LeavesAfter(sem, code, end, s, t, m);
    var n: nat :| LeavesAfter(sem, code, end, s, u, n);
    assert !(m < n) && !(n < m);
  }

  // The bytes of the selector load and the tree.
  function DispatcherSize(entries: seq<Entry>, fallback: Option<LabelID>, v: Variant, next: nat, bodies: seq<Instr>)
    : nat
  {
    Offset(Stream(entries, fallback, v, next, bodies), |SELECTOR_LOAD + Tree(entries, fallback, v, next)|)
  }

  // Dispatch, in bytes: from the first byte of the assembled contract, control stays in the selector
  // load and the tree until it leaves them in the state `Landed`.
  lemma DispatchLands(env: Env, entries: seq<Entry>, fallback: Option<LabelID>, v: Variant, next: nat,
                      bodies: seq<Instr>, core: Core)
    requires Accepts(bodies, entries, fallback, next) && Callable(bodies, entries, fallback, core)
    requires var prog := Stream(entries, fallback, v, next, bodies); Offset(prog, |prog|) < 0x1_0000
    ensures var prog := Stream(entries, fallback, v, next, bodies);
      Leaves(Evm(env), Assembled(prog), DispatcherSize(entries, fallback, v, next, bodies), Running(0, core),
             Landed(prog, env, entries, fallback, v, core))
  {
    var prog := Stream(entries, fallback, v, next, bodies);
    var tree, sel := Tree(entries, fallback, v, next), Selector(env.calldata);
    var pre := SELECTOR_LOAD + tree;
    StreamLinks(entries, fallback, v, next, bodies);
    LinkableIsValid(env, prog, |pre|);
    var c := Linked(Evm(env), env, prog, LabelOffsets(prog), |pre|);
    var c1 := Loaded(env, core);
    TargetsBehind(c, pre, entries, fallback, bodies, core);
    PrefixAt(c, SELECTOR_LOAD, tree, bodies);
    StreamReaches(c, entries, fallback, v, next, core, c1, sel);
    VerdictLands(c, entries, fallback, v, c1, sel);
    LeavesInBytes(c, core, Verdict(c, entries, fallback, v, c1, sel));
  }

  lemma LeavesInBytes(c: Linked, core: Core, t: State)
    requires Assembles(c) && Reaches(c, Running(0, core), t)
    requires InRange(c.prog, t) && !InFront(Concrete(c.prog, t), Offset(c.prog, c.bound))
    ensures Leaves(c.sem, Assembled(c.prog), Offset(c.prog, c.bound), Running(0, core), Concrete(c.prog, t))
  {
    var n := RunsInBytes(c, 0, core, t);
    assert LeavesAfter(c.sem, Assembled(c.prog), Offset(c.prog, c.bound), Running(0, core), Concrete(c.prog, t), n);
  }
}
