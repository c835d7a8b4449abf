// What the dispatcher does to a selector: exactly which entries are reached, at what depth and cost,
// over labels and in the assembled bytes.

module DispatchProofs {
  import opened Wrappers
  import opened Sequences
  import opened Words
  import opened Opcodes
  import opened Bytecode
  import opened Machine
  import opened Dispatcher
  import opened Dispatch

  // ---------- which leaf ----------

  // The search ends at the last entry, counting from the second, that the comparison sends right, or
  // at the first entry when there is none.
  lemma {:induction false} RouteBrackets(entries: seq<Entry>, v: Variant, sel: Word)
    requires entries != [] && Sorted(entries)
    ensures Brackets(entries, v, sel, Route(entries, v, sel))
    decreases |entries|
  {
    if |entries| > 1 {
      var mid := |entries| / 2;
      if GoesRight(v, entries[mid].selector, sel) {
        RouteBrackets(entries[mid..], v, sel);
        BracketsRight(entries, mid, v, sel, Route(entries[mid..], v, sel));
      } else {
        RouteBrackets(entries[..mid], v, sel);
        BracketsLeft(entries, mid, v, sel, Route(entries[..mid], v, sel));
      }
    }
  }

  predicate Brackets(entries: seq<Entry>, v: Variant, sel: Word, j: nat)
    requires j < |entries|
  {
    && (j > 0 ==> GoesRight(v, entries[j].selector, sel))
    && forall k :: j < k < |entries| ==> !GoesRight(v, entries[k].selector, sel)
  }

  lemma BracketsRight(entries: seq<Entry>, mid: nat, v: Variant, sel: Word, j: nat)
    requires mid + j < |entries| && GoesRight(v, entries[mid].selector, sel)
    requires Brackets(entries[mid..], v, sel, j)
    ensures Brackets(entries, v, sel, mid + j)
  {
    assert forall k :: mid <= k < |entries| ==> entries[k] == entries[mid..][k - mid];
  }

  // Once the comparison fails it fails for every later entry.
  lemma BracketsLeft(entries: seq<Entry>, mid: nat, v: Variant, sel: Word, j: nat)
    requires Sorted(entries) && j < mid < |entries| && !GoesRight(v, entries[mid].selector, sel)
    requires Brackets(entries[..mid], v, sel, j)
    ensures Brackets(entries, v, sel, j)
  {
    assert forall k :: 0 <= k < mid ==> entries[k] == entries[..mid][k];
  }

  ghost predicate InTable(entries: seq<Entry>, sel: Word) {
    exists i :: 0 <= i < |entries| && entries[i].selector == sel
  }

  predicate Matches(entries: seq<Entry>, v: Variant, sel: Word)
    requires entries != []
  {
    entries[Route(entries, v, sel)].selector == sel
  }

  // The LT of the source: only the smallest selector is ever dispatched, to the first entry.
  lemma EmittedMatches(entries: seq<Entry>, sel: Word)
    requires entries != [] && Sorted(entries)
    ensures Matches(entries, AsEmitted, sel) <==> sel == entries[0].selector
    ensures sel == entries[0].selector ==> Route(entries, AsEmitted, sel) == 0
  {
    RouteBrackets(entries, AsEmitted, sel);
  }

  // The intended comparison: a selector is dispatched iff it is in the table, and to its own entry.
  lemma IntendedMatches(entries: seq<Entry>, sel: Word)
    requires entries != [] && Sorted(entries)
    ensures Matches(entries, Intended, sel) <==> InTable(entries, sel)
    ensures StrictlySorted(entries) ==>
      forall i :: 0 <= i < |entries| && entries[i].selector == sel ==> Route(entries, Intended, sel) == i
  {
    RouteBrackets(entries, Intended, sel);
    var j := Route(entries, Intended, sel);
    forall i | 0 <= i < |entries| && entries[i].selector == sel ensures i <= j && entries[j].selector == sel {
      assert i <= j;
    }
  }

  // What a dispatcher is for: every selector of the table is dispatched.
  ghost predicate Dispatches(entries: seq<Entry>, v: Variant)
    requires entries != []
  {
    forall i :: 0 <= i < |entries| ==> Matches(entries, v, entries[i].selector)
  }

  // As emitted it does so exactly for tables with a single selector.
  lemma EmittedDispatchesIff(entries: seq<Entry>)
    requires entries != [] && Sorted(entries)
    ensures Dispatches(entries, AsEmitted) <==> entries[|entries| - 1].selector == entries[0].selector
  {
    forall i | 0 <= i < |entries|
      ensures Matches(entries, AsEmitted, entries[i].selector) <==> entries[i].selector == entries[0].selector
    {
      EmittedMatches(entries, entries[i].selector);
    }
    var last := |entries| - 1;
    assert Dispatches(entries, AsEmitted) ==> Matches(entries, AsEmitted, entries[last].selector);
  }

  lemma IntendedDispatches(entries: seq<Entry>)
    requires entries != [] && Sorted(entries)
    ensures Dispatches(entries, Intended)
  {
    forall i | 0 <= i < |entries| ensures Matches(entries, Intended, entries[i].selector) {
      IntendedMatches(entries, entries[i].selector);
    }
  }

  // Some call is dispatched to entry i.
  ghost predicate Reached(entries: seq<Entry>, v: Variant, i: nat)
    requires i < |entries|
  {
    Matches(entries, v, entries[i].selector) && Route(entries, v, entries[i].selector) == i
  }

  // As emitted, every function of the table can be called iff there is only one.
  lemma EmittedReachesIff(entries: seq<Entry>)
    requires entries != [] && Sorted(entries)
    ensures (forall i :: 0 <= i < |entries| ==> Reached(entries, AsEmitted, i)) <==> |entries| == 1
  {
    forall i | 0 <= i < |entries| ensures Reached(entries, AsEmitted, i) <==> i == 0 {
      EmittedMatches(entries, entries[i].selector);
    }
    assert |entries| > 1 ==> !Reached(entries, AsEmitted, 1);
  }

  // With the intended comparison every function can be called iff no two have the same selector.
  lemma IntendedReachesIff(entries: seq<Entry>)
    requires entries != [] && Sorted(entries)
    ensures (forall i :: 0 <= i < |entries| ==> Reached(entries, Intended, i)) <==> StrictlySorted(entries)
  {
    forall i | 0 <= i < |entries|
      ensures Reached(entries, Intended, i) <==>
        forall k :: i < k < |entries| ==> entries[i].selector < entries[k].selector
    {
      IntendedMatches(entries, entries[i].selector);
      RouteBrackets(entries, Intended, entries[i].selector);
    }
  }

  // A table of two functions of which the second cannot be called.
  lemma SecondEntryUnreachable()
    ensures var table := [Entry(1, 0, 0), Entry(2, 1, 0)];
      StrictlySorted(table) && InTable(table, 2) && !Matches(table, AsEmitted, 2) && Matches(table, Intended, 2)
  {
    var table := [Entry(1, 0, 0), Entry(2, 1, 0)];
    assert table[1].selector == 2;
    EmittedMatches(table, 2);
    IntendedMatches(table, 2);
  }

  // ---------- depth and cost ----------

  // Inner nodes on the way to the leaf.
  function Levels(entries: seq<Entry>, v: Variant, sel: Word): nat
    decreases |entries|
  {
    if |entries| <= 1 then 0
    else
      var mid := |entries| / 2;
      1 + if GoesRight(v, entries[mid].selector, sel) then Levels(entries[mid..], v, sel)
          else Levels(entries[..mid], v, sel)
  }

  // The least k with n <= 2^k.
  function CeilLog2(n: nat): nat {
    if n <= 1 then 0 else 1 + CeilLog2((n + 1) / 2)
  }

  lemma {:induction false} CeilLog2Least(n: nat)
    requires n >= 1
    ensures n <= Pow2(CeilLog2(n))
    ensures n >= 2 ==> Pow2(CeilLog2(n) - 1) < n
  {
    if n >= 2 {
      CeilLog2Least((n + 1) / 2);
      if n >= 3 {
        assert Pow2(CeilLog2(n) - 1) == 2 * Pow2(CeilLog2((n + 1) / 2) - 1);
      } else {
        assert CeilLog2(1) == 0;
      }
    }
  }

  lemma {:induction false} CeilLog2Mono(a: nat, b: nat)
    requires a <= b
    ensures CeilLog2(a) <= CeilLog2(b)
  {
    if a > 1 {
      CeilLog2Mono((a + 1) / 2, (b + 1) / 2);
    }
  }

  // Static gas of the opcodes the dispatcher uses, as in the Osaka table.
  ghost predicate OsakaGas(gas: byte -> nat) {
    && gas(DUP1) == 3 && gas(LT) == 3 && gas(EQ) == 3 && gas(SHR) == 3 && gas(CALLDATALOAD) == 3
    && gas(JUMP) == 8 && gas(JUMPI) == 10 && gas(JUMPDEST) == 1 && gas(REVERT) == 0
    && PushesCheap(gas)
  }

  // 2 for PUSH0 and 3 for the others.
  ghost predicate PushesCheap(gas: byte -> nat) {
    forall op: PushCode :: gas(op) == if op == PUSH0 then 2 else 3
  }

  lemma PushGas(gas: byte -> nat, v: nat)
    requires PushesCheap(gas)
    ensures gas(PushNat(v).width) <= 3 && gas(PUSH2) == 3
  {
  }

  lemma NodeGasBound(env: Env, pivot: uint32)
    requires OsakaGas(env.gas)
    ensures NodeGas(env, pivot, AsEmitted) <= 22
  {
    PushGas(env.gas, pivot);
  }

  // At most ceil(log2 n) inner nodes, at no more than 23 gas each.
  lemma {:induction false} PathBounds(env: Env, entries: seq<Entry>, sel: Word)
    requires OsakaGas(env.gas)
    ensures Levels(entries, AsEmitted, sel) <= CeilLog2(|entries|)
    ensures PathGas(env, entries, AsEmitted, sel) <= 23 * Levels(entries, AsEmitted, sel)
    decreases |entries|
  {
    if |entries| > 1 {
      var mid := |entries| / 2;
      var pivot := entries[mid].selector;
      var sub := if GoesRight(AsEmitted, pivot, sel) then entries[mid..] else entries[..mid];
      NodeGasBound(env, pivot);
      PathBounds(env, sub, sel);
      CeilLog2Mono(|sub|, (|entries| + 1) / 2);
    }
  }

  // ---------- labels ----------

  // Occurrences of i among the first k instructions.
  function CountUpTo(prog: seq<Instr>, i: Instr, k: nat): nat
    requires k <= |prog|
  {
    if k == 0 then 0 else CountUpTo(prog, i, k - 1) + if prog[k - 1] == i then 1 else 0
  }

  // How often a stream defines, and how often it refers to, label l.
  function DefCount(prog: seq<Instr>, l: LabelID): nat {
    CountUpTo(prog, LabelDef(l), |prog|)
  }

  function RefCount(prog: seq<Instr>, l: LabelID): nat {
    CountUpTo(prog, LabelRef(l), |prog|)
  }

  lemma {:induction false} CountPrefix(a: seq<Instr>, b: seq<Instr>, i: Instr, k: nat)
    requires k <= |a|
    ensures CountUpTo(a + b, i, k) == CountUpTo(a, i, k)
  {
    if k > 0 {
      CountPrefix(a, b, i, k - 1);
    }
  }

  lemma {:induction false} CountSuffix(a: seq<Instr>, b: seq<Instr>, i: Instr, k: nat)
    requires k <= |b|
    ensures CountUpTo(a + b, i, |a| + k) == CountUpTo(a, i, |a|) + CountUpTo(b, i, k)
  {
    if k > 0 {
      CountSuffix(a, b, i, k - 1);
    } else {
      CountPrefix(a, b, i, |a|);
    }
  }

  lemma CountConcat(a: seq<Instr>, b: seq<Instr>, l: LabelID)
    ensures DefCount(a + b, l) == DefCount(a, l) + DefCount(b, l)
    ensures RefCount(a + b, l) == RefCount(a, l) + RefCount(b, l)
  {
    CountSuffix(a, b, LabelDef(l), |b|);
    CountSuffix(a, b, LabelRef(l), |b|);
  }

  lemma {:induction false} CountNone(prog: seq<Instr>, i: Instr, k: nat)
    requires k <= |prog| && i !in prog
    ensures CountUpTo(prog, i, k) == 0
  {
    if k > 0 {
      CountNone(prog, i, k - 1);
    }
  }

  // How often a counter that runs from `lo` up to, not including, `hi` hands out l.
  function Handed(lo: nat, hi: nat, l: LabelID): nat
    decreases hi - lo
  {
    if lo >= hi then 0 else (if Wrap(lo) == l then 1 else 0) + Handed(lo + 1, hi, l)
  }

  lemma {:induction false} HandedSplit(lo: nat, mid: nat, hi: nat, l: LabelID)
    requires lo <= mid <= hi
    ensures Handed(lo, hi, l) == Handed(lo, mid, l) + Handed(mid, hi, l)
    decreases mid - lo
  {
    if lo < mid {
      HandedSplit(lo + 1, mid, hi, l);
    }
  }

  // Without wrap-around every label is handed out at most once.
  lemma {:induction false} HandedOnce(lo: nat, hi: nat, l: LabelID)
    requires hi <= 0x1_0000
    ensures Handed(lo, hi, l) == if lo <= l < hi then 1 else 0
    decreases hi - lo
  {
    if lo < hi {
      HandedOnce(lo + 1, hi, l);
    }
  }

  function DestCount(entries: seq<Entry>, l: LabelID): nat {
    if entries == [] then 0 else (if entries[0].dest == l then 1 else 0) + DestCount(entries[1..], l)
  }

  lemma {:induction false} DestConcat(a: seq<Entry>, b: seq<Entry>, l: LabelID)
    ensures DestCount(a + b, l) == DestCount(a, l) + DestCount(b, l)
  {
    if a == [] {
      assert a + b == b;
    } else {
      DestConcat(a[1..], b, l);
      assert (a + b)[1..] == a[1..] + b;
    }
  }

  // Code that neither defines labels, nor mentions JUMPDEST, nor has a bare push.
  predicate Plain(prog: seq<Instr>) {
    forall i :: i in prog ==> !i.LabelDef? && i != Op(JUMPDEST) && (i.Op? ==> !IsImmediatePush(i.code))
  }

  lemma PlainCounts(prog: seq<Instr>, l: LabelID)
    requires Plain(prog)
    ensures DefCount(prog, l) == 0
  {
    CountNone(prog, LabelDef(l), |prog|);
  }

  lemma NoRefs(prog: seq<Instr>, l: LabelID)
    requires LabelRef(l) !in prog
    ensures RefCount(prog, l) == 0
  {
    CountNone(prog, LabelRef(l), |prog|);
  }

  lemma CountOne(i: Instr, l: LabelID)
    ensures DefCount([i], l) == if i == LabelDef(l) then 1 else 0
    ensures RefCount([i], l) == if i == LabelRef(l) then 1 else 0
  {
    assert CountUpTo([i], LabelDef(l), 0) == 0 && CountUpTo([i], LabelRef(l), 0) == 0;
  }

  // A label reference followed by a jump, behind code without references.
  lemma JumpCounts(pre: seq<Instr>, r: LabelID, j: Instr, l: LabelID)
    requires Plain(pre) && LabelRef(l) !in pre && j.Op?
    ensures DefCount(pre + [LabelRef(r), j], l) == 0
    ensures RefCount(pre + [LabelRef(r), j], l) == Bool(r == l)
  {
    assert [LabelRef(r), j] == [LabelRef(r)] + [j];
    CountConcat([LabelRef(r)], [j], l);
    CountOne(LabelRef(r), l);
    CountOne(j, l);
    CountConcat(pre, [LabelRef(r), j], l);
    PlainCounts(pre, l);
    NoRefs(pre, l);
  }

  lemma RevertCounts(l: LabelID)
    ensures DefCount(REVERT_CODE, l) == 0 && RefCount(REVERT_CODE, l) == 0
  {
    PushPushCounts(PUSH_ZERO, PUSH_ZERO, l);
  }

  lemma PushPushCounts(a: Instr, b: Instr, l: LabelID)
    requires a.Push? && b.Push?
    ensures DefCount([a, b, Op(REVERT)], l) == 0 && RefCount([a, b, Op(REVERT)], l) == 0
  {
    PlainCounts([a, b, Op(REVERT)], l);
    NoRefs([a, b, Op(REVERT)], l);
  }

  lemma TestCounts(e: Entry, r: LabelID, l: LabelID)
    ensures DefCount(TestCode(e, r), l) == 0
    ensures RefCount(TestCode(e, r), l) == Bool(r == l)
  {
    var pre: seq<Instr> := [Op(DUP1), PushNat(e.selector), Op(EQ)];
    assert TestCode(e, r) == pre + [LabelRef(r), Op(JUMPI)];
    JumpCounts(pre, r, Op(JUMPI), l);
  }

  lemma PivotCounts(pivot: uint32, v: Variant, r: LabelID, l: LabelID)
    ensures DefCount(PivotCode(pivot, v, r), l) == 0
    ensures RefCount(PivotCode(pivot, v, r), l) == Bool(r == l)
  {
    JumpCounts([Op(DUP1), PushNat(pivot)] + BranchOps(v), r, Op(JUMPI), l);
  }

  lemma {:induction false} ArgumentsPlain(n: nat)
    ensures forall i :: i in Arguments(n) ==> i.Push? || i == Op(CALLDATALOAD)
  {
    if n > 0 {
      ArgumentsPlain(n - 1);
    }
  }

  lemma DestCounts(d: LabelID, l: LabelID)
    ensures DefCount(Dest(d), l) == Bool(d == l)
    ensures RefCount(Dest(d), l) == 0
  {
    assert Dest(d) == [LabelDef(d)] + [Op(JUMPDEST)];
    CountConcat([LabelDef(d)], [Op(JUMPDEST)], l);
    CountOne(LabelDef(d), l);
    CountOne(Op(JUMPDEST), l);
  }

  function Plus(a: seq<Instr>, b: seq<Instr>): seq<Instr> {
    a + b
  }

  // A count of either the definitions of l (refs false) or the references to l (refs true), known on
  // the building blocks of the tree and additive over concatenation.
  datatype Counter = Counter(m: seq<Instr> -> nat, l: LabelID, refs: bool)

  ghost predicate Counts(c: Counter) {
    match c
    case Counter(m, l, refs) =>
    && (forall a, b {:trigger Plus(a, b)} :: m(Plus(a, b)) == m(a) + m(b))
    && m(REVERT_CODE) == 0
    && (forall d {:trigger Dest(d)} :: m(Dest(d)) == Bool(!refs && d == l))
    && (forall e, r {:trigger TestCode(e, r)} :: m(TestCode(e, r)) == Bool(refs && r == l))
    && (forall p, v, r {:trigger PivotCode(p, v, r)} :: m(PivotCode(p, v, r)) == Bool(refs && r == l))
    && (forall n, r {:trigger LoadAndJump(n, r)} :: m(LoadAndJump(n, r)) == Bool(refs && r == l))
  }

  lemma SumTwo(c: Counter, a: seq<Instr>, b: seq<Instr>)
    requires Counts(c)
    ensures c.m(a + b) == c.m(a) + c.m(b)
  {
    assert Plus(a, b) == a + b;
  }

  lemma SumFour(c: Counter, a: seq<Instr>, b: seq<Instr>, x: seq<Instr>, y: seq<Instr>)
    requires Counts(c)
    ensures c.m(a + b + (x + y)) == c.m(a) + c.m(b) + c.m(x) + c.m(y)
  {
    SumTwo(c, a, b);
    SumTwo(c, x, y);
    SumTwo(c, a + b, x + y);
  }

  function LoadAndJump(n: nat, r: LabelID): seq<Instr> {
    Arguments(n) + [LabelRef(r), Op(JUMP)]
  }

  lemma HandedNext(next: nat, end: nat, l: LabelID)
    ensures end == next + 1 ==> Handed(next, end, l) == Bool(Wrap(next) == l)
    ensures end == next ==> Handed(next, end, l) == 0
  {
    assert Handed(next + 1, next + 1, l) == 0;
  }

  lemma LeafCounts(c: Counter, e: Entry, next: nat, end: nat)
    requires Counts(c) && end == next + Labels([e])
    ensures c.m(LeafCode(e, next)) == Handed(next, end, c.l) + Bool(c.refs && e.dest == c.l)
  {
    HandedNext(next, end, c.l);
    if e.args == 0 {
      SumTwo(c, TestCode(e, e.dest), REVERT_CODE);
    } else {
      DecodingCounts(c, e, Wrap(next));
      LeafIsDecoding(e, next);
    }
  }

  lemma LeafIsDecoding(e: Entry, next: nat)
    requires e.args != 0
    ensures LeafCode(e, next)
         == TestCode(e, Wrap(next)) + REVERT_CODE + (Dest(Wrap(next)) + (LoadAndJump(e.args, e.dest) + REVERT_CODE))
  {
    var d := Wrap(next);
    Assoc(TestCode(e, d) + REVERT_CODE, Dest(d), LoadAndJump(e.args, e.dest) + REVERT_CODE);
  }

  lemma DecodingCounts(c: Counter, e: Entry, d: LabelID)
    requires Counts(c)
    ensures c.m(TestCode(e, d) + REVERT_CODE + (Dest(d) + (LoadAndJump(e.args, e.dest) + REVERT_CODE)))
         == Bool(d == c.l) + Bool(c.refs && e.dest == c.l)
  {
    SumFour(c, TestCode(e, d), REVERT_CODE, Dest(d), LoadAndJump(e.args, e.dest) + REVERT_CODE);
    SumTwo(c, LoadAndJump(e.args, e.dest), REVERT_CODE);
  }

  // The tree defines exactly the labels it creates, each as often as the counter hands it out, and
  // refers to each of them as often as it defines it and to the label of every entry once.
  lemma {:induction false} TreeCounts(c: Counter, entries: seq<Entry>, fallback: Option<LabelID>, v: Variant,
                                      next: nat, end: nat)
    requires Counts(c) && entries != [] && end == next + Labels(entries)
    ensures c.m(Tree(entries, fallback, v, next))
         == Handed(next, end, c.l) + (if c.refs then DestCount(entries, c.l) else 0)
    decreases |entries|
  {
    if |entries| == 1 {
      assert entries == [entries[0]];
      LeafCounts(c, entries[0], next, end);
      OneDest(entries, c.l);
    } else {
      var mid := |entries| / 2;
      var n1 := next + 1 + Labels(entries[..mid]);
      var n0 := next + 1;
      TreeCounts(c, entries[..mid], fallback, v, n0, n1);
      TreeNode(entries, fallback, v, next);
      TreeCounts(c, entries[mid..], fallback, v, n1, end);
      TreeNodeCount(c, entries, fallback, v, next, n0, n1);
      HandedStep(next, n0, n1, end, c.l);
      DestParts(entries, mid, c.l);
    }
  }

  lemma TreeNodeCount(c: Counter, entries: seq<Entry>, fallback: Option<LabelID>, v: Variant, next: nat,
                      n0: nat, n1: nat)
    requires Counts(c) && |entries| >= 2
    requires n0 == next + 1 && n1 == next + 1 + Labels(entries[..|entries| / 2])
    ensures var mid := |entries| / 2;
      c.m(Tree(entries, fallback, v, next)) ==
        Bool(Wrap(next) == c.l)
        + c.m(Tree(entries[..mid], fallback, v, n0)) + c.m(Tree(entries[mid..], fallback, v, n1))
  {
    var mid := |entries| / 2;
    var pivot := PivotCode(entries[mid].selector, v, Wrap(next));
    var left, right := Tree(entries[..mid], fallback, v, n0), Tree(entries[mid..], fallback, v, n1);
    TreeNode(entries, fallback, v, next);
    var node := pivot + left + (Dest(Wrap(next)) + right);
    assert Tree(entries, fallback, v, next) == node;
    SumFour(c, pivot, left, Dest(Wrap(next)), right);
  }

  lemma HandedStep(next: nat, n0: nat, n1: nat, end: nat, l: LabelID)
    requires n0 == next + 1 && n0 <= n1 <= end
    ensures Handed(next, end, l) == Bool(Wrap(next) == l) + Handed(n0, n1, l) + Handed(n1, end, l)
  {
    HandedSplit(n0, n1, end, l);
  }

  lemma OneDest(entries: seq<Entry>, l: LabelID)
    requires |entries| == 1
    ensures DestCount(entries, l) == Bool(entries[0].dest == l)
  {
    assert DestCount(entries[1..], l) == 0;
  }

  lemma DestParts(entries: seq<Entry>, mid: nat, l: LabelID)
    requires mid <= |entries|
    ensures DestCount(entries, l) == DestCount(entries[..mid], l) + DestCount(entries[mid..], l)
  {
    DestConcat(entries[..mid], entries[mid..], l);
    assert entries == entries[..mid] + entries[mid..];
  }

  lemma DefsAreCounted(l: LabelID)
    ensures Counts(Counter(s => DefCount(s, l), l, false))
  {
    RevertCounts(l);
    forall a, b ensures DefCount(Plus(a, b), l) == DefCount(a, l) + DefCount(b, l) {
      CountConcat(a, b, l);
    }
    forall d ensures DefCount(Dest(d), l) == Bool(d == l) {
      DestCounts(d, l);
    }
    forall e, r ensures DefCount(TestCode(e, r), l) == 0 {
      TestCounts(e, r, l);
    }
    forall p, v, r ensures DefCount(PivotCode(p, v, r), l) == 0 {
      PivotCounts(p, v, r, l);
    }
    forall n, r ensures DefCount(LoadAndJump(n, r), l) == 0 {
      LoadCounts(n, r, l);
    }
  }

  lemma RefsAreCounted(l: LabelID)
    ensures Counts(Counter(s => RefCount(s, l), l, true))
  {
    RevertCounts(l);
    forall a, b ensures RefCount(Plus(a, b), l) == RefCount(a, l) + RefCount(b, l) {
      CountConcat(a, b, l);
    }
    forall d ensures RefCount(Dest(d), l) == 0 {
      DestCounts(d, l);
    }
    forall e, r ensures RefCount(TestCode(e, r), l) == Bool(r == l) {
      TestCounts(e, r, l);
    }
    forall p, v, r ensures RefCount(PivotCode(p, v, r), l) == Bool(r == l) {
      PivotCounts(p, v, r, l);
    }
    forall n, r ensures RefCount(LoadAndJump(n, r), l) == Bool(r == l) {
      LoadCounts(n, r, l);
    }
  }

  lemma LoadCounts(n: nat, r: LabelID, l: LabelID)
    ensures DefCount(LoadAndJump(n, r), l) == 0 && RefCount(LoadAndJump(n, r), l) == Bool(r == l)
  {
    ArgumentsPlain(n);
    JumpCounts(Arguments(n), r, Op(JUMP), l);
  }

  // Fresh labels: without wrap-around each label the tree creates is defined once and referred to
  // once, it defines no others, and it refers once to the label of every entry.
  lemma TreeLabels(entries: seq<Entry>, fallback: Option<LabelID>, v: Variant, next: nat, l: LabelID)
    requires entries != [] && next + Labels(entries) <= 0x1_0000
    ensures var own := Bool(next <= l < next + Labels(entries));
      && DefCount(Tree(entries, fallback, v, next), l) == own
      && RefCount(Tree(entries, fallback, v, next), l) == own + DestCount(entries, l)
  {
    var end := next + Labels(entries);
    DefsAreCounted(l);
    RefsAreCounted(l);
    TreeCounts(Counter(s => DefCount(s, l), l, false), entries, fallback, v, next, end);
    TreeCounts(Counter(s => RefCount(s, l), l, true), entries, fallback, v, next, end);
    HandedOnce(next, end, l);
  }
}
