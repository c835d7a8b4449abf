// The binary-search dispatcher: the code it emits, and where that code takes a selector.

module Dispatcher {
  import opened Wrappers
  import opened Sequences
  import opened Words
  import opened Opcodes
  import opened Bytecode

  // One external function: its selector, the label of its entry block, its number of arguments.
  datatype Entry = Entry(selector: uint32, dest: LabelID, args: nat)

  // The comparison at an inner node finds the pivot on top of the selector. AsEmitted is the single
  // LT of the source, true iff pivot < selector; Intended is true iff pivot <= selector.
  datatype Variant = AsEmitted | Intended

  function BranchOps(v: Variant): seq<Instr> {
    match v
    case AsEmitted => [Op(LT)]
    case Intended => [Op(GT), Op(ISZERO)]
  }

  predicate GoesRight(v: Variant, pivot: Word, sel: Word) {
    match v
    case AsEmitted => pivot < sel
    case Intended => pivot <= sel
  }

  // ---------- the emitted code ----------

  // The label a 16-bit counter shows after n increments.
  function Wrap(n: nat): LabelID {
    if n < 0x1_0000 then n else Wrap(n - 0x1_0000)
  }

  lemma {:induction false} WrapNext(n: nat)
    ensures Increment(Wrap(n)) == Wrap(n + 1)
  {
    if n >= 0x1_0000 {
      WrapNext(n - 0x1_0000);
    }
  }

  lemma {:induction false} WrapIsModulo(n: nat)
    ensures Wrap(n) == n % 0x1_0000
  {
    if n >= 0x1_0000 {
      WrapIsModulo(n - 0x1_0000);
    }
  }

  // The first n labels of a stream are pairwise distinct iff 16 bits can tell n numbers apart.
  lemma LabelsDistinct(n: nat)
    ensures (forall i, j :: 0 <= i < j < n ==> Wrap(i) != Wrap(j)) <==> n <= 0x1_0000
  {
    forall i | 0 <= i < n ensures Wrap(i) == i % 0x1_0000 {
      WrapIsModulo(i);
    }
    if n > 0x1_0000 {
      WrapIsModulo(0);
      WrapIsModulo(0x1_0000);
      assert Wrap(0) == Wrap(0x1_0000);
    }
  }

  const REVERT_CODE: seq<Instr> := [PUSH_ZERO, PUSH_ZERO, Op(REVERT)]

  // The push of 224.
  const PUSH_SHIFT: Instr := Push(PUSH1, Zeros(31) + [0xE0])

  // Load the first calldata word and shift it right by 224 bits.
  const SELECTOR_LOAD: seq<Instr> := [PUSH_ZERO, Op(CALLDATALOAD)] + [PUSH_SHIFT, Op(SHR)]

  function FallbackCode(fallback: Option<LabelID>): seq<Instr> {
    match fallback
    case Some(l) => [LabelRef(l), Op(JUMP)]
    case None => REVERT_CODE
  }

  function ArgOffset(i: nat): uint32 {
    Low32(4 + i * 32)
  }

  // Loads arguments n - 1 down to 0, so that argument 0 ends on top.
  function Arguments(n: nat): (code: seq<Instr>)
    ensures |code| == 2 * n
  {
    if n == 0 then [] else [PushNat(ArgOffset(n - 1)), Op(CALLDATALOAD)] + Arguments(n - 1)
  }

  function TestCode(e: Entry, l: LabelID): seq<Instr> {
    [Op(DUP1), PushNat(e.selector), Op(EQ), LabelRef(l), Op(JUMPI)]
  }

  function Dest(l: LabelID): seq<Instr> {
    [LabelDef(l), Op(JUMPDEST)]
  }

  // Compare, revert, and behind the match label decode the arguments and jump.
  function DecodingLeaf(e: Entry, l: LabelID): seq<Instr> {
    TestCode(e, l) + REVERT_CODE + Dest(l)
    + (Arguments(e.args) + [LabelRef(e.dest), Op(JUMP)] + REVERT_CODE)
  }

  function LeafCode(e: Entry, next: nat): seq<Instr> {
    if e.args == 0 then TestCode(e, e.dest) + REVERT_CODE else DecodingLeaf(e, Wrap(next))
  }

  function PivotCode(pivot: uint32, v: Variant, right: LabelID): seq<Instr> {
    [Op(DUP1), PushNat(pivot)] + BranchOps(v) + [LabelRef(right), Op(JUMPI)]
  }

  // Number of labels the tree creates.
  function Labels(entries: seq<Entry>): nat {
    if |entries| == 0 then 0
    else if |entries| == 1 then (if entries[0].args == 0 then 0 else 1)
    else 1 + Labels(entries[..|entries| / 2]) + Labels(entries[|entries| / 2..])
  }

  // The code for `entries` when `next` labels exist already.
  function Tree(entries: seq<Entry>, fallback: Option<LabelID>, v: Variant, next: nat): seq<Instr>
    decreases |entries|
  {
    if |entries| == 0 then FallbackCode(fallback)
    else if |entries| == 1 then LeafCode(entries[0], next)
    else
      var mid := |entries| / 2;
      PivotCode(entries[mid].selector, v, Wrap(next))
      + Tree(entries[..mid], fallback, v, next + 1)
      + (Dest(Wrap(next))
         + Tree(entries[mid..], fallback, v, next + 1 + Labels(entries[..mid])))
  }

  predicate Sorted(entries: seq<Entry>) {
    forall i, j :: 0 <= i < j < |entries| ==> entries[i].selector <= entries[j].selector
  }

  predicate StrictlySorted(entries: seq<Entry>) {
    forall i, j :: 0 <= i < j < |entries| ==> entries[i].selector < entries[j].selector
  }

  // Insertion sort, as a witness that a sorted permutation exists.
  function Insert(e: Entry, s: seq<Entry>): (r: seq<Entry>)
    requires Sorted(s)
    ensures Sorted(r) && multiset(r) == multiset(s) + multiset{e}
  {
    if s == [] || e.selector <= s[0].selector then [e] + s
    else
      var t := Insert(e, s[1..]);
      InsertHead(e, s, t);
      [s[0]] + t
  }

  lemma InsertHead(e: Entry, s: seq<Entry>, t: seq<Entry>)
    requires s != [] && Sorted(s) && s[0].selector <= e.selector
    requires Sorted(t) && multiset(t) == multiset(s[1..]) + multiset{e}
    ensures Sorted([s[0]] + t) && multiset([s[0]] + t) == multiset(s) + multiset{e}
  {
    assert s == [s[0]] + s[1..];
    forall i | 0 <= i < |t| ensures s[0].selector <= t[i].selector {
      assert t[i] in multiset(t);
      assert t[i] == e || t[i] in s[1..];
    }
  }

  function Sort(s: seq<Entry>): (r: seq<Entry>)
    ensures Sorted(r) && multiset(r) == multiset(s)
  {
    if s == [] then [] else
      assert s == [s[0]] + s[1..];
      Insert(s[0], Sort(s[1..]))
  }

  // ---------- the emitter ----------

  method EmitRevert(stream: BytecodeStream)
    modifies stream`instructions
    ensures stream.instructions == old(stream.instructions) + REVERT_CODE
  {
    PushZeroIsPush(0);
    Append3(stream.instructions, PUSH_ZERO, PUSH_ZERO, Op(REVERT));
    stream.EmitPush(0);
    stream.EmitPush(0);
    stream.Emit(REVERT);
  }

  lemma LoadParts(s0: seq<Instr>, a: Instr, b: Instr)
    ensures s0 + [a] + [Op(CALLDATALOAD)] + [b] + [Op(SHR)] == s0 + ([a, Op(CALLDATALOAD)] + [b, Op(SHR)])
  {
  }

  method EmitSelectorLoad(stream: BytecodeStream)
    modifies stream`instructions
    ensures stream.instructions == old(stream.instructions) + SELECTOR_LOAD
  {
    PushZeroIsPush(0);
    PushOneByte(0xE0);
    LoadParts(stream.instructions, PUSH_ZERO, PUSH_SHIFT);
    stream.EmitPush(0);
    stream.Emit(CALLDATALOAD);
    stream.EmitPush(0xE0);
    stream.Emit(SHR);
  }

  method EmitTest(e: Entry, l: LabelID, stream: BytecodeStream)
    modifies stream`instructions
    ensures stream.instructions == old(stream.instructions) + TestCode(e, l)
  {
    Append5(stream.instructions, Op(DUP1), PushNat(e.selector), Op(EQ), LabelRef(l), Op(JUMPI));
    stream.Emit(DUP1);
    stream.EmitPush(e.selector);
    stream.Emit(EQ);
    stream.EmitJumpTarget(l);
    stream.Emit(JUMPI);
  }

  method EmitArguments(n: nat, stream: BytecodeStream)
    modifies stream`instructions
    ensures stream.instructions == old(stream.instructions) + Arguments(n)
  {
    var i: int := n - 1;
    while i >= 0
      invariant -1 <= i < n
      invariant stream.instructions + Arguments(i + 1) == old(stream.instructions) + Arguments(n)
      decreases i
    {
      var offset := ArgOffset(i);
      ghost var before := stream.instructions;
      stream.EmitPush(offset);
      stream.Emit(CALLDATALOAD);
      assert stream.instructions == before + [PushNat(offset), Op(CALLDATALOAD)];
      Assoc(before, [PushNat(offset), Op(CALLDATALOAD)], Arguments(i));
      i := i - 1;
    }
  }

  method EmitLeaf(e: Entry, stream: BytecodeStream, ghost next: nat) returns (ghost next': nat)
    requires stream.nextLabelID == Wrap(next)
    modifies stream
    ensures stream.instructions == old(stream.instructions) + LeafCode(e, next)
    ensures next' == (if e.args == 0 then next else next + 1) && stream.nextLabelID == Wrap(next')
  {
    next' := next;
    if e.args == 0 {
      EmitDirectLeaf(e, stream);
    } else {
      WrapNext(next);
      next' := next + 1;
      var matchLabel := stream.CreateLabel();
      EmitDecodingLeaf(e, matchLabel, stream, next);
    }
  }

  method EmitDirectLeaf(e: Entry, stream: BytecodeStream)
    requires e.args == 0
    modifies stream`instructions
    ensures forall next :: stream.instructions == old(stream.instructions) + LeafCode(e, next)
  {
    Assoc(stream.instructions, TestCode(e, e.dest), REVERT_CODE);
    EmitTest(e, e.dest, stream);
    EmitRevert(stream);
  }

  method EmitDecodingLeaf(e: Entry, matchLabel: LabelID, stream: BytecodeStream, ghost next: nat)
    requires e.args > 0 && matchLabel == Wrap(next)
    modifies stream`instructions
    ensures stream.instructions == old(stream.instructions) + LeafCode(e, next)
  {
    DecodingLeafDone(stream.instructions, e, next, matchLabel, REVERT_CODE);
    EmitTest(e, matchLabel, stream);
    EmitRevert(stream);
    stream.DefineLabel(matchLabel);
    stream.Emit(JUMPDEST);
    EmitArguments(e.args, stream);
    stream.EmitJumpTarget(e.dest);
    stream.Emit(JUMP);
    EmitRevert(stream);
  }

  lemma DecodingLeafDone(s0: seq<Instr>, e: Entry, next: nat, l: LabelID, revert: seq<Instr>)
    requires e.args > 0 && l == Wrap(next) && revert == REVERT_CODE
    ensures s0 + TestCode(e, l) + revert + [LabelDef(l)] + [Op(JUMPDEST)] + Arguments(e.args)
            + [LabelRef(e.dest)] + [Op(JUMP)] + revert
         == s0 + LeafCode(e, next)
  {
    LeafParts(s0, TestCode(e, l), revert, LabelDef(l), Op(JUMPDEST), Arguments(e.args), LabelRef(e.dest), Op(JUMP));
  }

  lemma LeafParts(s0: seq<Instr>, test: seq<Instr>, revert: seq<Instr>, l: Instr, d: Instr,
                  args: seq<Instr>, r: Instr, j: Instr)
    ensures s0 + test + revert + [l] + [d] + args + [r] + [j] + revert
         == s0 + (test + revert + [l, d] + (args + [r, j] + revert))
  {
  }

  method EmitPivot(pivot: uint32, right: LabelID, stream: BytecodeStream)
    modifies stream`instructions
    ensures stream.instructions == old(stream.instructions) + PivotCode(pivot, AsEmitted, right)
  {
    PivotParts(stream.instructions, pivot, right);
    stream.Emit(DUP1);
    stream.EmitPush(pivot);
    stream.Emit(LT);
    stream.EmitJumpTarget(right);
    stream.Emit(JUMPI);
  }

  method EmitBinarySearch(entries: seq<Entry>, stream: BytecodeStream, fallback: Option<LabelID>, ghost next: nat)
    returns (ghost next': nat)
    requires stream.nextLabelID == Wrap(next)
    modifies stream
    ensures stream.instructions == old(stream.instructions) + Tree(entries, fallback, AsEmitted, next)
    ensures next' == next + Labels(entries) && stream.nextLabelID == Wrap(next')
    decreases |entries|
  {
    ghost var s0 := stream.instructions;
    if |entries| == 0 {
      EmitFallback(fallback, stream);
      next' := next;
      return;
    }
    if |entries| == 1 {
      SingleTree(entries, fallback, next);
      next' := EmitLeaf(entries[0], stream, next);
      return;
    }
    var mid := |entries| / 2;
    WrapNext(next);
    var rightLabel := stream.CreateLabel();
    EmitPivot(entries[mid].selector, rightLabel, stream);
    ghost var n1 := EmitBinarySearch(entries[..mid], stream, fallback, next + 1);
    stream.DefineLabel(rightLabel);
    stream.Emit(JUMPDEST);
    next' := EmitBinarySearch(entries[mid..], stream, fallback, n1);
    NodeDone(s0, entries, fallback, next, rightLabel, n1);
  }

  method EmitFallback(fallback: Option<LabelID>, stream: BytecodeStream)
    modifies stream`instructions
    ensures stream.instructions == old(stream.instructions) + FallbackCode(fallback)
  {
    if fallback.Some? {
      stream.EmitJumpTarget(fallback.value);
      stream.Emit(JUMP);
    } else {
      EmitRevert(stream);
    }
  }

  lemma SingleTree(entries: seq<Entry>, fallback: Option<LabelID>, next: nat)
    requires |entries| == 1
    ensures Tree(entries, fallback, AsEmitted, next) == LeafCode(entries[0], next)
    ensures Labels(entries) == if entries[0].args == 0 then 0 else 1
  {
  }

  lemma NodeDone(s0: seq<Instr>, entries: seq<Entry>, fallback: Option<LabelID>, next: nat, right: LabelID, n1: nat)
    requires |entries| >= 2 && right == Wrap(next) && n1 == next + 1 + Labels(entries[..|entries| / 2])
    ensures var mid := |entries| / 2;
      s0 + PivotCode(entries[mid].selector, AsEmitted, right) + Tree(entries[..mid], fallback, AsEmitted, next + 1)
      + [LabelDef(right)] + [Op(JUMPDEST)] + Tree(entries[mid..], fallback, AsEmitted, n1)
      == s0 + Tree(entries, fallback, AsEmitted, next)
    ensures n1 + Labels(entries[|entries| / 2..]) == next + Labels(entries)
  {
    var mid := |entries| / 2;
    NodeParts(s0, PivotCode(entries[mid].selector, AsEmitted, right),
              Tree(entries[..mid], fallback, AsEmitted, next + 1), right,
              Tree(entries[mid..], fallback, AsEmitted, n1));
    TreeNode(entries, fallback, AsEmitted, next);
  }

  lemma PivotParts(s0: seq<Instr>, pivot: uint32, l: LabelID)
    ensures s0 + [Op(DUP1)] + [PushNat(pivot)] + [Op(LT)] + [LabelRef(l)] + [Op(JUMPI)]
         == s0 + PivotCode(pivot, AsEmitted, l)
  {
    Append5(s0, Op(DUP1), PushNat(pivot), Op(LT), LabelRef(l), Op(JUMPI));
  }

  lemma NodeParts(s0: seq<Instr>, pivot: seq<Instr>, left: seq<Instr>, l: LabelID, right: seq<Instr>)
    ensures s0 + pivot + left + [LabelDef(l)] + [Op(JUMPDEST)] + right
         == s0 + (pivot + left + (Dest(l) + right))
  {
  }

  lemma TreeNode(entries: seq<Entry>, fallback: Option<LabelID>, v: Variant, next: nat)
    requires |entries| >= 2
    ensures var mid := |entries| / 2;
      && Tree(entries, fallback, v, next) ==
          PivotCode(entries[mid].selector, v, Wrap(next)) + Tree(entries[..mid], fallback, v, next + 1)
          + (Dest(Wrap(next))
             + Tree(entries[mid..], fallback, v, next + 1 + Labels(entries[..mid])))
      && Labels(entries) == 1 + Labels(entries[..mid]) + Labels(entries[mid..])
  {
  }

  // The sort is not stable, so any sorted permutation may come out of it.
  method Emit(entries: seq<Entry>, stream: BytecodeStream, fallback: Option<LabelID>, ghost next: nat)
    returns (ghost sorted: seq<Entry>)
    requires stream.nextLabelID == Wrap(next)
    modifies stream
    ensures Sorted(sorted) && multiset(sorted) == multiset(entries)
    ensures stream.instructions == old(stream.instructions) + Tree(sorted, fallback, AsEmitted, next)
    ensures stream.nextLabelID == Wrap(next + Labels(sorted))
  {
    var _ := Sort(entries);
    var table: seq<Entry> :| Sorted(table) && multiset(table) == multiset(entries);
    sorted := table;
    var _ := EmitBinarySearch(table, stream, fallback, next);
  }
}
