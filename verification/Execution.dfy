// Running a function on values, and what recomputation relies on: along every run a tree of pure
// operations has one and the same value.

module Execution {
  import opened Wrappers
  import opened Words
  import opened Cfg
  import opened CostModel

  // What a pure operation gives for one of its results depends on its operands alone.
  type Meaning = (Operation, Value, seq<Word>) -> Word

  // The values computed so far; values of an earlier round of a loop are still there.
  type Valuation = map<Value, Word>

  // Control is in front of operation k of a block.
  datatype Point = Point(block: nat, k: nat, val: Valuation)

  // An operation is the only one to define its results, and block arguments have no defining operation.
  ghost predicate SingleAssignment(f: Function) {
    && (forall b, k, v :: 0 <= b < |f| && 0 <= k < |f[b].ops| && v in f[b].ops[k].results ==>
          DefiningOp(f, v) == Some(f[b].ops[k]))
    && (forall b, v :: 0 <= b < |f| && v in f[b].args ==> DefiningOp(f, v) == None)
  }

  ghost predicate Unchanged(before: Valuation, after: Valuation, written: seq<Value>) {
    && (forall v :: v in after <==> v in before || v in written)
    && (forall v :: v in before && v !in written ==> after[v] == before[v])
  }

  function ValuesOf(val: Valuation, s: seq<Value>): (r: seq<Word>)
    requires forall i :: 0 <= i < |s| ==> s[i] in val
    ensures |r| == |s| && forall i :: 0 <= i < |s| ==> r[i] == val[s[i]]
  {
    seq(|s|, i requires 0 <= i < |s| => val[s[i]])
  }

  // An operation reads its operands and writes its results: what its meaning says if it is pure, and
  // anything otherwise.
  ghost predicate Performs(meaning: Meaning, op: Operation, before: Valuation, after: Valuation) {
    && (forall i :: 0 <= i < |op.operands| ==> op.operands[i] in before)
    && Unchanged(before, after, op.results)
    && (op.pure ==> forall r :: r in op.results ==> after[r] == meaning(op, r, ValuesOf(before, op.operands)))
  }

  ghost predicate OpStep(f: Function, meaning: Meaning, s: Point, t: Point) {
    && s.block < |f| && s.k < |f[s.block].ops|
    && t.block == s.block && t.k == s.k + 1
    && Performs(meaning, f[s.block].ops[s.k], s.val, t.val)
  }

  // Entering a block writes its arguments.
  ghost predicate BlockStep(f: Function, s: Point, t: Point) {
    && s.block < |f| && s.k == |f[s.block].ops|
    && t.block in f[s.block].succs && t.block < |f| && t.k == 0
    && Unchanged(s.val, t.val, f[t.block].args)
  }

  ghost predicate Starts(f: Function, s: Point) {
    f != [] && s.block == 0 && s.k == 0 && s.val.Keys == Elements(f[0].args)
  }

  ghost predicate IsRun(f: Function, meaning: Meaning, run: seq<Point>) {
    && run != [] && Starts(f, run[0])
    && forall i :: 0 < i < |run| ==> StepTo(f, meaning, run, i)
  }

  ghost predicate StepTo(f: Function, meaning: Meaning, run: seq<Point>, i: nat)
    requires 0 < i < |run|
  {
    OpStep(f, meaning, run[i - 1], run[i]) || BlockStep(f, run[i - 1], run[i])
  }

  // ---------- the value of a tree ----------

  function Operands(f: Function, meaning: Meaning, operands: seq<Value>, n: nat, k: nat): (r: seq<Word>)
    requires k <= |operands| && forall i :: 0 <= i < |operands| ==> PureTree(f, operands[i], n)
    ensures |r| == k && forall i :: 0 <= i < k ==> r[i] == TreeValue(f, meaning, operands[i], n)
    decreases n, 1, k
  {
    if k == 0 then [] else Operands(f, meaning, operands, n, k - 1) + [TreeValue(f, meaning, operands[k - 1], n)]
  }

  // What evaluating the tree of v gives, with no value known.
  function TreeValue(f: Function, meaning: Meaning, v: Value, n: nat): Word
    requires PureTree(f, v, n)
    decreases n, 0, v
  {
    var op := DefiningOp(f, v).value;
    meaning(op, v, Operands(f, meaning, op.operands, n - 1, |op.operands|))
  }

  // Every tree known has its value.
  ghost predicate Faithful(f: Function, meaning: Meaning, val: Valuation) {
    forall v, n: nat :: v in val && PureTree(f, v, n) ==> val[v] == TreeValue(f, meaning, v, n)
  }

  lemma OpKeepsTrees(f: Function, meaning: Meaning, s: Point, t: Point)
    requires SingleAssignment(f) && OpStep(f, meaning, s, t) && Faithful(f, meaning, s.val)
    ensures Faithful(f, meaning, t.val)
  {
    var op := f[s.block].ops[s.k];
    forall v, n: nat | v in t.val && PureTree(f, v, n) ensures t.val[v] == TreeValue(f, meaning, v, n) {
      if v in op.results {
        WrittenTree(f, meaning, s, op, v, n);
      }
    }
  }

  lemma WrittenTree(f: Function, meaning: Meaning, s: Point, op: Operation, v: Value, n: nat)
    requires SingleAssignment(f) && Faithful(f, meaning, s.val)
    requires s.block < |f| && s.k < |f[s.block].ops| && op == f[s.block].ops[s.k]
    requires forall i :: 0 <= i < |op.operands| ==> op.operands[i] in s.val
    requires v in op.results && PureTree(f, v, n)
    ensures op.pure && meaning(op, v, ValuesOf(s.val, op.operands)) == TreeValue(f, meaning, v, n)
  {
    assert DefiningOp(f, v) == Some(op);
    assert ValuesOf(s.val, op.operands) == Operands(f, meaning, op.operands, n - 1, |op.operands|);
  }

  lemma BlockKeepsTrees(f: Function, meaning: Meaning, s: Point, t: Point)
    requires SingleAssignment(f) && BlockStep(f, s, t) && Faithful(f, meaning, s.val)
    ensures Faithful(f, meaning, t.val)
  {
    forall v, n: nat | v in t.val && PureTree(f, v, n) ensures t.val[v] == TreeValue(f, meaning, v, n) {
      assert v !in f[t.block].args;
    }
  }

  lemma StartIsFaithful(f: Function, meaning: Meaning, s: Point)
    requires SingleAssignment(f) && Starts(f, s)
    ensures Faithful(f, meaning, s.val)
  {
    forall v, n: nat | v in s.val ensures !PureTree(f, v, n) {
      assert v in f[0].args;
    }
  }

  lemma StepKeepsTrees(f: Function, meaning: Meaning, run: seq<Point>, i: nat)
    requires SingleAssignment(f) && 0 < i < |run| && StepTo(f, meaning, run, i)
    requires Faithful(f, meaning, run[i - 1].val)
    ensures Faithful(f, meaning, run[i].val)
  {
    if OpStep(f, meaning, run[i - 1], run[i]) {
      OpKeepsTrees(f, meaning, run[i - 1], run[i]);
    } else {
      BlockKeepsTrees(f, meaning, run[i - 1], run[i]);
    }
  }

  // Along every run, through any number of rounds of any loop, every known tree has its value.
  lemma {:induction false} RunKeepsTrees(f: Function, meaning: Meaning, run: seq<Point>, i: nat)
    requires SingleAssignment(f) && IsRun(f, meaning, run) && i < |run|
    ensures Faithful(f, meaning, run[i].val)
  {
    if i == 0 {
      StartIsFaithful(f, meaning, run[i]);
    } else {
      RunKeepsTrees(f, meaning, run, i - 1);
      assert StepTo(f, meaning, run, i);
      StepKeepsTrees(f, meaning, run, i);
    }
  }

  // A tree has the same value at any two points of any two runs that know it, and that is the value
  // evaluating it again gives.
  lemma TreeIsStable(f: Function, meaning: Meaning, run: seq<Point>, i: nat, run': seq<Point>, j: nat, v: Value, n: nat)
    requires SingleAssignment(f) && IsRun(f, meaning, run) && IsRun(f, meaning, run') && i < |run| && j < |run'|
    requires PureTree(f, v, n) && v in run[i].val && v in run'[j].val
    ensures run[i].val[v] == run'[j].val[v] == TreeValue(f, meaning, v, n)
  {
    RunKeepsTrees(f, meaning, run, i);
    RunKeepsTrees(f, meaning, run', j);
  }
}
