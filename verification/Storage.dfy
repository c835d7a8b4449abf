// Colours as registers and spill words as memory: along every run, every live value is still where the
// layout says, and exactly which layouts of block arguments this takes.

module Storage {
  import opened Words
  import opened Bytecode
  import opened Cfg
  import opened Liveness
  import opened Interference
  import opened Memory
  import opened Machine
  import opened Execution
  import opened Subgraphs
  import opened Allocation
  import opened SpillMemory

  // A word for each colour, and byte memory.
  datatype Store = Store(colors: byte -> Word, mem: seq<byte>)

  function Updated(colors: byte -> Word, c: byte, x: Word): (r: byte -> Word)
    ensures forall d: byte :: r(d) == if d == c then x else colors(d)
  {
    (d: byte) => var y: Word := if d == c then x else colors(d); y
  }

  // Write a value to its location; a value to recompute, or without a location, is not kept anywhere.
  function Put(a: Layout, st: Store, v: Value, x: Word): Store {
    if v !in a then st
    else
      match a[v]
      case StackLoc(c) => st.(colors := Updated(st.colors, c, x))
      case SpilledLoc(offset) => st.(mem := Write(st.mem, offset, ToBytes(x, 32)))
      case RecomputeLoc(_) => st
  }

  // The first k values of vs are written, in order.
  function PutAll(a: Layout, st: Store, vs: seq<Value>, val: Valuation, k: nat): Store
    requires k <= |vs|
  {
    if k == 0 then st
    else
      var before := PutAll(a, st, vs, val, k - 1);
      if vs[k - 1] in val then Put(a, before, vs[k - 1], val[vs[k - 1]]) else before
  }

  // The location of v, if it has one, holds x.
  predicate Holds(a: Layout, st: Store, v: Value, x: Word) {
    v in a ==>
      match a[v]
      case StackLoc(c) => st.colors(c) == x
      case SpilledLoc(offset) => Window(st.mem, offset, 32) == ToBytes(x, 32)
      case RecomputeLoc(_) => true
  }

  // Writing v leaves w alone.
  ghost predicate Separate(a: Layout, v: Value, w: Value) {
    v in a && w in a ==>
      && (a[v].StackLoc? && a[w].StackLoc? ==> a[v].color != a[w].color)
      && (a[v].SpilledLoc? && a[w].SpilledLoc? ==> Disjoint(a[v].memOffset, a[w].memOffset))
  }

  lemma PutWrites(a: Layout, st: Store, v: Value, x: Word)
    ensures Holds(a, Put(a, st, v, x), v, x)
  {
    if v in a && a[v].SpilledLoc? {
      ReadBack(st.mem, a[v].memOffset, ToBytes(x, 32));
    }
  }

  lemma PutKeeps(a: Layout, st: Store, v: Value, x: Word, w: Value, y: Word)
    requires Separate(a, v, w) && Holds(a, st, w, y)
    ensures Holds(a, Put(a, st, v, x), w, y)
  {
    if v in a && w in a && a[v].SpilledLoc? && a[w].SpilledLoc? {
      ReadElsewhere(st.mem, a[v].memOffset, ToBytes(x, 32), a[w].memOffset, 32);
    }
  }

  lemma {:induction false} PutAllKeeps(a: Layout, st: Store, vs: seq<Value>, val: Valuation, k: nat, w: Value)
    requires k <= |vs| && w in val
    requires forall i :: 0 <= i < k ==> vs[i] == w || Separate(a, vs[i], w)
    requires Holds(a, st, w, val[w]) || w in vs[..k]
    ensures Holds(a, PutAll(a, st, vs, val, k), w, val[w])
  {
    if k > 0 {
      var v, before := vs[k - 1], PutAll(a, st, vs, val, k - 1);
      if v == w {
        PutWrites(a, before, w, val[w]);
      } else {
        assert w in vs[..k] ==> w in vs[..k - 1];
        PutAllKeeps(a, st, vs, val, k - 1, w);
        if v in val {
          PutKeeps(a, before, v, val[v], w, val[w]);
        }
      }
    }
  }

  // ---------- the store along a run ----------

  // What the step into s has written: the arguments of a block entered, or the results of an operation.
  function Written(f: Function, s: Point): seq<Value> {
    if s.block >= |f| then []
    else if s.k == 0 then f[s.block].args
    else if s.k <= |f[s.block].ops| then f[s.block].ops[s.k - 1].results
    else []
  }

  function Stored(f: Function, a: Layout, st: Store, s: Point): Store {
    PutAll(a, st, Written(f, s), s.val, |Written(f, s)|)
  }

  // Every definition writes its location, also when nobody will read it.
  function StoreAt(f: Function, a: Layout, init: Store, run: seq<Point>, i: nat): Store
    requires i < |run|
  {
    Stored(f, a, if i == 0 then init else StoreAt(f, a, init, run, i - 1), run[i])
  }

  // Every value that is live at s has been computed and is where it should be.
  ghost predicate Kept(f: Function, lv: LiveSets, a: Layout, st: Store, s: Point)
    requires Shaped(f, lv)
  {
    && s.block < |f| && s.k <= |f[s.block].ops|
    && forall v :: v in LiveAt(f, lv, s.block, s.k) ==> v in s.val && Holds(a, st, v, s.val[v])
  }

  // ---------- what a definition may overwrite ----------

  // An argument nobody reads does not share the colour of a live argument in front of it.
  ghost predicate ArgumentsSeparate(f: Function, lv: LiveSets, a: Layout, b: nat)
    requires Shaped(f, lv) && b < |f|
  {
    forall i, j :: 0 <= i < j < |f[b].args| ==> ArgumentsDiffer(f, lv, a, b, i, j)
  }

  // In no block does an argument nobody reads share the colour of a live one in front of it.
  ghost predicate AllSeparate(f: Function, lv: LiveSets, a: Layout)
    requires Shaped(f, lv)
  {
    forall b :: 0 <= b < |f| ==> ArgumentsSeparate(f, lv, a, b)
  }

  ghost predicate ArgumentsDiffer(f: Function, lv: LiveSets, a: Layout, b: nat, i: nat, j: nat)
    requires Shaped(f, lv) && b < |f| && i < |f[b].args| && j < |f[b].args|
  {
    var v, w := f[b].args[i], f[b].args[j];
    v in LiveAt(f, lv, b, 0) && w !in LiveAt(f, lv, b, 0) && v in a && w in a && a[v].StackLoc? && a[w].StackLoc? ==>
      a[v].color != a[w].color
  }

  lemma InterferenceSeparates(f: Function, lv: LiveSets, t: Start, a: Layout, v: Value, w: Value)
    requires Shaped(f, lv) && IsInterference(f, lv, t.graph) && IsOutcome(t, a) && WordsDisjoint(a)
    requires Interferes(f, lv, v, w)
    ensures Separate(a, v, w)
  {
    assert Edge(t.graph, v, w);
  }

  // A result, dead or alive, is separate from whatever is live behind its operation.
  lemma ResultSeparate(f: Function, lv: LiveSets, t: Start, a: Layout, b: nat, k: nat, v: Value, w: Value)
    requires Shaped(f, lv) && IsInterference(f, lv, t.graph) && IsOutcome(t, a) && WordsDisjoint(a)
    requires b < |f| && k < |f[b].ops| && v in f[b].ops[k].results && w in LiveAt(f, lv, b, k + 1) && v != w
    ensures Separate(a, v, w)
  {
    assert MeetsAtOp(f, lv, b, k, v, w);
    InterferenceSeparates(f, lv, t, a, v, w);
  }

  // An argument is separate from whatever is live at the start of its block, if it is live itself, or
  // does not come behind it, or differs from it in colour.
  lemma ArgumentSeparate(f: Function, lv: LiveSets, t: Start, a: Layout, b: nat, j: nat, w: Value)
    requires Shaped(f, lv) && IsInterference(f, lv, t.graph) && IsOutcome(t, a) && WordsDisjoint(a)
    requires b < |f| && j < |f[b].args| && w in LiveAt(f, lv, b, 0) && f[b].args[j] != w
    requires ArgumentsSeparate(f, lv, a, b)
    ensures Separate(a, f[b].args[j], w)
  {
    var v := f[b].args[j];
    if v in LiveAt(f, lv, b, 0) {
      ArgumentsMeet(f, lv, b, v, w);
      InterferenceSeparates(f, lv, t, a, v, w);
    } else if w !in f[b].args[..j] {
      assert MeetsAtArg(f, lv, b, j, v, w);
      InterferenceSeparates(f, lv, t, a, v, w);
    } else {
      var i :| 0 <= i < j && f[b].args[i] == w;
      assert ArgumentsDiffer(f, lv, a, b, i, j);
    }
  }

  // No result of operation k of b overwrites what is live behind it.
  ghost predicate ResultsClear(f: Function, lv: LiveSets, a: Layout, b: nat, k: nat)
    requires Shaped(f, lv) && b < |f| && k < |f[b].ops|
  {
    forall v, w :: v in f[b].ops[k].results && w in LiveAt(f, lv, b, k + 1) && v != w ==> Separate(a, v, w)
  }

  // No argument of b overwrites what is live at its start.
  ghost predicate ArgumentsClear(f: Function, lv: LiveSets, a: Layout, b: nat)
    requires Shaped(f, lv) && b < |f|
  {
    forall v, w :: v in f[b].args && w in LiveAt(f, lv, b, 0) && v != w ==> Separate(a, v, w)
  }

  ghost predicate AllClear(f: Function, lv: LiveSets, a: Layout)
    requires Shaped(f, lv)
  {
    && (forall b, k :: 0 <= b < |f| && 0 <= k < |f[b].ops| ==> ResultsClear(f, lv, a, b, k))
    && forall b :: 0 <= b < |f| ==> ArgumentsClear(f, lv, a, b)
  }

  lemma OutcomeArgumentsClear(f: Function, lv: LiveSets, t: Start, a: Layout, b: nat)
    requires Shaped(f, lv) && IsInterference(f, lv, t.graph) && IsOutcome(t, a) && WordsDisjoint(a)
    requires b < |f| && ArgumentsSeparate(f, lv, a, b)
    ensures ArgumentsClear(f, lv, a, b)
  {
    forall v, w | v in f[b].args && w in LiveAt(f, lv, b, 0) && v != w ensures Separate(a, v, w) {
      var j :| 0 <= j < |f[b].args| && f[b].args[j] == v;
      ArgumentSeparate(f, lv, t, a, b, j, w);
    }
  }

  lemma OutcomeResultsClear(f: Function, lv: LiveSets, t: Start, a: Layout, b: nat, k: nat)
    requires Shaped(f, lv) && IsInterference(f, lv, t.graph) && IsOutcome(t, a) && WordsDisjoint(a)
    requires b < |f| && k < |f[b].ops|
    ensures ResultsClear(f, lv, a, b, k)
  {
    forall v, w | v in f[b].ops[k].results && w in LiveAt(f, lv, b, k + 1) && v != w
      ensures Separate(a, v, w)
    {
      ResultSeparate(f, lv, t, a, b, k, v, w);
    }
  }

  lemma OutcomeClear(f: Function, lv: LiveSets, t: Start, a: Layout)
    requires Shaped(f, lv) && IsInterference(f, lv, t.graph) && IsOutcome(t, a) && WordsDisjoint(a)
    requires AllSeparate(f, lv, a)
    ensures AllClear(f, lv, a)
  {
    forall b, k | 0 <= b < |f| && 0 <= k < |f[b].ops| ensures ResultsClear(f, lv, a, b, k) {
      OutcomeResultsClear(f, lv, t, a, b, k);
    }
    forall b | 0 <= b < |f| ensures ArgumentsClear(f, lv, a, b) {
      OutcomeArgumentsClear(f, lv, t, a, b);
    }
  }

  // ---------- every run keeps every live value ----------

  // Writing vs keeps w if it is among them or was in place, and none of the others overwrites it.
  lemma WritesKeep(a: Layout, st: Store, vs: seq<Value>, val: Valuation, w: Value)
    requires w in val && (w in vs || Holds(a, st, w, val[w]))
    requires forall v :: v in vs && v != w ==> Separate(a, v, w)
    ensures Holds(a, PutAll(a, st, vs, val, |vs|), w, val[w])
  {
    assert vs[..|vs|] == vs;
    PutAllKeeps(a, st, vs, val, |vs|, w);
  }

  lemma StartKeeps(f: Function, lv: LiveSets, a: Layout, s: Point, init: Store)
    requires Dataflow(f, lv) && NoEarlyUse(f) && Starts(f, s) && AllClear(f, lv, a)
    ensures Kept(f, lv, a, Stored(f, a, init, s), s)
  {
    forall w | w in LiveAt(f, lv, 0, 0) ensures w in s.val && Holds(a, Stored(f, a, init, s), w, s.val[w]) {
      NothingLiveIn(f, lv, 0, w);
      assert ArgumentsClear(f, lv, a, 0);
      WritesKeep(a, init, f[0].args, s.val, w);
    }
  }

  lemma OpKeeps(f: Function, lv: LiveSets, a: Layout, meaning: Meaning, s: Point, s': Point, st: Store)
    requires Shaped(f, lv) && AllClear(f, lv, a) && OpStep(f, meaning, s, s') && Kept(f, lv, a, st, s)
    ensures Kept(f, lv, a, Stored(f, a, st, s'), s')
  {
    var b, k := s.block, s.k;
    var results := f[b].ops[k].results;
    assert ResultsClear(f, lv, a, b, k);
    forall w | w in LiveAt(f, lv, b, k + 1) ensures w in s'.val && Holds(a, Stored(f, a, st, s'), w, s'.val[w]) {
      assert w !in results ==> w in LiveAt(f, lv, b, k);
      WritesKeep(a, st, results, s'.val, w);
    }
  }

  lemma EntryKeeps(f: Function, lv: LiveSets, a: Layout, s: Point, s': Point, st: Store)
    requires Dataflow(f, lv) && NoEarlyUse(f) && AllClear(f, lv, a)
    requires BlockStep(f, s, s') && Kept(f, lv, a, st, s)
    ensures Kept(f, lv, a, Stored(f, a, st, s'), s')
  {
    var b := s'.block;
    assert ArgumentsClear(f, lv, a, b);
    forall w | w in LiveAt(f, lv, b, 0) ensures w in s'.val && Holds(a, Stored(f, a, st, s'), w, s'.val[w]) {
      if w !in f[b].args {
        LiveAcrossEdge(f, lv, s.block, b, w);
      }
      WritesKeep(a, st, f[b].args, s'.val, w);
    }
  }

  // Along every run, through any number of rounds of any loop, every live value is where it should be.
  lemma {:induction false} RunKeeps(f: Function, lv: LiveSets, a: Layout, meaning: Meaning, run: seq<Point>,
                                    init: Store, i: nat)
    requires Dataflow(f, lv) && NoEarlyUse(f) && AllClear(f, lv, a) && IsRun(f, meaning, run) && i < |run|
    ensures Kept(f, lv, a, StoreAt(f, a, init, run, i), run[i])
  {
    if i == 0 {
      StartKeeps(f, lv, a, run[0], init);
    } else {
      RunKeeps(f, lv, a, meaning, run, init, i - 1);
      assert StepTo(f, meaning, run, i);
      var st := StoreAt(f, a, init, run, i - 1);
      if OpStep(f, meaning, run[i - 1], run[i]) {
        OpKeeps(f, lv, a, meaning, run[i - 1], run[i], st);
      } else {
        EntryKeeps(f, lv, a, run[i - 1], run[i], st);
      }
    }
  }

  // At every point of every run, whatever the store held before.
  ghost predicate KeepsStorage(f: Function, lv: LiveSets, a: Layout)
    requires Shaped(f, lv)
  {
    forall meaning: Meaning, run, init, i :: IsRun(f, meaning, run) && 0 <= i < |run| ==>
      Kept(f, lv, a, StoreAt(f, a, init, run, i), run[i])
  }

  lemma OutcomeKeepsStorage(f: Function, lv: LiveSets, t: Start, a: Layout)
    requires Dataflow(f, lv) && NoEarlyUse(f)
    requires IsInterference(f, lv, t.graph) && IsOutcome(t, a) && WordsDisjoint(a)
    requires AllSeparate(f, lv, a)
    ensures KeepsStorage(f, lv, a)
  {
    OutcomeClear(f, lv, t, a);
    forall meaning: Meaning, run, init, i | IsRun(f, meaning, run) && 0 <= i < |run|
      ensures Kept(f, lv, a, StoreAt(f, a, init, run, i), run[i])
    {
      RunKeeps(f, lv, a, meaning, run, init, i);
    }
  }

  // ---------- exactly when block arguments are safe ----------

  // Whatever the values and wherever control comes from, entering b leaves every live value in place.
  ghost predicate EntrySafe(f: Function, lv: LiveSets, a: Layout, b: nat)
    requires Shaped(f, lv) && b < |f|
  {
    forall st, val :: Incoming(f, lv, a, b, st, val) ==> Entered(f, lv, a, b, st, val)
  }

  ghost predicate Incoming(f: Function, lv: LiveSets, a: Layout, b: nat, st: Store, val: Valuation)
    requires Shaped(f, lv) && b < |f|
  {
    && (forall w :: w in f[b].args ==> w in val)
    && forall w :: w in LiveAt(f, lv, b, 0) ==> w in val && (w in f[b].args || Holds(a, st, w, val[w]))
  }

  ghost predicate Entered(f: Function, lv: LiveSets, a: Layout, b: nat, st: Store, val: Valuation)
    requires Shaped(f, lv) && b < |f|
  {
    forall w :: w in LiveAt(f, lv, b, 0) ==>
      w in val && Holds(a, PutAll(a, st, f[b].args, val, |f[b].args|), w, val[w])
  }

  function Blank(): Store {
    Store(_ => 0, [])
  }

  lemma BlankHolds(a: Layout, v: Value)
    ensures Holds(a, Blank(), v, 0)
  {
    ToBytesZero(32);
    assert v in a && a[v].SpilledLoc? ==> Window([], a[v].memOffset, 32) == Zeros(32);
  }

  // From index j on, every argument that has colour c brings a 1.
  lemma {:induction false} LastWins(a: Layout, st: Store, vs: seq<Value>, val: Valuation, c: byte, j: nat, k: nat)
    requires j < k <= |vs| && vs[j] in a && a[vs[j]] == StackLoc(c)
    requires forall i :: j <= i < |vs| ==> vs[i] in val && val[vs[i]] == 1
    ensures PutAll(a, st, vs, val, k).colors(c) == 1
  {
    if j < k - 1 {
      LastWins(a, st, vs, val, c, j, k - 1);
    }
  }

  // Words for the arguments of b: 1 behind index i, 0 elsewhere.
  function Probe(args: seq<Value>, live: set<Value>, i: nat): Valuation
    requires i < |args|
  {
    map v | v in live + Elements(args) :: if v in args[i + 1..] then 1 else 0
  }

  lemma ClashIsUnsafe(f: Function, lv: LiveSets, a: Layout, b: nat, i: nat, j: nat)
    requires Shaped(f, lv) && b < |f| && Distinct(f[b].args) && i < j < |f[b].args|
    requires !ArgumentsDiffer(f, lv, a, b, i, j)
    ensures !EntrySafe(f, lv, a, b)
  {
    var args, live := f[b].args, LiveAt(f, lv, b, 0);
    var val := Probe(args, live, i);
    forall w | w in live ensures w in val && (w in args || Holds(a, Blank(), w, val[w])) {
      BlankHolds(a, w);
    }
    assert Incoming(f, lv, a, b, Blank(), val);
    LastWins(a, Blank(), args, val, a[args[j]].color, j, |args|);
    assert val[args[i]] == 0;
  }

  lemma ClearIsSafe(f: Function, lv: LiveSets, a: Layout, b: nat)
    requires Shaped(f, lv) && b < |f| && ArgumentsClear(f, lv, a, b)
    ensures EntrySafe(f, lv, a, b)
  {
    forall st, val | Incoming(f, lv, a, b, st, val) ensures Entered(f, lv, a, b, st, val) {
      forall w | w in LiveAt(f, lv, b, 0)
        ensures w in val && Holds(a, PutAll(a, st, f[b].args, val, |f[b].args|), w, val[w])
      {
        WritesKeep(a, st, f[b].args, val, w);
      }
    }
  }

  // Entering a block is safe iff no argument nobody reads shares the colour of a live one in front of it.
  lemma EntrySafeIff(f: Function, lv: LiveSets, t: Start, a: Layout, b: nat)
    requires Shaped(f, lv) && IsInterference(f, lv, t.graph) && IsOutcome(t, a) && WordsDisjoint(a)
    requires b < |f| && Distinct(f[b].args)
    ensures EntrySafe(f, lv, a, b) <==> ArgumentsSeparate(f, lv, a, b)
  {
    if ArgumentsSeparate(f, lv, a, b) {
      OutcomeArgumentsClear(f, lv, t, a, b);
      ClearIsSafe(f, lv, a, b);
    } else {
      var i, j :| 0 <= i < j < |f[b].args| && !ArgumentsDiffer(f, lv, a, b, i, j);
      ClashIsUnsafe(f, lv, a, b, i, j);
    }
  }

  // A check on the function: no argument nobody reads comes behind a live one.
  lemma LiveArgumentsLast(f: Function, lv: LiveSets, a: Layout, b: nat)
    requires Shaped(f, lv) && b < |f|
    requires forall i, j :: 0 <= i < j < |f[b].args| && f[b].args[i] in LiveAt(f, lv, b, 0) ==>
      f[b].args[j] in LiveAt(f, lv, b, 0)
    ensures ArgumentsSeparate(f, lv, a, b)
  {
  }
}
