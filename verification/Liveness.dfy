// Functions as blocks of operations, and live values at every program point.

module Cfg {
  import opened Wrappers
  import opened Words

  // SSA values are told apart by a number.
  type Value = nat

  // `opcode` is None for an operation without a one-opcode translation; `pure` says the operation
  // declares that it has no memory effect.
  datatype Operation = Operation(operands: seq<Value>, results: seq<Value>, opcode: Option<byte>, pure: bool)

  // A terminator is the last operation of its block; `succs` are block numbers.
  datatype Block = Block(args: seq<Value>, ops: seq<Operation>, succs: seq<nat>)

  // Block 0 is the entry.
  type Function = seq<Block>

  function Elements(s: seq<Value>): (r: set<Value>)
    ensures forall v :: v in r <==> v in s
  {
    set v | v in s
  }

  // The operation a value is a result of, if it is not a block argument.
  function DefiningOp(f: Function, v: Value): (r: Option<Operation>)
    ensures r.Some? ==> v in r.value.results
    ensures r.Some? ==> exists b, k :: 0 <= b < |f| && 0 <= k < |f[b].ops| && f[b].ops[k] == r.value
    ensures r.None? ==> forall b, k :: 0 <= b < |f| && 0 <= k < |f[b].ops| ==> v !in f[b].ops[k].results
  {
    DefiningFrom(f, v, 0, 0)
  }

  function DefiningFrom(f: Function, v: Value, b: nat, k: nat): (r: Option<Operation>)
    requires b <= |f|
    requires b == |f| ==> k == 0
    requires b < |f| ==> k <= |f[b].ops|
    ensures r.Some? ==> v in r.value.results
    ensures r.Some? ==> exists b, k :: 0 <= b < |f| && 0 <= k < |f[b].ops| && f[b].ops[k] == r.value
    ensures r.None? ==>
      forall b', k' :: ((b' == b && k <= k') || (b < b' && 0 <= k')) && b' < |f| && k' < |f[b'].ops| ==>
        v !in f[b'].ops[k'].results
    decreases |f| - b, if b < |f| then |f[b].ops| - k else 0
  {
    if b == |f| then None
    else if k == |f[b].ops| then DefiningFrom(f, v, b + 1, 0)
    else if v in f[b].ops[k].results then Some(f[b].ops[k])
    else DefiningFrom(f, v, b, k + 1)
  }
}

module Liveness {
  import opened Words
  import opened Cfg

  // Block-level live sets, as a liveness analysis delivers them.
  datatype LiveSets = LiveSets(liveIn: seq<set<Value>>, liveOut: seq<set<Value>>)

  function Uses(block: Block, k: nat): set<Value>
    requires k <= |block.ops|
  {
    if k == 0 then {} else Uses(block, k - 1) + Elements(block.ops[k - 1].operands)
  }

  function Results(block: Block, k: nat): set<Value>
    requires k <= |block.ops|
  {
    if k == 0 then {} else Results(block, k - 1) + Elements(block.ops[k - 1].results)
  }

  function Defs(block: Block): set<Value> {
    Elements(block.args) + Results(block, |block.ops|)
  }

  ghost predicate Shaped(f: Function, lv: LiveSets) {
    |lv.liveIn| == |f| == |lv.liveOut|
  }

  // The live sets solve the dataflow equations, and nothing is live into the entry. The proofs need
  // each equation in one direction only; that is enough for every value that is needed later to be in
  // the sets (NeededIsLive).
  ghost predicate Dataflow(f: Function, lv: LiveSets) {
    && Shaped(f, lv)
    && (f != [] ==> lv.liveIn[0] == {})
    && (forall b :: 0 <= b < |f| ==> (Uses(f[b], |f[b].ops|) + lv.liveOut[b]) - Defs(f[b]) <= lv.liveIn[b])
    && (forall b, s :: 0 <= b < |f| && s in f[b].succs ==> s < |f| && lv.liveIn[s] <= lv.liveOut[b])
  }

  // Within a block no value is used before, or by, the operation that defines it.
  ghost predicate NoEarlyUse(f: Function) {
    forall b, j, k, v :: 0 <= b < |f| && 0 <= j <= k < |f[b].ops| && v in f[b].ops[j].operands ==>
      v !in f[b].ops[k].results
  }

  // Values live in front of operation k of block b; for k == |ops|, at the end of the block.
  function LiveAt(f: Function, lv: LiveSets, b: nat, k: nat): set<Value>
    requires Shaped(f, lv) && b < |f| && k <= |f[b].ops|
    decreases |f[b].ops| - k
  {
    if k == |f[b].ops| then lv.liveOut[b]
    else (LiveAt(f, lv, b, k + 1) + Elements(f[b].ops[k].operands)) - Elements(f[b].ops[k].results)
  }

  // ---------- what liveness means ----------

  ghost predicate Survives(block: Block, k: nat, j: nat, v: Value) {
    k <= j <= |block.ops| && forall i :: k <= i < j ==> v !in block.ops[i].results
  }

  // From operation k of the first block, along the blocks of `path`, v comes to an operation of the
  // last one that uses it, without being defined again.
  ghost predicate Needed(f: Function, path: seq<nat>, k: nat, v: Value) {
    && path != [] && path[0] < |f| && k <= |f[path[0]].ops|
    && var block := f[path[0]];
      if |path| == 1 then exists j :: 0 <= j < |block.ops| && Survives(block, k, j, v) && v in block.ops[j].operands
      else
        && Survives(block, k, |block.ops|, v)
        && path[1] < |f| && path[1] in block.succs && v !in f[path[1]].args
        && Needed(f, path[1..], 0, v)
  }

  lemma {:induction false} LiveBack(f: Function, lv: LiveSets, b: nat, k: nat, j: nat, v: Value)
    requires Shaped(f, lv) && b < |f| && Survives(f[b], k, j, v) && v in LiveAt(f, lv, b, j)
    ensures v in LiveAt(f, lv, b, k)
    decreases j - k
  {
    if k < j {
      LiveBack(f, lv, b, k + 1, j, v);
    }
  }

  // A value is live in front of operation k iff some operation of the block from there on uses it, or it
  // is live out of the block, and it is not defined again before.
  lemma {:induction false} LiveAtIff(f: Function, lv: LiveSets, b: nat, k: nat, v: Value)
    requires Shaped(f, lv) && NoEarlyUse(f) && b < |f| && k <= |f[b].ops|
    ensures v in LiveAt(f, lv, b, k) <==>
      || (v in lv.liveOut[b] && forall i :: k <= i < |f[b].ops| ==> v !in f[b].ops[i].results)
      || exists j :: k <= j < |f[b].ops| && v in f[b].ops[j].operands
                     && forall i :: k <= i < j ==> v !in f[b].ops[i].results
    decreases |f[b].ops| - k
  {
    if k < |f[b].ops| {
      LiveAtIff(f, lv, b, k + 1, v);
      assert v in f[b].ops[k].operands ==> v !in f[b].ops[k].results;
      assert k <= k < |f[b].ops|;
    }
  }

  // Every value that is needed later is in the computed live set.
  lemma {:induction false} NeededIsLive(f: Function, lv: LiveSets, path: seq<nat>, k: nat, v: Value)
    requires Dataflow(f, lv) && NoEarlyUse(f) && Needed(f, path, k, v)
    ensures v in LiveAt(f, lv, path[0], k)
    decreases |path|
  {
    var b, n := path[0], |f[path[0]].ops|;
    if |path| == 1 {
      var j :| 0 <= j < n && Survives(f[b], k, j, v) && v in f[b].ops[j].operands;
      assert v in LiveAt(f, lv, b, j);
      LiveBack(f, lv, b, k, j, v);
    } else {
      NeededIsLive(f, lv, path[1..], 0, v);
      LiveAcrossEdge(f, lv, b, path[1], v);
      LiveBack(f, lv, b, k, n, v);
    }
  }

  // ---------- interference ----------

  // v is defined by operation k of block b while w is live behind it or one of its operands.
  ghost predicate MeetsAtOp(f: Function, lv: LiveSets, b: nat, k: nat, v: Value, w: Value)
    requires Shaped(f, lv)
  {
    && b < |f| && k < |f[b].ops|
    && v in f[b].ops[k].results
    && (w in LiveAt(f, lv, b, k + 1) || w in f[b].ops[k].operands)
  }

  // v is argument i of block b while w is live at its start and not an earlier argument.
  ghost predicate MeetsAtArg(f: Function, lv: LiveSets, b: nat, i: nat, v: Value, w: Value)
    requires Shaped(f, lv)
  {
    && b < |f| && i < |f[b].args|
    && v == f[b].args[i]
    && w in LiveAt(f, lv, b, 0) && w !in f[b].args[..i]
  }

  ghost predicate DefinedOver(f: Function, lv: LiveSets, v: Value, w: Value)
    requires Shaped(f, lv)
  {
    || (exists b, k :: MeetsAtOp(f, lv, b, k, v, w))
    || (exists b, i :: MeetsAtArg(f, lv, b, i, v, w))
  }

  ghost predicate Interferes(f: Function, lv: LiveSets, v: Value, w: Value)
    requires Shaped(f, lv)
  {
    v != w && (DefinedOver(f, lv, v, w) || DefinedOver(f, lv, w, v))
  }

  ghost predicate IsPath(f: Function, path: seq<nat>) {
    && path != [] && path[0] == 0
    && (forall i :: 0 <= i < |path| ==> path[i] < |f|)
    && (forall i :: 0 < i < |path| ==> path[i] in f[path[i - 1]].succs)
  }

  lemma {:induction false} UsesContain(block: Block, j: nat, k: nat)
    requires j < k <= |block.ops|
    ensures Elements(block.ops[j].operands) <= Uses(block, k)
  {
    if j < k - 1 {
      UsesContain(block, j, k - 1);
    }
  }

  lemma {:induction false} ResultsFrom(block: Block, k: nat, v: Value)
    requires k <= |block.ops| && v in Results(block, k)
    ensures exists j :: 0 <= j < k && v in block.ops[j].results
  {
    if v !in block.ops[k - 1].results {
      ResultsFrom(block, k - 1, v);
    }
  }

  // What is live inside a block is used or live out, and not defined further down.
  lemma {:induction false} LiveComesFrom(f: Function, lv: LiveSets, b: nat, k: nat, v: Value)
    requires Shaped(f, lv) && NoEarlyUse(f) && b < |f| && k <= |f[b].ops|
    requires v in LiveAt(f, lv, b, k)
    ensures v in lv.liveOut[b] || v in Uses(f[b], |f[b].ops|)
    ensures k == 0 ==> v !in Results(f[b], |f[b].ops|)
    ensures forall j :: k <= j < |f[b].ops| ==> v !in f[b].ops[j].results
    decreases |f[b].ops| - k
  {
    var n := |f[b].ops|;
    if k < n {
      if v in LiveAt(f, lv, b, k + 1) {
        LiveComesFrom(f, lv, b, k + 1, v);
      } else {
        UsesContain(f[b], k, n);
        assert v in f[b].ops[k].operands;
      }
    }
    if k == 0 && v in Results(f[b], n) {
      ResultsFrom(f[b], n, v);
    }
  }

  // Live at the start of a block and not an argument: live out of every predecessor.
  lemma LiveAcrossEdge(f: Function, lv: LiveSets, p: nat, b: nat, v: Value)
    requires Dataflow(f, lv) && NoEarlyUse(f) && p < |f| && b < |f| && b in f[p].succs
    requires v in LiveAt(f, lv, b, 0) && v !in f[b].args
    ensures v in LiveAt(f, lv, p, |f[p].ops|)
  {
    LiveComesFrom(f, lv, b, 0, v);
    assert v !in Defs(f[b]);
    assert v in lv.liveIn[b];
  }

  lemma NothingLiveIn(f: Function, lv: LiveSets, b: nat, v: Value)
    requires Dataflow(f, lv) && NoEarlyUse(f) && b < |f| && b == 0
    requires v in LiveAt(f, lv, b, 0)
    ensures v in f[b].args
  {
    LiveComesFrom(f, lv, b, 0, v);
    assert v in Uses(f[b], |f[b].ops|) + lv.liveOut[b];
    assert lv.liveIn[b] == {};
    assert v in Defs(f[b]);
  }

  // Two arguments of a block, or an argument and a value live with it, meet when the first is handled.
  lemma ArgumentsMeet(f: Function, lv: LiveSets, b: nat, v: Value, w: Value)
    requires Shaped(f, lv) && b < |f| && v != w
    requires v in LiveAt(f, lv, b, 0) && w in LiveAt(f, lv, b, 0)
    requires v in f[b].args || w in f[b].args
    ensures Interferes(f, lv, v, w)
  {
    var args := f[b].args;
    var i := First(args, v, w, 0);
    if args[i] == v {
      assert MeetsAtArg(f, lv, b, i, v, w);
    } else {
      assert MeetsAtArg(f, lv, b, i, w, v);
    }
  }

  function First(args: seq<Value>, v: Value, w: Value, i: nat): (r: nat)
    requires i <= |args| && (v in args[i..] || w in args[i..])
    requires v !in args[..i] && w !in args[..i]
    ensures r < |args| && (args[r] == v || args[r] == w)
    ensures v !in args[..r] && w !in args[..r]
    decreases |args| - i
  {
    if args[i] == v || args[i] == w then i
    else
      assert args[..i + 1] == args[..i] + [args[i]];
      First(args, v, w, i + 1)
  }

  // Completeness: distinct values that are live together at a point some path from the entry reaches
  // interfere.
  lemma {:induction false} LiveTogetherInterfere(f: Function, lv: LiveSets, path: seq<nat>, k: nat, v: Value, w: Value)
    requires Dataflow(f, lv) && NoEarlyUse(f) && IsPath(f, path)
    requires k <= |f[path[|path| - 1]].ops| && v != w
    requires v in LiveAt(f, lv, path[|path| - 1], k) && w in LiveAt(f, lv, path[|path| - 1], k)
    ensures Interferes(f, lv, v, w)
    decreases |path|, k
  {
    var b := path[|path| - 1];
    if k > 0 {
      if v in f[b].ops[k - 1].results {
        assert MeetsAtOp(f, lv, b, k - 1, v, w);
      } else if w in f[b].ops[k - 1].results {
        assert MeetsAtOp(f, lv, b, k - 1, w, v);
      } else {
        LiveTogetherInterfere(f, lv, path, k - 1, v, w);
      }
    } else if v in f[b].args || w in f[b].args {
      ArgumentsMeet(f, lv, b, v, w);
    } else if |path| == 1 {
      NothingLiveIn(f, lv, b, v);
    } else {
      var p := path[|path| - 2];
      LiveAcrossEdge(f, lv, p, b, v);
      LiveAcrossEdge(f, lv, p, b, w);
      LiveTogetherInterfere(f, lv, path[..|path| - 1], |f[p].ops|, v, w);
    }
  }

  // ---------- use counts ----------

  function Occurrences(s: seq<Value>, v: Value): nat {
    multiset(s)[v]
  }

  function UsesUpTo(f: Function, v: Value, b: nat, k: nat): nat
    requires b < |f| ==> k <= |f[b].ops|
    requires b <= |f| && (b == |f| ==> k == 0)
    decreases b, k
  {
    if k > 0 then UsesUpTo(f, v, b, k - 1) + Occurrences(f[b].ops[k - 1].operands, v)
    else if b > 0 then UsesUpTo(f, v, b - 1, |f[b - 1].ops|)
    else 0
  }

  // How often v is an operand in f.
  function UseCount(f: Function, v: Value): nat {
    UsesUpTo(f, v, |f|, 0)
  }

  // The places where v is used: block, operation, operand.
  ghost function UsePlaces(f: Function, v: Value): set<(nat, nat, nat)> {
    set b: nat, k: nat, i: nat | b < |f| && k < |f[b].ops| && i < |f[b].ops[k].operands| && f[b].ops[k].operands[i] == v
      :: (b, k, i)
  }

  // Those in front of operation k of block b.
  ghost function PlacesBefore(f: Function, v: Value, b: nat, k: nat): set<(nat, nat, nat)> {
    set p | p in UsePlaces(f, v) && (p.0 < b || (p.0 == b && p.1 < k))
  }

  // Those among the first n operands of operation k of block b.
  ghost function PlacesAt(f: Function, v: Value, b: nat, k: nat, n: nat): set<(nat, nat, nat)> {
    set p | p in UsePlaces(f, v) && p.0 == b && p.1 == k && p.2 < n
  }

  lemma OccurrencesMore(s: seq<Value>, m: nat, n: nat, v: Value)
    requires n == m + 1 <= |s|
    ensures Occurrences(s[..n], v) == Occurrences(s[..m], v) + if s[m] == v then 1 else 0
  {
    assert s[..n] == s[..m] + [s[m]];
  }

  lemma {:induction false} PlacesAtCount(f: Function, v: Value, b: nat, k: nat, n: nat)
    requires b < |f| && k < |f[b].ops| && n <= |f[b].ops[k].operands|
    ensures |PlacesAt(f, v, b, k, n)| == Occurrences(f[b].ops[k].operands[..n], v)
  {
    var operands := f[b].ops[k].operands;
    if n == 0 {
      assert PlacesAt(f, v, b, k, n) == {};
    } else {
      var m := n - 1;
      PlacesAtCount(f, v, b, k, m);
      OccurrencesMore(operands, m, n, v);
      PlacesAtMore(f, v, b, k, m, n);
    }
  }

  lemma PlacesAtMore(f: Function, v: Value, b: nat, k: nat, m: nat, n: nat)
    requires b < |f| && k < |f[b].ops| && n == m + 1 <= |f[b].ops[k].operands|
    ensures |PlacesAt(f, v, b, k, n)| == |PlacesAt(f, v, b, k, m)| + if f[b].ops[k].operands[m] == v then 1 else 0
  {
    var before, here := PlacesAt(f, v, b, k, m), (b, k, m);
    if f[b].ops[k].operands[m] == v {
      assert PlacesAt(f, v, b, k, n) == before + {here};
    } else {
      assert PlacesAt(f, v, b, k, n) == before;
    }
  }

  lemma PlacesNext(f: Function, v: Value, b: nat, k: nat)
    requires b < |f| && k < |f[b].ops|
    ensures |PlacesBefore(f, v, b, k + 1)| == |PlacesBefore(f, v, b, k)| + Occurrences(f[b].ops[k].operands, v)
  {
    var operands := f[b].ops[k].operands;
    PlacesAtCount(f, v, b, k, |operands|);
    assert operands[..|operands|] == operands;
    assert PlacesBefore(f, v, b, k + 1) == PlacesBefore(f, v, b, k) + PlacesAt(f, v, b, k, |operands|);
  }

  lemma {:induction false} UsesArePlaces(f: Function, v: Value, b: nat, k: nat)
    requires b < |f| ==> k <= |f[b].ops|
    requires b <= |f| && (b == |f| ==> k == 0)
    ensures UsesUpTo(f, v, b, k) == |PlacesBefore(f, v, b, k)|
    decreases b, k
  {
    if k > 0 {
      UsesArePlaces(f, v, b, k - 1);
      PlacesNext(f, v, b, k - 1);
    } else if b > 0 {
      UsesArePlaces(f, v, b - 1, |f[b - 1].ops|);
      assert PlacesBefore(f, v, b, k) == PlacesBefore(f, v, b - 1, |f[b - 1].ops|);
    } else {
      assert PlacesBefore(f, v, b, k) == {};
    }
  }

  // The use count is the number of places where the value is used.
  lemma UseCountIsPlaces(f: Function, v: Value)
    ensures UseCount(f, v) == |set b: nat, k: nat, i: nat |
      b < |f| && k < |f[b].ops| && i < |f[b].ops[k].operands| && f[b].ops[k].operands[i] == v :: (b, k, i)|
  {
    UsesArePlaces(f, v, |f|, 0);
    assert PlacesBefore(f, v, |f|, 0) == UsePlaces(f, v);
  }

  function Increment32(c: uint32): (r: uint32)
    ensures forall n: nat :: c == Low32(n) ==> r == Low32(n + 1)
  {
    if c == 0xFFFF_FFFF then 0 else c + 1
  }

  function Count(counts: map<Value, uint32>, v: Value): uint32 {
    if v in counts then counts[v] else 0
  }

  lemma CountsMore(f: Function, b: nat, k: nat, operands: seq<Value>, i: nat, j: nat, counts: map<Value, uint32>)
    requires b < |f| && k <= |f[b].ops| && j == i + 1 <= |operands|
    requires forall v :: Count(counts, v) == Low32(UsesUpTo(f, v, b, k) + Occurrences(operands[..i], v))
    ensures forall v :: Count(counts[operands[i] := Increment32(Count(counts, operands[i]))], v)
                     == Low32(UsesUpTo(f, v, b, k) + Occurrences(operands[..j], v))
  {
    forall v ensures Count(counts[operands[i] := Increment32(Count(counts, operands[i]))], v)
                  == Low32(UsesUpTo(f, v, b, k) + Occurrences(operands[..j], v))
    {
      OccurrencesMore(operands, i, j, v);
    }
  }

  class LivenessInfo {
    const func: Function
    const sets: LiveSets
    const useCounts: map<Value, uint32>

    ghost predicate Valid() {
      Shaped(func, sets) && forall v :: Count(useCounts, v) == Low32(UseCount(func, v))
    }

    constructor (func: Function, sets: LiveSets)
      requires Shaped(func, sets)
      ensures Valid() && this.func == func && this.sets == sets
    {
      this.func := func;
      this.sets := sets;
      var counts := map[];
      var b := 0;
      while b < |func|
        invariant 0 <= b <= |func|
        invariant forall v :: Count(counts, v) == Low32(UsesUpTo(func, v, b, 0))
      {
        var k := 0;
        while k < |func[b].ops|
          invariant 0 <= k <= |func[b].ops|
          invariant forall v :: Count(counts, v) == Low32(UsesUpTo(func, v, b, k))
        {
          counts := CountOperands(func, b, k, counts);
          k := k + 1;
        }
        b := b + 1;
      }
      useCounts := counts;
    }

    static method CountOperands(func: Function, b: nat, k: nat, before: map<Value, uint32>)
      returns (counts: map<Value, uint32>)
      requires b < |func| && k < |func[b].ops|
      requires forall v :: Count(before, v) == Low32(UsesUpTo(func, v, b, k))
      ensures forall v :: Count(counts, v) == Low32(UsesUpTo(func, v, b, k + 1))
    {
      var operands := func[b].ops[k].operands;
      counts := before;
      var i := 0;
      while i < |operands|
        invariant 0 <= i <= |operands|
        invariant forall v :: Count(counts, v) == Low32(UsesUpTo(func, v, b, k) + Occurrences(operands[..i], v))
      {
        CountsMore(func, b, k, operands, i, i + 1, counts);
        counts := counts[operands[i] := Increment32(Count(counts, operands[i]))];
        i := i + 1;
      }
      assert operands[..i] == operands;
    }

    method GetUseCount(value: Value) returns (n: uint32)
      requires Valid()
      ensures n == Low32(UseCount(func, value))
    {
      n := if value in useCounts then useCounts[value] else 0;
    }
  }
}
