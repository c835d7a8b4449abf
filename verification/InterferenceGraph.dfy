// The interference graph: a backward scan over the live values of every block builds it, the stack
// allocator takes it apart.

module Interference {
  import opened Wrappers
  import opened Words
  import opened Cfg
  import opened Liveness

  type Adjacency = map<Value, set<Value>>

  type Pairs = set<(Value, Value)>

  ghost predicate Edge(g: Adjacency, v: Value, w: Value) {
    v in g && w in g[v]
  }

  // The pairs of a definition and a value it meets.
  function Meeting(defs: set<Value>, live: set<Value>): (p: Pairs)
    ensures forall v: Value, w: Value :: (v, w) in p <==> v in defs && w in live && v != w
  {
    set v, w | v in defs && w in live && v != w :: (v, w)
  }

  function OpPairs(f: Function, lv: LiveSets, b: nat, k: nat): Pairs
    requires Shaped(f, lv) && b < |f| && k < |f[b].ops|
  {
    Meeting(Elements(f[b].ops[k].results), LiveAt(f, lv, b, k + 1) + Elements(f[b].ops[k].operands))
  }

  function OpsPairs(f: Function, lv: LiveSets, b: nat, k: nat): Pairs
    requires Shaped(f, lv) && b < |f| && k <= |f[b].ops|
    decreases |f[b].ops| - k
  {
    if k == |f[b].ops| then {} else OpsPairs(f, lv, b, k + 1) + OpPairs(f, lv, b, k)
  }

  function ArgsPairs(f: Function, lv: LiveSets, b: nat, i: nat): Pairs
    requires Shaped(f, lv) && b < |f| && i <= |f[b].args|
  {
    if i == 0 then {}
    else
      ArgsPairs(f, lv, b, i - 1)
      + Meeting({f[b].args[i - 1]}, LiveAt(f, lv, b, 0) - Elements(f[b].args[..i - 1]))
  }

  function BlockPairs(f: Function, lv: LiveSets, b: nat): Pairs
    requires Shaped(f, lv) && b < |f|
  {
    OpsPairs(f, lv, b, 0) + ArgsPairs(f, lv, b, |f[b].args|)
  }

  // What the scan has met in blocks b and later.
  function BlocksPairs(f: Function, lv: LiveSets, b: nat): Pairs
    requires Shaped(f, lv) && b <= |f|
    decreases |f| - b
  {
    if b == |f| then {} else BlocksPairs(f, lv, b + 1) + BlockPairs(f, lv, b)
  }

  // The undirected graph over `pairs`, with a vertex for every value that has an edge.
  ghost predicate Represents(g: Adjacency, pairs: Pairs) {
    && (forall v: Value, w: Value :: Edge(g, v, w) <==> (v, w) in pairs || (w, v) in pairs)
    && (forall v :: v in g ==> g[v] != {})
  }

  function Connect(g: Adjacency, v: Value, w: Value): (r: Adjacency)
    ensures v in r && w in r[v]
    ensures forall x, y :: Edge(r, x, y) <==> Edge(g, x, y) || (x == v && y == w)
    ensures (forall x :: x in g ==> g[x] != {}) ==> forall x :: x in r ==> r[x] != {}
  {
    g[v := (if v in g then g[v] else {}) + {w}]
  }

  lemma ConnectBoth(g: Adjacency, pairs: Pairs, v: Value, w: Value)
    requires Represents(g, pairs)
    ensures Represents(Connect(Connect(g, v, w), w, v), pairs + {(v, w)})
  {
  }

  lemma ConnectStep(g: Adjacency, met: Pairs, def: Value, done: set<Value>, live: Value)
    requires Represents(g, met + Meeting({def}, done))
    ensures Represents(if live != def then Connect(Connect(g, def, live), live, def) else g,
                       met + Meeting({def}, done + {live}))
  {
    var before := met + Meeting({def}, done);
    if live != def {
      ConnectBoth(g, before, def, live);
      assert before + {(def, live)} == met + Meeting({def}, done + {live});
    } else {
      assert before == met + Meeting({def}, done + {live});
    }
  }

  // ---------- the scan meets exactly what interferes ----------

  lemma {:induction false} OpsPairsExact(f: Function, lv: LiveSets, b: nat, k: nat, v: Value, w: Value)
    requires Shaped(f, lv) && b < |f| && k <= |f[b].ops|
    ensures (v, w) in OpsPairs(f, lv, b, k) <==> v != w && exists j :: k <= j && MeetsAtOp(f, lv, b, j, v, w)
    decreases |f[b].ops| - k
  {
    if k < |f[b].ops| {
      OpsPairsExact(f, lv, b, k + 1, v, w);
      assert (v, w) in OpPairs(f, lv, b, k) <==> v != w && MeetsAtOp(f, lv, b, k, v, w);
    }
  }

  lemma {:induction false} ArgsPairsExact(f: Function, lv: LiveSets, b: nat, i: nat, v: Value, w: Value)
    requires Shaped(f, lv) && b < |f| && i <= |f[b].args|
    ensures (v, w) in ArgsPairs(f, lv, b, i) <==> v != w && exists j :: 0 <= j < i && MeetsAtArg(f, lv, b, j, v, w)
  {
    if i > 0 {
      ArgsPairsExact(f, lv, b, i - 1, v, w);
      var live := LiveAt(f, lv, b, 0) - Elements(f[b].args[..i - 1]);
      assert (v, w) in Meeting({f[b].args[i - 1]}, live) <==> v != w && MeetsAtArg(f, lv, b, i - 1, v, w);
    }
  }

  ghost predicate MeetsIn(f: Function, lv: LiveSets, b: nat, v: Value, w: Value)
    requires Shaped(f, lv)
  {
    (exists k :: MeetsAtOp(f, lv, b, k, v, w)) || exists i :: MeetsAtArg(f, lv, b, i, v, w)
  }

  lemma BlockPairsExact(f: Function, lv: LiveSets, b: nat, v: Value, w: Value)
    requires Shaped(f, lv) && b < |f|
    ensures (v, w) in BlockPairs(f, lv, b) <==> v != w && MeetsIn(f, lv, b, v, w)
  {
    OpsPairsExact(f, lv, b, 0, v, w);
    ArgsPairsExact(f, lv, b, |f[b].args|, v, w);
  }

  lemma {:induction false} BlocksPairsExact(f: Function, lv: LiveSets, b: nat, v: Value, w: Value)
    requires Shaped(f, lv) && b <= |f|
    ensures (v, w) in BlocksPairs(f, lv, b) <==> v != w && exists c :: b <= c && MeetsIn(f, lv, c, v, w)
    decreases |f| - b
  {
    if b < |f| {
      BlocksPairsExact(f, lv, b + 1, v, w);
      BlockPairsExact(f, lv, b, v, w);
    }
  }

  lemma ScanIsExact(f: Function, lv: LiveSets, v: Value, w: Value)
    requires Shaped(f, lv)
    ensures (v, w) in BlocksPairs(f, lv, 0) <==> v != w && DefinedOver(f, lv, v, w)
  {
    BlocksPairsExact(f, lv, 0, v, w);
    if v != w && DefinedOver(f, lv, v, w) {
      if b, k :| MeetsAtOp(f, lv, b, k, v, w) {
        assert MeetsIn(f, lv, b, v, w);
      } else {
        var b, i :| MeetsAtArg(f, lv, b, i, v, w);
        assert MeetsIn(f, lv, b, v, w);
      }
    }
  }

  // ---------- the graph ----------

  class InterferenceGraph {
    const livenessInfo: LivenessInfo
    var adjacency: Adjacency

    // Two values are adjacent iff they interfere; the vertices are the values that do with some other.
    constructor (livenessInfo: LivenessInfo)
      requires livenessInfo.Valid()
      ensures this.livenessInfo == livenessInfo
      ensures forall v, w :: Edge(adjacency, v, w) <==> Interferes(livenessInfo.func, livenessInfo.sets, v, w)
      ensures forall v :: v in adjacency <==> exists w :: Interferes(livenessInfo.func, livenessInfo.sets, v, w)
    {
      this.livenessInfo := livenessInfo;
      adjacency := map[];
      new;
      var f, lv := livenessInfo.func, livenessInfo.sets;
      var b := |f|;
      while b > 0
        invariant 0 <= b <= |f|
        invariant Represents(adjacency, BlocksPairs(f, lv, b))
      {
        b := b - 1;
        ScanBlock(b, BlocksPairs(f, lv, b + 1));
      }
      forall v, w ensures Edge(adjacency, v, w) <==> Interferes(f, lv, v, w) {
        ScanIsExact(f, lv, v, w);
        ScanIsExact(f, lv, w, v);
      }
      forall v ensures v in adjacency <==> exists w :: Interferes(f, lv, v, w) {
        if v in adjacency {
          var w :| w in adjacency[v];
          assert Edge(adjacency, v, w);
        }
        if w :| Interferes(f, lv, v, w) {
          assert Edge(adjacency, v, w);
        }
      }
    }

    method ScanBlock(b: nat, ghost met: Pairs)
      requires Shaped(livenessInfo.func, livenessInfo.sets) && b < |livenessInfo.func|
      requires Represents(adjacency, met)
      modifies this
      ensures Represents(adjacency, met + BlockPairs(livenessInfo.func, livenessInfo.sets, b))
    {
      var f, lv := livenessInfo.func, livenessInfo.sets;
      var block := f[b];
      var liveNow := lv.liveOut[b];
      var k := |block.ops|;
      while k > 0
        invariant 0 <= k <= |block.ops|
        invariant liveNow == LiveAt(f, lv, b, k)
        invariant Represents(adjacency, met + OpsPairs(f, lv, b, k))
      {
        k := k - 1;
        var op := block.ops[k];
        liveNow := liveNow + Elements(op.operands);
        ghost var before := met + OpsPairs(f, lv, b, k + 1);
        ConnectResults(op.results, liveNow, before);
        assert before + OpPairs(f, lv, b, k) == met + OpsPairs(f, lv, b, k);
        liveNow := liveNow - Elements(op.results);
      }
      ghost var scanned := met + OpsPairs(f, lv, b, 0);
      var i := 0;
      while i < |block.args|
        invariant 0 <= i <= |block.args|
        invariant liveNow == LiveAt(f, lv, b, 0) - Elements(block.args[..i])
        invariant Represents(adjacency, scanned + ArgsPairs(f, lv, b, i))
      {
        var arg := block.args[i];
        ConnectTo(arg, liveNow, scanned + ArgsPairs(f, lv, b, i));
        assert scanned + ArgsPairs(f, lv, b, i) + Meeting({arg}, liveNow) == scanned + ArgsPairs(f, lv, b, i + 1);
        liveNow := liveNow - {arg};
        assert block.args[..i + 1] == block.args[..i] + [arg];
        i := i + 1;
      }
      assert scanned + ArgsPairs(f, lv, b, i) == met + BlockPairs(f, lv, b);
    }

    method ConnectResults(results: seq<Value>, liveNow: set<Value>, ghost met: Pairs)
      requires Represents(adjacency, met)
      modifies this
      ensures Represents(adjacency, met + Meeting(Elements(results), liveNow))
    {
      var i := 0;
      while i < |results|
        invariant 0 <= i <= |results|
        invariant Represents(adjacency, met + Meeting(Elements(results[..i]), liveNow))
      {
        ghost var before := met + Meeting(Elements(results[..i]), liveNow);
        ConnectTo(results[i], liveNow, before);
        assert results[..i + 1] == results[..i] + [results[i]];
        assert before + Meeting({results[i]}, liveNow) == met + Meeting(Elements(results[..i + 1]), liveNow);
        i := i + 1;
      }
      assert results[..i] == results;
    }

    // Edges between a newly defined value and everything live except itself.
    method ConnectTo(def: Value, liveNow: set<Value>, ghost met: Pairs)
      requires Represents(adjacency, met)
      modifies this
      ensures Represents(adjacency, met + Meeting({def}, liveNow))
    {
      var todo := liveNow;
      ghost var done: set<Value> := {};
      assert met + Meeting({def}, done) == met;
      while todo != {}
        invariant done + todo == liveNow
        invariant Represents(adjacency, met + Meeting({def}, done))
        decreases |todo|
      {
        var live :| live in todo;
        todo := todo - {live};
        ConnectOne(def, live, met, done);
        done := done + {live};
      }
      assert done == liveNow;
    }

    method ConnectOne(def: Value, live: Value, ghost met: Pairs, ghost done: set<Value>)
      requires Represents(adjacency, met + Meeting({def}, done))
      modifies this
      ensures Represents(adjacency, met + Meeting({def}, done + {live}))
    {
      ConnectStep(adjacency, met, def, done, live);
      if live != def {
        adjacency := Connect(adjacency, def, live);
        adjacency := Connect(adjacency, live, def);
      }
    }

    method Neighbors(v: Value) returns (r: Option<set<Value>>)
      ensures r == if v in adjacency then Some(adjacency[v]) else None
    {
      r := if v in adjacency then Some(adjacency[v]) else None;
    }

    method GetValues() returns (values: set<Value>)
      ensures values == adjacency.Keys
    {
      values := adjacency.Keys;
    }

    method UseCountOf(v: Value) returns (n: uint32)
      requires livenessInfo.Valid()
      ensures n == Low32(UseCount(livenessInfo.func, v))
    {
      n := livenessInfo.GetUseCount(v);
    }

    // Takes v out of the vertices and out of every neighbourhood; nothing else changes.
    method RemoveNode(v: Value)
      requires Symmetric(adjacency)
      modifies this
      ensures adjacency == Without(old(adjacency), v) && Symmetric(adjacency)
    {
      WithoutIsSymmetric(adjacency, v);
      if v !in adjacency {
        return;
      }
      ghost var before := adjacency;
      var todo := adjacency[v];
      ghost var done: set<Value> := {};
      while todo != {}
        invariant done + todo == before[v] && done * todo == {}
        invariant adjacency == Erased(before, v, done)
        decreases |todo|
      {
        var neighbor :| neighbor in todo;
        EraseOne(before, v, done, neighbor);
        adjacency := adjacency[neighbor := adjacency[neighbor] - {v}];
        todo := todo - {neighbor};
        done := done + {neighbor};
      }
      assert done == before[v];
      adjacency := adjacency - {v};
      ErasedIsWithout(before, v);
    }
  }

  function Erased(g: Adjacency, v: Value, done: set<Value>): Adjacency {
    map x | x in g :: if x in done then g[x] - {v} else g[x]
  }

  lemma EraseOne(g: Adjacency, v: Value, done: set<Value>, n: Value)
    requires Symmetric(g) && v in g && n in g[v] && n !in done
    ensures n in g && Erased(g, v, done)[n := Erased(g, v, done)[n] - {v}] == Erased(g, v, done + {n})
  {
    assert Edge(g, v, n);
  }

  lemma ErasedIsWithout(g: Adjacency, v: Value)
    requires Symmetric(g) && v in g
    ensures Erased(g, v, g[v]) - {v} == Without(g, v)
  {
    forall x | x in g && x != v ensures x !in g[v] ==> g[x] - {v} == g[x] {
      assert Edge(g, x, v) ==> Edge(g, v, x);
    }
  }

  lemma WithoutIsSymmetric(g: Adjacency, v: Value)
    requires Symmetric(g)
    ensures Symmetric(Without(g, v)) && (v !in g ==> Without(g, v) == g)
  {
    var r := Without(g, v);
    forall x, y | Edge(r, x, y) ensures x != y && Edge(r, y, x) {
      assert Edge(g, x, y) && Edge(g, y, x);
    }
    if v !in g {
      forall x | x in g ensures r[x] == g[x] {
        assert Edge(g, x, v) ==> Edge(g, v, x);
      }
      assert r.Keys == g.Keys;
    }
  }

  // Every edge is there in both directions, between vertices, and never a loop.
  ghost predicate Symmetric(g: Adjacency) {
    forall v, w :: Edge(g, v, w) ==> v != w && Edge(g, w, v)
  }

  function Without(g: Adjacency, v: Value): Adjacency {
    map x | x in g && x != v :: g[x] - {v}
  }

  ghost predicate IsInterference(f: Function, lv: LiveSets, g: Adjacency)
    requires Shaped(f, lv)
  {
    forall v, w :: Edge(g, v, w) <==> Interferes(f, lv, v, w)
  }

  // A result and an operand of the same operation are adjacent, also when the operand dies there or the
  // result is never used.
  lemma OperandsAdjacent(f: Function, lv: LiveSets, g: Adjacency, b: nat, k: nat, v: Value, w: Value)
    requires Shaped(f, lv) && IsInterference(f, lv, g) && b < |f| && k < |f[b].ops|
    requires v in f[b].ops[k].results && w in f[b].ops[k].operands && v != w
    ensures Edge(g, v, w) && Edge(g, w, v)
  {
    assert MeetsAtOp(f, lv, b, k, v, w);
  }

  // x is a result of an operation that uses y or has y live behind it, or an argument of a block at whose
  // start y is live and not an argument in front of x.
  ghost predicate DefinedNear(f: Function, lv: LiveSets, x: Value, y: Value)
    requires Shaped(f, lv)
  {
    || (exists b, k :: 0 <= b < |f| && 0 <= k < |f[b].ops| && x in f[b].ops[k].results
          && (y in f[b].ops[k].operands || y in LiveAt(f, lv, b, k + 1)))
    || (exists b, i :: 0 <= b < |f| && 0 <= i < |f[b].args| && f[b].args[i] == x
          && y in LiveAt(f, lv, b, 0) && y !in f[b].args[..i])
  }

  // Two values are adjacent iff one of them is defined near the other.
  lemma EdgesExact(f: Function, lv: LiveSets, g: Adjacency, v: Value, w: Value)
    requires Shaped(f, lv) && IsInterference(f, lv, g)
    ensures Edge(g, v, w) <==> v != w && (DefinedNear(f, lv, v, w) || DefinedNear(f, lv, w, v))
  {
    DefinedNearIff(f, lv, v, w);
    DefinedNearIff(f, lv, w, v);
  }

  lemma DefinedNearIff(f: Function, lv: LiveSets, x: Value, y: Value)
    requires Shaped(f, lv)
    ensures DefinedOver(f, lv, x, y) <==> DefinedNear(f, lv, x, y)
  {
    if b, k :| 0 <= b < |f| && 0 <= k < |f[b].ops| && x in f[b].ops[k].results
               && (y in f[b].ops[k].operands || y in LiveAt(f, lv, b, k + 1))
    {
      assert MeetsAtOp(f, lv, b, k, x, y);
    }
    if b, i :| 0 <= b < |f| && 0 <= i < |f[b].args| && f[b].args[i] == x
               && y in LiveAt(f, lv, b, 0) && y !in f[b].args[..i]
    {
      assert MeetsAtArg(f, lv, b, i, x, y);
    }
    if DefinedOver(f, lv, x, y) {
      if b: nat, k: nat :| MeetsAtOp(f, lv, b, k, x, y) {
        assert 0 <= b < |f| && 0 <= k < |f[b].ops| && x in f[b].ops[k].results;
      } else {
        var b: nat, i: nat :| MeetsAtArg(f, lv, b, i, x, y);
        assert 0 <= b < |f| && 0 <= i < |f[b].args| && f[b].args[i] == x;
      }
    }
  }

  lemma InterferenceIsSymmetric(f: Function, lv: LiveSets, g: Adjacency)
    requires Shaped(f, lv)
    requires IsInterference(f, lv, g)
    ensures Symmetric(g)
  {
  }
}
