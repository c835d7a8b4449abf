// Sets of vertices of a graph, what is left when vertices are taken out in some order, and cores.

module Subgraphs {
  import opened Cfg
  import opened Interference

  const COLORS := 16

  ghost predicate Distinct(s: seq<Value>) {
    forall i, j :: 0 <= i < j < |s| ==> s[i] != s[j]
  }

  // The subgraph induced by the vertices in `keep`.
  function Induced(g: Adjacency, keep: set<Value>): Adjacency {
    map v | v in g && v in keep :: g[v] * keep
  }

  lemma InducedWithout(g: Adjacency, keep: set<Value>, v: Value)
    requires v in keep
    ensures Without(Induced(g, keep), v) == Induced(g, keep - {v})
  {
    forall x | x in g && x in keep && x != v ensures (g[x] * keep) - {v} == g[x] * (keep - {v}) {
    }
  }

  lemma InducedIsSymmetric(g: Adjacency, keep: set<Value>)
    requires Symmetric(g)
    ensures Symmetric(Induced(g, keep))
  {
    forall v, w | Edge(Induced(g, keep), v, w) ensures v != w && Edge(Induced(g, keep), w, v) {
      assert Edge(g, v, w) && Edge(g, w, v);
    }
  }

  function Remaining(g: Adjacency, order: seq<Value>): set<Value> {
    g.Keys - Elements(order)
  }

  // A nonempty induced subgraph in which every degree is at least 16.
  ghost predicate IsCore(g: Adjacency, core: set<Value>) {
    core != {} && core <= g.Keys && forall v :: v in core ==> |g[v] * core| >= COLORS
  }

  ghost predicate HasCore(g: Adjacency) {
    exists core :: IsCore(g, core)
  }

  lemma TakeOneMore(s: seq<Value>, i: nat)
    requires i < |s|
    ensures s[..i + 1] == s[..i] + [s[i]]
  {
  }

  lemma TakenOut(g0: Adjacency, order: seq<Value>, v: Value)
    ensures Elements(order + [v]) == Elements(order) + {v}
    ensures Remaining(g0, order + [v]) == Remaining(g0, order) - {v}
  {
  }

  lemma SubsetSize(a: set<Value>, b: set<Value>)
    requires a <= b
    ensures |a| <= |b|
  {
    assert b == a + (b - a);
  }

  lemma MeetGrows(a: set<Value>, small: set<Value>, large: set<Value>)
    requires small <= large
    ensures |a * small| <= |a * large|
  {
    SubsetSize(a * small, a * large);
  }

  lemma OneOutside(a: set<Value>, b: set<Value>, v: Value)
    requires v in b && v !in a
    ensures |a * b| < |b|
  {
    SubsetSize(a * b, b - {v});
  }

  lemma {:induction false} ElementsSize(s: seq<Value>)
    requires Distinct(s)
    ensures |Elements(s)| == |s|
  {
    if s != [] {
      var init, last := s[..|s| - 1], s[|s| - 1];
      ElementsSize(init);
      assert Elements(s) == Elements(init) + {last};
    }
  }

  lemma AppendElements(s: seq<Value>, v: Value)
    ensures Elements(s + [v]) == Elements(s) + {v}
  {
  }
}
