// The order in which vertices are taken out of a graph and coloured again, stated on the graph alone.

module Schedule {
  import opened Words
  import opened Cfg
  import opened Liveness
  import opened Interference
  import opened Subgraphs

  // Every vertex of `rest` has 16 or more neighbours in it, and none has fewer uses per neighbour than v.
  ghost predicate CheapestIn(f: Function, g: Adjacency, rest: set<Value>, v: Value) {
    && v in rest && v in g && |g[v] * rest| >= COLORS
    && forall w :: w in rest && w in g ==>
      && |g[w] * rest| >= COLORS
      && Low32(UseCount(f, v)) / |g[v] * rest| <= Low32(UseCount(f, w)) / |g[w] * rest|
  }

  // Vertex n of the order is one of low degree in what is left, or there is none and it is the cheapest.
  ghost predicate TakenAt(f: Function, g: Adjacency, order: seq<Value>, n: nat)
    requires n < |order|
  {
    var rest := Remaining(g, order[..n]);
    order[n] in rest && (|g[order[n]] * rest| < COLORS || CheapestIn(f, g, rest, order[n]))
  }

  ghost predicate InSchedule(f: Function, g: Adjacency, order: seq<Value>) {
    forall n :: 0 <= n < |order| ==> TakenAt(f, g, order, n)
  }

  // Vertex n of the order had 16 or more neighbours left when it was taken.
  predicate HighAt(g: Adjacency, order: seq<Value>, n: nat)
    requires n < |order|
  {
    order[n] in g && |g[order[n]] * Remaining(g, order[..n])| >= COLORS
  }

  // Those among the first n vertices of the order.
  function ForcedOf(g: Adjacency, order: seq<Value>, n: nat): seq<Value>
    requires n <= |order|
  {
    if n == 0 then []
    else ForcedOf(g, order, n - 1) + if HighAt(g, order, n - 1) then [order[n - 1]] else []
  }

  lemma {:induction false} ForcedPrefix(g: Adjacency, order: seq<Value>, v: Value, n: nat)
    requires n <= |order|
    ensures ForcedOf(g, order + [v], n) == ForcedOf(g, order, n)
  {
    if n > 0 {
      ForcedPrefix(g, order, v, n - 1);
      assert (order + [v])[..n - 1] == order[..n - 1];
    }
  }

  lemma ForcedNext(g: Adjacency, order: seq<Value>, v: Value)
    requires v in g
    ensures ForcedOf(g, order + [v], |order| + 1)
         == ForcedOf(g, order, |order|) + if |g[v] * Remaining(g, order)| >= COLORS then [v] else []
  {
    ForcedPrefix(g, order, v, |order|);
    assert (order + [v])[..|order|] == order;
  }

  lemma ScheduleNext(f: Function, g: Adjacency, order: seq<Value>, v: Value)
    requires InSchedule(f, g, order) && v in Remaining(g, order)
    requires |g[v] * Remaining(g, order)| < COLORS || CheapestIn(f, g, Remaining(g, order), v)
    ensures InSchedule(f, g, order + [v])
  {
    var longer := order + [v];
    forall n | 0 <= n < |longer| ensures TakenAt(f, g, longer, n) {
      assert longer[..n] == order[..n];
      assert n < |order| ==> TakenAt(f, g, order, n);
      assert order[..|order|] == order;
    }
  }

  // ---------- what a schedule gives ----------

  lemma ScheduleDistinct(f: Function, g: Adjacency, order: seq<Value>)
    requires InSchedule(f, g, order)
    ensures Distinct(order) && Elements(order) <= g.Keys
  {
    forall i, j | 0 <= i < j < |order| ensures order[i] != order[j] {
      assert TakenAt(f, g, order, j);
      assert order[..j][i] == order[i];
    }
    forall v | v in Elements(order) ensures v in g {
      var i :| 0 <= i < |order| && order[i] == v;
      assert TakenAt(f, g, order, i);
    }
  }

  lemma {:induction false} ForcedIff(g: Adjacency, order: seq<Value>, n: nat, v: Value)
    requires n <= |order|
    ensures v in ForcedOf(g, order, n) <==> exists i :: 0 <= i < n && order[i] == v && HighAt(g, order, i)
  {
    if n > 0 {
      var m := n - 1;
      ForcedIff(g, order, m, v);
      ForcedStep(g, order, m, n);
      assert HighAt(g, order, m) && order[m] == v ==> 0 <= m < n;
    }
  }

  lemma {:induction false} ForcedDistinct(g: Adjacency, order: seq<Value>, n: nat)
    requires Distinct(order) && n <= |order|
    ensures Distinct(ForcedOf(g, order, n)) && |ForcedOf(g, order, n)| <= n
  {
    if n > 0 {
      ForcedDistinct(g, order, n - 1);
      ForcedIff(g, order, n - 1, order[n - 1]);
      DistinctMore(ForcedOf(g, order, n - 1), order[n - 1]);
    }
  }

  lemma DistinctMore(s: seq<Value>, v: Value)
    requires Distinct(s) && v !in s
    ensures Distinct(s + [v])
  {
  }

  ghost predicate CoresWithin(g: Adjacency, rest: set<Value>) {
    forall core :: IsCore(g, core) ==> core <= rest
  }

  // A vertex of degree below 16 belongs to no core of what is left.
  lemma LowDegreeStep(g: Adjacency, rest: set<Value>, v: Value)
    requires CoresWithin(g, rest) && v in g && |g[v] * rest| < COLORS
    ensures CoresWithin(g, rest - {v})
  {
    forall core | IsCore(g, core) ensures core <= rest - {v} {
      LowOutsideCore(g, rest, core, v);
    }
  }

  lemma LowOutsideCore(g: Adjacency, rest: set<Value>, core: set<Value>, v: Value)
    requires CoresWithin(g, rest) && IsCore(g, core) && v in g && |g[v] * rest| < COLORS
    ensures core <= rest - {v}
  {
    MeetGrows(g[v], core, rest);
  }

  // When every degree left is 16 or more, what is left is a core, and it has at least 17 vertices.
  lemma HighDegreeStep(f: Function, g: Adjacency, rest: set<Value>, v: Value)
    requires rest <= g.Keys && CheapestIn(f, g, rest, v)
    ensures IsCore(g, rest)
    ensures Symmetric(g) ==> |rest| > COLORS
  {
    if Symmetric(g) {
      CoreIsLarge(g, rest, v);
    }
  }

  lemma CoreIsLarge(g: Adjacency, core: set<Value>, v: Value)
    requires Symmetric(g) && IsCore(g, core) && v in core
    ensures |core| > COLORS
  {
    assert !Edge(g, v, v);
    OneOutside(g[v], core, v);
  }

  lemma RemainingSize(g: Adjacency, order: seq<Value>)
    requires Distinct(order) && Elements(order) <= g.Keys
    ensures |order| + |Remaining(g, order)| == |g|
  {
    ElementsSize(order);
    assert Remaining(g, order) + Elements(order) == g.Keys;
    assert |g.Keys| == |g|;
  }

  // As long as nothing is forced out, every core is in what is left; what is forced out is part of one.
  lemma {:induction false} ForcedByCores(f: Function, g: Adjacency, order: seq<Value>, n: nat)
    requires InSchedule(f, g, order) && n <= |order|
    ensures ForcedOf(g, order, n) == [] ==> CoresWithin(g, Remaining(g, order[..n]))
    ensures ForcedOf(g, order, n) != [] ==> HasCore(g)
  {
    if n == 0 {
      assert Remaining(g, order[..n]) == g.Keys;
    } else {
      var m := n - 1;
      ForcedByCores(f, g, order, m);
      assert TakenAt(f, g, order, m);
      TakeOneMore(order, m);
      TakenOut(g, order[..m], order[m]);
      OneMore(f, g, Remaining(g, order[..m]), order[m]);
      ForcedStep(g, order, m, n);
    }
  }

  lemma ForcedStep(g: Adjacency, order: seq<Value>, m: nat, n: nat)
    requires n == m + 1 <= |order|
    ensures ForcedOf(g, order, n) == ForcedOf(g, order, m) + if HighAt(g, order, m) then [order[m]] else []
  {
  }

  lemma OneMore(f: Function, g: Adjacency, rest: set<Value>, v: Value)
    requires rest <= g.Keys && v in rest && (|g[v] * rest| < COLORS || CheapestIn(f, g, rest, v))
    ensures if |g[v] * rest| >= COLORS then HasCore(g) else CoresWithin(g, rest) ==> CoresWithin(g, rest - {v})
  {
    if |g[v] * rest| >= COLORS {
      HighDegreeStep(f, g, rest, v);
    } else if CoresWithin(g, rest) {
      LowDegreeStep(g, rest, v);
    }
  }

  // Whatever the schedule, something is forced out iff the graph has a core.
  lemma CoreDecides(f: Function, g: Adjacency, order: seq<Value>)
    requires InSchedule(f, g, order) && Elements(order) == g.Keys
    ensures ForcedOf(g, order, |order|) != [] <==> HasCore(g)
  {
    ForcedByCores(f, g, order, |order|);
    assert order[..|order|] == order;
    assert Remaining(g, order) == {};
  }

  // When the last vertex is forced out, 16 others are left.
  lemma {:induction false} ForcedLeave16(f: Function, g: Adjacency, order: seq<Value>, n: nat)
    requires Symmetric(g) && InSchedule(f, g, order) && n <= |order|
    ensures ForcedOf(g, order, n) != [] ==> |ForcedOf(g, order, n)| + COLORS <= |g|
  {
    if n > 0 {
      var m := n - 1;
      ForcedLeave16(f, g, order, m);
      ForcedStep(g, order, m, n);
      if HighAt(g, order, m) {
        HighAtLeaves16(f, g, order, m);
      }
    }
  }

  lemma HighAtLeaves16(f: Function, g: Adjacency, order: seq<Value>, m: nat)
    requires Symmetric(g) && InSchedule(f, g, order) && m < |order| && HighAt(g, order, m)
    ensures |ForcedOf(g, order, m)| + 1 + COLORS <= |g|
  {
    ScheduleDistinct(f, g, order);
    ForcedDistinct(g, order, m);
    assert TakenAt(f, g, order, m);
    PrefixDistinct(order, m, g.Keys);
    HighLeaves16(f, g, order[..m], m, order[m]);
  }

  lemma PrefixDistinct(order: seq<Value>, m: nat, keys: set<Value>)
    requires m <= |order| && Distinct(order) && Elements(order) <= keys
    ensures Distinct(order[..m]) && Elements(order[..m]) <= keys
  {
    forall v | v in Elements(order[..m]) ensures v in keys {
      assert v in Elements(order);
    }
  }

  lemma HighLeaves16(f: Function, g: Adjacency, before: seq<Value>, m: nat, v: Value)
    requires Symmetric(g) && Distinct(before) && Elements(before) <= g.Keys && |before| == m
    requires CheapestIn(f, g, Remaining(g, before), v)
    ensures m + 1 + COLORS <= |g|
  {
    HighDegreeStep(f, g, Remaining(g, before), v);
    RemainingSize(g, before);
  }

  lemma ForcedBound(f: Function, g: Adjacency, order: seq<Value>)
    requires Symmetric(g) && InSchedule(f, g, order)
    ensures ForcedOf(g, order, |order|) != [] ==> |ForcedOf(g, order, |order|)| + COLORS <= |g|
  {
    ForcedLeave16(f, g, order, |order|);
  }
}
