// Cores and elimination orders: two ways to say that a graph can be simplified.

module Cores {
  import opened Cfg
  import opened Interference
  import opened Subgraphs

  // Vertex i of the order has fewer than 16 neighbours that come later.
  ghost predicate LowAt(g: Adjacency, order: seq<Value>, i: nat)
    requires i < |order|
  {
    order[i] in g && |g[order[i]] * Remaining(g, order[..i])| < COLORS
  }

  ghost predicate Eliminates(g: Adjacency, order: seq<Value>) {
    forall i :: 0 <= i < |order| ==> LowAt(g, order, i)
  }

  // All vertices in an order in which each has fewer than 16 later neighbours.
  ghost predicate Eliminable(g: Adjacency) {
    exists order :: Eliminates(g, order) && Remaining(g, order) == {}
  }

  lemma {:induction false} CoreRemains(g: Adjacency, core: set<Value>, order: seq<Value>, i: nat)
    requires IsCore(g, core) && Eliminates(g, order) && i <= |order|
    ensures core <= Remaining(g, order[..i])
  {
    if i > 0 {
      var before, v := order[..i - 1], order[i - 1];
      CoreRemains(g, core, order, i - 1);
      assert LowAt(g, order, i - 1);
      CoreSurvives(g, core, before, v);
      TakeOneMore(order, i - 1);
    }
  }

  lemma CoreSurvives(g: Adjacency, core: set<Value>, before: seq<Value>, v: Value)
    requires IsCore(g, core) && core <= Remaining(g, before) && v in g && |g[v] * Remaining(g, before)| < COLORS
    ensures core <= Remaining(g, before + [v])
  {
    TakenOut(g, before, v);
    MeetGrows(g[v], core, Remaining(g, before));
  }

  lemma {:induction false} EliminationExtends(g: Adjacency, order: seq<Value>) returns (full: seq<Value>)
    requires !HasCore(g) && Eliminates(g, order)
    ensures Eliminates(g, full) && Remaining(g, full) == {}
    decreases |Remaining(g, order)|
  {
    var rest := Remaining(g, order);
    if rest == {} {
      full := order;
    } else {
      var v := LowVertex(g, rest);
      EliminateOne(g, order, v);
      TakenOut(g, order, v);
      full := EliminationExtends(g, order + [v]);
    }
  }

  lemma LowVertex(g: Adjacency, rest: set<Value>) returns (v: Value)
    requires !HasCore(g) && rest != {} && rest <= g.Keys
    ensures v in rest && |g[v] * rest| < COLORS
  {
    assert !IsCore(g, rest);
    v :| v in rest && |g[v] * rest| < COLORS;
  }

  lemma EliminateOne(g: Adjacency, order: seq<Value>, v: Value)
    requires Eliminates(g, order) && v in Remaining(g, order) && |g[v] * Remaining(g, order)| < COLORS
    ensures Eliminates(g, order + [v])
  {
    var longer := order + [v];
    forall i | 0 <= i < |longer| ensures LowAt(g, longer, i) {
      assert longer[..i] == order[..i];
      assert i < |order| ==> LowAt(g, order, i);
      assert order[..|order|] == order;
    }
  }

  lemma EliminableHasNoCore(g: Adjacency, core: set<Value>, order: seq<Value>)
    requires IsCore(g, core) && Eliminates(g, order)
    ensures Remaining(g, order) != {}
  {
    CoreRemains(g, core, order, |order|);
    assert order[..|order|] == order;
  }

  // A graph has a core iff no order eliminates it.
  lemma CoreOrElimination(g: Adjacency)
    ensures HasCore(g) <==> !Eliminable(g)
  {
    if HasCore(g) {
      var core :| IsCore(g, core);
      forall order | Eliminates(g, order) ensures Remaining(g, order) != {} {
        EliminableHasNoCore(g, core, order);
      }
    } else {
      var order := EliminationExtends(g, []);
    }
  }
}
