// Functions at which the allocator meets its limits: an argument that overwrites another, a value
// without a location, and spill words that overlap.

module Limits {
  import opened Wrappers
  import opened Words
  import opened Cfg
  import opened Liveness
  import opened Interference
  import opened Memory
  import opened CostModel
  import opened Execution
  import opened Subgraphs
  import opened Schedule
  import opened Allocation
  import opened SpillMemory
  import opened Storage
  import opened AllocationSoundness

  // A function of one block, which has these arguments and uses some of them in one operation.
  function Simple(args: seq<Value>, used: seq<Value>): Function {
    [Block(args, [Operation(used, [], None, false)], [])]
  }

  const NOTHING_LIVE: LiveSets := LiveSets([{}], [{}])

  lemma SimpleDataflow(f: Function, args: seq<Value>, used: seq<Value>)
    requires f == Simple(args, used) && forall v :: v in used ==> v in args
    ensures Dataflow(f, NOTHING_LIVE) && NoEarlyUse(f)
    ensures LiveAt(f, NOTHING_LIVE, 0, 1) == {} && LiveAt(f, NOTHING_LIVE, 0, 0) == Elements(used)
    ensures forall v :: DefiningOp(f, v) == None
  {
    assert Uses(f[0], 1) == Uses(f[0], 0) + Elements(used);
    assert Results(f[0], 1) == Results(f[0], 0);
    assert LiveAt(f, NOTHING_LIVE, 0, 0) == Elements(used) - {};
  }

  // Which arguments interfere: one that is used, with one that is used or stands in front of it.
  lemma SimpleInterferes(f: Function, args: seq<Value>, used: seq<Value>, v: Value, w: Value)
    requires f == Simple(args, used) && forall v :: v in used ==> v in args
    ensures Interferes(f, NOTHING_LIVE, v, w) <==>
      v != w && (SimpleMeets(args, used, v, w) || SimpleMeets(args, used, w, v))
  {
    SimpleDataflow(f, args, used);
    forall v, w ensures DefinedOver(f, NOTHING_LIVE, v, w) <==> SimpleMeets(args, used, v, w) {
      if i :| 0 <= i < |args| && args[i] == v && w in used && w !in args[..i] {
        assert MeetsAtArg(f, NOTHING_LIVE, 0, i, v, w);
      }
    }
  }

  ghost predicate SimpleMeets(args: seq<Value>, used: seq<Value>, v: Value, w: Value) {
    exists i :: 0 <= i < |args| && args[i] == v && w in used && w !in args[..i]
  }

  function Numbers(n: nat): (s: seq<Value>)
    ensures |s| == n && (forall i :: 0 <= i < n ==> s[i] == i) && forall v: Value :: v in s <==> v < n
  {
    if n == 0 then [] else Numbers(n - 1) + [n - 1]
  }

  // With arguments 0 to n - 1, the later of two that interfere is used.
  lemma NumbersInterfere(f: Function, n: nat, used: seq<Value>, v: Value, w: Value)
    requires f == Simple(Numbers(n), used) && forall v :: v in used ==> v < n
    ensures Interferes(f, NOTHING_LIVE, v, w) <==>
      v != w && v < n && w < n && if v < w then w in used else v in used
  {
    SimpleInterferes(f, Numbers(n), used, v, w);
    NumbersMeet(n, used, v, w);
    NumbersMeet(n, used, w, v);
  }

  lemma NumbersMeet(n: nat, used: seq<Value>, v: Value, w: Value)
    requires forall v :: v in used ==> v < n
    ensures SimpleMeets(Numbers(n), used, v, w) <==> v < n && v <= w && w in used
  {
    var args := Numbers(n);
    if v < n {
      NumbersInFront(n, v, w);
      assert args[v] == v;
    }
  }

  lemma NumbersInFront(n: nat, k: nat, w: Value)
    requires k <= n
    ensures w in Numbers(n)[..k] <==> w < k
  {
    assert w < k ==> Numbers(n)[..k][w] == w;
  }

  lemma NumbersBehind(n: nat, k: nat)
    requires k <= n
    ensures forall v: Value :: v in Numbers(n)[k..] <==> k <= v < n
  {
    forall v: Value | k <= v < n ensures v in Numbers(n)[k..] {
      assert Numbers(n)[k..][v - k] == v;
    }
  }

  // ---------- an argument that overwrites another ----------

  // Seventeen arguments, of which only the second is not used.
  const MANY := 17

  function AllButSecond(): (used: seq<Value>)
    ensures forall v: Value :: v in used <==> v < MANY && v != 1
  {
    NumbersBehind(MANY, 2);
    [0] + Numbers(MANY)[2..]
  }

  function UnusedSecond(): Function {
    Simple(Numbers(MANY), AllButSecond())
  }

  lemma UnusedSecondEdges(f: Function, g: Adjacency, v: Value, w: Value)
    requires f == UnusedSecond() && IsInterference(f, NOTHING_LIVE, g)
    ensures Edge(g, v, w) <==> v != w && v < MANY && w < MANY && !(v <= 1 && w <= 1)
  {
    NumbersInterfere(f, MANY, AllButSecond(), v, w);
  }

  lemma NumbersBelow(s: set<Value>, n: nat)
    requires forall v :: v in s ==> v < n
    ensures |s| <= n && (|s| == n ==> forall v: Value :: v < n ==> v in s)
  {
    var all := Elements(Numbers(n));
    RangeSize(all, n);
    SubsetSize(s, all);
    forall v: Value | v < n && v !in s ensures |s| < n {
      SubsetSize(s, all - {v});
    }
  }

  lemma {:induction false} RangeSize(all: set<Value>, n: nat)
    requires forall v: Value :: v in all <==> v < n
    ensures |all| == n
  {
    if n > 0 {
      RangeSize(all - {n - 1}, n - 1);
    } else {
      assert all == {};
    }
  }

  // Values 0 and 1 have only 15 neighbours, so no core has 17 vertices.
  lemma UnusedSecondCoreless(f: Function, g: Adjacency)
    requires f == UnusedSecond() && IsInterference(f, NOTHING_LIVE, g)
    ensures !HasCore(g)
  {
    InterferenceIsSymmetric(f, NOTHING_LIVE, g);
    forall core: set<Value> ensures !IsCore(g, core) {
      if IsCore(g, core) {
        var v :| v in core;
        CoreIsLarge(g, core, v);
        forall u | u in core ensures u < MANY {
          var w :| w in g[u] * core;
          UnusedSecondEdges(f, g, u, w);
        }
        NumbersBelow(core, MANY);
        FewNeighborsOfZero(f, g, core);
      }
    }
  }

  lemma FewNeighborsOfZero(f: Function, g: Adjacency, core: set<Value>)
    requires f == UnusedSecond() && IsInterference(f, NOTHING_LIVE, g) && 0 in g
    ensures |g[0] * core| < COLORS
  {
    var near := g[0];
    forall w | w in near ensures w < MANY && w > 1 {
      UnusedSecondEdges(f, g, 0, w);
    }
    assert near + {0, 1} == near + {0} + {1};
    NumbersBelow(near + {0, 1}, MANY);
    SubsetSize(near * core, near);
  }

  // Fifteen other arguments take fifteen colours, and 0 and 1 must share the one that is left.
  lemma SecondShares(f: Function, t: Start, a: Layout)
    requires f == UnusedSecond() && IsInterference(f, NOTHING_LIVE, t.graph) && IsOutcome(t, a)
    ensures 0 in a && 1 in a && a[0].StackLoc? && a[1] == a[0]
  {
    AllOnStack(f, t, a);
    forall v: Value, w: Value | v < MANY && w < MANY && v != w && !(v <= 1 && w <= 1)
      ensures a[v].color != a[w].color
    {
      OthersDiffer(f, t, a, v, w);
    }
    MustShare(a);
  }

  lemma OthersDiffer(f: Function, t: Start, a: Layout, v: Value, w: Value)
    requires f == UnusedSecond() && IsInterference(f, NOTHING_LIVE, t.graph) && Proper(t.graph, a)
    requires v < MANY && w < MANY && v != w && !(v <= 1 && w <= 1)
    requires v in a && w in a && a[v].StackLoc? && a[w].StackLoc?
    ensures a[v].color != a[w].color
  {
    UnusedSecondEdges(f, t.graph, v, w);
  }

  lemma AllOnStack(f: Function, t: Start, a: Layout)
    requires f == UnusedSecond() && IsInterference(f, NOTHING_LIVE, t.graph) && IsOutcome(t, a)
    ensures forall v: Value :: v < MANY ==> v in a && a[v].StackLoc? && a[v].color < COLORS
  {
    UnusedSecondCoreless(f, t.graph);
    GraphDecides(t, a);
    forall v: Value | v < MANY ensures v in a && a[v].StackLoc? {
      UnusedSecondEdges(f, t.graph, v, if v == 2 then 3 else 2);
    }
  }

  lemma MustShare(a: Layout)
    requires forall v: Value :: v < MANY ==> v in a && a[v].StackLoc? && a[v].color < COLORS
    requires forall v: Value, w: Value :: v < MANY && w < MANY && v != w && !(v <= 1 && w <= 1) ==>
      a[v].color != a[w].color
    ensures a[0].color == a[1].color
  {
    if a[0].color != a[1].color {
      var all := Elements(Numbers(MANY));
      RangeSize(all, MANY);
      FewColors(a, all, COLORS);
    }
  }

  // Whatever the allocator does, the first argument is overwritten when the function is entered.
  lemma ArgumentOverwritten(f: Function, t: Start, a: Layout, meaning: Meaning, init: Store) returns (run: seq<Point>)
    requires f == UnusedSecond() && IsInterference(f, NOTHING_LIVE, t.graph) && IsOutcome(t, a)
    ensures Dataflow(f, NOTHING_LIVE) && NoEarlyUse(f) && 0 in LiveAt(f, NOTHING_LIVE, 0, 0)
    ensures IsRun(f, meaning, run) && !Kept(f, NOTHING_LIVE, a, StoreAt(f, a, init, run, 0), run[0])
  {
    SimpleDataflow(f, Numbers(MANY), AllButSecond());
    SecondShares(f, t, a);
    run := SharedOverwrites(f, Numbers(MANY), a, meaning, init);
  }

  // The first two arguments share a colour, and the second one is written last.
  lemma SharedOverwrites(f: Function, args: seq<Value>, a: Layout, meaning: Meaning, init: Store)
    returns (run: seq<Point>)
    requires |f| == 1 && f[0].args == args && |args| >= 2 && forall i :: 0 <= i < |args| ==> args[i] == i
    requires 0 in a && 1 in a && a[0].StackLoc? && a[1] == a[0] && 0 in LiveAt(f, NOTHING_LIVE, 0, 0)
    ensures IsRun(f, meaning, run) && !Kept(f, NOTHING_LIVE, a, StoreAt(f, a, init, run, 0), run[0])
  {
    var val: Valuation := map v | v in Elements(args) :: if v == 0 then 0 else 1;
    assert args[0] == 0 && args[1] == 1;
    run := [Point(0, 0, val)];
    LastWins(a, init, args, val, a[0].color, 1, |args|);
  }

  // ---------- a value that is used often ----------

  // n arguments, all used by one operation, and the first one by another, 32 times.
  function Often(n: nat): Function {
    [Block(Numbers(n), [Operation(Numbers(n), [], None, false), Operation(Repeated(32), [], None, false)], [])]
  }

  function Repeated(m: nat): (s: seq<Value>)
    ensures |s| == m && forall i :: 0 <= i < m ==> s[i] == 0
  {
    seq(m, _ => 0)
  }

  lemma OftenUses(f: Function, n: nat, v: Value)
    requires f == Often(n) && v < n
    ensures UseCount(f, v) == if v == 0 then 33 else 1
  {
    AllZeros(Repeated(32), v);
    NumbersOnce(n, v);
    UsesOfTwo(f, v);
  }

  lemma UsesOfTwo(f: Function, v: Value)
    requires |f| == 1 && |f[0].ops| == 2
    ensures UseCount(f, v) == Occurrences(f[0].ops[0].operands, v) + Occurrences(f[0].ops[1].operands, v)
  {
    assert UsesUpTo(f, v, 0, 2) == UsesUpTo(f, v, 0, 1) + Occurrences(f[0].ops[1].operands, v);
    assert UsesUpTo(f, v, 0, 1) == UsesUpTo(f, v, 0, 0) + Occurrences(f[0].ops[0].operands, v);
    assert UseCount(f, v) == UsesUpTo(f, v, 0, 2);
  }

  lemma {:induction false} AllZeros(s: seq<Value>, v: Value)
    requires forall i :: 0 <= i < |s| ==> s[i] == 0
    ensures Occurrences(s, v) == if v == 0 then |s| else 0
  {
    if s != [] {
      AllZeros(s[..|s| - 1], v);
      assert s == s[..|s| - 1] + [0];
    }
  }

  lemma {:induction false} NumbersOnce(n: nat, v: Value)
    ensures Occurrences(Numbers(n), v) == if v < n then 1 else 0
  {
    if n > 0 {
      NumbersOnce(n - 1, v);
      OneMoreOccurrence(Numbers(n - 1), n - 1, v);
    }
  }

  lemma OneMoreOccurrence(s: seq<Value>, last: Value, v: Value)
    ensures Occurrences(s + [last], v) == Occurrences(s, v) + if last == v then 1 else 0
  {
  }

  lemma OftenDataflow(f: Function, n: nat)
    requires f == Often(n) && n > 0
    ensures Dataflow(f, NOTHING_LIVE) && NoEarlyUse(f)
    ensures LiveAt(f, NOTHING_LIVE, 0, 0) == Elements(Numbers(n))
  {
    var all, again := Numbers(n), Repeated(32);
    assert LiveAt(f, NOTHING_LIVE, 0, 2) == {};
    assert LiveAt(f, NOTHING_LIVE, 0, 1) == Elements(again);
    assert LiveAt(f, NOTHING_LIVE, 0, 0) == Elements(again) + Elements(all);
    assert Uses(f[0], 1) == Uses(f[0], 0) + Elements(all);
    assert Uses(f[0], 2) == Uses(f[0], 1) + Elements(again);
    assert Results(f[0], 1) == Results(f[0], 0) && Results(f[0], 2) == Results(f[0], 1);
  }

  lemma OftenEdges(f: Function, n: nat, g: Adjacency, v: Value, w: Value)
    requires f == Often(n) && IsInterference(f, NOTHING_LIVE, g)
    ensures Edge(g, v, w) <==> v != w && v < n && w < n
  {
    EdgesExact(f, NOTHING_LIVE, g, v, w);
    if n > 0 {
      OftenDataflow(f, n);
      OftenNear(f, n, v, w);
      OftenNear(f, n, w, v);
    }
  }

  lemma OftenNear(f: Function, n: nat, x: Value, y: Value)
    requires f == Often(n) && LiveAt(f, NOTHING_LIVE, 0, 0) == Elements(Numbers(n))
    ensures DefinedNear(f, NOTHING_LIVE, x, y) <==> x < n && y < n && x <= y
  {
    if x < n {
      NumbersInFront(n, x, y);
      assert f[0].args[x] == x;
    }
  }

  lemma OftenNeighbors(f: Function, n: nat, g: Adjacency, v: Value)
    requires f == Often(n) && IsInterference(f, NOTHING_LIVE, g) && v in g && v < n
    ensures g[v] == Elements(Numbers(n)) - {v} && |g[v]| == n - 1
  {
    forall w ensures w in g[v] <==> w in Elements(Numbers(n)) - {v} {
      OftenEdges(f, n, g, v, w);
    }
    RangeSize(Elements(Numbers(n)), n);
  }

  // Another vertex was taken out before, so the first argument has too few neighbours left.
  lemma OftenLow(g: Adjacency, order: seq<Value>, m: nat)
    requires 0 < m < |order| && order[m] in g && order[0] in g[order[m]] && |g[order[m]]| <= COLORS
    ensures !HighAt(g, order, m)
  {
    var rest := Remaining(g, order[..m]);
    assert order[..m][0] == order[0];
    SubsetSize(g[order[m]] * rest, g[order[m]] - {order[0]});
  }

  // A vertex that is used more per neighbour than another one is not taken first when all degrees are high.
  lemma NotTakenFirst(f: Function, g: Adjacency, order: seq<Value>, v: Value, w: Value)
    requires InSchedule(f, g, order) && order != [] && v in g && w in g
    requires |g[v] * g.Keys| == COLORS && |g[w] * g.Keys| == COLORS
    requires Low32(UseCount(f, w)) / COLORS < Low32(UseCount(f, v)) / COLORS
    ensures order[0] != v
  {
    assert Remaining(g, order[..0]) == g.Keys && TakenAt(f, g, order, 0);
  }

  lemma OftenWhole(f: Function, n: nat, g: Adjacency, v: Value, rest: set<Value>)
    requires f == Often(n) && IsInterference(f, NOTHING_LIVE, g) && v < n
    requires rest == g.Keys && forall v: Value :: v in g <==> v < n
    ensures |g[v] * rest| == n - 1
  {
    OftenNeighbors(f, n, g, v);
    forall w | w in g[v] ensures w in rest {
      OftenEdges(f, n, g, v, w);
    }
    assert g[v] * rest == g[v];
  }

  // Whatever the order, the first argument is not the one that leaves the stack.
  lemma OftenUsedStays(f: Function, t: Start, a: Layout)
    requires f == Often(MANY) && t.func == f && IsInterference(f, NOTHING_LIVE, t.graph)
    requires forall v :: v in t.graph <==> exists w :: Interferes(f, NOTHING_LIVE, v, w)
    requires IsOutcome(t, a)
    ensures 0 in a && a[0].StackLoc?
  {
    OftenVertices(f, MANY, t.graph);
    var order :| Yields(t, order, a);
    OftenStays(f, t, order, a, MANY);
  }

  lemma OftenVertices(f: Function, n: nat, g: Adjacency)
    requires f == Often(n) && n >= 2 && IsInterference(f, NOTHING_LIVE, g)
    requires forall v :: v in g <==> exists w :: Interferes(f, NOTHING_LIVE, v, w)
    ensures forall v: Value :: v in g <==> v < n
  {
    forall v: Value ensures v in g <==> v < n {
      OftenEdges(f, n, g, v, if v == 0 then 1 else 0);
      if w :| Interferes(f, NOTHING_LIVE, v, w) {
        OftenEdges(f, n, g, v, w);
      }
    }
  }

  lemma OftenStays(f: Function, t: Start, order: seq<Value>, a: Layout, n: nat)
    requires f == Often(n) && COLORS < n < COLORS + 2 && t.func == f && IsInterference(f, NOTHING_LIVE, t.graph)
    requires Yields(t, order, a) && forall v: Value :: v in t.graph <==> v < n
    ensures 0 in a && a[0].StackLoc?
  {
    assert 0 in Elements(order);
    OftenNotForced(f, t.graph, order, n);
  }

  lemma OftenNotFirst(f: Function, g: Adjacency, order: seq<Value>, n: nat)
    requires f == Often(n) && COLORS < n < COLORS + 2 && IsInterference(f, NOTHING_LIVE, g) && InSchedule(f, g, order)
    requires order != [] && forall v: Value :: v in g <==> v < n
    ensures order[0] != 0
  {
    OftenWhole(f, n, g, 0, g.Keys);
    OftenWhole(f, n, g, 1, g.Keys);
    OftenUses(f, n, 0);
    OftenUses(f, n, 1);
    NotTakenFirst(f, g, order, 0, 1);
  }

  lemma OftenNotForced(f: Function, g: Adjacency, order: seq<Value>, n: nat)
    requires f == Often(n) && COLORS < n < COLORS + 2 && IsInterference(f, NOTHING_LIVE, g) && InSchedule(f, g, order)
    requires forall v: Value :: v in g <==> v < n
    ensures 0 !in ForcedOf(g, order, |order|)
  {
    ForcedIff(g, order, |order|, 0);
    if m :| 0 <= m < |order| && order[m] == 0 && HighAt(g, order, m) {
      OftenNotFirst(f, g, order, n);
      OftenNeighbors(f, n, g, 0);
      assert TakenAt(f, g, order, 0);
      OftenLow(g, order, m);
    }
  }

  // ---------- a value without a location ----------

  // The only argument, which is used, gets no location.
  lemma UsedWithoutLocation(f: Function, a: Layout)
    requires f == Simple([0], [0]) && PlacesInterfering(f, NOTHING_LIVE, a)
    ensures Dataflow(f, NOTHING_LIVE) && NoEarlyUse(f) && 0 in LiveAt(f, NOTHING_LIVE, 0, 0) && 0 !in a
  {
    SimpleDataflow(f, [0], [0]);
    forall w ensures !Interferes(f, NOTHING_LIVE, 0, w) {
      SimpleInterferes(f, [0], [0], 0, w);
    }
  }

  // ---------- a result that is never used ----------

  // Value 0 is computed and used twice by the operation that computes 1; nobody uses 1.
  function DeadResult(): Function {
    [Block([], [Operation([], [0], None, false), Operation([0, 0], [1], None, false)], [])]
  }

  // Both have places, which differ.
  lemma DeadResultPlaced(f: Function, t: Start, a: Layout)
    requires f == DeadResult() && IsInterference(f, NOTHING_LIVE, t.graph) && IsOutcome(t, a) && WordsDisjoint(a)
    ensures Apart(a, 0, 1)
  {
    assert 1 in f[0].ops[1].results && 0 in f[0].ops[1].operands;
    OperandsAdjacent(f, NOTHING_LIVE, t.graph, 0, 1, 1, 0);
    NeighborsApart(t, a, 0, 1);
  }

  // ---------- spill words that overlap ----------

  // n arguments, all used by one operation.
  function Wide(n: nat): Function {
    Simple(Numbers(n), Numbers(n))
  }

  lemma WideEdges(f: Function, n: nat, g: Adjacency, v: Value, w: Value)
    requires f == Wide(n) && IsInterference(f, NOTHING_LIVE, g)
    ensures Edge(g, v, w) <==> v != w && v < n && w < n
  {
    NumbersInterfere(f, n, Numbers(n), v, w);
  }

  lemma WideVertices(f: Function, n: nat, t: Start)
    requires f == Wide(n) && n >= 2 && IsInterference(f, NOTHING_LIVE, t.graph)
    requires forall v :: v in t.graph <==> exists w :: Interferes(f, NOTHING_LIVE, v, w)
    ensures |t.graph| == n && forall v: Value :: v in t.graph <==> v < n
  {
    forall v: Value ensures v in t.graph <==> v < n {
      NumbersInterfere(f, n, Numbers(n), v, if v == 0 then 1 else 0);
      if w :| Interferes(f, NOTHING_LIVE, v, w) {
        NumbersInterfere(f, n, Numbers(n), v, w);
      }
    }
    RangeSize(t.graph.Keys, n);
  }

  // All interfere, so no more than 16 stay on the stack, and none can be recomputed.
  lemma WideSpills(spec: ForkSpec, f: Function, n: nat, t: Start, a: Layout)
    requires f == Wide(n) && n >= 2 && IsInterference(f, NOTHING_LIVE, t.graph)
    requires forall v :: v in t.graph <==> exists w :: Interferes(f, NOTHING_LIVE, v, w)
    requires IsOutcome(t, a) && t.choose == CheaperChoice(spec, f, {})
    ensures |SpilledValues(a)| >= n - COLORS
  {
    WideVertices(f, n, t);
    FewOnStack(f, n, t, a);
    NoneRecomputed(spec, f, n, t, a);
    AllCounted(a, t.graph);
  }

  lemma AllCounted(a: Layout, g: Adjacency)
    requires a.Keys == g.Keys && forall v :: v in a ==> !a[v].RecomputeLoc?
    ensures |StackValues(a)| + |SpilledValues(a)| >= |g|
  {
    assert a.Keys == StackValues(a) + SpilledValues(a);
    assert |g.Keys| == |g|;
  }

  lemma FewOnStack(f: Function, n: nat, t: Start, a: Layout)
    requires f == Wide(n) && IsInterference(f, NOTHING_LIVE, t.graph) && IsOutcome(t, a)
    requires forall v: Value :: v in t.graph <==> v < n
    ensures |StackValues(a)| <= COLORS
  {
    var stack := StackValues(a);
    forall v, w | v in stack && w in stack && v != w ensures a[v].color != a[w].color {
      WideEdges(f, n, t.graph, v, w);
    }
    FewColors(a, stack, COLORS);
  }

  lemma NoneRecomputed(spec: ForkSpec, f: Function, n: nat, t: Start, a: Layout)
    requires f == Wide(n) && IsOutcome(t, a) && t.choose == CheaperChoice(spec, f, {})
    ensures forall v :: v in a ==> !a[v].RecomputeLoc?
  {
    SimpleDataflow(f, Numbers(n), Numbers(n));
    forall v | v in a && a[v].RecomputeLoc? ensures false {
      RecomputedIsTree(spec, f, t, a, v);
    }
  }

  // The bound on the size of a graph is tight: such a function's spill words are disjoint iff it has at
  // most 2^27 + 16 arguments.
  lemma WideOverlapsIff(spec: ForkSpec, f: Function, n: nat, t: Start, a: Layout)
    requires f == Wide(n) && n >= 2 && IsInterference(f, NOTHING_LIVE, t.graph)
    requires forall v :: v in t.graph <==> exists w :: Interferes(f, NOTHING_LIVE, v, w)
    requires IsOutcome(t, a) && t.slots == FRESH && t.choose == CheaperChoice(spec, f, {})
    ensures WordsDisjoint(a) <==> n <= 0x800_0000 + COLORS
  {
    WideVertices(f, n, t);
    WideSpills(spec, f, n, t, a);
    OutcomeWords(t, a);
    if n <= 0x800_0000 + COLORS {
      SmallGraphDisjoint(t, a);
    }
  }
}
