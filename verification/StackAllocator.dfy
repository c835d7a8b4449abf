// The stack allocator: simplify the interference graph to 16 colours, spill or recompute what cannot
// be simplified, colour the rest in reverse order of removal.

module Allocation {
  import opened Wrappers
  import opened Words
  import opened Opcodes
  import opened Cfg
  import opened Liveness
  import opened Interference
  import opened Subgraphs
  import opened Schedule
  import opened Memory
  import opened CostModel

  datatype Location =
    | StackLoc(color: byte)
    | SpilledLoc(memOffset: uint32)
    | RecomputeLoc(op: Operation)

  type Layout = map<Value, Location>

  // ---------- spill or recompute ----------

  function StackValues(a: Layout): set<Value> {
    set v | v in a && a[v].StackLoc?
  }

  function Threshold(spec: ForkSpec, s: Slots): uint32 {
    SpillCost(spec, s.free != [], Expansion(s.next / 32))
  }

  // Recomputing v costs less than spilling it to the next slot.
  ghost predicate Cheaper(spec: ForkSpec, f: Function, v: Value, stack: set<Value>, s: Slots) {
    var plain := PlainCost(spec, f, v, stack, 0);
    plain.Some? && plain.value < Threshold(spec, s)
  }

  // The operation to run again for a value, or None to spill it to the next slot.
  type Choice = (Value, Slots) -> Option<Operation>

  ghost function CheaperChoice(spec: ForkSpec, f: Function, stack: set<Value>): Choice {
    (v: Value, s: Slots) => if Cheaper(spec, f, v, stack, s) then DefiningOp(f, v) else None
  }

  // The location of a value that could not be simplified.
  function Place(choose: Choice, v: Value, s: Slots): Location {
    match choose(v, s)
    case Some(op) => RecomputeLoc(op)
    case None => SpilledLoc(Taken(s))
  }

  function AfterPlacing(choose: Choice, v: Value, s: Slots): Slots {
    if choose(v, s).Some? then s else AfterTaking(s)
  }

  // The allocator's state after the first k values of `forced` have been placed.
  function SlotsAfter(choose: Choice, s: Slots, forced: seq<Value>, k: nat): Slots
    requires k <= |forced|
  {
    if k == 0 then s else AfterPlacing(choose, forced[k - 1], SlotsAfter(choose, s, forced, k - 1))
  }

  ghost predicate PlacedAt(choose: Choice, s: Slots, forced: seq<Value>, a: Layout, i: nat)
    requires i < |forced|
  {
    forced[i] in a && a[forced[i]] == Place(choose, forced[i], SlotsAfter(choose, s, forced, i))
  }

  // Each value in `forced`, in this order, got the location its turn called for.
  ghost predicate AllPlaced(choose: Choice, s: Slots, forced: seq<Value>, a: Layout) {
    forall i :: 0 <= i < |forced| ==> PlacedAt(choose, s, forced, a, i)
  }

  lemma ThresholdRoom(spec: ForkSpec, s: Slots)
    ensures Threshold(spec, s) + MAX_GAS < 0x1_0000_0000
  {
  }

  // For every state of an allocator the price of a spill covers what the store and the load cost: their
  // static gas, and the growth of memory by one word when the slot is a fresh one. It exceeds that by at
  // most one more expansion.
  lemma ThresholdCovers(spec: ForkSpec, s: Slots)
    ensures var n := s.next / 32;
      var growth := if s.free != [] then 0 else MemoryCost(n + 1) - MemoryCost(n);
      var static_ := spec.gas(MSTORE) + spec.gas(MLOAD);
      && Threshold(spec, s) == FullSpillCost(spec, s.free != [], Expansion(n))
      && static_ + growth <= Threshold(spec, s) <= static_ + growth + Expansion(n)
  {
    ExpansionIsMarginal(s.next / 32);
  }

  // ---------- the simplification phase ----------

  // Each snapshot holds the neighbours that were left when the vertex was taken out.
  ghost predicate Snapshots(g: Adjacency, order: seq<Value>, snapshot: Adjacency) {
    forall i :: 0 <= i < |order| ==> SnapshotAt(g, order, snapshot, i)
  }

  ghost predicate SnapshotAt(g: Adjacency, order: seq<Value>, snapshot: Adjacency, i: nat)
    requires i < |order|
  {
    order[i] in g && order[i] in snapshot && snapshot[order[i]] == g[order[i]] * Remaining(g, order[..i])
  }

  // Taking a vertex out and recording its neighbours keeps the snapshots, and what is left is again the
  // subgraph of what remains.
  lemma SimplifyStep(g: Adjacency, order: seq<Value>, snapshot: Adjacency, left: Adjacency, v: Value)
    requires Symmetric(g) && Snapshots(g, order, snapshot) && left == Induced(g, Remaining(g, order)) && v in left
    ensures Snapshots(g, order + [v], snapshot[v := left[v]])
    ensures Without(left, v) == Induced(g, Remaining(g, order + [v]))
  {
    var order', snapshot' := order + [v], snapshot[v := left[v]];
    TakenOut(g, order, v);
    InducedWithout(g, Remaining(g, order), v);
    forall i | 0 <= i < |order'| ensures SnapshotAt(g, order', snapshot', i) {
      if i < |order| {
        assert SnapshotAt(g, order, snapshot, i);
        assert order'[..i] == order[..i];
      } else {
        assert order'[..i] == order;
      }
    }
  }

  // What `run` starts from, and where it stands in its first phase.
  datatype Start = Start(func: Function, graph: Adjacency, slots: Slots, choose: Choice)

  datatype Stage = Stage(order: seq<Value>, snapshot: Adjacency, left: Adjacency, forced: seq<Value>, layout: Layout,
                         slots: Slots)

  // The first phase can be in stage s.
  ghost predicate IsStage(t: Start, s: Stage) {
    && Symmetric(t.graph) && InSchedule(t.func, t.graph, s.order)
    && s.left == Induced(t.graph, Remaining(t.graph, s.order)) && Snapshots(t.graph, s.order, s.snapshot)
    && s.forced == ForcedOf(t.graph, s.order, |s.order|)
    && s.layout.Keys == Elements(s.forced) && AllPlaced(t.choose, t.slots, s.forced, s.layout)
    && s.slots == SlotsAfter(t.choose, t.slots, s.forced, |s.forced|)
  }

  function TakeOut(s: Stage, v: Value): Stage
    requires v in s.left
  {
    s.(order := s.order + [v], snapshot := s.snapshot[v := s.left[v]], left := Without(s.left, v))
  }

  function ForceOut(t: Start, s: Stage, v: Value): Stage
    requires v in s.left
  {
    TakeOut(s, v).(forced := s.forced + [v], layout := s.layout[v := Place(t.choose, v, s.slots)],
                   slots := AfterPlacing(t.choose, v, s.slots))
  }

  lemma StartsSimplifying(t: Start)
    requires Symmetric(t.graph)
    ensures forall snapshot :: IsStage(t, Stage([], snapshot, t.graph, [], map[], t.slots))
  {
    assert Remaining(t.graph, []) == t.graph.Keys;
    InducedAll(t.graph);
  }

  lemma LowStage(t: Start, s: Stage, v: Value)
    requires IsStage(t, s) && v in s.left && |s.left[v]| < COLORS
    ensures IsStage(t, TakeOut(s, v))
  {
    ScheduleNext(t.func, t.graph, s.order, v);
    ForcedNext(t.graph, s.order, v);
    SimplifyStep(t.graph, s.order, s.snapshot, s.left, v);
  }

  lemma HighStage(t: Start, s: Stage, v: Value)
    requires IsStage(t, s) && IsCheapest(t.func, s.left, v)
    ensures IsStage(t, ForceOut(t, s, v))
  {
    CheapestInduced(t.func, t.graph, Remaining(t.graph, s.order), s.left, v);
    ScheduleNext(t.func, t.graph, s.order, v);
    ForcedNext(t.graph, s.order, v);
    SimplifyStep(t.graph, s.order, s.snapshot, s.left, v);
    PlacedNext(t, s, v);
  }

  // Every degree is 16 or more, and v has the fewest uses per neighbour.
  ghost predicate IsCheapest(f: Function, left: Adjacency, v: Value) {
    && v in left && |left[v]| >= COLORS
    && forall w :: w in left ==>
      |left[w]| >= COLORS && Low32(UseCount(f, v)) / |left[v]| <= Low32(UseCount(f, w)) / |left[w]|
  }

  lemma CheapestInduced(f: Function, g: Adjacency, rest: set<Value>, left: Adjacency, v: Value)
    requires left == Induced(g, rest) && IsCheapest(f, left, v)
    ensures CheapestIn(f, g, rest, v)
  {
    forall w | w in rest && w in g
      ensures |g[w] * rest| >= COLORS
      ensures Low32(UseCount(f, v)) / |g[v] * rest| <= Low32(UseCount(f, w)) / |g[w] * rest|
    {
      assert w in left && left[w] == g[w] * rest;
    }
  }

  lemma PlacedNext(t: Start, s: Stage, v: Value)
    requires IsStage(t, s) && v in s.left
    ensures var layout := s.layout[v := Place(t.choose, v, s.slots)];
      AllPlaced(t.choose, t.slots, s.forced + [v], layout) && layout.Keys == Elements(s.forced + [v])
    ensures SlotsAfter(t.choose, t.slots, s.forced + [v], |s.forced| + 1) == AfterPlacing(t.choose, v, s.slots)
  {
    NotYetForced(t, s, v);
    PlaceStep(t.choose, t.slots, s.forced, s.layout, v, s.slots);
    SlotsStep(t.choose, t.slots, s.forced, v);
    AppendElements(s.forced, v);
  }

  lemma NotForcedYet(t: Start, s: Stage)
    requires IsStage(t, s)
    ensures s.left.Keys !! s.layout.Keys && StackValues(s.layout) == {} && Symmetric(s.left)
  {
    InducedIsSymmetric(t.graph, Remaining(t.graph, s.order));
    forall v | v in s.left ensures v !in s.layout {
      NotYetForced(t, s, v);
    }
    NoColorsYet(t, s.forced, s.layout);
  }

  lemma NotYetForced(t: Start, s: Stage, v: Value)
    requires IsStage(t, s) && v in s.left
    ensures v !in s.forced && v !in s.layout
  {
    ForcedIff(t.graph, s.order, |s.order|, v);
    assert v !in Elements(s.order);
  }

  // What is forced out never gets a colour.
  lemma NoColorsYet(t: Start, forced: seq<Value>, a: Layout)
    requires AllPlaced(t.choose, t.slots, forced, a) && a.Keys == Elements(forced)
    ensures StackValues(a) == {}
  {
    ForcedLeave(t, forced, a);
  }

  // ---------- the selection phase ----------

  // No edge of g joins two stack values of the same colour.
  ghost predicate Proper(g: Adjacency, a: Layout) {
    && (forall v :: v in a && a[v].StackLoc? ==> a[v].color < COLORS)
    && (forall v, w :: Edge(g, v, w) && v in a && w in a && a[v].StackLoc? && a[w].StackLoc? ==>
          a[v].color != a[w].color)
  }

  // The vertices from index n of `order` on have been coloured; the forced ones keep their location.
  ghost predicate Selected(order: seq<Value>, n: nat, forced: seq<Value>, placed: Layout, a: Layout)
    requires n <= |order|
  {
    && (forall v :: v in a <==> v in forced || v in order[n..])
    && (forall v :: v in forced ==> v in placed && a[v] == placed[v] && !a[v].StackLoc?)
    && (forall v :: v in a && v !in forced ==> a[v].StackLoc?)
  }

  lemma SelectForced(order: seq<Value>, n: nat, forced: seq<Value>, placed: Layout, a: Layout)
    requires 0 < n <= |order| && Selected(order, n, forced, placed, a) && order[n - 1] in forced
    ensures Selected(order, n - 1, forced, placed, a)
  {
    assert order[n - 1..] == [order[n - 1]] + order[n..];
  }

  // Every neighbour coloured before v was still there when v was taken out.
  lemma SelectStep(g0: Adjacency, order: seq<Value>, snapshot: Adjacency, n: nat, forced: seq<Value>,
                   placed: Layout, a: Layout, color: byte)
    requires Symmetric(g0) && Snapshots(g0, order, snapshot) && Distinct(order)
    requires 0 < n <= |order| && Selected(order, n, forced, placed, a) && Proper(g0, a) && color < COLORS
    requires order[n - 1] !in forced && order[n - 1] in snapshot
    requires forall w :: w in snapshot[order[n - 1]] && w in a && a[w].StackLoc? ==> a[w].color != color
    ensures Selected(order, n - 1, forced, placed, a[order[n - 1] := StackLoc(color)])
    ensures Proper(g0, a[order[n - 1] := StackLoc(color)])
  {
    var v := order[n - 1];
    assert SnapshotAt(g0, order, snapshot, n - 1);
    var a' := a[v := StackLoc(color)];
    assert order[n - 1..] == [v] + order[n..];
    forall w | Edge(g0, v, w) && w in a && a[w].StackLoc? ensures a[w].color != color {
      assert w in order[n..] && Edge(g0, w, v);
      assert w !in order[..n - 1] by {
        var j :| n <= j < |order| && order[j] == w;
      }
      assert w in g0[v] * Remaining(g0, order[..n - 1]);
    }
    forall x, y | Edge(g0, x, y) && x in a' && y in a' && a'[x].StackLoc? && a'[y].StackLoc?
      ensures a'[x].color != a'[y].color
    {
      assert x != y && Edge(g0, y, x);
    }
  }

  lemma EdgeInOneSnapshot(g0: Adjacency, order: seq<Value>, snapshot: Adjacency, v: Value, w: Value)
    requires Symmetric(g0) && Snapshots(g0, order, snapshot) && Distinct(order) && Remaining(g0, order) == {}
    requires Edge(g0, v, w)
    ensures v in snapshot && w in snapshot && (w in snapshot[v] <==> v !in snapshot[w])
  {
    assert Edge(g0, w, v);
    assert v !in Remaining(g0, order) && w !in Remaining(g0, order);
    var i :| 0 <= i < |order| && order[i] == v;
    var j :| 0 <= j < |order| && order[j] == w;
    assert SnapshotAt(g0, order, snapshot, i) && SnapshotAt(g0, order, snapshot, j);
    assert w in order[..i] <==> j < i;
    assert v in order[..j] <==> i < j;
  }

  // ---------- the stages of selection ----------

  // How far selection has come after the stage s: n vertices are still to be taken off the stack.
  ghost predicate IsSelection(t: Start, s: Stage, n: nat, a: Layout) {
    n <= |s.order| && Selected(s.order, n, s.forced, s.layout, a) && Proper(t.graph, a)
    && LeastColors(t.graph, s.order, n, a)
  }

  // Every colour below this one is held by a value in vs.
  ghost predicate AllHeld(a: Layout, vs: set<Value>, color: byte) {
    forall c: byte :: c < color ==> c in ColorsOf(a, vs)
  }

  // Every colour below that of vertex m is held by a neighbour that was taken out after it.
  ghost predicate LeastAt(g: Adjacency, order: seq<Value>, a: Layout, m: nat)
    requires m < |order|
  {
    order[m] in g && order[m] in a && a[order[m]].StackLoc? ==>
      AllHeld(a, g[order[m]] * Remaining(g, order[..m]), a[order[m]].color)
  }

  ghost predicate LeastColors(g: Adjacency, order: seq<Value>, n: nat, a: Layout)
    requires n <= |order|
  {
    forall m :: n <= m < |order| ==> LeastAt(g, order, a, m)
  }

  lemma LeastKept(g: Adjacency, order: seq<Value>, n: nat, a: Layout, color: byte)
    requires 0 < n <= |order| && LeastColors(g, order, n, a) && order[n - 1] !in a && Distinct(order)
    requires order[n - 1] in g
    requires AllHeld(a, g[order[n - 1]] * Remaining(g, order[..n - 1]), color)
    ensures LeastColors(g, order, n - 1, a[order[n - 1] := StackLoc(color)])
  {
    var v, a' := order[n - 1], a[order[n - 1] := StackLoc(color)];
    forall m | n - 1 <= m < |order| ensures LeastAt(g, order, a', m) {
      if m >= n {
        assert LeastAt(g, order, a, m) && order[m] != v;
      }
      if order[m] in g {
        ColorsGrow(a, a', g[order[m]] * Remaining(g, order[..m]));
      }
    }
  }

  lemma ColorsGrow(a: Layout, a': Layout, vs: set<Value>)
    requires forall w :: w in a ==> w in a' && a'[w] == a[w]
    ensures ColorsOf(a, vs) <= ColorsOf(a', vs)
  {
  }

  lemma FirstSelection(t: Start, s: Stage)
    requires IsStage(t, s)
    ensures IsSelection(t, s, |s.order|, s.layout)
  {
    NotForcedYet(t, s);
    SelectStart(s.order, s.forced, s.layout);
    assert forall v :: v in s.layout && s.layout[v].StackLoc? ==> v in StackValues(s.layout);
  }

  // A vertex that has a location when it comes off the stack was forced.
  lemma ForcedSelection(t: Start, s: Stage, n: nat, a: Layout)
    requires IsStage(t, s) && 0 < n <= |s.order| && IsSelection(t, s, n, a) && s.order[n - 1] in a
    ensures IsSelection(t, s, n - 1, a)
  {
    ScheduleDistinct(t.func, t.graph, s.order);
    TakenOnce(s.order, n - 1);
    SelectForced(s.order, n, s.forced, s.layout, a);
    assert LeastAt(t.graph, s.order, a, n - 1);
  }

  lemma TakenOnce(order: seq<Value>, i: nat)
    requires Distinct(order) && i < |order|
    ensures order[i] !in order[i + 1..]
  {
  }

  // Any other had fewer than 16 neighbours left when it was taken out.
  lemma FewNeighbors(t: Start, s: Stage, n: nat, a: Layout)
    requires IsStage(t, s) && 0 < n <= |s.order| && IsSelection(t, s, n, a) && s.order[n - 1] !in a
    ensures s.order[n - 1] in s.snapshot && |s.snapshot[s.order[n - 1]]| < COLORS
  {
    ForcedIff(t.graph, s.order, |s.order|, s.order[n - 1]);
    assert SnapshotAt(t.graph, s.order, s.snapshot, n - 1);
  }

  lemma ColoredSelection(t: Start, s: Stage, n: nat, a: Layout, color: byte)
    requires IsStage(t, s) && 0 < n <= |s.order| && IsSelection(t, s, n, a)
    requires s.order[n - 1] !in a && s.order[n - 1] in s.snapshot
    requires color < COLORS && color !in ColorsOf(a, s.snapshot[s.order[n - 1]])
    requires AllHeld(a, s.snapshot[s.order[n - 1]], color)
    ensures IsSelection(t, s, n - 1, a[s.order[n - 1] := StackLoc(color)])
  {
    ScheduleDistinct(t.func, t.graph, s.order);
    ClearOf(a, s.snapshot[s.order[n - 1]], color);
    assert SnapshotAt(t.graph, s.order, s.snapshot, n - 1);
    LeastKept(t.graph, s.order, n, a, color);
    SelectStep(t.graph, s.order, s.snapshot, n, s.forced, s.layout, a, color);
  }

  lemma ClearOf(a: Layout, vs: set<Value>, color: byte)
    requires color !in ColorsOf(a, vs)
    ensures forall w :: w in vs && w in a && a[w].StackLoc? ==> a[w].color != color
  {
  }

  // Colours in use among the values in `vs`.
  function ColorsOf(a: Layout, vs: set<Value>): set<byte> {
    set w | w in vs && w in a && a[w].StackLoc? :: a[w].color
  }

  lemma ColorsMore(a: Layout, vs: set<Value>, v: Value)
    ensures ColorsOf(a, vs + {v}) == ColorsOf(a, vs) + (if v in a && a[v].StackLoc? then {a[v].color} else {})
  {
  }

  // ---------- placing forced vertices ----------

  lemma {:induction false} SlotsPrefix(choose: Choice, s: Slots, forced: seq<Value>, v: Value, k: nat)
    requires k <= |forced|
    ensures SlotsAfter(choose, s, forced + [v], k) == SlotsAfter(choose, s, forced, k)
  {
    if k > 0 {
      SlotsPrefix(choose, s, forced, v, k - 1);
    }
  }

  lemma PlaceStep(choose: Choice, s: Slots, forced: seq<Value>, a: Layout, v: Value, before: Slots)
    requires AllPlaced(choose, s, forced, a) && v !in forced
    requires before == SlotsAfter(choose, s, forced, |forced|)
    ensures AllPlaced(choose, s, forced + [v], a[v := Place(choose, v, before)])
  {
    var forced', a' := forced + [v], a[v := Place(choose, v, before)];
    forall i | 0 <= i < |forced'|
      ensures PlacedAt(choose, s, forced', a', i)
    {
      SlotsPrefix(choose, s, forced, v, i);
      assert i < |forced| ==> PlacedAt(choose, s, forced, a, i) && forced[i] != v;
    }
  }

  lemma SlotsStep(choose: Choice, s: Slots, forced: seq<Value>, v: Value)
    ensures SlotsAfter(choose, s, forced + [v], |forced| + 1)
         == AfterPlacing(choose, v, SlotsAfter(choose, s, forced, |forced|))
  {
    SlotsPrefix(choose, s, forced, v, |forced|);
  }

  lemma SelectStart(order: seq<Value>, forced: seq<Value>, a: Layout)
    requires a.Keys == Elements(forced) && StackValues(a) == {}
    ensures Selected(order, |order|, forced, a, a)
  {
    assert forall v :: v in a && a[v].StackLoc? ==> v in StackValues(a);
  }

  // The values forced out when the vertices of the graph are taken out in this order.
  function ForcedBy(t: Start, order: seq<Value>): seq<Value> {
    ForcedOf(t.graph, order, |order|)
  }

  // A final layout, for one order in which the vertices can be taken out: every vertex has one location,
  // those forced out the one their turn called for, and 16 vertices or more are left for the stack;
  // neighbours on the stack have different colours, and each the least it can have.
  ghost predicate Yields(t: Start, order: seq<Value>, a: Layout) {
    && InSchedule(t.func, t.graph, order) && a.Keys == Elements(order) == t.graph.Keys
    && (ForcedBy(t, order) != [] ==> |ForcedBy(t, order)| + COLORS <= |t.graph|)
    && AllPlaced(t.choose, t.slots, ForcedBy(t, order), a)
    && (forall v :: v in a && v !in ForcedBy(t, order) ==> a[v].StackLoc?)
    && Proper(t.graph, a) && LeastColors(t.graph, order, 0, a)
  }

  ghost predicate IsOutcome(t: Start, a: Layout) {
    exists order :: Yields(t, order, a)
  }

  lemma SelectedAll(t: Start, s: Stage, a: Layout)
    requires IsStage(t, s) && Remaining(t.graph, s.order) == {} && IsSelection(t, s, 0, a)
    ensures Yields(t, s.order, a)
  {
    ScheduleDistinct(t.func, t.graph, s.order);
    AllTaken(t.graph, s.order);
    forall v | v in s.forced ensures v in s.order {
      ForcedIff(t.graph, s.order, |s.order|, v);
    }
    assert s.order[0..] == s.order;
    assert a.Keys == Elements(s.order);
    StillPlaced(t, s.forced, s.layout, a);
    ForcedBound(t.func, t.graph, s.order);
  }

  lemma AllTaken(g: Adjacency, order: seq<Value>)
    requires Remaining(g, order) == {} && Elements(order) <= g.Keys
    ensures Elements(order) == g.Keys
  {
    assert forall v :: v in g && v !in Elements(order) ==> v in Remaining(g, order);
  }

  lemma OutcomeKeys(t: Start, a: Layout)
    requires IsOutcome(t, a)
    ensures a.Keys == t.graph.Keys && Proper(t.graph, a)
  {
  }

  // What leaves the stack is what was forced out, and that is decided by the cores of the graph.
  lemma OutcomeForced(t: Start, order: seq<Value>, a: Layout)
    requires Yields(t, order, a)
    ensures Distinct(order) && Distinct(ForcedBy(t, order))
    ensures forall v :: v in ForcedBy(t, order) <==> v in a && !a[v].StackLoc?
    ensures ForcedBy(t, order) != [] <==> HasCore(t.graph)
  {
    ScheduleDistinct(t.func, t.graph, order);
    ForcedDistinct(t.graph, order, |order|);
    CoreDecides(t.func, t.graph, order);
    ForcedLeave(t, ForcedBy(t, order), a);
  }

  lemma ForcedLeave(t: Start, forced: seq<Value>, a: Layout)
    requires AllPlaced(t.choose, t.slots, forced, a)
    ensures forall v :: v in forced ==> v in a && !a[v].StackLoc?
  {
    forall v | v in forced ensures v in a && !a[v].StackLoc? {
      var i :| 0 <= i < |forced| && forced[i] == v;
      assert PlacedAt(t.choose, t.slots, forced, a, i);
    }
  }

  // The order decides everything: two layouts it yields are the same.
  lemma OrderDetermines(t: Start, order: seq<Value>, a: Layout, b: Layout)
    requires Symmetric(t.graph) && Yields(t, order, a) && Yields(t, order, b)
    ensures a == b
  {
    forall v | v in a ensures a[v] == b[v] {
      var m :| 0 <= m < |order| && order[m] == v;
      SameFrom(t, order, a, b, 0);
      assert SameAt(order, a, b, m);
    }
  }

  ghost predicate SameAt(order: seq<Value>, a: Layout, b: Layout, m: nat)
    requires m < |order|
  {
    order[m] in a && order[m] in b && a[order[m]] == b[order[m]]
  }

  lemma {:induction false} SameFrom(t: Start, order: seq<Value>, a: Layout, b: Layout, n: nat)
    requires Symmetric(t.graph) && Yields(t, order, a) && Yields(t, order, b) && n <= |order|
    ensures forall k :: n <= k < |order| ==> SameAt(order, a, b, k)
    decreases |order| - n
  {
    if n < |order| {
      SameFrom(t, order, a, b, n + 1);
      if order[n] in ForcedBy(t, order) {
        SameForced(t, ForcedBy(t, order), order, a, b, n);
      } else {
        SameColor(t.graph, order, a, b, n);
      }
    }
  }

  lemma SameForced(t: Start, forced: seq<Value>, order: seq<Value>, a: Layout, b: Layout, m: nat)
    requires AllPlaced(t.choose, t.slots, forced, a) && AllPlaced(t.choose, t.slots, forced, b)
    requires m < |order| && order[m] in forced
    ensures SameAt(order, a, b, m)
  {
    var i :| 0 <= i < |forced| && forced[i] == order[m];
    assert PlacedAt(t.choose, t.slots, forced, a, i);
    assert PlacedAt(t.choose, t.slots, forced, b, i);
  }

  lemma SameColor(g: Adjacency, order: seq<Value>, a: Layout, b: Layout, m: nat)
    requires Symmetric(g) && a.Keys == b.Keys == Elements(order) == g.Keys && m < |order|
    requires Proper(g, a) && LeastColors(g, order, 0, a) && Proper(g, b) && LeastColors(g, order, 0, b)
    requires order[m] in a && a[order[m]].StackLoc? && order[m] in b && b[order[m]].StackLoc?
    requires forall k :: m < k < |order| ==> SameAt(order, a, b, k)
    ensures SameAt(order, a, b, m)
  {
    NotBelow(g, order, a, b, m);
    forall k | m < k < |order| ensures SameAt(order, b, a, k) {
      assert SameAt(order, a, b, k);
    }
    NotBelow(g, order, b, a, m);
  }

  lemma NotBelow(g: Adjacency, order: seq<Value>, a: Layout, b: Layout, m: nat)
    requires Symmetric(g) && a.Keys == b.Keys == Elements(order) == g.Keys && m < |order|
    requires Proper(g, a) && LeastColors(g, order, 0, b)
    requires order[m] in a && a[order[m]].StackLoc? && order[m] in b && b[order[m]].StackLoc?
    requires forall k :: m < k < |order| ==> SameAt(order, a, b, k)
    ensures a[order[m]].color >= b[order[m]].color
  {
    if a[order[m]].color < b[order[m]].color {
      var w := HeldLater(g, order, a, b, m, a[order[m]].color);
    }
  }

  // A colour smaller than that of vertex m in b is held by a later neighbour in b, and so in a.
  lemma HeldLater(g: Adjacency, order: seq<Value>, a: Layout, b: Layout, m: nat, c: byte) returns (w: Value)
    requires Symmetric(g) && a.Keys == b.Keys == Elements(order) == g.Keys && m < |order|
    requires LeastColors(g, order, 0, b)
    requires order[m] in b && b[order[m]].StackLoc? && c < b[order[m]].color
    requires forall k :: m < k < |order| ==> SameAt(order, a, b, k)
    ensures Edge(g, order[m], w) && w in a && a[w] == StackLoc(c)
  {
    assert LeastAt(g, order, b, m);
    assert c in ColorsOf(b, g[order[m]] * Remaining(g, order[..m]));
    w :| w in g[order[m]] * Remaining(g, order[..m]) && w in b && b[w].StackLoc? && b[w].color == c;
    assert Edge(g, order[m], w);
    var k := Later(order, m, w);
    assert SameAt(order, a, b, k);
  }

  lemma Later(order: seq<Value>, m: nat, w: Value) returns (k: nat)
    requires m < |order| && w in order && w !in order[..m] && w != order[m]
    ensures m < k < |order| && order[k] == w
  {
    assert order == order[..m] + order[m..];
    var j :| 0 <= j < |order[m..]| && order[m..][j] == w;
    k := m + j;
  }

  lemma GraphDecides(t: Start, a: Layout)
    requires IsOutcome(t, a)
    ensures (exists v :: v in a && !a[v].StackLoc?) <==> HasCore(t.graph)
    ensures |StackValues(a)| >= if |t.graph| < COLORS then |t.graph| else COLORS
  {
    var order :| Yields(t, order, a);
    var forced := ForcedBy(t, order);
    OutcomeForced(t, order, a);
    EnoughStay(a, forced, t.graph);
    if forced != [] {
      assert forced[0] in a && !a[forced[0]].StackLoc?;
    }
  }

  lemma EnoughStay(a: Layout, forced: seq<Value>, g: Adjacency)
    requires a.Keys == g.Keys && Distinct(forced) && forall v :: v in forced <==> v in a && !a[v].StackLoc?
    requires forced != [] ==> |forced| + COLORS <= |g|
    ensures |StackValues(a)| >= if |g| < COLORS then |g| else COLORS
  {
    ElementsSize(forced);
    assert a.Keys == StackValues(a) + Elements(forced);
    assert |a.Keys| == |g| by {
      assert |g.Keys| == |g|;
    }
  }

  lemma StillPlaced(t: Start, forced: seq<Value>, placed: Layout, a: Layout)
    requires AllPlaced(t.choose, t.slots, forced, placed)
    requires forall v :: v in forced ==> v in a && v in placed && a[v] == placed[v]
    ensures AllPlaced(t.choose, t.slots, forced, a)
  {
    forall i | 0 <= i < |forced| ensures PlacedAt(t.choose, t.slots, forced, a, i) {
      assert PlacedAt(t.choose, t.slots, forced, placed, i);
    }
  }

  // ---------- the allocator ----------

  class StackAllocator {
    const graph: InterferenceGraph
    const memAllocator: MemoryAllocator
    const costModel: EVMCostModel
    var simplificationStack: seq<Value>
    var neighborSnapshot: Adjacency
    var assignment: Layout

    // The memory allocator is copied.
    constructor (graph: InterferenceGraph, mem: MemoryAllocator, spec: ForkSpec)
      ensures this.graph == graph && costModel.spec == spec
      ensures fresh(memAllocator) && memAllocator.State() == mem.State()
      ensures simplificationStack == [] && neighborSnapshot == map[] && assignment == map[]
    {
      this.graph := graph;
      memAllocator := new MemoryAllocator.Copy(mem);
      costModel := new EVMCostModel(spec);
      simplificationStack, neighborSnapshot, assignment := [], map[], map[];
    }

    ghost function Func(): Function
    {
      graph.livenessInfo.func
    }

    // The first vertex of low degree, in whatever order the vertices come.
    method PickLowDegree() returns (toRemove: Option<Value>)
      ensures toRemove.Some? ==> toRemove.value in graph.adjacency && |graph.adjacency[toRemove.value]| < COLORS
      ensures toRemove.None? ==> forall v :: v in graph.adjacency ==> |graph.adjacency[v]| >= COLORS
    {
      var todo := graph.GetValues();
      while todo != {}
        invariant todo <= graph.adjacency.Keys
        invariant forall v :: v in graph.adjacency && v !in todo ==> |graph.adjacency[v]| >= COLORS
        decreases |todo|
      {
        var value :| value in todo;
        var neighbors := graph.Neighbors(value);
        if |neighbors.value| < 16 {
          return Some(value);
        }
        todo := todo - {value};
      }
      toRemove := None;
    }

    // Uses per neighbour, rounded down.
    ghost function SpillCostOf(v: Value): nat
      reads graph
      requires v in graph.adjacency && graph.adjacency[v] != {}
    {
      Low32(UseCount(Func(), v)) / |graph.adjacency[v]|
    }

    method ComputeSpillCost(v: Value) returns (cost: uint32)
      requires graph.livenessInfo.Valid() && v in graph.adjacency && graph.adjacency[v] != {}
      ensures cost == SpillCostOf(v)
    {
      var uses := graph.UseCountOf(v);
      var neighbors := graph.Neighbors(v);
      QuotientFits(uses, |neighbors.value|);
      cost := uses / |neighbors.value|;
    }

    // The unassigned vertex with the least spill cost. While all degrees are 16 or more, there is none
    // only if every vertex is assigned.
    method LowerSpillCost() returns (lowest: Option<Value>)
      requires graph.livenessInfo.Valid() && forall v :: v in graph.adjacency ==> graph.adjacency[v] != {}
      ensures lowest.Some? ==> lowest.value in graph.adjacency && lowest.value !in assignment
      ensures lowest.Some? ==>
        forall v :: v in graph.adjacency && v !in assignment ==> SpillCostOf(lowest.value) <= SpillCostOf(v)
      ensures lowest.None? && (forall v :: v in graph.adjacency ==> |graph.adjacency[v]| >= COLORS) ==>
        graph.adjacency.Keys <= assignment.Keys
    {
      var lowestCost: uint32 := 0xFFFF_FFFF;
      lowest := None;
      var todo := graph.GetValues();
      while todo != {}
        invariant todo <= graph.adjacency.Keys
        invariant lowest.Some? ==> lowest.value in graph.adjacency && lowest.value !in assignment
        invariant lowest.Some? ==> lowestCost == SpillCostOf(lowest.value)
        invariant lowest.None? ==> lowestCost == 0xFFFF_FFFF
        invariant forall v :: v in graph.adjacency && v !in assignment && v !in todo ==> lowestCost <= SpillCostOf(v)
        decreases |todo|
      {
        var value :| value in todo;
        todo := todo - {value};
        if value !in assignment {
          var cost := ComputeSpillCost(value);
          if cost < lowestCost {
            lowestCost, lowest := cost, Some(value);
          }
        }
      }
      if lowest.None? {
        forall v | v in graph.adjacency && v !in assignment ensures |graph.adjacency[v]| < COLORS {
          if |graph.adjacency[v]| >= COLORS {
            SmallQuotient(Low32(UseCount(Func(), v)), |graph.adjacency[v]|);
          }
        }
      }
    }

    // Decide between recomputing and spilling a vertex of high degree.
    method PlaceValue(v: Value)
      requires v !in assignment
      modifies this`assignment, memAllocator
      ensures var choose := CheaperChoice(costModel.spec, Func(), StackValues(old(assignment)));
        var slots := old(memAllocator.State());
        && assignment == old(assignment)[v := Place(choose, v, slots)]
        && memAllocator.State() == AfterPlacing(choose, v, slots)
    {
      var currentStack := StackValues(assignment);
      var isWarm := memAllocator.HasFreeSlots();
      var expandCost := memAllocator.ExpansionCost();
      ThresholdRoom(costModel.spec, memAllocator.State());
      var recomputed := costModel.RecomputeCost(graph.livenessInfo.func, v, currentStack, isWarm, expandCost);
      var spillCost := costModel.SpillMemoryCost(isWarm, expandCost);
      if recomputed.Some? && recomputed.value < spillCost {
        var op := DefiningOp(graph.livenessInfo.func, v);
        assignment := assignment[v := RecomputeLoc(op.value)];
      } else {
        var offset := memAllocator.Allocate();
        assignment := assignment[v := SpilledLoc(offset)];
      }
    }

    ghost function Started(): Start
      reads this, graph, memAllocator
    {
      Start(Func(), graph.adjacency, memAllocator.State(), CheaperChoice(costModel.spec, Func(), {}))
    }

    ghost function Now(forced: seq<Value>): Stage
      reads this, graph, memAllocator
    {
      Stage(simplificationStack, neighborSnapshot, graph.adjacency, forced, assignment, memAllocator.State())
    }

    // First phase: take every vertex out of the graph.
    method Simplify() returns (ghost forced: seq<Value>)
      requires graph.livenessInfo.Valid() && Symmetric(graph.adjacency)
      requires simplificationStack == [] && assignment == map[]
      modifies this, graph, memAllocator
      ensures graph.adjacency == map[] && IsStage(old(Started()), Now(forced))
    {
      forced := [];
      StartsSimplifying(Started());
      while graph.adjacency != map[]
        invariant graph.livenessInfo.Valid() && IsStage(old(Started()), Now(forced))
        decreases |graph.adjacency|
      {
        forced := SimplifyOne(old(Started()), forced);
      }
    }

    method SimplifyOne(ghost t: Start, ghost forced0: seq<Value>) returns (ghost forced: seq<Value>)
      requires graph.livenessInfo.Valid() && t.choose == CheaperChoice(costModel.spec, Func(), {})
      requires t.func == Func()
      requires IsStage(t, Now(forced0)) && graph.adjacency != map[]
      modifies this, graph, memAllocator
      ensures graph.livenessInfo.Valid() && IsStage(t, Now(forced))
      ensures |graph.adjacency| < |old(graph.adjacency)|
    {
      ghost var s := Now(forced0);
      var low := PickLowDegree();
      if low.Some? {
        forced := forced0;
        LowStage(t, s, low.value);
        NotForcedYet(t, s);
        Remove(low.value);
      } else {
        forced := ForceOne(t, forced0);
      }
    }

    method ForceOne(ghost t: Start, ghost forced0: seq<Value>) returns (ghost forced: seq<Value>)
      requires graph.livenessInfo.Valid() && t.choose == CheaperChoice(costModel.spec, Func(), {})
      requires t.func == Func()
      requires IsStage(t, Now(forced0)) && graph.adjacency != map[]
      requires forall v :: v in graph.adjacency ==> |graph.adjacency[v]| >= COLORS
      modifies this, graph, memAllocator
      ensures IsStage(t, Now(forced)) && |graph.adjacency| < |old(graph.adjacency)|
    {
      ghost var s := Now(forced0);
      NotForcedYet(t, s);
      var toRemove := Force();
      forced := forced0 + [toRemove];
      HighStage(t, s, toRemove);
      Remove(toRemove);
      assert Now(forced) == ForceOut(t, s, toRemove);
    }

    // No vertex is of low degree: take the cheapest one to spill and decide where its value goes.
    method Force() returns (toRemove: Value)
      requires graph.livenessInfo.Valid() && graph.adjacency != map[] && graph.adjacency.Keys !! assignment.Keys
      requires StackValues(assignment) == {}
      requires forall v :: v in graph.adjacency ==> |graph.adjacency[v]| >= COLORS
      modifies this`assignment, memAllocator
      ensures IsCheapest(Func(), graph.adjacency, toRemove)
      ensures var choose, slots := CheaperChoice(costModel.spec, Func(), {}), old(memAllocator.State());
        && assignment == old(assignment)[toRemove := Place(choose, toRemove, slots)]
        && memAllocator.State() == AfterPlacing(choose, toRemove, slots)
    {
      var lowest := LowerSpillCost();
      toRemove := lowest.value;
      PlaceValue(toRemove);
    }

    // Second phase: colour what comes off the stack. Freed words are only pushed on the free list.
    method Select(ghost t: Start, ghost s: Stage)
      requires IsStage(t, s)
      requires simplificationStack == s.order && neighborSnapshot == s.snapshot && assignment == s.layout
      modifies this`simplificationStack, this`assignment, memAllocator
      ensures simplificationStack == [] && IsSelection(t, s, 0, assignment)
      ensures memAllocator.nextOffset == old(memAllocator.nextOffset)
    {
      FirstSelection(t, s);
      assert s.order[..|s.order|] == s.order;
      while simplificationStack != []
        invariant |simplificationStack| <= |s.order| && simplificationStack == s.order[..|simplificationStack|]
        invariant IsSelection(t, s, |simplificationStack|, assignment)
        invariant memAllocator.nextOffset == old(memAllocator.nextOffset)
        decreases |simplificationStack|
      {
        SelectOne(t, s);
      }
    }

    method SelectOne(ghost t: Start, ghost s: Stage)
      requires IsStage(t, s)
      requires 0 < |simplificationStack| <= |s.order| && simplificationStack == s.order[..|simplificationStack|]
      requires neighborSnapshot == s.snapshot && IsSelection(t, s, |simplificationStack|, assignment)
      modifies this`simplificationStack, this`assignment, memAllocator
      ensures |simplificationStack| == |old(simplificationStack)| - 1
      ensures simplificationStack == s.order[..|simplificationStack|]
      ensures IsSelection(t, s, |simplificationStack|, assignment)
      ensures memAllocator.nextOffset == old(memAllocator.nextOffset)
    {
      var n := |simplificationStack|;
      var value := simplificationStack[n - 1];
      simplificationStack := simplificationStack[..n - 1];
      Settle(t, s, n, value);
    }

    // Unless it has a location, give the vertex just popped the least colour its neighbours leave.
    method Settle(ghost t: Start, ghost s: Stage, ghost n: nat, value: Value)
      requires IsStage(t, s) && neighborSnapshot == s.snapshot
      requires 0 < n <= |s.order| && value == s.order[n - 1]
      requires IsSelection(t, s, n, assignment)
      modifies this`assignment, memAllocator
      ensures IsSelection(t, s, n - 1, assignment)
      ensures memAllocator.nextOffset == old(memAllocator.nextOffset)
    {
      if value in assignment {
        ForcedSelection(t, s, n, assignment);
        return;
      }
      FewNeighbors(t, s, n, assignment);
      var assignedColor := ChooseColor(neighborSnapshot[value]);
      ColoredSelection(t, s, n, assignment, assignedColor);
      assignment := assignment[value := StackLoc(assignedColor)];
    }

    // The least colour no neighbour has.
    method ChooseColor(neighbors: set<Value>) returns (color: byte)
      requires |neighbors| < COLORS
      modifies memAllocator
      ensures color < COLORS && color !in ColorsOf(assignment, neighbors)
      ensures AllHeld(assignment, neighbors, color)
      ensures memAllocator.nextOffset == old(memAllocator.nextOffset)
    {
      var usedColors := UsedColors(neighbors);
      FreeDead();
      color := LeastUnused(usedColors);
    }

    method UsedColors(neighbors: set<Value>) returns (usedColors: set<byte>)
      ensures usedColors == ColorsOf(assignment, neighbors) && |usedColors| <= |neighbors|
    {
      usedColors := {};
      var todo := neighbors;
      ghost var done: set<Value> := {};
      while todo != {}
        invariant done + todo == neighbors && done * todo == {}
        invariant usedColors == ColorsOf(assignment, done) && |usedColors| <= |done|
        decreases |todo|
      {
        var neighbor :| neighbor in todo;
        todo := todo - {neighbor};
        ColorsMore(assignment, done, neighbor);
        done := done + {neighbor};
        if neighbor in assignment && assignment[neighbor].StackLoc? {
          usedColors := usedColors + {assignment[neighbor].color};
        }
      }
      assert done == neighbors;
    }

    // Which spilled values are dead by now is liveness information; any answer will do.
    method FreeDead()
      modifies memAllocator
      ensures memAllocator.nextOffset == old(memAllocator.nextOffset)
    {
      var todo := assignment.Keys;
      while todo != {}
        invariant todo <= assignment.Keys
        invariant memAllocator.nextOffset == old(memAllocator.nextOffset)
        decreases |todo|
      {
        var spilledValue :| spilledValue in todo;
        todo := todo - {spilledValue};
        if assignment[spilledValue].SpilledLoc? {
          var isDead: bool := *;
          if isDead {
            memAllocator.Free(assignment[spilledValue].memOffset);
          }
        }
      }
    }

    static method LeastUnused(usedColors: set<byte>) returns (color: byte)
      requires |usedColors| < COLORS
      ensures color !in usedColors && color <= |usedColors| && forall c: byte :: c < color ==> c in usedColors
    {
      color := 0;
      while color in usedColors
        invariant color <= |usedColors|
        invariant forall c: byte :: c < color ==> c in usedColors
        decreases |usedColors| - color
      {
        BelowSize(usedColors, color + 1);
        color := color + 1;
      }
    }

    method Run() returns (layout: Layout, ghost order: seq<Value>)
      requires graph.livenessInfo.Valid() && Symmetric(graph.adjacency)
      requires simplificationStack == [] && assignment == map[]
      modifies this, graph, memAllocator
      ensures graph.adjacency == map[] && simplificationStack == []
      ensures layout == assignment && Yields(old(Started()), order, layout)
      // some value leaves the stack iff the graph has a core, and as many as fit always stay
      ensures (exists v :: v in layout && !layout[v].StackLoc?) <==> HasCore(old(graph.adjacency))
      ensures |StackValues(layout)| >= if |old(graph.adjacency)| < COLORS then |old(graph.adjacency)| else COLORS
      ensures EdgesOnce(old(graph.adjacency), neighborSnapshot)
      ensures memAllocator.nextOffset
           == SlotsAfter(old(Started()).choose, old(memAllocator.State()), ForcedBy(old(Started()), order),
                         |ForcedBy(old(Started()), order)|).next
    {
      ghost var t := Started();
      ghost var forced := Simplify();
      ghost var s := Now(forced);
      Select(t, s);
      layout, order := assignment, s.order;
      AllSelected(t, s, layout);
      GraphDecides(t, layout);
    }

    // Record the neighbours that are left and take the vertex out.
    method Remove(v: Value)
      requires Symmetric(graph.adjacency) && v in graph.adjacency
      modifies this`simplificationStack, this`neighborSnapshot, graph
      ensures neighborSnapshot == old(neighborSnapshot)[v := old(graph.adjacency)[v]]
      ensures simplificationStack == old(simplificationStack) + [v]
      ensures graph.adjacency == Without(old(graph.adjacency), v) && Symmetric(graph.adjacency)
      ensures |graph.adjacency| < |old(graph.adjacency)|
    {
      var neighbors := graph.Neighbors(v);
      neighborSnapshot := neighborSnapshot[v := neighbors.value];
      simplificationStack := simplificationStack + [v];
      WithoutShrinks(graph.adjacency, v);
      graph.RemoveNode(v);
    }
  }

  // A set that holds all numbers below n has at least n members.
  lemma {:induction false} BelowSize(s: set<byte>, n: nat)
    requires forall c: byte :: c < n ==> c in s
    requires n <= 256
    ensures n <= |s|
  {
    if n > 0 {
      var c: byte := n - 1;
      BelowSize(s - {c}, n - 1);
    }
  }

  // Each edge is in exactly one snapshot, that of the endpoint taken out first.
  ghost predicate EdgesOnce(g: Adjacency, snapshot: Adjacency) {
    forall v, w :: Edge(g, v, w) ==> v in snapshot && w in snapshot && (w in snapshot[v] <==> v !in snapshot[w])
  }

  lemma AllSelected(t: Start, s: Stage, a: Layout)
    requires IsStage(t, s) && s.left == map[] && IsSelection(t, s, 0, a)
    ensures Yields(t, s.order, a) && EdgesOnce(t.graph, s.snapshot)
  {
    ScheduleDistinct(t.func, t.graph, s.order);
    assert Remaining(t.graph, s.order) == {} by {
      assert forall v :: v in Remaining(t.graph, s.order) ==> v in s.left;
    }
    SelectedAll(t, s, a);
    forall v, w | Edge(t.graph, v, w)
      ensures v in s.snapshot && w in s.snapshot && (w in s.snapshot[v] <==> v !in s.snapshot[w])
    {
      EdgeInOneSnapshot(t.graph, s.order, s.snapshot, v, w);
    }
  }

  lemma WithoutShrinks(g: Adjacency, v: Value)
    requires v in g
    ensures |Without(g, v)| < |g|
  {
    assert Without(g, v).Keys == g.Keys - {v};
    assert |Without(g, v).Keys| == |Without(g, v)| && |g.Keys| == |g|;
  }

  lemma InducedAll(g: Adjacency)
    requires Symmetric(g)
    ensures Induced(g, g.Keys) == g
  {
    forall v | v in g ensures g[v] * g.Keys == g[v] {
      assert forall w :: w in g[v] ==> Edge(g, v, w) && Edge(g, w, v);
    }
  }

  lemma QuotientFits(a: uint32, b: nat)
    requires b >= 1
    ensures a / b <= a
  {
    QuotientBelow(a / b, a % b, a, b);
  }

  lemma QuotientBelow(q: nat, r: nat, a: nat, b: nat)
    requires a == q * b + r && b >= 1
    ensures q <= a
  {
    assert q * b == q + q * (b - 1);
  }

  lemma SmallQuotient(a: uint32, b: nat)
    requires b >= 16
    ensures a / b < 0xFFFF_FFFF
  {
    assert (a / b) * b <= a;
    assert (a / b) * 16 <= (a / b) * b;
  }
}
