// Liveness, interference, colouring and spill memory together: values that are live at the same point
// of any path never share a place.

module AllocationSoundness {
  import opened Wrappers
  import opened Words
  import opened Cfg
  import opened Liveness
  import opened Interference
  import opened Memory
  import opened CostModel
  import opened Execution
  import opened Subgraphs
  import opened Schedule
  import opened Allocation
  import opened SpillMemory
  import opened Storage

  ghost predicate LiveOnPath(f: Function, lv: LiveSets, path: seq<nat>, k: nat, v: Value)
    requires Shaped(f, lv)
  {
    && IsPath(f, path) && k <= |f[path[|path| - 1]].ops|
    && v in LiveAt(f, lv, path[|path| - 1], k)
  }

  // Both values have a place, and not the same colour or an overlapping word.
  ghost predicate Apart(a: Layout, v: Value, w: Value) {
    && v in a && w in a
    && (a[v].StackLoc? && a[w].StackLoc? ==> a[v].color != a[w].color)
    && (a[v].SpilledLoc? && a[w].SpilledLoc? ==> Disjoint(a[v].memOffset, a[w].memOffset))
  }

  // Wherever a path from the entry leads, distinct values live there are apart.
  ghost predicate Sound(f: Function, lv: LiveSets, a: Layout)
    requires Shaped(f, lv)
  {
    forall path, k, v, w :: LiveOnPath(f, lv, path, k, v) && LiveOnPath(f, lv, path, k, w) && v != w ==> Apart(a, v, w)
  }

  lemma LiveTogetherApart(f: Function, lv: LiveSets, t: Start, a: Layout, path: seq<nat>, k: nat, v: Value, w: Value)
    requires Dataflow(f, lv) && NoEarlyUse(f) && IsInterference(f, lv, t.graph)
    requires IsOutcome(t, a) && WordsDisjoint(a)
    requires LiveOnPath(f, lv, path, k, v) && LiveOnPath(f, lv, path, k, w) && v != w
    ensures Apart(a, v, w)
  {
    LiveTogetherInterfere(f, lv, path, k, v, w);
    assert Edge(t.graph, v, w) && Edge(t.graph, w, v);
  }

  // End to end: an outcome of the allocator, started on the interference graph with fresh memory, is
  // sound as long as 32-bit offsets can tell the spilled words apart.
  lemma OutcomeIsSound(f: Function, lv: LiveSets, t: Start, a: Layout)
    requires Dataflow(f, lv) && NoEarlyUse(f) && IsInterference(f, lv, t.graph)
    requires IsOutcome(t, a) && t.slots == FRESH && |SpilledValues(a)| <= 0x800_0000
    ensures Sound(f, lv, a)
  {
    OutcomeWords(t, a);
    forall path, k, v, w | LiveOnPath(f, lv, path, k, v) && LiveOnPath(f, lv, path, k, w) && v != w
      ensures Apart(a, v, w)
    {
      LiveTogetherApart(f, lv, t, a, path, k, v, w);
    }
  }

  lemma {:induction false} FewColors(a: Layout, vs: set<Value>, n: nat)
    requires forall v :: v in vs ==> v in a && a[v].StackLoc? && a[v].color < n
    requires forall v, w :: v in vs && w in vs && v != w ==> a[v].color != a[w].color
    ensures |vs| <= n
  {
    if v :| v in vs && a[v].color == n - 1 {
      FewColors(a, vs - {v}, n - 1);
    } else if n > 0 {
      FewColors(a, vs, n - 1);
    }
  }

  // At most 16 of the values live at a point are on the stack.
  lemma StackFits(f: Function, lv: LiveSets, t: Start, a: Layout, path: seq<nat>, k: nat, vs: set<Value>)
    requires Dataflow(f, lv) && NoEarlyUse(f) && IsInterference(f, lv, t.graph) && IsOutcome(t, a)
    requires forall v :: v in vs ==> LiveOnPath(f, lv, path, k, v) && v in a && a[v].StackLoc?
    ensures |vs| <= COLORS
  {
    forall v, w | v in vs && w in vs && v != w ensures a[v].color != a[w].color {
      LiveTogetherInterfere(f, lv, path, k, v, w);
      assert Edge(t.graph, v, w);
    }
    FewColors(a, vs, COLORS);
  }

  // Two values that are both needed after a point some path leads to have places of their own.
  lemma NeededApart(f: Function, lv: LiveSets, a: Layout, path: seq<nat>, k: nat, v: Value, w: Value,
                    afterV: seq<nat>, afterW: seq<nat>)
    requires Dataflow(f, lv) && NoEarlyUse(f) && Sound(f, lv, a)
    requires IsPath(f, path) && k <= |f[path[|path| - 1]].ops| && v != w
    requires Needed(f, afterV, k, v) && afterV[0] == path[|path| - 1]
    requires Needed(f, afterW, k, w) && afterW[0] == path[|path| - 1]
    ensures Apart(a, v, w)
  {
    NeededIsLive(f, lv, afterV, k, v);
    NeededIsLive(f, lv, afterW, k, w);
    assert LiveOnPath(f, lv, path, k, v) && LiveOnPath(f, lv, path, k, w);
  }

  // Values live in front of operation k of block b that have a colour.
  function OnStack(f: Function, lv: LiveSets, a: Layout, b: nat, k: nat): set<Value>
    requires Shaped(f, lv) && b < |f| && k <= |f[b].ops|
  {
    set v | v in LiveAt(f, lv, b, k) && v in a && a[v].StackLoc?
  }

  ghost predicate Arrives(f: Function, path: seq<nat>, b: nat, k: nat) {
    IsPath(f, path) && path[|path| - 1] == b && k <= |f[b].ops|
  }

  // Wherever a path from the entry leads, at most 16 live values are on the stack.
  ghost predicate FitsStack(f: Function, lv: LiveSets, a: Layout)
    requires Shaped(f, lv)
  {
    forall path, b, k :: Arrives(f, path, b, k) ==> |OnStack(f, lv, a, b, k)| <= COLORS
  }

  lemma OutcomeFits(f: Function, lv: LiveSets, t: Start, a: Layout)
    requires Dataflow(f, lv) && NoEarlyUse(f) && IsInterference(f, lv, t.graph) && IsOutcome(t, a)
    ensures FitsStack(f, lv, a)
  {
    forall path, b, k | Arrives(f, path, b, k) ensures |OnStack(f, lv, a, b, k)| <= COLORS {
      StackFits(f, lv, t, a, path, k, OnStack(f, lv, a, b, k));
    }
  }

  // What is recomputed is the value that was computed: at every point of every run that knows a value
  // with this location, evaluating its tree again gives that value.
  lemma RecomputedIsStable(spec: ForkSpec, f: Function, t: Start, a: Layout, v: Value, meaning: Meaning,
                           run: seq<Point>, i: nat)
    requires t.choose == CheaperChoice(spec, f, {}) && IsOutcome(t, a)
    requires v in a && a[v].RecomputeLoc?
    requires SingleAssignment(f) && IsRun(f, meaning, run) && i < |run| && v in run[i].val
    ensures PureTree(f, v, MAX_DEPTH) && run[i].val[v] == TreeValue(f, meaning, v, MAX_DEPTH)
  {
    RecomputedIsTree(spec, f, t, a, v);
    RunKeepsTrees(f, meaning, run, i);
  }

  // Evaluating, loading or reading the register, as the location of v says, gives x.
  ghost predicate Available(f: Function, meaning: Meaning, a: Layout, st: Store, v: Value, x: Word)
    requires v in a
  {
    match a[v]
    case StackLoc(c) => st.colors(c) == x
    case SpilledLoc(offset) => WordOf(Machine.Window(st.mem, offset, 32)) == x
    case RecomputeLoc(op) => PureTree(f, v, MAX_DEPTH) && TreeValue(f, meaning, v, MAX_DEPTH) == x
  }

  // At every point of every run, each live value can be had from its location.
  lemma LiveIsAvailable(spec: ForkSpec, f: Function, lv: LiveSets, t: Start, a: Layout, meaning: Meaning,
                        run: seq<Point>, init: Store, i: nat, v: Value)
    requires Dataflow(f, lv) && NoEarlyUse(f) && SingleAssignment(f) && IsRun(f, meaning, run) && i < |run|
    requires IsInterference(f, lv, t.graph) && IsOutcome(t, a) && WordsDisjoint(a)
    requires t.choose == CheaperChoice(spec, f, {})
    requires AllSeparate(f, lv, a)
    ensures run[i].block < |f| && run[i].k <= |f[run[i].block].ops|
    ensures v in LiveAt(f, lv, run[i].block, run[i].k) && v in a ==>
      v in run[i].val && Available(f, meaning, a, StoreAt(f, a, init, run, i), v, run[i].val[v])
  {
    OutcomeClear(f, lv, t, a);
    RunKeeps(f, lv, a, meaning, run, init, i);
    if v in LiveAt(f, lv, run[i].block, run[i].k) && v in a {
      match a[v]
      case StackLoc(_) =>
      case SpilledLoc(_) => WordBytes(run[i].val[v]);
      case RecomputeLoc(_) => RecomputedIsStable(spec, f, t, a, v, meaning, run, i);
    }
  }

  // Every value of f that interferes with another has a place, and no other has.
  ghost predicate PlacesInterfering(f: Function, lv: LiveSets, a: Layout)
    requires Shaped(f, lv)
  {
    forall v :: v in a <==> exists w :: Interferes(f, lv, v, w)
  }

  // What is recomputed is a pure tree of bounded depth.
  ghost predicate RecomputesTrees(f: Function, a: Layout) {
    forall v :: v in a && a[v].RecomputeLoc? ==> DefiningOp(f, v) == Some(a[v].op) && ShallowTree(f, v)
  }

  lemma OutcomeIsCorrect(f: Function, lv: LiveSets, spec: ForkSpec, t: Start, a: Layout)
    requires Shaped(f, lv) && IsInterference(f, lv, t.graph)
    requires forall v :: v in t.graph <==> exists w :: Interferes(f, lv, v, w)
    requires IsOutcome(t, a) && t.slots == FRESH && t.choose == CheaperChoice(spec, f, {})
    ensures PlacesInterfering(f, lv, a) && RecomputesTrees(f, a)
    ensures Dataflow(f, lv) && NoEarlyUse(f) ==> FitsStack(f, lv, a)
    ensures Dataflow(f, lv) && NoEarlyUse(f) && |SpilledValues(a)| <= 0x800_0000 ==>
      Sound(f, lv, a) && (AllSeparate(f, lv, a) ==> KeepsStorage(f, lv, a))
  {
    OutcomeKeys(t, a);
    if Dataflow(f, lv) && NoEarlyUse(f) {
      OutcomeFits(f, lv, t, a);
      if |SpilledValues(a)| <= 0x800_0000 {
        OutcomeIsSound(f, lv, t, a);
        OutcomeStores(f, lv, t, a);
      }
    }
    forall v | v in a && a[v].RecomputeLoc? ensures DefiningOp(f, v) == Some(a[v].op) && ShallowTree(f, v) {
      RecomputedIsTree(spec, f, t, a, v);
    }
  }

  lemma OutcomeStores(f: Function, lv: LiveSets, t: Start, a: Layout)
    requires Dataflow(f, lv) && NoEarlyUse(f) && IsInterference(f, lv, t.graph)
    requires IsOutcome(t, a) && t.slots == FRESH && |SpilledValues(a)| <= 0x800_0000
    ensures AllSeparate(f, lv, a) ==> KeepsStorage(f, lv, a)
  {
    OutcomeWords(t, a);
    if AllSeparate(f, lv, a) {
      OutcomeKeepsStorage(f, lv, t, a);
    }
  }

  lemma OutcomeSpills(t: Start, a: Layout)
    requires IsOutcome(t, a) && t.slots == FRESH
    ensures |SpilledValues(a)| <= 0x800_0000 ==>
      Offsets(a) == set k | 0 <= k < |SpilledValues(a)| :: 32 * k
    ensures |t.graph| <= 0x800_0000 + COLORS ==> |SpilledValues(a)| <= 0x800_0000
  {
    OutcomeWords(t, a);
    if |t.graph| <= 0x800_0000 + COLORS {
      SmallGraphDisjoint(t, a);
    }
  }

  // A result and an operand of the same operation have places of their own, also when the operand dies
  // there or the result is never used.
  ghost predicate OperandsApart(f: Function, a: Layout) {
    forall b, k, v, w ::
      0 <= b < |f| && 0 <= k < |f[b].ops| && v in f[b].ops[k].results && w in f[b].ops[k].operands && v != w ==>
        Apart(a, v, w)
  }

  lemma OutcomeOperandsApart(f: Function, lv: LiveSets, t: Start, a: Layout)
    requires Shaped(f, lv) && IsInterference(f, lv, t.graph) && IsOutcome(t, a) && WordsDisjoint(a)
    ensures OperandsApart(f, a)
  {
    forall b, k, v, w | 0 <= b < |f| && 0 <= k < |f[b].ops| && v in f[b].ops[k].results
                        && w in f[b].ops[k].operands && v != w
      ensures Apart(a, v, w)
    {
      OperandsAdjacent(f, lv, t.graph, b, k, v, w);
      NeighborsApart(t, a, v, w);
    }
  }

  lemma NeighborsApart(t: Start, a: Layout, v: Value, w: Value)
    requires IsOutcome(t, a) && WordsDisjoint(a) && Edge(t.graph, v, w) && Edge(t.graph, w, v) && v != w
    ensures Apart(a, v, w)
  {
    OutcomeKeys(t, a);
  }

  // The layout is the one this order of the vertices calls for: each vertex was taken out when it had
  // fewer than 16 neighbours left, or else when it had the fewest uses per neighbour of all that were left;
  // the latter are spilled or recomputed, whichever is cheaper in their turn, and all others have the least
  // colour that no neighbour has that was taken out after them.
  ghost predicate FollowsOrder(spec: ForkSpec, f: Function, g: Adjacency, order: seq<Value>, a: Layout) {
    var forced := ForcedOf(g, order, |order|);
    && Distinct(order) && Elements(order) == g.Keys && InSchedule(f, g, order)
    && (forall v :: v in forced <==> v in a && !a[v].StackLoc?)
    && (forall i :: 0 <= i < |forced| ==> DecidedAt(spec, f, forced, a, i))
    && Proper(g, a) && LeastColors(g, order, 0, a)
  }

  lemma OutcomeFollows(spec: ForkSpec, t: Start, order: seq<Value>, a: Layout)
    requires Yields(t, order, a) && t.slots == FRESH && t.choose == CheaperChoice(spec, t.func, {})
    ensures FollowsOrder(spec, t.func, t.graph, order, a)
  {
    OutcomeForced(t, order, a);
    forall i | 0 <= i < |ForcedBy(t, order)| ensures DecidedAt(spec, t.func, ForcedBy(t, order), a, i) {
      Decision(spec, t.func, t, order, a, i);
    }
  }

  // From a function to its layout; g is the interference graph the allocator started from, and `order` the
  // order in which it took the vertices out.
  method AllocateFunction(f: Function, lv: LiveSets, spec: ForkSpec)
    returns (layout: Layout, ghost g: Adjacency, ghost order: seq<Value>)
    requires Shaped(f, lv)
    ensures FollowsOrder(spec, f, g, order, layout)
    ensures |SpilledValues(layout)| <= 0x800_0000 ==> OperandsApart(f, layout)
    ensures IsInterference(f, lv, g) && PlacesInterfering(f, lv, layout) && RecomputesTrees(f, layout)
    // some value leaves the stack iff the graph has a core, and as many as fit always stay
    ensures (exists v :: v in layout && !layout[v].StackLoc?) <==> HasCore(g)
    ensures |StackValues(layout)| >= if |g| < COLORS then |g| else COLORS
    // spilled values fill memory from 0, a word each
    ensures |g| <= 0x800_0000 + COLORS ==> |SpilledValues(layout)| <= 0x800_0000
    ensures |SpilledValues(layout)| <= 0x800_0000 ==>
      Offsets(layout) == set k | 0 <= k < |SpilledValues(layout)| :: 32 * k
    // what is live together is apart, and what is live is still in its place
    ensures Dataflow(f, lv) && NoEarlyUse(f) ==> FitsStack(f, lv, layout)
    ensures Dataflow(f, lv) && NoEarlyUse(f) && |SpilledValues(layout)| <= 0x800_0000 ==>
      Sound(f, lv, layout) && (AllSeparate(f, lv, layout) ==> KeepsStorage(f, lv, layout))
  {
    ghost var t;
    layout, t, order := RunOn(f, lv, spec);
    g := t.graph;
    OutcomeFollows(spec, t, order, layout);
    OutcomeIsCorrect(f, lv, spec, t, layout);
    OutcomeSpills(t, layout);
    GraphDecides(t, layout);
    if |SpilledValues(layout)| <= 0x800_0000 {
      OutcomeWords(t, layout);
      OutcomeOperandsApart(f, lv, t, layout);
    }
  }

  method RunOn(f: Function, lv: LiveSets, spec: ForkSpec)
    returns (layout: Layout, ghost t: Start, ghost order: seq<Value>)
    requires Shaped(f, lv)
    ensures IsInterference(f, lv, t.graph) && forall v :: v in t.graph <==> exists w :: Interferes(f, lv, v, w)
    ensures t.slots == FRESH && t.choose == CheaperChoice(spec, f, {})
    ensures Yields(t, order, layout) && t.func == f
  {
    var info := new LivenessInfo(f, lv);
    var graph := new InterferenceGraph(info);
    var mem := new MemoryAllocator();
    var allocator := new StackAllocator(graph, mem, spec);
    t := allocator.Started();
    InterferenceIsSymmetric(f, lv, graph.adjacency);
    layout, order := allocator.Run();
  }
}
