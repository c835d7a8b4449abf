// Where the allocator puts what it spills, and what it chooses to recompute.

module SpillMemory {
  import opened Wrappers
  import opened Words
  import opened Opcodes
  import opened Cfg
  import opened Memory
  import opened CostModel
  import opened Subgraphs
  import opened Allocation

  // The values without a colour are those in `forced`, each placed in its turn.
  ghost predicate InOrder(t: Start, forced: seq<Value>, a: Layout) {
    && Distinct(forced)
    && (forall v :: v in forced <==> v in a && !a[v].StackLoc?)
    && AllPlaced(t.choose, t.slots, forced, a)
  }

  // How many of the first k values of `forced` were spilled.
  function Spills(t: Start, forced: seq<Value>, k: nat): nat
    requires k <= |forced|
  {
    if k == 0 then 0 else Spills(t, forced, k - 1) + if Spilled(t, forced, k - 1) then 1 else 0
  }

  // Forced value i is spilled.
  predicate Spilled(t: Start, forced: seq<Value>, i: nat)
    requires i < |forced|
  {
    t.choose(forced[i], SlotsAfter(t.choose, t.slots, forced, i)).None?
  }

  // Only spills draw on the allocator.
  lemma {:induction false} SlotsAreSpills(t: Start, forced: seq<Value>, i: nat)
    requires i <= |forced|
    ensures SlotsAfter(t.choose, t.slots, forced, i) == AfterMany(t.slots, Spills(t, forced, i))
  {
    if i > 0 {
      SlotsAreSpills(t, forced, i - 1);
    }
  }

  lemma {:induction false} SpillsGrow(t: Start, forced: seq<Value>, i: nat, j: nat)
    requires i <= j <= |forced|
    ensures Spills(t, forced, i) <= Spills(t, forced, j)
    ensures i < j && Spilled(t, forced, i) ==> Spills(t, forced, i) < Spills(t, forced, j)
    decreases j
  {
    if i < j {
      SpillsGrow(t, forced, i, j - 1);
    }
  }

  lemma SpilledOffset(t: Start, forced: seq<Value>, a: Layout, i: nat)
    requires AllPlaced(t.choose, t.slots, forced, a) && i < |forced|
    ensures forced[i] in a && (a[forced[i]].SpilledLoc? <==> Spilled(t, forced, i))
    ensures a[forced[i]].SpilledLoc? ==> a[forced[i]].memOffset == Slot(t.slots, Spills(t, forced, i))
  {
    assert PlacedAt(t.choose, t.slots, forced, a, i);
    SlotsAreSpills(t, forced, i);
  }

  // Every slot below the number of spills went to some value.
  lemma {:induction false} SlotTaken(t: Start, forced: seq<Value>, n: nat, slot: nat) returns (i: nat)
    requires n <= |forced| && slot < Spills(t, forced, n)
    ensures i < n && Spilled(t, forced, i) && Spills(t, forced, i) == slot
  {
    if slot < Spills(t, forced, n - 1) {
      i := SlotTaken(t, forced, n - 1, slot);
    } else {
      i := n - 1;
    }
  }

  function SpilledAmong(a: Layout, vs: set<Value>): set<Value> {
    set v | v in vs && v in a && a[v].SpilledLoc?
  }

  function SpilledValues(a: Layout): set<Value> {
    SpilledAmong(a, a.Keys)
  }

  lemma {:induction false} SpillsCounted(t: Start, forced: seq<Value>, a: Layout, i: nat)
    requires AllPlaced(t.choose, t.slots, forced, a) && Distinct(forced) && i <= |forced|
    ensures |SpilledAmong(a, Elements(forced[..i]))| == Spills(t, forced, i)
  {
    if i > 0 {
      var v := forced[i - 1];
      SpillsCounted(t, forced, a, i - 1);
      SpilledOffset(t, forced, a, i - 1);
      assert forced[..i] == forced[..i - 1] + [v];
      SpilledMore(a, forced[..i - 1], v);
    }
  }

  lemma SpilledMore(a: Layout, vs: seq<Value>, v: Value)
    requires v !in vs && v in a
    ensures |SpilledAmong(a, Elements(vs + [v]))| == |SpilledAmong(a, Elements(vs))| + if a[v].SpilledLoc? then 1 else 0
  {
    AppendElements(vs, v);
    var before := SpilledAmong(a, Elements(vs));
    assert SpilledAmong(a, Elements(vs) + {v}) == if a[v].SpilledLoc? then before + {v} else before;
  }

  lemma SpillTotal(t: Start, forced: seq<Value>, a: Layout)
    requires InOrder(t, forced, a)
    ensures |SpilledValues(a)| == Spills(t, forced, |forced|)
  {
    SpillsCounted(t, forced, a, |forced|);
    assert forced[..|forced|] == forced;
    assert SpilledAmong(a, Elements(forced)) == SpilledValues(a);
  }

  // A spilled value has a slot of its own, numbered by the spills before it.
  lemma ValueSlot(t: Start, forced: seq<Value>, a: Layout, v: Value) returns (i: nat, slot: nat)
    requires InOrder(t, forced, a) && v in a && a[v].SpilledLoc?
    ensures i < |forced| && forced[i] == v && Spilled(t, forced, i) && slot == Spills(t, forced, i)
    ensures a[v].memOffset == Slot(t.slots, slot) && slot < |SpilledValues(a)|
  {
    i :| 0 <= i < |forced| && forced[i] == v;
    slot := Spills(t, forced, i);
    SpilledOffset(t, forced, a, i);
    SpillTotal(t, forced, a);
    SpillsGrow(t, forced, i, |forced|);
  }

  lemma SlotValue(t: Start, forced: seq<Value>, a: Layout, slot: nat) returns (v: Value, i: nat)
    requires InOrder(t, forced, a) && slot < |SpilledValues(a)|
    ensures i < |forced| && forced[i] == v && Spills(t, forced, i) == slot
    ensures v in a && a[v].SpilledLoc? && a[v].memOffset == Slot(t.slots, slot)
  {
    SpillTotal(t, forced, a);
    i := SlotTaken(t, forced, |forced|, slot);
    v := forced[i];
    SpilledOffset(t, forced, a, i);
  }

  lemma DifferentSlots(t: Start, forced: seq<Value>, a: Layout, v: Value, w: Value) returns (k: nat, l: nat)
    requires InOrder(t, forced, a) && v in a && w in a && v != w && a[v].SpilledLoc? && a[w].SpilledLoc?
    ensures k != l && k < |SpilledValues(a)| && l < |SpilledValues(a)|
    ensures a[v].memOffset == Slot(t.slots, k) && a[w].memOffset == Slot(t.slots, l)
  {
    var i, j;
    i, k := ValueSlot(t, forced, a, v);
    j, l := ValueSlot(t, forced, a, w);
    if i < j {
      SpillsGrow(t, forced, i, j);
    } else {
      SpillsGrow(t, forced, j, i);
    }
  }

  function Offsets(a: Layout): set<uint32> {
    set v | v in a && a[v].SpilledLoc? :: a[v].memOffset
  }

  ghost predicate WordsDisjoint(a: Layout) {
    forall v, w :: v in a && w in a && v != w && a[v].SpilledLoc? && a[w].SpilledLoc? ==>
      Disjoint(a[v].memOffset, a[w].memOffset)
  }

  lemma DisjointEitherWay(n: nat, k: nat, l: nat)
    requires n <= 0x800_0000 && k < n && l < n && k != l
    ensures Disjoint(Slot(FRESH, k), Slot(FRESH, l))
  {
    FreshWordsDisjoint(n);
  }

  lemma AllDisjoint(t: Start, forced: seq<Value>, a: Layout)
    requires InOrder(t, forced, a) && t.slots == FRESH && |SpilledValues(a)| <= 0x800_0000
    ensures WordsDisjoint(a)
  {
    forall v, w | v in a && w in a && v != w && a[v].SpilledLoc? && a[w].SpilledLoc?
      ensures Disjoint(a[v].memOffset, a[w].memOffset)
    {
      var k, l := DifferentSlots(t, forced, a, v, w);
      DisjointEitherWay(|SpilledValues(a)|, k, l);
    }
  }

  lemma OffsetsExact(t: Start, forced: seq<Value>, a: Layout)
    requires InOrder(t, forced, a) && t.slots == FRESH && |SpilledValues(a)| <= 0x800_0000
    ensures Offsets(a) == set k | 0 <= k < |SpilledValues(a)| :: 32 * k
  {
    var n := |SpilledValues(a)|;
    FreshWordsDisjoint(n);
    forall v | v in a && a[v].SpilledLoc? ensures exists k :: 0 <= k < n && a[v].memOffset == 32 * k {
      var i, k := ValueSlot(t, forced, a, v);
    }
    forall k | 0 <= k < n ensures 32 * k in Offsets(a) {
      var v, i := SlotValue(t, forced, a, k);
    }
  }

  lemma SharedWord(t: Start, forced: seq<Value>, a: Layout, i: nat, j: nat)
    requires InOrder(t, forced, a) && i < j < |SpilledValues(a)|
    requires !Disjoint(Slot(t.slots, i), Slot(t.slots, j))
    ensures !WordsDisjoint(a)
  {
    var v, m := SlotValue(t, forced, a, i);
    var w, n := SlotValue(t, forced, a, j);
    assert v != w;
  }

  // Spill memory conservation, from a fresh allocator: n spilled values occupy the offsets
  // 0, 32, .., 32 * (n - 1), one each, and the high-water mark is 32 * n, whatever was freed. Their words
  // are disjoint iff 32-bit offsets can tell n words apart.
  lemma Conservation(t: Start, order: seq<Value>, a: Layout)
    requires Yields(t, order, a) && t.slots == FRESH
    ensures var n, forced := |SpilledValues(a)|, ForcedBy(t, order);
      && (WordsDisjoint(a) <==> n <= 0x800_0000)
      && (n <= 0x800_0000 ==> Offsets(a) == set k | 0 <= k < n :: 32 * k)
      && (n < 0x800_0000 ==> SlotsAfter(t.choose, t.slots, forced, |forced|).next == 32 * n)
  {
    var n, forced := |SpilledValues(a)|, ForcedBy(t, order);
    OutcomeInOrder(t, order, a);
    SpillTotal(t, forced, a);
    FreshWordsDisjoint(n);
    SlotsAreSpills(t, forced, |forced|);
    if n <= 0x800_0000 {
      AllDisjoint(t, forced, a);
      OffsetsExact(t, forced, a);
    } else {
      var i, j :| 0 <= i < j < n && !Disjoint(Slot(FRESH, i), Slot(FRESH, j));
      SharedWord(t, forced, a, i, j);
    }
  }

  lemma OutcomeWords(t: Start, a: Layout)
    requires IsOutcome(t, a) && t.slots == FRESH
    ensures WordsDisjoint(a) <==> |SpilledValues(a)| <= 0x800_0000
    ensures |SpilledValues(a)| <= 0x800_0000 ==> Offsets(a) == set k | 0 <= k < |SpilledValues(a)| :: 32 * k
  {
    var order :| Yields(t, order, a);
    Conservation(t, order, a);
  }

  // A check on the graph that suffices before the allocator runs.
  lemma SmallGraphDisjoint(t: Start, a: Layout)
    requires IsOutcome(t, a) && t.slots == FRESH && |t.graph| <= 0x800_0000 + COLORS
    ensures |SpilledValues(a)| <= 0x800_0000 && WordsDisjoint(a)
  {
    var order :| Yields(t, order, a);
    OutcomeForced(t, order, a);
    OutcomeInOrder(t, order, a);
    SpilledAreForced(t, ForcedBy(t, order), a);
    AllDisjoint(t, ForcedBy(t, order), a);
  }

  lemma SpilledAreForced(t: Start, forced: seq<Value>, a: Layout)
    requires InOrder(t, forced, a)
    ensures |SpilledValues(a)| <= |forced|
  {
    ElementsSize(forced);
    SubsetSize(SpilledValues(a), Elements(forced));
  }

  lemma OutcomeInOrder(t: Start, order: seq<Value>, a: Layout)
    requires Yields(t, order, a)
    ensures InOrder(t, ForcedBy(t, order), a)
  {
    OutcomeForced(t, order, a);
  }

  // Forced value i is recomputed iff it is a tree of at most 5 levels of pure operations whose opcodes cost
  // less gas than one store and one load with the growth of memory charged to both; k values were spilled
  // before it, and if it is spilled its word is the next one.
  ghost predicate DecidedAt(spec: ForkSpec, f: Function, forced: seq<Value>, a: Layout, i: nat)
    requires i < |forced|
  {
    var v, k := forced[i], |SpilledAmong(a, Elements(forced[..i]))|;
    v in a && (k < 0x800_0000 ==>
      if CheapTree(spec, f, v, SpillPrice(spec, k)) then a[v].RecomputeLoc? && DefiningOp(f, v) == Some(a[v].op)
      else a[v] == SpilledLoc(32 * k))
  }

  // What spilling to word k costs, as far as the allocator knows.
  function SpillPrice(spec: ForkSpec, k: nat): nat {
    spec.gas(MSTORE) + spec.gas(MLOAD) + 2 * (3 + (2 * k + 1) / 512)
  }

  lemma Decision(spec: ForkSpec, f: Function, t: Start, order: seq<Value>, a: Layout, i: nat)
    requires Yields(t, order, a) && t.slots == FRESH && t.choose == CheaperChoice(spec, f, {})
    requires i < |ForcedBy(t, order)|
    ensures DecidedAt(spec, f, ForcedBy(t, order), a, i)
  {
    var forced := ForcedBy(t, order);
    var v, k := forced[i], |SpilledAmong(a, Elements(forced[..i]))|;
    OutcomeInOrder(t, order, a);
    SlotsAt(t, forced, a, i, k);
    assert PlacedAt(t.choose, t.slots, forced, a, i);
    if k < 0x800_0000 {
      CheaperIff(spec, f, v, SlotsAfter(t.choose, t.slots, forced, i), k, MAX_DEPTH);
    }
  }

  lemma SlotsAt(t: Start, forced: seq<Value>, a: Layout, i: nat, k: nat)
    requires InOrder(t, forced, a) && t.slots == FRESH && i <= |forced|
    requires k == |SpilledAmong(a, Elements(forced[..i]))|
    ensures SlotsAfter(t.choose, t.slots, forced, i) == Slots(Low32(32 * k), [])
  {
    SpillsCounted(t, forced, a, i);
    SlotsAreSpills(t, forced, i);
    FreshStates(k);
  }

  lemma CheaperIff(spec: ForkSpec, f: Function, v: Value, s: Slots, k: nat, n: nat)
    requires s == Slots(Low32(32 * k), []) && k < 0x800_0000 && n == MAX_DEPTH
    ensures Cheaper(spec, f, v, {}, s) <==> CheapTree(spec, f, v, SpillPrice(spec, k))
  {
    CostIsGas(spec, f, v, {}, 0, n);
    ThresholdIs(spec, s, k);
  }

  lemma ThresholdIs(spec: ForkSpec, s: Slots, k: nat)
    requires s == Slots(Low32(32 * k), []) && k < 0x800_0000
    ensures Threshold(spec, s) == SpillPrice(spec, k)
  {
    ThresholdCovers(spec, s);
    assert s.next / 32 == k;
  }

  // A value to be recomputed is a small tree of pure operations.
  lemma RecomputedIsTree(spec: ForkSpec, f: Function, t: Start, a: Layout, v: Value)
    requires t.choose == CheaperChoice(spec, f, {})
    requires IsOutcome(t, a) && v in a && a[v].RecomputeLoc?
    ensures DefiningOp(f, v) == Some(a[v].op) && ShallowTree(f, v)
  {
    var order :| Yields(t, order, a);
    OutcomeForced(t, order, a);
    var i :| 0 <= i < |ForcedBy(t, order)| && ForcedBy(t, order)[i] == v;
    assert PlacedAt(t.choose, t.slots, ForcedBy(t, order), a, i);
    CheaperIsTree(spec, f, v, SlotsAfter(t.choose, t.slots, ForcedBy(t, order), i), MAX_DEPTH);
  }

  lemma CheaperIsTree(spec: ForkSpec, f: Function, v: Value, s: Slots, n: nat)
    requires Cheaper(spec, f, v, {}, s) && n == MAX_DEPTH
    ensures ShallowTree(f, v)
  {
    CostIsGas(spec, f, v, {}, 0, n);
    assert PureTree(f, v, n);
  }
}
