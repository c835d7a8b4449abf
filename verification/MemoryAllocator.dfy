// Spill memory: 32-byte words handed out in order, freed words first.

module Memory {
  import opened Words

  const MEMORY_WORD := 32

  // The state of an allocator: the next fresh offset and the freed ones, last freed last.
  datatype Slots = Slots(next: uint32, free: seq<uint32>)

  const FRESH: Slots := Slots(0, [])

  function Advance(offset: uint32): uint32 {
    if offset < 0x1_0000_0000 - 32 then offset + 32 else offset + 32 - 0x1_0000_0000
  }

  function Taken(s: Slots): uint32 {
    if s.free != [] then s.free[|s.free| - 1] else s.next
  }

  function AfterTaking(s: Slots): Slots {
    if s.free != [] then s.(free := s.free[..|s.free| - 1]) else s.(next := Advance(s.next))
  }

  // The state after k allocations in a row, and the offset the next one gets.
  function AfterMany(s: Slots, k: nat): Slots {
    if k == 0 then s else AfterTaking(AfterMany(s, k - 1))
  }

  function Slot(s: Slots, k: nat): uint32 {
    Taken(AfterMany(s, k))
  }

  // ---------- cost of growing memory ----------

  // Yellow Paper Appendix H: the total cost of n words of memory.
  function MemoryCost(n: nat): nat {
    n * n / 512 + 3 * n
  }

  function Expansion(words: nat): nat {
    3 + (2 * words + 1) / 512
  }

  // The linear estimate never exceeds the true marginal cost and falls short of it by at most 1.
  lemma ExpansionIsMarginal(n: nat)
    ensures Expansion(n) <= MemoryCost(n + 1) - MemoryCost(n) <= Expansion(n) + 1
  {
    assert (n + 1) * (n + 1) == n * n + (2 * n + 1);
    FloorSum(n * n, 2 * n + 1);
  }

  lemma FloorSum(a: nat, b: nat)
    ensures a / 512 + b / 512 <= (a + b) / 512 <= a / 512 + b / 512 + 1
  {
  }

  function TotalExpansion(n: nat): nat {
    if n == 0 then 0 else TotalExpansion(n - 1) + Expansion(n - 1)
  }

  lemma {:induction false} TotalIsMemoryCost(n: nat)
    ensures TotalExpansion(n) <= MemoryCost(n) <= TotalExpansion(n) + n
  {
    if n > 0 {
      TotalIsMemoryCost(n - 1);
      ExpansionIsMarginal(n - 1);
    }
  }

  // ---------- a fresh allocator ----------

  lemma LowNext(k: nat)
    ensures Advance(Low32(32 * k)) == Low32(32 * (k + 1))
  {
  }

  lemma {:induction false} FreshStates(k: nat)
    ensures AfterMany(FRESH, k) == Slots(Low32(32 * k), []) && Slot(FRESH, k) == Low32(32 * k)
  {
    if k > 0 {
      FreshStates(k - 1);
      LowNext(k - 1);
    }
  }

  ghost predicate Disjoint(a: uint32, b: uint32) {
    a + MEMORY_WORD <= b || b + MEMORY_WORD <= a
  }

  // The first n words of a fresh allocator are pairwise disjoint iff 32-bit offsets can tell them
  // apart; then word k is at 32 * k and the mark is 32 * n modulo the width.
  lemma FreshWordsDisjoint(n: nat)
    ensures (forall i, j :: 0 <= i < j < n ==> Disjoint(Slot(FRESH, i), Slot(FRESH, j))) <==> n <= 0x800_0000
    ensures n <= 0x800_0000 ==> forall i :: 0 <= i < n ==> Slot(FRESH, i) == 32 * i
    ensures n < 0x800_0000 ==> AfterMany(FRESH, n).next == 32 * n
  {
    if n <= 0x800_0000 {
      forall i | 0 <= i < n ensures Slot(FRESH, i) == 32 * i {
        FreshStates(i);
      }
    } else {
      FreshStates(0);
      FreshStates(0x800_0000);
      assert !Disjoint(Slot(FRESH, 0), Slot(FRESH, 0x800_0000));
    }
    FreshStates(n);
  }

  class MemoryAllocator {
    var nextOffset: uint32
    var freeList: seq<uint32>

    ghost function State(): Slots
      reads this
    {
      Slots(nextOffset, freeList)
    }

    constructor ()
      ensures State() == FRESH
    {
      nextOffset := 0;
      freeList := [];
    }

    constructor Copy(other: MemoryAllocator)
      ensures State() == other.State()
    {
      nextOffset := other.nextOffset;
      freeList := other.freeList;
    }

    method Allocate() returns (offset: uint32)
      modifies this
      ensures offset == Taken(old(State())) && State() == AfterTaking(old(State()))
    {
      if |freeList| != 0 {
        offset := freeList[|freeList| - 1];
        freeList := freeList[..|freeList| - 1];
        return;
      }
      offset := nextOffset;
      nextOffset := if nextOffset < 0x1_0000_0000 - 32 then nextOffset + 32 else nextOffset + 32 - 0x1_0000_0000;
    }

    // What was freed last is allocated next, and allocating it undoes the free.
    method Free(memOffset: uint32)
      modifies this
      ensures State() == old(State()).(free := old(State()).free + [memOffset])
      ensures Taken(State()) == memOffset && AfterTaking(State()) == old(State())
    {
      freeList := freeList + [memOffset];
    }

    method HighWaterMark() returns (mark: uint32)
      ensures mark == State().next
    {
      mark := nextOffset;
    }

    method HasFreeSlots() returns (warm: bool)
      ensures warm <==> State().free != []
    {
      warm := |freeList| != 0;
    }

    method ExpansionCost() returns (cost: uint32)
      ensures var n := State().next / 32;
        cost == Expansion(n) && MemoryCost(n + 1) - MemoryCost(n) - 1 <= cost <= MemoryCost(n + 1) - MemoryCost(n)
    {
      var words := nextOffset / 32;
      cost := 3 + (2 * words + 1) / 512;
      ExpansionIsMarginal(words);
    }
  }
}
