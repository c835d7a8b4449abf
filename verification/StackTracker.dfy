// The emitter's picture of the machine stack, and the DUP it chooses for a value on the stack.

module Tracking {
  import opened Wrappers
  import opened Words
  import opened Opcodes
  import opened Bytecode
  import opened Machine
  import opened Cfg

  // The size is truncated to eight bits before it is compared with 16.
  function SearchLimit(size: nat): (limit: nat)
    ensures limit <= 16 && limit <= size
  {
    if size % 256 < 16 then size % 256 else 16
  }

  function ReachLimit(size: nat): (limit: nat)
    ensures limit <= size
  {
    if size < 16 then size else 16
  }

  // The top of the tracked stack is its last element.
  function AtDepth(stack: seq<Value>, d: nat): Value
    requires d < |stack|
  {
    stack[|stack| - 1 - d]
  }

  // The least depth below `limit` at which v lies.
  ghost predicate FoundAt(stack: seq<Value>, v: Value, limit: nat, r: Option<nat>)
    requires limit <= |stack|
  {
    match r
    case Some(d) => d < limit && AtDepth(stack, d) == v && forall e :: 0 <= e < d ==> AtDepth(stack, e) != v
    case None => forall e :: 0 <= e < limit ==> AtDepth(stack, e) != v
  }

  class StackTracker {
    var stack: seq<Value>

    constructor ()
      ensures stack == []
    {
      stack := [];
    }

    method Push(v: Value)
      modifies this
      ensures stack == old(stack) + [v]
    {
      stack := stack + [v];
    }

    method Pop()
      requires stack != []
      modifies this
      ensures exists v :: old(stack) == stack + [v]
    {
      assert stack == stack[..|stack| - 1] + [stack[|stack| - 1]];
      stack := stack[..|stack| - 1];
    }

    method FindDepth(v: Value) returns (r: Option<nat>)
      ensures FoundAt(stack, v, SearchLimit(|stack|), r)
    {
      var size8 := |stack| % 256;
      var limit := if size8 < 16 then size8 else 16;
      var i := |stack| - 1;
      while i >= |stack| - limit
        invariant |stack| - limit - 1 <= i < |stack|
        invariant forall e :: 0 <= e < |stack| - 1 - i ==> AtDepth(stack, e) != v
      {
        if stack[i] == v {
          return Some(|stack| - 1 - i);
        }
        i := i - 1;
      }
      r := None;
    }

    // A depth beyond the stack is ignored.
    method Dup(depth: nat)
      modifies this
      ensures stack == if depth < |old(stack)| then old(stack) + [AtDepth(old(stack), depth)] else old(stack)
    {
      if depth >= |stack| {
        return;
      }
      stack := stack + [stack[|stack| - 1 - depth]];
    }

    method Swap(depth: nat)
      modifies this
      ensures multiset(stack) == multiset(old(stack)) && |stack| == |old(stack)|
      ensures depth < |stack| ==>
        && AtDepth(stack, 0) == AtDepth(old(stack), depth) && AtDepth(stack, depth) == AtDepth(old(stack), 0)
        && forall d :: 0 < d < |stack| && d != depth ==> AtDepth(stack, d) == AtDepth(old(stack), d)
      ensures depth >= |stack| ==> stack == old(stack)
    {
      if depth >= |stack| {
        return;
      }
      var top := |stack| - 1;
      stack := stack[top := stack[top - depth]][top - depth := stack[top]];
    }

    method Reset()
      modifies this
      ensures stack == []
    {
      stack := [];
    }

    // Make a value that has a stack location available. A copy is pushed only for a value below the top
    // that is used again; a dead value below the top stays where it is, and a value on top is used
    // without a copy, so that it survives the use only if it lies somewhere below as well.
    method EmitStackValue(v: Value, dead: bool, stream: BytecodeStream)
      modifies this, stream`instructions
      ensures forall r | FoundAt(old(stack), v, SearchLimit(|old(stack)|), r) ::
        if r.Some? && r.value > 0 && !dead then
          && stack == old(stack) + [v]
          && stream.instructions == old(stream.instructions) + [Op(DUP1 + r.value)]
        else stack == old(stack) && stream.instructions == old(stream.instructions)
      // where a found value is now: on top, and below the top
      ensures forall r: Option<nat> | FoundAt(old(stack), v, SearchLimit(|old(stack)|), r) && r.Some? ::
        && (AtDepth(stack, 0) == v <==> r.value == 0 || !dead)
        && (v in stack[..|stack| - 1] <==> r.value > 0 || multiset(old(stack))[v] > 1)
    {
      var depth := FindDepth(v);
      ghost var before := stack;
      forall r | FoundAt(before, v, SearchLimit(|before|), r) ensures r == depth {
        FoundOnce(before, v, SearchLimit(|before|), r, depth);
      }
      if depth.Some? {
        CopiesBelow(before, v, depth.value);
      }
      match depth
      case None =>
      case Some(d) =>
        if d > 0 && !dead {
          Dup(d);
          assert stack[..|stack| - 1] == before;
          stream.Emit(DUP1 + d);
        }
    }
  }

  // A value lies below the top iff it was found there or occurs twice.
  lemma CopiesBelow(stack: seq<Value>, v: Value, d: nat)
    requires d < |stack| && AtDepth(stack, d) == v && forall e :: 0 <= e < d ==> AtDepth(stack, e) != v
    ensures v in stack[..|stack| - 1] <==> d > 0 || multiset(stack)[v] > 1
    ensures d > 0 ==> v in stack && AtDepth(stack, 0) != v
    ensures (stack + [v])[..|stack|] == stack
  {
    var n := |stack| - 1;
    assert stack == stack[..n] + [stack[n]];
    assert multiset(stack) == multiset(stack[..n]) + multiset{stack[n]};
    if d > 0 {
      assert stack[..n][n - d] == v;
    }
  }

  lemma FoundOnce(stack: seq<Value>, v: Value, limit: nat, r: Option<nat>, r': Option<nat>)
    requires limit <= |stack| && FoundAt(stack, v, limit, r) && FoundAt(stack, v, limit, r')
    ensures r == r'
  {
    if r.Some? && r'.Some? {
      assert !(r.value < r'.value) && !(r'.value < r.value);
    }
  }

  // The search sees all that a DUP can reach, for every stack of a given size, iff the truncated size
  // does not hide part of it; below 256 values it never does.
  lemma WindowExact(size: nat)
    ensures (forall stack: seq<Value>, v: Value, r: Option<nat> | |stack| == size ::
               FoundAt(stack, v, SearchLimit(size), r) <==> FoundAt(stack, v, ReachLimit(size), r))
       <==> (size < 16 || size % 256 >= 16)
    ensures size < 256 ==> size < 16 || size % 256 >= 16
  {
    if !(size < 16 || size % 256 >= 16) {
      var limit := SearchLimit(size);
      var stack: seq<Value> := Marked(size, size - 1 - limit);
      assert AtDepth(stack, limit) == 1;
      assert forall d :: 0 <= d < limit ==> AtDepth(stack, d) == 0;
      assert FoundAt(stack, 1, limit, None) && !FoundAt(stack, 1, ReachLimit(size), None);
    }
  }

  function Marked(size: nat, at: nat): (s: seq<Value>)
    ensures |s| == size && forall i :: 0 <= i < size ==> s[i] == if i == at then 1 else 0
  {
    seq(size, i => if i == at then 1 else 0)
  }

  // The machine stack holds, from the top, what the tracker says.
  ghost predicate Mirrors(tracked: seq<Value>, meaning: Value -> Word, stack: seq<Word>) {
    |tracked| <= |stack| && forall d :: 0 <= d < |tracked| ==> stack[d] == meaning(AtDepth(tracked, d))
  }

  // The DUP chosen for a found value is one of DUP1..DUP16, and running it puts that value on top
  // with the tracker still exact.
  lemma DupMirrors(env: Env, pc: nat, core: Core, tracked: seq<Value>, meaning: Value -> Word, v: Value, d: nat)
    requires Mirrors(tracked, meaning, core.stack) && |core.stack| < STACK_LIMIT
    requires FoundAt(tracked, v, SearchLimit(|tracked|), Some(d))
    ensures DUP1 <= DUP1 + d <= DUP16
    ensures var r := Perform(env, pc, DUP1 + d, [], core);
      && r.Fall? && r.core == Charge(env, DUP1 + d, core).(stack := [meaning(v)] + core.stack)
      && Mirrors(tracked + [v], meaning, r.core.stack)
  {
    var stack := [meaning(v)] + core.stack;
    assert core.stack[d] == meaning(v);
    forall e | 0 <= e < |tracked + [v]| ensures stack[e] == meaning(AtDepth(tracked + [v], e)) {
      if e > 0 {
        assert AtDepth(tracked + [v], e) == AtDepth(tracked, e - 1);
      }
    }
  }
}
