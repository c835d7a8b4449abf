// The functions of a module by their attributes: which are dispatched to, which is the fallback, and where
// their code is.

module Functions {
  import opened Sequences
  import opened Words
  import opened Dispatcher
  import opened EmitRuntime

  // External (0), of kind function (0), with a selector.
  predicate Dispatched(f: Func) {
    && f.visibility.Some? && Low32(f.visibility.value) == 0
    && f.kind.Some? && Low32(f.kind.value) == 0
    && f.selector.Some?
  }

  // Of kind fallback (2), with a visibility and a selector.
  predicate Recognised(f: Func) {
    && f.kind.Some? && Low32(f.kind.value) == 2
    && f.visibility.Some? && f.selector.Some?
  }

  lemma AttributesDecide(f: Func)
    ensures IsEntry(f) <==> Dispatched(f)
    ensures IsFallback(f) <==> Recognised(f)
  {
  }

  ghost predicate NoneDispatched(m: Module) {
    forall i :: 0 <= i < |m| ==> !Dispatched(m[i])
  }

  ghost predicate NoneRecognised(m: Module) {
    forall i :: 0 <= i < |m| ==> !Recognised(m[i])
  }

  // The number of the block function i is entered by: all blocks of the functions in front of it come first.
  function Front(m: Module, i: nat): nat
    requires i <= |m|
  {
    if i == 0 then 0 else Front(m, i - 1) + m[i - 1].blocks
  }

  // The code of all functions, in order.
  function ItemsOf(m: Module): seq<Item> {
    Flat(CodeOf(m), |m|)
  }

  function CodeOf(m: Module): (c: seq<seq<Item>>)
    ensures |c| == |m| && forall i :: 0 <= i < |m| ==> c[i] == m[i].items
  {
    seq(|m|, i requires 0 <= i < |m| => m[i].items)
  }

  lemma {:induction false} CollectsAll(m: Module, n: nat)
    requires n <= |m|
    ensures Collect(m, n).blocks == Front(m, n) && Collect(m, n).items == Flat(CodeOf(m), n)
  {
    if n > 0 {
      CollectsAll(m, n - 1);
    }
  }

  // The code of function i is the part of the items behind those of the functions in front of it.
  lemma CodeIsPart(m: Module, i: nat)
    requires i < |m|
    ensures var at := |Flat(CodeOf(m), i)|;
      at + |m[i].items| <= |ItemsOf(m)| && ItemsOf(m)[at..at + |m[i].items|] == m[i].items
  {
    FlatAt(CodeOf(m), i, |m|);
  }

  // A block starts once, so a function whose code starts with its first block is where that block starts.
  lemma FunctionStarts(m: Module, i: nat, j: nat)
    requires Closed(PlanOf(m)) && i < |m| && m[i].items != [] && m[i].items[0] == Begin(Front(m, i))
    requires j < |ItemsOf(m)| && ItemsOf(m)[j] == Begin(Front(m, i))
    ensures j == |Flat(CodeOf(m), i)| && j + |m[i].items| <= |ItemsOf(m)|
    ensures ItemsOf(m)[j..j + |m[i].items|] == m[i].items
  {
    CollectsAll(m, |m|);
    CodeIsPart(m, i);
    var at := |Flat(CodeOf(m), i)|;
    assert ItemsOf(m)[at] == ItemsOf(m)[at..at + |m[i].items|][0];
    StartsOnce(PlanOf(m), at, j, Front(m, i));
  }

  lemma StartsOnce(p: Plan, i: nat, j: nat, b: nat)
    requires Closed(p) && i < |p.items| && j < |p.items| && p.items[i] == Begin(b) && p.items[j] == Begin(b)
    ensures i == j
  {
  }

  ghost predicate EntryOf(m: Module, i: nat, e: Entry) {
    && i < |m| && Dispatched(m[i])
    && e == Entry(Low32(m[i].selector.value), Wrap(Front(m, i)), m[i].args)
  }

  lemma {:induction false} CollectsEntries(m: Module, n: nat, e: Entry)
    requires n <= |m|
    ensures e in Entries(Collect(m, n).externals) <==> exists i :: 0 <= i < n && EntryOf(m, i, e)
  {
    if n > 0 {
      var k := n - 1;
      CollectsEntries(m, k, e);
      CollectsOne(m, k, n, e);
      assert EntryOf(m, k, e) ==> 0 <= k < n;
    }
  }

  lemma CollectsOne(m: Module, k: nat, n: nat, e: Entry)
    requires n == k + 1 <= |m|
    ensures e in Entries(Collect(m, n).externals) <==> e in Entries(Collect(m, k).externals) || EntryOf(m, k, e)
  {
    CollectsAll(m, k);
    AttributesDecide(m[k]);
    var before, after := Entries(Collect(m, k).externals), Entries(Collect(m, n).externals);
    if Dispatched(m[k]) {
      assert after == before + [Entry(Low32(m[k].selector.value), Wrap(Front(m, k)), m[k].args)];
    } else {
      assert after == before;
    }
  }

  // The dispatch table has exactly the entries of the functions that are external, of kind function and have
  // a selector: the selector cut to 32 bits, the label of the first block, the number of arguments.
  lemma TableIsEntries(m: Module, table: seq<Entry>, e: Entry)
    requires IsTable(PlanOf(m), table)
    ensures e in table <==>
      exists i :: (
        && 0 <= i < |m|
        && m[i].visibility.Some? && Low32(m[i].visibility.value) == 0
        && m[i].kind.Some? && Low32(m[i].kind.value) == 0
        && m[i].selector.Some?
        && e == Entry(Low32(m[i].selector.value), Wrap(Front(m, i)), m[i].args))
  {
    CollectsEntries(m, |m|, e);
    assert e in table <==> e in multiset(table);
    forall i | 0 <= i < |m|
      ensures EntryOf(m, i, e) <==>
        Dispatched(m[i]) && e == Entry(Low32(m[i].selector.value), Wrap(Front(m, i)), m[i].args)
    {
    }
  }

  ghost function DispatchedBelow(m: Module, n: nat): set<nat>
    requires n <= |m|
  {
    set i: nat | i < n && Dispatched(m[i])
  }

  lemma {:induction false} CountEntries(m: Module, n: nat)
    requires n <= |m|
    ensures |Collect(m, n).externals| == |DispatchedBelow(m, n)|
  {
    if n == 0 {
      assert DispatchedBelow(m, n) == {};
    } else {
      CountEntries(m, n - 1);
      AttributesDecide(m[n - 1]);
      OneMoreDispatched(m, n - 1, n);
    }
  }

  lemma OneMoreDispatched(m: Module, k: nat, n: nat)
    requires n == k + 1 <= |m|
    ensures |DispatchedBelow(m, n)| == |DispatchedBelow(m, k)| + if Dispatched(m[k]) then 1 else 0
  {
    assert DispatchedBelow(m, n) == DispatchedBelow(m, k) + if Dispatched(m[k]) then {k} else {};
  }

  // And as many as there are such functions.
  lemma TableSize(m: Module, table: seq<Entry>)
    requires IsTable(PlanOf(m), table)
    ensures |table| == |set i: nat | i < |m| && Dispatched(m[i])|
  {
    CountEntries(m, |m|);
    assert |table| == |multiset(table)| == |multiset(Entries(PlanOf(m).externals))|;
  }

  // The fallback is the last function that is recognised as one.
  lemma {:induction false} FallbackIsLast(m: Module, n: nat)
    requires n <= |m|
    ensures Collect(m, n).fallback.None? ==> forall i :: 0 <= i < n ==> !Recognised(m[i])
    ensures Collect(m, n).fallback.Some? ==>
      exists i :: 0 <= i < n && Recognised(m[i]) && Collect(m, n).fallback.value == Front(m, i)
                  && forall j :: i < j < n ==> !Recognised(m[j])
  {
    if n > 0 {
      FallbackIsLast(m, n - 1);
      CollectsAll(m, n - 1);
      AttributesDecide(m[n - 1]);
    }
  }
}
