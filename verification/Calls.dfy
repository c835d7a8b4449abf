// What a call does to an assembled contract: results about runs of its bytes.

module Calls {
  import opened Wrappers
  import opened Words
  import opened Opcodes
  import opened Bytecode
  import opened Machine
  import opened Dispatcher
  import opened Dispatch
  import opened DispatchProofs
  import opened Runtime

  // The bytes of a contract are those of a stream that meets the needs of its dispatch table.
  ghost predicate Ready(entries: seq<Entry>, fallback: Option<LabelID>, v: Variant, next: nat, bodies: seq<Instr>,
                        core: Core)
  {
    && Accepts(bodies, entries, fallback, next) && Callable(bodies, entries, fallback, core)
    && Offset(Stream(entries, fallback, v, next, bodies), |Stream(entries, fallback, v, next, bodies)|) < 0x1_0000
  }

  // A call starts at the first byte; t is the state in which control first leaves the dispatcher.
  ghost predicate CallLeaves(env: Env, entries: seq<Entry>, fallback: Option<LabelID>, v: Variant, next: nat,
                             bodies: seq<Instr>, core: Core, t: State)
  {
    Leaves(Evm(env), Assembled(Stream(entries, fallback, v, next, bodies)),
           DispatcherSize(entries, fallback, v, next, bodies), Running(0, core), t)
  }

  // Entry e's function is entered with its arguments above the selector, and nothing else has changed.
  ghost predicate Enters(env: Env, prog: seq<Instr>, e: Entry, core: Core, t: State) {
    && t.Running? && t.pc == PositionOf(prog, e.dest)
    && t.core.stack == ArgWords(env.calldata, e.args) + ([Selector(env.calldata)] + core.stack)
    && t.core.mem == core.mem && t.core.storage == core.storage
  }

  // The fallback is entered, with the selector left on the stack.
  ghost predicate AtFallback(env: Env, prog: seq<Instr>, l: LabelID, core: Core, t: State) {
    && t.Running? && t.pc == PositionOf(prog, l)
    && t.core.stack == [Selector(env.calldata)] + core.stack
    && t.core.mem == core.mem && t.core.storage == core.storage
  }

  // The dispatcher itself reverts, without data.
  predicate Rejects(t: State) {
    t.Halted? && t.halt.Reverted? && t.halt.data == []
  }

  // As emitted: a call enters a function iff its selector is the smallest in the table, and that
  // function is the first; every other call is rejected, fallback or not.
  lemma EmittedDispatch(env: Env, entries: seq<Entry>, fallback: Option<LabelID>, next: nat, bodies: seq<Instr>,
                        core: Core)
    returns (t: State)
    requires Ready(entries, fallback, AsEmitted, next, bodies, core) && entries != [] && Sorted(entries)
    ensures CallLeaves(env, entries, fallback, AsEmitted, next, bodies, core, t)
    ensures var prog := Stream(entries, fallback, AsEmitted, next, bodies);
      if Selector(env.calldata) == entries[0].selector then Enters(env, prog, entries[0], core, t) else Rejects(t)
  {
    var prog := Stream(entries, fallback, AsEmitted, next, bodies);
    DispatchLands(env, entries, fallback, AsEmitted, next, bodies, core);
    t := Landed(prog, env, entries, fallback, AsEmitted, core);
    EmittedMatches(entries, Selector(env.calldata));
    EntryLanded(prog, env, entries, fallback, AsEmitted, core);
  }

  // As intended: a call enters function i iff its selector is that of entry i, and is rejected iff the
  // table has no such entry.
  lemma IntendedDispatch(env: Env, entries: seq<Entry>, fallback: Option<LabelID>, next: nat, bodies: seq<Instr>,
                         core: Core)
    returns (t: State)
    requires Ready(entries, fallback, Intended, next, bodies, core) && entries != [] && StrictlySorted(entries)
    ensures CallLeaves(env, entries, fallback, Intended, next, bodies, core, t)
    ensures Rejects(t) <==> !InTable(entries, Selector(env.calldata))
    ensures var prog := Stream(entries, fallback, Intended, next, bodies);
      forall i :: 0 <= i < |entries| && entries[i].selector == Selector(env.calldata) ==>
        Enters(env, prog, entries[i], core, t)
  {
    var prog := Stream(entries, fallback, Intended, next, bodies);
    DispatchLands(env, entries, fallback, Intended, next, bodies, core);
    t := Landed(prog, env, entries, fallback, Intended, core);
    IntendedMatches(entries, Selector(env.calldata));
    EntryLanded(prog, env, entries, fallback, Intended, core);
  }

  lemma EntryLanded(prog: seq<Instr>, env: Env, entries: seq<Entry>, fallback: Option<LabelID>, v: Variant, core: Core)
    requires entries != []
    ensures var sel := Selector(env.calldata);
      var t, e := Landed(prog, env, entries, fallback, v, core), entries[Route(entries, v, sel)];
      if e.selector == sel then Enters(env, prog, e, core, t) else Rejects(t)
  {
  }

  // The fallback: a call whose selector is in no entry ends at a declared fallback iff the table is
  // empty, for either comparison; otherwise it is rejected.
  lemma FallbackDispatch(env: Env, entries: seq<Entry>, l: LabelID, v: Variant, next: nat, bodies: seq<Instr>,
                         core: Core)
    returns (t: State)
    requires Ready(entries, Some(l), v, next, bodies, core) && !InTable(entries, Selector(env.calldata))
    ensures CallLeaves(env, entries, Some(l), v, next, bodies, core, t)
    ensures var prog := Stream(entries, Some(l), v, next, bodies);
      AtFallback(env, prog, l, core, t) <==> entries == []
    ensures entries != [] ==> Rejects(t)
  {
    var prog := Stream(entries, Some(l), v, next, bodies);
    DispatchLands(env, entries, Some(l), v, next, bodies, core);
    t := Landed(prog, env, entries, Some(l), v, core);
    if entries != [] {
      EntryLanded(prog, env, entries, Some(l), v, core);
    }
  }

  // ---------- gas ----------

  function Spent(t: State): nat {
    match t
    case Running(_, core) => core.spent
    case Halted(Returned(_, core)) => core.spent
    case Halted(Reverted(_, spent)) => spent
    case Halted(Stopped(core)) => core.spent
    case Halted(Failed) => 0
  }

  lemma LoadGasBound(env: Env, i: nat)
    requires PushesCheap(env.gas) && env.gas(CALLDATALOAD) == 3
    ensures LoadGas(env, i) <= 6
  {
    PushGas(env.gas, ArgOffset(i));
  }

  lemma {:induction false} ArgumentsGasBound(env: Env, n: nat)
    requires PushesCheap(env.gas) && env.gas(CALLDATALOAD) == 3
    ensures ArgumentsGas(env, n) <= 6 * n
  {
    if n > 0 {
      ArgumentsGasBound(env, n - 1);
      LoadGasBound(env, n - 1);
    }
  }

  lemma LeafGasBound(env: Env, e: Entry)
    requires OsakaGas(env.gas)
    ensures TestGas(env, e) <= 22 && RevertGas(env) == 4 && MatchGas(env, e) <= 34 + 6 * e.args
  {
    PushGas(env.gas, e.selector);
    ArgumentsGasBound(env, e.args);
  }

  // Whatever the call, the dispatcher as emitted spends at most 23 static gas for each of ceil(log2 n)
  // inner nodes, 45 for selector load and leaf, and 6 an argument decoded.
  lemma CallGas(env: Env, entries: seq<Entry>, fallback: Option<LabelID>, next: nat, bodies: seq<Instr>, core: Core)
    returns (t: State)
    requires Ready(entries, fallback, AsEmitted, next, bodies, core) && entries != [] && Sorted(entries)
    requires OsakaGas(env.gas)
    ensures CallLeaves(env, entries, fallback, AsEmitted, next, bodies, core, t)
    ensures Spent(t) <= core.spent + 23 * CeilLog2(|entries|) + 45 + if t.Running? then 6 * entries[0].args else 0
  {
    var sel := Selector(env.calldata);
    DispatchLands(env, entries, fallback, AsEmitted, next, bodies, core);
    t := Landed(Stream(entries, fallback, AsEmitted, next, bodies), env, entries, fallback, AsEmitted, core);
    EmittedMatches(entries, sel);
    PathBounds(env, entries, sel);
    LeafGasBound(env, entries[Route(entries, AsEmitted, sel)]);
    RoutedGas(Stream(entries, fallback, AsEmitted, next, bodies), env, entries, fallback, AsEmitted,
              Loaded(env, core), sel);
  }

  // A gas table that counts conditional jumps.
  ghost predicate CountsBranches(gas: byte -> nat) {
    forall op: byte :: gas(op) == if op == JUMPI then 1 else 0
  }

  lemma NodeBranches(env: Env, pivot: uint32, v: Variant)
    requires CountsBranches(env.gas)
    ensures NodeGas(env, pivot, v) == 1
  {
  }

  lemma {:induction false} PathBranches(env: Env, entries: seq<Entry>, v: Variant, sel: Word)
    requires CountsBranches(env.gas)
    ensures PathGas(env, entries, v, sel) == Levels(entries, v, sel)
    ensures Levels(entries, v, sel) <= CeilLog2(|entries|)
    decreases |entries|
  {
    if |entries| > 1 {
      var mid := |entries| / 2;
      var sub := if GoesRight(v, entries[mid].selector, sel) then entries[mid..] else entries[..mid];
      NodeBranches(env, entries[mid].selector, v);
      PathBranches(env, sub, v, sel);
      CeilLog2Mono(|sub|, (|entries| + 1) / 2);
    }
  }

  lemma {:induction false} ArgumentBranches(env: Env, n: nat)
    requires CountsBranches(env.gas)
    ensures ArgumentsGas(env, n) == 0
  {
    if n > 0 {
      ArgumentBranches(env, n - 1);
    }
  }

  lemma LeafBranches(env: Env, e: Entry)
    requires CountsBranches(env.gas)
    ensures TestGas(env, e) == MatchGas(env, e) == 1 && RevertGas(env) == 0
  {
    ArgumentBranches(env, e.args);
  }

  // A call takes one conditional jump an inner node and one at the leaf, and passes at most
  // ceil(log2 n) inner nodes, for either comparison.
  lemma CallBranches(env: Env, entries: seq<Entry>, fallback: Option<LabelID>, v: Variant, next: nat,
                     bodies: seq<Instr>, core: Core)
    returns (t: State)
    requires Ready(entries, fallback, v, next, bodies, core) && entries != [] && CountsBranches(env.gas)
    ensures CallLeaves(env, entries, fallback, v, next, bodies, core, t)
    ensures Spent(t) == core.spent + Levels(entries, v, Selector(env.calldata)) + 1
    ensures Levels(entries, v, Selector(env.calldata)) <= CeilLog2(|entries|)
  {
    var prog, sel := Stream(entries, fallback, v, next, bodies), Selector(env.calldata);
    DispatchLands(env, entries, fallback, v, next, bodies, core);
    t := Landed(prog, env, entries, fallback, v, core);
    PathBranches(env, entries, v, sel);
    LeafBranches(env, entries[Route(entries, v, sel)]);
    RoutedGas(prog, env, entries, fallback, v, Loaded(env, core), sel);
  }

  lemma RoutedGas(prog: seq<Instr>, env: Env, entries: seq<Entry>, fallback: Option<LabelID>, v: Variant, core: Core,
                  sel: Word)
    requires entries != []
    ensures var t, e := Routed(prog, env, entries, fallback, v, core, sel), entries[Route(entries, v, sel)];
      Spent(t) == core.spent + PathGas(env, entries, v, sel)
                  + if e.selector == sel then MatchGas(env, e) else TestGas(env, e) + RevertGas(env)
  {
  }
}
