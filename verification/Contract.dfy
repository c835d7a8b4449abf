// The whole contract: what deployment leaves, and what calls to it do.

module Contract {
  import opened Wrappers
  import opened Words
  import opened Bytecode
  import opened Machine
  import opened Dispatcher
  import opened Runtime
  import opened Calls
  import opened EmitRuntime
  import opened Functions
  import opened Bodies
  import opened Abi
  import opened Emitter

  // Running the deployment code in front of the runtime code returns exactly the runtime code.
  ghost predicate Deploys(deploy: seq<byte>, runtime: seq<byte>) {
    forall env: Env, core: Core :: env.code == deploy + runtime && |core.stack| + 3 <= STACK_LIMIT ==>
      Returns(env, core, runtime)
  }

  ghost predicate Returns(env: Env, core: Core, data: seq<byte>) {
    exists n: nat, after: Core :: Run(Evm(env), env.code, Running(0, core), n) == Halted(Returned(data, after))
                                  && after.stack == core.stack && after.storage == core.storage
  }

  // ---------- acceptance ----------

  // At most one function of a kind, whatever its other attributes.
  ghost predicate Single(m: Module, kind: uint32) {
    forall i, j :: 0 <= i < j < |m| ==> !(Has(m[i].kind, kind) && Has(m[j].kind, kind))
  }

  // At most one constructor (1) and at most one fallback (2).
  ghost predicate Accepted(m: Module) {
    Single(m, 1) && Single(m, 2)
  }

  lemma AcceptedMore(m: Module, k: nat, n: nat)
    requires n == k + 1 <= |m|
    ensures Accepted(m[..n]) <==>
      && Accepted(m[..k])
      && !(Has(m[k].kind, 1) && exists i :: 0 <= i < k && Has(m[i].kind, 1))
      && !(Has(m[k].kind, 2) && exists i :: 0 <= i < k && Has(m[i].kind, 2))
  {
    SingleMore(m, k, n, 1);
    SingleMore(m, k, n, 2);
  }

  lemma SingleMore(m: Module, k: nat, n: nat, kind: uint32)
    requires n == k + 1 <= |m|
    ensures Single(m[..n], kind) <==>
      Single(m[..k], kind) && !(Has(m[k].kind, kind) && exists i :: 0 <= i < k && Has(m[i].kind, kind))
  {
    var after, before := m[..n], m[..k];
    assert forall i :: 0 <= i < k ==> after[i] == before[i] == m[i];
    assert after[k] == m[k];
  }

  method VerifyModule(m: Module) returns (ok: bool)
    ensures ok <==> Accepted(m)
  {
    var constructor_, fallback, failed := false, false, false;
    var k := 0;
    while k < |m|
      invariant 0 <= k <= |m|
      invariant constructor_ <==> exists i :: 0 <= i < k && Has(m[i].kind, CONSTRUCTOR)
      invariant fallback <==> exists i :: 0 <= i < k && Has(m[i].kind, FALLBACK)
      invariant failed <==> !Accepted(m[..k])
    {
      AcceptedMore(m, k, k + 1);
      if m[k].kind.Some? {
        var kind := Low32(m[k].kind.value);
        if kind == CONSTRUCTOR {
          failed := failed || constructor_;
          constructor_ := true;
        }
        if kind == FALLBACK {
          failed := failed || fallback;
          fallback := true;
        }
      }
      k := k + 1;
    }
    assert m[..k] == m;
    ok := !failed;
  }

  // ---------- calls ----------

  // Function i's first block starts with item j.
  ghost predicate StartsAt(m: Module, i: nat, j: nat) {
    i < |m| && j < |ItemsOf(m)| && ItemsOf(m)[j] == Begin(Front(m, i))
  }

  // Control is at the code of function i, the stack holds these words and the selector on what was there
  // before, and memory and storage are as they were.
  ghost predicate EntersFunction(m: Module, i: nat, P: seq<nat>, env: Env, words: seq<Word>, core: Core, t: State)
    requires |P| == |ItemsOf(m)| + 1
  {
    && (exists j: nat :: StartsAt(m, i, j) && t.Running? && t.pc == P[j])
    && t.core.stack == words + ([Selector(env.calldata)] + core.stack)
    && t.core.mem == core.mem && t.core.storage == core.storage
  }

  // The calldata words at 4, 36, 68, ..
  function CallWords(calldata: seq<byte>, n: nat): (words: seq<Word>)
    ensures |words| == n
    ensures forall k :: 0 <= k < n ==> words[k] == WordOf(Window(calldata, 4 + 32 * k, 32))
  {
    seq(n, k requires 0 <= k < n => WordOf(Window(calldata, 4 + 32 * k, 32)))
  }

  // Function i is dispatched to, with this selector, and none that is has a smaller one.
  ghost predicate IsLeast(m: Module, i: nat, selector: nat) {
    && i < |m| && Dispatched(m[i]) && Low32(m[i].selector.value) == selector
    && forall j :: 0 <= j < |m| && Dispatched(m[j]) ==> selector <= Low32(m[j].selector.value)
  }

  // What a call does. If some function is dispatched to, the smallest selector enters a function that
  // has it, and every other call is rejected. If none is, every call goes to the fallback if that is
  // recognised, and is rejected otherwise.
  ghost predicate Answers(m: Module, P: seq<nat>, env: Env, core: Core, t: State)
    requires |P| == |ItemsOf(m)| + 1
  {
    var selector := Selector(env.calldata);
    if NoneDispatched(m) then
      if NoneRecognised(m) then Rejects(t)
      else forall i :: 0 <= i < |m| && Recognised(m[i]) ==> EntersFunction(m, i, P, env, [], core, t)
    else if exists i: nat :: IsLeast(m, i, selector) then
      exists i: nat :: IsLeast(m, i, selector)
                  && EntersFunction(m, i, P, env, CallWords(env.calldata, m[i].args), core, t)
    else Rejects(t)
  }

  // Room on the caller's stack for the dispatcher and the arguments it decodes.
  ghost predicate HasRoom(m: Module, core: Core) {
    && |core.stack| + 6 <= STACK_LIMIT
    && forall i :: 0 <= i < |m| && Dispatched(m[i]) ==> |core.stack| + m[i].args + 5 <= STACK_LIMIT
  }

  // The code of the functions stands at the positions P and runs there, and every call first leaves what is
  // in front of it in a state that answers the call.
  ghost predicate ServesAt(m: Module, runtime: seq<byte>, P: seq<nat>) {
    && |P| == |ItemsOf(m)| + 1
    && (forall env: Env :: CodeRuns(env, runtime, ItemsOf(m), P))
    && forall env: Env, core: Core :: HasRoom(m, core) ==> Served(m, runtime, P, env, core)
  }

  ghost predicate Served(m: Module, runtime: seq<byte>, P: seq<nat>, env: Env, core: Core)
    requires |P| == |ItemsOf(m)| + 1
  {
    exists t :: Leaves(Evm(env), runtime, P[0], Running(0, core), t) && Answers(m, P, env, core, t)
  }

  ghost predicate Serves(m: Module, runtime: seq<byte>) {
    exists P :: ServesAt(m, runtime, P)
  }

  // The plan can be linked: blocks and labels are in order, and code and labels are small enough.
  ghost predicate Loadable(p: Plan, table: seq<Entry>) {
    && Closed(p) && LabelsNeeded(p) <= 0x1_0000 && IsTable(p, table) && Sorted(table)
    && Offset(RuntimeStream(p, table), |RuntimeStream(p, table)|) < 0x1_0000
  }

  // Where the code of a module stands in its runtime code.
  ghost predicate Stands(m: Module, table: seq<Entry>, P: seq<nat>) {
    P == RuntimePositions(PlanOf(m), table) && |P| == |ItemsOf(m)| + 1
    && P[0] == DispatcherSize(table, FallbackLabel(PlanOf(m)), AsEmitted, PlanOf(m).blocks,
                              EmitRuntime.Bodies(PlanOf(m), table))
    && forall i, b :: 0 <= i < |ItemsOf(m)| && ItemsOf(m)[i] == Begin(b) ==>
         PositionOf(RuntimeStream(PlanOf(m), table), Wrap(b)) == P[i]
  }

  lemma FirstPosition(p: Plan, table: seq<Entry>)
    ensures RuntimePositions(p, table)[0]
         == DispatcherSize(table, FallbackLabel(p), AsEmitted, p.blocks, EmitRuntime.Bodies(p, table))
  {
  }

  lemma CodeStands(m: Module, table: seq<Entry>, runtime: seq<byte>) returns (P: seq<nat>)
    requires Loadable(PlanOf(m), table) && runtime == Assembled(RuntimeStream(PlanOf(m), table))
    ensures Stands(m, table, P) && forall env: Env :: CodeRuns(env, runtime, ItemsOf(m), P)
  {
    P := RuntimePositions(PlanOf(m), table);
    CollectsAll(m, |m|);
    FirstPosition(PlanOf(m), table);
    RuntimeItemsRun(PlanOf(m), table, runtime, P);
  }

  // ---------- from the table to the functions ----------

  // The state a call is in when it leaves the dispatcher, in terms of the table.
  ghost predicate PlanAnswers(p: Plan, table: seq<Entry>, prog: seq<Instr>, env: Env, core: Core, t: State) {
    if table != [] then
      if Selector(env.calldata) == table[0].selector then Enters(env, prog, table[0], core, t) else Rejects(t)
    else
      match FallbackLabel(p)
      case Some(l) => AtFallback(env, prog, l, core, t)
      case None => Rejects(t)
  }

  ghost predicate LeavesDispatcher(p: Plan, table: seq<Entry>, runtime: seq<byte>, env: Env, core: Core, t: State) {
    Leaves(Evm(env), runtime,
           DispatcherSize(table, FallbackLabel(p), AsEmitted, p.blocks, EmitRuntime.Bodies(p, table)),
           Running(0, core), t)
  }

  lemma PlanServed(p: Plan, table: seq<Entry>, env: Env, core: Core) returns (t: State)
    requires Loadable(p, table) && RoomFor(table, core)
    ensures LeavesDispatcher(p, table, Assembled(RuntimeStream(p, table)), env, core, t)
    ensures PlanAnswers(p, table, RuntimeStream(p, table), env, core, t)
  {
    var l, bodies := FallbackLabel(p), EmitRuntime.Bodies(p, table);
    RuntimeReady(p, table, AsEmitted, core);
    if table != [] {
      t := EmittedDispatch(env, table, l, p.blocks, bodies, core);
    } else if l.Some? {
      t := FallbackDispatch(env, table, l.value, AsEmitted, p.blocks, bodies, core);
    } else {
      DispatchLands(env, table, l, AsEmitted, p.blocks, bodies, core);
      t := Landed(RuntimeStream(p, table), env, table, l, AsEmitted, core);
    }
  }

  lemma EntryInTable(m: Module, table: seq<Entry>, i: nat)
    requires IsTable(PlanOf(m), table) && i < |m| && Dispatched(m[i])
    ensures Entry(Low32(m[i].selector.value), Wrap(Front(m, i)), m[i].args) in table
  {
    TableIsEntries(m, table, Entry(Low32(m[i].selector.value), Wrap(Front(m, i)), m[i].args));
  }

  lemma EntryOfTable(m: Module, table: seq<Entry>, e: Entry) returns (i: nat)
    requires IsTable(PlanOf(m), table) && e in table
    ensures EntryOf(m, i, e)
  {
    TableIsEntries(m, table, e);
    i :| 0 <= i < |m| && Dispatched(m[i]) && e == Entry(Low32(m[i].selector.value), Wrap(Front(m, i)), m[i].args);
  }

  lemma RoomIsEnough(m: Module, table: seq<Entry>, core: Core)
    requires IsTable(PlanOf(m), table) && HasRoom(m, core)
    ensures RoomFor(table, core)
  {
    forall e | e in table ensures |core.stack| + e.args + 5 <= STACK_LIMIT {
      var i := EntryOfTable(m, table, e);
    }
  }

  lemma TableEmpty(m: Module, table: seq<Entry>)
    requires IsTable(PlanOf(m), table)
    ensures table == [] <==> NoneDispatched(m)
  {
    forall i | 0 <= i < |m| && Dispatched(m[i]) ensures table != [] {
      EntryInTable(m, table, i);
    }
    if table != [] {
      var i := EntryOfTable(m, table, table[0]);
    }
  }

  // The first entry of a sorted table is that of a function with the least selector.
  lemma FirstIsLeast(m: Module, table: seq<Entry>) returns (i: nat)
    requires IsTable(PlanOf(m), table) && Sorted(table) && table != []
    ensures EntryOf(m, i, table[0]) && IsLeast(m, i, table[0].selector)
  {
    i := EntryOfTable(m, table, table[0]);
    forall j | 0 <= j < |m| && Dispatched(m[j]) ensures table[0].selector <= Low32(m[j].selector.value) {
      EntryInTable(m, table, j);
    }
  }

  lemma LeastIsUnique(m: Module, i: nat, a: nat)
    requires IsLeast(m, i, a)
    ensures forall j: nat, b: nat :: IsLeast(m, j, b) ==> b == a
  {
  }

  // An entry that is entered is entered at the code of its function, with the calldata words.
  lemma EntersItsFunction(m: Module, table: seq<Entry>, P: seq<nat>, i: nat, e: Entry, env: Env, core: Core, t: State)
    requires Closed(PlanOf(m)) && IsTable(PlanOf(m), table) && Stands(m, table, P)
    requires EntryOf(m, i, e) && e in table && Enters(env, RuntimeStream(PlanOf(m), table), e, core, t)
    ensures EntersFunction(m, i, P, env, CallWords(env.calldata, m[i].args), core, t)
  {
    CollectsAll(m, |m|);
    CollectsAll(m, i);
    CollectsFront(m, |m|, i);
    assert Begin(Front(m, i)) in ItemsOf(m);
    var j :| 0 <= j < |ItemsOf(m)| && ItemsOf(m)[j] == Begin(Front(m, i));
    assert StartsAt(m, i, j);
    ArgsAreWords(env.calldata, m[i].args);
  }

  lemma {:induction false} ArgsAreWords(calldata: seq<byte>, n: nat)
    ensures Dispatch.ArgWords(calldata, n) == CallWords(calldata, n)
  {
    if n > 0 {
      ArgsAreWords(calldata, n - 1);
    }
  }

  // A function that is dispatched to is among the externals.
  lemma {:induction false} CollectsFront(m: Module, n: nat, i: nat)
    requires i < n <= |m| && Dispatched(m[i])
    ensures exists e :: e in Collect(m, n).externals && e.front == Front(m, i)
  {
    if i < n - 1 {
      CollectsFront(m, n - 1, i);
      var e :| e in Collect(m, n - 1).externals && e.front == Front(m, i);
      assert e in Collect(m, n).externals;
    } else {
      AttributesDecide(m[i]);
      CollectsAll(m, i);
      var e := External(Low32(m[i].selector.value), Front(m, i), m[i].args);
      assert e in Collect(m, n).externals;
    }
  }

  // The fallback the emitter knows is the one that is recognised.
  lemma OnlyFallback(m: Module)
    requires Single(m, 2)
    ensures PlanOf(m).fallback.None? <==> NoneRecognised(m)
    ensures forall i :: 0 <= i < |m| && Recognised(m[i]) ==> PlanOf(m).fallback == Some(Front(m, i))
  {
    FallbackIsLast(m, |m|);
  }

  lemma EntersFallback(m: Module, table: seq<Entry>, P: seq<nat>, i: nat, env: Env, core: Core, t: State)
    requires Closed(PlanOf(m)) && Stands(m, table, P) && i < |m| && PlanOf(m).fallback == Some(Front(m, i))
    requires AtFallback(env, RuntimeStream(PlanOf(m), table), Wrap(Front(m, i)), core, t)
    ensures EntersFunction(m, i, P, env, [], core, t)
  {
    CollectsAll(m, |m|);
    var j :| 0 <= j < |ItemsOf(m)| && ItemsOf(m)[j] == Begin(Front(m, i));
    assert StartsAt(m, i, j);
    assert [] + ([Selector(env.calldata)] + core.stack) == [Selector(env.calldata)] + core.stack;
  }

  lemma CallAnswered(m: Module, table: seq<Entry>, P: seq<nat>, env: Env, core: Core) returns (t: State)
    requires Loadable(PlanOf(m), table) && HasRoom(m, core) && Single(m, 2) && Stands(m, table, P)
    ensures LeavesDispatcher(PlanOf(m), table, Assembled(RuntimeStream(PlanOf(m), table)), env, core, t)
    ensures Answers(m, P, env, core, t)
  {
    RoomIsEnough(m, table, core);
    t := PlanServed(PlanOf(m), table, env, core);
    TableEmpty(m, table);
    if table != [] {
      TableAnswers(m, table, P, env, core, t);
    } else {
      FallbackAnswers(m, table, P, env, core, t);
    }
  }

  lemma TableAnswers(m: Module, table: seq<Entry>, P: seq<nat>, env: Env, core: Core, t: State)
    requires Closed(PlanOf(m)) && IsTable(PlanOf(m), table) && Sorted(table) && Stands(m, table, P)
    requires table != [] && !NoneDispatched(m)
    requires PlanAnswers(PlanOf(m), table, RuntimeStream(PlanOf(m), table), env, core, t)
    ensures Answers(m, P, env, core, t)
  {
    var i := FirstIsLeast(m, table);
    LeastIsUnique(m, i, table[0].selector);
    if Selector(env.calldata) == table[0].selector {
      EntersItsFunction(m, table, P, i, table[0], env, core, t);
      assert IsLeast(m, i, Selector(env.calldata));
    }
  }

  lemma FallbackAnswers(m: Module, table: seq<Entry>, P: seq<nat>, env: Env, core: Core, t: State)
    requires Closed(PlanOf(m)) && Stands(m, table, P) && Single(m, 2)
    requires table == [] && NoneDispatched(m)
    requires PlanAnswers(PlanOf(m), table, RuntimeStream(PlanOf(m), table), env, core, t)
    ensures Answers(m, P, env, core, t)
  {
    OnlyFallback(m);
    forall i | 0 <= i < |m| && Recognised(m[i]) ensures EntersFunction(m, i, P, env, [], core, t) {
      EntersFallback(m, table, P, i, env, core, t);
    }
  }

  lemma AllServed(m: Module, table: seq<Entry>, runtime: seq<byte>)
    requires Loadable(PlanOf(m), table) && runtime == Assembled(RuntimeStream(PlanOf(m), table)) && Single(m, 2)
    ensures Serves(m, runtime)
  {
    var P := CodeStands(m, table, runtime);
    ServedThere(m, table, runtime, P);
  }

  lemma ServedThere(m: Module, table: seq<Entry>, runtime: seq<byte>, P: seq<nat>)
    requires Loadable(PlanOf(m), table) && runtime == Assembled(RuntimeStream(PlanOf(m), table)) && Single(m, 2)
    requires Stands(m, table, P) && forall env: Env :: CodeRuns(env, runtime, ItemsOf(m), P)
    ensures ServesAt(m, runtime, P)
  {
    forall env: Env, core: Core | HasRoom(m, core) ensures Served(m, runtime, P, env, core) {
      var t := CallAnswered(m, table, P, env, core);
    }
  }

  lemma AllDeploy(deploy: seq<byte>, size: uint32, start: LabelID, runtime: seq<byte>)
    requires |runtime| == size && deploy == Assembled(DeployCode(size, start))
    ensures Deploys(deploy, runtime)
  {
    forall env: Env, core: Core | env.code == deploy + runtime && |core.stack| + 3 <= STACK_LIMIT
      ensures Returns(env, core, runtime)
    {
      DeployReturnsRuntime(env, core, runtime, size, start);
    }
  }

  // ---------- the emitter ----------

  datatype Failure = Rejected | Undefined(id: LabelID)

  // The labels of a module can be told apart, and each has its block.
  ghost predicate Links(p: Plan) {
    Closed(p) && LabelsNeeded(p) <= 0x1_0000
  }

  method RuntimeCode(m: Module) returns (r: Result<seq<byte>, LabelID>, ghost table: seq<Entry>)
    ensures IsTable(PlanOf(m), table) && Sorted(table)
    ensures Links(PlanOf(m)) ==> r.Ok?
    ensures r.Ok? ==> r.value == Assembled(RuntimeStream(PlanOf(m), table))
  {
    var stream := new BytecodeStream();
    table := EmitRuntime.EmitRuntime(m, stream);
    ghost var p := PlanOf(m);
    if Links(p) {
      BodiesAccepted(p, table);
      StreamDefined(table, FallbackLabel(p), AsEmitted, p.blocks, EmitRuntime.Bodies(p, table));
    }
    r := stream.Finalize();
  }

  // The code of a constructor starts without the label of its first block.
  function Headless(items: seq<Item>, front: nat, k: nat): seq<Item>
    requires k <= |items|
  {
    if k == 0 then []
    else Headless(items, front, k - 1) + if items[k - 1] == Begin(front) then [] else [items[k - 1]]
  }

  // It is what it is without that label.
  lemma {:induction false} HeadlessDrops(a: seq<Item>, b: seq<Item>, front: nat, k: nat)
    requires Begin(front) !in a && Begin(front) !in b && k <= |a| + 1 + |b|
    ensures Headless(a + [Begin(front)] + b, front, k)
         == if k <= |a| then a[..k] else a + b[..k - |a| - 1]
  {
    if k > 0 {
      HeadlessDrops(a, b, front, k - 1);
      var items := a + [Begin(front)] + b;
      if k <= |a| {
        assert a[..k] == a[..k - 1] + [a[k - 1]] && items[k - 1] == a[k - 1];
      } else if k > |a| + 1 {
        var j := k - |a| - 2;
        assert b[..j + 1] == b[..j] + [b[j]] && items[k - 1] == b[j];
      }
    }
  }

  // The first function of kind constructor, at index k or later.
  function FindConstructor(m: Module, k: nat): (r: Option<nat>)
    requires k <= |m|
    ensures r.Some? ==> k <= r.value < |m| && Has(m[r.value].kind, CONSTRUCTOR)
    ensures r.None? ==> forall i :: k <= i < |m| ==> !Has(m[i].kind, CONSTRUCTOR)
    decreases |m| - k
  {
    if k == |m| then None else if Has(m[k].kind, CONSTRUCTOR) then Some(k) else FindConstructor(m, k + 1)
  }

  function ConstructorItems(m: Module): seq<Item> {
    match FindConstructor(m, 0)
    case Some(i) => Headless(m[i].items, Front(m, i), |m[i].items|)
    case None => []
  }

  // The constructor, if there is one, and the deployment code behind it. The labels of the constructor's
  // blocks are those of the runtime stream; those of its calls are counted from 0.
  function DeployStream(m: Module, size: uint32): seq<Instr> {
    var items := ConstructorItems(m);
    ItemsCode(items, |items|, 0) + DeployCode(size, Wrap(CallLabels(items, |items|)))
  }

  method DeploymentCode(m: Module, size: uint32) returns (r: Result<seq<byte>, LabelID>)
    ensures FindConstructor(m, 0).None? ==> r.Ok? && r.value == Assembled(DeployCode(size, 0))
    ensures r.Ok? ==> r.value == Assembled(DeployStream(m, size))
    ensures r.Err? ==> !RefsDefined(DeployStream(m, size))
  {
    var stream := new BytecodeStream();
    ghost var calls := EmitItems(ConstructorItems(m), stream, 0);
    EmitDeploy(stream, size);
    assert stream.instructions == DeployStream(m, size);
    if FindConstructor(m, 0).None? {
      WithoutConstructor(m, size);
      DeployLinks(size, 0, DeployCode(size, 0));
    }
    r := stream.Finalize();
  }

  lemma WithoutConstructor(m: Module, size: uint32)
    requires FindConstructor(m, 0).None?
    ensures DeployStream(m, size) == DeployCode(size, 0)
  {
  }

  lemma RuntimeCorrect(m: Module, table: seq<Entry>, runtime: seq<byte>)
    requires IsTable(PlanOf(m), table) && Sorted(table) && runtime == Assembled(RuntimeStream(PlanOf(m), table))
    requires Single(m, 2)
    ensures Links(PlanOf(m)) && |runtime| < 0x1_0000 ==> Serves(m, runtime)
  {
    if Links(PlanOf(m)) && |runtime| < 0x1_0000 {
      AllServed(m, table, runtime);
    }
  }

  lemma DeploymentCorrect(deploy: seq<byte>, size: uint32, start: LabelID, runtime: seq<byte>)
    requires |runtime| < 0x1_0000_0000 ==> size == |runtime|
    requires deploy == Assembled(DeployCode(size, start))
    ensures |runtime| < 0x1_0000_0000 ==> Deploys(deploy, runtime)
  {
    if |runtime| < 0x1_0000_0000 {
      AllDeploy(deploy, size, start, runtime);
    }
  }

  ghost predicate NoConstructor(m: Module) {
    forall i :: 0 <= i < |m| ==> !Has(m[i].kind, 1)
  }

  // Modules with two constructors or two fallbacks are refused. Of any other that links, every call is
  // answered; without a constructor, deployment returns the runtime code.
  method EmitModule(m: Module) returns (r: Result<(seq<byte>, seq<byte>), Failure>, ghost table: seq<Entry>)
    ensures r == Err(Rejected) <==> !Accepted(m)
    ensures Accepted(m) ==> IsTable(PlanOf(m), table) && Sorted(table)
    ensures Accepted(m) && Links(PlanOf(m)) && NoConstructor(m) ==> r.Ok?
    ensures r.Ok? && NoConstructor(m) && |r.value.1| < 0x1_0000_0000 ==> Deploys(r.value.0, r.value.1)
    ensures r.Ok? && Links(PlanOf(m)) && |r.value.1| < 0x1_0000 ==> Serves(m, r.value.1)
  {
    table := [];
    var ok := VerifyModule(m);
    if !ok {
      return Err(Rejected), table;
    }
    var runtime;
    runtime, table := RuntimeCode(m);
    if runtime.Err? {
      return Err(Undefined(runtime.error)), table;
    }
    var size := Low32(|runtime.value|);
    var deploy := DeploymentCode(m, size);
    if deploy.Err? {
      return Err(Undefined(deploy.error)), table;
    }
    RuntimeCorrect(m, table, runtime.value);
    if FindConstructor(m, 0).None? {
      DeploymentCorrect(deploy.value, size, 0, runtime.value);
    }
    r := Ok((deploy.value, runtime.value));
  }

  // Deployment, then a call, for a dispatcher with either comparison.
  lemma DeployThenCall(deployment: Env, deployer: Core, call: Env, caller: Core, entries: seq<Entry>,
                       fallback: Option<LabelID>, v: Variant, next: nat, bodies: seq<Instr>,
                       size: uint32, start: LabelID)
    requires Ready(entries, fallback, v, next, bodies, caller)
    requires var prog := Stream(entries, fallback, v, next, bodies);
      && size == |Assembled(prog)|
      && deployment.code == Assembled(DeployCode(size, start)) + Assembled(prog)
    requires |deployer.stack| + 3 <= STACK_LIMIT
    ensures exists code, n: nat, after ::
      && Run(Evm(deployment), deployment.code, Running(0, deployer), n) == Halted(Returned(code, after))
      && Leaves(Evm(call), code, DispatcherSize(entries, fallback, v, next, bodies), Running(0, caller),
                Landed(Stream(entries, fallback, v, next, bodies), call, entries, fallback, v, caller))
  {
    var prog := Stream(entries, fallback, v, next, bodies);
    DeployReturnsRuntime(deployment, deployer, Assembled(prog), size, start);
    DispatchLands(call, entries, fallback, v, next, bodies, caller);
  }

  // ---------- particular calls ----------

  // The function with the least selector is entered by the call the ABI encodes for it, with the arguments
  // of that call in order: an external (0) function of kind function (0), whatever their number.
  lemma LeastEntered(m: Module, table: seq<Entry>, P: seq<nat>, env: Env, core: Core, i: nat, words: seq<Word>)
    returns (t: State)
    requires Loadable(PlanOf(m), table) && HasRoom(m, core) && Stands(m, table, P) && Single(m, 2)
    requires i < |m| && m[i].visibility.Some? && Low32(m[i].visibility.value) == 0
    requires m[i].kind.Some? && Low32(m[i].kind.value) == 0 && m[i].selector.Some?
    requires forall j :: 0 <= j < |m| && j != i && Dispatched(m[j]) ==>
      Low32(m[i].selector.value) < Low32(m[j].selector.value)
    requires |words| == m[i].args && env.calldata == EncodeCall(Low32(m[i].selector.value), words)
    ensures Leaves(Evm(env), Assembled(RuntimeStream(PlanOf(m), table)), P[0], Running(0, core), t)
    ensures EntersFunction(m, i, P, env, words, core, t)
    ensures t.core.stack == words + ([Low32(m[i].selector.value) as Word] + core.stack)
  {
    t := CallAnswered(m, table, P, env, core);
    SelectorDecodes(Low32(m[i].selector.value), words);
    WordsDecode(Low32(m[i].selector.value), words);
    OnlyLeast(m, P, env, core, t, i, Selector(env.calldata));
  }

  lemma OnlyLeast(m: Module, P: seq<nat>, env: Env, core: Core, t: State, i: nat, selector: nat)
    requires |P| == |ItemsOf(m)| + 1 && Answers(m, P, env, core, t) && selector == Selector(env.calldata)
    requires i < |m| && Dispatched(m[i]) && Low32(m[i].selector.value) == selector
    requires forall j :: 0 <= j < |m| && j != i && Dispatched(m[j]) ==> selector < Low32(m[j].selector.value)
    ensures EntersFunction(m, i, P, env, CallWords(env.calldata, m[i].args), core, t)
  {
    assert IsLeast(m, i, selector);
    forall k: nat | IsLeast(m, k, selector) ensures k == i {
    }
  }

  lemma WordsDecode(selector: uint32, words: seq<Word>)
    ensures CallWords(EncodeCall(selector, words), |words|) == words
  {
    forall k | 0 <= k < |words| ensures CallWords(EncodeCall(selector, words), |words|)[k] == words[k] {
      ArgumentDecodes(selector, words, k);
    }
  }

  // A call whose selector is that of no function dispatched to ends at the declared fallback (2) iff there is
  // no such function and the fallback has all three attributes; otherwise it is rejected.
  lemma FallbackCall(m: Module, table: seq<Entry>, P: seq<nat>, env: Env, core: Core, i: nat) returns (t: State)
    requires Loadable(PlanOf(m), table) && HasRoom(m, core) && Stands(m, table, P) && Accepted(m)
    requires i < |m| && m[i].kind.Some? && Low32(m[i].kind.value) == 2
    requires forall j :: 0 <= j < |m| && Dispatched(m[j]) ==> Low32(m[j].selector.value) != Selector(env.calldata)
    ensures Leaves(Evm(env), Assembled(RuntimeStream(PlanOf(m), table)), P[0], Running(0, core), t)
    ensures t.Running? <==> NoneDispatched(m) && m[i].visibility.Some? && m[i].selector.Some?
    ensures if t.Running? then EntersFunction(m, i, P, env, [], core, t) else Rejects(t)
  {
    t := CallAnswered(m, table, P, env, core);
    if NoneDispatched(m) {
      assert Has(m[i].kind, 2);
      forall j | 0 <= j < |m| && Recognised(m[j]) ensures j == i {
        assert Has(m[j].kind, 2);
      }
    }
  }
}
