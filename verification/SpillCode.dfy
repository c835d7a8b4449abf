// The code that takes a result to its spill word and brings it back.

module SpillCode {
  import opened Words
  import opened Opcodes
  import opened Bytecode
  import opened Machine
  import opened Fragments

  // The result is on top when the store begins; the swap brings it back there.
  function SpillSequence(offset: uint32): seq<Instr> {
    [PushNat(offset), Op(SWAP1), Op(MSTORE)]
  }

  function ReloadSequence(offset: uint32): seq<Instr> {
    [PushNat(offset), Op(MLOAD)]
  }

  method EmitSpill(offset: uint32, stream: BytecodeStream)
    modifies stream`instructions
    ensures stream.instructions == old(stream.instructions) + SpillSequence(offset)
  {
    stream.EmitPush(offset);
    stream.Emit(SWAP1);
    stream.Emit(MSTORE);
  }

  method EmitReload(offset: uint32, stream: BytecodeStream)
    modifies stream`instructions
    ensures stream.instructions == old(stream.instructions) + ReloadSequence(offset)
  {
    stream.EmitPush(offset);
    stream.Emit(MLOAD);
  }


  lemma ReloadRuns(c: Linked, k: nat, core: Core, offset: uint32) returns (after: Core)
    requires Interprets(c.sem, c.env) && At(c, k, ReloadSequence(offset)) && |core.stack| < STACK_LIMIT
    ensures Reaches(c, Running(k, core), Running(k + 2, after))
    ensures after.stack == [WordOf(Window(core.mem, offset, 32))] + core.stack
    ensures after.mem == core.mem && after.storage == core.storage
  {
    Nth(c, k, ReloadSequence(offset), 0);
    Nth(c, k, ReloadSequence(offset), 1);
    var c1 := Ran(c.env, PushNat(offset).width, core, [offset] + core.stack);
    DoPush(c, k, core, offset);
    after := Ran(c.env, MLOAD, c1, [WordOf(Window(core.mem, offset, 32))] + core.stack);
    assert c1.stack[1..] == core.stack;
    DoOp(c, k + 1, c1, MLOAD, after);
    TwoSteps(c, Running(k, core), Running(k + 1, c1), Running(k + 2, after));
  }

  lemma DoSwap(c: Linked, k: nat, core: Core, a: Word, b: Word, rest: seq<Word>, after: Core)
    requires Interprets(c.sem, c.env) && k < |c.prog| && c.prog[k] == Op(SWAP1)
    requires core.stack == [a, b] + rest && after == Ran(c.env, SWAP1, core, [b, a] + rest)
    ensures Next1(c, Running(k, core)) == Running(k + 1, after)
  {
    assert core.stack[0 := b][1 := a] == after.stack;
    DoOp(c, k, core, SWAP1, after);
  }

  lemma DoSpill(c: Linked, k: nat, core: Core, at: Word, v: Word, rest: seq<Word>, after: Core)
    requires Interprets(c.sem, c.env) && k < |c.prog| && c.prog[k] == Op(MSTORE)
    requires core.stack == [at, v] + rest
    requires after == Ran(c.env, MSTORE, core, rest).(mem := Write(core.mem, at, ToBytes(v, 32)))
    ensures Next1(c, Running(k, core)) == Running(k + 1, after)
  {
    assert core.stack[2..] == rest;
    DoOp(c, k, core, MSTORE, after);
  }

  // The result x is used as the address, and the offset is what is stored there.
  lemma SpillRuns(c: Linked, k: nat, core: Core, offset: uint32, x: Word, rest: seq<Word>) returns (after: Core)
    requires Interprets(c.sem, c.env) && At(c, k, SpillSequence(offset)) && core.stack == [x] + rest
    requires |core.stack| < STACK_LIMIT
    ensures Reaches(c, Running(k, core), Running(k + 3, after))
    ensures after.stack == rest && after.storage == core.storage
    ensures after.mem == Write(core.mem, x, ToBytes(offset, 32))
  {
    Nth(c, k, SpillSequence(offset), 0);
    Nth(c, k, SpillSequence(offset), 1);
    Nth(c, k, SpillSequence(offset), 2);
    var c1 := Ran(c.env, PushNat(offset).width, core, [offset] + core.stack);
    DoPush(c, k, core, offset);
    var c2 := Ran(c.env, SWAP1, c1, [x, offset] + rest);
    DoSwap(c, k + 1, c1, offset, x, rest, c2);
    after := Ran(c.env, MSTORE, c2, rest).(mem := Write(c2.mem, x, ToBytes(offset, 32)));
    DoSpill(c, k + 2, c2, x, offset, rest, after);
    ThreeSteps(c, k, core, c1, c2, after);
  }

  lemma ThreeSteps(c: Linked, k: nat, core: Core, c1: Core, c2: Core, c3: Core)
    requires Within(c, Running(k, core)) && Within(c, Running(k + 1, c1)) && Within(c, Running(k + 2, c2))
    requires Next1(c, Running(k, core)) == Running(k + 1, c1)
    requires Next1(c, Running(k + 1, c1)) == Running(k + 2, c2)
    requires Next1(c, Running(k + 2, c2)) == Running(k + 3, c3)
    ensures Reaches(c, Running(k, core), Running(k + 3, c3))
  {
    TwoSteps(c, Running(k, core), Running(k + 1, c1), Running(k + 2, c2));
    ThenStep(c, Running(k, core), Running(k + 2, c2), Running(k + 3, c3));
  }

  // After the store, a load brings the result back.
  ghost predicate Recovers(offset: uint32, x: Word, mem: seq<byte>) {
    WordOf(Window(Write(mem, x, ToBytes(offset, 32)), offset, 32)) == x
  }

  // The store does its work, whatever memory holds, iff the result is the offset itself.
  lemma SpillRecoversIff(offset: uint32, x: Word)
    ensures (forall mem :: Recovers(offset, x, mem)) <==> x == offset
  {
    if x == offset {
      forall mem ensures Recovers(offset, x, mem) {
        ReadBack(mem, x, ToBytes(offset, 32));
        WordBytes(x);
      }
    } else {
      var p := if x < offset then offset + 31 else offset;
      var b: byte := if ToBytes(x, 32)[p - offset] == 0 then 1 else 0;
      var mem: seq<byte> := seq(p + 1, _ => b);
      WriteAt(mem, x, ToBytes(offset, 32));
      var w := Window(Write(mem, x, ToBytes(offset, 32)), offset, 32);
      assert w[p - offset] == b;
      ToFromBytes(w);
      assert !Recovers(offset, x, mem);
    }
  }
}
