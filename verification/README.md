# Verified model of the evmlir back end

The back half of the compiler in two parts, and proofs about both.

**Allocation.** A function is a list of blocks of operations with operands, results and block
arguments (`Liveness.dfy`). `InterferenceGraph.dfy` builds the interference graph by the backward scan
over each block; `StackAllocator.dfy` takes the graph apart (simplify, spill or recompute) and colours it
in reverse order; `CostModel.dfy` is the budgeted search that chooses between recomputing and spilling;
`MemoryAllocator.dfy` hands out 32-byte words. `Subgraphs.dfy` and `Schedule.dfy` state on the graph alone in
which order vertices may be taken out, and what that order decides; `Cores.dfy` says when a graph can be
simplified. `Execution.dfy` runs a function on values, for what recomputation relies on, and `TreeCode.dfy`
evaluates what is recomputed on the machine. `SpillMemory.dfy`, `Storage.dfy` and `AllocationSoundness.dfy`
draw the conclusions: on every path through the control-flow
graph, values live at the same point never share a colour or overlap in spill memory, and on every run,
with colours as registers and spill words as memory, every live value is still in its location. `Limits.dfy`
has functions at which the allocator's limits are met.

**Bytecode.** `Bytecode.dfy` is the two-pass assembler. `Machine.dfy` is a byte-level EVM (program
counter, PUSH immediates, jump destination validity) after sections 9.4 and Appendix H of the Ethereum
Yellow Paper and EIP-3855; `Simulation.dfy` is a machine over the instruction list with labels, and the
proof that assembled bytes run in lock step with it; `Fragments.dfy` composes runs of pieces of code. On
that rest the emitted programs: `Dispatcher.dfy`, `Dispatch.dfy`, `DispatchProofs.dfy` and `Runtime.dfy`
(selector load, binary search tree, argument decoding), `EmitRuntime.dfy` (the whole runtime stream of a
module), `Bodies.dfy` (what the code of its functions does), `Functions.dfy` (which functions are dispatched
to), `Abi.dfy` (calls as the ABI encodes them), `Calls.dfy` (what a call to the bytes does), `Emitter.dfy`
(deployment code, external return), `Contract.dfy` (the two programs of a module, deployed and called) and
`Samples.dfy` (three modules). `StackTracker.dfy` is the emitter's
picture of the machine stack, and `SpillCode.dfy` the code that stores and reloads a spilled value.

Code that changes state step by step is a class or method with loops, proved against functions and
predicates on values; the theorems are lemmas about those.

Results about calls speak of runs of the assembled bytes from program counter 0. `Runtime.Leaves` says
that a state is the first one outside the dispatcher's bytes, so that control has been in no function
before; `Runtime.LeavesOnce` shows that there is only one such state.

Assumptions. MLIR's live sets are a parameter: they solve the dataflow equations and nothing is live
into the entry (`Liveness.Dataflow`), and no value is used before its definition inside a block
(`Liveness.NoEarlyUse`). Runs are those of functions in single-assignment form
(`Execution.SingleAssignment`). Any vertex of low degree may be picked, any iteration order of a set or
map may occur, and spill words may be freed at any time in the selection phase. The sort of the dispatch
table delivers some sorted permutation. Meanings of EVM opcodes that the proofs do not mention are a
parameter of the machine.

Where the code does not do what it is for, the model follows the code and says exactly when it does:

- The dispatcher compares with a single LT while the pivot is on top of the selector, so a selector equal
  to a pivot goes left, away from its entry. `DispatchProofs.EmittedReachesIff`: every function of a table
  can be called iff there is only one. `DispatchProofs.EmittedDispatchesIff`: every selector of a table is
  dispatched, to some function, iff its first and last are equal. `DispatchProofs.SecondEntryUnreachable`
  is a table of two. The proofs take the comparison as a parameter (`Dispatcher.Variant`);
  `DispatchProofs.IntendedDispatches` shows that pivot <= selector dispatches every table, and
  `DispatchProofs.IntendedReachesIff` that it reaches every function iff no two share a selector.
- A fallback is recognised only if it has a selector, and called only if no function has an entry in the
  dispatch table. `Contract.FallbackCall`: in an accepted module, a call with the selector of no entry ends
  at the declared fallback iff the module has no entry and the fallback has a visibility and a selector;
  otherwise it is rejected. `Samples.FallbackUnrecognised`: a module that is nothing but a fallback without
  a selector rejects every call. `Samples.FallbackIgnored`: with one function beside it, a fallback with a
  selector is not called either.
- Label operands hold 16 bits. `Fragments.OperandsExact`: all operands of a program hold the offsets of
  their labels iff those offsets are below 65536, which code shorter than that ensures.
  `Fragments.FarLabelWrong` is a family of programs with a wrong operand.
- Label numbers are 16 bits. `Dispatcher.LabelsDistinct`: the first n labels of a stream differ iff
  n <= 65536.
- Spill offsets are 32 bits wide. `SpillMemory.Conservation`: the words of n spilled values are disjoint
  iff n <= 2^27. `SpillMemory.SmallGraphDisjoint` is the check to make beforehand: a graph of at most
  2^27 + 16 vertices never spills more. `Limits.WideOverlapsIff`: the spill words of a function whose n
  arguments are all used by one operation are disjoint iff n <= 2^27 + 16.
- The backward scan takes an argument out of the live set before it looks at the next one, so an argument
  nobody reads does not interfere with a live one in front of it. `Storage.EntrySafeIff`: entering a block
  leaves all live values in place, whatever they are, iff no argument nobody reads shares the colour of a
  live argument in front of it; results of operations never overwrite
  what is live behind them (`Storage.OutcomeClear`), and then every run keeps every live value
  (`Storage.RunKeeps`).
  `Limits.ArgumentOverwritten`: with seventeen arguments of which only the second is unused, every layout
  the allocator can produce overwrites the first.
- The code that stores a spilled result swaps it on top of the offset, and so stores the offset at the
  address given by the result. `SpillCode.SpillRecoversIff`: the reload brings the result back, whatever
  memory holds, iff the result is the offset.
- A price to spill is 32 bits wide. `CostModel.EVMCostModel.SpillMemoryCost`: it is the true price iff
  that is below 2^32. `Allocation.ThresholdCovers`: the prices the allocator asks for always are.
- The tracker truncates its size to 8 bits before it searches. `Tracking.WindowExact`: the search covers
  the 16 values in reach iff the size is below 16 or its low 8 bits are at least 16.
- A value that interferes with no other gets no location at all: `AllocationSoundness.AllocateFunction`,
  through `PlacesInterfering`, an equivalence. `Limits.UsedWithoutLocation`: the only argument of a function
  that uses it has no location.

## Model

| member | source | states |
|---|---|---|
| Liveness.LiveTogetherInterfere | lib/evmlir/Translation/Analysis/InterferenceGraph.cpp:8-36 | Completeness: any two distinct values that are live together at a point some path from the entry reaches interfere, by going back along the path to the later definition |
| Liveness.NeededIsLive | lib/evmlir/Translation/Analysis/InterferenceGraph.cpp:8-36 | Live sets miss nothing: a value with a use on some way ahead, not redefined before it, is in every solution of the dataflow equations |
| Liveness.LiveAtIff | lib/evmlir/Translation/Analysis/InterferenceGraph.cpp:8-25 | What the backward scan holds live in front of an operation: exactly the values that an operation of the block from there on uses, or that are live out of it, and that are not defined again before |
| Liveness.LivenessInfo.constructor | lib/evmlir/Translation/Analysis/LivenessInfo.cpp:5-11 | Every value's counter is its number of operand occurrences modulo 2^32 |
| Liveness.LivenessInfo.GetUseCount | lib/evmlir/Translation/Analysis/LivenessInfo.cpp:22-25 | Unused values count 0 |
| Liveness.UseCountIsPlaces | lib/evmlir/Translation/Analysis/LivenessInfo.cpp:5-11 | The use count is the number of triples of block, operation and operand index that hold the value |
| Interference.ScanIsExact | lib/evmlir/Translation/Analysis/InterferenceGraph.cpp:8-36 | A pair is met by the block scan iff the first is defined at an operation or as an argument while the second is live or an operand |
| Interference.EdgesExact | lib/evmlir/Translation/Analysis/InterferenceGraph.cpp:8-36 | Two values are adjacent iff one of them is a result of an operation that uses the other or has it live behind it, or an argument of a block at whose start the other is live and not an argument in front of it |
| Interference.OperandsAdjacent | lib/evmlir/Translation/Analysis/InterferenceGraph.cpp:11-21 | A result and an operand of the same operation are adjacent, also when the operand dies there or the result is never used |
| Interference.InterferenceGraph.constructor | lib/evmlir/Translation/Analysis/InterferenceGraph.cpp:4-37 | Two values are adjacent iff they interfere; the vertices are exactly the values that interfere with some other |
| Interference.InterferenceIsSymmetric | lib/evmlir/Translation/Analysis/InterferenceGraph.cpp:15-20 | The graph is symmetric and has no loops |
| Interference.InterferenceGraph.RemoveNode | lib/evmlir/Translation/Analysis/InterferenceGraph.cpp:48-57 | Removing a vertex takes it out of the vertices and of every neighbourhood, changes nothing else and keeps symmetry; an absent vertex changes nothing |
| Memory.MemoryAllocator.Allocate | lib/evmlir/Translation/StackAllocation/MemoryAllocator.cpp:4-13 | The last freed word, or the next fresh one with a 32-bit wrapping offset |
| Memory.MemoryAllocator.Free | lib/evmlir/Translation/StackAllocation/MemoryAllocator.cpp:15-17 | The freed word is the next to be allocated, and allocating it undoes the free |
| Memory.MemoryAllocator.ExpansionCost | lib/evmlir/Translation/StackAllocation/MemoryAllocator.cpp:23-26 | At most the true marginal cost of one more word of memory, and short of it by at most 1 |
| Memory.ExpansionIsMarginal | lib/evmlir/Translation/CodeGen/OsakaSpec.cpp:32-36 | The linear estimate against C_mem(n+1) - C_mem(n), for every n |
| Memory.TotalIsMemoryCost | lib/evmlir/Translation/StackAllocation/MemoryAllocator.cpp:23-26 | Summed over n allocations the estimate never exceeds C_mem(n) and is short by at most n |
| Memory.FreshWordsDisjoint | lib/evmlir/Translation/StackAllocation/MemoryAllocator.cpp:10-12 | The first n words of a fresh allocator are pairwise disjoint iff n <= 2^27 |
| CostModel.EVMCostModel.RecomputeCost | lib/evmlir/Translation/CodeGen/EVMCostModel.cpp:5-10 | Returns c iff the value is a tree of at most 5 levels of pure one-opcode operations over the values on the stack, c is the gas of its opcodes, and c is below gas(MSTORE) + gas(MLOAD) + (0 if warm, else twice the expansion); so a second comparison with that price is redundant |
| CostModel.EVMCostModel.RecomputeCostImpl | lib/evmlir/Translation/CodeGen/EVMCostModel.cpp:12-43 | The same at every depth and accumulated cost, for every threshold that leaves 32-bit room; every recursive call starts below the threshold (loop invariant) |
| CostModel.EVMCostModel.SpillMemoryCost | lib/evmlir/Translation/CodeGen/EVMCostModel.cpp:52-58 | The 32-bit price equals gas(MSTORE) + gas(MLOAD) + (0 if warm, else twice the expansion) iff that number is below 2^32 |
| Allocation.ThresholdCovers | lib/evmlir/Translation/CodeGen/EVMCostModel.cpp:52-58 | In every allocator state the price is taken without wrap; it covers the static gas and the true memory growth of a store and a load, and exceeds them by at most one expansion |
| CostModel.CostIsGas | lib/evmlir/Translation/CodeGen/EVMCostModel.cpp:12-43 | A value has a cost iff it is a tree of pure one-opcode operations, at most 5 on any path, over known values and without block arguments, and then the cost is the sum of the gas of the opcodes in evaluation order |
| TreeCode.TreeEvaluates | lib/evmlir/Translation/CodeGen/EVMCostModel.cpp:24-42 | On the machine: running the opcodes of such a tree with nothing known, last operand first, leaves the value of the tree on top and spends exactly the gas the cost model counts |
| Execution.RunKeepsTrees | lib/evmlir/Translation/CodeGen/EVMCostModel.cpp:45-50 | At every point of every run of a single-assignment function, through any number of rounds of any loop, each known pure tree has the value evaluating it gives |
| Execution.TreeIsStable | lib/evmlir/Translation/CodeGen/EVMCostModel.cpp:45-50 | Such a tree has the same value at any two points, of any two runs, that know it |
| Allocation.StackAllocator.Run | lib/evmlir/Translation/StackAllocation/StackAllocator.cpp:4-85 | Terminates with graph and stack empty, for some order of the vertices: each was taken out with fewer than 16 neighbours left, or else, when all had 16 or more, with the fewest uses per neighbour of all that were left; the latter got, in order, the location their turn called for; all others have colours below 16, different along every original edge, each the least not held by a neighbour taken out later; some value leaves the stack iff the graph has a nonempty induced subgraph of minimum degree 16; at least min(16, number of vertices) values stay; every edge is in exactly one snapshot; frees never move the high-water mark |
| Allocation.OrderDetermines | lib/evmlir/Translation/StackAllocation/StackAllocator.cpp:4-85 | The order determines the layout: no other layout meets these rules for the same order |
| Schedule.CoreDecides | lib/evmlir/Translation/StackAllocation/StackAllocator.cpp:5-41 | Whatever the order, some vertex is taken out with 16 or more neighbours left iff the graph has a 16-core |
| Allocation.StackAllocator.SimplifyOne | lib/evmlir/Translation/StackAllocation/StackAllocator.cpp:5-41 | One round keeps the stage invariant: what is left is the induced subgraph of what remains, snapshots are original neighbourhoods minus earlier removals, no value has a colour yet |
| Allocation.StackAllocator.ForceOne | lib/evmlir/Translation/StackAllocation/StackAllocator.cpp:15-33 | When all degrees are 16 or more, one round takes out a value of fewest uses per neighbour, gives it its location and keeps the stage invariant |
| Allocation.StackAllocator.PlaceValue | lib/evmlir/Translation/StackAllocation/StackAllocator.cpp:19-32 | Recomputed iff the plain cost is below the spill price at this moment, otherwise spilled to the allocator's next slot |
| Allocation.StackAllocator.LowerSpillCost | lib/evmlir/Translation/StackAllocation/StackAllocator.cpp:91-105 | A vertex without location of least spill cost; while all degrees are 16 or more the answer is empty only if there is no such vertex, so the assertion of the caller holds |
| Allocation.StackAllocator.ComputeSpillCost | lib/evmlir/Translation/StackAllocation/StackAllocator.cpp:87-89 | Uses per remaining neighbour, rounded down |
| Allocation.StackAllocator.SelectOne | lib/evmlir/Translation/StackAllocation/StackAllocator.cpp:43-82 | One round keeps the colouring of what has come off the stack proper and forced locations unchanged |
| Allocation.StackAllocator.ChooseColor | lib/evmlir/Translation/StackAllocation/StackAllocator.cpp:49-80 | The least colour not used by a neighbour in the snapshot, always below 16 |
| Allocation.SimplifyStep | lib/evmlir/Translation/StackAllocation/StackAllocator.cpp:35-40 | Removing a vertex and recording its neighbours keeps the snapshot invariant |
| Schedule.LowDegreeStep | lib/evmlir/Translation/StackAllocation/StackAllocator.cpp:7-13 | A vertex of degree below 16 belongs to no core of what is left, so no core is ever broken by the simple case |
| Schedule.HighDegreeStep | lib/evmlir/Translation/StackAllocation/StackAllocator.cpp:15-33 | When all degrees are 16 or more, what is left is itself a core, of at least 17 vertices |
| Allocation.SelectStep | lib/evmlir/Translation/StackAllocation/StackAllocator.cpp:49-81 | A colour free in the snapshot is free among all original neighbours coloured so far |
| Allocation.EdgeInOneSnapshot | lib/evmlir/Translation/StackAllocation/StackAllocator.cpp:35-40 | Each original edge is in the snapshot of its first-removed endpoint and in no other |
| Cores.CoreOrElimination | lib/evmlir/Translation/StackAllocation/StackAllocator.cpp:5-41 | A graph has a 16-core iff no order removes all vertices with fewer than 16 remaining neighbours each; so values leave the stack only when every order would get stuck |
| SpillMemory.Conservation | lib/evmlir/Translation/StackAllocation/StackAllocator.cpp:24-32 | From fresh memory, n spilled values occupy exactly the offsets 0, 32, .., 32(n-1), one each, with high-water mark 32n whatever is freed; the words are disjoint iff n <= 2^27 |
| SpillMemory.SmallGraphDisjoint | lib/evmlir/Translation/StackAllocation/StackAllocator.cpp:24-32 | A graph of at most 2^27 + 16 vertices, a check on the input, never spills more words than offsets can tell apart |
| Limits.WideOverlapsIff | lib/evmlir/Translation/StackAllocation/StackAllocator.cpp:24-32 | The bound is tight: the spill words of a function with n arguments, all used by one operation, are disjoint iff n <= 2^27 + 16 |
| SpillMemory.RecomputedIsTree | lib/evmlir/Translation/StackAllocation/StackAllocator.cpp:26-30 | A value to recompute is a pure tree of at most 5 levels |
| SpillMemory.Decision | lib/evmlir/Translation/StackAllocation/StackAllocator.cpp:19-32 | A value that leaves the stack is recomputed iff it is such a tree and its opcodes cost less gas than gas(MSTORE) + gas(MLOAD) + 2 (3 + floor((2k + 1) / 512)), where k values were spilled before it, and otherwise gets the word at 32k; for k below 2^27 |
| AllocationSoundness.OutcomeIsSound | lib/evmlir/Translation/StackAllocation/StackAllocator.cpp:4-85 | End to end: along every path, at every point, distinct live values both have a location, stack colours differ and spill words are disjoint |
| AllocationSoundness.StackFits | lib/evmlir/Translation/StackAllocation/StackAllocator.cpp:78-81 | At most 16 of the values live at a point are on the stack |
| AllocationSoundness.NeededApart | lib/evmlir/Translation/StackAllocation/StackAllocator.cpp:4-85 | Two values that are both used later on some ways from a point, without being redefined first, have locations that differ |
| AllocationSoundness.OutcomeOperandsApart | lib/evmlir/Translation/StackAllocation/StackAllocator.cpp:4-85 | A result and an operand of the same operation both have locations, which differ, also when the operand dies there |
| Limits.DeadResultPlaced | test/Translation/Analysis/InterferenceGraph.cpp:186-201 | A value used twice by an operation whose result is never used: both have locations, which differ |
| AllocationSoundness.RecomputedIsStable | lib/evmlir/Translation/StackAllocation/StackAllocator.cpp:26-30 | At every point of every run that knows a value with a recompute location, evaluating its tree again gives the value it has |
| Storage.RunKeeps | lib/evmlir/Translation/StackAllocation/StackAllocator.cpp:4-85 | With colours as registers and spill words as byte memory, both written by every definition, dead ones too: at every point of every run, through any number of rounds of any loop, the location of each live value holds its value, if no definition shares a location with what is live behind it |
| Storage.OutcomeClear | lib/evmlir/Translation/Analysis/InterferenceGraph.cpp:10-36 | No result the allocator places shares a location with what is live behind its operation, and no argument does, given the condition on unread arguments |
| Storage.EntrySafeIff | lib/evmlir/Translation/Analysis/InterferenceGraph.cpp:27-35 | Entering a block leaves every live value in place, whatever the values, iff no argument nobody reads has the colour of a live argument in front of it |
| Limits.ArgumentOverwritten | lib/evmlir/Translation/Analysis/InterferenceGraph.cpp:27-35 | A function for which every layout the allocator can produce lets an unread argument overwrite a live one as the function is entered |
| Limits.UsedWithoutLocation | lib/evmlir/Translation/Analysis/InterferenceGraph.cpp:27-35 | A function whose only argument is used and has no location |
| Limits.OftenUsedStays | lib/evmlir/Translation/StackAllocation/StackAllocator.cpp:87-105 | Seventeen arguments that all interfere, the first used 33 times and the others once: in no layout the allocator can produce does the first leave the stack |
| AllocationSoundness.LiveIsAvailable | lib/evmlir/Translation/StackAllocation/StackAllocator.cpp:4-85 | At every point of every run, reading the register, loading the word or evaluating the tree again, as the location of a live value says, gives its value |
| AllocationSoundness.AllocateFunction | test/Translation/StackAllocation/StackAllocator.cpp:8-21 | Liveness counts, graph, memory and allocation run in sequence place exactly the interfering values, by the rules of one order of the vertices (least uses per neighbour, cheaper of recompute and spill, least colour); some value leaves the stack iff the interference graph has a 16-core, and at least min(16, number of vertices) stay; spilled values have exactly the offsets 0, 32, ..; at most 16 values live at a point are on the stack; values live together, and results and operands, are apart; along every run each live value stays in its location, if no unread argument has the colour of a live one in front of it |
| Tracking.StackTracker.FindDepth | lib/evmlir/Translation/CodeGen/StackTracker.cpp:9-16 | The least depth of the value within the searched window, or none |
| Tracking.WindowExact | lib/evmlir/Translation/CodeGen/StackTracker.cpp:9-16 | The search answers for the top 16 on all stacks of a size iff the size is below 16 or its low 8 bits are at least 16; always below 256 values |
| Tracking.StackTracker.Dup | lib/evmlir/Translation/CodeGen/StackTracker.cpp:18-22 | Pushes the value at the depth; a depth beyond the stack changes nothing |
| Tracking.StackTracker.Swap | lib/evmlir/Translation/CodeGen/StackTracker.cpp:24-28 | Exchanges top and depth, keeps all others and the multiset |
| Tracking.StackTracker.EmitStackValue | lib/evmlir/Translation/CodeGen/EVMEmitter.cpp:217-233 | Emits the DUP of the found depth and records it, unless the value is on top, dead afterwards or not found; a found value is on top afterwards iff it was there or is not dead, and a copy survives below the top iff it was not on top or there was a second one |
| Tracking.DupMirrors | lib/evmlir/Translation/CodeGen/EVMEmitter.cpp:229-233 | The DUP chosen is one of DUP1..DUP16, and running it puts the value on top of the machine stack with the tracker still exact |
| SpillCode.EmitSpill | lib/evmlir/Translation/CodeGen/EVMEmitter.cpp:201-206 | Appends push of the offset, SWAP1 and MSTORE |
| SpillCode.SpillRuns | lib/evmlir/Translation/CodeGen/EVMEmitter.cpp:201-206 | With the result on top, that code writes the offset at the address given by the result |
| SpillCode.SpillRecoversIff | lib/evmlir/Translation/CodeGen/EVMEmitter.cpp:201-206 | After it a load from the word gives the result back, whatever memory held, iff the result is the offset |
| SpillCode.ReloadRuns | lib/evmlir/Translation/CodeGen/EVMEmitter.cpp:234-238 | The reload puts the word at the offset on top and changes no memory |
| Bytecode.BytecodeStream.EmitPushBytes | lib/evmlir/Translation/CodeGen/BytecodeStream.cpp:8-23 | Appends the push with as many immediate bytes as follow the leading zeros |
| Bytecode.BytecodeStream.EmitPush | lib/evmlir/Translation/CodeGen/BytecodeStream.cpp:25-32 | Appends the shortest push of any 32-bit number |
| Bytecode.BytecodeStream.EmitPushWord | lib/evmlir/Translation/CodeGen/BytecodeStream.cpp:34-49 | The same for an integer of 256 bits or more, through four 64-bit chunks |
| Bytecode.PushLow | lib/evmlir/Translation/CodeGen/BytecodeStream.cpp:34-49 | Of wider integers only the low 256 bits are pushed |
| Bytecode.PushRoundTrip | lib/evmlir/Translation/CodeGen/BytecodeStream.cpp:73-80 | The immediate bytes of a push read back as the number, and no shorter byte string does, for every 256-bit number |
| Bytecode.BytecodeStream.CreateLabel | lib/evmlir/Translation/CodeGen/BytecodeStream.cpp:51 | Hands out the counter, which wraps at 65536 |
| Dispatcher.LabelsDistinct | lib/evmlir/Translation/CodeGen/BytecodeStream.cpp:51 | The first n labels of a stream are pairwise distinct iff n <= 65536 |
| Bytecode.BytecodeStream.Layout | lib/evmlir/Translation/CodeGen/BytecodeStream.cpp:68-89 | The first pass delivers code with zero operands, the offset of every label (the last definition counts) and the sites to patch |
| Bytecode.BytecodeStream.Finalize | lib/evmlir/Translation/CodeGen/BytecodeStream.cpp:61-99 | Succeeds iff every referenced label is defined, and then the patched bytes are the concatenated encodings; otherwise names an undefined label |
| Bytecode.EncodedAt | lib/evmlir/Translation/CodeGen/BytecodeStream.cpp:68-96 | The bytes between consecutive offsets are the encoding of that instruction |
| Fragments.AddressFits | lib/evmlir/Translation/CodeGen/BytecodeStream.cpp:92-96 | The two operand bytes read back as the label's offset iff it is below 65536 |
| Fragments.OperandsExact | lib/evmlir/Translation/CodeGen/BytecodeStream.cpp:92-96 | In the assembled bytes, every label operand reads back as the offset of its label iff every referenced label is below 65536; always when the code is shorter than that |
| Fragments.FarLabelWrong | lib/evmlir/Translation/CodeGen/BytecodeStream.cpp:92-96 | For every n >= 65536, a program whose label is n bytes in has a wrong operand |
| Disassembly.RoundTrip | lib/evmlir/Translation/CodeGen/BytecodeStream.cpp:68-96 | A linear decoder returns the instruction list with definitions erased and references resolved iff the stream has no bare PUSH1..PUSH32 |
| Disassembly.DestsExact | lib/evmlir/Translation/CodeGen/BytecodeStream.cpp:68-96 | The valid jump destinations of the code are exactly the offsets of its JUMPDEST instructions |
| Simulation.JumpMatches | lib/evmlir/Translation/CodeGen/BytecodeStream.cpp:86-96 | A jump is valid in the bytes iff it is valid over labels, and both land on the same JUMPDEST |
| Simulation.StepMatches | lib/evmlir/Translation/CodeGen/BytecodeStream.cpp:61-99 | Lock step of the two machines for any meaning of the opcodes, also with bytes behind the program as long as control stays inside |
| Simulation.RunMatches | lib/evmlir/Translation/CodeGen/BytecodeStream.cpp:61-99 | n steps of the bytes are n steps over the labels, for every n, start and linkable stream |
| Dispatcher.EmitLeaf | lib/evmlir/Translation/CodeGen/BinarySearchDispatcher.cpp:32-70 | Appends the leaf for the entry and creates one label iff it has arguments |
| Dispatcher.EmitBinarySearch | lib/evmlir/Translation/CodeGen/BinarySearchDispatcher.cpp:15-86 | Terminates, appends the tree of the table with the LT comparison and advances the label counter by the labels used |
| Dispatcher.Emit | lib/evmlir/Translation/CodeGen/BinarySearchDispatcher.cpp:4-13 | Appends the tree of some sorted permutation of the table |
| Dispatcher.EmitSelectorLoad | lib/evmlir/Translation/CodeGen/BinarySearchDispatcher.cpp:88-93 | Appends the selector prologue |
| Dispatch.TreeRuns | lib/evmlir/Translation/CodeGen/BinarySearchDispatcher.cpp:15-86 | From the root, with the selector on top, the run stays inside the tree until it reaches the entry of the selector's leaf if their selectors agree, with the arguments above the selector, otherwise REVERT(0, 0) inside the tree; gas adds up exactly, also of a revert; for either comparison |
| Dispatch.ArgumentsRun | lib/evmlir/Translation/CodeGen/BinarySearchDispatcher.cpp:56-60 | The argument loop leaves calldata word i (at 4 + 32i) at depth i |
| DispatchProofs.RouteBrackets | lib/evmlir/Translation/CodeGen/BinarySearchDispatcher.cpp:72-85 | On a sorted table the search ends at the last entry past the first that the comparison sends right, or at the first |
| DispatchProofs.EmittedMatches | lib/evmlir/Translation/CodeGen/BinarySearchDispatcher.cpp:75-79 | As emitted, a selector finds its entry iff it is the smallest of the table |
| DispatchProofs.EmittedDispatchesIff | lib/evmlir/Translation/CodeGen/BinarySearchDispatcher.cpp:72-85 | As emitted, every selector of the table is dispatched iff the first and last are equal |
| DispatchProofs.EmittedReachesIff | lib/evmlir/Translation/CodeGen/BinarySearchDispatcher.cpp:72-85 | As emitted, every entry of a sorted table is reached by some selector iff there is only one entry |
| DispatchProofs.SecondEntryUnreachable | lib/evmlir/Translation/CodeGen/BinarySearchDispatcher.cpp:75-79 | A table of two functions whose second is not reached as emitted, but is with the intended comparison |
| DispatchProofs.IntendedMatches | lib/evmlir/Translation/CodeGen/BinarySearchDispatcher.cpp:72-85 | With pivot <= selector going right, entry i is reached iff the selector is that of entry i |
| DispatchProofs.IntendedDispatches | lib/evmlir/Translation/CodeGen/BinarySearchDispatcher.cpp:72-85 | With that comparison every sorted table dispatches all its selectors |
| DispatchProofs.IntendedReachesIff | lib/evmlir/Translation/CodeGen/BinarySearchDispatcher.cpp:72-85 | With that comparison every entry is reached by some selector iff no two have the same |
| Calls.CallGas | lib/evmlir/Translation/CodeGen/BinarySearchDispatcher.cpp:72-85 | In bytes: every call, matched or not, spends at most 23 static gas for each of ceil(log2 n) inner nodes, 45 for selector load and leaf and 6 for an argument decoded, before it leaves the dispatcher |
| Calls.CallBranches | lib/evmlir/Translation/CodeGen/BinarySearchDispatcher.cpp:72-85 | In bytes: every call executes one conditional jump for each inner node on its path and one at the leaf, and there are at most ceil(log2 n) such nodes; for either comparison |
| DispatchProofs.TreeLabels | lib/evmlir/Translation/CodeGen/BinarySearchDispatcher.cpp:45-53 | Every label the tree creates is fresh, defined once and referenced once; all other references are to entries |
| Runtime.SelectorIsPrefix | lib/evmlir/Translation/CodeGen/BinarySearchDispatcher.cpp:88-93 | Shifting the first calldata word right by 224 bits leaves its first four bytes, big-endian and zero padded |
| Abi.SelectorDecodes | lib/evmlir/Translation/CodeGen/BinarySearchDispatcher.cpp:88-93 | The selector of a call the ABI encodes is what the prologue leaves |
| Abi.ArgumentDecodes | lib/evmlir/Translation/CodeGen/BinarySearchDispatcher.cpp:56-60 | Its argument i is the word the argument loop loads |
| Runtime.SelectorRuns | lib/evmlir/Translation/CodeGen/BinarySearchDispatcher.cpp:88-93 | The prologue leaves the selector on top of the stack |
| EmitRuntime.CollectEntries | lib/evmlir/Translation/CodeGen/EVMEmitter.cpp:115-139 | Creates the labels of all blocks, and collects the entries and the fallback of the module's plan |
| Functions.TableIsEntries | lib/evmlir/Translation/CodeGen/EVMEmitter.cpp:120-134 | An entry is in the dispatch table iff it is that of a function of visibility 0 and kind 0 with a selector: the selector cut to 32 bits, the label of the first block, the number of arguments |
| Functions.TableSize | lib/evmlir/Translation/CodeGen/EVMEmitter.cpp:120-134 | The table has as many entries as there are such functions |
| Functions.FallbackIsLast | lib/evmlir/Translation/CodeGen/EVMEmitter.cpp:124-128 | The fallback is the last function of kind 2 that has a visibility and a selector |
| Functions.FunctionStarts | lib/evmlir/Translation/CodeGen/EVMEmitter.cpp:144-166 | The code of a function is where its first block starts, behind the code of the functions in front of it |
| EmitRuntime.EmitItem | lib/evmlir/Translation/CodeGen/EVMEmitter.cpp:169-174 | Appends the code of one item; only calls create a label |
| Bodies.RuntimeItemsRun | lib/evmlir/Translation/CodeGen/EVMEmitter.cpp:144-174 | In the bytes of every runtime stream that links, at positions from the end of the dispatcher to the end of the code, the items run one after the other: a block starts with a valid jump destination, an opcode is performed, a number is pushed, a reference pushes the position of its block, a call goes to its block with a return address on top from which a jump comes to the next item |
| Bodies.CallItem | lib/evmlir/Translation/CodeGen/EVMEmitter.cpp:279-285 | The return label, the block and the jump bring control to the block with the position behind the call on top |
| Bodies.NumberItem | lib/evmlir/Translation/CodeGen/EVMEmitter.cpp:292-300 | A constant is on top afterwards, and nothing else has changed |
| EmitRuntime.EmitRuntime | lib/evmlir/Translation/CodeGen/EVMEmitter.cpp:110-146 | Appends selector load, the dispatcher for some sorted permutation of the entries collected from the functions, and the bodies of all functions, with block labels created first |
| Contract.VerifyModule | lib/evmlir/Translation/CodeGen/EVMEmitter.cpp:7-47 | A module is accepted iff it has at most one constructor and at most one fallback, going by kind alone |
| EmitRuntime.BodiesAccepted | lib/evmlir/Translation/CodeGen/EVMEmitter.cpp:110-146 | Labels of blocks, dispatcher and calls are told apart and every reference, also those of the dispatcher, has one definition, when blocks start once and at most 65536 labels are created |
| EmitRuntime.RuntimeReady | lib/evmlir/Translation/CodeGen/EVMEmitter.cpp:110-146 | Every runtime stream of such a module below 65536 bytes meets the needs of its dispatcher and of the simulation theorem |
| Runtime.DispatchLands | lib/evmlir/Translation/CodeGen/EVMEmitter.cpp:141-145 | In bytes: from the first byte of the assembled contract every call stays in the dispatcher's bytes until it reaches the entry, or ends in the revert, that its selector is routed to |
| Runtime.LeavesOnce | lib/evmlir/Translation/CodeGen/EVMEmitter.cpp:141-145 | The state in which a call first leaves the dispatcher is unique |
| Calls.EmittedDispatch | lib/evmlir/Translation/CodeGen/BinarySearchDispatcher.cpp:72-85 | In bytes, as emitted: the call leaves the dispatcher at the first function, with its arguments, if its selector is the smallest; all others are reverted by the dispatcher itself, fallback or not |
| Calls.IntendedDispatch | lib/evmlir/Translation/CodeGen/BinarySearchDispatcher.cpp:72-85 | In bytes, as intended: the call leaves the dispatcher at function i if its selector is that of entry i, and is reverted by the dispatcher iff the table has none |
| Calls.FallbackDispatch | lib/evmlir/Translation/CodeGen/BinarySearchDispatcher.cpp:15-30 | In bytes, for either comparison: a call whose selector is in no entry ends at a declared fallback iff the table is empty, otherwise the dispatcher reverts |
| Contract.LeastEntered | lib/evmlir/Translation/CodeGen/EVMEmitter.cpp:115-142 | In bytes: the call the ABI encodes for the function of least selector, of visibility 0 and kind 0, enters the code of that function with the arguments of the call in order above the selector |
| Samples.ArgumentArrives | lib/evmlir/Translation/CodeGen/EVMEmitter.cpp:120-134 | A function with one argument is entered with it |
| Contract.FallbackCall | lib/evmlir/Translation/CodeGen/EVMEmitter.cpp:115-142 | In bytes: in an accepted module, a call whose selector is that of no function dispatched to enters the declared fallback, with the selector left on the stack, iff there is no such function and the fallback has a visibility and a selector; otherwise the dispatcher reverts |
| Samples.FallbackUnrecognised | lib/evmlir/Translation/CodeGen/EVMEmitter.cpp:120-128 | An accepted module that is nothing but a fallback without selector: every call reverts |
| Samples.FallbackIgnored | lib/evmlir/Translation/CodeGen/BinarySearchDispatcher.cpp:15-30 | An accepted module with one function and a recognised fallback: the call with an unknown selector reverts |
| Emitter.EmitDeploy | lib/evmlir/Translation/CodeGen/EVMEmitter.cpp:64-84 | Appends the deployment code with one fresh label at its end |
| Emitter.RunInside | lib/evmlir/Translation/CodeGen/EVMEmitter.cpp:70-83 | A run without jumps that ends by itself is the same with any bytes behind the program |
| Emitter.DeployReturnsRuntime | lib/evmlir/Translation/CodeGen/EVMEmitter.cpp:64-84 | The finalized deployment code followed by any runtime bytes below 2^32 returns exactly those bytes |
| Emitter.EmitExternalReturn | lib/evmlir/Translation/CodeGen/EVMEmitter.cpp:346-357 | Appends the store loop, with 32-bit offsets, and the RETURN of 32 bytes a value |
| Emitter.ExternalReturn | lib/evmlir/Translation/CodeGen/EVMEmitter.cpp:346-357 | With n values on the stack, the last on top, the tail returns 32n bytes with value k at offset 32k, whatever memory held |
| Emitter.ExternalReturnInBytes | lib/evmlir/Translation/CodeGen/EVMEmitter.cpp:346-357 | The same in the bytes of any linkable stream that holds the tail anywhere |
| Contract.DeploymentCode | lib/evmlir/Translation/CodeGen/EVMEmitter.cpp:64-84 | The finalized stream of the constructor, if there is one, without the label of its first block, followed by the deployment code; fails only on an undefined label, which needs a constructor |
| Contract.HeadlessDrops | lib/evmlir/Translation/CodeGen/EVMEmitter.cpp:151-159 | The constructor's items are those of its function without the start of the first block |
| Contract.EmitModule | lib/evmlir/Translation/CodeGen/EVMEmitter.cpp:48-62 | Refuses exactly the modules that have two constructors or two fallbacks. Of the runtime code: the code of all functions runs at its positions, and every call leaves the dispatcher at the code of a function of the least selector, with the calldata words at 4 + 32i as arguments, iff the call has that selector, and otherwise in a revert; with no function dispatched to, at the recognised fallback or, without one, in a revert. Without a constructor, the deployment code in front of the runtime code returns the runtime code |
| Contract.DeployThenCall | lib/evmlir/Translation/CodeGen/EVMEmitter.cpp:54-59 | The bytes that deployment returns take every call to the entry or the revert its selector is routed to, staying in the dispatcher until then; for either comparison |

## Left out

- MLIR: its liveness analysis, nested regions, the dialect's verification of attributes; live sets are a parameter with the stated equations.
- `isDeadAfter`: any answer is allowed in the selection phase, since it only decides which words are freed.
- EmitRuntime.EmitItem: which items an operation becomes is an input; the source decides it operation by operation.
- Whole functions in the emitter (operations, calls, branches, internal returns, recomputation code): the code that schedules operands does not yet keep their order, so there is no meaning to preserve.
- Contract.DeploymentCode: what a deployment with a constructor does when it runs; its block labels come from the runtime stream's counter, those of its calls are counted again from 0, and the blocks it calls are not in that stream.
- Gas exhaustion: gas is added up, never refused; dynamic gas is not modelled.
- Memory words of spilled values against memory written by the user's code, and spill offsets of different functions: nothing in the code separates them.
- Opcode, opcode-mapper and gas tables: only the few entries the proofs use; static gas of an operation is a parameter bounded by that of CREATE.
- Bytecode.BytecodeStream.EmitPushWord: integers narrower than 256 bits, of which the source asks for bits they do not have.
- Order of operations inside a phase where the source iterates over a hash map: every order is allowed.
- Dispatcher.Emit: the sort is any sorted permutation, because entries with equal selectors may come out in any order.
- CostModel.EVMCostModel.RecomputeCost: exact while the spill price leaves 32-bit room for one more operation, which every price computed from a memory allocator does (`Allocation.ThresholdRoom`).
- Runtime.DispatchLands: the stack of the caller is assumed to have room for the arguments.
- EmitRuntime.EmitRuntime: the operations of a block are any opcodes, constants, block references and calls, in any order; `EmitRuntime.Closed` asks that they be no bare PUSH1 to PUSH32 (which a recomputed constant would be) and no JUMPDEST, that a block be emitted once, and that called blocks be emitted at all (blocks no path leads to are not).
- Contract.EmitModule: says nothing of calls to runtime code of 65536 bytes or more, or with more than 65536 labels, where operands and labels are ambiguous (`Fragments.OperandsExact`, `Dispatcher.LabelsDistinct`).
