# The Lua 5.1 collector, tables, patterns and code generator and the DynASM assembler, modelled and verified

This is a Dafny model of five parts of the repository that keep complicated state, with proofs
of what they promise. `dafny verify dfyconfig.toml` checks everything.

- **The incremental garbage collector** (`lgc.c`, with `lfunc.c` and parts of `lstring.c`, `lstate.c`
  and `lapi.c`). `GcHeap` defines objects, references and reachability; `GcMark`, `GcPropagate` and
  `GcAtomic` the mark phase; `GcBarrier`, `GcClose` and `GcSweep` barriers, open upvalues and the
  sweep; `GcStep` and `GcFull` the step and the full collection; `GcMutator`, `GcAlloc`, `GcApi` what
  the program does, and `GcUpvals` which upvalues are closed and found; `GcRun` puts all events
  together, and `GcSafety` states the results over whole runs from a state with any fixed strings.
  `GcCollector` holds the class `GlobalState` with the loops and in-place updates of the original,
  each proved to compute the specified state.
- **DynASM's x86 encoding engine** (`dasm_x86.h`): pass 1 stores actions and chains label
  references through the buffers, pass 2 shrinks branches in one sweep, pass 3 writes bytes.
  `DasmActions` to `DasmBytes` specify the three passes and prove that they agree; `DasmLabels` and
  `DasmPut` treat label chains; `DasmPrint` says how fragments are written, and `DasmWhole` joins
  everything; `DasmState` holds the class `State` with the imperative passes.
- **Boolean expressions in the code generator** (`lcode.c`): jump lists threaded through the code,
  pending jumps, the `true` and `false` lists of an expression, and their backpatching. `CodeVm` is
  the part of the interpreter (`lvm.c:373-762`) that the generated instructions need; `CodeMeans`
  says what unfinished code means; `CodeValues` to `CodeFrames` prove each generator step correct
  on values; `CodeGen` holds the class `FuncState` with the generator itself.
- **Tables** (`ltable.c`). `TabNodes` states the invariant of the hash part, a scatter table with
  chains through its own nodes: chains end and share no node, every live key is reached from its
  main position before any dead key of the same object, and a key outside its main position has
  one there that is at home (Brent's variation). `TabInsert` and `TabStore` prove what each change
  of the nodes keeps, `TabEntries` and `TabSizes` treat resizing, `TabNext` traversal. `TabTable`
  holds the class `Table`, whose methods find, insert and move entries in place; `Value` is the
  map it stands for. The hash function is arbitrary, and an overflow is an outcome
  with its exact condition.
- **Pattern matching** (`lstrlib.c:160-440, 513-531`). `StrPattern` gives all the ways in which a
  pattern matches, as a list in the order of the search; `StrMatch` holds the class `Matcher`, the
  backtracking matcher with its one set of captures; `StrSets` tells what classes, sets and
  references are without the scans that decide them; `StrTheory` relates the list to a declarative
  account of patterns and proves what holds of every match and which way comes first.

The invariant of the collector (`GcState.Inv`) says: the string table, the root list and the lists of
open upvalues are well formed; while marking, the tri-colour invariant holds; while sweeping, what has
been visited has the current white; and at all times nothing alive refers to anything dead or
freed.

## Findings

- `lapi.c:1071-1086`: lua_setupvalue stores into the upvalue object of a Lua closure but gives
  the barrier the closure. The upvalue may be shared and already black while this closure is
  still gray, and then the stored object is not marked. `GcApi.SetUpvalueApiExact` gives the exact
  condition under which the call is safe, `GcWitness.SetUpvalueLosesAnObject` a run from a new state
  in which a reachable table is freed. A call that is safe by it is an event of the run
  theorem. OP_SETUPVAL (`lvm.c:447-452`) names the upvalue itself and is safe. For upvalues of C
  closures, which live in the closure, the call is an ordinary store.
- `dasm_x86.h:431-435`: the phase check at the end of pass 3 cannot fail for a program that
  pass 2 has linked (`DasmEncode.NoPhaseError`).

## Model

| member | source | states |
|---|---|---|
| GcSafety.NoReachableFreed | src/host/lua-5.1.4/src/lgc.c:556-607 | In every legal run of collector steps, full collections and program events from the initial state, no object that is reachable through the fields of objects when the next event happens is freed by it, and neither a collector step nor a full collection nor the closing of upvalues changes what a reachable object holds or shows. |
| GcSafety.GarbageFreed | src/host/lua-5.1.4/src/lgc.c:407-428 | An object that is dead and not fixed while a sweep is under way is gone from the heap once the sweep has ended, whatever happened in between, unless the program brought it back (an interned string, an open upvalue) or its address was used again. |
| GcSafety.WhitesBetweenCycles | src/host/lua-5.1.4/src/lgc.c:525-553 | In every run, no object carries the other white outside the two sweep phases, and every object has exactly the current white when the collector pauses or is about to. |
| GcSafety.EventSpares | src/host/lua-5.1.4/src/lgc.c:556-607 | One event, from any state with the invariant: a reachable object stays allocated, and collections and closing leave its contents, and the value an upvalue shows, as they were. |
| GcSafety.StartInv | src/host/lua-5.1.4/src/lstate.c:69-190 | A new state (main thread, table of globals, registry, and any fixed strings, such as the reserved words and the names of events) satisfies the collector's invariant. |
| GcSafety.RunDoomed | src/host/lua-5.1.4/src/lgc.c:407-428 | Over a whole run, an object waiting to be swept stays so or is freed as long as no event touches it. |
| GcHeap.RefersExact | src/host/lua-5.1.4/src/lgc.c:69-270 | What marking and traversing an object marks is exactly what its fields refer to, told kind by kind: metatables, environments, prototypes, every upvalue, slot, constant and name, and key and value of every node with a value. Reachability is by these fields. |
| GcState.RootsExact | src/host/lua-5.1.4/src/lgc.c:501-545 | The roots are the main thread, the running thread, the registry and the metatables of basic types. |
| GcKeeps.ShownExact | src/host/lua-5.1.4/src/lgc.c:407-428 | What an object shows is the same exactly if all its fields are, but that an upvalue may have been closed and keys of empty entries may have died. |
| GcFull.FullGcExact | src/host/lua-5.1.4/src/lgc.c:636-659 | A full collection started in any phase of the incremental collector ends in the pause, keeps the invariant, keeps the contents of everything it leaves, and leaves exactly the reachable objects and the fixed ones. |
| GcFull.AtomicExact | src/host/lua-5.1.4/src/lgc.c:525-553 | If only reachable objects were marked so far, then after all marking of `atomic` an object is marked if and only if it is reachable. |
| GcFull.MarkRunCollects | src/host/lua-5.1.4/src/lgc.c:636-659 | Single steps from anywhere in such a mark phase to the end of the sweep leave exactly the reachable and the fixed objects, with their contents. |
| GcFull.StepDescends | src/host/lua-5.1.4/src/lgc.c:556-607 | Every step outside the pause decreases a measure of phase, white objects, gray list and objects not yet swept, so a cycle ends. |
| GcFull.SweepRunKeeps | src/host/lua-5.1.4/src/lgc.c:407-428 | Sweeping to the end frees no object that is alive or fixed and changes the contents of none. |
| GcRun.ApplyInv | src/host/lua-5.1.4/src/lgc.c:556-607 | Every event the program or the collector may cause keeps the invariant: steps, full collections, stores with their barrier, rehashes, upvalue assignments, stack changes, closing of upvalues, births, interning, fixing of strings, new roots, thread switches. |
| GcStep.StepInv | src/host/lua-5.1.4/src/lgc.c:556-607 | One step, in any phase, keeps the invariant. |
| GcStep.StepSpares | src/host/lua-5.1.4/src/lgc.c:556-607 | One step keeps every object that is alive, with its contents. |
| GcCollector.GlobalState.Step | src/host/lua-5.1.4/src/lgc.c:556-607 | The imperative step computes the specified step, keeps the invariant, and frees or changes nothing that is reachable. |
| GcCollector.GlobalState.FullCollect | src/host/lua-5.1.4/src/lgc.c:636-659 | The imperative full collection leaves exactly the reachable and the fixed objects, unchanged, and keeps the invariant. |
| GcCollector.GlobalState.StepUntil | src/host/lua-5.1.4/src/lgc.c:643-656 | The loops that step to a given phase terminate and reach the state of the specified run. |
| GcCollector.GlobalState.MarkObject | src/host/lua-5.1.4/src/lgc.c:52-56 | Marks a white object and whatever the marking reaches at once; otherwise changes nothing. |
| GcCollector.GlobalState.ReallyMarkObject | src/host/lua-5.1.4/src/lgc.c:69-112 | By kind: strings turn gray, userdata and closed upvalues are done at once through their fields, everything else goes to the gray list. |
| GcCollector.GlobalState.TraverseTable | src/host/lua-5.1.4/src/lgc.c:158-196 | Marks the metatable, the array part from the end and the live nodes from the end, and turns the collectable keys of empty nodes into dead keys. |
| GcCollector.GlobalState.TraverseClosure | src/host/lua-5.1.4/src/lgc.c:224-238 | Marks the environment, the prototype and the upvalues of a closure, in order. |
| GcCollector.GlobalState.TraverseStack | src/host/lua-5.1.4/src/lgc.c:256-270 | Marks the thread's globals and its stack slots, in order. |
| GcCollector.GlobalState.TraverseProto | src/host/lua-5.1.4/src/lgc.c:203-220 | Marks the source, constants, upvalue names, nested prototypes and local names, in order. |
| GcCollector.GlobalState.PropagateOne | src/host/lua-5.1.4/src/lgc.c:277-320 | Takes the head of the gray list; a thread stays gray and moves to `grayagain`, anything else turns black. |
| GcCollector.GlobalState.PropagateEverything | src/host/lua-5.1.4/src/lgc.c:323-327 | The loop ends and reaches the specified fixed point. |
| GcCollector.GlobalState.MarkRoots | src/host/lua-5.1.4/src/lgc.c:501-512 | Empties both gray lists and marks the main thread, its globals, the registry and the basic metatables. |
| GcCollector.GlobalState.RemarkOpenUpvals | src/host/lua-5.1.4/src/lgc.c:515-522 | Marks again what every gray open upvalue points to. |
| GcCollector.GlobalState.AtomicStep | src/host/lua-5.1.4/src/lgc.c:525-553 | Re-marks upvalues, the running thread, the basic metatables and `grayagain`, propagates each time, then flips the white and starts the sweep. |
| GcCollector.GlobalState.ForwardBarrier | src/host/lua-5.1.4/src/lgc.c:662-672 | Marks the value while propagating, whitens the owner while sweeping. |
| GcCollector.GlobalState.BackBarrier | src/host/lua-5.1.4/src/lgc.c:675-683 | Turns a black table gray and puts it at the head of `grayagain`. |
| GcCollector.GlobalState.LinkUpvalue | src/host/lua-5.1.4/src/lgc.c:695-710 | Links a closed upvalue into the root list and repairs its colour by phase. |
| GcCollector.GlobalState.CloseUpvalues | src/host/lua-5.1.4/src/lfunc.c:96-112 | Closes the open upvalues of a thread from the top down to a level: those below stay open in their order, each other one that was not dead holds its slot's value, dead ones are freed, and nothing else changes. |
| GcCollector.GlobalState.FindUpvalue | src/host/lua-5.1.4/src/lfunc.c:53-79 | Returns the one open upvalue of the thread for the slot, alive: the one there was, or a new one at its place in the descending list. |
| GcCollector.GlobalState.SweepStrings | src/host/lua-5.1.4/src/lgc.c:407-428 | Sweeps one bucket of the string table: dead strings are unlinked and freed, the others whitened. |
| GcCollector.GlobalState.SweepOpenUpvals | src/host/lua-5.1.4/src/lgc.c:412-413 | Sweeps the open upvalues of a thread. |
| GcCollector.GlobalState.SweepNext | src/host/lua-5.1.4/src/lgc.c:407-428 | Handles the object at the sweep pointer: whitened and passed, or unlinked and freed. |
| GcCollector.GlobalState.SweepRootList | src/host/lua-5.1.4/src/lgc.c:407-428 | Visits at most the given number of objects. |
| GcCollector.GlobalState.Link | src/host/lua-5.1.4/src/lgc.c:686-692 | A new object is linked at the head of the root list with the current white and the given contents; the sweep pointer keeps its place. |
| GcCollector.GlobalState.StoreRef | src/host/lua-5.1.4/src/lgc.h:86-97 | A store followed by its barrier keeps the invariant when owner and value are alive; the addressed place holds the value, and every other place and object is as before. |
| GcMark.MarkExtends | src/host/lua-5.1.4/src/lgc.c:69-112 | Marking changes the colour of white objects only, and leaves each of them gray, black with marked references, or in the gray list. |
| GcMark.MarkStaysIn | src/host/lua-5.1.4/src/lgc.c:69-112 | Every object whose colour marking changes lies in any reference-closed set that holds the marked object. |
| GcPropagate.PropagateTriColour | src/host/lua-5.1.4/src/lgc.c:277-320 | One traversal keeps the tri-colour invariant: black objects refer to no white one, and no gray one is forgotten. |
| GcPropagate.PropagateProgress | src/host/lua-5.1.4/src/lgc.c:277-320 | One traversal marks something white or shortens the gray list. |
| GcAtomic.MarkRootInv | src/host/lua-5.1.4/src/lgc.c:501-512 | Starting a cycle keeps the invariant. |
| GcAtomic.AtomicMarkOk | src/host/lua-5.1.4/src/lgc.c:525-545 | After the marking of `atomic` the gray list is empty, gray upvalues and threads have marked references, and the running thread and the basic metatables are marked. |
| GcAtomic.MarkedIsClosed | src/host/lua-5.1.4/src/lgc.c:525-545 | Then no marked object refers to a white one. |
| GcAtomic.AtomicInv | src/host/lua-5.1.4/src/lgc.c:525-553 | Flipping the white turns the tri-colour invariant into the sweep's: nothing alive refers to anything dead. |
| GcSweep.SweepBucketInv | src/host/lua-5.1.4/src/lgc.c:407-428 | Sweeping a bucket of strings keeps the invariant. |
| GcSweep.SweepListInv | src/host/lua-5.1.4/src/lgc.c:407-428 | Sweeping part of the root list keeps the invariant, though freeing a thread closes its upvalues and so puts new objects at the head of the list. |
| GcSweep.CloseInv | src/host/lua-5.1.4/src/lfunc.c:96-112 | Closing upvalues keeps the invariant in every phase. |
| GcUpvals.CloseExact | src/host/lua-5.1.4/src/lfunc.c:96-112 | In every phase, exactly the open upvalues below the level are left, in their order; the others hold the values of their slots, or are freed if they were dead. |
| GcUpvals.FindUpvalExact | src/host/lua-5.1.4/src/lfunc.c:53-79 | The upvalue returned is open, alive, in the thread's list and points to the slot; no other open upvalue does; a new one stands behind all higher slots and in front of all lower ones. |
| GcSafety.CloseSpares | src/host/lua-5.1.4/src/lfunc.c:96-112 | In every phase, closing the upvalues from any level frees nothing that is not dead, and each upvalue shows afterwards the value that its stack slot had. |
| GcKeeps.CloseKeeps | src/host/lua-5.1.4/src/lfunc.c:96-112 | While sweeping, closing upvalues frees nothing but dead objects, changes no value that any upvalue left shows, and brings nothing dead back. |
| GcMutator.StoreInv | src/host/lua-5.1.4/src/lgc.h:86-97 | A store and its barrier keep the invariant: backward for tables, forward for all others. |
| GcMutator.StoreExact | src/host/lua-5.1.4/src/lgc.h:86-97 | For each kind of place: it holds the stored value afterwards, and every other place of the object and every other object are as before. |
| GcMutator.StoreIsBarrierFirst | src/host/lua-5.1.4/src/lgc.h:86-97 | The barrier after the store does what it would have done before it. |
| GcMutator.BackInv | src/host/lua-5.1.4/src/lgc.c:675-683 | The backward barrier keeps the invariant. |
| GcAlloc.AllocInv | src/host/lua-5.1.4/src/lgc.c:686-692 | A birth keeps the invariant in every phase, wherever it is linked in the list. |
| GcAlloc.AllocStringInv | src/host/lua-5.1.4/src/lstring.c:50-72 | The birth of a string in its bucket keeps the invariant. |
| GcAlloc.ReviveInv | src/host/lua-5.1.4/src/lstring.c:75-93 | Giving a dead string that is found again the current white keeps the invariant. |
| GcAlloc.FindUpvalInv | src/host/lua-5.1.4/src/lfunc.c:53-79 | Finding or inserting an open upvalue keeps the invariant and the descending order of the thread's list. |
| GcAlloc.StackInv | src/host/lua-5.1.4/src/lgc.c:525-545 | Stack slots and globals change without a barrier, and the invariant still holds. |
| GcApi.AssignedExact | src/host/lua-5.1.4/src/lvm.c:447-452 | An assignment to an upvalue changes its own value if it is closed, the one stack slot if it is open, and nothing else. |
| GcApi.SetUpvalueApiExact | src/host/lua-5.1.4/src/lapi.c:1071-1086 | lua_setupvalue on a Lua closure keeps the invariant if and only if it is not the case that the collector is marking, the value is white, the upvalue is black and the closure is not. |
| GcWitness.SetUpvalueLosesAnObject | src/host/lua-5.1.4/src/lapi.c:1071-1086 | An explicit legal run from the initial state, after which one lua_setupvalue call and four steps lead to a state where a table is reachable, and the next step frees it. |
| DasmBytes.PassesAgree | src/host/luajit-2.0/dynasm/dasm_x86.h:265-436 | For every linked program: the bytes written are as many as pass 2 said; every label stands where it is reported to; every action's bytes, unless a short branch behind took their place, stand at its real offset and say the byte, number, fill or address they should; every branch ends its displacement at its target; a long branch keeps the opcode byte in front of it, e9 is turned into eb and 0f 8x into 7x when short, and no other opcode is ever short. |
| DasmWhole.AssembledRight | src/host/luajit-2.0/dynasm/dasm_x86.h:144-437 | From the buffers that pass 1 leaves when no label is undefined: all of that, and every reference is bound to a definition of the label that its argument names, and every branch behind a plain byte has that byte as its opcode. |
| DasmBytes.BranchLands | src/host/luajit-2.0/dynasm/dasm_x86.h:381-389 | A branch's written displacement, read as a signed byte or 32-bit value, leads from the end of the instruction to its label; a short one stands behind eb for e9, and behind 7x for 8x. |
| DasmBytes.PlainBytes | src/host/luajit-2.0/dynasm/dasm_x86.h:360-436 | The bytes of any other action stand at its real offset, and an alignment pads with less than its size to the next multiple. |
| DasmLink.ShortBranchFits | src/host/luajit-2.0/dynasm/dasm_x86.h:308-324 | A branch that was shrunk has a final distance in -128..127, although later branches and alignments were not settled when it was decided. |
| DasmLink.SizeExactly | src/host/luajit-2.0/dynasm/dasm_x86.h:303-325 | A branch has one byte left exactly if its opcode is e9 and its label seems within -131..127, none exactly if its opcode is 80..8f and the label seems within -132..127, and four otherwise; labels ahead are counted by estimates, labels behind by final offsets. |
| DasmLink.DistanceBound | src/host/luajit-2.0/dynasm/dasm_x86.h:295-353 | The real distance between two places never exceeds the estimated one. |
| DasmLink.SizeIs | src/host/luajit-2.0/dynasm/dasm_x86.h:308-335 | The real size of each action: a shrunk branch loses its saving, an alignment pads to the next multiple, all others have their full size. |
| DasmPrint.DecodeExact | src/host/luajit-2.0/dynasm/dasm_x86.h:18-25 | An action is read exactly where its bytes stand: action numbers, operand bytes, escaped bytes, and for a branch its opcode in front. |
| DasmPrint.DecodeBad | src/host/luajit-2.0/dynasm/dasm_x86.h:18-25 | Every other number from 233 on is no action of the modelled subset. |
| DasmPrint.FragmentRead | src/host/luajit-2.0/dynasm/dasm_x86.h:167-256 | Pass 1 reads from any written fragment what it says: its actions in order, each with its own argument, at their places in the list and in the buffer. |
| DasmPrint.InRangeExact | src/host/luajit-2.0/dynasm/dasm_x86.h:167-256 | The checks of pass 1 refuse an action exactly if the label or the section it names does not exist. |
| DasmPrint.OpcodeInFront | src/host/luajit-2.0/dynasm/dasm_x86.h:303-303 | The byte that a branch takes for its opcode is the plain byte in front of it. |
| DasmEncode.NoPhaseError | src/host/luajit-2.0/dynasm/dasm_x86.h:431-435 | Pass 3 writes exactly the size computed in pass 2, so the phase check never fails. |
| DasmLabels.ChainVisitsReferences | src/host/luajit-2.0/dynasm/dasm_x86.h:199-224 | While a label is undefined, following the chain from its slot visits each reference to it exactly once and no other. |
| DasmLabels.ReferencesBound | src/host/luajit-2.0/dynasm/dasm_x86.h:199-224 | Once a label is defined, every reference to it, made before or after, holds its position. |
| DasmState.State.constructor | src/host/luajit-2.0/dynasm/dasm_x86.h:84-164 | A new assembler: empty sections, unused labels. |
| DasmState.State.Put | src/host/luajit-2.0/dynasm/dasm_x86.h:167-261 | Stores one fragment: the status is that of the first action out of range, and is good exactly if none is; then the section has grown by exactly the decoded actions and all chains and bindings are in order. |
| DasmState.State.Link | src/host/luajit-2.0/dynasm/dasm_x86.h:265-356 | Reports the first undefined label, changing nothing, or turns the buffers into those of the linked program and returns its size. |
| DasmState.State.Encode | src/host/luajit-2.0/dynasm/dasm_x86.h:359-437 | Fills the buffer with exactly the output of the linked program; the phase error does not occur. |
| DasmState.State.GetPcLabel | src/host/luajit-2.0/dynasm/dasm_x86.h:441-451 | The real offset of a defined label's own definition; -1 if it is undefined, -2 if unused or out of range. |
| DasmState.State.DefineLabel | src/host/luajit-2.0/dynasm/dasm_x86.h:215-224 | Defining a label makes its slot and its position known and keeps the invariant of all chains, so that its references are bound. |
| DasmState.State.Shrinkage | src/host/luajit-2.0/dynasm/dasm_x86.h:308-324 | The loop over section sizes computes the specified decision on a short branch. |
| DasmState.State.EncodeBranch | src/host/luajit-2.0/dynasm/dasm_x86.h:381-389 | Writes a long displacement, or takes back the opcode and writes the short form. |
| DasmState.NoFailure | src/host/luajit-2.0/dynasm/dasm_x86.h:167-261 | No check fails exactly when every label and section number is in range. |
| CodeGen.FuncState.ReturnStatement | src/host/lua-5.1.4/src/lcode.c:59-789 | `return e` for any expression of locals, upvalues, not, and, or, and comparisons: executing the finished code returns the value of the expression, for all registers, upvalues and outcomes of comparisons. |
| CodeGen.FuncState.Condition | src/host/lua-5.1.4/src/lcode.c:539-564 | Code for a condition: the code behind it is reached exactly when the expression is true, the open list is taken exactly when it is false, and the registers in use are kept. |
| CodeGen.ConditionDecides | src/host/lua-5.1.4/src/lcode.c:169-182 | On finished code, whatever follows: the interpreter gets behind the condition exactly when the expression is true, and otherwise to the place its false list was patched to, forward or backward. |
| CodeGen.FuncState.Expression | src/host/lua-5.1.4/src/lcode.c:697-789 | The code and expression descriptor generated for any expression mean that expression. |
| CodeGen.FuncState.EmitCode | src/host/lua-5.1.4/src/lcode.c:797-809 | Pending jumps are fixed to the new instruction. |
| CodeGen.FuncState.PatchList | src/host/lua-5.1.4/src/lcode.c:150-160 | Every jump of the list is fixed: those with a value go to one target and set the register, the others to the other; nothing else changes. |
| CodeGen.FuncState.Concat | src/host/lua-5.1.4/src/lcode.c:185-196 | The list of the result visits the jumps of the first list, then those of the second. |
| CodeGen.FuncState.NeedValue | src/host/lua-5.1.4/src/lcode.c:122-128 | Whether some jump of the list carries no value. |
| CodeGen.FuncState.RemoveValues | src/host/lua-5.1.4/src/lcode.c:144-147 | Every TESTSET of the list becomes a TEST; nothing else changes. |
| CodeGen.FuncState.Jump | src/host/lua-5.1.4/src/lcode.c:59-66 | A new jump at the head of a list that goes on with all pending jumps; the code in front of it is as it was. |
| CodeGen.FuncState.DischargeVars | src/host/lua-5.1.4/src/lcode.c:304-334 | A variable becomes a value in a register or a pending load with the same meaning. |
| CodeGen.FuncState.Discharge2Reg | src/host/lua-5.1.4/src/lcode.c:343-379 | The value of the expression is in the given register, or still in its test. |
| CodeGen.FuncState.Exp2Reg | src/host/lua-5.1.4/src/lcode.c:390-411 | On every path, including both lists, the value of the expression ends up in the register, and both lists are closed. |
| CodeGen.FuncState.Exp2NextReg | src/host/lua-5.1.4/src/lcode.c:414-419 | The same for the next free register, which is then in use. |
| CodeGen.FuncState.Exp2AnyReg | src/host/lua-5.1.4/src/lcode.c:422-433 | The same for some register. |
| CodeGen.FuncState.JumpOnCond | src/host/lua-5.1.4/src/lcode.c:524-536 | A test and a jump, or the pending `not` taken back and its operand tested the other way round. |
| CodeGen.FuncState.GoIfTrue | src/host/lua-5.1.4/src/lcode.c:539-564 | The code goes on exactly when the expression is true; the true list waits for the next instruction. |
| CodeGen.FuncState.GoIfFalse | src/host/lua-5.1.4/src/lcode.c:567-591 | The code goes on exactly when the expression is false. |
| CodeGen.FuncState.CodeNot | src/host/lua-5.1.4/src/lcode.c:594-626 | The meaning becomes the negation: the lists change places and their values are dropped. |
| CodeGen.FuncState.CodeComp | src/host/lua-5.1.4/src/lcode.c:681-694 | A comparison instruction on the two operands' registers, and its jump, mean the comparison of the operands. |
| CodeGen.FuncState.Posfix | src/host/lua-5.1.4/src/lcode.c:745-755 | The two operands' code together means the conjunction or disjunction. |
| CodeGen.ReturnMeans | src/host/lua-5.1.4/src/lcode.c:69-71 | A fragment without open lists that means an expression, followed by a return, executes to its value. |
| CodeLogic.JoinMeans | src/host/lua-5.1.4/src/lcode.c:745-755 | A decided operand followed by a second operand means `and` or `or` of both, with Lua's values, not only their truth. |
| CodeTests.DecidesMeans | src/host/lua-5.1.4/src/lcode.c:524-591 | A test on the value of an expression takes the jump exactly when it has the other truth. |
| CodeTests.TestJudges | src/host/lua-5.1.4/src/lcode.c:524-536 | Each of the three ways to test (a comparison as it is or inverted, TEST for a pending `not`, TESTSET) tells the two truths apart and knows the value it leaves with. |
| CodeTests.CompareMeans | src/host/lua-5.1.4/src/lcode.c:681-694 | The comparison instruction and its jump mean the comparison of the two operand expressions. |
| CodeValues.NotMeans | src/host/lua-5.1.4/src/lcode.c:594-626 | OP_NOT on a register, with both lists exchanged, means the negation. |
| CodeValues.NotJumpMeans | src/host/lua-5.1.4/src/lcode.c:594-626 | An inverted comparison, with both lists exchanged, means the negation. |
| CodeValues.RelocMeans | src/host/lua-5.1.4/src/lcode.c:343-379 | Fixing the target register of a pending instruction keeps the meaning. |
| CodeStore.WithLoadsMeans | src/host/lua-5.1.4/src/lcode.c:390-404 | Appending the two boolean loads, and the jump over them, keeps the meaning. |
| CodeStore.ClosedMeans | src/host/lua-5.1.4/src/lcode.c:405-411 | Patching one list to the end or to its load keeps the meaning. |
| CodeLists.PatchRun | src/host/lua-5.1.4/src/lcode.c:150-160 | A run over patched code is the run over the unpatched code, going on at the target where that left through the list. |
| CodeLists.UnvaluedRun | src/host/lua-5.1.4/src/lcode.c:144-147 | Dropping the values of a list changes no run. |
| CodeLists.PatchedSteps | src/host/lua-5.1.4/src/lcode.c:150-182 | The interpreter on finished code gets to the end where the run falls out and to the patched target where it leaves. |
| CodeFrames.LinkedThreads | src/host/lua-5.1.4/src/lcode.c:185-196 | Linking the end of one list to the head of another threads both in order. |
| CodeFrames.RelinkMeans | src/host/lua-5.1.4/src/lcode.c:185-196 | Relinking open jumps changes the meaning of no code. |
| TabTable.Table.constructor | src/host/lua-5.1.4/src/ltable.c:358-371 | A new table holds nothing and has room for the requested numbers of entries; only a hash part of more than 2^26 is refused, and then there is none. |
| TabTable.Table.Get | src/host/lua-5.1.4/src/ltable.c:435-491 | The value of any key in the map that the array part and the hash part give together; nil for an absent key, for nil and for NaN. |
| TabTable.Table.Set | src/host/lua-5.1.4/src/ltable.c:494-505 | Finds or makes the place for a key's value without changing the map; nil and NaN are errors, and `table overflow` comes exactly if the key needs a rehash and the best array leaves more than 2^26 of the keys, the new one included, outside. If the key has a place, nothing changes; if it needs no rehash, at most one more node is in use and no part changes its size. |
| TabTable.Table.Store | src/host/lua-5.1.4/src/ltable.c:494-505 | Assignment changes the map at the assigned key and nowhere else, with or without a rehash, and keeps the invariant. It overflows exactly in the same case, so never with fewer than 2^26 entries, and leaves every entry where it was then. To a key with a place it does what a traversal allows. |
| TabTable.Table.NewKey | src/host/lua-5.1.4/src/ltable.c:399-429 | Makes a place for an absent key without changing the map; while a node is free, no part changes its size and at most one more node is in use. Overflows exactly if no place is free and the best array leaves more than 2^26 keys outside. |
| TabTable.Table.GetFreePos | src/host/lua-5.1.4/src/ltable.c:382-388 | The highest node below `lastfree` without a key, and everything above it is taken; or no such node exists. |
| TabTable.Table.FindPrevious | src/host/lua-5.1.4/src/ltable.c:412-412 | The walk from the occupant's main position ends at the node that links to it. |
| TabTable.Table.FindNode | src/host/lua-5.1.4/src/ltable.c:483-488 | The walk along a chain ends, and finds the key's node if there is one. |
| TabTable.Table.Resize | src/host/lua-5.1.4/src/ltable.c:297-324 | Moving all entries to new parts keeps the map; if they fit, insertion never runs out of free nodes, so it calls no further rehash and the recursion ends. |
| TabTable.Table.Rehash | src/host/lua-5.1.4/src/ltable.c:333-349 | Succeeds exactly if the best array leaves at most 2^26 of all keys and the extra one outside; then it keeps the map, gives the array that best size, and leaves room for the extra key. |
| TabTable.Table.ResizeArray | src/host/lua-5.1.4/src/ltable.c:327-330 | Another size of the array part, larger, or smaller if the hash part has room for what leaves it; the map stays. |
| TabTable.Table.KillEmpty | src/host/lua-5.1.4/src/lgc.c:62-66 | A dead key in place of an empty entry's key keeps the invariant and the map. |
| TabTable.Table.FindIndex | src/host/lua-5.1.4/src/ltable.c:137-159 | The position of a key, whether its entry is alive, cleared, or cleared with a dead key; invalid exactly if there is none. |
| TabTable.Table.Next | src/host/lua-5.1.4/src/ltable.c:162-179 | The first entry behind the given key's position, with its key and its value in the map, or the end; an error exactly if the key has no position. |
| TabTable.Table.Getn | src/host/lua-5.1.4/src/ltable.c:560-576 | Ends with a border: n is 0 or present and n + 1 is absent. |
| TabTable.Table.UnboundSearch | src/host/lua-5.1.4/src/ltable.c:532-553 | The doubling search, the binary search and the linear fallback end with a border. |
| TabTable.AllDistinct | src/host/lua-5.1.4/src/ltable.c:297-324 | All entries and an absent key have different keys. |
| TabTable.PresentBound | src/host/lua-5.1.4/src/ltable.c:540-543 | Only as many indices in a row can be present as the table has slots and nodes, so the linear search ends. |
| TabInsert.InMainOk | src/host/lua-5.1.4/src/ltable.c:399-429 | A key that takes its own main position, over a cleared or dead key and its link, keeps every chain, every key reachable from its main position, and Brent's condition. |
| TabInsert.BehindOk | src/host/lua-5.1.4/src/ltable.c:419-424 | A free node chained behind the main position keeps all that. |
| TabInsert.MovedOk | src/host/lua-5.1.4/src/ltable.c:410-418 | An occupant moved to a free node, with its predecessor relinked and the new key at home in a chain of its own, keeps all that. |
| TabInsert.MovedStored | src/host/lua-5.1.4/src/ltable.c:410-418 | The move changes the value of no key. |
| TabStore.KilledOk | src/host/lua-5.1.4/src/lgc.c:62-66 | A dead key keeps all chains and every live key reachable. |
| TabEntries.AllAssoc | src/host/lua-5.1.4/src/ltable.c:297-324 | Inserting the entries one after the other gives the map back. |
| TabSizes.ComputeSizes | src/host/lua-5.1.4/src/ltable.c:189-208 | The largest power of two, up to 2^26, more than half of whose slots would be in use, or 0, and the number of keys that go there. |
| TabSizes.NumUseArray | src/host/lua-5.1.4/src/ltable.c:222-244 | Counts the entries of the array part, and their keys by powers of two. |
| TabSizes.NumUseHash | src/host/lua-5.1.4/src/ltable.c:247-260 | Counts the entries of the hash part, and their integer keys by powers of two. |
| TabSizes.CountInt | src/host/lua-5.1.4/src/ltable.c:211-219 | Counts one key in its slice, if it can be an index. |
| TabSizes.CountBound | src/host/lua-5.1.4/src/ltable.c:189-208 | No more keys belong into an array than it has slots, which is why the search may stop early. |
| TabSizes.OverflowsOnly | src/host/lua-5.1.4/src/ltable.c:271-281 | An overflow takes more than 2^26 entries. |
| TabNext.LiveFirst | src/host/lua-5.1.4/src/ltable.c:145-152 | In a live key's chain no dead key of the same object comes first. |
| TabNext.FoundAgain | src/host/lua-5.1.4/src/ltable.c:137-159 | A key that luaH_next returned has the same position afterwards, though entries were overwritten or cleared and keys of cleared entries died. |
| TabNext.TraversalComplete | src/host/lua-5.1.4/src/ltable.c:137-179 | A traversal that starts with nil and passes each key that luaH_next returned back to it, while between calls entries are overwritten and cleared and keys of cleared entries die: every call finds its key, no key comes twice, there are at most as many calls as places and one, and when the end is reported every key that had a value all the time has been returned. |
| StrMatch.Matcher.DoMatch | src/host/lua-5.1.4/src/lstrlib.c:365-440 | The first of all ways to match, in the order of the search, with the captures of that way; the error met first; or no match, with all captures as they were before. |
| StrMatch.Matcher.MaxExpand | src/host/lua-5.1.4/src/lstrlib.c:301-313 | The same, over the greatest number of repetitions first. |
| StrMatch.Matcher.MinExpand | src/host/lua-5.1.4/src/lstrlib.c:316-326 | The same, over the least number of repetitions first. |
| StrMatch.Matcher.StartCapture | src/host/lua-5.1.4/src/lstrlib.c:329-340 | The same, with one more open capture, which is taken back if nothing matches. |
| StrMatch.Matcher.EndCapture | src/host/lua-5.1.4/src/lstrlib.c:343-351 | The same, with the last open capture finished, which is open again if nothing matches. |
| StrMatch.Matcher.Search | src/host/lua-5.1.4/src/lstrlib.c:513-531 | The leftmost place that matches; no match means that no place does. |
| StrMatch.Matcher.FindClassEnd | src/host/lua-5.1.4/src/lstrlib.c:202-223 | The end of a single-character item, or how it is malformed; a set ends at its first bracket that is neither escaped nor its first character. |
| StrMatch.Matcher.MatchSet | src/host/lua-5.1.4/src/lstrlib.c:245-265 | Whether a set holds a character: some element of it, a class, a range with both ends, or a single character, has it, or none if the set is a complement. |
| StrMatch.Matcher.MatchBalance | src/host/lua-5.1.4/src/lstrlib.c:281-298 | The first place where as many closing characters stand as opening ones, the first included; none exactly if there is no such place. |
| StrPattern.BalancedExact | src/host/lua-5.1.4/src/lstrlib.c:281-298 | The scan of a string for that place finds it, and nothing else. |
| StrMatch.Matcher.CaptureToClose | src/host/lua-5.1.4/src/lstrlib.c:194-199 | The last capture that is open. |
| StrTheory.ResultsExact | src/host/lua-5.1.4/src/lstrlib.c:365-440 | A way to match, or an error, is found if and only if the declarative account of patterns has it, in which sets are told by their elements, classes by their characters, a balanced text by counts, and repetition by spans. |
| StrTheory.Preference | src/host/lua-5.1.4/src/lstrlib.c:301-326 | Of all places that a repeated item may lead to and from which the rest of the pattern goes on, the way found first uses the last one, or for `-` the first one. |
| StrSets.ClassExact | src/host/lua-5.1.4/src/lstrlib.c:226-242 | A class letter matches the listed characters of the C locale, a capital the others, and any other escaped character itself. |
| StrSets.SetExact | src/host/lua-5.1.4/src/lstrlib.c:245-265 | The scan of a set finds a character exactly if one of its elements has it. |
| StrSets.ClassEndExact | src/host/lua-5.1.4/src/lstrlib.c:202-223 | An item ends where it should, and otherwise is malformed exactly in that an escape has no character or a set has no end. |
| StrSets.FrontierExact | src/host/lua-5.1.4/src/lstrlib.c:384-396 | The character in front is not in the set and the one behind is, where both ends of the string count as zero bytes. |
| StrSets.AgainExact | src/host/lua-5.1.4/src/lstrlib.c:353-362 | A back reference holds exactly if its capture exists, is finished, and stands again character by character. |
| StrTheory.ResultsInside | src/host/lua-5.1.4/src/lstrlib.c:329-362 | A match lies behind its start and in the string, its captures lie in it, and there are at most 32. |
| StrTheory.DerivesInside | src/host/lua-5.1.4/src/lstrlib.c:329-362 | Later parts of a pattern only add captures and finish open ones. |
| StrTheory.GoodPatternsNeverFail | src/host/lua-5.1.4/src/lstrlib.c:186-223 | On a pattern that passes a check of its text alone, no way of matching meets an error, whatever the string. |

## Left out

Collector:
- GcCollector.GlobalState.TraverseTable: weak tables, which are put into a list of their own and traversed in part, are traversed like all others.
- GcCollector.GlobalState.TraverseStack: the slots above the top are not part of a stack here, so none is set to nil, and the stack is not shrunk.
- GcCollector.GlobalState.AtomicStep: userdata with finalizers are not separated and marked, and weak tables are not cleared.
- Weak tables (`lgc.c:337-375`): every table is traversed strongly; `cleartable` does nothing then.
- Finalizers: `luaC_separateudata`, `marktmu` and `GCTM` are not modelled; the phase that calls finalizers has nothing to do.
- Memory accounting and pacing: `luaC_step`, thresholds, debts and estimates. The run theorem allows steps at any time, so it covers every pacing.
- Resizing of the string table and shrinking of stacks; the string table has any fixed number of buckets.
- `luaC_freeall`, and replacing the registry through lua_replace.
- The links of the gray, root and upvalue lists inside the objects: lists are sequences of references here, so their pointer updates are not modelled.
- Addresses are unbounded integers, and allocation never fails.
- Equality of string contents: a string has a hash only; which string luaS_newlstr finds is an argument of the event.

DynASM:
- Actions for ModRM and SIB bytes, 8- and 16-bit immediates, displacements, variable registers, marks of their sizes, external symbols, and dasm_put's escape and set-label actions.
- Local and global numbered labels; program-counter labels use the same chains.
- Integer widths: offsets, buffer positions and the code size are unbounded. `PassesAgree` states the landing of branches for code below 2^31 bytes.
- DasmState.State.constructor: at most 128 sections, the number whose positions fit a signed 32-bit integer.
- DasmState.State.Put: a put must fit its section's positions and follow an action list of the modelled actions with an argument for each that takes one, which the original does not check.
- DasmState.State.Encode: writes into an array that is large enough; the original has no way to check it.
- Growth of the buffers: all sections' buffers are one map from position to value.
- dasm_checkstep, dasm_setupglobal and memory management.

Tables:
- TabTable.Table.Set: the error `table overflow` is a result. The table is then as the original leaves it, with the old nodes and perhaps a longer array whose new slots hide entries of the hash part (`TabTable.Stuck`), so it need not be valid any more.
- TabTable.Table.ResizeArray: not to more than 2^26 slots, as `rehash` does not count larger indices, and not to a smaller array whose entries do not fit the hash part, where the insertion of the rest would rehash.
- TabTable.Table.constructor: not for arrays of more than 2^26 slots, for the same reason.
- The address that luaH_set returns is a slot here, valid until the next insertion. The write barrier for keys is part of the collector's model.
- Conversion of numbers: a key is an integer that fits an int, or any other value; -0 and integral doubles outside int are other values.
- The `flags` cache of absent metamethods, and luaH_free.

Patterns:
- Character classes are those of the C locale.
- A pattern ends at its first zero byte, as in the original; a string may hold any bytes.
- What the library functions do with a match (substitution, iteration, pushing captures, plain search), and the check for captures left open at the end.

Code generator:
- Constants as operands (nil, true, false, numbers, strings) and constant folding, calls, indexing, arithmetic, concatenation, assignment (luaK_storevar), and all instructions they need.
- Line information, `lasttarget` and luaK_nil's merging, and the encoding of instructions into 32 bits.
- CodeGen.FuncState.ReturnStatement: an expression that needs more than 250 registers, or a jump longer than the encoding allows, is an error in the original; here the first is excluded and the second cannot happen.
- Metamethods of comparisons: a comparison of two values has an arbitrary but fixed outcome.
- CodeGen.FuncState.ReturnStatement: `Execute` stops at a backward jump, which code for an expression does not contain. `Steps`, used for conditions, does not.

Not modelled at all: the rest of `lstrlib.c`, the lexer and parser, dump and undump, sorting and the other standard libraries, LuaSocket's encoders, the LuaJIT compiler and its folding of instructions in `buildvm`, and premake's own scripts and host code.
