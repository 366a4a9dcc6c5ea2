# nickl: proofs about the back ends and what feeds them

A Dafny model of the parts of the nickl repository that change one representation of a program into another, and
proofs that they keep its meaning:

- **Front end.** Structured statements (lists, scopes, `if`, `while`, `defer`, `return`, calls, lazy `and`/`or`/`not`)
  are lowered to a block IR by emitting instructions. Deferred statements are recorded once and replayed, with
  fresh labels, at every exit. The reference semantics (`Source.dfy`) has a stack of pending statements at run time
  instead. `FrontEnd.dfy` is the emitting compiler as a class; `Lowering.dfy` says what it emits as a tree;
  `LoweringMeaning.dfy` proves that tree equal to the reference, on every path and for every number of steps;
  `Copies.dfy` is about duplicated instruction arrays of any shape.
- **IR storage.** All procs share one instruction array; blocks own index ranges of it (`IrProgram.dfy`, `Storage.dfy`);
  a proc's locals share frame space scope by scope (`FrameSlots.dfy`), and `FrameBytes.dfy` proves that what the front
  end compiles may name its locals by where they lie.
- **Bytecode.** Blocks are flattened, comments and jumps to the next block dropped, labels patched, callees translated
  on demand around cycles (`Translator.dfy`, `RunContext.dfy`, `Bytecode.dfy`); data blocks are allocated and pointed at
  each other on demand (`DataTable.dfy`).
- **Interpreter.** Bytecode runs on a call stack carved from an arena, and native code may invoke the interpreter again
  (`Arena.dfy`, `CallStack.dfy`, `Execution.dfy`, `Interp.dfy`). `EndToEnd.dfy` joins everything: compile, load and run.
- **Incremental loading** of symbols into the just-in-time compiler (`HashTree.dfy`, `Jit.dfy`), and **position-independent
  labels** (`Pic.dfy`).
- **Supporting structures**: aggregate layout (`Layout.dfy`), hash-consed types (`Types.dfy`), the flat preorder syntax
  tree (`Ast.dfy`), relative paths (`Paths.dfy`), rounding (`Rounding.dfy`).

What instructions do to program data is opaque. `Do(a)` stands for any instruction with an effect and no result,
`DoWith(a, s)` for one that also mentions the extern symbol s, `Ext(s)` for a call of the extern proc s, and `Eval(l)` for
any instruction that yields a boolean; a run is described by its history of such events, and an oracle says, for every leaf
and every history before it, what the leaf yields. Statements about a run therefore hold whatever the opaque instructions
do, and "the same history" means the same actions, the same leaf evaluations, the same calls and the same returns, in
the same order. Fuel (`n`) in the semantics counts loop iterations and calls. Theorems hold for every fuel, and runs that
never end are compared by their histories, in both directions (`Pipeline.RunningAgrees`).

The classes keep the source's fields and update them in place; their methods are proved against specification functions,
and the main results are lemmas about those functions.

Where the code does not do what one would expect of it, the model follows the code:

- A `return` inside a deferred statement marks the block being recorded as having returned, until a label is compiled.
  Where a scope ends before that, its defers are not emitted, and a proc gets no final `ret`. `Source.Raised` tells from
  the text alone whether the mark is set, `Source.Exits` whether every scope is left with the mark right; under `Exits`
  the emitted code is right on every run (`LoweringMeaning.LowerRight`). Where it fails, a scope's end agrees with the
  source exactly when the statements skipped would have left no trace (`LowerScopeExact`), a return exactly when unwinding
  would have come to the same (`LowerReturnSkips`), and a proc's end never (`LowerBodyExact`). The smallest failing program
  is in `Pipeline.DeferredReturnSource` and `Pipeline.DeferredReturnFallsOff`.
- A proc whose translation failed keeps its place in the table, so asking for it again reports success although its
  bytecode is not finished (`RunContext.RunCtx.LoadTwice`).
- A load that fails for want of an address leaves everything it saw for the first time marked as loaded: external symbols
  stay without address and bodies in no module, for good (`Jit.FailedIsLost`, `Jit.LostForGood`);
  `Jit.Module.GetSymbolAddress` succeeds exactly when it keeps the module consistent.
- `return e` runs the deferred statements first and evaluates `e` afterwards.

## Model

| member | source | states |
|---|---|---|
| LoweringMeaning.LowerExprRight | src/nkl_core/src/compiler.cpp:1077-1111 | for every and/or/not tree and both values of invert, the emitted code leaves the (negated) truth value in its result and evaluates exactly the leaves lazy evaluation visits, in that order |
| LoweringMeaning.LowerShortRight | src/nkl_core/src/compiler.cpp:1029-1075 | the same for one short-circuit, negation pushed inwards |
| LoweringMeaning.ReplayRight | src/nkl_core/src/compiler_state.cpp:104-124 | replaying a scope's recorded statements runs each pending statement once, latest first |
| LoweringMeaning.ReplayAllRight | src/nkl_core/src/compiler_state.cpp:126-137 | replaying all scopes of the proc unwinds them innermost first |
| LoweringMeaning.LowerRight | src/nkl_core/src/compiler.cpp:1455-1897 | every statement's emitted code behaves as the dynamic-defer semantics: same outcome, same history, and the recorded code keeps tracking the pending statements; deferred statements may return, as long as no scope is left with the return flag raised on their account |
| LoweringMeaning.LowerScopeRight | src/nkl_core/src/compiler.cpp:683-691 | leaving a scope runs its deferred statements once, unless the block has already returned |
| LoweringMeaning.LowerScopeExact | src/nkl_core/src/compiler.cpp:683-691 | a scope left with the return flag raised runs none of its deferred statements, and agrees with its source exactly when these would have left no trace; with the flag clear it agrees |
| LoweringMeaning.LowerIfRight | src/nkl_core/src/compiler.cpp:1769-1817 | conditionals, with deferred statements in either arm |
| LoweringMeaning.LowerWhileRight | src/nkl_core/src/compiler.cpp:1819-1855 | loops, each iteration a scope of its own |
| LoweringMeaning.LowerDeferRight | src/nkl_core/src/compiler.cpp:1857-1897 | recording a statement and pushing it on the scope, also while recording another |
| LoweringMeaning.LowerReturnRight | src/nkl_core/src/compiler.cpp:1559-1571 | return unwinds every scope of the proc, then evaluates its argument, then returns it |
| LoweringMeaning.LowerReturnSkips | src/nkl_core/src/compiler_state.cpp:126-129 | return with the flag raised behaves as if nothing were pending, and agrees with its source exactly when unwinding would have come to the same |
| LoweringMeaning.LowerProcRight | src/nkl_core/src/compiler.cpp:693-751 | a whole proc, with any number of other procs called, behaves as its source |
| LoweringMeaning.LowerBodyExact | src/nkl_core/src/compiler.cpp:693-706 | a compiled body whose inner scopes are left rightly runs off its end exactly when its source gets to the end with the return flag raised, and agrees with its source exactly when it does not |
| Lowering.FlagIsRaised | src/nkl_core/src/compiler_state.cpp:76-80 | the return flag after any statement, recorded or emitted, can be told from its text: it follows the last label or return compiled |
| Lowering.ScopeEnd | src/nkl_core/src/compiler_state.cpp:126-137 | a scope's end replays what was recorded in it if and only if the flag is clear there |
| Lowering.ScopeSpace | src/nkl_core/src/compiler.cpp:683-691 | behind any scope the frame space in use is what it was before it, whatever locals were made inside |
| Lowering.PendsRecorded | src/nkl_core/src/compiler.cpp:1857-1897 | a scope has something recorded whenever its text defers something there, and nothing new otherwise |
| Lowering.ScopeSkips | src/nkl_core/src/compiler_state.cpp:126-137 | what `Source.Exits` rules out at a scope's end is exactly that the end can be reached, something is recorded, and nothing of it is emitted |
| Pipeline.DeferredReturns | src/nkl_core/src/compiler_state.cpp:76-87 | a deferred return is harmless if it is conditional or if a label is compiled before its scope is left, and not otherwise |
| Pipeline.DeferredReturnSource | src/nkl_core/src/compiler_state.cpp:76-87 | what a deferred return should do: act, then return |
| Pipeline.DeferredReturnFallsOff | src/nkl_core/src/compiler_state.cpp:76-87 | what its emitted code does: act, then run off the end of the proc |
| LoweringShape.CopyFresh | src/nkb/src/ir.cpp:351-386 | the labels of a duplicated fragment are exactly the next unused ones, each once |
| Trees.FlattenRename | src/nkb/src/ir.cpp:364-385 | duplicating a flat fragment instruction by instruction is renaming the tree it came from |
| Trees.ExecRename | src/nkb/src/ir.cpp:351-386 | renaming labels does not change what structured code does, loops and calls included |
| Copies.CopyTarget | src/nkb/src/ir.cpp:351-386 | in any fragment, placed between any other code: a jump to a label of the fragment goes to the copy's own, at the same place, and any other jump is left as it was |
| Copies.CopyStep | src/nkb/src/ir.cpp:351-386 | one step inside the copy of a fragment, wherever it is placed, is the step of the original, moved along |
| Copies.CopyRun | src/nkb/src/ir.cpp:351-386 | as long as a run stays inside the fragment, the copy goes through the same states |
| LoweringShape.LowerGood | src/nkl_core/src/compiler.cpp:1455-1897 | emitted code is well formed, with labels made while it was emitted, each placed at most once |
| LoweringShape.LowerProcGood | src/nkl_core/src/compiler.cpp:719-751 | a finished proc is well formed and its labels distinct |
| LoweringShape.ProcTerminal | src/nkl_core/src/compiler.cpp:693-706 | a finished proc can be run off its end exactly when its body's code can be run through and the last label or return compiled in it is a return |
| LoweringShape.UniqueFlat | src/nkl_core/src/compiler_state.cpp:41-71 | no label occurs twice in a proc's instruction stream |
| LoweringShape.JumpsFlat | src/nkl_core/src/compiler.cpp:1060-1071 | behind an unconditional jump there is nothing before the next label |
| LoweringShape.TargetsFlat | src/nkl_core/src/compiler.cpp:1029-1075 | every jump target is placed in the same proc |
| Machine.Simulate | src/nkb/src/bytecode.cpp:397-403 | running a proc's stream, block by block with fall-through, realises the tree it was flattened from: same end, same history, and a run that goes on does so for as long |
| Storage.ExtendedCovers | src/nkb/src/ir.cpp:344-348 | growing the last range or starting a new one covers exactly one more index of the shared array |
| Storage.ExtendedGathers | src/nkb/src/ir.cpp:336-348 | reading a block through its ranges gives what it held, then the new instruction |
| Storage.BlocksKeepStream | src/nkb/src/ir.cpp:311-349 | under any interleaving of emissions to any procs, a proc's blocks in order, through their ranges, are exactly the kept instructions emitted to it |
| Storage.BlocksDisjoint | src/nkb/src/ir.cpp:318-322 | no block belongs to two procs |
| IrProgram.Program.Emit | src/nkb/src/ir.cpp:311-349 | one emission adds one event to the history, and ranges still own exactly their block's slots of the array; a label or a move of size zero stores nothing, anything else goes to the current block and to no other |
| IrProgram.Program.Append | src/nkb/src/ir.cpp:336-348 | the new instruction array and ranges |
| IrProgram.Program.EmitArray | src/nkb/src/ir.cpp:311-349 | a whole fragment, in order, to the active proc and to no other |
| IrProgram.Program.CreateLabel | src/nkb/src/ir.cpp:171-182 | a new label is a new, empty block |
| IrProgram.Program.CreateProc | src/nkb/src/ir.cpp:142-169 | a new proc with no blocks and an empty frame |
| IrProgram.Program.DupInto | src/nkb/src/ir.cpp:351-386 | the copy is the fragment with the labels it places renamed to new blocks, other labels as they were (what that means for a run: Copies.CopyTarget, Copies.CopyStep) |
| IrProgram.Program.Enter | src/nkb/src/ir.cpp:396-403 | opening a frame scope remembers the space in use |
| IrProgram.Program.Leave | src/nkb/src/ir.cpp:405-415 | closing it gives the space back (over whole runs: FrameSlots.SpaceShared) |
| IrProgram.Program.MakeLocalVar | src/nkb/src/ir.cpp:417-430 | a local takes the next aligned space, and size and alignment grow to hold it |
| IrProgram.Program.FinishProc | src/nkb/src/ir.cpp:215-221 | the frame size is rounded to the frame alignment |
| FrameSlots.StepInv | src/nkb/src/ir.cpp:396-430 | each operation keeps locals in scope disjoint, aligned and inside the frame |
| FrameSlots.SlotsDisjoint | src/nkb/src/ir.cpp:396-430 | after any well-nested sequence locals in scope do not overlap, every local ever made fits, and the size is exactly the peak |
| FrameSlots.SizeIsPeak | src/nkb/src/ir.cpp:417-430 | the size is the largest space ever in use, from any frame onwards |
| FrameSlots.FinishRounds | src/nkb/src/ir.cpp:215-221 | the finished size is a multiple of the alignment, at most one step above the peak |
| FrameSlots.SpaceShared | src/nkb/src/ir.cpp:396-415 | a frame scope with any well-nested operations in it leaves the space in use, the open scopes and the locals in scope as they were, so sibling scopes share space |
| FrameSlots.LeastOffset | src/nkb/src/ir.cpp:417-430 | a new local begins at the least aligned offset that is not below the end of any local in scope |
| FrameSlots.FrameAligns | src/nkb/src/ir.cpp:417-430 | at a base address aligned for the frame every local is aligned for its type |
| FrameBytes.ConditionApart | src/nkl_core/src/compiler.cpp:1029-1075 | the temporaries of one condition are one byte each and do not overlap |
| FrameBytes.ExecAt | src/nkb/src/bytecode.cpp:272-274 | code that reads only locals nothing has overwritten does the same when locals are named by their offsets |
| FrameBytes.ProcOnBytes | src/nkb/src/ir.cpp:396-430 | a compiled program whose locals are named by their offsets behaves as its source: no temporary is overwritten while it is needed, although locals share space |
| FrameBytes.ProcRoomy | src/nkl_core/src/compiler_state.cpp:139-191 | every local the code of a finished proc names has a byte of its own type inside the finished frame size |
| FrontEnd.Compiler.Emit | src/nkl_core/src/compiler_state.cpp:73-102 | one instruction goes to the active recording or to the IR, and the return flag follows the last label or return |
| FrontEnd.Compiler.AsRef | src/nkl_core/src/compiler_state.cpp:139-191 | an instruction still without destination is emitted into a new local of one byte, once, and the frame grows by that local (that its byte is free and inside the frame: CompileProc, FrameBytes.ConditionApart) |
| FrontEnd.Compiler.Store | src/nkl_core/src/compiler.cpp:316-328 | a value is moved only if it is not an instruction that can write there itself |
| FrontEnd.Compiler.CompileLogic | src/nkl_core/src/compiler.cpp:1077-1111 | what is emitted for a condition is what LowerExpr says |
| FrontEnd.Compiler.CompileLogicExpr | src/nkl_core/src/compiler.cpp:1029-1075 | what is emitted for one short-circuit, and the locals made for it, are what LowerShort says |
| FrontEnd.Compiler.EmitDefersForScope | src/nkl_core/src/compiler_state.cpp:104-124 | fresh copies of a scope's recorded fragments, latest first, into the recording or the IR |
| FrontEnd.Compiler.EmitDefers | src/nkl_core/src/compiler_state.cpp:126-137 | the same for the scopes down to a given one, and nothing after a return |
| FrontEnd.Compiler.FindNextProcScope | src/nkl_core/src/compiler.cpp:708-717 | the search stops at the first scope of an enclosing proc |
| FrontEnd.Compiler.EnterPrivateScope | src/nkl_core/src/compiler.cpp:683-691 | a scope without recorded statements on top |
| FrontEnd.Compiler.LeavePrivateScope | src/nkl_core/src/compiler.cpp:686-690 | frame space back, deferred statements emitted, scope popped, in that order |
| FrontEnd.Compiler.CompileStmt | src/nkl_core/src/compiler.cpp:1455-1897 | everything emitted for a statement, and the context after it, is what Lower says, inside a recording or not |
| FrontEnd.Compiler.CompileScope | src/nkl_core/src/compiler.cpp:1633-1640 | the same for a scope |
| FrontEnd.Compiler.CompileIf | src/nkl_core/src/compiler.cpp:1769-1817 | the same for a conditional, with its label order |
| FrontEnd.Compiler.CompileWhile | src/nkl_core/src/compiler.cpp:1819-1855 | the same for a loop |
| FrontEnd.Compiler.CompileDefer | src/nkl_core/src/compiler.cpp:1857-1897 | nothing is emitted now; what the statement emits is recorded on the innermost scope, and an outer recording resumes |
| FrontEnd.Compiler.CompileReturn | src/nkl_core/src/compiler.cpp:1559-1571 | the same for return |
| FrontEnd.Compiler.CompileProc | src/nkl_core/src/compiler.cpp:719-772 | a new proc's emissions are exactly the lowered proc, every local they name has a byte of its own inside the finished frame, and the surrounding context is as before, also when another proc is being compiled or recorded at the time |
| Assembly.CompileProgram | src/nkl_core/src/compiler.cpp:719-772 | after compiling all procs each one's stored stream is its own lowered code |
| Assembly.StoredIsLowered | src/nkb/src/ir.cpp:311-349 | reading a proc's blocks through their ranges gives the lowered code |
| Bytecode.SilentStep | src/nkb/src/bytecode.cpp:517-523 | what is dropped (labels, comments, jumps to the next block) is invisible to the bytecode |
| Bytecode.VisibleStep | src/nkb/src/bytecode.cpp:526-533 | every other instruction does the same in the bytecode, at the corresponding position |
| Bytecode.Forward | src/nkb/src/bytecode.cpp:397-536 | everything block-by-block execution reaches, the bytecode reaches, in no more steps |
| Bytecode.Backward | src/nkb/src/bytecode.cpp:397-536 | everything the bytecode reaches, block-by-block execution reaches |
| Bytecode.LeavesNothing | src/nkb/src/bytecode.cpp:517-523 | an instruction leaves no bytecode exactly if it is a label, a comment, or a jump to the label that comes next |
| Pipeline.BytecodeAgreesWithSource | src/nkb/src/bytecode.cpp:191-590 | the bytecode of a compiled program returns with a history and a result if and only if the source does |
| Pipeline.HistoryOfSource | src/nkb/src/bytecode.cpp:191-590 | whatever history the bytecode has reached, the source reaches it too |
| Pipeline.RunningAgrees | src/nkb/src/bytecode.cpp:191-590 | returning or not, each history of the source is one of the bytecode, each history of the bytecode is on the way to one of the source, and the bytecode never gets stuck |
| Translator.KeepsInBlock | src/nkb/src/bytecode.cpp:517-523 | comparing block positions decides exactly whether a jump goes to the label that comes next |
| Translator.NextInBlock | src/nkb/src/bytecode.cpp:397-403 | inside a block the next label of the stream is the next block's |
| Translator.Job.Add | src/nkb/src/bytecode.cpp:526-533 | an instruction is appended with every jump target and callee to be patched in it noted; it fails if and only if the instruction calls or mentions an extern symbol without address |
| RunContext.FillInfo | src/nkb/src/bytecode.cpp:247-256 | every block id is mapped to its place in the proc |
| RunContext.TranslateRange | src/nkb/src/bytecode.cpp:402-535 | one index range becomes exactly its kept instructions |
| RunContext.TranslateBlocks | src/nkb/src/bytecode.cpp:397-536 | all ranges of all blocks, in order, become the kept instructions of the proc's stream, and each block knows its first instruction; failure means a symbol without address |
| RunContext.FirstIsLabelPc | src/nkb/src/bytecode.cpp:397-400 | a block's first instruction is where its label lies once dropped instructions are gone |
| RunContext.Patch | src/nkb/src/bytecode.cpp:544-574 | after patching every jump goes to its label's position and every call holds its own target's bytecode |
| RunContext.RunCtx.TranslateProc | src/nkb/src/bytecode.cpp:191-590 | translation ends on every call graph; finished procs stay finished; it succeeds when everything reachable can be |
| RunContext.RunCtx.Load | src/nkb/src/bytecode.cpp:638-647 | translation succeeds if and only if along every chain of calls from the proc every stream is there and every symbol it calls or mentions has an address, and then everything reachable has bytecode that points at its own callees |
| RunContext.RunCtx.LoadTwice | src/nkb/src/bytecode.cpp:198-200 | a failed translation reports success when asked for again, and the table of bytecode is then sound if and only if the first attempt succeeded |
| RunContext.SettledResolvable | src/nkb/src/bytecode.cpp:538-574 | in a finished table every chain of calls stays inside, and every symbol called or mentioned along it has an address |
| DataTable.RunData.GetDataAddr | src/nkb/src/bytecode.cpp:168-188 | each datum is allocated once, of the declared size, filled with what is given or with zeros, and holds at each relocation's offset the address of what it names, also around cycles |
| Arena.AlignUpIsLeast | src/ntk/src/arena.c:32-33 | padding leads to the least aligned address |
| Arena.Arena.AllocAligned | src/ntk/src/arena.c:21-45 | an aligned allocation directly above what is in use |
| Arena.Arena.PopFrame | src/ntk/include/ntk/arena.h:41-43 | use is cut back to a remembered size |
| Arena.Arena.Realloc | src/ntk/src/arena.c:70-87 | the topmost block is resized in place and stays aligned, any other is replaced above |
| CallStack.LeaveRestores | src/nkb/src/interp.cpp:128-147 | a return, the end of a native call or of an invocation gives back exactly the context in which it began |
| CallStack.RunsAbove | src/nkb/src/interp.cpp:88-227 | over any run of calls, native calls and re-entrant invocations, whatever lies below is untouched |
| CallStack.InvokeRestores | src/nkb/src/interp.cpp:545-594 | a finished invocation, first or re-entrant, leaves the context as it found it |
| CallStack.CallRestores | src/nkb/src/interp.cpp:128-227 | a finished call gives its caller back everything but the next instruction |
| CallStack.StackInOrder | src/nkb/src/interp.cpp:88-115 | in every reachable state argument arrays, control frames, proc frames and what the native side allocates are aligned, pairwise disjoint and nested within the arena |
| CallStack.OwnFrame | src/nkb/src/interp.cpp:88-115 | the running proc's frame, of its size and aligned as it asks, is the topmost region, its saved context lies directly below, and its argument pointers with the result pointer behind them below that, or where its invocation says |
| CallStack.FfiOfEntry | src/nkb/src/interp.cpp:545-594 | in every reachable state the current foreign-call context, and the one each native call has been given, is that of the proc whose invocation is the nearest below, whatever calls and native calls lie between |
| CallStack.EntryBelow | src/nkb/src/interp.cpp:545-557 | under every activity there is the invocation it belongs to |
| ControlFrame.ControlSize | src/nkb/src/interp.cpp:24-33 | a control frame is exactly as large as its seven words laid out in order |
| Execution.StepInside | src/nkb/src/interp.cpp:117-227 | a round either stays inside the invocation or ends it with the context as it was |
| Execution.RoundAgrees | src/nkb/src/interp.cpp:117-227 | every round of the interpreter is one step of the bytecode machine |
| Interp.Interp.JumpCall | src/nkb/src/interp.cpp:88-115 | what a call saves and where the new frame lies; the new locals are empty |
| Interp.Interp.CallJmp | src/nkb/src/interp.cpp:210-227 | argument and result pointers, then the call |
| Interp.Interp.Return | src/nkb/src/interp.cpp:128-147 | the saved context becomes the current one and the stack is cut back |
| Interp.Interp.CallExt | src/nkb/src/interp.cpp:229-256 | a native call, which is given the current foreign-call context, restores the context whatever it invokes |
| Interp.Interp.OpenNative | src/nkb/src/interp.cpp:229-254 | the arguments and types of a native call go on the stack, and its record carries the foreign-call context it is given |
| Interp.Interp.Branch | src/nkb/src/interp.cpp:149-208 | jumps change nothing but the next instruction |
| Interp.Interp.Invoke | src/nkb/src/interp.cpp:545-594 | an invocation that ends leaves the context and all older locals as they were, and with natives that do not call back it ends, goes on or goes wrong exactly as the bytecode machine does, with the same history; meanwhile the foreign-call context is the invoked proc's (CallStack.FfiOfEntry, as the stack stays linked) |
| Interp.Interp.OpenInvoke | src/nkb/src/interp.cpp:552-561 | nothing to come back to, the invoked proc's foreign-call context, then the call |
| EndToEnd.AssembledLoaded | src/nkb/src/bytecode.cpp:191-256 | compiled programs meet everything translation requires |
| EndToEnd.CompileLoadRun | src/nkb/src/bytecode.cpp:638-647 | compiled, loaded and interpreted: loading succeeds exactly when every symbol called or mentioned along any chain of calls has an address, and then the run makes as many steps as there are rounds to spend and never goes wrong; if it ends the source has returned with the same history, and if it is given up its history is one the source goes through |
| EndToEnd.RunIsSource | src/nkb/src/interp.cpp:545-594 | an interpreter run, ended or given up, read as a run of the source |
| EndToEnd.EnoughRounds | src/nkb/src/interp.cpp:545-594 | every history of the source is reached by every large enough number of rounds, and if the source returns so does the run, with that history |
| HashTree.AtomSet.Find | src/ntk/include/ntk/hash_tree.h:58-77 | walking by hash finds a name if and only if it is in the set, whatever hashes collide |
| HashTree.AtomSet.Insert | src/ntk/include/ntk/hash_tree.h:79-94 | insertion adds exactly that name and keeps the tree searchable |
| HashTree.PreorderItems | src/nkb2/src/ir.c:530-541 | the walk over the tree lists every name exactly once |
| Jit.GatherDeps | src/nkb2/src/ir.c:545-587 | appends exactly the names that some operand of some instruction, or some member of an operand list, refers to, or that a relocation names |
| Jit.DepsMention | src/nkb2/src/ir.c:545-587 | what is gathered from a symbol is what it mentions, index by index |
| Jit.CollectSymbols | src/nkb2/src/ir.c:530-541 | the symbols of a tree of names, in preorder |
| Jit.GetSymbolDependencies | src/nkb2/src/ir.c:589-618 | ends on cyclic graphs with exactly the symbols reachable over what bodies mention, each once |
| Jit.Module.Visit | src/nkb2/src/ir.c:690-718 | one symbol: declared if loaded before (Jit.ToExternDeclares), resolved if external and new |
| Jit.ToExternDeclares | src/nkb2/src/ir.c:620-668 | a declaration keeps name, visibility and flags, the type of each parameter, the return type and the proc flags, or the type of the datum |
| Jit.Module.LoadClosure | src/nkb2/src/ir.c:688-732 | the emitted module and the addresses defined, or where the call stopped |
| Jit.Module.GetSymbolAddress | src/nkb2/src/ir.c:670-733 | succeeds if and only if every new external symbol resolves, then adds exactly these symbols, each with the address found for it, and keeps the module consistent if and only if it succeeds |
| Jit.LoadedConsistent | src/nkb2/src/ir.c:670-733 | over successful loads every body is in exactly one module and in later ones replaced by a declaration that agrees with it, every external address is resolved exactly once, every module has all its bodies mention, and the loaded set is closed |
| Jit.LoadedOnce | src/nkb2/src/ir.c:620-668 | the symbol as the IR has it in one module, absent before it, in every later module that has the name a declaration with its types |
| Jit.NewResolved | src/nkb2/src/ir.c:698-717 | the addresses defined by a load are those found for exactly the external symbols seen for the first time |
| Jit.FailedIsLost | src/nkb2/src/ir.c:695-711 | a failing load leaves everything it saw for the first time loaded, external symbols without address and bodies in no module |
| Jit.LostForGood | src/nkb2/src/ir.c:695-700 | no later load gives such a symbol an address or defines such a body |
| Pic.FindLabelByName | src/nkb2/src/common.c:36-43 | the first label of a name |
| Pic.FindLabelByIdx | src/nkb2/src/common.c:45-52 | the label at an index, if there is one |
| Pic.CollectLabels | src/nkb2/src/common.c:5-17 | all labels in order, each once |
| Pic.CountLabels | src/nkb2/src/common.c:19-34 | each label's ordinal among those of its name |
| Pic.ConvertToPic | src/nkb2/src/ir.c:240-269 | the converted fragment is appended |
| Pic.TargetKept | src/nkb2/src/ir.c:240-269 | a jump to a label of its fragment goes there, whatever comes before and after |
| Pic.OthersLeft | src/nkb2/src/ir.c:256-264 | a jump to a label placed elsewhere still resolves by name |
| Pic.PicTwice | src/nkb2/src/ir.c:240-269 | converting twice is converting once |
| Pic.OwnLabel | src/nkb2/src/ir.c:240-269 | any number of fragments in one output: each jump reaches its own fragment's label |
| Pic.PrintedApart | src/nkb2/src/llvm_emitter.c:317-323 | no two labels have the same name and ordinal |
| Pic.EmitLabel | src/nkb2/src/llvm_emitter.c:290-324 | what is printed for a jump is what is printed for its target |
| Pic.PrintsOwnLabel | src/nkb2/src/llvm_emitter.c:290-324 | a jump and a label print the same if and only if the label is the one of the jump's own fragment |
| Layout.CalcAggregateLayout | src/nkb/src/common.cpp:173-208 | offsets are aligned, in order and disjoint, within a size that is a multiple of the alignment, which is one or the largest of the fields' |
| Layout.LeastOffsets | src/nkb/src/common.cpp:193-200 | no arrangement in this order has a smaller offset anywhere |
| Layout.LeastSize | src/nkb/src/common.cpp:203-207 | nor a smaller size |
| Layout.ElementsAligned | src/nkb/src/common.cpp:173-208 | at any aligned address every single element of every field is aligned |
| Types.FpInjective | src/nkirc/src/types.cpp:34-207 | equal fingerprints, byte for byte, mean equal requests up to the ids of the types in them |
| Types.Exact | src/nkirc/src/types.cpp:18-32 | two types are the same if and only if they were asked for alike, and if and only if their ids agree |
| Types.HashConsed | src/nkirc/src/types.cpp:18-207 | two types are the same if and only if their structure is, all the way down |
| Types.TypeTable.MakeNumericType | src/nkirc/src/types.cpp:43-66 | the type asked for; the one made before if there is one |
| Types.TypeTable.MakePointerType | src/nkirc/src/types.cpp:68-88 | likewise |
| Types.TypeTable.MakeProcedureType | src/nkirc/src/types.cpp:90-118 | likewise |
| Types.TypeTable.MakeArrayType | src/nkirc/src/types.cpp:120-152 | likewise; the same type as the aggregate of one element, whichever was made first |
| Types.TypeTable.MakeVoidType | src/nkirc/src/types.cpp:154-175 | likewise; the same type as the aggregate of none |
| Types.TypeTable.MakeAggregateType | src/nkirc/src/types.cpp:177-207 | likewise |
| Types.ArrayMeasured | src/nkirc/src/types.cpp:133-151 | an array's size, alignment and offset are those of the aggregate layout |
| Types.LaidOut | src/nkb/src/common.cpp:173-208 | in every aggregate in the table each element is aligned for its type, behind the ones before it, and inside |
| Ast.ReadSound | src/nkstc/src/parser.cpp:56-118 | whatever is accepted as a tree is exactly a printed tree |
| Ast.ReadPrinted | src/nkstc/src/parser.cpp:56-118 | every printed tree is accepted and read back, whatever follows |
| Ast.Parser.ParseNode | src/nkstc/src/parser.cpp:56-109 | succeeds if and only if a tree is there, and appends exactly its preorder nodes |
| Ast.Parser.ParseNodeList | src/nkstc/src/parser.cpp:111-118 | children up to what ends their list, with arity and total_children |
| Ast.Parser.Parse | src/nkstc/src/parser.cpp:39-54 | the whole stream |
| Ast.ParsePrinted | src/nkstc/src/parser.cpp:39-118 | parsing printed trees gives exactly their preorder array |
| Ast.WalkFinds | src/nkl_common/include/nkl/common/ast.h:33-36 | following children from any node of an array recovers exactly that subtree, and the next child is the first node behind it |
| Ast.NodesNamed | src/nkstc/src/parser.cpp:56-109 | every node points at a token of its own, in the order of the tokens, and is named after it: a form by the token behind its parenthesis, an empty form not at all, anything else by its kind |
| Ast.InspectNode | src/nkl_common/src/ast.c:6-40 | one line per node of the subtree, indented by depth; an index outside the array is printed as invalid, and looking for the child behind it stops the program |
| Ast.Inspect | src/nkl_common/src/ast.c:42-46 | the same from the first node, if there is one |
| Ast.LinesInOrder | src/nkl_common/src/ast.c:37-39 | the lines go through the nodes one by one, none left out and none twice, each indented once for every node around it |
| Paths.CommonPrefixLength | src/ntk/src/path.c:6-24 | the last place where both paths agree and a name ends or a separator was passed in both |
| Paths.RelativePath | src/ntk/src/path.c:26-66 | the output in terms of what is left of both paths |
| Paths.Suffixes | src/ntk/src/path.c:26-40 | what is left are the names the two paths do not share |
| Paths.RelativePathOf | src/ntk/src/path.c:26-66 | following the result from the base gives the path, going up once per unshared name of the base |

## Left out

- Values other than booleans, arguments, and results of calls: data are opaque, and a call's result reaches the caller through the history. Variables and their addresses are part of the opaque leaves and actions.
- LoweringMeaning.LowerProcRight: asks of every proc the condition `Source.ExitsProc`, which can be told from the text; a program without it may still happen to agree on some runs, namely those in which the statements it skips leave no trace, and which runs these are depends on leaves and callees.
- FrontEnd.Compiler.AsRef: values that are data, procs, arguments or extern symbols, which become references without emitting anything.
- FrameBytes.ProcOnBytes: is about a proc's code as a tree; the results about streams, bytecode and the interpreter tell locals apart by number. The compiler's own locals are all booleans; variables of the program are opaque.
- Bytecode.Forward: asks that a `jmp` is followed in its block only by comments, as elision drops any jump to the next block; the front end's output meets this.
- Procs written as values inside statements (compiling one there is CompileProc, but no statement of the model does it), imports, modules, constant evaluation, type checking and error reports of the front end.
- Label names and their per-proc counters: labels are block indices.
- Translator.Job.Add: of an instruction's operands only jump targets, callees and extern symbols are translated; numeric opcode families are opaque.
- RunContext.Patch: cdecl closures (relocation kind Closure) in the translator.
- Interp.Interp.CallExt: libffi itself, argument conversion and variadic calls; the native side is a list of invocations and an amount of stack.
- Interp.Interp.Invoke: agreement with the bytecode machine is for natives that do not call back; restoring the context is proved for all. Thread-local storage is one object.
- Arena.Arena.AllocAligned: running out of capacity, which traps; also sanitizer red zones and the first reservation of memory. Masks with a power of two minus one are written as remainders.
- Arena.Arena.Realloc: copying of contents, as memory is addresses only.
- Execution.RoundAgrees: asks that a round acts as its instruction does, which a native call that calls back does not.
- Widths: sizes and offsets are unbounded, so wrap-around of `usize`, `u32` indices and the `i32` label offset is not modelled; ids and counts in types are bounded where their bytes are taken, and the type counter is taken not to overflow.
- Ast.Parser.ParseNodeList: node references are indices, so what happens when the node array is moved while a reference is held is not captured.
- Lexing, token positions in the text, and text output other than label resolution.
- Jit.Module.GetSymbolAddress: the IR compiler, optimiser and dynamic library behind it; a missing resolver function; the order of names is whatever the hash function makes it.
- Paths.RelativePathOf: the buffer is large enough and the paths are normalised; `nk_path_getParent` and its like are simple slices and not modelled.
- Locking around the type table, `src/vm`, `src/lang`, the second syntax-tree parser, `src/nkl_core/src/types.c`, linking and code generation.
