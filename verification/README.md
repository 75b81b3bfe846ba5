# Saad compiler: back end

This project models the back end of the Saad compiler, from its intermediate representation to the bytes of an object file, and
proves that each stage keeps what the stage before it means. `dafny verify dfyconfig.toml` checks all of it.

| stage | modules |
|---|---|
| intermediate representation, liveness, verifier, finalizing a function | `Ir`, `Liveness`, `Bitsets`, `LivenessWords`, `Verifier`, `Safety`, `Finalize` |
| names of the globals | `NameTable`, `Globals`, `Modules` |
| lowering of statements with defer, try and loops to blocks | `Structured`, `ControlFlow`, `Lowering`, `LoweringGrowth`, `LoweringCorrect`, `LoweredFunctions`, `Lowerers` |
| register allocation and what it keeps | `RegAlloc`, `LinearScan`, `LiveRanges`, `Execution`, `Simulation`, `LayoutOrder` |
| moves, frames, calls, conversions and data | `Moves`, `Frame`, `Calls`, `SavedRegisters`, `CallingConvention`, `FloatConversion`, `GlobalData` |
| assembler | `AsmData`, `Numerals`, `AsmLayout`, `AsmText`, `AsmEncode` |
| object files | `Objects`, `CoffFormat`, `CoffWriter`, `CoffReader`, `CoffMerging`, `CoffRoundTrip`, `CoffLinked`, `CoffLimits`, `CoffBytes`, `CoffFiles`, `CoffRoundTripBytes` |
| numbers in bytes and in digits, options | `LittleEndians`, `Decimals`, `Options` |
| line tables | `Dwarf` |

Code of the compiler that changes state step by step is a method here, proved against a function; what the compiler promises is
proved about that function. Two languages are given a meaning for this: the blocks of the intermediate representation
(`Execution`, over every semantics of the single instructions, with calls that overwrite the registers that do not survive them) and
the structured statements (`Structured`, over every behaviour of the calls they make).

## What was found

* **Register allocation needs the layout.** The test whether a value lives across a call is strict on both sides, and a value
  that is live into a block extends its interval only to the block's first instruction. When that instruction is a call and the
  interval starts there, this call does not mark it (`LiveRanges.CallTestIsExact`). `LayoutOrder` has a function that the verifier
  accepts, for which the allocation picks r8, and whose value is lost. `LiveRanges.CrossingsAreMarkedIff` says exactly when all
  values have their marks; `Simulation.AllocationPreservesMeaning` assumes this, and `LiveRanges.PrecedingDefinitionsSuffice`
  gives it for functions whose definitions come first in the layout. That lowering makes only such functions is not proved here.
* **An index of rsp is lost.** The encoder writes an operand with index rsp as one without an index
  (`AsmEncode.OperandIsReadUnlessIndexIsRsp`). No vreg is ever in rsp
  (`Calls.ReservedRegistersAreNotAllocated`).
* **A COFF section can have too many relocations.** The header counts them in 16 bits, so from 65536 on they are not all read back
  (`CoffLinked.AllAreReadIff`), and the program that is linked from the file differs (`CoffLimits.RoundTripLinksIff`,
  `CoffLimits.TooManyAddresses`).
* **A second body with a name is not found.** `ir_function_new` for a name that a function with a body has makes another global
  with the name, which leads to the first one (`Modules.Module.FunctionNew`). The lowering only asks for names it queued.
* **xmm14 and xmm15 are not given back.** The calling convention has them callee-saved, the emitter uses them as scratch registers
  (src/x64_emit.c:384, 556-558), and only registers of vregs are saved. A function keeps them exactly when its body leaves them alone
  (`CallingConvention.CalleeSavedAreKept`). No vreg is ever in them, so compiled functions do not notice
  (`CallingConvention.SurvivorsAreKept`); a caller in C could.
* **Alignments above 16384 do not fit in a COFF header.** They are read back as less (`CoffFormat.AlignmentIsReadIff`).
* Addends outside of 32 bits do no harm: they wrap in the field, and linking wraps back (`LittleEndians.SignedBack`, `LittleEndians.SameField`).

## Model

| member | source | states |
|---|---|---|
| Ir.UseEnumeratesOperands | src/ir.c:358-385 | the operand count and the indexed operand query list exactly the operands, in order, address vregs included |
| Ir.OperandsAreReads | src/ir.c:358-385 | two environments agree on the operands if and only if the instruction reads the same: its two fields, the address of a load or store, the callee and the arguments of a call |
| Liveness.LivenessIsLeastSolution | src/ir.c:435-500 | the sets of ComputeLiveness solve the dataflow equations, and every other solution contains them |
| Liveness.WalkIsLive | src/ir.c:456-467 | inside a block: what the backward walk over the instructions calls live is read on some path from there |
| Liveness.LiveIsWalk | src/ir.c:456-467 | inside a block: whatever is read on some path from a place is live there in the backward walk |
| Verifier.EntryLiveInIsThePromise | src/ir.c:934-943 | the check on the live-in set of the entry is true exactly when no path from the entry reads a vreg that is no parameter and not defined earlier on it |
| Verifier.VerifyFunction | src/ir.c:854-947 | accepts if and only if all rules hold, the promise about every path among them |
| Safety.CountIsOneIff | src/ir.c:870-910 | the count of definitions is at most one if and only if one parameter or one instruction defines the vreg, and is not 0 if and only if something does |
| Safety.UsesHaveDefinitions | src/ir.c:914-931 | in an accepted function each vreg that is read anywhere, in code that runs or not, has exactly one definition or parameter |
| Safety.RunIsSafe | src/ir.c:854-947 | a run of an accepted function never gets stuck, and returns one value exactly when the function has a return type |
| Safety.ReturnsItsVreg | src/ir.c:854-947 | what is returned is the value of the vreg of the terminator, which has the return type |
| Safety.OnlyParametersMatter | src/ir.c:934-943 | two runs of an accepted function with the same parameters are the same, whatever other vregs hold at first |
| Safety.AcceptedRunsKeepTypes | src/ir.c:854-947 | when instructions give values of the types of their destinations, every branch of a run is on an 8-bit integer, and what is returned has the return type |
| Bitsets.Get | src/ir.c:415-415 | the bit of a number says if it is in the set that the words stand for |
| Bitsets.Insert | src/ir.c:416-416 | setting a bit adds exactly that number |
| Bitsets.Clear | src/ir.c:417-417 | clearing a bit removes exactly that number |
| Bitsets.SameWords | src/ir.c:419-429 | words stand for the same set only when they are the same |
| Bitsets.UnionInto | src/ir.c:419-429 | or-ing the words is the union, and it says changed if and only if the set grew |
| Bitsets.Transfer | src/ir.c:483-486 | use | (live_out & ~def) on the words is the set of the dataflow equation |
| LivenessWords.SummarizeBlocks | src/ir.c:448-468 | the words of the block summaries stand for exactly the vregs that are read before the block defines them, and the ones it defines |
| LivenessWords.PropagateBlock | src/ir.c:475-488 | on the tables of words: the unions of one block, the rows of other blocks as they were, and changed exactly when one of the sets grew |
| LivenessWords.ComputeLiveness | src/ir.c:435-500 | ends, with v in live-in (live-out) of b exactly when some path from the start (the end) of b reads v before it defines it |
| RegAlloc.Number | src/regalloc.c:99-124 | positions follow the layout: the entry is 0, and every instruction and terminator comes two after the one before it |
| RegAlloc.BuildIntervals | src/regalloc.c:126-153 | each interval is the hull of exactly the positions where its vreg is touched or live at a block's edge |
| RegAlloc.MarkCrossings | src/regalloc.c:155-169 | an interval is marked exactly when the position of a call is strictly inside it |
| LinearScan.Expire | src/regalloc.c:190-199 | swap-removing from the active list keeps exactly the intervals that have not ended, and frees exactly the registers of the others |
| LinearScan.PickFree | src/regalloc.c:201-209 | the first register of the preference order that is free and allowed, or none is |
| LinearScan.PickVictim | src/regalloc.c:218-228 | among the active intervals whose register is allowed, the first of those that end last |
| LinearScan.PlaceNext | src/regalloc.c:186-239 | one interval: a free register, the register of one that ends later, or a new slot; everything placed before stays compatible |
| LinearScan.Scan | src/regalloc.c:171-240 | intervals that share a position never share a register; slots are unique and all below the count; classes match; intervals across a call get callee-saved registers; a register of the preference order is passed over only when another interval held it; something is spilled only where the pool is crowded, and what is spilled ends last |
| LinearScan.StepEvict | src/regalloc.c:230-235 | after an eviction the invariant of the scan holds again |
| RegAlloc.RegallocFunction | src/regalloc.c:84-254 | the whole allocation: liveness, numbering, intervals, crossings, scan, and the callee-saved registers that are used |
| LiveRanges.LiveIsContained | src/regalloc.c:132-141 | a vreg that is live at a place has the position of the place in its interval |
| LiveRanges.CallTestIsExact | src/regalloc.c:155-169 | a value that lives across a call is seen by the strict test exactly unless the call opens a block and the interval starts right there |
| LiveRanges.CallTestIsCompleteIff | src/regalloc.c:155-169 | the test sees every value that lives across a call if and only if no interval starts at a call that opens a block |
| LiveRanges.CrossingsAreMarkedIff | src/regalloc.c:155-169 | every value that lives across a call has its mark, by this call or by another one, if and only if that is so for the calls that open a block |
| LiveRanges.PrecedingDefinitionsSuffice | src/regalloc.c:155-169 | all these values have their marks when definitions come first in layout order |
| Simulation.DestinationSparesOperands | src/regalloc.c:190-199 | a destination never has the location of another operand of its instruction |
| Simulation.ParametersAreApart | src/regalloc.c:128-130 | different parameters have different locations, and each has one |
| Simulation.MatchingRuns | src/regalloc.c:84-254 | from states that match, any number of steps on the locations and on vregs end alike |
| Simulation.AllocationPreservesMeaning | src/regalloc.c:84-254 | for every accepted function whose values that live across calls have their marks, every semantics of the instructions, and whatever each step leaves in the registers that do not survive it, different values at different visits of a call included: the run on registers and slots is, step for step, the run on vregs |
| Simulation.AllocationPreservesMeaningInLayoutOrder | src/regalloc.c:84-254 | the run on registers and slots is, step for step, the run on vregs, for every accepted function whose definitions precede, in layout, the places where the vreg is live |
| LayoutOrder.ExampleIsAccepted | src/ir.c:854-947 | the verifier accepts a function whose definition comes later in the layout than its use |
| LayoutOrder.AllocateExample | src/regalloc.c:84-254 | for the function of ExampleIsAccepted the allocation gives the value r8, which calls do not keep |
| LayoutOrder.AllocationLosesTheValue | src/regalloc.c:84-254 | with what the allocation gives, the run on vregs returns the value, and the run on the machine what the call left in the register, which is another value for all junk but one: without the marks the theorem is false |
| LayoutOrder.CallerSavedIsAllocation | src/regalloc.c:155-169 | for the same function, and every target, any caller-saved register meets the promises about locations |
| LayoutOrder.ValueIsLost | src/regalloc.c:155-169 | with such a register the run on vregs returns the value, and the run on the machine what the call left in the register |
| Finalize.MarkReachable | src/ir.c:304-324 | the worklist ends with exactly the blocks that some walk from the entry reaches |
| Finalize.FinalizeFunction | src/ir.c:304-349 | exactly the reachable blocks stay, in layout order; the index of each is its place; the predecessors are the edges from the blocks that stay |
| Finalize.IncomingCountsEdges | src/ir.c:338-345 | a block is listed as predecessor once for each of its edges, and no other block is |
| Moves.MoveCodeMoves | src/x64_emit.c:322-343 | the code of one move copies its operand for all kinds of operands, and changes only the destination and the scratch registers |
| Moves.StuckIsPermutation | src/x64_emit.c:359-380 | when no pending move is ready, all pending sources are registers, and the registers read are the registers written |
| Moves.ScratchIsFree | src/x64_emit.c:380-390 | when no pending move is ready, no pending move reads a scratch register, also after earlier cycles used it |
| Moves.CycleIsBroken | src/x64_emit.c:380-390 | saving one source and redirecting its readers keeps what the moves mean, and a move is ready again |
| Moves.Round | src/x64_emit.c:361-378 | a pass over the moves keeps what they mean, and lowers the number that is pending unless they are stuck |
| Moves.ParallelMove | src/x64_emit.c:350-392 | the loop ends, and the code gives every destination what its source had before any of the moves, and changes no other register or cell |
| Frame.LayoutFrame | src/x64_emit.c:869-912 | the frame is a multiple of 16 and its parts are in their own stretches, from rbp down |
| Frame.PartsAreApart | src/x64_emit.c:869-912 | any two of the saved registers, slots, spill slots and outgoing arguments of all calls are apart, and inside the frame |
| Frame.SlotsAreAlignedIff | src/x64_emit.c:885-892 | a slot is at a multiple of its alignment for every rbp at a multiple of 16, if and only if 16 is a multiple of the alignment: larger ones are cut to 16 |
| Calls.ReservedRegistersAreNotAllocated | src/x64_emit.c:78-97 | the registers the emitter keeps for itself are never given to a vreg |
| Calls.EmitCallWithArgs | src/x64_emit.c:404-425 | for locations and for numbers: at the call every argument is in its register, in both banks for variadic floats, or in its stack cell |
| Calls.ArgumentsOfCallsAreApart | src/x64_emit.c:427-450 | for every call, memcpy and memset of an allocated function: the locations of its arguments are not in the way of the outgoing cells |
| Calls.PrologueIsMovable | src/x64_emit.c:998-1011 | the moves of the parameters meet what the parallel move asks for, by the allocation and the frame |
| Calls.EmitPrologueMoves | src/x64_emit.c:998-1011 | after the prologue every parameter with a location is in it |
| CallingConvention.CallLikeIffEmitted | src/ir.c:387-389 | an instruction is taken for a call by the passes if and only if the emitter makes a call of it, with its arguments |
| CallingConvention.EmittedCallLosesRegisters | src/ir.c:387-389 | no caller-saved register survives an instruction that is emitted as a call |
| CallingConvention.ValueSurvivesEmittedCall | src/regalloc.c:155-169 | a value that lives across an instruction that is emitted as a call is marked, and in a callee-saved register or in memory, unless the instruction opens its block and the interval starts there |
| CallingConvention.FloatsAreInXmm | src/regalloc.c:91-97 | a vreg has an xmm register exactly when its type is one of the two float types |
| CallingConvention.ArgumentsOfWin64 | src/x64_emit.c:76-76 | arguments are looked for in rcx, rdx, r8 and r9, in xmm0 to xmm3, in both for variadic floats, and above four cells of the stack |
| CallingConvention.ArgumentsArrive | src/x64_emit.c:404-425 | with the return address and rbp pushed, each parameter has in its location, after the prologue, what the argument of the call had before the moves of the call |
| CallingConvention.OutgoingAreaIsFree | src/x64_emit.c:898-911 | the four cells of the callee, and the arguments beyond four, are in no other part of the frame, for every call, memcpy and memset |
| SavedRegisters.EmitSaves | src/x64_emit.c:992-996 | the prologue stores the used registers in their cells, as SavedIsRestored has it |
| SavedRegisters.EmitRestores | src/x64_emit.c:914-919 | the epilogue loads them again, as SavedIsRestored has it |
| SavedRegisters.SavedIsRestored | src/x64_emit.c:914-919 | saving the used registers and loading them again gives them back, whatever happened to them in between |
| CallingConvention.CalleeSavedAreKept | src/x64_emit.c:914-997 | from entry to return a function keeps every callee-saved register, xmm14 and xmm15 exactly when its body leaves them alone |
| CallingConvention.SurvivorsAreKept | src/x64_emit.c:914-997 | so a call of a compiled function keeps every register that a value can be in across it |
| CallingConvention.ResultArrives | src/x64_emit.c:942-951 | what the callee returns is, after its epilogue, in the destination of the call |
| Structured.RunDefersConcat | src/ir_lower.c:2700-2715 | the deferred statements of two blocks run as those of the inner one, and then, when they end normally, those of the outer one |
| LoweringCorrect.DefersRun | src/ir_lower.c:2700-2715 | the blocks made for pending defers run each of them once, last first |
| LoweringCorrect.DefersWhileThrowingRun | src/ir_lower.c:2767-2774 | while an error is thrown the defers run as if none was, and afterwards the same error is thrown |
| LoweringCorrect.UnwindRuns | src/ir_lower.c:2777-2787 | a thrown error leaves through the defers up to the innermost try, and enters its handler, or returns it to the caller |
| LoweringCorrect.ThrowCheckRuns | src/ir_lower.c:2792-2810 | after a call, the run goes on exactly when nothing was thrown |
| LoweringCorrect.ThrowRuns | src/ir_lower.c:2813-2822 | a throw leaves exactly when its error is not the one for none |
| LoweringCorrect.ConditionRuns | src/ir_lower.c:2522-2552 | short-circuit conditions make the calls of the source, in its order, and go to the block of their truth |
| LoweringCorrect.LeaveRuns | src/ir_lower.c:3111-3124 | a way out of a block is a way out of what is around it, after the defers of the block |
| LoweringCorrect.BlockRuns | src/ir_lower.c:3111-3124 | a block runs as its statements, and all ways out run exactly the defers that were reached in it |
| LoweringCorrect.StmtRuns | src/ir_lower.c:3038-3109 | the blocks of every statement run as the statement: same calls, same world, same way out |
| LoweringCorrect.JumpRuns | src/ir_lower.c:2979-2994 | break and continue run the defers up to their loop, however many blocks and loops they leave |
| LoweringCorrect.ReturnRuns | src/ir_lower.c:2996-3036 | the values of a return are taken before the defers run, and are what is returned |
| LoweringCorrect.IfRuns | src/ir_lower.c:2660-2689 | an if with its else-ifs runs the first arm whose condition holds |
| LoweringCorrect.WhileRuns | src/ir_lower.c:2824-2840 | a while loop runs as its rounds |
| LoweringCorrect.ForeverRuns | src/ir_lower.c:2843-2858 | a loop without a condition runs as its rounds, and ends only by another way out |
| LoweringCorrect.ForRuns | src/ir_lower.c:2862-2976 | a loop over a range or an array runs as its rounds; continue goes to the step |
| LoweringCorrect.TryRuns | src/ir_lower.c:3067-3089 | an error thrown in the body, and nothing else, comes to the handler, as the error that was thrown |
| LoweredFunctions.LoweredRuns | src/ir_lower.c:3232-3312 | every end of the statements of a function is an end of its blocks; while the statements go on, so do the blocks |
| LoweredFunctions.LoweredEndsAsSource | src/ir_lower.c:3232-3312 | every end of the blocks is an end of the statements |
| LoweredFunctions.LoweringKeepsMeaning | src/ir_lower.c:3232-3312 | when no defer ends abnormally: the blocks halt if and only if the statements end, and then in the same way, with the same world |
| Lowerers.Lowerer.LowerDefers | src/ir_lower.c:2700-2715 | the method changes the state as the function says, and puts the stack of defers back as it was |
| Lowerers.Lowerer.LowerDefersWhileThrowing | src/ir_lower.c:2767-2774 | with an error put aside, the method makes exactly the blocks of the function, and leaves the stacks as they were |
| Lowerers.Lowerer.LowerUnwind | src/ir_lower.c:2777-2787 | leaving for the innermost try, or the caller, makes exactly the blocks of the function, and leaves the stacks as they were |
| Lowerers.Lowerer.LowerBranch | src/ir_lower.c:2522-2552 | conditions make exactly the blocks of the function, and leave the stacks as they were |
| Lowerers.Lowerer.LowerBreakOrContinue | src/ir_lower.c:2979-2994 | finds the innermost loop with the key on the stack and leaves to it |
| Lowerers.Lowerer.LowerStatement | src/ir_lower.c:3038-3109 | the stacks around a statement are as before it, except that a defer is pushed |
| Lowerers.Lowerer.LowerStatements | src/ir_lower.c:3111-3124 | a block takes its defers off the stack again |
| Lowerers.Lowerer.LowerWhileLoop | src/ir_lower.c:2824-2840 | the loop is on the stack for its body only |
| Lowerers.Lowerer.LowerForLoop | src/ir_lower.c:2862-2976 | the loop is on the stack for its body only, with the step as the target of continue |
| Lowerers.Lowerer.LowerTryStatement | src/ir_lower.c:3067-3089 | the try is on the stack for its body, and not for its handler |
| Lowerers.LowerBody | src/ir_lower.c:3232-3312 | the blocks made by the methods are the ones the theorems are about |
| NameTable.FindSlot | src/ir.c:147-155 | a probe ends at the slot of the name, or at the free slot where it goes |
| NameTable.Entered | src/ir.c:169-171 | an entry in the slot where a probe ended keeps every other name findable |
| Globals.Rehash | src/ir.c:159-168 | growing keeps exactly the names, each with its global |
| Modules.Module.NameSet | src/ir.c:157-172 | the name refers to the global, unless another has it; no other lookup changes; at most half of the slots are taken |
| Modules.Module.UniqueName | src/ir.c:180-186 | ends, with a name no global has, which is the name itself when that is free |
| Modules.ManyTaken | src/ir.c:183-185 | n taken numbers need n names, so the search for a free one ends |
| Modules.DataNamesDiffer | src/ir.c:199-208 | generated names of different data differ, whatever the debug names are |
| Modules.DataNameIsPlain | src/ir.c:195-212 | a generated name has letters, digits and underscores only, and is read back by the assembler as it is |
| Modules.NumberedIsNoDataName | src/ir.c:226-230 | a number after a name does not make it a generated one |
| Modules.Module.AddFunction | src/ir_lower.c:3149-3172 | the global of a function gets a free name and is found by it |
| Modules.Module.AddData | src/ir.c:199-217 | generated data names never clash with one that is there |
| Modules.NamedAfterTaking | src/ir.c:225-236 | when a name changes hands every global is still found by its current name |
| Modules.Module.FindOrAddExtern | src/ir.c:219-238 | what is found has the name and not the mark of the functions of the program, so it is an extern when all bodies have the mark; one that had the name gets a free name, and its body too |
| Modules.Module.FunctionNew | src/ir.c:240-258 | a body goes to the extern with its name, or to a new global; every global is found by its name afterwards if and only if the name was free or the one of an extern; all bodies keep the mark exactly when the global had it |
| FloatConversion.RoundIsNearestEven | src/x64_emit.c:639-655 | the rounding used below: no float is nearer, and of two as near it is the even one (IEEE 754-2008, section 4.3.1) |
| FloatConversion.U64ToFloatRounds | src/x64_emit.c:639-655 | converting the value, or its half with the low bit kept and doubled, is one rounding of the u64, for all values and significands of 2 to 61 bits |
| AsmData.AssembleList | src/x64_asm.c:788-832 | the loop over the text of a list gives what the items say |
| AsmData.AssembleLines | src/x64_asm.c:784-832 | the lines of a data section, with their loops for padding, zeros and lists, give what the lines say |
| AsmData.PaddingAligns | src/x64_asm.c:784-786 | padding is less than the alignment, and aligns |
| Numerals.NumberIsRead | src/x64_asm.c:250-262 | decimal, octal and hexadecimal numbers with small or capital letters are read as the number, and with a minus as its complement to 64 bits |
| Numerals.SameLocalLabelIff | src/x64_asm.c:265-269 | two local labels have the same symbol if and only if their names and the labels around them are the same |
| Numerals.LocalLabelIsPlaced | src/x64_asm.c:991-996 | a local label has the name of the last label that is not local before its own, and leaves it as that label |
| GlobalData.ByteList | src/x64_emit.c:1052-1063 | the text of a list of bytes, at most 5 characters for each |
| GlobalData.ListIsRead | src/x64_emit.c:1052-1063 | the assembler reads this text as the same bytes |
| GlobalData.SymbolIsAdded | src/x64_asm.c:812-828 | the name of a symbol is read as 8 zeros and one ABS64 relocation for it |
| GlobalData.SortByOffset | src/x64_emit.c:1069-1076 | the relocations of the global, by offset |
| GlobalData.WriteData | src/x64_emit.c:1079-1118 | the lines stand for the data with zeros in the fields, and for the relocations |
| GlobalData.EmitGlobalData | src/x64_emit.c:1065-1119 | in any section without the symbol, assembling the lines adds padding, the label, the data, and exactly one relocation for each one of the global, by offset |
| GlobalData.GlobalIsAligned | src/x64_emit.c:1065-1119 | the symbol is at a multiple of the alignment, its bytes are the data with zeroed fields, and each relocation is at its field; what was in the section stays |
| AsmLayout.Lengthen | src/x64_asm.c:888-899 | one pass makes long exactly the short jumps that do not reach |
| AsmLayout.NoFurtherApart | src/x64_asm.c:880-902 | with more short jumps nothing is further apart |
| AsmLayout.ReachesInBoth | src/x64_asm.c:880-902 | a jump that does not reach with more short jumps does not reach with fewer |
| AsmLayout.Layout | src/x64_asm.c:880-902 | ends; the offsets are those of the final sizes, every short jump reaches, and every valid choice of sizes makes long all jumps that are long here |
| AsmText.JumpIsRead | src/x64_asm.c:918-927 | decoding the bytes of a short or long jump gives its condition, length and distance |
| AsmText.FinishText | src/x64_asm.c:904-949 | fails if and only if a jump has no label of the text; otherwise each instruction is read at its offset, each jump as one that leads to the returned offset of its symbol, and a jump is short exactly when that distance is a signed byte |
| AsmText.ItemLeads | src/x64_asm.c:909-948 | at the offset of an item a processor reads its bytes, or a jump with its condition whose end and distance give the offset of the label |
| AsmText.ShortIffReaches | src/x64_asm.c:880-902 | valid sizes that are shortest make exactly those jumps short whose distance, when short, is from -128 to 127 |
| AsmText.RelocIsAtItsField | src/x64_asm.c:930-937 | each pending relocation is at the same field of its instruction as before |
| AsmEncode.EncodedIsRead | src/x64_asm.c:398-453 | for every operand that is accepted, whatever follows: decoding gives the prefix, width, opcode, register, operand and length, and a REX prefix for the byte registers that need one; which operands are accepted |
| AsmEncode.OperandIsReadUnlessIndexIsRsp | src/x64_asm.c:432-452 | a memory operand comes back if and only if its index is not rsp |
| AsmEncode.RelativeMeasuresFromEnd | src/x64_asm.c:456-462 | in the linked program, the end of the instruction and the value of the field of a rip-relative operand give the address of the symbol and the displacement, wherever the instruction is |
| AsmEncode.Encoder.EncModRm | src/x64_asm.c:398-453 | the method pushes the bytes of EncodedIsRead, or fails for an operand that is not accepted |
| AsmEncode.Encoder.EncFinish | src/x64_asm.c:456-462 | the method sets the trailing count of the relocation of the rip field |
| Objects.PutFields | src/object_writer.c:480-499 | writing the fields with addresses relative to the program gives what the formulas of the relocation kinds give |
| Objects.SameProgram | src/x64_asm.c:38-43 | an object whose fields and relocations stand for another's links to the same bytes |
| CoffWriter.AsmObject.ResolveLocalRelocs | src/object_writer.c:52-66 | patches exactly the fields of the relative relocations to the same section |
| CoffWriter.AsmObject.CoffWrite | src/object_writer.c:78-180 | the records of the file, and the fields patched to local values and addends |
| CoffWriter.WriteSymbols | src/object_writer.c:81-119 | the symbol records, the table of strings and the index of each symbol |
| CoffReader.CoffRead | src/object_writer.c:655-775 | the loops read a file as the function that the theorems of CoffRoundTrip and CoffMerging are about |
| CoffMerging.FileIsReadIff | src/object_writer.c:734-775 | for every file: it is read if and only if each relocation that the headers count, of a section that is not left out, has a supported type, a symbol that is read, and a field in the section |
| CoffMerging.IsPlacedUnlessLeftOut | src/object_writer.c:671-680 | a section is left out exactly for the flags LNK_REMOVE and LNK_INFO |
| CoffMerging.ContentsAre | src/object_writer.c:690-696 | uninitialized sections, and those without bytes, have zeros |
| CoffMerging.SectionIsPlaced | src/object_writer.c:681-697 | for every file: a section that is not left out is in the section of its kind, at a multiple of its alignment, with its contents |
| CoffMerging.SectionsAreApart | src/object_writer.c:681-697 | two sections of a file do not overlap where they are put |
| CoffMerging.RestIsPadding | src/object_writer.c:690-691 | each byte that is of no section is 0xCC in the code and 0 elsewhere |
| CoffMerging.EntriesAreRead | src/object_writer.c:700-732 | each record that is reached over the auxiliary ones has a symbol of its name, unless it is skipped; auxiliary records have none |
| CoffMerging.PlacesAreRead | src/object_writer.c:716-730 | a symbol is where the last record that defines it says, at its value in its own section, and nowhere without such a record |
| CoffMerging.RelocationMeans | src/object_writer.c:734-775 | relocation j of section k is for the same bytes of the section, and its value in any layout is what the file format asks for, for ADDR64, ADDR32NB, SECREL and REL32 to REL32_5 |
| CoffMerging.DefinedTarget | src/object_writer.c:734-775 | the target of a relocation to a symbol of the file is at the offset of the symbol in its own section, wherever that was put |
| CoffMerging.ExternTarget | src/object_writer.c:734-775 | the target of a relocation to a symbol that no record defines is the extern of its name |
| CoffMerging.FieldIsLinked | src/object_writer.c:734-775 | in the linked program the bytes of the field are this value |
| CoffMerging.PlainByteIsLinked | src/object_writer.c:690-697 | in the linked program each byte of a section in no field is the byte of the file |
| CoffFormat.SectionIsKnown | src/object_writer.c:159-176 | the flags tell the three sections apart with every alignment in them |
| CoffFormat.AlignmentIsReadIff | src/object_writer.c:176-176 | the alignment in the header is read back as a power of two that is not smaller, if and only if it is at most 16384, and less than twice as large |
| CoffFormat.LongNameIsRead | src/object_writer.c:97-108 | a name of more than 8 bytes is read back through the table of strings |
| CoffRoundTrip.SymbolsAreRead | src/object_writer.c:697-731 | each record gives one symbol: the sections under names of their own, then the globals and externs as they were |
| CoffLinked.FileIsRead | src/object_writer.c:655-775 | what is read from a written file, exactly: sections, symbols, and the relocations that the header counts |
| CoffLinked.AllAreReadIff | src/object_writer.c:173-173 | every relocation is read back if and only if no section has 65536 or more left, as the header counts them in 16 bits |
| CoffLinked.ResolvedIsLinked | src/object_writer.c:52-66 | a resolved field has the value a linker would put there, for every layout |
| CoffLinked.RoundTripLinks | src/object_writer.c:78-188 | for all bases and extern addresses, and all addends: linking what is read back gives the bytes that linking the object gives, when the headers can count the relocations |
| CoffLimits.RoundTripLinksIff | src/object_writer.c:78-188 | linking what is read back gives the bytes that linking the object gives, for every layout, if and only if no section has 65536 relocations or more left |
| CoffLimits.TooManyAddresses | src/object_writer.c:173-173 | an object with 65536 addresses of an extern, for which it does not |
| CoffFiles.FileIsDecoded | src/object_writer.c:146-184 | decoding the bytes of the file by its headers and offsets gives its records, with the relocations that the headers count |
| CoffFiles.WriteFile | src/object_writer.c:146-184 | the writer makes the bytes of FileIsDecoded, with the offsets it adds up on the way |
| CoffFiles.ReadFile | src/object_writer.c:655-668 | the reader decodes as in FileIsDecoded, and refuses what is no COFF file for x64 |
| CoffRoundTripBytes.CountedFileIsRead | src/object_writer.c:733-768 | the reader never looks at relocations that the headers do not count |
| CoffRoundTripBytes.BytesLinkIff | src/object_writer.c:78-188 | through the bytes of the file: the program is the same for every layout if and only if no section has 65536 relocations or more left |
| Dwarf.UlebIsRead | src/dwarf.c:59-66 | decoding an unsigned LEB128 number gives it back, for all numbers and whatever follows (DWARF 4, section 7.6) |
| Dwarf.SlebIsRead | src/dwarf.c:68-77 | decoding a signed LEB128 number gives it back, for all numbers and whatever follows |
| Dwarf.WriteUleb | src/dwarf.c:59-66 | the loop pushes exactly this encoding |
| Dwarf.WriteSleb | src/dwarf.c:68-77 | the loop, with its arithmetic shift, pushes exactly the signed encoding |
| Dwarf.OpsAreRead | src/dwarf.c:453-483 | the state machine reads the bytes of the instructions used here as these instructions |
| Dwarf.SequenceIsRead | src/dwarf.c:453-483 | interpreting a sequence gives the line of the function at its start, one row for each mark that no other one at its place follows, and the end (DWARF 4, sections 6.2.2 and 6.2.5) |
| Dwarf.RowsOfLastMarks | src/dwarf.c:469-479 | the rows of the marks are, in order, those of exactly the marks that all later ones are beyond: at the later of the mark and the end of the prologue, with its line, the first of them as the end of the prologue |
| Dwarf.LookupFindsLine | src/dwarf.c:452-483 | a row that covers an address has the line of the last mark up to there, and in the prologue and before the first mark the line of the function, or 1 |
| Dwarf.LookupFinds | src/dwarf.c:452-483 | every address from the start of the function up to its end is covered by a row |
| Dwarf.RowsInOrder | src/dwarf.c:453-483 | addresses never go down, from the start of the function to its end, and only the last row ends the sequence |
| Dwarf.AddressInField | src/dwarf.c:459-460 | the 8 zeros of the address are the field of the relocation |
| Dwarf.WriteSequence | src/dwarf.c:453-483 | the writer makes the bytes of SequenceIsRead, with zeros for the address at offset 3 |

## Left out

- Verifier.VerifyFunction: the type rules for single instructions (src/ir.c:695-852), a table of cases, and the check of the block indices are not among its rules. Blocks are named by their index here.
- qsort, for the intervals and for the relocations of data: an insertion sort stands for it. Only that the result is sorted and a permutation is used.
- Fixed sizes of buffers: 256 characters for a name, 160 for a symbol, 64 parameters, 32-bit positions. They are preconditions, or numbers without a bound.
- Simulation.AllocationPreservesMeaning: one direction. A function whose value has no mark can still run as it should, when the value happens to be in a register that survives, or no run gets there; the exact statement is the one about the marks, `LiveRanges.CrossingsAreMarkedIff`.
- Text of instructions: the emitter's lines for moves and conversions are lists of instructions with a meaning, not characters. The operands of data lists are characters.
- Lowering: expressions are the calls they make and a value; lines, traces, thread blocks, what main does with an error nobody caught, and the place of blocks in the layout are not modelled. A deferred statement that does not end normally makes the run stuck: `LoweredFunctions.LoweringKeepsMeaning` is about runs where none does. The typer refuses deferred statements that jump out (src/typer.c:4838-4945).
- LoweredFunctions.LoweringKeepsMeaning: asks that the flag a call returns for throwing agrees with the error that is set (`Structured.CalleesAgree`), which is the convention of the compiled functions.
- The hash of names: any function of the name stands for FNV-1a.
- Lowerers.LowerBody: the blocks of the body. The slots of the parameters and the instructions at the entry that fill them are not made.
- Data directives that the emitter does not write (dw, dd, times with another value), and align in the text section, which is an error.
- SavedRegisters.SavedIsRestored: of an xmm register the 64 bits that a value has; the upper half is saved and loaded with it.
- CallingConvention.CalleeSavedAreKept: what the body of a function does is assumed (`IsBody`): it writes only registers that vregs have, scratch registers and caller-saved ones, and leaves rbp and the saved cells alone.
- Debug comments between the lines of data, and the float constants after them.
- AsmEncode: the choice of opcodes in asm_encode, and parsing of operands.
- AsmText.FinishText: text sections from 2 gigabytes on, whose distances do not fit.
- CoffReader.CoffRead: sections beyond the three (.pdata, .xdata, .debug), and sections that the reader leaves out by name. Where a record leads outside of the file, the model's reader says Malformed; the compiler does not check. Records that belong to another record are marked as left out; the compiler leaves their entries unset.
- CoffFiles.ReadFile: names of sections, and symbols with values from 2 gigabytes on.
- CoffLimits.RoundTripLinksIff: for what the assembler makes (three sections, REL32 with up to 5 bytes after the field, ABS64, names of 1 to 255 bytes that differ and are not the ones the reader makes for sections). The kinds that only the reader makes, RVA32 and SECREL32, would be written as REL32.
- CoffRoundTripBytes.BytesLinkIff: files of less than 4 gigabytes.
- The ELF writer, the headers, imports and tables of the program writer, the unwind tables.
- DWARF: the header of the line program, the file table, and the information about types and variables.
- The LLVM back end, the parser, the typer, the editor features, and reading and writing of files.
