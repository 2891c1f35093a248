# Verified models of PochiVM's fast interpreter, its query engine, and taco's lazy tensors

This project models the parts of the repository whose correctness is not visible in any single function, and proves what
they are for. Objects that the source updates in place are classes, its loops are loops, and each such method is proved
against functions and relations on values, about which the theorems are then proved.

`dafny verify dfyconfig.toml` checks everything.

## The components

**The expression compiler** (`StackFrame`, `FrameManager`, `FrameLedger`, `Compiler`, `ExprNodes`).
`StackFrame` gives the frame planner, the two operand stacks and the frame manager as functions that return `None` where
an assertion of the source fires; the classes of `FrameManager` are proved against them. `Compiler` has both passes, the
guards (`cond`) and the effect of the boilerplates, and the interpreter's meaning of an expression; `ExprNodes` runs the
passes over mutable nodes. `Compiler.CompilerCorrect` says that no assertion fires, every selected boilerplate exists,
and the emitted chain leaves the interpreter's value in the next register or the given slot and keeps every live
register, slot and local variable, although slots are reused. Interpreter and machine are two definitions, and
`Compiler.ArithmeticChain`, `Compiler.ComparisonChain` and `Compiler.SubtractionChain` say what the chain of a node and
of a whole tree leaves. `FrameLedger.FrameSafe` is the planner's own safety over every sequence of operations.

**Placement and materialisation** (`PlacementTheory`, `Placement`, `MachineCode`, `BluePrint`, `CodeSection`,
`StripJump`, `Relocation`, `BoilerplateBuild`, `BoilerplateInstance`, `CodegenEngine`, `ControlFlow`).
The two-pass chase places every instance once, covers the code section exactly, and drops as many final jumps as any
order can (`Placement.PlaceCodeSections`). The build stage turns a section and its relocations into a blueprint
(`BoilerplateBuild.Preprocess`), the run-time stage copies, patches, strips and shortens it
(`StripJump.MaterializeCodeSection`), and the two together give the psABI's formulas
(`BoilerplateBuild.RelocationsHold`). `ControlFlow.BackEndPreservesControl` joins both stages and is the end result:
wherever a section that the build accepted branches to a placeholder, or ends in a jump to it that was left out, the
program in the engine's memory leads to the start of the instance that the placeholder was populated with. Code is an
array of bytes; jmp, jcc, call and NOP are decoded by the rules of the manual, which know nothing of the table of
recommended NOPs, and all other instructions are opaque bytes. Jumps are as short as their targets allow.

**The query engine** (`ProbeSequence`, `HashTable`, `RowMemory`, `GroupBy`, `HashJoin`).
The emitted statements become methods on arrays. The probe sequence visits every slot, the table represents a finite map
through any probes, inserts and doublings, the join is the nested-loop join as a sequence (`HashJoin.JoinPositions`: all
matching pairs of positions in order), and the aggregation gives for every key once the fold over that key's rows
(`GroupBy.GroupingSums`: a sum is the initial value plus the total of the group).

**Boilerplate selection** (`Cuckoo`). Whenever the builder succeeds, the single fingerprint comparison of the run-time
lookup finds every key, and none of the builder's sanity assertions can fire. A failure means a clash of (slot,
fingerprint) pairs, or a table from which no displacement path of the allowed length leads to an empty slot; keys that
hash into different first slots are always built. Slots are equal shares of the hash values (`Cuckoo.MapsInto`).

**Lazy tensors** (`LazyTensors`, `LazyRuns`, `LazyCalls`, `SparseEquals`). Deferred assignment with flags and dependent
lists returns, on every read of every legal run, what computing each assignment at once would return
(`LazyRuns.CombinationReads` and its neighbours: what that is); pending dependencies are acyclic, which is why the
mutual recursion ends. `LazyCalls` says exactly when it ends, also after an assignment that reads its own target, and
which tensors a synchronisation settles. Merging two sparse coordinate streams decides equality at every coordinate.

**Base64** (`Base64`). Round trips for both alphabets, and through lines of any width; which strings decode, and which
are read behind their end.

`Arith` and `Wrappers` hold shared arithmetic and the option type.

## Where the code differs from its documentation

- The first instance of every chase is aligned to 16 bytes even if a larger alignment was requested for it
  (PochiVM/fastinterp/fastinterp_codegen_helper.hpp:83); the model does the same. `Placement.AlignmentHonoured` says
  from the tail-call graph and the requests which requests survive: one for more than 16 bytes is lost exactly if
  nothing jumps to the instance, or if it is the first instance of a cycle that nothing outside jumps into.
  `Placement.AlignmentLost` is a program in which a request for 64 bytes is lost.
- The guard of the outlined comparison tests `spillOutput` where the other boilerplates test `!spillOutput`
  (PochiVM/fastinterp/fastinterp_tpl_outlined_comparison_expr.cpp:30). `Compiler.GuardsLeaveRoom` says exactly which
  admitted instances have no register for their result; `Compiler.PrepareOk` shows that the compiler asks for none.
- Equality of tensors is not symmetric, because the difference is measured relative to the left value
  (src/tensor.cpp:1009-1016). `SparseEquals.SymmetricUnlessBorderline` says for which two values it is symmetric, and
  `SparseEquals.TensorSymmetry` for which two tensors; `SparseEquals.TensorEqualityIsNotSymmetric` gives two tensors
  with one stored value each that are equal in one order only.
- An assignment whose target is among its own operands makes `syncValues` recurse forever. `LazyCalls.AssignedReturns`
  says that after an assignment some depth of calls is enough to synchronise the target exactly when the target is not
  among its operands, and `LazyCalls.NeverReturns` that no depth is enough while a tensor waits for itself.

- Decoding Base64 looks one character behind the end of some strings (PochiVM/mini_db_backend/base64_util.cpp:200-210).
  In a `std::string` that is the terminator, which is rejected; in a `std::string_view` it is outside.
  `Base64.OverreadExactly` says for which strings this happens, `Base64.DecodesExactly` which strings are accepted, and
  `Base64.OneCharacterShort` gives one of each kind.

## What is a parameter

Arithmetic and comparison operators, what a leaf expression reads, and which leaves match an operand shape; hash
function and key of a row, field updates of an aggregation; kernels and packing of a tensor; the base address of the
generated code. Relocations come as data, and relocated fields are parts of instructions that do not overlap
(`Relocation.Separate`). Row addresses are nonzero and key fields do not change after insertion.

## Model

| member | source | states |
|---|---|---|
| `StackFrame.GetTempTakes` | PochiVM/fastinterp/fastinterp_operand_stack.h:44-60 | a temporary comes from the available slots, which lose exactly that one |
| `StackFrame.FreeTempGives` | PochiVM/fastinterp/fastinterp_operand_stack.h:62-66 | freeing is never rejected for a slot in use, and makes exactly that slot available |
| `StackFrame.PushOk` | PochiVM/fastinterp/fastinterp_operand_stack.h:155-167 | a push keeps spilled operands a bottom prefix with distinct unavailable slots, and its assertion fires only for a spilled operand above an unspilled one |
| `StackFrame.PopOk` | PochiVM/fastinterp/fastinterp_operand_stack.h:175-186 | a pop returns the top's location and frees its slot |
| `StackFrame.ReserveOk` | PochiVM/fastinterp/fastinterp_operand_stack.h:295-301 | reserving pops an operand that is in a register, makes room for one more register operand and changes nothing else that is live |
| `FrameManager.FIStackFramePlanner.GetTemp` | PochiVM/fastinterp/fastinterp_operand_stack.h:44-60 | new state and result are those of the planner function |
| `FrameManager.FIStackFramePlanner.IsNoTempInUse` | PochiVM/fastinterp/fastinterp_operand_stack.h:68-90 | counting the free list decides whether any temporary is in use, and the sanity assertions hold |
| `FrameManager.FIStackFramePlanner.GetLocalVar` | PochiVM/fastinterp/fastinterp_operand_stack.h:92-103 | new state and result are those of the planner function |
| `FrameManager.FITempOperandStack.Push` | PochiVM/fastinterp/fastinterp_operand_stack.h:155-167 | the loop spills what the function spills |
| `FrameManager.FITempOperandStack.Pop` | PochiVM/fastinterp/fastinterp_operand_stack.h:175-186 | new state and location are those of the function |
| `FrameManager.FIStackFrameManager.PushTemp` | PochiVM/fastinterp/fastinterp_operand_stack.h:238-252 | a push on the stack of the type's class, both stacks sharing one planner |
| `FrameManager.FIStackFrameManager.ReserveTemp` | PochiVM/fastinterp/fastinterp_operand_stack.h:295-301 | push and pop, the popped operand being in a register |
| `FrameLedger.FreeCount` | PochiVM/fastinterp/fastinterp_operand_stack.h:68-90 | the free list is as long as the temporary area exactly when no temporary is in use |
| `FrameLedger.LegalOperations` | PochiVM/fastinterp/fastinterp_operand_stack.h:44-123 | in the ledger invariant an operation is legal exactly when its caller holds what it gives back and, for locals, no temporary is in use; no assertion of the planner asks for more |
| `FrameLedger.PerformAllKeeps` | PochiVM/fastinterp/fastinterp_operand_stack.h:32-113 | every legal run of planner operations keeps the ledger invariant, and the frame size only grows |
| `FrameLedger.FrameSafe` | PochiVM/fastinterp/fastinterp_operand_stack.h:32-123 | over every legal run live temporaries and locals are aligned, disjoint and inside the final frame; dropping all locals restores the base |
| `Compiler.SetupOk` | PochiVM/pochivm/arith_expr_fastinterp.cpp:7-68 | pass 1 never trips an assertion and ends with the operand stacks as deep as before, possibly with more spilled |
| `Compiler.PrepareOk` | PochiVM/pochivm/arith_expr_fastinterp.cpp:70-183 | pass 2 agrees with pass 1: no assertion fires, every boilerplate selected passes its guard, stacks and slots are as before |
| `Compiler.OutlineAgrees` | PochiVM/pochivm/arith_expr_fastinterp.cpp:161-165 | an operand that pass 1 found spilled is spilled at the push in pass 2, and no other |
| `Compiler.ExecOk` | PochiVM/fastinterp/fastinterp_tpl_outlined_arith_expr.cpp:71-105 | the chain of an expression computes the interpreter's value; interpreter and boilerplates each say for themselves which operand comes first |
| `Compiler.EmitComputes` | PochiVM/fastinterp/fastinterp_tpl_inline_arith_expr.cpp:90-115 | a boilerplate reads its operands, then writes its output and passes on every live register |
| `Compiler.CompilerCorrect` | PochiVM/pochivm/arith_expr_fastinterp.cpp:7-183 | compiler correctness for every tree, register limit, operand stack and machine state |
| `Compiler.ArithmeticChain` | PochiVM/fastinterp/fastinterp_tpl_outlined_arith_expr.cpp:71-105 | however its operands are inlined, outlined or spilled, the chain of an arithmetic node leaves its operator applied to the left and the right value, in this order, in the register file of its type |
| `Compiler.ComparisonChain` | PochiVM/fastinterp/fastinterp_tpl_inline_arith_expr.cpp:90-115 | the chain of a comparison leaves 1 in an integral register exactly when it holds of the left and the right value, else 0 |
| `Compiler.SubtractionChain` | PochiVM/pochivm/arith_expr.h:40-49 | if subtraction subtracts, the chain of any tree of subtractions over local variables leaves their difference, which is computed from the frame without the interpreter |
| `Compiler.ShapeChosen` | PochiVM/pochivm/arith_expr_fastinterp.cpp:7-68 | which operands of a node are inlined, by their shapes |
| `Compiler.ExistingBoilerplates` | PochiVM/fastinterp/fastinterp_tpl_inline_arith_expr.cpp:20-75 | a boilerplate exists exactly for an operator on the right type, operands of known shape, no division by a literal zero, and the number of free registers that its types and its output ask for |
| `Compiler.GuardsLeaveRoom` | PochiVM/fastinterp/fastinterp_tpl_outlined_comparison_expr.cpp:23-39 | the guards leave a register for the result exactly outside one family of outlined comparisons |
| `Compiler.GuardAdmitsFullRegisters` | PochiVM/fastinterp/fastinterp_tpl_outlined_comparison_expr.cpp:28-33 | a member of that family which passes its guard |
| `ExprNodes.AstNode.FastInterpSetupSpillLocation` | PochiVM/pochivm/arith_expr_fastinterp.cpp:7-68 | the method on nodes does what pass 1 does and records its decisions |
| `ExprNodes.AstNode.PrepareForFastInterp` | PochiVM/pochivm/arith_expr_fastinterp.cpp:70-183 | the method on nodes emits pass 2's code from the recorded decisions |
| `ExprNodes.CompileExpression` | PochiVM/pochivm/arith_expr_fastinterp.cpp:185-396 | both passes over one tree of arithmetic and comparison nodes give correct code |
| `PlacementTheory.ChainsAreOptimal` | PochiVM/fastinterp/fastinterp_codegen_helper.hpp:56-63 | no order of the instances has more fall-throughs than an order made of justified chains |
| `PlacementTheory.HeadPerChain` | PochiVM/fastinterp/fastinterp_codegen_helper.hpp:56-63 | in any order each chain contains an instance that its predecessor does not fall into |
| `PlacementTheory.HeadsAreStarts` | PochiVM/fastinterp/fastinterp_codegen_helper.hpp:65-79 | chases start exactly where nothing jumps to and at the least instance of each cycle closed to the outside |
| `PlacementTheory.CycleIsClosed` | PochiVM/fastinterp/fastinterp_codegen_helper.hpp:71-76 | what the second pass chases is a whole cycle |
| `Placement.Chase` | PochiVM/fastinterp/fastinterp_codegen_helper.hpp:78-111 | one chase places a chain behind what is placed, aligned, stripping all but its last |
| `Placement.PlaceCodeSections` | PochiVM/fastinterp/fastinterp_codegen_helper.hpp:54-120 | every instance is placed, and the order is optimal |
| `Placement.PlacementCoversMemory` | PochiVM/fastinterp/fastinterp_codegen_helper.hpp:84-111 | code and padding cover the section, each byte once; its length is code plus padding less five per strip |
| `Placement.FallsIntoContinuation` | PochiVM/fastinterp/fastinterp_codegen_helper.hpp:99-110 | behind a stripped instance begins the padding of its continuation |
| `Placement.AlignmentHonoured` | PochiVM/fastinterp/fastinterp_codegen_helper.hpp:79-91 | a requested alignment survives exactly if it is for at most 16 bytes, or something jumps to the instance and it is not the least of a cycle closed to the outside; the address then obeys it |
| `Placement.AlignmentLost` | PochiVM/fastinterp/fastinterp_codegen_helper.hpp:83 | a program in which one of two requests for 64 bytes is not obeyed, however it is placed |
| `Placement.LengthFits` | PochiVM/fastinterp/fastinterp_codegen_helper.hpp:65-93 | the 32-bit running length does not overflow below 2^31 bytes |
| `MachineCode.NopDecodes` | PochiVM/fastinterp/x86_64_populate_nop_instruction_helper.h:18-26 | each recommended NOP is one instruction of its length, by the encoding rule of the manual: an optional prefix, the opcode, and an operand whose ModRM and SIB bytes give the length |
| `MachineCode.OnlyNops` | PochiVM/fastinterp/x86_64_populate_nop_instruction_helper.h:14-26 | nothing but 90, or 0F 1F with reg field 0, with a prefix 66 or without, decodes as a NOP |
| `MachineCode.OperandLengths` | PochiVM/fastinterp/x86_64_populate_nop_instruction_helper.h:14-26 | the length of an operand for every addressing form |
| `MachineCode.OpcodesDecode` | PochiVM/fastinterp/x86_64_rewrite_jmp_jcc_instruction_helper.h:22-45 | the opcodes of jumps, calls and conditional jumps decode to their targets |
| `MachineCode.NothingElseDecodes` | PochiVM/fastinterp/x86_64_rewrite_jmp_jcc_instruction_helper.h:22-45 | no other byte decodes as one of them |
| `MachineCode.NopsRun` | PochiVM/fastinterp/x86_64_populate_nop_instruction_helper.h:10-38 | the filler runs straight through its range |
| `MachineCode.PopulateNops` | PochiVM/fastinterp/x86_64_populate_nop_instruction_helper.h:10-38 | fills exactly the range, longest NOPs first |
| `MachineCode.TryRewriteJmp` | PochiVM/fastinterp/x86_64_rewrite_jmp_jcc_instruction_helper.h:22-36 | the target of a jump stays, it is in its two-byte form exactly if that reaches the target, and only its bytes change |
| `MachineCode.TryRewriteJcc` | PochiVM/fastinterp/x86_64_rewrite_jmp_jcc_instruction_helper.h:41-56 | condition and target stay, the two-byte form is used exactly if it reaches the target, and untaken control still arrives behind the instruction |
| `MachineCode.WrapKeepsShort` | PochiVM/fastinterp/x86_64_rewrite_jmp_jcc_instruction_helper.h:27-29 | a displacement whose adjustment wraps around is not taken for a short one |
| `MachineCode.RewriteJmpKeeps` | PochiVM/fastinterp/x86_64_rewrite_jmp_jcc_instruction_helper.h:22-36 | a jump decodes to the same target, and is as short as that target allows |
| `MachineCode.RewriteJccKeeps` | PochiVM/fastinterp/x86_64_rewrite_jmp_jcc_instruction_helper.h:41-56 | a conditional jump decodes to the same condition and target, is as short as that target allows, and NOPs lead from its end to the old next instruction |
| `MachineCode.ShortJmpBytes` | PochiVM/fastinterp/x86_64_rewrite_jmp_jcc_instruction_helper.h:22-36 | the five bytes of a shortened jump |
| `MachineCode.ShortJccBytes` | PochiVM/fastinterp/x86_64_rewrite_jmp_jcc_instruction_helper.h:41-56 | the six bytes of a shortened conditional jump |
| `MachineCode.LongStays` | PochiVM/fastinterp/x86_64_rewrite_jmp_jcc_instruction_helper.h:27-29 | displacements that do not fit into a byte leave the instruction as it is |
| `MachineCode.ReadBytes` | PochiVM/fastinterp/build_fast_interp_lib.cpp:344-363 | reading a little-endian field gives what was written, modulo its range |
| `MachineCode.LittleEndian` | PochiVM/fastinterp/build_fast_interp_lib.cpp:344-363 | the byte at the lowest address counts least |
| `MachineCode.TwosComplement` | PochiVM/fastinterp/x86_64_rewrite_jmp_jcc_instruction_helper.h:24-30 | a displacement of one or four bytes is the number of its range that is congruent to the field |
| `BluePrint.FixAddresses` | PochiVM/fastinterp/fastinterp_helper.h:140-153 | each listed field has grown by minus the code's address, and nothing else has changed |
| `BluePrint.FixSymbols` | PochiVM/fastinterp/fastinterp_helper.h:155-175 | each listed field has grown by the value of its symbol, and nothing else has changed |
| `BluePrint.ShortenJmps` | PochiVM/fastinterp/fastinterp_helper.h:179-190 | all listed jumps go where they went, and each is as short as its target allows |
| `BluePrint.ShortenJccs` | PochiVM/fastinterp/fastinterp_helper.h:192-197 | all listed conditional jumps go where they went, and each is as short as its target allows |
| `StripJump.StripArranged` | PochiVM/fastinterp/fastinterp_helper.h:131-185 | dropping the last array entries drops exactly the final jump's fixups, and the assertions before it hold |
| `StripJump.MaterializeCodeSection` | PochiVM/fastinterp/fastinterp_helper.h:128-198 | every remaining site is done, every other byte is the boilerplate's, nothing outside is touched |
| `CodeSection.SiteFinished` | PochiVM/fastinterp/fastinterp_helper.h:140-197 | after all loops a site carries its content plus its addend, however its jump is encoded, and the jump is as short as its target allows |
| `Relocation.FileReloc` | PochiVM/fastinterp/build_fast_interp_lib.cpp:1310-1463 | a relocation is filed in the right lists, or rejected, exactly as its symbol, type and opcode ask |
| `Relocation.AcceptedBounds` | PochiVM/fastinterp/build_fast_interp_lib.cpp:1331-1440 | an accepted relocation has an ordinal below 64 and, for a branch, one of the opcodes E9, 0F 80 to 0F 8F or E8 in front of its field |
| `Relocation.OffsetsList` | PochiVM/fastinterp/build_fast_interp_lib.cpp:1519-1523 | a sorted offset list lists the sites of its sort, ascending |
| `Relocation.RecordsList` | PochiVM/fastinterp/build_fast_interp_lib.cpp:1479-1520 | a sorted record list lists the sites of its width with ordinals into the shared array |
| `Relocation.Collect` | PochiVM/fastinterp/build_fast_interp_lib.cpp:1297-1463 | the loop accepts exactly the acceptable sections, files every relocation and adds its own part |
| `BoilerplateBuild.HighestAttained` | PochiVM/fastinterp/build_fast_interp_lib.cpp:1345 | the ordinal bound is attained |
| `BoilerplateBuild.HighestBounds` | PochiVM/fastinterp/build_fast_interp_lib.cpp:1345 | the ordinal bound is above every ordinal of its kind |
| `BoilerplateBuild.LitcSays` | PochiVM/fastinterp/build_fast_interp_lib.cpp:1384-1477 | the recorded ordinal says whether the section ends in a tail call |
| `BoilerplateBuild.Preprocess` | PochiVM/fastinterp/build_fast_interp_lib.cpp:1236-1523 | a blueprint comes out exactly for buildable sections, and it describes every relocation |
| `BoilerplateBuild.TrapIsUd2` | PochiVM/fastinterp/build_fast_interp_lib.cpp:1237-1258 | the bytes 0F 0B follow the section exactly if a trap is asked for |
| `BoilerplateBuild.TwoStageValue` | PochiVM/fastinterp/build_fast_interp_lib.cpp:1310-1330 | build-time part plus run-time fixups is S + A - P or S + A, cut to the field |
| `BoilerplateBuild.RelocationsHold` | PochiVM/fastinterp/fastinterp_helper.h:140-175 | every relocated field of materialised code but a stripped jump's carries the psABI value |
| `BoilerplateInstance.FastInterpBoilerplateInstance.constructor` | PochiVM/fastinterp/fastinterp_codegen_helper.h:111-137 | a new instance has no placeholder populated and no continuation |
| `BoilerplateInstance.FastInterpBoilerplateInstance.PopulateBoilerplateFnPtrPlaceholder` | PochiVM/fastinterp/fastinterp_codegen_helper.h:17-33 | the placeholder points to the instance, which becomes the continuation exactly for the final jump's ordinal |
| `BoilerplateInstance.FastInterpBoilerplateInstance.PopulateConstantPlaceholder` | PochiVM/fastinterp/fastinterp_codegen_helper.h:58-91 | the constant goes to its own part of the array; one that was optimised out is dropped |
| `BoilerplateInstance.FastInterpBoilerplateInstance.Materialize` | PochiVM/fastinterp/fastinterp_codegen_helper.h:141-169 | pointers are resolved, padding and code are finished, nothing else is written |
| `CodegenEngine.Link` | PochiVM/fastinterp/fastinterp_codegen_helper.h:17-33 | populating a placeholder keeps instances, continuations and the tail-call graph in step |
| `CodegenEngine.LinkedIsWired` | PochiVM/fastinterp/fastinterp_codegen_helper.h:28-32 | populated instances form the graph that placement works on |
| `CodegenEngine.AddContinuation` | PochiVM/fastinterp/fastinterp_snippet.hpp:9-24 | the first snippet's tail continues with the second one's entry; empty snippets are neutral |
| `CodegenEngine.PopulateEntryPoints` | PochiVM/fastinterp/fastinterp_codegen_helper.hpp:42-52 | exactly the noted placeholders now lead to the entries of their functions |
| `CodegenEngine.FastInterpCodegenEngine.InstantiateBoilerplate` | PochiVM/fastinterp/fastinterp_codegen_helper.h:272-284 | the new instance joins the list under its ordinal and leads nowhere |
| `CodegenEngine.FastInterpCodegenEngine.RegisterGeneratedFunctionEntryPoint` | PochiVM/fastinterp/fastinterp_codegen_helper.hpp:10-19 | the function is entered at the instance, and from outside through a wrapper that leads to it |
| `CodegenEngine.FastInterpCodegenEngine.Materialize` | PochiVM/fastinterp/fastinterp_codegen_helper.hpp:33-196 | the memory holds the whole program, optimally ordered, and entry points are the wrappers' addresses |
| `CodegenEngine.WrittenPages` | PochiVM/fastinterp/fastinterp_codegen_helper.hpp:134 | the memory is as many pages of 4096 bytes as the code needs, and no more |
| `CodegenEngine.OthersStayDone` | PochiVM/fastinterp/fastinterp_codegen_helper.hpp:176-179 | materialising one instance leaves the others finished |
| `ControlFlow.BuiltIsDescribed` | PochiVM/fastinterp/build_fast_interp_lib.cpp:1465-1523 | what the build makes is what an instance needs of its blueprint |
| `ControlFlow.BuiltBranchFields` | PochiVM/fastinterp/build_fast_interp_lib.cpp:1310-1317 | with the addend compilers emit, a branch field holds minus the place behind it |
| `ControlFlow.BranchReaches` | PochiVM/fastinterp/fastinterp_helper.h:147-168 | a patched branch goes to its symbol wherever the code is placed |
| `ControlFlow.StrippedArrives` | PochiVM/fastinterp/fastinterp_codegen_helper.hpp:99-110 | where a jump was left out, NOPs lead to the start of the instance it would have gone to |
| `ControlFlow.ControlArrives` | PochiVM/fastinterp/fastinterp_codegen_helper.hpp:54-179 | every populated branch or stripped jump of the program leads to the start of its instance |
| `ControlFlow.BackEndPreservesControl` | PochiVM/fastinterp/fastinterp_codegen_helper.hpp:33-196 | a branch of an accepted section leads, in the finished program, to the start of the instance its placeholder was populated with |
| `ProbeSequence.ProbeStep` | PochiVM/mini_db_backend/query_plan_ast.hpp:399-405 | one turn of the loop reaches the next sum of squares |
| `ProbeSequence.ProbesEverySlot` | PochiVM/mini_db_backend/query_plan_ast.hpp:399-405 | every slot is probed within two table sizes |
| `HashTable.StopIsUnique` | PochiVM/mini_db_backend/query_plan_ast.hpp:401-405 | a probe stops in one slot only |
| `HashTable.InsertReachable` | PochiVM/mini_db_backend/query_plan_ast.hpp:658-662 | storing a row where its probe stopped keeps every row reachable by its probe |
| `HashTable.InsertRepresents` | PochiVM/mini_db_backend/query_plan_ast.hpp:658-662 | storing a row adds exactly its key to the map the table represents |
| `HashTable.RowsOfPositions` | PochiVM/mini_db_backend/query_plan_ast.hpp:644-662 | the rows of a key are those at the ascending positions of all rows with that key |
| `HashTable.RoomToGrow` | PochiVM/mini_db_backend/query_plan_ast.hpp:421-444 | a table that has to grow holds so many rows that its size stays in the address space |
| `HashTable.HashTableContainer.EmitDeclaration` | PochiVM/mini_db_backend/query_plan_ast.hpp:369-388 | an empty table of 32 slots with threshold 12 |
| `HashTable.HashTableContainer.Probe` | PochiVM/mini_db_backend/query_plan_ast.hpp:399-405 | the loop ends at the slot of the key, or at the empty slot where it belongs |
| `HashTable.HashTableContainer.CheckExpand` | PochiVM/mini_db_backend/query_plan_ast.hpp:409-447 | doubling loses and duplicates nothing, and restores the threshold |
| `HashTable.HashTableContainer.EmitProbe` | PochiVM/mini_db_backend/query_plan_ast.hpp:391-407 | growth check and probe |
| `HashTable.HashTableContainer.Insert` | PochiVM/mini_db_backend/query_plan_ast.hpp:658-662 | the map gains the row's key |
| `GroupBy.EmitInit` | PochiVM/mini_db_backend/query_plan_ast.hpp:141-151 | the aggregation row holds the initial values |
| `GroupBy.EmitUpdate` | PochiVM/mini_db_backend/query_plan_ast.hpp:153-166 | field by field, without recursion: a field with an update gets its value on the fields updated before it and the old ones behind, every other field stays |
| `GroupBy.UpdatedFields` | PochiVM/mini_db_backend/query_plan_ast.hpp:153-166 | the function that the fold repeats is this field-by-field update |
| `GroupBy.GroupByHashTableOutputter.Consume` | PochiVM/mini_db_backend/query_plan_ast.hpp:644-692 | every group holds the fold over its rows so far |
| `GroupBy.GroupByHashTableOutputter.EmitGroups` | PochiVM/mini_db_backend/query_plan_ast.hpp:593-606 | the slots give every group once |
| `GroupBy.GroupByQuery` | PochiVM/mini_db_backend/query_plan_ast.hpp:644-692 | for each distinct key once, the fold over that key's rows in input order |
| `GroupBy.FoldSums` | PochiVM/mini_db_backend/query_plan_ast.hpp:644-692 | folding a running sum over rows gives its initial value plus the total of the rows |
| `GroupBy.GroupingSums` | PochiVM/mini_db_backend/query_plan_ast.hpp:644-692 | in the answer of a query, a running sum of a group is its initial value plus the total over exactly the rows with its key |
| `HashJoin.DoubleVector` | PochiVM/mini_db_backend/query_plan_ast.hpp:719-730 | the doubled vector holds the same rows |
| `HashJoin.HashJoinHashTableOutputter.Consume` | PochiVM/mini_db_backend/query_plan_ast.hpp:694-734 | every key's vector holds its build rows in order |
| `HashJoin.HashJoinHashTableOutputter.ProbeRow` | PochiVM/mini_db_backend/query_plan_ast.hpp:812-847 | a probe row meets its matches in build order |
| `HashJoin.HashJoinQuery` | PochiVM/mini_db_backend/query_plan_ast.hpp:694-847 | the hash join is the nested-loop join as a sequence: the matching pairs of positions, each once, ordered by probe row and then by build row |
| `HashJoin.JoinPositions` | PochiVM/mini_db_backend/query_plan_ast.hpp:694-847 | the nested-loop join without a loop: all pairs of positions whose keys match, in lexicographic order |
| `Cuckoo.HashIsDotProduct` | PochiVM/fastinterp/build_fast_interp_lib.cpp:416-425 | the truncated running hash is the dot product modulo 2^32 |
| `Cuckoo.SlotBelow` | PochiVM/fastinterp/build_fast_interp_lib.cpp:427-430 | a mapped slot lies in the table |
| `Cuckoo.MapsInto` | PochiVM/fastinterp/build_fast_interp_lib.cpp:427-430 | a hash value h has slot s exactly if s * 2^32 <= h * M < (s + 1) * 2^32 |
| `Cuckoo.MapIsMonotone` | PochiVM/fastinterp/build_fast_interp_lib.cpp:427-430 | greater hash values have no smaller slots |
| `Cuckoo.EverySlotHit` | PochiVM/fastinterp/build_fast_interp_lib.cpp:427-430 | a table of at most 2^32 slots has no slot without a hash value |
| `Cuckoo.PathIsSimple` | PochiVM/fastinterp/build_fast_interp_lib.cpp:442-452 | a displacement path that reaches an empty slot never meets a slot twice |
| `Cuckoo.ShiftKeeps` | PochiVM/fastinterp/build_fast_interp_lib.cpp:453-456 | moving along a path keeps the stored keys, each in one of its two slots, and empties the first |
| `Cuckoo.ShiftIsMove` | PochiVM/fastinterp/build_fast_interp_lib.cpp:449-456 | shifting along a path puts each entry where the next one was, and changes no slot off the path |
| `Cuckoo.CuckooHashTable.TryDisplace` | PochiVM/fastinterp/build_fast_interp_lib.cpp:432-457 | succeeds exactly along a path within the depth; on failure nothing changes |
| `Cuckoo.CuckooHashTable.ComputeSlots` | PochiVM/fastinterp/build_fast_interp_lib.cpp:461-495 | gives up exactly when a fingerprint is the empty mark or two pairs clash |
| `Cuckoo.CuckooHashTable.PlaceAll` | PochiVM/fastinterp/build_fast_interp_lib.cpp:497-529 | every key is stored in one of its slots, or some displacement found no way out; keys with different first slots are always stored |
| `Cuckoo.PairIdentifies` | PochiVM/fastinterp/build_fast_interp_lib.cpp:531-572 | a slot that carries one of a key's pairs holds that key |
| `Cuckoo.SelectFinds` | PochiVM/fastinterp/fastinterp_generated_header_helper.h:137-165 | one fingerprint comparison finds the slot of every listed key |
| `Cuckoo.CuckooHashTable.TryBuild` | PochiVM/fastinterp/build_fast_interp_lib.cpp:459-608 | on success the lookup agrees with the list; a failure has a clash or a stuck table as its cause; a list without a clash whose first hash values fall into different slots is always built |
| `LazyTensors.AssignKeeps` | src/tensor.cpp:504-528 | recording an assignment that does not read its target keeps the invariant |
| `LazyTensors.ClearKeeps` | src/tensor.cpp:714-720 | the dependents may be forgotten once none of them is pending |
| `LazyTensors.Tensor.RemoveDependentTensor` | src/tensor.cpp:681-702 | at most one occurrence leaves the list, the others stay |
| `LazyTensors.Tensor.Assemble` | src/tensor.cpp:790-809 | settles the operands and keeps the invariant |
| `LazyTensors.Tensor.Compute` | src/tensor.cpp:811-832 | the tensor holds its eager value, and each operand lists it exactly once less |
| `LazyTensors.Tensor.SyncValues` | src/tensor.cpp:667-675 | the tensor holds its eager value; only what it depends on has changed |
| `LazyTensors.Tensor.SyncDependentTensors` | src/tensor.cpp:714-720 | no pending tensor reads this one any more |
| `LazyTensors.Tensor.SetAssignment` | src/tensor.cpp:504-528 | the assignment is recorded, its eager value is the new one |
| `LazyTensors.Tensor.AssignScalar` | src/tensor.cpp:842-863 | the same for a scalar, without leaving the old operands' lists |
| `LazyTensors.Tensor.Evaluate` | src/tensor.cpp:834-840 | the tensor holds its eager value |
| `LazyRuns.LazyRun` | src/tensor.cpp:504-863 | the reads of every legal run return what an eager interpreter returns |
| `LazyRuns.CombinationReads` | src/tensor.cpp:504-863 | reading two tensors, assigning their combination to a third and reading it gives the two values and the operator on them, in this order |
| `LazyRuns.PlainAssignmentReads` | src/tensor.cpp:504-863 | a tensor that was assigned a literal or another tensor reads as that, and other tensors read as before |
| `LazyRuns.InsertionReads` | src/tensor.cpp:504-863 | a tensor reads as before with the inserted component added, however often it is read |
| `LazyRuns.NestedByTemporaries` | src/tensor.cpp:504-863 | assigning a nested expression reads the same as assigning its operands to fresh tensors and combining those |
| `LazyRuns.LazyStep` | src/tensor.cpp:504-863 | one command keeps the invariant and does to the eager values what it does eagerly |
| `LazyRuns.PendingIsAcyclic` | src/tensor.cpp:790-822 | along pending dependencies ranks fall, and every operand lists its pending reader |
| `LazyRuns.SelfAssignmentHasNoRank` | src/tensor.cpp:504-528 | ranks exist after an assignment exactly when its target is not among its operands |
| `LazyCalls.NeverReturns` | src/tensor.cpp:667-675 | while a tensor waits for itself, synchronising it returns at no depth, and no other call that returns helps it |
| `LazyCalls.SettlesExactly` | src/tensor.cpp:667-675 | synchronising settles the tensor and what it reads through pending assignments, and leaves the flags of all others |
| `LazyCalls.SyncValuesAsCalled` | src/tensor.cpp:667-675 | the method on tensors and the bounded calls leave the same to be packed and computed |
| `LazyCalls.InvariantReturns` | src/tensor.cpp:790-832 | in the invariant a tensor's rank bounds the depth of its synchronisation |
| `LazyCalls.AssignedReturns` | src/tensor.cpp:504-528 | after an assignment, synchronising the target returns exactly when the target is not among its operands |
| `LazyRuns.NewTensorsOk` | src/tensor.cpp:105-137 | new tensors start in the invariant |
| `SparseEquals.ZeroEqualsZeroOnly` | src/tensor.cpp:1009-1016 | zero equals zero only |
| `SparseEquals.EqualsByTolerance` | src/tensor.cpp:1009-1016 | other values are equal exactly if they differ by at most a hundred-thousandth of the left one |
| `SparseEquals.SymmetricUnlessBorderline` | src/tensor.cpp:1009-1016 | two values are equal in one order only exactly when their distance is above the tolerance of the smaller and within that of the larger |
| `SparseEquals.TensorSymmetry` | src/tensor.cpp:1027-1074 | two tensors are equal in one order only exactly when all values are close and just one of the two has the smaller value of a borderline pair |
| `SparseEquals.TensorEqualityIsNotSymmetric` | src/tensor.cpp:1027-1074 | such a pair with a single stored value each, at any coordinate |
| `SparseEquals.EqualsTyped` | src/tensor.cpp:1027-1074 | merging the streams decides equality at every coordinate, whatever zeros are stored |
| `SparseEquals.Equals` | src/tensor.cpp:1076-1091 | types, dimensions and all values |
| `Base64.RoundTrip` | PochiVM/mini_db_backend/base64_util.cpp:116-218 | decoding an encoding gives every byte string back, in both alphabets, without reading behind its end |
| `Base64.AlphabetOfRfc` | PochiVM/mini_db_backend/base64_util.cpp:49-120 | the characters of both alphabets and their pads |
| `Base64.CharactersKnown` | PochiVM/mini_db_backend/base64_util.cpp:60-76 | exactly the characters of both alphabets have a value, and exactly two characters pad |
| `Base64.SextetsAreBits` | PochiVM/mini_db_backend/base64_util.cpp:136-158 | the sextets of a group are its bytes as one number in base 64, filled up with zero bits |
| `Base64.RfcExamples` | PochiVM/mini_db_backend/base64_util.cpp:116-165 | the first three encodings in section 10 of RFC 4648 |
| `Base64.DecodesExactly` | PochiVM/mini_db_backend/base64_util.cpp:198-215 | a string of any length decodes exactly if every character suits its place and the last group is whole, or lacks only the character behind a pad |
| `Base64.OverreadExactly` | PochiVM/mini_db_backend/base64_util.cpp:198-215 | the character behind the end is read exactly if the last group is not whole and all in front of the gap is accepted |
| `Base64.AlphabetOverread` | PochiVM/mini_db_backend/base64_util.cpp:198-215 | for characters of the alphabet with at most a final pad: exactly if the length is no multiple of four and no pad ends it in the second or third place |
| `Base64.OneCharacterShort` | PochiVM/mini_db_backend/base64_util.cpp:198-215 | three characters that are read behind their end, and three that decode |
| `Base64.BrokenRoundTrip` | PochiVM/mini_db_backend/base64_util.cpp:78-109 | the same through line breaks of any width, with no line longer than that |
| `Base64.BrokenPlaces` | PochiVM/mini_db_backend/base64_util.cpp:78-94 | which character stands at each place of each line |
| `Base64.EncodedShape` | PochiVM/mini_db_backend/base64_util.cpp:116-165 | four characters for every three bytes begun, none of them a line break |
| `Base64.Encode` | PochiVM/mini_db_backend/base64_util.cpp:116-165 | the loop gives the encoding |
| `Base64.Decode` | PochiVM/mini_db_backend/base64_util.cpp:46-218 | for every string the loop gives the decoding, after removing line breaks if asked, or fails on a foreign character; it reads at most one character behind the end, and exactly when stated |
| `Base64.InsertLinebreaks` | PochiVM/mini_db_backend/base64_util.cpp:78-94 | inserting from front to back puts a break behind every full line that more follows |

## Left out

- ELF parsing, LLVM, file writing, page protection, thread-local fixups and the registry of external function pointers: foreign calls and I/O; a failing `mmap` is not modelled.
- Instructions other than jmp, jcc, call and NOP: opaque bytes, so what runs between two control transfers is not modelled.
- `Relocation.Collect`: two relocations of one instruction are excluded by `Relocation.Separate`, because the disjointness of compiled instructions is LLVM's; the out-of-bounds read of a relocation behind the section is modelled as a rejection.
- `BoilerplateBuild.Preprocess`: `std::sort` is modelled by insertion by offset, which gives the same order because offsets are distinct; the trap bytes are appended after the relocations instead of before.
- `MachineCode.TryRewriteJmp`: the adjusted displacement wraps around at 2^31, where C++ leaves the overflow undefined.
- `MachineCode.TryRewriteJcc`: the same.
- `ControlFlow.ControlArrives`: holds for code below 2^31 bytes and branch addends of -4; addresses are unbounded, so a base address near 2^64 is not modelled.
- `ControlFlow.BackEndPreservesControl`: the same limits.
- `BoilerplateInstance.FastInterpBoilerplateInstance.PopulateConstantPlaceholder`: values are numbers below 2^64, their C++ types and the zero-value warning are not modelled; `ReplaceBluePrint` is left out.
- `CodegenEngine.FastInterpCodegenEngine.Materialize`: function-pointer control values (`m_fastInterpFnPtrFixList`) are left out.
- `Compiler.CompilerCorrect`: a frame slot is one cell, operators are total functions on integers, and the matching of leaf shapes is a predicate of the leaf; calls, exceptions, destructors, `mem2reg` parameters and other node kinds are left out.
- `FrameManager.FIStackFrameManager.PushTemp`: the stack of operand types that the test build keeps beside the two operand stacks is left out.
- `FrameLedger.FrameSafe`: offsets are unbounded, so a frame of 2^32 bytes is not modelled.
- `HashTable.HashTableContainer.EmitProbe`: sizes stay below 2^60 slots, which `HashTable.RoomToGrow` derives from the number of rows; hash and comparison functions are the schema's `hash` and `key`, their emitted loops over strings and integer fields are left out.
- `HashTable.HashTableContainer.CheckExpand`: the same bound on the size.
- `HashJoin.HashJoinHashTableOutputter.Consume`: a vector is one block of words with capacity and size in front, addressed by its first word instead of its third.
- Pipelines with filters, projections, limits, ordering or a single aggregation row: the modelled queries read all rows of one input into one hash table and give all its groups or matches. Ordering is one call of a library sort, the container variants are calls into C++, and printing results is I/O.
- `Cuckoo.CuckooHashTable.TryBuild`: `rand()` is a free choice; the retry loop around it, which ends only with probability one, and the choice of a prime size are left out.
- `LazyTensors.Tensor.Compute`: whether assembly waits for the computation is fixed when the tensor is made; the setter for it (src/tensor.cpp:234) is left out.
- `LazyTensors.Tensor.SetAssignment`: plain assignments only, operands alive, inserts before the first assignment of their target, targets not among their operands; kernels and packing are functions.
- `LazyTensors.AssignKeeps`: targets not among their operands; what happens otherwise is `LazyCalls.AssignedReturns`.
- `LazyTensors.Tensor.AssignScalar`: the same.
- `LazyRuns.LazyRun`: legal runs are those whose assignments do not read their target and whose inserts come before the first assignment.
- `LazyRuns.LazyStep`: the same.
- `LazyCalls.AssignedReturns`: calls are followed through the flags that steer them; values and dependent lists are left out, so is what a stack overflow does.
- `SparseEquals.Equals`: the same values as for `SparseEquals.EqualsTyped`.
- `SparseEquals.EqualsTyped`: values are real numbers, complex values, infinities and rounding are left out; the iterators are given as their sequences of coordinates and values.
- `Base64.Decode`: the character behind the end is 0, as in a `std::string`; what a view's decoding does with a foreign character there is not modelled.
- `Base64.Encode`: inputs of 2^32 bytes and more, beyond its 32-bit position, are not modelled.
