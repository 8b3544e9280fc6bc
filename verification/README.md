# uBPF in Dafny

A model of uBPF (an eBPF virtual machine: loader, validator, two interpreters, two JIT back ends, an
assembler and a disassembler) with proofs about whole runs, for all programs, registers and memories.

Words are integers with explicit wrap-around; memory is a map from 64-bit addresses to bytes; helpers are
deterministic functions of their index, r1 to r5 and memory. Everything a run takes from outside is an `Env`.
Each interpreter exists twice: as a step function, which the theorems are about, and as a class over mutable
registers, frames, tags and memory that is proved to compute that function.

The definitions these theorems share are pinned down from outside. `ArithmeticLaws` says what a result is as a number
(congruences, truncating quotients, bits) and that this leaves one result; `InstructionLaws` says what one step does for
each opcode byte; `TagLaws` what it does to tags; `Acceptance` which programs are accepted, slot by slot; and a decoder
of x86-64 bytes (`X86Bytes`) and one of A64 words (`ArmWords`) say what the emitted calls, prologues and exits are.

| part | files |
|---|---|
| words, opcodes, instruction meaning | `Words`, `Isa`, `Semantics`, `SemanticsLaws`, `Machine`, `ArithmeticLaws`, `InstructionLaws` |
| legacy interpreter, validator, control flow, frames, sub-programs | `Legacy`, `Interpreter`, `LegacyBounds`, `Validator`, `InstructionFilter`, `Acceptance`, `SubPrograms`, `ControlFlow`, `FrameLaw`, `SubProgramRuns` |
| safe-profile interpreter | `Safe`, `SafeInterpreter`, `SafeInvariant`, `TagLaws`, `MemorySafety`, `Erasure`, `Refusals`, `Spill`, `PointerWindows`, `SafeRegistry`, `SafeProfile` |
| stored code, API runs, masks | `CodeStore`, `VmRuns`, `Masks` |
| x86-64 back end | `HostFlags`, `X86`, `Blinding`, `MulDivMod`, `MulDivModProof`, `CallProtocol`, `CallRefinement`, `HostBodies`, `Relocation`, `JitEmission`, `JitPlan`, `JitCompiler`, `EmissionPlan`, `JitProgram`, `X86Bytes`, `HostCode`, `HelperCode` |
| ARM64 back end | `Arm64`, `ArmConstants`, `ArmLowering`, `ArmBranches`, `ArmEmission`, `ArmLayout`, `ArmCompiler`, `ArmProgram`, `ArmLimits`, `ArmWords`, `ArmCode`, `ArmHelper` |
| both back ends | `ProgramCompiler` |
| assembler and disassembler | `AsmRecords`, `Assembler`, `AsmLabels`, `Listing` |

Main results: `InstructionLaws.ArithmeticStep`, `InstructionLaws.AtomicStep`, `ArithmeticLaws.ResultsUnique`,
`MemorySafety.RunsAreMemorySafe`, `Erasure.RunErases`, `Refusals.RunRefused`, `TagLaws.ArithmeticRefused`,
`TagLaws.CopyReaches`, `Spill.ReloadGivesLastSpill`, `SafeProfile.AcceptedWindows`, `Acceptance.AcceptsExactly`,
`ControlFlow.ReachablePc`, `ControlFlow.NoUnknownOpcode`, `FrameLaw.ReachableFrames`, `FrameLaw.CallThenReturn`,
`SubProgramRuns.RunIntervals`, `CodeStore.PerformAll`, `VmRuns.LoadForRun`, `CallRefinement.HostStackRefinesFrames`,
`MulDivModProof.LoweringComputesResult`, `HostBodies.BodyAgrees`, `JitCompiler.JitState.Compile`,
`EmissionPlan.EveryOperationReaches`, `HostCode.LocalCallCompiles`, `HelperCode.HelperCallRuns`,
`ArmLowering.AluLowered`, `ArmCompiler.ArmState.Compile`, `ArmLayout.CallsLandOnPrologue`, `ArmCode.LocalCallReturns`,
`ArmHelper.HelperCallRuns`, `ArmLimits.LongJumpLands`, `ArmLimits.SmallCodeReaches`, `AsmLabels.LabelsResolve`,
`Assembler.BytesRoundTrip`, `Listing.LineDescribes`, `Masks.LoadHides`.

Where a property does not hold of the code, the code is kept and the exact condition is proved:

- An eight-byte store of a negative immediate on ARM64 loses its sign extension (`ArmLowering.StoreImmediateAgrees`).
- The comment at vm/ubpf_jit_arm64.c:502-505 promises the fewest instructions for a constant. The code chooses between
  starting with MOVZ and starting with MOVN. For 64-bit constants it takes the shorter of these two; 32-bit constants
  never use MOVN, which would be shorter for some (`ArmConstants.FewestMoves`).
- On ARM64 the context for helper calls is kept in the register that large store offsets go through
  (vm/ubpf_jit_arm64.c:88-90). A store keeps it exactly when its offset is below 4096 either way, or happens to be equal
  to it (`ArmLowering.ContextKept`).
- The ARM64 translator writes its table entries without a limit test, and the tables have 65536 entries each
  (vm/ubpf_jit_support.c:82-85). All entries are inside their tables exactly when the body records no more of each kind
  (`ArmCompiler.ArmState.Compile`); `ArmLimits.RecordedCount` counts them from the plan. A program of helper calls is
  accepted, and its jumps fit exactly up to 32767 calls (`ArmLimits.CallsLoaded`, `ArmLimits.CallsFit`).
- The range assertions at vm/ubpf_jit_arm64.c:1724 and 1728 admit displacements twice as far as the branch fields
  hold (`ArmBranches.BranchReaches`, `ArmBranches.AssertionTooWeak`). Unconditional branches and local calls of accepted
  programs reach their targets all the same (`ArmProgram.JumpsLand`, `ArmProgram.LocalCallsLand`). A conditional jump
  over `n` helper calls is accepted, and once compiled it goes to its target exactly up to 13107 calls
  (`ArmLimits.LongJumpLands`). Nothing is missed in code of less than a megabyte (`ArmLimits.SmallCodeReaches`); the
  default buffer holds 64 kilobytes, and callers can choose another size (vm/ubpf_jit.c:101-106).
- An ADR of the helper table on ARM64 reaches it exactly when it is less than a megabyte ahead, although 24 bits of
  the displacement are put into the word (`ArmEmission.FieldReads`); for the first of `n` helper calls that is so
  exactly while `20 * n`, the epilogue and the dispatcher's address, less seven words, are below 262144 words
  (`ArmLimits.FirstCallReaches`).
- Code emitted for x86-64 makes local calls at any depth and does not count instructions; the interpreter makes one
  exactly below depth 8 and within its limit (`CallRefinement.CallsAreUnchecked`).
- An accepted program can fetch into r10 with an atomic; after that step the frame law holds exactly if the word found
  is what the law asks for (`FrameLaw.FetchIntoR10IsAccepted`, `FrameLaw.FetchIntoR10Runs`).
- The end-of-sub-program test accepts a program that falls through, and it does when it is run
  (`SubProgramRuns.FallThroughIsAccepted`, `SubProgramRuns.FallThroughRuns`). A step that neither calls nor returns
  leaves its sub-program exactly when it goes on in order from the last instruction (`SubProgramRuns.LeavesExactly`).
- A local call may enter the second half of an LDDW (`SubProgramRuns.CallIntoLddwFails`). The error that follows does
  so after exactly those calls (`ControlFlow.ErrorAfterCall`), and no run ends in it if there are none
  (`ControlFlow.NoUnknownOpcode`).
- The x86-64 translator looks at its status in front of the epilogue and not again (vm/ubpf_jit_x86_64.c:2446-2513).
  It reports success exactly when the code in front of the epilogue fits; that code is all there is exactly when the
  buffer ends before the tail does or the jump table has no room for two more entries
  (`JitPlan.CutOffExactly`, `JitPlan.FullTableCutsOff`), and in all other cases it is complete and linked
  (`JitCompiler.JitState.Compile`). When the tail is cut off resolution still succeeds, and it writes inside the
  buffer exactly when the fields of those two entries do not overrun it (`JitPlan.Overruns` in the contract of
  `JitCompiler.JitState.Compile`). The ARM64 translator has the same order, but its tail has no fields
  (`ArmEmission.CutOffExactly`, `ArmCompiler.ArmState.Compile`).
- A line of the disassembler describes the instruction the machine reads, except exactly that atomics are listed as
  plain stores, the jump by a 32-bit distance as a comparison, and an LDDW with a source field not at all
  (`Listing.LineDescribes`).
- The prologue-size assertion at vm/ubpf_jit_x86_64.c:1841 holds exactly when there is no earlier prologue or emission
  did not fail; it fails when the buffer runs out inside a later one (`JitCompiler.JitState.EmitPrologue`). The one at
  vm/ubpf_jit_arm64.c:1267 likewise (`ArmCompiler.ArmState.StartSlot`).

## Model

| member | source | states |
|---|---|---|
| `Isa.DecodeEncode` | vm/ebpf.h:102-240 | the structured reading of an opcode byte and the opcode table are inverse: every known byte is the code of what it decodes to |
| `Semantics.LoadStored` | vm/ubpf_vm.c:442-521 | a little-endian load after a store of the same width gives the stored value, aligned or not |
| `Semantics.LoadOutsideStore` | vm/ubpf_vm.c:442-521 | a load that does not overlap a store is not affected by it |
| `Semantics.StoreFrame` | vm/ubpf_safe.c:127-148 | a store changes no byte outside its own range |
| `SemanticsLaws.SwapReverses` | vm/ubpf_vm.c:1053-1099 | byte swapping reverses the bytes |
| `SemanticsLaws.SwapTwice` | vm/ubpf_vm.c:1053-1099 | byte swapping twice is the identity |
| `SemanticsLaws.EndValueBytes` | vm/ubpf_vm.c:1053-1099 | conversions to little-endian truncate, conversions to big-endian and unconditional swaps reverse the truncated bytes |
| `SemanticsLaws.LoadSignedIsMove` | vm/ubpf_vm.c:466-495 | a sign-extending load is a load followed by a sign-extending move |
| `SemanticsLaws.AtomicIsAlu` | vm/ubpf_vm.c:1683-1759 | an atomic operation computes the ALU operation of the same name, exchange the operand, compare-and-exchange the operand exactly on equality with r0 |
| `ArithmeticLaws.AluResults` | vm/ubpf_vm.c:896-1239 | every arithmetic value obeys the law of its operation code: sums, differences and products modulo the width, quotients and remainders with their zero-divisor values, results given bit by bit for AND, OR and XOR, shifts by the amount modulo the width, moves with their sign extension |
| `ArithmeticLaws.ResultsUnique` | vm/ubpf_vm.c:896-1239 | that law leaves one result for every operation, width and operand |
| `ArithmeticLaws.SignedDivides` | vm/ubpf_vm.c:920-1012 | signed division rounds toward zero with the remainder taking the dividend's sign, gives 0 and the dividend for a zero divisor, and wraps for the least value by -1 |
| `ArithmeticLaws.UnsignedDivides` | vm/ubpf_vm.c:920-1012 | unsigned quotient and remainder satisfy a = q * b + r with r < b, or 0 and the dividend for a zero divisor |
| `ArithmeticLaws.TruncatedUnique` | vm/ubpf_vm.c:920-1012 | only one quotient and remainder round toward zero |
| `ArithmeticLaws.MovResults` | vm/ubpf_vm.c:1024-1041 | a move with offset 8, 16 or 32 extends the sign of that many bits |
| `InstructionLaws.ArithmeticStep` | vm/ubpf_vm.c:896-1239 | for each of the arithmetic opcode bytes a step puts the result of the law into the destination, taking the operand from register or immediate, counts one instruction and changes nothing else |
| `InstructionLaws.ConversionStep` | vm/ubpf_vm.c:1053-1099 | byte i of a conversion's result is byte i, or byte width - 1 - i, of the register, and zero above the width |
| `InstructionLaws.ConditionalStep` | vm/ubpf_vm.c:1402-1620 | each conditional jump goes on by its offset exactly when the signed or unsigned comparison of its opcode byte holds for the full or the low words |
| `InstructionLaws.AlwaysStep` | vm/ubpf_vm.c:1396-1401 | 0x05 jumps by the offset, 0x06 by the immediate |
| `InstructionLaws.LoadStep` | vm/ubpf_vm.c:1270-1341 | a load that fits puts the number made of the bytes at base plus offset into the destination, with a sign for the sign-extending opcodes, and otherwise the step fails |
| `InstructionLaws.ReadsUnique` | vm/ubpf_vm.c:442-465 | the bytes at an address determine the number a load finds there |
| `InstructionLaws.StoreStep` | vm/ubpf_vm.c:1344-1390 | a store that fits changes exactly the bytes at base plus offset to those of the immediate or register, and otherwise the step fails |
| `InstructionLaws.WideStep` | vm/ubpf_vm.c:1392-1395 | the destination gets low and high immediate, and the counter moves by two |
| `InstructionLaws.AtomicStep` | vm/ubpf_vm.c:1683-1759 | each atomic replaces the word at its address by the sum, bitwise result, operand or compare-and-exchange result of old word and source register, and puts the old word into source register or r0 exactly when it fetches |
| `InstructionLaws.HelperStep` | vm/ubpf_vm.c:1639-1652 | a helper gets r1 to r5 in order and the memory; r0 and memory are its result, the unwinding helper ends the run on 0, and nothing else changes |
| `InstructionLaws.HelperSeesArgument` | vm/ubpf_vm.c:1637-1652 | a helper returning its kth argument leaves the old register k in r0 |
| `InstructionLaws.HelperIgnoresOthers` | vm/ubpf_vm.c:1637-1652 | registers other than r1 to r5 do not reach the helper |
| `InstructionLaws.LocalCallStep` | vm/ubpf_vm.c:1653-1674 | at depth 8 the step fails; below, the frame holds usage, return address and r6 to r9, r10 is lowered by the caller's usage and the counter moved by the immediate |
| `InstructionLaws.OtherCallStep` | vm/ubpf_vm.c:1675-1682 | a call by BTF id fails, other source fields do nothing |
| `InstructionLaws.ExitStep` | vm/ubpf_vm.c:1622-1635 | EXIT restores r6 to r10 and the counter from the frame, or ends the run with r0 |
| `InstructionLaws.StepStops` | vm/ubpf_vm.c:859-875 | past the end, at the limit or at any other opcode byte the step fails |
| `InstructionLaws.EntryValues` | vm/ubpf_vm.c:843-857 | r1, r2 and r10 hold the input's address, its length and the end of the stack, the other registers what they are given |
| `LegacyBounds.AccessIsReachable` | vm/ubpf_vm.c:2126-2250 | an access that passes touches only bytes of the input, the stack or a range the callback accepts |
| `LegacyBounds.InsideIsAccepted` | vm/ubpf_vm.c:2126-2250 | an access inside the input or the stack passes |
| `LegacyBounds.RunsStayInside` | vm/ubpf_vm.c:859-1768 | with bounds checking on, no run of any program changes a byte outside those ranges, if helpers do not |
| `Interpreter.LegacyInterpreter.constructor` | vm/ubpf_vm.c:843-857 | the initial machine: r1, r2, r10 and the limit set, counter and depth 0 |
| `Interpreter.LegacyInterpreter.EnterInstruction` | vm/ubpf_vm.c:859-875 | the start of an iteration: limit counted, usage noted at function entries below depth 8, 16-bit counter advanced |
| `Interpreter.LegacyInterpreter.Load` | vm/ubpf_vm.c:1270-1348 | zero- and sign-extending loads with their address and bounds errors, as the step function |
| `Interpreter.LegacyInterpreter.StoreWord` | vm/ubpf_vm.c:1293-1390 | stores with their address and bounds errors, as the step function |
| `Interpreter.LegacyInterpreter.AtomicUpdate` | vm/ubpf_vm.c:1683-1759 | read-modify-write in both widths, the fetched word going to the source register or r0 |
| `Interpreter.LegacyInterpreter.LocalCall` | vm/ubpf_vm.c:1653-1674 | the caller's frame written, r10 lowered by its usage, depth and counter moved |
| `Interpreter.LegacyInterpreter.ReturnFromCall` | vm/ubpf_vm.c:1622-1632 | r6 to r9, counter and r10 restored from the frame |
| `Interpreter.LegacyInterpreter.Call` | vm/ubpf_vm.c:1636-1682 | helper, local and unsupported calls, including the unwinding helper |
| `Interpreter.LegacyInterpreter.Control` | vm/ubpf_vm.c:1392-1635 | jumps, LDDW and EXIT over the 16-bit counter |
| `Interpreter.LegacyInterpreter.Execute` | vm/ubpf_vm.c:881-1766 | every instruction updates registers, frames and memory as the step function says |
| `Interpreter.LegacyInterpreter.Step` | vm/ubpf_vm.c:859-1766 | one iteration of the loop is one application of the step function |
| `Interpreter.LegacyInterpreter.RunFor` | vm/ubpf_vm.c:859-1768 | the first n iterations of the loop, with or without a limit, give the step function's run of n steps |
| `Interpreter.LegacyInterpreter.Run` | vm/ubpf_vm.c:859-1768 | with a positive limit the loop ends, with the result of the step function's run |
| `SafeInterpreter.SafeMachine.constructor` | vm/ubpf_safe.c:778-803 | the initial machine with the input tag on r1 and the stack tag on r10 |
| `SafeInterpreter.SafeMachine.EnterInstruction` | vm/ubpf_safe.c:856-870 | the start of an iteration |
| `SafeInterpreter.SafeMachine.SetTagged` | vm/ubpf_safe.c:1656-1663 | a register and its tag set together, or the run stopped |
| `SafeInterpreter.SafeMachine.InvalidateSlots` | vm/ubpf_safe.c:450-467 | every touched spill slot and no other is invalidated, with all indices inside the array |
| `SafeInterpreter.SafeMachine.SafeLoadInto` | vm/ubpf_safe.c:806-826 | a load with the destination tag reset before the source tag is looked at, reloading a valid aligned slot |
| `SafeInterpreter.SafeMachine.SafeStoreFrom` | vm/ubpf_safe.c:828-847 | a store that invalidates touched slots and records the tag of an aligned register spill |
| `SafeInterpreter.SafeMachine.SafeAtomicUpdate` | vm/ubpf_safe.c:1552-1650 | an atomic update that needs write and atomic permission, invalidates slots and leaves a scalar |
| `SafeInterpreter.SafeMachine.ReturnFromCall` | vm/ubpf_safe.c:1411-1430 | registers and tags restored, r1 to r5 made scalar |
| `SafeInterpreter.SafeMachine.LocalCall` | vm/ubpf_safe.c:1532-1546 | r6 to r9 saved with their tags |
| `SafeInterpreter.SafeMachine.LookUp` | vm/ubpf_safe.c:373-382 | the linear search finds the first region in use with the id |
| `SafeInterpreter.SafeMachine.Helper` | vm/ubpf_safe.c:1434-1520 | a helper call with its metadata and result checks |
| `SafeInterpreter.SafeMachine.Call` | vm/ubpf_safe.c:1434-1551 | helper, local and unsupported calls |
| `SafeInterpreter.SafeMachine.Control` | vm/ubpf_safe.c:1269-1433 | jumps, LDDW and EXIT |
| `SafeInterpreter.SafeMachine.Execute` | vm/ubpf_safe.c:881-1666 | every instruction updates registers, tags, slots, frames and memory as the step function says |
| `SafeInterpreter.SafeMachine.Step` | vm/ubpf_safe.c:849-1666 | one iteration of the loop is one application of the step function |
| `SafeInterpreter.SafeMachine.RunFor` | vm/ubpf_safe.c:849-1668 | the first n iterations of the loop, with or without a limit, give the step function's run of n steps |
| `SafeInterpreter.SafeMachine.Run` | vm/ubpf_safe.c:849-1668 | with a positive limit the loop ends, with the result of the step function's run |
| `SafeInvariant.StepKeepsInv` | vm/ubpf_safe.c:849-1666 | every step keeps: each pointer tag in registers, valid slots and live frames is a window of its root with exactly the root's permissions |
| `SafeInvariant.ReachableInv` | vm/ubpf_safe.c:849-1666 | the tag invariant in every reachable state of every program |
| `TagLaws.ArithmeticTag` | vm/ubpf_safe.c:499-602 | after every arithmetic instruction the destination's tag is the pointer's for 64-bit additions, subtractions of a scalar and moves, else a scalar, and no other tag changes |
| `TagLaws.MoveCopies` | vm/ubpf_safe.c:520-530 | a 64-bit register move leaves the source's value and tag in the destination |
| `TagLaws.ArithmeticRefused` | vm/ubpf_safe.c:469-602 | arithmetic is refused exactly outside the permitted combinations, for the value the legacy interpreter computes |
| `TagLaws.AccessPasses` | vm/ubpf_safe.c:391-448 | every load, store and atomic passes exactly when its bytes lie in the base register's window, which grants what is needed |
| `TagLaws.CopyReaches` | vm/ubpf_safe.c:520-530 | after a move an access through the copy passes exactly when the same access through the original does |
| `TagLaws.LoadTag` | vm/ubpf_safe.c:806-826 | a load leaves the tag of a valid aligned slot under an eight-byte stack access through another register, else a scalar |
| `TagLaws.StoreTags` | vm/ubpf_safe.c:828-847 | stores keep every tag, atomics all but that of the register they fetch into |
| `TagLaws.PlainTags` | vm/ubpf_safe.c:1046-1092 | conversions and constants leave a scalar, jumps change no tag |
| `TagLaws.CallTags` | vm/ubpf_safe.c:1532-1546 | a local call changes no tag and saves those of r6 to r9 |
| `TagLaws.ReturnTags` | vm/ubpf_safe.c:1411-1430 | a return gives r6 to r9 the saved tags and makes r1 to r5 scalars |
| `TagLaws.FindsFirst` | vm/ubpf_safe.c:373-382 | the lookup gives the first region in use with the id, or none |
| `TagLaws.HelperTags` | vm/ubpf_safe.c:1434-1520 | a helper call that succeeds gives r0 the result and the tag of its registered kind and region, makes r1 to r5 scalars and keeps the others |
| `TagLaws.HelperSeesArgument` | vm/ubpf_safe.c:1434-1520 | a helper returning its kth argument leaves the old register k in r0 |
| `TagLaws.FirstAccess` | vm/ubpf_safe.c:778-803 | a program's first access passes exactly if it goes through r1 into the input or through r10 into the stack |
| `MemorySafety.AccessInsideRoot` | vm/ubpf_safe.c:391-448 | an access the checks let through lies inside one root that grants the needed permission |
| `MemorySafety.StepWrites` | vm/ubpf_safe.c:828-847 | a step that does not call a helper changes no byte outside its access |
| `MemorySafety.StepReads` | vm/ubpf_safe.c:806-826 | a step's outcome depends on no byte outside its access |
| `MemorySafety.RunsAreMemorySafe` | vm/ubpf_safe.c:849-1666 | after any run, the next access is inside one root with READ, WRITE or WRITE and ATOMIC, and the step reads and writes nothing else |
| `Erasure.AccessPassesLegacy` | vm/ubpf_vm.c:2126-2250 | an access inside its tag's window passes the legacy bounds check |
| `Erasure.StepErases` | vm/ubpf_safe.c:849-1666 | dropping the tags maps a safe step to the legacy step |
| `Erasure.RunErases` | vm/ubpf_vm.c:859-1768 | every safe-profile run is matched by a legacy run: same states step for step, same result and final memory |
| `Refusals.AccessExact` | vm/ubpf_safe.c:391-448 | the access checks amount to interval inclusion in the pointer's window with the needed permission |
| `Refusals.ArithmeticExact` | vm/ubpf_safe.c:469-602 | tag arithmetic succeeds exactly for scalars, pointers moved by scalars within window and slack, differences of pointers of one root, and plain moves |
| `Refusals.StepRefused` | vm/ubpf_safe.c:849-1666 | a safe step fails exactly when the legacy step fails or the instruction breaks a provenance rule |
| `Refusals.RunRefused` | vm/ubpf_safe.c:849-1668 | a safe run is refused exactly when the legacy run fails or some step breaks a provenance rule |
| `Spill.StepOnSlot` | vm/ubpf_safe.c:450-467 | what each step does to a spill slot and the eight bytes under it |
| `Spill.SlotsAgreeWithRun` | vm/ubpf_safe.c:804-847 | in every run a valid slot holds the last spilled tag over exactly the bytes spilled with it, and any other overlapping write makes it invalid |
| `Spill.ReloadGivesLastSpill` | vm/ubpf_safe.c:806-826 | an aligned reload into another register returns the last spilled value and tag, a scalar if something else wrote the word, and always a scalar when it overwrites its base |
| `PointerWindows.StepKeepsWindows` | vm/ubpf_safe.c:469-602 | arithmetic, moves, spills, helper results, calls and returns keep every non-stack pointer within its window |
| `PointerWindows.ReachableWindows` | vm/ubpf_safe.c:849-1666 | every pointer in registers, saved registers and spilled words is between its window's base and one past its end |
| `SafeProfile.AcceptedWindows` | vm/ubpf_safe.c:849-1666 | the same for every accepted program with registered regions |
| `SafeProfile.SafeRunsInherit` | vm/ubpf_safe.c:849-1666 | safe-profile runs obey the control-flow and frame laws of the legacy interpreter |
| `SafeRegistry.Registry.constructor` | vm/ubpf_int.h:134-134 | no region and no helper is registered at first |
| `SafeRegistry.Registry.FindSlot` | vm/ubpf_safe.c:686-694 | the slot of the id if there is one, else a free slot, else none |
| `SafeRegistry.Registry.RegisterRegion` | vm/ubpf_safe.c:655-707 | success exactly on a request with a known kind, an unreserved id, known permission bits and a nonempty non-wrapping range, with room; then the id maps to the new region and every other id to what it did |
| `SafeRegistry.Registry.RegisterHelper` | vm/ubpf_safe.c:620-653 | success exactly on a known result kind, pointers and handles naming a nonempty window of an unreserved region; only that helper's metadata changes |
| `SafeRegistry.StoredAt` | vm/ubpf_safe.c:655-707 | the table stays a map from unique, unreserved ids to non-wrapping regions |
| `SubPrograms.SortArray` | vm/ubpf_vm.c:2456-2456 | in-place sorting: ascending and a permutation |
| `SubPrograms.Deduplicate` | vm/ubpf_vm.c:2452-2464 | in-place deduplication of a sorted array leaves its distinct elements in front |
| `SubPrograms.UniqueProperties` | vm/ubpf_vm.c:2452-2464 | the result is strictly increasing with exactly the input's elements |
| `SubPrograms.StartListIsStarts` | vm/ubpf_vm.c:2487-2510 | the start array is strictly increasing, begins at 0 and holds exactly 0 and the call targets |
| `SubPrograms.IntervalsPartition` | vm/ubpf_vm.c:2510-2567 | every slot lies in exactly one interval of the start array |
| `SubPrograms.CollectStarts` | vm/ubpf_vm.c:2473-2508 | the counting and filling loops, sorting and deduplication leave that start array |
| `SubPrograms.CheckIntervals` | vm/ubpf_vm.c:2510-2567 | the interval loops accept exactly when every jump stays in its interval and every interval has an accepted ending |
| `SubPrograms.CheckSelfContained` | vm/ubpf_vm.c:2466-2575 | the whole check decides that every sub-program is self-contained |
| `Validator.Validate` | vm/ubpf_vm.c:1809-2124 | the loop accepts exactly the programs whose walk of instructions passes every check |
| `Validator.FirstSlots` | vm/ubpf_vm.c:1821-2119 | on an accepted program the instructions visited are exactly the slots with a nonzero opcode |
| `Acceptance.AcceptsExactly` | vm/ubpf_vm.c:1809-2124 | a program is accepted if and only if it has at most 65535 slots, the entry's usage is a multiple of 16, every slot is good (fields its filter row allows, r10 written only by stores, jumps to other first slots of the program, callable helpers, local calls into the program with aligned usage, whole LDDW pairs, known widths and atomics) and every sub-program keeps its jumps and ends in an accepted way |
| `Acceptance.SlotExact` | vm/ubpf_vm.c:1821-2119 | what is checked of an instruction is exactly that its slot, and for an LDDW the next one, is good |
| `Acceptance.FilteredIs` | vm/ubpf_instruction_valid.c:1049-1119 | the field check, opcode byte by opcode byte |
| `Acceptance.SeparateIs` | vm/ubpf_vm.c:2466-2575 | self-contained means: every jump stays between the starts around it and every sub-program ends in an accepted way |
| `Acceptance.LoopIsAccepted` | vm/ubpf_vm.c:1984-2000 | a program with a backward jump is accepted |
| `Acceptance.LoopRuns` | vm/ubpf_vm.c:859-1768 | run from any registers and memory it goes round ten times and returns ten |
| `InstructionFilter.FillLookupTable` | vm/ubpf_instruction_valid.c:1028-1041 | the loop leaves each opcode's row in the lookup table |
| `InstructionFilter.FindTable` | vm/ubpf_instruction_valid.c:51-1021 | an opcode is found exactly in the rows of its instruction class |
| `InstructionFilter.CheckAllowed` | vm/ubpf_instruction_valid.c:1076-1116 | a range check or a search of an enumeration |
| `InstructionFilter.LimitsAreFieldChecks` | vm/ubpf_instruction_valid.c:51-1021 | each class's limits are the validator's field check, except for the row of an LDDW's second slot |
| `InstructionFilter.IsValidInstruction` | vm/ubpf_instruction_valid.c:1049-1119 | the table-driven check accepts exactly the instructions whose fields the class rules allow, and second slots |
| `ControlFlow.StepKeepsPc` | vm/ubpf_vm.c:859-1680 | the 16-bit counter equals integer arithmetic, and control goes to a first slot unless the step is a local call |
| `ControlFlow.ReachablePc` | vm/ubpf_vm.c:859-1768 | in every reachable state of every accepted program the counter and all return addresses are in range and on first slots, and nothing undefined happens |
| `ControlFlow.UnknownOpcodeCause` | vm/ubpf_vm.c:2014-2023 | the unknown-opcode error has one cause: a local call into the second half of an LDDW |
| `ControlFlow.NoUnknownOpcode` | vm/ubpf_vm.c:1758-1766 | if local calls enter instructions at their first slots, no run of an accepted program ends in the unknown-opcode error |
| `ControlFlow.ErrorAfterCall` | vm/ubpf_vm.c:2014-2023 | a local call is followed by that error exactly when its target is a second slot |
| `ControlFlow.LimitBoundsRun` | vm/ubpf_vm.c:865-869 | a positive limit L bounds the run to L instructions |
| `FrameLaw.AcceptedKeepsR10` | vm/ubpf_vm.c:2107-2119 | acceptance keeps destinations away from r10 |
| `FrameLaw.ReachableFrames` | vm/ubpf_vm.c:1622-1674 | depth at most 8, r10 is the stack top minus the live frames' usages modulo 2^64 and keeps its residue modulo 16 |
| `FrameLaw.CallThenReturn` | vm/ubpf_vm.c:1622-1674 | a matched call and return, however many steps apart, restores r6 to r10 and continues after the call |
| `FrameLaw.FetchIntoR10BreaksLaw` | vm/ubpf_vm.c:1716-1718 | wherever a fetching atomic into r10 executes, some memory makes the law fail |
| `FrameLaw.FetchIntoR10IsAccepted` | vm/ubpf_vm.c:1716-1718 | a program with such an instruction is accepted |
| `FrameLaw.FetchIntoR10Runs` | vm/ubpf_vm.c:1716-1718 | it runs, and after its first step the law holds exactly if the word found was the stack top; on a fresh stack it does not |
| `SubProgramRuns.JumpsStay` | vm/ubpf_vm.c:2510-2550 | on an accepted program every jump lands in its own sub-program |
| `SubProgramRuns.RunIntervals` | vm/ubpf_vm.c:859-1768 | a run changes sub-program only by local call, return or running off the end |
| `SubProgramRuns.LeavesExactly` | vm/ubpf_vm.c:2552-2566 | a step that neither calls nor returns leaves its sub-program if and only if, before the step, its successor is the next slot in order and that is past the last instruction |
| `SubProgramRuns.ClosedStep` | vm/ubpf_vm.c:2552-2566 | if every sub-program ends in EXIT or an unconditional jump, only calls and returns change sub-program |
| `SubProgramRuns.FallThroughIsAccepted` | vm/ubpf_vm.c:2558-2561 | a program that can fall into its second sub-program is accepted |
| `SubProgramRuns.FallThroughRuns` | vm/ubpf_vm.c:2558-2561 | its run does fall into it, at depth 0, in the fourth step |
| `SubProgramRuns.CallIntoLddwFails` | vm/ubpf_vm.c:2014-2023 | a program that calls into an LDDW is accepted and ends in the unknown-opcode error |
| `CodeStore.FetchStored` | vm/ubpf_vm.c:2305-2327 | unmasking a masked instruction word gives the instruction back, for every base and secret |
| `CodeStore.Vm.constructor` | vm/ubpf_vm.c:101-152 | a new machine has no code and no known usages |
| `CodeStore.Vm.Fetch` | vm/ubpf_vm.c:2305-2315 | the fetched instruction is the loaded one |
| `CodeStore.Vm.StackUsage` | vm/ubpf_vm.c:2394-2404 | at a function entry of loaded code the assertion holds and the usage is a multiple of 16 |
| `CodeStore.Vm.SetSecret` | vm/ubpf_vm.c:2329-2337 | refused while code is loaded |
| `CodeStore.Vm.Register` | vm/ubpf_vm.c:171-180 | registration by index, out-of-range indices refused |
| `CodeStore.Vm.RegisterDispatcher` | vm/ubpf_vm.c:213-218 | the dispatcher's validation function replaced |
| `CodeStore.Vm.RegisterCalculator` | vm/ubpf_vm.c:2406-2412 | the usage calculator replaced, known usages kept |
| `CodeStore.Vm.Unload` | vm/ubpf_vm.c:388-413 | code and all memoised usages forgotten |
| `CodeStore.Vm.CalculateUsage` | vm/ubpf_vm.c:2371-2392 | an entry is filled in once, no answer changes, and the result is the alignment check |
| `CodeStore.Vm.ValidateCode` | vm/ubpf_vm.c:1809-2124 | validation with memoised usages decides acceptance and leaves every entry's usage known |
| `CodeStore.Vm.StoreCode` | vm/ubpf_vm.c:356-368 | every instruction stored masked, exactly the local-call targets marked |
| `CodeStore.Vm.Load` | vm/ubpf_vm.c:271-386 | success exactly when nothing is loaded, the length fits, the validator accepts and memory is available; a failed load changes no code |
| `CodeStore.Perform` | vm/ubpf_vm.c:171-413 | no API call but unload disturbs loaded code |
| `CodeStore.PerformAll` | vm/ubpf_vm.c:171-413 | after any sequence of API calls without unload: fetch gives the source instruction, marks are the local-call targets, usages are known multiples of 16 |
| `VmRuns.FetchAll` | vm/ubpf_vm.c:2305-2315 | fetching every slot gives the loaded program |
| `VmRuns.LoadForRun` | vm/ubpf_vm.c:271-386 | after a successful load, what runs is the accepted program with exactly its local-call targets marked, so the laws of accepted programs apply |
| `Masks.StoredBits` | vm/ubpf_vm.c:2305-2327 | each bit of a stored word is the instruction's bit, flipped by the base address and by the secret |
| `Masks.StoredHides` | vm/ubpf_vm.c:2305-2327 | for any other instruction there is a secret under which it is stored as the same word |
| `HostFlags.LoweredJumpAgrees` | vm/ubpf_jit_x86_64.c:2089-2264 | a compare (or test) and the jump opcode emitted behind it, as the processor evaluates it, branch exactly when the eBPF jump is taken, for all eleven conditions and both widths |
| `Blinding.SignExtendXor` | vm/ubpf_jit_x86_64.c:494-695 | sign extension from 32 to 64 bits commutes with XOR |
| `Blinding.LoadImmBlindedAgrees` | vm/ubpf_jit_x86_64.c:461-492 | for every random value the blinded load gives the same register |
| `Blinding.BinaryBlindedAgrees` | vm/ubpf_jit_x86_64.c:494-670 | blinded arithmetic, compares and tests give the same destination, flags and other registers |
| `Blinding.StoreBlindedAgrees` | vm/ubpf_jit_x86_64.c:672-695 | a blinded store writes the same bytes |
| `Masks.LoadHides` | vm/ubpf_jit_x86_64.c:461-492 | for any other constant there is a random value under which the first instruction of the blinded load is the same, and the rest depends on the random value alone |
| `Masks.BinaryHides` | vm/ubpf_jit_x86_64.c:494-670 | the same for blinded arithmetic, compares and tests |
| `Masks.StoreHides` | vm/ubpf_jit_x86_64.c:672-695 | the same for blinded stores |
| `Blinding.ScratchIsFree` | vm/ubpf_jit_x86_64.c:483-484 | the scratch register of blinded code holds no eBPF register |
| `MulDivMod.Emit` | vm/ubpf_jit_x86_64.c:1269-1471 | the emitted instruction sequence, built step by step |
| `MulDivMod.EmitGuardedIdiv` | vm/ubpf_jit_x86_64.c:1353-1428 | the overflow guard with its three forward jumps patched to their targets |
| `MulDivModProof.LoweringComputesResult` | vm/ubpf_jit_x86_64.c:1269-1471 | for all operands, widths, signedness and operand forms the sequence does not fault, leaves the interpreter's result (zero divisors and least / -1 included) and restores every other mapped register, the host stack and memory |
| `MulDivModProof.Lower` | vm/ubpf_jit_x86_64.c:1269-1471 | from every state, running what the emitting method returns has the interpreter's effect |
| `CallProtocol.CodeAt` | vm/ubpf_jit_x86_64.c:1776-1853 | each slot's prologue and code are found at the computed offsets |
| `CallRefinement.PrologueRuns` | vm/ubpf_jit_x86_64.c:1816-1843 | from a function's entry the prologue puts its usage on top of the host stack |
| `CallRefinement.CallRuns` | vm/ubpf_jit_x86_64.c:1473-1498 | a local call pushes r6 to r9 and the return address, lowers r10 by the top word and enters the callee |
| `CallRefinement.ReturnSequence` | vm/ubpf_jit_x86_64.c:1505-1518 | EXIT and the code after the call restore r6 to r10 and reach the next slot |
| `CallRefinement.CallSimulates` | vm/ubpf_jit_x86_64.c:1473-1518 | the host's call is the interpreter's, on related states |
| `CallRefinement.CallsAreUnchecked` | vm/ubpf_jit_x86_64.c:1473-1498 | the emitted code enters the callee at any depth, where the interpreter does so exactly below depth 8 and within the instruction limit |
| `CallRefinement.ExitSimulates` | vm/ubpf_jit_x86_64.c:2282-2291 | the host's return is the interpreter's, on related states |
| `CallRefinement.HostStackRefinesFrames` | vm/ubpf_jit_x86_64.c:1703-1843 | for every interpreter run there is a run of the emitted code with the same registers and memory, the host stack representing the frame array and the running function's usage on top; RSP is 16-byte aligned at every instruction if it was in front of the call that started the code; the end is the same result and an empty stack |
| `HostBodies.BodyAgrees` | vm/ubpf_jit_x86_64.c:1857-2264 | the code of additions, subtractions, bitwise operations, multiplications, divisions, modulos and conditional jumps, plain or blinded, has the effect on registers, memory and control that the call protocol takes it to have, and leaves the stack as it was |
| `Relocation.PatchAllHolds` | vm/ubpf_jit_x86_64.c:2515-2625 | with disjoint fields no later patch disturbs an earlier one |
| `Relocation.RetargetChangesOne` | vm/ubpf_jit_support.c:139-147 | retargeting a field changes its entry and no other |
| `Relocation.ResolvedReaches` | vm/ubpf_jit_x86_64.c:2515-2625 | after resolution every jump, local call, load and lea field decodes to its own recorded target |
| `Relocation.ResolvedKeepsPlain` | vm/ubpf_jit_x86_64.c:2515-2625 | no byte outside the fields changes |
| `JitEmission.AppendDisjoint` | vm/ubpf_jit_x86_64.c:189-213 | a field emitted at the end is disjoint from all earlier ones, within and across tables |
| `JitEmission.BypassFits` | vm/ubpf_jit_x86_64.c:2546-2566 | the near jump around a prologue has displacement 18 |
| `JitEmission.ShapedResolvable` | vm/ubpf_jit_x86_64.c:2515-2625 | everything the translator records can be resolved |
| `JitEmission.CallsLandOnPrologue` | vm/ubpf_jit_x86_64.c:2572-2587 | a resolved local call to a function entry lands on the first byte of that function's 15-byte prologue |
| `JitEmission.BypassLandsPast` | vm/ubpf_jit_x86_64.c:1845-1853 | bypass jumps and jumps to a slot land on its recorded location, past the prologue |
| `JitCompiler.JitState.constructor` | vm/ubpf_jit_support.c:64-98 | an empty buffer with empty tables |
| `JitCompiler.JitState.CopyBytes` | vm/ubpf_jit_x86_64.c:140-156 | bytes appended, nothing after an error, running out of space an error |
| `JitCompiler.JitState.EmitBytes` | vm/ubpf_jit_x86_64.c:140-156 | the same, keeping the emission invariant |
| `JitCompiler.JitState.EmitReloc` | vm/ubpf_jit_x86_64.c:189-213 | in every status: the entry recorded at the current offset within the table limit, and a four-byte placeholder emitted when there is room |
| `JitCompiler.JitState.EmitRipRelative` | vm/ubpf_jit_x86_64.c:708-743 | the same behind the opcode of a RIP-relative load or lea |
| `JitCompiler.JitState.ModifyJumpTarget` | vm/ubpf_jit_support.c:139-147 | the retargeting loop |
| `JitCompiler.JitState.EmitJumpTarget` | vm/ubpf_jit_support.c:149-157 | a forward jump targeted at the current offset |
| `JitCompiler.JitState.EmitPrologue` | vm/ubpf_jit_x86_64.c:1825-1843 | the 15 prologue bytes and the recorded size; the size assertion holds exactly when there is no earlier prologue or emission did not fail |
| `JitCompiler.JitState.EmitEntry` | vm/ubpf_jit_x86_64.c:1804-1852 | bypass jump, prologue and retargeted bypass of a function entry, with the exact condition of the size assertion |
| `JitCompiler.JitState.StartSlot` | vm/ubpf_jit_x86_64.c:1804-1853 | a slot's location recorded just past its prologue, failing exactly when there is no room, with the exact condition of the size assertion |
| `JitCompiler.JitState.Apply` | vm/ubpf_jit_x86_64.c:2568-2569 | a field overwritten in place |
| `JitCompiler.JitState.ResolveTable` | vm/ubpf_jit_x86_64.c:2519-2570 | one resolution loop over any table: it fails exactly on an unreachable target and writes inside the buffer exactly when every field fits |
| `JitCompiler.JitState.Resolve` | vm/ubpf_jit_x86_64.c:2515-2625 | the four loops, over any tables: success exactly when all are resolvable, inside the buffer exactly when all fields fit, and then every field patched in order |
| `JitCompiler.JitState.EmitField` | vm/ubpf_jit_x86_64.c:189-213 | an opcode and a placeholder appended and exactly that field recorded, failing exactly when there is no room |
| `JitCompiler.JitState.EmitEither` | vm/ubpf_jit_x86_64.c:878-966 | two arms with fields of their own: the jump over the first is retargeted when the second begins, the jump behind the first when the second ends |
| `JitCompiler.JitState.EmitOp` | vm/ubpf_jit_x86_64.c:708-808 | plain bytes, jumps, calls, loads and leas each add their bytes and their table entry and nothing else, failing exactly when there is no room |
| `JitCompiler.JitState.EmitSteps` | vm/ubpf_jit_x86_64.c:1855-2495 | the operations of a slot in order, failing exactly when there is no room |
| `JitCompiler.JitState.EmitSlot` | vm/ubpf_jit_x86_64.c:1776-1853 | one slot's entry code, location and operations, failing exactly when there is no room |
| `JitCompiler.JitState.EmitTail` | vm/ubpf_jit_x86_64.c:2486-2513 | epilogue, retpoline, dispatcher address and helper table, each at its recorded location, without error exactly when they fit; otherwise what is recorded all the same |
| `JitCompiler.JitState.EmitRetpoline` | vm/ubpf_jit_x86_64.c:1539-1578 | the retpoline's bytes and its two fields, the call retargeted over the pause loop; in every status, which entries are recorded and whether their fields lie in the buffer |
| `JitCompiler.JitState.Translate` | vm/ubpf_jit_x86_64.c:1699-2513 | success exactly when the body fits buffer and tables; no error at the end exactly when the whole plan does, and then code, tables, prologues and bypass jumps are those of the plan |
| `JitCompiler.JitState.Compile` | vm/ubpf_jit_x86_64.c:2627-2655 | success exactly when the body fits; resolution inside the buffer exactly when the retpoline's recorded fields are; if the whole plan fits, the tables and all bytes outside the fields are those of the plan, every field reaches its recorded target, and exactly the function entries have their prologue in place |
| `JitPlan.EitherAimed` | vm/ubpf_jit_x86_64.c:878-966 | emitting a choice with unset jumps and aiming each when its target begins gives the code whose jumps had their targets from the start |
| `JitPlan.CutOffExactly` | vm/ubpf_jit_x86_64.c:2446-2513 | success is reported for incomplete code exactly when the body fits and the buffer ends before the tail or the jump table has no room for two entries |
| `JitPlan.FullTableCutsOff` | vm/ubpf_jit_x86_64.c:189-199 | with 65534 jumps and an EXIT that is so for every buffer the body fits |
| `EmissionPlan.SlotLocated` | vm/ubpf_jit_x86_64.c:1804-1853 | in the finished tables a slot's location is the end of its entry code |
| `EmissionPlan.StepAdds` | vm/ubpf_jit_x86_64.c:878-966 | what a step records is exactly the list of its fields, each in its table |
| `EmissionPlan.EveryOperationReaches` | vm/ubpf_jit_x86_64.c:2515-2625 | in linked code every field of every step of every slot decodes to the target the plan gives it |
| `EmissionPlan.RetpolineLoops` | vm/ubpf_jit_x86_64.c:1539-1578 | in linked code the retpoline's call lands behind the pause loop and the loop's jump on its pause |
| `EmissionPlan.StepStays` | vm/ubpf_jit_x86_64.c:2515-2625 | the bytes of an operation are in the linked code where they were emitted |
| `EmissionPlan.BypassStays` | vm/ubpf_jit_x86_64.c:1804-1853 | the jump around a prologue is in front of it and reaches the slot's own code |
| `EmissionPlan.TailStays` | vm/ubpf_jit_x86_64.c:2486-2513 | retpoline, dispatcher's address and helper table are in the linked code as emitted |
| `EmissionPlan.BranchesLandOnSlots` | vm/ubpf_jit_x86_64.c:2515-2570 | every branch to a translated slot lands on the first byte of that slot's own code, behind any entry code |
| `JitProgram.HelperCallLands` | vm/ubpf_jit_x86_64.c:818-987 | in linked code a helper call's load and lea refer to dispatcher and helper table, its jump lands on the external arm, the jump behind the default arm on the call, the call on the retpoline, and the unwinding test on the exit |
| `JitProgram.HelperCallBytes` | vm/ubpf_jit_x86_64.c:926-966 | the index going to R9 and the call stand where those jumps land |
| `JitProgram.PlanOfOk` | vm/ubpf_jit_x86_64.c:1776-1853 | the plan of an accepted program can be compiled |
| `JitProgram.LocalCallsLand` | vm/ubpf_jit_x86_64.c:2572-2587 | in the compiled code of an accepted program whose calls hit first slots, every local call lands on its callee's prologue, which stores the callee's usage |
| `JitProgram.JumpsLand` | vm/ubpf_jit_x86_64.c:2519-2570 | and every jump lands on the first byte of its target's own code |
| `HostCode.LocalCallCompiles` | vm/ubpf_jit_x86_64.c:1473-1518 | decoded, the bytes of a compiled local call are exactly the protocol's: R10 lowered by the top word, RBX and R12 to R14 pushed, the call to the callee's prologue, the pops in reverse and R10 raised; the next slot follows |
| `HostCode.EntryCompiles` | vm/ubpf_jit_x86_64.c:1816-1843 | decoded, the 15 bytes in front of a function's own code reserve a word and store the function's usage in it |
| `HostCode.BypassCompiles` | vm/ubpf_jit_x86_64.c:1804-1853 | decoded, what stands in front of a prologue that can be run into is a jump over it |
| `HostCode.ExitCompiles` | vm/ubpf_jit_x86_64.c:2282-2291 | decoded, a compiled EXIT drops the usage and returns; the next slot follows |
| `HelperCode.HelperCallRuns` | vm/ubpf_jit_x86_64.c:818-987 | run from its first byte, a compiled helper call goes to the dispatcher with the index as sixth and the context as seventh argument, or without one to the index's entry of the helper table with the context as sixth; R1 to R5 are in the argument registers and the return address is behind the call |
| `HelperCode.HelperReturns` | vm/ubpf_jit_x86_64.c:2267-2276 | back from the helper the context is restored and the program goes on at the next slot, or at the exit exactly when the unwinding helper returned 0 |
| `HelperCode.RetpolineRuns` | vm/ubpf_jit_x86_64.c:1539-1578 | the retpoline goes to the address in RAX, leaving registers and stack as they were |
| `ArmConstants.LoadConstantLoads` | vm/ubpf_jit_arm64.c:499-538 | running the MOVZ/MOVN/MOVK sequence leaves exactly the constant, or its low 32 bits, and changes nothing else |
| `ArmConstants.FewestMoves` | vm/ubpf_jit_arm64.c:499-538 | the chosen strategy is the shorter one exactly off the 32-bit constants with a 0xffff block and no zero block |
| `ArmConstants.SmallConstantIs` | vm/ubpf_jit_arm64.c:499-538 | a 16-bit constant is loaded by exactly one MOVZ |
| `ArmConstants.CountBlocks` | vm/ubpf_jit_arm64.c:507-519 | the counting loop chooses the strategy |
| `ArmConstants.EmitMoves` | vm/ubpf_jit_arm64.c:520-537 | the emitting loop produces the strategy's moves |
| `ArmConstants.EmitLoadConstant` | vm/ubpf_jit_arm64.c:499-538 | both loops together |
| `ArmConstants.LoadBlindedLoads` | vm/ubpf_jit_arm64.c:544-566 | for every random value the blinded form loads the same constant and differs only in the scratch register |
| `Masks.ArmHides` | vm/ubpf_jit_arm64.c:544-566 | the same for the moves of the blinded constant and what follows them |
| `ArmLowering.DivComputes` | vm/ubpf_jit_arm64.c:1697-1708 | UDIV and SDIV give the interpreter's quotient, zero divisors and overflow included |
| `ArmLowering.ModComputes` | vm/ubpf_jit_arm64.c:1697-1713 | MSUB with that quotient gives the interpreter's remainder |
| `ArmLowering.AluLowered` | vm/ubpf_jit_arm64.c:1302-1390 | every ALU instruction, register or immediate, simple, loaded or blinded, leaves the interpreter's value and keeps every other mapped register |
| `ArmLowering.EndLowered` | vm/ubpf_jit_arm64.c:1383-1419 | every byte-order conversion of 16, 32 or 64 bits leaves the interpreter's value and changes nothing else |
| `ArmLowering.JumpLowered` | vm/ubpf_jit_arm64.c:1425-1476 | every conditional jump: the A64 condition code chosen by `to_condition`, evaluated on the flags with their inverted carry, holds exactly when the interpreter jumps |
| `ArmLowering.StoreToRuns` | vm/ubpf_jit_arm64.c:1512-1536 | a store writes the register to the address with its offset, whether the instruction holds the offset or a temporary register does; the offset register is overwritten exactly by offsets of 4096 and more |
| `ArmLowering.ContextKept` | vm/ubpf_jit_arm64.c:1515-1536 | the context register survives a store exactly when the offset is small or equal to the context |
| `ArmLowering.StoreRuns` | vm/ubpf_jit_arm64.c:1302-1315 | what a store of an immediate writes |
| `ArmLowering.StoreImmediateAgrees` | vm/ubpf_jit_arm64.c:958-963 | it writes what the interpreter writes if and only if it is narrower than eight bytes or the immediate is not negative |
| `ArmBranches.FixedField` | vm/ubpf_jit_arm64.c:1715-1735 | fixing an unresolved branch sets the field and keeps the other bits |
| `ArmBranches.BranchReaches` | vm/ubpf_jit_arm64.c:1715-1735 | the branch reaches its target if and only if the displacement fits the signed field |
| `ArmBranches.AssertionTooWeak` | vm/ubpf_jit_arm64.c:1722-1729 | a displacement that passes the assertion and goes elsewhere; `ArmLimits.LongJumpLands` has the programs |
| `ArmEmission.PrologueWords` | vm/ubpf_jit_arm64.c:1258-1262 | for every usage the prologue is three words, the first loading that usage |
| `ArmEmission.FieldReads` | vm/ubpf_jit_arm64.c:1712-1755 | a patched branch, call, literal load or ADR is read as its displacement exactly when that is in the range of its field |
| `ArmEmission.SoundPlanned` | vm/ubpf_jit_arm64.c:1223-1695 | everything recorded for a plan is on a word with an empty field, disjoint from all others and resolvable |
| `ArmEmission.CutOffExactly` | vm/ubpf_jit_arm64.c:1650-1695 | the buffer sizes for which success is reported although the tail is cut off |
| `ArmLayout.FieldReaches` | vm/ubpf_jit_arm64.c:1757-1852 | a field of resolved code refers to its destination exactly when that is in range |
| `ArmLayout.EveryFieldReaches` | vm/ubpf_jit_arm64.c:1757-1852 | the same for every operation of every slot of a plan |
| `ArmLayout.EveryWordStays` | vm/ubpf_jit_arm64.c:1757-1852 | every word of a slot without a field is in the resolved code as emitted |
| `ArmLayout.CallsLandOnPrologue` | vm/ubpf_jit_arm64.c:1836-1852 | a local call to a function entry reaches the first word of that function's prologue, which is in place with its usage, exactly when in range of a BL |
| `ArmLayout.JumpsLandOnSlots` | vm/ubpf_jit_arm64.c:1757-1790 | a jump reaches the first word of its target's own code exactly when in range |
| `ArmLayout.BypassesLand` | vm/ubpf_jit_arm64.c:1247-1276 | the branch around a prologue always reaches the code behind it |
| `ArmCompiler.ArmState.constructor` | vm/ubpf_jit_support.c:64-98 | an empty buffer with empty tables, which hold no more than 65536 entries each from here on |
| `ArmCompiler.ArmState.CopyWord` | vm/ubpf_jit_arm64.c:140-161 | one word emitted if there is room; a full buffer stays full |
| `ArmCompiler.ArmState.EmitField` | vm/ubpf_jit_arm64.c:367-421 | one entry recorded and its word emitted, failing exactly when there is no room in the buffer; an entry that does not fit its table is noted as an overrun, exactly when the table was full |
| `ArmCompiler.ArmState.EmitOp` | vm/ubpf_jit_arm64.c:275-421 | a plain word or a word with a field, a jump ahead being recorded without a target |
| `ArmCompiler.ArmState.AimHere` | vm/ubpf_jit_support.c:149-157 | once its place is reached, every jump to it is given that place, and no other jump changes |
| `ArmCompiler.ArmState.EmitOps` | vm/ubpf_jit_arm64.c:649-749 | the code of one instruction, its own jumps aimed one by one: the same as if each had been recorded with its final target |
| `ArmCompiler.ArmState.ModifyJumpTarget` | vm/ubpf_jit_support.c:139-147 | the retargeting loop |
| `ArmCompiler.ArmState.StartSlot` | vm/ubpf_jit_arm64.c:1240-1276 | bypass branch, prologue, recorded size and location of a slot; the size assertion holds exactly when there is no earlier prologue or the buffer does not run out |
| `ArmCompiler.ArmState.EmitSlot` | vm/ubpf_jit_arm64.c:1228-1276 | one slot's entry code, location and operations, failing exactly when there is no room |
| `ArmCompiler.ArmState.EmitTail` | vm/ubpf_jit_arm64.c:1689-1694 | epilogue, dispatcher address and helper table at their recorded locations, without error exactly when they fit; otherwise the buffer holds exactly the prefix that fits, values of eight bytes being left out whole |
| `ArmCompiler.ArmState.ResolveTable` | vm/ubpf_jit_arm64.c:1757-1852 | one resolution loop: it fails exactly on an unresolvable entry, and otherwise fixes exactly the recorded words |
| `ArmCompiler.ArmState.Resolve` | vm/ubpf_jit_arm64.c:1902-1905 | the four loops together |
| `ArmCompiler.ArmState.Translate` | vm/ubpf_jit_arm64.c:1223-1695 | success exactly when the body fits; no error at the end exactly when the whole plan does; an overrun exactly when the body records more of a kind than its table holds; without either, code and tables are those of the plan |
| `ArmCompiler.ArmState.Compile` | vm/ubpf_jit_arm64.c:1889-1915 | success exactly when the body fits, all writes then being inside the tables exactly when the body records no more than 65536 entries of each kind; if the whole plan fits too, the result is the planned code with every field fixed for its destination |
| `ArmProgram.HelperCallLands` | vm/ubpf_jit_arm64.c:649-722 | a compiled helper call: its two own jumps land on the external arm and on the call, where those words are in place; dispatcher, helper table and exit are reached exactly when less than a megabyte away |
| `ArmProgram.PlanOfOk` | vm/ubpf_jit_arm64.c:1223-1695 | the plan of an accepted program, with entries, bypasses and usages from the program, can be compiled |
| `ArmProgram.LocalCallsLand` | vm/ubpf_jit_arm64.c:724-749 | every local call of a compiled program lands on its callee's prologue, which stores the callee's usage |
| `ArmProgram.JumpsLand` | vm/ubpf_jit_arm64.c:1278-1476 | every jump lands on its target's own code, a conditional one exactly when that is less than a megabyte away |
| `ArmWords.LoadDecodes` | vm/ubpf_jit_arm64.c:499-566 | the words of a plain or blinded constant load decode to the instructions they encode |
| `ArmWords.FieldDecodes` | vm/ubpf_jit_arm64.c:1712-1755 | a patched branch, call, literal load or in-range ADR is still that instruction |
| `ArmCode.CallCompiles` | vm/ubpf_jit_arm64.c:724-749 | the words of a compiled local call and the branch between them, which goes to the callee's prologue |
| `ArmCode.LocalCallEnters` | vm/ubpf_jit_arm64.c:724-749 | run from its first word, a compiled local call arrives at the callee's own code with R10 lowered by the caller's usage, LR behind the call, all other registers as they were and the stack holding the callee's usage and what was saved, and nothing else of memory changed |
| `ArmCode.LocalCallReturns` | vm/ubpf_jit_arm64.c:724-749 | from the callee's EXIT, if R10, LR, SP and the saved words are as at its first instruction, the caller goes on at its next slot with R6 to R10, LR and SP as in front of the call |
| `ArmCode.PrologueRuns` | vm/ubpf_jit_arm64.c:1258-1262 | the prologue lowers SP by two words and stores the usage in both |
| `ArmCode.JumpCompiles` | vm/ubpf_jit_arm64.c:1425-1476 | the branch of a compiled jump tests the condition code of its comparison and goes to its target's own code, a conditional one if that is within reach |
| `ArmHelper.HelperCallRuns` | vm/ubpf_jit_arm64.c:649-722 | run from its first word, a compiled helper call within reach of table and dispatcher goes to the dispatcher with index and context, or without one to the index's table entry with the context; R1 to R5 are the first arguments, LR saved and behind the call |
| `ArmHelper.HelperReturns` | vm/ubpf_jit_arm64.c:1479-1484 | back from the helper its result is R0, LR and SP are restored, and the program goes on at the next slot, or at the exit exactly when the unwinding helper returned 0 |
| `ProgramCompiler.CompileX86` | vm/ubpf_jit_x86_64.c:2627-2655 | for an accepted program success exactly when the body fits; if the whole plan fits, the buffer is the compiled program the laws of `HostCode` and `HelperCode` are about |
| `ProgramCompiler.CompileArm` | vm/ubpf_jit_arm64.c:1889-1915 | the same for the laws of `ArmCode` and `ArmHelper` |
| `ArmLimits.RecordedCount` | vm/ubpf_jit_support.c:118-137 | the entries a translation records of each kind, counted from its plan |
| `ArmLimits.CallsLoaded` | vm/ubpf_vm.c:1809-2124 | programs of helper calls, with or without a jump over them, are accepted |
| `ArmLimits.CallsFit` | vm/ubpf_jit_support.c:79-89 | their entries fit the tables exactly when two for the setup, one for the jump and two for each call do |
| `ArmLimits.LongJumpLands` | vm/ubpf_jit_arm64.c:1715-1735 | the jump over `n` calls goes to its target exactly up to 13107 calls |
| `ArmLimits.FirstCallReaches` | vm/ubpf_jit_arm64.c:1737-1755 | the first of `n` calls reaches the helper table and the dispatcher's address exactly when the code between is short enough |
| `ArmLimits.SmallCodeReaches` | vm/ubpf_jit_arm64.c:1757-1852 | in code of less than a megabyte every field of every slot reaches its destination |
| `AsmRecords.RecordRoundTrip` | ubpf/disassembler.py:102-235 | disassembling an assembled record gives it back with immediates modulo 2^32 (2^64) and signed 16-bit offsets; only a local call draws a warning |
| `AsmRecords.NormalAssembles` | ubpf/assembler.py:83-145 | normalising a record does not change its bytes |
| `Listing.LineDescribes` | ubpf/disassembler.py:102-235 | the line of an arbitrary known slot names the operation, registers, operand, offset and immediate the machine reads, except exactly atomics, the jump by a 32-bit distance and LDDW with a source field; 32-bit conditional jumps are included |
| `Listing.ListedReassembles` | ubpf/assembler.py:83-145 | a line that leaves no field out is assembled to the slot it was made from, for arbitrary slots outside the 32-bit jump class and the atomics |
| `Listing.WrittenIsLoaded` | vm/ubpf_vm.c:356-368 | the eight bytes the assembler writes are the word the machine stores and fetches for the slot |
| `Assembler.ProgramRoundTrip` | ubpf/disassembler.py:262-270 | the round trip for every sequence of records |
| `Assembler.RecordsOfLines` | ubpf/disassembler.py:262-270 | line by line, the disassembled records are the normalised ones that are reassembled |
| `Assembler.ReassemblyReproduces` | ubpf/assembler.py:83-145 | reassembling the disassembled records reproduces the program |
| `Assembler.BytesRoundTrip` | ubpf/disassembler.py:262-270 | the round trip through the bytes |
| `Assembler.Disassemble` | ubpf/disassembler.py:262-270 | the loop over the bytes yields the lines, or an error for a truncated slot or LDDW |
| `AsmLabels.CollectLabels` | ubpf/assembler.py:238-283 | the first pass: the dictionary maps each label to the slot of the next instruction, or a duplicate is reported |
| `AsmLabels.EmitAll` | ubpf/assembler.py:285-300 | the second pass: the same slot counter, each instruction resolved against it, or an undefined label reported |
| `AsmLabels.Assemble` | ubpf/assembler.py:222-300 | failure exactly on duplicate or undefined labels; otherwise eight bytes per slot |
| `AsmLabels.EmittedAt` | ubpf/assembler.py:285-300 | each instruction's code is found at the slot the first pass gave it |
| `AsmLabels.ResolvedReaches` | ubpf/assembler.py:147-220 | one resolved jump or call under the machine's `pc + 1 + offset` rule |
| `AsmLabels.LabelsResolve` | vm/ubpf_vm.c:1396-1401 | run by the machine, a jump or local call to a label arrives at the label's slot if and only if the distance fits its field |
| `AsmLabels.RecordDecodes` | ubpf/assembler.py:93-145 | the machine decodes what the assembler writes for a record as that record's operation |
| `AsmLabels.WideRecordLoads` | ubpf/assembler.py:101-104 | the two slots of an LDDW give the machine the immediate modulo 2^64 |
| `AsmLabels.LabelIsInstructionStart` | ubpf/assembler.py:238-283 | a label's slot is the first slot of the instruction after it |

## Left out

- Loader: parsing and linking ELF files (vm/ubpf_loader.c).
- Operating-system calls, page protection, allocation failures other than a failed code allocation, error messages, debug callbacks.
- Undefined-behaviour checks with shadow registers and shadow stack: assumed off.
- Random number generation: the blinding constant is an arbitrary value.
- Concurrency: atomics are single-threaded read-modify-write, and the JIT code for atomics is not modelled.
- Hosts: little-endian byte order and the SysV register map only; no Windows ABI. Helper calls are run separately from the call protocol (`HelperCode`, `ArmHelper`), which takes them to have the interpreter's effect.
- Byte encodings: x86 instructions are abstract except prologues, calls, EXIT, the retpoline and the patch fields; A64 encodings are abstract except constant loads, prologues, calls, EXIT and fields.
- Memory: bytes never written read as zero, and every address can be read; the interpreters' own checks decide what is accessed.
- Instruction limits above the largest 32-bit signed number, which the source turns negative.
- Text: the assembler's parser and the disassembler's formatting; programs are sequences of lines and records.
- CallRefinement.HostStackRefinesFrames: code for instructions other than calls and exits is taken to have the interpreter's effect, which is proved for the instructions of `HostBodies.BodyAgrees` and not for moves, shifts, negations, byte-order conversions, loads, stores and atomics; its hypotheses are an accepted, nonempty program whose calls hit first slots and whose sub-programs end in EXIT or an unconditional jump.
- CallRefinement.CallSimulates: for interpreter steps that succeed; `CallRefinement.CallsAreUnchecked` says which calls do.
- JitCompiler.JitState.Translate: the plain bytes of each instruction are a parameter; prologues, bypass jumps, helper and local calls, EXIT, the retpoline and all patch fields are fixed by the model, setup and epilogue are not, and unknown instructions are left to the validator.
- JitCompiler.JitState.Compile: a write that would leave the buffer is left out of the model's buffer and reported in `inside`; what it hits is not modelled.
- JitCompiler.JitState.constructor: the buffer is smaller than two gigabytes, as the signed offsets of the source need.
- ArmCompiler.ArmState.Compile: an entry past the end of its table is left out of the model's table and reported in `inside`; what the source's write hits is not modelled.
- ArmProgram.LocalCallsLand: the words of instructions other than calls and EXIT are a parameter, taken to be at most 500 for each instruction, and the setup at most 1000; the source emits far fewer, but that is not derived here.
- ArmProgram.JumpsLand: likewise.
- ArmCompiler.ArmState.Translate: the words of each instruction are a parameter; prologues, bypass branches, helper and local calls, EXIT and all fields are fixed by the model, and unknown instructions are left to the validator.
- Interpreter.LegacyInterpreter.Run: without an instruction limit a run need not end, so only `RunFor` covers it, for every number of steps.
- SafeInterpreter.SafeMachine.Run: likewise.
- InstructionLaws.StoreStep: for stores that do not wrap around the address space.
- InstructionLaws.AtomicStep: likewise.
- HelperCode.HelperCallRuns: the code does not wrap around the address space, and the helper table has an entry for the index if there is no dispatcher.
- ArmHelper.HelperCallRuns: likewise; in addition the stack word written is not in the code, and dispatcher and table are less than a megabyte away, which `ArmProgram.HelperCallLands` shows to be needed.
- ArmCode.LocalCallReturns: that a callee keeps LR, SP and the saved words is a hypothesis.
- CodeStore.Vm.Register: the update of already compiled code is not modelled.
