# EduRISC-32: a verified model

This project models the core of the EduRISC-32 educational computer and proves, in Dafny 4.11, what its
parts are for: the five-stage pipeline executes the instruction set, the compiler preserves the meaning of
programs, the assembler, linker and loader carry code from text to memory, and the kernel heap, the
translation cache and the hypervisor keep their invariants over every run.

`dafny verify dfyconfig.toml` checks everything. Nothing here was executed.

## How it is built

Code that changes state in the repository is a class whose methods change fields in place; each method is
proved equal to a specification function, and the properties are lemmas about those functions.

| repository | objects and methods | specification | properties |
|---|---|---|---|
| `simulator/cpu_simulator.py`, `cpu/*.py` | `Simulator`, `Registers`, `Execution` | `Isa`, `Alu`, `Memory`, `Control`, `Pipeline`, `Sequential` | `AluFacts`, `MemoryBytes`, `Encoding`, `Division`, `Refinement`, `Progress`, `Misreads`, `Gaps` |
| `compiler/compiler.py`, code generator | `CodeGenerator` | `Ast`, `CodeGen`, `Semantics`, `Assembly` | `CompilerStatic`, `CompilerExpr`, `CompilerStmtStatic`, `CompilerStmt`, `CompilerLabels`, `Acceptance`, `Programs`, `Definedness`, `GlobalData`, `EndToEnd`, `HazardFree`, `Conditions`, `GuardProgram` |
| `compiler/compiler.py`, expression parser | `Parser` | `Parsing` | `Parsing`, `ParsingSound` |
| `assembler/assembler.py` | `Assembler` | `AssemblerSpec` | `AssemblerSpec` |
| `os/memory.c` | `Heap` | `Blocks` | `Blocks`, `Heap` |
| `_TLBModel` in `simulator/cpu_simulator.py` | `TlbModel` | `Tlb` | `Tlb` |
| `hypervisor/*.c` | `HypervisorCore` | `Hypervisor` | `HypervisorProofs`, `HypervisorLifecycle` |
| `toolchain/linker.py`, `loader.py`, `assembler.py` | `Toolchain` | `Linking`, `IntelHex` | `Linking`, `IntelHex` |

## Main results

- **Pipeline.** `Pipeline.Clock` runs WB, MEM, EX, ID and IF with forwarding, load-use stalls, multiplication
  and division freezes and jump flushes. On every run whose states meet `Sequential.SafeAt`, and after every
  number of cycles, it stands for the sequential machine `Sequential.IsaStep` (`Progress.Refines`); it halts
  exactly when that machine does, with the same registers and memory, in at most 34k + 36 cycles. Instructions
  and data share one memory, as in the simulator. `SafeAt` is a condition on the word at the program counter
  and the word behind it. For the reads that the hazard logic overlooks and for a store into the next word,
  `Misreads` says what every program gets instead: a loaded or popped register is taken to hold 0, a pending
  R31 or R30 to hold its old value, a constant shift amount to be a register, an overwritten word to be still
  there. `Gaps` has a program for each of these, and for the two kinds of words that act although they are
  cancelled, behind HLT and behind a taken jump.
- **Instructions.** What the pipeline and the sequential machine have in common is stated on its own: the arithmetic
  opcodes in integers and bits (`AluFacts`, for example MULH and MUL as the two halves of the signed product), byte
  and halfword accesses on the four bytes of a word (`MemoryBytes`), and the fields of a word (`Encoding.FieldPositions`).
- **Compiler.** The code for every expression and statement of the fragment simulates a big-step semantics
  over 32-bit words (`CompilerExpr.ExprRuns`, `CompilerStmt.StmtRuns`). Fuel counts loop rounds, so the
  results hold for every terminating execution. A program is compiled exactly when it has no call and no string, takes
  addresses of globals and of elements of arrays only, breaks out of loops only, and a register count on the tree stays
  within 27 (`Acceptance.ProgramAcceptedIff`). `Definedness` says exactly when an expression has a value, and has a
  static check under which a program's meaning is never undefined. Where the generator goes wrong (shadowing apart, see
  below), the semantics is undefined and a lemma gives the exact condition (`CompilerExpr.LoadImmExact`,
  `CompilerStmt.GlobalAssignIff`, `GlobalData.GlobalStartsIff`, `GlobalData.InitialiserIff`).
- **From source to pipeline.** `EndToEnd.CompiledOnPipeline`: a program that is compiled, assembled, loaded
  and run on the pipelined machine ends with the memory and result that the meaning of `main` prescribes, if
  neighbouring code words pass a static check. `HazardFree.CalmOnPipeline` replaces the check by a condition on the
  source: no memory read stands directly as a condition, as an operand of `&&`, `||` or `!`, as a value stored to memory
  with `=`, or as a statement of its own. With `Definedness.NeverUndefined` only termination remains to be asked for
  (`HazardFree.CheckedOnPipeline`). Without that condition the compiler emits pairs that fail the check: on the pipeline
  a compiled condition on a global variable is false whatever it holds (`Conditions.ConditionIsFalse`), so that
  `int g = 1; int main() { if (g) return 7; }` returns 0 (`GuardProgram.CompiledGuardFails`).
- **Heap.** Tiling, merged free space, disjoint payloads and exact undo over every run, on the memory array;
  and a heap is determined by its live allocations (`Blocks.Canonical`). A run keeps the tiling
  throughout exactly when no allocation leaves one to three words over (`Blocks.RunKeepsIff`).
- **Translation cache.** Transparent for every trace in which the table words in use stay as they were at the
  last flush (`Tlb.Transparent`); least recently used, exactly (`Tlb.LruExact`).
- **Hypervisor.** Isolation, count and at most one running VM in every reachable state, with explicit bases or
  without, exactly which events keep them (`HypervisorProofs.StepKeepsIff`), inputs on which they fail, and
  fairness for tables of any size. After every dispatch the VM on the CPU is the only RUNNING one
  (`HypervisorLifecycle.Dispatches`), and every event moves every VM along the arcs of one life cycle.
- **Parser.** Printing with the fewest parentheses and parsing are inverse (`Parsing.PrintThenParse`), and the parser
  accepts nothing but texts of the tree that it returns (`ParsingSound.ParseIsSound`).
- **Toolchain.** Encoders and decoder, two-pass labels, branch targets, relocation, placement, and the HEX
  round trips with the exact address bound. For both passes, the linker and the HEX loader, exactly which inputs are
  accepted.
- **Division.** `int(sa / sb)` through any IEEE-like rounding is exact for all 32-bit operands.

## Where the code and its documentation differ

The model follows the code.

- The instruction-set document in `docs/` zero-extends the immediates of ANDI, ORI and XORI; `simulator/cpu_simulator.py:825-827`
  sign-extends them. `CompilerExpr.LoadImmExact` is the consequence for constants.
- `cpu/pipeline.py:122-139` does not stall behind POP.
- A constant shift keeps the second register field for forwarding (`simulator/cpu_simulator.py:795-803`), so a
  pending write of that register replaces the shift amount.
- `cpu/pipeline.py:131-139` compares the loaded register with bits 20 to 16 and 15 to 11 only; the store and
  branch formats also read bits 25 to 21 (`cpu/instruction_set.py:345-358`).
- RET reads R31 from the register file, without forwarding (`simulator/cpu_simulator.py:671`).
- The assembler does not check the range of a branch (`assembler/assembler.py:284-291`).
- `os/memory.c:60-67` stores the requested size in the header even when the block was not split, so one to
  three spare words are lost.
- `compiler/compiler.py:936-949` keeps the address of a global in R26 while it evaluates the value, which may
  overwrite R26.
- An array that `main` declares under the name of a global array moves the address at which the global's data
  is emitted (`compiler/compiler.py:869-871, 785`).
- A global's initialiser that is not an integer literal is emitted as 0, `-5` and `2 + 3` included
  (`compiler/compiler.py:789, 795`).
- `hypervisor/vm_manager.c:83-84` returns errors with the slot already taken, and the sum it checks is a 32-bit
  one: a base near 2^32 passes, and the VM reaches the hypervisor (`HypervisorProofs.WrappedBaseFails`).
- `hypervisor/vm_memory.c:117-125` lets a VM map a page of a free slot's window, which the next VM then shares
  (`HypervisorProofs.SharedPageRun`).
- The HEX writers emit 16 address bits and no extended address record (`toolchain/linker.py:183-190`,
  `toolchain/assembler.py:170-203`).

## Model

| member | source | states |
|---|---|---|
| AluFacts.Sums | cpu/alu.py:182-198 | ADD, SUB and NEG are sums and differences modulo 2^32, NOT the other complement. |
| AluFacts.FullProduct | cpu/alu.py:97-107 | MULH and MUL are the high and the low half of the signed 64-bit product: signed(MULH) * 2^32 + MUL is the product of the signed operands. |
| AluFacts.UnsignedQuotient | cpu/alu.py:200-215 | DIVU leaves a remainder below the divisor; a zero divisor gives all ones, and REM the dividend. |
| AluFacts.SignedQuotient | cpu/alu.py:200-218 | DIV and REM: quotient times divisor plus remainder is the dividend, the remainder is smaller than the divisor and has the sign of the dividend; only -2^31 / -1 wraps. |
| AluFacts.RightShifts | cpu/alu.py:139-147 | SHR rounds the unsigned and SHRA the signed operand down to a multiple of 2^k: 2^k r <= a < 2^k (r + 1). |
| AluFacts.LeftShift | cpu/alu.py:135-137 | SHL puts k zeros below the operand and drops what leaves the word. |
| AluFacts.LogicalBits | cpu/alu.py:119-126 | AND, OR and XOR work on each of the 32 bits alone. |
| AluFacts.Moves | cpu/alu.py:150-159 | MOV and MOVI hand on one operand; MOVHI puts its 21 bits above eleven zeros. |
| AluFacts.Orders | cpu/alu.py:162-170 | SLT and SLTU are orders that differ exactly for operands of different signs. |
| AluFacts.Branches | simulator/cpu_simulator.py:737-749 | The six branches decide by equality and by these two orders, in complementary pairs. |
| MemoryBytes.StoredBytes | simulator/cpu_simulator.py:507-531 | On the four bytes of each word: SB, SH and SW replace the one, two or four bytes that they address by the low bytes of the value, and no other byte of memory changes. |
| MemoryBytes.LoadedBytes | simulator/cpu_simulator.py:485-505 | LBU, LHU and LW give the number that the addressed bytes form, LB and LH its two's-complement reading. |
| MemoryBytes.LoadAfterStore | simulator/cpu_simulator.py:485-531 | A load of the size of the store before it gives back the low bits of the stored value. |
| Misreads.CyclesInEx | simulator/cpu_simulator.py:714-725 | A multiplication freezes the pipeline for 2 further cycles and a division for 31; no other instruction does, and nothing executes meanwhile. |
| Refinement.ForwardingInvariant | cpu/pipeline.py:158-198 | The value that the two multiplexers choose for a register is the register's value after both older instructions have finished, unless the nearer one is a load of that register. |
| Refinement.OperandsForwarded | simulator/cpu_simulator.py:550-581 | In every related state in which EX executes an instruction, each operand the instruction reads has its architectural value, and what MEM hands on in that cycle is no pending R31 or R30 write that RET, PUSH or POP would miss. |
| Refinement.Commit | simulator/cpu_simulator.py:550-735 | EX, followed by MEM and WB of the same instruction, has exactly the effect of one instruction-set step on registers, memory and next program counter, for every opcode of the model. |
| Refinement.DecodedSignals | simulator/cpu_simulator.py:753-873 | What the decoded control signals imply about the word: which register it writes, that only loads and POP read memory, and that a word without early effects can be cancelled without a trace. |
| Refinement.ShadowCancellable | simulator/cpu_simulator.py:400-412 | The word decoded behind a taken jump or HLT has no effect that survives its cancellation. |
| Refinement.StepCommit | simulator/cpu_simulator.py:379-435 | A cycle that executes an instruction carries the simulation relation from the sequential state to its successor, through a load-use stall, a jump or HLT. |
| Refinement.StepJump | simulator/cpu_simulator.py:405-412 | The cycle that redirects the program counter cancels the wrong-path instruction and lands on the target, with no architectural change. |
| Progress.StepRefines | simulator/cpu_simulator.py:359-435 | Each clock cycle is zero or one step of the sequential machine. |
| Progress.Refines | simulator/cpu_simulator.py:359-377 | After any number of cycles the pipeline stands for the sequential machine after exactly the instructions it has executed. |
| Progress.PipelineSound | simulator/cpu_simulator.py:367-377 | If the pipeline has halted, its registers and memory are those of the sequential machine at HLT. |
| Progress.PipelineComplete | simulator/cpu_simulator.py:367-435 | If the sequential machine reaches HLT after k instructions, the pipeline halts within 34k + 36 cycles with the same registers and memory. |
| Progress.PipelineHaltsIff | simulator/cpu_simulator.py:439-461 | The pipeline halts if and only if the sequential machine does. |
| Progress.DelayDrops | simulator/cpu_simulator.py:384-420 | Every cycle that executes nothing strictly decreases a bound on the cycles left before the next instruction: the freeze counter plus the bubbles in flight. |
| Progress.BoundedStutter | simulator/cpu_simulator.py:384-420 | Until HLT, the next instruction executes after at most 33 idle cycles (a taken jump whose wrong-path successor is a division). |
| Progress.NoSecondStall | simulator/cpu_simulator.py:393-420 | A cycle that stalls for a load is never followed by another one, and nothing freezes in between. |
| Progress.HazardUnitMisses | cpu/pipeline.py:122-139 | The exact gap of the hazard unit: behind a load, a read of the loaded register is missed if and only if the reader has store or branch format and names the register in bits 25 to 21 only. |
| Progress.MissedLoadReadsZero | cpu/pipeline.py:158-198 | What such a missed pair reads: 0, where the architectural value is the loaded word. |
| Progress.LoadThenBranchIsMissed | cpu/instruction_set.py:345-358 | LW R1, 100(R0) followed by BEQ R1, R0, 3 is a missed pair. |
| Misreads.MissedLoadRuns | cpu/pipeline.py:122-198 | For every program: the word that reads, directly behind a load or POP and unstalled, the loaded register is executed as if the register held 0; afterwards the register holds the loaded word, unless overwritten. |
| Misreads.StaleReadRuns | simulator/cpu_simulator.py:597-674 | For every program: RET behind a write of R31, PUSH or POP behind a write of R30 is executed as if the register held its old value, and the pending write lands last, after any latency. |
| Misreads.ForwardedShiftRuns | simulator/cpu_simulator.py:795-803 | For every program: a shift by a constant shifts by the register named in its unused field if a write of that register is on its way. |
| Misreads.StoreUnseenRuns | simulator/cpu_simulator.py:384-435 | For every program: a word that the instruction before it stores into is executed as it was, and memory holds the stored word afterwards. |
| Gaps.LoadThenBranchParts | cpu/pipeline.py:122-139 | A whole run: for every memory with LW R1, BEQ R1 and a loaded word other than 0, the pipeline halts with R2 = 1 and the in-order machine with R2 = 0. |
| Gaps.PopThenReadParts | cpu/pipeline.py:122-139 | A whole run on POP R1; ADDI R2, R1, 0: the pipeline leaves 0 in R2, the in-order machine the popped word. |
| Gaps.PushPendingParts | simulator/cpu_simulator.py:597-605 | A whole run on MOVI R30, 200; PUSH R0: the pipeline pushes to the old stack and ends with R30 = 200, the in-order machine clears word 199 and ends with 199. |
| Gaps.ReturnPendingParts | simulator/cpu_simulator.py:664-674 | A whole run on MOVI R31, 4; RET: the pipeline returns to 0, the in-order machine to 4. |
| Gaps.ShiftFieldParts | simulator/cpu_simulator.py:795-803 | A whole run on a shift by 3 with R1 = 1 in its unused field: the pipeline shifts by 1. |
| Gaps.StoreAheadParts | simulator/cpu_simulator.py:384-435 | A whole run on a store that clears the next word: the pipeline still executes it. |
| Gaps.StoreBehindHaltParts | simulator/cpu_simulator.py:439-461 | A store behind HLT reaches memory: the pipeline halts with the word cleared, and the program, which stops at its first instruction, leaves it alone. |
| Gaps.PushBehindJumpParts | simulator/cpu_simulator.py:597-606 | A PUSH behind a taken jump moves the stack pointer although it is cancelled: the pipeline halts with R30 one lower than the program leaves it. |
| Progress.ReturnIff | simulator/cpu_simulator.py:664-674 | RET reads R31 past the forwarding unit: its target is right if and only if the instruction before it has no pending write to R31, or one that leaves the target the same. |
| Simulator.CpuSimulator.constructor | simulator/cpu_simulator.py:281-357 | A new simulator object is the reset pipeline state, with SP initialised. |
| Simulator.CpuSimulator.StageWb | simulator/cpu_simulator.py:439-461 | The in-place stage changes register file and halt flag as the WB function of the old state says, and nothing else. |
| Simulator.CpuSimulator.StageMem | simulator/cpu_simulator.py:463-548 | The in-place stage moves EX/MEM to MEM/WB, reads or writes memory, and reports a pending jump with its target. |
| Simulator.CpuSimulator.StageEx | simulator/cpu_simulator.py:550-735 | The in-place stage, on operands forwarded from the registers as they were before MEM, leaves the state that the EX function gives, freeze counter included. |
| Simulator.ExMemReg.Execute | simulator/cpu_simulator.py:582-717 | The branches of EX fill EX/MEM with result, store operand, address and jump target. |
| Simulator.CpuSimulator.StageId | simulator/cpu_simulator.py:753-873 | The in-place stage reports the load-use hazard and fills, invalidates or keeps ID/EX accordingly. |
| Simulator.IdExReg.Fill | simulator/cpu_simulator.py:776-873 | The fields that each instruction format sets in ID/EX. |
| Simulator.CpuSimulator.StageIf | simulator/cpu_simulator.py:875-902 | The in-place stage fetches one word and advances the program counter, or invalidates IF/ID. |
| Simulator.CpuSimulator.FlushIfIdEx | simulator/cpu_simulator.py:908-912 | Cancels the three younger registers and changes nothing else. |
| Simulator.CpuSimulator.Clock | simulator/cpu_simulator.py:379-435 | One call is one cycle of the pipeline function, and the cycle counter advances by one. |
| Simulator.CpuSimulator.Run | simulator/cpu_simulator.py:367-377 | The loop stops at the first halted state or at the cycle limit, in the state after exactly that many cycles. |
| Execution.RunImage | simulator/cpu_simulator.py:325-377 | Load and run on a safe image: a reported halt delivers the final registers and memory of the sequential machine, and a program that halts after k instructions is reported halted whenever 34k + 36 cycles are allowed. |
| Registers.RegisterFile.Set | cpu/registers.py:72-76 | A write changes one register; a write to R0 changes nothing. |
| Encoding.FieldPositions | cpu/instruction_set.py:108-165 | The format of each of the 57 opcodes, and where its fields stand in the word: five bits each from bit 25 down, and a signed 16-bit, or unsigned 21-bit or 26-bit, immediate. |
| Encoding.DecodeEncode | cpu/instruction_set.py:261-374 | Decoding what the encoder of the instruction's format produced gives the instruction back, for all six formats and all field values in range. |
| Encoding.EncodeDecodeIff | cpu/instruction_set.py:261-374 | Encoding a decoded word gives the word back if and only if the six bits that the register format ignores are zero. |
| CompilerExpr.SignedProduct | cpu/alu.py:97-101 | The low word of the signed product that MUL computes is the product modulo 2^32, whatever the signs. |
| Division.FloatDivisionExact | cpu/alu.py:200-206 | For every rounding that is exact on representable integers and within relative error 2^-53 between 2^-31 and 2^31, as binary64 is, truncating the rounded quotient of two signed 32-bit numbers is the exact truncating division. |
| Division.FloatUnitIsExact | cpu/alu.py:200-218 | So DIV and REM as written with floating point equal the integer operations used by the model, for all words and a zero divisor too. |
| Division.DivRemIdentity | cpu/alu.py:200-218 | DIV and REM satisfy a = (a / b) * b + a % b modulo 2^32 for every non-zero b, including -2^31 / -1, and the remainder is smaller than b with the sign of a. |
| CompilerStatic.ExprFacts | compiler/compiler.py:1291-1330 | Every expression's code ends in a register that is never R0, R26, R30 or R31, is either fresh or a variable's own, and the allocation state only grows. |
| CompilerStmtStatic.StmtFacts | compiler/compiler.py:857-932 | Statements keep the register discipline: variables keep their own distinct registers, and the layout follows the declarations passed. |
| Acceptance.AcceptExpr | compiler/compiler.py:1079-1258 | An expression has code if and only if it has no call and no string, addresses are taken of globals and of elements of arrays only, and a register count on the tree stays within 27; the generator's next register and variables follow that count. |
| Acceptance.AcceptStmt | compiler/compiler.py:857-1075 | The same for statements; in addition break and continue stand in loops, and op= has an arithmetic operator. |
| Acceptance.ProgramAcceptedIff | compiler/compiler.py:748-855 | A program is compiled if and only if main meets these conditions. |
| CompilerExpr.LoadImmExact | compiler/compiler.py:1268-1278 | The load sequence delivers a constant unchanged if and only if it fits 16 signed bits, bit 15 is clear, or bits 31 to 16 are all ones. |
| CompilerExpr.LoadImmRuns | compiler/compiler.py:1268-1278 | What the emitted MOVI, MOVHI or MOVHI and ORI leave in the register, for every constant, with the simulator's sign extension of ORI. |
| CompilerExpr.OperateRuns | compiler/compiler.py:1162-1207 | The instructions of each binary operator compute its value, and only the result register and, for == and !=, R26 change. |
| CompilerExpr.LogicalRuns | compiler/compiler.py:1209-1239 | The code of the short-circuit operators evaluates the right operand exactly when the left one leaves the result open (sections 6.5.13 and 6.5.14 of ISO/IEC 9899:1999). |
| CompilerExpr.ElementRuns | compiler/compiler.py:997-1015 | Code for the address of an array element, with a constant or a computed index, delivers that address. |
| CompilerExpr.UnaryRuns | compiler/compiler.py:1241-1258 | Code for -, ~ and ! computes their values. |
| CompilerExpr.SlotRuns | compiler/compiler.py:1094-1107 | Code for an array or pointer element computes its address. |
| CompilerExpr.ExprRuns | compiler/compiler.py:1079-1258 | For every call-free expression: its code runs to its end with the value in the returned register, memory, SP, LR and every earlier register unchanged, and R26 as a function of the expression. |
| CompilerStmt.GlobalAssignRuns | compiler/compiler.py:934-949 | What an assignment to a global does on every input with a defined value: it stores through whatever R26 holds after the value has been computed, into the program code too, and registers and variables are otherwise as they should be. |
| CompilerStmt.GlobalAssignIff | compiler/compiler.py:936-949 | On all these inputs, the machine leaves memory as the language has it if and only if R26 still names the word of the global, or both the intended and the actual store write what is there already. |
| CompilerStmt.GlobalEqualityFails | compiler/compiler.py:936-949 | The machine running the code of g = (x == y) stores to address x - y; with x == y it overwrites word 0 of the program with 1 and leaves g as it was. |
| CompilerStmt.LeavesScratchSuffices | compiler/compiler.py:936-949 | A value without == and != that reads no other global keeps the address in R26, whatever the state. |
| CompilerStmt.AssignRuns | compiler/compiler.py:934-962 | Code for = and op= to a local or a global does what the assignment means. |
| CompilerStmt.StoreRuns | compiler/compiler.py:964-995 | Code for a[i] op= v and *p op= v updates that word only. |
| CompilerStmt.InitsRun | compiler/compiler.py:866-877 | Array initialisers are stored in order at consecutive addresses. |
| CompilerStmt.IfRuns | compiler/compiler.py:1017-1033 | Code for if and else runs the branch that the condition selects and joins behind it. |
| CompilerStmt.LoopRuns | compiler/compiler.py:1035-1075 | Variables agree at every loop head: any number of rounds with break, continue and return inside leads where the loop's meaning says. |
| CompilerStmt.ForRuns | compiler/compiler.py:1051-1075 | Code for for, with each of its parts optional, runs as initialiser, test, body and update mean; continue goes to the update. |
| CompilerStmt.StmtRuns | compiler/compiler.py:857-1075 | Every statement's code simulates its big-step meaning, nested to any depth, with memory, variables and result agreeing at the fall-through, at the label that break or continue names, or at the final HLT or RET. |
| CompilerStmt.SeqRuns | compiler/compiler.py:844-846 | The same for statement lists. |
| CompilerLabels.ExprTidy | compiler/compiler.py:1335-1338 | Expression code marks each of its labels once, with numbers of its own, and jumps nowhere else. |
| CompilerLabels.StmtTidy | compiler/compiler.py:857-1075 | Statement code marks each of its labels once, and jumps only to them and to the labels of the enclosing loop. |
| CodeGenerator.CodeGen.AllocTemp | compiler/compiler.py:1306-1316 | The in-place allocator hands out the next register, skipping R26, or fails when none is left. |
| CodeGenerator.CodeGen.AllocVar | compiler/compiler.py:1291-1304 | A variable gets one register and keeps it. |
| CodeGenerator.CodeGen.BinaryInto | compiler/compiler.py:1162-1207 | The method appends exactly the lines, and leaves the state, of the code specification for binary operations. |
| CodeGenerator.CodeGen.Logical | compiler/compiler.py:1209-1239 | The same for the short-circuit operators. |
| CodeGenerator.CodeGen.Expression | compiler/compiler.py:1079-1158 | The same for every expression; compile errors are those of the specification. |
| CodeGenerator.CodeGen.Assignment | compiler/compiler.py:934-962 | The same for assignments. |
| CodeGenerator.CodeGen.WhileStmt | compiler/compiler.py:1035-1049 | The same for while, with the loop stack pushed and popped. |
| CodeGenerator.CodeGen.ForStmt | compiler/compiler.py:1051-1075 | The same for for. |
| CodeGenerator.CodeGen.Statement | compiler/compiler.py:857-932 | The same for every statement. |
| CodeGenerator.CodeGen.Generate | compiler/compiler.py:748-855 | The lines of the whole program: origin, jump to main, main, and the data section. |
| Programs.ProgramAssembles | compiler/compiler.py:748-855 | Every generated program whose code ends below word address 0x4000 assembles: its labels are unique and defined, and memory holding the image holds the code with every label in place and every branch in range. |
| Programs.CompiledProgramRuns | compiler/compiler.py:748-855 | A compiled, assembled and loaded program halts on the sequential machine with the memory and result that the meaning of main prescribes. |
| GlobalData.DataStaysIff | compiler/compiler.py:755-803 | For distinct global names, the data of a non-empty global is emitted where the code looks for it if and only if main declares no array under the name of this array. |
| GlobalData.FoundWord | compiler/compiler.py:777-803 | What a loaded program finds at every address its code uses for a global: the emitted word, or 0 if the array was moved. |
| GlobalData.GlobalStartsIff | compiler/compiler.py:777-803 | A global starts with its emitted words at the address the code uses if and only if it was not moved, or only zeros were emitted. |
| GlobalData.MovedArrayFails | compiler/compiler.py:869-871 | A program on which it goes wrong: int a[1] = {7} and a local int a[1] in main. The 7 is loaded at 0x4001; main reads 0 at 0x4000. |
| GlobalData.InitialiserIff | compiler/compiler.py:785-798 | A word that was not moved starts with the value of its initialiser if and only if that is an integer literal (or missing), or the value is 0. |
| GlobalData.NegativeInitialiserFails | compiler/compiler.py:795-798 | int g = -5 has a negation as its initialiser, with value 2^32 - 5, and is emitted as 0. |
| EndToEnd.SteadyRunIsSafe | simulator/cpu_simulator.py:393-420 | If neighbouring words pass a static check and the run stores only above the code, the run avoids every gap of the hazard logic. |
| EndToEnd.CompiledOnPipeline | simulator/cpu_simulator.py:325-435 | From source to pipeline: a compiled, assembled and loaded program whose neighbouring words pass the check halts on the pipelined machine with the memory and result that the meaning of main prescribes. |
| Definedness.EvalDefinedIff | compiler/compiler.py:1079-1258 | An expression has a value if and only if evaluation meets no unknown or uninitialised variable, no constant that the code loads wrongly, no address of a local variable, no zero divisor and no shift of 32 or more, and it has no call or string. |
| Definedness.NeverUndefined | compiler/compiler.py:857-1075 | A program in which names are new and initialised, divisors and shift amounts are literals, assigned values of globals leave R26 alone, and elements are stored at literal indices has, on every memory and for any fuel, a meaning or no end. |
| HazardFree.ExprYields | compiler/compiler.py:1079-1258 | If no operand of the logical operators is a mere memory read: in the expression's code no load is directly followed by a branch on its register, a branch at its beginning tests a variable, and a load at its end is to no variable's register. |
| HazardFree.StmtCalm | compiler/compiler.py:857-1075 | If besides no condition, no value stored to memory with = and no expression statement is a mere memory read, and no statement begins with its store: in the statement's code no load is directly followed by a branch on its register or a store of it, and no HLT by a store. |
| HazardFree.CalmIsSheltered | cpu/pipeline.py:122-139 | For every such program, the words in memory pass the check on neighbouring words. |
| HazardFree.CalmOnPipeline | simulator/cpu_simulator.py:325-435 | Every such program, compiled, assembled and loaded into cleared memory, halts on the pipelined machine with the memory and result that the meaning of main prescribes. |
| HazardFree.CheckedOnPipeline | simulator/cpu_simulator.py:325-435 | If such a program also passes the check on meanings, the same holds whenever it ends within some fuel. |
| EndToEnd.GlobalConditionCode | compiler/compiler.py:1017-1033 | A condition on a global is compiled to a load directly followed by a branch on the loaded register. |
| EndToEnd.LoadThenBranchFails | cpu/pipeline.py:122-139 | Such a pair fails the check for every register and every near target. |
| EndToEnd.LoadThenStoreFails | cpu/pipeline.py:122-139 | So does storing a word directly after loading it. |
| Conditions.ConditionIsFalse | cpu/pipeline.py:122-139 | For every related state with the branch fetched behind the load, and every near target: the branch that skips the body is taken, whatever was loaded. |
| GuardProgram.CompiledGuardFails | compiler/compiler.py:1017-1033 | int g = 1; int main() { if (g) return 7; }, compiled, assembled and loaded: its meaning and the in-order machine return 7, the pipeline halts with 0 in R1. |
| Parsing.PrintThenParse | compiler/compiler.py:532-685 | For every expression tree: printing with the fewest parentheses and parsing gives the same tree back and leaves exactly the tokens that stood behind it (ten precedence levels, left associativity, prefix * and & against their binary forms). |
| Parsing.PrintInjective | compiler/compiler.py:532-685 | No token list is the print of two different expressions. |
| Parsing.GroupsByPrecedence | compiler/compiler.py:532-608 | For every two binary operators, each in its written form: of a op b op' c the tighter operator binds first, and the left one within a group of the table. |
| Parsing.PrefixOperators | compiler/compiler.py:610-632 | What -, ~, !, * and & mean in front of an operand. |
| Parsing.CastIgnored | compiler/compiler.py:667-680 | A cast to int, void, char or unsigned with any number of stars, in front of a printed unary operand, parses to the operand. |
| ParsingSound.ParseIsSound | compiler/compiler.py:532-685 | On every token list: what the parser accepts as an expression is a text of the tree that it returns, by the rules of the grammar with redundant parentheses, casts and optional commas, and the tokens behind it are untouched. |
| Parser.ExprParser.Expression | compiler/compiler.py:532-541 | The parser object, moving its position in place, returns the tree and stops at the token that the parsing function gives. |
| Parser.ExprParser.LevelExpr | compiler/compiler.py:535-608 | The same for the loops of the nine binary levels. |
| Parser.ExprParser.UnaryExpr | compiler/compiler.py:610-632 | The same for prefix operators. |
| Parser.ExprParser.PrimaryExpr | compiler/compiler.py:634-685 | The same for literals, names, calls, indexing, parentheses and casts. |
| AssemblerSpec.LabelIsCounter | assembler/assembler.py:189-274 | A label that no .equ on its own or a later line redefines has, in the symbol table, the value of pass 2's location counter at its line, for any mix of directives and instructions. |
| AssemblerSpec.EquIsValue | assembler/assembler.py:216-219 | A symbol has the value of its last .equ. |
| AssemblerSpec.Pass1AcceptsIff | assembler/assembler.py:189-230 | The first pass succeeds if and only if no label is in the table before its line. |
| AssemblerSpec.Pass2AcceptsIff | assembler/assembler.py:232-274 | The second pass succeeds if and only if every symbol that a line uses is in the table. |
| AssemblerSpec.DataWords | assembler/assembler.py:255-258 | Word k of a .word or .data line is its k-th value modulo 2^32. |
| AssemblerSpec.BranchReachesIff | assembler/assembler.py:284-291 | The assembled, decoded and executed branch goes to its target if and only if the distance fits 16 signed bits, directly or round the end of the address space. |
| AssemblerSpec.EncodedDecodes | assembler/assembler.py:293-418 | Each assembled instruction word decodes to the instruction that was written, with its operands resolved (for the CSR moves, masked to five bits). |
| AssemblerSpec.AssembledCode | assembler/assembler.py:232-274 | A stretch of code, with nothing assembled over it, is in memory instruction by instruction as written. |
| Assembler.TwoPass.Pass1 | assembler/assembler.py:189-230 | The loop builds the symbol table of the specification and rejects exactly the duplicate labels. |
| Assembler.TwoPass.Pass2 | assembler/assembler.py:232-274 | The loop emits the words of the specification and fails exactly on an undefined symbol. |
| Assembler.TwoPass.Words | assembler/assembler.py:266-270 | The word list reaches to the highest address used, with 0 in the gaps. |
| Assembler.TwoPass.Assemble | assembler/assembler.py:138-150 | Both passes, with the table of the first used by the second. |
| Heap.KernelHeap.constructor | os/memory.c:25-31 | The heap starts as one free block, whatever memory held before; two words are written. |
| Heap.KernelHeap.Kmalloc | os/memory.c:36-82 | First fit: the lowest free block with room for the request and its header, 0 if and only if there is none or the size is not positive; no word of a live allocation changes; the heap stays well formed if and only if one to three words are not left over. |
| Heap.KernelHeap.Kfree | os/memory.c:89-126 | Freeing a live allocation removes exactly it, merges both ways, keeps the heap well formed, and changes no word of another live allocation. |
| Heap.KernelHeap.FindPrevious | os/memory.c:108-120 | The walk finds the block that ends where the freed one begins, if there is one. |
| Heap.KernelHeap.HeapStats | os/memory.c:171-198 | The counts are the number of live allocations and of the other blocks. |
| Heap.Kmemcpy | os/memory.c:148-166 | The destination gets the old source words, also when the ranges overlap, and nothing else changes. |
| Blocks.AllocKeepsIff | os/memory.c:60-71 | Allocation keeps the tiling if and only if the block's spare words are not one to three. |
| Blocks.AllocLive | os/memory.c:47-74 | Allocation adds one live allocation at the first fitting block, and otherwise loses exactly the spare words. |
| Blocks.ReleaseKeeps | os/memory.c:89-126 | Freeing keeps the tiling and the absence of free neighbours, and removes exactly the freed allocation. |
| Blocks.FreeUndoesAlloc | os/memory.c:36-126 | Allocating and freeing at once restores the identical block list. |
| Blocks.RunKeepsIff | os/memory.c:36-126 | In any sequence of requests that frees live pointers only, the blocks tile the heap exactly and without free neighbours after every request, if and only if no allocation leaves one to three words over. |
| Blocks.TwoModFourKeeps | os/memory.c:60-71 | Requests of 2 modulo 4 words never leave such a remainder. |
| Blocks.LiveDisjoint | os/memory.c:36-82 | Two live allocations never share a word. |
| Blocks.Canonical | os/memory.c:99-125 | A heap without free neighbours is determined by its live allocations. |
| Blocks.HistoryIndependent | os/memory.c:36-126 | Two histories without remainders that leave the same live allocations leave the same heap. |
| Blocks.AllFreed | os/memory.c:36-126 | Once everything is freed after such a history, the heap is the single block it started as. |
| Blocks.SpareWordIsLost | os/memory.c:60-71 | A request of 0xCFFD words loses one word for good. |
| Tlb.TranslateSound | simulator/cpu_simulator.py:164-217 | Every translation keeps: distinct pages, distinct stamps, and stamp 0 exactly in empty slots. |
| Tlb.TranslateIsWalk | simulator/cpu_simulator.py:164-217 | While the cache repeats the table and the access finds its page's table word, one translation returns what walking the table returns, faults included, and the cache still repeats the table. |
| Tlb.Transparent | simulator/cpu_simulator.py:164-217 | The same for any sequence of reads, writes and fetches, with any other memory changing in between. |
| Tlb.FlushedIsTransparent | simulator/cpu_simulator.py:158-217 | After a flush no earlier history matters. |
| Tlb.LruExact | simulator/cpu_simulator.py:164-217 | Once touched, a page that is not touched again (faulting translations do not touch it) is cached if and only if fewer than 32 other pages have been touched since. |
| Tlb.TranslationExact | simulator/cpu_simulator.py:164-217 | On every cache that repeats the table, a translation succeeds if and only if its page's table word w is in memory and has V, for a write W and for a fetch X among its masked flags; the address is the frame of w with the offset. |
| Tlb.FreshTranslation | simulator/cpu_simulator.py:158-217 | The same on a flushed cache, for every access. |
| TlbModel.Model.Flush | simulator/cpu_simulator.py:158-162 | The in-place flush empties all slots and counts itself. |
| TlbModel.Model.FindOldest | simulator/cpu_simulator.py:206-209 | The index of the first smallest stamp. |
| TlbModel.Model.TranslateAddress | simulator/cpu_simulator.py:164-217 | The in-place search, walk and replacement give the address and the new cache of the specification, and count hits and misses. |
| HypervisorProofs.StepKeepsIff | hypervisor/vm_manager.c:54-152 | A create with any base, destroy, start, pause, map, timer tick or VM exit keeps the invariant (count, one running VM, live VMs in RAM, apart from each other and confined to their own memory) if and only if the created VM has room, an accepted mapping of a live VM goes to its own memory, and the exiting VM was not destroyed on the CPU. |
| HypervisorProofs.Isolation | hypervisor/vm_memory.c:52-148 | In every state reachable by such events two live VMs never reach the same host address, none reaches the hypervisor, only the current VM can be RUNNING, and vm_count is the number of slots in use. |
| HypervisorProofs.TranslationConfined | hypervisor/vm_memory.c:137-148 | Every successful translation of a live VM lies in its own memory: its slot's 64 KB window, or, with another base, its size in whole pages. |
| HypervisorProofs.MemoryKept | hypervisor/vm_memory.c:52-91 | No event changes a byte that belongs to a live VM, except its own destruction. |
| HypervisorProofs.WipedMemory | hypervisor/vm_manager.c:105-123 | A fresh VM and a destroyed VM leave their memory zero. |
| HypervisorProofs.CreateCountsIff | hypervisor/vm_manager.c:70-100 | vm_create keeps vm_count right if and only if it refuses the request at once or the base passes the two checks, with their 32-bit sum, whose error returns leave the slot in use. |
| HypervisorProofs.MapConfinedIff | hypervisor/vm_memory.c:102-130 | An accepted mapping keeps the VM confined if and only if its target page belongs to the VM. |
| HypervisorProofs.ExitCountsIff | hypervisor/trap_handler.c:228-235 | A VM exit keeps the count right if and only if the VM on the CPU has not been destroyed there. |
| HypervisorProofs.FreshIsolatedIff | hypervisor/vm_memory.c:52-91 | With any bases: two VMs whose tables are as vm_create left them never reach the same host address if and only if their memories, in whole pages and around 2^32, do not overlap. |
| HypervisorProofs.CreatedFresh | hypervisor/vm_manager.c:54-100 | Every successful vm_create, with an explicit base or not, leaves such a table, and its base passes the two checks. |
| HypervisorProofs.AutoCreates | hypervisor/vm_manager.c:79-80 | While all VMs are created without a base, every creation finds room. |
| HypervisorProofs.CreatedInsideIff | hypervisor/vm_manager.c:82-84 | A created VM has all its memory in RAM above the hypervisor if and only if base plus size stays below 2^32. |
| HypervisorProofs.OffHypervisorIff | hypervisor/vm_memory.c:60-62 | No address of a created VM leads to the hypervisor if and only if its whole pages end by 2^32. |
| HypervisorProofs.WrappedBaseFails | hypervisor/vm_memory.c:60-91 | Base 0xFFFF8000 with 64 KB: the creation succeeds, zeroes the first 32 KB of RAM, which are the hypervisor's, and the VM reaches them. |
| HypervisorProofs.ForeignPageIsShared | hypervisor/vm_memory.c:102-130 | In every reachable state without explicit bases and with a free slot: a live VM may map a page of that slot's window, and after the next creation both VMs reach one host address. |
| HypervisorProofs.SharedPageRun | hypervisor/vm_memory.c:102-130 | A run of three events from start-up after which VM 0 and VM 1 share an address. |
| HypervisorLifecycle.CreateSucceedsIff | hypervisor/vm_manager.c:54-100 | vm_create succeeds if and only if the size is at most 64 KB and holds the entry point, a slot is free, and the base is left open or passes the two checks; the VM takes the lowest free slot, and the count grows by one. |
| HypervisorLifecycle.CallsSucceedIff | hypervisor/vm_manager.c:105-152 | Start and destroy succeed if and only if the VM is in use and not RUNNING, pause if and only if it is READY or RUNNING; each changes the state of its VM only, and a refused call nothing. |
| HypervisorLifecycle.MapAcceptedIff | hypervisor/vm_memory.c:102-130 | vm_map_page accepts exactly whole pages of the 64 KB guest space on whole pages above the hypervisor that begin in no other live VM's memory. |
| HypervisorLifecycle.MappedTranslates | hypervisor/vm_memory.c:102-148 | After an accepted mapping the guest page leads to the host page, and every other address of every VM leads where it led. |
| HypervisorLifecycle.Dispatches | hypervisor/hv_core.c:127-168 | After a timer tick or an exit in a reachable state: if a VM may run, the one on the CPU is RUNNING and no other is, the one that was there is READY (or HALTED after its exit), and all others are as before; otherwise none is RUNNING. |
| HypervisorLifecycle.Lifecycle | hypervisor/vm_manager.c:54-187 | Every event moves every VM along an arc of its life: only a start makes a VM runnable, only a tick or an exit puts it on the CPU, and a RUNNING VM is not destroyed. |
| HypervisorLifecycle.IdleUntilStarted | hypervisor/vm_manager.c:127-152 | In every run, a VM that is paused, new, halted or gone gets no CPU until it is started. |
| HypervisorCore.HypervisorState.constructor | hypervisor/hv_core.c:93-122 | The hypervisor starts with no VM, nothing mapped and memory as it was. |
| HypervisorProofs.Fair | hypervisor/hv_core.c:76-88 | For a table of any size n: a VM runnable at every pick is picked within n picks, whatever the others do. |
| HypervisorProofs.FairRun | hypervisor/hv_core.c:127-168 | In every run of the system, a VM that is READY or RUNNING whenever the scheduler looks is put on the CPU within the next four dispatches. |
| HypervisorProofs.DispatchedArePicks | hypervisor/hv_core.c:76-168 | The VMs put on the CPU in a run are the picks made on the tables that the scheduler saw. |
| HypervisorCore.HypervisorState.VmAllocMemory | hypervisor/vm_memory.c:52-91 | The loops zero the memory and fill the shadow table as specified, with 32-bit addresses, or return the first error with nothing changed. |
| HypervisorCore.HypervisorState.VmMapPage | hypervisor/vm_memory.c:102-130 | One table entry changes, or the first error is returned. |
| HypervisorCore.HypervisorState.VmTranslate | hypervisor/vm_memory.c:137-148 | The host address from the shadow table, or a fault. |
| HypervisorCore.HypervisorState.VmCreate | hypervisor/vm_manager.c:54-100 | The new slot, memory, table and count, or the error with exactly the changes that were made before it. |
| HypervisorCore.HypervisorState.VmDestroy | hypervisor/vm_manager.c:105-123 | Frees the slot, wipes its memory and counts it out, or the error. |
| HypervisorCore.HypervisorState.HvPickNextVm | hypervisor/hv_core.c:76-88 | The loop picks the first runnable slot from the round-robin pointer on and moves the pointer behind it. |
| HypervisorCore.HypervisorState.VmScheduleNext | hypervisor/vm_manager.c:171-187 | Demotes the running VM and puts the next pick on the CPU. |
| IntelHex.RecordSumsToZero | toolchain/linker.py:183-190 | The bytes of every record sum to 0 modulo 256 (section 2 of the Intel Hexadecimal Object File Format Specification, Revision A). |
| IntelHex.RecordLoads | toolchain/loader.py:44-82 | Loading one written record stores its words at its address modulo 2^16. |
| IntelHex.RecordAcceptedIff | toolchain/loader.py:58-79 | A record is accepted if and only if all its bytes are there and sum to 0 modulo 256, a data record holds whole words and an address record two bytes. |
| IntelHex.RecordEffects | toolchain/loader.py:70-82 | A data record changes memory only, an address record the extended address only, the end record stops the loading, and all others change nothing. |
| IntelHex.DataBytes | toolchain/loader.py:70-76 | The bytes of a data record become words, the highest byte first, from the word of its address on; all other words stay. |
| IntelHex.ExtendedAddress | toolchain/loader.py:78-79 | Behind an address record of value v, a word is loaded 2^14 v words further on. |
| IntelHex.LinkedImageLoadsIff | toolchain/linker.py:161-173 | Loading what the linker wrote gives the same address-to-word map if and only if every word address is below 0x4000. |
| IntelHex.AssembledWordsLoadIff | toolchain/assembler.py:170-203 | Loading what the toolchain assembler wrote gives the same words if and only if there are at most 0x4000 of them; otherwise the load fails. |
| Linking.CollectedWords | toolchain/linker.py:62-106 | Collecting dense modules gives dense text and data sections. |
| Linking.SectionsApart | toolchain/linker.py:62-106 | Words of different modules never get the same offset. |
| Linking.Placement | toolchain/linker.py:116-126 | Before relocation every text and data word is at its own address and no other address is used, if text ends below data. |
| Linking.PatchMeans | toolchain/linker.py:128-156 | A patched abs26, pc16 or imm16 field reads back as the symbol's address, and all other bits are kept. |
| Linking.RelocatedWord | toolchain/linker.py:116-156 | In the linked image each relocated word names its symbol's linked address and is otherwise what it was. |
| Linking.LinkedWords | toolchain/linker.py:62-156 | Word i of any module is at its own linked address, as the module has it unless a relocation names that address. |
| Linking.ResolvesIff | toolchain/linker.py:116-156 | Linking succeeds if and only if every relocated symbol is defined and each value fits its field: 26 bits, a signed distance of 16 bits, or 16 bits. |
| Linking.AddsIff | toolchain/linker.py:92-98 | Collecting modules succeeds if and only if no symbol is exported twice. |
| Linking.SymbolLinked | toolchain/linker.py:92-98 | The table value of a label is the linked address of the word it labels in its module. |
| Linking.RelocationLinked | toolchain/linker.py:100-156 | Each relocated word of each module is at its linked address, names the linked address of its symbol, and keeps the module word's bits outside the field. |
| Toolchain.Linker.AddObject | toolchain/linker.py:62-106 | The loops append the shifted words, symbols and relocations, and fail exactly on a duplicate symbol. |
| Toolchain.Linker.Resolve | toolchain/linker.py:116-156 | The loops give the image of the specification, and fail exactly on an undefined symbol or a value out of range. |
| Toolchain.Linker.Link | toolchain/linker.py:161-173 | The written lines are one record for each address in ascending order, and load back as the linked image if and only if it lies below 0x4000. |
| Toolchain.Loader.LoadHex | toolchain/loader.py:44-82 | The loop over lines accepts and stores exactly what the loading function says, checksum errors included. |
| Toolchain.WriteIntelHex | toolchain/assembler.py:170-203 | The loop writes the lines of the specification, four words to a record. |

## Left out

- Exceptions, CSRs, SYSCALL, ERET, BREAK, MFC and MTC: EX sets a `trapped` mark in the model, and the safety condition excludes them.
- Simulator.CpuSimulator.StageEx: a system instruction only sets the `trapped` mark, where the source carries it out.
- Simulator.ExMemReg.Execute: the same for its branch of the system instructions.
- Simulator.CpuSimulator.Clock: a cycle that meets a system instruction ends there.
- Simulator.CpuSimulator.Run: the loop also stops at system instructions.
- The MMU inside the pipeline: the processor runs untranslated; the cache and the page walk are modelled on their own.
- UART, GPIO, timer, boot loader and memory-mapped addresses: hardware access with nothing to prove.
- Flags, statistics, instruction and data cache models, snapshots and log text: not observed by programs.
- Self-modifying code: a store to one of the two words behind the program counter is excluded by the safety condition; Misreads.StoreUnseenRuns covers the next word, when it is no memory access or HLT.
- Function calls, parameters, functions other than main, string literals: calls save no registers; expressions and statements that contain them have no code in the model.
- CodeGenerator.CodeGen.Expression: calls and string literals are compile errors in the model, where the source emits code for them.
- CodeGenerator.CodeGen.Generate: programs have one function, main.
- CompilerStmt.StmtRuns: shadowing (a local variable under a global's name, an inner redeclaration), which the generator gets wrong, is undefined in the semantics and has no exact condition of its own; nor have uninitialised variables, division by zero and stores into the code.
- The preprocessor, the lexer and the parsers of statements and declarations: the expression parser starts from tokens.
- Parser.ExprParser.LevelExpr: the nine methods of the binary levels, which differ in their operators only, are one method with a level parameter.
- Text of assembly lines, register names and number formats: the assembler starts from lines split into label, mnemonic and operands.
- HazardFree.CalmOnPipeline: the condition on the source suffices, and EndToEnd.LoadThenBranchFails and LoadThenStoreFails show what happens without it; it is not necessary, since a far branch may by its offset bits hold the pipeline back by chance, and `*p = x` with two local variables is excluded only because it may stand behind a return.
- Definedness.NeverUndefined: a sufficient check; stores through pointers and computed indices, and divisors that are not literals, are left to the values.
- EndToEnd.CompiledOnPipeline: needs code and data apart, with the code below word address 0x4000, where the compiler places its data.
- GlobalData.GlobalStartsIff: needs distinct global names; a repeated name belongs to its last declaration in the source's tables.
- Division.FloatDivisionExact: rounding is any function with the two stated properties; the binary format itself is not modelled.
- Heap.KernelHeap.Kmalloc: sizes within two of the largest C integer are excluded, where the addition in the source overflows.
- Heap.KernelHeap.Kfree: pointers that are neither null nor live are excluded; the source does not detect them.
- kmemset: would only add an easier member beside kmemcpy.
- HypervisorProofs.Isolation: histories with an event that breaks the invariant (StepKeepsIff says which) are not covered.
- HypervisorCore.HypervisorState.VmCreate: VM names, quanta, vCPU contents and what stores outside RAM do are not modelled; the error -6 cannot occur, since the checks before it are the same.
- Trap dispatch, vCPU contexts and interrupt masking: a timer tick and a VM exit are scheduling events of the model.
- Tlb.Transparent: the read permission bit is not checked, as in the source; user mode is not modelled.
- Linking.LinkedWords: modules are dense and start at offset 0, and text ends below data; the compact object form with one word list, section sizes for uninitialised data, and raw word lists are left out.
- Loader output formats (memory lists, COE, Verilog) and object file syntax: only text.
- Processes, interrupts and the scheduler of the kernel: their round robin and counters would repeat the hypervisor's.
- The Verilog and VHDL cores, both debuggers, the disassembler and the web view: other implementations and user interface.
