# A model of the Armator ARMv5 core

Armator simulates an ARMv5 processor for teaching. This Dafny project models the part of it that
executes instructions: the register file, the byte memory, the shifter and the flags, the single and
multiple loads and stores, branches, MRS and SWI, the condition check, the dispatcher and the step
function. It proves what these parts compute, and what holds of them together over whole runs.

Two layers stand beside each other.

- **Values.** `Registers.RegisterFile`, `Memory.MemoryValue` and `Core.Machine` are plain values, and
  each instruction is a function from a machine to a machine and an outcome (`ProcessData`,
  `LoadStoreSingle`, `LoadStoreMultiple`, `Branch`, `Miscellaneous`, `SoftwareInterrupt`), tied together
  by `Instruction.StepMachine`. They say what is meant: shifts are repeated one-bit steps, masked PSR
  writes are merged bit by bit, memory values are composed of bytes, block transfers are a prefix of a
  list of registers. The theorems are about these functions.
- **Objects.** `RegisterArrays`, `MemoryArray` and `ArmCore` are the C structures with their arrays.
  Their methods, and the `Arm...` methods of the instruction modules, follow the C code branch by branch
  (closed-form shifts, or-and masks, merging loops, running addresses), and each is proved to leave
  exactly the machine its function gives. So `Instruction.ArmStep` refines `StepMachine`.

## Modules

| module | contents |
|---|---|
| Words | 32-bit words, the macros and shifts of util, bitwise operators |
| Registers, RegisterRuns | the banked register file; banking, histories of writes, reserved bits |
| Memory, MemoryRuns, ByteOrder | the byte memory; histories of writes, ranges; byte order by cells |
| Core | register views, fetch, reset |
| Shifter, RotateRight | shifts as one-bit steps and their closed forms; when ROR is a rotation |
| Flags, InPlaceFlags, AluLaws, Comparison | carry, borrow and overflow tests, also with Rd = Rn; flags after instructions; CMP and conditions |
| DataProcessing, OperandForms, Meanings | the sixteen data-processing instructions; operands and offsets of encoded words; what is computed and what stays |
| MultiLimb | arithmetic on numbers of any length |
| Encoding | instruction words from their fields |
| LoadStore, SingleTransfers, TransferForms, BlockTransfers, BlockRoundTrips, StackDiscipline | loads and stores, their effects and round trips |
| StackProgram | a program of pushes and pops in memory, run step by step |
| StatusWrites | what MSR, BX and their neighbours become |
| BranchOther, BranchReach, StepLaws | branches, MRS, SWI; where branches go; steps of encoded words |
| Instruction, Conditions, Programs, Confinement | conditions, dispatch and step; conditions for every flag pattern; encoded words and short programs; invariants of whole runs |

## How C is read

The register views, fetch and reset of `Core` follow arm_core.c lines 38-49, 73-81, 93-108 and 129-139
and arm_exception.c lines 33-40, the shifts of `Words` util.c lines 26-32 and the macros of util.h.

A `uint32_t` is an integer from 0 to 2^32 - 1 with every wrap-around written out (`Words.Wrap`). A mask
`x & (2^k - 1)` is `x % 2^k`, a truncating assignment to a byte or half-word likewise. `get_bits(x, h, l)`
is the field itself, which is what the macro computes with arithmetic right shifts of -1. A handler's
`int` result is an `Outcome`; `exit(0)` is the outcome `Exited`. The source's sixteen opcode cases
repeat one pattern, which `DataProcessing.Execute` states once.

## Where the code differs from its comments or from the manual

The model follows the code.

- `carry_from` and `carry_from_tri` compare with 0xfffffff, one digit short (arm_data_processing.c:518, 523).
  `CarryRightExactly`, `CarryTriRight` and `MultiLimbExactly` say exactly when this is harmless.
- The S-forms compute C and V after Rd is written, from Rn read again (arm_data_processing.c:253-254), so
  the tests see the result in place of the first operand when Rd is Rn. `AdditionFlags`, `SubtractionFlags`
  and `ReversedFlags` say exactly when C and V are right, with Rd and Rn different or the same: in place RSBS is
  always right, and ADDS and SUBS miss every signed overflow.
- Logical S-forms, TST and TEQ clear V where the comment says "unaffected" (arm_data_processing.c:214).
- ROR operands go through `asr`, and the register form takes the amount modulo 16
  (arm_data_processing.c:170, 179-184). `RorImmediateExactly` and `RorRegisterExactly` say when that is a rotation.
- `borrow_from_tri` and `overflow_from_tri` miss or invent cases (arm_data_processing.c:510-513, 545-547).
- Downward LDM and STM put the lowest register at the highest address (arm_load_store.c:283-290, 309-316):
  the words are those of the manual, their order is not, and a push followed by a pop reverses the registers.
- The bounds tests use `>` (memory.c:69, 79, 93), so one byte past the end is reachable when the size
  allows an aligned access there. `InRangeExactly` says for which sizes.
- A refused fetch does not stop `arm_execute_instruction`: it goes on with an uninitialised word
  (arm_instruction.c:36-38). That word is the parameter `junk`, and the theorems hold for any.
- The T forms of word and byte transfers are refused only after the access took place (arm_load_store.c:157),
  and LDRSH and LDRSB after the base writeback (arm_load_store.c:206-235), though the dispatcher sends
  neither of these two there.
- `arm_exception` acts on a reset only (arm_exception.c:36), and no instruction returns its number, so
  no step ever takes an exception.
- MSR, BX, BLX by a register and CLZ, which are not implemented, reach the data-processing handler as TEQ or CMN
  without the S bit and set the flags (arm_instruction.c:97, arm_data_processing.c:375-414): `StatusWordsAreTests`
  and `StatusStep`. Coprocessor and media instructions are stepped over in silence although their handlers would
  refuse them: `IgnoredSteps`.
- registers.h promises 0 for reads of registers above 15; registers.c indexes its array first
  (registers.c:131-132). Register numbers are 0 to 15 here, as every field of an instruction is.

## Model

| member | source | states |
|---|---|---|
| Registers.RegisterArrays.constructor | registers.c:70-93 | A new register file has every register and SPSR zero and the CPSR in system mode. |
| Registers.RegisterArrays.GetMode | registers.c:106-110 | The mode is the five low bits of the CPSR. |
| Registers.RegisterArrays.CurrentModeHasSpsr | registers.c:113-117 | User and system mode, and no other code, have no SPSR. |
| Registers.RegisterArrays.InAPrivilegedMode | registers.c:120-124 | Every mode but user mode is privileged. |
| Registers.RegisterArrays.ReadRegister | registers.c:127-152 | The nested bank tests read the slot that the register names in the current mode. |
| Registers.RegisterArrays.ReadSpsrRegister | registers.c:169-180 | The SPSR of the current mode, zero in modes that have none. |
| Registers.RegisterArrays.WriteRegister | registers.c:183-205 | Exactly the slot the register names in the current mode takes the value; the other arrays' cells stay. |
| Registers.RegisterArrays.WriteUsrRegister | registers.c:208-211 | The user-mode register takes the value whatever the mode. |
| Registers.RegisterArrays.WriteCpsrRegister | registers.c:230-236 | The CPSR becomes the bit-by-bit merge of its old contents inside the mask and the value outside it, with the mask of the current privilege. |
| Registers.RegisterArrays.WriteSpsrRegister | registers.c:240-251 | The same merge of the current mode's SPSR with the privileged mask; no effect in modes without one. |
| Registers.OrAndMerges | registers.c:214-236 | The or, or, and sequence equals the per-bit merge for every old value, value and mask. |
| Registers.MaskedBit | registers.c:214-229 | A protected bit keeps its old value, every other bit takes the new one. |
| Registers.MaskedExact | registers.c:230-251 | A masked write stores its value if and only if the value agrees with the old contents on every protected bit. |
| RegisterRuns.WriteCpsrMode | registers.c:230-236 | A CPSR write selects the mode it asks for, except that user mode is never left. |
| RegisterRuns.WriteCpsrBits | registers.c:230-236 | A CPSR write changes every bit but 5, 10 to 15 and 20 to 26, and in user mode none of 8 to 0 either. |
| RegisterRuns.WriteSpsrBits | registers.c:240-251 | An SPSR write changes every bit but 5, 10 to 15 and 20 to 26. |
| RegisterRuns.SlotsAreArchitectural | registers.c:58-67 | Two (mode, register) pairs share a slot if and only if section A2.3 of the ARM Architecture Reference Manual gives them the same register. |
| RegisterRuns.EverySlotIsUsed | registers.c:30-44 | Each of the 31 slots is named by some valid mode and register, so the packing wastes none. |
| RegisterRuns.SlotTable | registers.c:30-67 | The slot of each register in each mode, by mode code and number. |
| RegisterRuns.ReadsLastWritten | registers.c:127-251 | After any history of the four kinds of writes through valid modes, a read in any mode returns the value last written to the architectural register it names. |
| RegisterRuns.CurrentReadLastWritten | registers.c:127-152 | The same of the read in the mode the history ends in. |
| RegisterRuns.PsrBitLastWritten | registers.c:230-251 | After any history, through any mode codes, each PSR bit is the one last written by a write allowed to change it. |
| RegisterRuns.SpsrsAreDistinct | registers.c:42-56 | Each of the five exception modes has an SPSR of its own, in the order of the array. |
| RegisterRuns.SpsrBitLastWritten | registers.c:240-251 | After any history through valid modes each SPSR bit is the one last written in its own mode. |
| RegisterRuns.RunMode | registers.c:106-110 | The mode after a history depends on its CPSR writes alone. |
| RegisterRuns.ReservedAlwaysClear | registers.c:70-93 | In every history from a new register file all six PSRs keep the bits of 0x07F0FC20 clear. |
| RegisterRuns.ExceptionReturnExact | registers.c:230-236 | With those bits clear, writing the SPSR to the CPSR makes them equal bit for bit and changes nothing else. |
| RegisterRuns.WriteFlagBits | registers.c:230-236 | A CPSR write that keeps bits 27 to 0 takes effect exactly in every mode, user mode included. |
| Memory.MemoryArray.constructor | memory.c:39-56 | A new memory of a positive size is all zero, in the byte order asked for. |
| Memory.MemoryArray.ReadByte | memory.c:67-75 | Accepted exactly up to and including the size; returns the byte there. |
| Memory.MemoryArray.ReadHalf | memory.c:77-89 | Accepted exactly when even and in range; returns the two bytes composed in the memory's order. |
| Memory.MemoryArray.ReadWord | memory.c:91-107 | Accepted exactly when a multiple of four and in range; the merging loop returns the four bytes composed in the memory's order. |
| Memory.MemoryArray.WriteByte | memory.c:109-117 | Stores the byte when accepted and changes nothing else; a refused write changes nothing. |
| Memory.MemoryArray.WriteHalf | memory.c:119-134 | Stores both bytes in the memory's order and changes nothing else; a refused write changes nothing. |
| Memory.MemoryArray.WriteWord | memory.c:136-150 | The storing loop places the four bytes in the memory's order and changes nothing else; a refused write changes nothing. |
| MemoryRuns.BytesAreLastWritten | memory.c:109-150 | After any history of byte, half-word and word writes, accepted or refused, each byte is the one the last accepted write covering it put there. |
| MemoryRuns.ReadsComposeLastBytes | memory.c:67-107 | After any such history an accepted read is the composition, in the memory's byte order, of the last byte written at each of its addresses. |
| MemoryRuns.InRangeExactly | memory.c:69-93 | All accepted accesses of a width stay inside the memory if and only if the size is not one less than a multiple of the width; so never for bytes, and always for half-words and words when the size is a multiple of four. |
| MemoryRuns.StoreLoad | memory.c:91-150 | Reading back a write returns its low bytes, for every width and both byte orders. |
| MemoryRuns.StoreElsewhere | memory.c:67-150 | A write does not change what a disjoint read returns, whatever the two widths. |
| ByteOrder.AcceptsExactly | memory.c:67-93 | An access is accepted if and only if it is aligned and its last byte is not beyond the size. |
| ByteOrder.HalfRead | memory.c:82-86 | A half-word by its two cells: the most significant byte first in a big-endian memory, last in the other. |
| ByteOrder.WordRead | memory.c:96-104 | A word by its four cells, in either order. |
| ByteOrder.StoredBytes | memory.c:109-147 | Which byte of the value a write of any width leaves in each cell, in either order. |
| ByteOrder.WordThenBytes | memory.c:67-147 | Byte reads after a word write: byte k of the value at offset k in a little-endian memory, at offset 3 - k in a big-endian one. |
| Core.ArmCore.constructor | arm_core.c:38-49 | A new core is in supervisor mode with interrupts masked (CPSR 0x1d3), all registers and SPSRs zero, its memory untouched. |
| Core.ArmCore.ReadRegister | arm_core.c:73-81 | R15 reads four more than it holds with bit 1 cleared, every other register what it holds. |
| Core.ArmCore.ReadCpsr | arm_core.c:93-97 | The whole CPSR. |
| Core.ArmCore.WriteRegister | arm_core.c:105-108 | Passes through to the register file and leaves the memory alone. |
| Core.ArmCore.Fetch | arm_core.c:129-139 | R15 moves on by four even when the access is refused; the word is then arbitrary. |
| Core.ArmCore.ArmException | arm_exception.c:33-40 | Only a reset changes the state. |
| Core.ResetPsr | registers.c:230-236 | From system mode the reset value gets through the mask unchanged. |
| Core.PcIsInstructionPlusEight | arm_branch_other.c:45-52 | An instruction fetched from an accepted address reads R15 as that address plus 8. |
| Core.PcViewBits | arm_core.c:73-81 | Reading R15 gives the bits of its value plus four, but for bit 1, which is clear. |
| Core.AdvancedView | arm_core.c:129-139 | A fetch, refused or not, leaves in R15 what it read as before; every other register in any bank stays. |
| Core.ReadWritten | registers.c:127-205 | A register reads what was written to it, every other register what it held before. |
| Words.BitwiseBit | arm_data_processing.c:202-204 | The word operators act on each bit separately. |
| Shifter.AsrValue | arm_data_processing.c:142-152 | `asr` by 1 to 31 is the sign-extended quotient. |
| Shifter.RorRotates | arm_data_processing.c:64-65 | `ror` by `n` is `n` one-bit rotations. |
| Shifter.LeftValue | arm_data_processing.c:84-99 | Shifting left in one go equals `n` one-bit steps. |
| Shifter.LeftCarry | arm_data_processing.c:86-96 | The carry-out of a left shift by 1 to 32 is the last bit shifted out. |
| Shifter.LeftBeyond | arm_data_processing.c:100-103 | More than 32 left steps leave zero and no carry. |
| Shifter.RightValue | arm_data_processing.c:111-121 | Shifting right equals `n` one-bit steps. |
| Shifter.RightCarry | arm_data_processing.c:112-122 | The carry-out of a right shift is the last bit shifted out. |
| Shifter.RightBeyond | arm_data_processing.c:123-129 | 32 right steps leave zero with the sign bit as carry, more leave no carry. |
| Shifter.ArithmeticValue | arm_data_processing.c:142-152 | Up to 32 one-bit arithmetic steps give the sign-extended quotient. |
| Shifter.ArithmeticCarry | arm_data_processing.c:143-153 | The carry-out of an arithmetic shift is the last bit shifted out. |
| Shifter.ArithmeticBeyond | arm_data_processing.c:154-162 | 32 or more arithmetic steps leave the sign in every bit and in the carry. |
| DataProcessing.LslImmediate | arm_data_processing.c:83-87 | The source's LSL by an immediate equals the iterated step, the old carry surviving a zero amount. |
| DataProcessing.LsrImmediate | arm_data_processing.c:106-113 | The source's LSR by an immediate equals the iterated step, 0 meaning 32. |
| DataProcessing.AsrImmediate | arm_data_processing.c:132-144 | The source's ASR by an immediate equals the iterated step, 0 meaning 32. |
| DataProcessing.LslRegister | arm_data_processing.c:90-103 | The source's LSL by a register equals the iterated step for every amount. |
| DataProcessing.LsrRegister | arm_data_processing.c:116-129 | The source's LSR by a register equals the iterated step for every amount. |
| DataProcessing.AsrRegister | arm_data_processing.c:147-162 | The source's ASR by a register equals the iterated step for every amount. |
| DataProcessing.RorImmediate | arm_data_processing.c:165-172 | ROR #0 is the rotate with extend; ROR by an immediate is what the source makes it, an arithmetic shift. |
| DataProcessing.RorRegister | arm_data_processing.c:175-185 | ROR by a register as the source makes it: an arithmetic shift by the amount modulo 16. |
| DataProcessing.RotatedImmediate | arm_data_processing.c:63-69 | A rotated immediate equals the iterated rotation; its carry-out is bit 31 unless the rotation is zero. |
| RotateRight.RorImmediateExactly | arm_data_processing.c:165-172 | ROR by an immediate 1 to 31 is the rotation it is named for if and only if every bit rotated out equals the sign bit. |
| RotateRight.RorImmediateWrong | arm_data_processing.c:169-172 | A failing input: 1 rotated by 1 gives 0 instead of 0x80000000. |
| RotateRight.RorRegisterExactly | arm_data_processing.c:175-185 | ROR by a register is a rotation if and only if the bits below the amount modulo 16 equal the sign bit and, when bit 4 of the amount is set, the two halves of the word are equal. |
| RotateRight.RorRegisterWrong | arm_data_processing.c:175-185 | A failing input: 1 rotated by a register holding 16. |
| DataProcessing.ComputeShifter | arm_data_processing.c:57-196 | All ten operand forms yield the operand and carry-out of the iterated-step definition; multiplies and extra loads are refused. |
| OperandForms.ImmediateOperand | arm_data_processing.c:63-69 | An encoded immediate: its eight bits rotated right by twice its four bits of rotation, with the carry unchanged for no rotation and bit 31 of the operand otherwise. |
| OperandForms.ShiftedOperand | arm_data_processing.c:72-172 | An encoded register shifted by an immediate: which bits give the register, the kind and the amount. |
| OperandForms.RegisterShiftedOperand | arm_data_processing.c:89-185 | An encoded register shifted by a register: which bits give the two registers and the kind, the amount being the low byte of Rs. |
| DataProcessing.ShiftedByImmediate | arm_data_processing.c:79-87 | The forms with an immediate amount compute the iterated step. |
| DataProcessing.ShiftedByRegister | arm_data_processing.c:90-103 | The forms with a register amount compute the iterated step. |
| Flags.BorrowTriExact | arm_data_processing.c:510-513 | The three wrapped comparisons decide a < b + c except at the single triple (0, 0xFFFFFFFF, 1). |
| Flags.CarryExact | arm_data_processing.c:515-519 | `carry_from` tests the sum against 2^32 when a is above 0x0FFFFFFF and against 0x0FFFFFFF otherwise. |
| Flags.CarryRightExactly | arm_data_processing.h:69-74 | `carry_from` is the carry of the addition if and only if the operands are not a small a whose sum lies in 0x10000000 to 0xFFFFFFFF. |
| Flags.CarryTriExact | arm_data_processing.c:521-524 | `carry_from_tri` for every operand pair and carry bit, by ranges of integer sums. |
| Flags.CarryTriMisses | arm_data_processing.h:76-81 | A true carry of three operands is missed at (0x0FFFFFFF, 0xFFFFFFFF, 1) and nowhere else. |
| Flags.CarryTriRight | arm_data_processing.h:76-81 | `carry_from_tri` is the carry of the addition if and only if the operands are outside the misjudged ranges. |
| Flags.OverflowExact | arm_data_processing.c:526-543 | `overflow_from` holds if and only if the sum or difference of the two's-complement readings leaves the signed range. |
| Flags.OverflowTriAddition | arm_data_processing.c:545-547 | For additions `overflow_from_tri` never misses an overflow, and is right if and only if the operands are outside three families with the carry set. |
| Flags.OverflowTriAdditionWrong | arm_data_processing.c:545-547 | A failing input: 0x7FFFFFFF + 0xFFFFFFFF + 1 fits and is reported as an overflow. |
| Flags.OverflowTriSubtraction | arm_data_processing.c:545-547 | For subtractions it reports the overflow of a - b and, with a borrow, three more cases. |
| Flags.OverflowTriSubtractionRight | arm_data_processing.h:91-97 | For subtractions it is the overflow of a - b - c if and only if there is no borrow or the operands are outside the misjudged families. |
| Flags.OverflowTriSubtractionWrong | arm_data_processing.c:545-547 | Two failing inputs: an overflow that goes unreported and a report without one. |
| DataProcessing.ArmDataProcessingShift | arm_data_processing.c:31-499 | The instruction leaves exactly the specified machine, or is refused without any change. |
| DataProcessing.Execute | arm_data_processing.c:198-498 | Each opcode writes its result or only flags; S-forms with Rd = R15 restore the CPSR from the SPSR, the others compute C and V from Rn as it is after Rd was written. |
| Meanings.ResultMeans | arm_data_processing.c:198-495 | What each of the sixteen opcodes computes, by the integers and bits of its operands. |
| Meanings.PlainProcessing | arm_data_processing.c:202-208 | Without the S bit every opcode but the four tests computes into Rd, R15 included; memory, all six PSRs and every other register in any bank stay. |
| Meanings.SFormProcessing | arm_data_processing.c:202-217 | With the S bit and Rd other than R15 it computes into Rd, and only the four flags change besides. |
| Meanings.ReturnWithoutSpsr | arm_data_processing.c:205-208 | With the S bit and Rd = R15 it computes into R15; in user and system mode nothing else changes. |
| Meanings.RefusedProcessing | arm_data_processing.c:192-195 | Words with no operand form, multiplies among them, are refused with result 2 and change nothing. |
| DataProcessing.WriteFlags | arm_data_processing.c:549-563 | Exactly bits 31 to 28 of the CPSR change, in every mode. |
| DataProcessing.FlagBits | arm_data_processing.c:549-560 | The shifts and ors put four disjoint bits above the old low 28. |
| AluLaws.LogicalBits | arm_data_processing.c:202-204 | AND, EOR, TST, TEQ, ORR, BIC and MVN bit by bit. |
| AluLaws.ArithmeticInverses | arm_data_processing.c:242-343 | SUB, SBC, RSB and RSC undo ADD and ADC for all operands and carries. |
| AluLaws.SFormFlags | arm_data_processing.c:242-258 | An S-form leaves N and Z of its result, C and V of its operands with Rn read again, and nothing else beyond Rd. |
| AluLaws.LogicalFlags | arm_data_processing.c:210-217 | After a logical S-form C is the shifter's carry-out and V is clear, where the comment says unaffected: so V is unaffected if and only if it was clear. |
| AluLaws.LogicalOverflowLost | arm_data_processing.c:447-453 | A failing input, from any machine: MOVS R2, R1 with V set clears it. |
| AluLaws.AdditionFlags | arm_data_processing.c:282-317 | For ADDS and ADCS, with Rd and Rn different or the same: C is the carry of the operands if and only if they are outside the ranges the carry test misjudges, and V their signed overflow if and only if outside those the overflow test misjudges. |
| AluLaws.SubtractionFlags | arm_data_processing.c:242-337 | For SUBS and SBCS, with Rd and Rn different or the same: exactly when C is "no borrow" and V the signed overflow of the difference. |
| AluLaws.ReversedFlags | arm_data_processing.c:262-357 | For RSBS and RSCS, with Rd and Rn different or the same: exactly when C is "no borrow" and V the signed overflow of the reversed difference. |
| AluLaws.ReverseAlwaysRight | arm_data_processing.c:262-277 | RSBS has the right C and V for all operands, even with Rd = Rn. |
| AluLaws.SubtractInPlace | arm_data_processing.c:243-256 | SUBS with Rd = Rn tests the borrow on the result: exactly when its carry is still right. |
| AluLaws.SubtractInPlaceFails | arm_data_processing.c:243-256 | Failing inputs of SUBS R0, R0, R1, from any machine: 1 - 1 leaves C clear, 0x80000001 - 1 sets V. |
| AluLaws.AddInPlaceFails | arm_data_processing.c:283-296 | Failing inputs of ADDS R0, R0, R1, from any machine: 0 + 0x08000000 sets C, 0x7FFFFFFF + 1 leaves V clear. |
| AluLaws.ReverseInPlaceFails | arm_data_processing.c:343-353 | A failing input of RSCS R0, R0, R1, from any machine: 0 - 0 with C clear borrows and leaves C set. |
| InPlaceFlags.CarryInPlace | arm_data_processing.c:293-313 | The carry test applied to the sum in place of a is the carry of a + b + x if and only if the operands are outside stated ranges of a + b + x and a + 2b + x. |
| InPlaceFlags.BorrowInPlace | arm_data_processing.c:253-333 | The borrow test applied to the difference is the borrow of a - b - x if and only if a and twice b + x are in a stated order. |
| InPlaceFlags.ReversedBorrowInPlace | arm_data_processing.c:273-353 | The borrow test of the reversed forms in place fails at two zeros with a borrow and nowhere else. |
| InPlaceFlags.OverflowInPlace | arm_data_processing.c:294-314 | Exactly when the overflow test applied to the sum is the overflow of a + b + x; without a carry in it misses every overflow. |
| InPlaceFlags.DifferenceOverflowInPlace | arm_data_processing.c:254-334 | Exactly when the overflow test applied to the difference is the overflow of a - b - x. |
| InPlaceFlags.ReversedOverflowInPlace | arm_data_processing.c:274-354 | Exactly when the overflow test of the reversed forms in place is the overflow of b - a - x; without a borrow it always is. |
| AluLaws.TestFlags | arm_data_processing.c:362-414 | TST, TEQ, CMP and CMN change the flags and nothing else, whatever their S bit. V is clear after TST and TEQ and signed overflow after CMP and CMN; C after CMP is "no borrow", and after CMN the carry exactly outside the misjudged range. |
| Comparison.CompareFlags | arm_data_processing.c:390-400 | After CMP: N is the sign of the wrapped difference, Z equality, C "no borrow", V signed overflow. |
| Comparison.CompareDecides | arm_instruction.c:115-207 | For all operands and in every mode, a condition after CMP holds if and only if the operands are in the order it names: EQ, NE, HS, LO, HI, LS unsigned, GE, LT, GT, LE signed; MI, PL by the wrapped difference, VS, VC by its signed overflow. |
| Programs.CompareThenBranch | arm_instruction.c:32-112 | Two whole steps, a CMP and a branch with any condition after it, lead to the branch's target if and only if the operands are in the order the condition names, and past it otherwise. |
| Programs.CompareStep | arm_instruction.c:32-103 | A step that executes CMP changes the flags and R15 only. |
| Conditions.ConditionField | arm_instruction.c:122-124 | The condition of an instruction is decided by its bits 31 to 28 alone. |
| Conditions.FlagConditions | arm_instruction.c:115-158 | EQ, CS, MI and VS hold if and only if bits 30, 29, 31 and 28 of the CPSR are set, for every CPSR. |
| Conditions.DerivedConditions | arm_instruction.c:130-203 | For every CPSR: NE, CC, PL, VC and LT are the opposites of EQ, CS, MI, VS and GE; HI is CS and NE, LS is CC or EQ, GE is MI equal to VS, GT is GE and NE, LE is LT or EQ; the last two always hold. |
| Conditions.ResultConditions | arm_data_processing.c:210-212 | After any S-form EQ and MI tell of the result left in Rd. |
| Conditions.AdditionConditions | arm_data_processing.c:290-317 | After ADDS and ADCS CS and VS tell of the carry and the signed overflow, exactly outside the misjudged operands. |
| Conditions.SubtractionConditions | arm_data_processing.c:250-357 | The same after the four subtractions. |
| Conditions.LogicalConditions | arm_data_processing.c:210-216 | After a logical S-form CS tells of the shifter's carry-out and VC holds. |
| Conditions.AdditionDecides | arm_instruction.c:176-192 | After ADDS with Rd different from Rn, GE, LT, GT and LE compare the exact signed sum with zero, overflowing or not. |
| MultiLimb.MultiLimbExactly | arm_data_processing.c:242-338 | For every number of limbs, each in place or not, ADDS and ADCS or SUBS and SBCS yield the sum or difference modulo 2^(32n) with the right final carry if and only if no limb is one whose carry is misjudged. |
| MultiLimb.ComputeLimb | arm_data_processing.c:242-338 | One limb, in place or not, yields its schoolbook digit, and the true carry or borrow unless misjudged. |
| MultiLimb.SchoolbookComputes | arm_data_processing.h:62-81 | The schoolbook digits are the exact sum or difference up to the carry or borrow out, for any length. |
| MultiLimb.OutIsOverflow | arm_data_processing.h:55-81 | The schoolbook carry out says that the sum is too large, the borrow out that the minuend is smaller. |
| MultiLimb.ChainMatches | arm_data_processing.c:302-338 | A chain agrees with the schoolbook method on digits and final flag if and only if no limb is misjudged: one wrong carry always shows. |
| MultiLimb.MisjudgedMeaning | arm_data_processing.c:505-524 | Whether a limb is misjudged is decided by its operands and the order of the numbers below it. |
| MultiLimb.ChainOfAnyNumbers | arm_data_processing.c:242-338 | From any machine, any two numbers of one length are the operands of a chain of those instructions, with any choice of the limbs that work in place, so the theorem speaks of all of them. |
| MultiLimb.SubtractionFails | arm_data_processing.c:510-513 | A failing input, from any machine: 0 minus 0xFFFFFFFF_00000001. |
| MultiLimb.AdditionFails | arm_data_processing.c:515-519 | A failing input, from any machine: 1 plus 0x0FFFFFFF with high limbs 0. |
| MultiLimb.InPlaceFails | arm_data_processing.c:243-256 | A failing input with Rd = Rn, from any machine: 1 minus 1. |
| MultiLimb.ResultAndCarry | arm_data_processing.c:242-258 | An S-form leaves its result in Rd, and the carry of its operands with Rn read again. |
| LoadStore.ArmLoadStore | arm_load_store.c:29-253 | Every single transfer leaves exactly the specified machine and result, refused and unimplemented forms included. |
| LoadStore.ComputeOffset | arm_load_store.c:64-111 | The immediate and the five scaled-register offsets; media instructions have none. |
| OperandForms.ImmediateOffset | arm_load_store.c:106-111 | An encoded twelve-bit offset. |
| OperandForms.RegisterOffset | arm_load_store.c:64-105 | An encoded scaled register offset: which bits give the register, the kind and the amount. |
| OperandForms.HalfImmediateOffset | arm_load_store.c:185-191 | The eight-bit offset of an encoded half-word transfer, from its two nibbles. |
| OperandForms.HalfRegisterOffset | arm_load_store.c:192-201 | The register offset of an encoded half-word transfer. |
| LoadStore.ScaleOffset | arm_load_store.c:81-105 | The shifts of the source compute the scaled offset that ScaledOffsets and ArithmeticOffsetZero describe. |
| SingleTransfers.ScaledOffsets | arm_load_store.c:81-102 | A scaled offset is that of as many one-bit steps: LSL, LSR with 0 meaning 32, ASR by 1 to 31, ROR, and the rotate with extend for ROR #0. |
| SingleTransfers.ArithmeticOffsetZero | arm_load_store.c:88-90 | ASR #0 gives all ones for a negative Rm and leaves any other alone: it is the ASR by 32 that it encodes if and only if Rm is zero or negative. |
| LoadStore.Access | arm_load_store.c:122-153 | One access of one, two or four bytes; a refused one changes neither Rd nor memory. |
| LoadStore.TransferSingle | arm_load_store.c:113-164 | Base update before or after the access, abort in between, and the T forms refused after the access. |
| SingleTransfers.CompletesExactly | arm_load_store.c:113-164 | A transfer completes if and only if it is no T form and its address is accepted; an abort leaves everything but a pre-indexed base alone. |
| SingleTransfers.StoreSingle | arm_load_store.c:141-164 | A completed store puts the low bytes of Rd at its address, changes no disjoint access, and of the register file only a base that moves. |
| SingleTransfers.LoadSingle | arm_load_store.c:122-164 | A completed load puts the zero-extended value in Rd and moves the base as a store does; memory, the PSRs and every other register in any bank stay. |
| SingleTransfers.SingleRoundTrip | arm_load_store.c:113-164 | A load of the width and address of an earlier store returns the low bytes stored, whatever the addressing forms, modes and registers in between. |
| TransferForms.AddressByBits | arm_load_store.c:113-120 | The address of a transfer by bits 24 and 23, as a number modulo 2^32. |
| TransferForms.BaseByBits | arm_load_store.c:113-164 | The base afterwards by bits 24, 23 and 21. |
| TransferForms.LoadByte | arm_load_store.c:122-131 | LDRB, by bit 22 of the word: it completes at every address up to the size, aligned or not, and loads the one cell there. |
| TransferForms.StoreByte | arm_load_store.c:141-153 | STRB changes the one cell at its address to the lowest byte of Rd. |
| TransferForms.MoveWord | arm_load_store.c:132-153 | LDR and STR complete exactly at the multiples of four in range and move four bytes. |
| TransferForms.MoveHalf | arm_load_store.c:212-246 | LDRH and STRH complete exactly at the even addresses in range and move two bytes. |
| TransferForms.TranslatedForms | arm_load_store.c:155-158 | The T forms make their access at the base and only then return 2. |
| TransferForms.OtherForms | arm_load_store.c:166-249 | Media words and words that are no transfer are refused without any change, signed transfers after the base writeback. |
| TransferForms.DispatchedHalves | arm_instruction.c:40-47 | Every half-word transfer that is dispatched moves a half-word, unless its condition is the unconditional one. |
| LoadStore.ArmLoadStoreMultiple | arm_load_store.c:255-332 | LDM and STM leave exactly the specified machine and result. |
| LoadStore.TransferList | arm_load_store.c:281-320 | The register-list loops perform the transfers before the first refused address, in list order, with the running address. |
| LoadStore.LoadNext | arm_load_store.c:283-305 | One loading round; a loaded R15 has bit 0 cleared. |
| LoadStore.StoreNext | arm_load_store.c:309-318 | One storing round. |
| LoadStore.WritebackAddress | arm_load_store.c:325-329 | Undoing the extra step of the pre-indexed modes writes back the base moved by four bytes a transfer. |
| BlockTransfers.ListedBelowIsSorted | arm_load_store.c:283-284 | The loop visits exactly the registers of the list, once each, in ascending order. |
| BlockTransfers.AddressesAreConsecutive | arm_load_store.c:276-290 | In each of the four modes the running address visits the consecutive words of section A5.4 of the ARM Architecture Reference Manual, the downward modes from the top. |
| BlockTransfers.CompletedTransfer | arm_load_store.c:276-331 | A completed transfer touches as many words as the list has bits, those of the manual, and writeback moves the base by four times their number. |
| BlockTransfers.StoreMultiple | arm_load_store.c:307-329 | STM stores the listed registers up to the first refused address, changes no other byte and no register but a written-back base, and aborts if and only if an address is refused. |
| BlockTransfers.LoadMultiple | arm_load_store.c:281-329 | LDM loads the listed registers up to the first refused address, changes no other register in any bank, and an abort leaves the base without writeback. |
| BlockTransfers.LoadedPc | arm_load_store.c:296-305 | LDM leaves in R15 the word of its last transfer with bit 0 cleared, bit by bit. |
| TransferForms.BlockWithSRefused | arm_load_store.c:280-323 | LDM and STM with bit 22 set are refused without any change. |
| BlockTransfers.CompletesExactly | arm_load_store.c:276-331 | An LDM or STM completes if and only if its list is empty or the words the manual gives it are aligned and lie in the memory. |
| BlockRoundTrips.StoreThenLoadRestores | arm_load_store.c:276-320 | STM then LDM with the same mode, base and list but R15: the LDM completes and brings back every stored register but a base it writes back, whatever happened to the registers in between. |
| BlockRoundTrips.PushPopReverses | arm_load_store.c:283-316 | STMDB then LDMIA from where it ended: each register gets the value of the one at the opposite place of the list. |
| BlockRoundTrips.PushPopRestoresExactly | arm_load_store.c:283-316 | So a push and a pop restore the registers if and only if the pushed values read the same from both ends of the list. |
| BlockRoundTrips.PushPopExchanges | arm_load_store.c:283-316 | A failing input: R0 and R1 pushed with different values come back exchanged, from any machine with room on its stack. |
| BlockRoundTrips.StackPointerPushPop | arm_load_store.c:260-279 | The words 0xE92Dlist and 0xE8BDlist, for any list without R13 and R15 and any aligned R13 with room below it, are such a push and pop. |
| BlockRoundTrips.LoadCompletes | arm_load_store.c:281-305 | An LDM all of whose words were stored by a completed STM completes. |
| StackDiscipline.PushWord | arm_load_store.c:34-62 | The word 0xE52nd004, for any different Rn and Rd but R15, decodes as `STR Rd, [Rn, #-4]!`. |
| StackDiscipline.PopWord | arm_load_store.c:34-62 | The word 0xE49nd004, for any different Rn and Rd but R15, decodes as `LDR Rd, [Rn], #4`. |
| StackDiscipline.PushOne | arm_load_store.c:113-153 | One push moves Rn down a word and stores Rd there. |
| StackDiscipline.PopOne | arm_load_store.c:132-164 | One pop loads the word at Rn and moves Rn up. |
| StackDiscipline.RoomExactly | memory.c:91-94 | The words of a non-empty stack are all accepted if and only if its base is aligned, not beyond the end of the memory and far enough from its beginning. |
| StackDiscipline.StackIsContiguous | arm_load_store.c:113-119 | A stack of accepted words never wraps round the address space. |
| StackDiscipline.LastInFirstOut | arm_load_store.c:113-163 | After any number of pushes as many pops return the values last in first out, bring Rn back and leave the memory alone. |
| StackDiscipline.PushesStayOnStack | memory.c:136-150 | The pushes change no byte outside the words of the stack. |
| StackProgram.ProgramRuns | arm_instruction.c:105-112 | A program in memory of n pushes of any registers and n pops, fetched and executed step by step beside its stack, for every n: it ends behind its code with Rn back at its base, each register popped holding what was pushed at the opposite place; the PSRs, the other registers and all memory beside the stack are as they were. |
| StackProgram.ReversePopsRestore | arm_instruction.c:105-112 | If it pops in the reverse order, every register but R15 has its value back. |
| BranchOther.ArmBranch | arm_branch_other.c:30-67 | B and BL move R15 by four times the signed 24-bit field; BL leaves the next address in R14. |
| BranchOther.ExtendImmediate | arm_branch_other.c:54-61 | The or and the shift give, read as a signed word, four times the sign-extended field. |
| BranchOther.ArmMiscellaneous | arm_branch_other.c:79-109 | MRS copies the CPSR or the SPSR to Rd; everything else is refused. |
| StepLaws.MrsStep | arm_branch_other.c:79-104 | The words 0xE10Fd000 and 0xE14Fd000 leave in Rd the CPSR or the SPSR of the current mode, zero where there is none; everything else but R15 stays. |
| StepLaws.OtherMiscellaneous | arm_branch_other.c:85-106 | Every other word that reaches the MRS handler is refused without any change. |
| BranchReach.EncodingExact | arm_branch_other.c:38-64 | A field reaches a target if and only if it is the one that encodes it: every word-aligned target within 32 MB has exactly one encoding, no other target has any. |
| BranchReach.BranchStep | arm_branch_other.c:45-64 | A whole step that executes B or BL at address A leaves R15 at A + 8 plus the offset and R14 at A + 4 for BL; memory, the PSRs and every other register in any bank stay. |
| StepLaws.BranchWordStep | arm_branch_other.c:38-64 | The words 0xEA...... and 0xEB...... at address A: R15 at A + 8 plus four times their signed 24 bits, R14 at A + 4 for the second. |
| Instruction.DispatchInstruction | arm_instruction.c:38-101 | The chain of tests runs the handler of the instruction's class in the encoding table of section A3.1 of the ARM Architecture Reference Manual, or none. |
| Instruction.ArmExecuteInstruction | arm_instruction.c:32-103 | Fetch, condition and dispatch; a refused fetch does not stop the execution of the arbitrary word. |
| StepLaws.RefusedFetch | arm_instruction.c:32-103 | After a refused fetch the undefined word runs like any other; if its condition fails or no handler takes it the step returns -1. |
| Programs.EncodedRuns | arm_instruction.c:38-101 | The handler that an unconditional word runs, by its bits 27 to 20 and 7 to 4 as numbers. |
| Instruction.ArmStep | arm_instruction.c:105-112 | A step is the execution of one instruction: the exception its result raises changes nothing. |
| Instruction.StepOutcome | arm_instruction.c:105-112 | No instruction returns the number of a reset, so a step never resets the machine. |
| Instruction.IgnoredSteps | arm_instruction.c:32-103 | Coprocessor instructions and media instructions are stepped over without an error: nothing but R15 changes. |
| StatusWrites.StatusWordsAreTests | arm_instruction.c:75-99 | Every word of the MSR encodings, BX, BLX by a register and CLZ among them, is dispatched to the data-processing handler as TEQ or CMN. |
| StatusWrites.StatusStep | arm_instruction.c:32-103 | So its step changes nothing but R15 and the flags, or is refused: no mode is entered and no branch is taken. |
| StatusWrites.BranchExchangeIsTest | arm_data_processing.c:375-386 | BX R14 and MSR CPSR_c, R0 are such words. |
| Instruction.ExitsExactly | arm_branch_other.c:69-77 | A step ends the simulation if and only if it executes SWI 0x123456 with its condition holding; the machine has then only moved on. |
| StepLaws.SwiStep | arm_branch_other.c:69-77 | An executed SWI only moves on, and ends the simulation or returns 3. |
| Programs.PushPopRun | arm_instruction.c:53-55 | The words 0xE52nd004 and 0xE49nd004 run as single transfers. |
| Programs.BlocksRun | arm_instruction.c:59-61 | The words 0xE92Dlist and 0xE8BDlist run as block transfers. |
| Programs.ProcessingRuns | arm_instruction.c:97-99 | The word of an unconditional S-form with a register operand runs as a data-processing instruction, for each of the sixteen opcodes. |
| Confinement.UserRunsAreConfined | arm_instruction.c:32-112 | From any user-mode state, whatever the program, the number of steps and their results, the mode, CPSR bits 27 to 0, all banked registers and all SPSRs stay as they are. |
| Confinement.StepKeeps | arm_instruction.c:32-103 | One step, in any mode, leaves the SPSRs alone and changes of the CPSR only the flags, unless it copies the SPSR there. |
| Confinement.SpsrsAreNeverWritten | registers.c:240-251 | No run in any mode changes an SPSR. |
| Confinement.RunsKeepReservedClear | registers.c:230-236 | The reserved PSR bits stay clear over every run. |
| Confinement.RunsFromReset | arm_instruction.c:105-112 | After a reset, over any run, CPSR bits 27 to 0 are the reset value or all zero. |
| Confinement.ModesFromReset | registers.c:230-236 | So a machine that only steps after its reset is in supervisor mode or in the invalid mode 0, and never reaches user mode. |
| Confinement.ExceptionReturn | arm_data_processing.c:205-208 | An S-form of any writing opcode with Rd = R15, in a mode with an SPSR, puts its result in R15 and makes the CPSR equal the SPSR bit for bit. |

## Left out

- The gdb server, the scanner, sockets, interrupts sent from outside, tracing, debugging output, the cycle counter, `arm_print_state` and the simulator's main program: input and output around the core.
- Allocation failures and the destroy functions: a model starts from an object that was created.
- Register numbers above 15, which no instruction field holds.
- Memory sizes of 2^31 bytes and more, which the `int` field of memory.c cannot hold.
- What lies behind the one byte past the end that the bounds tests accept: it is modelled as a cell of its own, `data[size]`, initially 0, where C reaches foreign memory.
- Shift counts of 32 in `asr` and `ror` (util.c:27, 31), undefined in C: taken modulo 32, as the usual hardware does. They arise in the load offset ASR #0 (arm_load_store.c:89) and in rotations by 0 (arm_data_processing.c:65).
- `arm_data_processing_immediate_msr` and `arm_coprocessor_load_store`: never dispatched, and they only return UNDEFINED_INSTRUCTION.
- `read_usr_register` (a main-array read) and the SPSR write of arm_core.c, which no instruction calls; `write_spsr` itself is modelled with the register file.
- Cases the source marks UNPREDICTABLE are modelled as the code behaves, but no theorem compares them with the manual.
- Timing: a run is a sequence of steps.
