# psxy in Dafny

A model of the processor, the memory bus and the GPU command port of the psxy PlayStation emulator, with proofs that
the emulator's encodings do what the hardware they stand for does. The model follows the ordinary build
(`PSXY_SINGLE_STEP_TEST_MODE` undefined). `dafny verify dfyconfig.toml` checks the whole project.

## How it is layered

1. **In place.** The structs that the C code updates are classes with the same fields: `Processor.Cpu`,
   `Processor.Cop0Unit`, `BusTables.Bus`, `Emulator.Psx`, `GpuDevice.GpuUnit`. Their methods follow the C functions
   statement by statement, with C's bit operators (`Bits`), and each is proved to change the state as layer 2 says.
   They are steps towards `Emulator.Psx.Run`; the table lists only those that say more than their link to layer 2.
2. **As values.** `Memory`, `Cop0`, `Isa`, `Pipeline` and `GpuPort` say arithmetically what one access, one
   instruction, one step and one port access do.
3. **As the manual has it.** `Core` is the processor with two program counters, an explicit delay slot and loads that
   arrive late or at once; `GpuTransfers` and `GpuStream` give rectangle transfers and command streams in closed form.
   Refinement theorems over runs of any length connect layer 2 to these, and the exception, unaligned-access and flag
   theorems are proved there.
4. **From the words.** `InstructionSet` and `SystemInstructions` say for every instruction word, put together from its
   fields, what a step does to registers, memory and program counter; `MemoryMap` and `GpuCommands` do the same for
   addresses and for the words sent to the GPU. What they say of a step does not refer to how layer 2 decodes a word
   or gives it meaning: numbers are two's complement (`Encoding`) and logic is binary digits (`Digits`).
5. **Together.** `Ports` puts the GPU behind the bus, beside arbitrary other devices, and `Programs` follows a running
   program that drives it: every word sent, every word loaded, and the rectangle that comes back.

Machine words are bounded integers, and wrap-around is written out. Devices are any deterministic functions of their
own state (`Memory.Io`), so the processor theorems hold whatever is connected. The four buffers of `struct Bus` are one
store, in the order of their declaration (src/memory/bus.h:55-58), and a page pointer is a place in it.

## What the proofs found

- An upload counts pixels in a counter initialised in words (src/devices/gpu/gp0.c:57, 73), so it ends about halfway.
  The evident intent was ceil(N/2) words. `GpuStream.UploadIsWholeIff` says exactly when it stores its rectangle, and
  `GpuStream.RestIsCommands` what becomes of the words behind its end: they are parsed as commands.
- A download of an empty rectangle underflows `words_left` (src/devices/gpu/gp0.c:27): `GpuTransfers.EmptyDownload`.
- An interrupt is raised one instruction late with EPC at an instruction that has already run
  (src/cpu/cpu.c:686-699): `Exceptions.InterruptRunsTheInstruction`, and `Witnesses.InterruptRunsAddiu` for a run of two
  instructions. If that instruction faults, the latch is dropped, and the RFE of the handler makes the request pending
  again exactly when it is enabled and unmasked: `Exceptions.LatchedInterruptReturns`. An interrupt that is masked in
  status is latched all the same, because the interrupt line ignores the mask (src/cpu/cop0.c:105-117), and is then
  not raised again until the line next changes: `Witnesses.InterruptReturns`. Synchronous exceptions are precise.
- An exception in the slot of a branch that itself sits in the slot of a taken branch records an EPC that misses the
  branch (src/cpu/cop0.c:39): the condition is part of `Exceptions.RestartAddress`, and
  `Witnesses.RestartMissesBranch` is a run from reset.
- The mode stack survives two open exceptions, not three: `Cop0.ModeStackNesting`, `ModeStackRuns.RunNesting`,
  and `NestingWitness.ThreeOpenLoseTheMode` for a program from reset.
- INT32_MIN / −1 is the only signed division by a non-zero divisor that is not C's: `InstructionSet.Div`.
- The display-mode fields of the status overlap, and the command clears bit 23, which is none of them
  (src/devices/gpu/gp1.c:43-57): `GpuCommands.ControlCommand`.
- The scratchpad page is longer than its buffer (src/memory/bus.h:16-18): `Memory.BiosWritable` says which stores run
  over, and `Witnesses.OverrunReachesBios` is one.

## Model

| member | source | states |
|---|---|---|
| Core.BranchDelayRefinement | src/cpu/cpu.c:692-715 | For every program and a run of any length, with the interrupt line changing at any moment, the fields `pc`, `next_pc`, `branch_state`, `branch_target` simulate the machine with two program counters (pc, npc) → (npc, taken ? target : npc + 4), with branches in delay slots, exceptions and interrupts included |
| Core.StepsSimulate | src/cpu/cpu.c:721-786 | The same for `cpu_run` of n cycles |
| Core.StepSimulates | src/cpu/cpu.c:721-786 | One emulator step under the abstraction is one step of the two-counter machine, whatever the instruction |
| Core.LeftoversUnobservable | src/cpu/cpu.c:150-154 | Two encodings that differ only in stale branch targets and stale load values can never be told apart by running them |
| Core.LoadDelayRefinement | src/cpu/cpu.c:156-199 | Over any such run in which no instruction reads the register a load is in flight to, the emulator simulates a machine whose loads write at once, under “register i is `reg_read_with_load(i)`” |
| Core.HazardFreeStep | src/cpu/cpu.c:674-715 | One step of that simulation: every handler, double loads, a write cancelling a load, MFC0, and exceptions |
| Core.LoadArrivesOneLate | tests/test_cpu.c:13-45 | A loaded value misses the next instruction and reaches the one after, unless the next one writes the register (its write stays) or loads it again (the first load is dropped) |
| Core.HazardMatters | tests/test_cpu.c:23-24 | The hazard condition is needed: an ADDIU right behind the load of its operand gives the same state on both machines if and only if the load brings the value already there |
| Core.LandedCompletes | src/cpu/cpu.c:692-715 | Finishing an instruction commutes with landing the pending load, for every effect an instruction can have |
| Isa.OnlyOperandsMatter | src/cpu/cpu.c:156-161 | For every handler, the effect of an instruction does not depend on a register outside its operand set |
| Pipeline.StepKeepsBoundary | src/cpu/cpu.c:674-715 | Every step keeps r[0] = 0, next_pc = pc + 4, branch_state in {0, 1, 3} and next_exc_code in {EXC_NONE, EXC_INT} |
| Pipeline.RunsCompose | src/cpu/cpu.c:721-786 | `cpu_run(m + n)` is `cpu_run(m)` followed by `cpu_run(n)` |
| Pipeline.StepsAreTicks | src/cpu/cpu.c:721-786 | `cpu_run` of n cycles is a history of n steps with a quiet interrupt line |
| Pipeline.ExecutedShape | src/cpu/cpu.c:765-781 | No instruction touches pc, next_pc, the current delay slot or register 0, and the exception code it latches is a 6-bit code |
| Pipeline.CodesAreKnown | src/cpu/cpu.c:83-647 | The only codes any handler can raise are ADEL, ADES, SYS, BP, RI and OV |
| Exceptions.PreciseException | src/cpu/cpu.c:692-699 | A step whose pc is misaligned or whose instruction faults leaves memory, devices, hi, lo and all registers as they were except for the load already in flight, and enters the handler with its own code, whether or not an interrupt was latched; the latch is dropped |
| Exceptions.InterruptRunsTheInstruction | src/cpu/cpu.c:686-715 | An interrupt latched at the end of a step is taken after the next instruction, with EPC at that instruction (or the branch before it): it is taken if and only if that instruction does not fault, and then the instruction has run to completion |
| Exceptions.LatchedInterruptReturns | src/cpu/cop0.c:52-97 | When the instruction behind a latched interrupt faults, the RFE of its handler makes the interrupt pending again if and only if it is enabled and not masked in status |
| Exceptions.RfeAfterRaise | src/cpu/cop0.c:26-97 | An RFE right behind any exception recomputes the request that stood before it |
| Exceptions.RestartAddress | src/cpu/cop0.c:36-46 | On every run, with the interrupt line changing at any moment, an exception in a delay slot finds that the last step ran the branch; TAR is its target, BD is set, BT is set iff it was taken, and EPC is its address if and only if that branch was not itself diverted by a taken branch before it |
| Exceptions.RestartOutsideSlot | src/cpu/cop0.c:44-46 | Outside a delay slot EPC is the instruction itself and BD is clear |
| Exceptions.EntersRecords | src/cpu/cop0.c:26-64 | A step that enters the handler records the fault of its instruction in preference to a latched interrupt |
| Exceptions.SlotHasBranch | src/cpu/cpu.c:701-712 | Only a branch or linking branch that ran to its end leaves a delay slot behind |
| Exceptions.CauseBits | src/cpu/cop0.c:29-43 | After an exception BD, BT and the code read back from the cause register are those of the exception, and the interrupt bits are unchanged |
| Exceptions.FlagsAgreeAlways | src/cpu/cop0.c:9-24 | Over any history of steps and interrupt-line changes, `cache_isolated` is status bit 16, and `pending_interrupts` implies status bit 0 and some cause IP bit |
| Exceptions.FlagsFromReset | src/cpu/cop0.c:99-103 | The same in every state reachable from reset |
| Exceptions.IsolationProtectsMemory | src/cpu/cpu.c:508-605 | Over any stretch of a run whose steps all begin with status bit 16 set, memory does not change |
| Exceptions.IsolatedStore | src/cpu/cpu.c:508-605 | With bit 16 set, SB, SH, SW, SWL and SWR change neither memory nor a device nor a register |
| Cop0.ModeStackNesting | src/cpu/cop0.c:52-54 | After any well-nested history of exceptions and RFEs bits 31:6 are unchanged; bits 1:0 are restored if and only if at most two exceptions were open at once or they were zero; at depth one bits 3:0 are restored; from depth three on all six bits are zero |
| Cop0.NestedShape | src/cpu/cop0.c:93-97 | Where the three pairs of the mode stack are at every point inside such a history |
| ModeStackRuns.StatusOfRun | src/cpu/cop0.c:52-97 | Over any run without MTC0 to the status register, with the interrupt line changing at any moment, status is what the exceptions and RFEs of the run make of it |
| ModeStackRuns.RunNesting | src/cpu/cop0.c:52-97 | For such a run whose exceptions and RFEs are well nested, the nesting theorem holds of the status register at its end |
| Cop0.RaiseKeepsFlags | src/cpu/cop0.c:52-64 | An exception keeps the flag invariant and the isolation flag |
| Cop0.RfeKeepsFlags | src/cpu/cop0.c:93-97 | RFE keeps the flag invariant although it does not recompute the isolation flag |
| Cop0.WriteKeepsFlags | src/cpu/cop0.c:67-76 | MTC0 keeps the flag invariant |
| Cop0.UpdateKeepsFlags | src/cpu/cop0.c:105-117 | A change of the interrupt line keeps the flag invariant |
| Cop0.RequestedNeedsInterruptBit | src/cpu/cop0.c:16-17 | The masked conjunction of cause and status is non-zero only if cause has an interrupt bit |
| Cop0.RequestFields | src/cpu/cop0.c:9-18 | A request depends on the interrupt bits of cause and status and on the enable bit alone |
| Arithmetic.SignedProduct | src/cpu/cpu.c:281-286 | The product of two signed words, split into hi and lo, reads back as one signed 64-bit number (of the instruction: `InstructionSet.Mult`) |
| Arithmetic.UnsignedProduct | src/cpu/cpu.c:288-293 | MULTU: hi·2^32 + lo is exactly the unsigned product |
| Arithmetic.SignedDivision | src/cpu/cpu.c:295-309 | DIV by a non-zero divisor is the truncating division of section 6.5.5 of ISO/IEC 9899:2018 if and only if the operands are not INT32_MIN and −1; the identity holds modulo 2^32 always |
| Arithmetic.UnsignedDivision | src/cpu/cpu.c:311-322 | DIVU by a non-zero divisor: rs = lo·rt + hi with hi < rt |
| Arithmetic.TruncatedDivision | src/cpu/cpu.c:303-308 | Truncating division meets its specification for all integers |
| InstructionSet.Mult | src/cpu/cpu.c:281-286 | From the word of a MULT: after the step hi and lo, read as one signed 64-bit number, are the product of the two signed registers; nothing else changes |
| InstructionSet.Multu | src/cpu/cpu.c:288-293 | From the word of a MULTU: hi·2^32 + lo is the product of the two registers |
| InstructionSet.Div | src/cpu/cpu.c:295-309 | From the word of a DIV: lo and hi are the truncated quotient of rs by rt and its remainder if and only if rt is not zero and the operands are not INT32_MIN and −1; the results in those two cases |
| InstructionSet.Divu | src/cpu/cpu.c:311-322 | From the word of a DIVU: rs = lo·rt + hi with hi < rt; for a zero divisor hi is the dividend and lo all ones |
| InstructionSet.MoveHiLo | src/cpu/cpu.c:261-279 | MFHI, MTHI, MFLO and MTLO move what their names say |
| InstructionSet.AddSubtract | src/cpu/cpu.c:223-224 | ADDU and SUBU: sum and difference, rs minus rt, modulo 2^32 |
| InstructionSet.AddImmediate | src/cpu/cpu.c:232 | ADDIU adds the sign-extended operand modulo 2^32 |
| InstructionSet.SetOnLess | src/cpu/cpu.c:229-230 | SLT compares the registers as signed numbers, SLTU as words |
| InstructionSet.SetOnLessImmediate | src/cpu/cpu.c:236-237 | SLTI compares signed numbers; SLTIU compares words after extending the sign of its operand |
| InstructionSet.Logic | src/cpu/cpu.c:225-228 | Every binary digit of the result of AND, OR, XOR and NOR is that function of the digits of the operands |
| InstructionSet.LogicImmediate | src/cpu/cpu.c:233-235 | The same for ANDI, ORI and XORI, whose operand is not sign-extended |
| InstructionSet.LoadUpper | src/cpu/cpu.c:238 | LUI puts its operand into the upper half and zeros into the lower |
| InstructionSet.Shift | src/cpu/cpu.c:215-217 | SLL is the product with a power of two modulo 2^32; SRL and SRA are the quotients of the word and of the signed number, rounded down |
| InstructionSet.ShiftVariable | src/cpu/cpu.c:218-220 | The same for SLLV, SRLV and SRAV by the low five bits of rs |
| InstructionSet.AddSubtractTrapping | src/cpu/cpu.c:324-348 | From the word of an ADD or SUB: when the sum or difference of the signed registers is a signed 32-bit number the register holds it after the step; otherwise, and only then, the step traps with code OV and writes nothing |
| InstructionSet.AddImmediateTrapping | src/cpu/cpu.c:368-379 | The same for ADDI with its sign-extended operand |
| InstructionSet.BranchOnEqual | src/cpu/cpu.c:123-130 | From the word of a BEQ or BNE: taken if and only if the registers are equal, or are not; two steps on control is at the delay slot plus four times the signed offset, or behind the slot; if the slot traps the coprocessor holds branch, target and direction |
| InstructionSet.BranchOnZero | src/cpu/cpu.c:132-138 | The same for BLEZ and BGTZ, which compare the signed register with zero |
| InstructionSet.BranchOnSign | src/cpu/cpu.c:635-647 | The same for the branches under opcode 1: the low bit of the rt field selects the comparison, and 0x10 and 0x11 save the address behind the slot in register 31, taken or not |
| InstructionSet.Jump | src/cpu/cpu.c:350-365 | J and JAL go to a word in the segment of the delay slot, and JAL saves the address behind the slot |
| InstructionSet.JumpRegister | src/cpu/cpu.c:248-259 | JR and JALR go to the register as it was before JALR saves the address behind the slot |
| InstructionSet.SpecialOperands | src/cpu/cpu.c:83-98 | Which registers each instruction under opcode 0 reads, so what a load hazard is |
| InstructionSet.OtherOperands | src/cpu/cpu.c:106-148 | Which registers each other instruction reads; stores depend on isolation and alignment |
| SystemInstructions.LoadByte | src/cpu/cpu.c:381-397 | From the word of an LB or LBU: the byte at rs plus the signed offset is in flight to rt, sign-extended or not |
| SystemInstructions.LoadHalf | src/cpu/cpu.c:399-421 | The same for LH and LHU, and the address trap at an odd address |
| SystemInstructions.LoadWord | src/cpu/cpu.c:423-432 | The same for LW, and the address trap at a misaligned address |
| SystemInstructions.Store | src/cpu/cpu.c:508-549 | From the word of an SB, SH or SW: nothing under isolation, the address trap when misaligned, else the low bytes of rt are stored at rs plus the signed offset |
| SystemInstructions.UnalignedHalves | src/cpu/cpu.c:434-605 | The words of LWL, LWR, SWL and SWR are the halves that the theorems on unaligned pairs speak of |
| SystemInstructions.MoveFromCop0 | src/cpu/cop0.c:78-91 | From the word of an MFC0: which coprocessor register is in flight to rt under each number |
| SystemInstructions.MoveToCop0 | src/cpu/cop0.c:67-76 | From the word of an MTC0: the six registers that can be written; with the status the isolation flag is its bit 16, and the interrupt flag is set if and only if bit 0 is and some bit from 8 to 15 is set in both status and cause |
| SystemInstructions.ReturnFromException | src/cpu/cop0.c:93-97 | From the word of an RFE: bits 5:2 of the status move to bits 3:0, every other bit stays, and the interrupt flag is worked out anew |
| SystemInstructions.HandlerEntry | src/cpu/cop0.c:26-65 | Every bit of cause and status after an exception, EPC, TAR, bad address and both flags |
| SystemInstructions.LineDigit | src/cpu/cop0.c:105-117 | The interrupt line sets and clears bit 15 of the cause and no other; the flag follows the enable bit |
| SystemInstructions.SystemCall | src/cpu/cpu.c:221-222 | SYSCALL and BREAK trap with codes 8 and 9 |
| SystemInstructions.ReservedFunct | src/cpu/cpu.c:54-81 | Every function number that no instruction has traps with code 10 |
| SystemInstructions.ReservedOpcode | src/cpu/cpu.c:23-52 | So does every opcode that no instruction has, all of coprocessor 2, and the other operations of coprocessor 0 |
| Encoding.SlotResumes | src/cpu/cpu.c:692-712 | From the delay slot behind a branch, either control goes where the branch says or the step traps and EPC, TAR, BD and BT record the branch |
| Encoding.TwosComplementIsUnique | src/cpu/cpu.c:18-19 | The signed operands of these statements are the only numbers in range that are congruent to the fields |
| MemoryMap.ByteOrDevice | src/memory/bus.c:13-41 | Which addresses, by their low 29 bits, are answered from memory and which by the devices, for reading and for writing |
| MemoryMap.HalfOrDevice | src/memory/bus.c:13-41 | The same for halfwords |
| MemoryMap.WordOrDevice | src/memory/bus.c:13-41 | The same for words |
| MemoryMap.ByteReadsBack | src/memory/bus.h:78-136 | A byte read is the one last written if the two addresses are those of one byte, and is unaffected by the write if not |
| MemoryMap.HalfReadsBack | src/memory/bus.h:90-148 | A halfword written to memory reads back |
| MemoryMap.WordReadsBack | src/memory/bus.h:104-160 | A word written to memory reads back |
| GpuCommands.UploadLies | src/devices/gpu/gp0.c:46-84 | From the words of an upload command: halfword k of the data, any number of data words in, is at row (y + k div w) mod 512 and column (x + k mod w) mod 1024, with x and w from the upper halves of the two parameter words and y from the lower half of the first |
| GpuCommands.UploadSpares | src/devices/gpu/gp0.c:61-74 | An upload changes no cell other than those |
| GpuCommands.UploadStatus | src/devices/gpu/gp0.c:76-84 | Bit 28 of the status is set with the last data word of an upload, no other bit changes, and the upload is active until then |
| GpuCommands.DownloadLies | src/devices/gpu/gp0.c:3-35 | From the words of a download command: halfword k that is read, any number of words in, is the content of the cell the words say |
| GpuCommands.DownloadStatusBits | src/devices/gpu/gp0.c:18-35 | Bits 27 and 25 of the status after every word of a download, the latch, and that nothing else changes |
| GpuCommands.RequestBit | src/devices/gpu/gpu.c:6-19 | When bit 25 of the status is set, for every DMA direction; no other bit changes |
| GpuCommands.OneWordCommand | src/devices/gpu/gp0.c:102-125 | From the word: 0xE1 to 0xE6 set their own attribute to its low 24 bits, 0xE1 also status bits 15:12, and change nothing else; all other commands of one word do nothing |
| GpuCommands.FillIsSwallowed | src/devices/gpu/gp0.c:127-145 | A fill is three words: the two behind it are swallowed whatever they are, and nothing changes |
| GpuCommands.InformationIsLastSent | src/devices/gpu/gp1.c:59-70 | After any stream of words, GP1 command 0x10 with index 2 to 5 makes the read port answer with the parameter of the last command 0xE2 to 0xE5 in it, as long as no download is running |
| GpuCommands.InformationReturns | src/devices/gpu/gp1.c:59-70 | The parameter of such a command comes back right behind it |
| GpuCommands.ControlCommand | src/devices/gpu/gp1.c:72-88 | Every bit of the status after each GP1 command, the DMA direction, the latch and the command buffer; the display-mode fields overlap in bits 20 and 21, and bit 23 is cleared |
| GpuCommands.StatusBits | src/devices/gpu/gpu.c:6-19 | Setting or clearing one of the three transfer bits changes bit 25, 27 or 28 and no other |
| Unaligned.LoadsMakeTheWord | src/cpu/cpu.c:434-506 | LWL at a + 3 and LWR at a, in either order, from whatever the register held, give the little-endian word at a |
| Unaligned.StoresMakeTheWord | src/cpu/cpu.c:551-605 | SWL at a + 3 and SWR at a, in either order, set exactly bytes a to a + 3 |
| Unaligned.WordReadsBack | src/cpu/cpu.c:551-605 | The word so stored reads back, and every other byte is unchanged |
| UnalignedRuns.LoadPair | src/cpu/cpu.c:434-506 | LWL and LWR of one word at pc and npc, in either order, with no interrupt latched and no load in flight into another register that is their base, leave after two steps the word at a in flight to a non-zero rt, memory and all other registers untouched |
| UnalignedRuns.BaseSurvives | src/cpu/cpu.c:201-205 | The second half computes its address from the same base unless a load into another base register was in flight |
| UnalignedRuns.StorePair | src/cpu/cpu.c:551-605 | SWL and SWR at pc and npc, in either order, with no interrupt latched, the cache not isolated, no load in flight into base or rt and the second instruction not among the bytes stored to, write rt after two steps to bytes a to a + 3 and nothing else |
| UnalignedRuns.UnalignedRoundTrip | src/cpu/cpu.c:434-605 | Four instructions in memory from pc on, two storing source and two loading target at the same unaligned address: after four steps of the emulator target receives what source held, from conditions on the first state only |
| UnalignedRuns.EncodedLoadPair | src/cpu/cpu.c:434-506 | LoadPair for the encoded machine |
| UnalignedRuns.EncodedStorePair | src/cpu/cpu.c:551-605 | StorePair for the encoded machine |
| Memory.AccessCoherence | src/memory/bus.h:104-160 | A 32-bit access to memory is the little-endian sequence of its four byte accesses |
| Memory.HalfwordCoherence | src/memory/bus.h:90-148 | A 16-bit access is the sequence of its two byte accesses |
| Memory.AlignedRun | src/memory/bus.h:78-160 | The bytes of an aligned access lie at consecutive places of one region |
| Memory.AlignedStaysInPage | src/memory/bus.h:78-160 | An aligned access never crosses the end of a page |
| AlignedAccesses.RunAccessesAligned | src/cpu/cpu.c:381-672 | Over any history, every access the processor makes is naturally aligned, fetches and data: devices that agree on aligned accesses only cannot be told apart |
| AlignedAccesses.HandlersAccessAligned | src/cpu/cpu.c:381-605 | The same of every handler, the unaligned loads and stores included |
| Memory.SameByte | tests/test_bus.c:63-81 | Two mapped addresses designate the same byte if and only if their low 29 bits agree, in every segment, or one of them runs over the scratchpad buffer into the BIOS byte the other addresses |
| Memory.BiosWritable | src/memory/bus.h:16-26 | A store lands beyond the scratchpad buffer, in the BIOS buffer behind it, if and only if it addresses the last 3 KB of the scratchpad page |
| BusTables.PageLookup | src/memory/bus.h:78-160 | For every address, looking it up by page gives the place plain comparison with the region bounds gives, for reading and for writing |
| BusTables.FourMapsAreTheDecoder | src/memory/bus.c:35-38 | Mapping the four regions one after the other leaves exactly the decoder in both tables; BIOS pages stay unwritable |
| GpuTransfers.CellsAreDistinct | src/devices/gpu/gp0.c:61-74 | k ↦ ((x + k mod w) mod 1024, (y + k div w) mod 512) is injective on every rectangle |
| GpuTransfers.StoredCells | src/devices/gpu/gp0.c:61-84 | The k-th pixel stored is in the k-th cell, and no other cell changes |
| GpuTransfers.UploadRun | src/devices/gpu/gp0.c:46-84 | At every point of an upload the counters and the memory have the closed form: cursor k mod w, k div w, and 2n pixels stored after n words |
| GpuTransfers.UploadEnds | src/devices/gpu/gp0.c:57-83 | The counter set to ceil(N/2) words counts pixels: an upload is active after n data words if and only if n < max(1, ceil(ceil(N/2)/2)), and the status bit is raised when it ends |
| GpuTransfers.DownloadRun | src/devices/gpu/gp0.c:3-39 | At every point of a download of a non-empty rectangle the words returned are the pixels row by row, low half first, zero-padded, and the counters have the closed form |
| GpuTransfers.DownloadStatus | src/devices/gpu/gpu.c:6-19 | During a download words_left = ceil(pixels_left/2); READ_READY clears on the last word; with DMA towards the CPU, DRQ is set if and only if words remain |
| GpuStream.DownloadFromCommand | src/devices/gpu/gp0.c:86-100 | From the 0xC0 command on, READ_READY is set and the transfer active exactly while words remain, and so is DRQ after each word with DMA towards the CPU |
| GpuTransfers.EmptyDownload | src/devices/gpu/gp0.c:27-31 | A download of an empty rectangle returns zeros for 2^32 words: the counter wraps |
| GpuTransfers.UploadStep | src/devices/gpu/gp0.c:76-84 | One data word of an upload, at any point |
| GpuTransfers.DownloadStep | src/devices/gpu/gp0.c:18-39 | One data word of a download, at any point |
| GpuStream.StreamingEqualsBatch | src/devices/gpu/gp0.c:134-145 | Any word stream fed to the port word by word gives the state that splitting the whole stream into commands, payloads and an unfinished command and performing those gives |
| GpuStream.UploadThenRest | src/devices/gpu/gp0.c:134-138 | The same from inside an upload |
| GpuStream.SplitConserves | src/devices/gpu/gp0.c:127-145 | The splitter loses, repeats and reorders nothing |
| GpuStream.FeedUploads | src/devices/gpu/gp0.c:134-138 | Until an upload has its data, every word goes to it and none to the command buffer |
| GpuStream.FeedExecutes | src/devices/gpu/gp0.c:139-144 | The word that completes a command executes it with its parameters |
| GpuStream.FeedConcat | src/devices/gpu/gp0.c:134-145 | Feeding two streams one after the other is feeding their concatenation |
| GpuStream.UploadThenDownload | src/devices/gpu/gp0.c:3-100 | Upload, then download of the same rectangle: pixel k returned is the halfword sent if the upload got that far, else what the memory held before |
| GpuStream.UploadIsWholeIff | src/devices/gpu/gp0.c:57-73 | For every port at rest and every upload command: whatever data are sent, all of them leave every cell of the rectangle with its pixel, if and only if it has at most two pixels |
| GpuStream.LastPixelIsKept | src/devices/gpu/gp0.c:57-73 | With more than two pixels the last cell holds what it held when the upload ends, whatever is sent |
| GpuStream.CellsAfterTransfer | src/devices/gpu/gp0.c:46-84 | Which cells of the rectangle hold their pixel when the upload has ended |
| GpuStream.RestIsCommands | src/devices/gpu/gp0.c:134-145 | Of the ceil(N/2) words a driver sends, those behind the end of the upload are parsed as commands, and there are some if and only if N > 2 |
| GpuStream.ThreePixels | src/devices/gpu/gp0.c:46-84 | A rectangle one wide and three high at the origin: after the command and both its data words the third cell is unchanged |
| Programs.ProgramDrivesGpu | src/memory/bus.h:104-160 | Processor, bus and GPU together: over any run of a program that touches the GPU only by word accesses to the GP0 port and by polling the status register, through any segment, across delays and exceptions and with the interrupt line changing at any moment, the GPU ends where the GP0 accesses alone take it and the loads bring the words it answers |
| Programs.PolledStatus | src/devices/gpu/gpu.c:37-43 | An instruction of such a run that polls loads the status to which the run has brought the GPU |
| Programs.ProgramIsBatch | src/devices/gpu/gp0.c:134-145 | Whatever a running program reads in between, the words it sends leave video memory, command buffer, upload and attributes as splitting them into commands and payloads and performing those does; and the whole GPU if it reads nothing |
| Programs.PlayIsBatch | src/devices/gpu/gp0.c:134-145 | The same for any interleaving of port writes and reads |
| Programs.ProgramRoundTrip | src/devices/gpu/gp0.c:3-100 | A running program that uploads a rectangle and reads it back loads, in order, the halfwords it sent as far as the upload got, and after that what the video memory held |
| Programs.OrderlyStep | src/devices/gpu/gpu.c:37-67 | One instruction of such a program sends its word, loads the port’s answer, polls, or leaves the GPU alone |
| Programs.WordAtPort | src/memory/bus.c:52-127 | A 32-bit bus access to the port, in every segment, is one `gp0_write` or one `gp0_read` |
| Programs.LoadReachesPort | src/cpu/cpu.c:423-432 | LW from the port schedules the answer of one `gp0_read` |
| Programs.StoreReachesPort | src/cpu/cpu.c:535-549 | SW to the port is one `gp0_write` of the register |
| Ports.InstructionMisses | src/memory/bus.c:52-60 | An instruction whose word address is outside the GPU range leaves the GPU alone, in every handler |
| Witnesses.RestartMissesBranch | src/cpu/cop0.c:36-46 | From reset, a program with a branch in the slot of a taken jump: the fault behind it records an EPC that is the address of no instruction that has run |
| Witnesses.InterruptRunsAddiu | src/cpu/cpu.c:686-715 | From the reset vector with interrupts enabled, the line rising before a NOP: the ADDIU behind it has run, and EPC names it |
| Witnesses.InterruptReturns | src/cpu/cop0.c:9-18 | The line rises before a NOP and the SYSCALL behind it faults: RFE makes the interrupt pending again with status 0x8001 and not with status 1 |
| Witnesses.ThreeDeepLoses | src/cpu/cop0.c:52-97 | Three exceptions one inside the other and their returns lose every current pair other than zero |
| NestingWitness.ThreeOpenLoseTheMode | src/cpu/cop0.c:52-97 | A program from reset that sets mode 1 and takes three exceptions one inside the other; its three RFEs bring back mode 0 |
| Witnesses.OverrunReachesBios | src/memory/bus.h:16-26 | A byte stored at 0x1F800400 is read back at the reset vector |
| Witnesses.CopiesUnaligned | src/cpu/cpu.c:434-605 | A program in memory that meets every hypothesis of the unaligned round trip |
| Witnesses.PixelComesBack | src/devices/gpu/gp0.c:3-100 | A program of seven stores and a load that meets every hypothesis of the program round trip: the word loaded holds the pixel sent |
| Emulator.Psx.Run | src/cpu/cpu.c:721-786 | Takes exactly `cycles` steps of the pipeline model, returns the pc it ends at, keeps the boundary invariant and the page tables |
| Emulator.Psx.StepOnce | src/cpu/cpu.c:745-784 | One turn of the loop is one model step, with the alignment test and the fetch cache |
| Emulator.Psx.ExecuteInstruction | src/cpu/cpu.c:755-763 | Dispatch with the all-zero shortcut does what dispatching every instruction would do |
| Emulator.ZeroDoesNothing | src/cpu/cpu.c:755-757 | Dispatching the all-zero word as SLL changes nothing, so the shortcut is sound |
| Emulator.Psx.FetchInstruction | src/cpu/cpu.c:649-672 | The cached page pointer always equals the table entry, so the fetch returns what the bus would, including code just stored |
| Emulator.Psx.RunHandler | src/cpu/cpu.c:83-647 | Every handler, written with C’s bit operators, has the effect that `Isa.Meaning` gives it (what that is, from the words: `InstructionSet` and `SystemInstructions`) |
| Emulator.Psx.FinishStep | src/cpu/cpu.c:692-715 | Commit, exception or advance, as the model |
| Emulator.Psx.RaiseException | src/cpu/cop0.c:26-65 | The exception entry of the model: coprocessor, vector, delay slot and latch |
| Emulator.Psx.constructor | src/core/psx.c:9-26 | Cleared memory, reset processor, and tables that are the address decoder; the coprocessor and the devices are as they were delivered |
| Emulator.Psx.Reset | src/core/psx.c:33-47 | Processor, coprocessor and memory are in their reset state, whatever they held before |
| Emulator.Psx.BusRead8 | src/memory/bus.h:78-88 | Reads through the page table what the decoder addresses, or asks the device |
| Emulator.Psx.BusRead16 | src/memory/bus.h:90-102 | The same for halfwords, aligned or not |
| Emulator.Psx.BusRead32 | src/memory/bus.h:104-120 | The same for words, aligned or not |
| Emulator.Psx.BusWrite8 | src/memory/bus.h:126-136 | Changes the addressed byte of memory and no other, or tells the device |
| Emulator.Psx.BusWrite16 | src/memory/bus.h:138-148 | The same for halfwords, aligned or not |
| Emulator.Psx.BusWrite32 | src/memory/bus.h:150-160 | The same for words, aligned or not |
| Emulator.Psx.ExecuteBranchZeroLink | src/cpu/cpu.c:140-148 | The link register gets npc + 4 whether or not the branch is taken |
| Emulator.Psx.ExecuteBcond | src/cpu/cpu.c:635-647 | Which of the four branches an rt field selects |
| Emulator.Psx.ExecuteJalr | src/cpu/cpu.c:255-259 | The target is read before the link is written |
| Emulator.Psx.ExecuteDiv | src/cpu/cpu.c:295-309 | Quotient and remainder, and the results for a zero divisor and for INT32_MIN / −1 |
| Emulator.Psx.ExecuteAdd | src/cpu/cpu.c:324-335 | The wrapped sum and the sign-bit test have the effect of ADD in `Isa.Meaning`, which is the exact sum or the trap by `InstructionSet.AddSubtractTrapping` |
| Emulator.Psx.ExecuteLh | src/cpu/cpu.c:399-410 | Schedules the sign-extended halfword, or raises ADEL at an odd address without touching the bus |
| Emulator.Psx.ExecuteLwl | src/cpu/cpu.c:434-470 | Merges the bytes up to the address into the top of the register, pending load included |
| Emulator.Psx.ExecuteLwr | src/cpu/cpu.c:472-506 | Merges the bytes from the address on into the bottom of it |
| Emulator.Psx.ExecuteSh | src/cpu/cpu.c:519-533 | Stores the low halfword, or raises ADES; isolation is tested first |
| Emulator.Psx.ExecuteSwl | src/cpu/cpu.c:551-576 | Stores the top bytes of the register up to the address |
| Emulator.Psx.ExecuteSwr | src/cpu/cpu.c:578-605 | Stores the bottom bytes from the address on |
| Emulator.Psx.ExecuteCop0 | src/cpu/cpu.c:607-627 | MFC0 through the load delay, MTC0, RFE; RI otherwise |
| Processor.Cpu.Reset | src/cpu/cpu.c:788-797 | Reset vector, cleared registers and delays, invalid fetch cache |
| Processor.Cpu.GetNextPc | src/cpu/cpu.c:150-154 | The branch-free selection is the choice between target and next_pc |
| Processor.Cpu.Advance | src/cpu/cpu.c:701-714 | The two-counter step of the encoding, with the interrupt latch |
| Processor.Cpu.SetBranch | src/cpu/cpu.c:128-129 | The state bits or-ed together are 3 if taken and 1 if not |
| Processor.Cop0Unit.SetPendingInterrupts | src/cpu/cop0.c:9-18 | The flag is set if and only if interrupts are enabled and an unmasked cause bit is set |
| Processor.Cop0Unit.Record | src/cpu/cop0.c:26-54 | Cause, EPC, TAR, bad address and mode stack of an exception, from the bit operations |
| Processor.Cop0Unit.Write | src/cpu/cop0.c:67-76 | Only bpc, bda, tar, dcic, bdam and status are writable |
| Processor.Cop0Unit.Rfe | src/cpu/cop0.c:93-97 | Pops the mode stack and recomputes the pending flag |
| Processor.Cop0Unit.UpdateInterrupts | src/cpu/cop0.c:105-117 | The IP bit follows the unmasked interrupt requests; no other cause bit changes |
| BusTables.Bus.MapBuffer | src/memory/bus.c:13-27 | Exactly the pages of the region point into the buffer, with the offset modulo its size; a read-only region leaves the write table alone |
| BusTables.Bus.constructor | src/memory/bus.c:29-41 | Both tables are the address decoder and the buffers are zero |
| BusTables.Bus.Reset | src/memory/bus.c:43-50 | The buffers are zero, the tables untouched |
| Source.GetPageIndex | src/core/common.h:131-133 | The page index is always below the number of pages, so the range test of the mapping loop never fails |
| Source.SelectPc | src/cpu/cpu.c:150-154 | The xor-and-mask expression is a choice |
| Source.AddOverflowCheck | src/cpu/cpu.c:207-209 | The sign-bit expression is true if and only if the mathematical signed sum is outside the 32-bit range |
| Source.SubOverflowCheck | src/cpu/cpu.c:211-213 | The same for the difference |
| Source.MergeTwo | src/cpu/cpu.c:453-459 | Masks and shifts put a halfword and a byte above the kept byte |
| Source.MergeThree | src/cpu/cpu.c:481-487 | Masks and shifts put a byte and a halfword below the kept byte |
| Source.JumpTo | src/cpu/cpu.c:350-356 | The or of segment and target is their sum |
| Source.RaiseCause | src/cpu/cop0.c:29-43 | The bits or-ed into the cause register do not overlap |
| Source.RaiseModes | src/cpu/cop0.c:53 | The masked shift pushes the mode stack |
| Source.LowerModes | src/cpu/cop0.c:95 | The masked shift pops it and keeps the old pair |
| GpuPort.Gp0Write | src/devices/gpu/gp0.c:134-145 | After every write the buffer holds fewer words than the command needs, at most two, so index 16 is never reached |
| GpuDevice.GpuUnit.WritePort | src/devices/gpu/gp0.c:134-145 | The in-place port does what the port model says and keeps the buffer bound |
| GpuDevice.GpuUnit.ReadPort | src/devices/gpu/gp0.c:37-39 | The port returns download data while a download runs and the latch otherwise |
| GpuDevice.GpuUnit.WriteControl | src/devices/gpu/gp1.c:72-88 | The control port changes what the model says of status, DMA direction, latch and command buffer, and keeps the buffer bound |
| GpuDevice.GpuUnit.ClearCommandBuffer | src/devices/gpu/gp0.c:147-150 | The buffer is empty and the buffer bound holds |
| GpuDevice.GpuUnit.WriteVramData | src/devices/gpu/gp0.c:76-84 | Two pixels or one, and the end of the upload |
| GpuDevice.GpuUnit.ReadVramData | src/devices/gpu/gp0.c:18-35 | One word, the end of the download, and the request bit |
| GpuDevice.GpuUnit.ExecuteCommand | src/devices/gpu/gp0.c:102-125 | The command in the buffer does in place what the port model says; 0xE1 to 0xE6 set the attribute of their own to the low 24 bits of the word, and no other command changes an attribute |
| GpuDevice.GpuUnit.SetDrawMode | src/devices/gpu/gp0.c:41-44 | Status bits 15:12 are the command’s, all others kept |
| GpuDevice.GpuUnit.UpdateDrqBit | src/devices/gpu/gpu.c:6-19 | The request bit for the current direction, all other status bits kept |
| GpuDevice.TransferUnit.Index | src/devices/gpu/gp0.c:65-67 | The masked index is the wrapped cell and lies inside the video memory |
| GpuDevice.TransferUnit.Start | src/devices/gpu/gp0.c:46-58 | A fresh transfer with x and w from the upper halves of the masked parameter words, and y and h from the lower halves |

## Left out

- Files, trampolines and timing: `psx_reset` and `psx_create` end here before `load_bios_trampolines`; `main`, the PPM dump and every `printf` are not part of this model.
- TTY: host output, and its call in the cycle loop is disabled (src/cpu/cpu.c:745).
- SPU, EXP2, timers, IRQ and memory-control registers: they have no behaviour that the processor depends on and are part of the arbitrary device state.
- GP1 display fields: only the commands that touch the status word, the DMA direction, the read latch and the command buffer are in `GpuPort.Gp1Write`; nothing is claimed about agreement of status bits and fields, which the code does not keep.
- Interrupt delivery: writes to the IRQ registers never call `cop0_update_interrupts`, and that function ignores the status mask (src/cpu/cop0.c:105-117); the interrupt line changes at arbitrary moments in `Pipeline.Trace`, between steps.
- Bad address: the code stores pc, not the data address (src/cpu/cop0.c:48-50); it is modelled so, and nothing more is claimed of it.
- The single-step test build, its bus and its fixtures are not part of this model; the computed goto is a case split over the two tables.
- GpuDevice.GpuUnit.constructor: starts from cleared buffer and transfer fields, which `gpu_reset` does not set (src/devices/gpu/gpu.c:69-73); `psx_create` leaves them, like the coprocessor, as `malloc` delivered them (src/core/psx.c:10), so the coprocessor theorems start from `psx_reset`.
- BusTables.Bus.MapBuffer: has no out-of-range exit, because the page index is masked to the size of the table and the exit cannot be reached.
- Emulator.Psx.BusRead32: an unaligned access that runs past the end of its region reads on in the buffer behind it, as the struct lays them out; one that runs past the last buffer is outside the struct in C and is excluded. The same holds for BusRead16, BusWrite16 and BusWrite32.
- Memory.ReadLocation: the last 3 KB of the scratchpad page fall into the buffer declared next; in C that is outside the array and undefined.
- Programs.ProgramDrivesGpu: a running program writes to GP0 and polls GP1; its writes to GP1 are modelled at the port only (`GpuDevice.GpuUnit.WriteControl`). The GPU is a value there; that one GPU object and the processor object share a heap is not modelled, and the object is proved against the same value model on its own.
- Emulator.Psx.ExecuteShift: the right shift of a negative `int32_t`, which C leaves to the implementation, is arithmetic.
