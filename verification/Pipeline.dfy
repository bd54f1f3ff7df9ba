/** The processor as the emulator encodes it: both architectural delays live in hidden fields. */
module Pipeline {
  import opened Words
  import opened Memory
  import opened Cop0
  import opened Isa

  const NO_DELAY: u8 := 0
  const IN_DELAY_SLOT: u8 := 1
  const TAKEN: u8 := 3

  const RESET_VECTOR: u32 := 0xBFC0_0000
  const EXCEPTION_VECTOR: u32 := 0x8000_0080

  /** The fields of struct Cpu other than the fetch cache. */
  datatype CpuState = CpuState(pc: u32, nextPc: u32, r: Regs, hi: u32, lo: u32, inst: u32,
                     loadReg: RegNo, nextLoadReg: RegNo, loadValue: u32, nextLoadValue: u32,
                     branchState: u8, branchTarget: u32, nextBranchState: u8, nextBranchTarget: u32,
                     nextExcCode: u8)

  datatype Machine<D> = Machine(cpu: CpuState, cop0: Cop0State, sys: Sys<D>)

  function ZeroRegisters(): Regs {
    seq(32, _ => 0)
  }

  function ResetCpu(): CpuState {
    CpuState(RESET_VECTOR, RESET_VECTOR + 4, ZeroRegisters(), 0, 0, 0, 0, 0, 0, 0, 0, 0, 0, 0, EXC_NONE)
  }

  predicate InDelaySlot(state: u8) {
    state % 2 == 1
  }

  function GetNextPc(c: CpuState): u32 {
    if c.branchState == TAKEN then c.branchTarget else c.nextPc
  }

  /** The register file with the pending load applied: reg_read_with_load at every register. */
  function LoadedRegs(c: CpuState): Regs {
    if c.loadReg == 0 then c.r else c.r[c.loadReg := c.loadValue]
  }

  function RegWrite(c: CpuState, reg: RegNo, value: u32): CpuState {
    if reg == 0 then c
    else c.(loadReg := if c.loadReg == reg then 0 else c.loadReg, r := c.r[reg := value])
  }

  function ScheduleLoad(c: CpuState, reg: RegNo, value: u32): CpuState {
    c.(loadReg := if c.loadReg == reg then 0 else c.loadReg, nextLoadReg := reg, nextLoadValue := value)
  }

  function CommitLoad(c: CpuState): CpuState {
    c.(r := LoadedRegs(c), loadReg := c.nextLoadReg, loadValue := c.nextLoadValue, nextLoadReg := 0)
  }

  function Branch(c: CpuState, taken: bool, target: u32): CpuState {
    c.(nextBranchState := if taken then TAKEN else IN_DELAY_SLOT, nextBranchTarget := target)
  }

  function BeginStep(c: CpuState): CpuState {
    c.(nextBranchState := NO_DELAY, nextLoadReg := 0)
  }

  function ViewOf<D>(m: Machine<D>): View<D> {
    View(m.cpu.inst, m.cpu.r, LoadedRegs(m.cpu), m.cpu.hi, m.cpu.lo, GetNextPc(m.cpu), m.cop0, m.sys)
  }

  function Perform<D>(m: Machine<D>, e: Effect<D>): Machine<D> {
    match e
    case Nothing => m
    case Raises(code) => m.(cpu := m.cpu.(nextExcCode := code))
    case Writes(reg, value) => m.(cpu := RegWrite(m.cpu, reg, value))
    case Loads(reg, value, sys) => m.(cpu := ScheduleLoad(m.cpu, reg, value), sys := sys)
    case Branches(taken, target) => m.(cpu := Branch(m.cpu, taken, target))
    case Links(taken, target, reg, link) => m.(cpu := RegWrite(Branch(m.cpu, taken, target), reg, link))
    case SetsHiLo(hi, lo) => m.(cpu := m.cpu.(hi := hi, lo := lo))
    case Stores(sys) => m.(sys := sys)
    case SetsCop0(cop0) => m.(cop0 := cop0)
  }

  function SlotOf(c: CpuState): Slot {
    if InDelaySlot(c.branchState) then InSlot(c.branchState == TAKEN, c.branchTarget) else NoSlot
  }

  function EnterHandler(c: CpuState): CpuState {
    c.(branchState := NO_DELAY, pc := EXCEPTION_VECTOR, nextPc := EXCEPTION_VECTOR + 4, nextExcCode := EXC_NONE)
  }

  function Advance(c: CpuState, pendingInterrupts: bool): CpuState {
    var pc := GetNextPc(c);
    c.(pc := pc, nextPc := Wrap(pc + 4), branchState := c.nextBranchState,
       branchTarget := if InDelaySlot(c.nextBranchState) then c.nextBranchTarget else c.branchTarget,
       nextExcCode := if pendingInterrupts then EXC_INT else c.nextExcCode)
  }

  predicate KnownCode(code: u8) {
    code == EXC_NONE || code < 0x40
  }

  function FinishStep<D>(m: Machine<D>): Machine<D>
    requires KnownCode(m.cpu.nextExcCode)
  {
    var c := CommitLoad(m.cpu);
    if c.nextExcCode != EXC_NONE then
      m.(cpu := EnterHandler(c), cop0 := Raise(m.cop0, c.nextExcCode, c.pc, c.inst, SlotOf(c)))
    else
      m.(cpu := Advance(c, m.cop0.pendingInterrupts))
  }

  /** The machine with the instruction at pc fetched into inst. */
  function Fetched<D>(io: Io<D>, m: Machine<D>): Machine<D>
    requires m.cpu.pc % 4 == 0
  {
    var (inst, sys) := AlignedRead32(io, m.sys, m.cpu.pc);
    m.(cpu := m.cpu.(inst := inst), sys := sys)
  }

  /** The machine before finish_step: the instruction has run, its exception code is latched. */
  function Executed<D>(io: Io<D>, m: Machine<D>): Machine<D> {
    var m1 := m.(cpu := BeginStep(m.cpu));
    if m.cpu.pc % 4 != 0 then m1.(cpu := m1.cpu.(nextExcCode := EXC_ADEL))
    else
      var m2 := Fetched(io, m1);
      Perform(m2, Execute(io, ViewOf(m2)))
  }

  /** The exceptions that instructions raise themselves. */
  const FAULTS := {EXC_ADEL, EXC_ADES, EXC_SYS, EXC_BP, EXC_RI, EXC_OV}

  lemma CodesAreKnown<D>(io: Io<D>, h: Handler, v: View<D>)
    ensures var e := Meaning(io, h, v);
            e.Raises? ==> e.code in FAULTS
  {
    hide RegResult, ShiftResult, ImmResult, Read8, Read16, Read32, Write8, Write16, Write32;
    hide LeftWord, RightWord, StoreLeft, StoreRight;
    hide Wrap, Signed, Signed8, Signed16, Reg, Rs, Rt, Rd, Imm, Shamt, BranchTarget, JumpTarget;
    hide Cop0.Write, Cop0.Read, Rfe;
  }

  /** What an instruction leaves alone, and the codes it can latch. */
  lemma ExecutedShape<D>(io: Io<D>, m: Machine<D>)
    ensures var x := Executed(io, m).cpu;
            && x.r[0] == m.cpu.r[0]
            && x.pc == m.cpu.pc && x.nextPc == m.cpu.nextPc
            && x.branchState == m.cpu.branchState && x.branchTarget == m.cpu.branchTarget
            && x.nextBranchState in {NO_DELAY, IN_DELAY_SLOT, TAKEN}
            && (x.nextExcCode == m.cpu.nextExcCode || x.nextExcCode < 0x40)
  {
    if m.cpu.pc % 4 == 0 {
      var m2 := Fetched(io, m.(cpu := BeginStep(m.cpu)));
      CodesAreKnown(io, Decode(m2.cpu.inst), ViewOf(m2));
      hide Meaning, Decode, Read32, LoadedRegs, GetNextPc;
    }
  }

  function Step<D>(io: Io<D>, m: Machine<D>): Machine<D>
    requires KnownCode(m.cpu.nextExcCode)
  {
    ExecutedShape(io, m);
    FinishStep(Executed(io, m))
  }

  /** What every step boundary keeps. */
  ghost predicate Boundary<D>(m: Machine<D>) {
    && m.cpu.r[0] == 0
    && m.cpu.nextPc == Wrap(m.cpu.pc + 4)
    && m.cpu.branchState in {NO_DELAY, IN_DELAY_SLOT, TAKEN}
    && m.cpu.nextExcCode in {EXC_NONE, EXC_INT}
    && m.cpu.nextLoadReg == 0
  }

  lemma StepKeepsBoundary<D>(io: Io<D>, m: Machine<D>)
    requires Boundary(m)
    ensures Boundary(Step(io, m))
  {
    hide Executed, Raise;
    ExecutedShape(io, m);
  }

  /** n steps of the processor: what cpu_run does for cycles = n. */
  function Steps<D>(io: Io<D>, m: Machine<D>, n: nat): Machine<D>
    requires Boundary(m)
    ensures Boundary(Steps(io, m, n))
  {
    if n == 0 then m
    else
      StepKeepsBoundary(io, Steps(io, m, n - 1));
      Step(io, Steps(io, m, n - 1))
  }

  /** What happens to the machine: a step of the processor, or a change of the interrupt line. */
  datatype Happening = Tick | Line(pending: bool)

  function Trace<D>(io: Io<D>, m: Machine<D>, hs: seq<Happening>): Machine<D>
    requires Boundary(m)
    ensures Boundary(Trace(io, m, hs))
  {
    if hs == [] then m
    else
      var before := Trace(io, m, hs[..|hs| - 1]);
      match hs[|hs| - 1]
      case Tick => StepKeepsBoundary(io, before); Step(io, before)
      case Line(pending) => before.(cop0 := UpdateInterrupts(before.cop0, pending))
  }

  /** n steps with a quiet interrupt line. */
  function Ticks(n: nat): (hs: seq<Happening>)
    ensures |hs| == n
  {
    if n == 0 then [] else Ticks(n - 1) + [Tick]
  }

  lemma {:induction false} StepsAreTicks<D>(io: Io<D>, m: Machine<D>, n: nat)
    requires Boundary(m)
    ensures Trace(io, m, Ticks(n)) == Steps(io, m, n)
  {
    hide Step, Boundary;
    if n == 0 {
    } else {
      StepsAreTicks(io, m, n - 1);
      assert Ticks(n)[..n - 1] == Ticks(n - 1);
    }
  }

  /** Running m + n cycles is running m cycles and then n more. */
  lemma {:induction false} RunsCompose<D>(io: Io<D>, s: Machine<D>, m: nat, n: nat)
    requires Boundary(s)
    ensures Steps(io, s, m + n) == Steps(io, Steps(io, s, m), n)
  {
    hide Step, Boundary;
    if n == 0 {
    } else {
      RunsCompose(io, s, m, n - 1);
    }
  }
}
