/** The processor and the coprocessor as the objects the emulator updates in place. */
module Processor {
  import opened Words
  import opened Bits
  import opened Memory
  import opened Cop0
  import opened Isa
  import opened Pipeline
  import opened Source
  import opened BusTables

  class Cpu {
    var fetchPage: nat
    var fetchPagePtr: int
    var pc: u32
    var nextPc: u32
    const r: array<u32>
    var hi: u32
    var lo: u32
    var inst: u32
    var loadReg: RegNo
    var nextLoadReg: RegNo
    var loadValue: u32
    var nextLoadValue: u32
    var branchState: u8
    var branchTarget: u32
    var nextBranchState: u8
    var nextBranchTarget: u32
    var nextExcCode: u8

    ghost function State(): CpuState
      requires r.Length == 32
      reads this, r
    {
      CpuState(pc, nextPc, r[..], hi, lo, inst, loadReg, nextLoadReg, loadValue, nextLoadValue,
               branchState, branchTarget, nextBranchState, nextBranchTarget, nextExcCode)
    }

    constructor ()
      ensures r.Length == 32 && fresh(r)
    {
      r := new u32[32];
    }

    method Reset()
      requires r.Length == 32
      modifies this, r
      ensures State() == ResetCpu()
      ensures fetchPage == PAGE_COUNT
    {
      ClearRegisters();
      ClearDelays();
      hi, lo, inst := 0, 0, 0;
      pc := RESET_VECTOR;
      nextPc := pc + 4;
      nextExcCode := EXC_NONE;
      fetchPage := PAGE_COUNT;
      fetchPagePtr := NULL;
    }

    method ClearDelays()
      modifies this`loadReg, this`nextLoadReg, this`loadValue, this`nextLoadValue
      modifies this`branchState, this`branchTarget, this`nextBranchState, this`nextBranchTarget
      ensures loadReg == nextLoadReg == loadValue == nextLoadValue == 0
      ensures branchState == branchTarget == nextBranchState == nextBranchTarget == 0
    {
      loadReg, nextLoadReg, loadValue, nextLoadValue := 0, 0, 0, 0;
      branchState, branchTarget, nextBranchState, nextBranchTarget := 0, 0, 0, 0;
    }

    method ClearRegisters()
      requires r.Length == 32
      modifies r
      ensures r[..] == ZeroRegisters()
    {
      forall i | 0 <= i < 32 {
        r[i] := 0;
      }
    }

    function GetNextPc(): (npc: u32)
      requires r.Length == 32
      reads this, r
      ensures npc == Pipeline.GetNextPc(State())
    {
      SelectPc(nextPc, branchTarget, branchState)
    }

    function RegRead(reg: RegNo): (v: u32)
      requires r.Length == 32
      reads this, r
      ensures v == Reg(State().r, reg)
    {
      if reg == 0 then 0 else r[reg]
    }

    function RegReadWithLoad(reg: RegNo): (v: u32)
      requires r.Length == 32
      reads this, r
      ensures v == Reg(LoadedRegs(State()), reg)
    {
      if reg == 0 then 0
      else if loadReg == reg then loadValue
      else r[reg]
    }

    method RegWrite(reg: RegNo, value: u32)
      requires r.Length == 32
      modifies this`loadReg, r
      ensures State() == Pipeline.RegWrite(old(State()), reg, value)
    {
      if reg == 0 {
        return;
      }
      if loadReg == reg {
        loadReg := 0;
      }
      r[reg] := value;
    }

    method ScheduleLoad(reg: RegNo, value: u32)
      requires r.Length == 32
      modifies this`loadReg, this`nextLoadReg, this`nextLoadValue
      ensures State() == Pipeline.ScheduleLoad(old(State()), reg, value)
    {
      if loadReg == reg {
        loadReg := 0;
      }
      nextLoadReg := reg;
      nextLoadValue := value;
    }

    method CommitLoad()
      requires r.Length == 32
      modifies this`loadReg, this`loadValue, this`nextLoadReg, r
      ensures State() == Pipeline.CommitLoad(old(State()))
    {
      var reg := loadReg;
      if reg > 0 {
        r[reg] := loadValue;
      }
      loadReg := nextLoadReg;
      loadValue := nextLoadValue;
      nextLoadReg := 0;
    }

    method BeginStep()
      requires r.Length == 32
      modifies this`nextBranchState, this`nextLoadReg
      ensures State() == Pipeline.BeginStep(old(State()))
    {
      nextBranchState := NO_DELAY;
      nextLoadReg := 0;
    }

    /** The end of finish_step when no exception is latched. */
    method Advance(interrupt: bool)
      requires r.Length == 32
      modifies this`pc, this`nextPc, this`branchState, this`branchTarget, this`nextExcCode
      ensures State() == Pipeline.Advance(old(State()), interrupt)
    {
      pc := GetNextPc();
      nextPc := Plus(pc, 4);
      branchState := nextBranchState;
      if InDelaySlot(branchState) {
        branchTarget := nextBranchTarget;
      }
      if interrupt {
        nextExcCode := EXC_INT;
      }
    }

    /** next_branch_state = (condition << 1) | BRANCH_STATE_IN_DELAY_SLOT */
    method SetBranch(condition: bool, target: u32)
      requires r.Length == 32
      modifies this`nextBranchState, this`nextBranchTarget
      ensures State() == Branch(old(State()), condition, target)
    {
      var bit := if condition then 1 else 0;
      OrIsSum(bit * 2, IN_DELAY_SLOT);
      nextBranchState := Or(bit * 2, IN_DELAY_SLOT);
      nextBranchTarget := target;
    }
  }

  class Cop0Unit {
    var bpc: u32
    var bda: u32
    var tar: u32
    var dcic: u32
    var badAddr: u32
    var bdam: u32
    var status: u32
    var cause: u32
    var epc: u32
    var prid: u32
    var cacheIsolated: bool
    var pendingInterrupts: bool

    ghost function State(): Cop0State
      reads this
    {
      Cop0State(bpc, bda, tar, dcic, badAddr, bdam, status, cause, epc, prid, cacheIsolated, pendingInterrupts)
    }

    /** Allocated, with whatever its memory holds. */
    constructor (delivered: Cop0State)
      ensures State() == delivered
    {
      bpc, bda, tar, dcic, badAddr := delivered.bpc, delivered.bda, delivered.tar, delivered.dcic, delivered.badAddr;
      bdam, status, cause, epc := delivered.bdam, delivered.status, delivered.cause, delivered.epc;
      prid, cacheIsolated := delivered.prid, delivered.cacheIsolated;
      pendingInterrupts := delivered.pendingInterrupts;
    }

    method Reset()
      modifies this
      ensures State() == Cop0.RESET
    {
      bpc, bda, tar, dcic, badAddr, bdam, status, cause, epc := 0, 0, 0, 0, 0, 0, 0, 0, 0;
      cacheIsolated, pendingInterrupts := false, false;
      prid := 2;
    }

    method SetPendingInterrupts()
      modifies this`pendingInterrupts
      ensures pendingInterrupts == Requested(cause, status)
    {
      LowMasks(status);
      if And(status, 1) == 0 {
        pendingInterrupts := false;
        return;
      }
      var pending := And(And(cause, status), 0xFF00);
      InterruptMask(And(cause, status));
      pendingInterrupts := pending != 0;
    }

    method SetStatus(value: u32)
      modifies this`status, this`cacheIsolated, this`pendingInterrupts
      ensures State() == Cop0.SetStatus(old(State()), value)
    {
      IsolateBit(value);
      status := value;
      cacheIsolated := And(value, 0x1_0000) != 0;
      SetPendingInterrupts();
    }

    method Write(rd: nat, value: u32)
      modifies this
      ensures State() == Cop0.Write(old(State()), rd, value)
    {
      match rd
      case 3 => bpc := value;
      case 5 => bda := value;
      case 6 => tar := value;
      case 7 => dcic := value;
      case 9 => bdam := value;
      case 12 => SetStatus(value);
      case _ =>
    }

    function Read(rd: nat): (v: u32)
      reads this
      ensures v == Cop0.Read(State(), rd)
    {
      match rd
      case 3 => bpc
      case 5 => bda
      case 6 => tar
      case 7 => dcic
      case 8 => badAddr
      case 12 => status
      case 13 => cause
      case 14 => epc
      case 15 => prid
      case _ => 0
    }

    method Rfe()
      modifies this`status, this`pendingInterrupts
      ensures State() == Cop0.Rfe(old(State()))
    {
      hide LowerModes, PopMode, Requested;
      status := LowerModes(status);
      SetPendingInterrupts();
    }

    /** The part of cop0_raise_exception that writes coprocessor registers. */
    method Record(code: u8, pc: u32, inst: u32, branchState: u8, branchTarget: u32)
      requires code < 0x40
      modifies this
      ensures State() == Raise(old(State()), code, pc, inst,
                               if InDelaySlot(branchState) then InSlot(branchState == TAKEN, branchTarget) else NoSlot)
    {
      hide And, Pow2, RaiseModes, PushMode, IsolateSet, Requested;
      InterruptMask(cause);
      cause := And(cause, 0xFF00);
      cause := RaiseCause(cause, code, inst, InDelaySlot(branchState), branchState == TAKEN);
      assert cause == CauseOf(old(cause), code, inst,
                              if InDelaySlot(branchState) then InSlot(branchState == TAKEN, branchTarget) else NoSlot);
      hide CauseOf, InterruptBits, Opcode;
      if InDelaySlot(branchState) {
        tar := branchTarget;
        epc := Minus(pc, 4);
      } else {
        epc := pc;
      }
      if code == EXC_ADEL || code == EXC_ADES {
        badAddr := pc;
      }
      SetStatus(RaiseModes(status));
      pendingInterrupts := false;
    }

    method UpdateInterrupts(irqStat: u16, irqMask: u16)
      modifies this`cause, this`pendingInterrupts
      ensures State() == Cop0.UpdateInterrupts(old(State()), And(irqStat, irqMask) != 0)
    {
      ClearMasks(cause);
      InterruptBit(cause);
      LowMasks(status);
      OrIsSum(cause, 0x8000);
      if And(irqStat, irqMask) != 0 {
        cause := Or(cause, 0x8000);
        pendingInterrupts := And(status, 1) != 0;
      } else {
        cause := And(cause, Not(0x8000));
        pendingInterrupts := false;
      }
    }
  }
}
