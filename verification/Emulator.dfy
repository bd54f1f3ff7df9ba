/** The machine the emulator runs: bus accesses through page tables, the fetch cache, the
    instruction handlers and the cycle loop, each proved to do what the pipeline model says. */
module Emulator {
  import opened Words
  import opened Bits
  import opened Memory
  import opened Cop0
  import opened Isa
  import opened Pipeline
  import opened Source
  import opened BusTables
  import opened Processor

  function ClearStore(): Store {
    seq(STORE_SIZE, _ => 0)
  }

  class Psx<D> {
    const cpu: Cpu
    const cop0: Cop0Unit
    const bus: Bus
    const io: Io<D>
    var dev: D

    /** The parts are separate, the page tables are right, and the fetch cache is either invalid
        or holds the pointer the page table has for its page. */
    ghost predicate Valid()
      reads this, cpu, bus.readPages, bus.writePages
    {
      && cpu.r.Length == 32
      && bus.Shaped()
      && cpu.r as object != bus.storage && cpu.r as object != bus.readPages && cpu.r as object != bus.writePages
      && bus.Tables()
      && (cpu.fetchPage == PAGE_COUNT
          || (cpu.fetchPage < PAGE_COUNT && cpu.fetchPagePtr == bus.readPages[cpu.fetchPage]))
    }

    ghost function System(): Sys<D>
      requires Valid()
      reads this, cpu, bus.readPages, bus.writePages, bus.storage
    {
      Sys(bus.storage[..], dev)
    }

    ghost function State(): Machine<D>
      requires Valid()
      reads this, cpu, cpu.r, cop0, bus.readPages, bus.writePages, bus.storage
    {
      Machine(cpu.State(), cop0.State(), System())
    }

    /** psx_create: the coprocessor is left as malloc delivered it, and the devices as they come. */
    constructor (io: Io<D>, delivered: Cop0State, dev: D)
      ensures Valid() && Boundary(State())
      ensures State() == Machine(ResetCpu(), delivered, Sys(ClearStore(), dev))
      ensures this.io == io
    {
      cpu := new Cpu();
      cop0 := new Cop0Unit(delivered);
      bus := new Bus();
      this.io := io;
      this.dev := dev;
      new;
      cpu.Reset();
      assert bus.storage[..] == ClearStore();
    }

    /** psx_reset, with the devices handed in already reset. */
    method Reset(cleared: D)
      requires Valid()
      modifies this`dev, cpu, cpu.r, cop0, bus.storage
      ensures Valid()
      ensures State() == Machine(ResetCpu(), Cop0.RESET, Sys(ClearStore(), cleared)) && Boundary(State())
    {
      cpu.Reset();
      cop0.Reset();
      bus.Reset();
      dev := cleared;
      assert bus.storage[..] == ClearStore();
    }

    // ----- the bus -----

    method BusRead8(addr: u32) returns (v: u8)
      requires Valid()
      modifies this`dev
      ensures Valid()
      ensures (v, System()) == Read8(io, old(System()), addr)
    {
      hide ReadLocation, PhysicalAddress;
      PageLookup(addr);
      var page := bus.readPages[GetPageIndex(addr)];
      if page == NULL {
        var (value, d) := io.read8(dev, addr);
        dev := d;
        return value;
      }
      v := bus.storage[page + PageOffset(addr)];
    }

    method BusRead16(addr: u32) returns (v: u16)
      requires Valid() && InStore(addr, 2)
      modifies this`dev
      ensures Valid()
      ensures (v, System()) == Read16(io, old(System()), addr)
    {
      hide ReadLocation, PhysicalAddress, Half;
      PageLookup(addr);
      StaysInStore(addr, 2);
      var page := bus.readPages[GetPageIndex(addr)];
      if page == NULL {
        var (value, d) := io.read16(dev, addr);
        dev := d;
        return value;
      }
      var at := page + PageOffset(addr);
      v := Half(bus.storage[at], bus.storage[at + 1]);
    }

    method BusRead32(addr: u32) returns (v: u32)
      requires Valid() && InStore(addr, 4)
      modifies this`dev
      ensures Valid()
      ensures (v, System()) == Read32(io, old(System()), addr)
    {
      hide ReadLocation, PhysicalAddress, FromBytes;
      PageLookup(addr);
      StaysInStore(addr, 4);
      var page := bus.readPages[GetPageIndex(addr)];
      if page == NULL {
        var (value, d) := io.read32(dev, addr);
        dev := d;
        return value;
      }
      v := LoadWord(page + PageOffset(addr));
    }

    /** memcpy of four bytes out of the store. */
    method LoadWord(at: nat) returns (v: u32)
      requires at + 3 < bus.storage.Length
      ensures v == FromBytes(bus.storage[at], bus.storage[at + 1], bus.storage[at + 2], bus.storage[at + 3])
    {
      v := FromBytes(bus.storage[at], bus.storage[at + 1], bus.storage[at + 2], bus.storage[at + 3]);
    }

    method BusWrite8(addr: u32, value: u8)
      requires Valid()
      modifies this`dev, bus.storage
      ensures Valid()
      ensures System() == Write8(io, old(System()), addr, value)
    {
      hide WriteLocation, PhysicalAddress;
      PageLookup(addr);
      var page := bus.writePages[GetPageIndex(addr)];
      if page == NULL {
        dev := io.write8(dev, addr, value);
        return;
      }
      bus.storage[page + PageOffset(addr)] := value;
    }

    method BusWrite16(addr: u32, value: u16)
      requires Valid() && InStore(addr, 2)
      modifies this`dev, bus.storage
      ensures Valid()
      ensures System() == Write16(io, old(System()), addr, value)
    {
      hide ReadLocation, PhysicalAddress;
      PageLookup(addr);
      StaysInStore(addr, 2);
      var page := bus.writePages[GetPageIndex(addr)];
      if page == NULL {
        dev := io.write16(dev, addr, value);
        return;
      }
      var at := page + PageOffset(addr);
      bus.storage[at] := value % 0x100;
      bus.storage[at + 1] := value / 0x100;
    }

    method BusWrite32(addr: u32, value: u32)
      requires Valid() && InStore(addr, 4)
      modifies this`dev, bus.storage
      ensures Valid()
      ensures System() == Write32(io, old(System()), addr, value)
    {
      hide ReadLocation, PhysicalAddress, Byte;
      PageLookup(addr);
      StaysInStore(addr, 4);
      var page := bus.writePages[GetPageIndex(addr)];
      if page == NULL {
        dev := io.write32(dev, addr, value);
        return;
      }
      var at := page + PageOffset(addr);
      bus.storage[at] := Byte(value, 0);
      bus.storage[at + 1] := Byte(value, 1);
      bus.storage[at + 2] := Byte(value, 2);
      bus.storage[at + 3] := Byte(value, 3);
    }

    /** Fetching through the cached page pointer is a bus read, whatever ran before. */
    method FetchInstruction() returns (inst: u32)
      requires Valid() && cpu.pc % 4 == 0
      modifies this`dev, cpu`fetchPage, cpu`fetchPagePtr
      ensures Valid()
      ensures (inst, System()) == Read32(io, old(System()), cpu.pc)
    {
      var pc := cpu.pc;
      var page := GetPageIndex(pc);
      if page != cpu.fetchPage {
        cpu.fetchPagePtr := bus.readPages[page];
        cpu.fetchPage := page;
      }
      if cpu.fetchPagePtr == NULL {
        inst := BusRead32(pc);
        return;
      }
      PageLookup(pc);
      AlignedRun(pc, 3);
      inst := LoadWord(cpu.fetchPagePtr + PageOffset(pc));
    }

    // ----- the instruction handlers -----

    method ExecuteShift(op: ShiftOp)
      requires Valid()
      modifies cpu`loadReg, cpu.r
      ensures Valid()
      ensures State() == Perform(old(State()), Meaning(io, Shift(op), ViewOf(old(State()))))
    {
      hide Bus.Tables;
      var value := cpu.RegRead(RtField(cpu.inst));
      var shamt := ShamtField(cpu.inst);
      var result := match op
        case SLL => Shl(value, shamt)
        case SRL => Shr(value, shamt)
        case SRA => Sra(value, shamt);
      cpu.RegWrite(RdField(cpu.inst), result);
    }

    /** The expressions of the register-register operations. */
    method RegisterExpression(op: RegOp, rs: u32, rt: u32) returns (result: u32)
      ensures result == RegResult(op, rs, rt)
    {
      hide Shl, Shr, Sra, Or, Xor, Signed;
      AndLowMaskOfFive(rs);
      match op
      case SLLV => result := Shl(rt, And(rs, 0x1F));
      case SRLV => result := Shr(rt, And(rs, 0x1F));
      case SRAV => result := Sra(rt, And(rs, 0x1F));
      case ADDU => result := Plus(rs, rt);
      case SUBU => result := Minus(rs, rt);
      case AND => result := And(rs, rt);
      case OR => result := Or(rs, rt);
      case XOR => result := Xor(rs, rt);
      case NOR => result := Not(Or(rs, rt));
      case SLT => result := if Signed(rs) < Signed(rt) then 1 else 0;
      case SLTU => result := if rs < rt then 1 else 0;
    }

    method ExecuteRegister(op: RegOp)
      requires Valid()
      modifies cpu`loadReg, cpu.r
      ensures Valid()
      ensures State() == Perform(old(State()), Meaning(io, Register(op), ViewOf(old(State()))))
    {
      hide Bus.Tables, RegResult;
      var rs := cpu.RegRead(RsField(cpu.inst));
      var rt := cpu.RegRead(RtField(cpu.inst));
      var result := RegisterExpression(op, rs, rt);
      cpu.RegWrite(RdField(cpu.inst), result);
    }

    /** The expressions of the operations on an immediate. */
    method ImmediateExpression(op: ImmOp, rs: u32, imm: u16) returns (result: u32)
      ensures result == ImmResult(op, rs, imm)
    {
      hide Or, Xor, And, Signed, Signed16;
      match op
      case ADDIU => result := Wrap(rs + Signed16(imm));
      case ANDI => result := And(rs, imm);
      case ORI => result := Or(rs, imm);
      case XORI => result := Xor(rs, imm);
      case SLTI => result := if Signed(rs) < Signed16(imm) then 1 else 0;
      case SLTIU => result := if rs < Wrap(Signed16(imm)) then 1 else 0;
    }

    method ExecuteImmediate(op: ImmOp)
      requires Valid()
      modifies cpu`loadReg, cpu.r
      ensures Valid()
      ensures State() == Perform(old(State()), Meaning(io, Immediate(op), ViewOf(old(State()))))
    {
      hide Bus.Tables, ImmResult;
      var rs := cpu.RegRead(RsField(cpu.inst));
      var result := ImmediateExpression(op, rs, ImmField(cpu.inst));
      cpu.RegWrite(RtField(cpu.inst), result);
    }

    method ExecuteLui()
      requires Valid()
      modifies cpu`loadReg, cpu.r
      ensures Valid()
      ensures State() == Perform(old(State()), Meaning(io, Lui, ViewOf(old(State()))))
    {
      hide Bus.Tables;
      cpu.RegWrite(RtField(cpu.inst), ImmField(cpu.inst) * TWO_16);
    }

    /** get_next_pc(cpu) + (SIMM_EXT(cpu) << 2) */
    function BranchAddress(): (target: u32)
      requires Valid()
      reads this, cpu, cpu.r, cop0, bus.readPages, bus.writePages, bus.storage
      ensures target == BranchTarget(ViewOf(State()))
    {
      BranchSum(cpu.GetNextPc(), ImmField(cpu.inst))
    }

    /** get_addr_from_imm */
    function GetAddrFromImm(): (addr: u32)
      requires Valid()
      reads this, cpu, cpu.r, cop0, bus.readPages, bus.writePages, bus.storage
      ensures addr == Address(ViewOf(State()))
    {
      Wrap(cpu.RegRead(RsField(cpu.inst)) + Signed16(ImmField(cpu.inst)))
    }

    method ExecuteBeq()
      requires Valid()
      modifies cpu`nextBranchState, cpu`nextBranchTarget
      ensures Valid()
      ensures State() == Perform(old(State()), Meaning(io, Beq, ViewOf(old(State()))))
    {
      hide Bus.Tables;
      var rs := cpu.RegRead(RsField(cpu.inst));
      var rt := cpu.RegRead(RtField(cpu.inst));
      cpu.SetBranch(rs == rt, BranchAddress());
    }

    method ExecuteBne()
      requires Valid()
      modifies cpu`nextBranchState, cpu`nextBranchTarget
      ensures Valid()
      ensures State() == Perform(old(State()), Meaning(io, Bne, ViewOf(old(State()))))
    {
      hide Bus.Tables;
      var rs := cpu.RegRead(RsField(cpu.inst));
      var rt := cpu.RegRead(RtField(cpu.inst));
      cpu.SetBranch(rs != rt, BranchAddress());
    }

    method ExecuteBranchZero(test: ZeroTest)
      requires Valid()
      modifies cpu`nextBranchState, cpu`nextBranchTarget
      ensures Valid()
      ensures State() == Perform(old(State()), Meaning(io, BranchZero(test), ViewOf(old(State()))))
    {
      hide Bus.Tables;
      var rs := cpu.RegRead(RsField(cpu.inst));
      var condition := match test
        case GEZ => Signed(rs) >= 0
        case GTZ => Signed(rs) > 0
        case LEZ => Signed(rs) <= 0
        case LTZ => Signed(rs) < 0;
      cpu.SetBranch(condition, BranchAddress());
    }

    /** The branches that also save a return address in $ra. */
    method ExecuteBranchZeroLink(condition: bool)
      requires Valid()
      modifies cpu`nextBranchState, cpu`nextBranchTarget, cpu`loadReg, cpu.r
      ensures Valid()
      ensures State() == Perform(old(State()), Links(condition, BranchTarget(ViewOf(old(State()))), 31,
                                                     Wrap(ViewOf(old(State())).npc + 4)))
    {
      hide Bus.Tables;
      var pc := cpu.GetNextPc();
      cpu.SetBranch(condition, BranchAddress());
      cpu.RegWrite(31, Plus(pc, 4));
    }

    method ExecuteBcond()
      requires Valid()
      modifies cpu`nextBranchState, cpu`nextBranchTarget, cpu`loadReg, cpu.r
      ensures Valid()
      ensures State() == Perform(old(State()), Meaning(io, Bcond, ViewOf(old(State()))))
    {
      hide Bus.Tables;
      var rt := RtField(cpu.inst);
      var rs := cpu.RegRead(RsField(cpu.inst));
      ParityBit(rt);
      hide And;
      var condition :=
        if rt == 0x10 then Signed(rs) < 0
        else if rt == 0x11 then Signed(rs) >= 0
        else if And(rt, 1) != 0 then Signed(rs) >= 0
        else Signed(rs) < 0;
      if rt == 0x10 || rt == 0x11 {
        ExecuteBranchZeroLink(condition);
      } else {
        cpu.SetBranch(condition, BranchAddress());
      }
    }

    method ExecuteJr()
      requires Valid()
      modifies cpu`nextBranchState, cpu`nextBranchTarget
      ensures Valid()
      ensures State() == Perform(old(State()), Meaning(io, Jr, ViewOf(old(State()))))
    {
      hide Bus.Tables;
      var target := cpu.RegRead(RsField(cpu.inst));
      cpu.SetBranch(true, target);
    }

    method ExecuteJalr()
      requires Valid()
      modifies cpu`nextBranchState, cpu`nextBranchTarget, cpu`loadReg, cpu.r
      ensures Valid()
      ensures State() == Perform(old(State()), Meaning(io, Jalr, ViewOf(old(State()))))
    {
      hide Bus.Tables, Reg, LoadedRegs, Wrap;
      ExecuteJr();
      assert cpu.State() == Branch(old(cpu.State()), true, Reg(old(cpu.r[..]), Rs(cpu.inst)));
      cpu.RegWrite(RdField(cpu.inst), Plus(cpu.GetNextPc(), 4));
    }

    method ExecuteJ()
      requires Valid()
      modifies cpu`nextBranchState, cpu`nextBranchTarget
      ensures Valid()
      ensures State() == Perform(old(State()), Meaning(io, J, ViewOf(old(State()))))
    {
      hide Bus.Tables;
      cpu.SetBranch(true, JumpTo(cpu.GetNextPc(), TargetField(cpu.inst)));
    }

    method ExecuteJal()
      requires Valid()
      modifies cpu`nextBranchState, cpu`nextBranchTarget, cpu`loadReg, cpu.r
      ensures Valid()
      ensures State() == Perform(old(State()), Meaning(io, Jal, ViewOf(old(State()))))
    {
      hide Bus.Tables, Reg, LoadedRegs, JumpTo;
      var pc := cpu.GetNextPc();
      var target := JumpTo(pc, TargetField(cpu.inst));
      cpu.RegWrite(31, Plus(pc, 4));
      cpu.SetBranch(true, target);
      assert cpu.State() == Pipeline.RegWrite(Branch(old(cpu.State()), true, target), 31, Plus(pc, 4));
      hide Pipeline.RegWrite, Branch;
    }

    method ExecuteMfhi()
      requires Valid()
      modifies cpu`loadReg, cpu.r
      ensures Valid()
      ensures State() == Perform(old(State()), Meaning(io, Mfhi, ViewOf(old(State()))))
    {
      hide Bus.Tables;
      cpu.RegWrite(RdField(cpu.inst), cpu.hi);
    }

    method ExecuteMflo()
      requires Valid()
      modifies cpu`loadReg, cpu.r
      ensures Valid()
      ensures State() == Perform(old(State()), Meaning(io, Mflo, ViewOf(old(State()))))
    {
      hide Bus.Tables;
      cpu.RegWrite(RdField(cpu.inst), cpu.lo);
    }

    method ExecuteMthi()
      requires Valid()
      modifies cpu`hi
      ensures Valid()
      ensures State() == Perform(old(State()), Meaning(io, Mthi, ViewOf(old(State()))))
    {
      hide Bus.Tables;
      cpu.hi := cpu.RegRead(RsField(cpu.inst));
    }

    method ExecuteMtlo()
      requires Valid()
      modifies cpu`lo
      ensures Valid()
      ensures State() == Perform(old(State()), Meaning(io, Mtlo, ViewOf(old(State()))))
    {
      hide Bus.Tables;
      cpu.lo := cpu.RegRead(RsField(cpu.inst));
    }

    method ExecuteMult()
      requires Valid()
      modifies cpu`hi, cpu`lo
      ensures Valid()
      ensures State() == Perform(old(State()), Meaning(io, Mult, ViewOf(old(State()))))
    {
      hide Bus.Tables, Product, Signed;
      var product := Signed(cpu.RegRead(RsField(cpu.inst))) * Signed(cpu.RegRead(RtField(cpu.inst)));
      cpu.hi, cpu.lo := SplitProduct(product);
    }

    method ExecuteMultu()
      requires Valid()
      modifies cpu`hi, cpu`lo
      ensures Valid()
      ensures State() == Perform(old(State()), Meaning(io, Multu, ViewOf(old(State()))))
    {
      hide Bus.Tables, Product;
      var product := cpu.RegRead(RsField(cpu.inst)) * cpu.RegRead(RtField(cpu.inst));
      cpu.hi, cpu.lo := SplitProduct(product);
    }

    method ExecuteDiv()
      requires Valid()
      modifies cpu`hi, cpu`lo
      ensures Valid()
      ensures State() == Perform(old(State()), Meaning(io, Div, ViewOf(old(State()))))
    {
      hide Bus.Tables, SignedQuotient;
      cpu.hi, cpu.lo := DivideSigned(cpu.RegRead(RsField(cpu.inst)), cpu.RegRead(RtField(cpu.inst)));
    }

    method ExecuteDivu()
      requires Valid()
      modifies cpu`hi, cpu`lo
      ensures Valid()
      ensures State() == Perform(old(State()), Meaning(io, Divu, ViewOf(old(State()))))
    {
      hide Bus.Tables, UnsignedQuotient;
      cpu.hi, cpu.lo := DivideUnsigned(cpu.RegRead(RsField(cpu.inst)), cpu.RegRead(RtField(cpu.inst)));
    }

    method ExecuteAdd()
      requires Valid()
      modifies cpu`nextExcCode, cpu`loadReg, cpu.r
      ensures Valid()
      ensures State() == Perform(old(State()), Meaning(io, Add, ViewOf(old(State()))))
    {
      hide Bus.Tables, AddOverflowCheck, RsField, RtField, RdField, Signed;
      var rs, rt := cpu.RegRead(RsField(cpu.inst)), cpu.RegRead(RtField(cpu.inst));
      var result := Plus(rs, rt);
      SignedWraps(rs, rt);
      if AddOverflowCheck(rs, rt, result) {
        cpu.nextExcCode := EXC_OV;
      } else {
        cpu.RegWrite(RdField(cpu.inst), result);
      }
    }

    method ExecuteSub()
      requires Valid()
      modifies cpu`nextExcCode, cpu`loadReg, cpu.r
      ensures Valid()
      ensures State() == Perform(old(State()), Meaning(io, Sub, ViewOf(old(State()))))
    {
      hide Bus.Tables, SubOverflowCheck, RsField, RtField, RdField, Signed;
      var rs, rt := cpu.RegRead(RsField(cpu.inst)), cpu.RegRead(RtField(cpu.inst));
      var result := Minus(rs, rt);
      SignedWraps(rs, rt);
      if SubOverflowCheck(rs, rt, result) {
        cpu.nextExcCode := EXC_OV;
      } else {
        cpu.RegWrite(RdField(cpu.inst), result);
      }
    }

    method ExecuteAddi()
      requires Valid()
      modifies cpu`nextExcCode, cpu`loadReg, cpu.r
      ensures Valid()
      ensures State() == Perform(old(State()), Meaning(io, Addi, ViewOf(old(State()))))
    {
      hide Bus.Tables, AddOverflowCheck, RsField, RtField, ImmField, SignExtend, Signed, Signed16;
      var rs := cpu.RegRead(RsField(cpu.inst));
      var simm := SignExtend(ImmField(cpu.inst));
      var result := Plus(rs, simm);
      SignedWraps(rs, simm);
      if AddOverflowCheck(rs, simm, result) {
        cpu.nextExcCode := EXC_OV;
      } else {
        cpu.RegWrite(RtField(cpu.inst), result);
      }
    }

    method ExecuteLb()
      requires Valid()
      modifies this`dev, cpu`loadReg, cpu`nextLoadReg, cpu`nextLoadValue, cpu`nextExcCode
      ensures Valid()
      ensures State() == Perform(old(State()), Meaning(io, Lb, ViewOf(old(State()))))
    {
      hide Bus.Tables, Read8, GetAddrFromImm, Address, Wrap;
      var byte := BusRead8(GetAddrFromImm());
      cpu.ScheduleLoad(RtField(cpu.inst), Wrap(Signed8(byte)));
    }

    method ExecuteLbu()
      requires Valid()
      modifies this`dev, cpu`loadReg, cpu`nextLoadReg, cpu`nextLoadValue, cpu`nextExcCode
      ensures Valid()
      ensures State() == Perform(old(State()), Meaning(io, Lbu, ViewOf(old(State()))))
    {
      hide Bus.Tables, Read8, GetAddrFromImm, Address;
      var byte := BusRead8(GetAddrFromImm());
      cpu.ScheduleLoad(RtField(cpu.inst), byte);
    }

    method ExecuteLh()
      requires Valid()
      modifies this`dev, cpu`loadReg, cpu`nextLoadReg, cpu`nextLoadValue, cpu`nextExcCode
      ensures Valid()
      ensures State() == Perform(old(State()), Meaning(io, Lh, ViewOf(old(State()))))
    {
      hide Bus.Tables, Read16, GetAddrFromImm, Address, AlignBits, Wrap;
      var addr := GetAddrFromImm();
      if AlignBits(addr, 1) != 0 {
        cpu.nextExcCode := EXC_ADEL;
        return;
      }
      var half := BusRead16(addr);
      cpu.ScheduleLoad(RtField(cpu.inst), Wrap(Signed16(half)));
    }

    method ExecuteLhu()
      requires Valid()
      modifies this`dev, cpu`loadReg, cpu`nextLoadReg, cpu`nextLoadValue, cpu`nextExcCode
      ensures Valid()
      ensures State() == Perform(old(State()), Meaning(io, Lhu, ViewOf(old(State()))))
    {
      hide Bus.Tables, Read16, GetAddrFromImm, Address, AlignBits;
      var addr := GetAddrFromImm();
      if AlignBits(addr, 1) != 0 {
        cpu.nextExcCode := EXC_ADEL;
        return;
      }
      var half := BusRead16(addr);
      cpu.ScheduleLoad(RtField(cpu.inst), half);
    }

    method ExecuteLw()
      requires Valid()
      modifies this`dev, cpu`loadReg, cpu`nextLoadReg, cpu`nextLoadValue, cpu`nextExcCode
      ensures Valid()
      ensures State() == Perform(old(State()), Meaning(io, Lw, ViewOf(old(State()))))
    {
      hide Bus.Tables, Read32, GetAddrFromImm, Address, AlignBits;
      var addr := GetAddrFromImm();
      if AlignBits(addr, 3) != 0 {
        cpu.nextExcCode := EXC_ADEL;
        return;
      }
      var word := BusRead32(addr);
      cpu.ScheduleLoad(RtField(cpu.inst), word);
    }

    /** The switch of execute_lwl on the low address bits. */
    method ReadLeft(addr: u32, kept: u32) returns (result: u32)
      requires Valid()
      modifies this`dev
      ensures Valid()
      ensures (result, System()) == LeftWord(io, old(System()), addr, kept)
    {
      hide Bus.Tables;
      hide MergeTop, MergeTopHalf, MergeTwo, MergeThree, MergeLowHalf, MergeLowByte, AlignBits, AlignDown;
      LaneSplit(addr);
      Lanes(addr - addr % 4);
      var aligned := AlignDown(addr);
      var lane := AlignBits(addr, 3);
      if lane == 0 {
        var byte := BusRead8(aligned);
        result := MergeTop(kept, byte);
      } else if lane == 1 {
        var half := BusRead16(aligned);
        result := MergeTopHalf(kept, half);
      } else if lane == 2 {
        var half := BusRead16(aligned);
        var byte := BusRead8(addr);
        result := MergeTwo(kept, half, byte);
      } else {
        result := BusRead32(aligned);
      }
    }

    method ExecuteLwl()
      requires Valid()
      modifies this`dev, cpu`loadReg, cpu`nextLoadReg, cpu`nextLoadValue, cpu`nextExcCode
      ensures Valid()
      ensures State() == Perform(old(State()), Meaning(io, Lwl, ViewOf(old(State()))))
    {
      hide Bus.Tables, LeftWord, GetAddrFromImm, Address;
      var addr := GetAddrFromImm();
      var kept := cpu.RegReadWithLoad(RtField(cpu.inst));
      var result := ReadLeft(addr, kept);
      cpu.ScheduleLoad(RtField(cpu.inst), result);
    }

    /** The switch of execute_lwr on the low address bits. */
    method ReadRight(addr: u32, kept: u32) returns (result: u32)
      requires Valid()
      modifies this`dev
      ensures Valid()
      ensures (result, System()) == RightWord(io, old(System()), addr, kept)
    {
      hide Bus.Tables;
      hide MergeTop, MergeTopHalf, MergeTwo, MergeThree, MergeLowHalf, MergeLowByte, AlignBits, AlignDown;
      LaneSplit(addr);
      Lanes(addr - addr % 4);
      var lane := AlignBits(addr, 3);
      if lane == 0 {
        result := BusRead32(addr);
      } else if lane == 1 {
        var byte := BusRead8(addr);
        var half := BusRead16(addr + 1);
        result := MergeThree(kept, byte, half);
      } else if lane == 2 {
        var half := BusRead16(addr);
        result := MergeLowHalf(kept, half);
      } else {
        var byte := BusRead8(addr);
        result := MergeLowByte(kept, byte);
      }
    }

    method ExecuteLwr()
      requires Valid()
      modifies this`dev, cpu`loadReg, cpu`nextLoadReg, cpu`nextLoadValue, cpu`nextExcCode
      ensures Valid()
      ensures State() == Perform(old(State()), Meaning(io, Lwr, ViewOf(old(State()))))
    {
      hide Bus.Tables, RightWord, GetAddrFromImm, Address;
      var addr := GetAddrFromImm();
      var kept := cpu.RegReadWithLoad(RtField(cpu.inst));
      var result := ReadRight(addr, kept);
      cpu.ScheduleLoad(RtField(cpu.inst), result);
    }

    method ExecuteSb()
      requires Valid()
      modifies this`dev, bus.storage, cpu`nextExcCode
      ensures Valid()
      ensures State() == Perform(old(State()), Meaning(io, Sb, ViewOf(old(State()))))
    {
      hide Bus.Tables, Write8, GetAddrFromImm, Address;
      if cop0.cacheIsolated {
        return;
      }
      var addr := GetAddrFromImm();
      var value := cpu.RegRead(RtField(cpu.inst));
      BusWrite8(addr, Byte(value, 0));
    }

    method ExecuteSh()
      requires Valid()
      modifies this`dev, bus.storage, cpu`nextExcCode
      ensures Valid()
      ensures State() == Perform(old(State()), Meaning(io, Sh, ViewOf(old(State()))))
    {
      hide Bus.Tables, Write16, GetAddrFromImm, Address, AlignBits;
      if cop0.cacheIsolated {
        return;
      }
      var addr := GetAddrFromImm();
      if AlignBits(addr, 1) != 0 {
        cpu.nextExcCode := EXC_ADES;
        return;
      }
      var value := cpu.RegRead(RtField(cpu.inst));
      BusWrite16(addr, LowHalf(value));
    }

    method ExecuteSw()
      requires Valid()
      modifies this`dev, bus.storage, cpu`nextExcCode
      ensures Valid()
      ensures State() == Perform(old(State()), Meaning(io, Sw, ViewOf(old(State()))))
    {
      hide Bus.Tables, Write32, GetAddrFromImm, Address, AlignBits;
      if cop0.cacheIsolated {
        return;
      }
      var addr := GetAddrFromImm();
      if AlignBits(addr, 3) != 0 {
        cpu.nextExcCode := EXC_ADES;
        return;
      }
      var value := cpu.RegRead(RtField(cpu.inst));
      BusWrite32(addr, value);
    }

    /** The switch of execute_swl on the low address bits. */
    method WriteLeft(addr: u32, value: u32)
      requires Valid()
      modifies this`dev, bus.storage
      ensures Valid()
      ensures System() == StoreLeft(io, old(System()), addr, value)
    {
      hide Bus.Tables, Write8, Write16, Write32, Byte, MiddleHalf, LowHalf, HighHalf, AlignBits, AlignDown;
      LaneSplit(addr);
      Lanes(addr - addr % 4);
      var aligned := AlignDown(addr);
      var lane := AlignBits(addr, 3);
      if lane == 0 {
        BusWrite8(aligned, Byte(value, 3));
      } else if lane == 1 {
        BusWrite16(aligned, HighHalf(value));
      } else if lane == 2 {
        BusWrite16(aligned, MiddleHalf(value));
        BusWrite8(addr, Byte(value, 3));
      } else {
        BusWrite32(aligned, value);
      }
    }

    method ExecuteSwl()
      requires Valid()
      modifies this`dev, bus.storage, cpu`nextExcCode
      ensures Valid()
      ensures State() == Perform(old(State()), Meaning(io, Swl, ViewOf(old(State()))))
    {
      hide Bus.Tables, StoreLeft, GetAddrFromImm, Address;
      if cop0.cacheIsolated {
        return;
      }
      var addr := GetAddrFromImm();
      var value := cpu.RegRead(RtField(cpu.inst));
      WriteLeft(addr, value);
    }

    /** The switch of execute_swr on the low address bits. */
    method WriteRight(addr: u32, value: u32)
      requires Valid()
      modifies this`dev, bus.storage
      ensures Valid()
      ensures System() == StoreRight(io, old(System()), addr, value)
    {
      hide Bus.Tables, Write8, Write16, Write32, Byte, MiddleHalf, LowHalf, HighHalf, AlignBits, AlignDown;
      LaneSplit(addr);
      Lanes(addr - addr % 4);
      var lane := AlignBits(addr, 3);
      if lane == 0 {
        BusWrite32(addr, value);
      } else if lane == 1 {
        BusWrite8(addr, Byte(value, 0));
        BusWrite16(addr + 1, MiddleHalf(value));
      } else if lane == 2 {
        BusWrite16(addr, LowHalf(value));
      } else {
        BusWrite8(addr, Byte(value, 0));
      }
    }

    method ExecuteSwr()
      requires Valid()
      modifies this`dev, bus.storage, cpu`nextExcCode
      ensures Valid()
      ensures State() == Perform(old(State()), Meaning(io, Swr, ViewOf(old(State()))))
    {
      hide Bus.Tables, StoreRight, GetAddrFromImm, Address;
      if cop0.cacheIsolated {
        return;
      }
      var addr := GetAddrFromImm();
      var value := cpu.RegRead(RtField(cpu.inst));
      WriteRight(addr, value);
    }

    /** MFC0 goes through the load delay. */
    method MoveFromCop0()
      requires Valid()
      modifies cpu`loadReg, cpu`nextLoadReg, cpu`nextLoadValue
      ensures Valid()
      ensures State() == Perform(old(State()), MovesFrom(ViewOf(old(State()))))
    {
      hide Bus.Tables, Cop0.Read;
      var value := cop0.Read(RdField(cpu.inst));
      cpu.ScheduleLoad(RtField(cpu.inst), value);
    }

    method MoveToCop0()
      requires Valid()
      modifies cop0
      ensures Valid()
      ensures State() == Perform(old(State()), MovesTo(ViewOf(old(State()))))
    {
      hide Bus.Tables, Cop0.Write;
      var value := cpu.RegRead(RtField(cpu.inst));
      cop0.Write(RdField(cpu.inst), value);
    }

    method ReturnFromException()
      requires Valid()
      modifies cop0
      ensures Valid()
      ensures State() == Perform(old(State()), SetsCop0(Rfe(ViewOf(old(State())).cop0)))
    {
      hide Bus.Tables, Cop0.Rfe;
      cop0.Rfe();
    }

    method ExecuteCop0()
      requires Valid()
      modifies cop0, cpu`loadReg, cpu`nextLoadReg, cpu`nextLoadValue, cpu`nextExcCode
      ensures Valid()
      ensures State() == Perform(old(State()), Meaning(io, Isa.Handler.Cop0, ViewOf(old(State()))))
    {
      hide Bus.Tables, Perform, MovesFrom, MovesTo, Cop0.Rfe, Reg, LoadedRegs, Pipeline.GetNextPc;
      assert ViewOf(State()).inst == cpu.inst;
      hide ViewOf, Rs;
      match RsField(cpu.inst)
      case 0x00 => MoveFromCop0();
      case 0x04 => MoveToCop0();
      case 0x10 => ReturnFromException();
      case _ => LatchException(Isa.Handler.Cop0, EXC_RI);
    }

    // ----- dispatch and the cycle loop -----

    /** The computed goto through the two tables. */
    method Dispatch()
      requires Valid()
      modifies this`dev, cpu`hi, cpu`lo, cpu`loadReg, cpu`nextLoadReg, cpu`nextLoadValue
      modifies cpu`nextBranchState, cpu`nextBranchTarget, cpu`nextExcCode, cpu.r, cop0, bus.storage
      ensures Valid()
      ensures State() == Perform(old(State()), Execute(io, ViewOf(old(State()))))
    {
      hide Bus.Tables, Meaning, Perform;
      assert ViewOf(State()).inst == cpu.inst;
      hide ViewOf;
      var handler := if OpcodeField(cpu.inst) == 0 then FunctTable(FunctField(cpu.inst))
                     else OpcodeTable(OpcodeField(cpu.inst));
      assert handler == Decode(cpu.inst);
      hide Decode, FunctTable, OpcodeTable, OpcodeField, FunctField;
      RunHandler(handler);
    }

    method RunHandler(handler: Handler)
      requires Valid()
      modifies this`dev, cpu`hi, cpu`lo, cpu`loadReg, cpu`nextLoadReg, cpu`nextLoadValue
      modifies cpu`nextBranchState, cpu`nextBranchTarget, cpu`nextExcCode, cpu.r, cop0, bus.storage
      ensures Valid()
      ensures State() == Perform(old(State()), Meaning(io, handler, ViewOf(old(State()))))
    {
      hide Meaning, Perform, ViewOf, Bus.Tables;
      match handler {
        case Shift(op) => ExecuteShift(op);
        case Register(op) => ExecuteRegister(op);
        case Immediate(op) => ExecuteImmediate(op);
        case Lui => ExecuteLui();
        case Beq => ExecuteBeq();
        case Bne => ExecuteBne();
        case BranchZero(test) => ExecuteBranchZero(test);
        case Bcond => ExecuteBcond();
        case J => ExecuteJ();
        case Jal => ExecuteJal();
        case Jr => ExecuteJr();
        case Jalr => ExecuteJalr();
        case Mfhi => ExecuteMfhi();
        case Mthi => ExecuteMthi();
        case Mflo => ExecuteMflo();
        case Mtlo => ExecuteMtlo();
        case Mult => ExecuteMult();
        case Multu => ExecuteMultu();
        case Div => ExecuteDiv();
        case Divu => ExecuteDivu();
        case Add => ExecuteAdd();
        case Sub => ExecuteSub();
        case Addi => ExecuteAddi();
        case Lb => ExecuteLb();
        case Lbu => ExecuteLbu();
        case Lh => ExecuteLh();
        case Lhu => ExecuteLhu();
        case Lw => ExecuteLw();
        case Lwl => ExecuteLwl();
        case Lwr => ExecuteLwr();
        case Sb => ExecuteSb();
        case Sh => ExecuteSh();
        case Sw => ExecuteSw();
        case Swl => ExecuteSwl();
        case Swr => ExecuteSwr();
        case Cop0 => ExecuteCop0();
        case Syscall => Latches(handler); LatchException(handler, EXC_SYS);
        case Break => Latches(handler); LatchException(handler, EXC_BP);
        case Cop2 => Latches(handler); LatchException(handler, EXC_RI);
        case Invalid => Latches(handler); LatchException(handler, EXC_RI);
      }
    }

    lemma Latches(handler: Handler)
      requires Valid() && handler in {Syscall, Break, Cop2, Invalid}
      ensures Meaning(io, handler, ViewOf(State())) ==
              Raises(if handler.Syscall? then EXC_SYS else if handler.Break? then EXC_BP else EXC_RI)
    {
      hide ViewOf, Bus.Tables;
    }

    /** Handlers that do nothing but set the exception code. */
    method LatchException(handler: Handler, code: u8)
      requires Valid()
      requires Meaning(io, handler, ViewOf(State())) == Raises(code)
      modifies cpu`nextExcCode
      ensures Valid()
      ensures State() == Perform(old(State()), Meaning(io, handler, ViewOf(old(State()))))
    {
      hide Meaning, Bus.Tables, ViewOf;
      cpu.nextExcCode := code;
    }

    /** cop0_raise_exception */
    method RaiseException(code: u8)
      requires Valid() && code < 0x40
      modifies cop0, cpu`branchState, cpu`pc, cpu`nextPc, cpu`nextExcCode
      ensures Valid()
      ensures State() == old(State()).(cpu := EnterHandler(old(cpu.State())),
                                       cop0 := Raise(old(cop0.State()), code, old(cpu.pc), old(cpu.inst),
                                                     SlotOf(old(cpu.State()))))
    {
      hide Bus.Tables, Raise;
      cop0.Record(code, cpu.pc, cpu.inst, cpu.branchState, cpu.branchTarget);
      cpu.branchState := NO_DELAY;
      cpu.pc := EXCEPTION_VECTOR;
      cpu.nextPc := EXCEPTION_VECTOR + 4;
      cpu.nextExcCode := EXC_NONE;
    }

    method FinishStep()
      requires Valid() && KnownCode(cpu.nextExcCode)
      modifies this`dev, cpu, cpu.r, cop0
      ensures Valid()
      ensures State() == Pipeline.FinishStep(old(State()))
    {
      hide Bus.Tables, Raise, Pipeline.CommitLoad, Pipeline.Advance, EnterHandler, SlotOf;
      cpu.CommitLoad();
      if cpu.nextExcCode != EXC_NONE {
        RaiseException(cpu.nextExcCode);
      } else {
        cpu.Advance(cop0.pendingInterrupts);
      }
    }

    /** The shortcut of the cycle loop for the all-zero instruction, and the dispatch of every other. */
    method ExecuteInstruction()
      requires Valid()
      modifies this`dev, cpu`hi, cpu`lo, cpu`loadReg, cpu`nextLoadReg, cpu`nextLoadValue
      modifies cpu`nextBranchState, cpu`nextBranchTarget, cpu`nextExcCode, cpu.r, cop0, bus.storage
      ensures Valid()
      ensures State() == Perform(old(State()), Execute(io, ViewOf(old(State()))))
    {
      hide Bus.Tables, Execute, Perform, ViewOf;
      if cpu.inst == 0 {
        ZeroDoesNothing(io, State());
      } else {
        Dispatch();
      }
    }

    /** cpu->inst = fetch_instruction(psx) */
    method FetchIntoInst()
      requires Valid() && cpu.pc % 4 == 0
      modifies this`dev, cpu`fetchPage, cpu`fetchPagePtr, cpu`inst
      ensures Valid()
      ensures State() == Fetched(io, old(State()))
    {
      hide Bus.Tables, Read32;
      var inst := FetchInstruction();
      cpu.inst := inst;
    }

    /** One turn of the cycle loop. */
    method StepOnce()
      requires Valid() && KnownCode(cpu.nextExcCode)
      modifies this`dev, cpu, cpu.r, cop0, bus.storage
      ensures Valid()
      ensures State() == Step(io, old(State()))
    {
      hide Bus.Tables, Execute, Perform, ViewOf, Fetched, Pipeline.FinishStep, AlignBits;
      ExecutedShape(io, State());
      cpu.BeginStep();
      if AlignBits(cpu.pc, 3) != 0 {
        cpu.nextExcCode := EXC_ADEL;
      } else {
        FetchIntoInst();
        ExecuteInstruction();
      }
      assert State() == Executed(io, old(State()));
      hide Executed;
      FinishStep();
    }

    /** cpu_run: exactly as many steps as cycles, and the program counter they end at. */
    method Run(cycles: u32) returns (pc: u32)
      requires Valid() && Boundary(State())
      modifies this`dev, cpu, cpu.r, cop0, bus.storage
      ensures Valid()
      ensures State() == Steps(io, old(State()), cycles) && Boundary(State())
      ensures pc == State().cpu.pc
    {
      hide Bus.Tables, Step;
      var left := cycles;
      while left != 0
        invariant 0 <= left <= cycles && Valid()
        invariant State() == Steps(io, old(State()), cycles - left)
      {
        left := left - 1;
        StepOnce();
      }
      return cpu.pc;
    }
  }

  /** Skipping the all-zero instruction is the same as dispatching it: it shifts register 0. */
  lemma ZeroDoesNothing<D>(io: Io<D>, m: Machine<D>)
    requires m.cpu.inst == 0
    ensures Perform(m, Execute(io, ViewOf(m))) == m
  {
    hide ShiftResult, Reg, LoadedRegs, Pipeline.GetNextPc, Shamt, Rt;
    assert Decode(0) == Shift(SLL) && Rd(0) == 0;
    hide Decode, Rd;
  }
}
