/** Small programs and states at which the emulator departs from what a programmer expects, and at which
    the hypotheses of the theorems about runs are met. */
module Witnesses {
  import opened Words
  import opened Bits
  import opened Memory
  import opened Cop0
  import opened Isa
  import opened Pipeline
  import opened Core
  import opened Exceptions
  import opened Unaligned
  import opened UnalignedRuns
  import opened Ports
  import opened Programs
  import GP = GpuPort
  import Transfers = GpuTransfers
  import Stream = GpuStream

  // ----- programs in the BIOS -----

  /** Memory that is zero except for a program at the reset vector. */
  function Image(program: seq<u32>): Store
    requires |program| <= 0x100
  {
    seq(STORE_SIZE, i requires 0 <= i < STORE_SIZE => Content(program, i))
  }

  function Content(program: seq<u32>, i: nat): u8 {
    if BIOS_BASE <= i < BIOS_BASE + 4 * |program| then Byte(program[(i - BIOS_BASE) / 4], (i - BIOS_BASE) % 4) else 0
  }

  /** The address of instruction k of the program. */
  function Pc(k: nat): u32
    requires k < 0x100
  {
    RESET_VECTOR + 4 * k
  }

  lemma InImage(k: nat)
    requires k < 0x100
    ensures Pc(k) % 4 == 0 && Readable(Pc(k)) && Place(Pc(k)) == BIOS_BASE + 4 * k
  {
    DivModUnique(Pc(k), 4, RESET_VECTOR / 4 + k, 0);
    DivModUnique(Pc(k), 0x2000_0000, 5, BIOS_START + 4 * k);
    DivModUnique(Pc(k) + 3, 0x2000_0000, 5, BIOS_START + 4 * k + 3);
  }

  lemma ImageByte(program: seq<u32>, k: nat, j: nat)
    requires k < |program| <= 0x100 && j < 4
    ensures Image(program)[BIOS_BASE + 4 * k + j] == Byte(program[k], j)
  {
    hide Byte;
    DivModUnique(4 * k + j, 4, k, j);
  }

  lemma ImageWord(program: seq<u32>, k: nat)
    requires k < |program| <= 0x100
    ensures Readable(Pc(k)) && WordAt(Image(program), Pc(k)) == program[k]
  {
    hide Image, Byte, FromBytes, Readable;
    InImage(k);
    ImageByte(program, k, 0);
    ImageByte(program, k, 1);
    ImageByte(program, k, 2);
    ImageByte(program, k, 3);
    BytesRoundTrip(program[k]);
  }

  /** The processor about to run instruction k of a program in the BIOS, outside any delay. */
  ghost predicate AtInstruction<D>(b: Core<D>, program: seq<u32>, k: nat)
    requires |program| <= 0x100
  {
    && k < |program|
    && b.pc == Pc(k) && b.npc == Wrap(Pc(k) + 4) && b.load == NoLoad && !b.interrupted
    && b.sys.mem == Image(program)
  }

  /** The fetch of an instruction from the program. */
  lemma FetchesProgram<D>(io: Io<D>, b: Core<D>, program: seq<u32>, k: nat)
    requires k < |program| <= 0x100 && b.pc == Pc(k) && b.sys.mem == Image(program)
    ensures b.pc % 4 == 0 && Fetch(io, b) == b.(inst := program[k])
    ensures EffectAt(io, b) == Execute(io, CoreView(b.(inst := program[k])))
  {
    hide Image, WordAt, Readable, Pc, Execute;
    InImage(k);
    ImageWord(program, k);
    FetchesWord(io, b);
  }

  /** The machine from reset with a program in its BIOS. */
  function Loaded<D>(program: seq<u32>, dev: D): Machine<D>
    requires |program| <= 0x100
  {
    Machine(ResetCpu(), RESET, Sys(Image(program), dev))
  }

  // ----- a branch in the delay slot of a taken branch -----

  /** J 0xBFC00010; BEQ $0, $0, 1; and SYSCALL at 0xBFC00010. */
  function BranchInSlot(): (program: seq<u32>)
    ensures |program| == 5
  {
    [0x0BF0_0004, 0x1000_0001, 0, 0, 0x0000_000C]
  }

  lemma BranchInSlotCodes()
    ensures Decode(0x0BF0_0004) == J && Decode(0x0000_000C) == Syscall
    ensures Decode(0x1000_0001) == Beq && Rs(0x1000_0001) == 0 == Rt(0x1000_0001) && Imm(0x1000_0001) == 1
  {
  }

  lemma JumpStep<D>(io: Io<D>, b: Core<D>)
    requires b.pc == Pc(0) && b.npc == Pc(1) && b.sys.mem == Image(BranchInSlot()) && !b.interrupted
    ensures var n := CoreStep(LoadsLate, io, b);
            && n.pc == Pc(1) && n.npc == Pc(4) && n.sys == b.sys
            && n.interrupted == b.cop0.pendingInterrupts && n.cop0 == b.cop0
  {
    hide Image, Settled, Raise, Decode, Rs, Rt, Imm, EffectAt, Fetch;
    FetchesProgram(io, b, BranchInSlot(), 0);
    BranchInSlotCodes();
  }

  lemma BeqStep<D>(io: Io<D>, b: Core<D>)
    requires b.pc == Pc(1) && b.npc == Pc(4) && b.sys.mem == Image(BranchInSlot()) && !b.interrupted
    ensures var n := CoreStep(LoadsLate, io, b);
            n.pc == Pc(4) && n.slot == InSlot(true, Pc(5)) && n.sys == b.sys
  {
    hide Image, Settled, Raise, Decode, Rs, Rt, Imm, EffectAt, Fetch;
    FetchesProgram(io, b, BranchInSlot(), 1);
    BranchInSlotCodes();
  }

  /** From reset: the SYSCALL in the slot of the branch at 0xBFC00004 records 0xBFC0000C, which is not the
      address of that branch, nor of any instruction that has run. */
  lemma RestartMissesBranch<D>(io: Io<D>, dev: D)
    ensures var m := Steps(io, Loaded(BranchInSlot(), dev), 2);
            && SlotOf(m.cpu).InSlot? && Enters(io, m) && m.cpu.pc == 0xBFC0_0010
            && Steps(io, Loaded(BranchInSlot(), dev), 1).cpu.pc == 0xBFC0_0004
            && Step(io, m).cop0.epc == 0xBFC0_000C
  {
    hide Step, CoreStep, Image, SlotOf, EffectAt, GetNextPc;
    var m0 := Loaded(BranchInSlot(), dev);
    var m1, m2 := Steps(io, m0, 1), Steps(io, m0, 2);
    assert GetNextPc(m0.cpu) == Pc(1) by { StartsThere(m0); }
    assert m1 == Step(io, Steps(io, m0, 0));
    StepSimulates(io, m0);
    JumpStep(io, Abstract(m0));
    StepSimulates(io, m1);
    BeqStep(io, Abstract(m1));
    FaultsThere(io, Abstract(m2));
    SlotRecorded(io, m2);
  }

  lemma StartsThere<D>(m: Machine<D>)
    requires m.cpu == ResetCpu()
    ensures GetNextPc(m.cpu) == Pc(1)
  {
  }

  lemma FaultsThere<D>(io: Io<D>, b: Core<D>)
    requires b.pc == Pc(4) && b.sys.mem == Image(BranchInSlot())
    ensures EffectAt(io, b).Raises?
  {
    hide Image, EffectAt, Fetch, Decode;
    FetchesProgram(io, b, BranchInSlot(), 4);
    BranchInSlotCodes();
  }

  // ----- an interrupt and the instruction after it -----

  /** NOP; ADDIU $1, $1, 1. */
  function CountUp(): (program: seq<u32>)
    ensures |program| == 2
  {
    [0, 0x2421_0001]
  }

  /** The program starts with the given status: bit 0 enables interrupts, bit 15 unmasks those of the devices. */
  function Enabled<D>(program: seq<u32>, dev: D, status: u32): Machine<D>
    requires |program| <= 0x100
  {
    Loaded(program, dev).(cop0 := RESET.(status := status))
  }

  lemma NopEffect<D>(io: Io<D>, b: Core<D>, program: seq<u32>)
    requires 2 <= |program| <= 0x100 && program[0] == 0 && AtInstruction(b, program, 0)
    ensures EffectAt(io, b).Writes? && EffectAt(io, b).reg == 0 && Fetch(io, b) == b.(inst := 0)
  {
    hide Image, EffectAt, Fetch, ShiftResult, Shamt, Reg, Rt, Settled;
    FetchesProgram(io, b, program, 0);
    assert Decode(0) == Shift(SLL) && Rd(0) == 0;
  }

  lemma NopLatches<D>(io: Io<D>, b: Core<D>, program: seq<u32>)
    requires 2 <= |program| <= 0x100 && program[0] == 0 && AtInstruction(b, program, 0) && b.cop0.pendingInterrupts
    ensures var n := CoreStep(LoadsLate, io, b);
            && n.pc == Pc(1) && n.slot == NoSlot && n.r == b.r && n.load == NoLoad && n.interrupted
            && n.sys == b.sys && n.cop0 == b.cop0
  {
    hide Image, EffectAt, Fetch, Raise;
    NopEffect(io, b, program);
  }

  lemma CountsOnce<D>(io: Io<D>, b: Core<D>)
    requires b.pc == Pc(1) && b.sys.mem == Image(CountUp()) && b.load == NoLoad && b.r[1] == 0
    ensures EffectAt(io, b) == Writes(1, 1)
  {
    hide Image, EffectAt, Fetch;
    FetchesProgram(io, b, CountUp(), 1);
    assert Decode(0x2421_0001) == Immediate(ADDIU);
    assert Rs(0x2421_0001) == 1 == Rt(0x2421_0001) && Imm(0x2421_0001) == 1;
  }

  /** The line rises before the NOP; the ADDIU behind it runs, and EPC names the ADDIU. */
  lemma InterruptRunsAddiu<D>(io: Io<D>, dev: D)
    ensures var m := Trace(io, Enabled(CountUp(), dev, 1), [Line(true), Tick]);
            && m.cpu.nextExcCode == EXC_INT && m.cpu.r[1] == 0
            && Step(io, m).cpu.r[1] == 1 && Step(io, m).cop0.epc == 0xBFC0_0004 == m.cpu.pc
            && Step(io, m).cop0.cause / 4 % 0x40 == EXC_INT
  {
    hide Step, CoreStep, Image, EffectAt, Put;
    var m0 := Enabled(CountUp(), dev, 1);
    var m := Trace(io, m0, [Line(true), Tick]);
    var raised := m0.(cop0 := UpdateInterrupts(m0.cop0, true));
    RaisedThenStepped(io, m0);
    StepSimulates(io, raised);
    NopLatches(io, Abstract(raised), CountUp());
    CountsOnce(io, Abstract(m));
    InterruptRunsTheInstruction(io, m);
    PutThere(Done(io, m).r, Settled(Fetch(io, Abstract(m))));
  }

  lemma PutThere(r: Regs, before: Regs)
    requires r == Put(before, 1, 1)
    ensures r[1] == 1
  {
  }

  lemma RaisedThenStepped<D>(io: Io<D>, m: Machine<D>)
    requires Boundary(m)
    ensures Trace(io, m, [Line(true), Tick]) == Step(io, m.(cop0 := UpdateInterrupts(m.cop0, true)))
  {
    hide Step, UpdateInterrupts;
    var raised := m.(cop0 := UpdateInterrupts(m.cop0, true));
    assert Trace(io, m, [Line(true)]) == raised by {
      assert [Line(true)][..0] == [];
    }
    assert [Line(true), Tick][..1] == [Line(true)];
  }

  /** NOP; SYSCALL. */
  function CallSystem(): (program: seq<u32>)
    ensures |program| == 2
  {
    [0, 0x0000_000C]
  }

  lemma FaultsBehindNop<D>(io: Io<D>, b: Core<D>)
    requires b.pc == Pc(1) && b.sys.mem == Image(CallSystem())
    ensures EffectAt(io, b).Raises?
  {
    hide Image, EffectAt, Fetch, Decode;
    FetchesProgram(io, b, CallSystem(), 1);
    BranchInSlotCodes();
  }

  lemma LineBit()
    ensures And(0x80, 0x80) == 0x80 && And(0x80, 0) == 0
  {
    AndSame(0x80);
  }

  lemma LineRequest(masked: bool)
    ensures Requested(0x8000, if masked then 1 else 0x8001) == !masked
  {
    hide Requested, And;
    RequestFields(0x8000, if masked then 1 else 0x8001);
    LineBit();
  }

  lemma LineRaised<D>(m: Machine<D>)
    requires m.cop0 == RESET.(status := m.cop0.status) && m.cop0.status % 2 == 1
    ensures var c := UpdateInterrupts(m.cop0, true);
            c.cause == 0x8000 && c.status == m.cop0.status && c.pendingInterrupts
  {
  }

  /** The line rises before the NOP and the SYSCALL behind it faults: the RFE of its handler makes the
      interrupt pending again if status unmasks it, and not if status masks it. */
  lemma InterruptReturns<D>(io: Io<D>, dev: D, masked: bool)
    ensures var m := Trace(io, Enabled(CallSystem(), dev, if masked then 1 else 0x8001), [Line(true), Tick]);
            && m.cpu.nextExcCode == EXC_INT && Faults(io, m)
            && !Step(io, m).cop0.pendingInterrupts
            && Rfe(Step(io, m).cop0).pendingInterrupts == !masked
  {
    hide Step, CoreStep, Image, EffectAt, Rfe, Requested, UpdateInterrupts;
    var m0 := Enabled(CallSystem(), dev, if masked then 1 else 0x8001);
    LineRaised(m0);
    var m := Trace(io, m0, [Line(true), Tick]);
    var raised := m0.(cop0 := UpdateInterrupts(m0.cop0, true));
    RaisedThenStepped(io, m0);
    StepSimulates(io, raised);
    NopLatches(io, Abstract(raised), CallSystem());
    FaultsBehindNop(io, Abstract(m));
    LatchedInterruptReturns(io, m);
    LineRequest(masked);
  }

  // ----- three exceptions open at once -----

  lemma OneMore(history: seq<Event>, e: Event)
    requires Nested(history) && (e.Enter? ==> e.code < 0x40) && (e == Return ==> Depth(history) > 0)
    ensures Nested(history + [e])
    ensures Depth(history + [e]) == Depth(history) + (if e.Enter? then 1 else -1)
    ensures Deepest(history + [e]) ==
            (if Depth(history + [e]) > Deepest(history) then Depth(history + [e]) else Deepest(history))
  {
    var longer := history + [e];
    assert longer[..|history|] == history;
    forall n | 0 <= n <= |longer| ensures Depth(longer[..n]) >= 0 {
      if n == |longer| {
        assert longer[..n] == longer;
        assert history[..|history|] == history;
      } else {
        assert longer[..n] == history[..n];
      }
    }
  }

  /** Three exceptions one inside the other, and the three returns. */
  function ThreeDeep(): seq<Event> {
    var e := Enter(EXC_SYS, 0, 0, NoSlot);
    [] + [e] + [e] + [e] + [Return] + [Return] + [Return]
  }

  /** They lose a current mode other than zero. */
  lemma ThreeDeepLoses(c: Cop0State)
    requires Current(c.status) != 0
    ensures Nested(ThreeDeep()) && Depth(ThreeDeep()) == 0 && Deepest(ThreeDeep()) == 3
    ensures Current(After(c, ThreeDeep()).status) == 0 != Current(c.status)
  {
    hide Depth, Deepest, Nested, After;
    var e := Enter(EXC_SYS, 0, 0, NoSlot);
    NoHistory();
    OneMore([], e);
    OneMore([] + [e], e);
    OneMore([] + [e] + [e], e);
    OneMore([] + [e] + [e] + [e], Return);
    OneMore([] + [e] + [e] + [e] + [Return], Return);
    OneMore([] + [e] + [e] + [e] + [Return] + [Return], Return);
    ModeStackNesting(c, ThreeDeep());
    LowBits(After(c, ThreeDeep()).status);
  }

  lemma NoHistory()
    ensures Nested([]) && Depth([]) == 0 && Deepest([]) == 0
  {
  }

  lemma LowBits(s: u32)
    requires s % 0x40 == 0
    ensures Current(s) == 0
  {
    FromPairs(s);
    Pairs(s / 0x40, Old(s), Previous(s), Current(s));
  }

  // ----- the scratchpad -----

  /** A store just past the scratchpad is read back at the reset vector. */
  lemma OverrunReachesBios<D>(io: Io<D>, s: Sys<D>, v: u8)
    ensures PastScratchpad(0x1F80_0400)
    ensures Read8(io, Write8(io, s, 0x1F80_0400, v), RESET_VECTOR).0 == v
  {
  }

  // ----- an unaligned round trip -----

  /** SWL $1, 0x104($0); SWR $1, 0x101($0); LWL $2, 0x104($0); LWR $2, 0x101($0). */
  function CopyUnaligned(): (program: seq<u32>)
    ensures |program| == 4
  {
    [0xA801_0104, 0xB801_0101, 0x8802_0104, 0x9802_0101]
  }

  lemma IsHalf(program: seq<u32>, k: nat, h: Handler, rt: RegNo, offset: int)
    requires k < |program| <= 0x100
    requires Decode(program[k]) == h && Rt(program[k]) == rt && Rs(program[k]) == 0
    requires Signed16(Imm(program[k])) == (if h.Lwl? || h.Swl? then offset + 3 else offset)
    ensures HalfAt(Image(program), Pc(k), h, rt, 0, offset)
  {
    hide Image, Decode, Rt, Rs, Imm, Signed16, WordAt, Readable;
    InImage(k);
    ImageWord(program, k);
  }

  lemma Encodings()
    ensures Decode(0xA801_0104) == Swl && Rt(0xA801_0104) == 1 && Rs(0xA801_0104) == 0 && Imm(0xA801_0104) == 0x104
    ensures Decode(0xB801_0101) == Swr && Rt(0xB801_0101) == 1 && Rs(0xB801_0101) == 0 && Imm(0xB801_0101) == 0x101
    ensures Decode(0x8802_0104) == Lwl && Rt(0x8802_0104) == 2 && Rs(0x8802_0104) == 0 && Imm(0x8802_0104) == 0x104
    ensures Decode(0x9802_0101) == Lwr && Rt(0x9802_0101) == 2 && Rs(0x9802_0101) == 0 && Imm(0x9802_0101) == 0x101
  {
  }

  lemma StoringHalves()
    ensures PairAt(Image(CopyUnaligned()), Pc(0), Pc(1), Swl, Swr, 1, 0, 0x101)
  {
    hide Image, HalfAt, Decode, Rt, Rs, Imm;
    Encodings();
    IsHalf(CopyUnaligned(), 0, Swl, 1, 0x101);
    IsHalf(CopyUnaligned(), 1, Swr, 1, 0x101);
  }

  lemma LoadingHalves()
    ensures PairAt(Image(CopyUnaligned()), Pc(2), Pc(3), Lwl, Lwr, 2, 0, 0x101)
  {
    hide Image, HalfAt, Decode, Rt, Rs, Imm;
    Encodings();
    IsHalf(CopyUnaligned(), 2, Lwl, 2, 0x101);
    IsHalf(CopyUnaligned(), 3, Lwr, 2, 0x101);
  }

  lemma FarFromCode(k: nat)
    requires k < 4
    ensures Readable(0x101) && Writable(0x101) && Apart(0x101, Pc(k))
  {
    InImage(k);
  }

  /** A program that meets every hypothesis of the unaligned round trip: it copies $1 to $2. */
  lemma CopiesUnaligned<D>(io: Io<D>, dev: D, w: u32)
    ensures var m := Loaded(CopyUnaligned(), dev);
            var start := m.(cpu := m.cpu.(r := ZeroRegisters()[1 := w]));
            && Boundary(start)
            && Steps(io, start, 4).cpu.loadReg == 2 && Steps(io, start, 4).cpu.loadValue == w
  {
    hide Image, HalfAt, Readable, Writable, Apart, Steps;
    var m := Loaded(CopyUnaligned(), dev);
    var start := m.(cpu := m.cpu.(r := ZeroRegisters()[1 := w]));
    StoringHalves();
    LoadingHalves();
    FarFromCode(1);
    FarFromCode(2);
    FarFromCode(3);
    UnalignedRoundTrip(io, start, Swl, Swr, Lwl, Lwr, 1, 2, 0, 0x101, 0x101);
  }

  // ----- a program that uploads a pixel and reads it back -----

  /** SW $2, $3, $4, $5, $6, $3, $4 to the address in $1, then LW $7 from it. */
  function SendAndAsk(): (program: seq<u32>)
    ensures |program| == 8
  {
    [0xAC22_0000, 0xAC23_0000, 0xAC24_0000, 0xAC25_0000, 0xAC26_0000, 0xAC23_0000, 0xAC24_0000, 0x8C27_0000]
  }

  /** Which register each store sends. */
  function Sender(k: nat): RegNo
    requires k < 7
  {
    if k < 5 then k + 2 else k - 2
  }

  /** The port, the upload command of one pixel at (0, 0), the pixel, and the download command. */
  function Prepared(pixel: u16): Regs {
    ZeroRegisters()[1 := GP0_PORT][2 := 0xA000_0000][4 := 0x1_0001][5 := pixel][6 := 0xC000_0000]
  }

  function Message(pixel: u16): (words: seq<u32>)
    ensures |words| == 7
  {
    [0xA000_0000, 0, 0x1_0001, pixel as u32, 0xC000_0000, 0, 0x1_0001]
  }

  ghost predicate Sending<E>(b: Core<Devices<E>>, k: nat, pixel: u16) {
    AtInstruction(b, SendAndAsk(), k) && b.r == Prepared(pixel) && b.cop0 == RESET
  }

  lemma StoreWord(k: nat)
    requires k < 7
    ensures var inst := SendAndAsk()[k];
            Decode(inst) == Sw && Rs(inst) == 1 && Rt(inst) == Sender(k) && Imm(inst) == 0
  {
  }

  lemma LoadWord()
    ensures var inst := SendAndAsk()[7];
            Decode(inst) == Lw && Rs(inst) == 1 && Rt(inst) == 7 && Imm(inst) == 0
  {
  }

  lemma OutsideGpu(k: nat)
    requires k < 0x100
    ensures !InGpu(Pc(k))
  {
    DivModUnique(Pc(k), 0x2000_0000, 5, BIOS_START + 4 * k);
  }

  lemma PortKeepsMemory<E>(other: Io<E>, s: Sys<Devices<E>>, w: u32)
    ensures Write32(PortIo(other), s, GP0_PORT, w).mem == s.mem
  {
    hide PortIo;
    PortAddress(GP0_PORT);
  }

  /** The words of the program are seen as they are fetched. */
  lemma SeenAt<E>(other: Io<E>, b: Core<Devices<E>>, k: nat, pixel: u16)
    requires Sending(b, k, pixel)
    ensures b.pc % 4 == 0 && Fetch(PortIo(other), b) == b.(inst := SendAndAsk()[k])
    ensures EffectAt(PortIo(other), b) == Execute(PortIo(other), CoreView(b.(inst := SendAndAsk()[k])))
    ensures CoreFetch(PortIo(other), b) == b.(inst := SendAndAsk()[k]) && !InGpu(b.pc)
  {
    hide Image, PortIo, Execute, InGpu, SendAndAsk;
    FetchesProgram(PortIo(other), b, SendAndAsk(), k);
    OutsideGpu(k);
  }

  lemma SendEffect<E>(other: Io<E>, b: Core<Devices<E>>, k: nat, pixel: u16)
    requires k < 7 && Sending(b, k, pixel)
    ensures Orderly(PortIo(other), b) && Accesses(PortIo(other), b) == [Sent(Message(pixel)[k])]
    ensures EffectAt(PortIo(other), b) == Stores(Write32(PortIo(other), b.sys, GP0_PORT, Message(pixel)[k]))
  {
    hide Image, PortIo, InGpu, Decode, Rs, Rt, Imm, EffectAt, CoreFetch, Fetch, Write32, SendAndAsk;
    var inst := SendAndAsk()[k];
    var v := CoreView(b.(inst := inst));
    SeenAt(other, b, k, pixel);
    StoreWord(k);
    assert Address(v) == GP0_PORT && Reg(v.r, Rt(inst)) == Message(pixel)[k];
  }

  lemma SendStep<E>(other: Io<E>, b: Core<Devices<E>>, k: nat, pixel: u16)
    requires k < 7 && Sending(b, k, pixel)
    ensures Orderly(PortIo(other), b) && Accesses(PortIo(other), b) == [Sent(Message(pixel)[k])]
    ensures Sending(CoreStep(LoadsLate, PortIo(other), b), k + 1, pixel)
  {
    hide Image, PortIo, Orderly, Accesses, EffectAt, Fetch, Write32, Raise, SendAndAsk, Prepared, Message, Execute;
    SeenAt(other, b, k, pixel);
    SendEffect(other, b, k, pixel);
    PortKeepsMemory(other, b.sys, Message(pixel)[k]);
  }

  lemma AskStep<E>(other: Io<E>, b: Core<Devices<E>>, pixel: u16)
    requires Sending(b, 7, pixel)
    ensures Orderly(PortIo(other), b) && Accesses(PortIo(other), b) == [Asked]
  {
    hide Image, PortIo, InGpu, Decode, Rs, Rt, Imm, EffectAt, CoreFetch, Fetch, Read32, SendAndAsk;
    var v := CoreView(b.(inst := SendAndAsk()[7]));
    SeenAt(other, b, 7, pixel);
    LoadWord();
    assert Address(v) == GP0_PORT;
  }

  function StartSending<E>(pixel: u16, rest: E): Machine<Devices<E>> {
    var m := Loaded(SendAndAsk(), Devices(IdleGpu(), rest));
    m.(cpu := m.cpu.(r := Prepared(pixel)))
  }

  lemma Starts<E>(other: Io<E>, pixel: u16, rest: E)
    ensures var io, m := PortIo(other), StartSending(pixel, rest);
            && Boundary(m) && Sending(Abstract(m), 0, pixel)
            && OrderlyRun(io, m, []) && AccessesBy(io, m, []) == Sends([]) && Trace(io, m, []) == m
  {
    hide Image, IdleGpu, PortIo;
  }

  lemma {:induction false} SentSoFar<E>(other: Io<E>, rest: E, pixel: u16, k: nat)
    requires k <= 7
    ensures var io, m, hs := PortIo(other), StartSending(pixel, rest), Ticks(k);
            && Boundary(m) && Sending(Abstract(Trace(io, m, hs)), k, pixel)
            && OrderlyRun(io, m, hs) && AccessesBy(io, m, hs) == Sends(Message(pixel)[..k])
  {
    hide PortIo, CoreStep, Orderly, Accesses, Boundary, Sending, Abstract, StartSending, Message;
    hide OrderlyRun, AccessesBy, Trace;
    var io, m := PortIo(other), StartSending(pixel, rest);
    Starts(other, pixel, rest);
    if k == 0 {
      assert Message(pixel)[..0] == [];
    } else {
      SentSoFar(other, rest, pixel, k - 1);
      SendStep(other, Abstract(Trace(io, m, Ticks(k - 1))), k - 1, pixel);
      OneMoreStep(io, m, Ticks(k - 1));
      assert Message(pixel)[..k][..k - 1] == Message(pixel)[..k - 1];
    }
  }

  lemma OnePixel()
    ensures var t := GP.Started(0, 0x1_0001);
            Transfers.Area(t) == 1 && Transfers.UploadWords(1) == 1 == Transfers.DownloadWords(1) && t.w == 1
  {
  }

  /** The seven stores and the load. */
  lemma AsksAtLast<E>(other: Io<E>, rest: E, pixel: u16)
    ensures var io, m := PortIo(other), StartSending(pixel, rest);
            && Boundary(m) && OrderlyRun(io, m, Ticks(8))
            && AccessesBy(io, m, Ticks(8)) == Sends(Message(pixel)) + [Asked]
  {
    hide PortIo, Orderly, Accesses, Sending, StartSending, Message, Sends, OrderlyRun, AccessesBy, Trace;
    var io, m := PortIo(other), StartSending(pixel, rest);
    SentSoFar(other, rest, pixel, 7);
    AskStep(other, Abstract(Trace(io, m, Ticks(7))), pixel);
    OneMoreStep(io, m, Ticks(7));
    assert Message(pixel)[..7] == Message(pixel);
  }

  /** A program that meets every hypothesis of the program round trip: the word it loads holds the pixel
      it sent. */
  lemma PixelComesBack<E>(other: Io<E>, rest: E, pixel: u16)
    ensures var io, m := PortIo(other), StartSending(pixel, rest);
            && Boundary(m) && OrderlyRun(io, m, Ticks(8))
            && |AnswersTo(io, m, Ticks(8))| == 1 && AnswersTo(io, m, Ticks(8))[0] % TWO_16 == pixel
  {
    hide PortIo, OrderlyRun, AccessesBy, AnswersTo, Trace, Ticks, GP.Started, Transfers.Area, IdleGpu, Sends;
    var io, m := PortIo(other), StartSending(pixel, rest);
    var up: seq<u32>, data: seq<u32> := [0xA000_0000, 0, 0x1_0001], [pixel];
    var down: seq<u32> := [0xC000_0000, 0, 0x1_0001];
    AsksAtLast(other, rest, pixel);
    OnePixel();
    assert Message(pixel) == up + data + down;
    assert Asks(1) == [] + [Asked] == [Asked];
    IsRoundTripOfOne(pixel);
    ProgramRoundTrip(other, m, Ticks(8), up, data, down, 0);
    FirstPixel(m.sys.dev.gpu.vram, pixel, AnswersTo(io, m, Ticks(8)));
  }

  lemma IsRoundTripOfOne(pixel: u16)
    ensures IsRoundTrip([0xA000_0000, 0, 0x1_0001], [pixel], [0xC000_0000, 0, 0x1_0001])
    ensures Stream.AtRest(IdleGpu())
  {
    OnePixel();
  }

  lemma FirstPixel(vram: GP.Vram, pixel: u16, words: seq<u32>)
    requires |words| == 1
    ensures Stream.Expected(vram, GP.Started(0, 0x1_0001), [pixel], 0) == pixel
    ensures Transfers.Pixels(words)[0] == words[0] % TWO_16
  {
    OnePixel();
    Stream.PixelOfWord([pixel], 0);
    Stream.PixelOfWord(words, 0);
  }
}
