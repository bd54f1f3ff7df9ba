/** What exceptions guarantee on every run: precision, the restart address, and the flags the
    coprocessor caches. */
module Exceptions {
  import opened Words
  import opened Memory
  import opened Cop0
  import opened Isa
  import opened Pipeline
  import opened Core

  // ----- precise synchronous exceptions -----

  /** The step from m raises an exception of its own: its pc is misaligned or its instruction faults. */
  ghost predicate Faults<D>(io: Io<D>, m: Machine<D>) {
    EffectAt(io, Abstract(m)).Raises?
  }

  /** The system after the fetch of this step; only a fetch from a device port can differ from m.sys. */
  function SystemAfterFetch<D>(io: Io<D>, m: Machine<D>): Sys<D> {
    Fetch(io, Abstract(m)).sys
  }

  function InstAfterFetch<D>(io: Io<D>, m: Machine<D>): u32 {
    Fetch(io, Abstract(m)).inst
  }

  /** A faulting step changes nothing but the coprocessor and the program counter, whether or not an
      interrupt is latched: the load already in flight lands, and memory, devices, hi, lo and all other
      registers are untouched. The interrupt latch is dropped. */
  lemma PreciseException<D>(io: Io<D>, m: Machine<D>)
    requires Boundary(m) && Faults(io, m)
    ensures var code := EffectAt(io, Abstract(m)).code;
            var n := Step(io, m);
            && code in FAULTS
            && n.sys == SystemAfterFetch(io, m)
            && (ReadLocation(m.cpu.pc).At? ==> n.sys == m.sys)
            && n.cpu.r == LoadedRegs(m.cpu) && n.cpu.loadReg == 0
            && n.cpu.hi == m.cpu.hi && n.cpu.lo == m.cpu.lo
            && n.cpu.pc == EXCEPTION_VECTOR && SlotOf(n.cpu) == NoSlot
            && n.cop0 == Raise(m.cop0, code, m.cpu.pc, InstAfterFetch(io, m), SlotOf(m.cpu))
            && n.cpu.nextExcCode == EXC_NONE && !n.cop0.pendingInterrupts
  {
    hide Step, EffectAt, GetNextPc, CauseOf, PushMode, IsolateSet, Requested, ReadLocation;
    StepSimulates(io, m);
    StepKeepsBoundary(io, m);
    QuietFetch(io, Abstract(m));
  }

  lemma QuietFetch<D>(io: Io<D>, b: Core<D>)
    ensures var f := Fetch(io, b);
            f == b.(inst := f.inst, sys := f.sys) && f.sys.mem == b.sys.mem
    ensures ReadLocation(b.pc).At? ==> Fetch(io, b).sys == b.sys
  {
    hide ReadLocation;
  }

  // ----- interrupts -----

  /** The machine of a step just before it completes: the instruction has had its effect. */
  function Done<D>(io: Io<D>, m: Machine<D>): Core<D> {
    Effected(LoadsLate, Fetch(io, Abstract(m)), EffectAt(io, Abstract(m)))
  }

  /** A latched interrupt is taken one instruction late, exactly when that instruction does not fault: it
      completes, and yet pc (or the branch before it) is recorded as the place to resume, so it will run a
      second time. When it faults its own code is recorded and the latch is dropped. */
  lemma InterruptRunsTheInstruction<D>(io: Io<D>, m: Machine<D>)
    requires Boundary(m) && m.cpu.nextExcCode == EXC_INT
    ensures var n := Step(io, m);
            && n.cpu.pc == EXCEPTION_VECTOR && n.cpu.nextExcCode == EXC_NONE && !n.cop0.pendingInterrupts
            && (n.cop0.cause / 4 % 0x40 == EXC_INT <==> !Faults(io, m))
            && n.cop0.epc == (if SlotOf(m.cpu).InSlot? then Wrap(m.cpu.pc - 4) else m.cpu.pc)
            && (!Faults(io, m) ==> Abstract(n) == Trap(Done(io, m), EXC_INT))
            && n.cpu.r == Done(io, m).r && n.sys == Done(io, m).sys
  {
    hide Step, EffectAt, GetNextPc, CauseOf, PushMode, IsolateSet, Requested, Effected, Fetch;
    StepSimulates(io, m);
    StepKeepsBoundary(io, m);
    DoneKeepsControl(io, m);
    CauseBits(Done(io, m).cop0, EntryCode(io, m), m.cpu.pc, Done(io, m).inst, SlotOf(m.cpu));
  }

  lemma DoneKeepsControl<D>(io: Io<D>, m: Machine<D>)
    ensures var d := Done(io, m);
            && d.pc == m.cpu.pc && d.npc == GetNextPc(m.cpu) && d.slot == SlotOf(m.cpu)
            && d.interrupted == (m.cpu.nextExcCode == EXC_INT)
            && Fetch(io, Abstract(m)).interrupted == d.interrupted
  {
    hide EffectAt, GetNextPc, SlotOf, Settled, Read32;
  }

  // ----- the restart address -----

  /** The step from m enters the exception handler. */
  ghost predicate Enters<D>(io: Io<D>, m: Machine<D>) {
    m.cpu.nextExcCode == EXC_INT || Faults(io, m)
  }

  /** The code it enters with: a fault goes before a latched interrupt. */
  function EntryCode<D>(io: Io<D>, m: Machine<D>): (code: u8)
    ensures code < 0x40
  {
    if EffectAt(io, Abstract(m)).Raises? then EffectAt(io, Abstract(m)).code else EXC_INT
  }

  lemma EntersRecords<D>(io: Io<D>, m: Machine<D>)
    requires Boundary(m) && Enters(io, m)
    ensures Step(io, m).cop0 == Raise(Done(io, m).cop0, EntryCode(io, m), m.cpu.pc, Done(io, m).inst, SlotOf(m.cpu))
  {
    hide Step, EffectAt, GetNextPc, Raise, Effected, Fetch;
    StepSimulates(io, m);
    DoneKeepsControl(io, m);
  }

  /** Only a branch that ran to its end leaves a delay slot behind. */
  lemma SlotNeedsBranch<D>(io: Io<D>, b: Core<D>)
    requires CoreStep(LoadsLate, io, b).slot.InSlot?
    ensures var e := EffectAt(io, b);
            var n := CoreStep(LoadsLate, io, b);
            (e.Branches? || e.Links?) && n.slot == InSlot(e.taken, e.target) && n.pc == b.npc
  {
    hide EffectAt, Read32, Raise, Settled, Put;
  }

  lemma CauseFields(ip: nat, code: nat, number: nat, taken: nat, delayed: nat)
    requires ip < 0x100 && code < 0x40 && number < 4 && taken < 2 && delayed < 2
    ensures var c := ip * 0x100 + code * 4 + number * 0x1000_0000 + taken * 0x4000_0000 + delayed * 0x8000_0000;
            c / 0x8000_0000 == delayed && c / 0x4000_0000 % 2 == taken
            && c / 4 % 0x40 == code && c / 0x100 % 0x100 == ip
  {
    var c := ip * 0x100 + code * 4 + number * 0x1000_0000 + taken * 0x4000_0000 + delayed * 0x8000_0000;
    assert c / 0x4000_0000 == taken + 2 * delayed;
    assert c / 4 == code + 0x40 * (ip + number * 0x10_0000 + taken * 0x40_0000 + delayed * 0x80_0000);
    assert c / 0x100 == ip + 0x100 * (number * 0x1000 + taken * 0x4000 + delayed * 0x8000);
  }

  lemma CauseBits(c: Cop0State, code: u8, pc: u32, inst: u32, slot: Slot)
    requires code < 0x40
    ensures var cause := Raise(c, code, pc, inst, slot).cause;
            && (cause / 0x8000_0000 == 1 <==> slot.InSlot?)
            && (cause / 0x4000_0000 % 2 == 1 <==> slot.InSlot? && slot.taken)
            && cause / 4 % 0x40 == code
            && InterruptBits(cause) == InterruptBits(c.cause)
  {
    hide PushMode, Requested, IsolateSet;
    CauseFields(InterruptBits(c.cause), code,
                if code == EXC_IBE || code == EXC_DBE then 0 else inst / 0x400_0000 % 4,
                if slot.InSlot? && slot.taken then 1 else 0,
                if slot.InSlot? then 1 else 0);
  }

  /** The mask and enable bits that an exception and the RFE behind it leave. */
  lemma MasksReturn(status: u32)
    ensures var s := PopMode(PushMode(status));
            InterruptBits(s) == InterruptBits(status) && s % 2 == status % 2
  {
    hide PushMode, PopMode;
    PushPairs(status);
    PopPairs(PushMode(status));
    FromUpperAndPair(status);
    FromUpperAndPair(PopMode(PushMode(status)));
  }

  lemma FromUpperAndPair(s: u32)
    ensures InterruptBits(s) == s / 0x40 / 4 % 0x100 && s % 2 == Current(s) % 2
  {
    var upper, low := s / 0x40, s % 0x40;
    DivModUnique(s, 0x100, upper / 4, upper % 4 * 0x40 + low);
    DivModUnique(s, 2, s / 4 * 2 + s % 4 / 2, s % 4 % 2);
  }

  /** The RFE behind an exception makes an interrupt pending again exactly when one was requested, that
      is enabled and not masked in status, before it. */
  lemma RfeAfterRaise(c: Cop0State, code: u8, pc: u32, inst: u32, slot: Slot)
    requires code < 0x40
    ensures Rfe(Raise(c, code, pc, inst, slot)).pendingInterrupts == Requested(c.cause, c.status)
  {
    hide PushMode, PopMode, CauseOf, Requested, IsolateSet;
    var raised := Raise(c, code, pc, inst, slot);
    CauseBits(c, code, pc, inst, slot);
    MasksReturn(c.status);
    RequestFields(c.cause, c.status);
    RequestFields(raised.cause, PopMode(raised.status));
  }

  /** What becomes of an interrupt that is latched when the next instruction faults: the latch is dropped,
      and the RFE that ends the handler makes it pending again exactly when it is enabled and unmasked.
      One that is masked in status, which the interrupt line latches all the same, is not raised again until
      the line next changes. */
  lemma LatchedInterruptReturns<D>(io: Io<D>, m: Machine<D>)
    requires Boundary(m) && m.cpu.nextExcCode == EXC_INT && Faults(io, m)
    ensures var n := Step(io, m);
            && n.cpu.nextExcCode == EXC_NONE && !n.cop0.pendingInterrupts
            && Rfe(n.cop0).pendingInterrupts == Requested(m.cop0.cause, m.cop0.status)
  {
    hide Step, EffectAt, Raise, Rfe, Requested, CauseOf;
    PreciseException(io, m);
    RfeAfterRaise(m.cop0, EffectAt(io, Abstract(m)).code, m.cpu.pc, InstAfterFetch(io, m), SlotOf(m.cpu));
  }

  /** What the coprocessor holds after an exception in the delay slot of the branch that p runs. */
  ghost predicate DescribesBranch<D>(io: Io<D>, p: Machine<D>, c: Cop0State) {
    var e := EffectAt(io, Abstract(p));
    && (e.Branches? || e.Links?)
    && c.tar == e.target
    && c.cause / 0x8000_0000 == 1
    && (c.cause / 0x4000_0000 % 2 == 1 <==> e.taken)
    && (c.epc == p.cpu.pc <==> GetNextPc(p.cpu) == p.cpu.nextPc)
  }

  /** When the last step of a history began, or -1 if it has none. */
  function LastTick(hs: seq<Happening>): (n: int)
    ensures -1 <= n < |hs|
  {
    if hs == [] then -1
    else if hs[|hs| - 1] == Tick then |hs| - 1
    else LastTick(hs[..|hs| - 1])
  }

  /** The interrupt line does not touch the processor. */
  lemma {:induction false} SinceLastTick<D>(io: Io<D>, start: Machine<D>, hs: seq<Happening>)
    requires Boundary(start)
    ensures var k := LastTick(hs);
            Trace(io, start, hs).cpu == if k < 0 then start.cpu else Step(io, Trace(io, start, hs[..k])).cpu
  {
    hide Step, UpdateInterrupts, Boundary;
    if hs == [] {
    } else {
      var front := hs[..|hs| - 1];
      SinceLastTick(io, start, front);
      assert LastTick(front) >= 0 ==> front[..LastTick(front)] == hs[..LastTick(front)];
    }
  }

  /** On every run, with the interrupt line changing at any moment: when an exception hits a delay slot,
      the branch that opened the slot ran in the step before, TAR and the BD and BT bits describe that
      branch, and EPC is its address exactly when that branch was not itself diverted by a taken branch
      before it. */
  lemma RestartAddress<D>(io: Io<D>, start: Machine<D>, hs: seq<Happening>)
    requires Boundary(start) && SlotOf(start.cpu) == NoSlot
    requires SlotOf(Trace(io, start, hs).cpu).InSlot? && Enters(io, Trace(io, start, hs))
    ensures LastTick(hs) >= 0
    ensures DescribesBranch(io, Trace(io, start, hs[..LastTick(hs)]), Step(io, Trace(io, start, hs)).cop0)
  {
    hide Enters, Step, SlotOf, DescribesBranch, Boundary, Trace;
    SinceLastTick(io, start, hs);
    RestartStep(io, Trace(io, start, hs[..LastTick(hs)]), Trace(io, start, hs));
  }

  lemma RestartStep<D>(io: Io<D>, p: Machine<D>, m: Machine<D>)
    requires Boundary(p) && Boundary(m) && m.cpu == Step(io, p).cpu
    requires SlotOf(m.cpu).InSlot? && Enters(io, m)
    ensures DescribesBranch(io, p, Step(io, m).cop0)
  {
    hide Enters, EffectAt, Step, SlotOf, GetNextPc, Abstract, Wrap;
    SlotHasBranch(io, p);
    SlotRecorded(io, m);
    FourBack(GetNextPc(p.cpu), p.cpu.pc);
  }

  lemma FourBack(next: u32, pc: u32)
    ensures Wrap(next - 4) == pc <==> next == Wrap(pc + 4)
  {
  }

  lemma SlotRecorded<D>(io: Io<D>, m: Machine<D>)
    requires Boundary(m) && SlotOf(m.cpu).InSlot? && Enters(io, m)
    ensures var c := Step(io, m).cop0;
            && c.epc == Wrap(m.cpu.pc - 4)
            && c.tar == SlotOf(m.cpu).target
            && c.cause / 0x8000_0000 == 1
            && (c.cause / 0x4000_0000 % 2 == 1 <==> SlotOf(m.cpu).taken)
  {
    hide Step, CauseOf, PushMode, Requested, IsolateSet, SlotOf, Done, Enters, EntryCode;
    EntersRecords(io, m);
    CauseBits(Done(io, m).cop0, EntryCode(io, m), m.cpu.pc, Done(io, m).inst, SlotOf(m.cpu));
  }

  /** The encoded form of SlotNeedsBranch. */
  lemma SlotHasBranch<D>(io: Io<D>, p: Machine<D>)
    requires Boundary(p) && SlotOf(Step(io, p).cpu).InSlot?
    ensures var e := EffectAt(io, Abstract(p));
            && (e.Branches? || e.Links?)
            && SlotOf(Step(io, p).cpu) == InSlot(e.taken, e.target)
            && Step(io, p).cpu.pc == GetNextPc(p.cpu)
  {
    hide Step, CoreStep, EffectAt;
    StepSimulates(io, p);
    SlotNeedsBranch(io, Abstract(p));
  }

  /** Outside a delay slot the restart address is the instruction itself. */
  lemma RestartOutsideSlot<D>(io: Io<D>, m: Machine<D>)
    requires Boundary(m) && SlotOf(m.cpu) == NoSlot && Enters(io, m)
    ensures Step(io, m).cop0.epc == m.cpu.pc && Step(io, m).cop0.cause / 0x8000_0000 == 0
  {
    hide Step, CauseOf, Done, Enters, EntryCode, SlotOf;
    EntersRecords(io, m);
    CauseBits(Done(io, m).cop0, EntryCode(io, m), m.cpu.pc, Done(io, m).inst, SlotOf(m.cpu));
  }

  // ----- the cached flags -----

  /** How one instruction can touch the system and the coprocessor. */
  lemma EffectBounds<D>(io: Io<D>, h: Handler, v: View<D>)
    requires FlagsAgree(v.cop0)
    ensures var e := Meaning(io, h, v);
            && (e.SetsCop0? ==> FlagsAgree(e.cop0))
            && (e.Stores? ==> !v.cop0.cacheIsolated)
            && (e.Loads? ==> e.sys.mem == v.sys.mem)
  {
    hide RegResult, ShiftResult, ImmResult, Read8, Read16, Read32, Write8, Write16, Write32, LeftWord, RightWord;
    hide StoreLeft, StoreRight, Wrap, Signed, Signed8, Signed16, Reg, Rs, Rt, Rd, Imm, Shamt, BranchTarget, JumpTarget;
    hide Address, Cop0.Write, Cop0.Read, Rfe, FlagsAgree, SignedQuotient, UnsignedQuotient, Product;
    ReadsKeepMemory(io, v);
    WriteKeepsFlags(v.cop0, Rd(v.inst), Reg(v.r, Rt(v.inst)));
    RfeKeepsFlags(v.cop0);
  }

  lemma ReadsKeepMemory<D>(io: Io<D>, v: View<D>)
    ensures var a := Address(v);
            && Read8(io, v.sys, a).1.mem == v.sys.mem
            && (a % 2 == 0 ==> Read16(io, v.sys, a).1.mem == v.sys.mem)
            && (a % 4 == 0 ==> Read32(io, v.sys, a).1.mem == v.sys.mem)
            && LeftWord(io, v.sys, a, Reg(v.loaded, Rt(v.inst))).1.mem == v.sys.mem
            && RightWord(io, v.sys, a, Reg(v.loaded, Rt(v.inst))).1.mem == v.sys.mem
  {
    hide SetHigh8, SetHigh16, SetHigh24, SetLow24, SetLow16, SetLow8, ReadLocation, Reg, Rt, Address, Wrap;
  }

  lemma CoreFlags<D>(io: Io<D>, b: Core<D>)
    requires FlagsAgree(b.cop0)
    ensures var n := CoreStep(LoadsLate, io, b);
            && FlagsAgree(n.cop0)
            && (b.cop0.cacheIsolated ==> n.sys.mem == b.sys.mem)
  {
    hide Meaning, Decode, Complete, FlagsAgree, ReadLocation;
    QuietFetch(io, b);
    var f := Fetch(io, b);
    EffectBounds(io, Decode(f.inst), CoreView(f));
    CompleteFlags(f, EffectAt(io, b));
  }

  lemma CompleteFlags<D>(b: Core<D>, e: Effect<D>)
    requires FlagsAgree(b.cop0) && (e.Raises? ==> e.code < 0x40)
    requires e.SetsCop0? ==> FlagsAgree(e.cop0)
    requires e.Stores? ==> !b.cop0.cacheIsolated
    requires e.Loads? ==> e.sys.mem == b.sys.mem
    ensures var n := Complete(LoadsLate, b, e);
            && FlagsAgree(n.cop0)
            && (b.cop0.cacheIsolated ==> n.sys.mem == b.sys.mem)
  {
    hide Raise, FlagsAgree, Settled, Put;
    var b1 := Effected(LoadsLate, b, e);
    RaiseKeepsFlags(b1.cop0, if e.Raises? then e.code else EXC_INT, b1.pc, b1.inst, b1.slot);
  }

  lemma StepFlags<D>(io: Io<D>, m: Machine<D>)
    requires Boundary(m) && FlagsAgree(m.cop0)
    ensures FlagsAgree(Step(io, m).cop0)
    ensures IsolateSet(m.cop0.status) ==> Step(io, m).sys.mem == m.sys.mem
  {
    hide Step, CoreStep;
    StepSimulates(io, m);
    CoreFlags(io, Abstract(m));
  }

  /** In every state reachable from reset, by steps and interrupt line changes in any order, the
      isolation flag is status bit 16 and a pending interrupt is enabled and has a cause bit set. */
  lemma {:induction false} FlagsAgreeAlways<D>(io: Io<D>, m: Machine<D>, hs: seq<Happening>)
    requires Boundary(m) && FlagsAgree(m.cop0)
    ensures FlagsAgree(Trace(io, m, hs).cop0)
  {
    hide Step, FlagsAgree, UpdateInterrupts;
    if hs == [] {
    } else {
      var before := Trace(io, m, hs[..|hs| - 1]);
      FlagsAgreeAlways(io, m, hs[..|hs| - 1]);
      StepFlags(io, before);
      if hs[|hs| - 1].Line? {
        UpdateKeepsFlags(before.cop0, hs[|hs| - 1].pending);
      }
    }
  }

  /** While status bit 16 is set no instruction changes memory, over any stretch of a run. */
  lemma {:induction false} IsolationProtectsMemory<D>(io: Io<D>, m: Machine<D>, hs: seq<Happening>)
    requires Boundary(m) && FlagsAgree(m.cop0)
    requires forall k :: 0 <= k < |hs| && hs[k] == Tick ==> IsolateSet(Trace(io, m, hs[..k]).cop0.status)
    ensures Trace(io, m, hs).sys.mem == m.sys.mem
  {
    hide Step, FlagsAgree, Boundary, IsolateSet, UpdateInterrupts;
    if hs == [] {
    } else {
      var n := |hs| - 1;
      var front := hs[..n];
      assert forall k :: 0 <= k < n ==> front[..k] == hs[..k];
      IsolationProtectsMemory(io, m, front);
      FlagsAgreeAlways(io, m, front);
      StepFlags(io, Trace(io, m, front));
    }
  }

  /** A store instruction run with bit 16 set does nothing at all: no device sees it either. */
  lemma IsolatedStore<D>(io: Io<D>, m: Machine<D>)
    requires Boundary(m) && FlagsAgree(m.cop0) && IsolateSet(m.cop0.status)
    requires m.cpu.pc % 4 == 0 && Decode(InstAfterFetch(io, m)) in {Sb, Sh, Sw, Swl, Swr}
    ensures Step(io, m).sys == SystemAfterFetch(io, m)
    ensures Step(io, m).cpu.r == LoadedRegs(m.cpu)
  {
    hide Step, Execute, Decode, Read32, Raise;
    StepSimulates(io, m);
    StoreSkipped(io, CoreView(CoreFetch(io, Abstract(m))));
  }

  lemma StoreSkipped<D>(io: Io<D>, v: View<D>)
    requires v.cop0.cacheIsolated && Decode(v.inst) in {Sb, Sh, Sw, Swl, Swr}
    ensures Execute(io, v) == Nothing
  {
    hide Decode;
  }

  /** The flags are right in every state reachable from reset. */
  lemma FlagsFromReset<D>(io: Io<D>, sys: Sys<D>, hs: seq<Happening>)
    ensures Boundary(Machine(ResetCpu(), RESET, sys))
    ensures FlagsAgree(Trace(io, Machine(ResetCpu(), RESET, sys), hs).cop0)
  {
    FlagsAgreeAlways(io, Machine(ResetCpu(), RESET, sys), hs);
  }
}
