/** The processor as its manual describes it: two program counters, one explicit delay slot, and
    loads that arrive either one instruction late or at once. */
module Core {
  import opened Words
  import opened Memory
  import opened Cop0
  import opened Isa
  import opened Pipeline

  /** LoadsLate is the real machine; LoadsAtOnce is the one programmers would like to reason about. */
  datatype Mode = LoadsLate | LoadsAtOnce

  datatype Pending = NoLoad | Pending(reg: RegNo, value: u32)

  datatype Core<D> = Core(pc: u32, npc: u32, slot: Slot, r: Regs, load: Pending, hi: u32, lo: u32, inst: u32,
                          interrupted: bool, cop0: Cop0State, sys: Sys<D>)

  function Put(r: Regs, reg: RegNo, value: u32): Regs {
    if reg == 0 then r else r[reg := value]
  }

  function Settled<D>(b: Core<D>): Regs {
    if b.load.NoLoad? then b.r else Put(b.r, b.load.reg, b.load.value)
  }

  function CoreView<D>(b: Core<D>): View<D> {
    View(b.inst, b.r, Settled(b), b.hi, b.lo, b.npc, b.cop0, b.sys)
  }

  /** The register and system state after an instruction; a load in flight lands unless overtaken. */
  function Effected<D>(mode: Mode, b: Core<D>, e: Effect<D>): Core<D> {
    var b1 := b.(r := Settled(b), load := NoLoad);
    match e
    case Nothing | Raises(_) | Branches(_, _) => b1
    case Writes(reg, value) => b1.(r := Put(b1.r, reg, value))
    case Links(_, _, reg, link) => b1.(r := Put(b1.r, reg, link))
    case SetsHiLo(hi, lo) => b1.(hi := hi, lo := lo)
    case Stores(sys) => b1.(sys := sys)
    case SetsCop0(cop0) => b1.(cop0 := cop0)
    case Loads(reg, value, sys) =>
      if mode.LoadsAtOnce? then b1.(r := Put(b1.r, reg, value), sys := sys)
      else b1.(r := if b.load.Pending? && b.load.reg == reg then b.r else b1.r,
               load := if reg == 0 then NoLoad else Pending(reg, value),
               sys := sys)
  }

  function Trap<D>(b: Core<D>, code: u8): Core<D>
    requires code < 0x40
  {
    b.(cop0 := Raise(b.cop0, code, b.pc, b.inst, b.slot),
       pc := EXCEPTION_VECTOR, npc := EXCEPTION_VECTOR + 4, slot := NoSlot, interrupted := false)
  }

  function Proceed<D>(b: Core<D>, e: Effect<D>): Core<D> {
    b.(pc := b.npc,
       npc := if (e.Branches? || e.Links?) && e.taken then e.target else Wrap(b.npc + 4),
       slot := if e.Branches? || e.Links? then InSlot(e.taken, e.target) else NoSlot,
       interrupted := b.cop0.pendingInterrupts)
  }

  function Complete<D>(mode: Mode, b: Core<D>, e: Effect<D>): Core<D>
    requires e.Raises? ==> e.code < 0x40
  {
    var b1 := Effected(mode, b, e);
    if e.Raises? then Trap(b1, e.code)
    else if b.interrupted then Trap(b1, EXC_INT)
    else Proceed(b1, e)
  }

  function CoreFetch<D>(io: Io<D>, b: Core<D>): Core<D>
    requires b.pc % 4 == 0
  {
    var (inst, sys) := AlignedRead32(io, b.sys, b.pc);
    b.(inst := inst, sys := sys)
  }

  /** What the instruction at pc does. */
  function CoreEffect<D>(io: Io<D>, b: Core<D>): (e: Effect<D>)
    requires b.pc % 4 == 0
    ensures e.Raises? ==> e.code in FAULTS
  {
    var b1 := CoreFetch(io, b);
    CodesAreKnown(io, Decode(b1.inst), CoreView(b1));
    Execute(io, CoreView(b1))
  }

  /** What the step from b does: a misaligned pc is a fault of its own. */
  function EffectAt<D>(io: Io<D>, b: Core<D>): (e: Effect<D>)
    ensures e.Raises? ==> e.code in FAULTS
  {
    if b.pc % 4 != 0 then Raises(EXC_ADEL) else CoreEffect(io, b)
  }

  function Fetch<D>(io: Io<D>, b: Core<D>): Core<D> {
    if b.pc % 4 != 0 then b else CoreFetch(io, b)
  }

  function CoreStep<D>(mode: Mode, io: Io<D>, b: Core<D>): Core<D> {
    Complete(mode, Fetch(io, b), EffectAt(io, b))
  }

  function CoreSteps<D>(mode: Mode, io: Io<D>, b: Core<D>, n: nat): Core<D> {
    if n == 0 then b else CoreStep(mode, io, CoreSteps(mode, io, b, n - 1))
  }

  function CoreTrace<D>(mode: Mode, io: Io<D>, b: Core<D>, hs: seq<Happening>): Core<D> {
    if hs == [] then b
    else
      var before := CoreTrace(mode, io, b, hs[..|hs| - 1]);
      match hs[|hs| - 1]
      case Tick => CoreStep(mode, io, before)
      case Line(pending) => before.(cop0 := UpdateInterrupts(before.cop0, pending))
  }

  // ----- the encoding refines the two-counter machine -----

  /** What the encoding stands for. A branch target outside a delay slot and a load value for
      register 0 are left over from earlier instructions and stand for nothing. */
  function Abstract<D>(m: Machine<D>): Core<D> {
    Core(m.cpu.pc, GetNextPc(m.cpu), SlotOf(m.cpu), m.cpu.r,
         if m.cpu.loadReg == 0 then NoLoad else Pending(m.cpu.loadReg, m.cpu.loadValue),
         m.cpu.hi, m.cpu.lo, m.cpu.inst, m.cpu.nextExcCode == EXC_INT, m.cop0, m.sys)
  }

  /** Committing the pending load after effect e leaves the registers and the system as Effected says. */
  lemma CommitIsEffected<D>(m: Machine<D>, e: Effect<D>)
    requires Boundary(m)
    ensures var m1 := Perform(m.(cpu := BeginStep(m.cpu)), e);
            var c := CommitLoad(m1.cpu);
            var b := Effected(LoadsLate, Abstract(m), e);
            && c.r == b.r && c.hi == b.hi && c.lo == b.lo && m1.cop0 == b.cop0 && m1.sys == b.sys
            && (if c.loadReg == 0 then b.load == NoLoad else b.load == Pending(c.loadReg, c.loadValue))
  {
    hide GetNextPc, SlotOf;
  }

  /** Finishing an encoded step after effect e completes e on the two-counter machine. */
  lemma FinishCompletes<D>(m: Machine<D>, e: Effect<D>)
    requires Boundary(m) && (e.Raises? ==> e.code < 0x40 && e.code != EXC_INT)
    ensures var m1 := Perform(m.(cpu := BeginStep(m.cpu)), e);
            KnownCode(m1.cpu.nextExcCode) && Abstract(FinishStep(m1)) == Complete(LoadsLate, Abstract(m), e)
  {
    hide Raise, LoadedRegs, Settled, Put;
    CommitIsEffected(m, e);
  }

  lemma StepSimulates<D>(io: Io<D>, m: Machine<D>)
    requires Boundary(m)
    ensures Abstract(Step(io, m)) == CoreStep(LoadsLate, io, Abstract(m))
  {
    hide Read32, Execute, FinishStep, Complete;
    var m1 := m.(cpu := BeginStep(m.cpu));
    if m.cpu.pc % 4 != 0 {
      FinishCompletes(m, Raises(EXC_ADEL));
    } else {
      var m2 := Fetched(io, m);
      var e := CoreEffect(io, Abstract(m));
      assert Fetched(io, m1) == m2.(cpu := BeginStep(m2.cpu));
      assert CoreView(CoreFetch(io, Abstract(m))) == ViewOf(m2) == ViewOf(Fetched(io, m1));
      FinishCompletes(m2, e);
    }
  }

  /** Branch-delay refinement, over runs of any length, with the interrupt line changing at any moment
      and with no condition on the program. */
  lemma {:induction false} BranchDelayRefinement<D>(io: Io<D>, m: Machine<D>, hs: seq<Happening>)
    requires Boundary(m)
    ensures Abstract(Trace(io, m, hs)) == CoreTrace(LoadsLate, io, Abstract(m), hs)
  {
    hide Step, CoreStep, UpdateInterrupts, GetNextPc, SlotOf;
    if hs == [] {
    } else {
      BranchDelayRefinement(io, m, hs[..|hs| - 1]);
      StepSimulates(io, Trace(io, m, hs[..|hs| - 1]));
    }
  }

  /** The same for n steps with a quiet interrupt line. */
  lemma {:induction false} StepsSimulate<D>(io: Io<D>, m: Machine<D>, n: nat)
    requires Boundary(m)
    ensures Abstract(Steps(io, m, n)) == CoreSteps(LoadsLate, io, Abstract(m), n)
  {
    hide Step, CoreStep, Abstract;
    if n == 0 {
    } else {
      StepsSimulate(io, m, n - 1);
      StepSimulates(io, Steps(io, m, n - 1));
    }
  }

  /** Encodings that differ only in leftover fields can never be told apart by running them. */
  lemma LeftoversUnobservable<D>(io: Io<D>, m1: Machine<D>, m2: Machine<D>, hs: seq<Happening>)
    requires Boundary(m1) && Boundary(m2) && Abstract(m1) == Abstract(m2)
    ensures Abstract(Trace(io, m1, hs)) == Abstract(Trace(io, m2, hs))
  {
    hide Abstract, Trace, CoreTrace, Boundary;
    BranchDelayRefinement(io, m1, hs);
    BranchDelayRefinement(io, m2, hs);
  }

  // ----- without hazards, loads may as well arrive at once -----

  /** The instruction at pc reads as an operand the register a load is still in flight to. */
  ghost predicate Hazard<D>(io: Io<D>, b: Core<D>) {
    b.load.Pending? && b.pc % 4 == 0
    && var b1 := CoreFetch(io, b);
       b.load.reg in Operands(Decode(b1.inst), CoreView(b1))
  }

  function Landed<D>(b: Core<D>): Core<D> {
    b.(r := Settled(b), load := NoLoad)
  }

  lemma SameEffect<D>(io: Io<D>, b: Core<D>)
    requires b.pc % 4 == 0 && !Hazard(io, b)
    ensures CoreEffect(io, Landed(b)) == CoreEffect(io, b)
  {
    if b.load.Pending? {
      var v := CoreView(CoreFetch(io, b));
      OnlyOperandsMatter(io, Decode(v.inst), v, b.load.reg, b.load.value);
      assert b.load.reg != 0 ==>
        CoreView(CoreFetch(io, Landed(b))) == v.(r := v.r[b.load.reg := b.load.value]);
      hide Meaning, Decode, Read32;
    }
  }

  lemma LandedCompletes<D>(b: Core<D>, e: Effect<D>)
    requires e.Raises? ==> e.code < 0x40
    ensures Landed(Complete(LoadsLate, b, e)) == Complete(LoadsAtOnce, Landed(b), e)
  {
    hide Raise;
  }

  lemma HazardFreeStep<D>(io: Io<D>, b: Core<D>)
    requires !Hazard(io, b)
    ensures Landed(CoreStep(LoadsLate, io, b)) == CoreStep(LoadsAtOnce, io, Landed(b))
  {
    hide CoreEffect, Complete, Read32, Hazard;
    LandedCompletes(Fetch(io, b), EffectAt(io, b));
    assert Landed(Fetch(io, b)) == Fetch(io, Landed(b));
    if b.pc % 4 == 0 {
      SameEffect(io, b);
    }
  }

  /** Load-delay refinement: over any run, with the interrupt line changing at any moment, in which no
      instruction reads a register while a load to it is in flight, the emulator simulates the machine
      whose loads write at once. */
  lemma {:induction false} LoadDelayRefinement<D>(io: Io<D>, m: Machine<D>, hs: seq<Happening>)
    requires Boundary(m)
    requires forall k :: 0 <= k < |hs| && hs[k] == Tick ==> !Hazard(io, Abstract(Trace(io, m, hs[..k])))
    ensures Landed(Abstract(Trace(io, m, hs))) == CoreTrace(LoadsAtOnce, io, Landed(Abstract(m)), hs)
  {
    hide Step, CoreStep, Hazard, UpdateInterrupts, GetNextPc, SlotOf, Settled;
    if hs == [] {
    } else {
      var n := |hs| - 1;
      var front := hs[..n];
      assert forall k :: 0 <= k < n ==> front[..k] == hs[..k];
      LoadDelayRefinement(io, m, front);
      var before := Trace(io, m, front);
      StepSimulates(io, before);
      if hs[n] == Tick {
        HazardFreeStep(io, Abstract(before));
      } else {
        LineLands(Abstract(before), hs[n].pending);
      }
    }
  }

  lemma LineLands<D>(b: Core<D>, pending: bool)
    ensures var c := UpdateInterrupts(b.cop0, pending);
            Landed(b.(cop0 := c)) == Landed(b).(cop0 := c)
  {
  }

  // ----- what the delay looks like -----

  predicate Targets<D>(e: Effect<D>, reg: RegNo) {
    (e.Writes? || e.Links? || e.Loads?) && e.reg == reg
  }

  lemma LateLoad<D>(b: Core<D>, reg: RegNo, value: u32, sys: Sys<D>)
    requires reg != 0
    ensures var n := Complete(LoadsLate, b, Loads(reg, value, sys));
            n.load == Pending(reg, value) && n.r[reg] == b.r[reg]
  {
    hide Raise;
  }

  lemma LoadLands<D>(b: Core<D>, e: Effect<D>)
    requires b.load.Pending? && b.load.reg != 0 && (e.Raises? ==> e.code < 0x40)
    ensures var n := Complete(LoadsLate, b, e);
            var reg := b.load.reg;
            && (!Targets(e, reg) ==> n.r[reg] == b.load.value)
            && (Targets(e, reg) && e.Writes? ==> n.r[reg] == e.value)
            && (Targets(e, reg) && e.Links? ==> n.r[reg] == e.link)
            && (Targets(e, reg) && e.Loads? ==> n.r[reg] == b.r[reg] && n.load == Pending(reg, e.value))
  {
    hide Raise;
  }

  /** A loaded value misses the next instruction and reaches the one after it, unless the next one
      writes the register (which then keeps that write) or loads it again (which drops the first load). */
  lemma LoadArrivesOneLate<D>(io: Io<D>, b: Core<D>)
    requires EffectAt(io, b).Loads? && EffectAt(io, b).reg != 0
    ensures var load, b1 := EffectAt(io, b), CoreStep(LoadsLate, io, b);
            var next, b2 := EffectAt(io, b1), CoreStep(LoadsLate, io, b1);
            && b1.r[load.reg] == b.r[load.reg]
            && (!Targets(next, load.reg) ==> b2.r[load.reg] == load.value)
            && (Targets(next, load.reg) && next.Writes? ==> b2.r[load.reg] == next.value)
            && (Targets(next, load.reg) && next.Links? ==> b2.r[load.reg] == next.link)
            && (Targets(next, load.reg) && next.Loads? ==>
                  b2.r[load.reg] == b.r[load.reg] && b2.load == Pending(load.reg, next.value))
  {
    hide EffectAt, Complete, Read32;
    var load := EffectAt(io, b);
    var b1 := CoreStep(LoadsLate, io, b);
    LateLoad(Fetch(io, b), load.reg, load.value, load.sys);
    LoadLands(Fetch(io, b1), EffectAt(io, b1));
  }

  /** Without the hazard condition the two machines part: an ADDIU right behind a load of its operand
      gives the same result on both exactly when the load brings the value already there. */
  lemma HazardMatters<D>(io: Io<D>, b: Core<D>)
    requires b.pc % 4 == 0 && b.load.Pending? && !b.interrupted
    requires var inst := CoreFetch(io, b).inst;
             Decode(inst) == Immediate(ADDIU) && Rs(inst) == b.load.reg && b.load.reg != 0 && Rt(inst) != 0
    ensures Hazard(io, b)
    ensures Landed(CoreStep(LoadsLate, io, b)) == CoreStep(LoadsAtOnce, io, Landed(b)) <==>
            b.r[b.load.reg] == b.load.value
  {
    hide Read32, Decode, Rt, Rs, Imm, Signed16, CoreEffect, Complete, Wrap;
    var f := CoreFetch(io, b);
    var imm := Signed16(Imm(f.inst));
    var late, early := Wrap(b.r[b.load.reg] + imm), Wrap(b.load.value + imm);
    AddiuEffect(io, b);
    AddiuEffect(io, Landed(b));
    SettledLoad(b);
    SettledLoad(f);
    assert CoreFetch(io, Landed(b)) == Landed(f);
    SameSum(b.r[b.load.reg], b.load.value, imm);
    if late == early {
      LandedCompletes(f, CoreEffect(io, b));
    } else {
      CompleteWrite(LoadsLate, f, Rt(f.inst), late);
      CompleteWrite(LoadsAtOnce, Landed(f), Rt(f.inst), early);
    }
  }

  lemma AddiuEffect<D>(io: Io<D>, b: Core<D>)
    requires b.pc % 4 == 0 && Decode(CoreFetch(io, b).inst) == Immediate(ADDIU)
    ensures var f := CoreFetch(io, b);
            CoreEffect(io, b) == Writes(Rt(f.inst), Wrap(Reg(b.r, Rs(f.inst)) + Signed16(Imm(f.inst))))
  {
    hide Read32, Decode, Rt, Rs, Imm, Signed16, Settled, Wrap;
  }

  lemma SettledLoad<D>(b: Core<D>)
    requires b.load.Pending? && b.load.reg != 0
    ensures Settled(b) == b.r[b.load.reg := b.load.value]
  {
  }

  lemma SameSum(a: u32, b: u32, c: int)
    ensures Wrap(a + c) == Wrap(b + c) <==> a == b
  {
  }

  lemma CompleteWrite<D>(mode: Mode, b: Core<D>, reg: RegNo, value: u32)
    requires reg != 0
    ensures Complete(mode, b, Writes(reg, value)).r[reg] == value
    ensures Complete(mode, b, Writes(reg, value)).load == NoLoad
  {
    hide Raise;
  }
}
