/** Instruction words put together from their fields, and what one step of the encoded processor can do,
    said of its raw fields. Nothing here refers to how instructions are decoded or given meaning. */
module Encoding {
  import opened Words
  import opened Memory
  import opened Cop0
  import opened Isa
  import opened Pipeline
  import opened Core
  import Exceptions

  // ----- numbers -----

  /** The number that the 2 * half values below 2 * half stand for in two's complement. */
  function TwosComplement(x: nat, half: int): (d: int)
    requires half > 0 && x < 2 * half
    ensures -half <= d < half && (d - x) % (2 * half) == 0
  {
    var d := if x < half then x else x - 2 * half;
    DivModUnique(d - x, 2 * half, if x < half then 0 else -1, 0);
    d
  }

  lemma OnlyZero(k: int, n: int)
    requires n > 0 && -n < k * n < n
    ensures k == 0
  {
    if k > 0 {
      Scales(k, n);
    } else if k < 0 {
      Scales(-k, n);
    }
  }

  /** No other number in the range is congruent to x. */
  lemma TwosComplementIsUnique(x: nat, half: int, d: int)
    requires half > 0 && x < 2 * half
    requires -half <= d < half && (d - x) % (2 * half) == 0
    ensures d == TwosComplement(x, half)
  {
    var e, n := TwosComplement(x, half), 2 * half;
    var p, q := (d - x) / n, (e - x) / n;
    assert d - e == (p - q) * n;
    OnlyZero(p - q, n);
  }

  /** The operand in a register, and the offset in an instruction, as signed numbers. */
  function Number(x: u32): int {
    TwosComplement(x, 0x8000_0000)
  }

  function Offset(imm: u16): int {
    TwosComplement(imm, 0x8000)
  }

  // ----- instruction words -----

  function Word(op: nat, rs: RegNo, rt: RegNo, imm: u16): u32
    requires op < 0x40
  {
    op * 0x400_0000 + rs * 0x20_0000 + rt * TWO_16 + imm
  }

  /** The lower half of an instruction between registers. */
  function Low(rd: RegNo, sh: RegNo, funct: nat): u16
    requires funct < 0x40
  {
    rd * 0x800 + sh * 0x40 + funct
  }

  function JumpWord(op: nat, place: nat): u32
    requires op < 0x40 && place < 0x400_0000
  {
    op * 0x400_0000 + place
  }

  lemma WordFields(op: nat, rs: RegNo, rt: RegNo, imm: u16)
    requires op < 0x40
    ensures var w := Word(op, rs, rt, imm);
            Opcode(w) == op && Rs(w) == rs && Rt(w) == rt && Imm(w) == imm
  {
    var w := Word(op, rs, rt, imm);
    DivModUnique(w, 0x400_0000, op, rs * 0x20_0000 + rt * TWO_16 + imm);
    DivModUnique(w, 0x20_0000, op * 0x20 + rs, rt * TWO_16 + imm);
    DivModUnique(op * 0x20 + rs, 0x20, op, rs);
    DivModUnique(w, TWO_16, op * 0x400 + rs * 0x20 + rt, imm);
    DivModUnique(op * 0x400 + rs * 0x20 + rt, 0x20, op * 0x20 + rs, rt);
  }

  lemma LowFields(op: nat, rs: RegNo, rt: RegNo, rd: RegNo, sh: RegNo, funct: nat)
    requires op < 0x40 && funct < 0x40
    ensures var w := Word(op, rs, rt, Low(rd, sh, funct));
            Rd(w) == rd && Shamt(w) == sh && Funct(w) == funct
  {
    var w := Word(op, rs, rt, Low(rd, sh, funct));
    var upper := op * 0x400 + rs * 0x20 + rt;
    assert w == upper * TWO_16 + rd * 0x800 + sh * 0x40 + funct;
    DivModUnique(w, 0x800, upper * 0x20 + rd, sh * 0x40 + funct);
    DivModUnique(upper * 0x20 + rd, 0x20, upper, rd);
    DivModUnique(w, 0x40, upper * 0x400 + rd * 0x20 + sh, funct);
    DivModUnique(upper * 0x400 + rd * 0x20 + sh, 0x20, upper * 0x20 + rd, sh);
  }

  lemma JumpFields(op: nat, place: nat)
    requires op < 0x40 && place < 0x400_0000
    ensures Opcode(JumpWord(op, place)) == op && Isa.Target(JumpWord(op, place)) == place
  {
    DivModUnique(JumpWord(op, place), 0x400_0000, op, place);
  }

  // ----- what a step does -----

  /** The step from m runs the instruction word inst. */
  ghost predicate Runs<D>(io: Io<D>, m: Machine<D>, inst: u32) {
    Boundary(m) && m.cpu.pc % 4 == 0 && AlignedRead32(io, m.sys, m.cpu.pc).0 == inst
  }

  /** Memory and devices after the fetch. */
  function System<D>(io: Io<D>, m: Machine<D>): Sys<D>
    requires m.cpu.pc % 4 == 0
  {
    AlignedRead32(io, m.sys, m.cpu.pc).1
  }

  /** The address of the next instruction. */
  function Successor<D>(m: Machine<D>): u32 {
    if m.cpu.branchState == 3 then m.cpu.branchTarget else m.cpu.nextPc
  }

  /** The load in flight has landed and register reg holds value; every other register is as before. */
  ghost predicate Registers<D>(m: Machine<D>, n: Machine<D>, reg: nat, value: int) {
    n.cpu.loadReg == 0
    && forall q: RegNo :: n.cpu.r[q] ==
         (if q == 0 then 0
          else if q == reg then value
          else if q == m.cpu.loadReg then m.cpu.loadValue
          else m.cpu.r[q])
  }

  /** value is in flight to register reg, overtaking a load in flight to the same register. */
  ghost predicate InFlight<D>(m: Machine<D>, n: Machine<D>, reg: RegNo, value: int) {
    n.cpu.loadReg == reg && (reg != 0 ==> n.cpu.loadValue == value)
    && forall q: RegNo :: n.cpu.r[q] ==
         (if q != 0 && q == m.cpu.loadReg && q != reg then m.cpu.loadValue else m.cpu.r[q])
  }

  predicate SameHiLo<D>(m: Machine<D>, n: Machine<D>) {
    n.cpu.hi == m.cpu.hi && n.cpu.lo == m.cpu.lo
  }

  /** Control goes on to the next instruction, outside any delay slot, and the coprocessor is as given; if that
      has an interrupt pending, it is latched for the next step. With one latched before, control goes to the
      handler. */
  ghost predicate GoesOn<D>(m: Machine<D>, n: Machine<D>, cop0: Cop0State) {
    if m.cpu.nextExcCode == 0 then n.cpu.pc == 0x8000_0080 && n.cpu.nextExcCode == 0xFF
    else n.cpu.pc == Successor(m) && n.cpu.branchState == 0 && n.cop0 == cop0
         && n.cpu.nextExcCode == if cop0.pendingInterrupts then 0 else 0xFF
  }

  /** The step writes value to register reg and does nothing else. */
  ghost predicate Sets<D>(io: Io<D>, m: Machine<D>, reg: nat, value: int)
    requires Boundary(m) && m.cpu.pc % 4 == 0
  {
    var n := Step(io, m);
    Registers(m, n, reg, value) && SameHiLo(m, n) && n.sys == System(io, m) && GoesOn(m, n, m.cop0)
  }

  /** The step sets hi and lo and does nothing else. */
  ghost predicate SetsPair<D>(io: Io<D>, m: Machine<D>, hi: int, lo: int)
    requires Boundary(m) && m.cpu.pc % 4 == 0
  {
    var n := Step(io, m);
    Registers(m, n, 0, 0) && n.cpu.hi == hi && n.cpu.lo == lo && n.sys == System(io, m) && GoesOn(m, n, m.cop0)
  }

  /** The step sends value on its way to register reg, leaves memory and devices as sys, and does nothing else. */
  ghost predicate LoadsFrom<D>(io: Io<D>, m: Machine<D>, reg: RegNo, value: int, sys: Sys<D>)
    requires Boundary(m) && m.cpu.pc % 4 == 0
  {
    var n := Step(io, m);
    InFlight(m, n, reg, value) && SameHiLo(m, n) && n.sys == sys && GoesOn(m, n, m.cop0)
  }

  /** The step leaves memory and devices as sys, the coprocessor as cop0, and does nothing else. */
  ghost predicate Changes<D>(io: Io<D>, m: Machine<D>, sys: Sys<D>, cop0: Cop0State)
    requires Boundary(m) && m.cpu.pc % 4 == 0
  {
    var n := Step(io, m);
    Registers(m, n, 0, 0) && SameHiLo(m, n) && n.sys == sys && GoesOn(m, n, cop0)
  }

  /** The step enters the handler with the exception code and does nothing else. */
  ghost predicate Traps<D>(io: Io<D>, m: Machine<D>, code: u8)
    requires Boundary(m) && m.cpu.pc % 4 == 0
  {
    var n := Step(io, m);
    && Registers(m, n, 0, 0) && SameHiLo(m, n) && n.sys == System(io, m)
    && n.cpu.pc == 0x8000_0080 && n.cpu.branchState == 0 && n.cpu.nextExcCode == 0xFF
    && n.cop0.cause / 4 % 0x40 == code
    && n.cop0.badAddr == (if code == 4 || code == 5 then m.cpu.pc else m.cop0.badAddr)
    && n.cop0.epc == (if m.cpu.branchState % 2 == 1 then (m.cpu.pc - 4) % TWO_32 else m.cpu.pc)
  }

  /** The step runs a branch to target, with the link in register reg when that is not 0. Behind the delay
      slot control goes to target if the branch is taken and on if not; if the instruction in the slot traps,
      the coprocessor holds the address of the branch, the target, and whether it was taken. */
  ghost predicate BranchesTo<D>(io: Io<D>, m: Machine<D>, taken: bool, target: u32, reg: nat)
    requires Boundary(m) && m.cpu.pc % 4 == 0
  {
    var n := Steps(io, m, 1);
    && Registers(m, n, reg, (Successor(m) + 4) % TWO_32) && SameHiLo(m, n) && n.sys == System(io, m)
    && (if m.cpu.nextExcCode == 0 then n.cpu.pc == 0x8000_0080 && n.cpu.nextExcCode == 0xFF
        else n.cpu.pc == Successor(m) && n.cop0 == m.cop0 && Resumes(io, n, taken, target)
             && n.cpu.nextExcCode == if m.cop0.pendingInterrupts then 0 else 0xFF)
  }

  /** Where control goes from the delay slot at n. */
  ghost predicate Resumes<D>(io: Io<D>, n: Machine<D>, taken: bool, target: u32)
    requires Boundary(n)
  {
    var after := Step(io, n);
    || after.cpu.pc == (if taken then target else (n.cpu.pc + 4) % TWO_32)
    || (after.cpu.pc == 0x8000_0080 && after.cop0.epc == (n.cpu.pc - 4) % TWO_32 && after.cop0.tar == target
        && after.cop0.cause / 0x8000_0000 == 1
        && after.cop0.cause / 0x4000_0000 % 2 == (if taken then 1 else 0))
  }

  // ----- from the effect of an instruction to the fields -----

  /** What the instruction that the step from m runs sees. */
  function Seen<D>(io: Io<D>, m: Machine<D>): View<D>
    requires m.cpu.pc % 4 == 0
  {
    CoreView(CoreFetch(io, Abstract(m)))
  }

  /** The registers an instruction sees are the raw ones, and register 0 is zero. */
  lemma WhatIsSeen<D>(io: Io<D>, m: Machine<D>, inst: u32)
    requires Runs(io, m, inst)
    ensures var v := Seen(io, m);
            && v.inst == inst && v.hi == m.cpu.hi && v.lo == m.cpu.lo && v.npc == Successor(m)
            && v.cop0 == m.cop0 && v.sys == System(io, m)
            && EffectAt(io, Abstract(m)) == Meaning(io, Decode(inst), v)
    ensures forall q: RegNo :: Reg(Seen(io, m).r, q) == m.cpu.r[q]
  {
    hide Read32, Meaning, Decode, Settled;
  }

  /** The step completes the effect of the instruction. */
  lemma Completes<D>(io: Io<D>, m: Machine<D>, inst: u32, e: Effect<D>)
    requires Runs(io, m, inst) && EffectAt(io, Abstract(m)) == e
    ensures e.Raises? ==> e.code in FAULTS
    ensures var b := Abstract(m).(inst := inst, sys := System(io, m));
            Abstract(Step(io, m)) == Complete(LoadsLate, b, e)
  {
    StepSimulates(io, m);
    hide Read32, Execute, Step, Complete, Settled, GetNextPc, SlotOf;
  }

  lemma FromWrites<D>(io: Io<D>, m: Machine<D>, inst: u32, reg: RegNo, value: u32)
    requires Runs(io, m, inst) && EffectAt(io, Abstract(m)) == Writes(reg, value)
    ensures Sets(io, m, reg, value)
  {
    hide Step, EffectAt, Read32, Raise;
    Completes(io, m, inst, Writes(reg, value));
    StepKeepsBoundary(io, m);
  }

  lemma FromSetsHiLo<D>(io: Io<D>, m: Machine<D>, inst: u32, hi: u32, lo: u32)
    requires Runs(io, m, inst) && EffectAt(io, Abstract(m)) == SetsHiLo(hi, lo)
    ensures SetsPair(io, m, hi, lo)
  {
    hide Step, EffectAt, Read32, Raise;
    Completes(io, m, inst, SetsHiLo(hi, lo));
    StepKeepsBoundary(io, m);
  }

  lemma FromLoads<D>(io: Io<D>, m: Machine<D>, inst: u32, reg: RegNo, value: u32, sys: Sys<D>)
    requires Runs(io, m, inst) && EffectAt(io, Abstract(m)) == Loads(reg, value, sys)
    ensures LoadsFrom(io, m, reg, value, sys)
  {
    hide Step, EffectAt, Read32, Raise;
    Completes(io, m, inst, Loads(reg, value, sys));
    StepKeepsBoundary(io, m);
  }

  lemma FromStores<D>(io: Io<D>, m: Machine<D>, inst: u32, e: Effect<D>)
    requires Runs(io, m, inst) && EffectAt(io, Abstract(m)) == e && (e.Stores? || e.Nothing? || e.SetsCop0?)
    ensures Changes(io, m, if e.Stores? then e.sys else System(io, m), if e.SetsCop0? then e.cop0 else m.cop0)
  {
    hide Step, EffectAt, Read32, Raise;
    Completes(io, m, inst, e);
    StepKeepsBoundary(io, m);
  }

  lemma FromRaises<D>(io: Io<D>, m: Machine<D>, inst: u32, code: u8)
    requires Runs(io, m, inst) && EffectAt(io, Abstract(m)) == Raises(code)
    ensures Traps(io, m, code)
  {
    hide Step, EffectAt, Read32, CauseOf, PushMode, Requested, IsolateSet;
    Completes(io, m, inst, Raises(code));
    StepKeepsBoundary(io, m);
    Exceptions.CauseBits(m.cop0, code, m.cpu.pc, inst, SlotOf(m.cpu));
  }

  /** The delay slot behind a branch: either its instruction runs and control goes where the branch says, or it
      traps and the branch is recorded. */
  lemma SlotResumes<D>(io: Io<D>, n: Machine<D>, taken: bool, target: u32)
    requires Boundary(n) && SlotOf(n.cpu) == InSlot(taken, target)
    ensures Resumes(io, n, taken, target)
  {
    hide Step, EffectAt, Read32, CauseOf, PushMode, Requested, IsolateSet, Effected;
    StepSimulates(io, n);
    Exceptions.DoneKeepsControl(io, n);
    if Exceptions.Enters(io, n) {
      Exceptions.EntersRecords(io, n);
      var d := Exceptions.Done(io, n);
      Exceptions.CauseBits(d.cop0, Exceptions.EntryCode(io, n), n.cpu.pc, d.inst, SlotOf(n.cpu));
    }
  }

  lemma FromBranch<D>(io: Io<D>, m: Machine<D>, inst: u32, e: Effect<D>, reg: RegNo)
    requires Runs(io, m, inst) && EffectAt(io, Abstract(m)) == e
    requires e.Branches? || (e.Links? && e.link == (Successor(m) + 4) % TWO_32)
    requires reg == if e.Links? then e.reg else 0
    ensures BranchesTo(io, m, e.taken, e.target, reg)
  {
    hide Step, EffectAt, Read32, Raise, Resumes;
    Completes(io, m, inst, e);
    assert Steps(io, m, 1) == Step(io, m) by {
      assert Steps(io, m, 0) == m;
    }
    if m.cpu.nextExcCode != 0 {
      SlotResumes(io, Step(io, m), e.taken, e.target);
    }
  }
}
