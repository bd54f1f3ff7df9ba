/** Unaligned load and store pairs executed by the pipeline, one instruction per step. */
module UnalignedRuns {
  import opened Words
  import opened Memory
  import opened Cop0
  import opened Isa
  import opened Pipeline
  import opened Core
  import opened Unaligned

  /** The instruction at pc is handled by h, names register rt, and addresses addr. */
  ghost predicate Issues<D>(io: Io<D>, b: Core<D>, h: Handler, rt: RegNo, addr: int) {
    b.pc % 4 == 0
    && var v := CoreView(CoreFetch(io, b));
       Decode(v.inst) == h && Rt(v.inst) == rt && Address(v) == addr
  }

  function HalfAddress(h: Handler, a: u32): int {
    if h.Lwl? || h.Swl? then a + 3 else a
  }

  function Merged(h: Handler, mem: Store, a: u32, kept: u32): u32
    requires Readable(a)
  {
    if h.Lwl? then LeftMerge(mem, UpperPlace(a), UpperLane(a), kept)
    else RightMerge(mem, LowerPlace(a), a % 4, kept)
  }

  function Patched(h: Handler, mem: Store, a: u32, w: u32): Store
    requires Readable(a)
  {
    if h.Swl? then LeftPatch(mem, UpperPlace(a), UpperLane(a), w)
    else RightPatch(mem, LowerPlace(a), a % 4, w)
  }

  lemma FetchKeepsMemory<D>(io: Io<D>, b: Core<D>)
    requires b.pc % 4 == 0
    ensures var f := CoreFetch(io, b);
            f == b.(inst := f.inst, sys := f.sys) && f.sys.mem == b.sys.mem
  {
    hide ReadLocation;
  }

  /** A step that is not interrupted goes on to the next instruction and leaves the coprocessor alone. */
  predicate GoesOn<D>(b: Core<D>, n: Core<D>) {
    n.pc == b.npc && n.npc == Wrap(b.npc + 4) && n.cop0 == b.cop0 && n.interrupted == b.cop0.pendingInterrupts
  }

  lemma CompleteLoad<D>(b: Core<D>, reg: RegNo, value: u32, sys: Sys<D>)
    requires reg != 0
    ensures var n := Complete(LoadsLate, b, Loads(reg, value, sys));
            && n.load == Pending(reg, value) && n.sys == sys
            && (forall q: RegNo :: q != reg ==> n.r[q] == Settled(b)[q])
            && n.r[reg] == b.r[reg]
            && (!b.interrupted ==> GoesOn(b, n))
  {
    hide Raise;
  }

  /** One half of an unaligned load: the merged value is in flight to rt, memory is untouched. */
  lemma LoadHalfStep<D>(io: Io<D>, b: Core<D>, h: Handler, rt: RegNo, a: u32)
    requires h in {Lwl, Lwr} && rt != 0 && Readable(a) && Issues(io, b, h, rt, HalfAddress(h, a))
    ensures var n := CoreStep(LoadsLate, io, b);
            && n.load == Pending(rt, Merged(h, b.sys.mem, a, Settled(b)[rt]))
            && n.sys.mem == b.sys.mem
            && (forall q: RegNo :: q != rt ==> n.r[q] == Settled(b)[q])
            && n.r[rt] == b.r[rt]
            && (!b.interrupted ==> GoesOn(b, n))
  {
    hide Execute, Complete, Merged, Settled, Address, Decode, Rt, Readable, Read32;
    var f := CoreFetch(io, b);
    FetchKeepsMemory(io, b);
    SameSettled(b, f);
    LoadHalfEffect(io, CoreView(f), h, rt, a);
    CompleteLoad(f, rt, Merged(h, b.sys.mem, a, Settled(b)[rt]), f.sys);
  }

  lemma SameSettled<D>(b: Core<D>, f: Core<D>)
    requires f == b.(inst := f.inst, sys := f.sys)
    ensures Settled(f) == Settled(b)
  {
  }

  lemma LoadHalfEffect<D>(io: Io<D>, v: View<D>, h: Handler, rt: RegNo, a: u32)
    requires h in {Lwl, Lwr} && rt != 0 && Readable(a)
    requires Decode(v.inst) == h && Rt(v.inst) == rt && Address(v) == HalfAddress(h, a)
    ensures Execute(io, v) == Loads(rt, Merged(h, v.sys.mem, a, v.loaded[rt]), v.sys)
  {
    hide LeftWord, RightWord, LeftMerge, RightMerge, Address, Rt, Readable, Decode;
    LoadHalves(io, v.sys, a, v.loaded[rt]);
  }

  lemma StoreHalfEffect<D>(io: Io<D>, v: View<D>, h: Handler, rt: RegNo, a: u32)
    requires h in {Swl, Swr} && Readable(a) && Writable(a) && !v.cop0.cacheIsolated
    requires Decode(v.inst) == h && Rt(v.inst) == rt && Address(v) == HalfAddress(h, a)
    ensures Execute(io, v) == Stores(v.sys.(mem := Patched(h, v.sys.mem, a, Reg(v.r, rt))))
  {
    hide StoreLeft, StoreRight, LeftPatch, RightPatch, Address, Rt, Readable, Writable, Decode, Reg;
    StoreHalves(io, v.sys, a, Reg(v.r, rt));
  }

  lemma CompleteStore<D>(b: Core<D>, sys: Sys<D>)
    ensures var n := Complete(LoadsLate, b, Stores(sys));
            && n.load == NoLoad && n.sys == sys && n.r == Settled(b)
            && (!b.interrupted ==> GoesOn(b, n))
  {
    hide Raise;
  }

  /** One half of an unaligned store. */
  lemma StoreHalfStep<D>(io: Io<D>, b: Core<D>, h: Handler, rt: RegNo, a: u32)
    requires h in {Swl, Swr} && Readable(a) && Writable(a) && Issues(io, b, h, rt, HalfAddress(h, a))
    requires !b.cop0.cacheIsolated
    ensures var n := CoreStep(LoadsLate, io, b);
            && n.load == NoLoad && n.sys.mem == Patched(h, b.sys.mem, a, Reg(b.r, rt)) && n.r == Settled(b)
            && (!b.interrupted ==> GoesOn(b, n))
  {
    hide Execute, Complete, Patched, Settled, Address, Decode, Rt, Reg, Readable, Writable, Read32;
    var f := CoreFetch(io, b);
    FetchKeepsMemory(io, b);
    SameSettled(b, f);
    StoreHalfEffect(io, CoreView(f), h, rt, a);
    CompleteStore(f, f.sys.(mem := Patched(h, b.sys.mem, a, Reg(b.r, rt))));
  }

  // ----- programs in memory -----

  /** The instruction word in memory at pc is one half of an unaligned access to offset k from the base
      register: the left half is written with offset k + 3. */
  ghost predicate HalfAt(mem: Store, pc: u32, h: Handler, rt: RegNo, base: RegNo, k: int) {
    pc % 4 == 0 && Readable(pc)
    && var inst := WordAt(mem, pc);
       && Decode(inst) == h && Rt(inst) == rt && Rs(inst) == base
       && Signed16(Imm(inst)) == (if h.Lwl? || h.Swl? then k + 3 else k)
  }

  lemma FetchesWord<D>(io: Io<D>, b: Core<D>)
    requires b.pc % 4 == 0 && Readable(b.pc)
    ensures CoreFetch(io, b) == b.(inst := WordAt(b.sys.mem, b.pc))
  {
    hide FromBytes;
  }

  lemma LeftAddress(x: u32, k: int)
    requires Wrap(x + k) + 3 < TWO_32
    ensures Wrap(x + (k + 3)) == Wrap(x + k) + 3
  {
  }

  /** A half in memory at pc issues the access its base register says. */
  lemma HalfIssues<D>(io: Io<D>, b: Core<D>, h: Handler, rt: RegNo, base: RegNo, k: int, a: u32)
    requires HalfAt(b.sys.mem, b.pc, h, rt, base, k)
    requires a == Wrap(Reg(b.r, base) + k) && Readable(a)
    ensures Issues(io, b, h, rt, HalfAddress(h, a))
  {
    hide Decode, Rt, Rs, Imm, Signed16, Reg, WordAt, Settled, ReadLocation, Wrap;
    FetchesWord(io, b);
    LeftAddress(Reg(b.r, base), k);
  }

  /** Two halves at consecutive places of the program, in either order. */
  ghost predicate PairAt(mem: Store, pc: u32, npc: u32, h1: Handler, h2: Handler, rt: RegNo, base: RegNo, k: int) {
    HalfAt(mem, pc, h1, rt, base, k) && HalfAt(mem, npc, h2, rt, base, k)
  }

  /** The four bytes at a and those at pc do not overlap. */
  predicate Apart(a: u32, pc: u32) {
    Readable(a) && Readable(pc) && (Place(a) + 3 < Place(pc) || Place(pc) + 3 < Place(a))
  }

  lemma PatchBounds(h: Handler, mem: Store, a: u32, w: u32)
    requires Readable(a)
    ensures forall n :: 0 <= n < STORE_SIZE && !(Place(a) <= n < Place(a) + 4) ==> Patched(h, mem, a, w)[n] == mem[n]
  {
    hide Byte, Readable, ReadLocation, Place, LowerPlace, UpperPlace, UpperLane;
    Places(a);
  }

  /** Code that the store does not touch stays as it is. */
  lemma CodeSurvives(before: Store, after: Store, a: u32, pc: u32, h: Handler, rt: RegNo, base: RegNo, k: int)
    requires Apart(a, pc) && HalfAt(before, pc, h, rt, base, k)
    requires forall n :: 0 <= n < STORE_SIZE && !(Place(a) <= n < Place(a) + 4) ==> after[n] == before[n]
    ensures HalfAt(after, pc, h, rt, base, k)
  {
    hide Place, FromBytes, Decode, Rt, Rs, Imm, Signed16, Readable;
  }

  // ----- the pairs -----

  lemma TwoCoreSteps<D>(io: Io<D>, b: Core<D>)
    ensures CoreSteps(LoadsLate, io, b, 2) == CoreStep(LoadsLate, io, CoreStep(LoadsLate, io, b))
  {
    hide CoreStep;
    assert CoreSteps(LoadsLate, io, b, 1) == CoreStep(LoadsLate, io, CoreSteps(LoadsLate, io, b, 0));
  }

  /** LWL and LWR in either order, at pc and npc, with no interrupt latched and no load in flight into
      another register that is their base, leave the whole word at a in flight to rt. */
  lemma LoadPair<D>(io: Io<D>, b: Core<D>, h1: Handler, h2: Handler, rt: RegNo, base: RegNo, k: int, a: u32)
    requires {h1, h2} == {Lwl, Lwr} && h1 != h2 && rt != 0
    requires PairAt(b.sys.mem, b.pc, b.npc, h1, h2, rt, base, k)
    requires a == Wrap(Reg(b.r, base) + k) && Readable(a)
    requires !b.interrupted
    requires b.load.Pending? && b.load.reg == base ==> base == rt
    ensures var n := CoreSteps(LoadsLate, io, b, 2);
            && n.load == Pending(rt, WordAt(b.sys.mem, a))
            && n.sys.mem == b.sys.mem
            && (forall q: RegNo :: q != rt ==> n.r[q] == Settled(b)[q])
  {
    hide CoreStep, CoreSteps, Issues, HalfAt, LeftMerge, RightMerge, WordAt, Readable, Wrap;
    var b1 := CoreStep(LoadsLate, io, b);
    HalfIssues(io, b, h1, rt, base, k, a);
    LoadHalfStep(io, b, h1, rt, a);
    BaseSurvives(io, b, h1, rt, a, base);
    HalfIssues(io, b1, h2, rt, base, k, a);
    LoadHalfStep(io, b1, h2, rt, a);
    Merges(b.sys.mem, a, Settled(b)[rt]);
    TwoCoreSteps(io, b);
  }

  /** The second half computes its address from the same base unless a load into another base
      register was in flight; the target register itself may be the base. */
  lemma BaseSurvives<D>(io: Io<D>, b: Core<D>, h: Handler, rt: RegNo, a: u32, base: RegNo)
    requires h in {Lwl, Lwr} && rt != 0 && Readable(a) && Issues(io, b, h, rt, HalfAddress(h, a))
    requires b.load.Pending? && b.load.reg == base ==> base == rt
    ensures Reg(CoreStep(LoadsLate, io, b).r, base) == Reg(b.r, base)
  {
    hide CoreStep, Issues, Readable;
    LoadHalfStep(io, b, h, rt, a);
  }

  lemma SettledKeeps<D>(b: Core<D>, q: RegNo)
    requires b.load.Pending? && b.load.reg != 0 ==> b.load.reg != q
    ensures Reg(Settled(b), q) == Reg(b.r, q)
  {
  }

  /** SWL and SWR in either order, at pc and npc, with no interrupt latched, no load in flight into the
      registers they read, and the second not among the bytes stored to, write the register to bytes
      a .. a+3 and change no other byte. */
  lemma StorePair<D>(io: Io<D>, b: Core<D>, h1: Handler, h2: Handler, rt: RegNo, base: RegNo, k: int, a: u32)
    requires {h1, h2} == {Swl, Swr} && h1 != h2
    requires PairAt(b.sys.mem, b.pc, b.npc, h1, h2, rt, base, k)
    requires a == Wrap(Reg(b.r, base) + k) && Readable(a) && Writable(a) && Apart(a, b.npc)
    requires !b.interrupted && !b.cop0.cacheIsolated
    requires b.load.Pending? && b.load.reg != 0 ==> b.load.reg !in {base, rt}
    ensures var n := CoreSteps(LoadsLate, io, b, 2);
            && n.sys.mem == WithWord(b.sys.mem, a, Reg(b.r, rt))
            && n.load == NoLoad && n.r == Settled(b)
            && (!b.cop0.pendingInterrupts ==>
                  GoesOn(b.(npc := Wrap(b.npc + 4)), n))
  {
    hide CoreStep, CoreSteps, Issues, HalfAt, LeftPatch, RightPatch, WithWord, Readable, Writable, Wrap, Settled;
    var b1 := CoreStep(LoadsLate, io, b);
    HalfIssues(io, b, h1, rt, base, k, a);
    StoreHalfStep(io, b, h1, rt, a);
    PatchBounds(h1, b.sys.mem, a, Reg(b.r, rt));
    CodeSurvives(b.sys.mem, b1.sys.mem, a, b.npc, h2, rt, base, k);
    SettledKeeps(b, base);
    SettledKeeps(b, rt);
    HalfIssues(io, b1, h2, rt, base, k, a);
    StoreHalfStep(io, b1, h2, rt, a);
    NothingInFlight(b1);
    Patches(b.sys.mem, a, Reg(b.r, rt));
    TwoCoreSteps(io, b);
  }

  lemma NothingInFlight<D>(b: Core<D>)
    requires b.load == NoLoad
    ensures Settled(b) == b.r
  {
  }

  // ----- on the machine the emulator runs -----

  /** LoadPair for the encoded machine. */
  lemma EncodedLoadPair<D>(io: Io<D>, m: Machine<D>, h1: Handler, h2: Handler, rt: RegNo, base: RegNo, k: int, a: u32)
    requires Boundary(m) && {h1, h2} == {Lwl, Lwr} && h1 != h2 && rt != 0
    requires PairAt(m.sys.mem, m.cpu.pc, GetNextPc(m.cpu), h1, h2, rt, base, k)
    requires a == Wrap(Reg(m.cpu.r, base) + k) && Readable(a)
    requires m.cpu.nextExcCode != EXC_INT
    requires m.cpu.loadReg != 0 && m.cpu.loadReg == base ==> base == rt
    ensures var n := Steps(io, m, 2);
            && n.cpu.loadReg == rt && n.cpu.loadValue == WordAt(m.sys.mem, a)
            && n.sys.mem == m.sys.mem
  {
    hide CoreSteps, Steps, PairAt, Readable, WordAt, SlotOf, GetNextPc, Wrap;
    StepsSimulate(io, m, 2);
    LoadPair(io, Abstract(m), h1, h2, rt, base, k, a);
  }

  /** StorePair for the encoded machine. */
  lemma EncodedStorePair<D>(io: Io<D>, m: Machine<D>, h1: Handler, h2: Handler, rt: RegNo, base: RegNo, k: int, a: u32)
    requires Boundary(m) && {h1, h2} == {Swl, Swr} && h1 != h2
    requires PairAt(m.sys.mem, m.cpu.pc, GetNextPc(m.cpu), h1, h2, rt, base, k)
    requires a == Wrap(Reg(m.cpu.r, base) + k) && Readable(a) && Writable(a) && Apart(a, GetNextPc(m.cpu))
    requires m.cpu.nextExcCode != EXC_INT && !m.cop0.cacheIsolated
    requires m.cpu.loadReg != 0 ==> m.cpu.loadReg !in {base, rt}
    ensures var n := Steps(io, m, 2);
            && n.sys.mem == WithWord(m.sys.mem, a, Reg(m.cpu.r, rt))
            && n.cpu.loadReg == 0 && n.cpu.r == LoadedRegs(m.cpu)
            && (!m.cop0.pendingInterrupts ==>
                  && n.cpu.pc == Wrap(GetNextPc(m.cpu) + 4) && GetNextPc(n.cpu) == Wrap(n.cpu.pc + 4)
                  && n.cpu.nextExcCode != EXC_INT)
  {
    hide CoreSteps, Steps, PairAt, Readable, Writable, WithWord, Apart, SlotOf, GetNextPc, Wrap;
    StepsSimulate(io, m, 2);
    StorePair(io, Abstract(m), h1, h2, rt, base, k, a);
  }

  lemma SameBase<D>(m: Machine<D>, n: Machine<D>, base: RegNo)
    requires n.cpu.r == LoadedRegs(m.cpu) && (m.cpu.loadReg != 0 ==> m.cpu.loadReg != base)
    ensures Reg(n.cpu.r, base) == Reg(m.cpu.r, base)
  {
  }

  lemma FourOn(pc: u32)
    ensures Wrap(Wrap(pc + 4) + 4) == Wrap(pc + 8)
  {
  }

  /** Storing a register unaligned and loading it back returns it: four instructions in memory from pc on,
      all addressing offset k from the same base, the first two storing source and the other two loading
      target, the halves of each pair in either order. The bytes stored to must not be among the three
      instructions still to run, the cache must not be isolated, no interrupt may be latched or pending,
      and no load may be in flight into base or source. */
  lemma UnalignedRoundTrip<D>(io: Io<D>, m: Machine<D>, h1: Handler, h2: Handler, h3: Handler, h4: Handler,
                              source: RegNo, target: RegNo, base: RegNo, k: int, a: u32)
    requires Boundary(m)
    requires {h1, h2} == {Swl, Swr} && h1 != h2 && {h3, h4} == {Lwl, Lwr} && h3 != h4 && target != 0
    requires var npc := GetNextPc(m.cpu);
             && PairAt(m.sys.mem, m.cpu.pc, npc, h1, h2, source, base, k)
             && PairAt(m.sys.mem, Wrap(npc + 4), Wrap(npc + 8), h3, h4, target, base, k)
             && Apart(a, npc) && Apart(a, Wrap(npc + 4)) && Apart(a, Wrap(npc + 8))
    requires a == Wrap(Reg(m.cpu.r, base) + k) && Readable(a) && Writable(a)
    requires m.cpu.nextExcCode != EXC_INT && !m.cop0.pendingInterrupts && !m.cop0.cacheIsolated
    requires m.cpu.loadReg != 0 ==> m.cpu.loadReg !in {base, source}
    ensures var n := Steps(io, m, 4);
            && n.cpu.loadReg == target && n.cpu.loadValue == Reg(m.cpu.r, source)
            && n.sys.mem == WithWord(m.sys.mem, a, Reg(m.cpu.r, source))
  {
    hide Steps, HalfAt, Readable, Writable, Apart, WordAt, WithWord, GetNextPc, Wrap, Reg, Boundary, LoadedRegs, Place;
    var npc: int, n := GetNextPc(m.cpu), Steps(io, m, 2);
    EncodedStorePair(io, m, h1, h2, source, base, k, a);
    SameBase(m, n, base);
    FourOn(npc);
    WordReadsBack(m.sys.mem, a, Reg(m.cpu.r, source));
    CodeSurvives(m.sys.mem, n.sys.mem, a, Wrap(npc + 4), h3, target, base, k);
    CodeSurvives(m.sys.mem, n.sys.mem, a, Wrap(npc + 8), h4, target, base, k);
    EncodedLoadPair(io, n, h3, h4, target, base, k, a);
    RunsCompose(io, m, 2, 2);
  }
}
