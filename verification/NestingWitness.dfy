/** A program that takes three exceptions one inside the other and loses its mode. */
module NestingWitness {
  import opened Words
  import opened Memory
  import opened Cop0
  import opened Isa
  import opened Pipeline
  import opened Core
  import opened Exceptions
  import opened ModeStackRuns
  import opened Unaligned
  import opened UnalignedRuns
  import opened Witnesses

  // ----- the program -----

  /** At the reset vector: ADDIU $1, $0, 1; MTC0 $1, status; SYSCALL. */
  function Start(): (program: seq<u32>)
    ensures |program| == 3
  {
    [0x2401_0001, 0x4081_6000, 0x0000_000C]
  }

  /** At the exception vector: ADDIU $1, $1, 1; LW $2, 0($1); RFE; RFE; RFE. The load faults until $1 is
      a multiple of four. */
  function HandlerCode(): (program: seq<u32>)
    ensures |program| == 5
  {
    [0x2421_0001, 0x8C22_0000, 0x4200_0010, 0x4200_0010, 0x4200_0010]
  }

  function ProgramByte(program: seq<u32>, base: nat, i: nat): u8 {
    if base <= i < base + 4 * |program| then Byte(program[(i - base) / 4], (i - base) % 4) else 0
  }

  function Mem(): Store {
    seq(STORE_SIZE, i requires 0 <= i < STORE_SIZE =>
      if i < 0x1000 then ProgramByte(HandlerCode(), 0x80, i) else ProgramByte(Start(), BIOS_BASE, i))
  }

  ghost predicate CodeAt(pc: u32, word: u32) {
    pc % 4 == 0 && Readable(pc) && WordAt(Mem(), pc) == word
  }

  lemma ByteOfProgram(program: seq<u32>, base: nat, k: nat, j: nat)
    requires k < |program| && j < 4
    ensures ProgramByte(program, base, base + 4 * k + j) == Byte(program[k], j)
  {
    hide Byte;
    DivModUnique(4 * k + j, 4, k, j);
  }

  lemma WordOfProgram(program: seq<u32>, base: nat, k: nat, pc: u32)
    requires k < |program| && pc % 4 == 0 && Readable(pc) && Place(pc) == base + 4 * k
    requires forall i :: base + 4 * k <= i < base + 4 * k + 4 && i < STORE_SIZE ==>
               Mem()[i] == ProgramByte(program, base, i)
    ensures WordAt(Mem(), pc) == program[k]
  {
    hide Mem, ProgramByte, Byte, FromBytes, Readable, Place;
    ByteOfProgram(program, base, k, 0);
    ByteOfProgram(program, base, k, 1);
    ByteOfProgram(program, base, k, 2);
    ByteOfProgram(program, base, k, 3);
    BytesRoundTrip(program[k]);
  }

  lemma StartCode(k: nat)
    requires k < 3
    ensures CodeAt(Pc(k), Start()[k])
  {
    hide ProgramByte, Start, HandlerCode;
    InImage(k);
    WordOfProgram(Start(), BIOS_BASE, k, Pc(k));
  }

  /** The address of instruction k of the handler. */
  function Vector(k: nat): u32
    requires k < 0x100
  {
    EXCEPTION_VECTOR + 4 * k
  }

  lemma InRam(k: nat)
    requires k < 0x100
    ensures Vector(k) % 4 == 0 && Readable(Vector(k)) && Place(Vector(k)) == 0x80 + 4 * k
  {
    DivModUnique(Vector(k), 4, EXCEPTION_VECTOR / 4 + k, 0);
    DivModUnique(Vector(k), 0x2000_0000, 4, 0x80 + 4 * k);
    DivModUnique(Vector(k) + 3, 0x2000_0000, 4, 0x80 + 4 * k + 3);
  }

  lemma VectorCode(k: nat)
    requires k < 5
    ensures CodeAt(Vector(k), HandlerCode()[k])
  {
    hide ProgramByte, Start, HandlerCode;
    InRam(k);
    WordOfProgram(HandlerCode(), 0x80, k, Vector(k));
  }

  lemma Encodings()
    ensures Decode(0x2401_0001) == Immediate(ADDIU) && Rs(0x2401_0001) == 0
    ensures Rt(0x2401_0001) == 1 && Imm(0x2401_0001) == 1
    ensures Decode(0x4081_6000) == Handler.Cop0 && Rs(0x4081_6000) == 4 && Rt(0x4081_6000) == 1 && Rd(0x4081_6000) == 12
    ensures Decode(0x0000_000C) == Syscall
    ensures Decode(0x2421_0001) == Immediate(ADDIU) && Rs(0x2421_0001) == 1
    ensures Rt(0x2421_0001) == 1 && Imm(0x2421_0001) == 1
    ensures Decode(0x8C22_0000) == Lw && Rs(0x8C22_0000) == 1 && Rt(0x8C22_0000) == 2 && Imm(0x8C22_0000) == 0
    ensures Decode(0x4200_0010) == Handler.Cop0 && Rs(0x4200_0010) == 0x10
  {
  }

  // ----- one instruction -----

  /** The processor at pc with $1 holding count, and no interrupt requested. */
  ghost predicate Here<D>(b: Core<D>, pc: u32, count: u32) {
    && b.pc == pc && b.npc == Wrap(pc + 4) && !b.interrupted
    && b.r[1] == count && (b.load.Pending? ==> b.load.reg != 1)
    && !b.cop0.pendingInterrupts && InterruptBits(b.cop0.cause) == 0
    && b.sys.mem == Mem()
  }

  /** The fetch of a word of the program and what it does. */
  lemma Sees<D>(io: Io<D>, b: Core<D>, pc: u32, count: u32, word: u32)
    requires Here(b, pc, count) && CodeAt(pc, word)
    ensures b.pc % 4 == 0 && Fetch(io, b) == b.(inst := word)
    ensures EffectAt(io, b) == Meaning(io, Decode(word), CoreView(b.(inst := word)))
  {
    hide Mem, WordAt, Readable, Meaning, Decode, Settled;
    FetchesWord(io, b);
  }

  lemma Counts<D>(io: Io<D>, b: Core<D>, pc: u32, count: u32, word: u32)
    requires Here(b, pc, count) && CodeAt(pc, word) && count < 0x100
    requires word == 0x2401_0001 || word == 0x2421_0001
    ensures EffectAt(io, b) == Writes(1, if word == 0x2401_0001 then 1 else count + 1)
  {
    hide Mem, CodeAt, EffectAt, Fetch, Settled, Decode, Rs, Rt, Imm;
    Sees(io, b, pc, count, word);
    Encodings();
  }

  /** Where an effect of the program leads. */
  lemma Proceeds<D>(io: Io<D>, b: Core<D>, pc: u32, count: u32, word: u32, e: Effect<D>)
    requires Here(b, pc, count) && Fetch(io, b) == b.(inst := word) && e == EffectAt(io, b)
    ensures var n := CoreStep(LoadsLate, io, b);
            && (e.Writes? && e.reg == 1 ==> Here(n, Wrap(pc + 4), e.value) && n.cop0 == b.cop0)
            && (e.Loads? && e.reg == 2 && e.sys == b.sys ==> Here(n, Wrap(pc + 4), count))
            && (e.Raises? ==> Here(n, EXCEPTION_VECTOR, count))
            && (e == SetsCop0(Rfe(b.cop0)) ==> Here(n, Wrap(pc + 4), count))
            && (e == SetsCop0(Cop0.Write(b.cop0, 12, 1)) ==> Here(n, Wrap(pc + 4), count) && n.cop0.status == 1)
  {
    hide Mem, EffectAt, Fetch, CauseOf, PushMode, PopMode, Requested, IsolateSet, InterruptBits;
    RequestedNeedsInterruptBit(b.cop0.cause, PopMode(b.cop0.status));
    RequestedNeedsInterruptBit(b.cop0.cause, 1);
    if e.Raises? {
      CauseBits(b.cop0, e.code, b.pc, word, b.slot);
    }
  }

  lemma LoadsOrFaults<D>(io: Io<D>, b: Core<D>, pc: u32, count: u32)
    requires Here(b, pc, count) && CodeAt(pc, 0x8C22_0000) && count < 0x100
    ensures var e := EffectAt(io, b);
            if count % 4 != 0 then e == Raises(EXC_ADEL) else e.Loads? && e.reg == 2 && e.sys == b.sys
  {
    hide Mem, CodeAt, EffectAt, Fetch, Settled, Decode, Rs, Rt, Imm, FromBytes;
    Sees(io, b, pc, count, 0x8C22_0000);
    Encodings();
    assert Address(CoreView(b.(inst := 0x8C22_0000))) == count;
    assert ReadLocation(count).At?;
  }

  lemma ReturnsFrom<D>(io: Io<D>, b: Core<D>, pc: u32, count: u32)
    requires Here(b, pc, count) && CodeAt(pc, 0x4200_0010)
    ensures EffectAt(io, b) == SetsCop0(Rfe(b.cop0))
  {
    hide Mem, CodeAt, EffectAt, Fetch, Settled, Decode, Rs, Rfe;
    Sees(io, b, pc, count, 0x4200_0010);
    Encodings();
  }

  lemma SetsMode<D>(io: Io<D>, b: Core<D>, pc: u32)
    requires Here(b, pc, 1) && CodeAt(pc, 0x4081_6000)
    ensures EffectAt(io, b) == SetsCop0(Cop0.Write(b.cop0, 12, 1))
  {
    hide Mem, CodeAt, EffectAt, Fetch, Settled, Decode, Rs, Rt, Rd, Cop0.Write;
    Sees(io, b, pc, 1, 0x4081_6000);
    Encodings();
  }

  // ----- a run with its history -----

  /** Where a run from m has come, how many exceptions are open, and how many were at most. */
  ghost predicate Reached<D>(io: Io<D>, m: Machine<D>, hs: seq<Happening>, pc: u32, count: u32,
                             depth: int, deepest: int)
    requires Boundary(m)
  {
    && Here(Abstract(Trace(io, m, hs)), pc, count) && StatusUntouched(io, m, hs)
    && Nested(EventsOf(io, m, hs)) && Depth(EventsOf(io, m, hs)) == depth && Deepest(EventsOf(io, m, hs)) == deepest
  }

  /** One more step of a run. */
  lemma OneStep<D>(io: Io<D>, m: Machine<D>, hs: seq<Happening>)
    requires Boundary(m) && StatusUntouched(io, m, hs) && !WritesStatus(io, Trace(io, m, hs))
    ensures Trace(io, m, hs + [Tick]) == Step(io, Trace(io, m, hs))
    ensures Abstract(Trace(io, m, hs + [Tick])) == CoreStep(LoadsLate, io, Abstract(Trace(io, m, hs)))
    ensures EventsOf(io, m, hs + [Tick]) == EventsOf(io, m, hs) + StepEvents(io, Trace(io, m, hs))
    ensures StatusUntouched(io, m, hs + [Tick])
  {
    hide Step, CoreStep, StepEvents, WritesStatus, Abstract;
    assert (hs + [Tick])[..|hs|] == hs;
    assert forall k :: 0 <= k < |hs| ==> (hs + [Tick])[..k] == hs[..k];
    StepSimulates(io, Trace(io, m, hs));
  }

  /** What a step adds to the history, by its instruction. */
  lemma EventsOfStep<D>(io: Io<D>, m: Machine<D>, pc: u32, count: u32, word: u32)
    requires Boundary(m) && Here(Abstract(m), pc, count) && CodeAt(pc, word)
    requires word in {0x2421_0001, 0x8C22_0000, 0x4200_0010, 0x0000_000C}
    ensures !WritesStatus(io, m)
    ensures var e, events := EffectAt(io, Abstract(m)), StepEvents(io, m);
            && (word == 0x4200_0010 && !e.Raises? ==> events == [Return])
            && (word != 0x4200_0010 && !e.Raises? ==> events == [])
            && (word != 0x4200_0010 && e.Raises? ==> |events| == 1 && events[0].Enter?)
  {
    hide Mem, CodeAt, EffectAt, Fetch, Decode, Rs, Rd, Done, EntryCode, SlotOf, GetNextPc;
    Sees(io, Abstract(m), pc, count, word);
    Encodings();
  }

  lemma QuietStep<D>(io: Io<D>, m: Machine<D>, hs: seq<Happening>, pc: u32, count: u32, depth: int, deepest: int,
                     word: u32, next: u32)
    requires Boundary(m) && Reached(io, m, hs, pc, count, depth, deepest) && CodeAt(pc, word)
    requires word in {0x2421_0001, 0x8C22_0000} && !EffectAt(io, Abstract(Trace(io, m, hs))).Raises?
    requires Here(CoreStep(LoadsLate, io, Abstract(Trace(io, m, hs))), Wrap(pc + 4), next)
    ensures Reached(io, m, hs + [Tick], Wrap(pc + 4), next, depth, deepest)
  {
    hide Here, CodeAt, EffectAt, CoreStep, StepEvents, Trace, EventsOf, StatusUntouched, Nested, Depth, Deepest;
    hide WritesStatus, Boundary, Abstract;
    EventsOfStep(io, Trace(io, m, hs), pc, count, word);
    OneStep(io, m, hs);
    assert EventsOf(io, m, hs) + [] == EventsOf(io, m, hs);
  }

  /** A step that is an exception or a return. */
  lemma LoudStep<D>(io: Io<D>, m: Machine<D>, hs: seq<Happening>, pc: u32, count: u32, depth: int, deepest: int,
                    word: u32, next: u32)
    requires Boundary(m) && Reached(io, m, hs, pc, count, depth, deepest) && CodeAt(pc, word)
    requires word in {0x8C22_0000, 0x4200_0010, 0x0000_000C}
    requires EffectAt(io, Abstract(Trace(io, m, hs))).Raises? <==> word != 0x4200_0010
    requires word == 0x4200_0010 ==> depth > 0
    requires Here(CoreStep(LoadsLate, io, Abstract(Trace(io, m, hs))), next, count)
    ensures var d := if word == 0x4200_0010 then depth - 1 else depth + 1;
            Reached(io, m, hs + [Tick], next, count, d, if d > deepest then d else deepest)
  {
    hide Here, CodeAt, EffectAt, CoreStep, Trace, EventsOf, StatusUntouched, Nested, Depth, Deepest;
    hide WritesStatus, Boundary, Abstract, StepEvents;
    var events := StepEvents(io, Trace(io, m, hs));
    EventsOfStep(io, Trace(io, m, hs), pc, count, word);
    OneStep(io, m, hs);
    assert events == [events[0]];
    OneMore(EventsOf(io, m, hs), events[0]);
  }

  // ----- the handler -----

  /** ADDIU $1, $1, 1 of the handler. */
  lemma HandlerCounts<D>(io: Io<D>, m: Machine<D>, hs: seq<Happening>, count: u32, depth: int, deepest: int)
    requires Boundary(m) && Reached(io, m, hs, Vector(0), count, depth, deepest) && count < 0x100
    ensures Reached(io, m, hs + [Tick], Vector(1), count + 1, depth, deepest)
  {
    hide Here, CodeAt, EffectAt, CoreStep, Trace, EventsOf, StatusUntouched, Nested, Depth, Deepest, Boundary, Abstract;
    hide HandlerCode, Fetch, Meaning, Decode;
    var b := Abstract(Trace(io, m, hs));
    VectorCode(0);
    assert HandlerCode()[0] == 0x2421_0001 by { HandlerWords(); }
    Sees(io, b, Vector(0), count, 0x2421_0001);
    Counts(io, b, Vector(0), count, 0x2421_0001);
    Proceeds(io, b, Vector(0), count, 0x2421_0001, EffectAt(io, b));
    QuietStep(io, m, hs, Vector(0), count, depth, deepest, 0x2421_0001, count + 1);
  }

  lemma HandlerWords()
    ensures HandlerCode()[0] == 0x2421_0001 && HandlerCode()[1] == 0x8C22_0000
    ensures HandlerCode()[2] == HandlerCode()[3] == HandlerCode()[4] == 0x4200_0010
    ensures Start()[0] == 0x2401_0001 && Start()[1] == 0x4081_6000 && Start()[2] == 0x0000_000C
  {
  }

  /** LW $2, 0($1) of the handler: it goes on, or enters the handler once more. */
  lemma HandlerLoads<D>(io: Io<D>, m: Machine<D>, hs: seq<Happening>, count: u32, depth: int, deepest: int)
    requires Boundary(m) && Reached(io, m, hs, Vector(1), count, depth, deepest) && count < 0x100
    ensures count % 4 == 0 ==> Reached(io, m, hs + [Tick], Vector(2), count, depth, deepest)
    ensures count % 4 != 0 ==>
              Reached(io, m, hs + [Tick], Vector(0), count, depth + 1,
                      if depth + 1 > deepest then depth + 1 else deepest)
  {
    hide Here, CodeAt, EffectAt, CoreStep, Trace, EventsOf, StatusUntouched, Nested, Depth, Deepest, Boundary, Abstract;
    hide HandlerCode, Fetch, Meaning, Decode;
    var b := Abstract(Trace(io, m, hs));
    VectorCode(1);
    HandlerWords();
    Sees(io, b, Vector(1), count, 0x8C22_0000);
    LoadsOrFaults(io, b, Vector(1), count);
    Proceeds(io, b, Vector(1), count, 0x8C22_0000, EffectAt(io, b));
    if count % 4 == 0 {
      QuietStep(io, m, hs, Vector(1), count, depth, deepest, 0x8C22_0000, count);
    } else {
      LoudStep(io, m, hs, Vector(1), count, depth, deepest, 0x8C22_0000, Vector(0));
    }
  }

  /** One RFE of the handler. */
  lemma HandlerReturns<D>(io: Io<D>, m: Machine<D>, hs: seq<Happening>, k: nat, count: u32, depth: int, deepest: int)
    requires 2 <= k < 5 && depth > 0 && deepest >= depth
    requires Boundary(m) && Reached(io, m, hs, Vector(k), count, depth, deepest)
    ensures Reached(io, m, hs + [Tick], Vector(k + 1), count, depth - 1, deepest)
  {
    hide Here, CodeAt, EffectAt, CoreStep, Trace, EventsOf, StatusUntouched, Nested, Depth, Deepest, Boundary, Abstract;
    hide HandlerCode, Fetch, Rfe, Meaning, Decode;
    var b := Abstract(Trace(io, m, hs));
    VectorCode(k);
    HandlerWords();
    Sees(io, b, Vector(k), count, 0x4200_0010);
    ReturnsFrom(io, b, Vector(k), count);
    Proceeds(io, b, Vector(k), count, 0x4200_0010, EffectAt(io, b));
    LoudStep(io, m, hs, Vector(k), count, depth, deepest, 0x4200_0010, Vector(k + 1));
  }

  /** The SYSCALL. */
  lemma CallsSystem<D>(io: Io<D>, m: Machine<D>, hs: seq<Happening>)
    requires Boundary(m) && Reached(io, m, hs, Pc(2), 1, 0, 0)
    ensures Reached(io, m, hs + [Tick], Vector(0), 1, 1, 1)
  {
    hide Here, CodeAt, EffectAt, CoreStep, Trace, EventsOf, StatusUntouched, Nested, Depth, Deepest, Boundary, Abstract;
    hide Start, Fetch;
    var b := Abstract(Trace(io, m, hs));
    StartCode(2);
    HandlerWords();
    Encodings();
    Sees(io, b, Pc(2), 1, 0x0000_000C);
    Proceeds(io, b, Pc(2), 1, 0x0000_000C, EffectAt(io, b));
    LoudStep(io, m, hs, Pc(2), 1, 0, 0, 0x0000_000C, Vector(0));
  }

  // ----- from reset -----

  function FromReset<D>(dev: D): Machine<D> {
    Machine(ResetCpu(), RESET, Sys(Mem(), dev))
  }

  lemma AtReset<D>(dev: D)
    ensures Boundary(FromReset(dev)) && Here(Abstract(FromReset(dev)), Pc(0), 0)
  {
    hide Mem;
  }

  lemma StartCounts<D>(io: Io<D>, b: Core<D>)
    requires Here(b, Pc(0), 0)
    ensures Here(CoreStep(LoadsLate, io, b), Pc(1), 1)
  {
    hide Here, CodeAt, EffectAt, CoreStep, Start, Fetch, Meaning, Decode;
    StartCode(0);
    HandlerWords();
    Sees(io, b, Pc(0), 0, 0x2401_0001);
    Counts(io, b, Pc(0), 0, 0x2401_0001);
    Proceeds(io, b, Pc(0), 0, 0x2401_0001, EffectAt(io, b));
  }

  lemma StartSetsMode<D>(io: Io<D>, b: Core<D>)
    requires Here(b, Pc(1), 1)
    ensures var n := CoreStep(LoadsLate, io, b); Here(n, Pc(2), 1) && n.cop0.status == 1
  {
    hide Here, CodeAt, EffectAt, CoreStep, Start, Fetch, Meaning, Decode, Cop0.Write, Rfe;
    StartCode(1);
    HandlerWords();
    Sees(io, b, Pc(1), 1, 0x4081_6000);
    SetsMode(io, b, Pc(1));
    Proceeds(io, b, Pc(1), 1, 0x4081_6000, EffectAt(io, b));
  }

  /** Two steps from reset the current mode is 1. */
  lemma ModeIsSet<D>(io: Io<D>, dev: D)
    ensures var m := Steps(io, FromReset(dev), 2);
            Boundary(m) && Here(Abstract(m), Pc(2), 1) && m.cop0.status == 1
  {
    hide Here, CoreStep, Step, FromReset, GetNextPc, SlotOf;
    AtReset(dev);
    var m0 := FromReset(dev);
    var m1 := Steps(io, m0, 1);
    assert m1 == Step(io, Steps(io, m0, 0));
    StepSimulates(io, m0);
    StartCounts(io, Abstract(m0));
    StepSimulates(io, m1);
    StartSetsMode(io, Abstract(m1));
  }

  lemma NothingYet<D>(io: Io<D>, m: Machine<D>)
    requires Boundary(m) && Here(Abstract(m), Pc(2), 1)
    ensures Reached(io, m, [], Pc(2), 1, 0, 0)
  {
    hide Here, Abstract;
  }

  /** From reset: the SYSCALL and the two loads that fault in its handler are three exceptions one inside
      the other; the three RFEs that follow bring back a current mode of zero instead of one. */
  lemma ThreeOpenLoseTheMode<D>(io: Io<D>, dev: D)
    ensures var m := Steps(io, FromReset(dev), 2);
            && Boundary(m) && Current(m.cop0.status) == 1
            && Deepest(EventsOf(io, m, Ticks(10))) == 3
            && Nested(EventsOf(io, m, Ticks(10))) && Depth(EventsOf(io, m, Ticks(10))) == 0
            && Current(Trace(io, m, Ticks(10)).cop0.status) == 0
  {
    hide Steps, Reached, Trace, EventsOf, StatusUntouched, Nested, Depth, Deepest, Here;
    var m := Steps(io, FromReset(dev), 2);
    ModeIsSet(io, dev);
    NothingYet(io, m);
    CallsSystem(io, m, []);
    HandlerCounts(io, m, [] + [Tick], 1, 1, 1);
    HandlerLoads(io, m, [] + [Tick] + [Tick], 2, 1, 1);
    HandlerCounts(io, m, Ticks(3), 2, 2, 2);
    HandlerLoads(io, m, Ticks(4), 3, 2, 2);
    HandlerCounts(io, m, Ticks(5), 3, 3, 3);
    HandlerLoads(io, m, Ticks(6), 4, 3, 3);
    HandlerReturns(io, m, Ticks(7), 2, 4, 3, 3);
    HandlerReturns(io, m, Ticks(8), 3, 4, 2, 3);
    HandlerReturns(io, m, Ticks(9), 4, 4, 1, 3);
    NestedAtLast(io, m);
  }

  lemma NestedAtLast<D>(io: Io<D>, m: Machine<D>)
    requires Boundary(m) && m.cop0.status == 1 && Reached(io, m, Ticks(10), Vector(5), 4, 0, 3)
    ensures Deepest(EventsOf(io, m, Ticks(10))) == 3
    ensures Nested(EventsOf(io, m, Ticks(10))) && Depth(EventsOf(io, m, Ticks(10))) == 0
    ensures Current(m.cop0.status) == 1 && Current(Trace(io, m, Ticks(10)).cop0.status) == 0
  {
    hide Ticks, Trace, EventsOf, StatusUntouched, Nested, Depth, Deepest, Here;
    RunNesting(io, m, Ticks(10));
    LowBits(Trace(io, m, Ticks(10)).cop0.status);
  }
}
