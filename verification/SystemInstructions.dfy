/** Loads, stores, the coprocessor's instructions and the traps, said from the instruction words. */
module SystemInstructions {
  import opened Words
  import opened Bits
  import opened Memory
  import opened Cop0
  import opened Isa
  import opened Pipeline
  import opened Core
  import opened Digits
  import opened Encoding
  import opened InstructionSet
  import Unaligned
  import UnalignedRuns

  // ----- loads -----

  /** The address of a load or store. */
  function DataAddress<D>(m: Machine<D>, rs: RegNo, imm: u16): u32 {
    (m.cpu.r[rs] + Offset(imm)) % TWO_32
  }

  lemma AddressSeen<D>(io: Io<D>, m: Machine<D>, op: nat, rs: RegNo, rt: RegNo, imm: u16)
    requires 0 < op < 0x40 && Runs(io, m, Word(op, rs, rt, imm))
    ensures var v := Seen(io, m);
            && EffectAt(io, Abstract(m)) == Meaning(io, OpcodeTable(op), v)
            && Rt(v.inst) == rt && Reg(v.r, rt) == m.cpu.r[rt]
            && Address(v) == DataAddress(m, rs, imm) && v.sys == System(io, m) && v.cop0 == m.cop0
  {
    hide Seen, Runs, Offset, Signed16, Imm, EffectAt, Meaning, OpcodeTable, Word, Reg, Rs, Rt;
    WhatIsSeen(io, m, Word(op, rs, rt, imm));
    Decoded(io, m, op, rs, rt, imm);
    OffsetIsSigned(imm);
  }

  lemma ByteExtended(b: u8)
    ensures TwosComplement(b, 0x80) == Signed8(b)
  {
  }

  /** LB and LBU: the byte at the address, with its sign extended or not, goes to rt one instruction late. */
  lemma LoadByte<D>(io: Io<D>, m: Machine<D>, op: nat, rs: RegNo, rt: RegNo, imm: u16)
    requires op in {0x20, 0x24} && Runs(io, m, Word(op, rs, rt, imm))
    ensures var (b, s) := Read8(io, System(io, m), DataAddress(m, rs, imm));
            LoadsFrom(io, m, rt, if op == 0x20 then TwosComplement(b, 0x80) % TWO_32 else b, s)
  {
    hide Step, EffectAt, Seen, Read32, Read8, Abstract, Word, Meaning, OpcodeTable, LoadsFrom, DataAddress, Reg;
    hide TwosComplement, Signed8, Address;
    var inst := Word(op, rs, rt, imm);
    AddressSeen(io, m, op, rs, rt, imm);
    ByteEffect(io, Seen(io, m), op);
    var (b, s) := Read8(io, System(io, m), DataAddress(m, rs, imm));
    ByteExtended(b);
    FromLoads(io, m, inst, rt, if op == 0x20 then Wrap(Signed8(b)) else b, s);
  }

  lemma ByteEffect<D>(io: Io<D>, v: View<D>, op: nat)
    requires op in {0x20, 0x24}
    ensures var (b, s) := Read8(io, v.sys, Address(v));
            Meaning(io, OpcodeTable(op), v) == Loads(Rt(v.inst), if op == 0x20 then Wrap(Signed8(b)) else b, s)
  {
    hide Read8, Address, Rt, Signed8, Wrap;
  }

  /** LH and LHU: the same for a halfword, and the address trap at an odd address. */
  lemma LoadHalf<D>(io: Io<D>, m: Machine<D>, op: nat, rs: RegNo, rt: RegNo, imm: u16)
    requires op in {0x21, 0x25} && Runs(io, m, Word(op, rs, rt, imm))
    ensures var a := DataAddress(m, rs, imm);
            if a % 2 != 0 then Traps(io, m, 4)
            else
              var (h, s) := AlignedRead16(io, System(io, m), a);
              LoadsFrom(io, m, rt, if op == 0x21 then Offset(h) % TWO_32 else h, s)
  {
    hide Step, EffectAt, Seen, Read32, Read16, Abstract, Word, Meaning, OpcodeTable, LoadsFrom, DataAddress, Reg;
    hide Offset, Signed16, Address, Traps;
    var inst := Word(op, rs, rt, imm);
    AddressSeen(io, m, op, rs, rt, imm);
    HalfEffect(io, Seen(io, m), op);
    var a := DataAddress(m, rs, imm);
    if a % 2 != 0 {
      FromRaises(io, m, inst, EXC_ADEL);
    } else {
      var (h, s) := AlignedRead16(io, System(io, m), a);
      OffsetIsSigned(h);
      FromLoads(io, m, inst, rt, if op == 0x21 then Wrap(Signed16(h)) else h, s);
    }
  }

  lemma HalfEffect<D>(io: Io<D>, v: View<D>, op: nat)
    requires op in {0x21, 0x25}
    ensures Meaning(io, OpcodeTable(op), v) ==
            if Address(v) % 2 != 0 then Raises(EXC_ADEL)
            else
              var (h, s) := AlignedRead16(io, v.sys, Address(v));
              Loads(Rt(v.inst), if op == 0x21 then Wrap(Signed16(h)) else h, s)
  {
    hide Read16, Address, Rt, Signed16, Wrap;
  }

  /** LW */
  lemma LoadWord<D>(io: Io<D>, m: Machine<D>, rs: RegNo, rt: RegNo, imm: u16)
    requires Runs(io, m, Word(0x23, rs, rt, imm))
    ensures var a := DataAddress(m, rs, imm);
            if a % 4 != 0 then Traps(io, m, 4)
            else
              var (w, s) := AlignedRead32(io, System(io, m), a);
              LoadsFrom(io, m, rt, w, s)
  {
    hide Step, EffectAt, Seen, Read32, Abstract, Word, Meaning, OpcodeTable, LoadsFrom, DataAddress, Reg;
    hide Address, Traps;
    var inst := Word(0x23, rs, rt, imm);
    AddressSeen(io, m, 0x23, rs, rt, imm);
    WordEffect(io, Seen(io, m));
    var a := DataAddress(m, rs, imm);
    if a % 4 != 0 {
      FromRaises(io, m, inst, EXC_ADEL);
    } else {
      var (w, s) := AlignedRead32(io, System(io, m), a);
      FromLoads(io, m, inst, rt, w, s);
    }
  }

  lemma WordEffect<D>(io: Io<D>, v: View<D>)
    ensures Meaning(io, OpcodeTable(0x23), v) ==
            if Address(v) % 4 != 0 then Raises(EXC_ADEL)
            else var (w, s) := AlignedRead32(io, v.sys, Address(v)); Loads(Rt(v.inst), w, s)
  {
    hide Read32, Address, Rt;
  }

  // ----- stores -----

  /** SB, SH and SW: the low bytes of rt go to the address; a misaligned address traps; while the cache is isolated
      nothing happens, whatever the address. */
  lemma Store<D>(io: Io<D>, m: Machine<D>, op: nat, rs: RegNo, rt: RegNo, imm: u16)
    requires op in {0x28, 0x29, 0x2B} && Runs(io, m, Word(op, rs, rt, imm))
    ensures var a, x, s := DataAddress(m, rs, imm), m.cpu.r[rt], System(io, m);
            if m.cop0.cacheIsolated then Changes(io, m, s, m.cop0)
            else if op == 0x28 then Changes(io, m, Write8(io, s, a, x % 0x100), m.cop0)
            else if op == 0x29 then
              if a % 2 != 0 then Traps(io, m, 5) else Changes(io, m, AlignedWrite16(io, s, a, x % TWO_16), m.cop0)
            else if a % 4 != 0 then Traps(io, m, 5)
            else Changes(io, m, AlignedWrite32(io, s, a, x), m.cop0)
  {
    hide Step, EffectAt, Seen, Read32, Write8, Write16, Write32, Abstract, Word, Meaning, OpcodeTable, Changes;
    hide Address, Traps, DataAddress, Reg;
    var inst := Word(op, rs, rt, imm);
    AddressSeen(io, m, op, rs, rt, imm);
    StoreEffect(io, Seen(io, m), op);
    var e := EffectAt(io, Abstract(m));
    if e.Raises? {
      FromRaises(io, m, inst, EXC_ADES);
    } else {
      FromStores(io, m, inst, e);
    }
  }

  lemma StoreEffect<D>(io: Io<D>, v: View<D>, op: nat)
    requires op in {0x28, 0x29, 0x2B}
    ensures var a, x := Address(v), Reg(v.r, Rt(v.inst));
            Meaning(io, OpcodeTable(op), v) ==
            if v.cop0.cacheIsolated then Nothing
            else if op == 0x28 then Stores(Write8(io, v.sys, a, x % 0x100))
            else if op == 0x29 then
              if a % 2 != 0 then Raises(EXC_ADES) else Stores(AlignedWrite16(io, v.sys, a, x % TWO_16))
            else if a % 4 != 0 then Raises(EXC_ADES)
            else Stores(AlignedWrite32(io, v.sys, a, x))
  {
    hide Write8, Write16, Write32, Address, Reg, Rt;
  }

  /** The words of LWL, LWR, SWL and SWR are the halves of the unaligned pairs: the left ones are written with
      an offset of three more. */
  lemma UnalignedHalves(mem: Store, pc: u32, op: nat, h: Handler, rt: RegNo, base: RegNo, imm: u16, k: int)
    requires (op, h) in {(0x22, Lwl), (0x26, Lwr), (0x2A, Swl), (0x2E, Swr)}
    requires pc % 4 == 0 && Unaligned.Readable(pc) && Unaligned.WordAt(mem, pc) == Word(op, base, rt, imm)
    requires Offset(imm) == if op == 0x22 || op == 0x2A then k + 3 else k
    ensures UnalignedRuns.HalfAt(mem, pc, h, rt, base, k)
  {
    hide Unaligned.Readable, Unaligned.WordAt, Word, Offset, Signed16;
    WordFields(op, base, rt, imm);
    OffsetIsSigned(imm);
  }

  // ----- the coprocessor -----

  /** The register that MFC0 reads under each number. */
  function Cop0Register(c: Cop0State, rd: nat): u32 {
    match rd
    case 3 => c.bpc
    case 5 => c.bda
    case 6 => c.tar
    case 7 => c.dcic
    case 8 => c.badAddr
    case 12 => c.status
    case 13 => c.cause
    case 14 => c.epc
    case 15 => c.prid
    case _ => 0
  }

  /** An interrupt is due: status bit 0 enables them, and some bit from 8 to 15 is set in cause and in status. */
  ghost predicate Due(cause: u32, status: u32) {
    Bit(status, 0) == 1 && exists k :: 8 <= k < 16 && Bit(cause, k) == 1 && Bit(status, k) == 1
  }

  /** What MTC0 makes of the coprocessor: six registers can be written, and the flags follow the status. */
  ghost function Cop0Written(c: Cop0State, rd: nat, value: u32): Cop0State {
    match rd
    case 3 => c.(bpc := value)
    case 5 => c.(bda := value)
    case 6 => c.(tar := value)
    case 7 => c.(dcic := value)
    case 9 => c.(bdam := value)
    case 12 => c.(status := value, cacheIsolated := Bit(value, 16) == 1, pendingInterrupts := Due(c.cause, value))
    case _ => c
  }

  lemma InterruptDigits(x: u32, k: nat)
    requires k < 8
    ensures Bit(InterruptBits(x), k) == Bit(x, k + 8)
  {
    hide Bit, Pow2;
    Powers();
    var y := x / 0x100;
    UpperAndLower(y, x % 0x100, 8, k + 8);
    UpperAndLower(y / 0x100, y % 0x100, 8, k);
  }

  lemma RequestIsDue(cause: u32, status: u32)
    ensures Requested(cause, status) <==> Due(cause, status)
  {
    hide Bit, Pow2, And, Requested;
    RequestFields(cause, status);
    Powers();
    var a, b := InterruptBits(cause), InterruptBits(status);
    assert a < 0x100;
    SomeDigit(And(a, b), 8);
    BitIsShift(status, 0);
    forall k | 0 <= k < 8
      ensures Bit(And(a, b), k) == 1 <==> Bit(cause, k + 8) == 1 && Bit(status, k + 8) == 1
    {
      AndBit(a, b, k);
      InterruptDigits(cause, k);
      InterruptDigits(status, k);
    }
    if Due(cause, status) {
      var j :| 8 <= j < 16 && Bit(cause, j) == 1 && Bit(status, j) == 1;
      assert Bit(And(a, b), j - 8) == 1;
    }
    if HasDigit(And(a, b), 8) && Bit(status, 0) == 1 {
      var k :| 0 <= k < 8 && Bit(And(a, b), k) == 1;
      assert Bit(cause, k + 8) == 1 && Bit(status, k + 8) == 1;
    }
  }

  lemma WrittenIsWrite(c: Cop0State, rd: nat, value: u32)
    ensures Cop0.Write(c, rd, value) == Cop0Written(c, rd, value)
    ensures Cop0.Read(c, rd) == Cop0Register(c, rd)
  {
    hide Requested, Due, Bit, Pow2;
    RequestIsDue(c.cause, value);
    BitIsShift(value, 16);
    Powers();
  }

  /** MFC0 loads a coprocessor register one instruction late. */
  lemma MoveFromCop0<D>(io: Io<D>, m: Machine<D>, rt: RegNo, rd: RegNo, sh: RegNo, funct: nat)
    requires funct < 0x40 && Runs(io, m, Word(0x10, 0, rt, Low(rd, sh, funct)))
    ensures LoadsFrom(io, m, rt, Cop0Register(m.cop0, rd), System(io, m))
  {
    hide Step, EffectAt, Seen, Read32, Abstract, Word, Low, Meaning, OpcodeTable, LoadsFrom;
    hide Cop0.Read, Cop0.Write, Cop0Register, Cop0Written, Reg;
    var inst := Word(0x10, 0, rt, Low(rd, sh, funct));
    WhatIsSeen(io, m, inst);
    Decoded(io, m, 0x10, 0, rt, Low(rd, sh, funct));
    LowFields(0x10, 0, rt, rd, sh, funct);
    Cop0Effect(io, Seen(io, m));
    WrittenIsWrite(m.cop0, rd, 0);
    FromLoads(io, m, inst, rt, Cop0.Read(m.cop0, rd), System(io, m));
  }

  /** MTC0 writes a coprocessor register at once. */
  lemma MoveToCop0<D>(io: Io<D>, m: Machine<D>, rt: RegNo, rd: RegNo, sh: RegNo, funct: nat)
    requires funct < 0x40 && Runs(io, m, Word(0x10, 4, rt, Low(rd, sh, funct)))
    ensures Changes(io, m, System(io, m), Cop0Written(m.cop0, rd, m.cpu.r[rt]))
  {
    hide Step, EffectAt, Seen, Read32, Abstract, Word, Low, Meaning, OpcodeTable, Changes;
    hide Cop0.Read, Cop0.Write, Cop0Register, Cop0Written, Reg;
    var inst := Word(0x10, 4, rt, Low(rd, sh, funct));
    WhatIsSeen(io, m, inst);
    Decoded(io, m, 0x10, 4, rt, Low(rd, sh, funct));
    LowFields(0x10, 4, rt, rd, sh, funct);
    Cop0Effect(io, Seen(io, m));
    WrittenIsWrite(m.cop0, rd, m.cpu.r[rt]);
    FromStores(io, m, inst, EffectAt(io, Abstract(m)));
  }

  lemma Cop0Effect<D>(io: Io<D>, v: View<D>)
    ensures Meaning(io, OpcodeTable(0x10), v) ==
            if Rs(v.inst) == 0 then Loads(Rt(v.inst), Cop0.Read(v.cop0, Rd(v.inst)), v.sys)
            else if Rs(v.inst) == 4 then SetsCop0(Cop0.Write(v.cop0, Rd(v.inst), Reg(v.r, Rt(v.inst))))
            else if Rs(v.inst) == 0x10 then SetsCop0(Rfe(v.cop0))
            else Raises(EXC_RI)
  {
    hide Cop0.Read, Cop0.Write, Rfe, Reg, Rs, Rt, Rd;
  }

  /** RFE: bits 5:2 of the status move to bits 3:0, all others stay, and the interrupt flag is worked out anew. */
  lemma ReturnFromException<D>(io: Io<D>, m: Machine<D>, rt: RegNo, imm: u16, k: nat)
    requires k < 32 && Runs(io, m, Word(0x10, 0x10, rt, imm)) && m.cpu.nextExcCode != EXC_INT
    ensures var c := Step(io, m).cop0;
            && Changes(io, m, System(io, m), c)
            && c == m.cop0.(status := c.status, pendingInterrupts := Due(m.cop0.cause, c.status))
            && Bit(c.status, k) == Bit(m.cop0.status, if k < 4 then k + 2 else k)
  {
    hide Step, EffectAt, Seen, Read32, Abstract, Word, Meaning, OpcodeTable, Registers, SameHiLo;
    hide Requested, PopMode, Due, Bit;
    var inst := Word(0x10, 0x10, rt, imm);
    WhatIsSeen(io, m, inst);
    Decoded(io, m, 0x10, 0x10, rt, imm);
    Cop0Effect(io, Seen(io, m));
    FromStores(io, m, inst, SetsCop0(Rfe(m.cop0)));
    RequestIsDue(m.cop0.cause, PopMode(m.cop0.status));
    PopDigits(m.cop0.status, k);
  }

  lemma PopDigits(status: u32, k: nat)
    ensures Bit(PopMode(status), k) == Bit(status, if k < 4 then k + 2 else k)
  {
    hide Bit, Pow2;
    Powers();
    var h, q := status / 0x10, status / 4;
    UpperAndLower(h, q % 0x10, 4, k);
    UpperAndLower(h, status % 0x10, 4, k);
    UpperAndLower(q / 0x10, q % 0x10, 4, k);
    UpperAndLower(q, status % 4, 2, k + 2);
  }

  // ----- entering the handler -----

  /** One bit of the cause register after an exception: the code, the interrupt bits, the two low bits of the
      opcode except for bus errors, and whether a branch was before it and was taken. */
  function CauseDigit(cause: u32, code: u8, inst: u32, slot: Slot, k: nat): nat {
    if 2 <= k < 8 then Bit(code, k - 2)
    else if 8 <= k < 16 then Bit(cause, k)
    else if 28 <= k < 30 && code != 6 && code != 7 then Bit(inst, k - 2)
    else if k == 30 && slot.InSlot? && slot.taken then 1
    else if k == 31 && slot.InSlot? then 1
    else 0
  }

  lemma HighDigits(number: nat, taken: nat, delayed: nat, k: nat)
    requires number < 4 && taken < 2 && delayed < 2 && k < 4
    ensures Bit(delayed * 8 + taken * 4 + number, k) ==
            if k < 2 then Bit(number, k) else if k == 2 then taken else delayed
  {
    hide Bit, Pow2;
    Powers();
    UpperAndLower(delayed * 2 + taken, number, 2, k);
    if k >= 2 {
      UpperAndLower(delayed, taken, 1, k - 2);
      OneDigit(taken);
      OneDigit(delayed);
    }
  }

  lemma CauseIsDigits(cause: u32, code: u8, inst: u32, slot: Slot, k: nat)
    requires code < 0x40 && k < 32
    ensures Bit(CauseOf(cause, code, inst, slot), k) == CauseDigit(cause, code, inst, slot, k)
  {
    hide Bit, Pow2;
    Powers();
    var number := if code == 6 || code == 7 then 0 else inst / 0x400_0000 % 4;
    var taken := if slot.InSlot? && slot.taken then 1 else 0;
    var delayed := if slot.InSlot? then 1 else 0;
    var low := InterruptBits(cause) * 0x100 + code * 4;
    assert CauseOf(cause, code, inst, slot) == (delayed * 8 + taken * 4 + number) * 0x1000_0000 + low;
    UpperAndLower(delayed * 8 + taken * 4 + number, low, 28, k);
    if k < 28 {
      UpperAndLower(InterruptBits(cause), code * 4, 8, k);
      if k < 8 {
        MultipleDigit(code, 2, k);
      } else if k < 16 {
        InterruptDigits(cause, k - 8);
      } else {
        RemainderDigit(cause / 0x100, 8, k - 8, 0x100);
      }
    } else {
      HighDigits(number, taken, delayed, k - 28);
      if k < 30 {
        BitOfZero(k - 28);
        RemainderDigit(inst / 0x400_0000, 2, k - 28, 4);
        UpperAndLower(inst / 0x400_0000, inst % 0x400_0000, 26, k - 2);
      }
    }
  }

  lemma PushDigits(status: u32, k: nat)
    ensures Bit(PushMode(status), k) ==
            if k < 2 then 0 else if k < 6 then Bit(status, k - 2) else Bit(status, k)
  {
    hide Bit, Pow2;
    Powers();
    UpperAndLower(status / 0x40, status % 0x40, 6, k);
    UpperAndLower(status / 0x40, status * 4 % 0x40, 6, k);
    if k < 6 {
      RemainderDigit(status * 4, 6, k, 0x40);
      MultipleDigit(status, 2, k);
    }
  }

  /** Bit by bit, the coprocessor after an exception: the cause, the mode stack one pair up, and the registers
      that say where it happened; the interrupt flag is clear. */
  lemma HandlerEntry(c: Cop0State, code: u8, pc: u32, inst: u32, slot: Slot, k: nat)
    requires code < 0x40 && k < 32
    ensures var n := Raise(c, code, pc, inst, slot);
            && Bit(n.cause, k) == CauseDigit(c.cause, code, inst, slot, k)
            && Bit(n.status, k) == (if k < 2 then 0 else if k < 6 then Bit(c.status, k - 2) else Bit(c.status, k))
            && n == c.(cause := n.cause, status := n.status,
                       cacheIsolated := Bit(c.status, 16) == 1, pendingInterrupts := false,
                       epc := if slot.InSlot? then (pc - 4) % TWO_32 else pc,
                       tar := if slot.InSlot? then slot.target else c.tar,
                       badAddr := if code == 4 || code == 5 then pc else c.badAddr)
  {
    hide Bit, Pow2, CauseOf, PushMode, Requested;
    CauseIsDigits(c.cause, code, inst, slot, k);
    PushDigits(c.status, k);
    ModesKeepIsolation(c.status);
    BitIsShift(c.status, 16);
    Powers();
  }

  /** The interrupt line is bit 15 of the cause register, and no other bit follows it; the flag asks only for the
      enable bit. */
  lemma LineDigit(c: Cop0State, pending: bool, k: nat)
    requires k < 32
    ensures var c1 := UpdateInterrupts(c, pending);
            && c1 == c.(cause := c1.cause, pendingInterrupts := pending && Bit(c.status, 0) == 1)
            && Bit(c1.cause, k) == if k == 15 then (if pending then 1 else 0) else Bit(c.cause, k)
  {
    hide Bit, Pow2;
    Powers();
    BitIsShift(c.status, 0);
    var x := c.cause;
    var upper, low, bit := x / 0x8000 / 2, x % 0x8000, x / 0x8000 % 2;
    var bit' := if pending then 1 else 0;
    assert x == (upper * 2 + bit) * 0x8000 + low;
    assert UpdateInterrupts(c, pending).cause == (upper * 2 + bit') * 0x8000 + low;
    UpperAndLower(upper * 2 + bit, low, 15, k);
    UpperAndLower(upper * 2 + bit', low, 15, k);
    if k >= 15 {
      UpperAndLower(upper, bit, 1, k - 15);
      UpperAndLower(upper, bit', 1, k - 15);
      OneDigit(bit);
      OneDigit(bit');
    }
  }

  lemma OneDigit(b: nat)
    requires b < 2
    ensures Bit(b, 0) == b
  {
  }

  // ----- traps -----

  /** SYSCALL and BREAK trap with codes 8 and 9. */
  lemma SystemCall<D>(io: Io<D>, m: Machine<D>, rs: RegNo, rt: RegNo, rd: RegNo, sh: RegNo, funct: nat)
    requires funct in {0x0C, 0x0D} && Runs(io, m, Word(0, rs, rt, Low(rd, sh, funct)))
    ensures Traps(io, m, if funct == 0x0C then 8 else 9)
  {
    hide Step, EffectAt, Seen, Read32, Abstract, Word, Low, Traps, Reg;
    var inst := Word(0, rs, rt, Low(rd, sh, funct));
    DecodedSpecial(io, m, rs, rt, rd, sh, funct);
    FromRaises(io, m, inst, if funct == 0x0C then EXC_SYS else EXC_BP);
  }

  /** The numbers no instruction has trap as reserved, with code 10; so does everything of coprocessor 2. */
  lemma ReservedFunct<D>(io: Io<D>, m: Machine<D>, rs: RegNo, rt: RegNo, rd: RegNo, sh: RegNo, funct: nat)
    requires funct < 0x40 && Runs(io, m, Word(0, rs, rt, Low(rd, sh, funct)))
    requires funct !in {0x00, 0x02, 0x03, 0x04, 0x06, 0x07, 0x08, 0x09, 0x0C, 0x0D, 0x10, 0x11, 0x12, 0x13,
                        0x18, 0x19, 0x1A, 0x1B, 0x20, 0x21, 0x22, 0x23, 0x24, 0x25, 0x26, 0x27, 0x2A, 0x2B}
    ensures Traps(io, m, 10)
  {
    hide Step, EffectAt, Seen, Read32, Abstract, Word, Low, Traps, Reg, Meaning;
    DecodedSpecial(io, m, rs, rt, rd, sh, funct);
    ReservedEffect(io, Seen(io, m), FunctTable(funct));
    FromRaises(io, m, Word(0, rs, rt, Low(rd, sh, funct)), EXC_RI);
  }

  lemma ReservedOpcode<D>(io: Io<D>, m: Machine<D>, op: nat, rs: RegNo, rt: RegNo, imm: u16)
    requires 0 < op < 0x40 && Runs(io, m, Word(op, rs, rt, imm))
    requires op == 0x11 || op == 0x12 || 0x13 <= op < 0x20 || op in {0x27, 0x2C, 0x2D, 0x2F} || op >= 0x30
             || (op == 0x10 && rs !in {0, 4, 0x10})
    ensures Traps(io, m, 10)
  {
    hide Step, EffectAt, Seen, Read32, Abstract, Word, Traps, Reg, Meaning;
    Decoded(io, m, op, rs, rt, imm);
    if op == 0x10 {
      Cop0Effect(io, Seen(io, m));
    } else {
      ReservedEffect(io, Seen(io, m), OpcodeTable(op));
    }
    FromRaises(io, m, Word(op, rs, rt, imm), EXC_RI);
  }

  lemma ReservedEffect<D>(io: Io<D>, v: View<D>, h: Handler)
    requires h == Invalid || h == Cop2
    ensures Meaning(io, h, v) == Raises(EXC_RI)
  {
  }
}
