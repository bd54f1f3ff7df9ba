/** The instruction set said from the instruction words: for every word and every state, what one step of the
    processor does to its registers, its memory and its program counter. */
module InstructionSet {
  import opened Words
  import opened Bits
  import opened Memory
  import opened Cop0
  import opened Isa
  import opened Pipeline
  import opened Core
  import opened Arithmetic
  import opened Digits
  import opened Encoding

  // ----- decoding -----

  lemma Decoded<D>(io: Io<D>, m: Machine<D>, op: nat, rs: RegNo, rt: RegNo, imm: u16)
    requires 0 < op < 0x40 && Runs(io, m, Word(op, rs, rt, imm))
    ensures var v := Seen(io, m);
            && EffectAt(io, Abstract(m)) == Meaning(io, OpcodeTable(op), v)
            && Rs(v.inst) == rs && Rt(v.inst) == rt && Imm(v.inst) == imm
  {
    hide Meaning, OpcodeTable, EffectAt, Seen, Runs, Word;
    WhatIsSeen(io, m, Word(op, rs, rt, imm));
    WordFields(op, rs, rt, imm);
  }

  lemma DecodedSpecial<D>(io: Io<D>, m: Machine<D>, rs: RegNo, rt: RegNo, rd: RegNo, sh: RegNo, funct: nat)
    requires funct < 0x40 && Runs(io, m, Word(0, rs, rt, Low(rd, sh, funct)))
    ensures var v := Seen(io, m);
            && EffectAt(io, Abstract(m)) == Meaning(io, FunctTable(funct), v)
            && Rs(v.inst) == rs && Rt(v.inst) == rt && Rd(v.inst) == rd && Shamt(v.inst) == sh
  {
    hide Meaning, FunctTable, EffectAt, Seen, Runs, Word, Low;
    WhatIsSeen(io, m, Word(0, rs, rt, Low(rd, sh, funct)));
    WordFields(0, rs, rt, Low(rd, sh, funct));
    LowFields(0, rs, rt, rd, sh, funct);
  }

  lemma DecodedJump<D>(io: Io<D>, m: Machine<D>, op: nat, place: nat)
    requires 0 < op < 0x40 && place < 0x400_0000 && Runs(io, m, JumpWord(op, place))
    ensures var v := Seen(io, m);
            EffectAt(io, Abstract(m)) == Meaning(io, OpcodeTable(op), v) && Isa.Target(v.inst) == place
  {
    hide Meaning, OpcodeTable, EffectAt, Seen, Runs, JumpWord;
    WhatIsSeen(io, m, JumpWord(op, place));
    JumpFields(op, place);
  }

  // ----- multiplication and division -----

  lemma NumberIsSigned(x: u32)
    ensures Number(x) == Signed(x)
  {
  }

  lemma OffsetIsSigned(imm: u16)
    ensures Offset(imm) == Signed16(imm)
  {
  }

  lemma PairIsSigned(hi: u32, lo: u32)
    ensures hi * TWO_32 + lo < TWO_64
    ensures TwosComplement(hi * TWO_32 + lo, 0x8000_0000_0000_0000) == Signed64(hi, lo)
  {
  }

  /** What the instructions that set hi and lo give. */
  function PairResult(funct: nat, x: u32, y: u32): (u32, u32) {
    if funct == 0x18 then Product(Signed(x) * Signed(y))
    else if funct == 0x19 then Product(x * y)
    else if funct == 0x1A then SignedQuotient(x, y)
    else UnsignedQuotient(x, y)
  }

  lemma PairEffect<D>(io: Io<D>, v: View<D>, funct: nat)
    requires funct in {0x18, 0x19, 0x1A, 0x1B}
    ensures var p := PairResult(funct, Reg(v.r, Rs(v.inst)), Reg(v.r, Rt(v.inst)));
            Meaning(io, FunctTable(funct), v) == SetsHiLo(p.0, p.1)
  {
    hide Reg, Rs, Rt, Product, SignedQuotient, UnsignedQuotient, Signed;
  }

  lemma PairStep<D>(io: Io<D>, m: Machine<D>, rs: RegNo, rt: RegNo, rd: RegNo, sh: RegNo, funct: nat)
    requires funct in {0x18, 0x19, 0x1A, 0x1B} && Runs(io, m, Word(0, rs, rt, Low(rd, sh, funct)))
    ensures var p := PairResult(funct, m.cpu.r[rs], m.cpu.r[rt]);
            && SetsPair(io, m, p.0, p.1)
            && Step(io, m).cpu.hi == p.0 && Step(io, m).cpu.lo == p.1
  {
    hide Step, EffectAt, Seen, PairResult, Registers, GoesOn, Low, Read32, Abstract, Word, Meaning, FunctTable, Reg;
    var inst := Word(0, rs, rt, Low(rd, sh, funct));
    WhatIsSeen(io, m, inst);
    DecodedSpecial(io, m, rs, rt, rd, sh, funct);
    PairEffect(io, Seen(io, m), funct);
    var p := PairResult(funct, m.cpu.r[rs], m.cpu.r[rt]);
    FromSetsHiLo(io, m, inst, p.0, p.1);
  }

  /** MULT: hi and lo together, read as a signed 64-bit number, are the product of the signed operands. */
  lemma Mult<D>(io: Io<D>, m: Machine<D>, rs: RegNo, rt: RegNo, rd: RegNo, sh: RegNo)
    requires Runs(io, m, Word(0, rs, rt, Low(rd, sh, 0x18)))
    ensures var n := Step(io, m).cpu;
            && SetsPair(io, m, n.hi, n.lo)
            && n.hi * TWO_32 + n.lo < TWO_64
            && TwosComplement(n.hi * TWO_32 + n.lo, 0x8000_0000_0000_0000)
               == Number(m.cpu.r[rs]) * Number(m.cpu.r[rt])
  {
    hide Runs, Step, SetsPair, Product, Number, Signed, Signed64, TwosComplement, Low, Word;
    PairStep(io, m, rs, rt, rd, sh, 0x18);
    var x, y := m.cpu.r[rs], m.cpu.r[rt];
    SignedProduct(x, y);
    NumberIsSigned(x);
    NumberIsSigned(y);
    var (hi, lo) := Product(Signed(x) * Signed(y));
    PairIsSigned(hi, lo);
  }

  /** MULTU: hi and lo together are the product of the operands. */
  lemma Multu<D>(io: Io<D>, m: Machine<D>, rs: RegNo, rt: RegNo, rd: RegNo, sh: RegNo, a: nat, b: nat)
    requires Runs(io, m, Word(0, rs, rt, Low(rd, sh, 0x19))) && m.cpu.r[rs] == a && m.cpu.r[rt] == b
    ensures SetsPair(io, m, Step(io, m).cpu.hi, Step(io, m).cpu.lo)
    ensures Step(io, m).cpu.hi * TWO_32 + Step(io, m).cpu.lo == a * b
  {
    hide Runs, Step, SetsPair, Product, Low, Word;
    PairStep(io, m, rs, rt, rd, sh, 0x19);
    UnsignedProduct(m.cpu.r[rs], m.cpu.r[rt]);
  }

  /** DIV: lo and hi are the truncated quotient of rs by rt and its remainder, exactly when rt is not zero and the
      operands are not INT32_MIN and -1. Those two give INT32_MIN and 0, and a zero divisor gives the dividend in
      hi, and -1 or 1 in lo by its sign. */
  lemma Div<D>(io: Io<D>, m: Machine<D>, rs: RegNo, rt: RegNo, rd: RegNo, sh: RegNo)
    requires Runs(io, m, Word(0, rs, rt, Low(rd, sh, 0x1A)))
    ensures var n := Step(io, m).cpu;
            var a, b := Number(m.cpu.r[rs]), Number(m.cpu.r[rt]);
            && SetsPair(io, m, n.hi, n.lo)
            && (IsDivision(a, b, Number(n.lo), Number(n.hi)) <==> b != 0 && !(a == -0x8000_0000 && b == -1))
            && (a == -0x8000_0000 && b == -1 ==> Number(n.lo) == -0x8000_0000 && n.hi == 0)
            && (b == 0 ==> Number(n.hi) == a && Number(n.lo) == if a >= 0 then -1 else 1)
  {
    hide Runs, Step, SetsPair, SignedQuotient, Number, Signed, Low, Word;
    PairStep(io, m, rs, rt, rd, sh, 0x1A);
    DivisionCases(m.cpu.r[rs], m.cpu.r[rt]);
  }

  lemma DivisionCases(x: u32, y: u32)
    ensures var (hi, lo) := SignedQuotient(x, y);
            var a, b := Number(x), Number(y);
            && (IsDivision(a, b, Number(lo), Number(hi)) <==> b != 0 && !(a == -0x8000_0000 && b == -1))
            && (a == -0x8000_0000 && b == -1 ==> Number(lo) == -0x8000_0000 && hi == 0)
            && (b == 0 ==> Number(hi) == a && Number(lo) == if a >= 0 then -1 else 1)
  {
    hide TruncDiv, TruncMod;
    var (hi, lo) := SignedQuotient(x, y);
    NumberIsSigned(x);
    NumberIsSigned(y);
    NumberIsSigned(hi);
    NumberIsSigned(lo);
    hide Number;
    if y != 0 {
      SignedDivision(x, y);
      if x == 0x8000_0000 && y == 0xFFFF_FFFF {
        MostNegative();
      }
    }
  }

  lemma MostNegative()
    ensures SignedQuotient(0x8000_0000, 0xFFFF_FFFF) == (0, 0x8000_0000)
  {
  }

  /** DIVU: the quotient of rs by rt and its remainder; a zero divisor gives the dividend in hi and all ones in lo. */
  lemma Divu<D>(io: Io<D>, m: Machine<D>, rs: RegNo, rt: RegNo, rd: RegNo, sh: RegNo)
    requires Runs(io, m, Word(0, rs, rt, Low(rd, sh, 0x1B)))
    ensures var n := Step(io, m).cpu;
            var a, b := m.cpu.r[rs], m.cpu.r[rt];
            && SetsPair(io, m, n.hi, n.lo)
            && (if b == 0 then n.hi == a && n.lo == 0xFFFF_FFFF else a == n.lo * b + n.hi && n.hi < b)
  {
    hide Runs, Step, SetsPair, Low, Word;
    PairStep(io, m, rs, rt, rd, sh, 0x1B);
    if m.cpu.r[rt] != 0 {
      UnsignedDivision(m.cpu.r[rs], m.cpu.r[rt]);
    }
  }

  // ----- results in a register -----

  /** MFHI and MFLO copy hi and lo to a register, MTHI and MTLO a register to hi and lo. */
  lemma MoveHiLo<D>(io: Io<D>, m: Machine<D>, rs: RegNo, rt: RegNo, rd: RegNo, sh: RegNo, funct: nat)
    requires funct in {0x10, 0x11, 0x12, 0x13} && Runs(io, m, Word(0, rs, rt, Low(rd, sh, funct)))
    ensures match funct
            case 0x10 => Sets(io, m, rd, m.cpu.hi)
            case 0x11 => SetsPair(io, m, m.cpu.r[rs], m.cpu.lo)
            case 0x12 => Sets(io, m, rd, m.cpu.lo)
            case 0x13 => SetsPair(io, m, m.cpu.hi, m.cpu.r[rs])
  {
    hide Step, EffectAt, Seen, Sets, SetsPair, Low, Read32, Abstract, Word, Meaning, FunctTable, Reg;
    var inst := Word(0, rs, rt, Low(rd, sh, funct));
    WhatIsSeen(io, m, inst);
    DecodedSpecial(io, m, rs, rt, rd, sh, funct);
    MoveEffect(io, Seen(io, m), funct);
    if funct == 0x10 {
      FromWrites(io, m, inst, rd, m.cpu.hi);
    } else if funct == 0x12 {
      FromWrites(io, m, inst, rd, m.cpu.lo);
    } else if funct == 0x11 {
      FromSetsHiLo(io, m, inst, m.cpu.r[rs], m.cpu.lo);
    } else {
      FromSetsHiLo(io, m, inst, m.cpu.hi, m.cpu.r[rs]);
    }
  }

  lemma MoveEffect<D>(io: Io<D>, v: View<D>, funct: nat)
    requires funct in {0x10, 0x11, 0x12, 0x13}
    ensures var x := Reg(v.r, Rs(v.inst));
            Meaning(io, FunctTable(funct), v) ==
            (if funct == 0x10 then Writes(Rd(v.inst), v.hi)
             else if funct == 0x11 then SetsHiLo(x, v.lo)
             else if funct == 0x12 then Writes(Rd(v.inst), v.lo)
             else SetsHiLo(v.hi, x))
  {
    hide Reg, Rs, Rd;
  }

  const REGISTER_FUNCTS := {0x04, 0x06, 0x07, 0x21, 0x23, 0x24, 0x25, 0x26, 0x27, 0x2A, 0x2B}
  const IMMEDIATE_OPS := {0x09, 0x0A, 0x0B, 0x0C, 0x0D, 0x0E}

  lemma RegisterStep<D>(io: Io<D>, m: Machine<D>, rs: RegNo, rt: RegNo, rd: RegNo, sh: RegNo, funct: nat)
    requires funct in REGISTER_FUNCTS && Runs(io, m, Word(0, rs, rt, Low(rd, sh, funct)))
    ensures FunctTable(funct).Register?
    ensures Sets(io, m, rd, RegResult(FunctTable(funct).op, m.cpu.r[rs], m.cpu.r[rt]))
  {
    hide Step, EffectAt, Seen, Sets, Low, Read32, Abstract, Word, Reg, RegResult, Meaning;
    var inst := Word(0, rs, rt, Low(rd, sh, funct));
    WhatIsSeen(io, m, inst);
    DecodedSpecial(io, m, rs, rt, rd, sh, funct);
    RegisterEffect(io, Seen(io, m), FunctTable(funct).op);
    FromWrites(io, m, inst, rd, RegResult(FunctTable(funct).op, m.cpu.r[rs], m.cpu.r[rt]));
  }

  lemma RegisterEffect<D>(io: Io<D>, v: View<D>, op: RegOp)
    ensures Meaning(io, Register(op), v) ==
            Writes(Rd(v.inst), RegResult(op, Reg(v.r, Rs(v.inst)), Reg(v.r, Rt(v.inst))))
  {
    hide RegResult, Reg, Rs, Rt, Rd;
  }

  lemma ImmediateStep<D>(io: Io<D>, m: Machine<D>, op: nat, rs: RegNo, rt: RegNo, imm: u16)
    requires op in IMMEDIATE_OPS && Runs(io, m, Word(op, rs, rt, imm))
    ensures OpcodeTable(op).Immediate?
    ensures Sets(io, m, rt, ImmResult(OpcodeTable(op).imm, m.cpu.r[rs], imm))
  {
    hide Step, EffectAt, Seen, Sets, Read32, Abstract, Word, Reg, ImmResult, Meaning;
    var inst := Word(op, rs, rt, imm);
    WhatIsSeen(io, m, inst);
    Decoded(io, m, op, rs, rt, imm);
    ImmediateEffect(io, Seen(io, m), OpcodeTable(op).imm);
    FromWrites(io, m, inst, rt, ImmResult(OpcodeTable(op).imm, m.cpu.r[rs], imm));
  }

  lemma ImmediateEffect<D>(io: Io<D>, v: View<D>, op: ImmOp)
    ensures Meaning(io, Immediate(op), v) == Writes(Rt(v.inst), ImmResult(op, Reg(v.r, Rs(v.inst)), Imm(v.inst)))
  {
    hide ImmResult, Reg, Rs, Rt, Imm;
  }

  /** ADDU, SUBU and ADDIU: sum and difference modulo 2^32. */
  lemma AddSubtract<D>(io: Io<D>, m: Machine<D>, rs: RegNo, rt: RegNo, rd: RegNo, sh: RegNo, funct: nat)
    requires funct in {0x21, 0x23} && Runs(io, m, Word(0, rs, rt, Low(rd, sh, funct)))
    ensures var a, b := m.cpu.r[rs], m.cpu.r[rt];
            Sets(io, m, rd, (if funct == 0x21 then a + b else a - b) % TWO_32)
  {
    hide Runs, Step, Sets, Low, Word;
    RegisterStep(io, m, rs, rt, rd, sh, funct);
  }

  lemma AddImmediate<D>(io: Io<D>, m: Machine<D>, rs: RegNo, rt: RegNo, imm: u16)
    requires Runs(io, m, Word(0x09, rs, rt, imm))
    ensures Sets(io, m, rt, (m.cpu.r[rs] + Offset(imm)) % TWO_32)
  {
    hide Runs, Step, Sets, Word, Signed16, Offset;
    ImmediateStep(io, m, 0x09, rs, rt, imm);
    OffsetIsSigned(imm);
  }

  /** SLT and SLTI compare signed numbers, SLTU and SLTIU the words; SLTIU extends the sign of its operand first. */
  lemma SetOnLess<D>(io: Io<D>, m: Machine<D>, rs: RegNo, rt: RegNo, rd: RegNo, sh: RegNo, funct: nat)
    requires funct in {0x2A, 0x2B} && Runs(io, m, Word(0, rs, rt, Low(rd, sh, funct)))
    ensures var a, b := m.cpu.r[rs], m.cpu.r[rt];
            Sets(io, m, rd, if (if funct == 0x2A then Number(a) < Number(b) else a < b) then 1 else 0)
  {
    hide Runs, Step, Sets, Low, Word, Number, Signed;
    RegisterStep(io, m, rs, rt, rd, sh, funct);
    NumberIsSigned(m.cpu.r[rs]);
    NumberIsSigned(m.cpu.r[rt]);
  }

  lemma SetOnLessImmediate<D>(io: Io<D>, m: Machine<D>, op: nat, rs: RegNo, rt: RegNo, imm: u16)
    requires op in {0x0A, 0x0B} && Runs(io, m, Word(op, rs, rt, imm))
    ensures var a := m.cpu.r[rs];
            Sets(io, m, rt, if (if op == 0x0A then Number(a) < Offset(imm) else a < Offset(imm) % TWO_32) then 1 else 0)
  {
    hide Runs, Step, Sets, Word, Number, Signed, Offset, Signed16;
    ImmediateStep(io, m, op, rs, rt, imm);
    NumberIsSigned(m.cpu.r[rs]);
    OffsetIsSigned(imm);
  }

  /** One binary digit of the result of a logical instruction: AND, OR, XOR and NOR in this order. */
  function LogicDigit(which: nat, a: nat, b: nat): nat {
    if which == 0 then if a == 1 && b == 1 then 1 else 0
    else if which == 1 then if a == 1 || b == 1 then 1 else 0
    else if which == 2 then if a != b then 1 else 0
    else if a == 1 || b == 1 then 0 else 1
  }

  /** AND, OR, XOR and NOR work digit by digit. */
  lemma Logic<D>(io: Io<D>, m: Machine<D>, rs: RegNo, rt: RegNo, rd: RegNo, sh: RegNo, funct: nat, k: nat)
    requires 0x24 <= funct <= 0x27 && k < 32 && Runs(io, m, Word(0, rs, rt, Low(rd, sh, funct)))
    ensures var n := Step(io, m).cpu;
            && Sets(io, m, rd, n.r[rd])
            && (rd != 0 ==>
                  Bit(n.r[rd], k) == LogicDigit(funct - 0x24, Bit(m.cpu.r[rs], k), Bit(m.cpu.r[rt], k)))
  {
    hide Runs, Step, Low, Word, Bit, And, OrBits, XorBits, SameHiLo, GoesOn;
    RegisterStep(io, m, rs, rt, rd, sh, funct);
    var a, b := m.cpu.r[rs], m.cpu.r[rt];
    AndBit(a, b, k);
    OrBit(a, b, k);
    XorBit(a, b, k);
    NotBit(Or(a, b), k);
  }

  /** ANDI, ORI and XORI take their operand without extending a sign. */
  lemma LogicImmediate<D>(io: Io<D>, m: Machine<D>, op: nat, rs: RegNo, rt: RegNo, imm: u16, k: nat)
    requires 0x0C <= op <= 0x0E && k < 32 && Runs(io, m, Word(op, rs, rt, imm))
    ensures var n := Step(io, m).cpu;
            && Sets(io, m, rt, n.r[rt])
            && (rt != 0 ==> Bit(n.r[rt], k) == LogicDigit(op - 0x0C, Bit(m.cpu.r[rs], k), Bit(imm, k)))
  {
    hide Runs, Step, Word, Bit, And, OrBits, XorBits, SameHiLo, GoesOn;
    ImmediateStep(io, m, op, rs, rt, imm);
    AndBit(m.cpu.r[rs], imm, k);
    OrBit(m.cpu.r[rs], imm, k);
    XorBit(m.cpu.r[rs], imm, k);
  }

  /** LUI puts its operand into the upper half of the register. */
  lemma LoadUpper<D>(io: Io<D>, m: Machine<D>, rs: RegNo, rt: RegNo, imm: u16)
    requires Runs(io, m, Word(0x0F, rs, rt, imm))
    ensures Sets(io, m, rt, imm * TWO_16)
  {
    hide Step, EffectAt, Seen, Sets, Read32, Abstract, Word, Meaning, OpcodeTable;
    WhatIsSeen(io, m, Word(0x0F, rs, rt, imm));
    Decoded(io, m, 0x0F, rs, rt, imm);
    UpperEffect(io, Seen(io, m));
    FromWrites(io, m, Word(0x0F, rs, rt, imm), rt, imm * TWO_16);
  }

  lemma UpperEffect<D>(io: Io<D>, v: View<D>)
    ensures Meaning(io, OpcodeTable(0x0F), v) == Writes(Rt(v.inst), Imm(v.inst) * TWO_16)
  {
  }

  // ----- shifts -----

  /** What a shift by n places makes of a word: the product modulo 2^32 to the left; to the right the quotient
      rounded down, of the word or of the signed number. */
  ghost predicate Shifted(which: nat, w: u32, n: nat, result: u32) {
    var p := Pow2(n);
    if which == 0 then result == w * p % TWO_32
    else if which == 2 then result * p <= w < (result + 1) * p
    else Number(result) * p <= Number(w) < (Number(result) + 1) * p
  }

  lemma Quotient(x: int, p: int)
    requires p > 0
    ensures x / p * p <= x < (x / p + 1) * p
  {
  }

  lemma QuotientFits(x: int, p: int)
    requires p > 0 && InInt32(x)
    ensures InInt32(x / p)
  {
    var q := x / p;
    Quotient(x, p);
    if q >= 0x8000_0000 {
      Scales(q, p);
      Scales(p, q);
    } else if q < -0x8000_0000 {
      Scales(p, -q - 1);
    }
  }

  lemma ShiftCases(w: u32, n: nat)
    ensures Shifted(0, w, n, Shl(w, n)) && Shifted(2, w, n, Shr(w, n)) && Shifted(3, w, n, Sra(w, n))
  {
    hide Pow2, Signed, Number;
    var p := Pow2(n);
    Quotient(w, p);
    NumberIsSigned(w);
    ArithmeticQuotient(w, p);
  }

  lemma ArithmeticQuotient(w: u32, p: nat)
    requires p > 0
    ensures Number(Wrap(Signed(w) / p)) * p <= Number(w) < (Number(Wrap(Signed(w) / p)) + 1) * p
  {
    var q := Signed(w) / p;
    QuotientFits(Signed(w), p);
    FitsWord(q);
    NumberIsSigned(w);
    NumberIsSigned(Wrap(q));
    Quotient(Signed(w), p);
    hide Signed, Number, Wrap;
  }

  /** SLL, SRL and SRA by the number in the instruction. */
  lemma Shift<D>(io: Io<D>, m: Machine<D>, rs: RegNo, rt: RegNo, rd: RegNo, sh: RegNo, funct: nat)
    requires funct in {0x00, 0x02, 0x03} && Runs(io, m, Word(0, rs, rt, Low(rd, sh, funct)))
    ensures var n := Step(io, m).cpu;
            Sets(io, m, rd, n.r[rd]) && (rd != 0 ==> Shifted(funct, m.cpu.r[rt], sh, n.r[rd]))
  {
    hide Step, EffectAt, Seen, SameHiLo, GoesOn, Low, Read32, Abstract, Word, Meaning, FunctTable, Reg, Shifted;
    hide ShiftResult;
    var inst := Word(0, rs, rt, Low(rd, sh, funct));
    WhatIsSeen(io, m, inst);
    DecodedSpecial(io, m, rs, rt, rd, sh, funct);
    ShiftEffect(io, Seen(io, m), funct);
    FromWrites(io, m, inst, rd, ShiftResult(FunctTable(funct).shift, m.cpu.r[rt], sh));
  }

  lemma ShiftEffect<D>(io: Io<D>, v: View<D>, funct: nat)
    requires funct in {0x00, 0x02, 0x03}
    ensures FunctTable(funct).Shift?
    ensures var w := ShiftResult(FunctTable(funct).shift, Reg(v.r, Rt(v.inst)), Shamt(v.inst));
            && Meaning(io, FunctTable(funct), v) == Writes(Rd(v.inst), w)
            && Shifted(funct, Reg(v.r, Rt(v.inst)), Shamt(v.inst), w)
  {
    hide Reg, Rt, Rd, Shamt, Shifted, Shl, Shr, Sra;
    ShiftCases(Reg(v.r, Rt(v.inst)), Shamt(v.inst));
  }

  /** SLLV, SRLV and SRAV by the low five bits of a register. */
  lemma ShiftVariable<D>(io: Io<D>, m: Machine<D>, rs: RegNo, rt: RegNo, rd: RegNo, sh: RegNo, funct: nat)
    requires funct in {0x04, 0x06, 0x07} && Runs(io, m, Word(0, rs, rt, Low(rd, sh, funct)))
    ensures var n := Step(io, m).cpu;
            Sets(io, m, rd, n.r[rd]) && (rd != 0 ==> Shifted(funct - 4, m.cpu.r[rt], m.cpu.r[rs] % 0x20, n.r[rd]))
  {
    hide Runs, Step, Low, Word, Shifted, Shl, Shr, Sra, SameHiLo, GoesOn;
    RegisterStep(io, m, rs, rt, rd, sh, funct);
    ShiftCases(m.cpu.r[rt], m.cpu.r[rs] % 0x20);
  }

  // ----- sums that trap -----

  /** The step writes sum to register reg when it is a signed 32-bit number, and traps with code OV when not. */
  ghost predicate SetsOrTraps<D>(io: Io<D>, m: Machine<D>, reg: RegNo, sum: int)
    requires Boundary(m) && m.cpu.pc % 4 == 0
  {
    if -0x8000_0000 <= sum < 0x8000_0000 then
      var n := Step(io, m).cpu;
      Sets(io, m, reg, n.r[reg]) && (reg != 0 ==> Number(n.r[reg]) == sum)
    else Traps(io, m, 12)
  }

  lemma FromChecked<D>(io: Io<D>, m: Machine<D>, inst: u32, reg: RegNo, sum: int)
    requires Runs(io, m, inst) && EffectAt(io, Abstract(m)) == Checked(reg, sum)
    ensures SetsOrTraps(io, m, reg, sum)
  {
    hide Step, EffectAt, Read32, Runs, SameHiLo, GoesOn, Wrap, Number, Signed, Traps;
    if InInt32(sum) {
      FromWrites(io, m, inst, reg, Wrap(sum));
      FitsWord(sum);
      NumberIsSigned(Wrap(sum));
    } else {
      FromRaises(io, m, inst, EXC_OV);
    }
  }

  /** ADD and SUB: the sum or difference of the signed operands, or the overflow trap, and nothing in between. */
  lemma AddSubtractTrapping<D>(io: Io<D>, m: Machine<D>, rs: RegNo, rt: RegNo, rd: RegNo, sh: RegNo, funct: nat)
    requires funct in {0x20, 0x22} && Runs(io, m, Word(0, rs, rt, Low(rd, sh, funct)))
    ensures var a, b := Number(m.cpu.r[rs]), Number(m.cpu.r[rt]);
            SetsOrTraps(io, m, rd, if funct == 0x20 then a + b else a - b)
  {
    hide Step, EffectAt, Seen, Low, Read32, Abstract, Word, Meaning, FunctTable, Reg, SetsOrTraps, Number, Signed;
    var inst := Word(0, rs, rt, Low(rd, sh, funct));
    var x, y := m.cpu.r[rs], m.cpu.r[rt];
    WhatIsSeen(io, m, inst);
    DecodedSpecial(io, m, rs, rt, rd, sh, funct);
    SumEffect(io, Seen(io, m), funct);
    NumberIsSigned(x);
    NumberIsSigned(y);
    FromChecked(io, m, inst, rd, if funct == 0x20 then Signed(x) + Signed(y) else Signed(x) - Signed(y));
  }

  lemma SumEffect<D>(io: Io<D>, v: View<D>, funct: nat)
    requires funct in {0x20, 0x22}
    ensures var a, b := Signed(Reg(v.r, Rs(v.inst))), Signed(Reg(v.r, Rt(v.inst)));
            Meaning(io, FunctTable(funct), v) == Checked(Rd(v.inst), if funct == 0x20 then a + b else a - b)
  {
    hide Reg, Rs, Rt, Rd, Signed, Checked;
  }

  /** ADDI: the same with the sign-extended operand of the instruction. */
  lemma AddImmediateTrapping<D>(io: Io<D>, m: Machine<D>, rs: RegNo, rt: RegNo, imm: u16)
    requires Runs(io, m, Word(0x08, rs, rt, imm))
    ensures SetsOrTraps(io, m, rt, Number(m.cpu.r[rs]) + Offset(imm))
  {
    hide Step, EffectAt, Seen, Read32, Abstract, Word, Meaning, OpcodeTable, Reg, SetsOrTraps, Number, Signed;
    hide Signed16, Offset;
    var inst := Word(0x08, rs, rt, imm);
    WhatIsSeen(io, m, inst);
    Decoded(io, m, 0x08, rs, rt, imm);
    SumImmediateEffect(io, Seen(io, m));
    NumberIsSigned(m.cpu.r[rs]);
    OffsetIsSigned(imm);
    FromChecked(io, m, inst, rt, Signed(m.cpu.r[rs]) + Signed16(imm));
  }

  lemma SumImmediateEffect<D>(io: Io<D>, v: View<D>)
    ensures Meaning(io, OpcodeTable(0x08), v) ==
            Checked(Rt(v.inst), Signed(Reg(v.r, Rs(v.inst))) + Signed16(Imm(v.inst)))
  {
    hide Reg, Rs, Rt, Imm, Signed, Signed16, Checked;
  }

  // ----- branches and jumps -----

  /** Where a branch leads: the offset counts words from the delay slot. */
  function Destination<D>(m: Machine<D>, imm: u16): u32 {
    (Successor(m) + 4 * Offset(imm)) % TWO_32
  }

  lemma TargetSeen<D>(io: Io<D>, m: Machine<D>, inst: u32)
    requires Runs(io, m, inst)
    ensures BranchTarget(Seen(io, m)) == Destination(m, Imm(inst))
  {
    hide Seen, Runs, Offset, Signed16, Successor, Imm, EffectAt;
    WhatIsSeen(io, m, inst);
    OffsetIsSigned(Imm(inst));
  }

  /** BEQ and BNE: taken when the operands are equal, or are not. */
  lemma BranchOnEqual<D>(io: Io<D>, m: Machine<D>, op: nat, rs: RegNo, rt: RegNo, imm: u16)
    requires op in {0x04, 0x05} && Runs(io, m, Word(op, rs, rt, imm))
    ensures BranchesTo(io, m, (m.cpu.r[rs] == m.cpu.r[rt]) == (op == 0x04), Destination(m, imm), 0)
  {
    hide Step, EffectAt, Seen, Read32, Abstract, Word, Meaning, OpcodeTable, Reg, BranchesTo, BranchTarget;
    hide Destination;
    var inst := Word(op, rs, rt, imm);
    WhatIsSeen(io, m, inst);
    Decoded(io, m, op, rs, rt, imm);
    TargetSeen(io, m, inst);
    EqualEffect(io, Seen(io, m), op);
    FromBranch(io, m, inst, EffectAt(io, Abstract(m)), 0);
  }

  lemma EqualEffect<D>(io: Io<D>, v: View<D>, op: nat)
    requires op in {0x04, 0x05}
    ensures var equal := Reg(v.r, Rs(v.inst)) == Reg(v.r, Rt(v.inst));
            Meaning(io, OpcodeTable(op), v) == Branches(equal == (op == 0x04), BranchTarget(v))
  {
    hide Reg, Rs, Rt, BranchTarget;
  }

  /** BLEZ and BGTZ: taken when the signed operand is at most zero, or above it. */
  lemma BranchOnZero<D>(io: Io<D>, m: Machine<D>, op: nat, rs: RegNo, rt: RegNo, imm: u16)
    requires op in {0x06, 0x07} && Runs(io, m, Word(op, rs, rt, imm))
    ensures BranchesTo(io, m, (Number(m.cpu.r[rs]) <= 0) == (op == 0x06), Destination(m, imm), 0)
  {
    hide Step, EffectAt, Seen, Read32, Abstract, Word, Meaning, OpcodeTable, Reg, BranchesTo, BranchTarget;
    hide Destination, Number, Signed;
    var inst := Word(op, rs, rt, imm);
    WhatIsSeen(io, m, inst);
    Decoded(io, m, op, rs, rt, imm);
    TargetSeen(io, m, inst);
    ZeroEffect(io, Seen(io, m), op);
    NumberIsSigned(m.cpu.r[rs]);
    FromBranch(io, m, inst, EffectAt(io, Abstract(m)), 0);
  }

  lemma ZeroEffect<D>(io: Io<D>, v: View<D>, op: nat)
    requires op in {0x06, 0x07}
    ensures var low := Signed(Reg(v.r, Rs(v.inst))) <= 0;
            Meaning(io, OpcodeTable(op), v) == Branches(low == (op == 0x06), BranchTarget(v))
  {
    hide Reg, Rs, Rt, BranchTarget, Signed;
  }

  /** The branches under opcode 1: an odd rt field asks for an operand of at least zero, an even one for a negative
      operand, and 0x10 and 0x11 save the return address in register 31, taken or not. */
  lemma BranchOnSign<D>(io: Io<D>, m: Machine<D>, rs: RegNo, rt: RegNo, imm: u16)
    requires Runs(io, m, Word(0x01, rs, rt, imm))
    ensures BranchesTo(io, m, (Number(m.cpu.r[rs]) >= 0) == (rt % 2 == 1), Destination(m, imm),
                       if rt == 0x10 || rt == 0x11 then 31 else 0)
  {
    hide Step, EffectAt, Seen, Read32, Abstract, Word, Meaning, OpcodeTable, Reg, BranchesTo, BranchTarget;
    hide Destination, Number, Signed, Successor;
    var inst := Word(0x01, rs, rt, imm);
    WhatIsSeen(io, m, inst);
    Decoded(io, m, 0x01, rs, rt, imm);
    TargetSeen(io, m, inst);
    SignEffect(io, Seen(io, m));
    NumberIsSigned(m.cpu.r[rs]);
    FromBranch(io, m, inst, EffectAt(io, Abstract(m)), if rt == 0x10 || rt == 0x11 then 31 else 0);
  }

  lemma SignEffect<D>(io: Io<D>, v: View<D>)
    ensures var taken := (Signed(Reg(v.r, Rs(v.inst))) >= 0) == (Rt(v.inst) % 2 == 1);
            Meaning(io, OpcodeTable(0x01), v) ==
            if Rt(v.inst) == 0x10 || Rt(v.inst) == 0x11 then Links(taken, BranchTarget(v), 31, Wrap(v.npc + 4))
            else Branches(taken, BranchTarget(v))
  {
    hide Reg, Rs, Rt, BranchTarget, Signed, Wrap;
  }

  /** J and JAL: the target is a word in the segment of the delay slot; JAL saves the return address. */
  lemma Jump<D>(io: Io<D>, m: Machine<D>, op: nat, place: nat)
    requires op in {0x02, 0x03} && place < 0x400_0000 && Runs(io, m, JumpWord(op, place))
    ensures BranchesTo(io, m, true, Successor(m) / 0x1000_0000 * 0x1000_0000 + 4 * place, if op == 0x03 then 31 else 0)
  {
    hide Step, EffectAt, Seen, Read32, Abstract, JumpWord, Meaning, OpcodeTable, BranchesTo, JumpTarget, Successor;
    var inst := JumpWord(op, place);
    WhatIsSeen(io, m, inst);
    DecodedJump(io, m, op, place);
    JumpEffect(io, Seen(io, m), op);
    FromBranch(io, m, inst, EffectAt(io, Abstract(m)), if op == 0x03 then 31 else 0);
  }

  lemma JumpEffect<D>(io: Io<D>, v: View<D>, op: nat)
    requires op in {0x02, 0x03}
    ensures JumpTarget(v) == v.npc / 0x1000_0000 * 0x1000_0000 + 4 * Isa.Target(v.inst)
    ensures Meaning(io, OpcodeTable(op), v) ==
            if op == 0x02 then Branches(true, JumpTarget(v)) else Links(true, JumpTarget(v), 31, Wrap(v.npc + 4))
  {
    hide Isa.Target, Wrap;
  }

  /** JR and JALR: the target is the operand as it was before the return address is saved. */
  lemma JumpRegister<D>(io: Io<D>, m: Machine<D>, rs: RegNo, rt: RegNo, rd: RegNo, sh: RegNo, funct: nat)
    requires funct in {0x08, 0x09} && Runs(io, m, Word(0, rs, rt, Low(rd, sh, funct)))
    ensures BranchesTo(io, m, true, m.cpu.r[rs], if funct == 0x09 then rd else 0)
  {
    hide Step, EffectAt, Seen, Read32, Abstract, Word, Low, Meaning, FunctTable, BranchesTo, Successor, Reg;
    var inst := Word(0, rs, rt, Low(rd, sh, funct));
    WhatIsSeen(io, m, inst);
    DecodedSpecial(io, m, rs, rt, rd, sh, funct);
    JumpRegisterEffect(io, Seen(io, m), funct);
    FromBranch(io, m, inst, EffectAt(io, Abstract(m)), if funct == 0x09 then rd else 0);
  }

  lemma JumpRegisterEffect<D>(io: Io<D>, v: View<D>, funct: nat)
    requires funct in {0x08, 0x09}
    ensures var x := Reg(v.r, Rs(v.inst));
            Meaning(io, FunctTable(funct), v) ==
            if funct == 0x08 then Branches(true, x) else Links(true, x, Rd(v.inst), Wrap(v.npc + 4))
  {
    hide Reg, Rs, Rd, Wrap;
  }

  // ----- operands -----

  /** Which registers the instructions between registers read as operands. */
  lemma SpecialOperands<D>(v: View<D>, funct: nat)
    requires Opcode(v.inst) == 0 && Funct(v.inst) == funct
    ensures var rs, rt := Rs(v.inst), Rt(v.inst);
            Operands(Decode(v.inst), v) ==
            if funct in {0x00, 0x02, 0x03} then {rt}
            else if funct in {0x08, 0x09, 0x11, 0x13} then {rs}
            else if 0x18 <= funct < 0x1C || 0x20 <= funct < 0x28 then {rs, rt}
            else if funct in {0x04, 0x06, 0x07, 0x2A, 0x2B} then {rs, rt}
            else {}
  {
    hide Opcode, Funct, Rs, Rt, Address;
  }

  /** And which ones all others read: a store reads none while the cache is isolated, and no value to store at a
      misaligned address. */
  lemma OtherOperands<D>(v: View<D>, op: nat)
    requires Opcode(v.inst) == op && op != 0
    ensures var rs, rt, a := Rs(v.inst), Rt(v.inst), (Reg(v.r, Rs(v.inst)) + Offset(Imm(v.inst))) % TWO_32;
            Operands(Decode(v.inst), v) ==
            if op in {0x04, 0x05} then {rs, rt}
            else if op == 0x01 || 0x06 <= op < 0x0F || 0x20 <= op < 0x27 then {rs}
            else if op in {0x28, 0x29, 0x2A, 0x2B, 0x2E} then
              if v.cop0.cacheIsolated then {}
              else if (op == 0x29 && a % 2 != 0) || (op == 0x2B && a % 4 != 0) then {rs}
              else {rs, rt}
            else if op == 0x10 && rs == 4 then {rt}
            else {}
  {
    hide Opcode, Rs, Rt, Imm, Reg, Offset, Signed16;
    OffsetIsSigned(Imm(v.inst));
  }
}
