/** What every instruction means, given the register values it sees. */
module Isa {
  import opened Words
  import opened Bits
  import opened Memory
  import opened Cop0

  type RegNo = n: nat | n < 32
  type Regs = r: seq<u32> | |r| == 32 witness seq(32, _ => 0)

  // ----- instruction fields -----

  function Opcode(inst: u32): nat {
    inst / 0x400_0000
  }

  function Funct(inst: u32): nat {
    inst % 0x40
  }

  function Rs(inst: u32): RegNo {
    inst / 0x20_0000 % 0x20
  }

  function Rt(inst: u32): RegNo {
    inst / TWO_16 % 0x20
  }

  function Rd(inst: u32): RegNo {
    inst / 0x800 % 0x20
  }

  function Shamt(inst: u32): RegNo {
    inst / 0x40 % 0x20
  }

  function Imm(inst: u32): u16 {
    inst % TWO_16
  }

  function Target(inst: u32): nat {
    inst % 0x400_0000
  }

  // ----- the dispatch tables -----

  datatype ShiftOp = SLL | SRL | SRA
  datatype RegOp = SLLV | SRLV | SRAV | ADDU | SUBU | AND | OR | XOR | NOR | SLT | SLTU
  datatype ImmOp = ADDIU | ANDI | ORI | XORI | SLTI | SLTIU
  datatype ZeroTest = GEZ | GTZ | LEZ | LTZ

  datatype Handler =
    | Shift(shift: ShiftOp)
    | Register(op: RegOp)
    | Immediate(imm: ImmOp)
    | Lui
    | Beq | Bne
    | BranchZero(test: ZeroTest)
    | Bcond | J | Jal | Jr | Jalr
    | Syscall | Break
    | Mfhi | Mthi | Mflo | Mtlo
    | Mult | Multu | Div | Divu
    | Add | Sub | Addi
    | Lb | Lbu | Lh | Lhu | Lw | Lwl | Lwr
    | Sb | Sh | Sw | Swl | Swr
    | Cop0 | Cop2
    | Invalid

  function OpcodeTable(opcode: nat): Handler {
    match opcode
    case 0x01 => Bcond
    case 0x02 => J
    case 0x03 => Jal
    case 0x04 => Beq
    case 0x05 => Bne
    case 0x06 => BranchZero(LEZ)
    case 0x07 => BranchZero(GTZ)
    case 0x08 => Addi
    case 0x09 => Immediate(ADDIU)
    case 0x0A => Immediate(SLTI)
    case 0x0B => Immediate(SLTIU)
    case 0x0C => Immediate(ANDI)
    case 0x0D => Immediate(ORI)
    case 0x0E => Immediate(XORI)
    case 0x0F => Lui
    case 0x10 => Cop0
    case 0x12 => Cop2
    case 0x20 => Lb
    case 0x21 => Lh
    case 0x22 => Lwl
    case 0x23 => Lw
    case 0x24 => Lbu
    case 0x25 => Lhu
    case 0x26 => Lwr
    case 0x28 => Sb
    case 0x29 => Sh
    case 0x2A => Swl
    case 0x2B => Sw
    case 0x2E => Swr
    case _ => Invalid
  }

  function FunctTable(funct: nat): Handler {
    match funct
    case 0x00 => Shift(SLL)
    case 0x02 => Shift(SRL)
    case 0x03 => Shift(SRA)
    case 0x04 => Register(SLLV)
    case 0x06 => Register(SRLV)
    case 0x07 => Register(SRAV)
    case 0x08 => Jr
    case 0x09 => Jalr
    case 0x0C => Syscall
    case 0x0D => Break
    case 0x10 => Mfhi
    case 0x11 => Mthi
    case 0x12 => Mflo
    case 0x13 => Mtlo
    case 0x18 => Mult
    case 0x19 => Multu
    case 0x1A => Div
    case 0x1B => Divu
    case 0x20 => Add
    case 0x21 => Register(ADDU)
    case 0x22 => Sub
    case 0x23 => Register(SUBU)
    case 0x24 => Register(AND)
    case 0x25 => Register(OR)
    case 0x26 => Register(XOR)
    case 0x27 => Register(NOR)
    case 0x2A => Register(SLT)
    case 0x2B => Register(SLTU)
    case _ => Invalid
  }

  function Decode(inst: u32): Handler {
    if Opcode(inst) == 0 then FunctTable(Funct(inst)) else OpcodeTable(Opcode(inst))
  }

  // ----- results of the arithmetic families -----

  function ShiftResult(op: ShiftOp, value: u32, shamt: RegNo): u32 {
    match op
    case SLL => Shl(value, shamt)
    case SRL => Shr(value, shamt)
    case SRA => Sra(value, shamt)
  }

  function RegResult(op: RegOp, rs: u32, rt: u32): u32 {
    match op
    case SLLV => Shl(rt, rs % 0x20)
    case SRLV => Shr(rt, rs % 0x20)
    case SRAV => Sra(rt, rs % 0x20)
    case ADDU => Wrap(rs + rt)
    case SUBU => Wrap(rs - rt)
    case AND => And(rs, rt)
    case OR => Or(rs, rt)
    case XOR => Xor(rs, rt)
    case NOR => Not(Or(rs, rt))
    case SLT => if Signed(rs) < Signed(rt) then 1 else 0
    case SLTU => if rs < rt then 1 else 0
  }

  function ImmResult(op: ImmOp, rs: u32, imm: u16): u32 {
    match op
    case ADDIU => Wrap(rs + Signed16(imm))
    case ANDI => And(rs, imm)
    case ORI => Or(rs, imm)
    case XORI => Xor(rs, imm)
    case SLTI => if Signed(rs) < Signed16(imm) then 1 else 0
    case SLTIU => if rs < Wrap(Signed16(imm)) then 1 else 0
  }

  predicate Holds(test: ZeroTest, rs: u32) {
    match test
    case GEZ => Signed(rs) >= 0
    case GTZ => Signed(rs) > 0
    case LEZ => Signed(rs) <= 0
    case LTZ => Signed(rs) < 0
  }

  // ----- effects -----

  /** What an instruction asks of the pipeline. Every instruction asks for exactly one thing. */
  datatype Effect<D> =
    | Nothing
    | Raises(code: u8)
    | Writes(reg: RegNo, value: u32)
    | Loads(reg: RegNo, value: u32, sys: Sys<D>)
    | Branches(taken: bool, target: u32)
    | Links(taken: bool, target: u32, reg: RegNo, link: u32)
    | SetsHiLo(hi: u32, lo: u32)
    | Stores(sys: Sys<D>)
    | SetsCop0(cop0: Cop0State)

  /** What an instruction sees: r is the register file as its operands read it, loaded the
      register file with a load still in flight applied, npc the address of the next instruction. */
  datatype View<D> = View(inst: u32, r: Regs, loaded: Regs, hi: u32, lo: u32, npc: u32,
                          cop0: Cop0State, sys: Sys<D>)

  function Reg(r: Regs, n: RegNo): u32 {
    if n == 0 then 0 else r[n]
  }

  function Address<D>(v: View<D>): u32 {
    Wrap(Reg(v.r, Rs(v.inst)) + Signed16(Imm(v.inst)))
  }

  function BranchTarget<D>(v: View<D>): u32 {
    Wrap(v.npc + 4 * Signed16(Imm(v.inst)))
  }

  function JumpTarget<D>(v: View<D>): u32 {
    v.npc / 0x1000_0000 * 0x1000_0000 + 4 * Target(v.inst)
  }

  /** A signed 32-bit result, or an overflow exception when it does not fit. */
  function Checked<D>(reg: RegNo, sum: int): Effect<D> {
    if InInt32(sum) then Writes(reg, Wrap(sum)) else Raises(EXC_OV)
  }

  /** A 64-bit product as the pair (hi, lo). */
  function Product(p: int): (u32, u32) {
    (p % TWO_64 / TWO_32, p % TWO_64 % TWO_32)
  }

  function SignedQuotient(rs: u32, rt: u32): (u32, u32) {
    if rt == 0 then (rs, if Signed(rs) >= 0 then 0xFFFF_FFFF else 1)
    else (Wrap(TruncMod(Signed(rs), Signed(rt))), Wrap(TruncDiv(Signed(rs), Signed(rt))))
  }

  function UnsignedQuotient(rs: u32, rt: u32): (u32, u32) {
    if rt == 0 then (rs, 0xFFFF_FFFF)
    else
      DivBound(rs, rt);
      (rs % rt, rs / rt)
  }

  /** The upper bytes of a register come from the bytes of an aligned word up to the given lane. */
  function LeftLane<D>(io: Io<D>, sys: Sys<D>, base: u32, lane: nat, kept: u32): (u32, Sys<D>)
    requires base % 4 == 0 && base + 3 < TWO_32 && lane < 4
  {
    Lanes(base);
    if lane == 0 then
      var (b, s) := Read8(io, sys, base);
      (SetHigh8(kept, b), s)
    else if lane == 1 then
      var (h, s) := AlignedRead16(io, sys, base);
      (SetHigh16(kept, h), s)
    else if lane == 2 then
      var (h, s) := AlignedRead16(io, sys, base);
      var (b, s') := Read8(io, s, base + 2);
      (SetHigh24(kept, h, b), s')
    else
      AlignedRead32(io, sys, base)
  }

  /** The lower bytes of a register come from the bytes of an aligned word from the given lane on. */
  function RightLane<D>(io: Io<D>, sys: Sys<D>, base: u32, lane: nat, kept: u32): (u32, Sys<D>)
    requires base % 4 == 0 && base + 3 < TWO_32 && lane < 4
  {
    Lanes(base);
    if lane == 0 then
      AlignedRead32(io, sys, base)
    else if lane == 1 then
      var (b, s) := Read8(io, sys, base + 1);
      var (h, s') := AlignedRead16(io, s, base + 2);
      (SetLow24(kept, b, h), s')
    else if lane == 2 then
      var (h, s) := AlignedRead16(io, sys, base + 2);
      (SetLow16(kept, h), s)
    else
      var (b, s) := Read8(io, sys, base + 3);
      (SetLow8(kept, b), s)
  }

  function StoreLeftLane<D>(io: Io<D>, sys: Sys<D>, base: u32, lane: nat, w: u32): Sys<D>
    requires base % 4 == 0 && base + 3 < TWO_32 && lane < 4
  {
    Lanes(base);
    if lane == 0 then Write8(io, sys, base, Byte(w, 3))
    else if lane == 1 then AlignedWrite16(io, sys, base, HighHalf(w))
    else if lane == 2 then Write8(io, AlignedWrite16(io, sys, base, MiddleHalf(w)), base + 2, Byte(w, 3))
    else AlignedWrite32(io, sys, base, w)
  }

  function StoreRightLane<D>(io: Io<D>, sys: Sys<D>, base: u32, lane: nat, w: u32): Sys<D>
    requires base % 4 == 0 && base + 3 < TWO_32 && lane < 4
  {
    Lanes(base);
    if lane == 0 then AlignedWrite32(io, sys, base, w)
    else if lane == 1 then AlignedWrite16(io, Write8(io, sys, base + 1, Byte(w, 0)), base + 2, MiddleHalf(w))
    else if lane == 2 then AlignedWrite16(io, sys, base + 2, LowHalf(w))
    else Write8(io, sys, base + 3, Byte(w, 0))
  }

  function LeftWord<D>(io: Io<D>, sys: Sys<D>, a: u32, kept: u32): (u32, Sys<D>) {
    LaneSplit(a);
    LeftLane(io, sys, a - a % 4, a % 4, kept)
  }

  function RightWord<D>(io: Io<D>, sys: Sys<D>, a: u32, kept: u32): (u32, Sys<D>) {
    LaneSplit(a);
    RightLane(io, sys, a - a % 4, a % 4, kept)
  }

  function StoreLeft<D>(io: Io<D>, sys: Sys<D>, a: u32, w: u32): Sys<D> {
    LaneSplit(a);
    StoreLeftLane(io, sys, a - a % 4, a % 4, w)
  }

  function StoreRight<D>(io: Io<D>, sys: Sys<D>, a: u32, w: u32): Sys<D> {
    LaneSplit(a);
    StoreRightLane(io, sys, a - a % 4, a % 4, w)
  }

  function MovesFrom<D>(v: View<D>): Effect<D> {
    Loads(Rt(v.inst), Cop0.Read(v.cop0, Rd(v.inst)), v.sys)
  }

  function MovesTo<D>(v: View<D>): Effect<D> {
    SetsCop0(Cop0.Write(v.cop0, Rd(v.inst), Reg(v.r, Rt(v.inst))))
  }

  function Coprocessor<D>(v: View<D>): Effect<D> {
    match Rs(v.inst)
    case 0x00 => MovesFrom(v)
    case 0x04 => MovesTo(v)
    case 0x10 => SetsCop0(Rfe(v.cop0))
    case _ => Raises(EXC_RI)
  }

  function BranchFamily<D>(v: View<D>): Effect<D> {
    var rs, rt := Reg(v.r, Rs(v.inst)), Rt(v.inst);
    if rt == 0x10 then Links(Signed(rs) < 0, BranchTarget(v), 31, Wrap(v.npc + 4))
    else if rt == 0x11 then Links(Signed(rs) >= 0, BranchTarget(v), 31, Wrap(v.npc + 4))
    else if rt % 2 == 1 then Branches(Signed(rs) >= 0, BranchTarget(v))
    else Branches(Signed(rs) < 0, BranchTarget(v))
  }

  /** The meaning of the instruction v.inst when dispatched to handler h. */
  function Meaning<D>(io: Io<D>, h: Handler, v: View<D>): Effect<D> {
    var rs := Reg(v.r, Rs(v.inst));
    var rt := Reg(v.r, Rt(v.inst));
    match h
    case Shift(op) => Writes(Rd(v.inst), ShiftResult(op, rt, Shamt(v.inst)))
    case Register(op) => Writes(Rd(v.inst), RegResult(op, rs, rt))
    case Immediate(op) => Writes(Rt(v.inst), ImmResult(op, rs, Imm(v.inst)))
    case Lui => Writes(Rt(v.inst), Imm(v.inst) * TWO_16)
    case Beq => Branches(rs == rt, BranchTarget(v))
    case Bne => Branches(rs != rt, BranchTarget(v))
    case BranchZero(test) => Branches(Holds(test, rs), BranchTarget(v))
    case Bcond => BranchFamily(v)
    case J => Branches(true, JumpTarget(v))
    case Jal => Links(true, JumpTarget(v), 31, Wrap(v.npc + 4))
    case Jr => Branches(true, rs)
    case Jalr => Links(true, rs, Rd(v.inst), Wrap(v.npc + 4))
    case Syscall => Raises(EXC_SYS)
    case Break => Raises(EXC_BP)
    case Mfhi => Writes(Rd(v.inst), v.hi)
    case Mthi => SetsHiLo(rs, v.lo)
    case Mflo => Writes(Rd(v.inst), v.lo)
    case Mtlo => SetsHiLo(v.hi, rs)
    case Mult => var (hi, lo) := Product(Signed(rs) * Signed(rt)); SetsHiLo(hi, lo)
    case Multu => var (hi, lo) := Product(rs * rt); SetsHiLo(hi, lo)
    case Div => var (hi, lo) := SignedQuotient(rs, rt); SetsHiLo(hi, lo)
    case Divu => var (hi, lo) := UnsignedQuotient(rs, rt); SetsHiLo(hi, lo)
    case Add => Checked(Rd(v.inst), Signed(rs) + Signed(rt))
    case Sub => Checked(Rd(v.inst), Signed(rs) - Signed(rt))
    case Addi => Checked(Rt(v.inst), Signed(rs) + Signed16(Imm(v.inst)))
    case Lb => var (b, s) := Read8(io, v.sys, Address(v)); Loads(Rt(v.inst), Wrap(Signed8(b)), s)
    case Lbu => var (b, s) := Read8(io, v.sys, Address(v)); Loads(Rt(v.inst), b, s)
    case Lh =>
      if Address(v) % 2 != 0 then Raises(EXC_ADEL)
      else var (x, s) := AlignedRead16(io, v.sys, Address(v)); Loads(Rt(v.inst), Wrap(Signed16(x)), s)
    case Lhu =>
      if Address(v) % 2 != 0 then Raises(EXC_ADEL)
      else var (x, s) := AlignedRead16(io, v.sys, Address(v)); Loads(Rt(v.inst), x, s)
    case Lw =>
      if Address(v) % 4 != 0 then Raises(EXC_ADEL)
      else var (w, s) := AlignedRead32(io, v.sys, Address(v)); Loads(Rt(v.inst), w, s)
    case Lwl => var (w, s) := LeftWord(io, v.sys, Address(v), Reg(v.loaded, Rt(v.inst))); Loads(Rt(v.inst), w, s)
    case Lwr => var (w, s) := RightWord(io, v.sys, Address(v), Reg(v.loaded, Rt(v.inst))); Loads(Rt(v.inst), w, s)
    case Sb =>
      if v.cop0.cacheIsolated then Nothing
      else Stores(Write8(io, v.sys, Address(v), rt % 0x100))
    case Sh =>
      if v.cop0.cacheIsolated then Nothing
      else if Address(v) % 2 != 0 then Raises(EXC_ADES)
      else Stores(AlignedWrite16(io, v.sys, Address(v), rt % TWO_16))
    case Sw =>
      if v.cop0.cacheIsolated then Nothing
      else if Address(v) % 4 != 0 then Raises(EXC_ADES)
      else Stores(AlignedWrite32(io, v.sys, Address(v), rt))
    case Swl => if v.cop0.cacheIsolated then Nothing else Stores(StoreLeft(io, v.sys, Address(v), rt))
    case Swr => if v.cop0.cacheIsolated then Nothing else Stores(StoreRight(io, v.sys, Address(v), rt))
    case Cop0 => Coprocessor(v)
    case Cop2 => Raises(EXC_RI)
    case Invalid => Raises(EXC_RI)
  }

  function Execute<D>(io: Io<D>, v: View<D>): Effect<D> {
    Meaning(io, Decode(v.inst), v)
  }

  // ----- which registers an instruction reads as operands -----

  function Operands<D>(h: Handler, v: View<D>): set<RegNo> {
    var rs, rt := Rs(v.inst), Rt(v.inst);
    match h
    case Shift(_) => {rt}
    case Register(_) | Beq | Bne | Mult | Multu | Div | Divu | Add | Sub => {rs, rt}
    case Immediate(_) | BranchZero(_) | Bcond | Jr | Jalr | Mthi | Mtlo | Addi => {rs}
    case Lb | Lbu | Lh | Lhu | Lw | Lwl | Lwr => {rs}
    case Lui | J | Jal | Syscall | Break | Mfhi | Mflo | Cop2 | Invalid => {}
    case Sb | Swl | Swr => if v.cop0.cacheIsolated then {} else {rs, rt}
    case Sh => if v.cop0.cacheIsolated then {} else if Address(v) % 2 != 0 then {rs} else {rs, rt}
    case Sw => if v.cop0.cacheIsolated then {} else if Address(v) % 4 != 0 then {rs} else {rs, rt}
    case Cop0 => if rs == 4 then {rt} else {}
  }

  lemma SameOperands<D>(v: View<D>, q: RegNo, x: u32)
    ensures var w := v.(r := v.r[q := x]);
            && BranchTarget(w) == BranchTarget(v) && JumpTarget(w) == JumpTarget(v)
            && (q == 0 || q != Rs(v.inst) ==> Reg(w.r, Rs(v.inst)) == Reg(v.r, Rs(v.inst)) && Address(w) == Address(v))
            && (q == 0 || q != Rt(v.inst) ==> Reg(w.r, Rt(v.inst)) == Reg(v.r, Rt(v.inst)))
  {
  }

  /** An instruction's effect does not depend on a register it does not read as an operand. */
  lemma OnlyOperandsMatter<D>(io: Io<D>, h: Handler, v: View<D>, q: RegNo, x: u32)
    requires q == 0 || q !in Operands(h, v)
    ensures Meaning(io, h, v.(r := v.r[q := x])) == Meaning(io, h, v)
  {
    hide RegResult, ShiftResult, ImmResult, Read8, Read16, Read32, Write8, Write16, Write32;
    hide LeftWord, RightWord, StoreLeft, StoreRight;
    hide SignedQuotient, UnsignedQuotient, Product, Checked, Wrap, Signed, Signed8, Signed16, Reg;
    hide Rs, Rt, Rd, Imm, Shamt, BranchTarget, JumpTarget, Address, Cop0.Write, Cop0.Read, Rfe;
    SameOperands(v, q, x);
  }
}
