/** The macros and inline helpers of the C source, written with its bit operators, and what each
    of them computes. */
module Source {
  import opened Words
  import opened Bits
  import opened Memory
  import opened Cop0
  import opened Isa
  import opened Pipeline

  // ----- instruction fields -----

  function OpcodeField(inst: u32): (f: nat)
    ensures f == Opcode(inst)
  {
    hide And, Pow2;
    Powers();
    AndLowMask(inst / 0x400_0000, 6);
    And(inst / 0x400_0000, 0x3F)
  }

  function FunctField(inst: u32): (f: nat)
    ensures f == Funct(inst)
  {
    hide And, Pow2;
    Powers();
    AndLowMask(inst, 6);
    And(inst, 0x3F)
  }

  function RsField(inst: u32): (f: RegNo)
    ensures f == Rs(inst)
  {
    hide And, Pow2;
    Powers();
    AndLowMask(inst / 0x20_0000, 5);
    And(inst / 0x20_0000, 0x1F)
  }

  function RtField(inst: u32): (f: RegNo)
    ensures f == Rt(inst)
  {
    hide And, Pow2;
    Powers();
    AndLowMask(inst / TWO_16, 5);
    And(inst / TWO_16, 0x1F)
  }

  function RdField(inst: u32): (f: RegNo)
    ensures f == Rd(inst)
  {
    hide And, Pow2;
    Powers();
    AndLowMask(inst / 0x800, 5);
    And(inst / 0x800, 0x1F)
  }

  function ShamtField(inst: u32): (f: RegNo)
    ensures f == Shamt(inst)
  {
    hide And, Pow2;
    Powers();
    AndLowMask(inst / 0x40, 5);
    And(inst / 0x40, 0x1F)
  }

  function ImmField(inst: u32): (f: u16)
    ensures f == Imm(inst)
  {
    hide And, Pow2;
    Powers();
    AndLowMask(inst, 16);
    And(inst, 0xFFFF)
  }

  function TargetField(inst: u32): (f: nat)
    ensures f == Target(inst)
  {
    hide And, Pow2;
    Powers();
    AndLowMask(inst, 26);
    And(inst, 0x3FF_FFFF)
  }

  // ----- addresses -----

  function PhysicalAddressOf(addr: u32): (p: u32)
    ensures p == PhysicalAddress(addr)
  {
    hide And, Pow2;
    Powers();
    AndLowMask(addr, 29);
    And(addr, 0x1FFF_FFFF)
  }

  function GetPageIndex(addr: u32): (p: nat)
    ensures p == PhysicalAddress(addr) / PAGE_SIZE && p < PAGE_COUNT
  {
    hide And, Pow2;
    Powers();
    PhysicalAddressOf(addr) / PAGE_SIZE
  }

  function PageOffset(addr: u32): (o: nat)
    ensures o == addr % PAGE_SIZE
  {
    hide And, Pow2;
    Powers();
    AndLowMask(addr, 12);
    And(addr, 0xFFF)
  }

  function AlignBits(addr: u32, mask: u32): (b: nat)
    requires mask == 1 || mask == 3
    ensures b == addr % (mask + 1)
  {
    hide And, Pow2;
    Powers();
    AndLowMask(addr, 1);
    AndLowMask(addr, 2);
    And(addr, mask)
  }

  function AlignDown(addr: u32): (a: u32)
    ensures a == addr - addr % 4
  {
    ClearMasks(addr);
    And(addr, Not(3))
  }

  function TakenMask(state: u8): u32 {
    Wrap(0 - (if state == TAKEN then 1 else 0))
  }

  /** get_next_pc: a choice made without a branch. */
  function SelectPc(nextPc: u32, target: u32, state: u8): (pc: u32)
    ensures pc == if state == TAKEN then target else nextPc
  {
    MaskedSelect(nextPc, target);
    Xor(nextPc, And(Xor(nextPc, target), TakenMask(state)))
  }

  // ----- overflow checks -----

  function AddOverflowCheck(a: u32, b: u32, result: u32): (o: bool)
    ensures result == Wrap(a + b) ==> (o <==> !InInt32(Signed(a) + Signed(b)))
  {
    hide And, XorBits, Pow2;
    SignOf(a, result);
    SignOf(b, result);
    SignMask(Xor(a, result));
    SignMask(Xor(b, result));
    SignOfAnd(Xor(a, result), Xor(b, result));
    And(And(Xor(a, result), Xor(b, result)), 0x8000_0000) != 0
  }

  function SubOverflowCheck(a: u32, b: u32, result: u32): (o: bool)
    ensures result == Wrap(a - b) ==> (o <==> !InInt32(Signed(a) - Signed(b)))
  {
    hide And, XorBits, Pow2;
    SignOf(a, b);
    SignOf(a, result);
    SignMask(Xor(a, b));
    SignMask(Xor(a, result));
    SignOfAnd(Xor(a, b), Xor(a, result));
    And(And(Xor(a, b), Xor(a, result)), 0x8000_0000) != 0
  }

  /** Two results written modulo 2^32 that agree on their signed value are the same word. */
  lemma SignedWraps(a: u32, b: u32)
    ensures Wrap(a + b) == Wrap(Signed(a) + Signed(b))
    ensures Wrap(a - b) == Wrap(Signed(a) - Signed(b))
  {
    var p, q := (if a < 0x8000_0000 then 0 else 1), (if b < 0x8000_0000 then 0 else 1);
    WrapPeriod(Signed(a) + Signed(b), p + q);
    WrapPeriod(Signed(a) - Signed(b), p - q);
  }

  lemma WrapPeriod(x: int, turns: int)
    ensures Wrap(x + turns * TWO_32) == Wrap(x)
  {
    DivModUnique(x + turns * TWO_32, TWO_32, x / TWO_32 + turns, x % TWO_32);
  }

  // ----- merging bytes into registers -----

  /** (reg & 0x00FFFFFF) | (byte << 24) */
  function MergeTop(reg: u32, byte: u8): (r: u32)
    ensures r == SetHigh8(reg, byte)
  {
    HighPart(reg, byte, 24, 0x100_0000);
    Or(And(reg, 0x00FF_FFFF), byte * 0x100_0000)
  }

  /** (reg & 0x0000FFFF) | (half << 16) */
  function MergeTopHalf(reg: u32, half: u16): (r: u32)
    ensures r == SetHigh16(reg, half)
  {
    HighPart(reg, half, 16, TWO_16);
    Or(And(reg, 0x0000_FFFF), half * TWO_16)
  }

  /** (reg & 0x000000FF) | (half << 8) | (byte << 24) */
  function MergeTwo(reg: u32, half: u16, byte: u8): (r: u32)
    ensures r == SetHigh24(reg, half, byte)
  {
    HighPart(reg, half, 8, 0x100);
    TopPart(reg % 0x100 + half * 0x100, byte);
    Or(Or(And(reg, 0x0000_00FF), half * 0x100), byte * 0x100_0000)
  }

  /** (reg & 0xFF000000) | (half << 8) | byte */
  function MergeThree(reg: u32, byte: u8, half: u16): (r: u32)
    ensures r == SetLow24(reg, byte, half)
  {
    LowPart(reg, half * 0x100, 24, 0x100_0000);
    BottomPart(reg / 0x100_0000 * TWO_16 + half, byte);
    Or(Or(And(reg, Not(0x00FF_FFFF)), half * 0x100), byte)
  }

  /** (reg & 0xFFFF0000) | half */
  function MergeLowHalf(reg: u32, half: u16): (r: u32)
    ensures r == SetLow16(reg, half)
  {
    LowPart(reg, half, 16, TWO_16);
    Or(And(reg, Not(0x0000_FFFF)), half)
  }

  /** (reg & 0xFFFFFF00) | byte */
  function MergeLowByte(reg: u32, byte: u8): (r: u32)
    ensures r == SetLow8(reg, byte)
  {
    LowPart(reg, byte, 8, 0x100);
    Or(And(reg, Not(0x0000_00FF)), byte)
  }

  lemma HighPart(reg: u32, part: nat, k: nat, p: nat)
    requires (k == 8 && p == 0x100) || (k == 16 && p == TWO_16) || (k == 24 && p == 0x100_0000)
    ensures OrBits(And(reg, p - 1), part * p) == reg % p + part * p
  {
    hide And, OrBits, Pow2;
    Powers();
    AndLowMask(reg, k);
    OrDisjoint(part, reg % p, k, p);
  }

  lemma LowPart(reg: u32, part: nat, k: nat, p: nat)
    requires (k == 8 && p == 0x100) || (k == 16 && p == TWO_16) || (k == 24 && p == 0x100_0000)
    requires part < p
    ensures OrBits(And(reg, Not(p - 1)), part) == reg - reg % p + part
  {
    hide And, OrBits, Pow2;
    Powers();
    AndNot(reg, p - 1);
    AndLowMask(reg, k);
    OrDisjoint(reg / p, part, k, p);
    assert reg / p * p == reg - reg % p;
  }

  lemma TopPart(low: nat, byte: u8)
    requires low < 0x100_0000
    ensures OrBits(low, byte * 0x100_0000) == low + byte * 0x100_0000
  {
    hide OrBits, Pow2;
    Powers();
    OrDisjoint(byte, low, 24, 0x100_0000);
  }

  lemma BottomPart(high: nat, byte: u8)
    ensures OrBits(high * 0x100, byte) == high * 0x100 + byte
  {
    hide OrBits, Pow2;
    Powers();
    OrDisjoint(high, byte, 8, 0x100);
  }

  /** (pc & 0xF0000000) | (target << 2) */
  function JumpTo(pc: u32, target: nat): (t: u32)
    requires target < 0x400_0000
    ensures t == pc / 0x1000_0000 * 0x1000_0000 + 4 * target
  {
    JumpToIsSum(pc, target);
    Or(And(pc, 0xF000_0000), Wrap(target * 4))
  }

  lemma JumpToIsSum(pc: u32, target: nat)
    requires target < 0x400_0000
    ensures OrBits(And(pc, 0xF000_0000), Wrap(target * 4)) == pc / 0x1000_0000 * 0x1000_0000 + 4 * target
  {
    hide And, OrBits, Pow2;
    Powers();
    SegmentMask(pc);
    OrDisjoint(pc / 0x1000_0000, 4 * target, 28, 0x1000_0000);
  }

  lemma AndLowMaskOfFive(x: nat)
    ensures And(x, 0x1F) == x % 0x20
  {
    hide And, Pow2;
    Powers();
    AndLowMask(x, 5);
  }

  /** (product >> 32, product & 0xFFFFFFFF) on a 64-bit product */
  method SplitProduct(product: int) returns (hi: u32, lo: u32)
    ensures (hi, lo) == Product(product)
  {
    hi := Wrap(product / TWO_32);
    lo := product % TWO_32;
    assert product == product / TWO_32 * TWO_32 + lo;
    assert product % TWO_64 == hi * TWO_32 + lo;
  }

  /** rs + rt on uint32_t */
  function Plus(a: u32, b: u32): u32 {
    Wrap(a + b)
  }

  /** rs - rt on uint32_t */
  function Minus(a: u32, b: u32): u32 {
    Wrap(a - b)
  }

  /** SIMM_EXT: the immediate sign-extended to 32 bits */
  function SignExtend(imm: u16): (e: u32)
    ensures Signed(e) == Signed16(imm)
  {
    Wrap(Signed16(imm))
  }

  /** pc + (SIMM_EXT << 2) on uint32_t */
  function BranchSum(pc: u32, imm: u16): (t: u32)
    ensures t == Wrap(pc + 4 * Signed16(imm))
  {
    var shifted := SignExtend(imm) * 4 % TWO_32;
    assert shifted == (if imm < 0x8000 then 4 * imm else 4 * Signed16(imm) + TWO_32);
    Plus(pc, shifted)
  }

  /** The body of execute_div after its operands are read; INT32_MIN / -1 is a case of its own in C. */
  method DivideSigned(dividend: u32, divisor: u32) returns (hi: u32, lo: u32)
    ensures (hi, lo) == SignedQuotient(dividend, divisor)
  {
    var rs, rt := Signed(dividend), Signed(divisor);
    if rt == 0 {
      hi := Wrap(rs);
      lo := if rs >= 0 then Wrap(-1) else 1;
    } else if rs == -0x8000_0000 && rt == -1 {
      hi := 0;
      lo := Wrap(-0x8000_0000);
    } else {
      lo := Wrap(TruncDiv(rs, rt));
      hi := Wrap(TruncMod(rs, rt));
    }
  }

  method DivideUnsigned(rs: u32, rt: u32) returns (hi: u32, lo: u32)
    ensures (hi, lo) == UnsignedQuotient(rs, rt)
  {
    if rt == 0 {
      hi := rs;
      lo := 0xFFFF_FFFF;
    } else {
      DivBound(rs, rt);
      lo := rs / rt;
      hi := rs % rt;
    }
  }

  /** (status & ~0x3F) | ((status << 2) & 0x3F) */
  function RaiseModes(status: u32): (r: u32)
    ensures r == PushMode(status)
  {
    PushBits(status);
    Or(And(status, Not(0x3F)), And(Wrap(status * 4), 0x3F))
  }

  /** (stat & ~0x0F) | ((stat >> 2) & 0x0F) */
  function LowerModes(stat: u32): (r: u32)
    ensures r == PopMode(stat)
  {
    PopBits(stat);
    Or(And(stat, Not(0x0F)), And(stat / 4, 0x0F))
  }

  /** The bits that cop0_raise_exception ors into the cause register, one after the other. */
  method RaiseCause(kept: u32, code: u8, inst: u32, inSlot: bool, taken: bool) returns (cause: u32)
    requires code < 0x40 && kept % 0x100 == 0 && kept < TWO_16
    requires taken ==> inSlot
    ensures cause == kept + code * 4
                     + (if code == EXC_IBE || code == EXC_DBE then 0 else Opcode(inst) % 4 * 0x1000_0000)
                     + (if taken then 0x4000_0000 else 0) + (if inSlot then 0x8000_0000 else 0)
  {
    hide And, OrBits, Pow2;
    Powers();
    OrDisjoint(kept / 0x100, code * 4, 8, 0x100);
    cause := Or(kept, code * 4);
    if code != EXC_IBE && code != EXC_DBE {
      AndLowMask(OpcodeField(inst), 2);
      var number := And(OpcodeField(inst), 3);
      OrDisjoint(number, cause, 28, 0x1000_0000);
      cause := Or(cause, number * 0x1000_0000);
    }
    if inSlot {
      OrDisjoint(1, cause, 31, 0x8000_0000);
      OrIsSum(cause + 0x8000_0000, 0x4000_0000);
      SlotBit(cause);
      cause := Or(cause, 0x8000_0000);
      if taken {
        cause := Or(cause, 0x4000_0000);
      }
    }
  }

  lemma SlotBit(x: nat)
    requires x < 0x4000_0000
    ensures And(x + 0x8000_0000, 0x4000_0000) == 0
  {
    hide And, Pow2;
    Powers();
    FieldMask(x + 0x8000_0000, 1, 30, 0x4000_0000, 2, 0x4000_0000);
  }

  lemma PopBits(s: u32)
    ensures OrBits(And(s, Not(0x0F)), And(s / 4, 0x0F)) == PopMode(s)
  {
    hide And, OrBits, Pow2, Not;
    Powers();
    ClearMasks(s);
    AndLowMask(s / 4, 4);
    OrDisjoint(s / 0x10, s / 4 % 0x10, 4, 0x10);
  }

  lemma PushBits(s: u32)
    ensures OrBits(And(s, Not(0x3F)), And(Wrap(s * 4), 0x3F)) == PushMode(s)
  {
    hide And, OrBits, Pow2, Not;
    Powers();
    AndNot(s, 0x3F);
    AndLowMask(s, 6);
    AndLowMask(Wrap(s * 4), 6);
    WrapKeepsLowBits(s * 4);
    OrDisjoint(s / 0x40, s * 4 % 0x40, 6, 0x40);
  }

  lemma WrapKeepsLowBits(x: nat)
    ensures Wrap(x) % 0x40 == x % 0x40
  {
    var q, w := x / TWO_32, x % TWO_32;
    var u, v := w / 0x40, w % 0x40;
    assert x == (q * 0x400_0000 + u) * 0x40 + v;
    DivModUnique(x, 0x40, q * 0x400_0000 + u, v);
  }
}
