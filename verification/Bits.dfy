/** The bitwise operators of C on non-negative integers, defined bit by bit, and the
    arithmetic meaning of every mask the emulator uses. */
module Bits {
  import opened Words

  function Pow2(n: nat): (p: nat)
    ensures p >= 1
  {
    if n == 0 then 1 else 2 * Pow2(n - 1)
  }

  function And(a: nat, b: nat): (r: nat)
    ensures r <= a && r <= b
  {
    if a == 0 || b == 0 then 0
    else 2 * And(a / 2, b / 2) + (if a % 2 == 1 && b % 2 == 1 then 1 else 0)
  }

  function OrBits(a: nat, b: nat): nat
    decreases a + b
  {
    if a == 0 && b == 0 then 0
    else 2 * OrBits(a / 2, b / 2) + (if a % 2 == 1 || b % 2 == 1 then 1 else 0)
  }

  function XorBits(a: nat, b: nat): nat
    decreases a + b
  {
    if a == 0 && b == 0 then 0
    else 2 * XorBits(a / 2, b / 2) + (if a % 2 != b % 2 then 1 else 0)
  }

  lemma {:induction false} OrXorBound(a: nat, b: nat, n: nat)
    requires a < Pow2(n) && b < Pow2(n)
    ensures OrBits(a, b) < Pow2(n)
    ensures XorBits(a, b) < Pow2(n)
  {
    if n == 0 || (a == 0 && b == 0) {
    } else {
      OrXorBound(a / 2, b / 2, n - 1);
    }
  }

  /** The powers of two behind the shift amounts and masks of the source. */
  lemma Powers()
    ensures Pow2(0) == 1 && Pow2(1) == 2 && Pow2(2) == 4 && Pow2(4) == 0x10 && Pow2(5) == 0x20 && Pow2(6) == 0x40
    ensures Pow2(8) == 0x100 && Pow2(11) == 0x800 && Pow2(12) == 0x1000 && Pow2(15) == 0x8000
    ensures Pow2(16) == TWO_16 && Pow2(21) == 0x20_0000 && Pow2(24) == 0x100_0000
    ensures Pow2(25) == 0x200_0000 && Pow2(26) == 0x400_0000
    ensures Pow2(9) == 0x200 && Pow2(10) == 0x400 && Pow2(27) == 0x800_0000 && Pow2(28) == 0x1000_0000
    ensures Pow2(29) == 0x2000_0000 && Pow2(30) == 0x4000_0000
    ensures Pow2(31) == 0x8000_0000 && Pow2(32) == TWO_32
  {
    assert Pow2(6) == 0x40;
    assert Pow2(11) == 0x800;
    assert Pow2(16) == TWO_16;
    assert Pow2(21) == 0x20_0000;
    assert Pow2(26) == 0x400_0000;
    assert Pow2(30) == 0x4000_0000;
  }

  function Or(a: u32, b: u32): u32 {
    Powers();
    OrXorBound(a, b, 32);
    OrBits(a, b)
  }

  function Xor(a: u32, b: u32): u32 {
    Powers();
    OrXorBound(a, b, 32);
    XorBits(a, b)
  }

  function Not(a: u32): u32 {
    0xFFFF_FFFF - a
  }

  /** Shifting by n > 0 places is shifting by one place and then by n - 1. */
  lemma DivHalf(x: nat, p: nat)
    requires p > 0
    ensures x / (2 * p) == x / 2 / p
    ensures x % (2 * p) == 2 * (x / 2 % p) + x % 2
  {
    var h := x / 2;
    assert h == (h / p) * p + h % p;
    assert x == (h / p) * (2 * p) + (2 * (h % p) + x % 2);
    DivModUnique(x, 2 * p, h / p, 2 * (h % p) + x % 2);
  }

  lemma DivBound(x: nat, p: nat)
    requires p >= 1
    ensures 0 <= x / p <= x
  {
    var q := x / p;
    assert x == q * p + x % p;
    if q > 0 {
      Scales(p, q);
    }
  }

  /** v << n on uint32_t. */
  function Shl(v: u32, n: nat): u32 {
    Wrap(v * Pow2(n))
  }

  /** v >> n on uint32_t. */
  function Shr(v: u32, n: nat): u32 {
    DivBound(v, Pow2(n));
    v / Pow2(n)
  }

  /** (int32_t)v >> n: the arithmetic shift, which rounds toward minus infinity. */
  function Sra(v: u32, n: nat): u32 {
    Wrap(Signed(v) / Pow2(n))
  }

  /** One bit of a conjunction, whether or not an operand is zero. */
  lemma AndUnfold(a: nat, b: nat)
    ensures And(a, b) == 2 * And(a / 2, b / 2) + (if a % 2 == 1 && b % 2 == 1 then 1 else 0)
  {
  }

  lemma {:induction false} AndLowMask(x: nat, k: nat)
    ensures And(x, Pow2(k) - 1) == x % Pow2(k)
  {
    hide And;
    if k == 0 {
    } else {
      var p := Pow2(k - 1);
      AndLowMask(x / 2, k - 1);
      DivHalf(x, p);
      AndUnfold(x, 2 * p - 1);
      assert (2 * p - 1) / 2 == p - 1 && (2 * p - 1) % 2 == 1;
    }
  }

  lemma EvenMultiple(h: nat, p: nat)
    requires p > 0 && h % p == 0
    ensures 2 * h % (2 * p) == 0
  {
    DivHalf(2 * h, p);
  }

  /** A multiple of a power of two still is one after a conjunction. */
  lemma {:induction false} AndModulo(a: nat, b: nat, n: nat)
    requires a % Pow2(n) == 0
    ensures And(a, b) % Pow2(n) == 0
  {
    hide And;
    if n == 0 {
    } else {
      DivHalf(a, Pow2(n - 1));
      AndModulo(a / 2, b / 2, n - 1);
      AndUnfold(a, b);
      EvenMultiple(And(a / 2, b / 2), Pow2(n - 1));
    }
  }

  /** The low bits of a conjunction are the conjunction of the low bits. */
  lemma {:induction false} AndLowBits(a: nat, b: nat, n: nat)
    ensures And(a, b) % Pow2(n) == And(a % Pow2(n), b % Pow2(n))
  {
    hide And;
    if n == 0 {
    } else {
      var p := Pow2(n - 1);
      AndLowBits(a / 2, b / 2, n - 1);
      DivHalf(a, p);
      DivHalf(b, p);
      DivHalf(And(a, b), p);
      AndUnfold(a, b);
      AndUnfold(a % (2 * p), b % (2 * p));
      var bit := if a % 2 == 1 && b % 2 == 1 then 1 else 0;
      DivModUnique(And(a, b), 2, And(a / 2, b / 2), bit);
      DivModUnique(a % (2 * p), 2, a / 2 % p, a % 2);
      DivModUnique(b % (2 * p), 2, b / 2 % p, b % 2);
    }
  }

  lemma {:induction false} AndSame(a: nat)
    ensures And(a, a) == a
  {
    if a == 0 {
    } else {
      AndSame(a / 2);
    }
  }

  function Doubled(m: nat, k: nat): nat {
    if k == 0 then m else 2 * Doubled(m, k - 1)
  }

  function Halved(x: nat, k: nat): nat {
    if k == 0 then x else Halved(x / 2, k - 1)
  }

  lemma {:induction false} HalvedIsShift(x: nat, k: nat)
    ensures Halved(x, k) == x / Pow2(k)
  {
    if k == 0 {
    } else {
      HalvedIsShift(x / 2, k - 1);
      DivHalf(x, Pow2(k - 1));
    }
  }

  lemma {:induction false} DoubledIsShift(m: nat, k: nat)
    ensures Doubled(m, k) == m * Pow2(k)
  {
    if k == 0 {
    } else {
      DoubledIsShift(m, k - 1);
      assert m * (2 * Pow2(k - 1)) == 2 * (m * Pow2(k - 1));
    }
  }

  /** A mask shifted left by k selects from the bits of x above position k. */
  lemma {:induction false} AndShiftedMask(x: nat, m: nat, k: nat)
    ensures And(x, Doubled(m, k)) == Doubled(And(Halved(x, k), m), k)
  {
    if k == 0 {
    } else {
      AndShiftedMask(x / 2, m, k - 1);
    }
  }

  lemma {:induction false} AndComplement(x: nat, m: nat, n: nat)
    requires x < Pow2(n) && m < Pow2(n)
    ensures And(x, Pow2(n) - 1 - m) == x - And(x, m)
  {
    hide And;
    if n == 0 {
    } else {
      var p := Pow2(n - 1);
      AndComplement(x / 2, m / 2, n - 1);
      AndUnfold(x, m);
      AndUnfold(x, 2 * p - 1 - m);
      assert (2 * p - 1 - m) / 2 == p - 1 - m / 2 && (2 * p - 1 - m) % 2 == 1 - m % 2;
    }
  }

  lemma AndNot(x: u32, m: u32)
    ensures And(x, Not(m)) == x - And(x, m)
  {
    Powers();
    AndComplement(x, m, 32);
  }

  lemma {:induction false} XorCancels(x: nat, y: nat)
    ensures XorBits(x, XorBits(x, y)) == y
    decreases x + y
  {
    if x == 0 && y == 0 {
    } else {
      XorCancels(x / 2, y / 2);
      assert XorBits(x, y) / 2 == XorBits(x / 2, y / 2);
    }
  }

  lemma {:induction false} XorZero(x: nat)
    ensures XorBits(x, 0) == x
  {
    if x == 0 {
    } else {
      XorZero(x / 2);
    }
  }

  /** The top bit of a bitwise result depends on the top bits of the operands only. */
  lemma {:induction false} TopBit(a: nat, b: nat, n: nat)
    requires a < 2 * Pow2(n) && b < 2 * Pow2(n)
    ensures And(a, b) >= Pow2(n) <==> a >= Pow2(n) && b >= Pow2(n)
    ensures XorBits(a, b) >= Pow2(n) <==> (a >= Pow2(n)) != (b >= Pow2(n))
  {
    if n == 0 {
    } else {
      TopBit(a / 2, b / 2, n - 1);
    }
  }

  lemma {:induction false} OrIsSum(a: nat, b: nat)
    ensures OrBits(a, b) == a + b - And(a, b)
    decreases a + b
  {
    if a == 0 && b == 0 {
    } else {
      OrIsSum(a / 2, b / 2);
    }
  }

  lemma {:induction false} OrCommutes(a: nat, b: nat)
    ensures OrBits(a, b) == OrBits(b, a)
    decreases a + b
  {
    if a == 0 && b == 0 {
    } else {
      OrCommutes(a / 2, b / 2);
    }
  }

  /** Oring together two words that share no bit adds them. */
  lemma OrDisjoint(hi: nat, lo: nat, k: nat, p: nat)
    requires p == Pow2(k) && lo < p
    ensures OrBits(lo, hi * p) == hi * p + lo == OrBits(hi * p, lo)
  {
    hide OrBits, And, Pow2, Halved, Doubled;
    OrIsSum(lo, hi * p);
    OrCommutes(lo, hi * p);
    AndShiftedMask(lo, hi, k);
    HalvedIsShift(lo, k);
    DivModUnique(lo, p, 0, lo);
    DoubledIsShift(hi, k);
    DoubledIsShift(0, k);
    assert And(0, hi) == 0;
  }

  /** The masks of the source made of the low bits are remainders. */
  lemma LowMasks(x: nat)
    ensures And(x, 1) == x % 2 && And(x, 3) == x % 4
    ensures And(x, 0x0F) == x % 0x10 && And(x, 0x1F) == x % 0x20 && And(x, 0x3F) == x % 0x40
    ensures And(x, 0xFF) == x % 0x100 && And(x, 0xFFF) == x % 0x1000 && And(x, 0xFFFF) == x % TWO_16
    ensures And(x, 0x3FF_FFFF) == x % 0x400_0000 && And(x, 0x1FFF_FFFF) == x % 0x2000_0000
  {
    Powers();
    AndLowMask(x, 1);
    AndLowMask(x, 2);
    AndLowMask(x, 4);
    AndLowMask(x, 5);
    AndLowMask(x, 6);
    AndLowMask(x, 8);
    AndLowMask(x, 12);
    AndLowMask(x, 16);
    AndLowMask(x, 26);
    AndLowMask(x, 29);
  }

  lemma ParityBit(x: nat)
    ensures And(x, 1) == x % 2
  {
  }

  /** A run of n mask bits starting at bit k selects the field between them. */
  lemma FieldMask(x: nat, n: nat, k: nat, mask: nat, p: nat, q: nat)
    requires p == Pow2(n) && q == Pow2(k) && mask == (p - 1) * q
    ensures And(x, mask) == x / q % p * q
  {
    hide And, Pow2, Halved, Doubled;
    AndShiftedMask(x, Pow2(n) - 1, k);
    HalvedIsShift(x, k);
    AndLowMask(Halved(x, k), n);
    DoubledIsShift(Pow2(n) - 1, k);
    DoubledIsShift(And(Halved(x, k), Pow2(n) - 1), k);
  }

  /** The masks of the source made of bits in the middle or at the top of a word. */
  lemma InterruptMask(x: u32)
    ensures And(x, 0xFF00) == x / 0x100 % 0x100 * 0x100
  {
    hide And, Pow2;
    Powers();
    FieldMask(x, 8, 8, 0xFF00, 0x100, 0x100);
  }

  lemma InterruptBit(x: u32)
    ensures And(x, 0x8000) == x / 0x8000 % 2 * 0x8000
  {
    hide And, Pow2;
    Powers();
    FieldMask(x, 1, 15, 0x8000, 2, 0x8000);
  }

  lemma IsolateBit(x: u32)
    ensures And(x, 0x1_0000) == x / TWO_16 % 2 * TWO_16
  {
    hide And, Pow2;
    Powers();
    FieldMask(x, 1, 16, 0x1_0000, 2, TWO_16);
  }

  lemma SegmentMask(x: u32)
    ensures And(x, 0xF000_0000) == x / 0x1000_0000 * 0x1000_0000
  {
    hide And, Pow2;
    Powers();
    FieldMask(x, 4, 28, 0xF000_0000, 0x10, 0x1000_0000);
  }

  lemma SignMask(x: u32)
    ensures And(x, 0x8000_0000) == x / 0x8000_0000 * 0x8000_0000
  {
    hide And, Pow2;
    Powers();
    FieldMask(x, 1, 31, 0x8000_0000, 2, 0x8000_0000);
  }

  /** Clearing low bits or the IP bit leaves the rest of the word. */
  lemma ClearMasks(x: u32)
    ensures And(x, Not(3)) == x - x % 4
    ensures And(x, Not(0x0F)) == x - x % 0x10
    ensures And(x, Not(0x3F)) == x - x % 0x40
    ensures And(x, Not(0x8000)) == x - x / 0x8000 % 2 * 0x8000
  {
    LowMasks(x);
    InterruptBit(x);
    AndNot(x, 3);
    AndNot(x, 0x0F);
    AndNot(x, 0x3F);
    AndNot(x, 0x8000);
  }

  /** The sign test of the overflow checks. */
  lemma SignOf(a: u32, b: u32)
    ensures And(Xor(a, b), 0x8000_0000) != 0 <==> (Signed(a) < 0) != (Signed(b) < 0)
  {
    hide And, XorBits, Pow2;
    Powers();
    TopBit(a, b, 31);
    SignMask(Xor(a, b));
  }

  lemma SignOfAnd(a: u32, b: u32)
    ensures And(And(a, b), 0x8000_0000) != 0 <==> Signed(a) < 0 && Signed(b) < 0
  {
    hide And, Pow2;
    Powers();
    TopBit(a, b, 31);
    SignMask(And(a, b));
  }

  /** The branch-free choice of get_next_pc: an all-zero or all-one mask picks one word. */
  lemma MaskedSelect(x: u32, y: u32)
    ensures Xor(x, And(Xor(x, y), 0)) == x
    ensures Xor(x, And(Xor(x, y), 0xFFFF_FFFF)) == y
  {
    hide And, XorBits, Pow2;
    XorZero(x);
    Powers();
    AndLowMask(Xor(x, y), 32);
    XorCancels(x, y);
  }
}
