/** The binary digits of a number, and what the bitwise operators do to each of them. */
module Digits {
  import opened Words
  import opened Bits

  /** Binary digit k of x, digit 0 being the least significant. */
  function Bit(x: nat, k: nat): (b: nat)
    ensures b < 2
  {
    if k == 0 then x % 2 else Bit(x / 2, k - 1)
  }

  lemma {:induction false} BitIsShift(x: nat, k: nat)
    ensures Bit(x, k) == x / Pow2(k) % 2
  {
    if k == 0 {
    } else {
      BitIsShift(x / 2, k - 1);
      DivHalf(x, Pow2(k - 1));
    }
  }

  lemma {:induction false} BitOfZero(k: nat)
    ensures Bit(0, k) == 0
  {
    if k == 0 {
    } else {
      BitOfZero(k - 1);
    }
  }

  lemma {:induction false} AndBit(a: nat, b: nat, k: nat)
    ensures Bit(And(a, b), k) == (if Bit(a, k) == 1 && Bit(b, k) == 1 then 1 else 0)
  {
    hide And;
    AndUnfold(a, b);
    if k == 0 {
    } else {
      AndBit(a / 2, b / 2, k - 1);
    }
  }

  lemma OrUnfold(a: nat, b: nat)
    ensures OrBits(a, b) == 2 * OrBits(a / 2, b / 2) + (if a % 2 == 1 || b % 2 == 1 then 1 else 0)
  {
  }

  lemma {:induction false} OrBit(a: nat, b: nat, k: nat)
    ensures Bit(OrBits(a, b), k) == (if Bit(a, k) == 1 || Bit(b, k) == 1 then 1 else 0)
  {
    hide OrBits;
    OrUnfold(a, b);
    if k == 0 {
    } else {
      OrBit(a / 2, b / 2, k - 1);
    }
  }

  lemma XorUnfold(a: nat, b: nat)
    ensures XorBits(a, b) == 2 * XorBits(a / 2, b / 2) + (if a % 2 != b % 2 then 1 else 0)
  {
  }

  lemma {:induction false} XorBit(a: nat, b: nat, k: nat)
    ensures Bit(XorBits(a, b), k) == (if Bit(a, k) != Bit(b, k) then 1 else 0)
  {
    hide XorBits;
    XorUnfold(a, b);
    if k == 0 {
    } else {
      XorBit(a / 2, b / 2, k - 1);
    }
  }

  lemma {:induction false} ComplementBit(x: nat, n: nat, k: nat)
    requires x < Pow2(n) && k < n
    ensures Bit(Pow2(n) - 1 - x, k) == 1 - Bit(x, k)
  {
    var p := Pow2(n - 1);
    assert (2 * p - 1 - x) / 2 == p - 1 - x / 2 && (2 * p - 1 - x) % 2 == 1 - x % 2;
    if k == 0 {
    } else {
      ComplementBit(x / 2, n - 1, k - 1);
    }
  }

  lemma NotBit(x: u32, k: nat)
    requires k < 32
    ensures Bit(Not(x), k) == 1 - Bit(x, k)
  {
    Powers();
    ComplementBit(x, 32, k);
  }

  /** Some of the first n digits of x is a one. */
  ghost predicate HasDigit(x: nat, n: nat) {
    exists k :: 0 <= k < n && Bit(x, k) == 1
  }

  lemma Witnessed(x: nat, n: nat, k: nat)
    requires k < n && Bit(x, k) == 1
    ensures HasDigit(x, n)
  {
  }

  /** A number below 2^n is zero exactly when its first n digits are. */
  lemma {:induction false} SomeDigit(x: nat, n: nat)
    requires x < Pow2(n)
    ensures x != 0 <==> HasDigit(x, n)
  {
    if n == 0 {
    } else {
      SomeDigit(x / 2, n - 1);
      if x == 0 {
        forall k | 0 <= k < n ensures Bit(x, k) == 0 {
          BitOfZero(k);
        }
      } else if x % 2 == 1 {
        Witnessed(x, n, 0);
      } else {
        var k :| 0 <= k < n - 1 && Bit(x / 2, k) == 1;
        Witnessed(x, n, k + 1);
      }
    }
  }

  /** The digits of a number written as an upper part and n lower digits. */
  lemma {:induction false} UpperAndLower(h: nat, l: nat, n: nat, k: nat)
    requires l < Pow2(n)
    ensures Bit(h * Pow2(n) + l, k) == if k < n then Bit(l, k) else Bit(h, k - n)
  {
    var x := h * Pow2(n) + l;
    if n == 0 {
    } else {
      var p := Pow2(n - 1);
      assert h * (2 * p) == 2 * (h * p);
      DivModUnique(x, 2, h * p + l / 2, l % 2);
      if k > 0 {
        UpperAndLower(h, l / 2, n - 1, k - 1);
      }
    }
  }

  lemma Divides(x: nat, p: nat)
    requires p > 0
    ensures x == x / p * p + x % p && 0 <= x % p < p && x / p >= 0
  {
  }

  /** The digits of a remainder and of a multiple. */
  lemma RemainderDigit(x: nat, n: nat, k: nat, p: nat)
    requires p == Pow2(n)
    ensures Bit(x % p, k) == if k < n then Bit(x, k) else 0
  {
    hide Bit, Pow2;
    Divides(x, p);
    UpperAndLower(x / p, x % p, n, k);
    UpperAndLower(0, x % p, n, k);
    if k >= n {
      BitOfZero(k - n);
    }
  }

  lemma MultipleDigit(x: nat, n: nat, k: nat)
    ensures Bit(x * Pow2(n), k) == if k < n then 0 else Bit(x, k - n)
  {
    hide Bit, Pow2;
    UpperAndLower(x, 0, n, k);
    BitOfZero(k);
  }

  /** The powers of two behind the fields of the GPU status. */
  lemma MorePowers()
    ensures Pow2(7) == 0x80 && Pow2(14) == 0x4000 && Pow2(17) == 0x2_0000 && Pow2(19) == 0x8_0000
    ensures Pow2(20) == 0x10_0000 && Pow2(22) == 0x40_0000 && Pow2(23) == 0x80_0000
  {
    Powers();
  }

  /** The digits of the n-digit field of upper * 2^n + field above the lower part of x, moved to another place. */
  lemma PartDigit(upper: nat, field: nat, lower: nat, from: nat, n: nat, to: nat, k: nat)
    requires field < Pow2(n) && lower < Pow2(from)
    ensures var x := (upper * Pow2(n) + field) * Pow2(from) + lower;
            Bit(field * Pow2(to), k) == if to <= k < to + n then Bit(x, from + (k - to)) else 0
  {
    hide Bit, Pow2;
    MultipleDigit(field, to, k);
    if k >= to {
      UpperAndLower(upper, field, n, k - to);
      UpperAndLower(0, field, n, k - to);
      UpperAndLower(upper * Pow2(n) + field, lower, from, from + (k - to));
      if k >= to + n {
        BitOfZero(k - to - n);
      }
    }
  }

  /** The same by division; p, q and r are the powers of two. */
  lemma FieldDigit(x: nat, from: nat, n: nat, to: nat, k: nat, p: nat, q: nat, r: nat)
    requires p == Pow2(from) && q == Pow2(n) && r == Pow2(to)
    ensures Bit(x / p % q * r, k) == if to <= k < to + n then Bit(x, from + (k - to)) else 0
  {
    hide Bit, Pow2;
    Divides(x, p);
    Divides(x / p, q);
    PartDigit(x / p / q, x / p % q, x % p, from, n, to, k);
  }

  lemma {:induction false} OnesDigit(n: nat, k: nat)
    ensures Bit(Pow2(n) - 1, k) == if k < n then 1 else 0
  {
    if n == 0 {
      BitOfZero(k);
    } else {
      var p := Pow2(n - 1);
      DivModUnique(2 * p - 1, 2, p - 1, 1);
      if k > 0 {
        OnesDigit(n - 1, k - 1);
      }
    }
  }

  /** The digits of a mask of n ones at place from. */
  lemma MaskDigit(n: nat, from: nat, k: nat, q: nat, p: nat)
    requires q == Pow2(n) && p == Pow2(from)
    ensures Bit((q - 1) * p, k) == if from <= k < from + n then 1 else 0
  {
    hide Bit, Pow2;
    MultipleDigit(q - 1, from, k);
    if k >= from {
      OnesDigit(n, k - from);
    }
  }

  /** Clearing the digits of a mask. */
  lemma ClearedDigit(x: u32, mask: u32, k: nat)
    requires k < 32
    ensures Bit(And(x, Not(mask)), k) == if Bit(mask, k) == 1 then 0 else Bit(x, k)
  {
    hide Bit, And, Not;
    NotBit(mask, k);
    AndBit(x, Not(mask), k);
  }
}
