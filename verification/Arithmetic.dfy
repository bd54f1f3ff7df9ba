/** Multiplication and division give the exact mathematical results wherever those fit. */
module Arithmetic {
  import opened Words
  import opened Bits
  import opened Isa

  /** The pair (hi, lo) read as one 64-bit two's complement number. */
  function Signed64(hi: u32, lo: u32): int {
    Signed(hi) * TWO_32 + lo
  }

  lemma ProductBound(a: int, b: int)
    requires InInt32(a) && InInt32(b)
    ensures -0x4000_0000_0000_0000 <= a * b <= 0x4000_0000_0000_0000
  {
    MagnitudeBound(Magnitude(a), Magnitude(b));
    if a < 0 {
      assert a * b == -(Magnitude(a) * b);
    }
    if b < 0 {
      assert Magnitude(a) * b == -(Magnitude(a) * Magnitude(b));
    }
  }

  lemma MagnitudeBound(a: nat, b: nat)
    requires a <= 0x8000_0000 && b <= 0x8000_0000
    ensures 0 <= a * b <= 0x4000_0000_0000_0000
  {
    assert a * b <= a * 0x8000_0000 by {
      MulMonotone(a, b, 0x8000_0000);
    }
  }

  lemma MulMonotone(a: nat, b: nat, c: nat)
    requires b <= c
    ensures a * b <= a * c
  {
    assert a * c == a * b + a * (c - b);
  }

  /** MULT: hi and lo hold the exact signed product. */
  lemma SignedProduct(rs: u32, rt: u32)
    ensures var (hi, lo) := Product(Signed(rs) * Signed(rt));
            Signed64(hi, lo) == Signed(rs) * Signed(rt)
  {
    ProductBound(Signed(rs), Signed(rt));
    SplitSigned(Signed(rs) * Signed(rt));
  }

  lemma SplitSigned(p: int)
    requires -0x4000_0000_0000_0000 <= p <= 0x4000_0000_0000_0000
    ensures Signed64(Product(p).0, Product(p).1) == p
  {
    assert p % TWO_64 == if p >= 0 then p else p + TWO_64;
  }

  /** MULTU: hi and lo hold the exact unsigned product. */
  lemma UnsignedProduct(rs: u32, rt: u32)
    ensures var (hi, lo) := Product(rs * rt);
            hi * TWO_32 + lo == rs * rt
  {
    MulMonotone(rs, rt, 0xFFFF_FFFF);
    assert 0 <= rs * rt < TWO_64;
  }

  /** What C's division promises: the quotient truncates and the remainder follows the dividend. */
  ghost predicate IsDivision(a: int, b: int, q: int, r: int) {
    a == q * b + r && Magnitude(r) < Magnitude(b) && (r > 0 ==> a > 0) && (r < 0 ==> a < 0)
  }

  lemma TruncatedDivision(a: int, b: int)
    requires b != 0
    ensures IsDivision(a, b, TruncDiv(a, b), TruncMod(a, b))
    ensures Magnitude(TruncDiv(a, b)) <= Magnitude(a)
    ensures Magnitude(TruncDiv(a, b)) == Magnitude(a) && a != 0 ==> b == 1 || b == -1
  {
    var n := Magnitude(a);
    var q, r := n / b, n % b;
    assert n == q * b + r;
    if a >= 0 {
      assert TruncMod(a, b) == r;
    } else {
      assert (-q) * b == -(q * b);
      assert TruncMod(a, b) == -r;
    }
    QuotientBound(n, b);
  }

  lemma QuotientBound(n: nat, b: int)
    requires b != 0
    ensures Magnitude(n / b) <= n
    ensures Magnitude(n / b) == n && n != 0 ==> b == 1 || b == -1
  {
    var d: nat := Magnitude(b);
    PositiveQuotient(n, d);
    if b < 0 {
      NegativeDivisor(n, d);
    }
  }

  lemma PositiveQuotient(n: nat, d: nat)
    requires d > 0
    ensures 0 <= n / d <= n
    ensures n / d == n && n != 0 ==> d == 1
  {
    DivBound(n, d);
    var q := n / d;
    assert n == q * d + n % d;
    if d >= 2 {
      MulMonotone(q, 2, d);
    }
  }

  lemma NegativeDivisor(n: int, d: int)
    requires n >= 0 && d > 0
    ensures n / (-d) == -(n / d)
  {
    var q, r := n / (-d), n % (-d);
    assert n == q * (-d) + r;
    assert q * (-d) == (-q) * d && 0 <= r < d;
    DivModUnique(n, d, -q, r);
  }

  /** DIV by a non-zero divisor meets the specification of C division exactly when the operands are
      not INT32_MIN and -1; even then the identity holds modulo 2^32. */
  lemma SignedDivision(rs: u32, rt: u32)
    requires rt != 0
    ensures var (hi, lo) := SignedQuotient(rs, rt);
            && (IsDivision(Signed(rs), Signed(rt), Signed(lo), Signed(hi)) <==>
                !(rs == 0x8000_0000 && rt == 0xFFFF_FFFF))
            && Wrap(Signed(lo) * Signed(rt) + Signed(hi)) == rs
  {
    if rs == 0x8000_0000 && rt == 0xFFFF_FFFF {
      assert SignedQuotient(rs, rt) == (0, 0x8000_0000);
    } else {
      var a, b := Signed(rs), Signed(rt);
      TruncatedDivision(a, b);
      FitsWord(TruncDiv(a, b));
      FitsWord(TruncMod(a, b));
      SameWord(rs);
      hide TruncDiv, TruncMod, Wrap, Signed;
    }
  }

  lemma FitsWord(x: int)
    requires InInt32(x)
    ensures Signed(Wrap(x)) == x
  {
  }

  lemma SameWord(w: u32)
    ensures Wrap(Signed(w)) == w
  {
  }

  /** DIVU by a non-zero divisor. */
  lemma UnsignedDivision(rs: u32, rt: u32)
    requires rt != 0
    ensures var (hi, lo) := UnsignedQuotient(rs, rt);
            rs == lo * rt + hi && hi < rt
  {
  }
}
