/** Fixed-width machine words as bounded integers, and the conversions C applies to them. */
module Words {

  const TWO_16 := 0x1_0000
  const TWO_32 := 0x1_0000_0000
  const TWO_64 := 0x1_0000_0000_0000_0000

  type u8 = x: int | 0 <= x < 0x100
  type u16 = x: int | 0 <= x < TWO_16
  type u32 = x: int | 0 <= x < TWO_32

  /** Conversion of any integer to uint32_t: reduction modulo 2^32. */
  function Wrap(x: int): u32 {
    x % TWO_32
  }

  /** The value of a word read as int32_t (two's complement). */
  function Signed(x: u32): int {
    if x < 0x8000_0000 then x else x - TWO_32
  }

  /** The value of a halfword read as int16_t. */
  function Signed16(x: u16): int {
    if x < 0x8000 then x else x - TWO_16
  }

  /** The value of a byte read as int8_t. */
  function Signed8(x: u8): int {
    if x < 0x80 then x else x - 0x100
  }

  predicate InInt32(x: int) {
    -0x8000_0000 <= x < 0x8000_0000
  }

  function Magnitude(x: int): nat {
    if x < 0 then -x else x
  }

  /** Integer division of C99 and later: the quotient is truncated toward zero. */
  function TruncDiv(a: int, b: int): int
    requires b != 0
  {
    if a >= 0 then a / b else -((-a) / b)
  }

  function TruncMod(a: int, b: int): int
    requires b != 0
  {
    a - TruncDiv(a, b) * b
  }

  lemma Scales(n: int, d: int)
    requires n >= 1 && d > 0
    ensures n * d >= d
  {
    assert n * d == (n - 1) * d + d;
    assert (n - 1) * d >= 0;
  }

  /** Quotient and remainder are determined by the division identity. */
  lemma DivModUnique(x: int, d: int, q: int, r: int)
    requires d > 0 && x == q * d + r && 0 <= r < d
    ensures x / d == q && x % d == r
  {
    var q', r' := x / d, x % d;
    assert x == q' * d + r';
    assert (q - q') * d == r' - r;
    if q > q' {
      Scales(q - q', d);
    } else if q < q' {
      Scales(q' - q, d);
    }
  }

  /** Byte k of a word, byte 0 being the least significant. */
  function Byte(v: u32, k: nat): u8
    requires k < 4
  {
    if k == 0 then v % 0x100
    else if k == 1 then v / 0x100 % 0x100
    else if k == 2 then v / 0x1_0000 % 0x100
    else v / 0x100_0000
  }

  function FromBytes(b0: u8, b1: u8, b2: u8, b3: u8): u32 {
    b0 + 0x100 * b1 + 0x1_0000 * b2 + 0x100_0000 * b3
  }

  function Half(b0: u8, b1: u8): u16 {
    b0 + 0x100 * b1
  }

  lemma BytesRoundTrip(v: u32)
    ensures FromBytes(Byte(v, 0), Byte(v, 1), Byte(v, 2), Byte(v, 3)) == v
  {
    var h := v / 0x1_0000;
    assert h / 0x100 == v / 0x100_0000;
    assert v / 0x100 / 0x100 == h;
    assert v / 0x100 % 0x100 == v / 0x100 - 0x100 * h;
    assert h % 0x100 == h - 0x100 * (v / 0x100_0000);
  }

  // The halfwords of a word.

  function LowHalf(w: u32): u16 {
    w % TWO_16
  }

  function MiddleHalf(w: u32): u16 {
    w / 0x100 % TWO_16
  }

  function HighHalf(w: u32): u16 {
    w / TWO_16
  }

  // A word with its upper or lower bytes replaced.

  function SetHigh8(w: u32, b: u8): u32 {
    w % 0x100_0000 + b * 0x100_0000
  }

  function SetHigh16(w: u32, h: u16): u32 {
    w % TWO_16 + h * TWO_16
  }

  function SetHigh24(w: u32, h: u16, b: u8): u32 {
    w % 0x100 + h * 0x100 + b * 0x100_0000
  }

  function SetLow24(w: u32, b: u8, h: u16): u32 {
    w - w % 0x100_0000 + h * 0x100 + b
  }

  function SetLow16(w: u32, h: u16): u32 {
    w - w % TWO_16 + h
  }

  function SetLow8(w: u32, b: u8): u32 {
    w - w % 0x100 + b
  }

  /** Halfwords at even offsets of an aligned word are aligned. */
  lemma Lanes(base: u32)
    requires base % 4 == 0
    ensures base % 2 == 0 && (base + 2) % 2 == 0
  {
    var q := base / 4;
    DivModUnique(base, 2, 2 * q, 0);
    DivModUnique(base + 2, 2, 2 * q + 1, 0);
  }

  /** Every address is a lane of an aligned word. */
  lemma LaneSplit(a: u32)
    ensures (a - a % 4) % 4 == 0 && a - a % 4 + 3 < TWO_32
  {
  }

  lemma HalfBytes(w: u32)
    ensures LowHalf(w) % 0x100 == Byte(w, 0) && LowHalf(w) / 0x100 == Byte(w, 1)
    ensures MiddleHalf(w) % 0x100 == Byte(w, 1) && MiddleHalf(w) / 0x100 == Byte(w, 2)
    ensures HighHalf(w) % 0x100 == Byte(w, 2) && HighHalf(w) / 0x100 == Byte(w, 3)
  {
    BytesRoundTrip(w);
    var b0, b1, b2, b3 := Byte(w, 0), Byte(w, 1), Byte(w, 2), Byte(w, 3);
    hide Byte;
    assert w == FromBytes(b0, b1, b2, b3);
    DivModUnique(w, TWO_16, b2 + 0x100 * b3, b0 + 0x100 * b1);
    DivModUnique(w, 0x100, b1 + 0x100 * b2 + TWO_16 * b3, b0);
    DivModUnique(w / 0x100, TWO_16, b3, b1 + 0x100 * b2);
    DivModUnique(b0 + 0x100 * b1, 0x100, b1, b0);
    DivModUnique(b1 + 0x100 * b2, 0x100, b2, b1);
    DivModUnique(b2 + 0x100 * b3, 0x100, b3, b2);
  }
}
