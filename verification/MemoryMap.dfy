/** What a program can tell of the memory: which addresses have bytes behind them, and that a byte read is the
    last byte written to it. */
module MemoryMap {
  import opened Words
  import opened Memory

  /** The addresses, by their low 29 bits, of main memory, the expansion port, the scratchpad page and the BIOS. */
  predicate HasByte(addr: u32) {
    var p := addr % 0x2000_0000;
    p < 0x20_0000 || 0x1F00_0000 <= p < 0x1F80_1000 || 0x1FC0_0000 <= p < 0x1FC8_0000
  }

  predicate IsRom(addr: u32) {
    0x1FC0_0000 <= addr % 0x2000_0000 < 0x1FC8_0000
  }

  /** The addresses of one byte are those with the same low 29 bits; behind the first kilobyte of the scratchpad
      page its addresses run on into the BIOS. */
  predicate OneByte(a: u32, b: u32) {
    var p, q := a % 0x2000_0000, b % 0x2000_0000;
    p == q
    || (0x1F80_0400 <= p < 0x1F80_1000 && q == p - 0x1F80_0400 + 0x1FC0_0000)
    || (0x1F80_0400 <= q < 0x1F80_1000 && p == q - 0x1F80_0400 + 0x1FC0_0000)
  }

  /** An access with a byte behind its address does not reach the devices; any other reaches only them. */
  lemma ByteOrDevice<D>(io: Io<D>, s: Sys<D>, addr: u32, value: u8)
    ensures if HasByte(addr) then Read8(io, s, addr).1 == s
            else Read8(io, s, addr) == (io.read8(s.dev, addr).0, s.(dev := io.read8(s.dev, addr).1))
    ensures if HasByte(addr) && !IsRom(addr) then Write8(io, s, addr, value).dev == s.dev
            else Write8(io, s, addr, value) == s.(dev := io.write8(s.dev, addr, value))
  {
  }

  /** The same for halfwords and words. */
  lemma HalfOrDevice<D>(io: Io<D>, s: Sys<D>, addr: u32, value: u16)
    requires addr % 2 == 0
    ensures if HasByte(addr) then AlignedRead16(io, s, addr).1 == s
            else AlignedRead16(io, s, addr) == (io.read16(s.dev, addr).0, s.(dev := io.read16(s.dev, addr).1))
    ensures if HasByte(addr) && !IsRom(addr) then AlignedWrite16(io, s, addr, value).dev == s.dev
            else AlignedWrite16(io, s, addr, value) == s.(dev := io.write16(s.dev, addr, value))
  {
  }

  lemma WordOrDevice<D>(io: Io<D>, s: Sys<D>, addr: u32, value: u32)
    requires addr % 4 == 0
    ensures if HasByte(addr) then AlignedRead32(io, s, addr).1 == s
            else AlignedRead32(io, s, addr) == (io.read32(s.dev, addr).0, s.(dev := io.read32(s.dev, addr).1))
    ensures if HasByte(addr) && !IsRom(addr) then AlignedWrite32(io, s, addr, value).dev == s.dev
            else AlignedWrite32(io, s, addr, value) == s.(dev := io.write32(s.dev, addr, value))
  {
  }

  /** A byte read is the one just written if the addresses are those of one byte, and is as before if not. */
  lemma ByteReadsBack<D>(io: Io<D>, s: Sys<D>, a: u32, b: u32, value: u8)
    requires HasByte(a) && !IsRom(a) && HasByte(b)
    ensures Read8(io, Write8(io, s, a, value), b).0 == if OneByte(a, b) then value else Read8(io, s, b).0
  {
    SameByte(a, b);
  }

  /** So is a word. */
  lemma WordReadsBack<D>(io: Io<D>, s: Sys<D>, a: u32, value: u32)
    requires a % 4 == 0 && HasByte(a) && !IsRom(a)
    ensures AlignedRead32(io, AlignedWrite32(io, s, a, value), a).0 == value
  {
    hide Byte, FromBytes;
    BytesRoundTrip(value);
    StaysInStore(a, 4);
  }

  /** And a halfword. */
  lemma HalfReadsBack<D>(io: Io<D>, s: Sys<D>, a: u32, value: u16)
    requires a % 2 == 0 && HasByte(a) && !IsRom(a)
    ensures AlignedRead16(io, AlignedWrite16(io, s, a, value), a).0 == value
  {
    StaysInStore(a, 2);
  }
}
