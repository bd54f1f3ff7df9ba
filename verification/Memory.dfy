/** The address map of the memory bus as plain range comparison, and the bus accesses it defines. */
module Memory {
  import opened Words

  const PAGE_SIZE := 0x1000
  const PAGE_COUNT := 0x2_0000

  const RAM_SIZE := 0x20_0000
  const EXP1_SIZE := 0x80_0000
  const SCRATCHPAD_SIZE := 0x400
  const BIOS_SIZE := 0x8_0000

  const RAM_START := 0x0000_0000
  const RAM_END := 0x001F_FFFF
  const EXP1_START := 0x1F00_0000
  const EXP1_END := 0x1F7F_FFFF
  const SCRATCHPAD_START := 0x1F80_0000
  const SCRATCHPAD_END := 0x1F80_0FFF
  const BIOS_START := 0x1FC0_0000
  const BIOS_END := 0x1FC7_FFFF

  // The four buffers of struct Bus, laid out one after the other in one store.
  const RAM_BASE := 0
  const EXP1_BASE := RAM_BASE + RAM_SIZE
  const SCRATCHPAD_BASE := EXP1_BASE + EXP1_SIZE
  const BIOS_BASE := SCRATCHPAD_BASE + SCRATCHPAD_SIZE
  const STORE_SIZE := BIOS_BASE + BIOS_SIZE

  type Store = s: seq<u8> | |s| == STORE_SIZE witness seq(STORE_SIZE, _ => 0)

  /** What a device answers to each kind of port access: any deterministic function of its state. */
  datatype Io<!D> = Io(
    read8: (D, u32) -> (u8, D),
    read16: (D, u32) -> (u16, D),
    read32: (D, u32) -> (u32, D),
    write8: (D, u32, u8) -> D,
    write16: (D, u32, u16) -> D,
    write32: (D, u32, u32) -> D)

  /** Everything behind the bus: the memory buffers and the devices. */
  datatype Sys<D> = Sys(mem: Store, dev: D)

  datatype Location = Unmapped | At(index: nat)

  function PhysicalAddress(addr: u32): u32 {
    addr % 0x2000_0000
  }

  /** The byte of the store that a physical address designates for reading. */
  function ReadLocation(addr: u32): (l: Location)
    ensures l.At? ==> l.index < STORE_SIZE
  {
    var p := PhysicalAddress(addr);
    if RAM_START <= p <= RAM_END then At(RAM_BASE + p - RAM_START)
    else if EXP1_START <= p <= EXP1_END then At(EXP1_BASE + p - EXP1_START)
    else if SCRATCHPAD_START <= p <= SCRATCHPAD_END then At(SCRATCHPAD_BASE + p - SCRATCHPAD_START)
    else if BIOS_START <= p <= BIOS_END then At(BIOS_BASE + p - BIOS_START)
    else Unmapped
  }

  predicate InBios(addr: u32) {
    BIOS_START <= PhysicalAddress(addr) <= BIOS_END
  }

  function WriteLocation(addr: u32): (l: Location)
    ensures l.At? ==> l.index < STORE_SIZE
  {
    if InBios(addr) then Unmapped else ReadLocation(addr)
  }

  /** The scratchpad page is 4096 bytes long but only its first 1024 bytes have a buffer. */
  predicate PastScratchpad(addr: u32) {
    SCRATCHPAD_START + SCRATCHPAD_SIZE <= PhysicalAddress(addr) <= SCRATCHPAD_END
  }

  /** Consecutive bytes of an aligned access lie at consecutive places of the store. */
  lemma AlignedRun(addr: u32, k: nat)
    requires (addr % 4 == 0 && k < 4) || (addr % 2 == 0 && k < 2)
    ensures addr + k < TWO_32
    ensures ReadLocation(addr).At? ==> ReadLocation(addr + k) == At(ReadLocation(addr).index + k)
    ensures ReadLocation(addr).Unmapped? ==> ReadLocation(addr + k).Unmapped?
    ensures InBios(addr) == InBios(addr + k)
  {
    SameSegment(addr, if addr % 4 == 0 then 4 else 2, k);
    hide PhysicalAddress;
  }

  /** So an aligned access never crosses the end of a page. */
  lemma AlignedStaysInPage(addr: u32, unit: nat, k: nat)
    requires unit == 4 || unit == 2
    requires addr % unit == 0 && k < unit
    ensures addr + k < TWO_32
    ensures PhysicalAddress(addr + k) / PAGE_SIZE == PhysicalAddress(addr) / PAGE_SIZE
  {
    SameSegment(addr, unit, k);
    hide PhysicalAddress;
    var p := PhysicalAddress(addr);
    var page, offset, c, units := p / PAGE_SIZE, p % PAGE_SIZE, p / unit, PAGE_SIZE / unit;
    assert p == c * unit && PAGE_SIZE == units * unit;
    assert offset == (c - page * units) * unit + 0;
    DivModUnique(offset, unit, c - page * units, 0);
    DivModUnique(p + k, PAGE_SIZE, page, offset + k);
  }

  /** The bytes of an aligned unit lie in one segment of the address space. */
  lemma SameSegment(addr: u32, unit: nat, k: nat)
    requires unit == 4 || unit == 2
    requires addr % unit == 0 && k < unit
    ensures addr + k < TWO_32 && PhysicalAddress(addr + k) == PhysicalAddress(addr) + k
    ensures PhysicalAddress(addr) % unit == 0
  {
    var segment, p, c := addr / 0x2000_0000, addr % 0x2000_0000, addr / unit;
    var units := 0x2000_0000 / unit;
    assert addr == c * unit && 0x2000_0000 == units * unit;
    assert p == (c - segment * units) * unit + 0;
    DivModUnique(p, unit, c - segment * units, 0);
    DivModUnique(addr + k, 0x2000_0000, segment, p + k);
  }

  function Read8<D>(io: Io<D>, s: Sys<D>, addr: u32): (u8, Sys<D>) {
    match ReadLocation(addr)
    case Unmapped => var (v, d) := io.read8(s.dev, addr); (v, s.(dev := d))
    case At(i) => (s.mem[i], s)
  }

  /** An access of n bytes at addr is aligned, or at least does not run past the last buffer. An unaligned
      access that runs past its region goes on in the buffer behind it. */
  predicate InStore(addr: u32, n: nat) {
    (n > 0 && addr % n == 0) || (ReadLocation(addr).At? ==> ReadLocation(addr).index + n <= STORE_SIZE)
  }

  lemma StaysInStore(addr: u32, n: nat)
    requires (n == 2 || n == 4) && InStore(addr, n)
    ensures ReadLocation(addr).At? ==> ReadLocation(addr).index + n <= STORE_SIZE
  {
    if addr % n == 0 {
      AlignedRun(addr, n - 1);
    }
  }

  function Read16<D>(io: Io<D>, s: Sys<D>, addr: u32): (u16, Sys<D>)
    requires InStore(addr, 2)
  {
    StaysInStore(addr, 2);
    match ReadLocation(addr)
    case Unmapped => var (v, d) := io.read16(s.dev, addr); (v, s.(dev := d))
    case At(i) => (Half(s.mem[i], s.mem[i + 1]), s)
  }

  function Read32<D>(io: Io<D>, s: Sys<D>, addr: u32): (u32, Sys<D>)
    requires InStore(addr, 4)
  {
    StaysInStore(addr, 4);
    match ReadLocation(addr)
    case Unmapped => var (v, d) := io.read32(s.dev, addr); (v, s.(dev := d))
    case At(i) => (FromBytes(s.mem[i], s.mem[i + 1], s.mem[i + 2], s.mem[i + 3]), s)
  }

  function Write8<D>(io: Io<D>, s: Sys<D>, addr: u32, v: u8): Sys<D> {
    match WriteLocation(addr)
    case Unmapped => s.(dev := io.write8(s.dev, addr, v))
    case At(i) => s.(mem := s.mem[i := v])
  }

  function Write16<D>(io: Io<D>, s: Sys<D>, addr: u32, v: u16): Sys<D>
    requires InStore(addr, 2)
  {
    StaysInStore(addr, 2);
    match WriteLocation(addr)
    case Unmapped => s.(dev := io.write16(s.dev, addr, v))
    case At(i) => s.(mem := s.mem[i := v % 0x100][i + 1 := v / 0x100])
  }

  function Write32<D>(io: Io<D>, s: Sys<D>, addr: u32, v: u32): Sys<D>
    requires InStore(addr, 4)
  {
    StaysInStore(addr, 4);
    match WriteLocation(addr)
    case Unmapped => s.(dev := io.write32(s.dev, addr, v))
    case At(i) =>
      s.(mem := s.mem[i := Byte(v, 0)][i + 1 := Byte(v, 1)][i + 2 := Byte(v, 2)][i + 3 := Byte(v, 3)])
  }

  // The accesses that instructions make are aligned.

  function AlignedRead16<D>(io: Io<D>, s: Sys<D>, addr: u32): (u16, Sys<D>)
    requires addr % 2 == 0
  {
    Read16(io, s, addr)
  }

  function AlignedRead32<D>(io: Io<D>, s: Sys<D>, addr: u32): (u32, Sys<D>)
    requires addr % 4 == 0
  {
    Read32(io, s, addr)
  }

  function AlignedWrite16<D>(io: Io<D>, s: Sys<D>, addr: u32, v: u16): Sys<D>
    requires addr % 2 == 0
  {
    Write16(io, s, addr, v)
  }

  function AlignedWrite32<D>(io: Io<D>, s: Sys<D>, addr: u32, v: u32): Sys<D>
    requires addr % 4 == 0
  {
    Write32(io, s, addr, v)
  }

  /** A wide access to memory is the little-endian sequence of its byte accesses. */
  lemma AccessCoherence<D>(io: Io<D>, s: Sys<D>, addr: u32, v: u32)
    requires addr % 4 == 0
    ensures addr + 3 < TWO_32
    ensures ReadLocation(addr).At? ==>
              Read32(io, s, addr) == (FromBytes(Read8(io, s, addr).0, Read8(io, s, addr + 1).0,
                                                Read8(io, s, addr + 2).0, Read8(io, s, addr + 3).0), s)
    ensures WriteLocation(addr).At? ==>
              Write32(io, s, addr, v) ==
              Write8(io, Write8(io, Write8(io, Write8(io, s, addr, Byte(v, 0)),
                addr + 1, Byte(v, 1)), addr + 2, Byte(v, 2)), addr + 3, Byte(v, 3))
  {
    AlignedRun(addr, 1);
    AlignedRun(addr, 2);
    AlignedRun(addr, 3);
  }

  lemma HalfwordCoherence<D>(io: Io<D>, s: Sys<D>, addr: u32, v: u16)
    requires addr % 2 == 0
    ensures addr + 1 < TWO_32
    ensures ReadLocation(addr).At? ==>
              Read16(io, s, addr) == (Half(Read8(io, s, addr).0, Read8(io, s, addr + 1).0), s)
    ensures WriteLocation(addr).At? ==>
              Write16(io, s, addr, v) == Write8(io, Write8(io, s, addr, v % 0x100), addr + 1, v / 0x100)
  {
    AlignedRun(addr, 1);
  }

  /** The address a lies past the scratchpad buffer, just where the BIOS address b lies behind it. */
  predicate Overruns(a: u32, b: u32) {
    PastScratchpad(a) && InBios(b)
    && PhysicalAddress(a) - (SCRATCHPAD_START + SCRATCHPAD_SIZE) == PhysicalAddress(b) - BIOS_START
  }

  /** Two mapped addresses designate the same byte exactly when their low 29 bits agree, or one of them
      runs over the scratchpad buffer into the BIOS byte the other addresses. */
  lemma SameByte(a: u32, b: u32)
    requires ReadLocation(a).At? && ReadLocation(b).At?
    ensures ReadLocation(a) == ReadLocation(b) <==>
            PhysicalAddress(a) == PhysicalAddress(b) || Overruns(a, b) || Overruns(b, a)
  {
    hide PhysicalAddress;
  }

  /** Stores reach the BIOS buffer exactly through the part of the scratchpad page that has no buffer. */
  lemma BiosWritable(addr: u32)
    ensures WriteLocation(addr).At? && WriteLocation(addr).index >= BIOS_BASE <==> PastScratchpad(addr)
  {
  }
}
