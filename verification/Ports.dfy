/** The GPU behind the bus: port decoding, the control port, and which accesses and instructions miss it. */
module Ports {
  import opened Words
  import opened Bits
  import opened Memory
  import opened Cop0
  import opened Isa
  import GP = GpuPort

  /** A GPU whose command buffer never holds a whole command between accesses. */
  type Gpu = g: GP.Gpu | GP.FifoOk(g) ghost witness IdleGpu()

  function IdleTransfer(): GP.Transfer {
    GP.Transfer(false, 0, 0, 0, 0, 0, 0, 0, 0)
  }

  function IdleGpu(): GP.Gpu {
    GP.Gpu(seq(GP.VRAM_SIZE, _ => 0), 0, 0, seq(GP.FIFO_SIZE, _ => 0), 0, 0, IdleTransfer(), IdleTransfer(), 0,
           GP.RenderAttributes(0, 0, 0, 0, 0, 0))
  }

  /** The GPU and, behind the same bus, any other devices. */
  datatype Devices<E> = Devices(gpu: Gpu, rest: E)

  const GP0_PORT := 0x1F80_1810
  const GP1_PORT := 0x1F80_1814
  const GPU_END := 0x1F80_181F
  const MEMCTRL_3 := 0xFFFE_0000

  /** The address range that the I/O dispatch sends to the GPU. */
  predicate InGpu(addr: u32) {
    addr < MEMCTRL_3 && GP0_PORT <= PhysicalAddress(addr) <= GPU_END
  }

  // ----- register access of every width -----

  /** reg32_read8, reg32_read16, reg32_write8 and reg32_write16 of common.h on a port register. */
  function ByteOfPort(value: u32, addr: u32): u8 {
    Byte(value, addr % 4)
  }

  function HalfOfPort(value: u32, addr: u32): u16 {
    if addr / 2 % 2 == 0 then LowHalf(value) else HighHalf(value)
  }

  function ByteToPort(addr: u32, value: u8): u32 {
    if addr % 4 == 0 then value
    else if addr % 4 == 1 then value * 0x100
    else if addr % 4 == 2 then value * TWO_16
    else value * 0x100_0000
  }

  function HalfToPort(addr: u32, value: u16): u32 {
    if addr / 2 % 2 == 0 then value else value * TWO_16
  }

  function PortRead(g: Gpu, base: u32): (u32, Gpu) {
    if base == GP0_PORT then
      ReadKeepsFifo(g);
      GP.Gp0Read(g)
    else (g.stat, g)
  }

  lemma ReadKeepsFifo(g: Gpu)
    ensures GP.FifoOk(GP.Gp0Read(g).1)
  {
  }

  function PortWrite(g: Gpu, base: u32, value: u32): Gpu {
    if base == GP0_PORT then GP.Gp0Write(g, value) else GP.Gp1Write(g, value)
  }

  /** The 32-bit port register that contains a physical address. */
  predicate IsPort(p: u32) {
    GP0_PORT <= p < GP1_PORT + 4
  }

  function PortBase(p: u32): u32 {
    p - p % 4
  }

  // ----- the devices as the bus sees them -----

  // io_read and io_write: the GPU range goes to the GPU, every other address to the other devices.

  function IoRead8<E>(other: Io<E>, d: Devices<E>, addr: u32): (u8, Devices<E>) {
    var p := PhysicalAddress(addr);
    if !InGpu(addr) then var (v, e) := other.read8(d.rest, addr); (v, d.(rest := e))
    else if !IsPort(p) then (0, d)
    else var (v, g) := PortRead(d.gpu, PortBase(p)); (ByteOfPort(v, p), d.(gpu := g))
  }

  function IoRead16<E>(other: Io<E>, d: Devices<E>, addr: u32): (u16, Devices<E>) {
    var p := PhysicalAddress(addr);
    if !InGpu(addr) then var (v, e) := other.read16(d.rest, addr); (v, d.(rest := e))
    else if !IsPort(p) || p % 2 != 0 then (0, d)
    else var (v, g) := PortRead(d.gpu, PortBase(p)); (HalfOfPort(v, p), d.(gpu := g))
  }

  function IoRead32<E>(other: Io<E>, d: Devices<E>, addr: u32): (u32, Devices<E>) {
    var p := PhysicalAddress(addr);
    if !InGpu(addr) then var (v, e) := other.read32(d.rest, addr); (v, d.(rest := e))
    else if !IsPort(p) || p % 4 != 0 then (0, d)
    else var (v, g) := PortRead(d.gpu, p); (v, d.(gpu := g))
  }

  function IoWrite8<E>(other: Io<E>, d: Devices<E>, addr: u32, value: u8): Devices<E> {
    var p := PhysicalAddress(addr);
    if !InGpu(addr) then d.(rest := other.write8(d.rest, addr, value))
    else if !IsPort(p) then d
    else d.(gpu := PortWrite(d.gpu, PortBase(p), ByteToPort(p, value)))
  }

  function IoWrite16<E>(other: Io<E>, d: Devices<E>, addr: u32, value: u16): Devices<E> {
    var p := PhysicalAddress(addr);
    if !InGpu(addr) then d.(rest := other.write16(d.rest, addr, value))
    else if !IsPort(p) || p % 2 != 0 then d
    else d.(gpu := PortWrite(d.gpu, PortBase(p), HalfToPort(p, value)))
  }

  function IoWrite32<E>(other: Io<E>, d: Devices<E>, addr: u32, value: u32): Devices<E> {
    var p := PhysicalAddress(addr);
    if !InGpu(addr) then d.(rest := other.write32(d.rest, addr, value))
    else if !IsPort(p) || p % 4 != 0 then d
    else d.(gpu := PortWrite(d.gpu, p, value))
  }

  function PortIo<E>(other: Io<E>): Io<Devices<E>> {
    Io((d: Devices<E>, addr: u32) => IoRead8(other, d, addr),
       (d: Devices<E>, addr: u32) => IoRead16(other, d, addr),
       (d: Devices<E>, addr: u32) => IoRead32(other, d, addr),
       (d: Devices<E>, addr: u32, value: u8) => IoWrite8(other, d, addr, value),
       (d: Devices<E>, addr: u32, value: u16) => IoWrite16(other, d, addr, value),
       (d: Devices<E>, addr: u32, value: u32) => IoWrite32(other, d, addr, value))
  }

  // ----- accesses that miss the GPU -----

  lemma GpuWord(base: u32, k: nat)
    requires base % 4 == 0 && k < 4
    ensures base + 3 < TWO_32
    ensures InGpu(base + k) == InGpu(base)
  {
    assert PhysicalAddress(base + k) == PhysicalAddress(base) + k;
  }

  predicate SameGpu<E>(s: Sys<Devices<E>>, s': Sys<Devices<E>>) {
    s'.dev.gpu == s.dev.gpu
  }

  lemma AccessMisses<E>(other: Io<E>, s: Sys<Devices<E>>, a: u32, b: u8, h: u16, w: u32)
    requires !InGpu(a)
    ensures var io := PortIo(other);
            && SameGpu(s, Read8(io, s, a).1) && SameGpu(s, Write8(io, s, a, b))
            && (a % 2 == 0 ==> SameGpu(s, Read16(io, s, a).1) && SameGpu(s, Write16(io, s, a, h)))
            && (a % 4 == 0 ==> SameGpu(s, Read32(io, s, a).1) && SameGpu(s, Write32(io, s, a, w)))
  {
    hide InGpu, ReadLocation, WriteLocation;
  }

  /** Two accesses one after the other miss the GPU when each does. */
  lemma LoadLanesMiss<E>(other: Io<E>, s: Sys<Devices<E>>, base: u32, lane: nat, w: u32)
    requires base % 4 == 0 && lane < 4 && base + 3 < TWO_32 && !InGpu(base)
    ensures SameGpu(s, LeftLane(PortIo(other), s, base, lane, w).1)
    ensures SameGpu(s, RightLane(PortIo(other), s, base, lane, w).1)
  {
    hide InGpu, PortIo, Read8, Read16, Read32, Write8, Write16, Write32;
    var io := PortIo(other);
    GpuWord(base, lane);
    GpuWord(base, 2);
    Lanes(base);
    AccessMisses(other, s, base, 0, 0, 0);
    AccessMisses(other, s, base + lane, 0, 0, 0);
    AccessMisses(other, s, base + 2, 0, 0, 0);
    AccessMisses(other, Read16(io, s, base).1, base + 2, 0, 0, 0);
    AccessMisses(other, Read8(io, s, base + lane).1, base + 2, 0, 0, 0);
  }

  lemma StoreLanesMiss<E>(other: Io<E>, s: Sys<Devices<E>>, base: u32, lane: nat, w: u32)
    requires base % 4 == 0 && lane < 4 && base + 3 < TWO_32 && !InGpu(base)
    ensures SameGpu(s, StoreLeftLane(PortIo(other), s, base, lane, w))
    ensures SameGpu(s, StoreRightLane(PortIo(other), s, base, lane, w))
  {
    hide InGpu, PortIo, Read8, Read16, Read32, Write8, Write16, Write32, Byte, LowHalf, MiddleHalf, HighHalf;
    var io := PortIo(other);
    GpuWord(base, lane);
    GpuWord(base, 2);
    Lanes(base);
    AccessMisses(other, s, base, Byte(w, 3), if lane == 1 then HighHalf(w) else MiddleHalf(w), w);
    AccessMisses(other, s, base + lane, Byte(w, 0), LowHalf(w), w);
    if lane == 1 {
      AccessMisses(other, Write8(io, s, base + 1, Byte(w, 0)), base + 2, 0, MiddleHalf(w), w);
    } else if lane == 2 {
      AccessMisses(other, Write16(io, s, base, MiddleHalf(w)), base + 2, Byte(w, 3), 0, w);
    }
  }

  // ----- instructions that miss the GPU -----

  predicate AccessesMemory(h: Handler) {
    h in {Lb, Lbu, Lh, Lhu, Lw, Lwl, Lwr, Sb, Sh, Sw, Swl, Swr}
  }

  /** The aligned word a memory instruction works in. */
  function WordAddress<D>(v: View<D>): u32 {
    Address(v) - Address(v) % 4
  }

  /** An instruction whose address is outside the GPU range leaves the GPU alone. */
  lemma InstructionMisses<E>(other: Io<E>, h: Handler, v: View<Devices<E>>)
    requires AccessesMemory(h) ==> !InGpu(WordAddress(v))
    ensures var e := Meaning(PortIo(other), h, v);
            && (e.Loads? ==> SameGpu(v.sys, e.sys))
            && (e.Stores? ==> SameGpu(v.sys, e.sys))
  {
    hide Meaning, AccessesMemory, PortIo, InGpu, WordAddress;
    if AccessesMemory(h) {
      AccessInstructionMisses(other, h, v);
    } else {
      OnlyAccessesReachDevices(PortIo(other), h, v);
    }
  }

  lemma AccessInstructionMisses<E>(other: Io<E>, h: Handler, v: View<Devices<E>>)
    requires AccessesMemory(h) && !InGpu(WordAddress(v))
    ensures var e := Meaning(PortIo(other), h, v);
            && (e.Loads? ==> SameGpu(v.sys, e.sys))
            && (e.Stores? ==> SameGpu(v.sys, e.sys))
  {
    hide Read8, Read16, Read32, Write8, Write16, Write32, LeftWord, RightWord, StoreLeft, StoreRight;
    hide Wrap, Signed, Signed8, Signed16, Reg, Rs, Rt, Rd, Imm, Shamt, Address, PortIo, InGpu, WordAddress, SameGpu;
    hide RegResult, ShiftResult, ImmResult, SignedQuotient, UnsignedQuotient, Product, Checked, Holds;
    hide BranchTarget, JumpTarget, BranchFamily, Coprocessor;
    DataAccessMisses(other, v);
  }

  lemma OnlyAccessesReachDevices<D>(io: Io<D>, h: Handler, v: View<D>)
    requires !AccessesMemory(h)
    ensures var e := Meaning(io, h, v);
            (e.Loads? ==> e.sys == v.sys) && !e.Stores?
  {
    hide RegResult, ShiftResult, ImmResult, SignedQuotient, UnsignedQuotient, Product;
    hide Wrap, Signed, Signed16, Reg, Rs, Rt, Rd, Imm, Shamt, BranchTarget, JumpTarget;
    hide Cop0.Write, Cop0.Read, Rfe, Holds;
  }

  lemma DataAccessMisses<E>(other: Io<E>, v: View<Devices<E>>)
    requires !InGpu(WordAddress(v))
    ensures var io, a, s, rt := PortIo(other), Address(v), v.sys, Reg(v.r, Rt(v.inst));
            && SameGpu(s, Read8(io, s, a).1) && SameGpu(s, Write8(io, s, a, rt % 0x100))
            && (a % 2 == 0 ==> SameGpu(s, Read16(io, s, a).1) && SameGpu(s, Write16(io, s, a, rt % TWO_16)))
            && (a % 4 == 0 ==> SameGpu(s, Read32(io, s, a).1) && SameGpu(s, Write32(io, s, a, rt)))
            && SameGpu(s, LeftWord(io, s, a, Reg(v.loaded, Rt(v.inst))).1)
            && SameGpu(s, RightWord(io, s, a, Reg(v.loaded, Rt(v.inst))).1)
            && SameGpu(s, StoreLeft(io, s, a, rt)) && SameGpu(s, StoreRight(io, s, a, rt))
  {
    hide Read8, Read16, Read32, Write8, Write16, Write32, LeftLane, RightLane, StoreLeftLane, StoreRightLane;
    hide Wrap, Reg, Rs, Rt, Imm, Address, PortIo, InGpu;
    var a, rt := Address(v), Reg(v.r, Rt(v.inst));
    LaneSplit(a);
    GpuWord(WordAddress(v), a % 4);
    AccessMisses(other, v.sys, a, rt % 0x100, rt % TWO_16, rt);
    LoadLanesMiss(other, v.sys, WordAddress(v), a % 4, Reg(v.loaded, Rt(v.inst)));
    StoreLanesMiss(other, v.sys, WordAddress(v), a % 4, rt);
  }
}
