/** Every access the processor makes is naturally aligned: what the bus does with an unaligned one can
    never be observed. */
module AlignedAccesses {
  import opened Words
  import opened Memory
  import opened Cop0
  import opened Isa
  import opened Pipeline
  import opened Core

  /** Devices that answer bytes, halfwords at even addresses and words at multiples of four alike, and
      may differ on everything else. */
  ghost predicate AgreeWhenAligned<D(!new)>(p: Io<D>, q: Io<D>) {
    && (forall d, a :: p.read8(d, a) == q.read8(d, a))
    && (forall d, a, v :: p.write8(d, a, v) == q.write8(d, a, v))
    && (forall d, a: u32 :: a % 2 == 0 ==> p.read16(d, a) == q.read16(d, a))
    && (forall d, a: u32, v :: a % 2 == 0 ==> p.write16(d, a, v) == q.write16(d, a, v))
    && (forall d, a: u32 :: a % 4 == 0 ==> p.read32(d, a) == q.read32(d, a))
    && (forall d, a: u32, v :: a % 4 == 0 ==> p.write32(d, a, v) == q.write32(d, a, v))
  }

  lemma SameReads<D(!new)>(p: Io<D>, q: Io<D>, s: Sys<D>, a: u32)
    requires AgreeWhenAligned(p, q)
    ensures Read8(p, s, a) == Read8(q, s, a)
    ensures a % 2 == 0 ==> AlignedRead16(p, s, a) == AlignedRead16(q, s, a)
    ensures a % 4 == 0 ==> AlignedRead32(p, s, a) == AlignedRead32(q, s, a)
  {
    hide ReadLocation, FromBytes, Half;
  }

  lemma SameWrites<D(!new)>(p: Io<D>, q: Io<D>, s: Sys<D>, a: u32, b: u8, h: u16, w: u32)
    requires AgreeWhenAligned(p, q)
    ensures Write8(p, s, a, b) == Write8(q, s, a, b)
    ensures a % 2 == 0 ==> AlignedWrite16(p, s, a, h) == AlignedWrite16(q, s, a, h)
    ensures a % 4 == 0 ==> AlignedWrite32(p, s, a, w) == AlignedWrite32(q, s, a, w)
  {
    hide WriteLocation, Byte;
  }

  lemma SameLoadLanes<D(!new)>(p: Io<D>, q: Io<D>, s: Sys<D>, base: u32, lane: nat, kept: u32)
    requires AgreeWhenAligned(p, q) && base % 4 == 0 && base + 3 < TWO_32 && lane < 4
    ensures LeftLane(p, s, base, lane, kept) == LeftLane(q, s, base, lane, kept)
    ensures RightLane(p, s, base, lane, kept) == RightLane(q, s, base, lane, kept)
  {
    hide AgreeWhenAligned, Read8, AlignedRead16, AlignedRead32;
    Lanes(base);
    SameReads(p, q, s, base);
    SameReads(p, q, s, base + lane);
    SameReads(p, q, s, base + 2);
    SameReads(p, q, AlignedRead16(p, s, base).1, base + 2);
    SameReads(p, q, Read8(p, s, base + lane).1, base + 2);
  }

  lemma SameStoreLanes<D(!new)>(p: Io<D>, q: Io<D>, s: Sys<D>, base: u32, lane: nat, w: u32)
    requires AgreeWhenAligned(p, q) && base % 4 == 0 && base + 3 < TWO_32 && lane < 4
    ensures StoreLeftLane(p, s, base, lane, w) == StoreLeftLane(q, s, base, lane, w)
    ensures StoreRightLane(p, s, base, lane, w) == StoreRightLane(q, s, base, lane, w)
  {
    hide AgreeWhenAligned, Write8, AlignedWrite16, AlignedWrite32, Byte, LowHalf, MiddleHalf, HighHalf;
    Lanes(base);
    var upper := if lane == 1 then HighHalf(w) else MiddleHalf(w);
    SameWrites(p, q, s, base, Byte(w, 3), upper, w);
    SameWrites(p, q, s, base + lane, Byte(w, 0), LowHalf(w), w);
    if lane == 1 {
      SameWrites(p, q, Write8(p, s, base + 1, Byte(w, 0)), base + 2, 0, MiddleHalf(w), w);
    } else if lane == 2 {
      SameWrites(p, q, AlignedWrite16(p, s, base, MiddleHalf(w)), base + 2, Byte(w, 3), 0, w);
    }
  }

  lemma SameDataAccesses<D(!new)>(p: Io<D>, q: Io<D>, v: View<D>)
    requires AgreeWhenAligned(p, q)
    ensures var a, s, rt, kept := Address(v), v.sys, Reg(v.r, Rt(v.inst)), Reg(v.loaded, Rt(v.inst));
            && LeftWord(p, s, a, kept) == LeftWord(q, s, a, kept)
            && RightWord(p, s, a, kept) == RightWord(q, s, a, kept)
            && StoreLeft(p, s, a, rt) == StoreLeft(q, s, a, rt) && StoreRight(p, s, a, rt) == StoreRight(q, s, a, rt)
  {
    hide AgreeWhenAligned, LeftLane, RightLane, StoreLeftLane, StoreRightLane, Address, Reg, Rt;
    var a := Address(v);
    LaneSplit(a);
    SameLoadLanes(p, q, v.sys, a - a % 4, a % 4, Reg(v.loaded, Rt(v.inst)));
    SameStoreLanes(p, q, v.sys, a - a % 4, a % 4, Reg(v.r, Rt(v.inst)));
  }

  /** No handler makes an unaligned access. */
  lemma HandlersAccessAligned<D(!new)>(p: Io<D>, q: Io<D>, h: Handler, v: View<D>)
    requires AgreeWhenAligned(p, q)
    ensures Meaning(p, h, v) == Meaning(q, h, v)
  {
    hide AgreeWhenAligned, Read8, AlignedRead16, AlignedRead32, Write8, AlignedWrite16, AlignedWrite32;
    hide LeftWord, RightWord, StoreLeft, StoreRight, RegResult, ShiftResult, ImmResult, Checked, Holds;
    hide SignedQuotient, UnsignedQuotient, Product, Wrap, Signed, Signed8, Signed16, Reg, Rs, Rt, Rd, Imm, Shamt;
    hide BranchTarget, JumpTarget, Address, BranchFamily, Coprocessor;
    var rt := Reg(v.r, Rt(v.inst));
    SameReads(p, q, v.sys, Address(v));
    SameWrites(p, q, v.sys, Address(v), rt % 0x100, rt % TWO_16, rt);
    SameDataAccesses(p, q, v);
  }

  lemma StepAccessesAligned<D(!new)>(p: Io<D>, q: Io<D>, m: Machine<D>)
    requires Boundary(m) && AgreeWhenAligned(p, q)
    ensures Step(p, m) == Step(q, m)
  {
    hide AgreeWhenAligned, Meaning, Decode, AlignedRead32, FinishStep, Perform, ViewOf;
    if m.cpu.pc % 4 == 0 {
      SameReads(p, q, m.sys, m.cpu.pc);
      var fetched := Fetched(p, m.(cpu := BeginStep(m.cpu)));
      HandlersAccessAligned(p, q, Decode(ViewOf(fetched).inst), ViewOf(fetched));
    }
  }

  /** Every access of a run is aligned, fetches and data: over any history, two buses that agree on
      aligned accesses take the machine through the same states. */
  lemma {:induction false} RunAccessesAligned<D(!new)>(p: Io<D>, q: Io<D>, m: Machine<D>, hs: seq<Happening>)
    requires Boundary(m) && AgreeWhenAligned(p, q)
    ensures Trace(p, m, hs) == Trace(q, m, hs)
  {
    hide AgreeWhenAligned, Step, UpdateInterrupts, Boundary;
    if hs == [] {
    } else {
      RunAccessesAligned(p, q, m, hs[..|hs| - 1]);
      StepAccessesAligned(p, q, Trace(p, m, hs[..|hs| - 1]));
    }
  }
}
