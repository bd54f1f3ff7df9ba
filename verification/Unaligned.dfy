/** The unaligned access pairs LWL/LWR and SWL/SWR, run through the pipeline. */
module Unaligned {
  import opened Words
  import opened Memory
  import opened Isa

  // ----- four consecutive bytes of memory -----

  /** The bytes a .. a+3 are all memory. */
  predicate Readable(a: u32) {
    a + 3 < TWO_32 && ReadLocation(a).At? && ReadLocation(a + 3).At?
  }

  predicate Writable(a: u32) {
    a + 3 < TWO_32 && WriteLocation(a).At? && WriteLocation(a + 3).At?
  }

  lemma Consecutive(a: u32, k: nat)
    requires Readable(a) && k < 4
    ensures ReadLocation(a + k) == At(ReadLocation(a).index + k)
    ensures Writable(a) ==> WriteLocation(a + k) == ReadLocation(a + k)
  {
    Offset(a, k);
    Offset(a, 3);
    hide PhysicalAddress;
  }

  lemma Offset(a: u32, k: nat)
    requires PhysicalAddress(a) + k < 0x2000_0000 && a + k < TWO_32
    ensures PhysicalAddress(a + k) == PhysicalAddress(a) + k
  {
    DivModUnique(a + k, 0x2000_0000, a / 0x2000_0000, PhysicalAddress(a) + k);
  }

  function Place(a: u32): (i: nat)
    requires Readable(a)
    ensures i + 3 < STORE_SIZE
  {
    Consecutive(a, 3);
    ReadLocation(a).index
  }

  /** The little-endian word at any address, aligned or not. */
  function WordAt(mem: Store, a: u32): u32
    requires Readable(a)
  {
    var i := Place(a);
    FromBytes(mem[i], mem[i + 1], mem[i + 2], mem[i + 3])
  }

  function WithWord(mem: Store, a: u32, w: u32): Store
    requires Readable(a)
  {
    var i := Place(a);
    mem[i := Byte(w, 0)][i + 1 := Byte(w, 1)][i + 2 := Byte(w, 2)][i + 3 := Byte(w, 3)]
  }

  // ----- what each half of a pair does to one aligned word -----

  /** What LWL takes from the aligned word whose bytes are at j when it addresses the given lane. */
  function LeftMerge(mem: Store, j: nat, lane: nat, kept: u32): u32
    requires j + 3 < STORE_SIZE && lane < 4
  {
    if lane == 0 then SetHigh8(kept, mem[j])
    else if lane == 1 then SetHigh16(kept, Half(mem[j], mem[j + 1]))
    else if lane == 2 then SetHigh24(kept, Half(mem[j], mem[j + 1]), mem[j + 2])
    else FromBytes(mem[j], mem[j + 1], mem[j + 2], mem[j + 3])
  }

  /** What LWR takes from it. */
  function RightMerge(mem: Store, j: nat, lane: nat, kept: u32): u32
    requires j + 3 < STORE_SIZE && lane < 4
  {
    if lane == 0 then FromBytes(mem[j], mem[j + 1], mem[j + 2], mem[j + 3])
    else if lane == 1 then SetLow24(kept, mem[j + 1], Half(mem[j + 2], mem[j + 3]))
    else if lane == 2 then SetLow16(kept, Half(mem[j + 2], mem[j + 3]))
    else SetLow8(kept, mem[j + 3])
  }

  /** What SWL leaves there. */
  function LeftPatch(mem: Store, j: nat, lane: nat, w: u32): Store
    requires j + 3 < STORE_SIZE && lane < 4
  {
    if lane == 0 then mem[j := Byte(w, 3)]
    else if lane == 1 then mem[j := Byte(w, 2)][j + 1 := Byte(w, 3)]
    else if lane == 2 then mem[j := Byte(w, 1)][j + 1 := Byte(w, 2)][j + 2 := Byte(w, 3)]
    else mem[j := Byte(w, 0)][j + 1 := Byte(w, 1)][j + 2 := Byte(w, 2)][j + 3 := Byte(w, 3)]
  }

  /** What SWR leaves there. */
  function RightPatch(mem: Store, j: nat, lane: nat, w: u32): Store
    requires j + 3 < STORE_SIZE && lane < 4
  {
    if lane == 0 then mem[j := Byte(w, 0)][j + 1 := Byte(w, 1)][j + 2 := Byte(w, 2)][j + 3 := Byte(w, 3)]
    else if lane == 1 then mem[j + 1 := Byte(w, 0)][j + 2 := Byte(w, 1)][j + 3 := Byte(w, 2)]
    else if lane == 2 then mem[j + 2 := Byte(w, 0)][j + 3 := Byte(w, 1)]
    else mem[j + 3 := Byte(w, 0)]
  }

  lemma LaneLoads<D>(io: Io<D>, s: Sys<D>, base: u32, j: nat, lane: nat, kept: u32)
    requires base % 4 == 0 && lane < 4 && ReadLocation(base) == At(j) && base + 3 < TWO_32 && j + 3 < STORE_SIZE
    ensures LeftWord(io, s, base + lane, kept) == (LeftMerge(s.mem, j, lane, kept), s)
    ensures RightWord(io, s, base + lane, kept) == (RightMerge(s.mem, j, lane, kept), s)
  {
    hide ReadLocation, SetHigh8, SetHigh16, SetHigh24, SetLow8, SetLow16, SetLow24, FromBytes, Half;
    InLane(base, lane);
    AlignedRun(base, 1);
    AlignedRun(base, 2);
    AlignedRun(base, 3);
  }

  lemma LaneStores<D>(io: Io<D>, s: Sys<D>, base: u32, j: nat, lane: nat, w: u32)
    requires base % 4 == 0 && lane < 4 && WriteLocation(base) == At(j) && base + 3 < TWO_32 && j + 3 < STORE_SIZE
    ensures StoreLeft(io, s, base + lane, w) == s.(mem := LeftPatch(s.mem, j, lane, w))
    ensures StoreRight(io, s, base + lane, w) == s.(mem := RightPatch(s.mem, j, lane, w))
  {
    hide ReadLocation, InBios, Byte, LowHalf, MiddleHalf, HighHalf;
    InLane(base, lane);
    AlignedRun(base, 1);
    AlignedRun(base, 2);
    AlignedRun(base, 3);
    HalfBytes(w);
  }

  lemma InLane(base: nat, lane: nat)
    requires base % 4 == 0 && lane < 4
    ensures (base + lane) % 4 == lane
  {
  }

  // ----- the two aligned words of an unaligned one -----

  function LowerBase(a: nat): nat {
    a - a % 4
  }

  /** The aligned word that a + 3 falls in. */
  function UpperBase(a: nat): nat {
    if a % 4 == 0 then a else a - a % 4 + 4
  }

  function UpperLane(a: nat): (l: nat)
    ensures l < 4
  {
    if a % 4 == 0 then 3 else a % 4 - 1
  }

  lemma Bases(a: u32)
    requires Readable(a)
    ensures var i := Place(a);
            var lower, upper := LowerBase(a), UpperBase(a);
            && lower % 4 == 0 && upper % 4 == 0 && lower + 3 < TWO_32 && upper + 3 < TWO_32
            && lower + a % 4 == a && upper + UpperLane(a) == a + 3
            && i >= a % 4 && ReadLocation(lower) == At(i - a % 4) && i - a % 4 + 3 < STORE_SIZE
            && ReadLocation(upper) == At(i + upper - a) && i + upper - a + 3 < STORE_SIZE
            && (Writable(a) ==>
                  WriteLocation(lower) == ReadLocation(lower) && WriteLocation(upper) == ReadLocation(upper))
  {
    hide ReadLocation, PhysicalAddress;
    Consecutive(a, 3);
    AlignedPlace(LowerBase(a), a % 4);
    AlignedPlace(UpperBase(a), UpperLane(a));
  }

  lemma AlignedPlace(base: nat, lane: nat)
    requires base % 4 == 0 && lane < 4 && base + lane < TWO_32 && ReadLocation(base + lane).At?
    ensures base + 3 < TWO_32
    ensures var i := ReadLocation(base + lane).index;
            i >= lane && ReadLocation(base) == At(i - lane) && i - lane + 3 < STORE_SIZE
    ensures InBios(base) == InBios(base + lane)
  {
    hide ReadLocation, InBios;
    AlignedRun(base, lane);
    AlignedRun(base, 3);
  }

  // ----- a pair makes the whole word -----

  lemma Remainder(q: nat, r: nat, d: nat)
    requires d in {0x100, TWO_16, 0x100_0000} && r < d
    ensures (q * d + r) % d == r
  {
    if d == 0x100 {
    } else if d == TWO_16 {
    } else {
    }
  }

  // A replacement of the upper bytes followed by one of the lower bytes leaves nothing of the old word.

  lemma High8ThenLow24(w: u32, b3: u8, b0: u8, h: u16)
    ensures SetLow24(SetHigh8(w, b3), b0, h) == b3 as int * 0x100_0000 + h as int * 0x100 + b0
  {
    Remainder(b3, w % 0x100_0000, 0x100_0000);
  }

  lemma High16ThenLow16(w: u32, high: u16, low: u16)
    ensures SetLow16(SetHigh16(w, high), low) == high as int * TWO_16 + low
  {
    Remainder(high, w % TWO_16, TWO_16);
  }

  lemma High24ThenLow8(w: u32, h: u16, b3: u8, b0: u8)
    ensures SetLow8(SetHigh24(w, h, b3), b0) == b3 as int * 0x100_0000 + h as int * 0x100 + b0
  {
    Remainder(h + b3 as int * TWO_16, w % 0x100, 0x100);
  }

  lemma Low24ThenHigh8(w: u32, b3: u8, b0: u8, h: u16)
    ensures SetHigh8(SetLow24(w, b0, h), b3) == b3 as int * 0x100_0000 + h as int * 0x100 + b0
  {
    Remainder(w / 0x100_0000, h as int * 0x100 + b0, 0x100_0000);
  }

  lemma Low16ThenHigh16(w: u32, high: u16, low: u16)
    ensures SetHigh16(SetLow16(w, low), high) == high as int * TWO_16 + low
  {
    Remainder(w / TWO_16, low, TWO_16);
  }

  lemma Low8ThenHigh24(w: u32, h: u16, b3: u8, b0: u8)
    ensures SetHigh24(SetLow8(w, b0), h, b3) == b3 as int * 0x100_0000 + h as int * 0x100 + b0
  {
    Remainder(w / 0x100, b0, 0x100);
  }

  lemma KeepHigh(kept: u32, m0: u8, m1: u8, m2: u8, m3: u8)
    ensures SetLow24(SetHigh8(kept, m3), m0, Half(m1, m2)) == FromBytes(m0, m1, m2, m3)
    ensures SetLow16(SetHigh16(kept, Half(m2, m3)), Half(m0, m1)) == FromBytes(m0, m1, m2, m3)
    ensures SetLow8(SetHigh24(kept, Half(m1, m2), m3), m0) == FromBytes(m0, m1, m2, m3)
  {
    hide SetHigh8, SetHigh16, SetHigh24, SetLow8, SetLow16, SetLow24;
    High8ThenLow24(kept, m3, m0, Half(m1, m2));
    High16ThenLow16(kept, Half(m2, m3), Half(m0, m1));
    High24ThenLow8(kept, Half(m1, m2), m3, m0);
  }

  lemma KeepLow(kept: u32, m0: u8, m1: u8, m2: u8, m3: u8)
    ensures SetHigh8(SetLow24(kept, m0, Half(m1, m2)), m3) == FromBytes(m0, m1, m2, m3)
    ensures SetHigh16(SetLow16(kept, Half(m0, m1)), Half(m2, m3)) == FromBytes(m0, m1, m2, m3)
    ensures SetHigh24(SetLow8(kept, m0), Half(m1, m2), m3) == FromBytes(m0, m1, m2, m3)
  {
    hide SetHigh8, SetHigh16, SetHigh24, SetLow8, SetLow16, SetLow24;
    Low24ThenHigh8(kept, m3, m0, Half(m1, m2));
    Low16ThenHigh16(kept, Half(m2, m3), Half(m0, m1));
    Low8ThenHigh24(kept, Half(m1, m2), m3, m0);
  }

  /** Where the aligned words around the word at a lie in the store. */
  function LowerPlace(a: u32): (j: nat)
    requires Readable(a)
    ensures j + 3 < STORE_SIZE
  {
    Bases(a);
    Place(a) - a % 4
  }

  function UpperPlace(a: u32): (j: nat)
    requires Readable(a)
    ensures j + 3 < STORE_SIZE
  {
    Bases(a);
    Place(a) + UpperBase(a) - a
  }

  lemma LoadHalves<D>(io: Io<D>, s: Sys<D>, a: u32, kept: u32)
    requires Readable(a)
    ensures LeftWord(io, s, a + 3, kept) == (LeftMerge(s.mem, UpperPlace(a), UpperLane(a), kept), s)
    ensures RightWord(io, s, a, kept) == (RightMerge(s.mem, LowerPlace(a), a % 4, kept), s)
  {
    hide LeftWord, RightWord, LeftMerge, RightMerge, Readable, ReadLocation, LowerBase, UpperBase, UpperLane;
    Bases(a);
    LaneLoads(io, s, UpperBase(a), UpperPlace(a), UpperLane(a), kept);
    LaneLoads(io, s, LowerBase(a), LowerPlace(a), a % 4, kept);
  }

  lemma StoreHalves<D>(io: Io<D>, s: Sys<D>, a: u32, w: u32)
    requires Readable(a) && Writable(a)
    ensures StoreLeft(io, s, a + 3, w) == s.(mem := LeftPatch(s.mem, UpperPlace(a), UpperLane(a), w))
    ensures StoreRight(io, s, a, w) == s.(mem := RightPatch(s.mem, LowerPlace(a), a % 4, w))
  {
    hide StoreLeft, StoreRight, LeftPatch, RightPatch, Readable, Writable, ReadLocation;
    hide LowerBase, UpperBase, UpperLane;
    Bases(a);
    LaneStores(io, s, UpperBase(a), UpperPlace(a), UpperLane(a), w);
    LaneStores(io, s, LowerBase(a), LowerPlace(a), a % 4, w);
  }

  /** Whichever half comes first, the register ends up with the word at a. */
  lemma LoadsMakeTheWord<D>(io: Io<D>, s: Sys<D>, a: u32, kept: u32)
    requires Readable(a)
    ensures LeftWord(io, s, a + 3, kept).1 == s && RightWord(io, s, a, kept).1 == s
    ensures RightWord(io, s, a, LeftWord(io, s, a + 3, kept).0) == (WordAt(s.mem, a), s)
    ensures LeftWord(io, s, a + 3, RightWord(io, s, a, kept).0) == (WordAt(s.mem, a), s)
  {
    LoadHalves(io, s, a, kept);
    LoadHalves(io, s, a, LeftWord(io, s, a + 3, kept).0);
    LoadHalves(io, s, a, RightWord(io, s, a, kept).0);
    Merges(s.mem, a, kept);
    hide LeftWord, RightWord, LeftMerge, RightMerge, Readable, ReadLocation, LowerPlace, UpperPlace, UpperLane, WordAt;
  }

  lemma Places(a: u32)
    requires Readable(a)
    ensures Place(a) >= a % 4 && LowerPlace(a) == Place(a) - a % 4
    ensures a % 4 == 0 ==> UpperPlace(a) == Place(a) && UpperLane(a) == 3
    ensures a % 4 != 0 ==> UpperPlace(a) == Place(a) - a % 4 + 4 && UpperLane(a) == a % 4 - 1
  {
    hide Readable, ReadLocation, Place;
    Bases(a);
  }

  lemma MergesAt(mem: Store, i: nat, c: nat, kept: u32)
    requires 0 < c < 4 && i >= c && i - c + 7 < STORE_SIZE
    ensures RightMerge(mem, i - c, c, LeftMerge(mem, i - c + 4, c - 1, kept)) ==
            FromBytes(mem[i], mem[i + 1], mem[i + 2], mem[i + 3])
    ensures LeftMerge(mem, i - c + 4, c - 1, RightMerge(mem, i - c, c, kept)) ==
            FromBytes(mem[i], mem[i + 1], mem[i + 2], mem[i + 3])
  {
    hide SetHigh8, SetHigh16, SetHigh24, SetLow8, SetLow16, SetLow24, FromBytes, Half;
    var m0, m1, m2, m3 := mem[i], mem[i + 1], mem[i + 2], mem[i + 3];
    KeepHigh(kept, m0, m1, m2, m3);
    KeepLow(kept, m0, m1, m2, m3);
    if c == 1 {
      assert mem[i - c + 4] == m3;
    } else if c == 2 {
      assert mem[i - c + 4] == m2 && mem[i - c + 4 + 1] == m3;
    } else {
      assert mem[i - c + 4] == m1 && mem[i - c + 4 + 1] == m2 && mem[i - c + 4 + 2] == m3;
    }
  }

  lemma Merges(mem: Store, a: u32, kept: u32)
    requires Readable(a)
    ensures RightMerge(mem, LowerPlace(a), a % 4, LeftMerge(mem, UpperPlace(a), UpperLane(a), kept)) == WordAt(mem, a)
    ensures LeftMerge(mem, UpperPlace(a), UpperLane(a), RightMerge(mem, LowerPlace(a), a % 4, kept)) == WordAt(mem, a)
  {
    hide Readable, ReadLocation, Place, LowerPlace, UpperPlace, UpperLane;
    hide FromBytes;
    Places(a);
    if a % 4 != 0 {
      MergesAt(mem, Place(a), a % 4, kept);
      hide LeftMerge, RightMerge;
    }
  }

  /** SWL at a + 3 and SWR at a, in either order, store the word at a and nothing else. */
  lemma StoresMakeTheWord<D>(io: Io<D>, s: Sys<D>, a: u32, w: u32)
    requires Readable(a) && Writable(a)
    ensures StoreRight(io, StoreLeft(io, s, a + 3, w), a, w) == s.(mem := WithWord(s.mem, a, w))
    ensures StoreLeft(io, StoreRight(io, s, a, w), a + 3, w) == s.(mem := WithWord(s.mem, a, w))
  {
    StoreHalves(io, s, a, w);
    StoreHalves(io, StoreLeft(io, s, a + 3, w), a, w);
    StoreHalves(io, StoreRight(io, s, a, w), a, w);
    Patches(s.mem, a, w);
    hide StoreLeft, StoreRight, LeftPatch, RightPatch, Readable, Writable, LowerPlace, UpperPlace, UpperLane, WithWord;
  }

  lemma Patches(mem: Store, a: u32, w: u32)
    requires Readable(a)
    ensures RightPatch(LeftPatch(mem, UpperPlace(a), UpperLane(a), w), LowerPlace(a), a % 4, w) == WithWord(mem, a, w)
    ensures LeftPatch(RightPatch(mem, LowerPlace(a), a % 4, w), UpperPlace(a), UpperLane(a), w) == WithWord(mem, a, w)
  {
    hide Byte, Readable, ReadLocation, Place, LowerPlace, UpperPlace, UpperLane;
    Places(a);
  }

  lemma WordReadsBack(mem: Store, a: u32, w: u32)
    requires Readable(a)
    ensures WordAt(WithWord(mem, a, w), a) == w
    ensures forall n :: 0 <= n < STORE_SIZE && !(Place(a) <= n < Place(a) + 4) ==> WithWord(mem, a, w)[n] == mem[n]
  {
    hide Byte, FromBytes, Place;
    BytesRoundTrip(w);
  }
}
