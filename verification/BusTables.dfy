/** The page tables of the bus, filled in by loops and consulted on every access, and their
    agreement with the address decoder. */
module BusTables {
  import opened Words
  import opened Memory
  import opened Source

  /** A page pointer is a place in the store, or NULL. */
  const NULL := -1

  function Pointer(l: Location): int {
    if l.At? then l.index else NULL
  }

  /** The pointer for reading page p: the place of the first byte of the page. */
  function ReadPage(p: nat): int
    requires p < PAGE_COUNT
  {
    Pointer(ReadLocation(p * PAGE_SIZE))
  }

  function WritePage(p: nat): int
    requires p < PAGE_COUNT
  {
    Pointer(WriteLocation(p * PAGE_SIZE))
  }

  /** Looking an address up by page gives exactly what comparing it with the region bounds gives. */
  lemma PageLookup(addr: u32)
    ensures var p := GetPageIndex(addr);
            && Pointer(ReadLocation(addr)) == (if ReadPage(p) == NULL then NULL else ReadPage(p) + PageOffset(addr))
            && Pointer(WriteLocation(addr)) == (if WritePage(p) == NULL then NULL else WritePage(p) + PageOffset(addr))
  {
    var p, offset := GetPageIndex(addr), PageOffset(addr);
    PageAndOffset(addr, p, offset);
    SameRegion(p, offset, RAM_START / PAGE_SIZE, (RAM_END + 1) / PAGE_SIZE);
    SameRegion(p, offset, EXP1_START / PAGE_SIZE, (EXP1_END + 1) / PAGE_SIZE);
    SameRegion(p, offset, SCRATCHPAD_START / PAGE_SIZE, (SCRATCHPAD_END + 1) / PAGE_SIZE);
    SameRegion(p, offset, BIOS_START / PAGE_SIZE, (BIOS_END + 1) / PAGE_SIZE);
  }

  lemma PageAndOffset(addr: u32, p: nat, offset: nat)
    requires p == PhysicalAddress(addr) / PAGE_SIZE && offset == addr % PAGE_SIZE
    ensures PhysicalAddress(addr) == p * PAGE_SIZE + offset
    ensures p < PAGE_COUNT && PhysicalAddress(p * PAGE_SIZE) == p * PAGE_SIZE
  {
    var a := PhysicalAddress(addr);
    var segment, rest := addr / 0x2000_0000, a % PAGE_SIZE;
    assert addr == (segment * PAGE_COUNT + p) * PAGE_SIZE + rest;
    DivModUnique(addr, PAGE_SIZE, segment * PAGE_COUNT + p, rest);
  }

  /** Regions start and end at page boundaries. */
  lemma SameRegion(p: nat, offset: nat, start: nat, end: nat)
    requires offset < PAGE_SIZE
    ensures start * PAGE_SIZE <= p * PAGE_SIZE + offset <= end * PAGE_SIZE - 1 <==>
            start * PAGE_SIZE <= p * PAGE_SIZE <= end * PAGE_SIZE - 1
  {
  }

  /** Where map_buffer points the page at address a of a region that starts at start. */
  function Place(buffer: nat, size: nat, start: nat, a: nat): nat
    requires size > 0 && start <= a
  {
    buffer + (a - start) % size
  }

  /** What mapping one region over a page table entry leaves there. */
  function Mapped(entry: int, buffer: nat, size: nat, start: nat, end: nat, p: nat): int
    requires size > 0
  {
    if start <= p * PAGE_SIZE < end then Place(buffer, size, start, p * PAGE_SIZE) else entry
  }

  lemma MappedInside(entry: int, buffer: nat, size: nat, start: nat, end: nat, p: nat)
    requires size > 0 && start <= p * PAGE_SIZE < end
    ensures Mapped(entry, buffer, size, start, end, p) == Place(buffer, size, start, p * PAGE_SIZE)
  {
  }

  lemma MappedOutside(entry: int, buffer: nat, size: nat, start: nat, end: nat, p: nat)
    requires size > 0 && !(start <= p * PAGE_SIZE < end)
    ensures Mapped(entry, buffer, size, start, end, p) == entry
  {
  }

  function AfterRam(p: nat): int {
    Mapped(NULL, RAM_BASE, RAM_SIZE, RAM_START, RAM_END, p)
  }

  function AfterExp1(p: nat): int {
    Mapped(AfterRam(p), EXP1_BASE, EXP1_SIZE, EXP1_START, EXP1_END, p)
  }

  function AfterScratchpad(p: nat): int {
    Mapped(AfterExp1(p), SCRATCHPAD_BASE, SCRATCHPAD_SIZE, SCRATCHPAD_START, SCRATCHPAD_END, p)
  }

  function AfterBios(p: nat): int {
    Mapped(AfterScratchpad(p), BIOS_BASE, BIOS_SIZE, BIOS_START, BIOS_END, p)
  }

  /** Mapping the four regions one after the other yields the decoder, page by page. */
  lemma FourMapsAreTheDecoder(p: nat)
    requires p < PAGE_COUNT
    ensures AfterBios(p) == ReadPage(p) && AfterScratchpad(p) == WritePage(p)
  {
    assert PhysicalAddress(p * PAGE_SIZE) == p * PAGE_SIZE;
  }

  lemma PageOf(addr: u32, n: nat)
    requires addr == n * PAGE_SIZE && addr < 0x2000_0000
    ensures GetPageIndex(addr) == n
  {
  }

  class Bus {
    const readPages: array<int>
    const writePages: array<int>
    const storage: array<u8>

    ghost predicate Shaped() {
      && readPages.Length == writePages.Length == PAGE_COUNT
      && storage.Length == STORE_SIZE
      && readPages != writePages
      && readPages as object != storage && writePages as object != storage
    }

    /** Every page pointer is the one the address decoder prescribes. */
    ghost predicate Tables()
      requires Shaped()
      reads readPages, writePages
    {
      && (forall p {:trigger readPages[p]} :: 0 <= p < PAGE_COUNT ==> readPages[p] == ReadPage(p))
      && (forall p {:trigger writePages[p]} :: 0 <= p < PAGE_COUNT ==> writePages[p] == WritePage(p))
    }

    /** One turn of the loop of map_buffer. */
    method MapPage(addr: u32, pointer: int, readOnly: bool, ghost n: nat)
      requires Shaped() && n < PAGE_COUNT && addr == n * PAGE_SIZE
      modifies readPages, writePages
      ensures readPages[n] == pointer && writePages[n] == (if readOnly then old(writePages[n]) else pointer)
      ensures forall p :: 0 <= p < PAGE_COUNT && p != n ==>
                readPages[p] == old(readPages[p]) && writePages[p] == old(writePages[p])
    {
      var page := GetPageIndex(addr);
      PageOf(addr, n);
      readPages[page] := pointer;
      if !readOnly {
        writePages[page] := pointer;
      }
    }

    method MapBuffer(buffer: nat, size: nat, start: u32, end: u32, readOnly: bool)
      requires Shaped()
      requires size > 0 && start % PAGE_SIZE == 0 && start <= end < 0x2000_0000
      modifies readPages, writePages
      ensures forall p :: 0 <= p < PAGE_COUNT ==>
                readPages[p] == Mapped(old(readPages[p]), buffer, size, start, end, p)
      ensures forall p :: 0 <= p < PAGE_COUNT ==>
                writePages[p] == (if readOnly then old(writePages[p])
                                  else Mapped(old(writePages[p]), buffer, size, start, end, p))
    {
      hide Mapped, PhysicalAddress;
      var addr := start;
      ghost var n := start / PAGE_SIZE;
      forall p: nat, e: int | p < n ensures Mapped(e, buffer, size, start, end, p) == e {
        MappedOutside(e, buffer, size, start, end, p);
      }
      while addr < end
        invariant start <= addr < end + PAGE_SIZE && addr == n * PAGE_SIZE && n <= PAGE_COUNT
        invariant forall p :: 0 <= p < PAGE_COUNT ==>
                    readPages[p] == (if p < n then Mapped(old(readPages[p]), buffer, size, start, end, p)
                                     else old(readPages[p]))
        invariant forall p :: 0 <= p < PAGE_COUNT ==>
                    writePages[p] == (if p < n && !readOnly
                                      then Mapped(old(writePages[p]), buffer, size, start, end, p)
                                      else old(writePages[p]))
      {
        MappedInside(old(readPages[n]), buffer, size, start, end, n);
        MappedInside(old(writePages[n]), buffer, size, start, end, n);
        var pointer := PagePointer(buffer, size, start, addr);
        MapPage(addr, pointer, readOnly, n);
        addr := addr + PAGE_SIZE;
        n := n + 1;
      }
      forall p: nat, e: int | p >= n ensures Mapped(e, buffer, size, start, end, p) == e {
        MappedOutside(e, buffer, size, start, end, p);
      }
    }

    static method PagePointer(buffer: nat, size: nat, start: nat, addr: nat) returns (pointer: int)
      requires size > 0 && start <= addr
      ensures pointer == Place(buffer, size, start, addr)
    {
      var offset := (addr - start) % size;
      pointer := buffer + offset;
    }

    constructor ()
      ensures Shaped() && Tables()
      ensures forall i :: 0 <= i < STORE_SIZE ==> storage[i] == 0
      ensures fresh(readPages) && fresh(writePages) && fresh(storage)
    {
      hide Mapped, ReadPage, WritePage;
      readPages := new int[PAGE_COUNT];
      writePages := new int[PAGE_COUNT];
      storage := new u8[STORE_SIZE];
      new;
      for i := 0 to PAGE_COUNT
        invariant forall p :: 0 <= p < i ==> readPages[p] == NULL && writePages[p] == NULL
      {
        readPages[i] := NULL;
        writePages[i] := NULL;
      }
      MapBuffer(RAM_BASE, RAM_SIZE, RAM_START, RAM_END, false);
      MapBuffer(EXP1_BASE, EXP1_SIZE, EXP1_START, EXP1_END, false);
      MapBuffer(SCRATCHPAD_BASE, SCRATCHPAD_SIZE, SCRATCHPAD_START, SCRATCHPAD_END, false);
      MapBuffer(BIOS_BASE, BIOS_SIZE, BIOS_START, BIOS_END, true);
      forall p | 0 <= p < PAGE_COUNT
        ensures readPages[p] == ReadPage(p) && writePages[p] == WritePage(p)
      {
        FourMapsAreTheDecoder(p);
      }
      Reset();
    }

    method Reset()
      requires Shaped()
      modifies storage
      ensures forall i :: 0 <= i < STORE_SIZE ==> storage[i] == 0
    {
      forall i | 0 <= i < storage.Length {
        storage[i] := 0;
      }
    }
  }
}
