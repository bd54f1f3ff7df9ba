/** The system control coprocessor: status, cause and the two flags cached from them. */
module Cop0 {
  import opened Words
  import opened Bits

  const EXC_NONE: u8 := 0xFF
  const EXC_INT: u8 := 0x00
  const EXC_ADEL: u8 := 0x04
  const EXC_ADES: u8 := 0x05
  const EXC_IBE: u8 := 0x06
  const EXC_DBE: u8 := 0x07
  const EXC_SYS: u8 := 0x08
  const EXC_BP: u8 := 0x09
  const EXC_RI: u8 := 0x0A
  const EXC_OV: u8 := 0x0C

  datatype Cop0State = Cop0State(bpc: u32, bda: u32, tar: u32, dcic: u32, badAddr: u32, bdam: u32,
                       status: u32, cause: u32, epc: u32, prid: u32,
                       cacheIsolated: bool, pendingInterrupts: bool)

  /** The delay slot an instruction executes in, as an exception records it. */
  datatype Slot = NoSlot | InSlot(taken: bool, target: u32)

  /** Interrupts are enabled and some unmasked interrupt bit of the cause register is set. */
  predicate Requested(cause: u32, status: u32) {
    status % 2 == 1 && And(cause, status) / 0x100 % 0x100 != 0
  }

  predicate IsolateSet(status: u32) {
    status / TWO_16 % 2 == 1
  }

  function InterruptBits(cause: u32): nat {
    cause / 0x100 % 0x100
  }

  function SetStatus(c: Cop0State, value: u32): Cop0State {
    c.(status := value, cacheIsolated := IsolateSet(value), pendingInterrupts := Requested(c.cause, value))
  }

  /** The mode stack in status bits 5:0 moves up one pair; the current pair becomes zero. */
  function PushMode(status: u32): u32 {
    status - status % 0x40 + status * 4 % 0x40
  }

  /** The mode stack moves down one pair; the old pair in bits 5:4 stays. */
  function PopMode(status: u32): u32 {
    status - status % 0x10 + status / 4 % 0x10
  }

  function CauseOf(cause: u32, code: u8, inst: u32, slot: Slot): u32
    requires code < 0x40
  {
    InterruptBits(cause) * 0x100 + code * 4
    + (if code == EXC_IBE || code == EXC_DBE then 0 else inst / 0x400_0000 % 4 * 0x1000_0000)
    + (if slot.InSlot? && slot.taken then 0x4000_0000 else 0)
    + (if slot.InSlot? then 0x8000_0000 else 0)
  }

  /** The coprocessor after an exception in the instruction at pc. */
  function Raise(c: Cop0State, code: u8, pc: u32, inst: u32, slot: Slot): Cop0State
    requires code < 0x40
  {
    var c1 := c.(cause := CauseOf(c.cause, code, inst, slot),
                 epc := if slot.InSlot? then Wrap(pc - 4) else pc,
                 tar := if slot.InSlot? then slot.target else c.tar,
                 badAddr := if code == EXC_ADEL || code == EXC_ADES then pc else c.badAddr);
    SetStatus(c1, PushMode(c.status)).(pendingInterrupts := false)
  }

  function Rfe(c: Cop0State): Cop0State {
    var status := PopMode(c.status);
    c.(status := status, pendingInterrupts := Requested(c.cause, status))
  }

  function Write(c: Cop0State, rd: nat, value: u32): Cop0State {
    if rd == 3 then c.(bpc := value)
    else if rd == 5 then c.(bda := value)
    else if rd == 6 then c.(tar := value)
    else if rd == 7 then c.(dcic := value)
    else if rd == 9 then c.(bdam := value)
    else if rd == 12 then SetStatus(c, value)
    else c
  }

  function Read(c: Cop0State, rd: nat): u32 {
    if rd == 3 then c.bpc
    else if rd == 5 then c.bda
    else if rd == 6 then c.tar
    else if rd == 7 then c.dcic
    else if rd == 8 then c.badAddr
    else if rd == 12 then c.status
    else if rd == 13 then c.cause
    else if rd == 14 then c.epc
    else if rd == 15 then c.prid
    else 0
  }

  /** The interrupt line of the devices: pending says that some raised interrupt is unmasked. */
  function UpdateInterrupts(c: Cop0State, pending: bool): Cop0State {
    var low := c.cause - c.cause / 0x8000 % 2 * 0x8000;
    if pending then c.(cause := low + 0x8000, pendingInterrupts := c.status % 2 == 1)
    else c.(cause := low, pendingInterrupts := false)
  }

  const RESET := Cop0State(0, 0, 0, 0, 0, 0, 0, 0, 0, 2, false, false)

  // ----- the cached flags -----

  ghost predicate FlagsAgree(c: Cop0State) {
    && c.cacheIsolated == IsolateSet(c.status)
    && (c.pendingInterrupts ==> c.status % 2 == 1 && InterruptBits(c.cause) != 0)
  }

  lemma AndByte(a: u32, b: u32)
    requires InterruptBits(a) == 0
    ensures InterruptBits(And(a, b)) == 0
  {
    hide And, Pow2, Halved;
    AndFields(a, b, 8);
    Powers();
    var p, q := Halved(a, 8), Halved(b, 8);
    HalvedIsShift(a, 8);
    HalvedIsShift(b, 8);
    HalvedIsShift(And(a, b), 8);
    AndModulo(p, q, 8);
  }

  lemma {:induction false} AndFields(a: nat, b: nat, k: nat)
    ensures Halved(And(a, b), k) == And(Halved(a, k), Halved(b, k))
  {
    if k == 0 {
    } else {
      AndFields(a / 2, b / 2, k - 1);
      if a == 0 || b == 0 {
        HalvedZero(k - 1);
      }
    }
  }

  lemma {:induction false} HalvedZero(k: nat)
    ensures Halved(0, k) == 0
  {
    if k == 0 {
    } else {
      HalvedZero(k - 1);
    }
  }

  /** A request depends on the interrupt bits of cause and status and on the enable bit alone. */
  lemma RequestFields(cause: u32, status: u32)
    ensures Requested(cause, status) <==>
            status % 2 == 1 && And(InterruptBits(cause), InterruptBits(status)) != 0
  {
    hide And, Pow2, Halved;
    Powers();
    AndFields(cause, status, 8);
    HalvedIsShift(cause, 8);
    HalvedIsShift(status, 8);
    HalvedIsShift(And(cause, status), 8);
    AndLowBits(cause / 0x100, status / 0x100, 8);
  }

  lemma RequestedNeedsInterruptBit(cause: u32, status: u32)
    ensures Requested(cause, status) ==> InterruptBits(cause) != 0
  {
    if InterruptBits(cause) == 0 {
      AndByte(cause, status);
    }
  }

  lemma ModesKeepIsolation(status: u32)
    ensures IsolateSet(PushMode(status)) == IsolateSet(status) == IsolateSet(PopMode(status))
  {
    hide PushMode, PopMode;
    PushPairs(status);
    PopPairs(status);
    UpperBits(PushMode(status), status);
    UpperBits(PopMode(status), status);
  }

  /** Words that agree above the mode stack agree on the isolation bit. */
  lemma UpperBits(a: u32, b: u32)
    requires a / 0x40 == b / 0x40
    ensures IsolateSet(a) == IsolateSet(b)
  {
    assert a / TWO_16 == a / 0x40 / 0x400 && b / TWO_16 == b / 0x40 / 0x400;
  }

  lemma RaiseKeepsFlags(c: Cop0State, code: u8, pc: u32, inst: u32, slot: Slot)
    requires code < 0x40 && FlagsAgree(c)
    ensures FlagsAgree(Raise(c, code, pc, inst, slot))
    ensures Raise(c, code, pc, inst, slot).cacheIsolated == c.cacheIsolated
  {
    ModesKeepIsolation(c.status);
  }

  lemma RfeKeepsFlags(c: Cop0State)
    requires FlagsAgree(c)
    ensures FlagsAgree(Rfe(c))
    ensures Rfe(c).cacheIsolated == c.cacheIsolated
  {
    ModesKeepIsolation(c.status);
    RequestedNeedsInterruptBit(c.cause, PopMode(c.status));
  }

  lemma WriteKeepsFlags(c: Cop0State, rd: nat, value: u32)
    requires FlagsAgree(c)
    ensures FlagsAgree(Write(c, rd, value))
  {
    RequestedNeedsInterruptBit(c.cause, value);
  }

  /** Setting the interrupt line's bit leaves some interrupt bit set. */
  lemma LineSet(cause: u32)
    ensures cause >= cause / 0x8000 % 2 * 0x8000
    ensures (cause - cause / 0x8000 % 2 * 0x8000 + 0x8000) / 0x100 % 0x100 != 0
  {
    var upper, rest := cause / 0x8000, cause % 0x8000;
    var x := upper / 2 * TWO_16 + 0x8000 + rest;
    assert x == cause - upper % 2 * 0x8000 + 0x8000;
    DivModUnique(x, 0x100, upper / 2 * 0x100 + 0x80 + rest / 0x100, rest % 0x100);
    DivModUnique(x / 0x100, 0x100, upper / 2, 0x80 + rest / 0x100);
  }

  lemma UpdateKeepsFlags(c: Cop0State, pending: bool)
    requires FlagsAgree(c)
    ensures FlagsAgree(UpdateInterrupts(c, pending))
  {
    LineSet(c.cause);
  }

  // ----- the mode stack -----

  /** Exceptions taken and returns from them, in the order they happen. */
  datatype Event = Enter(code: u8, pc: u32, inst: u32, slot: Slot) | Return

  function After(c: Cop0State, events: seq<Event>): Cop0State
    requires forall e <- events :: e.Enter? ==> e.code < 0x40
  {
    if events == [] then c
    else
      var last := events[|events| - 1];
      var before := After(c, events[..|events| - 1]);
      if last.Enter? then Raise(before, last.code, last.pc, last.inst, last.slot) else Rfe(before)
  }

  /** How many exceptions are still open after the events; negative after an unmatched return. */
  function Depth(events: seq<Event>): int {
    if events == [] then 0
    else Depth(events[..|events| - 1]) + (if events[|events| - 1].Enter? then 1 else -1)
  }

  function Deepest(events: seq<Event>): int {
    if events == [] then 0
    else
      var d, m := Depth(events), Deepest(events[..|events| - 1]);
      if d > m then d else m
  }

  ghost predicate Nested(events: seq<Event>) {
    && (forall n :: 0 <= n <= |events| ==> Depth(events[..n]) >= 0)
    && (forall e <- events :: e.Enter? ==> e.code < 0x40)
  }

  /** The three pairs of the mode stack. */
  function Current(status: nat): (pair: nat)
    ensures pair < 4
  {
    status % 4
  }

  function Previous(status: nat): (pair: nat)
    ensures pair < 4
  {
    status / 4 % 4
  }

  function Old(status: nat): (pair: nat)
    ensures pair < 4
  {
    status / 0x10 % 4
  }

  /** A word is its upper 26 bits followed by the three pairs. */
  lemma Pairs(hi: nat, o: nat, p: nat, c: nat)
    requires o < 4 && p < 4 && c < 4
    ensures var s := hi * 0x40 + o * 0x10 + p * 4 + c;
            s / 0x40 == hi && s % 0x40 == o * 0x10 + p * 4 + c && s % 0x10 == p * 4 + c
            && Old(s) == o && Previous(s) == p && Current(s) == c
  {
    var s := hi * 0x40 + o * 0x10 + p * 4 + c;
    DivModUnique(s, 0x40, hi, o * 0x10 + p * 4 + c);
    DivModUnique(s, 0x10, hi * 4 + o, p * 4 + c);
    DivModUnique(s, 4, hi * 0x10 + o * 4 + p, c);
    DivModUnique(hi * 4 + o, 4, hi, o);
    DivModUnique(hi * 0x10 + o * 4 + p, 4, hi * 4 + o, p);
  }

  lemma FromPairs(s: nat)
    ensures s == s / 0x40 * 0x40 + Old(s) * 0x10 + Previous(s) * 4 + Current(s)
  {
    var a, b := s / 4, s / 4 / 4;
    var c := b / 4;
    assert s == 4 * a + s % 4 && a == 4 * b + a % 4 && b == 4 * c + b % 4;
    Pairs(c, b % 4, a % 4, s % 4);
  }

  lemma PushPairs(s: u32)
    ensures PushMode(s) / 0x40 == s / 0x40
    ensures Old(PushMode(s)) == Previous(s) && Previous(PushMode(s)) == Current(s) && Current(PushMode(s)) == 0
  {
    FromPairs(s);
    Pairs(s / 0x40, Old(s), Previous(s), Current(s));
    Pairs(4 * (s / 0x40) + Old(s), Previous(s), Current(s), 0);
    Pairs(s / 0x40, Previous(s), Current(s), 0);
  }

  lemma PopPairs(s: u32)
    ensures PopMode(s) / 0x40 == s / 0x40
    ensures Old(PopMode(s)) == Old(s) && Previous(PopMode(s)) == Old(s) && Current(PopMode(s)) == Previous(s)
  {
    FromPairs(s);
    Pairs(s / 0x40, Old(s), Previous(s), Current(s));
    assert s / 4 % 0x10 == Old(s) * 4 + Previous(s) by {
      assert s / 4 == s / 0x40 * 0x10 + Old(s) * 4 + Previous(s);
    }
    Pairs(s / 0x40, Old(s), Old(s), Previous(s));
  }

  /** What a nested history of depth d that has been m deep has left of the pairs of status s0. */
  ghost predicate StackShape(s0: u32, s: u32, d: int, m: int) {
    && s / 0x40 == s0 / 0x40
    && 0 <= d <= m
    && (m >= 3 ==> Old(s) == Previous(s) == Current(s) == 0)
    && (m <= 2 && d == 0 ==> Current(s) == Current(s0))
    && (m <= 2 && d == 1 ==> Previous(s) == Current(s0) && Current(s) == 0)
    && (m <= 2 && d == 2 ==> Old(s) == Current(s0) && Previous(s) == Current(s) == 0)
    && (m <= 1 && d == 0 ==> Previous(s) == Previous(s0))
    && (m <= 1 && d == 1 ==> Old(s) == Previous(s0))
  }

  lemma {:induction false} NestedShape(c: Cop0State, events: seq<Event>)
    requires Nested(events)
    ensures StackShape(c.status, After(c, events).status, Depth(events), Deepest(events))
  {
    hide Current, Previous, Old, PushMode, PopMode;
    if events == [] {
    } else {
      var n := |events| - 1;
      var front := events[..n];
      assert Nested(front) by {
        assert forall k :: 0 <= k <= n ==> front[..k] == events[..k];
      }
      NestedShape(c, front);
      assert events[..n + 1] == events;
      PushPairs(After(c, front).status);
      PopPairs(After(c, front).status);
    }
  }

  /** After well-nested exceptions and returns everything above the mode stack is unchanged, and
      the current pair is restored exactly when at most two were open at once or it was zero. */
  lemma ModeStackNesting(c: Cop0State, events: seq<Event>)
    requires Nested(events) && Depth(events) == 0
    ensures var s := After(c, events).status;
            && s / 0x40 == c.status / 0x40
            && (Current(s) == Current(c.status) <==> Deepest(events) <= 2 || Current(c.status) == 0)
            && (Deepest(events) <= 1 ==> s % 0x10 == c.status % 0x10)
            && (Deepest(events) >= 3 ==> s % 0x40 == 0)
  {
    hide Current, Previous, Old, After, Depth, Deepest;
    NestedShape(c, events);
    var s, s0 := After(c, events).status, c.status;
    FromPairs(s);
    FromPairs(s0);
    Pairs(s / 0x40, Old(s), Previous(s), Current(s));
    Pairs(s0 / 0x40, Old(s0), Previous(s0), Current(s0));
  }
}
