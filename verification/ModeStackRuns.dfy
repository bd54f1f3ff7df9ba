/** The mode stack over whole runs of the machine: every exception pushes, every RFE pops. */
module ModeStackRuns {
  import opened Words
  import opened Memory
  import opened Cop0
  import opened Isa
  import opened Pipeline
  import opened Core
  import opened Exceptions

  /** The instruction that the step from m runs. */
  function Running<D>(io: Io<D>, m: Machine<D>): View<D> {
    CoreView(Fetch(io, Abstract(m)))
  }

  /** It is an RFE. */
  predicate Returns<D>(io: Io<D>, m: Machine<D>) {
    m.cpu.pc % 4 == 0 && Decode(Running(io, m).inst) == Handler.Cop0 && Rs(Running(io, m).inst) == 0x10
  }

  /** It is an MTC0 to the status register. */
  predicate WritesStatus<D>(io: Io<D>, m: Machine<D>) {
    m.cpu.pc % 4 == 0 && Decode(Running(io, m).inst) == Handler.Cop0 && Rs(Running(io, m).inst) == 4
    && Rd(Running(io, m).inst) == 12
  }

  /** The exceptions and returns of one step: an RFE with an interrupt latched is both. */
  function StepEvents<D>(io: Io<D>, m: Machine<D>): (events: seq<Event>)
    ensures forall e <- events :: e.Enter? ==> e.code < 0x40
  {
    (if Returns(io, m) then [Return] else [])
    + (if m.cpu.nextExcCode == EXC_INT || EffectAt(io, Abstract(m)).Raises?
       then [Enter(EntryCode(io, m), m.cpu.pc, Done(io, m).inst, SlotOf(m.cpu))]
       else [])
  }

  /** The exceptions and returns of a run, in order. */
  function EventsOf<D>(io: Io<D>, m: Machine<D>, hs: seq<Happening>): (events: seq<Event>)
    requires Boundary(m)
    ensures forall e <- events :: e.Enter? ==> e.code < 0x40
  {
    if hs == [] then []
    else
      var front := hs[..|hs| - 1];
      EventsOf(io, m, front) + (if hs[|hs| - 1] == Tick then StepEvents(io, Trace(io, m, front)) else [])
  }

  ghost predicate StatusUntouched<D>(io: Io<D>, m: Machine<D>, hs: seq<Happening>)
    requires Boundary(m)
  {
    forall k :: 0 <= k < |hs| && hs[k] == Tick ==> !WritesStatus(io, Trace(io, m, hs[..k]))
  }

  /** The status register under events alone. */
  function StatusAfter(status: u32, events: seq<Event>): u32 {
    if events == [] then status
    else
      var before := StatusAfter(status, events[..|events| - 1]);
      if events[|events| - 1].Enter? then PushMode(before) else PopMode(before)
  }

  lemma {:induction false} AfterStatus(c: Cop0State, events: seq<Event>)
    requires forall e <- events :: e.Enter? ==> e.code < 0x40
    ensures After(c, events).status == StatusAfter(c.status, events)
  {
    hide PushMode, PopMode, CauseOf, Requested, IsolateSet;
    if events == [] {
    } else {
      AfterStatus(c, events[..|events| - 1]);
    }
  }

  lemma {:induction false} StatusConcat(status: u32, a: seq<Event>, b: seq<Event>)
    ensures StatusAfter(status, a + b) == StatusAfter(StatusAfter(status, a), b)
    decreases |b|
  {
    hide PushMode, PopMode;
    if b == [] {
      assert a + b == a;
    } else {
      StatusConcat(status, a, b[..|b| - 1]);
      assert (a + b)[..|a + b| - 1] == a + b[..|b| - 1];
    }
  }

  lemma ShortHistories(status: u32, e: Event)
    ensures StatusAfter(status, []) == status
    ensures e.Enter? ==> StatusAfter(status, [e]) == PushMode(status)
    ensures StatusAfter(status, [Return]) == PopMode(status)
    ensures e.Enter? ==> StatusAfter(status, [Return] + [e]) == PushMode(PopMode(status))
  {
    hide PushMode, PopMode;
    assert [e][..0] == [] == [Return][..0];
    assert ([Return] + [e])[..1] == [Return];
  }

  /** How an instruction can change the coprocessor. */
  lemma Cop0Effect<D>(io: Io<D>, h: Handler, v: View<D>)
    ensures var e := Meaning(io, h, v);
            && (e.SetsCop0? ==> h == Handler.Cop0)
            && (h == Handler.Cop0 && Rs(v.inst) == 0x10 ==> e == SetsCop0(Rfe(v.cop0)))
            && (e.SetsCop0? && Rs(v.inst) != 0x10 ==>
                  Rs(v.inst) == 4 && e.cop0 == Cop0.Write(v.cop0, Rd(v.inst), Reg(v.r, Rt(v.inst))))
  {
    hide RegResult, ShiftResult, ImmResult, Read8, Read16, Read32, Write8, Write16, Write32;
    hide LeftWord, RightWord, StoreLeft, StoreRight, SignedQuotient, UnsignedQuotient, Product;
    hide Wrap, Signed, Signed8, Signed16, Reg, Rs, Rt, Rd, Imm, Shamt, BranchTarget, JumpTarget, Address, Holds;
    hide Cop0.Write, Cop0.Read, Rfe;
  }

  lemma OtherWrites(c: Cop0State, rd: nat, value: u32)
    requires rd != 12
    ensures Cop0.Write(c, rd, value).status == c.status
  {
  }

  /** The status just before a step completes. */
  lemma StatusDone<D>(io: Io<D>, m: Machine<D>)
    requires !WritesStatus(io, m)
    ensures Done(io, m).cop0.status == (if Returns(io, m) then PopMode(m.cop0.status) else m.cop0.status)
    ensures Returns(io, m) ==> !EffectAt(io, Abstract(m)).Raises?
  {
    hide Meaning, Decode, Rs, Rd, Rt, Reg, Read32, PopMode, Requested, Cop0.Write, Settled, SlotOf, GetNextPc;
    var v := Running(io, m);
    if m.cpu.pc % 4 == 0 {
      assert EffectAt(io, Abstract(m)) == Meaning(io, Decode(v.inst), v);
      Cop0Effect(io, Decode(v.inst), v);
      if Rd(v.inst) != 12 {
        OtherWrites(v.cop0, Rd(v.inst), Reg(v.r, Rt(v.inst)));
      }
    }
  }

  lemma StatusOfStep<D>(io: Io<D>, m: Machine<D>)
    requires Boundary(m) && !WritesStatus(io, m)
    ensures Step(io, m).cop0.status == StatusAfter(m.cop0.status, StepEvents(io, m))
  {
    hide Step, EffectAt, Effected, Fetch, Returns, WritesStatus, StatusAfter, PushMode, PopMode, CauseOf, Requested;
    hide IsolateSet, GetNextPc, SlotOf;
    StepSimulates(io, m);
    DoneKeepsControl(io, m);
    StatusDone(io, m);
    var entry := Enter(EntryCode(io, m), m.cpu.pc, Done(io, m).inst, SlotOf(m.cpu));
    ShortHistories(m.cop0.status, entry);
    if EffectAt(io, Abstract(m)).Raises? || m.cpu.nextExcCode == EXC_INT {
      assert Step(io, m).cop0.status == PushMode(Done(io, m).cop0.status);
      assert StepEvents(io, m) == if Returns(io, m) then [Return] + [entry] else [entry];
    } else {
      assert Step(io, m).cop0.status == Done(io, m).cop0.status;
      assert StepEvents(io, m) == if Returns(io, m) then [Return] else [];
    }
  }

  /** Over any run without MTC0 to the status register, and with the interrupt line changing at any
      moment, the status register is what the exceptions and returns of the run make of it. */
  lemma {:induction false} StatusOfRun<D>(io: Io<D>, m: Machine<D>, hs: seq<Happening>)
    requires Boundary(m) && StatusUntouched(io, m, hs)
    ensures Trace(io, m, hs).cop0.status == StatusAfter(m.cop0.status, EventsOf(io, m, hs))
  {
    hide Step, StepEvents, StatusAfter, WritesStatus;
    if hs == [] {
      ShortHistories(m.cop0.status, Return);
    } else {
      var n := |hs| - 1;
      var front := hs[..n];
      assert forall k :: 0 <= k < n ==> front[..k] == hs[..k];
      StatusOfRun(io, m, front);
      var before := Trace(io, m, front);
      if hs[n] == Tick {
        StatusOfStep(io, before);
        StatusConcat(m.cop0.status, EventsOf(io, m, front), StepEvents(io, before));
      } else {
        assert EventsOf(io, m, hs) == EventsOf(io, m, front);
      }
    }
  }

  /** A run whose exceptions and returns are well nested, without MTC0 to the status register, leaves the
      bits above the mode stack alone, and restores the current pair exactly when at most two exceptions
      were open at once or the pair was zero. */
  lemma RunNesting<D>(io: Io<D>, m: Machine<D>, hs: seq<Happening>)
    requires Boundary(m) && StatusUntouched(io, m, hs)
    requires Nested(EventsOf(io, m, hs)) && Depth(EventsOf(io, m, hs)) == 0
    ensures var s, s0, deepest := Trace(io, m, hs).cop0.status, m.cop0.status, Deepest(EventsOf(io, m, hs));
            && s / 0x40 == s0 / 0x40
            && (Current(s) == Current(s0) <==> deepest <= 2 || Current(s0) == 0)
            && (deepest <= 1 ==> s % 0x10 == s0 % 0x10)
            && (deepest >= 3 ==> s % 0x40 == 0)
  {
    hide Trace, EventsOf, StatusUntouched, StatusAfter, After, Depth, Deepest, Current;
    StatusOfRun(io, m, hs);
    AfterStatus(m.cop0, EventsOf(io, m, hs));
    ModeStackNesting(m.cop0, EventsOf(io, m, hs));
  }
}
