/** Programs that drive the GPU through its command port, run by the processor through the bus. */
module Programs {
  import opened Words
  import opened Memory
  import opened Cop0
  import opened Isa
  import opened Pipeline
  import opened Core
  import opened Ports
  import GP = GpuPort
  import Transfers = GpuTransfers
  import Stream = GpuStream

  /** What a program does at the GP0 port: it sends a word, or asks for one. */
  datatype PortAccess = Sent(word: u32) | Asked

  // ----- the port under a history of accesses -----

  /** The words the port answers, and the GPU afterwards. */
  function Play(g: Gpu, accesses: seq<PortAccess>): (seq<u32>, Gpu)
    decreases |accesses|
  {
    if accesses == [] then ([], g)
    else
      var (words, g1) := Play(g, accesses[..|accesses| - 1]);
      match accesses[|accesses| - 1]
      case Sent(word) => (words, GP.Gp0Write(g1, word))
      case Asked =>
        ReadKeepsFifo(g1);
        var (word, g2) := GP.Gp0Read(g1);
        (words + [word], g2)
  }

  function Sends(words: seq<u32>): (a: seq<PortAccess>)
    ensures |a| == |words|
    decreases |words|
  {
    if words == [] then [] else Sends(words[..|words| - 1]) + [Sent(words[|words| - 1])]
  }

  function Asks(n: nat): (a: seq<PortAccess>)
    ensures |a| == n
  {
    if n == 0 then [] else Asks(n - 1) + [Asked]
  }

  lemma {:induction false} PlayConcat(g: Gpu, a: seq<PortAccess>, b: seq<PortAccess>)
    ensures Play(g, a + b) == (Play(g, a).0 + Play(Play(g, a).1, b).0, Play(Play(g, a).1, b).1)
    decreases |b|
  {
    hide GP.Gp0Write, GP.Gp0Read;
    if b == [] {
      assert a + b == a;
      assert Play(g, a).0 + [] == Play(g, a).0;
    } else {
      var n := |b| - 1;
      PlayConcat(g, a, b[..n]);
      assert (a + b)[..|a + b| - 1] == a + b[..n];
      var ga, gb := Play(g, a), Play(Play(g, a).1, b[..n]);
      var word := GP.Gp0Read(gb.1).0;
      assert (ga.0 + gb.0) + [word] == ga.0 + (gb.0 + [word]);
    }
  }

  lemma {:induction false} PlaySends(g: Gpu, words: seq<u32>)
    ensures Play(g, Sends(words)) == ([], GP.Feed(g, words))
    decreases |words|
  {
    hide GP.Gp0Write, GP.Gp0Read;
    if words == [] {
    } else {
      var n := |words| - 1;
      PlaySends(g, words[..n]);
      assert Sends(words)[..n] == Sends(words[..n]);
    }
  }

  lemma {:induction false} PlayAsks(g: Gpu, n: nat)
    ensures Play(g, Asks(n)) == Transfers.Reads(g, n)
  {
    hide GP.Gp0Write, GP.Gp0Read;
    if n == 0 {
    } else {
      PlayAsks(g, n - 1);
      assert Asks(n)[..n - 1] == Asks(n - 1);
    }
  }

  lemma PlayOne(g: Gpu, access: PortAccess)
    ensures Play(g, []) == ([], g)
    ensures access.Sent? ==> Play(g, [access]) == ([], GP.Gp0Write(g, access.word))
    ensures access.Asked? ==> Play(g, [access]) == ([GP.Gp0Read(g).0], GP.Gp0Read(g).1)
  {
    hide GP.Gp0Write, GP.Gp0Read;
    assert [access][..0] == [];
    assert [] + [GP.Gp0Read(g).0] == [GP.Gp0Read(g).0];
  }

  // ----- reads do not disturb the command stream -----

  /** The words sent among the accesses. */
  function SentWords(accesses: seq<PortAccess>): seq<u32>
    decreases |accesses|
  {
    if accesses == [] then []
    else
      var words := SentWords(accesses[..|accesses| - 1]);
      match accesses[|accesses| - 1]
      case Sent(word) => words + [word]
      case Asked => words
  }

  /** The GPU without the fields that reading the port changes: the latch, the status word and the counters
      of the download. Video memory, command buffer, upload and drawing attributes remain. */
  function Behind(g: GP.Gpu): GP.Gpu {
    g.(stat := 0, read := 0, vramRead := IdleTransfer())
  }

  lemma DataBehind(g: GP.Gpu, h: GP.Gpu, word: u32)
    requires Behind(g) == Behind(h)
    ensures Behind(GP.WriteData(g, word)) == Behind(GP.WriteData(h, word))
  {
    hide GP.Raised, GP.Advanced, GP.Cursor;
  }

  lemma ExecuteBehind(g: GP.Gpu, h: GP.Gpu)
    requires Behind(g) == Behind(h)
    ensures Behind(GP.Execute(g)) == Behind(GP.Execute(h))
  {
    hide GP.Raised, GP.Started, GP.Command;
  }

  lemma BufferedBehind(g: GP.Gpu, h: GP.Gpu, word: u32)
    requires GP.FifoOk(g) && GP.FifoOk(h) && Behind(g) == Behind(h)
    ensures Behind(GP.Buffered(g, word)) == Behind(GP.Buffered(h, word))
  {
  }

  lemma WriteBehind(g: Gpu, h: Gpu, word: u32)
    requires Behind(g) == Behind(h)
    ensures Behind(GP.Gp0Write(g, word)) == Behind(GP.Gp0Write(h, word))
  {
    hide GP.WriteData, GP.Execute, GP.Buffered;
    DataBehind(g, h, word);
    BufferedBehind(g, h, word);
    ExecuteBehind(GP.Buffered(g, word), GP.Buffered(h, word));
  }

  lemma ReadBehind(g: Gpu)
    ensures Behind(GP.Gp0Read(g).1) == Behind(g)
  {
    hide GP.Raised, GP.Cleared, GP.Advanced, GP.Cursor;
  }

  /** However sends and reads are interleaved, the sends have the effect they would have alone. */
  lemma {:induction false} ReadsChangeNothingBehind(g: Gpu, accesses: seq<PortAccess>)
    ensures Behind(Play(g, accesses).1) == Behind(GP.Feed(g, SentWords(accesses)))
    decreases |accesses|
  {
    hide GP.Gp0Write, GP.Gp0Read, Behind;
    if accesses == [] {
    } else {
      var front := accesses[..|accesses| - 1];
      ReadsChangeNothingBehind(g, front);
      match accesses[|accesses| - 1]
      case Sent(word) =>
        WriteBehind(Play(g, front).1, GP.Feed(g, SentWords(front)), word);
        assert (SentWords(front) + [word])[..|SentWords(front)|] == SentWords(front);
      case Asked =>
        ReadBehind(Play(g, front).1);
    }
  }

  /** For any interleaving of sends and reads the commands and payloads are those of the sent words. */
  lemma PlayIsBatch(g: Gpu, accesses: seq<PortAccess>)
    requires Stream.AtRest(g)
    ensures Behind(Play(g, accesses).1) == Behind(Stream.PerformAll(g, Stream.Split(SentWords(accesses))))
  {
    hide Play, SentWords, GP.Feed, Stream.Split, Stream.PerformAll, Stream.AtRest, Behind;
    ReadsChangeNothingBehind(g, accesses);
    Stream.StreamingEqualsBatch(g, SentWords(accesses));
  }

  // ----- one instruction -----

  /** A word access of the processor to the GP0 port, in whichever segment it is addressed. */
  predicate AtPort<D>(v: View<D>) {
    PhysicalAddress(Address(v)) == GP0_PORT
  }

  predicate StoresToGp0<D>(v: View<D>) {
    Decode(v.inst) == Sw && !v.cop0.cacheIsolated && AtPort(v)
  }

  predicate LoadsFromGp0<D>(v: View<D>) {
    Decode(v.inst) == Lw && AtPort(v)
  }

  /** A word read of the status register at the GP1 port. */
  predicate Polls<D>(v: View<D>) {
    Decode(v.inst) == Lw && PhysicalAddress(Address(v)) == GP1_PORT
  }

  /** An instruction that touches the GPU, if at all, by a word access to the GP0 port or by polling the
      status register. */
  predicate Orderly<D>(io: Io<D>, b: Core<D>) {
    b.pc % 4 == 0 ==>
      && !InGpu(b.pc)
      && var v := CoreView(CoreFetch(io, b));
         || StoresToGp0(v) || LoadsFromGp0(v) || Polls(v)
         || (AccessesMemory(Decode(v.inst)) ==> !InGpu(WordAddress(v)))
  }

  /** What the instruction at pc does at the GP0 port. */
  function Accesses<D>(io: Io<D>, b: Core<D>): seq<PortAccess> {
    if b.pc % 4 != 0 then []
    else
      var v := CoreView(CoreFetch(io, b));
      if StoresToGp0(v) then [Sent(Reg(v.r, Rt(v.inst)))]
      else if LoadsFromGp0(v) then [Asked]
      else []
  }

  /** The word that the instruction at pc loads from the GP0 port. */
  function Answers<D>(io: Io<D>, b: Core<D>): seq<u32> {
    if b.pc % 4 != 0 then []
    else
      var e := CoreEffect(io, b);
      if LoadsFromGp0(CoreView(CoreFetch(io, b))) && e.Loads? then [e.value] else []
  }

  lemma CompleteGpu<E>(b: Core<Devices<E>>, e: Effect<Devices<E>>, gpu: Gpu)
    requires e.Raises? ==> e.code < 0x40
    requires if e.Loads? || e.Stores? then e.sys.dev.gpu == gpu else b.sys.dev.gpu == gpu
    ensures Complete(LoadsLate, b, e).sys.dev.gpu == gpu
  {
    hide Raise;
  }

  lemma FetchMisses<E>(other: Io<E>, b: Core<Devices<E>>)
    requires b.pc % 4 == 0 && !InGpu(b.pc)
    ensures SameGpu(b.sys, CoreFetch(PortIo(other), b).sys)
  {
    hide PortIo, InGpu, Read32;
    AccessMisses(other, b.sys, b.pc, 0, 0, 0);
  }

  lemma PortAddress(a: u32)
    requires PhysicalAddress(a) == GP0_PORT
    ensures a % 4 == 0 && InGpu(a) && ReadLocation(a).Unmapped? && WriteLocation(a).Unmapped?
  {
  }

  /** A word written to the port, and a word read from it, through the bus. */
  lemma WordAtPort<E>(other: Io<E>, s: Sys<Devices<E>>, a: u32, w: u32)
    requires PhysicalAddress(a) == GP0_PORT
    ensures a % 4 == 0
    ensures Write32(PortIo(other), s, a, w).dev.gpu == GP.Gp0Write(s.dev.gpu, w)
    ensures var (word, s') := Read32(PortIo(other), s, a);
            word == GP.Gp0Read(s.dev.gpu).0 && s'.dev.gpu == GP.Gp0Read(s.dev.gpu).1
  {
    hide GP.Gp0Write, GP.Gp0Read, InGpu, ReadLocation, WriteLocation;
    PortAddress(a);
  }

  lemma StoreReachesPort<E>(other: Io<E>, v: View<Devices<E>>)
    requires StoresToGp0(v)
    ensures var e := Execute(PortIo(other), v);
            e.Stores? && e.sys.dev.gpu == GP.Gp0Write(v.sys.dev.gpu, Reg(v.r, Rt(v.inst)))
  {
    hide Address, Rt, Reg, Decode, GP.Gp0Write, GP.Gp0Read, Write32, Read32, PortIo;
    WordAtPort(other, v.sys, Address(v), Reg(v.r, Rt(v.inst)));
  }

  lemma LoadReachesPort<E>(other: Io<E>, v: View<Devices<E>>)
    requires LoadsFromGp0(v)
    ensures var e := Execute(PortIo(other), v);
            e.Loads? && e.value == GP.Gp0Read(v.sys.dev.gpu).0 && e.sys.dev.gpu == GP.Gp0Read(v.sys.dev.gpu).1
  {
    hide Address, Rt, Reg, Decode, GP.Gp0Write, GP.Gp0Read, Write32, Read32, PortIo;
    WordAtPort(other, v.sys, Address(v), 0);
  }

  /** Polling loads the status register and changes nothing of the GPU. */
  lemma PollReadsStatus<E>(other: Io<E>, v: View<Devices<E>>)
    requires Polls(v)
    ensures var e := Execute(PortIo(other), v);
            e.Loads? && e.value == v.sys.dev.gpu.stat && e.sys.dev.gpu == v.sys.dev.gpu
  {
    hide Address, Rt, Reg, Decode, GP.Gp0Write, GP.Gp0Read, Read32, PortIo;
    StatusAtPort(other, v.sys, Address(v));
  }

  lemma StatusAtPort<E>(other: Io<E>, s: Sys<Devices<E>>, a: u32)
    requires PhysicalAddress(a) == GP1_PORT
    ensures a % 4 == 0
    ensures var (word, s') := Read32(PortIo(other), s, a); word == s.dev.gpu.stat && s'.dev.gpu == s.dev.gpu
  {
    hide GP.Gp0Read, InGpu, ReadLocation;
    StatusAddress(a);
  }

  lemma StatusAddress(a: u32)
    requires PhysicalAddress(a) == GP1_PORT
    ensures a % 4 == 0 && InGpu(a) && ReadLocation(a).Unmapped?
  {
  }

  /** One instruction of an orderly program is its accesses to the GP0 port: the GPU is where they take it,
      and the word loaded is the one they are answered with. */
  lemma OrderlyStep<E>(other: Io<E>, b: Core<Devices<E>>)
    requires Orderly(PortIo(other), b)
    ensures var io := PortIo(other);
            (Answers(io, b), CoreStep(LoadsLate, io, b).sys.dev.gpu) == Play(b.sys.dev.gpu, Accesses(io, b))
  {
    hide PortIo, Complete, CoreFetch, Meaning, Decode, InGpu, WordAddress, AccessesMemory, Address;
    hide Play, GP.Gp0Write, GP.Gp0Read;
    var io, gpu := PortIo(other), b.sys.dev.gpu;
    PlayOne(gpu, Asked);
    if b.pc % 4 != 0 {
      CompleteGpu(b, Raises(EXC_ADEL), gpu);
    } else {
      FetchMisses(other, b);
      var f := CoreFetch(io, b);
      var v := CoreView(f);
      assert v.sys == f.sys;
      CodesAreKnown(io, Decode(v.inst), v);
      if StoresToGp0(v) {
        StoreReachesPort(other, v);
        PlayOne(gpu, Sent(Reg(v.r, Rt(v.inst))));
        CompleteGpu(f, Execute(io, v), GP.Gp0Write(gpu, Reg(v.r, Rt(v.inst))));
      } else if LoadsFromGp0(v) {
        LoadReachesPort(other, v);
        ReadKeepsFifo(gpu);
        CompleteGpu(f, Execute(io, v), GP.Gp0Read(gpu).1);
      } else if Polls(v) {
        PollReadsStatus(other, v);
        CompleteGpu(f, Execute(io, v), gpu);
      } else {
        InstructionMisses(other, Decode(v.inst), v);
        CompleteGpu(f, Execute(io, v), gpu);
      }
    }
  }

  // ----- whole runs -----

  /** What a run does at the GP0 port, in order. */
  function AccessesBy<D>(io: Io<D>, m: Machine<D>, hs: seq<Happening>): seq<PortAccess>
    requires Boundary(m)
  {
    if hs == [] then []
    else
      var front := hs[..|hs| - 1];
      AccessesBy(io, m, front) + (if hs[|hs| - 1] == Tick then Accesses(io, Abstract(Trace(io, m, front))) else [])
  }

  /** The words a run loads from the GP0 port, in order. */
  function AnswersTo<D>(io: Io<D>, m: Machine<D>, hs: seq<Happening>): seq<u32>
    requires Boundary(m)
  {
    if hs == [] then []
    else
      var front := hs[..|hs| - 1];
      AnswersTo(io, m, front) + (if hs[|hs| - 1] == Tick then Answers(io, Abstract(Trace(io, m, front))) else [])
  }

  ghost predicate OrderlyRun<D>(io: Io<D>, m: Machine<D>, hs: seq<Happening>)
    requires Boundary(m)
  {
    forall k :: 0 <= k < |hs| && hs[k] == Tick ==> Orderly(io, Abstract(Trace(io, m, hs[..k])))
  }

  /** An orderly run goes on. */
  lemma OneMoreStep<D>(io: Io<D>, m: Machine<D>, hs: seq<Happening>)
    requires Boundary(m) && OrderlyRun(io, m, hs) && Orderly(io, Abstract(Trace(io, m, hs)))
    ensures OrderlyRun(io, m, hs + [Tick])
    ensures Abstract(Trace(io, m, hs + [Tick])) == CoreStep(LoadsLate, io, Abstract(Trace(io, m, hs)))
    ensures AccessesBy(io, m, hs + [Tick]) == AccessesBy(io, m, hs) + Accesses(io, Abstract(Trace(io, m, hs)))
  {
    hide Step, CoreStep, Orderly, Accesses, Abstract;
    assert (hs + [Tick])[..|hs|] == hs;
    assert forall k :: 0 <= k < |hs| ==> (hs + [Tick])[..k] == hs[..k];
    StepSimulates(io, Trace(io, m, hs));
  }

  /** The processor, the bus and the GPU together: over any run of a program that touches the GPU only
      by word accesses to the GP0 port and by polling its status, from any segment, across exceptions and
      delays, with the interrupt line changing at any moment, the GPU ends up where the GP0 accesses alone
      take it, and the words loaded from GP0 are those it answers. */
  lemma {:induction false} ProgramDrivesGpu<E>(other: Io<E>, m: Machine<Devices<E>>, hs: seq<Happening>)
    requires Boundary(m) && OrderlyRun(PortIo(other), m, hs)
    ensures var io := PortIo(other);
            (AnswersTo(io, m, hs), Trace(io, m, hs).sys.dev.gpu) == Play(m.sys.dev.gpu, AccessesBy(io, m, hs))
  {
    hide PortIo, Step, CoreStep, Orderly, Accesses, Answers, Play, SlotOf, GetNextPc, UpdateInterrupts;
    var io, gpu := PortIo(other), m.sys.dev.gpu;
    if hs == [] {
      PlayOne(gpu, Asked);
    } else {
      var n := |hs| - 1;
      var front := hs[..n];
      assert forall k :: 0 <= k < n ==> front[..k] == hs[..k];
      ProgramDrivesGpu(other, m, front);
      var before := Trace(io, m, front);
      if hs[n] == Tick {
        StepSimulates(io, before);
        OrderlyStep(other, Abstract(before));
        PlayConcat(gpu, AccessesBy(io, m, front), Accesses(io, Abstract(before)));
      } else {
        assert AccessesBy(io, m, front) + [] == AccessesBy(io, m, front);
        assert AnswersTo(io, m, front) + [] == AnswersTo(io, m, front);
      }
    }
  }

  /** What an instruction that polls loads: the status to which the run has brought the GPU. */
  lemma PolledStatus<E>(other: Io<E>, m: Machine<Devices<E>>, hs: seq<Happening>)
    requires Boundary(m) && OrderlyRun(PortIo(other), m, hs)
    requires var b := Abstract(Trace(PortIo(other), m, hs));
             b.pc % 4 == 0 && !InGpu(b.pc) && Polls(CoreView(CoreFetch(PortIo(other), b)))
    ensures var io := PortIo(other);
            var e := EffectAt(io, Abstract(Trace(io, m, hs)));
            e.Loads? && e.value == Play(m.sys.dev.gpu, AccessesBy(io, m, hs)).1.stat
  {
    hide PortIo, Trace, OrderlyRun, AccessesBy, AnswersTo, Play, Polls, InGpu, CoreFetch, Execute, GetNextPc, SlotOf;
    var io := PortIo(other);
    var b := Abstract(Trace(io, m, hs));
    ProgramDrivesGpu(other, m, hs);
    FetchMisses(other, b);
    PollReadsStatus(other, CoreView(CoreFetch(io, b)));
  }

  /** The video memory, the command buffer, the upload and the attributes of the GPU end up as if the words
      a program sent, whatever it read in between, had been split into commands and payloads first and
      those had been performed; and so does the whole GPU if the program read nothing. */
  lemma ProgramIsBatch<E>(other: Io<E>, m: Machine<Devices<E>>, hs: seq<Happening>)
    requires Boundary(m) && OrderlyRun(PortIo(other), m, hs) && Stream.AtRest(m.sys.dev.gpu)
    ensures var accesses, gpu := AccessesBy(PortIo(other), m, hs), Trace(PortIo(other), m, hs).sys.dev.gpu;
            var batch := Stream.PerformAll(m.sys.dev.gpu, Stream.Split(SentWords(accesses)));
            && Behind(gpu) == Behind(batch)
            && (accesses == Sends(SentWords(accesses)) ==> gpu == batch)
  {
    hide PortIo, Trace, OrderlyRun, AccessesBy, AnswersTo, Sends, SentWords, Play, GP.Feed, Stream.Split;
    hide Stream.PerformAll, Stream.AtRest, Behind;
    var gpu, words := m.sys.dev.gpu, SentWords(AccessesBy(PortIo(other), m, hs));
    ProgramDrivesGpu(other, m, hs);
    PlayIsBatch(gpu, AccessesBy(PortIo(other), m, hs));
    PlaySends(gpu, words);
    Stream.StreamingEqualsBatch(gpu, words);
  }

  /** Two commands that transfer the same rectangle up and then down, with all the data of the first. */
  ghost predicate IsRoundTrip(up: seq<u32>, data: seq<u32>, down: seq<u32>) {
    && |up| == 3 && GP.Command(up[0]) == 0xA0
    && |down| == 3 && GP.Command(down[0]) == 0xC0
    && up[1..] == down[1..]
    && |data| == Transfers.UploadWords(Transfers.Area(GP.Started(up[1], up[2])))
  }

  function RoundTripAccesses(up: seq<u32>, data: seq<u32>, down: seq<u32>): seq<PortAccess>
    requires |up| == 3
  {
    Sends(up + data + down) + Asks(Transfers.DownloadWords(Transfers.Area(GP.Started(up[1], up[2]))))
  }

  lemma PlayRoundTrip(g: Gpu, up: seq<u32>, data: seq<u32>, down: seq<u32>)
    requires IsRoundTrip(up, data, down)
    ensures Play(g, RoundTripAccesses(up, data, down)).0 ==
            Transfers.Reads(GP.Feed(g, up + data + down),
                            Transfers.DownloadWords(Transfers.Area(GP.Started(up[1], up[2])))).0
  {
    hide Play, Sends, Asks, GP.Feed, GP.Started, Transfers.Reads, Transfers.Area, GP.Command;
    var n := Transfers.DownloadWords(Transfers.Area(GP.Started(up[1], up[2])));
    PlayConcat(g, Sends(up + data + down), Asks(n));
    PlaySends(g, up + data + down);
    PlayAsks(GP.Feed(g, up + data + down), n);
  }

  /** A program that uploads a rectangle and reads it back: the halfwords its loads bring are, in
      order, those it sent, as far as the upload got, and after that what the video memory held. */
  lemma ProgramRoundTrip<E>(other: Io<E>, m: Machine<Devices<E>>, hs: seq<Happening>,
                            up: seq<u32>, data: seq<u32>, down: seq<u32>, k: nat)
    requires Boundary(m) && OrderlyRun(PortIo(other), m, hs) && Stream.AtRest(m.sys.dev.gpu)
    requires IsRoundTrip(up, data, down) && k < Transfers.Area(GP.Started(up[1], up[2]))
    requires AccessesBy(PortIo(other), m, hs) == RoundTripAccesses(up, data, down)
    ensures var t := GP.Started(up[1], up[2]);
            var words := AnswersTo(PortIo(other), m, hs);
            && t.w > 0 && |words| == Transfers.DownloadWords(Transfers.Area(t))
            && Transfers.Pixels(words)[k] == Stream.Expected(m.sys.dev.gpu.vram, t, data, k)
  {
    hide PortIo, Trace, OrderlyRun, AccessesBy, AnswersTo, RoundTripAccesses, Play, GP.Feed, GP.Started;
    hide Transfers.Pixels, Transfers.UploadWords, Transfers.Area, Transfers.Reads, Stream.Expected, Stream.AtRest;
    hide GP.Command;
    ProgramDrivesGpu(other, m, hs);
    PlayRoundTrip(m.sys.dev.gpu, up, data, down);
    Stream.UploadThenDownload(m.sys.dev.gpu, up, data, down, k);
  }
}
