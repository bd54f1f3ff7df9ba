/** Writing words one at a time to the GP0 port is the same as splitting the stream up front. */
module GpuStream {
  import opened Words
  import opened GpuPort
  import opened GpuTransfers

  /** No command is being collected and no upload is running. */
  predicate AtRest(g: Gpu) {
    g.count == 0 && !g.vramWrite.active
  }

  /** The pieces of a stream: whole commands, the data words of uploads, and an unfinished command. */
  datatype Item = Whole(words: seq<u32>) | Data(words: seq<u32>) | Unfinished(words: seq<u32>)

  /** The area an upload command's size word asks for. */
  function SizeArea(size: u32): nat {
    AreaBound(size / TWO_16 % 0x400, size % 0x200);
    size / TWO_16 % 0x400 * (size % 0x200)
  }

  function Split(words: seq<u32>): seq<Item>
    decreases |words|
  {
    if words == [] then []
    else
      var cmd := Command(words[0]);
      var n := WordCount(cmd);
      if |words| < n then [Unfinished(words)]
      else
        var front, rest := words[..n], words[n..];
        if cmd != 0xA0 then [Whole(front)] + Split(rest)
        else
          var k := Min(UploadWords(SizeArea(words[2])), |rest|);
          [Whole(front)] + ([Data(rest[..k])] + Split(rest[k..]))
  }

  /** The buffer holding the first words of a command that has n. */
  function Holding(g: Gpu, words: seq<u32>, n: nat): Gpu
    requires |words| <= n <= 3
  {
    g.(fifo := words + g.fifo[|words|..], count := |words|, expected := n)
  }

  /** What one piece does, without any counter: a command executes, data lands cell by cell. */
  function Perform(g: Gpu, item: Item): Gpu {
    match item
    case Whole(words) => if |words| <= 3 then Execute(Holding(g, words, |words|)).(count := 0) else g
    case Data(words) =>
      if Fresh(g.vramWrite) && |words| <= UploadWords(Area(g.vramWrite)) then Uploaded(g, g.vramWrite, words) else g
    case Unfinished(words) =>
      if words != [] && |words| < WordCount(Command(words[0])) then
        Holding(g, words, WordCount(Command(words[0])))
      else g
  }

  function PerformAll(g: Gpu, items: seq<Item>): Gpu
    decreases |items|
  {
    if items == [] then g else PerformAll(Perform(g, items[0]), items[1..])
  }

  lemma {:induction false} FeedConcat(g: Gpu, a: seq<u32>, b: seq<u32>)
    requires FifoOk(g)
    ensures Feed(g, a + b) == Feed(Feed(g, a), b)
    decreases |b|
  {
    hide Gp0Write;
    if b == [] {
      assert a + b == a;
    } else {
      var n := |b| - 1;
      FeedConcat(g, a, b[..n]);
      assert (a + b)[..|a + b| - 1] == a + b[..n];
    }
  }

  /** One more word in the buffer. */
  lemma BufferGrows(g: Gpu, words: seq<u32>)
    requires AtRest(g) && words != [] && |words| <= WordCount(Command(words[0]))
    ensures var n, total := |words| - 1, WordCount(Command(words[0]));
            var before := if n == 0 then g else Holding(g, words[..n], total);
            FifoOk(before) && !before.vramWrite.active && Buffered(before, words[n]) == Holding(g, words, total)
  {
  }

  /** Words that do not complete a command only fill the buffer. */
  lemma {:induction false} FeedHolds(g: Gpu, words: seq<u32>)
    requires AtRest(g) && words != [] && |words| < WordCount(Command(words[0]))
    ensures Feed(g, words) == Holding(g, words, WordCount(Command(words[0])))
  {
    hide Execute, Buffered;
    var n := |words| - 1;
    BufferGrows(g, words);
    if n > 0 {
      FeedHolds(g, words[..n]);
    } else {
      assert Feed(g, words[..n]) == g;
    }
  }

  /** The word that completes a command executes it. */
  lemma FeedExecutes(g: Gpu, words: seq<u32>)
    requires AtRest(g) && words != [] && |words| == WordCount(Command(words[0]))
    ensures Feed(g, words) == Execute(Holding(g, words, |words|)).(count := 0)
  {
    hide Execute, Buffered;
    var n := |words| - 1;
    BufferGrows(g, words);
    if n > 0 {
      FeedHolds(g, words[..n]);
    } else {
      assert Feed(g, words[..n]) == g;
    }
  }

  /** Until an upload has all its data, every word goes to it. */
  lemma {:induction false} FeedUploads(g: Gpu, t: Transfer, words: seq<u32>)
    requires FifoOk(g) && Fresh(t) && g.vramWrite == t && |words| <= UploadWords(Area(t))
    ensures Feed(g, words) == Uploaded(g, t, words)
    decreases |words|
  {
    hide WriteData, UploadWords, Execute;
    if words == [] {
      NothingUploaded(g, t);
    } else {
      var n := |words| - 1;
      FeedUploads(g, t, words[..n]);
      UploadStep(g, t, words[..n], words[n]);
      assert words == words[..n] + [words[n]];
    }
  }

  /** What the port is in the middle of never depends on commands other than A0. */
  lemma AfterCommand(g: Gpu, words: seq<u32>)
    requires AtRest(g) && words != [] && |words| == WordCount(Command(words[0]))
    ensures var g1 := Perform(g, Whole(words));
            && g1.count == 0
            && (Command(words[0]) != 0xA0 ==> !g1.vramWrite.active)
            && (Command(words[0]) == 0xA0 ==> g1.vramWrite == Started(words[1], words[2]) && Fresh(g1.vramWrite)
                                              && Area(g1.vramWrite) == SizeArea(words[2]))
  {
    if Command(words[0]) == 0xA0 {
      StartedIsFresh(words[1], words[2]);
    }
    hide Raised, DrawMode;
  }

  lemma AfterUpload(g: Gpu, words: seq<u32>)
    requires g.count == 0 && Fresh(g.vramWrite) && |words| == UploadWords(Area(g.vramWrite))
    ensures AtRest(Perform(g, Data(words)))
  {
    hide Stored, UploadWords, Raised;
  }

  lemma PerformPrefix(g: Gpu, item: Item, items: seq<Item>)
    ensures PerformAll(g, [item] + items) == PerformAll(Perform(g, item), items)
  {
    assert ([item] + items)[1..] == items;
  }

  lemma FeedNothing(g: Gpu)
    requires FifoOk(g)
    ensures Feed(g, []) == g == PerformAll(g, Split([]))
  {
  }

  lemma PerformUnfinished(g: Gpu, words: seq<u32>)
    requires words != [] && |words| < WordCount(Command(words[0]))
    ensures Perform(g, Unfinished(words)) == Holding(g, words, WordCount(Command(words[0])))
  {
  }

  lemma FeedWhole(g: Gpu, words: seq<u32>)
    requires AtRest(g) && words != [] && |words| == WordCount(Command(words[0]))
    ensures Feed(g, words) == Perform(g, Whole(words))
  {
    hide Execute, Feed;
    FeedExecutes(g, words);
  }

  lemma RestIsFifoOk(g: Gpu)
    ensures AtRest(g) ==> FifoOk(g)
    ensures g.count == 0 && !g.vramWrite.active ==> AtRest(g)
  {
  }

  lemma SplitFront(words: seq<u32>)
    requires words != [] && |words| >= WordCount(Command(words[0]))
    ensures var n := WordCount(Command(words[0]));
            var front, rest := words[..n], words[n..];
            && (Command(words[0]) != 0xA0 ==> Split(words) == [Whole(front)] + Split(rest))
            && (Command(words[0]) == 0xA0 ==>
                  var k := Min(UploadWords(SizeArea(words[2])), |rest|);
                  Split(words) == [Whole(front)] + ([Data(rest[..k])] + Split(rest[k..])))
  {
    hide UploadWords, SizeArea;
  }

  /** Feeding any stream word by word, cut anywhere, gives the same state as splitting it into
      commands and payloads first and performing those. */
  lemma {:induction false} StreamingEqualsBatch(g: Gpu, words: seq<u32>)
    requires AtRest(g)
    ensures Feed(g, words) == PerformAll(g, Split(words))
    decreases |words|
  {
    RestIsFifoOk(g);
    if words == [] {
      FeedNothing(g);
    } else if |words| < WordCount(Command(words[0])) {
      FeedHolds(g, words);
      PerformUnfinished(g, words);
      assert [Unfinished(words)] == [Unfinished(words)] + [];
      PerformPrefix(g, Unfinished(words), []);
    } else {
      var n := WordCount(Command(words[0]));
      var front, rest := words[..n], words[n..];
      assert words == front + rest;
      SplitFront(words);
      FeedConcat(g, front, rest);
      FeedWhole(g, front);
      AfterCommand(g, front);
      var g1 := Perform(g, Whole(front));
      RestIsFifoOk(g1);
      if Command(words[0]) != 0xA0 {
        StreamingEqualsBatch(g1, rest);
        PerformPrefix(g, Whole(front), Split(rest));
        hide Split;
      } else {
        UploadThenRest(g1, rest);
        var k := Min(UploadWords(SizeArea(words[2])), |rest|);
        PerformPrefix(g, Whole(front), [Data(rest[..k])] + Split(rest[k..]));
        hide Split;
      }
    }
    hide Feed, Perform, PerformAll, UploadWords, Fresh, Command, WordCount;
  }

  lemma {:induction false} UploadThenRest(g: Gpu, words: seq<u32>)
    requires g.count == 0 && Fresh(g.vramWrite)
    ensures FifoOk(g)
    ensures var k := Min(UploadWords(Area(g.vramWrite)), |words|);
            Feed(g, words) == PerformAll(g, [Data(words[..k])] + Split(words[k..]))
    decreases |words|
  {
    hide Feed, UploadWords, Uploaded, Fresh, Area;
    var k := Min(UploadWords(Area(g.vramWrite)), |words|);
    var data, later := words[..k], words[k..];
    assert words == data + later;
    FeedConcat(g, data, later);
    FeedUploads(g, g.vramWrite, data);
    PerformPrefix(g, Data(data), Split(later));
    var g1 := Perform(g, Data(data));
    if k < |words| {
      AfterUpload(g, data);
      StreamingEqualsBatch(g1, later);
    } else {
      FeedNothing(g1);
    }
  }

  function Joined(items: seq<Item>): seq<u32>
    decreases |items|
  {
    if items == [] then [] else items[0].words + Joined(items[1..])
  }

  lemma JoinedPrefix(item: Item, items: seq<Item>)
    ensures Joined([item] + items) == item.words + Joined(items)
    ensures Joined([]) == []
  {
    assert ([item] + items)[1..] == items;
  }

  /** Splitting loses, repeats and reorders nothing. */
  lemma {:induction false} SplitConserves(words: seq<u32>)
    ensures Joined(Split(words)) == words
    decreases |words|, 1
  {
    hide Joined, UploadWords, Command, SizeArea;
    if words == [] {
      JoinedPrefix(Whole([]), []);
    } else {
      var n := WordCount(Command(words[0]));
      if |words| < n {
        assert [Unfinished(words)] == [Unfinished(words)] + [];
        JoinedPrefix(Unfinished(words), []);
      } else {
        ConservedFront(words);
      }
    }
  }

  /** A whole command and what follows it lose nothing. */
  lemma {:induction false} ConservedFront(words: seq<u32>)
    requires words != [] && |words| >= WordCount(Command(words[0]))
    ensures Joined(Split(words)) == words
    decreases |words|, 0
  {
    hide Joined, UploadWords, Command, SizeArea, Split;
    var n := WordCount(Command(words[0]));
    var front, rest := words[..n], words[n..];
    SplitFront(words);
    if Command(words[0]) != 0xA0 {
      SplitConserves(rest);
      JoinedPrefix(Whole(front), Split(rest));
    } else {
      var k := Min(UploadWords(SizeArea(words[2])), |rest|);
      SplitConserves(rest[k..]);
      JoinedPrefix(Data(rest[..k]), Split(rest[k..]));
      JoinedPrefix(Whole(front), [Data(rest[..k])] + Split(rest[k..]));
    }
  }

  // ----- uploading a rectangle and downloading it again -----

  /** An upload command with its data leaves the port at rest and the data in the rectangle. */
  lemma WholeUpload(g: Gpu, up: seq<u32>, data: seq<u32>)
    requires AtRest(g) && |up| == 3 && Command(up[0]) == 0xA0
    requires var t := Started(up[1], up[2]); |data| == UploadWords(Area(t))
    ensures var t := Started(up[1], up[2]);
            var n := UploadPixels(Area(t), |data|);
            var g1 := Feed(g, up + data);
            Fresh(t) && (n > 0 ==> t.w > 0) && AtRest(g1) && g1.vram == Stored(g.vram, t, Pixels(data)[..n])
  {
    var t := Started(up[1], up[2]);
    StartedIsFresh(up[1], up[2]);
    PositiveWidth(t);
    RestIsFifoOk(g);
    FeedConcat(g, up, data);
    FeedWhole(g, up);
    AfterCommand(g, up);
    var g0 := Perform(g, Whole(up));
    assert g0.vram == g.vram;
    FeedUploads(g0, t, data);
    hide Feed, Perform, UploadWords, Stored, Pixels, Area, Started, Raised, Progress;
  }

  /** A download command starts the download it describes, raises the ready bit and moves nothing. */
  lemma WholeDownload(g: Gpu, down: seq<u32>)
    requires AtRest(g) && |down| == 3 && Command(down[0]) == 0xC0
    ensures var g1 := Feed(g, down);
            && g1.vramRead == Started(down[1], down[2]) && g1.vram == g.vram && AtRest(g1)
            && BitOf(g1.stat, READ_READY_BIT) == 1 && g1.dmaDirection == g.dmaDirection
  {
    hide Feed, Started, Raised, BitOf;
    FeedWhole(g, down);
    RaisedIsSet(g.stat, READ_READY_BIT);
  }

  /** A download from its command on: after any number of words the counters, the activity of the transfer
      and the ready bit say how many words remain, and so does the request bit with DMA towards the CPU. */
  lemma DownloadFromCommand(g: Gpu, down: seq<u32>, n: nat)
    requires AtRest(g) && |down| == 3 && Command(down[0]) == 0xC0
    requires var t := Started(down[1], down[2]); Area(t) > 0 && n <= DownloadWords(Area(t))
    ensures var d := Reads(Feed(g, down), n).1;
            var left := DownloadWords(Area(Started(down[1], down[2]))) - n;
            && d.vram == g.vram && d.vramRead.wordsLeft == left
            && (d.vramRead.active <==> left > 0)
            && (BitOf(d.stat, READ_READY_BIT) == 1 <==> left > 0)
            && (n > 0 && g.dmaDirection == DMA_GPU_TO_CPU ==> (BitOf(d.stat, DRQ_BIT) == 1 <==> left > 0))
  {
    hide Feed, Started, BitOf, Command, Area;
    var t := Started(down[1], down[2]);
    StartedIsFresh(down[1], down[2]);
    WholeDownload(g, down);
    if n > 0 {
      DownloadStatus(Feed(g, down), t, n);
    }
  }

  /** The pixel k of a rectangle after an upload of it: what was sent as far as the upload got, and
      what was there before beyond that. */
  function Expected(vram: Vram, t: Transfer, data: seq<u32>, k: nat): u16
    requires t.w > 0
  {
    if k < UploadPixels(Area(t), |data|) then Pixels(data)[k] else vram[Cell(t, k)]
  }

  /** Round trip: the download of a rectangle just uploaded returns, in order, every pixel stored. */
  lemma UploadThenDownload(g: Gpu, up: seq<u32>, data: seq<u32>, down: seq<u32>, k: nat)
    requires AtRest(g)
    requires |up| == 3 && Command(up[0]) == 0xA0 && |down| == 3 && Command(down[0]) == 0xC0 && up[1..] == down[1..]
    requires var t := Started(up[1], up[2]); |data| == UploadWords(Area(t)) && k < Area(t)
    ensures var t := Started(up[1], up[2]);
            var words := Reads(Feed(g, up + data + down), DownloadWords(Area(t))).0;
            t.w > 0 && Pixels(words)[k] == Expected(g.vram, t, data, k)
  {
    var t := Started(up[1], up[2]);
    assert up[1] == up[1..][0] && up[2] == up[1..][1] && down[1] == down[1..][0] && down[2] == down[1..][1];
    WholeUpload(g, up, data);
    RestIsFifoOk(g);
    var g1 := Feed(g, up + data);
    FeedConcat(g, up + data, down);
    WholeDownload(g1, down);
    var g2 := Feed(g1, down);
    PositiveWidth(t);
    var n := DownloadWords(Area(t));
    DownloadRun(g2, t, n);
    var words := Reads(g2, n).0;
    PixelOfWord(words, k);
    WordsAreCells(g2.vram, t, k);
    StoredCells(g.vram, t, Pixels(data)[..UploadPixels(Area(t), |data|)]);
    StoredOrKept(g.vram, t, data, k);
    hide Feed, Reads, Stored, Cell, Started, UploadWords, Pixels, Area, Fresh, AtRest;
  }

  lemma {:induction false} PixelOfWord(words: seq<u32>, k: nat)
    requires k < 2 * |words|
    ensures Pixels(words)[k] == if k % 2 == 0 then words[k / 2] % TWO_16 else words[k / 2] / TWO_16
    decreases |words|
  {
    var n := |words| - 1;
    if k >= 2 * n {
    } else {
      PixelOfWord(words[..n], k);
    }
  }

  lemma WordsAreCells(vram: Vram, t: Transfer, k: nat)
    requires t.w > 0 && k < Area(t)
    ensures var w := DownloadWord(vram, t, k / 2);
            vram[Cell(t, k)] == if k % 2 == 0 then w % TWO_16 else w / TWO_16
  {
    hide Cell, Area;
    if k % 2 == 0 {
      assert 2 * (k / 2) == k;
    } else {
      assert 2 * (k / 2) + 1 == k;
    }
  }

  lemma StoredOrKept(vram: Vram, t: Transfer, data: seq<u32>, k: nat)
    requires Fresh(t) && t.w > 0 && k < Area(t)
    requires |data| == UploadWords(Area(t))
    ensures Stored(vram, t, Pixels(data)[..UploadPixels(Area(t), |data|)])[Cell(t, k)] == Expected(vram, t, data, k)
  {
    hide Stored, Cell, Pixels, UploadWords, Area;
    var n := UploadPixels(Area(t), |data|);
    var pixels := Pixels(data)[..n];
    StoredCells(vram, t, pixels);
    if k >= n {
      forall j | 0 <= j < n ensures Cell(t, j) != Cell(t, k) {
        if Cell(t, j) == Cell(t, k) {
          CellsAreDistinct(t, j, k);
        }
      }
    } else {
      assert Stored(vram, t, pixels)[Cell(t, k)] == pixels[k];
    }
  }

  // ----- how much of its rectangle an upload stores -----

  /** The rectangle an upload command describes. */
  function Target(up: seq<u32>): Transfer
    requires |up| == 3
  {
    Started(up[1], up[2])
  }

  /** The data words a driver sends for a rectangle: two pixels to a word. */
  predicate IsUpload(up: seq<u32>, sent: seq<u32>) {
    |up| == 3 && Command(up[0]) == 0xA0 && Area(Target(up)) > 0 && |sent| == DownloadWords(Area(Target(up)))
  }

  /** The port when the upload has ended. */
  function AfterTransfer(g: Gpu, up: seq<u32>, sent: seq<u32>): Gpu
    requires AtRest(g) && IsUpload(up, sent)
  {
    CountsDiffer(Area(Target(up)));
    Feed(g, up + sent[..UploadWords(Area(Target(up)))])
  }

  lemma CountsDiffer(area: nat)
    requires area > 0
    ensures UploadWords(area) <= DownloadWords(area)
    ensures UploadWords(area) == DownloadWords(area) <==> area <= 2
    ensures UploadPixels(area, UploadWords(area)) == area <==> area <= 2
  {
  }

  lemma SplitsInTwo(up: seq<u32>, sent: seq<u32>, n: nat)
    requires n <= |sent|
    ensures up + sent == (up + sent[..n]) + sent[n..]
  {
  }

  /** What the words behind the end of an upload meet is a port at rest. */
  lemma FeedRest(g: Gpu, up: seq<u32>, sent: seq<u32>)
    requires AtRest(g) && IsUpload(up, sent)
    ensures var n := UploadWords(Area(Target(up)));
            && n <= |sent| && AtRest(AfterTransfer(g, up, sent))
            && Feed(g, up + sent) == Feed(AfterTransfer(g, up, sent), sent[n..])
  {
    hide Feed, UploadWords, Area, Started, Command, AtRest;
    var n := UploadWords(Area(Target(up)));
    CountsDiffer(Area(Target(up)));
    WholeUpload(g, up, sent[..n]);
    RestIsFifoOk(g);
    SplitsInTwo(up, sent, n);
    FeedConcat(g, up + sent[..n], sent[n..]);
  }

  /** The upload ends before the driver is done exactly when there are more than two pixels; the words
      left over are then parsed as commands. */
  lemma RestIsCommands(g: Gpu, up: seq<u32>, sent: seq<u32>)
    requires AtRest(g) && IsUpload(up, sent)
    ensures var n := UploadWords(Area(Target(up)));
            && n <= |sent| && (n < |sent| <==> Area(Target(up)) > 2)
            && AtRest(AfterTransfer(g, up, sent))
            && Feed(g, up + sent) == PerformAll(AfterTransfer(g, up, sent), Split(sent[n..]))
  {
    hide Feed, UploadWords, Split, PerformAll, Area, Started, Command, AtRest;
    CountsDiffer(Area(Target(up)));
    FeedRest(g, up, sent);
    StreamingEqualsBatch(AfterTransfer(g, up, sent), sent[UploadWords(Area(Target(up)))..]);
  }

  /** When all the data have been sent, every cell of the rectangle holds the pixel sent for it. */
  ghost predicate IsWhole(g: Gpu, up: seq<u32>, sent: seq<u32>)
    requires AtRest(g) && IsUpload(up, sent)
  {
    forall k :: 0 <= k < Area(Target(up)) ==>
      Feed(g, up + sent).vram[Cell(Target(up), k)] == Pixels(sent)[k]
  }

  /** The cells of the rectangle when the upload has ended. */
  lemma CellsAfterTransfer(g: Gpu, up: seq<u32>, sent: seq<u32>, k: nat)
    requires AtRest(g) && IsUpload(up, sent) && k < Area(Target(up))
    ensures var t := Target(up);
            && t.w > 0
            && AfterTransfer(g, up, sent).vram[Cell(t, k)] ==
               (if k < UploadPixels(Area(t), UploadWords(Area(t))) then Pixels(sent)[k] else g.vram[Cell(t, k)])
  {
    hide Feed, UploadWords, Stored, Cell, Pixels, Area, Started, Command, AtRest, Fresh;
    var t := Target(up);
    var n := UploadWords(Area(t));
    CountsDiffer(Area(t));
    StartedIsFresh(up[1], up[2]);
    WholeUpload(g, up, sent[..n]);
    PositiveWidth(t);
    StoredOrKept(g.vram, t, sent[..n], k);
    if k < 2 * n {
      PixelOfWord(sent[..n], k);
      PixelOfWord(sent, k);
    }
  }

  /** With more than two pixels the last one is never stored. */
  lemma LastPixelIsKept(g: Gpu, up: seq<u32>, sent: seq<u32>)
    requires AtRest(g) && IsUpload(up, sent) && Area(Target(up)) > 2
    ensures var t := Target(up);
            && t.w > 0
            && AfterTransfer(g, up, sent).vram[Cell(t, Area(t) - 1)] == g.vram[Cell(t, Area(t) - 1)]
  {
    hide Cell, Pixels, Area, Started, AfterTransfer, AtRest;
    CellsAfterTransfer(g, up, sent, Area(Target(up)) - 1);
  }

  /** One word to a port at rest starts at most a transfer. */
  lemma OneWordKeepsVram(g: Gpu, word: u32)
    requires FifoOk(g) && !g.vramWrite.active
    ensures Gp0Write(g, word).vram == g.vram
  {
    hide Raised, Started;
  }

  /** Commands of code 0 do nothing. */
  lemma {:induction false} NoOperations(g: Gpu, words: seq<u32>)
    requires AtRest(g) && forall w <- words :: Command(w) == 0
    ensures Feed(g, words).vram == g.vram && AtRest(Feed(g, words))
    decreases |words|
  {
    hide Started, Raised, DrawMode, Command;
    if words == [] {
    } else {
      NoOperations(g, words[..|words| - 1]);
      NoOperation(Feed(g, words[..|words| - 1]), words[|words| - 1]);
    }
  }

  lemma NoOperation(g: Gpu, word: u32)
    requires AtRest(g) && Command(word) == 0
    ensures Gp0Write(g, word).vram == g.vram && AtRest(Gp0Write(g, word))
  {
    hide Started, Raised, DrawMode;
  }

  /** Data whose every pixel differs from what the memory holds in one cell, and whose every word is
      a command that does nothing. */
  function Unlike(pixel: u16, n: nat): (words: seq<u32>)
    ensures |words| == n && forall w <- words :: Command(w) == 0
  {
    var other := if pixel == 0 then 1 else 0;
    seq(n, _ => other * TWO_16 + other)
  }

  lemma UnlikePixels(pixel: u16, n: nat, k: nat)
    requires k < 2 * n
    ensures Pixels(Unlike(pixel, n))[k] != pixel
  {
    PixelOfWord(Unlike(pixel, n), k);
  }

  /** An upload is sure to leave its whole rectangle behind, once all its data have been sent, exactly when
      that has at most two pixels. The evident intent was that it always does. */
  lemma UploadIsWholeIff(g: Gpu, up: seq<u32>)
    requires AtRest(g) && |up| == 3 && Command(up[0]) == 0xA0 && Area(Target(up)) > 0
    ensures (forall sent :: IsUpload(up, sent) ==> IsWhole(g, up, sent)) <==> Area(Target(up)) <= 2
  {
    hide AfterTransfer, Cell, Pixels, Area, Started, Command, AtRest, IsWhole;
    if Area(Target(up)) <= 2 {
      forall sent | IsUpload(up, sent) ensures IsWhole(g, up, sent) {
        SmallIsWhole(g, up, sent);
      }
    } else {
      LargeIsNotWhole(g, up);
    }
  }

  lemma SmallIsWhole(g: Gpu, up: seq<u32>, sent: seq<u32>)
    requires AtRest(g) && IsUpload(up, sent) && Area(Target(up)) <= 2
    ensures IsWhole(g, up, sent)
  {
    hide Cell, Pixels, Area, Started, Command, AtRest, Feed;
    var t := Target(up);
    CountsDiffer(Area(t));
    PositiveWidth(t);
    RestIsFifoOk(g);
    assert sent[..UploadWords(Area(t))] == sent;
    forall k | 0 <= k < Area(t) ensures Feed(g, up + sent).vram[Cell(t, k)] == Pixels(sent)[k] {
      CellsAfterTransfer(g, up, sent, k);
    }
  }

  lemma LargeIsNotWhole(g: Gpu, up: seq<u32>)
    requires AtRest(g) && |up| == 3 && Command(up[0]) == 0xA0 && Area(Target(up)) > 2
    ensures exists sent :: IsUpload(up, sent) && !IsWhole(g, up, sent)
  {
    hide AfterTransfer, Cell, Pixels, Area, Started, Command, AtRest, Feed, UploadWords;
    var t := Target(up);
    var area := Area(t);
    PositiveWidth(t);
    var pixel := g.vram[Cell(t, area - 1)];
    var sent := Unlike(pixel, DownloadWords(area));
    LastPixelIsKept(g, up, sent);
    FeedRest(g, up, sent);
    NoOperations(AfterTransfer(g, up, sent), sent[UploadWords(area)..]);
    UnlikePixels(pixel, DownloadWords(area), area - 1);
    assert IsUpload(up, sent) && !IsWhole(g, up, sent);
  }

  /** A rectangle one pixel wide and three high: whatever two data words are sent, the third cell stays. */
  lemma ThreePixels(g: Gpu, first: u32, second: u32)
    requires AtRest(g)
    ensures Feed(g, [0xA000_0000, 0, 0x1_0003] + [first, second]).vram[2 * VRAM_WIDTH] == g.vram[2 * VRAM_WIDTH]
  {
    hide AfterTransfer, AtRest, Gp0Write;
    var up: seq<u32>, sent: seq<u32> := [0xA000_0000, 0, 0x1_0003], [first, second];
    var t := Target(up);
    assert Area(t) == 3 && UploadWords(3) == 1 && DownloadWords(3) == 2 && Command(up[0]) == 0xA0;
    assert Cell(t, 2) == 2 * VRAM_WIDTH;
    LastPixelIsKept(g, up, sent);
    FeedRest(g, up, sent);
    FeedOneMore(AfterTransfer(g, up, sent), second);
    assert sent[1..] == [second];
  }

  lemma FeedOneMore(g: Gpu, word: u32)
    requires AtRest(g)
    ensures Feed(g, [word]).vram == g.vram
  {
    OneWordKeepsVram(g, word);
    assert [word][..0] == [];
  }
}
