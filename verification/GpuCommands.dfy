/** The commands of the GPU, said from the words a program sends: where a rectangle lies, what each command
    changes, and what the control port reports. */
module GpuCommands {
  import opened Words
  import opened Bits
  import opened Digits
  import opened GpuPort
  import opened GpuTransfers
  import opened GpuStream

  // ----- where a rectangle lies -----

  /** The cell of pixel k of a rectangle w wide whose corner is coords. */
  function Place(coords: u32, w: nat, k: nat): (c: nat)
    requires w > 0
    ensures c < VRAM_SIZE
  {
    (coords % 512 + k / w) % 512 * 1024 + (coords / 65536 % 1024 + k % w) % 1024
  }

  lemma CellIsPlace(coords: u32, size: u32, k: nat)
    requires size / 65536 % 1024 > 0
    ensures var t := Started(coords, size);
            t.w == size / 65536 % 1024 && Cell(t, k) == Place(coords, t.w, k)
  {
  }

  /** The area of a rectangle, and how many data words an upload of it takes. */
  function SizeOf(size: u32): nat {
    AreaBound(size / 65536 % 1024, size % 512);
    (size / 65536 % 1024) * (size % 512)
  }

  function WordsTaken(size: u32): nat {
    if SizeOf(size) <= 2 then 1 else ((SizeOf(size) + 1) / 2 + 1) / 2
  }

  lemma SizeIsArea(coords: u32, size: u32)
    ensures Area(Started(coords, size)) == SizeOf(size) && UploadWords(SizeOf(size)) == WordsTaken(size)
    ensures Started(coords, size).w == size / 65536 % 1024
  {
  }

  /** Halfword k of a stream of words, low half first. */
  function Halfword(words: seq<u32>, k: nat): u16
    requires k < 2 * |words|
  {
    if k % 2 == 0 then words[k / 2] % 65536 else words[k / 2] / 65536
  }

  lemma HalfwordIsPixel(words: seq<u32>, k: nat)
    requires k < 2 * |words|
    ensures Halfword(words, k) == Pixels(words)[k]
  {
    PixelOfWord(words, k);
  }

  /** The video memory some data words into an upload. */
  lemma MidUpload(g: Gpu, word: u32, coords: u32, size: u32, data: seq<u32>)
    requires AtRest(g) && Command(word) == 0xA0 && |data| <= WordsTaken(size)
    ensures var t := Started(coords, size);
            var n := UploadPixels(SizeOf(size), |data|);
            && (n > 0 ==> t.w > 0) && Fresh(t) && |data| <= UploadWords(Area(t))
            && Feed(g, [word, coords, size] + data).vram == Stored(g.vram, t, Pixels(data)[..n])
            && Feed(g, [word, coords, size] + data) == Uploaded(Perform(g, Whole([word, coords, size])), t, data)
  {
    var t := Started(coords, size);
    var up := [word, coords, size];
    StartedIsFresh(coords, size);
    SizeIsArea(coords, size);
    PositiveWidth(t);
    RestIsFifoOk(g);
    FeedConcat(g, up, data);
    FeedWhole(g, up);
    AfterCommand(g, up);
    var g0 := Perform(g, Whole(up));
    assert g0.vram == g.vram;
    FeedUploads(g0, t, data);
    hide Feed, Perform, UploadWords, Stored, Pixels, Area, Started, Raised, Progress, Command, SizeOf, WordsTaken;
  }

  /** An upload, any number of its data words in: halfword k of the data is in the row and the column that the
      words of the command say, counted from the upper half of the coordinates to the right and from the lower
      half down, round both edges of the memory. */
  lemma UploadLies(g: Gpu, word: u32, coords: u32, size: u32, data: seq<u32>, k: nat)
    requires AtRest(g) && word / 0x100_0000 == 0xA0 && |data| <= WordsTaken(size)
    requires size / 65536 % 1024 > 0 && k < SizeOf(size) && k < 2 * |data|
    ensures var w := size / 65536 % 1024;
            Feed(g, [word, coords, size] + data)
              .vram[(coords % 512 + k / w) % 512 * 1024 + (coords / 65536 % 1024 + k % w) % 1024]
            == if k % 2 == 0 then data[k / 2] % 65536 else data[k / 2] / 65536
  {
    hide Feed, Started, Stored, Pixels, SizeOf, WordsTaken, AtRest, Fresh, Cell, UploadWords;
    var t := Started(coords, size);
    var pixels := Pixels(data)[..UploadPixels(SizeOf(size), |data|)];
    MidUpload(g, word, coords, size, data);
    FreshRectangle(t);
    SizeIsArea(coords, size);
    StoredCells(g.vram, t, pixels);
    CellIsPlace(coords, size, k);
    HalfwordIsPixel(data, k);
    assert pixels[k] == Pixels(data)[k];
  }

  lemma FreshRectangle(t: Transfer)
    requires Fresh(t)
    ensures Rectangle(t)
  {
  }

  /** No other cell changes. */
  lemma UploadSpares(g: Gpu, word: u32, coords: u32, size: u32, data: seq<u32>, c: nat)
    requires AtRest(g) && word / 0x100_0000 == 0xA0 && |data| <= WordsTaken(size) && c < VRAM_SIZE
    requires var w := size / 65536 % 1024;
             forall k :: 0 <= k < SizeOf(size) && k < 2 * |data| && w > 0 ==> Place(coords, w, k) != c
    ensures Feed(g, [word, coords, size] + data).vram[c] == g.vram[c]
  {
    hide Feed, Started, Stored, Pixels, SizeOf, WordsTaken, AtRest, Fresh, Cell, UploadWords, Place;
    var t := Started(coords, size);
    var n := UploadPixels(SizeOf(size), |data|);
    MidUpload(g, word, coords, size, data);
    FreshRectangle(t);
    SizeIsArea(coords, size);
    StoredCells(g.vram, t, Pixels(data)[..n]);
    forall k | 0 <= k < n ensures t.w > 0 && Cell(t, k) != c {
      CellIsPlace(coords, size, k);
    }
  }

  /** A download, any number of words in: halfword k that was read is the content of the cell the words of the
      command say. */
  lemma DownloadLies(g: Gpu, word: u32, coords: u32, size: u32, n: nat, k: nat)
    requires AtRest(g) && word / 0x100_0000 == 0xC0 && n <= (SizeOf(size) + 1) / 2
    requires size / 65536 % 1024 > 0 && k < SizeOf(size) && k < 2 * n
    ensures var w := size / 65536 % 1024;
            var words := Reads(Feed(g, [word, coords, size]), n).0;
            (if k % 2 == 0 then words[k / 2] % 65536 else words[k / 2] / 65536)
            == g.vram[(coords % 512 + k / w) % 512 * 1024 + (coords / 65536 % 1024 + k % w) % 1024]
  {
    hide Feed, Started, SizeOf, AtRest, Fresh, Cell, BitOf, Reads;
    var t := Started(coords, size);
    var down := [word, coords, size];
    StartedIsFresh(coords, size);
    SizeIsArea(coords, size);
    RestIsFifoOk(g);
    WholeDownload(g, down);
    DownloadRun(Feed(g, down), t, n);
    CellIsPlace(coords, size, k);
    WordsAreCells(g.vram, t, k);
  }

  // ----- the status bits of a transfer -----

  /** The status with one bit set or cleared. */
  lemma StatusBits(stat: u32, bit: u32, n: nat, k: nat)
    requires (bit, n) in {(DRQ_BIT, 25), (READ_READY_BIT, 27), (WRITE_FIFO_EMPTY_BIT, 28)} && k < 32
    ensures Bit(Raised(stat, bit), k) == if k == n then 1 else Bit(stat, k)
    ensures Bit(Cleared(stat, bit), k) == if k == n then 0 else Bit(stat, k)
    ensures BitOf(stat, bit) == Bit(stat, n)
  {
    hide Bit, Pow2;
    Powers();
    BitPlaces(bit, n);
    BitIsShift(stat, n);
    var upper, b, low := stat / bit / 2, stat / bit % 2, stat % bit;
    SplitAtBit(stat, bit);
    UpperAndLower(upper * 2 + b, low, n, k);
    UpperAndLower(upper * 2 + 1, low, n, k);
    UpperAndLower(upper * 2 + 0, low, n, k);
    if k >= n {
      LowestDigit(upper, b, k - n);
      LowestDigit(upper, 1, k - n);
      LowestDigit(upper, 0, k - n);
    }
  }

  lemma BitPlaces(bit: u32, n: nat)
    requires (bit, n) in {(DRQ_BIT, 25), (READ_READY_BIT, 27), (WRITE_FIFO_EMPTY_BIT, 28)}
    ensures Pow2(n) == bit
  {
    Powers();
  }

  lemma SplitAtBit(stat: u32, bit: u32)
    requires bit in {DRQ_BIT, READ_READY_BIT, WRITE_FIFO_EMPTY_BIT}
    ensures var upper, low := stat / bit / 2, stat % bit;
            && stat == (upper * 2 + BitOf(stat, bit)) * bit + low
            && Raised(stat, bit) == (upper * 2 + 1) * bit + low
            && Cleared(stat, bit) == (upper * 2 + 0) * bit + low
  {
  }

  lemma LowestDigit(upper: nat, b: nat, k: nat)
    requires b < 2
    ensures Bit(upper * 2 + b, k) == if k == 0 then b else Bit(upper, k - 1)
  {
  }

  /** An upload, any number of its data words in: bit 28 of the status is set with the last of them, no other bit
      ever changes, and nothing of the GPU does but the memory, the upload and the command buffer. */
  lemma UploadStatus(g: Gpu, word: u32, coords: u32, size: u32, data: seq<u32>, k: nat)
    requires AtRest(g) && word / 0x100_0000 == 0xA0 && |data| <= WordsTaken(size) && k < 32
    ensures var g1 := Feed(g, [word, coords, size] + data);
            && (g1.vramWrite.active <==> |data| < WordsTaken(size))
            && g1 == g.(vram := g1.vram, vramWrite := g1.vramWrite, fifo := g1.fifo, expected := g1.expected,
                        stat := g1.stat)
            && Bit(g1.stat, k) == if k == 28 && |data| == WordsTaken(size) then 1 else Bit(g.stat, k)
  {
    hide Feed, Started, Stored, Pixels, SizeOf, Fresh, UploadWords, Bit, Raised, Area, Progress;
    MidUpload(g, word, coords, size, data);
    SizeIsArea(coords, size);
    StatusBits(g.stat, WRITE_FIFO_EMPTY_BIT, 28, k);
  }

  /** A download of a rectangle that is not empty, any number of words in: bit 27 of the status says whether words
      remain, and so does bit 25 after each word if the DMA direction is 2; for any other direction it is clear.
      No other bit changes, and nothing of the GPU does but the download, the latch, which holds the last word
      read, and the command buffer. */
  lemma DownloadStatusBits(g: Gpu, word: u32, coords: u32, size: u32, n: nat, k: nat)
    requires AtRest(g) && word / 0x100_0000 == 0xC0 && 0 < SizeOf(size) && n <= (SizeOf(size) + 1) / 2 && k < 32
    ensures var d := Reads(Feed(g, [word, coords, size]), n).1;
            var remain := n < (SizeOf(size) + 1) / 2;
            && (d.vramRead.active <==> remain)
            && d == g.(vramRead := d.vramRead, fifo := d.fifo, expected := d.expected, stat := d.stat, read := d.read)
            && Bit(d.stat, k) == (if k == 27 then (if remain then 1 else 0)
                                  else if k == 25 && n > 0 then (if g.dmaDirection == 2 && remain then 1 else 0)
                                  else Bit(g.stat, k))
            && (n > 0 ==> d.read == Reads(Feed(g, [word, coords, size]), n).0[n - 1])
  {
    hide Feed, Started, SizeOf, Fresh, Bit, Raised, Cleared, Area, Reads, ReadProgress, DownloadWord;
    var t := Started(coords, size);
    var down := [word, coords, size];
    StartedIsFresh(coords, size);
    SizeIsArea(coords, size);
    RestIsFifoOk(g);
    FeedWhole(g, down);
    DownloadRun(Feed(g, down), t, n);
    var s1 := Raised(g.stat, READ_READY_BIT);
    var s2 := if n < (SizeOf(size) + 1) / 2 then s1 else Cleared(s1, READ_READY_BIT);
    StatusBits(g.stat, READ_READY_BIT, 27, k);
    StatusBits(s1, READ_READY_BIT, 27, k);
    StatusBits(s2, DRQ_BIT, 25, k);
    StartedIsActive(coords, size);
  }

  /** The request bit: for DMA towards the GPU it says that a command is being collected, for DMA towards the CPU
      that a download has words left, and else it is clear. */
  lemma RequestBit(g: Gpu, k: nat)
    requires k < 32
    ensures var d := UpdateDrq(g);
            && d == g.(stat := d.stat)
            && Bit(d.stat, k) ==
               if k != 25 then Bit(g.stat, k)
               else if (g.dmaDirection == 1 && g.count > 0)
                       || (g.dmaDirection == 2 && g.vramRead.active && g.vramRead.wordsLeft > 0) then 1
               else 0
  {
    hide Bit, Raised, Cleared;
    StatusBits(g.stat, DRQ_BIT, 25, k);
  }

  lemma StartedIsActive(coords: u32, size: u32)
    ensures Started(coords, size).active
  {
  }

  // ----- what each command changes -----

  /** The attributes after a command with one of the codes 0xE1 to 0xE6. */
  function Attributes(a: RenderAttributes, code: nat, value: u32): RenderAttributes {
    match code
    case 0xE1 => a.(drawMode := value)
    case 0xE2 => a.(texWindow := value)
    case 0xE3 => a.(drawTopLeft := value)
    case 0xE4 => a.(drawBottomRight := value)
    case 0xE5 => a.(drawOffset := value)
    case 0xE6 => a.(maskSetting := value)
    case _ => a
  }

  /** A command of one word. */
  lemma OneWord(g: Gpu, word: u32)
    requires AtRest(g) && WordCount(Command(word)) == 1
    ensures Feed(g, [word]) == Execute(g.(fifo := g.fifo[0 := word], count := 1, expected := 1)).(count := 0)
  {
    hide Execute, Feed, Command;
    FeedExecutes(g, [word]);
    assert [word] + g.fifo[1..] == g.fifo[0 := word];
  }

  /** The commands 0xE2 to 0xE6 set the attribute of their own and nothing else; 0xE1 sets the draw mode and bits
      12 to 15 of the status. All other commands of one word, known or not, do nothing. */
  lemma OneWordCommand(g: Gpu, word: u32, k: nat)
    requires AtRest(g) && k < 32 && word / 0x100_0000 !in {0x02, 0xA0, 0xC0}
    ensures var code := word / 0x100_0000;
            var g1 := Feed(g, [word]);
            && g1 == g.(fifo := g1.fifo, expected := g1.expected, stat := g1.stat,
                        attributes := Attributes(g.attributes, code, word % 0x100_0000))
            && (code != 0xE1 ==> g1.stat == g.stat)
            && Bit(g1.stat, k) == (if code == 0xE1 && 12 <= k < 16 then Bit(word, k) else Bit(g.stat, k))
  {
    hide Feed, Bit;
    OneWord(g, word);
    DrawModeDigits(g.stat, word, k);
  }

  lemma DrawModeDigits(stat: u32, word: u32, k: nat)
    ensures var s := stat - stat / 0x1000 % 0x10 * 0x1000 + word / 0x1000 % 0x10 * 0x1000;
            s >= 0 && Bit(s, k) == if 12 <= k < 16 then Bit(word, k) else Bit(stat, k)
  {
    hide Bit, Pow2;
    Powers();
    var upper, low := stat / 0x1000, stat % 0x1000;
    var upper', field := word / 0x1000, word / 0x1000 % 0x10;
    DrawModeFits(stat, field);
    UpperAndLower(upper, low, 12, k);
    UpperAndLower(upper / 0x10 * 0x10 + field, low, 12, k);
    UpperAndLower(upper', word % 0x1000, 12, k);
    if k >= 12 {
      UpperAndLower(upper / 0x10, upper % 0x10, 4, k - 12);
      UpperAndLower(upper / 0x10, field, 4, k - 12);
      UpperAndLower(upper' / 0x10, field, 4, k - 12);
    }
  }

  /** A fill takes two more words: all three are swallowed, whatever they are, and nothing else changes. */
  lemma FillIsSwallowed(g: Gpu, word: u32, second: u32, third: u32)
    requires AtRest(g) && word / 0x100_0000 == 0x02
    ensures var g1, g2, g3 := Feed(g, [word]), Feed(g, [word, second]), Feed(g, [word, second, third]);
            && g1 == g.(fifo := g1.fifo, expected := g1.expected, count := 1)
            && g2 == g.(fifo := g2.fifo, expected := g2.expected, count := 2)
            && g3 == g.(fifo := g3.fifo, expected := g3.expected)
  {
    hide Feed;
    FeedHolds(g, [word]);
    FeedHolds(g, [word, second]);
    FeedExecutes(g, [word, second, third]);
  }

  // ----- what the control port reports -----

  function Attribute(a: RenderAttributes, index: nat): u32
    requires 2 <= index <= 5
  {
    match index
    case 2 => a.texWindow
    case 3 => a.drawTopLeft
    case 4 => a.drawBottomRight
    case 5 => a.drawOffset
  }

  /** The parameter of the last command with the given code among some pieces of a stream. */
  function LastSent(items: seq<Item>, code: nat, otherwise: u32): u32
    decreases |items|
  {
    if items == [] then otherwise
    else if items[0].Whole? && items[0].words != [] && items[0].words[0] / 0x100_0000 == code then
      LastSent(items[1..], code, items[0].words[0] % 0x100_0000)
    else LastSent(items[1..], code, otherwise)
  }

  /** Pieces as Split cuts them: a command is as long as its first word says. */
  ghost predicate Commands(items: seq<Item>) {
    forall i <- items :: i.Whole? ==> i.words != [] && |i.words| == WordCount(Command(i.words[0]))
  }

  lemma {:induction false} SplitIsCommands(words: seq<u32>)
    ensures Commands(Split(words))
    decreases |words|
  {
    hide Command, UploadWords, SizeArea;
    if words == [] {
    } else if |words| >= WordCount(Command(words[0])) {
      var n := WordCount(Command(words[0]));
      var rest := words[n..];
      SplitFront(words);
      if Command(words[0]) != 0xA0 {
        SplitIsCommands(rest);
      } else {
        SplitIsCommands(rest[Min(UploadWords(SizeArea(words[2])), |rest|)..]);
      }
    }
  }

  /** One piece changes an attribute only if it is the command for it. */
  lemma PerformAttribute(g: Gpu, item: Item, index: nat)
    requires 2 <= index <= 5 && Commands([item])
    ensures Attribute(Perform(g, item).attributes, index) ==
            LastSent([item], 0xE0 + index, Attribute(g.attributes, index))
  {
    hide Started, Uploaded, Raised, UploadWords, Fresh;
    assert item in [item];
    match item
    case Whole(words) => assert Holding(g, words, |words|).fifo[0] == words[0];
    case Data(words) =>
      if Fresh(g.vramWrite) && |words| <= UploadWords(Area(g.vramWrite)) {
        UploadKeepsAttributes(g, words);
      }
    case Unfinished(words) =>
  }

  lemma UploadKeepsAttributes(g: Gpu, words: seq<u32>)
    requires Fresh(g.vramWrite) && |words| <= UploadWords(Area(g.vramWrite))
    ensures Uploaded(g, g.vramWrite, words).attributes == g.attributes
  {
    hide Stored, Raised, UploadWords;
  }

  lemma {:induction false} AllAttributes(g: Gpu, items: seq<Item>, index: nat)
    requires 2 <= index <= 5 && Commands(items)
    ensures Attribute(PerformAll(g, items).attributes, index) ==
            LastSent(items, 0xE0 + index, Attribute(g.attributes, index))
    decreases |items|
  {
    hide Perform, Attribute, WordCount, Command;
    if items == [] {
    } else {
      assert Commands([items[0]]);
      PerformAttribute(g, items[0], index);
      AllAttributes(Perform(g, items[0]), items[1..], index);
      assert [items[0]][1..] == [];
    }
  }

  /** Whatever stream of words a program has sent, the information command 0x10 with index 2 to 5 makes the read
      port answer with the parameter of the last command 0xE2 to 0xE5, as long as no download is running. */
  lemma InformationIsLastSent(g: Gpu, words: seq<u32>, param: nat)
    requires AtRest(g) && param < 0x100_0000 && 2 <= param % 0x10 <= 5
    ensures var index := param % 0x10;
            var g1 := Feed(g, words);
            !g1.vramRead.active ==>
              Gp0Read(Gp1Write(g1, 0x1000_0000 + param)).0 ==
              LastSent(Split(words), 0xE0 + index, Attribute(g.attributes, index))
  {
    hide Feed, Split, PerformAll, LastSent, DisplayMode, And, Or;
    SplitIsCommands(words);
    StreamingEqualsBatch(g, words);
    AllAttributes(g, Split(words), param % 0x10);
    Parameter(0x10, param);
  }

  lemma Parameter(code: nat, param: nat)
    requires code < 0x100 && param < 0x100_0000
    ensures var value := code * 0x100_0000 + param;
            value / 0x100_0000 == code && value % 0x100_0000 == param
  {
    DivModUnique(code * 0x100_0000 + param, 0x100_0000, code, param);
  }

  /** In particular the parameter of the command just sent comes back. */
  lemma InformationReturns(g: Gpu, word: u32, index: nat)
    requires AtRest(g) && !g.vramRead.active && 2 <= index <= 5 && word / 0x100_0000 == 0xE0 + index
    ensures Gp0Read(Gp1Write(Feed(g, [word]), 0x1000_0000 + index)).0 == word % 0x100_0000
  {
    hide Feed, Gp1Write, Gp0Read, Bit, Split;
    InformationIsLastSent(g, [word], index);
    OneWordCommand(g, word, 0);
    OnlyItem(word);
    assert [Whole([word])][1..] == [];
  }

  lemma OnlyItem(word: u32)
    requires WordCount(Command(word)) == 1
    ensures Split([word]) == [Whole([word])]
  {
    var words := [word];
    assert words[..1] == words && words[1..] == [];
  }

  // ----- the status bits of the control port -----

  /** Bits 14 to 22 of the status after the display-mode command: which bit of the parameter each one is. The
      fields overlap in bits 20 and 21, and bit 23 is cleared. */
  function DisplayDigit(stat: nat, param: nat, k: nat): nat {
    match k
    case 14 => Bit(param, 9)
    case 16 => Bit(param, 4)
    case 17 => Bit(param, 0)
    case 18 => Bit(param, 1)
    case 19 => Bit(param, 2)
    case 20 => if Bit(param, 3) == 1 || Bit(param, 5) == 1 then 1 else 0
    case 21 => if Bit(param, 6) == 1 || Bit(param, 7) == 1 then 1 else 0
    case 22 => Bit(param, 8)
    case 23 => 0
    case _ => Bit(stat, k)
  }

  /** One bit of the status after a command to the control port. */
  function StatusDigit(stat: nat, code: nat, param: nat, k: nat): nat {
    match code
    case 0x00 => Bit(0x1480_2000, k)
    case 0x02 => if k == 24 then 0 else Bit(stat, k)
    case 0x03 => if k == 23 then 1 - Bit(param, 0) else Bit(stat, k)
    case 0x04 => if k == 29 || k == 30 then Bit(param, k - 29) else Bit(stat, k)
    case 0x08 => DisplayDigit(stat, param, k)
    case _ => Bit(stat, k)
  }

  lemma MaskDigits(k: nat)
    requires k < 32
    ensures Bit(0x100_0000, k) == (if k == 24 then 1 else 0)
    ensures Bit(0x80_0000, k) == (if k == 23 then 1 else 0)
    ensures Bit(0x6000_0000, k) == (if k == 29 || k == 30 then 1 else 0)
    ensures Bit(DISPLAY_MODE_MASK, k) == (if k == 14 || 16 <= k < 24 then 1 else 0)
  {
    hide Bit, Pow2;
    Powers();
    MorePowers();
    MaskDigit(1, 24, k, 2, 0x100_0000);
    MaskDigit(1, 23, k, 2, 0x80_0000);
    MaskDigit(2, 29, k, 4, 0x2000_0000);
    MaskDigit(1, 14, k, 2, 0x4000);
    UpperAndLower(0xFF, 0x4000, 16, k);
    if k >= 16 {
      OnesDigit(8, k - 16);
    }
  }

  lemma DisplayModeDigits(stat: u32, param: nat, k: nat)
    requires param < 0x100_0000 && k < 32
    ensures Bit(DisplayMode(stat, param), k) == DisplayDigit(stat, param, k)
  {
    hide Bit, Pow2, And, OrBits, Not;
    Powers();
    MorePowers();
    MaskDigits(k);
    var s0 := And(stat, Not(DISPLAY_MODE_MASK));
    var f1, f2, f3, f4 := param / 0x200 % 2 * 0x4000, param / 0x10 % 2 * 0x1_0000, param % 4 * 0x2_0000,
                          param / 4 % 4 * 0x8_0000;
    var f5, f6, f7 := param / 0x20 % 4 * 0x10_0000, param / 0x80 % 2 * 0x20_0000, param / 0x100 % 2 * 0x40_0000;
    ClearedDigit(stat, DISPLAY_MODE_MASK, k);
    FieldDigit(param, 9, 1, 14, k, 0x200, 2, 0x4000);
    FieldDigit(param, 4, 1, 16, k, 0x10, 2, 0x1_0000);
    FieldDigit(param, 0, 2, 17, k, 1, 4, 0x2_0000);
    FieldDigit(param, 2, 2, 19, k, 4, 4, 0x8_0000);
    FieldDigit(param, 5, 2, 20, k, 0x20, 4, 0x10_0000);
    FieldDigit(param, 7, 1, 21, k, 0x80, 2, 0x20_0000);
    FieldDigit(param, 8, 1, 22, k, 0x100, 2, 0x40_0000);
    OrBit(s0, f1, k);
    var s1 := Or(s0, f1);
    OrBit(s1, f2, k);
    var s2 := Or(s1, f2);
    OrBit(s2, f3, k);
    var s3 := Or(s2, f3);
    OrBit(s3, f4, k);
    var s4 := Or(s3, f4);
    OrBit(s4, f5, k);
    var s5 := Or(s4, f5);
    OrBit(s5, f6, k);
    OrBit(Or(s5, f6), f7, k);
  }

  lemma DirectionDigits(stat: u32, param: nat, k: nat)
    requires k < 32
    ensures Bit(Or(And(stat, Not(0x6000_0000)), param % 4 * 0x2000_0000), k) ==
            if k == 29 || k == 30 then Bit(param, k - 29) else Bit(stat, k)
  {
    hide Bit, Pow2, And, OrBits, Not;
    Powers();
    MaskDigits(k);
    ClearedDigit(stat, 0x6000_0000, k);
    FieldDigit(param, 0, 2, 29, k, 1, 4, 0x2000_0000);
    OrBit(And(stat, Not(0x6000_0000)), param % 4 * 0x2000_0000, k);
  }

  lemma DisableDigits(stat: u32, param: nat, k: nat)
    requires k < 32
    ensures Bit(And(stat, Not(0x100_0000)), k) == if k == 24 then 0 else Bit(stat, k)
    ensures Bit(if param % 2 == 1 then And(stat, Not(0x80_0000)) else Or(stat, 0x80_0000), k) ==
            if k == 23 then 1 - Bit(param, 0) else Bit(stat, k)
  {
    hide Bit, Pow2, And, OrBits, Not;
    MaskDigits(k);
    ClearedDigit(stat, 0x100_0000, k);
    ClearedDigit(stat, 0x80_0000, k);
    OrBit(stat, 0x80_0000, k);
    BitIsShift(param, 0);
    Powers();
  }

  /** What the information command latches. */
  function Information(a: RenderAttributes, latch: u32, index: nat): u32 {
    if 2 <= index <= 5 then Attribute(a, index)
    else if index == 7 then 2
    else if index == 8 then 0
    else latch
  }

  /** Every command to the control port: each bit of the status, the DMA direction, the read latch, the command
      buffer, and nothing else. */
  lemma ControlCommand(g: Gpu, value: u32, k: nat)
    requires FifoOk(g) && k < 32
    ensures var code, param := value / 0x100_0000, value % 0x100_0000;
            var g1 := Gp1Write(g, value);
            && Bit(g1.stat, k) == StatusDigit(g.stat, code, param, k)
            && g1 == g.(stat := g1.stat,
                        dmaDirection := if code == 0x04 then param % 4 else g.dmaDirection,
                        read := if code == 0x10 then Information(g.attributes, g.read, param % 0x10) else g.read,
                        count := if code == 0x01 then 0 else g.count,
                        expected := if code == 0x01 then 0 else g.expected)
  {
    hide Bit, And, Or, Not, DisplayMode, DisplayDigit;
    var param := value % 0x100_0000;
    DisplayModeDigits(g.stat, param, k);
    DirectionDigits(g.stat, param, k);
    DisableDigits(g.stat, param, k);
  }
}
