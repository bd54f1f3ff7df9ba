/** The GP0 command port of the GPU and its two rectangle transfers, one port access at a time. */
module GpuPort {
  import opened Words
  import opened Bits

  const VRAM_WIDTH := 1024
  const VRAM_HEIGHT := 512
  const VRAM_SIZE := VRAM_WIDTH * VRAM_HEIGHT
  const FIFO_SIZE := 16

  const DRQ_BIT := 0x0200_0000
  const READ_READY_BIT := 0x0800_0000
  const WRITE_FIFO_EMPTY_BIT := 0x1000_0000

  const DMA_CPU_TO_GPU: u8 := 1
  const DMA_GPU_TO_CPU: u8 := 2

  type Vram = v: seq<u16> | |v| == VRAM_SIZE witness seq(VRAM_SIZE, _ => 0)
  type Fifo = f: seq<u32> | |f| == FIFO_SIZE witness seq(FIFO_SIZE, _ => 0)

  /** GpuVramRead and GpuVramWrite. */
  datatype Transfer = Transfer(active: bool, x: u16, y: u16, w: u16, h: u16, curX: u16, curY: u16,
                               pixelsLeft: u32, wordsLeft: u32)

  datatype RenderAttributes = RenderAttributes(drawMode: u32, texWindow: u32, drawTopLeft: u32, drawBottomRight: u32,
                                               drawOffset: u32, maskSetting: u32)

  /** The fields of struct Gpu that the GP0 port touches. */
  datatype Gpu = Gpu(vram: Vram, stat: u32, read: u32, fifo: Fifo, count: u32, expected: u32,
                     vramRead: Transfer, vramWrite: Transfer, dmaDirection: u8, attributes: RenderAttributes)

  // ----- status bits -----

  function BitOf(stat: u32, bit: nat): nat
    requires bit > 0
  {
    stat / bit % 2
  }

  function Cleared(stat: u32, bit: u32): u32
    requires bit in {DRQ_BIT, READ_READY_BIT, WRITE_FIFO_EMPTY_BIT}
  {
    stat - BitOf(stat, bit) * bit
  }

  function Raised(stat: u32, bit: u32): u32
    requires bit in {DRQ_BIT, READ_READY_BIT, WRITE_FIFO_EMPTY_BIT}
  {
    Cleared(stat, bit) + bit
  }

  /** gpu_update_drq: the DMA request bit for the current direction. */
  function UpdateDrq(g: Gpu): Gpu {
    var requested :=
      if g.dmaDirection == DMA_CPU_TO_GPU then g.count > 0
      else if g.dmaDirection == DMA_GPU_TO_CPU then g.vramRead.active && g.vramRead.wordsLeft > 0
      else false;
    g.(stat := if requested then Raised(g.stat, DRQ_BIT) else Cleared(g.stat, DRQ_BIT))
  }

  // ----- walking a rectangle -----

  /** The cell the transfer is at: the address wraps around both edges of the video memory. */
  function Cursor(t: Transfer): (c: nat)
    ensures c < VRAM_SIZE
  {
    (t.y + t.curY) % VRAM_HEIGHT * VRAM_WIDTH + (t.x + t.curX) % VRAM_WIDTH
  }

  /** One step to the right, and to the start of the next row at the end of a row. */
  function Advanced(t: Transfer): Transfer {
    var nextX := (t.curX + 1) % TWO_16;
    if nextX >= t.w then t.(curX := 0, curY := (t.curY + 1) % TWO_16) else t.(curX := nextX)
  }

  function Started(coords: u32, size: u32): Transfer {
    var w, h := size / TWO_16 % 0x400, size % 0x200;
    AreaBound(w, h);
    Transfer(true, coords / TWO_16 % 0x400, coords % 0x200, w, h, 0, 0, w * h, (w * h + 1) / 2)
  }

  lemma AreaBound(w: nat, h: nat)
    requires w < 0x400 && h < 0x200
    ensures 0 <= w * h <= 0x3FF * 0x1FF
  {
    var rest := 0x3FF - w;
    assert w * h + rest * h == 0x3FF * h;
    assert w * h >= 0 && rest * h >= 0;
  }

  // ----- uploads -----

  function WritePixel(g: Gpu, pixel: u16): Gpu {
    var t := g.vramWrite;
    if t.pixelsLeft == 0 then g
    else
      var moved := Advanced(t);
      g.(vram := g.vram[Cursor(t) := pixel],
         vramWrite := moved.(pixelsLeft := t.pixelsLeft - 1,
                             wordsLeft := if t.wordsLeft > 0 then t.wordsLeft - 1 else 0))
  }

  function WriteData(g: Gpu, value: u32): Gpu {
    var g1 := WritePixel(g, value % TWO_16);
    var g2 := if g1.vramWrite.pixelsLeft > 0 then WritePixel(g1, value / TWO_16) else g1;
    if g2.vramWrite.wordsLeft == 0 then
      g2.(vramWrite := g2.vramWrite.(active := false), stat := Raised(g2.stat, WRITE_FIFO_EMPTY_BIT))
    else g2
  }

  // ----- downloads -----

  function ReadPixel(g: Gpu): (u16, Gpu) {
    var t := g.vramRead;
    var moved := Advanced(t);
    (g.vram[Cursor(t)],
     g.(vramRead := moved.(pixelsLeft := if t.pixelsLeft > 0 then t.pixelsLeft - 1 else 0)))
  }

  /** The low pixel of a word and the high one; a pixel past the end reads as zero. */
  function ReadPair(g: Gpu): (u16, u16, Gpu) {
    if g.vramRead.pixelsLeft == 0 then (0, 0, g)
    else
      var (lo, g1) := ReadPixel(g);
      if g1.vramRead.pixelsLeft == 0 then (lo, 0, g1)
      else
        var (hi, g2) := ReadPixel(g1);
        (lo, hi, g2)
  }

  function ReadData(g: Gpu): (u32, Gpu) {
    var (lo, hi, g1) := ReadPair(g);
    var left := Wrap(g1.vramRead.wordsLeft - 1);
    var g2 :=
      if left == 0 then
        g1.(vramRead := g1.vramRead.(wordsLeft := left, active := false), stat := Cleared(g1.stat, READ_READY_BIT))
      else g1.(vramRead := g1.vramRead.(wordsLeft := left));
    var value := hi * TWO_16 + lo;
    (value, UpdateDrq(g2.(read := value)))
  }

  function Gp0Read(g: Gpu): (u32, Gpu) {
    if g.vramRead.active then ReadData(g) else (g.read, g)
  }

  // ----- commands -----

  function Command(word: u32): u8 {
    word / 0x100_0000
  }

  function WordCount(cmd: u8): nat {
    if cmd == 0x02 || cmd == 0xA0 || cmd == 0xC0 then 3 else 1
  }

  lemma DrawModeFits(stat: u32, field: nat)
    requires field < 0x10
    ensures 0 <= stat - stat / 0x1000 % 0x10 * 0x1000 + field * 0x1000 < TWO_32
  {
    var upper, low := stat / 0x1000, stat % 0x1000;
    assert stat == upper / 0x10 * TWO_16 + upper % 0x10 * 0x1000 + low;
  }

  function DrawMode(g: Gpu, word: u32): Gpu {
    DrawModeFits(g.stat, word / 0x1000 % 0x10);
    var param := word % 0x100_0000;
    g.(attributes := g.attributes.(drawMode := param),
       stat := g.stat - g.stat / 0x1000 % 0x10 * 0x1000 + word / 0x1000 % 0x10 * 0x1000)
  }

  /** gp0_execute: the command in the buffer takes effect. */
  function Execute(g: Gpu): Gpu {
    var word := g.fifo[0];
    var param := word % 0x100_0000;
    var cmd := Command(word);
    if cmd == 0xA0 then g.(vramWrite := Started(g.fifo[1], g.fifo[2]))
    else if cmd == 0xC0 then
      g.(vramRead := Started(g.fifo[1], g.fifo[2]), stat := Raised(g.stat, READ_READY_BIT))
    else if cmd == 0xE1 then DrawMode(g, word)
    else if cmd == 0xE2 then g.(attributes := g.attributes.(texWindow := param))
    else if cmd == 0xE3 then g.(attributes := g.attributes.(drawTopLeft := param))
    else if cmd == 0xE4 then g.(attributes := g.attributes.(drawBottomRight := param))
    else if cmd == 0xE5 then g.(attributes := g.attributes.(drawOffset := param))
    else if cmd == 0xE6 then g.(attributes := g.attributes.(maskSetting := param))
    else g
  }

  /** The buffer never holds a whole command between accesses. */
  predicate FifoOk(g: Gpu) {
    g.count == 0 || g.count < g.expected <= 3
  }

  /** The state after a word enters the buffer, before it may complete a command. */
  function Buffered(g: Gpu, value: u32): Gpu
    requires FifoOk(g)
  {
    var g1 := if g.count == 0 then g.(expected := WordCount(Command(value))) else g;
    g1.(fifo := g1.fifo[g1.count := value], count := g1.count + 1)
  }

  function Gp0Write(g: Gpu, value: u32): (g': Gpu)
    requires FifoOk(g)
    ensures FifoOk(g')
  {
    if g.vramWrite.active then WriteData(g, value)
    else
      var g1 := Buffered(g, value);
      if g1.count >= g1.expected then Execute(g1).(count := 0) else g1
  }

  function ClearFifo(g: Gpu): Gpu {
    g.(count := 0, expected := 0)
  }

  /** A stream of words written to the port. */
  function Feed(g: Gpu, words: seq<u32>): (g': Gpu)
    requires FifoOk(g)
    ensures FifoOk(g')
    decreases |words|
  {
    if words == [] then g
    else Gp0Write(Feed(g, words[..|words| - 1]), words[|words| - 1])
  }

  // ----- the control port, as far as it concerns the fields modelled here -----

  const DISPLAY_MODE_MASK := 0x00FF_4000

  function DisplayMode(stat: u32, param: nat): u32
    requires param < 0x100_0000
  {
    Or(Or(Or(Or(Or(Or(Or(And(stat, Not(DISPLAY_MODE_MASK)), param / 0x200 % 2 * 0x4000), param / 0x10 % 2 * 0x1_0000),
                  param % 4 * 0x2_0000), param / 4 % 4 * 0x8_0000), param / 0x20 % 4 * 0x10_0000),
          param / 0x80 % 2 * 0x20_0000), param / 0x100 % 2 * 0x40_0000)
  }

  function GpuInfo(a: RenderAttributes, latch: u32, index: nat): u32 {
    if index == 2 then a.texWindow
    else if index == 3 then a.drawTopLeft
    else if index == 4 then a.drawBottomRight
    else if index == 5 then a.drawOffset
    else if index == 7 then 2
    else if index == 8 then 0
    else latch
  }

  /** gp1_write */
  function Gp1Write(g: Gpu, value: u32): (g': Gpu)
    requires FifoOk(g)
    ensures FifoOk(g')
  {
    var cmd, param := value / 0x100_0000, value % 0x100_0000;
    if cmd == 0x00 then g.(stat := 0x1480_2000)
    else if cmd == 0x01 then ClearFifo(g)
    else if cmd == 0x02 then g.(stat := And(g.stat, Not(0x100_0000)))
    else if cmd == 0x03 then
      g.(stat := if param % 2 == 1 then And(g.stat, Not(0x80_0000)) else Or(g.stat, 0x80_0000))
    else if cmd == 0x04 then
      g.(dmaDirection := param % 4, stat := Or(And(g.stat, Not(0x6000_0000)), param % 4 * 0x2000_0000))
    else if cmd == 0x08 then g.(stat := DisplayMode(g.stat, param))
    else if cmd == 0x10 then g.(read := GpuInfo(g.attributes, g.read, param % 0x10))
    else g
  }
}
