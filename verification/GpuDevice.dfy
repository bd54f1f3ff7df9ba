/** The GPU as the object the emulator updates in place, each access proved against the port model. */
module GpuDevice {
  import opened Words
  import opened Bits
  import opened GpuPort

  /** The registers of one rectangle transfer. */
  class TransferUnit {
    var active: bool
    var x: u16
    var y: u16
    var w: u16
    var h: u16
    var curX: u16
    var curY: u16
    var pixelsLeft: u32
    var wordsLeft: u32

    function State(): Transfer
      reads this
    {
      Transfer(active, x, y, w, h, curX, curY, pixelsLeft, wordsLeft)
    }

    constructor ()
      ensures State() == Transfer(false, 0, 0, 0, 0, 0, 0, 0, 0)
    {
      active, x, y, w, h, curX, curY, pixelsLeft, wordsLeft := false, 0, 0, 0, 0, 0, 0, 0, 0;
    }

    /** The index of the cell the transfer is at. */
    function Index(): (i: nat)
      reads this
      ensures i == Cursor(State())
    {
      hide And;
      VramMasks(x + curX, y + curY);
      And(y + curY, 0x1FF) * 1024 + And(x + curX, 0x3FF)
    }

    method Advance()
      modifies this`curX, this`curY
      ensures State() == Advanced(old(State()))
    {
      curX := (curX + 1) % TWO_16;
      if curX >= w {
        curX := 0;
        curY := (curY + 1) % TWO_16;
      }
    }

    method Start(coords: u32, size: u32)
      modifies this
      ensures State() == Started(coords, size)
      ensures x == coords / TWO_16 % 0x400 && y == coords % 0x200 && w == size / TWO_16 % 0x400 && h == size % 0x200
    {
      VramMasks(coords / TWO_16, coords);
      VramMasks(size / TWO_16, size);
      active := true;
      x := And(coords / TWO_16, 0x3FF);
      y := And(coords, 0x1FF);
      curX := 0;
      curY := 0;
      w := And(size / TWO_16, 0x3FF);
      h := And(size, 0x1FF);
      AreaBound(w, h);
      pixelsLeft := w as int * h as int;
      wordsLeft := (pixelsLeft + 1) / 2;
    }
  }

  lemma VramMasks(a: nat, b: nat)
    ensures And(a, 0x3FF) == a % 0x400 && And(b, 0x1FF) == b % 0x200
  {
    hide And, Pow2;
    Powers();
    AndLowMask(a, 10);
    AndLowMask(b, 9);
  }

  class GpuUnit {
    const vram: array<u16>
    var stat: u32
    var read: u32
    const fifo: array<u32>
    var count: u32
    var expected: u32
    const vramRead: TransferUnit
    const vramWrite: TransferUnit
    var dmaDirection: u8
    var attributes: RenderAttributes

    ghost predicate Valid() {
      vram.Length == VRAM_SIZE && fifo.Length == FIFO_SIZE && vram as object != fifo && vramRead != vramWrite
    }

    ghost function State(): Gpu
      requires Valid()
      reads this, vram, fifo, vramRead, vramWrite
    {
      Gpu(vram[..], stat, read, fifo[..], count, expected, vramRead.State(), vramWrite.State(),
          dmaDirection, attributes)
    }

    /** A GPU with cleared memory, an empty command buffer and no transfer running. */
    constructor ()
      ensures Valid() && FifoOk(State())
      ensures State().count == 0 && !State().vramWrite.active && !State().vramRead.active && stat == 0x1480_2000
      ensures forall c :: 0 <= c < VRAM_SIZE ==> State().vram[c] == 0
    {
      vram := new u16[VRAM_SIZE];
      fifo := new u32[FIFO_SIZE];
      vramRead := new TransferUnit();
      vramWrite := new TransferUnit();
      stat, read, count, expected, dmaDirection := 0x1480_2000, 0, 0, 0, 0;
      attributes := RenderAttributes(0, 0, 0, 0, 0, 0);
      new;
      forall i | 0 <= i < VRAM_SIZE {
        vram[i] := 0;
      }
    }

    method UpdateDrqBit()
      requires Valid()
      modifies this`stat
      ensures State() == UpdateDrq(old(State()))
    {
      stat := ClearBit(stat, DRQ_BIT);
      match dmaDirection
      case 1 =>
        if count > 0 {
          stat := SetBit(stat, DRQ_BIT);
        }
      case 2 =>
        if vramRead.active && vramRead.wordsLeft > 0 {
          stat := SetBit(stat, DRQ_BIT);
        }
      case _ =>
    }

    // ----- uploads -----

    method WriteVramPixel(pixel: u16)
      requires Valid()
      modifies vram, vramWrite
      ensures State() == WritePixel(old(State()), pixel)
    {
      hide Cursor, Advanced, And;
      if vramWrite.pixelsLeft == 0 {
        return;
      }
      CounterIsApart(vramWrite.State(), vramWrite.pixelsLeft - 1);
      vramWrite.pixelsLeft := vramWrite.pixelsLeft - 1;
      vram[vramWrite.Index()] := pixel;
      vramWrite.Advance();
      if vramWrite.wordsLeft > 0 {
        vramWrite.wordsLeft := vramWrite.wordsLeft - 1;
      }
    }

    method WriteVramData(value: u32)
      requires Valid()
      modifies this`stat, vram, vramWrite
      ensures State() == WriteData(old(State()), value)
    {
      hide WritePixel;
      LowHalfMask(value);
      WriteVramPixel(And(value, 0xFFFF));
      if vramWrite.pixelsLeft > 0 {
        WriteVramPixel(value / TWO_16);
      }
      if vramWrite.wordsLeft == 0 {
        vramWrite.active := false;
        stat := SetBit(stat, WRITE_FIFO_EMPTY_BIT);
      }
    }

    // ----- downloads -----

    method ReadVramPixel() returns (pixel: u16)
      requires Valid()
      modifies vramRead
      ensures (pixel, State()) == ReadPixel(old(State()))
    {
      pixel := vram[vramRead.Index()];
      vramRead.Advance();
      if vramRead.pixelsLeft > 0 {
        vramRead.pixelsLeft := vramRead.pixelsLeft - 1;
      }
    }

    method ReadVramPair() returns (lo: u16, hi: u16)
      requires Valid()
      modifies vramRead
      ensures (lo, hi, State()) == ReadPair(old(State()))
    {
      hide ReadPixel;
      lo, hi := 0, 0;
      if vramRead.pixelsLeft > 0 {
        lo := ReadVramPixel();
        if vramRead.pixelsLeft > 0 {
          hi := ReadVramPixel();
        }
      }
    }

    method ReadVramData() returns (value: u32)
      requires Valid()
      modifies this`stat, this`read, vramRead
      ensures (value, State()) == ReadData(old(State()))
    {
      hide ReadPair, UpdateDrq;
      var lo, hi := ReadVramPair();
      vramRead.wordsLeft := Wrap(vramRead.wordsLeft as int - 1);
      if vramRead.wordsLeft == 0 {
        vramRead.active := false;
        stat := ClearBit(stat, READ_READY_BIT);
      }
      JoinHalves(hi, lo);
      read := Or(hi as int * TWO_16, lo);
      UpdateDrqBit();
      value := read;
    }

    method ReadPort() returns (value: u32)
      requires Valid()
      modifies this`stat, this`read, vramRead
      ensures (value, State()) == Gp0Read(old(State()))
    {
      hide ReadData;
      if vramRead.active {
        value := ReadVramData();
      } else {
        value := read;
      }
    }

    // ----- commands -----

    method SetDrawMode(word: u32)
      requires Valid()
      modifies this`stat, this`attributes
      ensures State() == DrawMode(old(State()), word) && attributes == old(attributes).(drawMode := word % 0x100_0000)
    {
      DrawModeMasks(stat, word);
      attributes := attributes.(drawMode := And(word, 0xFF_FFFF));
      stat := Or(And(stat, Not(0xF000)), And(word, 0xF000));
    }

    method ExecuteCommand()
      requires Valid()
      modifies this`stat, this`attributes, vramRead, vramWrite
      ensures State() == Execute(old(State()))
      ensures match old(fifo[0]) / 0x100_0000
              case 0xE1 => attributes == old(attributes).(drawMode := old(fifo[0]) % 0x100_0000)
              case 0xE2 => attributes == old(attributes).(texWindow := old(fifo[0]) % 0x100_0000)
              case 0xE3 => attributes == old(attributes).(drawTopLeft := old(fifo[0]) % 0x100_0000)
              case 0xE4 => attributes == old(attributes).(drawBottomRight := old(fifo[0]) % 0x100_0000)
              case 0xE5 => attributes == old(attributes).(drawOffset := old(fifo[0]) % 0x100_0000)
              case 0xE6 => attributes == old(attributes).(maskSetting := old(fifo[0]) % 0x100_0000)
              case _ => attributes == old(attributes)
    {
      hide DrawMode, Started;
      var word := fifo[0];
      LowBytesMask(word);
      match Command(word)
      case 0xA0 =>
        vramWrite.Start(fifo[1], fifo[2]);
      case 0xC0 =>
        vramRead.Start(fifo[1], fifo[2]);
        stat := SetBit(stat, READ_READY_BIT);
      case 0xE1 =>
        SetDrawMode(word);
      case 0xE2 =>
        attributes := attributes.(texWindow := And(word, 0xFF_FFFF));
      case 0xE3 =>
        attributes := attributes.(drawTopLeft := And(word, 0xFF_FFFF));
      case 0xE4 =>
        attributes := attributes.(drawBottomRight := And(word, 0xFF_FFFF));
      case 0xE5 =>
        attributes := attributes.(drawOffset := And(word, 0xFF_FFFF));
      case 0xE6 =>
        attributes := attributes.(maskSetting := And(word, 0xFF_FFFF));
      case _ =>
    }

    /** gp0_write: the index into the 16-word buffer is always below 3. */
    method WritePort(value: u32)
      requires Valid() && FifoOk(State())
      modifies this`stat, this`count, this`expected, this`attributes, vram, fifo, vramRead, vramWrite
      ensures FifoOk(State())
      ensures State() == Gp0Write(old(State()), value)
    {
      hide WriteData, Execute;
      if vramWrite.active {
        WriteVramData(value);
        return;
      }
      if count == 0 {
        expected := WordCount(Command(value));
      }
      assert count < 3;
      fifo[count] := value;
      count := count + 1;
      if count >= expected {
        ExecuteCommand();
        count := 0;
      }
    }

    method ClearCommandBuffer()
      requires Valid()
      modifies this`count, this`expected
      ensures State() == ClearFifo(old(State())) && FifoOk(State())
    {
      count := 0;
      expected := 0;
    }

    /** gp1_write */
    method WriteControl(value: u32)
      requires Valid() && FifoOk(State())
      modifies this`stat, this`read, this`count, this`expected, this`dmaDirection
      ensures State() == Gp1Write(old(State()), value) && FifoOk(State())
    {
      hide DisplayMode, And;
      LowBytesMask(value);
      var param := And(value, 0x00FF_FFFF);
      ControlFields(param);
      match value / 0x100_0000
      case 0x00 => stat := 0x1480_2000;
      case 0x01 => ClearCommandBuffer();
      case 0x02 => stat := And(stat, Not(0x100_0000));
      case 0x03 =>
        if And(param, 1) != 0 {
          stat := And(stat, Not(0x80_0000));
        } else {
          stat := Or(stat, 0x80_0000);
        }
      case 0x04 =>
        dmaDirection := And(param, 3);
        stat := Or(And(stat, Not(0x6000_0000)), dmaDirection as int * 0x2000_0000);
      case 0x08 => stat := DisplayMode(stat, param);
      case 0x10 => read := GpuInfo(attributes, read, And(param, 0x0F));
      case _ =>
    }
  }

  lemma ControlFields(param: nat)
    ensures And(param, 1) == param % 2 && And(param, 3) == param % 4 && And(param, 0x0F) == param % 0x10
  {
    hide And, Pow2;
    LowMasks(param);
  }

  /** The pixel counter has no part in where a transfer is. */
  lemma CounterIsApart(t: Transfer, left: u32)
    ensures Cursor(t.(pixelsLeft := left)) == Cursor(t)
    ensures Advanced(t.(pixelsLeft := left)) == Advanced(t).(pixelsLeft := left)
  {
  }

  lemma LowHalfMask(x: u32)
    ensures And(x, 0xFFFF) == x % TWO_16
  {
    hide And, Pow2;
    Powers();
    AndLowMask(x, 16);
  }

  lemma LowBytesMask(x: u32)
    ensures And(x, 0xFF_FFFF) == x % 0x100_0000
  {
    hide And, Pow2;
    Powers();
    AndLowMask(x, 24);
  }

  lemma JoinHalves(hi: u16, lo: u16)
    ensures OrBits(hi * TWO_16, lo) == hi * TWO_16 + lo
  {
    hide OrBits, Pow2;
    Powers();
    OrDisjoint(hi, lo, 16, TWO_16);
  }

  /** The draw-mode field is bits 15:12 of both the status and the command. */
  lemma DrawModeMasks(stat: u32, word: u32)
    ensures And(word, 0xFF_FFFF) == word % 0x100_0000
    ensures OrBits(And(stat, Not(0xF000)), And(word, 0xF000)) ==
            stat - stat / 0x1000 % 0x10 * 0x1000 + word / 0x1000 % 0x10 * 0x1000
  {
    hide And, OrBits, Pow2;
    Powers();
    LowBytesMask(word);
    AndNot(stat, 0xF000);
    FieldMask(stat, 4, 12, 0xF000, 0x10, 0x1000);
    FieldMask(word, 4, 12, 0xF000, 0x10, 0x1000);
    var rest, field := stat - stat / 0x1000 % 0x10 * 0x1000, word / 0x1000 % 0x10;
    WithoutField(stat);
    OrIsSum(rest, field * 0x1000);
    NoOverlap(rest, field);
  }

  lemma WithoutField(stat: nat)
    ensures stat >= stat / 0x1000 % 0x10 * 0x1000
    ensures (stat - stat / 0x1000 % 0x10 * 0x1000) / 0x1000 % 0x10 == 0
  {
    var upper, low := stat / 0x1000, stat % 0x1000;
    var rest := stat - upper % 0x10 * 0x1000;
    assert rest == upper / 0x10 * 0x10 * 0x1000 + low;
    DivModUnique(rest, 0x1000, upper / 0x10 * 0x10, low);
    DivModUnique(upper / 0x10 * 0x10, 0x10, upper / 0x10, 0);
  }

  lemma NoOverlap(rest: nat, field: nat)
    requires field < 0x10 && rest / 0x1000 % 0x10 == 0
    ensures And(rest, field * 0x1000) == 0
  {
    hide And, Pow2, Halved, Doubled;
    Powers();
    AndShiftedMask(rest, field, 12);
    HalvedIsShift(rest, 12);
    DoubledIsShift(field, 12);
    LowNibbles(rest / 0x1000, field);
    DoubledIsShift(0, 12);
  }

  lemma LowNibbles(a: nat, field: nat)
    requires a % 0x10 == 0 && field < 0x10
    ensures And(a, field) == 0
  {
    hide And, Pow2;
    Powers();
    AndModulo(a, field, 4);
  }

  /** stat & ~bit */
  function ClearBit(stat: u32, bit: u32): (s: u32)
    requires bit in {DRQ_BIT, READ_READY_BIT, WRITE_FIFO_EMPTY_BIT}
    ensures s == Cleared(stat, bit)
  {
    StatusBit(stat, bit);
    And(stat, Not(bit))
  }

  /** stat | bit */
  function SetBit(stat: u32, bit: u32): (s: u32)
    requires bit in {DRQ_BIT, READ_READY_BIT, WRITE_FIFO_EMPTY_BIT}
    ensures s == Raised(stat, bit)
  {
    StatusBit(stat, bit);
    Or(stat, bit)
  }

  lemma StatusBit(stat: u32, bit: u32)
    requires bit in {DRQ_BIT, READ_READY_BIT, WRITE_FIFO_EMPTY_BIT}
    ensures And(stat, Not(bit)) == Cleared(stat, bit)
    ensures OrBits(stat, bit) == Raised(stat, bit)
  {
    hide And, OrBits, Pow2;
    Powers();
    AndNot(stat, bit);
    OrIsSum(stat, bit);
    FieldMask(stat, 1, if bit == DRQ_BIT then 25 else if bit == READ_READY_BIT then 27 else 28, bit, 2, bit);
  }
}
