/** Closed forms of the rectangle transfers: what k pixels or n words have done, and the round trip. */
module GpuTransfers {
  import opened Words
  import opened GpuPort

  // ----- the address of the k-th pixel -----

  function Area(t: Transfer): nat {
    t.w * t.h
  }

  /** A transfer as gp0_start_vram_write and gp0_start_vram_read set it up. */
  predicate Rectangle(t: Transfer) {
    t.w < 0x400 && t.h < 0x200 && t.x < 0x400 && t.y < 0x200
  }

  function Row(k: nat, w: nat): nat
    requires w > 0
  {
    k / w
  }

  function Column(k: nat, w: nat): nat
    requires w > 0
  {
    k % w
  }

  function Cell(t: Transfer, k: nat): (c: nat)
    requires t.w > 0
    ensures c < VRAM_SIZE
  {
    (t.y + Row(k, t.w)) % VRAM_HEIGHT * VRAM_WIDTH + (t.x + Column(k, t.w)) % VRAM_WIDTH
  }

  lemma InRectangle(k: nat, w: nat, h: nat)
    requires w > 0 && k < w * h
    ensures Row(k, w) < h && Column(k, w) < w
  {
    assert k == k / w * w + k % w;
  }

  lemma SameRowAndColumn(j: nat, k: nat, w: nat)
    requires w > 0 && Row(j, w) == Row(k, w) && Column(j, w) == Column(k, w)
    ensures j == k
  {
    assert j == j / w * w + j % w;
    assert k == k / w * w + k % w;
  }

  /** No two pixels of a rectangle share a cell, because it is narrower and lower than the memory. */
  lemma CellsAreDistinct(t: Transfer, j: nat, k: nat)
    requires Rectangle(t) && j < Area(t) && k < Area(t)
    requires t.w > 0 && Cell(t, j) == Cell(t, k)
    ensures j == k
  {
    hide Row, Column;
    InRectangle(j, t.w, t.h);
    InRectangle(k, t.w, t.h);
    SamePlace(t.x, t.y, Row(j, t.w), Column(j, t.w), Row(k, t.w), Column(k, t.w));
    SameRowAndColumn(j, k, t.w);
  }

  lemma SamePlace(x: nat, y: nat, a: nat, b: nat, c: nat, d: nat)
    requires a < VRAM_HEIGHT && c < VRAM_HEIGHT && b < VRAM_WIDTH && d < VRAM_WIDTH
    requires (y + a) % VRAM_HEIGHT * VRAM_WIDTH + (x + b) % VRAM_WIDTH ==
             (y + c) % VRAM_HEIGHT * VRAM_WIDTH + (x + d) % VRAM_WIDTH
    ensures a == c && b == d
  {
    var row, row' := (y + a) % VRAM_HEIGHT, (y + c) % VRAM_HEIGHT;
    var column, column' := (x + b) % VRAM_WIDTH, (x + d) % VRAM_WIDTH;
    assert row == row' && column == column';
    SameOffset(y, a, c, VRAM_HEIGHT);
    SameOffset(x, b, d, VRAM_WIDTH);
  }

  lemma SameOffset(base: nat, a: nat, b: nat, n: nat)
    requires n == VRAM_WIDTH || n == VRAM_HEIGHT
    requires a < n && b < n && (base + a) % n == (base + b) % n
    ensures a == b
  {
  }

  /** Stepping the cursor goes from the k-th pixel to the next one. */
  lemma NextPixel(k: nat, w: nat)
    requires w > 0
    ensures Column(k, w) + 1 >= w ==> Row(k + 1, w) == Row(k, w) + 1 && Column(k + 1, w) == 0
    ensures Column(k, w) + 1 < w ==> Row(k + 1, w) == Row(k, w) && Column(k + 1, w) == Column(k, w) + 1
  {
    var q, r := k / w, k % w;
    assert k == q * w + r;
    if r + 1 >= w {
      assert k + 1 == (q + 1) * w + 0;
      DivModUnique(k + 1, w, q + 1, 0);
    } else {
      DivModUnique(k + 1, w, q, r + 1);
    }
  }

  // ----- pixels -----

  /** The video memory after the first pixels of a rectangle have been stored. */
  function Stored(vram: Vram, t: Transfer, pixels: seq<u16>): Vram
    requires pixels != [] ==> t.w > 0
    decreases |pixels|
  {
    if pixels == [] then vram
    else
      var n := |pixels| - 1;
      Stored(vram, t, pixels[..n])[Cell(t, n) := pixels[n]]
  }

  /** Storing puts the k-th pixel in the k-th cell and changes nothing outside the stored cells. */
  lemma {:induction false} StoredCells(vram: Vram, t: Transfer, pixels: seq<u16>)
    requires Rectangle(t) && |pixels| <= Area(t)
    requires pixels != [] ==> t.w > 0
    ensures forall k :: 0 <= k < |pixels| ==> Stored(vram, t, pixels)[Cell(t, k)] == pixels[k]
    ensures forall c :: 0 <= c < VRAM_SIZE && (forall k :: 0 <= k < |pixels| ==> Cell(t, k) != c) ==>
              Stored(vram, t, pixels)[c] == vram[c]
  {
    if pixels == [] {
    } else {
      var n := |pixels| - 1;
      var front := pixels[..n];
      StoredCells(vram, t, front);
      forall k | 0 <= k < |pixels| ensures Stored(vram, t, pixels)[Cell(t, k)] == pixels[k] {
        if k < n && Cell(t, k) == Cell(t, n) {
          CellsAreDistinct(t, k, n);
        }
      }
    }
  }

  // ----- uploads -----

  /** A transfer that has just started, as Started leaves it. */
  predicate Fresh(t: Transfer) {
    && Rectangle(t) && t.active && t.curX == 0 && t.curY == 0
    && t.pixelsLeft == Area(t) && t.wordsLeft == (Area(t) + 1) / 2
  }

  lemma StartedIsFresh(coords: u32, size: u32)
    ensures Fresh(Started(coords, size))
  {
  }

  /** The halfwords of a stream of words, low half first. */
  function Pixels(words: seq<u32>): (p: seq<u16>)
    ensures |p| == 2 * |words|
    decreases |words|
  {
    if words == [] then []
    else
      var n := |words| - 1;
      Pixels(words[..n]) + [words[n] % TWO_16, words[n] / TWO_16]
  }

  function Min(a: nat, b: nat): nat {
    if a < b then a else b
  }

  /** How many data words an upload consumes. The counter starts at half the number of pixels,
      rounded up, but counts pixels, so an upload ends about halfway. */
  function UploadWords(area: nat): (n: nat)
    ensures n >= 1
  {
    if area <= 2 then 1 else ((area + 1) / 2 + 1) / 2
  }

  /** How many pixels n data words store. */
  function UploadPixels(area: nat, n: nat): nat {
    Min(area, 2 * n)
  }

  /** The counters of an upload after k pixels. */
  function Progress(t: Transfer, k: nat): Transfer
    requires Fresh(t) && k <= Area(t)
  {
    if Area(t) == 0 then t
    else
      RowIsSmall(t, k);
      t.(curX := Column(k, t.w), curY := Row(k, t.w), pixelsLeft := Area(t) - k,
         wordsLeft := if k < (Area(t) + 1) / 2 then (Area(t) + 1) / 2 - k else 0)
  }

  lemma RowIsSmall(t: Transfer, k: nat)
    requires Rectangle(t) && t.w > 0 && k <= Area(t)
    ensures Row(k, t.w) <= t.h && Column(k, t.w) < t.w && Area(t) < TWO_32
  {
    AreaBound(t.w, t.h);
    if k == Area(t) {
      DivModUnique(k, t.w, t.h, 0);
    } else {
      InRectangle(k, t.w, t.h);
    }
  }

  lemma PositiveWidth(t: Transfer)
    ensures Area(t) > 0 ==> t.w > 0
  {
  }

  /** The cursor of a transfer at its k-th pixel, and one step further. */
  lemma CursorMoves(t: Transfer, k: nat)
    requires Rectangle(t) && t.w > 0 && k < Area(t)
    requires t.curX == Column(k, t.w) && t.curY == Row(k, t.w)
    ensures Cursor(t) == Cell(t, k)
    ensures var moved := Advanced(t);
            && moved.curX == Column(k + 1, t.w) && moved.curY == Row(k + 1, t.w)
            && moved == t.(curX := moved.curX, curY := moved.curY)
  {
    hide Row, Column, Area;
    NextPixel(k, t.w);
    RowIsSmall(t, k);
    RowIsSmall(t, k + 1);
  }

  lemma WritePixelAdvances(g: Gpu, t: Transfer, k: nat, pixel: u16)
    requires Fresh(t) && k < Area(t) && g.vramWrite == Progress(t, k)
    ensures t.w > 0
    ensures WritePixel(g, pixel) == g.(vram := g.vram[Cell(t, k) := pixel], vramWrite := Progress(t, k + 1))
  {
    PositiveWidth(t);
    assert Area(Progress(t, k)) == Area(t);
    hide Row, Column, Area, Cursor, Cell, Advanced;
    CursorMoves(Progress(t, k), k);
    SameCells(t, Progress(t, k), k);
  }

  /** Where a pixel goes does not depend on how far the transfer is. */
  lemma SameCells(t: Transfer, t': Transfer, k: nat)
    requires t.w > 0 && t'.w == t.w && t'.x == t.x && t'.y == t.y
    ensures Cell(t', k) == Cell(t, k)
  {
  }

  /** The state after n of an upload's data words. */
  function Uploaded(g: Gpu, t: Transfer, words: seq<u32>): Gpu
    requires Fresh(t) && |words| <= UploadWords(Area(t))
  {
    var n := UploadPixels(Area(t), |words|);
    var finished := |words| == UploadWords(Area(t));
    g.(vram := Stored(g.vram, t, Pixels(words)[..n]),
       vramWrite := Progress(t, n).(active := !finished),
       stat := if finished then Raised(g.stat, WRITE_FIFO_EMPTY_BIT) else g.stat)
  }

  /** Data words fed to a running upload. */
  function FeedData(g: Gpu, words: seq<u32>): Gpu
    decreases |words|
  {
    if words == [] then g
    else WriteData(FeedData(g, words[..|words| - 1]), words[|words| - 1])
  }

  lemma StoredAppends(vram: Vram, t: Transfer, pixels: seq<u16>, pixel: u16)
    requires t.w > 0
    ensures Stored(vram, t, pixels + [pixel]) == Stored(vram, t, pixels)[Cell(t, |pixels|) := pixel]
  {
    assert (pixels + [pixel])[..|pixels|] == pixels;
  }

  /** How far an upload is when one more data word arrives. */
  lemma WordsAndPixels(area: nat, n: nat)
    requires n < UploadWords(area)
    ensures area > 0 ==> 2 * n < area && UploadPixels(area, n) == 2 * n && 2 * n < (area + 1) / 2
    ensures area > 0 ==> (n + 1 == UploadWords(area) <==> UploadPixels(area, n + 1) >= (area + 1) / 2)
    ensures area == 0 ==> n == 0
  {
  }

  lemma PixelsAppend(words: seq<u32>, value: u32)
    ensures Pixels(words + [value]) == Pixels(words) + [value % TWO_16, value / TWO_16]
  {
    assert (words + [value])[..|words|] == words;
  }

  /** The one data word that the upload of an empty rectangle takes. */
  lemma EmptyUploadStep(g: Gpu, t: Transfer, value: u32)
    requires Fresh(t) && g.vramWrite == t && Area(t) == 0
    ensures WriteData(g, value) == Uploaded(g, t, [value])
  {
    hide Raised, Pixels, Area;
  }

  /** One data word of an upload. */
  lemma UploadStep(g: Gpu, t: Transfer, words: seq<u32>, value: u32)
    requires Fresh(t) && g.vramWrite == t && |words| < UploadWords(Area(t))
    ensures WriteData(Uploaded(g, t, words), value) == Uploaded(g, t, words + [value])
  {
    hide Stored, Cell, Row, Column, Area, WritePixel, UploadWords, Pixels, Raised;
    var area, n := Area(t), |words|;
    WordsAndPixels(area, n);
    if area == 0 {
      NothingUploaded(g, t);
      assert words == [] && words + [value] == [value];
      EmptyUploadStep(g, t, value);
    } else {
      PixelsOfWord(g, t, words, value);
    }
  }

  /** One data word of an upload that has pixels left. */
  lemma PixelsOfWord(g: Gpu, t: Transfer, words: seq<u32>, value: u32)
    requires Fresh(t) && g.vramWrite == t && |words| < UploadWords(Area(t)) && Area(t) > 0
    ensures WriteData(Uploaded(g, t, words), value) == Uploaded(g, t, words + [value])
  {
    hide Stored, Cell, Row, Column, Area, WritePixel, UploadWords, Pixels, Raised;
    var area, n := Area(t), |words|;
    var before, lo, hi := Uploaded(g, t, words), value % TWO_16, value / TWO_16;
    WordsAndPixels(area, n);
    PixelsAppend(words, value);
    assert Pixels(words)[..2 * n] == Pixels(words);
    WritePixelAdvances(before, t, 2 * n, lo);
    StoredAppends(g.vram, t, Pixels(words), lo);
    var middle := WritePixel(before, lo);
    if 2 * n + 1 < area {
      WritePixelAdvances(middle, t, 2 * n + 1, hi);
      StoredAppends(g.vram, t, Pixels(words) + [lo], hi);
      assert Pixels(words) + [lo] + [hi] == Pixels(words + [value])[..2 * n + 2];
    } else {
      assert Pixels(words) + [lo] == Pixels(words + [value])[..2 * n + 1];
    }
  }

  /** An upload, any number of words into it: the counters have walked exactly the cells in order. */
  lemma {:induction false} UploadRun(g: Gpu, t: Transfer, words: seq<u32>)
    requires Fresh(t) && g.vramWrite == t && |words| <= UploadWords(Area(t))
    ensures FeedData(g, words) == Uploaded(g, t, words)
    decreases |words|
  {
    hide WriteData, UploadWords, Fresh;
    if words == [] {
      NothingUploaded(g, t);
    } else {
      var n := |words| - 1;
      UploadRun(g, t, words[..n]);
      UploadStep(g, t, words[..n], words[n]);
      assert words == words[..n] + [words[n]];
    }
  }

  /** The counter set to ceil(N/2) words counts pixels, so an upload of N pixels ends after
      max(1, ceil(ceil(N/2)/2)) words, and not before. */
  lemma UploadEnds(g: Gpu, t: Transfer, words: seq<u32>)
    requires Fresh(t) && g.vramWrite == t && |words| <= UploadWords(Area(t))
    ensures var u := FeedData(g, words).vramWrite;
            && (u.active <==> |words| < UploadWords(Area(t)))
            && u.pixelsLeft == Area(t) - UploadPixels(Area(t), |words|)
            && (u.active && Area(t) > 0 ==> u.wordsLeft == (Area(t) + 1) / 2 - UploadPixels(Area(t), |words|))
            && (!u.active ==> u.wordsLeft == 0 && BitOf(FeedData(g, words).stat, WRITE_FIFO_EMPTY_BIT) == 1)
  {
    hide FeedData, Raised, BitOf, Stored, Pixels, Row, Column, UploadWords, Area;
    UploadRun(g, t, words);
    RaisedIsSet(g.stat, WRITE_FIFO_EMPTY_BIT);
    PixelCount(Area(t), |words|);
  }

  lemma RaisedIsSet(stat: u32, bit: u32)
    requires bit == READ_READY_BIT || bit == WRITE_FIFO_EMPTY_BIT
    ensures BitOf(Raised(stat, bit), bit) == 1
  {
    var q, low := stat / bit, stat % bit;
    var s := (q / 2 * 2 + 1) * bit + low;
    if bit == READ_READY_BIT {
      assert Raised(stat, READ_READY_BIT) == s;
    } else {
      assert Raised(stat, WRITE_FIFO_EMPTY_BIT) == s;
    }
    DivModUnique(s, bit, q / 2 * 2 + 1, low);
    DivModUnique(q / 2 * 2 + 1, 2, q / 2, 1);
  }

  /** The pixel counter reaches half the area, rounded up, with the last data word. */
  lemma PixelCount(area: nat, n: nat)
    requires n <= UploadWords(area)
    ensures UploadPixels(area, n) <= area
    ensures n < UploadWords(area) && area > 0 ==> UploadPixels(area, n) < (area + 1) / 2
    ensures n == UploadWords(area) ==> UploadPixels(area, n) >= (area + 1) / 2
  {
  }

  lemma NothingUploaded(g: Gpu, t: Transfer)
    requires Fresh(t) && g.vramWrite == t
    ensures Uploaded(g, t, []) == g
  {
  }

  // ----- downloads -----

  function DownloadWords(area: nat): nat {
    (area + 1) / 2
  }

  /** The counters of a download after k pixels with some words left to read. */
  function ReadProgress(t: Transfer, k: nat, wordsLeft: u32): Transfer
    requires Fresh(t) && k <= Area(t) && Area(t) > 0
  {
    RowIsSmall(t, k);
    t.(curX := Column(k, t.w), curY := Row(k, t.w), pixelsLeft := Area(t) - k, wordsLeft := wordsLeft)
  }

  /** The i-th word of a rectangle: two pixels, low half first, zero past the end. */
  function DownloadWord(vram: Vram, t: Transfer, i: nat): u32
    requires t.w > 0
  {
    vram[Cell(t, 2 * i)] + (if 2 * i + 1 < Area(t) then vram[Cell(t, 2 * i + 1)] * TWO_16 else 0)
  }

  lemma ReadPixelAdvances(g: Gpu, t: Transfer, k: nat, wordsLeft: u32)
    requires Fresh(t) && k < Area(t) && g.vramRead == ReadProgress(t, k, wordsLeft)
    ensures t.w > 0
    ensures ReadPixel(g) == (g.vram[Cell(t, k)], g.(vramRead := ReadProgress(t, k + 1, wordsLeft)))
  {
    PositiveWidth(t);
    assert Area(ReadProgress(t, k, wordsLeft)) == Area(t);
    hide Row, Column, Area, Cursor, Cell, Advanced;
    CursorMoves(ReadProgress(t, k, wordsLeft), k);
    SameCells(t, ReadProgress(t, k, wordsLeft), k);
  }

  function WithDrq(stat: u32, requested: bool): u32 {
    if requested then Raised(stat, DRQ_BIT) else Cleared(stat, DRQ_BIT)
  }

  /** The request and ready bits of a status word written as ready and above, the two bits between, the rest. */
  lemma StatusDigits(a: nat, r: nat, low: nat)
    requires a < 0x20 && r < 4 && low < DRQ_BIT
    ensures var s := a * READ_READY_BIT + r * DRQ_BIT + low;
            s / READ_READY_BIT == a && BitOf(s, DRQ_BIT) == r % 2
  {
    var s := a * READ_READY_BIT + r * DRQ_BIT + low;
    DivModUnique(s, READ_READY_BIT, a, r * DRQ_BIT + low);
    DivModUnique(s, DRQ_BIT, 4 * a + r, low);
    DivModUnique(4 * a + r, 2, 2 * a + r / 2, r % 2);
  }

  lemma FromDigits(s: nat)
    ensures var a, rest := s / READ_READY_BIT, s % READ_READY_BIT;
            s == a * READ_READY_BIT + rest / DRQ_BIT * DRQ_BIT + rest % DRQ_BIT && rest / DRQ_BIT < 4
  {
  }

  lemma ClearedDrq(stat: u32)
    ensures var c := Cleared(stat, DRQ_BIT);
            BitOf(c, DRQ_BIT) == 0 && c / READ_READY_BIT == stat / READ_READY_BIT
    ensures var r := Raised(stat, DRQ_BIT);
            BitOf(r, DRQ_BIT) == 1 && r / READ_READY_BIT == stat / READ_READY_BIT
  {
    hide BitOf;
    var a: nat, rest: nat := stat / READ_READY_BIT, stat % READ_READY_BIT;
    var r, low := rest / DRQ_BIT, rest % DRQ_BIT;
    FromDigits(stat);
    StatusDigits(a, r, low);
    StatusDigits(a, r - r % 2, low);
    StatusDigits(a, r - r % 2 + 1, low);
  }

  lemma ClearedReady(stat: u32)
    ensures var c := Cleared(stat, READ_READY_BIT);
            BitOf(c, READ_READY_BIT) == 0 && BitOf(c, DRQ_BIT) == BitOf(stat, DRQ_BIT)
  {
    var a: nat, rest: nat := stat / READ_READY_BIT, stat % READ_READY_BIT;
    var r, low := rest / DRQ_BIT, rest % DRQ_BIT;
    FromDigits(stat);
    StatusDigits(a, r, low);
    StatusDigits(a - a % 2, r, low);
    assert Cleared(stat, READ_READY_BIT) == (a - a % 2) * READ_READY_BIT + r * DRQ_BIT + low;
  }

  /** Only the last word of a download clears the ready bit; every word decides the request bit anew. */
  lemma DrqIsLastDecision(stat: u32, a: bool, b: bool)
    ensures WithDrq(WithDrq(stat, a), b) == WithDrq(stat, b)
    ensures Cleared(WithDrq(stat, a), READ_READY_BIT) == WithDrq(Cleared(stat, READ_READY_BIT), a)
    ensures BitOf(WithDrq(stat, a), DRQ_BIT) == (if a then 1 else 0)
    ensures BitOf(WithDrq(stat, a), READ_READY_BIT) == BitOf(stat, READ_READY_BIT)
  {
    ClearedDrq(stat);
    ClearedReady(stat);
  }

  function DrqRequested(g: Gpu, left: nat): bool {
    if g.dmaDirection == DMA_CPU_TO_GPU then g.count > 0
    else g.dmaDirection == DMA_GPU_TO_CPU && left > 0
  }

  /** The state after n words of a download have been read. */
  function Downloaded(g: Gpu, t: Transfer, n: nat): Gpu
    requires Fresh(t) && Area(t) > 0 && n <= DownloadWords(Area(t))
  {
    if n == 0 then g
    else
      var left := DownloadWords(Area(t)) - n;
      g.(vramRead := ReadProgress(t, Min(Area(t), 2 * n), left).(active := left > 0),
         read := DownloadWord(g.vram, t, n - 1),
         stat := WithDrq(if left == 0 then Cleared(g.stat, READ_READY_BIT) else g.stat, DrqRequested(g, left)))
  }

  /** The pixels of the n-th word, wherever the rectangle ends. */
  lemma PairStep(g: Gpu, t: Transfer, n: nat, wordsLeft: u32)
    requires Fresh(t) && Area(t) > 0 && n < DownloadWords(Area(t))
    requires g.vramRead == ReadProgress(t, 2 * n, wordsLeft)
    ensures t.w > 0
    ensures var (lo, hi, g') := ReadPair(g);
            && hi * TWO_16 + lo == DownloadWord(g.vram, t, n)
            && g' == g.(vramRead := ReadProgress(t, Min(Area(t), 2 * n + 2), wordsLeft))
  {
    hide Row, Column, Area, ReadPixel, Cell;
    PositiveWidth(t);
    ReadPixelAdvances(g, t, 2 * n, wordsLeft);
    if 2 * n + 1 < Area(t) {
      ReadPixelAdvances(ReadPixel(g).1, t, 2 * n + 1, wordsLeft);
    }
  }

  lemma NothingRead(t: Transfer)
    requires Fresh(t) && Area(t) > 0
    ensures Area(t) < TWO_32
    ensures ReadProgress(t, 0, DownloadWords(Area(t))) == t
  {
    AreaBound(t.w, t.h);
  }

  lemma OtherWordsLeft(t: Transfer, k: nat, a: u32, b: u32)
    requires Fresh(t) && Area(t) > 0 && k <= Area(t)
    ensures ReadProgress(t, k, a).(wordsLeft := b) == ReadProgress(t, k, b)
    ensures ReadProgress(t, k, a).wordsLeft == a && ReadProgress(t, k, a).active
  {
  }

  /** What gp0_read_vram_data does with a pair of pixels once they are read. */
  lemma FinishWord(g: Gpu, r: Transfer, before: u32, left: nat, value: u32, ready: u32)
    requires r.active && r.wordsLeft == left
    requires before == ready || exists a :: before == WithDrq(ready, a)
    ensures var stat := if left == 0 then Cleared(before, READ_READY_BIT) else before;
            UpdateDrq(g.(vramRead := r.(active := left > 0), stat := stat, read := value))
            == g.(vramRead := r.(active := left > 0), read := value,
                  stat := WithDrq(if left == 0 then Cleared(ready, READ_READY_BIT) else ready, DrqRequested(g, left)))
  {
    hide Cleared, Raised;
    if before != ready {
      var a :| before == WithDrq(ready, a);
      DrqIsLastDecision(ready, a, DrqRequested(g, left));
      DrqIsLastDecision(Cleared(ready, READ_READY_BIT), a, DrqRequested(g, left));
    }
  }

  /** One word of a download. */
  lemma DownloadStep(g: Gpu, t: Transfer, n: nat)
    requires Fresh(t) && Area(t) > 0 && g.vramRead == t && n < DownloadWords(Area(t))
    ensures t.w > 0
    ensures Gp0Read(Downloaded(g, t, n)) == (DownloadWord(g.vram, t, n), Downloaded(g, t, n + 1))
  {
    hide Row, Column, Area, ReadPair, DownloadWord, Raised, Cleared, ReadProgress, Fresh, WithDrq;
    hide UpdateDrq;
    PositiveWidth(t);
    var area, before := Area(t), Downloaded(g, t, n);
    var left := DownloadWords(area) - n;
    NothingRead(t);
    OtherWordsLeft(t, Min(area, 2 * n), left, left);
    OtherWordsLeft(t, Min(area, 2 * n + 2), left, left - 1);
    OtherWordsLeft(t, Min(area, 2 * n + 2), left - 1, left - 1);
    PairStep(before, t, n, left);
    FinishWord(before, ReadProgress(t, Min(area, 2 * n + 2), left - 1), before.stat, left - 1,
               DownloadWord(g.vram, t, n), g.stat);
  }

  /** n consecutive reads of the port: the words they return, and the state after them. */
  function Reads(g: Gpu, n: nat): (r: (seq<u32>, Gpu))
    ensures |r.0| == n
  {
    if n == 0 then ([], g)
    else
      var (words, g1) := Reads(g, n - 1);
      var (word, g2) := Gp0Read(g1);
      (words + [word], g2)
  }

  /** A download of a non-empty rectangle, any number of words into it. */
  lemma {:induction false} DownloadRun(g: Gpu, t: Transfer, n: nat)
    requires Fresh(t) && Area(t) > 0 && g.vramRead == t && n <= DownloadWords(Area(t))
    ensures t.w > 0
    ensures Reads(g, n).1 == Downloaded(g, t, n)
    ensures forall i :: 0 <= i < n ==> Reads(g, n).0[i] == DownloadWord(g.vram, t, i)
  {
    hide Gp0Read, DownloadWord, Area, Fresh;
    PositiveWidth(t);
    if n > 0 {
      DownloadRun(g, t, n - 1);
      DownloadStep(g, t, n - 1);
    } else {
      assert Downloaded(g, t, 0) == g;
    }
  }

  /** During a download the counters agree with each other, and the status bits say whether words remain. */
  lemma DownloadStatus(g: Gpu, t: Transfer, n: nat)
    requires Fresh(t) && Area(t) > 0 && g.vramRead == t && 0 < n <= DownloadWords(Area(t))
    ensures var d := Reads(g, n).1;
            var left := DownloadWords(Area(t)) - n;
            && d.vram == g.vram
            && d.vramRead.wordsLeft == left == (d.vramRead.pixelsLeft + 1) / 2
            && (d.vramRead.active <==> left > 0)
            && (g.dmaDirection == DMA_GPU_TO_CPU ==> (BitOf(d.stat, DRQ_BIT) == 1 <==> left > 0))
            && (BitOf(g.stat, READ_READY_BIT) == 1 ==> (BitOf(d.stat, READ_READY_BIT) == 1 <==> left > 0))
  {
    hide Reads, WithDrq, Cleared, Row, Column, DownloadWord;
    DownloadRun(g, t, n);
    var left := DownloadWords(Area(t)) - n;
    ClearedReady(g.stat);
    DrqIsLastDecision(if left == 0 then Cleared(g.stat, READ_READY_BIT) else g.stat, DrqRequested(g, left), true);
  }

  lemma EmptyWord(d: Gpu)
    requires d.vramRead.active && d.vramRead.pixelsLeft == 0
    ensures var (value, d') := Gp0Read(d);
            var left := Wrap(d.vramRead.wordsLeft - 1);
            && value == 0 && d'.vram == d.vram
            && d'.vramRead == d.vramRead.(wordsLeft := left, active := left != 0)
  {
    hide Raised, Cleared;
  }

  /** A download of an empty rectangle does not end after no words: the counter wraps around. */
  lemma {:induction false} EmptyDownload(g: Gpu, t: Transfer, n: nat)
    requires Fresh(t) && Area(t) == 0 && g.vramRead == t && n <= TWO_32
    ensures var d := Reads(g, n).1;
            && d.vram == g.vram && d.vramRead.pixelsLeft == 0
            && d.vramRead.wordsLeft == (if n == 0 then 0 else TWO_32 - n)
            && (d.vramRead.active <==> n < TWO_32)
    ensures forall i :: 0 <= i < n ==> Reads(g, n).0[i] == 0
  {
    hide Gp0Read;
    if n == 0 {
    } else {
      EmptyDownload(g, t, n - 1);
      EmptyWord(Reads(g, n - 1).1);
    }
  }
}
