/** Pixel formats, fields and the DMA control register. */
module Formats {
  import opened Words

  /** `struct tw68_format`; depth is in bits per pixel. */
  datatype Format = Format(fourcc: string, depth: nat, twformat: u32)

  const COLOR_RGB32: u32 := 0x00
  const COLOR_RGB24: u32 := 0x10
  const COLOR_RGB16: u32 := 0x20
  const COLOR_RGB15: u32 := 0x30
  const COLOR_YUY2: u32 := 0x40
  const COLOR_BSWAP: u32 := 0x04
  const COLOR_WSWAP: u32 := 0x08
  const COLOR_GAMMA: u32 := 0x80

  const DMAP_EN: u32 := 1
  const FIFO_EN: u32 := 2

  /** The format table, in the driver's order. */
  function FormatTable(): seq<Format> {
    [Format("RGBO", 16, COLOR_RGB15),
     Format("RGBQ", 16, Or32(COLOR_RGB15, COLOR_BSWAP)),
     Format("RGBP", 16, COLOR_RGB16),
     Format("RGBR", 16, Or32(COLOR_RGB16, COLOR_BSWAP)),
     Format("BGR3", 24, COLOR_RGB24),
     Format("RGB3", 24, Or32(COLOR_RGB24, COLOR_BSWAP)),
     Format("BGR4", 32, COLOR_RGB32),
     Format("RGB4", 32, Or32(Or32(COLOR_RGB32, COLOR_BSWAP), COLOR_WSWAP)),
     Format("YUYV", 16, COLOR_YUY2),
     Format("UYVY", 16, Or32(COLOR_YUY2, COLOR_BSWAP))]
  }

  /** What the chip sends for a pixel in the colour format of the register value. */
  function BitsSent(twformat: nat): nat {
    if twformat / 0x10 % 8 == 0 then 32 else if twformat / 0x10 % 8 == 1 then 24 else 16
  }

  /** Every entry of the table has the depth that the chip sends for its register value, and no two
      entries have the same code or the same register value. */
  lemma {:induction false} TableConsistent(i: nat, j: nat)
    requires i < j < |FormatTable()|
    ensures FormatTable()[i].depth == BitsSent(FormatTable()[i].twformat)
    ensures FormatTable()[j].depth == BitsSent(FormatTable()[j].twformat)
    ensures FormatTable()[i].twformat != FormatTable()[j].twformat
    ensures FormatTable()[i].fourcc != FormatTable()[j].fourcc
  {
    hide Or, BitsSent;
    TableValues();
    ValuesDiffer(i, j);
    CodesDiffer(i, j);
  }

  /** The register values of the table. */
  function TableValue(i: nat): nat {
    match i
    case 0 => 0x30
    case 1 => 0x34
    case 2 => 0x20
    case 3 => 0x24
    case 4 => 0x10
    case 5 => 0x14
    case 6 => 0x00
    case 7 => 0x0C
    case 8 => 0x40
    case _ => 0x44
  }

  lemma {:induction false} TableValues()
    ensures forall i :: 0 <= i < |FormatTable()| ==>
              FormatTable()[i].twformat == TableValue(i) && FormatTable()[i].depth == BitsSent(TableValue(i))
  {
    hide Or;
    var swap, both := COLOR_BSWAP, COLOR_WSWAP;
    SwapBits(COLOR_RGB15, swap, 3);
    SwapBits(COLOR_RGB16, swap, 2);
    SwapBits(COLOR_RGB24, swap, 1);
    SwapBits(COLOR_RGB32, swap, 0);
    SwapBits(COLOR_YUY2, swap, 4);
    SwapBoth(Or32(COLOR_RGB32, COLOR_BSWAP), both);
  }

  lemma {:induction false} ValuesDiffer(i: nat, j: nat)
    requires i < j < 10
    ensures TableValue(i) != TableValue(j)
  {
  }

  lemma {:induction false} CodesDiffer(i: nat, j: nat)
    requires i < j < |FormatTable()|
    ensures FormatTable()[i].fourcc != FormatTable()[j].fourcc
  {
    hide Or, Or32;
    var a, b := FormatTable()[i].fourcc, FormatTable()[j].fourcc;
    assert |a| == 4 && |b| == 4;
    assert a[0] != b[0] || a[1] != b[1] || a[2] != b[2] || a[3] != b[3];
  }

  /** `enum v4l2_field`, as far as the driver tells the values apart. */
  datatype VField = Any | Top | Bottom | Interlaced | SeqTB | SeqBT | Other

  predicate HasBoth(f: VField) {
    f == Interlaced || f == SeqTB || f == SeqBT
  }

  /** The value start_dma writes to the low byte of the DMA control register. */
  function DmacByte(f: Format): u32 {
    Or32(Or32(Or32(f.twformat, COLOR_GAMMA), DMAP_EN), FIFO_EN)
  }

  /** `tw_clearl(TW68_DMAC, TW68_DMAP_EN | TW68_FIFO_EN)`. */
  function DmacStop(was: u32): (r: u32)
    ensures r % 4 == 0 && r / 4 == was / 4
  {
    was - was % 4
  }

  /** `tw_clearl(TW68_DMAC, TW68_FIFO_EN)`. */
  function FifoOff(was: u32): (r: u32) {
    assert was / 2 % 2 * 2 <= was;
    was - was / 2 % 2 * 2
  }

  /** Clearing the FIFO bit and setting what it was leaves the register as it was. */
  lemma {:induction false} FifoOffAndOn(was: u32)
    ensures Or32(FifoOff(was), And(was, FIFO_EN)) == was
  {
    hide Or;
    var two := FIFO_EN;
    var bit := And(was, two);
    SecondBitOf(was, two);
    if bit == 0 {
      OrZero(FifoOff(was));
    } else {
      SecondBit(FifoOff(was), bit);
    }
  }

  lemma {:induction false} SecondBitOf(was: nat, two: nat)
    requires two == 2
    ensures And(was, two) == was / 2 % 2 * 2
  {
    assert And(was, two) == 2 * And(was / 2, two / 2);
    assert And(was / 2, 1) == was / 2 % 2 by {
      AndConstants(was / 2);
    }
  }

  /** `tw_andorl(TW68_DMAC, 0xff, value)`: only the low byte changes. */
  function DmacStart(was: u32, f: Format): (r: u32) {
    assert was / 0x100 * 0x100 <= was;
    Or32(was / 0x100 * 0x100, And(DmacByte(f), 0xFF))
  }

  /** The register keeps its upper bytes and gets the new low byte. */
  lemma {:induction false} DmacStartIs(was: u32, f: Format)
    ensures DmacStart(was, f) % 0x100 == DmacByte(f) % 0x100
    ensures DmacStart(was, f) / 0x100 == was / 0x100
  {
    hide Or, And, Shl, DmacByte;
    var high, low := was / 0x100, And(DmacByte(f), 0xFF);
    AndConstants(DmacByte(f));
    LowByte(high, low);
  }

  lemma {:induction false} LowByte(high: nat, low: nat)
    requires low < 0x100
    ensures Or(0x100 * high, low) % 0x100 == low && Or(0x100 * high, low) / 0x100 == high
  {
    hide Or, Shl;
    OnesConstants();
    Shl8(high);
    OrDisjoint(high, low, 8);
    DivUnique(0x100 * high + low, 0x100, high, low);
  }

  /** The format bits of the DMA control register. */
  const FORMAT_MASK: nat := 0x7C

  /** For every entry of the table, the byte written carries the format, gamma and both enables,
      and the format can be read back from it. */
  lemma {:induction false} FormatReadsBack(f: Format)
    requires f in FormatTable()
    ensures DmacByte(f) == f.twformat + 0x83
    ensures And(DmacByte(f), FORMAT_MASK) == f.twformat
  {
    FormatBits(f);
    var t := f.twformat / 4;
    assert f.twformat == 4 * t && t < 32;
    ByteOf(f, t);
    MaskOf(4 * t + 0x83, t);
  }

  /** All formats use bits 2 to 6 only. */
  lemma {:induction false} FormatBits(f: Format)
    requires f in FormatTable()
    ensures f.twformat % 4 == 0 && f.twformat < 0x80
  {
    hide Or;
    var swap, both := COLOR_BSWAP, COLOR_WSWAP;
    SwapBits(COLOR_RGB15, swap, 3);
    SwapBits(COLOR_RGB16, swap, 2);
    SwapBits(COLOR_RGB24, swap, 1);
    SwapBits(COLOR_RGB32, swap, 0);
    SwapBits(COLOR_YUY2, swap, 4);
    SwapBoth(Or32(COLOR_RGB32, COLOR_BSWAP), both);
  }

  lemma {:induction false} SwapBits(format: u32, swap: u32, h: nat)
    requires format == 16 * h && h < 8 && swap == 4
    ensures Or32(format, swap) == format + 4
  {
    OnesConstants();
    Shl4(h);
    OrDisjoint(h, swap, 4);
  }

  lemma {:induction false} SwapBoth(a: u32, b: u32)
    requires a == 4 && b == 8
    ensures Or32(a, b) == 12
  {
    OrZero(a / 4);
    OrZero(b / 4);
    assert Or(a / 4, b / 4) == 3;
    assert Or(a / 2, b / 2) == 6;
  }

  lemma {:induction false} ByteOf(f: Format, t: nat)
    requires f.twformat == 4 * t && t < 32
    ensures DmacByte(f) == 4 * t + 0x83
  {
    hide Or;
    var gamma, one, two := COLOR_GAMMA, DMAP_EN, FIFO_EN;
    GammaBit(f.twformat, gamma);
    Bit(4 * t + 0x80, one);
    SecondBit(4 * t + 0x81, two);
  }

  lemma {:induction false} GammaBit(x: nat, gamma: nat)
    requires x < 0x80 && gamma == 0x80
    ensures Or(x, gamma) == x + 0x80
  {
    hide Or;
    SevenBits();
    OrDisjoint(1, x, 7);
    OrSymmetric(x, gamma);
  }

  /** Setting bit 1 of a number that has it clear. */
  lemma {:induction false} SecondBit(a: nat, two: nat)
    requires two == 2 && a / 2 % 2 == 0
    ensures Or(a, two) == a + 2
  {
    Bit(a / 2, two / 2);
  }

  lemma {:induction false} SevenBits()
    ensures Ones(7) == 0x7F && Shl(1, 7) == 0x80
  {
    OnesConstants();
    OnesAdd(4, 3);
    ShlAdd(1, 4, 3);
    Shl4(1);
    var x := 16;
    assert Shl(x, 2) == 4 * x;
    assert Shl(15, 2) == 60;
  }

  lemma {:induction false} OrSymmetric(a: nat, b: nat)
    ensures Or(a, b) == Or(b, a)
    decreases a + b
  {
    if a > 0 || b > 0 {
      OrSymmetric(a / 2, b / 2);
    }
  }

  /** Setting bit 0 of an even number. */
  lemma {:induction false} Bit(a: nat, one: nat)
    requires one == 1 && a % 2 == 0
    ensures Or(a, one) == a + 1
  {
    OrZero(a / 2);
  }

  lemma {:induction false} FormatMaskIs()
    ensures Shl(Ones(5), 2) == FORMAT_MASK && Ones(5) == 31
  {
    OnesConstants();
    OnesAdd(4, 1);
    assert Shl(15, 1) == 30;
    var x := 31;
    assert Shl(x, 2) == 4 * x;
  }

  lemma {:induction false} QuarterOf(y: nat)
    ensures Shr(y, 2) == y / 4 && Shl(y, 2) == 4 * y
  {
    assert Shr(y, 2) == y / 2 / 2;
  }

  lemma {:induction false} Low5(y: nat)
    ensures Low(y, 5) == y % 32
  {
    hide Shl, Low;
    FormatMaskIs();
    SplitIs(y, 5, 32) by {
      ShlAdd(Shr(y, 5), 4, 1);
      Shl4(Shr(y, 5));
      Shl1(16 * Shr(y, 5));
    }
  }

  lemma {:induction false} Shl1(y: nat)
    ensures Shl(y, 1) == 2 * y
  {
  }

  lemma {:induction false} MaskOf(x: nat, t: nat)
    requires x == 4 * t + 0x83 && t < 32
    ensures And(x, FORMAT_MASK) == 4 * t
  {
    hide And, Shl, Shr, Low, Ones;
    FormatMaskIs();
    AndField(x, 5, 2);
    QuarterOf(x);
    Low5(x / 4);
    QuarterOf(t);
    assert x / 4 == t + 32;
  }
}
