/** The scaler: the scale factors computed for a picture, their registers, and what the hardware
    makes of them. */
module Scaler {
  import opened Words
  import opened Formats
  import opened Norms
  import opened Negotiation

  // ---------------------------------------------------------------- accuracy

  /** `active * 256 / wanted`: the factor for showing `active` samples as `wanted`. */
  function ScaleFactor(active: nat, wanted: nat): nat
    requires wanted > 0
  {
    active * 256 / wanted
  }

  /** What a factor makes of `active` samples. */
  function ScaledLength(active: nat, scale: nat): nat
    requires scale > 0
  {
    active * 256 / scale
  }

  lemma {:induction false} DivMod(x: nat, d: nat)
    requires d > 0
    ensures x == d * (x / d) + x % d && x % d < d
  {
  }

  lemma {:induction false} AddMultiple(m: nat, r: nat, d: nat)
    requires d > 0
    ensures (d * m + r) / d == m + r / d
  {
    DivMod(r, d);
    assert d * m + r == d * (m + r / d) + r % d;
    DivUnique(d * m + r, d, m + r / d, r % d);
  }

  lemma {:induction false} FactorPositive(active: nat, wanted: nat)
    requires 0 < wanted
    ensures ScaleFactor(active, wanted) > 0 <==> wanted <= active * 256
  {
    DivMod(active * 256, wanted);
    if ScaleFactor(active, wanted) > 0 {
      Multiple(wanted, ScaleFactor(active, wanted));
    }
  }

  /** How often the factor goes into what the division that computed it left over. */
  function Excess(samples: nat, wanted: nat, scale: nat): nat
    requires wanted > 0 && scale > 0
  {
    samples % wanted / scale
  }

  /** Exactly how far the delivered length is above the wanted one; it is never below. */
  lemma {:induction false} ScalerExact(active: nat, wanted: nat)
    requires 0 < wanted <= active * 256
    ensures var scale := ScaleFactor(active, wanted);
            scale > 0 && ScaledLength(active, scale) == wanted + Excess(active * 256, wanted, scale)
  {
    FactorPositive(active, wanted);
    var scale := ScaleFactor(active, wanted);
    DivMod(active * 256, wanted);
    assert active * 256 == scale * wanted + active * 256 % wanted;
    AddMultiple(wanted, active * 256 % wanted, scale);
  }

  /** Shrinking never delivers short lines, and at most (wanted - 1) / 256 samples too many. */
  lemma {:induction false} ScalerAccuracy(active: nat, wanted: nat)
    requires 0 < wanted <= active
    ensures var scale := ScaleFactor(active, wanted);
            scale >= 256 && wanted <= ScaledLength(active, scale) <= wanted + (wanted - 1) / 256
  {
    hide ScaleFactor, ScaledLength, Excess;
    ScalerExact(active, wanted);
    AtLeast256(active, wanted);
    ExcessSmall(active * 256, wanted, ScaleFactor(active, wanted));
  }

  lemma {:induction false} ExcessSmall(samples: nat, wanted: nat, scale: nat)
    requires wanted > 0 && scale >= 256
    ensures Excess(samples, wanted, scale) <= (wanted - 1) / 256
  {
    Remainder(samples, wanted);
    SmallQuotient(samples % wanted, wanted - 1, scale);
  }

  lemma {:induction false} Remainder(x: nat, d: nat)
    requires d > 0
    ensures 0 <= x % d <= d - 1
  {
  }

  lemma {:induction false} AtLeast256(active: nat, wanted: nat)
    requires 0 < wanted <= active
    ensures ScaleFactor(active, wanted) >= 256
  {
    var scale := ScaleFactor(active, wanted);
    DivMod(active * 256, wanted);
    if scale < 256 {
      Product(wanted, active, scale + 1, 256);
    }
  }

  lemma {:induction false} SmallQuotient(r: nat, bound: nat, scale: nat)
    requires r <= bound && scale >= 256
    ensures r / scale <= bound / 256
  {
    DivMod(r, scale);
    DivMod(bound, 256);
    if r / scale > bound / 256 {
      Product(256, scale, bound / 256 + 1, r / scale);
    }
  }

  /** For the picture sizes of the norm table: lines up to 720 are at most two samples long, fields
      up to 240 lines exact and up to 288 at most one line long. */
  lemma {:induction false} TableAccuracy(wanted: nat, active: nat)
    requires 0 < wanted <= active
    ensures var d := ScaledLength(active, ScaleFactor(active, wanted)) - wanted;
            && (active <= 720 ==> 0 <= d <= 2)
            && (active <= 288 ==> 0 <= d <= 1)
            && (active <= 256 ==> d == 0)
  {
    ScalerAccuracy(active, wanted);
  }

  /** Both bounds are reached. */
  lemma {:induction false} TableAccuracyTight()
    ensures ScaledLength(720, ScaleFactor(720, 627)) == 627 + 2
    ensures ScaledLength(288, ScaleFactor(288, 287)) == 287 + 1
  {
  }

  // ---------------------------------------------------------------- registers

  /** The bits of x in the two masks. */
  lemma {:induction false} High2(x: nat, mask: nat)
    requires mask == 0x300
    ensures And(x, mask) == 0x100 * (x / 0x100 % 4)
  {
    hide And;
    OnesConstants();
    Shl8(Ones(2));
    AndField(x, 2, 8);
    SplitConstants(x);
    SmallSplitConstants(x / 0x100);
    Shl8(x / 0x100 % 4);
  }

  lemma {:induction false} High4(x: nat, mask: nat)
    requires mask == 0xF00
    ensures And(x, mask) == 0x100 * (x / 0x100 % 0x10)
  {
    hide And;
    OnesConstants();
    Shl8(Ones(4));
    AndField(x, 4, 8);
    SplitConstants(x);
    SmallSplitConstants(x / 0x100);
    Shl8(x / 0x100 % 0x10);
  }

  lemma {:induction false} ShlSmall(x: nat)
    ensures Shl(x, 2) == 4 * x && Shl(x, 6) == 64 * x
  {
    Shl4(4 * x);
    ShlAdd(x, 2, 4);
    var y := 2 * x;
    assert Shl(x, 1) == 2 * x && Shl(x, 2) == 4 * x;
  }

  lemma {:induction false} FourFields(a: nat, b: nat, c: nat, d: nat)
    requires a < 4 && b < 4 && c < 4 && d < 4
    ensures Or(Or(Or(64 * a, 16 * b), 4 * c), d) == 64 * a + 16 * b + 4 * c + d
  {
    hide Or, Shl;
    OnesConstants();
    OnesAdd(4, 2);
    ShlSmall(Ones(4));
    ShlSmall(a);
    OrDisjoint(a, 16 * b, 6);
    Shl4(4 * a + b);
    OrDisjoint(4 * a + b, 4 * c, 4);
    ShlSmall(16 * a + 4 * b + c);
    OrDisjoint(16 * a + 4 * b + c, d, 2);
  }

  lemma {:induction false} TwoFields(a: nat, b: nat)
    requires a < 16 && b < 16
    ensures Or(16 * a, b) == 16 * a + b
  {
    hide Or, Shl;
    OnesConstants();
    Shl4(a);
    OrDisjoint(a, b, 4);
  }

  /** CROP_HI from the four crop values. */
  function CropHi(vdelay: nat, vactive: nat, hdelay: nat, hactive: nat): nat {
    Or(Or(Or(Shr(And(vdelay, 0x300), 2), Shr(And(vactive, 0x300), 4)), Shr(And(hdelay, 0x300), 6)),
       Shr(And(hactive, 0x300), 8))
  }

  /** SCALE_HI from the two scale factors. */
  function ScaleHi(vscale: nat, hscale: nat): nat {
    Or(Shr(And(vscale, 0xF00), 4), Shr(And(hscale, 0xF00), 8))
  }

  lemma {:induction false} ShrAll(x: nat)
    ensures Shr(0x100 * x, 2) == 64 * x && Shr(0x100 * x, 4) == 16 * x
    ensures Shr(0x100 * x, 6) == 4 * x && Shr(0x100 * x, 8) == x
  {
    var h := 0x80 * x;
    assert Shr(0x100 * x, 2) == Shr(h, 1) == 64 * x;
    assert Shr(0x100 * x, 4) == Shr(64 * x, 2) == 16 * x;
    assert Shr(0x100 * x, 6) == Shr(64 * x, 4) == Shr(16 * x, 2) == 4 * x;
    SplitConstants(0x100 * x);
  }

  lemma {:induction false} CropHiIs(vdelay: nat, vactive: nat, hdelay: nat, hactive: nat)
    ensures CropHi(vdelay, vactive, hdelay, hactive)
            == 64 * (vdelay / 0x100 % 4) + 16 * (vactive / 0x100 % 4) + 4 * (hdelay / 0x100 % 4) + hactive / 0x100 % 4
  {
    hide Or, And, Shr;
    var mask := 0x300;
    High2(vdelay, mask);
    High2(vactive, mask);
    High2(hdelay, mask);
    High2(hactive, mask);
    ShrAll(vdelay / 0x100 % 4);
    ShrAll(vactive / 0x100 % 4);
    ShrAll(hdelay / 0x100 % 4);
    ShrAll(hactive / 0x100 % 4);
    FourFields(vdelay / 0x100 % 4, vactive / 0x100 % 4, hdelay / 0x100 % 4, hactive / 0x100 % 4);
  }

  lemma {:induction false} ScaleHiIs(vscale: nat, hscale: nat)
    ensures ScaleHi(vscale, hscale) == 16 * (vscale / 0x100 % 0x10) + hscale / 0x100 % 0x10
  {
    hide Or, And, Shr;
    var mask := 0xF00;
    High4(vscale, mask);
    High4(hscale, mask);
    ShrAll(vscale / 0x100 % 0x10);
    ShrAll(hscale / 0x100 % 0x10);
    TwoFields(vscale / 0x100 % 0x10, hscale / 0x100 % 0x10);
  }

  /** The values tw68_set_scale computes. */
  datatype Setup = Setup(vdelay: nat, vactive: nat, hdelay: nat, hactive: nat, vscale: nat, hscale: nat)

  /** Lines of one field. */
  function FieldLines(height: nat, field: VField): nat {
    if HasBoth(field) then height / 2 else height
  }

  /** The values for a norm of the table, whose bounds and default rectangle start on the same line;
      tw6800 says which of the two horizontal delays the chip needs. */
  function SetupFor(n: Norm, tw6800: bool, width: nat, lines: nat): Setup
    requires BoundsOf(n).width >= 0 && BoundsOf(n).height >= 0 && width > 0 && lines > 0
  {
    Setup(n.vDelay, BoundsOf(n).height, (if tw6800 then n.hDelay0 else n.hDelay) + n.hStart, BoundsOf(n).width,
          ScaleFactor(BoundsOf(n).height, lines), ScaleFactor(BoundsOf(n).width, width))
  }

  /** A field of a register. */
  function Bits(register: nat, unit: nat, size: nat): nat
    requires unit > 0 && size > 0
  {
    register / unit % size
  }

  lemma {:induction false} CropBits(a: nat, b: nat, c: nat, d: nat, hi: nat)
    requires a < 4 && b < 4 && c < 4 && d < 4 && hi == 64 * a + 16 * b + 4 * c + d
    ensures hi < 0x100
    ensures Bits(hi, 0x40, 4) == a && Bits(hi, 0x10, 4) == b && Bits(hi, 4, 4) == c && Bits(hi, 1, 4) == d
  {
    DivUnique(hi, 64, a, 16 * b + 4 * c + d);
    DivUnique(hi, 16, 4 * a + b, 4 * c + d);
    DivUnique(hi, 4, 16 * a + 4 * b + c, d);
    DivUnique(4 * a + b, 4, a, b);
    DivUnique(16 * a + 4 * b + c, 4, 4 * a + b, c);
  }

  lemma {:induction false} ScaleBits(a: nat, b: nat, hi: nat)
    requires a < 0x10 && b < 0x10 && hi == 0x10 * a + b
    ensures hi < 0x100 && Bits(hi, 0x10, 0x10) == a && Bits(hi, 1, 0x10) == b
  {
    DivUnique(hi, 0x10, a, b);
  }

  lemma {:induction false} HighAndLow(x: nat)
    ensures 0x100 * (x / 0x100 % 4) + x % 0x100 == x % 0x400
    ensures 0x100 * (x / 0x100 % 0x10) + x % 0x100 == x % 0x1000
  {
    var h, l := x / 0x100, x % 0x100;
    DivUnique(x, 0x400, h / 4, 0x100 * (h % 4) + l);
    DivUnique(x, 0x1000, h / 0x10, 0x100 * (h % 0x10) + l);
  }

  lemma {:induction false} CropRead(vdelay: nat, vactive: nat, hdelay: nat, hactive: nat)
    ensures var hi := CropHi(vdelay, vactive, hdelay, hactive);
            && hi < 0x100
            && 0x100 * Bits(hi, 0x40, 4) + vdelay % 0x100 == vdelay % 0x400
            && 0x100 * Bits(hi, 0x10, 4) + vactive % 0x100 == vactive % 0x400
            && 0x100 * Bits(hi, 4, 4) + hdelay % 0x100 == hdelay % 0x400
            && 0x100 * Bits(hi, 1, 4) + hactive % 0x100 == hactive % 0x400
  {
    hide CropHi, Bits;
    CropHiIs(vdelay, vactive, hdelay, hactive);
    CropBits(vdelay / 0x100 % 4, vactive / 0x100 % 4, hdelay / 0x100 % 4, hactive / 0x100 % 4,
             CropHi(vdelay, vactive, hdelay, hactive));
    HighAndLow(vdelay);
    HighAndLow(vactive);
    HighAndLow(hdelay);
    HighAndLow(hactive);
  }

  lemma {:induction false} ScaleRead(vscale: nat, hscale: nat)
    ensures var hi := ScaleHi(vscale, hscale);
            && hi < 0x100
            && 0x100 * Bits(hi, 0x10, 0x10) + vscale % 0x100 == vscale % 0x1000
            && 0x100 * Bits(hi, 1, 0x10) + hscale % 0x100 == hscale % 0x1000
  {
    hide ScaleHi, Bits;
    ScaleHiIs(vscale, hscale);
    ScaleBits(vscale / 0x100 % 0x10, hscale / 0x100 % 0x10, ScaleHi(vscale, hscale));
    HighAndLow(vscale);
    HighAndLow(hscale);
  }

  type u8 = x: nat | x < 0x100

  /** The scaler's registers, and the values the hardware reads from them. */
  class Registers {
    var cropHi: u8
    var vdelayLo: u8
    var vactiveLo: u8
    var hdelayLo: u8
    var hactiveLo: u8
    var scaleHi: u8
    var vscaleLo: u8
    var hscaleLo: u8

    constructor () {
      cropHi, vdelayLo, vactiveLo, hdelayLo, hactiveLo := 0, 0, 0, 0, 0;
      scaleHi, vscaleLo, hscaleLo := 0, 0, 0;
    }

    /** What the ten and twelve bit fields hold. */
    function Read(): Setup
      reads this
    {
      Setup(0x100 * Bits(cropHi, 0x40, 4) + vdelayLo, 0x100 * Bits(cropHi, 0x10, 4) + vactiveLo,
            0x100 * Bits(cropHi, 4, 4) + hdelayLo, 0x100 * Bits(cropHi, 1, 4) + hactiveLo,
            0x100 * Bits(scaleHi, 0x10, 0x10) + vscaleLo, 0x100 * Bits(scaleHi, 1, 0x10) + hscaleLo)
    }

    /** tw68_set_scale. */
    method SetScale(dev: Decoder, tw6800: bool, width: nat, height: nat, field: VField)
      requires dev.Valid() && width > 0 && FieldLines(height, field) > 0
      modifies this
      ensures BoundsOf(dev.norm).width >= 0 && BoundsOf(dev.norm).height >= 0
      ensures Read() == Truncated(SetupFor(dev.norm, tw6800, width, FieldLines(height, field)))
      ensures Read().hdelay == ((if tw6800 then dev.norm.hDelay0 else dev.norm.hDelay) + dev.bounds.left) % 0x400
      ensures Read().vdelay == (dev.norm.vDelay + dev.bounds.top - dev.defrect.top) % 0x400
      ensures Read().hactive == dev.bounds.width % 0x400 && Read().vactive == dev.bounds.height % 0x400
      ensures Read().hscale == dev.bounds.width * 256 / width % 0x1000
      ensures Read().vscale == dev.bounds.height * 256 / (if HasBoth(field) then height / 2 else height) % 0x1000
    {
      hide NormTable, CropHi, ScaleHi, Bits, ScaleFactor;
      TableGeometry(dev.norm);
      var lines := height;
      if HasBoth(field) {
        lines := lines / 2;
      }
      var hdelay: nat := if tw6800 then dev.norm.hDelay0 else dev.norm.hDelay;
      hdelay := hdelay + dev.bounds.left;
      var hactive := dev.bounds.width;
      var hscale := ScaleFactor(hactive, width);
      var vdelay := dev.norm.vDelay + dev.bounds.top - dev.defrect.top;
      var vactive := dev.bounds.height;
      var vscale := ScaleFactor(vactive, lines);
      WriteCrop(vdelay, vactive, hdelay, hactive);
      WriteScale(vscale, hscale);
      FactorIs(hactive, width);
      FactorIs(vactive, lines);
    }

    method WriteCrop(vdelay: nat, vactive: nat, hdelay: nat, hactive: nat)
      modifies this`cropHi, this`vdelayLo, this`vactiveLo, this`hdelayLo, this`hactiveLo
      ensures Read() == old(Read()).(vdelay := vdelay % 0x400, vactive := vactive % 0x400,
                                     hdelay := hdelay % 0x400, hactive := hactive % 0x400)
    {
      hide CropHi, Bits;
      CropRead(vdelay, vactive, hdelay, hactive);
      cropHi := CropHi(vdelay, vactive, hdelay, hactive);
      vdelayLo := vdelay % 0x100;
      vactiveLo := vactive % 0x100;
      hdelayLo := hdelay % 0x100;
      hactiveLo := hactive % 0x100;
    }

    method WriteScale(vscale: nat, hscale: nat)
      modifies this`scaleHi, this`vscaleLo, this`hscaleLo
      ensures Read() == old(Read()).(vscale := vscale % 0x1000, hscale := hscale % 0x1000)
    {
      hide ScaleHi, Bits;
      ScaleRead(vscale, hscale);
      scaleHi := ScaleHi(vscale, hscale);
      vscaleLo := vscale % 0x100;
      hscaleLo := hscale % 0x100;
    }
  }

  function Truncated(s: Setup): Setup {
    Setup(s.vdelay % 0x400, s.vactive % 0x400, s.hdelay % 0x400, s.hactive % 0x400, s.vscale % 0x1000, s.hscale % 0x1000)
  }

  lemma {:induction false} FactorIs(active: nat, wanted: nat)
    requires wanted > 0
    ensures ScaleFactor(active, wanted) == active * 256 / wanted
  {
  }

  /** For every norm but PAL-60, whose entry lacks the older chip's delay, sampling starts 130 columns
      later on the TW6800. */
  lemma {:induction false} ChipDelays(n: Norm, width: nat, lines: nat)
    requires n in NormTable() && width > 0 && lines > 0 && BoundsOf(n).width >= 0 && BoundsOf(n).height >= 0
    ensures var older, newer := SetupFor(n, true, width, lines), SetupFor(n, false, width, lines);
            && newer.hdelay == (if n == NormTable()[11] then 186 else if n.is525 then 8 else 3)
            && older.hdelay == (if n == NormTable()[11] then 0 else newer.hdelay + 130)
            && older.vdelay == newer.vdelay == (if n == NormTable()[11] then 26 else if n.is525 then 22 else 24)
  {
    hide ScaleFactor;
    assert forall k :: 0 <= k < |NormTable()| ==>
      var m := NormTable()[k];
      && m.hStart == 0
      && (m.hDelay, m.hDelay0, m.vDelay)
         == if k == 11 then (186, 0, 26) else if m.is525 then (8, 138, 22) else (3, 133, 24);
    assert NormTable()[11].hDelay == 186;
  }

  lemma {:induction false} FactorFits(active: nat, wanted: nat)
    requires wanted > 0
    ensures ScaleFactor(active, wanted) < 0x1000 <==> active < 16 * wanted
  {
    var f := ScaleFactor(active, wanted);
    DivMod(active * 256, wanted);
    if f < 0x1000 {
      Product(wanted, wanted, f + 1, 0x1000);
    } else {
      Product(wanted, wanted, 0x1000, f);
    }
  }

  /** The registers hold all values of a picture of at least 48 columns if and only if the field is
      less than 16 times as tall as the picture's. */
  lemma {:induction false} RegistersHold(n: Norm, tw6800: bool, width: nat, lines: nat)
    requires n in NormTable() && width >= 48 && lines > 0
    requires BoundsOf(n).width >= 0 && BoundsOf(n).height >= 0
    ensures var s := SetupFor(n, tw6800, width, lines);
            Truncated(s) == s <==> BoundsOf(n).height < 16 * lines
  {
    hide NormTable, ScaleFactor;
    TableGeometry(n);
    TableDelays(n);
    FactorFits(BoundsOf(n).height, lines);
    FactorFits(BoundsOf(n).width, width);
  }

  lemma {:induction false} TableDelays(n: Norm)
    requires n in NormTable()
    ensures n.vDelay < 0x400 && n.hDelay < 0x400 && n.hDelay0 < 0x400 && n.hStart == 0
  {
    assert forall k :: 0 <= k < |NormTable()| ==>
      NormTable()[k].vDelay < 0x400 && NormTable()[k].hDelay < 0x400 && NormTable()[k].hDelay0 < 0x400
      && NormTable()[k].hStart == 0;
  }

  /** With the whole picture as crop rectangle, the only negotiated pictures whose scale factor does
      not fit its register are those of 625 line norms with both fields and 37 lines or less. */
  lemma {:induction false} NegotiatedScaleFits(n: Norm, tw6800: bool, p: Pix, q: Pix)
    requires n in NormTable() && DefrectOf(n).width >= 0 && DefrectOf(n).height >= 0
    requires BoundsOf(n).width >= 0 && BoundsOf(n).height >= 0
    ensures Negotiate(DefrectOf(n), BoundsOf(n), p) == Ok(q) ==>
              && q.width >= 48 && FieldLines(q.height, q.field) > 0
              && var s := SetupFor(n, tw6800, q.width, FieldLines(q.height, q.field));
              (Truncated(s) == s <==> n.is525 || q.field != Interlaced || q.height >= 38)
  {
    hide NormTable, ScaleFactor, FormatByFourcc, BytesPerLine, ImageSize;
    TableGeometry(n);
    if Negotiate(DefrectOf(n), BoundsOf(n), p) == Ok(q) {
      RegistersHold(n, tw6800, q.width, FieldLines(q.height, q.field));
    }
  }

  /** And for the tallest such picture the scale factor that reaches the register is zero. */
  lemma {:induction false} ScaleFactorLost()
    ensures var s := SetupFor(Norm625("PAL"), false, 64, 18);
            s.vscale == 0x1000 && Truncated(s).vscale == 0
  {
  }
}
