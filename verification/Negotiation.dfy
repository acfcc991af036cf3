/** Format negotiation: which picture the driver makes of a requested one. */
module Negotiation {
  import opened Formats
  import opened Norms
  import opened RiscCode
  import opened Words

  /** `struct v4l2_pix_format`. */
  datatype Pix = Pix(fourcc: string, width: nat, height: nat, field: VField, bpl: nat, size: nat)

  function Min(a: int, b: int): int {
    if a < b then a else b
  }

  function Max(a: int, b: int): int {
    if a < b then b else a
  }

  /** The widest picture and the tallest field for a crop rectangle. */
  function MaxWidth(current: Rect, bounds: Rect): nat
    requires current.width >= 0 && bounds.width >= 0
  {
    Min(current.width * 4, bounds.width)
  }

  function MaxHeight(current: Rect, bounds: Rect): nat
    requires current.height >= 0 && bounds.height >= 0
  {
    Min(current.height * 4, bounds.height)
  }

  function FindFormat(fs: seq<Format>, fourcc: string): (f: Option<Format>)
    ensures f.Some? ==> f.value in fs && f.value.fourcc == fourcc
    ensures f.None? ==> forall i :: 0 <= i < |fs| ==> fs[i].fourcc != fourcc
  {
    if fs == [] then None
    else if fs[0].fourcc == fourcc then Some(fs[0])
    else FindFormat(fs[1..], fourcc)
  }

  /** format_by_fourcc. */
  function FormatByFourcc(fourcc: string): Option<Format> {
    FindFormat(FormatTable(), fourcc)
  }

  lemma {:induction false} FormatFound(fourcc: string)
    ensures var f := FormatByFourcc(fourcc);
            if f.Some? then f.value in FormatTable() && f.value.fourcc == fourcc
            else forall g :: g in FormatTable() ==> g.fourcc != fourcc
  {
    hide FormatTable;
  }

  function BytesPerLine(width: nat, depth: nat): nat {
    width * depth / 8
  }

  function ImageSize(height: nat, bpl: nat): nat {
    height * bpl
  }

  /** V4L2_FIELD_ANY means both fields if the picture is taller than half a field. */
  function FieldFor(p: Pix, maxh: nat): VField {
    if p.field != Any then p.field else if p.height > maxh / 2 then Interlaced else Bottom
  }

  /** The lines available to a picture that uses the given field or fields. */
  function Lines(field: VField, maxh: nat): nat {
    if field == Interlaced then maxh * 2 else maxh
  }

  function GrantedWidth(width: nat, maxw: nat): nat {
    var w := Min(Max(width, 48), maxw);
    w - w % 4
  }

  function GrantedHeight(height: nat, maxh: nat): nat {
    Min(Max(height, 32), maxh)
  }

  /** tw68_try_fmt_vid_cap. */
  function Negotiate(current: Rect, bounds: Rect, p: Pix): Result<Pix>
    requires current.width >= 0 && current.height >= 0 && bounds.width >= 0 && bounds.height >= 0
  {
    var fmt := FormatByFourcc(p.fourcc);
    var maxw, maxh := MaxWidth(current, bounds), MaxHeight(current, bounds);
    var field := FieldFor(p, maxh);
    if fmt.None? || field !in {Top, Bottom, Interlaced} then Err(EINVAL)
    else
      var width := GrantedWidth(p.width, maxw);
      var height := GrantedHeight(p.height, Lines(field, maxh));
      var bpl := BytesPerLine(width, fmt.value.depth);
      Ok(Pix(p.fourcc, width, height, field, bpl, ImageSize(height, bpl)))
  }

  // ---------------------------------------------------------------- what is accepted

  /** The dimension check of buffer_prepare. */
  predicate Preparable(n: Norm, width: nat, height: nat) {
    && 48 <= width <= n.hStop - n.hStart + 1
    && 16 <= height <= 2 * (n.vStop - n.vStart + 1)
  }

  /** The dimensions that buffer_prepare accepts for the norms of the table: up to the whole frame of the
      default rectangle. */
  lemma {:induction false} PreparableIs(n: Norm, width: nat, height: nat)
    requires n in NormTable()
    ensures Preparable(n, width, height)
            <==> 48 <= width <= 720 && 16 <= height <= 2 * DefrectOf(n).height
    ensures 2 * DefrectOf(n).height in {576, 482, 480}
  {
    TableGeometry(n);
    assert forall k :: 0 <= k < |NormTable()| ==> DefrectOf(NormTable()[k]).height in {288, 241, 240};
  }

  /** Under the norm that it was negotiated with, a picture passes the check of buffer_prepare if and
      only if the crop rectangle is at least 12 wide and at least 4 (for both fields, 2) high. */
  lemma {:induction false} NegotiatedIsPreparable(n: Norm, current: Rect, p: Pix, q: Pix)
    requires n in NormTable() && current.width >= 0 && current.height >= 0
    requires BoundsOf(n).width >= 0 && BoundsOf(n).height >= 0
    ensures Negotiate(current, BoundsOf(n), p) == Ok(q) ==>
              (Preparable(n, q.width, q.height)
               <==> current.width >= 12 && current.height >= (if q.field == Interlaced then 2 else 4))
  {
    hide NormTable, FormatByFourcc, BytesPerLine, ImageSize;
    TableGeometry(n);
  }

  /** A crop rectangle 8 wide inside the bounds: a picture is negotiated that buffer_prepare refuses. */
  lemma {:induction false} NarrowCropRefused(n: Norm, current: Rect, p: Pix)
    requires n == Norm625("PAL") && current == Rect(0, 24, 8, 288) && p.field == Interlaced
    ensures BoundsOf(n).width >= 0 && BoundsOf(n).height >= 0 && Inside(current, BoundsOf(n))
    ensures FormatByFourcc(p.fourcc).Some? ==>
              var r := Negotiate(current, BoundsOf(n), p);
              r.Ok? && r.value.width == 32 && !Preparable(n, r.value.width, r.value.height)
  {
    hide FormatByFourcc, BytesPerLine, ImageSize;
  }

  /** Negotiating a negotiated picture again changes nothing. */
  lemma {:induction false} NegotiateTwice(current: Rect, bounds: Rect, p: Pix, q: Pix)
    requires current.width >= 0 && current.height >= 0 && bounds.width >= 0 && bounds.height >= 0
    ensures Negotiate(current, bounds, p) == Ok(q) ==> Negotiate(current, bounds, q) == Ok(q)
  {
    hide FormatByFourcc, BytesPerLine, ImageSize, GrantedWidth;
    GrantedWidthTwice(p.width, MaxWidth(current, bounds));
  }

  lemma {:induction false} GrantedWidthTwice(width: nat, maxw: nat)
    ensures GrantedWidth(GrantedWidth(width, maxw), maxw) == GrantedWidth(width, maxw)
  {
    GrantedWidthIs(GrantedWidth(width, maxw), maxw);
  }

  /** Exactly the multiples of 4 within the limits are kept. */
  lemma {:induction false} GrantedWidthIs(width: nat, maxw: nat)
    ensures GrantedWidth(width, maxw) == width <==> Min(48, maxw - maxw % 4) <= width <= maxw && width % 4 == 0
  {
  }

  lemma {:induction false} Depths(f: Format)
    requires f in FormatTable()
    ensures f.depth in {16, 24, 32}
  {
    hide Or, Or32;
    assert forall k :: 0 <= k < |FormatTable()| ==> FormatTable()[k].depth in {16, 24, 32};
  }

  /** Lines are whole bytes, at most 2880 of them, and the size is exactly that of all lines. */
  lemma {:induction false} NegotiatedSizes(n: Norm, current: Rect, p: Pix, q: Pix)
    requires n in NormTable() && current.width >= 0 && current.height >= 0
    requires BoundsOf(n).width >= 0 && BoundsOf(n).height >= 0
    ensures Negotiate(current, BoundsOf(n), p) == Ok(q) ==>
              var fmt := FormatByFourcc(q.fourcc);
              && fmt.Some? && q.bpl * 8 == q.width * fmt.value.depth
              && q.size * 8 == q.width * q.height * fmt.value.depth
              && q.size == q.bpl * q.height && q.bpl <= 2880 && q.size <= 1658880 && q.width % 4 == 0
  {
    hide NormTable, FormatByFourcc, FormatTable, BytesPerLine, ImageSize;
    TableGeometry(n);
    FormatFound(q.fourcc);
    if Negotiate(current, BoundsOf(n), p) == Ok(q) {
      var fmt := FormatByFourcc(q.fourcc).value;
      Depths(fmt);
      assert q.bpl == BytesPerLine(q.width, fmt.depth) && q.size == ImageSize(q.height, q.bpl);
      SizesOf(q.width, q.height, fmt.depth, q.bpl, q.size);
    }
  }

  lemma {:induction false} SizesOf(width: nat, height: nat, depth: nat, bpl: nat, size: nat)
    requires width <= 720 && width % 4 == 0 && height <= 576 && depth in {16, 24, 32}
    requires bpl == BytesPerLine(width, depth) && size == ImageSize(height, bpl)
    ensures bpl * 8 == width * depth && size * 8 == width * height * depth
    ensures size == bpl * height && bpl <= 2880 && size <= 1658880
  {
    WholeBytes(width / 4, depth / 8, height);
    Product(width, 720, depth, 32);
    Product(height, 576, bpl, 2880);
  }

  lemma {:induction false} WholeBytes(w: nat, d: nat, h: nat)
    ensures (4 * w) * (8 * d) / 8 == 4 * w * d
    ensures (4 * w * d) * 8 == (4 * w) * (8 * d)
    ensures (h * (4 * w * d)) * 8 == (4 * w) * h * (8 * d)
  {
    assert (4 * w) * (8 * d) == 4 * w * d * 8;
  }

  lemma {:induction false} Product(a: nat, b: nat, c: nat, d: nat)
    requires a <= b && c <= d
    ensures a * c <= b * d
  {
  }

  /** The widths and heights that fit. */
  predicate WidthFits(current: Rect, bounds: Rect, width: nat)
    requires current.width >= 0 && current.height >= 0 && bounds.width >= 0 && bounds.height >= 0
  {
    var maxw := MaxWidth(current, bounds);
    Min(48, maxw - maxw % 4) <= width <= maxw && width % 4 == 0
  }

  predicate HeightFits(current: Rect, bounds: Rect, field: VField, height: nat)
    requires current.width >= 0 && current.height >= 0 && bounds.width >= 0 && bounds.height >= 0
  {
    var maxh := Lines(field, MaxHeight(current, bounds));
    Min(32, maxh) <= height <= maxh
  }

  /** Which requests are answered as they were put. */
  predicate Fits(current: Rect, bounds: Rect, p: Pix)
    requires current.width >= 0 && current.height >= 0 && bounds.width >= 0 && bounds.height >= 0
  {
    && p.field in {Top, Bottom, Interlaced}
    && WidthFits(current, bounds, p.width) && HeightFits(current, bounds, p.field, p.height)
  }

  // ---------------------------------------------------------------- what is granted

  /** Which requests are refused: those for an unknown format or for another field type. */
  lemma {:induction false} RefusedIff(current: Rect, bounds: Rect, p: Pix)
    requires current.width >= 0 && current.height >= 0 && bounds.width >= 0 && bounds.height >= 0
    ensures var r := Negotiate(current, bounds, p);
            && (r.Err? <==> FormatByFourcc(p.fourcc).None? || p.field !in {Any, Top, Bottom, Interlaced})
            && (r.Err? ==> r.error == EINVAL)
            && (r.Ok? ==> r.value.fourcc == p.fourcc)
  {
    hide FormatByFourcc, BytesPerLine, ImageSize, GrantedWidth;
  }

  /** A stated field is kept.  Without one the picture has both fields exactly if it is taller than half
      a field, and else the bottom one. */
  lemma {:induction false} GrantedField(current: Rect, bounds: Rect, p: Pix, q: Pix)
    requires current.width >= 0 && current.height >= 0 && bounds.width >= 0 && bounds.height >= 0
    ensures Negotiate(current, bounds, p) == Ok(q) ==>
              && (p.field != Any ==> q.field == p.field)
              && (p.field == Any ==> (HasBoth(q.field) <==> 2 * p.height > MaxHeight(current, bounds)))
              && (p.field == Any && !HasBoth(q.field) ==> q.field == Bottom)
              && (p.field == Any && HasBoth(q.field) ==> q.field == Interlaced)
  {
    hide FormatByFourcc, BytesPerLine, ImageSize, GrantedWidth;
  }

  /** Without a stated field the height is kept exactly if it is at most that of both fields and at
      least 32, or all the lines there are. */
  lemma {:induction false} AnyKeepsHeightIff(current: Rect, bounds: Rect, p: Pix, q: Pix)
    requires current.width >= 0 && current.height >= 0 && bounds.width >= 0 && bounds.height >= 0 && p.field == Any
    ensures Negotiate(current, bounds, p) == Ok(q) ==>
              var maxh := MaxHeight(current, bounds);
              (q.height == p.height
               <==> p.height <= 2 * maxh && p.height >= Min(32, if 2 * p.height > maxh then 2 * maxh else maxh))
  {
    hide FormatByFourcc, BytesPerLine, ImageSize, GrantedWidth;
  }

  /** The picture granted fits; its height is the nearest one that fits, and its width the largest one
      that fits and is not above the request, or, if there is none, the smallest one that fits. */
  lemma {:induction false} GrantedIsNearest(current: Rect, bounds: Rect, p: Pix, q: Pix)
    requires current.width >= 0 && current.height >= 0 && bounds.width >= 0 && bounds.height >= 0
    ensures Negotiate(current, bounds, p) == Ok(q) ==>
              && Fits(current, bounds, q)
              && (forall h: nat :: HeightFits(current, bounds, q.field, h) ==>
                    Distance(q.height, p.height) <= Distance(h, p.height))
              && (forall w: nat :: WidthFits(current, bounds, w) ==>
                    if w <= p.width then w <= q.width <= p.width else q.width <= w)
  {
    hide FormatByFourcc, BytesPerLine, ImageSize, GrantedWidth, WidthFits;
    GrantedWidthNearest(current, bounds, p.width);
    hide HeightFits;
    if Negotiate(current, bounds, p) == Ok(q) {
      GrantedHeightNearest(current, bounds, q.field, p.height);
    }
  }

  lemma {:induction false} GrantedWidthNearest(current: Rect, bounds: Rect, width: nat)
    requires current.width >= 0 && current.height >= 0 && bounds.width >= 0 && bounds.height >= 0
    ensures var g := GrantedWidth(width, MaxWidth(current, bounds));
            && WidthFits(current, bounds, g)
            && (forall w: nat :: WidthFits(current, bounds, w) ==> if w <= width then w <= g <= width else g <= w)
  {
    hide MaxWidth;
    forall w: nat | WidthFits(current, bounds, w)
      ensures var g := GrantedWidth(width, MaxWidth(current, bounds));
              if w <= width then w <= g <= width else g <= w
    {
      MultiplesOf4(w, width, MaxWidth(current, bounds));
    }
  }

  lemma {:induction false} MultiplesOf4(w: nat, width: nat, maxw: nat)
    requires Min(48, maxw - maxw % 4) <= w <= maxw && w % 4 == 0
    ensures if w <= width then w <= GrantedWidth(width, maxw) <= width else GrantedWidth(width, maxw) <= w
  {
  }

  lemma {:induction false} GrantedHeightNearest(current: Rect, bounds: Rect, field: VField, height: nat)
    requires current.width >= 0 && current.height >= 0 && bounds.width >= 0 && bounds.height >= 0
    ensures var g := GrantedHeight(height, Lines(field, MaxHeight(current, bounds)));
            && HeightFits(current, bounds, field, g)
            && forall h: nat :: HeightFits(current, bounds, field, h) ==> Distance(g, height) <= Distance(h, height)
  {
  }

  /** A request outside the limits gets the nearest width that fits. */
  lemma {:induction false} OutsideGetsNearestWidth(current: Rect, bounds: Rect, p: Pix, q: Pix)
    requires current.width >= 0 && current.height >= 0 && bounds.width >= 0 && bounds.height >= 0
    requires !(48 <= p.width <= MaxWidth(current, bounds))
    ensures Negotiate(current, bounds, p) == Ok(q) ==>
              forall w: nat :: WidthFits(current, bounds, w) ==> Distance(q.width, p.width) <= Distance(w, p.width)
  {
    hide FormatByFourcc, BytesPerLine, ImageSize;
  }

  /** A request is granted as it was put if and only if its format is known and it fits. */
  lemma {:induction false} FittingIsGranted(current: Rect, bounds: Rect, p: Pix)
    requires current.width >= 0 && current.height >= 0 && bounds.width >= 0 && bounds.height >= 0
    ensures var r := Negotiate(current, bounds, p);
            var known := FormatByFourcc(p.fourcc).Some?;
            r.Ok? && (r.value.width, r.value.height, r.value.field) == (p.width, p.height, p.field)
            <==> known && Fits(current, bounds, p)
  {
    hide FormatByFourcc, BytesPerLine, ImageSize, GrantedWidth;
    GrantedWidthIs(p.width, MaxWidth(current, bounds));
  }

  /** Both fields are negotiated with an odd number of lines when that is what was asked for. */
  lemma {:induction false} OddInterlacedAccepted(p: Pix)
    requires p.width == 64 && p.height == 33 && p.field == Interlaced
    ensures var b := BoundsOf(Norm625("PAL"));
            && b.width >= 0 && b.height >= 0
            && var r := Negotiate(b, b, p);
            FormatByFourcc(p.fourcc).Some? ==> r.Ok? && r.value.field == Interlaced && r.value.height == 33
  {
    hide FormatByFourcc, BytesPerLine, ImageSize;
  }

  /** The format of `struct tw68_fh`. */
  class FileHandle {
    var fmt: Format
    var width: nat
    var height: nat
    var field: VField

    /** What video_open sets up. */
    constructor (bgr24: Format)
      requires bgr24 in FormatTable() && bgr24.fourcc == "BGR3"
      ensures fmt == bgr24 && width == 720 && height == 576 && field == Interlaced
    {
      fmt, width, height, field := bgr24, 720, 576, Interlaced;
    }

    /** The dimensions and format are those of p. */
    ghost predicate Has(p: Pix)
      reads this
    {
      fmt in FormatTable() && fmt.fourcc == p.fourcc && width == p.width && height == p.height && field == p.field
    }

    /** tw68_s_fmt_vid_cap: a refused request changes nothing, an accepted one sets the handle to
        the picture negotiated. */
    method SetFormat(dev: Decoder, f: PixFormat) returns (r: Result<()>)
      requires dev.Valid()
      modifies this, f
      ensures dev.current.width >= 0 && dev.current.height >= 0 && dev.bounds.width >= 0 && dev.bounds.height >= 0
      ensures var n := Negotiate(dev.current, dev.bounds, old(f.Value()));
              if n.Ok? then r.Ok? && f.Value() == n.value && Has(n.value)
              else r == Err(n.error) && f.Value() == old(f.Value())
                   && fmt == old(fmt) && width == old(width) && height == old(height) && field == old(field)
    {
      hide Negotiate, NormTable, FormatTable;
      r := f.TryFormat(dev);
      if r.Err? {
        return;
      }
      var found := FormatByFourcc(f.fourcc);
      FormatFound(f.fourcc);
      fmt, width, height, field := found.value, f.width, f.height, f.field;
    }
  }

  /** `struct v4l2_format` as an ioctl argument. */
  class PixFormat {
    var fourcc: string
    var width: nat
    var height: nat
    var field: VField
    var bytesperline: nat
    var sizeimage: nat

    constructor (p: Pix)
      ensures Value() == p
    {
      fourcc, width, height, field, bytesperline, sizeimage := p.fourcc, p.width, p.height, p.field, p.bpl, p.size;
    }

    function Value(): Pix
      reads this
    {
      Pix(fourcc, width, height, field, bytesperline, sizeimage)
    }

    /** tw68_try_fmt_vid_cap. */
    method TryFormat(dev: Decoder) returns (r: Result<()>)
      requires dev.Valid()
      modifies this
      ensures dev.current.width >= 0 && dev.current.height >= 0 && dev.bounds.width >= 0 && dev.bounds.height >= 0
      ensures var n := Negotiate(dev.current, dev.bounds, old(Value()));
              if n.Ok? then r.Ok? && Value() == n.value && FormatByFourcc(fourcc).Some?
              else r == Err(n.error) && Value() == old(Value())
    {
      hide NormTable, FormatByFourcc, BytesPerLine, ImageSize;
      TableGeometry(dev.norm);
      var fmt := FormatByFourcc(fourcc);
      if fmt.None? {
        return Err(EINVAL);
      }
      var chosen := field;
      var maxw := Min(dev.current.width * 4, dev.bounds.width);
      var maxh := Min(dev.current.height * 4, dev.bounds.height);
      if chosen == Any {
        chosen := if height > maxh / 2 then Interlaced else Bottom;
      }
      match chosen {
        case Top =>
        case Bottom =>
        case Interlaced => maxh := maxh * 2;
        case _ => return Err(EINVAL);
      }
      field := chosen;
      Limit(maxw, maxh, fmt.value.depth);
      return Ok(());
    }

    /** The end of tw68_try_fmt_vid_cap: the picture is brought within the limits. */
    method Limit(maxw: nat, maxh: nat, depth: nat)
      modifies this`width, this`height, this`bytesperline, this`sizeimage
      ensures width == GrantedWidth(old(width), maxw) && height == GrantedHeight(old(height), maxh)
      ensures bytesperline == BytesPerLine(width, depth) && sizeimage == ImageSize(height, bytesperline)
    {
      if width < 48 {
        width := 48;
      }
      if height < 32 {
        height := 32;
      }
      if width > maxw {
        width := maxw;
      }
      if height > maxh {
        height := maxh;
      }
      width := width - width % 4;
      bytesperline := BytesPerLine(width, depth);
      sizeimage := ImageSize(height, bytesperline);
    }
  }
}
