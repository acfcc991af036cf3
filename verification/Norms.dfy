/** Television norms and the cropping rectangles derived from them. */
module Norms {

  /** `struct tw68_tvnorm`, as far as geometry depends on it.  is525 says whether the identifier
      has one of the bits of V4L2_STD_525_60. */
  datatype Norm = Norm(name: string, is525: bool, hDelay: nat, hDelay0: nat, hStart: nat, hStop: nat,
                       vDelay: nat, vStart: nat, vStop: nat)

  datatype Rect = Rect(left: int, top: int, width: int, height: int)

  datatype Errno = EINVAL | EBUSY | IolockFailed

  datatype Result<T> = Ok(value: T) | Err(error: Errno)

  function Norm625(name: string): Norm {
    Norm(name, false, 3, 133, 0, 719, 24, 24, 311)
  }

  function Norm525(name: string): Norm {
    Norm(name, true, 8, 138, 0, 719, 22, 22, 262)
  }

  /** The table, in the driver's order.  PAL-60 leaves h_delay0 unset. */
  function NormTable(): seq<Norm> {
    [Norm625("PAL-BG"), Norm625("PAL-I"), Norm625("PAL-DK"), Norm625("PAL"), Norm525("NTSC"),
     Norm625("SECAM-DK"), Norm625("SECAM-L"), Norm625("SECAM-LC"), Norm625("SECAM"), Norm525("PAL-M"),
     Norm625("PAL-Nc"), Norm("PAL-60", true, 186, 0, 0, 719, 26, 23, 262),
     Norm525("STD-525-60"), Norm625("STD-625-50")]
  }

  function BoundsOf(n: Norm): Rect {
    Rect(n.hStart, n.vStart, n.hStop - n.hStart + 1, (if n.is525 then 524 else 624) / 2 - n.vStart)
  }

  function DefrectOf(n: Norm): Rect {
    Rect(n.hStart, n.vStart, n.hStop - n.hStart + 1, n.vStop - n.vStart + 1)
  }

  predicate Inside(r: Rect, b: Rect) {
    && 0 <= r.width && 0 <= r.height
    && b.left <= r.left && r.left + r.width <= b.left + b.width
    && b.top <= r.top && r.top + r.height <= b.top + b.height
  }

  /** What the table's norms have in common: both rectangles begin on the norm's first line and column,
      the default one ends on its last line and column, the bounds end with the last line of a field,
      and a field is never taller than the lines the norm transmits. */
  lemma {:induction false} TableGeometry(n: Norm)
    requires n in NormTable()
    ensures BoundsOf(n).left == DefrectOf(n).left == n.hStart == 0 && BoundsOf(n).top == DefrectOf(n).top == n.vStart
    ensures BoundsOf(n).left + BoundsOf(n).width - 1 == DefrectOf(n).left + DefrectOf(n).width - 1 == n.hStop
    ensures DefrectOf(n).top + DefrectOf(n).height - 1 == n.vStop
    ensures BoundsOf(n).top + BoundsOf(n).height == if n.is525 then 262 else 312
    ensures BoundsOf(n).width == 720
    ensures BoundsOf(n).height in {288, 240, 239}
    ensures DefrectOf(n).height - 1 <= BoundsOf(n).height <= DefrectOf(n).height
    ensures n.is525 <==> BoundsOf(n).height < 288
  {
    assert forall k :: 0 <= k < |NormTable()| ==>
      BoundsOf(NormTable()[k]) in {Rect(0, 24, 720, 288), Rect(0, 22, 720, 240), Rect(0, 23, 720, 239)};
  }

  /** The default rectangle is inside the bounds exactly for the norms whose two agree in height. */
  lemma {:induction false} DefrectInside(n: Norm)
    requires n in NormTable()
    ensures Inside(DefrectOf(n), BoundsOf(n)) <==> !n.is525
  {
    TableGeometry(n);
    assert n.is525 ==> DefrectOf(n).height == BoundsOf(n).height + 1;
  }

  /** One axis of a crop request. */
  datatype Span = Span(start: int, length: int)

  function ClampSpan(s: Span, b: Span): Span {
    var start := if s.start < b.start then b.start else s.start;
    var start' := if start > b.start + b.length then b.start + b.length else start;
    var room := b.start - start' + b.length;
    Span(start', if s.length > room then room else s.length)
  }

  function Distance(a: int, b: int): nat {
    if a < b then b - a else a - b
  }

  predicate SpanInside(s: Span, b: Span) {
    0 <= s.length && b.start <= s.start && s.start + s.length <= b.start + b.length
  }

  /** A clamped span is inside, is the request if and only if that was inside, starts at the position
      within the bounds nearest to the one asked for, and is the longest span inside that starts there
      and is no longer than the request. */
  lemma {:induction false} ClampSpanIs(s: Span, b: Span)
    requires s.length >= 0 && b.length >= 0
    ensures SpanInside(ClampSpan(s, b), b)
    ensures ClampSpan(s, b) == s <==> SpanInside(s, b)
    ensures b.start <= ClampSpan(s, b).start <= b.start + b.length
    ensures forall x: int :: b.start <= x <= b.start + b.length ==>
              Distance(ClampSpan(s, b).start, s.start) <= Distance(x, s.start)
    ensures forall t: Span :: SpanInside(t, b) && t.start == ClampSpan(s, b).start && t.length <= s.length ==>
              t.length <= ClampSpan(s, b).length
  {
  }

  function ClampRect(r: Rect, b: Rect): Rect {
    var h := ClampSpan(Span(r.left, r.width), Span(b.left, b.width));
    var v := ClampSpan(Span(r.top, r.height), Span(b.top, b.height));
    Rect(h.start, v.start, h.length, v.length)
  }

  /** A crop request that fits is granted as it is, and any other becomes the largest one that fits from
      the nearest corner. */
  lemma {:induction false} ClampRectIs(r: Rect, b: Rect)
    requires r.width >= 0 && r.height >= 0 && b.width >= 0 && b.height >= 0
    ensures Inside(ClampRect(r, b), b)
    ensures ClampRect(r, b) == r <==> Inside(r, b)
    ensures ClampRect(ClampRect(r, b), b) == ClampRect(r, b)
    ensures var c := ClampRect(r, b);
            && (forall x: int :: b.left <= x <= b.left + b.width ==> Distance(c.left, r.left) <= Distance(x, r.left))
            && (forall y: int :: b.top <= y <= b.top + b.height ==> Distance(c.top, r.top) <= Distance(y, r.top))
            && forall t: Rect ::
                 Inside(t, b) && t.left == c.left && t.top == c.top && t.width <= r.width && t.height <= r.height
                 ==> t.width <= c.width && t.height <= c.height
  {
    ClampSpanIs(Span(r.left, r.width), Span(b.left, b.width));
    ClampSpanIs(Span(r.top, r.height), Span(b.top, b.height));
    var c := ClampRect(r, b);
    ClampSpanIs(Span(c.left, c.width), Span(b.left, b.width));
    ClampSpanIs(Span(c.top, c.height), Span(b.top, b.height));
  }

  lemma {:induction false} ClampFits(r: Rect, b: Rect)
    requires r.width >= 0 && r.height >= 0 && b.width >= 0 && b.height >= 0
    ensures Inside(ClampRect(r, b), b)
  {
    ClampRectIs(r, b);
  }

  /** The geometry part of `struct tw68_dev`. */
  class Decoder {
    var norm: Norm
    var bounds: Rect
    var defrect: Rect
    var current: Rect

    /** The rectangles are those of a norm of the table, and the current one is either the default
        or inside the bounds. */
    ghost predicate Valid()
      reads this
    {
      && norm in NormTable()
      && bounds == BoundsOf(norm) && defrect == DefrectOf(norm)
      && (current == defrect || Inside(current, bounds))
    }

    /** tw68_video_init2. */
    constructor ()
      ensures Valid() && norm == NormTable()[0] && current == defrect
    {
      var n := NormTable()[0];
      norm, bounds, defrect := n, BoundsOf(n), DefrectOf(n);
      current := DefrectOf(n);
    }

    /** set_tvnorm. */
    method SetTvnorm(n: Norm)
      requires n in NormTable()
      modifies this
      ensures Valid() && norm == n && current == DefrectOf(n)
    {
      hide NormTable;
      TableGeometry(n);
      norm := n;
      var left, width := n.hStart, n.hStop - n.hStart + 1;
      var top := n.vStart;
      bounds := Rect(left, top, width, (if n.is525 then 524 else 624) / 2 - (top as int));
      defrect := Rect(left, top, width, n.vStop - n.vStart + 1);
      current := defrect;
    }

    /** tw68_s_crop; `locked` is res_locked for video. */
    method SetCrop(request: Rect, isCapture: bool, locked: bool) returns (r: Result<Rect>)
      requires Valid()
      modifies this`current
      ensures Valid()
      ensures r.Err? <==> locked || !isCapture || request.width < 0 || request.height < 0
      ensures r.Err? ==> current == old(current) && r.error == if locked then EBUSY else EINVAL
      ensures r.Ok? ==> r.value == current == ClampRect(request, bounds) && Inside(current, bounds)
    {
      hide NormTable, BoundsOf, DefrectOf;
      if locked {
        return Err(EBUSY);
      }
      if !isCapture || request.height < 0 || request.width < 0 {
        return Err(EINVAL);
      }
      TableGeometry(norm);
      ClampFits(request, bounds);
      var c, b := request, bounds;
      if c.top < b.top {
        c := c.(top := b.top);
      }
      if c.top > b.top + b.height {
        c := c.(top := b.top + b.height);
      }
      if c.height > b.top - c.top + b.height {
        c := c.(height := b.top - c.top + b.height);
      }
      if c.left < b.left {
        c := c.(left := b.left);
      }
      if c.left > b.left + b.width {
        c := c.(left := b.left + b.width);
      }
      if c.width > b.left - c.left + b.width {
        c := c.(width := b.left - c.left + b.width);
      }
      current := c;
      return Ok(c);
    }
  }
}
