/** How long a compiled program is, and when it fits the memory allocated for it. */
module RiscSize {
  import opened Words
  import opened ScatterList
  import opened RiscCode
  import opened RiscProgram
  import opened RiscShape

  const PAGE_SIZE: nat := 4096

  /** Where the two fields of a buffer start (None: the field is not captured), and the layout
      both share. */
  datatype Layout = Layout(top: Option<nat>, bottom: Option<nat>, bpl: nat, padding: nat, lines: nat)
  {
    function Stride(): nat { bpl + padding }

    function Fields(): nat {
      (if top.Some? then 1 else 0) + (if bottom.Some? then 1 else 0)
    }
  }

  ghost predicate LayoutFits(sg: SgList, l: Layout) {
    && (l.top.Some? ==> FieldLayout(sg, l.top.value, l.bpl, l.Stride(), l.lines))
    && (l.bottom.Some? ==> FieldLayout(sg, l.bottom.value, l.bpl, l.Stride(), l.lines))
  }

  function TopCode(sg: SgList, l: Layout): seq<Instr>
    requires LayoutFits(sg, l)
  {
    if l.top.Some? then FieldCode(sg, true, l.top.value, l.bpl, l.Stride(), l.lines) else []
  }

  function BottomCode(sg: SgList, l: Layout): seq<Instr>
    requires LayoutFits(sg, l)
  {
    if l.bottom.Some? then FieldCode(sg, false, l.bottom.value, l.bpl, l.Stride(), l.lines) else []
  }

  /** The program of a buffer without its final jump: the odd field, then the even field. */
  function BufferCode(sg: SgList, l: Layout): seq<Instr>
    requires LayoutFits(sg, l)
  {
    TopCode(sg, l) + BottomCode(sg, l)
  }

  /** The number of instructions that memory is allocated for. */
  function Estimate(l: Layout): nat {
    l.Fields() * (1 + (l.bpl + l.padding) * l.lines / PAGE_SIZE + l.lines) + 2
  }

  /** The driver's overflow check: the program and its jump do not fit. */
  ghost predicate Overflows(sg: SgList, l: Layout)
    requires LayoutFits(sg, l)
  {
    |BufferCode(sg, l)| + 1 > Estimate(l)
  }

  // ---------------------------------------------------------------- counting instructions

  lemma {:induction false} LineLength(sg: SgList, p: nat, bpl: nat)
    requires ValidList(sg) && Total(sg) < WORD && bpl > 0 && p + bpl <= Total(sg)
    ensures FirstSeg(sg, p) <= LastSeg(sg, p, bpl)
    ensures |LineCode(sg, p, bpl)| == 1 + LastSeg(sg, p, bpl) - FirstSeg(sg, p)
  {
    LineShape(sg, p, bpl);
  }

  /** The last byte of a field of n > 0 lines. */
  function LastByte(start: nat, bpl: nat, stride: nat, n: nat): nat
    requires n > 0 && bpl > 0
  {
    LineAt(start, stride, n - 1) + bpl - 1
  }

  /** One instruction for each line, and at most one more for each segment border in between. */
  lemma {:induction false} LinesLength(sg: SgList, start: nat, bpl: nat, stride: nat, n: nat)
    requires FieldLayout(sg, start, bpl, stride, n) && n > 0 && stride >= bpl
    ensures start <= LastByte(start, bpl, stride, n) < Total(sg)
    ensures |LinesCode(sg, start, bpl, stride, n)|
            <= n + SegAt(sg, LastByte(start, bpl, stride, n)) - SegAt(sg, start)
    decreases n
  {
    hide LineCode, Prefix;
    LineCovered(sg, start, bpl, stride, n, n - 1);
    LineNext(start, stride, 0);
    LineLength(sg, LineAt(start, stride, n - 1), bpl);
    if n > 1 {
      LinesLength(sg, start, bpl, stride, n - 1);
      LineNext(start, stride, n - 2);
      SegAtMonotone(sg, LastByte(start, bpl, stride, n - 1), LineAt(start, stride, n - 1));
    }
  }

  /** The same for two interleaved fields together: each border is counted once. */
  lemma {:induction false} InterleavedLength(sg: SgList, bpl: nat, stride: nat, n: nat)
    requires n > 0 && stride == 2 * bpl
    requires FieldLayout(sg, 0, bpl, stride, n) && FieldLayout(sg, bpl, bpl, stride, n)
    ensures LastByte(bpl, bpl, stride, n) < Total(sg)
    ensures |LinesCode(sg, 0, bpl, stride, n)| + |LinesCode(sg, bpl, bpl, stride, n)|
            <= 2 * n + SegAt(sg, LastByte(bpl, bpl, stride, n))
    decreases n
  {
    hide LineCode, Prefix;
    LineCovered(sg, 0, bpl, stride, n, n - 1);
    LineCovered(sg, bpl, bpl, stride, n, n - 1);
    var p := LineAt(0, stride, n - 1);
    LinePair(sg, p, bpl);
    if n > 1 {
      InterleavedLength(sg, bpl, stride, n - 1);
      LineNext(0, stride, n - 2);
      SegAtMonotone(sg, LastByte(bpl, bpl, stride, n - 1), p);
    }
  }

  /** Two adjacent lines. */
  lemma {:induction false} LinePair(sg: SgList, p: nat, bpl: nat)
    requires ValidList(sg) && Total(sg) < WORD && bpl > 0 && p + bpl + bpl <= Total(sg)
    ensures |LineCode(sg, p, bpl)| + |LineCode(sg, p + bpl, bpl)|
            <= 2 + SegAt(sg, p + bpl + bpl - 1) - SegAt(sg, p)
  {
    hide LineCode;
    hide Prefix;
    LineLength(sg, p, bpl);
    LineLength(sg, p + bpl, bpl);
    SegAtMonotone(sg, p + bpl - 1, p + bpl);
  }

  /** Lists made of pages: only the first and the last segment may be shorter than a page. */
  ghost predicate PageList(sg: SgList) {
    ValidList(sg) && Total(sg) < WORD && InteriorAtLeast(sg, PAGE_SIZE)
  }

  lemma {:induction false} PagePrefix(sg: SgList, k: nat)
    requires PageList(sg) && 0 < k < |sg|
    ensures Prefix(sg, k) >= sg[0].len + (k - 1) * PAGE_SIZE
    decreases k
  {
    if k > 1 {
      PagePrefix(sg, k - 1);
    } else {
      assert Prefix(sg, 1) == Prefix(sg, 0) + sg[0].len;
    }
  }

  /** Position x lies at most one segment behind its page. */
  lemma {:induction false} PageSegment(sg: SgList, x: nat)
    requires PageList(sg) && x < Total(sg)
    ensures SegAt(sg, x) <= 1 + x / PAGE_SIZE
    ensures x > 0 ==> SegAt(sg, x) <= 1 + (x - 1) / PAGE_SIZE
  {
    var k := SegAt(sg, x);
    if k > 0 {
      PagePrefix(sg, k);
      assert (k - 1) * PAGE_SIZE < x;
    }
  }

  // ---------------------------------------------------------------- single fields and frames

  /** The estimate in terms of the bytes between the first line and the end of the last one. */
  lemma {:induction false} EstimateIs(l: Layout, bytes: nat)
    requires (l.bpl + l.padding) * l.lines == bytes
    ensures Estimate(l) == l.Fields() + l.Fields() * (bytes / PAGE_SIZE) + l.Fields() * l.lines + 2
  {
    var f, q := l.Fields(), bytes / PAGE_SIZE;
    assert f * (1 + q + l.lines) == f + f * q + f * l.lines;
  }

  /** A single field never overflows its allocation. */
  lemma {:induction false} SingleFieldFits(sg: SgList, l: Layout)
    requires LayoutFits(sg, l) && PageList(sg)
    requires l.padding == 0 && ((l.top == Some(0) && l.bottom == None) || (l.top == None && l.bottom == Some(0)))
    ensures !Overflows(sg, l)
  {
    hide LineCode, Prefix, LineAt, LastByte, Estimate;
    var bytes := l.bpl * l.lines;
    EstimateIs(l, bytes);
    if l.lines > 0 {
      FieldLength(sg, l.bpl, l.lines, bytes);
    }
  }

  lemma {:induction false} EndOfLines(start: nat, bpl: nat, stride: nat, n: nat, bytes: nat)
    requires n > 0 && bpl > 0 && bytes == stride * n
    ensures LastByte(start, bpl, stride, n) == start + bytes - stride + bpl - 1
  {
    assert (n - 1) * stride + stride == bytes;
  }

  /** A field of adjacent lines from the start of the buffer. */
  lemma {:induction false} FieldLength(sg: SgList, bpl: nat, n: nat, bytes: nat)
    requires FieldLayout(sg, 0, bpl, bpl, n) && PageList(sg) && n > 0 && bytes == bpl * n
    ensures |LinesCode(sg, 0, bpl, bpl, n)| <= n + 1 + bytes / PAGE_SIZE
  {
    hide LinesCode, LineCode, Prefix, LineAt, LastByte;
    EndOfLines(0, bpl, bpl, n, bytes);
    LinesLength(sg, 0, bpl, bpl, n);
    PageSegment(sg, bytes - 1);
  }

  /** An interlaced frame never overflows its allocation. */
  lemma {:induction false} InterlacedFits(sg: SgList, l: Layout)
    requires LayoutFits(sg, l) && PageList(sg)
    requires l.padding == l.bpl && l.top == Some(0) && l.bottom == Some(l.bpl)
    ensures !Overflows(sg, l)
  {
    hide LineCode, Prefix, LineAt, LastByte, Estimate, SegAt;
    var stride := l.Stride();
    var bytes := stride * l.lines;
    EstimateIs(l, bytes);
    if l.lines > 0 {
      InterleavedLength(sg, l.bpl, stride, l.lines);
      EndOfLines(l.bpl, l.bpl, stride, l.lines, bytes);
      PageSegment(sg, bytes - 1);
    }
  }

  // ---------------------------------------------------------------- two sequential fields

  lemma {:induction false} LineAtAdd(start: nat, bpl: nat, m: nat, n: nat)
    ensures LineAt(LineAt(start, bpl, m), bpl, n) == LineAt(start, bpl, m + n)
  {
    assert m * bpl + n * bpl == (m + n) * bpl;
  }

  /** A field of m + n lines is a field of m lines followed by a field of n lines. */
  lemma {:induction false} LinesConcat(sg: SgList, start: nat, bpl: nat, m: nat, n: nat)
    requires FieldLayout(sg, start, bpl, bpl, m + n)
    ensures FieldLayout(sg, start, bpl, bpl, m)
    ensures FieldLayout(sg, LineAt(start, bpl, m), bpl, bpl, n)
    ensures LinesCode(sg, start, bpl, bpl, m + n)
            == LinesCode(sg, start, bpl, bpl, m) + LinesCode(sg, LineAt(start, bpl, m), bpl, bpl, n)
    decreases n
  {
    hide LineCode, Prefix;
    if n == 0 {
      assert LinesCode(sg, LineAt(start, bpl, m), bpl, bpl, 0) == [];
    } else {
      LineCovered(sg, start, bpl, bpl, m + n, m + n - 1);
      LinesConcat(sg, start, bpl, m, n - 1);
      LineAtAdd(start, bpl, m, n - 1);
    }
  }

  /** No segment among the first k begins where a line of bpl bytes begins. */
  ghost predicate BordersInsideLines(sg: SgList, bpl: nat, k: nat)
    requires k <= |sg| && bpl > 0
  {
    forall j :: 1 <= j <= k ==> Prefix(sg, j) % bpl != 0
  }

  /** The position before line n and the line's first byte lie in the same segment, unless a
      segment begins there. */
  lemma {:induction false} SameSegment(sg: SgList, x: nat)
    requires ValidList(sg) && 0 < x < Total(sg)
    ensures SegAt(sg, x) == SegAt(sg, x - 1)
            || (SegAt(sg, x) == SegAt(sg, x - 1) + 1 && Prefix(sg, SegAt(sg, x)) == x)
  {
    var k := SegAt(sg, x - 1);
    if x < Prefix(sg, k + 1) {
      SegAtUnique(sg, x, k);
    } else {
      PrefixIncreases(sg, k + 1, |sg|);
      PrefixIncreases(sg, k + 2, |sg|);
      SegAtUnique(sg, x, k + 1);
    }
  }

  lemma {:induction false} MultipleOf(i: nat, n: nat)
    requires n > 0
    ensures i * n % n == 0
  {
    DivUnique(i * n, n, i, 0);
  }

  /** When every border splits a line, the count is exact. */
  lemma {:induction false} LinesLengthExact(sg: SgList, bpl: nat, n: nat)
    requires FieldLayout(sg, 0, bpl, bpl, n) && n > 0
    requires LastByte(0, bpl, bpl, n) < Total(sg)
    requires BordersInsideLines(sg, bpl, SegAt(sg, LastByte(0, bpl, bpl, n)))
    ensures |LinesCode(sg, 0, bpl, bpl, n)| == n + SegAt(sg, LastByte(0, bpl, bpl, n))
    decreases n
  {
    hide LineCode, Prefix, Total;
    LineCovered(sg, 0, bpl, bpl, n, n - 1);
    var x := LineAt(0, bpl, n - 1);
    LineLength(sg, x, bpl);
    if n == 1 {
      FirstPosition(sg);
    } else {
      LineNext(0, bpl, n - 2);
      SegAtMonotone(sg, x - 1, x + bpl - 1);
      LinesLengthExact(sg, bpl, n - 1);
      hide LinesCode;
      SameSegment(sg, x);
      SegAtMonotone(sg, x, x + bpl - 1);
      MultipleOf(n - 1, bpl);
    }
  }

  lemma {:induction false} FirstPosition(sg: SgList)
    requires ValidList(sg) && Total(sg) > 0
    ensures SegAt(sg, 0) == 0
  {
    assert |sg| > 0;
    assert Prefix(sg, 1) == Prefix(sg, 0) + sg[0].len;
    SegAtUnique(sg, 0, 0);
  }

  /** When a border falls between two lines, the count is at least one lower. */
  lemma {:induction false} LinesLengthMerged(sg: SgList, bpl: nat, n: nat, i: nat, j: nat)
    requires FieldLayout(sg, 0, bpl, bpl, n) && 0 < i < n
    requires 0 < j < |sg| && Prefix(sg, j) == LineAt(0, bpl, i)
    ensures LastByte(0, bpl, bpl, n) < Total(sg)
    ensures |LinesCode(sg, 0, bpl, bpl, n)| < n + SegAt(sg, LastByte(0, bpl, bpl, n))
  {
    hide LinesCode, LineAt, LastByte, Prefix, SegAt;
    var x := LineAt(0, bpl, i);
    LinesConcat(sg, 0, bpl, i, n - i);
    LinesLength(sg, 0, bpl, bpl, i);
    LinesLength(sg, x, bpl, bpl, n - i);
    MergedEnds(bpl, n, i);
    BorderSegments(sg, j);
    FirstPosition(sg);
  }

  lemma {:induction false} MergedEnds(bpl: nat, n: nat, i: nat)
    requires bpl > 0 && 0 < i < n
    ensures LastByte(0, bpl, bpl, i) == LineAt(0, bpl, i) - 1
    ensures LastByte(LineAt(0, bpl, i), bpl, bpl, n - i) == LastByte(0, bpl, bpl, n)
  {
    assert (i - 1) * bpl + bpl == i * bpl;
    assert i * bpl + (n - i - 1) * bpl == (n - 1) * bpl;
  }

  lemma {:induction false} BorderSegments(sg: SgList, j: nat)
    requires ValidList(sg) && 0 < j < |sg|
    ensures 0 < Prefix(sg, j) < Total(sg)
    ensures SegAt(sg, Prefix(sg, j)) == j && SegAt(sg, Prefix(sg, j) - 1) == j - 1
  {
    PrefixIncreases(sg, 0, j);
    PrefixIncreases(sg, j, j + 1);
    PrefixIncreases(sg, j + 1, |sg|);
    PrefixIncreases(sg, j - 1, j);
    SegAtUnique(sg, Prefix(sg, j), j);
    SegAtUnique(sg, Prefix(sg, j) - 1, j - 1);
  }

  ghost predicate Sequential(l: Layout) {
    && l.padding == 0
    && ((l.top == Some(0) && l.bottom == Some(l.bpl * l.lines))
        || (l.top == Some(l.bpl * l.lines) && l.bottom == Some(0)))
  }

  /** The lists for which the estimate of a sequential layout is one instruction short: with q
      the number of whole pages in a field, 2q + 2 segment borders lie in the two fields, each of
      them inside a line. */
  ghost predicate SequentialShort(sg: SgList, bpl: nat, lines: nat)
    requires bpl > 0
  {
    var q := bpl * lines / PAGE_SIZE;
    && 2 * q + 2 < |sg|
    && Prefix(sg, 2 * q + 2) < 2 * (bpl * lines)
    && BordersInsideLines(sg, bpl, 2 * q + 2)
  }

  /** The two fields together are one field of twice as many lines. */
  lemma {:induction false} SequentialLines(sg: SgList, l: Layout)
    requires LayoutFits(sg, l) && Sequential(l)
    ensures FieldLayout(sg, 0, l.bpl, l.bpl, 2 * l.lines)
    ensures |BufferCode(sg, l)| == 2 + |LinesCode(sg, 0, l.bpl, l.bpl, 2 * l.lines)|
  {
    hide LineCode, Prefix;
    var n := l.lines;
    var x := LineAt(0, l.bpl, n);
    assert x == l.bpl * n;
    if n > 0 {
      LineAtAdd(0, l.bpl, n, n - 1);
    }
    LinesConcat(sg, 0, l.bpl, n, n);
  }

  /** Overflow of a sequential layout, exactly. */
  lemma {:induction false} SequentialOverflows(sg: SgList, l: Layout)
    requires LayoutFits(sg, l) && PageList(sg) && Sequential(l)
    ensures |BufferCode(sg, l)| <= Estimate(l)
    ensures Overflows(sg, l) <==> SequentialShort(sg, l.bpl, l.lines)
  {
    hide LinesCode, LineCode, Prefix, Estimate, BufferCode, LastByte, LineAt;
    var bytes := l.bpl * l.lines;
    EstimateIs(l, bytes);
    SequentialLines(sg, l);
    if l.lines == 0 {
      EmptySequential(sg, l);
    } else {
      SequentialLength(sg, l.bpl, l.lines, bytes);
    }
  }

  lemma {:induction false} EmptySequential(sg: SgList, l: Layout)
    requires LayoutFits(sg, l) && Sequential(l) && l.lines == 0
    ensures |BufferCode(sg, l)| == 2
  {
  }

  /** Twice n adjacent lines need 2n + 2q + 2 instructions in the short case, and fewer in all
      others. */
  lemma {:induction false} SequentialLength(sg: SgList, bpl: nat, n: nat, bytes: nat)
    requires n > 0 && bytes == bpl * n && PageList(sg) && FieldLayout(sg, 0, bpl, bpl, 2 * n)
    ensures var q := bytes / PAGE_SIZE;
            var len := |LinesCode(sg, 0, bpl, bpl, 2 * n)|;
            && len <= 2 * n + 2 * q + 2
            && (len == 2 * n + 2 * q + 2 <==> SequentialShort(sg, bpl, n))
  {
    hide LinesCode, LineCode, LastByte, LineAt;
    var q := bytes / PAGE_SIZE;
    var last := 2 * bytes - 1;
    EndOfLines(0, bpl, bpl, 2 * n, 2 * bytes) by {
      assert bpl * (2 * n) == 2 * bytes;
    }
    LinesLength(sg, 0, bpl, bpl, 2 * n);
    PageSegment(sg, last);
    var k := SegAt(sg, last);
    assert k <= 2 * q + 2;
    if k == 2 * q + 2 {
      PagesReached(sg, bpl, n, bytes, k);
    } else if SequentialShort(sg, bpl, n) {
      PrefixIncreases(sg, k + 1, 2 * q + 2);
    }
  }

  lemma {:induction false} PagesReached(sg: SgList, bpl: nat, n: nat, bytes: nat, k: nat)
    requires n > 0 && bytes == bpl * n && PageList(sg) && FieldLayout(sg, 0, bpl, bpl, 2 * n)
    requires LastByte(0, bpl, bpl, 2 * n) == 2 * bytes - 1 < Total(sg)
    requires k == SegAt(sg, 2 * bytes - 1) == 2 * (bytes / PAGE_SIZE) + 2
    ensures |LinesCode(sg, 0, bpl, bpl, 2 * n)| <= 2 * n + k
    ensures |LinesCode(sg, 0, bpl, bpl, 2 * n)| == 2 * n + k <==> SequentialShort(sg, bpl, n)
  {
    hide LinesCode, LineCode, LastByte, LineAt, Prefix, SegAt, Total;
    LinesLength(sg, 0, bpl, bpl, 2 * n);
    assert Prefix(sg, k) < 2 * bytes;
    if BordersInsideLines(sg, bpl, k) {
      LinesLengthExact(sg, bpl, 2 * n);
    } else {
      var j :| 1 <= j <= k && Prefix(sg, j) % bpl == 0;
      PrefixIncreases(sg, j, k);
      PrefixIncreases(sg, 0, j);
      var i := Prefix(sg, j) / bpl;
      LineIndex(Prefix(sg, j), bpl, i, n, bytes);
      LinesLengthMerged(sg, bpl, 2 * n, i, j);
    }
  }

  lemma {:induction false} LineIndex(x: nat, bpl: nat, i: nat, n: nat, bytes: nat)
    requires bpl > 0 && bytes == bpl * n && 0 < x < 2 * bytes && x % bpl == 0 && i == x / bpl
    ensures 0 < i < 2 * n && LineAt(0, bpl, i) == x
  {
    assert x == i * bpl;
    MulOrder(i, 2 * n, bpl);
  }

  lemma {:induction false} MulOrder(a: nat, b: nat, c: nat)
    ensures a >= b ==> a * c >= b * c
  {
    if a >= b {
      assert (a - b) * c >= 0;
    }
  }
}
