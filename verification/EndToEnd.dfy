/** From a negotiated format to the bytes in memory. */
module EndToEnd {
  import opened Words
  import opened ScatterList
  import opened RiscCode
  import opened RiscProgram
  import opened RiscShape
  import opened RiscSize
  import opened Formats
  import opened Frames
  import opened QueueModel
  import opened QueueInvariant
  import opened QueueRuns
  import opened QueuePrograms
  import opened Norms
  import opened Negotiation
  import opened Prepare
  import opened Buffers
  import opened Scaler

  // ---------------------------------------------------------------- one buffer

  lemma {:induction false} BufferRepresentable(sg: SgList, l: Layout)
    requires LayoutFits(sg, l) && l.bpl <= 0xFFF && InteriorAtLeast(sg, l.bpl)
    ensures AllRepresentable(BufferCode(sg, l))
  {
    hide LinesCode;
    if l.top.Some? {
      LinesRepresentable(sg, l.top.value, l.bpl, l.Stride(), l.lines);
    }
    if l.bottom.Some? {
      LinesRepresentable(sg, l.bottom.value, l.bpl, l.Stride(), l.lines);
    }
  }

  /** The words of a buffer's program, as the hardware decodes them, capture the fields of its
      layout. */
  lemma {:induction false} BufferImageMeaning(sg: SgList, l: Layout, fs: seq<Field>)
    requires LayoutFits(sg, l) && l.bpl <= 0xFFF && InteriorAtLeast(sg, l.bpl)
    ensures RunImage(Good(fs), Image(BufferCode(sg, l))) == Good(fs + FieldsOf(sg, l))
  {
    hide BufferCode, AllRepresentable, FieldsOf;
    BufferRepresentable(sg, l);
    RunImageIsRun(Good(fs), BufferCode(sg, l));
    BufferMeaning(sg, l, fs);
  }

  /** A picture in memory: the list of its buffer, and its field type and dimensions. */
  datatype Picture = Picture(sg: SgList, field: VField, bpl: nat, height: nat)

  ghost predicate Sound(p: Picture) {
    && BufferList(p.sg) && 0 < p.bpl <= 2880 && p.bpl * p.height <= Total(p.sg)
    && LayoutFor(p.field, p.bpl, p.height).Some?
    && LayoutFits(p.sg, LayoutFor(p.field, p.bpl, p.height).value)
  }

  /** The fields that the program of p captures. */
  ghost function PictureFields(p: Picture): seq<Field> {
    if Sound(p) then FieldsOf(p.sg, LayoutFor(p.field, p.bpl, p.height).value) else []
  }

  /** The queue holds for b the program of p. */
  ghost predicate HasProgram(b: Buf, p: Picture) {
    Sound(p) && b.code == Image(BufferCode(p.sg, LayoutFor(p.field, p.bpl, p.height).value))
  }

  lemma {:induction false} ProgramCaptures(b: Buf, p: Picture, fs: seq<Field>)
    ensures HasProgram(b, p) ==> RunImage(Good(fs), b.code) == Good(fs + PictureFields(p))
  {
    hide BufferCode, FieldsOf, RunImage;
    if HasProgram(b, p) {
      var l := LayoutFor(p.field, p.bpl, p.height).value;
      assert InteriorAtLeast(p.sg, l.bpl);
      BufferImageMeaning(p.sg, l, fs);
    }
  }

  // ---------------------------------------------------------------- the chain

  /** The engine starts the program at a and follows the jumps through at most n programs, until
      it leaves the active buffers. */
  function RunChain(s: Sys, a: u32, n: nat, c: Capture): (Capture, u32)
    decreases n
  {
    var i := FindActive(s.active, a);
    if n == 0 || i.None? then (c, a)
    else
      var b := s.active[i.value];
      var target := JumpTarget(b);
      if target.None? then (Bad, a) else RunChain(s, target.value, n - 1, RunImage(c, b.code))
  }

  ghost function AllFields(ps: seq<Picture>): seq<Field> {
    if ps == [] then [] else PictureFields(ps[0]) + AllFields(ps[1..])
  }

  ghost predicate HavePrograms(bs: seq<Buf>, ps: seq<Picture>) {
    |bs| == |ps| && forall k :: 0 <= k < |ps| ==> HasProgram(bs[k], ps[k])
  }

  lemma {:induction false} StopperEnds(s: Sys, n: nat, c: Capture)
    requires DistinctPrograms(s)
    ensures RunChain(s, s.stopper, n, c) == (c, s.stopper)
  {
    hide FindActive;
  }

  lemma {:induction false} ChainStep(s: Sys, i: nat, n: nat, p: Picture, fs: seq<Field>)
    requires DistinctPrograms(s) && JumpChain(s) && i < |s.active| && n > 0
    ensures HasProgram(s.active[i], p) ==>
              RunChain(s, s.active[i].dma, n, Good(fs))
              == RunChain(s, Successor(s.active, i, s.stopper), n - 1, Good(fs + PictureFields(p)))
  {
    hide FindActive, JumpTarget, RunImage, HasProgram;
    FindActiveIs(s, i);
    ActiveJump(s, i);
    ProgramCaptures(s.active[i], p, fs);
  }

  lemma {:induction false} ChainFrom(s: Sys, ps: seq<Picture>, i: nat, n: nat, fs: seq<Field>)
    requires DistinctPrograms(s) && JumpChain(s) && i < |s.active| && HavePrograms(s.active, ps)
    ensures RunChain(s, s.active[i].dma, |s.active| - i + n, Good(fs)) == (Good(fs + AllFields(ps[i..])), s.stopper)
    decreases |s.active| - i
  {
    hide RunChain, JumpChain, DistinctPrograms, HasProgram, PictureFields;
    ChainStep(s, i, |s.active| - i + n, ps[i], fs);
    var fs1 := fs + PictureFields(ps[i]);
    assert ps[i..][0] == ps[i] && ps[i..][1..] == ps[i + 1..];
    if i + 1 < |s.active| {
      ChainFrom(s, ps, i + 1, n, fs1);
      assert fs1 + AllFields(ps[i + 1..]) == fs + AllFields(ps[i..]);
    } else {
      StopperEnds(s, n, Good(fs1));
      assert AllFields(ps[i + 1..]) == [];
      assert fs1 == fs + AllFields(ps[i..]);
    }
  }

  /** In every reachable state the engine, started on the first active buffer, captures the picture
      of every active buffer, in the order of the list, and ends in the stopper. */
  lemma {:induction false} ChainCaptures(ss: seq<Sys>, es: seq<Event>, k: nat, ps: seq<Picture>, n: nat)
    requires IsRun(ss, es) && k < |ss| && ss[k].active != [] && HavePrograms(ss[k].active, ps)
    ensures RunChain(ss[k], ss[k].active[0].dma, |ps| + n, Good([])) == (Good(AllFields(ps)), ss[k].stopper)
  {
    hide Steps, Initial, RunChain, HasProgram, PictureFields;
    RunInv(ss, es, k);
    ChainFrom(ss[k], ps, 0, n, []);
    assert ps[0..] == ps;
    assert [] + AllFields(ps) == AllFields(ps);
  }

  /** From submission to DONE: if submission k had the program of a picture, and comes back DONE, then
      in between the engine ran a program that captures exactly that picture, with k as an active
      buffer. */
  lemma {:induction false} DoneMeansPictureCaptured(ss: seq<Sys>, es: seq<Event>, m: nat, i: nat, p: Picture)
    requires IsRun(ss, es) && m < |es| && es[m].Submit?
    requires i < |ss| && |Ledger(ss[m])| < |ss[i].retired| && ss[i].retired[|Ledger(ss[m])|].state == Done
    ensures HasProgram(es[m].buf, p) ==>
              exists j :: m < j < i && EngineRan(ss, es, j, |Ledger(ss[m])|)
                          && ss[j].active[|Ledger(ss[m])| - |ss[j].retired|].dma == es[m].buf.dma
                          && RunImage(Good([]), ss[j].active[|Ledger(ss[m])| - |ss[j].retired|].code)
                             == Good(PictureFields(p))
  {
    hide Ledger, RunImage, PictureFields, HasProgram, Next, Initial, Enabled;
    var k := |Ledger(ss[m])|;
    DoneMeansProgramRan(ss, es, i, k);
    var j :| 0 <= j < i && EngineRan(ss, es, j, k)
             && Content(ss[j].active[k - |ss[j].retired|]) == Content(ss[i].retired[k]);
    InLedger(ss[i], k);
    InLedger(ss[j], k);
    if j <= m {
      LedgerGrows(ss, es, j, m);
    }
    LedgerStep(ss[m], es[m]);
    LedgerGrows(ss, es, m + 1, j);
    var b := ss[j].active[k - |ss[j].retired|];
    assert Content(b) == Content(es[m].buf);
    if HasProgram(es[m].buf, p) {
      ContentProgram(es[m].buf, b, p);
      ProgramCaptures(b, p, []);
      assert [] + PictureFields(p) == PictureFields(p);
    }
  }

  lemma {:induction false} ContentProgram(a: Buf, b: Buf, p: Picture)
    requires Content(a) == Content(b)
    ensures a.dma == b.dma && (HasProgram(a, p) ==> HasProgram(b, p))
  {
    assert a.code == Content(a).code && b.code == Content(b).code;
  }

  /** A buffer that buffer_prepare has made ready has the program of its picture. */
  lemma {:induction false} PreparedHasProgram(buf: Buffer)
    requires buf.state != NeedsInit
    ensures Coherent(buf) ==>
              && buf.Programmed()
              && var p := Picture(buf.sg, buf.field, buf.bpl, buf.height);
              HasProgram(buf.Value(), p) && Arrives(p)
  {
    hide BufferCode, FormatTable, TooLong, Arrives, LayoutFits, Image, BytesPerLine;
    if Coherent(buf) {
      PictureBytes(buf.fmt.value, buf.width, buf.height);
      PictureArrives(Picture(buf.sg, buf.field, buf.bpl, buf.height));
    }
  }

  // ---------------------------------------------------------------- a whole picture

  /** The program of p fits its memory, and its words deliver every byte of every row from the line
      and field it belongs to, and nothing else. */
  ghost predicate Arrives(p: Picture) {
    && Sound(p)
    && var l := LayoutFor(p.field, p.bpl, p.height).value;
    && |BufferCode(p.sg, l)| + 1 <= Estimate(l)
    && RunImage(Good([]), Image(BufferCode(p.sg, l))) == Good(PictureFields(p))
    && (forall x: nat :: x < p.bpl * Rows(p.field, p.height) ==> ByteArrives(p, x))
    && forall f, i: nat, j: nat :: f in PictureFields(p) && i < |f.lines| && j < |f.lines[i]| ==>
         InPicture(f, i, j, p.sg, p.field, p.bpl, p.height)
  }

  ghost predicate ByteArrives(p: Picture, x: nat) {
    && ValidList(p.sg) && p.bpl > 0 && x < Total(p.sg)
    && Delivered(PictureFields(p), p.sg, Origin(p.field, p.bpl, p.height, x), x)
  }

  /** A picture on a list of pages that holds it arrives, unless its two fields are sequential and
      the list is one of those for which the estimate is short. */
  lemma {:induction false} PictureArrives(p: Picture)
    requires BufferList(p.sg) && 0 < p.bpl <= 2880 && p.bpl * p.height <= Total(p.sg)
    requires LayoutFor(p.field, p.bpl, p.height).Some?
    ensures Arrives(p) <==> !TooLong(p.sg, p.field, p.bpl, p.height)
  {
    hide BufferCode, FieldsOf, RunImage, Estimate, Delivered, Origin, Rows, LayoutFits, TooLong, InPicture;
    var l := LayoutFor(p.field, p.bpl, p.height).value;
    PictureOverflows(p.sg, p.field, p.bpl, p.height);
    assert InteriorAtLeast(p.sg, p.bpl);
    BufferImageMeaning(p.sg, l, []);
    assert Sound(p) && PictureFields(p) == [] + FieldsOf(p.sg, l);
    forall x: nat | x < p.bpl * Rows(p.field, p.height) ensures ByteArrives(p, x) {
      PictureDelivered(p.sg, p.field, p.bpl, p.height, x);
    }
    forall f, i: nat, j: nat | f in PictureFields(p) && i < |f.lines| && j < |f.lines[i]|
      ensures InPicture(f, i, j, p.sg, p.field, p.bpl, p.height)
    {
      NothingElseStored(p.sg, p.field, p.bpl, p.height, f, i, j);
    }
  }

  /** Whatever was negotiated and passes the check of buffer_prepare arrives, on every list of pages
      that holds it; and its rows are the whole picture unless both fields were negotiated with an odd
      height. */
  lemma {:induction false} NegotiatedPictureArrives(n: Norm, current: Rect, p: Pix, q: Pix, sg: SgList)
    requires n in NormTable() && current.width >= 0 && current.height >= 0
    requires BoundsOf(n).width >= 0 && BoundsOf(n).height >= 0
    ensures Negotiate(current, BoundsOf(n), p) == Ok(q) && Preparable(n, q.width, q.height)
            && BufferList(sg) && q.size <= Total(sg) ==>
              && Arrives(Picture(sg, q.field, q.bpl, q.height))
              && (q.bpl * Rows(q.field, q.height) == q.size <==> q.field != Interlaced || q.height % 2 == 0)
  {
    hide NormTable, Arrives, Rows, Negotiate, TooLong;
    NegotiatedField(current, BoundsOf(n), p, q);
    NegotiatedSizes(n, current, p, q);
    if Negotiate(current, BoundsOf(n), p) == Ok(q) && Preparable(n, q.width, q.height)
       && BufferList(sg) && q.size <= Total(sg) {
      Bytes96(q);
      NeverTooLong(sg, q.field, q.bpl, q.height);
      PictureArrives(Picture(sg, q.field, q.bpl, q.height));
      FilledIff(q.field, q.bpl, q.height);
    }
  }

  lemma {:induction false} NegotiatedField(current: Rect, bounds: Rect, p: Pix, q: Pix)
    requires current.width >= 0 && current.height >= 0 && bounds.width >= 0 && bounds.height >= 0
    ensures Negotiate(current, bounds, p) == Ok(q) ==> q.field in {Top, Bottom, Interlaced}
  {
    hide FormatByFourcc, BytesPerLine, ImageSize;
  }

  /** A line of a known format has bytes. */
  lemma {:induction false} Bytes96(q: Pix)
    ensures var fmt := FormatByFourcc(q.fourcc);
            fmt.Some? && q.width >= 48 && q.bpl * 8 == q.width * fmt.value.depth ==> q.bpl > 0
  {
    hide FormatByFourcc, FormatTable;
    FormatFound(q.fourcc);
    if FormatByFourcc(q.fourcc).Some? {
      Depths(FormatByFourcc(q.fourcc).value);
    }
  }

  lemma {:induction false} NeverTooLong(sg: SgList, field: VField, bpl: nat, height: nat)
    requires bpl > 0 && field in {Top, Bottom, Interlaced}
    ensures !TooLong(sg, field, bpl, height)
  {
  }

  /** The program of a picture has as many lines in a field as the scaler is set to. */
  lemma {:induction false} ProgramMatchesScaler(field: VField, bpl: nat, height: nat)
    ensures LayoutFor(field, bpl, height).Some? ==> LayoutFor(field, bpl, height).value.lines == FieldLines(height, field)
    ensures LayoutFor(field, bpl, height).Some? ==>
              LayoutFor(field, bpl, height).value.Fields() == (if HasBoth(field) then 2 else 1)
  {
  }

  /** What the scaler delivers for a picture whose scale factors its registers hold: lines of at
      least the wanted width and at most two samples more, fields of at least the wanted height and
      at most one line more. */
  lemma {:induction false} ScalerFeedsPicture(n: Norm, tw6800: bool, width: nat, lines: nat)
    requires n in NormTable() && 48 <= width <= 720
    requires BoundsOf(n).width >= 0 && 0 < lines <= BoundsOf(n).height < 16 * lines
    ensures var r := Truncated(SetupFor(n, tw6800, width, lines));
            && r.hscale > 0 && r.vscale > 0
            && width <= ScaledLength(r.hactive, r.hscale) <= width + 2
            && lines <= ScaledLength(r.vactive, r.vscale) <= lines + 1
  {
    hide NormTable, ScaleFactor, ScaledLength;
    TableGeometry(n);
    RegistersHold(n, tw6800, width, lines);
    FactorPositive(720, width);
    FactorPositive(BoundsOf(n).height, lines);
    TableAccuracy(width, 720);
    TableAccuracy(lines, BoundsOf(n).height);
  }
}
