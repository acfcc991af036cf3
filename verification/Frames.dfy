/** How the lines of the fields fill the picture in a buffer. */
module Frames {
  import opened Words
  import opened ScatterList
  import opened RiscCode
  import opened RiscProgram
  import opened RiscSize
  import opened Formats

  /** The layout that buffer_prepare compiles for a field type; None is its BUG. */
  function LayoutFor(field: VField, bpl: nat, height: nat): Option<Layout> {
    match field
    case Top => Some(Layout(Some(0), None, bpl, 0, height))
    case Bottom => Some(Layout(None, Some(0), bpl, 0, height))
    case Interlaced => Some(Layout(Some(0), Some(bpl), bpl, bpl, height / 2))
    case SeqTB => Some(Layout(Some(0), Some(bpl * (height / 2)), bpl, 0, height / 2))
    case SeqBT => Some(Layout(Some(bpl * (height / 2)), Some(0), bpl, 0, height / 2))
    case _ => None
  }

  /** Byte j of line i of the odd (even) field goes to logical position x. */
  ghost predicate Writes(l: Layout, odd: bool, i: nat, j: nat, x: nat) {
    var start := if odd then l.top else l.bottom;
    start.Some? && i < l.lines && j < l.bpl && x == LineAt(start.value, l.Stride(), i) + j
  }

  /** A byte of a field. */
  datatype FieldByte = FieldByte(odd: bool, line: nat, byte: nat)

  /** Which line of which field belongs in a row of the picture. */
  function OriginRow(field: VField, height: nat, row: nat): (bool, nat) {
    match field
    case Top => (true, row)
    case Interlaced => (row % 2 == 0, row / 2)
    case SeqTB => if row < height / 2 then (true, row) else (false, row - height / 2)
    case SeqBT => if row < height / 2 then (false, row) else (true, row - height / 2)
    case _ => (false, row)
  }

  /** Which byte of which field belongs at position x of the picture. */
  function Origin(field: VField, bpl: nat, height: nat, x: nat): FieldByte
    requires bpl > 0
  {
    var r := OriginRow(field, height, x / bpl);
    FieldByte(r.0, r.1, x % bpl)
  }

  /** The rows of the picture that the fields fill. */
  function Rows(field: VField, height: nat): nat {
    if HasBoth(field) then height / 2 * 2 else height
  }

  lemma {:induction false} RowOf(bpl: nat, row: nat, byte: nat, x: nat)
    requires byte < bpl && x == row * bpl + byte
    ensures x / bpl == row && x % bpl == byte
  {
    DivUnique(x, bpl, row, byte);
  }

  lemma {:induction false} RowBound(bpl: nat, rows: nat, x: nat)
    requires bpl > 0
    ensures x / bpl < rows <==> x < bpl * rows
  {
    var row := x / bpl;
    assert x == row * bpl + x % bpl;
    if row < rows {
      Multiples(bpl, row + 1, rows);
      assert (row + 1) * bpl == row * bpl + bpl;
    } else {
      Multiples(bpl, rows, row);
    }
  }

  lemma {:induction false} Multiples(bpl: nat, a: nat, b: nat)
    requires a <= b
    ensures a * bpl <= b * bpl && bpl * b == b * bpl
  {
    var c := b - a;
    assert b * bpl == a * bpl + c * bpl;
  }

  /** The picture row that line i of a field becomes. */
  function RowFor(field: VField, height: nat, odd: bool, i: nat): nat {
    match field
    case Interlaced => if odd then 2 * i else 2 * i + 1
    case SeqTB => if odd then i else height / 2 + i
    case SeqBT => if odd then height / 2 + i else i
    case _ => i
  }

  predicate Captured(field: VField, odd: bool) {
    if odd then field != Bottom else field != Top
  }

  /** The lines of the fields and the rows of the picture correspond one to one. */
  lemma {:induction false} RowsTiled(field: VField, height: nat, odd: bool, i: nat, row: nat)
    requires field in {Top, Bottom, Interlaced, SeqTB, SeqBT}
    ensures (Captured(field, odd) && i < (if HasBoth(field) then height / 2 else height)
             && row == RowFor(field, height, odd, i))
            <==> row < Rows(field, height) && OriginRow(field, height, row) == (odd, i)
  {
  }

  /** Where a line starts. */
  lemma {:induction false} LineRow(field: VField, bpl: nat, height: nat, odd: bool, i: nat)
    requires LayoutFor(field, bpl, height).Some?
    ensures var l := LayoutFor(field, bpl, height).value;
            var start := if odd then l.top else l.bottom;
            start.Some? ==> LineAt(start.value, l.Stride(), i) == RowFor(field, height, odd, i) * bpl
  {
    if field == Interlaced {
      assert i * (bpl + bpl) == 2 * i * bpl;
    } else {
      assert bpl * (height / 2) + i * bpl == (height / 2 + i) * bpl;
    }
  }

  /** Tiling: the bytes of the fields and the first Rows rows of the picture correspond one to one;
      nothing else is written and nothing is written twice. */
  lemma {:induction false} Tiling(field: VField, bpl: nat, height: nat, odd: bool, i: nat, j: nat, x: nat)
    requires bpl > 0 && LayoutFor(field, bpl, height).Some?
    ensures Writes(LayoutFor(field, bpl, height).value, odd, i, j, x)
            <==> x < bpl * Rows(field, height) && Origin(field, bpl, height, x) == FieldByte(odd, i, j)
  {
    hide LineAt, OriginRow, RowFor, Rows;
    LineRow(field, bpl, height, odd, i);
    RowBound(bpl, Rows(field, height), x);
    RowsTiled(field, height, odd, i, x / bpl);
    OnePosition(bpl, RowFor(field, height, odd, i), j, x);
  }

  /** Which field begins the picture: the odd one for TOP, INTERLACED and SEQ_TB, the even one for BOTTOM and
      SEQ_BT; and in an INTERLACED picture of two rows or more the second row is the even field's. */
  lemma {:induction false} FirstField(field: VField, bpl: nat, height: nat)
    requires bpl > 0 && height >= 2 && LayoutFor(field, bpl, height).Some?
    ensures var l := LayoutFor(field, bpl, height).value;
            && Writes(l, field in {Top, Interlaced, SeqTB}, 0, 0, 0)
            && (field == Interlaced ==> Writes(l, false, 0, 0, bpl))
            && (field in {SeqTB, SeqBT} ==> Writes(l, field == SeqBT, 0, 0, bpl * (height / 2)))
  {
  }

  lemma {:induction false} OnePosition(bpl: nat, row: nat, byte: nat, x: nat)
    requires bpl > 0
    ensures byte < bpl && x == row * bpl + byte <==> x / bpl == row && x % bpl == byte
  {
    assert x == x / bpl * bpl + x % bpl;
    if byte < bpl && x == row * bpl + byte {
      RowOf(bpl, row, byte, x);
    }
  }

  /** The whole picture is filled exactly if it has no unpaired row. */
  lemma {:induction false} FilledIff(field: VField, bpl: nat, height: nat)
    requires bpl > 0
    ensures bpl * Rows(field, height) == bpl * height <==> !HasBoth(field) || height % 2 == 0
    ensures Rows(field, height) <= height <= Rows(field, height) + 1
  {
    var r := Rows(field, height);
    assert r < height ==> bpl * (height - r) > 0;
  }

  lemma {:induction false} PictureInside(sg: SgList, bpl: nat, rows: nat, row: nat)
    requires row < rows && bpl * rows <= Total(sg)
    ensures row * bpl + bpl <= Total(sg)
  {
    hide Total;
    Multiples(bpl, row + 1, rows);
    assert (row + 1) * bpl == row * bpl + bpl;
  }

  /** A list that holds the picture holds every field of its layout. */
  lemma {:induction false} PictureFits(sg: SgList, field: VField, bpl: nat, height: nat)
    requires ValidList(sg) && Total(sg) < WORD && bpl > 0 && bpl * height <= Total(sg)
    requires LayoutFor(field, bpl, height).Some?
    ensures LayoutFits(sg, LayoutFor(field, bpl, height).value)
  {
    hide LineAt;
    var l := LayoutFor(field, bpl, height).value;
    if l.lines > 0 {
      LineRow(field, bpl, height, true, l.lines - 1);
      LineRow(field, bpl, height, false, l.lines - 1);
      if l.top.Some? {
        PictureInside(sg, bpl, height, RowFor(field, height, true, l.lines - 1));
      }
      if l.bottom.Some? {
        PictureInside(sg, bpl, height, RowFor(field, height, false, l.lines - 1));
      }
    }
  }

  /** When the program of a picture does not fit its memory: never, but for two sequential fields on
      the lists described by SequentialShort. */
  ghost predicate TooLong(sg: SgList, field: VField, bpl: nat, height: nat)
    requires bpl > 0
  {
    (field == SeqTB || field == SeqBT) && SequentialShort(sg, bpl, height / 2)
  }

  lemma {:induction false} PictureOverflows(sg: SgList, field: VField, bpl: nat, height: nat)
    requires PageList(sg) && bpl > 0 && bpl * height <= Total(sg) && LayoutFor(field, bpl, height).Some?
    ensures LayoutFits(sg, LayoutFor(field, bpl, height).value)
    ensures |BufferCode(sg, LayoutFor(field, bpl, height).value)| <= Estimate(LayoutFor(field, bpl, height).value)
    ensures Overflows(sg, LayoutFor(field, bpl, height).value) <==> TooLong(sg, field, bpl, height)
  {
    hide BufferCode, Estimate, SequentialShort;
    var l := LayoutFor(field, bpl, height).value;
    PictureFits(sg, field, bpl, height);
    match field
    case Top => SingleFieldFits(sg, l);
    case Bottom => SingleFieldFits(sg, l);
    case Interlaced => InterlacedFits(sg, l);
    case SeqTB => SequentialOverflows(sg, l);
    case SeqBT => SequentialOverflows(sg, l);
  }

  // ---------------------------------------------------------------- the captured picture

  /** The fields of a layout, odd first. */
  ghost function FieldsOf(sg: SgList, l: Layout): seq<Field>
    requires LayoutFits(sg, l)
  {
    (if l.top.Some? then [FieldSpec(sg, true, l.top.value, l.bpl, l.Stride(), l.lines)] else [])
    + (if l.bottom.Some? then [FieldSpec(sg, false, l.bottom.value, l.bpl, l.Stride(), l.lines)] else [])
  }

  /** The program of a buffer captures the fields of its layout. */
  lemma {:induction false} BufferMeaning(sg: SgList, l: Layout, fs: seq<Field>)
    requires LayoutFits(sg, l)
    ensures Run(Good(fs), BufferCode(sg, l)) == Good(fs + FieldsOf(sg, l))
  {
    hide Run, FieldCode;
    RunConcat(Good(fs), TopCode(sg, l), BottomCode(sg, l));
    RunNothing(Good(fs));
    var fs1 := fs;
    if l.top.Some? {
      FieldMeaning(sg, true, l.top.value, l.bpl, l.Stride(), l.lines, fs);
      fs1 := fs + [FieldSpec(sg, true, l.top.value, l.bpl, l.Stride(), l.lines)];
    }
    RunNothing(Good(fs1));
    if l.bottom.Some? {
      FieldMeaning(sg, false, l.bottom.value, l.bpl, l.Stride(), l.lines, fs1);
    }
    Regroup(sg, l, fs, fs1);
  }

  lemma {:induction false} RunNothing(c: Capture)
    ensures Run(c, []) == c
  {
  }

  lemma {:induction false} Regroup(sg: SgList, l: Layout, fs: seq<Field>, fs1: seq<Field>)
    requires LayoutFits(sg, l)
    requires fs1 == fs + if l.top.Some? then [FieldSpec(sg, true, l.top.value, l.bpl, l.Stride(), l.lines)] else []
    ensures fs + FieldsOf(sg, l)
            == fs1 + if l.bottom.Some? then [FieldSpec(sg, false, l.bottom.value, l.bpl, l.Stride(), l.lines)] else []
  {
  }

  /** Byte x of the picture is stored at the bus address of position x, from the line and byte that
      Origin names, in the field of that parity. */
  ghost predicate Delivered(fs: seq<Field>, sg: SgList, p: FieldByte, x: nat)
    requires ValidList(sg) && x < Total(sg)
  {
    exists f :: 0 <= f < |fs| && fs[f].odd == p.odd
      && p.line < |fs[f].lines| && p.byte < |fs[f].lines[p.line]| && fs[f].lines[p.line][p.byte] == AddrOf(sg, x)
  }

  lemma {:induction false} FieldAt(sg: SgList, l: Layout, odd: bool)
    requires LayoutFits(sg, l)
    requires if odd then l.top.Some? else l.bottom.Some?
    ensures var start := if odd then l.top.value else l.bottom.value;
            FieldSpec(sg, odd, start, l.bpl, l.Stride(), l.lines) in FieldsOf(sg, l)
  {
    hide FieldSpec;
    var start := if odd then l.top.value else l.bottom.value;
    var f := if odd || l.top.None? then 0 else 1;
    assert FieldsOf(sg, l)[f] == FieldSpec(sg, odd, start, l.bpl, l.Stride(), l.lines);
  }

  lemma {:induction false} WrittenIsDelivered(sg: SgList, l: Layout, odd: bool, i: nat, j: nat, x: nat)
    requires LayoutFits(sg, l) && Writes(l, odd, i, j, x)
    ensures ValidList(sg) && x < Total(sg) && Delivered(FieldsOf(sg, l), sg, FieldByte(odd, i, j), x)
  {
    hide LineAt, FieldsOf;
    FieldAt(sg, l, odd);
    var start := if odd then l.top.value else l.bottom.value;
    var spec := FieldSpec(sg, odd, start, l.bpl, l.Stride(), l.lines);
    var fs := FieldsOf(sg, l);
    var f :| 0 <= f < |fs| && fs[f] == spec;
    SpecByte(sg, odd, start, l.bpl, l.Stride(), l.lines, i, j);
  }

  lemma {:induction false} SpecByte(sg: SgList, odd: bool, start: nat, bpl: nat, stride: nat, lines: nat, i: nat, j: nat)
    requires FieldLayout(sg, start, bpl, stride, lines) && i < lines && j < bpl
    ensures LineAt(start, stride, i) + j < Total(sg)
    ensures var f := FieldSpec(sg, odd, start, bpl, stride, lines);
            |f.lines| == lines && |f.lines[i]| == bpl && f.lines[i][j] == AddrOf(sg, LineAt(start, stride, i) + j)
  {
    hide LineAt;
    LineCovered(sg, start, bpl, stride, lines, i);
  }

  /** Every byte of the picture's rows is delivered from its line and field. */
  lemma {:induction false} PictureDelivered(sg: SgList, field: VField, bpl: nat, height: nat, x: nat)
    requires ValidList(sg) && Total(sg) < WORD && bpl > 0 && bpl * height <= Total(sg)
    requires LayoutFor(field, bpl, height).Some? && x < bpl * Rows(field, height)
    ensures LayoutFits(sg, LayoutFor(field, bpl, height).value) && x < Total(sg)
    ensures Delivered(FieldsOf(sg, LayoutFor(field, bpl, height).value), sg, Origin(field, bpl, height, x), x)
  {
    hide LineAt, Origin, LayoutFor, FieldsOf, Writes, Delivered, Total;
    var l := LayoutFor(field, bpl, height).value;
    PictureFits(sg, field, bpl, height);
    var p := Origin(field, bpl, height, x);
    Tiling(field, bpl, height, p.odd, p.line, p.byte, x);
    WrittenIsDelivered(sg, l, p.odd, p.line, p.byte, x);
  }

  /** Byte j of line i of field f lies in one of the picture's rows, at the position it belongs to. */
  ghost predicate InPicture(f: Field, i: nat, j: nat, sg: SgList, field: VField, bpl: nat, height: nat)
    requires i < |f.lines| && j < |f.lines[i]| && ValidList(sg) && bpl > 0
  {
    exists x: nat :: x < bpl * Rows(field, height) && x < Total(sg)
      && Origin(field, bpl, height, x) == FieldByte(f.odd, i, j) && f.lines[i][j] == AddrOf(sg, x)
  }

  /** Nothing is stored outside the picture. */
  lemma {:induction false} NothingElseStored(sg: SgList, field: VField, bpl: nat, height: nat, f: Field, i: nat, j: nat)
    requires ValidList(sg) && Total(sg) < WORD && bpl > 0 && bpl * height <= Total(sg)
    requires LayoutFor(field, bpl, height).Some? && LayoutFits(sg, LayoutFor(field, bpl, height).value)
    requires f in FieldsOf(sg, LayoutFor(field, bpl, height).value) && i < |f.lines| && j < |f.lines[i]|
    ensures InPicture(f, i, j, sg, field, bpl, height)
  {
    hide LineAt, Origin, Rows;
    var l := LayoutFor(field, bpl, height).value;
    FieldLength(sg, l, f, i);
    var start := if f.odd then l.top.value else l.bottom.value;
    var x := LineAt(start, l.Stride(), i) + j;
    SpecByte(sg, f.odd, start, l.bpl, l.Stride(), l.lines, i, j);
    Tiling(field, bpl, height, f.odd, i, j, x);
  }

  /** Every field of a layout is one of its two specifications. */
  lemma {:induction false} FieldLength(sg: SgList, l: Layout, f: Field, i: nat)
    requires LayoutFits(sg, l) && f in FieldsOf(sg, l) && i < |f.lines|
    ensures if f.odd then l.top.Some? else l.bottom.Some?
    ensures f == FieldSpec(sg, f.odd, if f.odd then l.top.value else l.bottom.value, l.bpl, l.Stride(), l.lines)
    ensures i < l.lines && |f.lines[i]| == l.bpl
  {
    hide FieldSpec, FieldsOf;
    FieldIsSpec(sg, l, f);
    SpecByte(sg, f.odd, if f.odd then l.top.value else l.bottom.value, l.bpl, l.Stride(), l.lines, i, 0);
  }

  lemma {:induction false} FieldIsSpec(sg: SgList, l: Layout, f: Field)
    requires LayoutFits(sg, l) && f in FieldsOf(sg, l)
    ensures if f.odd then l.top.Some? else l.bottom.Some?
    ensures f == FieldSpec(sg, f.odd, if f.odd then l.top.value else l.bottom.value, l.bpl, l.Stride(), l.lines)
    ensures |f.lines| == l.lines
  {
    hide FieldSpec;
  }

  /** The estimate is short for real lists: two fields of 32 lines of 96 bytes, whose list starts 100
      bytes before the end of a page, need 69 instructions and get 68. */
  lemma {:induction false} SequentialEstimateShort(sg: SgList)
    requires sg == [Seg(0x1F9C, 100), Seg(0x4000, 4096), Seg(0x8000, 4096)]
    ensures PageList(sg) && 96 * 64 <= Total(sg) && TooLong(sg, SeqTB, 96, 64)
    ensures var l := LayoutFor(SeqTB, 96, 64).value;
            LayoutFits(sg, l) && |BufferCode(sg, l)| + 1 == 69 && Estimate(l) == 68
  {
    hide BufferCode, LayoutFits, Overflows;
    assert Prefix(sg, 1) == Prefix(sg, 0) + 100;
    assert Prefix(sg, 2) == Prefix(sg, 1) + 4096;
    assert Prefix(sg, 3) == Prefix(sg, 2) + 4096;
    assert TooLong(sg, SeqTB, 96, 64);
    PictureOverflows(sg, SeqTB, 96, 64);
    OverflowIs(sg, LayoutFor(SeqTB, 96, 64).value);
  }

  lemma {:induction false} OverflowIs(sg: SgList, l: Layout)
    requires LayoutFits(sg, l)
    ensures Overflows(sg, l) <==> |BufferCode(sg, l)| + 1 > Estimate(l)
  {
  }
}
