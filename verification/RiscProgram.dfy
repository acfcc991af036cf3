/** The DMA program of a video field: what it has to deliver, the program the driver compiles
    for it, and the proof that running the program delivers exactly that. */
module RiscProgram {
  import opened Words
  import opened ScatterList
  import opened RiscCode

  // ---------------------------------------------------------------- the DMA processor

  /** What the processor stored for one field: for every line, the bus address of each byte, in
      the order of arrival. */
  datatype Field = Field(odd: bool, lines: seq<seq<nat>>)

  datatype Capture = Bad | Good(fields: seq<Field>)

  function OpenField(fs: seq<Field>, odd: bool): seq<Field> {
    fs + [Field(odd, [])]
  }

  function AddLine(fs: seq<Field>, bytes: seq<nat>): seq<Field>
    requires fs != []
  {
    var f := fs[|fs| - 1];
    fs[|fs| - 1 := Field(f.odd, f.lines + [bytes])]
  }

  function ExtendLine(fs: seq<Field>, bytes: seq<nat>): seq<Field>
    requires fs != [] && fs[|fs| - 1].lines != []
  {
    var f := fs[|fs| - 1];
    var l := f.lines[|f.lines| - 1];
    fs[|fs| - 1 := Field(f.odd, f.lines[|f.lines| - 1 := l + bytes])]
  }

  /** One instruction of a field program; data goes where (addr, count) say. */
  function Execute(c: Capture, i: Instr): Capture {
    if c.Bad? then Bad
    else
      match i.op
      case SyncOdd => Good(OpenField(c.fields, true))
      case SyncEven => Good(OpenField(c.fields, false))
      case LineStart =>
        if c.fields == [] then Bad else Good(AddLine(c.fields, Span(i.addr, i.count)))
      case Inline =>
        if c.fields == [] || c.fields[|c.fields| - 1].lines == [] then Bad
        else Good(ExtendLine(c.fields, Span(i.addr, i.count)))
      case Jump => Bad
  }

  function Run(c: Capture, prog: seq<Instr>): Capture {
    if prog == [] then c else Execute(Run(c, prog[..|prog| - 1]), prog[|prog| - 1])
  }

  lemma {:induction false} RunConcat(c: Capture, p: seq<Instr>, q: seq<Instr>)
    ensures Run(c, p + q) == Run(Run(c, p), q)
    decreases |q|
  {
    if q == [] {
      assert p + q == p;
    } else {
      assert (p + q)[..|p + q| - 1] == p + q[..|q| - 1];
      RunConcat(c, p, q[..|q| - 1]);
    }
  }

  // ---------------------------------------------------------------- what a field has to deliver

  /** The logical position of line i. */
  function LineAt(start: nat, stride: nat, i: nat): nat {
    start + i * stride
  }

  /** The list holds every line of the field. */
  ghost predicate Covers(sg: SgList, start: nat, bpl: nat, stride: nat, lines: nat) {
    lines > 0 ==> LineAt(start, stride, lines - 1) + bpl <= Total(sg)
  }

  lemma {:induction false} LineCovered(sg: SgList, start: nat, bpl: nat, stride: nat, lines: nat, i: nat)
    requires Covers(sg, start, bpl, stride, lines) && i < lines
    ensures LineAt(start, stride, i) + bpl <= Total(sg)
    ensures i + 1 < lines ==> LineAt(start, stride, i) + stride == LineAt(start, stride, i + 1)
    ensures Covers(sg, start, bpl, stride, i)
  {
    LineOrder(start, stride, i, lines - 1);
    if i > 0 {
      LineOrder(start, stride, i - 1, lines - 1);
    }
    LineNext(start, stride, i);
  }

  lemma {:induction false} LineOrder(start: nat, stride: nat, i: nat, j: nat)
    requires i <= j
    ensures LineAt(start, stride, i) + (j - i) * stride == LineAt(start, stride, j)
    ensures LineAt(start, stride, i) <= LineAt(start, stride, j)
  {
    assert (j - i) * stride >= 0;
  }

  lemma {:induction false} LineNext(start: nat, stride: nat, i: nat)
    ensures LineAt(start, stride, i + 1) == LineAt(start, stride, i) + stride
    ensures LineAt(start, stride, 0) == start
  {
    assert (i + 1) * stride == i * stride + stride;
  }

  ghost predicate FieldLayout(sg: SgList, start: nat, bpl: nat, stride: nat, lines: nat) {
    && ValidList(sg) && Total(sg) < WORD && bpl > 0
    && Covers(sg, start, bpl, stride, lines)
  }

  /** The contract of a field: line i goes to the logical positions from start + i * stride. */
  ghost function FieldSpec(sg: SgList, odd: bool, start: nat, bpl: nat, stride: nat, lines: nat): (f: Field)
    requires FieldLayout(sg, start, bpl, stride, lines)
    ensures f.odd == odd && |f.lines| == lines
    ensures forall i, j :: 0 <= i < lines && 0 <= j < bpl ==>
              LineAt(start, stride, i) + j < Total(sg)
              && |f.lines[i]| == bpl && f.lines[i][j] == AddrOf(sg, LineAt(start, stride, i) + j)
  {
    forall i | 0 <= i < lines ensures LineAt(start, stride, i) + bpl <= Total(sg) {
      LineCovered(sg, start, bpl, stride, lines, i);
    }
    Field(odd, seq<seq<nat>>(lines, i requires 0 <= i < lines && LineAt(start, stride, i) + bpl <= Total(sg) =>
      Bytes(sg, LineAt(start, stride, i), bpl)))
  }

  // ---------------------------------------------------------------- the program

  /** The instructions for the rest of a line that began in segment k0: n bytes from the
      beginning of segment k, after d bytes of the line.  The Start field counts the line's
      bytes before this fragment, but with the length of the fragment's own segment in place of
      the length of the line's second segment. */
  function Tail(sg: SgList, k0: nat, k: nat, d: nat, n: nat): seq<Instr>
    requires ValidList(sg) && Total(sg) < WORD
    requires k0 < k < |sg| && 0 < n && Prefix(sg, k) + n <= Total(sg)
    requires d <= Prefix(sg, k) && (k > k0 + 1 ==> sg[k0 + 1].len <= d)
    decreases |sg| - k
  {
    PrefixIncreases(sg, k + 1, |sg|);
    var start := d + sg[k].len - sg[k0 + 1].len;
    if n <= sg[k].len then [Instr(Inline, 0, 0, start, n, sg[k].addr)]
    else [Instr(Inline, 0, 0, start, sg[k].len, sg[k].addr)] + Tail(sg, k0, k + 1, d + sg[k].len, n - sg[k].len)
  }

  /** The instructions for one line of bpl bytes at logical position p. */
  function LineCode(sg: SgList, p: nat, bpl: nat): seq<Instr>
    requires ValidList(sg) && Total(sg) < WORD && bpl > 0 && p + bpl <= Total(sg)
  {
    var k := SegAt(sg, p);
    var off := p - Prefix(sg, k);
    var room := sg[k].len - off;
    if bpl <= room then [Instr(LineStart, 0, 0, 0, bpl, sg[k].addr + off)]
    else [Instr(LineStart, 0, 7, 0, room, sg[k].addr + off)] + Tail(sg, k, k + 1, room, bpl - room)
  }

  function LinesCode(sg: SgList, start: nat, bpl: nat, stride: nat, n: nat): seq<Instr>
    requires FieldLayout(sg, start, bpl, stride, n)
    decreases n
  {
    if n == 0 then []
    else
      LineCovered(sg, start, bpl, stride, n, n - 1);
      LinesCode(sg, start, bpl, stride, n - 1) + LineCode(sg, LineAt(start, stride, n - 1), bpl)
  }

  /** The whole field; sync_line is 1 for an odd field and 2 for an even one. */
  function FieldCode(sg: SgList, odd: bool, start: nat, bpl: nat, stride: nat, lines: nat): seq<Instr>
    requires FieldLayout(sg, start, bpl, stride, lines)
  {
    [Sync(odd)] + LinesCode(sg, start, bpl, stride, lines)
  }

  // ---------------------------------------------------------------- meaning

  /** One INLINE fragment appends its bytes to a line already filled up to its segment. */
  lemma {:induction false} FragmentMeaning(sg: SgList, k: nat, n: nat, i: Instr, fs: seq<Field>, p: nat, m: nat)
    requires ValidList(sg) && k < |sg| && fs != [] && p + m == Prefix(sg, k)
    requires n <= sg[k].len && i.op.Inline? && i.count == n && i.addr == sg[k].addr
    ensures p + m + n <= Total(sg)
    ensures Run(Good(AddLine(fs, Bytes(sg, p, m))), [i]) == Good(AddLine(fs, Bytes(sg, p, m + n)))
  {
    BytesInSegment(sg, k, p + m, n);
    BytesJoin(sg, p, m, n);
    ExtendAdded(fs, Bytes(sg, p, m), Span(i.addr, n));
    RunOne(Good(AddLine(fs, Bytes(sg, p, m))), i);
  }

  lemma {:induction false} TailCursor(sg: SgList, k: nat, n: nat)
    requires ValidList(sg) && k < |sg| && Prefix(sg, k) + n <= Total(sg)
    ensures Prefix(sg, k + 1) == Prefix(sg, k) + sg[k].len <= Total(sg)
    ensures n > sg[k].len ==> k + 1 < |sg|
  {
    PrefixIncreases(sg, k + 1, |sg|);
  }

  lemma {:induction false} TailMeaning(sg: SgList, k0: nat, k: nat, d: nat, n: nat, fs: seq<Field>, p: nat, m: nat)
    requires ValidList(sg) && Total(sg) < WORD
    requires k0 < k < |sg| && 0 < n && Prefix(sg, k) + n <= Total(sg)
    requires d <= Prefix(sg, k) && (k > k0 + 1 ==> sg[k0 + 1].len <= d)
    requires fs != [] && p + m == Prefix(sg, k)
    ensures Run(Good(AddLine(fs, Bytes(sg, p, m))), Tail(sg, k0, k, d, n)) == Good(AddLine(fs, Bytes(sg, p, m + n)))
    decreases |sg| - k
  {
    hide Run, Prefix;
    TailCursor(sg, k, n);
    var code := Tail(sg, k0, k, d, n);
    if n <= sg[k].len {
      FragmentMeaning(sg, k, n, code[0], fs, p, m);
    } else {
      var here := sg[k].len;
      var rest := Tail(sg, k0, k + 1, d + here, n - here);
      assert code == [code[0]] + rest;
      FragmentMeaning(sg, k, here, code[0], fs, p, m);
      RunConcat(Good(AddLine(fs, Bytes(sg, p, m))), [code[0]], rest);
      TailMeaning(sg, k0, k + 1, d + here, n - here, fs, p, m + here);
    }
  }

  lemma {:induction false} ExtendAdded(fs: seq<Field>, a: seq<nat>, b: seq<nat>)
    requires fs != []
    ensures ExtendLine(AddLine(fs, a), b) == AddLine(fs, a + b)
  {
    var f := fs[|fs| - 1];
    var g := AddLine(fs, a);
    assert g[|g| - 1].lines[|f.lines| := a + b] == f.lines + [a + b];
  }

  lemma {:induction false} RunOne(c: Capture, i: Instr)
    ensures Run(c, [i]) == Execute(c, i)
  {
    assert [i][..0] == [];
  }

  /** Running the instructions of a line stores one line, byte j at logical position p + j. */
  lemma {:induction false} LineMeaning(sg: SgList, p: nat, bpl: nat, fs: seq<Field>)
    requires ValidList(sg) && Total(sg) < WORD && bpl > 0 && p + bpl <= Total(sg)
    requires fs != []
    ensures Run(Good(fs), LineCode(sg, p, bpl)) == Good(AddLine(fs, Bytes(sg, p, bpl)))
  {
    hide Run;
    var k := SegAt(sg, p);
    var off := p - Prefix(sg, k);
    var room := sg[k].len - off;
    if bpl <= room {
      BytesInSegment(sg, k, p, bpl);
      RunOne(Good(fs), Instr(LineStart, 0, 0, 0, bpl, sg[k].addr + off));
    } else {
      var first := Instr(LineStart, 0, 7, 0, room, sg[k].addr + off);
      BytesInSegment(sg, k, p, room);
      RunOne(Good(fs), first);
      RunConcat(Good(fs), [first], Tail(sg, k, k + 1, room, bpl - room));
      TailMeaning(sg, k, k + 1, room, bpl - room, fs, p, room);
    }
  }

  lemma {:induction false} LinesMeaning(sg: SgList, odd: bool, start: nat, bpl: nat, stride: nat, n: nat, fs: seq<Field>)
    requires FieldLayout(sg, start, bpl, stride, n)
    ensures Run(Good(fs + [Field(odd, [])]), LinesCode(sg, start, bpl, stride, n))
            == Good(fs + [FieldSpec(sg, odd, start, bpl, stride, n)])
    decreases n
  {
    var c := Good(fs + [Field(odd, [])]);
    var spec := FieldSpec(sg, odd, start, bpl, stride, n);
    if n == 0 {
      assert spec == Field(odd, []);
    } else {
      LineCovered(sg, start, bpl, stride, n, n - 1);
      var p := LineAt(start, stride, n - 1);
      var prev := FieldSpec(sg, odd, start, bpl, stride, n - 1);
      calc {
        Run(c, LinesCode(sg, start, bpl, stride, n));
        { RunConcat(c, LinesCode(sg, start, bpl, stride, n - 1), LineCode(sg, p, bpl)); }
        Run(Run(c, LinesCode(sg, start, bpl, stride, n - 1)), LineCode(sg, p, bpl));
        { LinesMeaning(sg, odd, start, bpl, stride, n - 1, fs); }
        Run(Good(fs + [prev]), LineCode(sg, p, bpl));
        { LineMeaning(sg, p, bpl, fs + [prev]); }
        Good(AddLine(fs + [prev], Bytes(sg, p, bpl)));
        { SpecNext(sg, odd, start, bpl, stride, n); AddedLast(fs, prev, Bytes(sg, p, bpl)); }
        Good(fs + [spec]);
      }
    }
  }

  lemma {:induction false} AddedLast(fs: seq<Field>, f: Field, line: seq<nat>)
    ensures AddLine(fs + [f], line) == fs + [Field(f.odd, f.lines + [line])]
  {
  }

  lemma {:induction false} SpecNext(sg: SgList, odd: bool, start: nat, bpl: nat, stride: nat, n: nat)
    requires n > 0 && FieldLayout(sg, start, bpl, stride, n)
    ensures FieldLayout(sg, start, bpl, stride, n - 1) && LineAt(start, stride, n - 1) + bpl <= Total(sg)
    ensures FieldSpec(sg, odd, start, bpl, stride, n).lines
            == FieldSpec(sg, odd, start, bpl, stride, n - 1).lines + [Bytes(sg, LineAt(start, stride, n - 1), bpl)]
  {
    LineCovered(sg, start, bpl, stride, n, n - 1);
  }

  /** Compiler correctness: whatever the segment lengths, running the program of a field stores
      exactly the bytes of that field, in order, at the logical positions asked for. */
  lemma {:induction false} FieldMeaning(sg: SgList, odd: bool, start: nat, bpl: nat, stride: nat, lines: nat, fs: seq<Field>)
    requires FieldLayout(sg, start, bpl, stride, lines)
    ensures Run(Good(fs), FieldCode(sg, odd, start, bpl, stride, lines))
            == Good(fs + [FieldSpec(sg, odd, start, bpl, stride, lines)])
  {
    RunConcat(Good(fs), [Sync(odd)], LinesCode(sg, start, bpl, stride, lines));
    RunOne(Good(fs), Sync(odd));
    LinesMeaning(sg, odd, start, bpl, stride, lines, fs);
  }
}
