/** The compiler itself: the loops that walk the scatter-gather list and write instruction words
    into the program memory, proved to write exactly the programs of RiscProgram. */
module RiscCompiler {
  import opened Words
  import opened ScatterList
  import opened RiscCode
  import opened RiscProgram
  import opened RiscSize

  const NO_SYNC_LINE: u32 := 0xFFFF_FFFF

  /** The synchronisation instruction in front of a field. */
  function SyncCode(syncLine: u32): seq<Instr> {
    if syncLine == NO_SYNC_LINE then [] else [Sync(syncLine == 1)]
  }

  /** The words of `prog` have been written to mem[base..rp]. */
  ghost predicate Written(mem: array<u32>, base: nat, rp: nat, prog: seq<Instr>)
    reads mem
  {
    base <= rp <= mem.Length && rp == base + 2 * |prog| && mem[base..rp] == Image(prog)
  }

  /** `*(rp++) = w; *(rp++) = a;` where (w, a) encodes instruction i. */
  method Emit(mem: array<u32>, ghost base: nat, rp: nat, ghost prog: seq<Instr>, w: u32, a: u32, ghost i: Instr)
    returns (rp': nat)
    requires Written(mem, base, rp, prog) && base + 2 * |prog| + 2 <= mem.Length
    requires w == Encode(i) && a == i.addr
    modifies mem
    ensures Written(mem, base, rp', prog + [i]) && rp' == base + 2 * |prog| + 2
    ensures forall j :: 0 <= j < base || rp' <= j < mem.Length ==> mem[j] == old(mem[j])
  {
    hide Encode, Image;
    mem[rp] := w;
    mem[rp + 1] := a;
    rp' := rp + 2;
    ImageAppend(prog, i);
    assert mem[base..rp'] == mem[base..rp] + [w, a];
  }

  /** Writes a further fragment of a split line: `RISC_INLINE | (done << 12) | count`. */
  method EmitInline(mem: array<u32>, ghost base: nat, rp: nat, ghost prog: seq<Instr>, done: u32, count: u32, a: u32)
    returns (rp': nat)
    requires Written(mem, base, rp, prog) && base + 2 * |prog| + 2 <= mem.Length
    modifies mem
    ensures Written(mem, base, rp', prog + [Instr(Inline, 0, 0, done, count, a)]) && rp' == base + 2 * |prog| + 2
    ensures forall j :: 0 <= j < base || rp' <= j < mem.Length ==> mem[j] == old(mem[j])
  {
    hide Encode, Or, Shl;
    ghost var i := Instr(Inline, 0, 0, done, count, a);
    EncodePlain(i);
    rp' := Emit(mem, base, rp, prog, Or32(Or32(RISC_INLINE, Shl32(done, 12)), count), a, i);
  }

  /** Advances the cursor (k, off) to the segment that holds its position. */
  method Seek(sg: SgList, k0: nat, off0: u32, ghost p: nat) returns (k: nat, off: u32)
    requires ValidList(sg) && k0 < |sg| && Prefix(sg, k0) + off0 == p < Total(sg)
    ensures k < |sg| && off < sg[k].len && Prefix(sg, k) + off == p && SegAt(sg, p) == k
  {
    k, off := k0, off0;
    while off != 0 && off >= sg[k].len
      invariant k < |sg| && Prefix(sg, k) + off == p
      decreases |sg| - k
    {
      off := off - sg[k].len;
      k := k + 1;
    }
    SegAtUnique(sg, p, k);
  }

  /** `prog` has been written of `code`, and `rest` is still to be written. */
  ghost predicate Remaining(code: seq<Instr>, prog: seq<Instr>, rest: seq<Instr>) {
    code == prog + rest
  }

  /** One round of the fragment loop. */
  lemma {:induction false} TailStep(code: seq<Instr>, prog: seq<Instr>, sg: SgList, k0: nat, k: nat, d: nat, n: nat)
    requires ValidList(sg) && Total(sg) < WORD
    requires k0 < k < |sg| && 0 < n && Prefix(sg, k) + n <= Total(sg)
    requires d <= Prefix(sg, k) && (k > k0 + 1 ==> sg[k0 + 1].len <= d)
    requires Remaining(code, prog, Tail(sg, k0, k, d, n))
    ensures d + sg[k].len - sg[k0 + 1].len < WORD && |prog| < |code|
    ensures n <= sg[k].len ==>
              code == prog + [Instr(Inline, 0, 0, d + sg[k].len - sg[k0 + 1].len, n, sg[k].addr)]
    ensures n > sg[k].len ==>
              && Prefix(sg, k + 1) == Prefix(sg, k) + sg[k].len && k + 1 < |sg|
              && Remaining(code, prog + [Instr(Inline, 0, 0, d + sg[k].len - sg[k0 + 1].len, sg[k].len, sg[k].addr)],
                           Tail(sg, k0, k + 1, d + sg[k].len, n - sg[k].len))
  {
    PrefixIncreases(sg, k + 1, |sg|);
  }

  /** The first fragment of a split line. */
  lemma {:induction false} SplitStep(prog: seq<Instr>, sg: SgList, k: nat, off: nat, p: nat, bpl: nat)
    requires ValidList(sg) && Total(sg) < WORD && k < |sg| && off < sg[k].len
    requires p == Prefix(sg, k) + off && p + bpl <= Total(sg) && bpl > sg[k].len - off
    ensures k + 1 < |sg| && Prefix(sg, k + 1) == p + (sg[k].len - off)
    ensures |LineCode(sg, p, bpl)| > 0 && sg[k].addr + off < WORD
    ensures Remaining(prog + LineCode(sg, p, bpl),
                      prog + [Instr(LineStart, 0, 7, 0, sg[k].len - off, sg[k].addr + off)],
                      Tail(sg, k, k + 1, sg[k].len - off, bpl - (sg[k].len - off)))
  {
    SplitCode(sg, k, off, p, bpl);
    hide LineCode, Tail, Prefix;
    ConcatCons(prog, Instr(LineStart, 0, 7, 0, sg[k].len - off, sg[k].addr + off),
               Tail(sg, k, k + 1, sg[k].len - off, bpl - (sg[k].len - off)));
  }

  lemma {:induction false} SplitCode(sg: SgList, k: nat, off: nat, p: nat, bpl: nat)
    requires ValidList(sg) && Total(sg) < WORD && k < |sg| && off < sg[k].len
    requires p == Prefix(sg, k) + off && p + bpl <= Total(sg) && bpl > sg[k].len - off
    ensures k + 1 < |sg| && Prefix(sg, k + 1) == p + (sg[k].len - off) && sg[k].addr + off < WORD
    ensures LineCode(sg, p, bpl)
            == [Instr(LineStart, 0, 7, 0, sg[k].len - off, sg[k].addr + off)]
               + Tail(sg, k, k + 1, sg[k].len - off, bpl - (sg[k].len - off))
  {
    hide Tail;
    PrefixIncreases(sg, k + 1, |sg|);
    SegAtUnique(sg, p, k);
  }

  lemma {:induction false} ConcatCons(p: seq<Instr>, i: Instr, q: seq<Instr>)
    ensures p + ([i] + q) == (p + [i]) + q
  {
  }

  /** The byte count the driver accumulates for a Start field stays a 32-bit number. */
  lemma {:induction false} StartBound(sg: SgList, k: nat, d: nat)
    requires ValidList(sg) && Total(sg) < WORD && k < |sg| && d <= Prefix(sg, k)
    ensures d + sg[k].len < WORD
  {
    PrefixIncreases(sg, k + 1, |sg|);
  }

  /** The fragments of a line after its first one: the line began in segment k0, and todo0 bytes
      are left at the beginning of the next segment.  Returns the segment and the offset in it
      where the line ends. */
  method Fragments(mem: array<u32>, ghost base: nat, rp0: nat, ghost prog0: seq<Instr>, ghost code: seq<Instr>,
                   sg: SgList, k0: nat, done0: u32, todo0: u32)
    returns (rp: nat, k: nat, todo: u32)
    requires ValidList(sg) && Total(sg) < WORD && k0 + 1 < |sg|
    requires todo0 > 0 && done0 <= Prefix(sg, k0 + 1) && Prefix(sg, k0 + 1) + todo0 <= Total(sg)
    requires Remaining(code, prog0, Tail(sg, k0, k0 + 1, done0, todo0))
    requires Written(mem, base, rp0, prog0) && base + 2 * |code| <= mem.Length
    modifies mem
    ensures Written(mem, base, rp, code)
    ensures forall j :: 0 <= j < base || base + 2 * |code| <= j < mem.Length ==> mem[j] == old(mem[j])
    ensures k < |sg| && 0 < todo <= sg[k].len && Prefix(sg, k) + todo == Prefix(sg, k0 + 1) + todo0
  {
    hide Encode, Tail, Prefix, Image, Remaining, ValidList, Written;
    ghost var prog := prog0;
    rp, k, todo := rp0, k0 + 1, todo0;
    var done := done0;
    ghost var d: nat := done0;
    while todo > sg[k].len
      invariant k0 < k < |sg| && 0 < todo && Prefix(sg, k) + todo == Prefix(sg, k0 + 1) + todo0
      invariant d <= Prefix(sg, k) && (k > k0 + 1 ==> sg[k0 + 1].len <= d)
      invariant done == d + sg[k].len - sg[k0 + 1].len
      invariant Remaining(code, prog, Tail(sg, k0, k, d, todo))
      invariant Written(mem, base, rp, prog)
      invariant forall j :: 0 <= j < base || base + 2 * |code| <= j < mem.Length ==> mem[j] == old(mem[j])
      decreases |sg| - k
    {
      TailStep(code, prog, sg, k0, k, d, todo);
      rp := EmitInline(mem, base, rp, prog, done, sg[k].len, sg[k].addr);
      prog := prog + [Instr(Inline, 0, 0, done, sg[k].len, sg[k].addr)];
      todo := todo - sg[k].len;
      d := d + sg[k].len;
      k := k + 1;
      StartBound(sg, k, d);
      done := done + sg[k].len;
    }
    if todo != 0 {
      TailStep(code, prog, sg, k0, k, d, todo);
      rp := EmitInline(mem, base, rp, prog, done, todo, sg[k].addr);
    }
  }

  /** The LINESTART instruction of a split line. */
  method EmitSplit(mem: array<u32>, ghost base: nat, rp0: nat, ghost prog: seq<Instr>, done: u32, addr: u32,
                   ghost i: Instr)
    returns (rp: nat)
    requires i == Instr(LineStart, 0, 7, 0, done, addr)
    requires Written(mem, base, rp0, prog) && base + 2 * |prog| + 2 <= mem.Length
    modifies mem
    ensures Written(mem, base, rp, prog + [i]) && rp == base + 2 * |prog| + 2
    ensures forall j :: 0 <= j < base || rp <= j < mem.Length ==> mem[j] == old(mem[j])
  {
    hide Encode, Image, Or, Shl, Written;
    EncodeStart(i);
    rp := Emit(mem, base, rp0, prog, Or32(Or32(RISC_LINESTART, Shl32(7, 24)), done), addr, i);
  }

  /** A line that does not fit the rest of segment k0. */
  method SplitLine(mem: array<u32>, ghost base: nat, rp0: nat, ghost prog0: seq<Instr>, sg: SgList,
                   k0: nat, off: u32, ghost p: nat, bpl: u32)
    returns (rp: nat, k: nat, todo: u32)
    requires ValidList(sg) && Total(sg) < WORD && k0 < |sg| && off < sg[k0].len
    requires p == Prefix(sg, k0) + off && p + bpl <= Total(sg) && bpl > sg[k0].len - off
    requires Written(mem, base, rp0, prog0)
    requires base + 2 * |prog0 + LineCode(sg, p, bpl)| <= mem.Length
    modifies mem
    ensures Written(mem, base, rp, prog0 + LineCode(sg, p, bpl))
    ensures forall j :: 0 <= j < base || base + 2 * |prog0 + LineCode(sg, p, bpl)| <= j < mem.Length ==>
              mem[j] == old(mem[j])
    ensures k < |sg| && 0 < todo <= sg[k].len && Prefix(sg, k) + todo == p + bpl
  {
    hide Encode, LineCode, Tail, Prefix, Image, Remaining, SegAt, ValidList, Written;
    ghost var code := prog0 + LineCode(sg, p, bpl);
    SplitStep(prog0, sg, k0, off, p, bpl);
    var done: u32 := sg[k0].len - off;
    ghost var first := Instr(LineStart, 0, 7, 0, done, sg[k0].addr + off);
    rp := EmitSplit(mem, base, rp0, prog0, done, sg[k0].addr + off, first);
    rp, k, todo := Fragments(mem, base, rp, prog0 + [first], code, sg, k0, done, bpl - done);
  }

  lemma {:induction false} LinesGrow(sg: SgList, start: nat, bpl: nat, stride: nat, m: nat, n: nat)
    requires FieldLayout(sg, start, bpl, stride, n) && m <= n
    ensures FieldLayout(sg, start, bpl, stride, m)
    ensures |LinesCode(sg, start, bpl, stride, m)| <= |LinesCode(sg, start, bpl, stride, n)|
    decreases n
  {
    hide LineCode, Prefix;
    if m < n {
      LineCovered(sg, start, bpl, stride, n, n - 1);
      LinesGrow(sg, start, bpl, stride, m, n - 1);
    }
  }

  /** Line number `line` of a field, seen from the program of the lines before it. */
  lemma {:induction false} LineStep(pre: seq<Instr>, sg: SgList, start: nat, bpl: nat, stride: nat, line: nat,
                                    lines: nat)
    requires FieldLayout(sg, start, bpl, stride, lines) && line < lines
    ensures FieldLayout(sg, start, bpl, stride, line) && FieldLayout(sg, start, bpl, stride, line + 1)
    ensures LineAt(start, stride, line) + bpl <= Total(sg)
    ensures LineAt(start, stride, line + 1) == LineAt(start, stride, line) + stride
    ensures pre + LinesCode(sg, start, bpl, stride, line) + LineCode(sg, LineAt(start, stride, line), bpl)
            == pre + LinesCode(sg, start, bpl, stride, line + 1)
    ensures |LinesCode(sg, start, bpl, stride, line + 1)| <= |LinesCode(sg, start, bpl, stride, lines)|
  {
    hide LineCode, Prefix;
    LinesGrow(sg, start, bpl, stride, line + 1, lines);
    LineCovered(sg, start, bpl, stride, lines, line);
    LineNext(start, stride, line);
  }

  /** A line that fits the rest of segment k. */
  method WholeLine(mem: array<u32>, ghost base: nat, rp0: nat, ghost prog0: seq<Instr>, sg: SgList,
                   k: nat, off: u32, ghost p: nat, bpl: u32)
    returns (rp: nat)
    requires ValidList(sg) && Total(sg) < WORD && k < |sg| && off < sg[k].len
    requires p == Prefix(sg, k) + off && p + bpl <= Total(sg) && 0 < bpl <= sg[k].len - off
    requires SegAt(sg, p) == k
    requires Written(mem, base, rp0, prog0)
    requires base + 2 * |prog0 + LineCode(sg, p, bpl)| <= mem.Length
    modifies mem
    ensures Written(mem, base, rp, prog0 + LineCode(sg, p, bpl))
    ensures forall j :: 0 <= j < base || base + 2 * |prog0 + LineCode(sg, p, bpl)| <= j < mem.Length ==>
              mem[j] == old(mem[j])
  {
    hide Encode, Image, Written;
    ghost var i := Instr(LineStart, 0, 0, 0, bpl, sg[k].addr + off);
    EncodeStart(i);
    rp := Emit(mem, base, rp0, prog0, Or32(RISC_LINESTART, bpl), sg[k].addr + off, i);
  }

  /** The synchronisation instruction of a field. */
  method EmitSync(mem: array<u32>, rp0: nat, syncLine: u32) returns (rp: nat)
    requires rp0 + 2 * |SyncCode(syncLine)| <= mem.Length
    modifies mem
    ensures Written(mem, rp0, rp, SyncCode(syncLine))
    ensures forall j :: 0 <= j < rp0 || rp <= j < mem.Length ==> mem[j] == old(mem[j])
  {
    hide Encode;
    rp := rp0;
    if syncLine != NO_SYNC_LINE {
      var odd := syncLine == 1;
      SyncWord(odd);
      if odd {
        rp := Emit(mem, rp0, rp, [], RISC_SYNCO, 0, Sync(odd));
      } else {
        rp := Emit(mem, rp0, rp, [], RISC_SYNCE, 0, Sync(odd));
      }
      assert [] + [Sync(odd)] == SyncCode(syncLine);
    }
  }

  lemma {:induction false} SyncWord(odd: bool)
    ensures Encode(Sync(odd)) == if odd then RISC_SYNCO else RISC_SYNCE
  {
    hide Or, Shl;
    var w := OpWord(Sync(odd).op);
    ZeroField(w, 27);
    ZeroField(w, 24);
    ZeroField(w, 12);
    OrZero(w);
  }

  /** One round of the line loop: seek, then write the line whole or split. */
  method CompileLine(mem: array<u32>, ghost base: nat, rp0: nat, ghost prog0: seq<Instr>, sg: SgList,
                     k0: nat, off0: u32, ghost p: nat, bpl: u32)
    returns (rp: nat, k: nat, off: u32)
    requires ValidList(sg) && Total(sg) < WORD && k0 < |sg|
    requires p == Prefix(sg, k0) + off0 && p + bpl <= Total(sg) && 0 < bpl
    requires Written(mem, base, rp0, prog0)
    requires base + 2 * |prog0 + LineCode(sg, p, bpl)| <= mem.Length
    modifies mem
    ensures Written(mem, base, rp, prog0 + LineCode(sg, p, bpl))
    ensures forall j :: 0 <= j < base || base + 2 * |prog0 + LineCode(sg, p, bpl)| <= j < mem.Length ==>
              mem[j] == old(mem[j])
    ensures k < |sg| && 0 < off <= sg[k].len && Prefix(sg, k) + off == p + bpl
  {
    hide Encode, Image, LineCode, Prefix, Written, ValidList;
    k, off := Seek(sg, k0, off0, p);
    if bpl <= sg[k].len - off {
      rp := WholeLine(mem, base, rp0, prog0, sg, k, off, p, bpl);
      off := off + bpl;
    } else {
      rp, k, off := SplitLine(mem, base, rp0, prog0, sg, k, off, p, bpl);
    }
  }

  lemma {:induction false} StartOfField(sg: SgList, start: nat, bpl: nat, stride: nat, lines: nat)
    requires FieldLayout(sg, start, bpl, stride, lines)
    ensures FieldLayout(sg, start, bpl, stride, 0)
    ensures LineAt(start, stride, 0) == start && Prefix(sg, 0) == 0 && (lines > 0 ==> |sg| > 0)
  {
    if lines > 0 {
      LineCovered(sg, start, bpl, stride, lines, 0);
    }
  }

  lemma {:induction false} InsideList(sg: SgList, k: nat, off: nat)
    requires ValidList(sg) && k < |sg| && off <= sg[k].len
    ensures off <= Total(sg)
  {
    PrefixIncreases(sg, k + 1, |sg|);
  }

  /** Compiles one field: writes its program at rp0 and returns the position behind it. */
  method RiscField(mem: array<u32>, rp0: nat, sg: SgList, offset0: u32, syncLine: u32, bpl: u32, padding: u32,
                   lines: u32)
    returns (rp: nat)
    requires FieldLayout(sg, offset0, bpl, bpl + padding, lines) && Total(sg) + padding < WORD
    requires rp0 + 2 * |SyncCode(syncLine) + LinesCode(sg, offset0, bpl, bpl + padding, lines)| <= mem.Length
    modifies mem
    ensures Written(mem, rp0, rp, SyncCode(syncLine) + LinesCode(sg, offset0, bpl, bpl + padding, lines))
    ensures forall j :: 0 <= j < rp0 || rp <= j < mem.Length ==> mem[j] == old(mem[j])
  {
    hide Encode, Image, LineCode, Prefix, ValidList;
    ghost var pre := SyncCode(syncLine);
    ghost var stride: nat := bpl + padding;
    ghost var code := pre + LinesCode(sg, offset0, bpl, stride, lines);
    rp := rp0;
    rp := EmitSync(mem, rp, syncLine);
    assert pre + LinesCode(sg, offset0, bpl, stride, 0) == pre;
    var k: nat, offset: u32, line: nat := 0, offset0, 0;
    StartOfField(sg, offset0, bpl, stride, lines);
    while line < lines
      invariant line <= lines && FieldLayout(sg, offset0, bpl, stride, line)
      invariant lines > 0 ==> k < |sg|
      invariant k <= |sg| && Prefix(sg, k) + offset == LineAt(offset0, stride, line)
      invariant Written(mem, rp0, rp, pre + LinesCode(sg, offset0, bpl, stride, line))
      invariant forall j :: 0 <= j < rp0 || rp0 + 2 * |code| <= j < mem.Length ==> mem[j] == old(mem[j])
    {
      ghost var p := LineAt(offset0, stride, line);
      LineStep(pre, sg, offset0, bpl, stride, line, lines);
      rp, k, offset := CompileLine(mem, rp0, rp, pre + LinesCode(sg, offset0, bpl, stride, line), sg, k, offset, p, bpl);
      InsideList(sg, k, offset);
      offset := offset + padding;
      line := line + 1;
    }
  }

  // ---------------------------------------------------------------- whole buffers

  /** The two calls of RiscField write the two halves of BufferCode. */
  lemma {:induction false} FieldCodeIs(sg: SgList, odd: bool, start: nat, bpl: nat, stride: nat, lines: nat)
    requires FieldLayout(sg, start, bpl, stride, lines)
    ensures FieldCode(sg, odd, start, bpl, stride, lines)
            == SyncCode(if odd then 1 else 2) + LinesCode(sg, start, bpl, stride, lines)
  {
  }

  /** Allocates the estimated memory, the first `size` words of `cpu`, and compiles the fields of a
      buffer into it.  The words of `cpu` behind those stand for what lies behind the allocation: a
      program longer than the estimate overwrites them before the check.  `jmp` is the index of the
      jump slot, and `bug` says that the driver's overflow check stops the kernel. */
  method RiscBuffer(sg: SgList, l: Layout) returns (cpu: array<u32>, size: nat, jmp: nat, bug: bool)
    requires LayoutFits(sg, l) && Total(sg) + l.padding < WORD
    requires l.bpl < WORD && l.padding < WORD && l.lines < WORD
    requires (l.top.Some? ==> l.top.value < WORD) && (l.bottom.Some? ==> l.bottom.value < WORD)
    ensures fresh(cpu) && size == 2 * Estimate(l) <= cpu.Length
    ensures jmp == 2 * |BufferCode(sg, l)| && jmp <= cpu.Length && cpu[..jmp] == Image(BufferCode(sg, l))
    ensures bug <==> Overflows(sg, l)
  {
    hide BufferCode, Estimate, Image, LayoutFits;
    var instructions := Instructions(l);
    size := 2 * instructions;
    cpu := new u32[size + 2 * |BufferCode(sg, l)|];
    jmp := WriteFields(cpu, sg, l);
    bug := (jmp + 2) * 4 > instructions * 8;
  }

  /** The estimate of tw68_risc_buffer. */
  method Instructions(l: Layout) returns (n: nat)
    ensures n == Estimate(l)
  {
    var fields := 0;
    if l.top.Some? {
      fields := fields + 1;
    }
    if l.bottom.Some? {
      fields := fields + 1;
    }
    n := fields * (1 + (l.bpl + l.padding) * l.lines / PAGE_SIZE + l.lines) + 2;
  }

  /** The two calls of RiscField. */
  method WriteFields(cpu: array<u32>, sg: SgList, l: Layout) returns (jmp: nat)
    requires LayoutFits(sg, l) && Total(sg) + l.padding < WORD
    requires l.bpl < WORD && l.padding < WORD && l.lines < WORD
    requires (l.top.Some? ==> l.top.value < WORD) && (l.bottom.Some? ==> l.bottom.value < WORD)
    requires 2 * |BufferCode(sg, l)| <= cpu.Length
    modifies cpu
    ensures jmp == 2 * |BufferCode(sg, l)| && cpu[..jmp] == Image(BufferCode(sg, l))
  {
    hide LinesCode, Image, LineCode, FieldCode, FieldLayout;
    jmp := 0;
    if l.top.Some? {
      FieldCodeIs(sg, true, l.top.value, l.bpl, l.Stride(), l.lines);
      jmp := RiscField(cpu, jmp, sg, l.top.value, 1, l.bpl, l.padding, l.lines);
    }
    assert Written(cpu, 0, jmp, TopCode(sg, l)) by {
      EmptyImage();
    }
    ghost var jmp1, top := jmp, cpu[..jmp];
    if l.bottom.Some? {
      FieldCodeIs(sg, false, l.bottom.value, l.bpl, l.Stride(), l.lines);
      jmp := RiscField(cpu, jmp, sg, l.bottom.value, 2, l.bpl, l.padding, l.lines);
    }
    assert cpu[..jmp1] == top;
    assert Written(cpu, jmp1, jmp, BottomCode(sg, l)) by {
      EmptyImage();
    }
    ImageConcat(TopCode(sg, l), BottomCode(sg, l));
    assert cpu[..jmp] == cpu[..jmp1] + cpu[jmp1..jmp];
  }

  lemma {:induction false} EmptyImage()
    ensures Image([]) == []
  {
  }

  /** The stopper program: skip to the next odd field and jump back to the program's own address. */
  function StopperCode(dma: u32): seq<Instr> {
    [Sync(true), Instr(Jump, 0, 0, 0, 0, dma)]
  }

  /** Writes the stopper program, allocated at bus address dma. */
  method RiscStopper(dma: u32) returns (cpu: array<u32>, jmp: nat)
    ensures fresh(cpu) && cpu.Length == 8 && jmp == 0
    ensures cpu[..4] == Image(StopperCode(dma))
  {
    hide Encode;
    cpu := new u32[8];
    var odd := true;
    SyncWord(odd);
    var rp := Emit(cpu, 0, 0, [], RISC_SYNCO, 0, Sync(odd)) by { EmptyImage(); }
    ghost var jump := Instr(Jump, 0, 0, 0, 0, dma);
    PlainJumpWord(jump);
    rp := Emit(cpu, 0, rp, [] + [Sync(odd)], RISC_JUMP, dma, jump);
    jmp := 0;
    assert [] + [Sync(odd)] + [jump] == StopperCode(dma);
  }

  lemma {:induction false} PlainJumpWord(i: Instr)
    requires i.op == Jump && i.irq == 0 && i.kind == 0 && i.start == 0 && i.count == 0
    ensures Encode(i) == RISC_JUMP
  {
    hide Or, Shl;
    var w := RISC_JUMP;
    ZeroField(w, 27);
    ZeroField(w, 24);
    ZeroField(w, 12);
    OrZero(w);
  }
}
