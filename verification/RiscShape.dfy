/** The exact shape of a compiled line: how many instructions, and when their Start fields and
    their packed words are right. */
module RiscShape {
  import opened Words
  import opened ScatterList
  import opened RiscCode
  import opened RiscProgram

  /** The segment of a line's first byte and of its last byte. */
  function FirstSeg(sg: SgList, p: nat): nat
    requires ValidList(sg) && p < Total(sg)
  {
    SegAt(sg, p)
  }

  function LastSeg(sg: SgList, p: nat, bpl: nat): nat
    requires ValidList(sg) && bpl > 0 && p + bpl <= Total(sg)
  {
    SegAt(sg, p + bpl - 1)
  }

  /** code[j - k] is the fragment in segment j of the line of bpl bytes at p that began in an
      earlier segment k0. */
  predicate FragmentAt(sg: SgList, p: nat, bpl: nat, k0: nat, code: seq<Instr>, k: nat, j: nat)
    requires ValidList(sg) && k0 < |sg| - 1 && k <= j < |sg|
  {
    var end := p + bpl;
    && 0 <= j - k < |code|
    && p <= Prefix(sg, j) < end
    && var i := code[j - k];
       && i.op == Inline && i.irq == 0 && i.kind == 0
       && i.addr == sg[j].addr
       && i.start == Prefix(sg, j) - p + sg[j].len - sg[k0 + 1].len
       && i.count == (if end <= Prefix(sg, j + 1) then end else Prefix(sg, j + 1)) - Prefix(sg, j)
  }

  lemma {:induction false} TailShape(sg: SgList, k0: nat, k: nat, p: nat, bpl: nat)
    requires ValidList(sg) && Total(sg) < WORD
    requires k0 < k < |sg| && Prefix(sg, k) < p + bpl <= Total(sg)
    requires p <= Prefix(sg, k) && (k > k0 + 1 ==> sg[k0 + 1].len <= Prefix(sg, k) - p)
    ensures var code := Tail(sg, k0, k, Prefix(sg, k) - p, p + bpl - Prefix(sg, k));
            var k1 := SegAt(sg, p + bpl - 1);
            && k1 >= k && |code| == k1 - k + 1
            && forall j :: k <= j <= k1 ==> FragmentAt(sg, p, bpl, k0, code, k, j)
    decreases |sg| - k
  {
    var code := Tail(sg, k0, k, Prefix(sg, k) - p, p + bpl - Prefix(sg, k));
    PrefixIncreases(sg, k + 1, |sg|);
    assert FragmentAt(sg, p, bpl, k0, code, k, k);
    if p + bpl <= Prefix(sg, k + 1) {
      SegAtUnique(sg, p + bpl - 1, k);
    } else {
      TailShape(sg, k0, k + 1, p, bpl);
      var rest := Tail(sg, k0, k + 1, Prefix(sg, k + 1) - p, p + bpl - Prefix(sg, k + 1));
      assert code == [code[0]] + rest;
      FragmentsShift(sg, p, bpl, k0, code, rest, k);
    }
  }

  lemma {:induction false} FragmentsShift(sg: SgList, p: nat, bpl: nat, k0: nat, code: seq<Instr>, rest: seq<Instr>,
                                          k: nat)
    requires ValidList(sg) && k0 < |sg| - 1 && k < |sg|
    requires |code| > 0 && code == [code[0]] + rest
    ensures forall j :: k < j < |sg| && FragmentAt(sg, p, bpl, k0, rest, k + 1, j) ==>
              FragmentAt(sg, p, bpl, k0, code, k, j)
  {
  }

  /** One LINESTART for the line's first segment and one INLINE for each further segment. */
  lemma {:induction false} LineShape(sg: SgList, p: nat, bpl: nat)
    requires ValidList(sg) && Total(sg) < WORD && bpl > 0 && p + bpl <= Total(sg)
    ensures var k0, k1 := FirstSeg(sg, p), LastSeg(sg, p, bpl);
            var code := LineCode(sg, p, bpl);
            && k0 <= k1 && |code| == k1 - k0 + 1
            && code[0].op == LineStart && code[0].irq == 0 && code[0].kind == (if k0 == k1 then 0 else 7)
            && code[0].start == 0 && code[0].addr == AddrOf(sg, p)
            && code[0].count == (if k0 == k1 then bpl else Prefix(sg, k0 + 1) - p)
            && forall j :: k0 < j <= k1 ==> FragmentAt(sg, p, bpl, k0, code, k0, j)
  {
    var k0 := SegAt(sg, p);
    var room := Prefix(sg, k0 + 1) - p;
    if bpl <= room {
      SegAtUnique(sg, p + bpl - 1, k0);
    } else {
      TailShape(sg, k0, k0 + 1, p, bpl);
      var code := LineCode(sg, p, bpl);
      var rest := Tail(sg, k0, k0 + 1, room, bpl - room);
      assert code == [code[0]] + rest;
      FragmentsShift(sg, p, bpl, k0, code, rest, k0);
    }
  }

  // ---------------------------------------------------------------- the Start field

  /** The bytes transferred by the first m instructions. */
  function Transferred(code: seq<Instr>, m: nat): nat
    requires m <= |code|
  {
    if m == 0 then 0 else Transferred(code, m - 1) + code[m - 1].count
  }

  /** Every instruction's Start field is the number of bytes of the line before it. */
  ghost predicate StartsExact(code: seq<Instr>) {
    forall m :: 0 <= m < |code| ==> code[m].start == Transferred(code, m)
  }

  lemma {:induction false} LineTransferred(sg: SgList, p: nat, bpl: nat, m: nat)
    requires ValidList(sg) && Total(sg) < WORD && bpl > 0 && p + bpl <= Total(sg)
    requires 1 <= m < |LineCode(sg, p, bpl)|
    ensures FirstSeg(sg, p) + m < |sg|
    ensures Transferred(LineCode(sg, p, bpl), m) == Prefix(sg, FirstSeg(sg, p) + m) - p
  {
    hide LineCode, FragmentAt, Transferred, Prefix;
    LineShape(sg, p, bpl);
    FragmentsTransferred(sg, p, bpl, FirstSeg(sg, p), LastSeg(sg, p, bpl), LineCode(sg, p, bpl), m);
  }

  lemma {:induction false} FragmentsTransferred(sg: SgList, p: nat, bpl: nat, k0: nat, k1: nat, code: seq<Instr>,
                                                m: nat)
    requires ValidList(sg) && k0 < k1 < |sg| && |code| == k1 - k0 + 1
    requires code[0].count == Prefix(sg, k0 + 1) - p
    requires forall j :: k0 < j <= k1 ==> FragmentAt(sg, p, bpl, k0, code, k0, j)
    requires 1 <= m < |code|
    ensures Transferred(code, m) == Prefix(sg, k0 + m) - p
    decreases m
  {
    if m == 1 {
      assert Transferred(code, 1) == Transferred(code, 0) + code[0].count;
    } else {
      FragmentsTransferred(sg, p, bpl, k0, k1, code, m - 1);
      assert FragmentAt(sg, p, bpl, k0, code, k0, k0 + m - 1);
      assert FragmentAt(sg, p, bpl, k0, code, k0, k0 + m);
    }
  }

  /** The segments after the line's first one all have the length of the second one. */
  ghost predicate EqualContinuations(sg: SgList, p: nat, bpl: nat)
    requires ValidList(sg) && bpl > 0 && p + bpl <= Total(sg)
  {
    forall k :: FirstSeg(sg, p) < k <= LastSeg(sg, p, bpl) ==> sg[k].len == sg[FirstSeg(sg, p) + 1].len
  }

  /** The Start fields of a line are exact if and only if the continuation segments have equal
      lengths; in particular they are when the line lies in at most two segments. */
  lemma {:induction false} StartsExactIff(sg: SgList, p: nat, bpl: nat)
    requires ValidList(sg) && Total(sg) < WORD && bpl > 0 && p + bpl <= Total(sg)
    ensures StartsExact(LineCode(sg, p, bpl)) <==> EqualContinuations(sg, p, bpl)
  {
    hide LineCode, Prefix, SegAt;
    LineShape(sg, p, bpl);
    var k0 := FirstSeg(sg, p);
    var code := LineCode(sg, p, bpl);
    forall m | 1 <= m < |code|
      ensures code[m].start == Transferred(code, m) <==> sg[k0 + m].len == sg[k0 + 1].len
    {
      LineTransferred(sg, p, bpl, m);
      assert FragmentAt(sg, p, bpl, k0, code, k0, k0 + m);
    }
    if StartsExact(code) {
      forall k | k0 < k <= LastSeg(sg, p, bpl) ensures sg[k].len == sg[k0 + 1].len {
        assert code[k - k0].start == Transferred(code, k - k0);
        assert k0 + (k - k0) == k;
      }
    }
    if EqualContinuations(sg, p, bpl) {
      forall m | 0 <= m < |code| ensures code[m].start == Transferred(code, m) {
        if m > 0 {
          assert k0 < k0 + m <= LastSeg(sg, p, bpl);
        }
      }
    }
  }

  // ---------------------------------------------------------------- the packed words

  /** No fragment of the line has a Start that needs more than twelve bits. */
  ghost predicate StartsFit(sg: SgList, p: nat, bpl: nat)
    requires ValidList(sg) && bpl > 0 && p + bpl <= Total(sg)
  {
    forall k :: FirstSeg(sg, p) < k <= LastSeg(sg, p, bpl) ==>
      Prefix(sg, k) - p + sg[k].len - sg[FirstSeg(sg, p) + 1].len <= 0xFFF
  }

  /** The words of a line decode to its instructions if and only if the Start values fit. */
  lemma {:induction false} LineRepresentableIff(sg: SgList, p: nat, bpl: nat)
    requires ValidList(sg) && Total(sg) < WORD && 0 < bpl <= 0xFFF && p + bpl <= Total(sg)
    ensures AllRepresentable(LineCode(sg, p, bpl)) <==> StartsFit(sg, p, bpl)
  {
    hide LineCode, Prefix, SegAt;
    LineShape(sg, p, bpl);
    var k0 := FirstSeg(sg, p);
    var code := LineCode(sg, p, bpl);
    forall m | 1 <= m < |code|
      ensures Representable(code[m]) <==>
              Prefix(sg, k0 + m) - p + sg[k0 + m].len - sg[k0 + 1].len <= 0xFFF
    {
      assert FragmentAt(sg, p, bpl, k0, code, k0, k0 + m);
    }
    if AllRepresentable(code) {
      forall k | k0 < k <= LastSeg(sg, p, bpl)
        ensures Prefix(sg, k) - p + sg[k].len - sg[k0 + 1].len <= 0xFFF
      {
        assert Representable(code[k - k0]);
        assert k0 + (k - k0) == k;
      }
    }
    if StartsFit(sg, p, bpl) {
      forall m | 0 <= m < |code| ensures Representable(code[m]) {
        if m > 0 {
          assert k0 < k0 + m <= LastSeg(sg, p, bpl);
        }
      }
    }
  }

  /** All segments except the first and the last hold at least n bytes. */
  ghost predicate InteriorAtLeast(sg: SgList, n: nat) {
    forall k :: 0 < k < |sg| - 1 ==> sg[k].len >= n
  }

  /** A line no longer than the interior segments is at most two fragments, with exact Start
      fields and words that decode to the intended instructions. */
  lemma {:induction false} ShortLine(sg: SgList, p: nat, bpl: nat)
    requires ValidList(sg) && Total(sg) < WORD && 0 < bpl <= 0xFFF && p + bpl <= Total(sg)
    requires InteriorAtLeast(sg, bpl)
    ensures |LineCode(sg, p, bpl)| <= 2
    ensures StartsExact(LineCode(sg, p, bpl))
    ensures AllRepresentable(LineCode(sg, p, bpl))
  {
    LineShape(sg, p, bpl);
    var k0, k1 := FirstSeg(sg, p), LastSeg(sg, p, bpl);
    if k1 >= k0 + 2 {
      SecondSegment(sg, p, bpl, k0, k1);
    }
    StartsExactIff(sg, p, bpl);
    LineRepresentableIff(sg, p, bpl);
  }

  /** A line that reaches a third segment is longer than the second one. */
  lemma {:induction false} SecondSegment(sg: SgList, p: nat, bpl: nat, k0: nat, k1: nat)
    requires ValidList(sg) && k0 + 2 <= k1 < |sg| && p < Prefix(sg, k0 + 1) && Prefix(sg, k1) < p + bpl
    ensures sg[k0 + 1].len < bpl
  {
    PrefixIncreases(sg, k0 + 2, k1);
  }

  lemma {:induction false} LinesRepresentable(sg: SgList, start: nat, bpl: nat, stride: nat, n: nat)
    requires FieldLayout(sg, start, bpl, stride, n) && bpl <= 0xFFF && InteriorAtLeast(sg, bpl)
    ensures AllRepresentable(LinesCode(sg, start, bpl, stride, n))
    decreases n
  {
    if n > 0 {
      LineCovered(sg, start, bpl, stride, n, n - 1);
      LinesRepresentable(sg, start, bpl, stride, n - 1);
      ShortLine(sg, LineAt(start, stride, n - 1), bpl);
    }
  }

  // ---------------------------------------------------------------- running the memory image

  /** The processor on memory words: decode each pair, then execute it. */
  function RunImage(c: Capture, ws: seq<u32>): Capture {
    if |ws| < 2 then c
    else
      var d := Decode(ws[|ws| - 2], ws[|ws| - 1]);
      if d.None? then Bad else Execute(RunImage(c, ws[..|ws| - 2]), d.value)
  }

  lemma {:induction false} RunImageIsRun(c: Capture, prog: seq<Instr>)
    requires AllRepresentable(prog)
    ensures RunImage(c, Image(prog)) == Run(c, prog)
    decreases |prog|
  {
    if prog != [] {
      var init, last := prog[..|prog| - 1], prog[|prog| - 1];
      assert prog == init + [last];
      ImageAppend(init, last);
      assert Image(prog)[..|Image(prog)| - 2] == Image(init);
      RunImageIsRun(c, init);
      DecodeEncode(last);
    }
  }

  /** Compiler correctness down to the words in memory, for the lists the driver gets: decoding
      and running the image of a field stores exactly that field. */
  lemma {:induction false} FieldImageMeaning(sg: SgList, odd: bool, start: nat, bpl: nat, stride: nat, lines: nat,
                                             fs: seq<Field>)
    requires FieldLayout(sg, start, bpl, stride, lines) && bpl <= 0xFFF && InteriorAtLeast(sg, bpl)
    ensures RunImage(Good(fs), Image(FieldCode(sg, odd, start, bpl, stride, lines)))
            == Good(fs + [FieldSpec(sg, odd, start, bpl, stride, lines)])
  {
    LinesRepresentable(sg, start, bpl, stride, lines);
    RunImageIsRun(Good(fs), FieldCode(sg, odd, start, bpl, stride, lines));
    FieldMeaning(sg, odd, start, bpl, stride, lines, fs);
  }

  // ---------------------------------------------------------------- a list where it goes wrong

  /** Two ten-byte segments before a 64 KiB one. */
  ghost predicate ShortSegments(sg: SgList) {
    && ValidList(sg) && |sg| == 3
    && sg[0].len == 10 && sg[1].len == 10 && sg[2].len == 0x10000
  }

  lemma {:induction false} ShortSegmentsLayout(sg: SgList)
    requires ShortSegments(sg)
    ensures Prefix(sg, 1) == 10 && Prefix(sg, 2) == 20 && Prefix(sg, 3) == Total(sg) == 0x10014
    ensures FirstSeg(sg, 0) == 0 && LastSeg(sg, 0, 96) == 2
  {
    assert Prefix(sg, 1) == Prefix(sg, 0) + 10;
    assert Prefix(sg, 3) == Prefix(sg, 2) + 0x10000;
    SegAtUnique(sg, 0, 0);
    SegAtUnique(sg, 95, 2);
  }

  /** For such a list the third fragment of the first line gets Start 0x1000A instead of 20, and
      its word decodes as a JUMP. */
  lemma {:induction false} ShortSegmentsBreakTheLine(sg: SgList)
    requires ShortSegments(sg)
    ensures Total(sg) == 0x10014
    ensures var code := LineCode(sg, 0, 96);
            && |code| == 3 && code[2].op == Inline && code[2].start == 0x1000A && Transferred(code, 2) == 20
            && var d := Decode(Encode(code[2]), code[2].addr); d.Some? && d.value.op == Jump
  {
    ShortSegmentsLayout(sg);
    LineShape(sg, 0, 96);
    var code := LineCode(sg, 0, 96);
    LineTransferred(sg, 0, 96, 2);
    assert FragmentAt(sg, 0, 96, 0, code, 0, 2);
    OverflowingWord(code[2]);
    JumpWord(Encode(code[2]), code[2].addr);
  }

  lemma {:induction false} OverflowingWord(i: Instr)
    requires i.op == Inline && i.irq == 0 && i.kind == 0 && i.start == 0x1000A && i.count == 76
    ensures Encode(i) == 0xB000_A04C
  {
    EncodePlain(i);
    Shl32Small(i.start, 12, 0x1000) by { ShlConstants(i.start); }
    var inline, start, high := OpWord(i.op), Shl32(i.start, 12), 0xB000A;
    OverlappingBits(inline, start);
    Or12(high, i.count);
  }

  lemma {:induction false} JumpWord(w: u32, a: u32)
    requires w == 0xB000_A04C
    ensures var d := Decode(w, a); d.Some? && d.value.op == Jump
  {
    hide Shr, And;
    DecodeFields(w);
  }

  lemma {:induction false} OverlappingBits(inline: nat, start: nat)
    requires inline == RISC_INLINE && start == 0x1000_A000
    ensures Or(inline, start) == 0xB000_A000
  {
    hide Or;
    var ten, one, low := 0xA, 1, 0xA000;
    assert Shl(ten, 28) == inline by { ShlConstants(ten); }
    assert Shl(one, 28) + low == start by { ShlConstants(one); }
    OnesConstants();
    OrSplit(ten, 0, one, low, 28);
    OrZero(low);
    TenOrOne(ten, one);
    ShlConstants(0xB);
  }

  lemma {:induction false} TenOrOne(ten: nat, one: nat)
    requires ten == 10 && one == 1
    ensures Or(ten, one) == 11
  {
    OrZero(ten / 2);
  }
}
