/** The instruction words of the DMA processor: how the driver packs them and how the
    processor (and the driver's own decoder) reads them back. */
module RiscCode {
  import opened Words

  const RISC_INT_BIT: u32 := 0x0800_0000
  const RISC_SYNCO: u32 := 0xC000_0000
  const RISC_SYNCE: u32 := 0xD000_0000
  const RISC_JUMP: u32 := 0xB000_0000
  const RISC_LINESTART: u32 := 0x9000_0000
  const RISC_INLINE: u32 := 0xA000_0000

  datatype Op = SyncOdd | SyncEven | Jump | LineStart | Inline

  /** One instruction: the fields of its first word, and its second word. */
  datatype Instr = Instr(op: Op, irq: u32, kind: u32, start: u32, count: u32, addr: u32)

  datatype Option<T> = None | Some(value: T)

  function Sync(odd: bool): Instr {
    Instr(if odd then SyncOdd else SyncEven, 0, 0, 0, 0, 0)
  }

  /** Bits 28 to 30 of the first word; bit 31 is always set. */
  function OpNumber(op: Op): (n: nat)
    ensures n < 8
  {
    match op
    case LineStart => 1
    case Inline => 2
    case Jump => 3
    case SyncOdd => 4
    case SyncEven => 5
  }

  function OpWord(op: Op): u32 {
    match op
    case LineStart => RISC_LINESTART
    case Inline => RISC_INLINE
    case Jump => RISC_JUMP
    case SyncOdd => RISC_SYNCO
    case SyncEven => RISC_SYNCE
  }

  function OpOf(n: nat): Option<Op> {
    match n
    case 1 => Some(LineStart)
    case 2 => Some(Inline)
    case 3 => Some(Jump)
    case 4 => Some(SyncOdd)
    case 5 => Some(SyncEven)
    case _ => None
  }

  /** The first word of an instruction.  Nothing keeps a field inside its bits. */
  function Encode(i: Instr): u32 {
    Or32(Or32(Or32(Or32(OpWord(i.op), Shl32(i.irq, 27)), Shl32(i.kind, 24)), Shl32(i.start, 12)), i.count)
  }

  /** An instruction without flags: the expression the driver writes. */
  lemma {:induction false} EncodePlain(i: Instr)
    requires i.irq == 0 && i.kind == 0
    ensures Encode(i) == Or32(Or32(OpWord(i.op), Shl32(i.start, 12)), i.count)
  {
    ZeroField(OpWord(i.op), 27);
    ZeroField(OpWord(i.op), 24);
  }

  /** A LINESTART: the expressions the driver writes for a whole line and for a split one. */
  lemma {:induction false} EncodeStart(i: Instr)
    requires i.op == LineStart && i.irq == 0 && i.start == 0
    ensures Encode(i) == Or32(Or32(RISC_LINESTART, Shl32(i.kind, 24)), i.count)
    ensures i.kind == 0 ==> Encode(i) == Or32(RISC_LINESTART, i.count)
  {
    hide Or, Shl;
    ZeroField(RISC_LINESTART, 27);
    ZeroField(Or32(RISC_LINESTART, Shl32(i.kind, 24)), 12);
    ZeroField(RISC_LINESTART, 24);
  }

  /** Or-ing in a field that is zero changes nothing. */
  lemma {:induction false} ZeroField(w: u32, k: nat)
    ensures Shl32(0, k) == 0 && Or32(w, Shl32(0, k)) == w
  {
    ShlZero(k);
    OrZero(w);
  }

  predicate HasData(op: Op) {
    op.LineStart? || op.Inline?
  }

  /** What the decoder reports for the word pair (w, a). */
  function Decode(w: u32, a: u32): Option<Instr> {
    var op := OpOf(And(Shr(w, 28), 7));
    if w < 0x8000_0000 || op.None? then None
    else
      Some(Instr(op.value,
                 And(Shr(w, 27), 1),
                 if HasData(op.value) then And(Shr(w, 24), 7) else 0,
                 if HasData(op.value) then And(Shr(w, 12), 0xFFF) else 0,
                 if HasData(op.value) then And(w, 0xFFF) else 0,
                 if HasData(op.value) || op.value.Jump? then a else 0))
  }

  /** The fields fit their bits, and an instruction without a field has it zero. */
  predicate Representable(i: Instr) {
    && i.irq <= 1 && i.kind <= 7 && i.start <= 0xFFF && i.count <= 0xFFF
    && (!HasData(i.op) ==> i.kind == 0 && i.start == 0 && i.count == 0)
    && (!HasData(i.op) && !i.op.Jump? ==> i.addr == 0)
  }

  /** When the fields fit, or-ing them together is adding them. */
  lemma {:induction false} EncodeIsSum(i: Instr)
    requires i.irq <= 1 && i.kind <= 7 && i.start <= 0xFFF && i.count <= 0xFFF
    ensures Encode(i) == 0x8000_0000 + 0x1000_0000 * OpNumber(i.op) + 0x800_0000 * i.irq
                         + 0x100_0000 * i.kind + 0x1000 * i.start + i.count
  {
    EncodeHigh(OpWord(i.op), 8 + OpNumber(i.op), i.irq, i.kind);
    EncodeLow(i, 16 * (8 + OpNumber(i.op)) + 8 * i.irq + i.kind);
  }

  lemma {:induction false} EncodeHigh(w: u32, op: nat, irq: u32, kind: u32)
    requires irq <= 1 && kind <= 7 && op < 16 && w == 0x1000_0000 * op
    ensures Or32(Or32(w, Shl32(irq, 27)), Shl32(kind, 24)) == 0x1000_0000 * op + 0x800_0000 * irq + 0x100_0000 * kind
  {
    ShiftedFields(irq, kind, 0);
    var flag := 0x800_0000 * irq;
    Or28(op, flag);
    var w1 := w + flag;
    assert Or32(w, Shl32(irq, 27)) == w1;
    Or27(2 * op + irq, 0x100_0000 * kind);
  }

  lemma {:induction false} EncodeLow(i: Instr, high: nat)
    requires i.start <= 0xFFF && i.count <= 0xFFF && high <= 0xFF
    requires Or32(Or32(OpWord(i.op), Shl32(i.irq, 27)), Shl32(i.kind, 24)) == 0x100_0000 * high
    ensures Encode(i) == 0x100_0000 * high + 0x1000 * i.start + i.count
  {
    hide Or, Shl32;
    ShiftedFields(0, 0, i.start);
    Or24(high, 0x1000 * i.start);
    Or12(0x1000 * high + i.start, i.count);
  }

  lemma {:induction false} ShiftedFields(irq: u32, kind: u32, start: u32)
    requires irq <= 1 && kind <= 7 && start <= 0xFFF
    ensures Shl32(irq, 27) == 0x800_0000 * irq
    ensures Shl32(kind, 24) == 0x100_0000 * kind
    ensures Shl32(start, 12) == 0x1000 * start
  {
    Shl32Small(irq, 27, 0x800_0000) by { ShlConstants(irq); }
    Shl32Small(kind, 24, 0x100_0000) by { ShlConstants(kind); }
    Shl32Small(start, 12, 0x1000) by { ShlConstants(start); }
  }

  /** Encoding round trip: exactly the instructions whose fields fit are read back unchanged. */
  lemma {:induction false} DecodeEncode(i: Instr)
    ensures Decode(Encode(i), i.addr) == Some(i) <==> Representable(i)
  {
    hide Shr, And;
    var w := Encode(i);
    if Representable(i) {
      EncodeIsSum(i);
      FieldsOfSum(w, OpNumber(i.op), i.irq, i.kind, i.start, i.count);
      DecodeFields(w);
    }
  }

  /** The fields of a word as quotients and remainders. */
  lemma {:induction false} DecodeFields(w: u32)
    ensures And(Shr(w, 28), 7) == w / 0x1000_0000 % 8
    ensures And(Shr(w, 27), 1) == w / 0x800_0000 % 2
    ensures And(Shr(w, 24), 7) == w / 0x100_0000 % 8
    ensures And(Shr(w, 12), 0xFFF) == w / 0x1000 % 0x1000
    ensures And(w, 0xFFF) == w % 0x1000
  {
    SplitConstants(w);
    AndConstants(Shr(w, 28));
    AndConstants(Shr(w, 27));
    AndConstants(Shr(w, 24));
    AndConstants(Shr(w, 12));
    AndConstants(w);
  }

  lemma {:induction false} FieldsOfSum(w: nat, op: nat, irq: nat, kind: nat, start: nat, count: nat)
    requires op <= 7 && irq <= 1 && kind <= 7 && start <= 0xFFF && count <= 0xFFF
    requires w == 0x8000_0000 + 0x1000_0000 * op + 0x800_0000 * irq + 0x100_0000 * kind + 0x1000 * start + count
    ensures w / 0x1000_0000 % 8 == op
    ensures w / 0x800_0000 % 2 == irq
    ensures w / 0x100_0000 % 8 == kind
    ensures w / 0x1000 % 0x1000 == start
    ensures w % 0x1000 == count
  {
    var w1 := 0x800_0000 * irq + 0x100_0000 * kind + 0x1000 * start + count;
    var w2 := 0x100_0000 * kind + 0x1000 * start + count;
    var w3 := 0x1000 * start + count;
    DivUnique(w, 0x1000_0000, 8 + op, w1);
    DivUnique(w, 0x800_0000, 16 + 2 * op + irq, w2);
    DivUnique(w, 0x100_0000, 128 + 16 * op + 8 * irq + kind, w3);
    DivUnique(w, 0x1000, 0x80000 + 0x10000 * op + 0x8000 * irq + 0x1000 * kind + start, count);
    assert (0x80000 + 0x10000 * op + 0x8000 * irq + 0x1000 * kind + start) % 0x1000 == start;
  }

  /** The memory image of a program: two words for each instruction. */
  function Image(prog: seq<Instr>): (ws: seq<u32>)
    ensures |ws| == 2 * |prog|
  {
    seq(2 * |prog|, n requires 0 <= n < 2 * |prog| =>
      if n % 2 == 0 then Encode(prog[n / 2]) else prog[n / 2].addr)
  }

  lemma {:induction false} ImageAppend(p: seq<Instr>, i: Instr)
    ensures Image(p + [i]) == Image(p) + [Encode(i), i.addr]
  {
  }

  lemma {:induction false} ImageConcat(p: seq<Instr>, q: seq<Instr>)
    ensures Image(p + q) == Image(p) + Image(q)
  {
    hide Encode;
    forall n | 0 <= n < 2 * |p + q| ensures Image(p + q)[n] == (Image(p) + Image(q))[n] {
      if n < 2 * |p| {
        HalfBelow(n, |p|);
      } else {
        HalfAbove(n, |p|);
      }
    }
  }

  lemma {:induction false} HalfBelow(n: nat, k: nat)
    requires n < 2 * k
    ensures n / 2 < k
  {
  }

  lemma {:induction false} HalfAbove(n: nat, k: nat)
    requires n >= 2 * k
    ensures n / 2 == k + (n - 2 * k) / 2 && n % 2 == (n - 2 * k) % 2
  {
  }

  ghost predicate AllRepresentable(p: seq<Instr>) {
    forall k :: 0 <= k < |p| ==> Representable(p[k])
  }
}
