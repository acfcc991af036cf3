/** The capture queue as a state machine: the driver's queue routines, the timeout timer and the
    DMA engine that runs along the chain of buffer programs.  Every driver routine and every
    engine event is one atomic step. */
module QueueModel {
  import opened Words
  import opened RiscCode
  import opened Formats

  datatype BufState = NeedsInit | Prepared | Queued | Active | Done | Error

  /** What must agree for two buffers to be captured without reprogramming the decoder. */
  datatype Geometry = Geometry(width: nat, height: nat, fmt: Format)

  /** A capture buffer: the bus address of its program, the program, the jump behind it
      (jmp0, jmp1), and its state. */
  datatype Buf = Buf(dma: u32, geom: Geometry, field: VField, code: seq<u32>, jmp0: u32, jmp1: u32,
                     state: BufState, fieldCount: u32)

  /** The device: where its engine is, whether it runs with its interrupt enabled, the pending
      DMAPI status bit, and what start_dma programmed last: the geometry and field given to the
      scaler, and the DMA control register. */
  datatype Device = Device(pc: u32, running: bool, pending: bool, geom: Geometry, field: VField, dmac: u32)

  /** The whole system.  `submitted` and `retired` record every buffer handed in and given back,
      so that a buffer handed in is known by its number in `submitted`; `completed` has the
      numbers whose program the engine has run to its end.  `ran` and `woken` count the programs
      run and the buffers marked DONE since the engine was last started. */
  datatype Sys = Sys(active: seq<Buf>, queued: seq<Buf>, timer: bool, hw: Device, suspended: bool,
                     stopper: u32, fc: u32,
                     submitted: seq<u32>, retired: seq<Buf>, completed: seq<nat>, ran: nat, woken: nat)

  // ---------------------------------------------------------------- the driver's routines

  /** tw68_check_video_fmt. */
  predicate Compatible(prev: Buf, buf: Buf) {
    prev.geom.width == buf.geom.width && prev.geom.height == buf.geom.height && prev.geom.fmt == buf.geom.fmt
  }

  /** tw68_video_start_dma: stop, point the engine at the program, clear the pending interrupt,
      start. */
  function StartDma(s: Sys, b: Buf): Sys {
    s.(hw := Device(b.dma, true, false, b.geom, b.field, DmacStart(s.hw.dmac, b.geom.fmt)), ran := 0, woken := 0)
  }

  /** The jump that tw68_buffer_queue appends to a program: `RISC_JUMP | RISC_INT_BIT`. */
  const JUMP_WORD: u32 := 0xB800_0000

  function WithStopper(s: Sys, b: Buf): Buf {
    b.(jmp0 := JUMP_WORD, jmp1 := s.stopper)
  }

  function LinkLast(bs: seq<Buf>, target: u32): seq<Buf>
    requires bs != []
  {
    bs[|bs| - 1 := bs[|bs| - 1].(jmp1 := target)]
  }

  /** tw68_buffer_queue: append the jump, then choose the list. */
  function BufferQueue(s: Sys, buf: Buf): Sys {
    Place(s.(submitted := s.submitted + [buf.dma]), WithStopper(s, buf))
  }

  function Place(s: Sys, b: Buf): Sys {
    if s.queued != [] then s.(queued := s.queued + [b.(state := Queued)])
    else if s.active == [] then StartDma(s, b).(active := [b.(state := Active)], timer := true)
    else if Compatible(s.active[|s.active| - 1], b) then
      s.(active := LinkLast(s.active, b.dma) + [b.(state := Active)], timer := true)
    else s.(queued := [b.(state := Queued)])
  }

  /** How many queued buffers the requeue loop moves: the first, and then as long as each is
      compatible with the one before it. */
  function CompatRun(q: seq<Buf>): (n: nat)
    ensures n <= |q| && (q != [] ==> n > 0)
  {
    if q == [] then 0
    else if |q| == 1 || !Compatible(q[0], q[1]) then 1
    else 1 + CompatRun(q[1..])
  }

  /** Moved buffers: active, and each but the last jumps to the next one. */
  function Chained(bs: seq<Buf>): (cs: seq<Buf>)
    ensures |cs| == |bs|
    ensures forall i :: 0 <= i < |bs| ==>
              cs[i] == bs[i].(state := Active, jmp1 := if i + 1 < |bs| then bs[i + 1].dma else bs[i].jmp1)
  {
    seq(|bs|, i requires 0 <= i < |bs| =>
      bs[i].(state := Active, jmp1 := if i + 1 < |bs| then bs[i + 1].dma else bs[i].jmp1))
  }

  /** tw68_buffer_requeue. */
  function Requeue(s: Sys): Sys {
    if s.active != [] then StartDma(s, s.active[0]).(timer := true)
    else if s.queued == [] then s
    else
      var n := CompatRun(s.queued);
      StartDma(s, s.queued[0]).(active := Chained(s.queued[..n]), queued := s.queued[n..], timer := true)
  }

  /** tw68_wakeup. */
  function Wakeup(s: Sys): Sys {
    if s.active == [] then s.(timer := false)
    else
      s.(active := s.active[1..],
         retired := s.retired + [s.active[0].(state := Done, fieldCount := s.fc)],
         fc := (s.fc + 1) % WORD,
         timer := true,
         woken := s.woken + 1)
  }

  /** The DMAPI part of tw68_irq_video_done: acknowledge, then wake up. */
  function Irq(s: Sys): Sys {
    Wakeup(s.(hw := s.hw.(pending := false)))
  }

  function Failed(bs: seq<Buf>): (es: seq<Buf>)
    ensures |es| == |bs| && forall i :: 0 <= i < |bs| ==> es[i] == bs[i].(state := Error)
  {
    seq(|bs|, i requires 0 <= i < |bs| => bs[i].(state := Error))
  }

  /** tw68_buffer_timeout; the timer that fired is no longer armed. */
  function Timeout(s: Sys): Sys {
    Requeue(s.(timer := false, active := [], retired := s.retired + Failed(s.active)))
  }

  /** tw68_suspend: engine and interrupts off, timer deleted. */
  function SuspendDev(s: Sys): Sys {
    s.(hw := s.hw.(running := false, dmac := DmacStop(s.hw.dmac)), timer := false, suspended := true)
  }

  function ResumeDev(s: Sys): Sys {
    Requeue(s).(suspended := false)
  }

  // ---------------------------------------------------------------- the engine

  /** The active buffer whose program is at bus address a. */
  function FindActive(bs: seq<Buf>, a: u32): (i: Option<nat>)
    ensures i.Some? ==> i.value < |bs| && bs[i.value].dma == a
    ensures i.None? ==> forall k :: 0 <= k < |bs| ==> bs[k].dma != a
  {
    if bs == [] then None
    else if bs[0].dma == a then Some(0)
    else
      var i := FindActive(bs[1..], a);
      if i.None? then None else Some(i.value + 1)
  }

  /** The engine reaches the end of the program it is in, and follows the jump there.  When the
      program is not one of an active buffer (after a timeout with nothing to restart), the
      driver knows nothing about the jump: `next` is arbitrary. */
  function Complete(s: Sys, next: u32): Sys {
    var i := FindActive(s.active, s.hw.pc);
    if i.None? then s.(hw := s.hw.(pc := next, pending := true))
    else
      var d := Decode(s.active[i.value].jmp0, s.active[i.value].jmp1);
      if d.None? || !d.value.op.Jump? then s.(hw := s.hw.(pc := next))
      else
        s.(hw := s.hw.(pc := d.value.addr, pending := s.hw.pending || d.value.irq == 1),
           completed := s.completed + [|s.retired| + i.value],
           ran := s.ran + 1)
  }

  // ---------------------------------------------------------------- steps

  datatype Event =
    | Submit(buf: Buf)
    | EngineDone(next: u32)
    | Interrupt
    | Expire
    | StreamOn
    | Suspend
    | Resume

  function Dmas(bs: seq<Buf>): (ds: seq<u32>)
    ensures |ds| == |bs| && forall i :: 0 <= i < |bs| ==> ds[i] == bs[i].dma
  {
    seq(|bs|, i requires 0 <= i < |bs| => bs[i].dma)
  }

  predicate Enabled(s: Sys, e: Event) {
    match e
    case Submit(buf) => !s.suspended && buf.dma != s.stopper && buf.dma !in Dmas(s.active) && buf.dma !in Dmas(s.queued)
    case EngineDone(_) => s.hw.running && s.hw.pc != s.stopper
    case Interrupt => s.hw.running && s.hw.pending
    case Expire => s.timer
    case StreamOn => !s.suspended
    case Suspend => !s.suspended
    case Resume => s.suspended
  }

  function Next(s: Sys, e: Event): Sys {
    match e
    case Submit(buf) => BufferQueue(s, buf)
    case EngineDone(next) => Complete(s, next)
    case Interrupt => Irq(s)
    case Expire => Timeout(s)
    case StreamOn => Requeue(s)
    case Suspend => SuspendDev(s)
    case Resume => ResumeDev(s)
  }

  /** The state tw68_video_init1 leaves behind; the device has not been started. */
  ghost predicate Initial(s: Sys) {
    && s.active == [] && s.queued == [] && !s.timer && !s.suspended && !s.hw.running
    && s.submitted == [] && s.retired == [] && s.completed == [] && s.ran == 0 && s.woken == 0
  }

  // ---------------------------------------------------------------- the invariant

  /** No two buffers in the lists share a program, and none is the stopper. */
  ghost predicate DistinctPrograms(s: Sys) {
    && (forall i :: 0 <= i < |s.active| ==> s.active[i].dma != s.stopper && s.active[i].state == Active)
    && (forall i :: 0 <= i < |s.queued| ==> s.queued[i].dma != s.stopper && s.queued[i].state == Queued)
    && (forall i, j :: 0 <= i < j < |s.active| ==> s.active[i].dma != s.active[j].dma)
    && (forall i, j :: 0 <= i < j < |s.queued| ==> s.queued[i].dma != s.queued[j].dma)
    && (forall i, j :: 0 <= i < |s.active| && 0 <= j < |s.queued| ==> s.active[i].dma != s.queued[j].dma)
  }

  /** The program that runs after that of bs[i]. */
  function Successor(bs: seq<Buf>, i: nat, stopper: u32): u32
    requires i < |bs|
  {
    if i + 1 < |bs| then bs[i + 1].dma else stopper
  }

  /** The jump of every active buffer leads to the next one, the last jump and the jumps of all
      queued buffers lead to the stopper; every jump raises the interrupt. */
  ghost predicate JumpChain(s: Sys) {
    && (forall i :: 0 <= i < |s.active| ==>
          s.active[i].jmp0 == JUMP_WORD
          && s.active[i].jmp1 == Successor(s.active, i, s.stopper))
    && (forall i :: 0 <= i < |s.queued| ==> s.queued[i].jmp0 == JUMP_WORD && s.queued[i].jmp1 == s.stopper)
  }

  ghost predicate Waiting(s: Sys) {
    s.active != [] || s.queued != []
  }

  /** Outside suspend no buffer waits without the timeout running. */
  ghost predicate TimerArmed(s: Sys) {
    !s.suspended && Waiting(s) ==> s.timer
  }

  /** All active buffers have the geometry and format that the device was programmed with, and
      outside suspend the low byte of the DMA control register is the one for that format. */
  ghost predicate DeviceAgrees(s: Sys) {
    && (forall i :: 0 <= i < |s.active| ==> s.active[i].geom == s.hw.geom)
    && (s.active != [] && !s.suspended ==> s.hw.dmac % 0x100 == DmacByte(s.hw.geom.fmt) % 0x100)
  }

  /** Every buffer handed in is in exactly one place, in the order of submission. */
  ghost predicate Fifo(s: Sys) {
    s.submitted == Dmas(s.retired) + Dmas(s.active) + Dmas(s.queued)
  }

  /** The engine is at active[ran - woken], or has left the chain for the stopper; it has not been
      overtaken by the driver, and a pending interrupt stands for a completion that no buffer has
      been marked DONE for. */
  ghost predicate EngineInChain(s: Sys) {
    && s.hw.running
    && s.woken <= s.ran <= s.woken + |s.active|
    && (s.hw.pc == s.stopper || (s.ran - s.woken < |s.active| && s.hw.pc == s.active[s.ran - s.woken].dma))
    && (s.hw.pending ==> s.woken < s.ran)
  }

  /** What a suspended device must be: no timeout to come, the engine and its interrupt off, and both
      enables cleared in the DMA control register. */
  ghost predicate Quiet(s: Sys) {
    !s.timer && !s.hw.running && s.hw.dmac % 4 == 0
  }

  ghost predicate EngineKnown(s: Sys) {
    && (!s.suspended && Waiting(s) ==> EngineInChain(s))
    && (s.suspended ==> Quiet(s))
  }

  /** The buffers retired since the last start come first in the engine's order, and all programs
      counted in `ran` are recorded as completed. */
  ghost predicate CompletedRecorded(s: Sys) {
    && (s.active != [] || s.queued != [] ==>
          s.woken <= |s.retired|
          && forall k :: |s.retired| - s.woken <= k < |s.retired| - s.woken + s.ran ==> k in s.completed)
    && (forall c :: c in s.completed ==> c < |s.retired| + |s.active|)
  }

  /** Buffers come back DONE or ERROR, and only those come back DONE whose program the engine ran
      to its end after they were submitted. */
  ghost predicate DoneMeansCompleted(s: Sys) {
    forall k :: 0 <= k < |s.retired| ==>
      s.retired[k].state == Error || (s.retired[k].state == Done && k in s.completed)
  }

  ghost predicate Inv(s: Sys) {
    && DistinctPrograms(s)
    && JumpChain(s)
    && TimerArmed(s)
    && DeviceAgrees(s)
    && Fifo(s)
    && EngineKnown(s)
    && CompletedRecorded(s)
    && DoneMeansCompleted(s)
  }
}
