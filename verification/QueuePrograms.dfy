/** The programs of the queued buffers: none is changed on the way, and the chain of the active ones
    is what the engine runs. */
module QueuePrograms {
  import opened Words
  import opened RiscCode
  import opened RiscCompiler
  import opened QueueModel
  import opened QueueInvariant
  import opened QueueRuns

  // ---------------------------------------------------------------- the ledger

  /** What the queue routines must not change of a buffer. */
  function Content(b: Buf): Buf {
    b.(jmp0 := 0, jmp1 := 0, state := NeedsInit, fieldCount := 0)
  }

  function Contents(bs: seq<Buf>): (cs: seq<Buf>)
    ensures |cs| == |bs| && forall i :: 0 <= i < |bs| ==> cs[i] == Content(bs[i])
  {
    seq(|bs|, i requires 0 <= i < |bs| => Content(bs[i]))
  }

  /** All buffers ever submitted, in order of submission. */
  function Ledger(s: Sys): seq<Buf> {
    Contents(s.retired) + Contents(s.active) + Contents(s.queued)
  }

  lemma {:induction false} ContentsConcat(a: seq<Buf>, b: seq<Buf>)
    ensures Contents(a + b) == Contents(a) + Contents(b)
  {
  }

  lemma {:induction false} SubmitLedger(s: Sys, b: Buf)
    ensures Ledger(BufferQueue(s, b)) == Ledger(s) + [Content(b)]
  {
    var t := BufferQueue(s, b);
    if |t.queued| > |s.queued| {
      assert t.active == s.active && Contents(t.queued) == Contents(s.queued) + [Content(b)];
    } else {
      assert Contents(t.active) == Contents(s.active) + [Content(b)];
      assert Contents(s.queued) == [];
    }
  }

  lemma {:induction false} WakeupLedger(s: Sys)
    ensures Ledger(Irq(s)) == Ledger(s)
  {
    if s.active != [] {
      var t := Irq(s);
      assert Contents(t.retired) == Contents(s.retired) + [Content(s.active[0])];
      assert Contents(s.active) == [Content(s.active[0])] + Contents(t.active);
    }
  }

  lemma {:induction false} RequeueLedger(s: Sys)
    ensures Ledger(Requeue(s)) == Ledger(s)
  {
    if s.active == [] && s.queued != [] {
      hide CompatRun, Chained, Contents;
      MovedLedger(s, Requeue(s), CompatRun(s.queued));
    }
  }

  lemma {:induction false} MovedLedger(s: Sys, t: Sys, n: nat)
    requires s.active == [] && n <= |s.queued| && t.retired == s.retired
    requires t.active == Chained(s.queued[..n]) && t.queued == s.queued[n..]
    ensures Ledger(t) == Ledger(s)
  {
    assert Contents(t.active) == Contents(s.queued[..n]);
    ContentsConcat(s.queued[..n], s.queued[n..]);
    assert s.queued[..n] + s.queued[n..] == s.queued;
    assert Contents(s.active) == [];
  }

  lemma {:induction false} TimeoutLedger(s: Sys)
    ensures Ledger(Timeout(s)) == Ledger(s)
  {
    hide Requeue;
    var t := s.(timer := false, active := [], retired := s.retired + Failed(s.active));
    RequeueLedger(t);
    assert Contents(Failed(s.active)) == Contents(s.active);
    ContentsConcat(s.retired, Failed(s.active));
    assert Contents(t.active) == [];
  }

  /** No step changes a program, its address, or a buffer's geometry and field, or the order. */
  lemma {:induction false} LedgerStep(s: Sys, e: Event)
    ensures Ledger(Next(s, e)) == Ledger(s) + if e.Submit? then [Content(e.buf)] else []
  {
    hide Ledger, BufferQueue, Requeue, Irq, Timeout;
    match e
    case Submit(b) => SubmitLedger(s, b);
    case EngineDone(next) => CompleteLedger(s, next);
    case Interrupt => WakeupLedger(s);
    case Expire => TimeoutLedger(s);
    case StreamOn => RequeueLedger(s);
    case Suspend => SameLedger(s, SuspendDev(s));
    case Resume =>
      RequeueLedger(s);
      SameLedger(Requeue(s), ResumeDev(s));
  }

  lemma {:induction false} SameLedger(s: Sys, t: Sys)
    requires t.retired == s.retired && t.active == s.active && t.queued == s.queued
    ensures Ledger(t) == Ledger(s)
  {
  }

  lemma {:induction false} CompleteLedger(s: Sys, next: u32)
    ensures Ledger(Complete(s, next)) == Ledger(s)
  {
    hide Decode, FindActive;
    SameLedger(s, Complete(s, next));
  }

  lemma {:induction false} LedgerGrows(ss: seq<Sys>, es: seq<Event>, j: nat, i: nat)
    requires Steps(ss, es) && j <= i < |ss|
    ensures Ledger(ss[j]) <= Ledger(ss[i])
    decreases i
  {
    hide Ledger, Next, Enabled;
    if j < i {
      LedgerGrows(ss, es, j, i - 1);
      LedgerStep(ss[i - 1], es[i - 1]);
    }
  }

  /** A buffer comes back DONE only if, at an earlier step of the run, the engine reached the end of
      exactly the program that the buffer still has. */
  lemma {:induction false} DoneMeansProgramRan(ss: seq<Sys>, es: seq<Event>, i: nat, k: nat)
    requires IsRun(ss, es) && i < |ss| && k < |ss[i].retired| && ss[i].retired[k].state == Done
    ensures exists j :: 0 <= j < i && EngineRan(ss, es, j, k)
                        && Content(ss[j].active[k - |ss[j].retired|]) == Content(ss[i].retired[k])
  {
    hide Initial, Ledger;
    DoneOnlyAfterCapture(ss, es, i, k);
    var j :| 0 <= j < i && EngineRan(ss, es, j, k);
    LedgerGrows(ss, es, j, i);
    InLedger(ss[j], k);
    InLedger(ss[i], k);
  }

  lemma {:induction false} InLedger(s: Sys, k: nat)
    requires k < |s.retired| + |s.active|
    ensures k < |Ledger(s)|
    ensures Ledger(s)[k] == Content(if k < |s.retired| then s.retired[k] else s.active[k - |s.retired|])
  {
  }

  // ---------------------------------------------------------------- the chain

  /** Where the jump behind a program leads. */
  function JumpTarget(b: Buf): Option<u32> {
    var d := Decode(b.jmp0, b.jmp1);
    if d.Some? && d.value.op.Jump? then Some(d.value.addr) else None
  }

  /** The addresses of the next n programs that the engine runs from address a, by following the
      jumps; the stopper jumps to itself. */
  function Walk(s: Sys, a: u32, n: nat): seq<u32>
    decreases n
  {
    if n == 0 then []
    else if a == s.stopper then [a] + Walk(s, a, n - 1)
    else
      var i := FindActive(s.active, a);
      if i.None? then []
      else
        var target := JumpTarget(s.active[i.value]);
        if target.None? then [a] else [a] + Walk(s, target.value, n - 1)
  }

  function Repeat(a: u32, n: nat): (r: seq<u32>)
    ensures |r| == n && forall i :: 0 <= i < n ==> r[i] == a
  {
    seq(n, i => a)
  }

  lemma {:induction false} ActiveJump(s: Sys, i: nat)
    requires JumpChain(s) && i < |s.active|
    ensures JumpTarget(s.active[i]) == Some(Successor(s.active, i, s.stopper))
  {
    hide Decode;
    JumpWordDecodes(s.active[i].jmp1);
  }

  lemma {:induction false} WalkStopper(s: Sys, n: nat)
    ensures Walk(s, s.stopper, n) == Repeat(s.stopper, n)
    decreases n
  {
    if n > 0 {
      WalkStopper(s, n - 1);
    }
  }

  lemma {:induction false} WalkStep(s: Sys, i: nat, n: nat)
    requires DistinctPrograms(s) && JumpChain(s) && i < |s.active| && n > 0
    ensures Walk(s, s.active[i].dma, n) == [s.active[i].dma] + Walk(s, Successor(s.active, i, s.stopper), n - 1)
  {
    hide FindActive, JumpTarget;
    FindActiveIs(s, i);
    ActiveJump(s, i);
  }

  /** From active[i] the engine visits the active buffers behind it in list order, each once, and
      then only the stopper. */
  lemma {:induction false} WalkFrom(s: Sys, i: nat, n: nat)
    requires DistinctPrograms(s) && JumpChain(s) && i < |s.active|
    ensures Walk(s, s.active[i].dma, |s.active| - i + n) == Dmas(s.active[i..]) + Repeat(s.stopper, n)
    decreases |s.active| - i
  {
    hide Walk, DistinctPrograms, JumpChain;
    WalkStep(s, i, |s.active| - i + n);
    assert Dmas(s.active[i..]) == [s.active[i].dma] + Dmas(s.active[i + 1..]);
    if i + 1 < |s.active| {
      WalkFrom(s, i + 1, n);
    } else {
      WalkStopper(s, n);
    }
  }

  /** In every reachable state the jumps from the head of the active list visit exactly the active
      buffers, in order, and then stay in the stopper. */
  lemma {:induction false} ChainWalk(ss: seq<Sys>, es: seq<Event>, k: nat, n: nat)
    requires IsRun(ss, es) && k < |ss| && ss[k].active != []
    ensures Walk(ss[k], ss[k].active[0].dma, |ss[k].active| + n) == Dmas(ss[k].active) + Repeat(ss[k].stopper, n)
  {
    hide Steps, Initial, Walk;
    RunInv(ss, es, k);
    WalkFrom(ss[k], 0, n);
    assert ss[k].active[0..] == ss[k].active;
  }

  /** The stopper program decodes to a wait for the next odd field and a jump to itself. */
  lemma {:induction false} StopperLoops(dma: u32)
    ensures |Image(StopperCode(dma))| == 4
    ensures var ws := Image(StopperCode(dma));
            && Decode(ws[0], ws[1]) == Some(Sync(true))
            && Decode(ws[2], ws[3]) == Some(Instr(Jump, 0, 0, 0, 0, dma))
  {
    hide Encode, Decode;
    var jump := Instr(Jump, 0, 0, 0, 0, dma);
    DecodeEncode(Sync(true));
    DecodeEncode(jump);
    ImageAppend([], Sync(true));
    ImageAppend([Sync(true)], jump);
    assert StopperCode(dma) == [Sync(true)] + [jump];
    assert [] + [Sync(true)] == [Sync(true)];
  }
}
