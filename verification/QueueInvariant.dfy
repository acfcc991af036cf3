/** Every step of the capture queue keeps the invariant. */
module QueueInvariant {
  import opened Words
  import opened RiscCode
  import opened Formats
  import opened QueueModel

  /** The part of the invariant that does not speak about the running engine and the timer. */
  ghost predicate Base(s: Sys) {
    && DistinctPrograms(s)
    && JumpChain(s)
    && DeviceAgrees(s)
    && Fifo(s)
    && CompletedBound(s)
    && DoneMeansCompleted(s)
  }

  ghost predicate CompletedBound(s: Sys) {
    forall c :: c in s.completed ==> c < |s.retired| + |s.active|
  }

  lemma {:induction false} InvIsBase(s: Sys)
    requires Inv(s)
    ensures Base(s)
  {
  }

  lemma {:induction false} InitialInv(s: Sys)
    requires Initial(s)
    ensures Inv(s)
  {
  }

  // ---------------------------------------------------------------- requeue

  /** The buffers a requeue moves all have the geometry of the first one. */
  lemma {:induction false} CompatRunAgrees(q: seq<Buf>, i: nat)
    requires i < CompatRun(q)
    ensures q[i].geom == q[0].geom
    decreases i
  {
    if i > 0 {
      CompatRunAgrees(q[1..], i - 1);
    }
  }

  /** And the run stops only where the queue ends or the next buffer is incompatible. */
  lemma {:induction false} CompatRunMaximal(q: seq<Buf>)
    ensures 0 < CompatRun(q) < |q| ==> !Compatible(q[CompatRun(q) - 1], q[CompatRun(q)])
    decreases |q|
  {
    if |q| > 1 && Compatible(q[0], q[1]) {
      CompatRunMaximal(q[1..]);
    }
  }

  lemma {:induction false} DmasSplit(q: seq<Buf>, n: nat)
    requires n <= |q|
    ensures Dmas(q) == Dmas(q[..n]) + Dmas(q[n..])
    ensures Dmas(Chained(q[..n])) == Dmas(q[..n])
  {
  }

  /** Requeueing, from any state whose lists are in order, leaves the whole invariant. */
  lemma {:induction false} RequeueRestores(s: Sys)
    requires Base(s)
    ensures Inv(Requeue(s).(suspended := false))
  {
    if s.active != [] {
      RestartKeeps(s);
    } else if s.queued != [] {
      MoveKeeps(s);
    }
  }

  lemma {:induction false} RestartKeeps(s: Sys)
    requires Base(s) && s.active != []
    ensures Inv(StartDma(s, s.active[0]).(timer := true, suspended := false))
  {
    hide DistinctPrograms, JumpChain, Fifo, DoneMeansCompleted, DeviceAgrees, EngineKnown, CompletedRecorded;
    var t := StartDma(s, s.active[0]).(timer := true, suspended := false);
    RestartLists(s, t);
    RestartAgrees(s, t);
    MovedHistory(s, t);
    RestartEngine(s, t);
  }

  lemma {:induction false} RestartLists(s: Sys, t: Sys)
    requires DistinctPrograms(s) && JumpChain(s) && Fifo(s)
    requires t.active == s.active && t.queued == s.queued && t.stopper == s.stopper
    requires t.retired == s.retired && t.submitted == s.submitted
    ensures DistinctPrograms(t) && JumpChain(t) && Fifo(t)
  {
  }

  lemma {:induction false} RestartAgrees(s: Sys, t: Sys)
    requires DeviceAgrees(s) && s.active != []
    requires t == StartDma(s, s.active[0]).(timer := true, suspended := false)
    ensures DeviceAgrees(t)
  {
    hide DmacStart, DmacByte;
    DmacStartIs(s.hw.dmac, s.active[0].geom.fmt);
  }

  lemma {:induction false} RestartEngine(s: Sys, t: Sys)
    requires CompletedBound(s) && s.active != []
    requires t == StartDma(s, s.active[0]).(timer := true, suspended := false)
    ensures TimerArmed(t) && EngineKnown(t) && CompletedRecorded(t)
  {
    hide DmacStart;
  }

  lemma {:induction false} MoveKeeps(s: Sys)
    requires Base(s) && s.active == [] && s.queued != []
    ensures Inv(Requeue(s).(suspended := false))
  {
    hide DistinctPrograms, JumpChain, Fifo, DoneMeansCompleted, DeviceAgrees;
    var t := Requeue(s).(suspended := false);
    MovedLists(s, CompatRun(s.queued), t);
    MovedAgrees(s, t);
    MovedFifo(s, CompatRun(s.queued), t);
    MovedHistory(s, t);
    MovedEngine(s, t);
  }

  lemma {:induction false} MovedLists(s: Sys, n: nat, t: Sys)
    requires DistinctPrograms(s) && JumpChain(s) && s.active == [] && n <= |s.queued|
    requires t.active == Chained(s.queued[..n]) && t.queued == s.queued[n..] && t.stopper == s.stopper
    ensures DistinctPrograms(t) && JumpChain(t)
  {
  }

  lemma {:induction false} MovedAgrees(s: Sys, t: Sys)
    requires s.active == [] && s.queued != [] && t == Requeue(s).(suspended := false)
    ensures DeviceAgrees(t)
  {
    hide DmacStart, DmacByte;
    DmacStartIs(s.hw.dmac, s.queued[0].geom.fmt);
    forall i | 0 <= i < |t.active| ensures t.active[i].geom == t.hw.geom {
      CompatRunAgrees(s.queued, i);
    }
  }

  lemma {:induction false} MovedFifo(s: Sys, n: nat, t: Sys)
    requires Fifo(s) && s.active == [] && n <= |s.queued|
    requires t.active == Chained(s.queued[..n]) && t.queued == s.queued[n..]
    requires t.retired == s.retired && t.submitted == s.submitted
    ensures Fifo(t)
  {
    DmasSplit(s.queued, n);
    NoneBetween(Dmas(s.retired), Dmas(s.active), Dmas(t.active), Dmas(t.queued));
  }

  lemma {:induction false} NoneBetween(r: seq<u32>, none: seq<u32>, a: seq<u32>, q: seq<u32>)
    requires |none| == 0
    ensures r + none + (a + q) == r + a + q
  {
  }

  lemma {:induction false} MovedHistory(s: Sys, t: Sys)
    requires DoneMeansCompleted(s) && CompletedBound(s)
    requires t.retired == s.retired && t.completed == s.completed && |t.active| >= |s.active|
    ensures DoneMeansCompleted(t) && CompletedBound(t)
  {
  }

  lemma {:induction false} MovedEngine(s: Sys, t: Sys)
    requires s.active == [] && s.queued != [] && t == Requeue(s).(suspended := false)
    requires CompletedBound(t)
    ensures TimerArmed(t) && EngineKnown(t) && CompletedRecorded(t)
  {
  }

  // ---------------------------------------------------------------- submit

  lemma {:induction false} SubmitKeeps(s: Sys, b: Buf)
    requires Inv(s) && Enabled(s, Submit(b))
    ensures Inv(Next(s, Submit(b)))
  {
    var t := BufferQueue(s, b);
    NotInLists(s, b);
    if s.queued != [] || (s.active != [] && !Compatible(s.active[|s.active| - 1], b)) {
      SubmitQueued(s, WithStopper(s, b).(state := Queued), t);
    } else if s.active == [] {
      SubmitFirst(s, WithStopper(s, b).(state := Active), t);
    } else {
      SubmitLinked(s, WithStopper(s, b).(state := Active), t);
    }
  }

  /** The buffer's program is not yet in the lists. */
  ghost predicate Fresh(s: Sys, b: Buf) {
    && b.dma != s.stopper && b.jmp0 == JUMP_WORD && b.jmp1 == s.stopper
    && (forall i :: 0 <= i < |s.active| ==> s.active[i].dma != b.dma)
    && (forall i :: 0 <= i < |s.queued| ==> s.queued[i].dma != b.dma)
  }

  lemma {:induction false} NotInLists(s: Sys, b: Buf)
    requires Enabled(s, Submit(b))
    ensures Fresh(s, WithStopper(s, b))
  {
    forall i | 0 <= i < |s.active| ensures s.active[i].dma != b.dma {
      assert Dmas(s.active)[i] in Dmas(s.active);
    }
    forall i | 0 <= i < |s.queued| ensures s.queued[i].dma != b.dma {
      assert Dmas(s.queued)[i] in Dmas(s.queued);
    }
  }

  lemma {:induction false} SubmitQueued(s: Sys, b: Buf, t: Sys)
    requires Inv(s) && !s.suspended && Waiting(s) && Fresh(s, b) && b.state == Queued
    requires t == s.(queued := s.queued + [b], submitted := s.submitted + [b.dma])
    ensures Inv(t)
  {
    hide Fifo, DoneMeansCompleted;
    QueuedFifo(s, b, t);
    MovedHistory(s, t) by {
      assert CompletedBound(s);
    }
  }

  lemma {:induction false} QueuedFifo(s: Sys, b: Buf, t: Sys)
    requires Fifo(s) && t.active == s.active && t.queued == s.queued + [b] && t.retired == s.retired
    requires t.submitted == s.submitted + [b.dma]
    ensures Fifo(t)
  {
    assert Dmas(t.queued) == Dmas(s.queued) + [b.dma];
  }

  lemma {:induction false} SubmitFirst(s: Sys, b: Buf, t: Sys)
    requires Inv(s) && !s.suspended && !Waiting(s) && Fresh(s, b) && b.state == Active
    requires t == StartDma(s, b).(active := [b], timer := true, submitted := s.submitted + [b.dma])
    ensures Inv(t)
  {
    hide DmacStart, DmacByte;
    DmacStartIs(s.hw.dmac, b.geom.fmt);
    assert Dmas(t.active) == [b.dma] && Dmas(s.active) == [] && Dmas(s.queued) == [];
  }

  lemma {:induction false} SubmitLinked(s: Sys, b: Buf, t: Sys)
    requires Inv(s) && !s.suspended && s.active != [] && s.queued == [] && Fresh(s, b) && b.state == Active
    requires Compatible(s.active[|s.active| - 1], b)
    requires t == s.(active := LinkLast(s.active, b.dma) + [b], timer := true, submitted := s.submitted + [b.dma])
    ensures Inv(t)
  {
    hide DistinctPrograms, JumpChain, Fifo, DoneMeansCompleted, DeviceAgrees, EngineKnown;
    LinkedLists(s, b, t);
    LinkedFifo(s, b, t);
    LinkedEngine(s, b, t);
    MovedHistory(s, t) by {
      assert CompletedBound(s);
    }
  }

  lemma {:induction false} LinkedLists(s: Sys, b: Buf, t: Sys)
    requires DistinctPrograms(s) && JumpChain(s) && DeviceAgrees(s)
    requires s.active != [] && s.queued == [] && Fresh(s, b) && b.state == Active
    requires Compatible(s.active[|s.active| - 1], b)
    requires t.active == LinkLast(s.active, b.dma) + [b] && t.queued == [] && t.stopper == s.stopper
    requires t.hw == s.hw && t.suspended == s.suspended
    ensures DistinctPrograms(t) && JumpChain(t) && DeviceAgrees(t)
  {
  }

  lemma {:induction false} LinkedFifo(s: Sys, b: Buf, t: Sys)
    requires Fifo(s) && s.active != [] && s.queued == []
    requires t.active == LinkLast(s.active, b.dma) + [b] && t.queued == [] && t.retired == s.retired
    requires t.submitted == s.submitted + [b.dma]
    ensures Fifo(t)
  {
    assert Dmas(t.active) == Dmas(s.active) + [b.dma];
    assert Dmas(s.queued) == [];
  }

  lemma {:induction false} LinkedEngine(s: Sys, b: Buf, t: Sys)
    requires EngineKnown(s) && !s.suspended && s.active != []
    requires t == s.(active := LinkLast(s.active, b.dma) + [b], timer := true, submitted := s.submitted + [b.dma])
    ensures EngineKnown(t)
  {
  }

  // ---------------------------------------------------------------- the engine

  lemma {:induction false} JumpWordDecodes(target: u32)
    ensures Decode(JUMP_WORD, target) == Some(Instr(Jump, 1, 0, 0, 0, target))
  {
    hide Encode, Decode;
    var i := Instr(Jump, 1, 0, 0, 0, target);
    JumpWordIs(i);
    DecodeEncode(i);
  }

  lemma {:induction false} JumpWordIs(i: Instr)
    requires i.op == Jump && i.irq == 1 && i.kind == 0 && i.start == 0 && i.count == 0
    ensures Encode(i) == JUMP_WORD
  {
    EncodeIsSum(i);
  }

  lemma {:induction false} FindActiveIs(s: Sys, i: nat)
    requires DistinctPrograms(s) && i < |s.active|
    ensures FindActive(s.active, s.active[i].dma) == Some(i)
  {
    hide FindActive;
  }

  lemma {:induction false} EngineDoneKeeps(s: Sys, next: u32)
    requires Inv(s) && Enabled(s, EngineDone(next))
    ensures Inv(Next(s, EngineDone(next)))
  {
    if s.active != [] {
      CompleteIs(s, next);
      CompletedKeeps(s, Complete(s, next));
    } else {
      assert !Waiting(s) by {
        assert s.suspended || (Waiting(s) ==> EngineInChain(s));
      }
      assert FindActive(s.active, s.hw.pc) == None;
    }
  }

  /** In the chain the engine follows the jump from submission |retired| + ran - woken. */
  lemma {:induction false} CompleteIs(s: Sys, next: u32)
    requires Inv(s) && Enabled(s, EngineDone(next)) && s.active != []
    ensures 0 <= s.ran - s.woken < |s.active|
    ensures Complete(s, next)
            == s.(hw := s.hw.(pc := s.active[s.ran - s.woken].jmp1, pending := true),
                  completed := s.completed + [|s.retired| + s.ran - s.woken], ran := s.ran + 1)
  {
    hide Decode, Complete, Inv, FindActive;
    EngineAt(s, next);
    var r := s.ran - s.woken;
    FindActiveIs(s, r);
    JumpWordDecodes(s.active[r].jmp1);
    CompleteAt(s, next, r);
  }

  /** While there are active buffers the engine is inside one of their programs, or stopped. */
  lemma {:induction false} EngineAt(s: Sys, next: u32)
    requires Inv(s) && Enabled(s, EngineDone(next)) && s.active != []
    ensures DistinctPrograms(s) && 0 <= s.ran - s.woken < |s.active|
    ensures s.hw.pc == s.active[s.ran - s.woken].dma && s.active[s.ran - s.woken].jmp0 == JUMP_WORD
  {
    hide Fifo, DoneMeansCompleted, DeviceAgrees, CompletedRecorded, DistinctPrograms;
  }

  lemma {:induction false} CompleteAt(s: Sys, next: u32, i: nat)
    requires i < |s.active| && FindActive(s.active, s.hw.pc) == Some(i)
    requires Decode(s.active[i].jmp0, s.active[i].jmp1) == Some(Instr(Jump, 1, 0, 0, 0, s.active[i].jmp1))
    ensures Complete(s, next)
            == s.(hw := s.hw.(pc := s.active[i].jmp1, pending := true),
                  completed := s.completed + [|s.retired| + i], ran := s.ran + 1)
  {
    hide Decode, FindActive;
  }

  lemma {:induction false} CompletedKeeps(s: Sys, t: Sys)
    requires Inv(s) && !s.suspended && s.active != [] && 0 <= s.ran - s.woken < |s.active|
    requires t == s.(hw := s.hw.(pc := s.active[s.ran - s.woken].jmp1, pending := true),
                     completed := s.completed + [|s.retired| + s.ran - s.woken], ran := s.ran + 1)
    ensures Inv(t)
  {
    hide DistinctPrograms, Fifo, DoneMeansCompleted, DeviceAgrees, CompletedRecorded, EngineKnown, JumpChain;
    SameLists(s, t);
    CompletedHistory(s, t);
    EngineMoves(s, t);
  }

  lemma {:induction false} SameLists(s: Sys, t: Sys)
    requires DistinctPrograms(s) && JumpChain(s) && DeviceAgrees(s) && Fifo(s)
    requires t.active == s.active && t.queued == s.queued && t.stopper == s.stopper
    requires t.hw.geom == s.hw.geom && t.hw.dmac == s.hw.dmac && t.suspended == s.suspended
    requires t.retired == s.retired && t.submitted == s.submitted
    ensures DistinctPrograms(t) && JumpChain(t) && DeviceAgrees(t) && Fifo(t)
  {
  }

  lemma {:induction false} CompletedHistory(s: Sys, t: Sys)
    requires CompletedRecorded(s) && DoneMeansCompleted(s) && s.active != [] && 0 <= s.ran - s.woken < |s.active|
    requires t.active == s.active && t.retired == s.retired && t.woken == s.woken && t.ran == s.ran + 1
    requires t.completed == s.completed + [|s.retired| + s.ran - s.woken]
    ensures CompletedRecorded(t) && DoneMeansCompleted(t)
  {
  }

  lemma {:induction false} EngineMoves(s: Sys, t: Sys)
    requires EngineKnown(s) && JumpChain(s) && !s.suspended && s.active != [] && 0 <= s.ran - s.woken < |s.active|
    requires t.active == s.active && t.woken == s.woken && t.ran == s.ran + 1 && !t.suspended && t.stopper == s.stopper
    requires t.hw.running == s.hw.running && t.hw.pc == s.active[s.ran - s.woken].jmp1
    ensures EngineKnown(t)
  {
  }

  // ---------------------------------------------------------------- interrupt

  lemma {:induction false} InterruptKeeps(s: Sys)
    requires Inv(s) && Enabled(s, Interrupt)
    ensures Inv(Next(s, Interrupt))
  {
    if s.active != [] {
      WakeupKeeps(s, Irq(s));
    } else {
      assert !Waiting(s);
    }
  }

  /** A pending interrupt with a buffer to wake: the engine has completed that buffer. */
  lemma {:induction false} HeadCompleted(s: Sys)
    requires Inv(s) && s.hw.running && s.hw.pending && s.active != []
    ensures s.woken < s.ran && |s.retired| in s.completed
  {
  }

  lemma {:induction false} WakeupKeeps(s: Sys, t: Sys)
    requires Inv(s) && s.hw.running && s.hw.pending && s.active != [] && t == Irq(s)
    ensures Inv(t)
  {
    hide DistinctPrograms, JumpChain, Fifo, DoneMeansCompleted, DeviceAgrees;
    HeadCompleted(s);
    assert DistinctPrograms(t) && JumpChain(t) && DeviceAgrees(t) by {
      TailLists(s, t);
    }
    assert Fifo(t) by {
      TailFifo(s, t);
    }
    assert DoneMeansCompleted(t) by {
      TailHistory(s, t);
    }
  }

  lemma {:induction false} TailLists(s: Sys, t: Sys)
    requires DistinctPrograms(s) && JumpChain(s) && DeviceAgrees(s) && s.active != []
    requires t.active == s.active[1..] && t.queued == s.queued && t.stopper == s.stopper
    requires t.hw.geom == s.hw.geom && t.hw.dmac == s.hw.dmac && t.suspended == s.suspended
    ensures DistinctPrograms(t) && JumpChain(t) && DeviceAgrees(t)
  {
  }

  lemma {:induction false} TailFifo(s: Sys, t: Sys)
    requires Fifo(s) && s.active != [] && t.active == s.active[1..] && t.queued == s.queued
    requires |t.retired| == |s.retired| + 1 && t.retired[..|s.retired|] == s.retired
    requires t.retired[|s.retired|].dma == s.active[0].dma && t.submitted == s.submitted
    ensures Fifo(t)
  {
    var x := s.active[0].dma;
    assert Dmas(t.retired) == Dmas(s.retired) + [x];
    assert Dmas(s.active) == [x] + Dmas(t.active);
    MoveAcross(Dmas(s.retired), x, Dmas(t.active), Dmas(s.queued));
  }

  lemma {:induction false} MoveAcross(r: seq<u32>, x: u32, a: seq<u32>, q: seq<u32>)
    ensures r + [x] + a + q == r + ([x] + a) + q
  {
  }

  lemma {:induction false} TailHistory(s: Sys, t: Sys)
    requires DoneMeansCompleted(s) && s.active != [] && t == Irq(s) && |s.retired| in s.completed
    ensures DoneMeansCompleted(t)
  {
  }

  // ---------------------------------------------------------------- timeout, suspend, resume

  lemma {:induction false} FailedBase(s: Sys, t: Sys)
    requires Base(s) && t == s.(timer := false, active := [], retired := s.retired + Failed(s.active))
    ensures Base(t)
  {
    hide Fifo, DoneMeansCompleted;
    FailedFifo(s, t);
    FailedHistory(s, t);
  }

  lemma {:induction false} FailedFifo(s: Sys, t: Sys)
    requires Fifo(s) && t.active == [] && t.queued == s.queued && t.submitted == s.submitted
    requires t.retired == s.retired + Failed(s.active)
    ensures Fifo(t)
  {
    assert Dmas(t.retired) == Dmas(s.retired) + Dmas(s.active);
    assert Dmas(t.active) == [];
  }

  lemma {:induction false} FailedHistory(s: Sys, t: Sys)
    requires DoneMeansCompleted(s) && t.retired == s.retired + Failed(s.active) && t.completed == s.completed
    ensures DoneMeansCompleted(t)
  {
  }

  /** The timeout cannot come in suspend. */
  lemma {:induction false} TimerMeansAwake(s: Sys)
    requires Inv(s) && s.timer
    ensures !s.suspended
  {
  }

  lemma {:induction false} ExpireKeeps(s: Sys)
    requires Inv(s) && Enabled(s, Expire)
    ensures Inv(Next(s, Expire))
  {
    var t := s.(timer := false, active := [], retired := s.retired + Failed(s.active));
    hide Base, Inv;
    TimerMeansAwake(s);
    InvIsBase(s);
    FailedBase(s, t);
    RequeueRestores(t);
    assert Requeue(t).(suspended := false) == Timeout(s);
  }

  lemma {:induction false} SuspendKeeps(s: Sys)
    requires Inv(s) && Enabled(s, Suspend)
    ensures Inv(Next(s, Suspend))
  {
  }

  /** The combined invariant is inductive. */
  lemma {:induction false} StepKeeps(s: Sys, e: Event)
    requires Inv(s) && Enabled(s, e)
    ensures Inv(Next(s, e))
  {
    match e
    case Submit(b) => SubmitKeeps(s, b);
    case EngineDone(next) => EngineDoneKeeps(s, next);
    case Interrupt => InterruptKeeps(s);
    case Expire => ExpireKeeps(s);
    case StreamOn =>
      InvIsBase(s);
      RequeueRestores(s);
    case Suspend => SuspendKeeps(s);
    case Resume =>
      InvIsBase(s);
      RequeueRestores(s);
  }
}
