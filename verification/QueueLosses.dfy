/** What the queue can lose: buffers linked after the engine has left the chain, which wait for the
    timeout, and captured buffers that a timeout fails because interrupts coalesce. */
module QueueLosses {
  import opened Words
  import opened RiscCode
  import opened Formats
  import opened QueueModel
  import opened QueueInvariant
  import opened QueueRuns

  // ---------------------------------------------------------------- restarts

  /** The step calls start_dma. */
  predicate Restarts(s: Sys, e: Event) {
    match e
    case Submit(_) => s.active == [] && s.queued == []
    case Expire => s.queued != []
    case StreamOn => s.active != [] || s.queued != []
    case Resume => s.active != [] || s.queued != []
    case _ => false
  }

  ghost predicate NoRestart(ss: seq<Sys>, es: seq<Event>)
    requires Steps(ss, es)
  {
    forall i :: 0 <= i < |es| ==> !Restarts(ss[i], es[i])
  }

  // ---------------------------------------------------------------- the engine has left the chain

  /** The number of the submission that the engine runs, or would run, next. */
  function Reached(s: Sys): int {
    |s.retired| + s.ran - s.woken
  }

  /** The engine is in the stopper, and has not run the submissions from `bound` on. */
  ghost predicate Stalled(s: Sys, bound: int) {
    && s.hw.pc == s.stopper
    && (forall k :: 0 <= k < |s.retired| && k >= bound ==> s.retired[k].state == Error)
    && (Waiting(s) ==> Reached(s) == bound)
  }

  lemma {:induction false} StalledStep(s: Sys, e: Event, bound: int)
    requires Inv(s) && Enabled(s, e) && !Restarts(s, e) && Stalled(s, bound)
    ensures Stalled(Next(s, e), bound) && Next(s, e).completed == s.completed && !e.EngineDone?
  {
    hide Compatible, CompatRun, Complete, DistinctPrograms, JumpChain, Fifo, DoneMeansCompleted, DeviceAgrees;
  }

  lemma {:induction false} StalledRun(ss: seq<Sys>, es: seq<Event>, i: nat, bound: int)
    requires Steps(ss, es) && Inv(ss[0]) && NoRestart(ss, es) && Stalled(ss[0], bound) && i < |ss|
    ensures Stalled(ss[i], bound) && ss[i].completed == ss[0].completed
    ensures i < |es| ==> !es[i].EngineDone?
    decreases i
  {
    hide Inv, Next, Enabled, Restarts, Stalled;
    if i > 0 {
      StalledRun(ss, es, i - 1, bound);
      StepsInv(ss, es, i - 1);
      StalledStep(ss[i - 1], es[i - 1], bound);
    }
    if i < |es| {
      StepsInv(ss, es, i);
      StalledStep(ss[i], es[i], bound);
    }
  }

  /** Once the engine has reached the stopper with buffers active, it runs nothing until the next
      start_dma: of the submissions it had not run, those given back by then are all ERROR. */
  lemma {:induction false} StalledNeverDone(ss: seq<Sys>, es: seq<Event>, i: nat, k: nat)
    requires Steps(ss, es) && Inv(ss[0]) && NoRestart(ss, es) && i < |ss|
    requires !ss[0].suspended && Waiting(ss[0]) && ss[0].hw.pc == ss[0].stopper
    requires Reached(ss[0]) <= k < |ss[i].retired|
    ensures ss[i].retired[k].state == Error && ss[i].completed == ss[0].completed
    ensures forall j :: 0 <= j < |es| ==> !es[j].EngineDone?
  {
    hide Restarts, Next, Enabled, DistinctPrograms, JumpChain, Fifo, DoneMeansCompleted, DeviceAgrees;
    var bound := Reached(ss[0]);
    assert bound >= |ss[0].retired|;
    StalledRun(ss, es, i, bound);
    forall j | 0 <= j < |es| ensures !es[j].EngineDone? {
      StalledRun(ss, es, j, bound);
    }
  }

  // ---------------------------------------------------------------- the engine is in the chain

  /** A continuation without a restart in which the engine runs the program of submission c. */
  ghost predicate Captures(ss: seq<Sys>, es: seq<Event>, s: Sys, c: nat) {
    Steps(ss, es) && ss[0] == s && NoRestart(ss, es) && c in ss[|es|].completed
  }

  ghost predicate CanStillRun(s: Sys, c: nat) {
    exists ss, es :: Captures(ss, es, s, c)
  }

  ghost predicate InChain(s: Sys) {
    && Inv(s) && !s.suspended && s.woken <= s.ran < s.woken + |s.active|
    && s.hw.running && s.hw.pc == s.active[s.ran - s.woken].dma
  }

  lemma {:induction false} Advance(s: Sys, next: u32)
    requires InChain(s)
    ensures Enabled(s, EngineDone(next)) && !Restarts(s, EngineDone(next)) && Inv(Complete(s, next))
    ensures Complete(s, next).completed == s.completed + [|s.retired| + s.ran - s.woken]
    ensures Complete(s, next).active == s.active && Complete(s, next).retired == s.retired
    ensures Complete(s, next).ran == s.ran + 1 && Complete(s, next).woken == s.woken
    ensures s.ran + 1 < s.woken + |s.active| ==> InChain(Complete(s, next))
  {
    hide Complete, Fifo, DoneMeansCompleted, DeviceAgrees, CompletedRecorded;
    StepKeeps(s, EngineDone(next));
    CompleteIs(s, next);
  }

  /** Left alone, the engine runs to the end of the chain. */
  lemma {:induction false} RunOut(s: Sys) returns (ss: seq<Sys>, es: seq<Event>)
    requires InChain(s)
    ensures Steps(ss, es) && ss[0] == s && NoRestart(ss, es)
    ensures forall c: nat :: c in s.completed || Reached(s) <= c < |s.retired| + |s.active| ==> c in ss[|es|].completed
    decreases s.woken + |s.active| - s.ran
  {
    hide InChain, Inv, Complete, Restarts;
    var e := EngineDone(0);
    Advance(s, 0);
    var t := Complete(s, 0);
    InChainBounds(s);
    if s.ran + 1 < s.woken + |s.active| {
      var ss1, es1 := RunOut(t);
      ss, es := [s] + ss1, [e] + es1;
      ConsSteps(s, e, ss1, es1);
    } else {
      ss, es := [s, t], [e];
    }
  }

  lemma {:induction false} InChainBounds(s: Sys)
    requires InChain(s)
    ensures s.woken <= s.ran < s.woken + |s.active|
  {
  }

  lemma {:induction false} ConsSteps(s: Sys, e: Event, ss: seq<Sys>, es: seq<Event>)
    requires Steps(ss, es) && NoRestart(ss, es) && Enabled(s, e) && ss[0] == Next(s, e) && !Restarts(s, e)
    ensures Steps([s] + ss, [e] + es) && NoRestart([s] + ss, [e] + es)
    ensures ([s] + ss)[|[e] + es|] == ss[|es|]
  {
    hide Enabled, Next, Restarts;
    var ss1, es1 := [s] + ss, [e] + es;
    forall i | 0 <= i < |es1|
      ensures Enabled(ss1[i], es1[i]) && ss1[i + 1] == Next(ss1[i], es1[i]) && !Restarts(ss1[i], es1[i])
    {
      if i > 0 {
        assert ss1[i] == ss[i - 1] && es1[i] == es[i - 1];
      }
    }
  }

  /** tw68_buffer_queue links to the last active buffer without asking where the engine is.  The
      engine can still get to the new buffer without a restart if and only if it has not left the
      chain for the stopper. */
  lemma {:induction false} JoiningIsCapturedIff(s: Sys, b: Buf)
    requires Inv(s) && Enabled(s, Submit(b)) && s.active != [] && s.queued == []
    requires Compatible(s.active[|s.active| - 1], b)
    ensures s.hw.pc != s.stopper
            <==> CanStillRun(Next(s, Submit(b)), |s.retired| + |s.active|)
  {
    hide Captures, Inv, InChain, Stalled;
    var t := Next(s, Submit(b));
    var c := |s.retired| + |s.active|;
    StepKeeps(s, Submit(b));
    JoinedEngine(s, b);
    if s.hw.pc != s.stopper {
      var ss, es := RunOut(t);
      assert Captures(ss, es, t, c) by {
        Witnessed(ss, es, t, c);
      }
    } else {
      forall ss, es | Captures(ss, es, t, c) ensures false {
        NotCaptured(ss, es, t, c);
      }
    }
  }

  lemma {:induction false} Witnessed(ss: seq<Sys>, es: seq<Event>, s: Sys, c: nat)
    requires Steps(ss, es) && ss[0] == s && NoRestart(ss, es) && c in ss[|es|].completed
    ensures Captures(ss, es, s, c)
  {
  }

  lemma {:induction false} NotCaptured(ss: seq<Sys>, es: seq<Event>, s: Sys, c: nat)
    requires Captures(ss, es, s, c) && Inv(s) && Stalled(s, Reached(s))
    ensures c in s.completed
  {
    hide Inv, Stalled, Restarts, Next, Enabled;
    StalledRun(ss, es, |es|, Reached(s));
  }

  lemma {:induction false} JoinedEngine(s: Sys, b: Buf)
    requires Inv(s) && Enabled(s, Submit(b)) && s.active != [] && s.queued == []
    requires Compatible(s.active[|s.active| - 1], b)
    ensures var t := Next(s, Submit(b));
            && |t.active| == |s.active| + 1 && t.retired == s.retired
            && |s.retired| + |s.active| !in t.completed && Reached(t) <= |s.retired| + |s.active|
            && (s.hw.pc == s.stopper ==> Stalled(t, Reached(t)))
            && (s.hw.pc != s.stopper ==> Inv(t) ==> InChain(t))
  {
    hide DistinctPrograms, JumpChain, Fifo, DoneMeansCompleted, DeviceAgrees;
  }

  // ---------------------------------------------------------------- captured, and yet failed

  /** How many of the first active buffers in state ss[j] have been captured at least once: the engine
      adds to them in order, a wakeup takes one away, and a timeout starts afresh. */
  ghost function Captured(ss: seq<Sys>, es: seq<Event>, j: nat): int
    requires Steps(ss, es) && j <= |es|
  {
    if j == 0 then 0
    else
      var c, s := Captured(ss, es, j - 1), ss[j - 1];
      match es[j - 1]
      case EngineDone(_) => if s.active != [] && c < s.ran + 1 - s.woken then s.ran + 1 - s.woken else c
      case Interrupt => if s.active != [] then c - 1 else c
      case Expire => 0
      case _ => c
  }

  /** The active buffers that have been captured are the first c. */
  ghost predicate CapturedExactly(s: Sys, c: int) {
    && 0 <= c <= |s.active|
    && (s.active != [] ==> s.ran - s.woken <= c)
    && forall k: nat :: |s.retired| <= k < |s.retired| + |s.active| ==> (k in s.completed <==> k < |s.retired| + c)
  }

  lemma {:induction false} CapturedStep(ss: seq<Sys>, es: seq<Event>, j: nat)
    requires Steps(ss, es) && j < |es| && Inv(ss[j]) && CapturedExactly(ss[j], Captured(ss, es, j))
    ensures CapturedExactly(ss[j + 1], Captured(ss, es, j + 1))
  {
    hide Inv, CapturedExactly, Next, Enabled;
    var s, e, c := ss[j], es[j], Captured(ss, es, j);
    match e
    case Submit(b) => CapturedSubmit(s, b, c);
    case EngineDone(next) => CapturedEngine(s, next, c);
    case Interrupt => CapturedWakeup(s, c);
    case Expire => CapturedExpire(s, c);
    case _ => CapturedOther(s, e, c);
  }

  lemma {:induction false} CapturedSubmit(s: Sys, b: Buf, c: int)
    requires Inv(s) && Enabled(s, Submit(b)) && CapturedExactly(s, c)
    ensures CapturedExactly(Next(s, Submit(b)), c)
  {
    hide DistinctPrograms, JumpChain, Fifo, DoneMeansCompleted, DeviceAgrees, EngineKnown, TimerArmed, DmacStart;
  }

  lemma {:induction false} CapturedEngine(s: Sys, next: u32, c: int)
    requires Inv(s) && Enabled(s, EngineDone(next)) && CapturedExactly(s, c)
    ensures CapturedExactly(Next(s, EngineDone(next)),
                            if s.active != [] && c < s.ran + 1 - s.woken then s.ran + 1 - s.woken else c)
  {
    hide DistinctPrograms, JumpChain, Fifo, DoneMeansCompleted, DeviceAgrees, TimerArmed, FindActive, Decode;
    if s.active != [] {
      hide Complete;
      CompleteIs(s, next);
      CapturedOneMore(s, Complete(s, next), c);
    } else {
      assert FindActive(s.active, s.hw.pc) == None;
    }
  }

  lemma {:induction false} CapturedOneMore(s: Sys, t: Sys, c: int)
    requires CapturedExactly(s, c) && 0 <= s.ran - s.woken < |s.active|
    requires t.active == s.active && t.retired == s.retired && t.ran == s.ran + 1 && t.woken == s.woken
    requires t.completed == s.completed + [|s.retired| + s.ran - s.woken]
    requires forall k :: |s.retired| <= k < |s.retired| + s.ran - s.woken ==> k in s.completed
    ensures CapturedExactly(t, if c < s.ran + 1 - s.woken then s.ran + 1 - s.woken else c)
  {
  }

  lemma {:induction false} CapturedWakeup(s: Sys, c: int)
    requires Inv(s) && Enabled(s, Interrupt) && CapturedExactly(s, c)
    ensures CapturedExactly(Next(s, Interrupt), if s.active != [] then c - 1 else c)
  {
    hide DistinctPrograms, JumpChain, Fifo, DoneMeansCompleted, DeviceAgrees, TimerArmed, CompletedRecorded;
  }

  lemma {:induction false} CapturedExpire(s: Sys, c: int)
    requires Inv(s) && Enabled(s, Expire) && CapturedExactly(s, c)
    ensures CapturedExactly(Next(s, Expire), 0)
  {
    hide DistinctPrograms, JumpChain, Fifo, DoneMeansCompleted, DeviceAgrees, TimerArmed, EngineKnown, CompatRun,
      DmacStart;
  }

  lemma {:induction false} CapturedOther(s: Sys, e: Event, c: int)
    requires Inv(s) && Enabled(s, e) && CapturedExactly(s, c) && (e.StreamOn? || e.Suspend? || e.Resume?)
    ensures CapturedExactly(Next(s, e), c)
  {
    hide DistinctPrograms, JumpChain, Fifo, DoneMeansCompleted, DeviceAgrees, TimerArmed, EngineKnown, CompatRun,
      DmacStart;
  }

  lemma {:induction false} CapturedIs(ss: seq<Sys>, es: seq<Event>, j: nat)
    requires IsRun(ss, es) && j <= |es|
    ensures CapturedExactly(ss[j], Captured(ss, es, j))
    decreases j
  {
    hide Next, Enabled, Captured;
    if j > 0 {
      CapturedIs(ss, es, j - 1);
      RunInv(ss, es, j - 1);
      hide CapturedExactly, Inv;
      CapturedStep(ss, es, j - 1);
    } else {
      CapturedInitially(ss, es);
    }
  }

  lemma {:induction false} CapturedInitially(ss: seq<Sys>, es: seq<Event>)
    requires IsRun(ss, es)
    ensures CapturedExactly(ss[0], Captured(ss, es, 0))
  {
  }

  /** In step j the timeout fails submission k, whose program the engine has run. */
  ghost predicate FailsCaptured(ss: seq<Sys>, es: seq<Event>, j: nat, k: nat)
    requires Steps(ss, es) && j < |es|
  {
    es[j].Expire? && |ss[j].retired| <= k < |ss[j].retired| + Captured(ss, es, j)
  }

  /** A submission comes back ERROR although the engine ran its program exactly if a timeout came while
      it was among the captured ones still waiting for their interrupt. */
  lemma {:induction false} CapturedButFailedIff(ss: seq<Sys>, es: seq<Event>, i: nat, k: nat)
    requires IsRun(ss, es) && i < |ss| && k < |ss[i].retired|
    ensures ss[i].retired[k].state == Error && k in ss[i].completed
            <==> exists j :: 0 <= j < i && FailsCaptured(ss, es, j, k)
    decreases i
  {
    hide Next, Enabled, Captured, Initial;
    if i > 0 {
      var s, e := ss[i - 1], es[i - 1];
      RetiredFacts(s, e, k);
      CapturedIs(ss, es, i - 1);
      if k < |s.retired| {
        CapturedButFailedIff(ss, es, i - 1, k);
        assert !FailsCaptured(ss, es, i - 1, k);
      } else {
        FailsEarlier(ss, es, i - 1, k);
        assert FailsCaptured(ss, es, i - 1, k) <==> e.Expire? && k in s.completed;
      }
    } else {
      NothingRetired(ss[0]);
    }
  }

  lemma {:induction false} NothingRetired(s: Sys)
    requires Initial(s)
    ensures |s.retired| == 0
  {
  }

  /** What a step does to submission k, retired after it. */
  lemma {:induction false} RetiredFacts(s: Sys, e: Event, k: nat)
    requires Enabled(s, e) && k < |Next(s, e).retired|
    ensures k < |s.retired| ==> Next(s, e).retired[k] == s.retired[k] && (k in Next(s, e).completed <==> k in s.completed)
    ensures k >= |s.retired| ==>
              && k < |s.retired| + |s.active| && Next(s, e).completed == s.completed
              && (e.Expire? || e.Interrupt?) && (Next(s, e).retired[k].state == Error <==> e.Expire?)
  {
    hide Decode, FindActive, CompatRun, Compatible, DmacStart;
  }

  /** Whom a timeout fails is retired from then on. */
  lemma {:induction false} FailsEarlier(ss: seq<Sys>, es: seq<Event>, i: nat, k: nat)
    requires IsRun(ss, es) && i < |ss| && k >= |ss[i].retired|
    ensures forall j :: 0 <= j < i ==> !FailsCaptured(ss, es, j, k)
  {
    hide Next, Enabled, Captured, Initial;
    forall j | 0 <= j < i ensures !FailsCaptured(ss, es, j, k) {
      CapturedIs(ss, es, j);
      RetiredGrows(ss, es, j + 1, i);
      if es[j].Expire? {
        ExpireRetires(ss[j]);
      }
    }
  }

  lemma {:induction false} ExpireRetires(s: Sys)
    ensures |Next(s, Expire).retired| == |s.retired| + |s.active|
  {
    hide CompatRun, DmacStart;
  }

  lemma {:induction false} RetiredGrows(ss: seq<Sys>, es: seq<Event>, j: nat, i: nat)
    requires Steps(ss, es) && j <= i < |ss|
    ensures |ss[j].retired| <= |ss[i].retired|
    decreases i
  {
    hide Next, Enabled;
    if j < i {
      RetiredGrows(ss, es, j, i - 1);
      HistoryGrows(ss[i - 1], es[i - 1]);
    }
  }

  // ---------------------------------------------------------------- a run with both losses

  /** Two buffers are captured before the first interrupt is served: one interrupt wakes one buffer, and
      the timeout fails the other, although it was captured. */
  lemma {:induction false} CapturedAndFailed(s: Sys, a: Buf, b: Buf)
    requires Initial(s) && a.geom == b.geom && a.dma != b.dma && a.dma != s.stopper && b.dma != s.stopper
    ensures var es := [Submit(a), Submit(b), EngineDone(0), EngineDone(0), Interrupt, Expire];
            exists ss: seq<Sys> :: IsRun(ss, es) && ss[0] == s
              && ss[4].hw.pc == s.stopper && |ss[4].active| == 2
              && |ss[6].retired| == 2 && ss[6].retired[0].state == Done && ss[6].retired[1].state == Error
              && 1 in ss[6].completed
  {
    hide Inv, Next, Enabled, Initial;
    var es := [Submit(a), Submit(b), EngineDone(0), EngineDone(0), Interrupt, Expire];
    var s1 := Next(s, es[0]);
    var s2 := Next(s1, es[1]);
    var s3 := Next(s2, es[2]);
    var s4 := Next(s3, es[3]);
    var s5 := Next(s4, es[4]);
    var s6 := Next(s5, es[5]);
    InitialInv(s);
    TwoSubmitted(s, a, b);
    StepKeeps(s, es[0]);
    StepKeeps(s1, es[1]);
    OneRun(s2);
    StepKeeps(s2, es[2]);
    OneRun(s3);
    StepKeeps(s3, es[3]);
    OneWoken(s4);
    OneFailed(s5);
    var ss := [s, s1, s2, s3, s4, s5, s6];
    assert IsRun(ss, es);
  }

  lemma {:induction false} TwoSubmitted(s: Sys, a: Buf, b: Buf)
    requires Initial(s) && a.geom == b.geom && a.dma != b.dma && a.dma != s.stopper && b.dma != s.stopper
    ensures Enabled(s, Submit(a)) && Enabled(Next(s, Submit(a)), Submit(b))
    ensures var t := Next(Next(s, Submit(a)), Submit(b));
            && |t.active| == 2 && t.queued == [] && t.retired == [] && t.ran == 0 && t.woken == 0 && !t.suspended
            && t.hw.running && t.hw.pc == t.active[0].dma && t.stopper == s.stopper
  {
    hide DmacStart;
    var t1 := Next(s, Submit(a));
    assert t1.active == [WithStopper(s, a).(state := Active)] && t1.queued == [];
  }

  lemma {:induction false} OneRun(s: Sys)
    requires Inv(s) && !s.suspended && |s.active| == 2 && s.woken == 0 && s.ran < 2
    requires s.hw.running && s.hw.pc == s.active[s.ran].dma
    ensures Enabled(s, EngineDone(0))
    ensures var t := Next(s, EngineDone(0));
            && t.active == s.active && t.queued == s.queued && t.retired == s.retired
            && !t.suspended && t.stopper == s.stopper
            && t.woken == 0 && t.ran == s.ran + 1 && t.hw.running && t.hw.pending && t.timer == s.timer
            && t.completed == s.completed + [|s.retired| + s.ran]
            && t.hw.pc == if s.ran == 0 then s.active[1].dma else s.stopper
  {
    hide Complete, Fifo, DoneMeansCompleted, DeviceAgrees, CompletedRecorded;
    CompleteIs(s, 0);
  }

  lemma {:induction false} OneWoken(s: Sys)
    requires Inv(s) && s.hw.running && s.hw.pending && |s.active| == 2
    requires s.retired == [] && s.queued == [] && !s.suspended
    ensures Enabled(s, Interrupt)
    ensures var t := Next(s, Interrupt);
            && |t.active| == 1 && |t.retired| == 1 && t.retired[0].state == Done && t.queued == [] && t.timer
            && !t.suspended && t.completed == s.completed
  {
  }

  lemma {:induction false} OneFailed(s: Sys)
    requires |s.active| == 1 && |s.retired| == 1 && s.retired[0].state == Done
    requires s.queued == [] && s.timer && !s.suspended
    ensures Enabled(s, Expire)
    ensures var t := Next(s, Expire);
            && |t.retired| == 2 && t.retired[0].state == Done && t.retired[1].state == Error && t.completed == s.completed
  {
  }
}
