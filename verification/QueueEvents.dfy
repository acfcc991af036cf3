/** Interrupts are acknowledged, the timer is armed and deleted, and a suspended device is quiet. */
module QueueEvents {
  import opened RiscCode
  import opened Formats
  import opened QueueModel
  import opened QueueRuns

  // ---------------------------------------------------------------- interrupts

  /** Serving an interrupt acknowledges it, whether or not there is a buffer to wake. */
  lemma {:induction false} InterruptAcknowledged(s: Sys)
    ensures !Next(s, Interrupt).hw.pending
  {
  }

  /** Only the engine raises the interrupt. */
  lemma {:induction false} OnlyEngineRaises(s: Sys, e: Event)
    requires Enabled(s, e) && Next(s, e).hw.pending && !s.hw.pending
    ensures e.EngineDone?
  {
    hide Decode, FindActive, CompatRun, Compatible, DmacStart;
  }

  lemma {:induction false} RaisedBetween(ss: seq<Sys>, es: seq<Event>, i: nat, j: nat)
    requires Steps(ss, es) && i < j < |es| && !ss[i].hw.pending && ss[j].hw.pending
    ensures exists k :: i <= k < j && es[k].EngineDone? && !ss[k].hw.pending && ss[k + 1].hw.pending
    decreases j
  {
    hide Next, Enabled;
    if ss[j - 1].hw.pending {
      RaisedBetween(ss, es, i, j - 1);
    } else {
      OnlyEngineRaises(ss[j - 1], es[j - 1]);
      assert ss[j - 1 + 1].hw.pending;
    }
  }

  /** Between two interrupts the engine has finished a program and raised the second one: no interrupt
      is served twice. */
  lemma {:induction false} InterruptsAlternate(ss: seq<Sys>, es: seq<Event>, i: nat, j: nat)
    requires Steps(ss, es) && i < j < |es| && es[i].Interrupt? && es[j].Interrupt?
    ensures exists k :: i < k < j && es[k].EngineDone? && !ss[k].hw.pending && ss[k + 1].hw.pending
  {
    hide Next;
    InterruptAcknowledged(ss[i]);
    assert ss[i + 1] == Next(ss[i], es[i]) && Enabled(ss[j], es[j]);
    if i + 1 == j {
      assert false;
    } else {
      RaisedBetween(ss, es, i + 1, j);
    }
  }

  // ---------------------------------------------------------------- the timer

  /** Exactly when the timeout is armed after a step. */
  lemma {:induction false} TimerAfter(s: Sys, e: Event)
    requires Inv(s) && Enabled(s, e)
    ensures Next(s, e).timer <==>
            match e
            case Submit(_) => true
            case EngineDone(_) => s.timer
            case Interrupt => s.active != []
            case Expire => s.queued != []
            case StreamOn => s.timer
            case Suspend => false
            case Resume => Waiting(s)
  {
    hide Decode, FindActive, CompatRun, Compatible, DmacStart, DistinctPrograms, JumpChain, Fifo, DoneMeansCompleted,
      DeviceAgrees, CompletedRecorded;
  }

  // ---------------------------------------------------------------- suspend

  /** In suspend nothing is possible but to resume: the engine, its interrupt and the timeout are
      off. */
  lemma {:induction false} OnlyResume(s: Sys, e: Event)
    requires Inv(s) && s.suspended && Enabled(s, e)
    ensures e.Resume?
  {
    hide DistinctPrograms, JumpChain, Fifo, DoneMeansCompleted, DeviceAgrees, CompletedRecorded;
  }

  /** Which step leads into suspend, and which out of it. */
  lemma {:induction false} SuspendedAfter(s: Sys, e: Event)
    requires Inv(s) && Enabled(s, e)
    ensures Next(s, e).suspended <==> e.Suspend?
  {
    hide Inv, Decode, FindActive, CompatRun, Compatible, DmacStart;
    if s.suspended {
      OnlyResume(s, e);
    }
  }

  /** The driver is suspended exactly directly behind a suspend; then the timeout is deleted, the engine
      and its interrupt are off, and of the DMA control register the two enables are cleared and the
      other bits are as before. */
  lemma {:induction false} SuspendedIsQuiet(ss: seq<Sys>, es: seq<Event>, i: nat)
    requires IsRun(ss, es) && i < |ss|
    ensures ss[i].suspended <==> i > 0 && es[i - 1].Suspend?
    ensures ss[i].suspended ==>
              && !ss[i].timer && !ss[i].hw.running
              && ss[i].hw.dmac % 4 == 0 && ss[i].hw.dmac / 4 == ss[i - 1].hw.dmac / 4
  {
    hide Enabled, DistinctPrograms, JumpChain, Fifo, DoneMeansCompleted, DeviceAgrees, CompletedRecorded;
    RunInv(ss, es, i);
    if i > 0 {
      RunInv(ss, es, i - 1);
      hide Next;
      SuspendedAfter(ss[i - 1], es[i - 1]);
      SuspendClears(ss[i - 1]);
    }
  }

  lemma {:induction false} SuspendClears(s: Sys)
    ensures Next(s, Suspend).hw.dmac / 4 == s.hw.dmac / 4
  {
  }
}
