/** Whole runs of the capture queue: every interleaving of submissions, engine events,
    interrupts, timeouts, stream starts, suspends and resumes. */
module QueueRuns {
  import opened Words
  import opened RiscCode
  import opened QueueModel
  import opened QueueInvariant

  /** es are possible events and ss the states around them. */
  ghost predicate Steps(ss: seq<Sys>, es: seq<Event>) {
    && |ss| == |es| + 1
    && forall i :: 0 <= i < |es| ==> Enabled(ss[i], es[i]) && ss[i + 1] == Next(ss[i], es[i])
  }

  ghost predicate IsRun(ss: seq<Sys>, es: seq<Event>) {
    Steps(ss, es) && Initial(ss[0])
  }

  lemma {:induction false} StepsInv(ss: seq<Sys>, es: seq<Event>, i: nat)
    requires Steps(ss, es) && Inv(ss[0]) && i < |ss|
    ensures Inv(ss[i])
    decreases i
  {
    hide Inv, Next;
    if i > 0 {
      StepsInv(ss, es, i - 1);
      StepKeeps(ss[i - 1], es[i - 1]);
    }
  }

  /** The invariant holds in every state of every run. */
  lemma {:induction false} RunInv(ss: seq<Sys>, es: seq<Event>, i: nat)
    requires IsRun(ss, es) && i < |ss|
    ensures Inv(ss[i])
  {
    InitialInv(ss[0]);
    StepsInv(ss, es, i);
  }

  // ---------------------------------------------------------------- safety

  /** In step j the engine finished the program of submission c, which was active. */
  ghost predicate EngineRan(ss: seq<Sys>, es: seq<Event>, j: nat, c: nat)
    requires Steps(ss, es) && j < |es|
  {
    var s := ss[j];
    && es[j].EngineDone?
    && |s.retired| <= c < |s.retired| + |s.active|
    && s.hw.running && s.hw.pc == s.active[c - |s.retired|].dma
  }

  lemma {:induction false} CompletedGrows(s: Sys, e: Event, c: nat)
    requires Enabled(s, e) && c in Next(s, e).completed && c !in s.completed
    ensures e.EngineDone? && s.hw.running
    ensures |s.retired| <= c < |s.retired| + |s.active| && s.hw.pc == s.active[c - |s.retired|].dma
  {
    hide Decode, FindActive, CompatRun, Compatible;
  }

  lemma {:induction false} CompletedWasRun(ss: seq<Sys>, es: seq<Event>, i: nat, c: nat)
    requires IsRun(ss, es) && i < |ss| && c in ss[i].completed
    ensures exists j :: 0 <= j < i && EngineRan(ss, es, j, c)
    decreases i
  {
    hide Next, Enabled;
    if c in ss[i - 1].completed {
      CompletedWasRun(ss, es, i - 1, c);
    } else {
      CompletedGrows(ss[i - 1], es[i - 1], c);
      assert EngineRan(ss, es, i - 1, c);
    }
  }

  /** A buffer comes back DONE only if the engine, at an earlier step of the run and while that
      very submission was active, ran its program to the end. */
  lemma {:induction false} DoneOnlyAfterCapture(ss: seq<Sys>, es: seq<Event>, i: nat, k: nat)
    requires IsRun(ss, es) && i < |ss| && k < |ss[i].retired| && ss[i].retired[k].state == Done
    ensures exists j :: 0 <= j < i && EngineRan(ss, es, j, k)
  {
    hide Steps, Initial, EngineRan;
    RunInv(ss, es, i);
    CompletedWasRun(ss, es, i, k);
  }

  /** Buffers come back in the order in which they were handed in; none is lost or duplicated. */
  lemma {:induction false} FirstInFirstOut(ss: seq<Sys>, es: seq<Event>, i: nat)
    requires IsRun(ss, es) && i < |ss|
    ensures Dmas(ss[i].retired) <= ss[i].submitted
    ensures ss[i].submitted == Dmas(ss[i].retired) + Dmas(ss[i].active) + Dmas(ss[i].queued)
  {
    hide Steps, Initial;
    RunInv(ss, es, i);
  }

  /** What was handed in or given back stays so. */
  lemma {:induction false} HistoryGrows(s: Sys, e: Event)
    ensures s.submitted <= Next(s, e).submitted
    ensures s.retired <= Next(s, e).retired
    ensures !e.Submit? ==> Next(s, e).submitted == s.submitted
  {
    hide Decode, FindActive, CompatRun, Compatible;
  }

  // ---------------------------------------------------------------- no lost queue

  /** The branch of tw68_wakeup that deletes the timer is never taken while buffers are queued. */
  lemma {:induction false} WakeupNeverStrands(s: Sys)
    requires Inv(s) && Enabled(s, Interrupt) && s.active == []
    ensures s.queued == []
  {
  }

  /** Outside suspend, a waiting buffer always has the timeout ahead of it. */
  lemma {:induction false} TimeoutAhead(ss: seq<Sys>, es: seq<Event>, i: nat)
    requires IsRun(ss, es) && i < |ss| && !ss[i].suspended && Waiting(ss[i])
    ensures Enabled(ss[i], Expire)
  {
    hide Steps, Initial;
    RunInv(ss, es, i);
  }

  // ---------------------------------------------------------------- progress

  function Work(s: Sys): nat {
    2 * |s.queued| + |s.active|
  }

  /** An interrupt that wakes a buffer, or a timeout with buffers waiting. */
  ghost predicate Effective(s: Sys, e: Event) {
    (e.Interrupt? && s.active != []) || (e.Expire? && Waiting(s))
  }

  lemma {:induction false} WorkStep(s: Sys, e: Event)
    requires Enabled(s, e) && !e.Submit?
    ensures Work(Next(s, e)) + (if Effective(s, e) then 1 else 0) <= Work(s)
  {
    hide Decode, FindActive, Compatible;
  }

  /** The number of effective events among the first n. */
  ghost function EffectiveCount(ss: seq<Sys>, es: seq<Event>, n: nat): nat
    requires Steps(ss, es) && n <= |es|
  {
    if n == 0 then 0
    else EffectiveCount(ss, es, n - 1) + if Effective(ss[n - 1], es[n - 1]) then 1 else 0
  }

  ghost predicate NoSubmit(es: seq<Event>) {
    forall i :: 0 <= i < |es| ==> !es[i].Submit?
  }

  lemma {:induction false} WorkBound(ss: seq<Sys>, es: seq<Event>, n: nat)
    requires Steps(ss, es) && NoSubmit(es) && n <= |es|
    ensures Work(ss[n]) + EffectiveCount(ss, es, n) <= Work(ss[0])
    ensures ss[n].submitted == ss[0].submitted
    decreases n
  {
    hide Next, Effective, Work;
    if n > 0 {
      WorkBound(ss, es, n - 1);
      WorkStep(ss[n - 1], es[n - 1]);
      HistoryGrows(ss[n - 1], es[n - 1]);
    }
  }

  /** Progress: without new submissions, as soon as 2 * |queued| + |active| effective events have
      happened every submitted buffer has been given back, DONE or ERROR, in order. */
  lemma {:induction false} EverythingComesBack(ss: seq<Sys>, es: seq<Event>)
    requires Steps(ss, es) && Inv(ss[0]) && NoSubmit(es)
    requires EffectiveCount(ss, es, |es|) >= Work(ss[0])
    ensures var last := ss[|es|];
            && last.active == [] && last.queued == []
            && Dmas(last.retired) == ss[0].submitted
            && forall k :: 0 <= k < |last.retired| ==> last.retired[k].state in {Done, Error}
  {
    var last := ss[|es|];
    WorkBound(ss, es, |es|);
    StepsInv(ss, es, |es|);
    hide Steps, EffectiveCount;
    assert Dmas(last.active) == [] && Dmas(last.queued) == [];
    assert Fifo(last) && DoneMeansCompleted(last);
  }

  // ---------------------------------------------------------------- field counts

  function DoneCount(bs: seq<Buf>): nat {
    if bs == [] then 0 else DoneCount(bs[..|bs| - 1]) + if bs[|bs| - 1].state == Done then 1 else 0
  }

  lemma {:induction false} DoneCountConcat(a: seq<Buf>, b: seq<Buf>)
    requires forall i :: 0 <= i < |b| ==> b[i].state == Error
    ensures DoneCount(a + b) == DoneCount(a)
    decreases |b|
  {
    if b == [] {
      assert a + b == a;
    } else {
      assert (a + b)[..|a + b| - 1] == a + b[..|b| - 1];
      DoneCountConcat(a, b[..|b| - 1]);
    }
  }

  /** DONE buffers are numbered consecutively (as 32-bit numbers) from fc0. */
  ghost predicate Numbered(s: Sys, fc0: nat) {
    && s.fc == (fc0 + DoneCount(s.retired)) % WORD
    && forall k :: 0 <= k < |s.retired| && s.retired[k].state == Done ==>
         s.retired[k].fieldCount == (fc0 + DoneCount(s.retired[..k])) % WORD
  }

  lemma {:induction false} NumberedStep(s: Sys, e: Event, fc0: nat)
    requires Numbered(s, fc0)
    ensures Numbered(Next(s, e), fc0)
  {
    hide DoneCount, Numbered, Next;
    var t := Next(s, e);
    if e.Interrupt? && s.active != [] {
      HistoryOf(s, e);
      NumberedAppend(s, t, fc0);
    } else if e.Expire? {
      HistoryOf(s, e);
      DoneCountConcat(s.retired, Failed(s.active));
      NumberedFailed(s, t, Failed(s.active), fc0);
    } else {
      HistoryOf(s, e);
      NumberedSame(s, t, fc0);
    }
  }

  /** What each kind of step does to the retired buffers and the field count. */
  lemma {:induction false} HistoryOf(s: Sys, e: Event)
    ensures var t := Next(s, e);
            if e.Interrupt? && s.active != [] then
              t.retired == s.retired + [s.active[0].(state := Done, fieldCount := s.fc)] && t.fc == (s.fc + 1) % WORD
            else if e.Expire? then t.retired == s.retired + Failed(s.active) && t.fc == s.fc
            else t.retired == s.retired && t.fc == s.fc
  {
    hide Decode, FindActive, CompatRun, Compatible;
  }

  lemma {:induction false} NumberedSame(s: Sys, t: Sys, fc0: nat)
    requires Numbered(s, fc0) && t.retired == s.retired && t.fc == s.fc
    ensures Numbered(t, fc0)
  {
  }

  lemma {:induction false} DoneCountNext(a: seq<Buf>, b: seq<Buf>)
    requires |b| == |a| + 1 && b[..|a|] == a && b[|a|].state == Done
    ensures DoneCount(b) == DoneCount(a) + 1
  {
  }

  lemma {:induction false} NumberedAppend(s: Sys, t: Sys, fc0: nat)
    requires Numbered(s, fc0) && |t.retired| == |s.retired| + 1 && t.retired[..|s.retired|] == s.retired
    requires t.retired[|s.retired|].state == Done && t.retired[|s.retired|].fieldCount == s.fc
    requires t.fc == (s.fc + 1) % WORD
    ensures Numbered(t, fc0)
  {
    hide DoneCount;
    DoneCountNext(s.retired, t.retired);
    forall k | 0 <= k < |s.retired| ensures t.retired[k] == s.retired[k] && t.retired[..k] == s.retired[..k] {
      assert t.retired[k] == t.retired[..|s.retired|][k];
    }
  }

  lemma {:induction false} NumberedFailed(s: Sys, t: Sys, failed: seq<Buf>, fc0: nat)
    requires Numbered(s, fc0) && t.retired == s.retired + failed && t.fc == s.fc
    requires forall i :: 0 <= i < |failed| ==> failed[i].state == Error
    requires DoneCount(t.retired) == DoneCount(s.retired)
    ensures Numbered(t, fc0)
  {
    hide DoneCount;
    forall k | 0 <= k < |s.retired| ensures t.retired[..k] == s.retired[..k] {
    }
  }

  lemma {:induction false} RunNumbered(ss: seq<Sys>, es: seq<Event>, i: nat)
    requires IsRun(ss, es) && i < |ss|
    ensures Numbered(ss[i], ss[0].fc)
    decreases i
  {
    hide Next, Enabled;
    if i > 0 {
      RunNumbered(ss, es, i - 1);
      NumberedStep(ss[i - 1], es[i - 1], ss[0].fc);
    }
  }
}
