/** The scaler and the chain: start_dma programs the scaler for one buffer, and the buffers chained
    behind it are captured with the same setting. */
module QueueScaler {
  import opened Words
  import opened RiscCode
  import opened Formats
  import opened Norms
  import opened Negotiation
  import opened Scaler
  import opened QueueModel
  import opened QueueInvariant
  import opened QueueRuns

  // ---------------------------------------------------------------- what the scaler is given

  /** What tw68_set_scale computes for a geometry and field; None where it would divide by zero. */
  function Given(n: Norm, tw6800: bool, g: Geometry, field: VField): Option<Setup>
    requires BoundsOf(n).width >= 0 && BoundsOf(n).height >= 0
  {
    if g.width == 0 || FieldLines(g.height, field) == 0 then None
    else Some(SetupFor(n, tw6800, g.width, FieldLines(g.height, field)))
  }

  /** Half the lines need a larger factor. */
  lemma {:induction false} FactorsDiffer(active: nat, height: nat)
    requires 2 <= height && height / 2 <= active * 256
    ensures ScaleFactor(active, height) < ScaleFactor(active, height / 2)
  {
    hide ScaleFactor;
    var half := height / 2;
    FactorPositive(active, half);
    FactorBounds(active, half);
    FactorBounds(active, height);
    var q, r := ScaleFactor(active, half), ScaleFactor(active, height);
    if r >= q {
      Product(2 * half, height, q, r);
      assert half * (q + 1) == half * q + half;
      assert 2 * half * q == half * q + half * q;
      Product(half, half, 1, q);
    }
  }

  lemma {:induction false} FactorBounds(active: nat, wanted: nat)
    requires wanted > 0
    ensures wanted * ScaleFactor(active, wanted) <= active * 256 < wanted * (ScaleFactor(active, wanted) + 1)
  {
    DivMod(active * 256, wanted);
  }

  /** Of the field type the scaler is given nothing but whether it has both fields: two field types
      get the same setting exactly if they agree on that. */
  lemma {:induction false} SameSetupIff(n: Norm, tw6800: bool, g: Geometry, f1: VField, f2: VField)
    requires n in NormTable() && Preparable(n, g.width, g.height)
    requires BoundsOf(n).width >= 0 && BoundsOf(n).height >= 0
    ensures Given(n, tw6800, g, f1) == Given(n, tw6800, g, f2) <==> HasBoth(f1) == HasBoth(f2)
  {
    hide NormTable, ScaleFactor;
    TableGeometry(n);
    FactorsDiffer(BoundsOf(n).height, g.height);
  }

  /** In the registers the two settings also coincide for 18 lines in 625 line norms, where both
      factors lose their upper bits and become 0. */
  lemma {:induction false} SameRegistersIff(n: Norm, tw6800: bool, g: Geometry, f1: VField, f2: VField)
    requires n in NormTable() && Preparable(n, g.width, g.height)
    requires BoundsOf(n).width >= 0 && BoundsOf(n).height >= 0
    ensures var s1, s2 := Given(n, tw6800, g, f1), Given(n, tw6800, g, f2);
            && s1.Some? && s2.Some?
            && (Truncated(s1.value) == Truncated(s2.value)
                <==> HasBoth(f1) == HasBoth(f2) || (g.height == 18 && !n.is525))
  {
    hide NormTable, ScaleFactor;
    TableGeometry(n);
    RegisterFactors(BoundsOf(n).height, g.height);
  }

  lemma {:induction false} RegisterFactors(active: nat, height: nat)
    requires active in {288, 240, 239} && 16 <= height <= 578
    ensures ScaleFactor(active, height) % 0x1000 == ScaleFactor(active, height / 2) % 0x1000
            <==> active == 288 && height == 18
  {
    hide ScaleFactor;
    if height < 20 {
      SmallHeights(active, height, height / 2);
    } else {
      FactorsDiffer(active, height);
      FactorsClose(active, height, height / 2);
      DifferentRest(ScaleFactor(active, height), ScaleFactor(active, height / 2));
    }
  }

  lemma {:induction false} SmallHeights(active: nat, height: nat, half: nat)
    requires active in {288, 240, 239} && 16 <= height < 20 && half == height / 2
    ensures ScaleFactor(active, height) % 0x1000 == ScaleFactor(active, half) % 0x1000
            <==> active == 288 && height == 18
  {
    assert half == 8 || half == 9;
    assert height == 16 || height == 17 || height == 18 || height == 19;
  }

  lemma {:induction false} FactorsClose(active: nat, height: nat, half: nat)
    requires active <= 288 && height >= 20 && half == height / 2
    ensures ScaleFactor(active, half) < ScaleFactor(active, height) + 0x1000
  {
    hide ScaleFactor;
    var q, r := ScaleFactor(active, half), ScaleFactor(active, height);
    FactorBounds(active, half);
    FactorBounds(active, height);
    Expand(half, r);
    if r > 3686 {
      Product(20, height, 3687, r);
    } else if q >= r + 0x1000 {
      Product(half, half, r + 0x1000, q);
      Product(height, 2 * half + 1, r + 1, r + 1);
      Product(half + 1, half + 1, r, 3686);
    }
  }

  lemma {:induction false} Expand(half: nat, r: nat)
    ensures half * (r + 0x1000) == half * r + 0x1000 * half
    ensures (2 * half + 1) * (r + 1) == 2 * (half * r) + r + 2 * half + 1
    ensures (half + 1) * r == half * r + r
  {
  }

  lemma {:induction false} DifferentRest(r: nat, q: nat)
    requires r < q < r + 0x1000
    ensures r % 0x1000 != q % 0x1000
  {
  }

  // ---------------------------------------------------------------- the chain

  /** Every active buffer would get the setting that the scaler has. */
  ghost predicate ScalerAgrees(s: Sys, n: Norm, tw6800: bool)
    requires BoundsOf(n).width >= 0 && BoundsOf(n).height >= 0
  {
    forall i :: 0 <= i < |s.active| ==>
      Given(n, tw6800, s.active[i].geom, s.active[i].field) == Given(n, tw6800, s.hw.geom, s.hw.field)
  }

  /** tw68_check_video_fmt does not compare fields: a buffer joins a running chain with the scaler
      set up for it if and only if it has both fields exactly when the buffer has for which the engine
      was started. */
  lemma {:induction false} JoiningAgreesIff(s: Sys, b: Buf, n: Norm, tw6800: bool)
    requires n in NormTable() && BoundsOf(n).width >= 0 && BoundsOf(n).height >= 0
    requires Inv(s) && ScalerAgrees(s, n, tw6800) && s.active != [] && s.queued == []
    requires Compatible(s.active[|s.active| - 1], b) && Preparable(n, b.geom.width, b.geom.height)
    ensures ScalerAgrees(BufferQueue(s, b), n, tw6800) <==> HasBoth(b.field) == HasBoth(s.hw.field)
  {
    hide Given, NormTable;
    var t := BufferQueue(s, b);
    assert b.geom == s.hw.geom;
    SameSetupIff(n, tw6800, b.geom, b.field, s.hw.field);
    assert t.hw == s.hw && |t.active| == |s.active| + 1;
    var joined := t.active[|s.active|];
    assert joined.geom == b.geom && joined.field == b.field;
    forall i | 0 <= i < |s.active|
      ensures t.active[i].geom == s.active[i].geom && t.active[i].field == s.active[i].field
    {
    }
  }

  /** The same for the buffers that a requeue moves together. */
  lemma {:induction false} MovedAgreeIff(s: Sys, n: Norm, tw6800: bool)
    requires n in NormTable() && BoundsOf(n).width >= 0 && BoundsOf(n).height >= 0
    requires s.active == [] && s.queued != []
    requires Preparable(n, s.queued[0].geom.width, s.queued[0].geom.height)
    ensures ScalerAgrees(Requeue(s), n, tw6800)
            <==> forall i :: 0 <= i < CompatRun(s.queued) ==> HasBoth(s.queued[i].field) == HasBoth(s.queued[0].field)
  {
    hide Given, NormTable, CompatRun, DmacStart;
    var t := Requeue(s);
    assert |t.active| == CompatRun(s.queued);
    forall i | 0 <= i < |t.active|
      ensures t.active[i].geom == s.queued[0].geom && t.active[i].field == s.queued[i].field
      ensures Given(n, tw6800, t.active[i].geom, t.active[i].field) == Given(n, tw6800, t.hw.geom, t.hw.field)
              <==> HasBoth(s.queued[i].field) == HasBoth(s.queued[0].field)
    {
      CompatRunAgrees(s.queued, i);
      SameSetupIff(n, tw6800, s.queued[0].geom, s.queued[i].field, s.queued[0].field);
    }
  }

  // ---------------------------------------------------------------- runs

  /** All buffers agree on having both fields, and so does the device once one is active. */
  ghost predicate OneKind(s: Sys, both: bool) {
    && (forall i :: 0 <= i < |s.active| ==> HasBoth(s.active[i].field) == both)
    && (forall i :: 0 <= i < |s.queued| ==> HasBoth(s.queued[i].field) == both)
    && (s.active != [] ==> HasBoth(s.hw.field) == both)
  }

  lemma {:induction false} OneKindStep(s: Sys, e: Event, both: bool)
    requires OneKind(s, both) && (e.Submit? ==> HasBoth(e.buf.field) == both)
    ensures OneKind(Next(s, e), both)
  {
    hide OneKind, BufferQueue, Requeue, Complete;
    match e
    case Submit(b) => OneKindSubmit(s, b, both);
    case EngineDone(next) => OneKindComplete(s, next, both);
    case Interrupt => OneKindTail(s, Irq(s), both);
    case Expire =>
      var t := s.(timer := false, active := [], retired := s.retired + Failed(s.active));
      OneKindTail(s, t, both);
      OneKindRequeue(t, both);
    case StreamOn => OneKindRequeue(s, both);
    case Suspend => OneKindTail(s, SuspendDev(s), both);
    case Resume =>
      OneKindRequeue(s, both);
      OneKindTail(Requeue(s), ResumeDev(s), both);
  }

  lemma {:induction false} OneKindSubmit(s: Sys, b: Buf, both: bool)
    requires OneKind(s, both) && HasBoth(b.field) == both
    ensures OneKind(BufferQueue(s, b), both)
  {
    hide DmacStart, Compatible, HasBoth;
  }

  lemma {:induction false} OneKindComplete(s: Sys, next: u32, both: bool)
    requires OneKind(s, both)
    ensures OneKind(Complete(s, next), both)
  {
    hide Decode, FindActive, HasBoth;
  }

  lemma {:induction false} OneKindRequeue(s: Sys, both: bool)
    requires OneKind(s, both)
    ensures OneKind(Requeue(s), both)
  {
    hide DmacStart, CompatRun, HasBoth;
  }

  /** Losing active buffers does no harm. */
  lemma {:induction false} OneKindTail(s: Sys, t: Sys, both: bool)
    requires OneKind(s, both) && t.queued == s.queued && t.hw.field == s.hw.field
    requires t.active == s.active || t.active == [] || (s.active != [] && t.active == s.active[1..])
    ensures OneKind(t, both)
  {
    hide HasBoth;
  }

  lemma {:induction false} RunOneKind(ss: seq<Sys>, es: seq<Event>, i: nat, both: bool)
    requires IsRun(ss, es) && i < |ss|
    requires forall j :: 0 <= j < |es| && es[j].Submit? ==> HasBoth(es[j].buf.field) == both
    ensures OneKind(ss[i], both)
    decreases i
  {
    hide Next, Enabled, OneKind;
    if i > 0 {
      RunOneKind(ss, es, i - 1, both);
      OneKindStep(ss[i - 1], es[i - 1], both);
    } else {
      InitialOneKind(ss[0], both);
    }
  }

  lemma {:induction false} InitialOneKind(s: Sys, both: bool)
    requires Initial(s)
    ensures OneKind(s, both)
  {
  }

  /** As long as all submissions have both fields, or all have one, the scaler has the right setting
      for every active buffer in every reachable state, whatever their geometries. */
  lemma {:induction false} RunScalerAgrees(ss: seq<Sys>, es: seq<Event>, i: nat, both: bool, n: Norm, tw6800: bool)
    requires IsRun(ss, es) && i < |ss| && BoundsOf(n).width >= 0 && BoundsOf(n).height >= 0
    requires forall j :: 0 <= j < |es| && es[j].Submit? ==> HasBoth(es[j].buf.field) == both
    ensures ScalerAgrees(ss[i], n, tw6800)
  {
    hide Steps, Initial, SetupFor, HasBoth;
    RunInv(ss, es, i);
    RunOneKind(ss, es, i, both);
    forall k | 0 <= k < |ss[i].active|
      ensures FieldLines(ss[i].active[k].geom.height, ss[i].active[k].field)
              == FieldLines(ss[i].hw.geom.height, ss[i].hw.field)
    {
    }
  }

  // ---------------------------------------------------------------- a run where it goes wrong

  /** A TOP buffer and an INTERLACED one of the same size are submitted: both are active, and the
      second is captured with the factors of the first. */
  lemma {:induction false} MixedFieldsDisagree(s: Sys, top: Buf, frame: Buf, n: Norm, tw6800: bool)
    requires Initial(s) && n in NormTable() && BoundsOf(n).width >= 0 && BoundsOf(n).height >= 0
    requires top.geom == frame.geom && top.geom.width == 64 && top.geom.height == 64
    requires top.field == Top && frame.field == Interlaced
    requires top.dma != frame.dma && top.dma != s.stopper && frame.dma != s.stopper
    ensures var s1 := Next(s, Submit(top));
            var s2 := Next(s1, Submit(frame));
            && IsRun([s, s1, s2], [Submit(top), Submit(frame)])
            && |s2.active| == 2 && !ScalerAgrees(s2, n, tw6800)
  {
    hide Given, NormTable, DmacStart, Inv;
    var s1 := Next(s, Submit(top));
    InitialInv(s);
    StepKeeps(s, Submit(top));
    FirstSubmit(s, top, n, tw6800);
    JoinNext(s1, frame, n, tw6800);
  }

  lemma {:induction false} FirstSubmit(s: Sys, top: Buf, n: Norm, tw6800: bool)
    requires Initial(s) && BoundsOf(n).width >= 0 && BoundsOf(n).height >= 0 && top.dma != s.stopper
    ensures Enabled(s, Submit(top))
    ensures var s1 := Next(s, Submit(top));
            && |s1.active| == 1 && s1.queued == [] && s1.active[0].geom == top.geom == s1.hw.geom
            && s1.active[0].dma == top.dma
            && s1.hw.field == top.field && !s1.suspended && s1.stopper == s.stopper && ScalerAgrees(s1, n, tw6800)
  {
    hide Given, DmacStart;
  }

  lemma {:induction false} JoinNext(s: Sys, b: Buf, n: Norm, tw6800: bool)
    requires n in NormTable() && BoundsOf(n).width >= 0 && BoundsOf(n).height >= 0
    requires Inv(s) && ScalerAgrees(s, n, tw6800) && |s.active| == 1 && s.queued == [] && !s.suspended
    requires s.active[0].geom == b.geom && b.geom.width == 64 && b.geom.height == 64
    requires b.field == Interlaced && s.hw.field == Top && b.dma != s.stopper && s.active[0].dma != b.dma
    ensures Enabled(s, Submit(b))
    ensures |Next(s, Submit(b)).active| == 2 && !ScalerAgrees(Next(s, Submit(b)), n, tw6800)
  {
    hide Given, NormTable, Inv, ScalerAgrees;
    PreparableSquare(n);
    JoiningAgreesIff(s, b, n, tw6800);
  }

  lemma {:induction false} PreparableSquare(n: Norm)
    requires n in NormTable()
    ensures Preparable(n, 64, 64)
  {
    hide NormTable;
    TableGeometry(n);
  }
}
