/** The queue routines of the driver on their lists and buffers, each proved to do what the
    queue model says. */
module QueueDriver {
  import opened Words
  import opened RiscCode
  import opened Formats
  import opened QueueModel
  import opened QueueInvariant
  import opened Buffers
  import opened Norms
  import opened Scaler
  import opened Prepare

  /** The input asked for (`dev->input`) and the one that the hardware is switched to. */
  class InputSwitch {
    var wanted: nat
    var selected: nat

    constructor (input: nat)
      ensures wanted == selected == input
    {
      wanted, selected := input, input;
    }

    /** The hardware is switched to the input asked for. */
    method Select()
      modifies this`selected
      ensures selected == wanted
    {
      if selected != wanted {
        selected := wanted;
      }
    }
  }

  /** `struct tw68_dmaqueue` for video, together with the device registers it drives: `hw`, the scaler's
      `regs` and the input switch `mux`.  The ghost fields record the history that the model's invariant
      speaks about. */
  class VideoQueue {
    var active: seq<Buffer>
    var queued: seq<Buffer>
    var timer: bool
    var stopper: u32
    var hw: Device
    var suspended: bool
    var fieldCount: u32
    const dev: Decoder
    const regs: Registers
    const tw6800: bool
    const mux: InputSwitch
    ghost var submitted: seq<u32>
    ghost var retired: seq<Buf>
    ghost var completed: seq<nat>
    ghost var ran: nat
    ghost var woken: nat

    /** The queue's part of tw68_video_init1; `hw` is the device as reset leaves it. */
    constructor (stopper: u32, hw: Device, fieldCount: u32, dev: Decoder, regs: Registers, tw6800: bool,
                 mux: InputSwitch)
      requires !hw.running && dev.Valid()
      ensures Valid() && Initial(Abs()) && Abs().stopper == stopper
      ensures this.dev == dev && this.regs == regs && this.tw6800 == tw6800
      ensures this.mux == mux && this.hw == hw && this.fieldCount == fieldCount
    {
      this.dev, this.regs, this.tw6800 := dev, regs, tw6800;
      this.mux := mux;
      active, queued, timer, suspended := [], [], false, false;
      this.stopper, this.hw, this.fieldCount := stopper, hw, fieldCount;
      submitted, retired, completed, ran, woken := [], [], [], 0, 0;
    }

    /** The lists hold distinct buffers that have programs. */
    ghost predicate Valid()
      reads this`active, this`queued, dev
      reads active`fmt, active`width, active`height, active`field, active`jmp, active`cpu
      reads queued`fmt, queued`width, queued`height, queued`field, queued`jmp, queued`cpu
    {
      && dev.Valid()
      && Separated(active) && Separated(queued)
      && forall i, j :: 0 <= i < |active| && 0 <= j < |queued| ==> active[i] != queued[j]
    }

    ghost function Abs(): Sys
      requires Valid()
      reads this, dev, active, queued
    {
      Sys(Values(active), Values(queued), timer, hw, suspended, stopper, fieldCount,
          submitted, retired, completed, ran, woken)
    }

    /** The buffer whose program a newly linked buffer follows. */
    ghost function LastActive(): set<Buffer>
      reads this
    {
      if active == [] then {} else {active[|active| - 1]}
    }

    /** tw68_check_video_fmt. */
    method CheckVideoFmt(prev: Buffer, buf: Buffer) returns (same: bool)
      requires prev.Programmed() && buf.Programmed()
      ensures same <==> Compatible(prev.Value(), buf.Value())
    {
      same := prev.width == buf.width && prev.height == buf.height && prev.fmt == buf.fmt;
    }

    /** The scaler's registers hold what tw68_set_scale computes for b. */
    ghost predicate ScalerSetFor(b: Buffer)
      reads dev, regs, b`width, b`height, b`field
    {
      && dev.Valid() && BoundsOf(dev.norm).width >= 0 && BoundsOf(dev.norm).height >= 0
      && b.width > 0 && FieldLines(b.height, b.field) > 0
      && regs.Read() == Truncated(SetupFor(dev.norm, tw6800, b.width, FieldLines(b.height, b.field)))
      && regs.Read().hdelay == ((if tw6800 then dev.norm.hDelay0 else dev.norm.hDelay) + dev.bounds.left) % 0x400
      && regs.Read().vdelay == (dev.norm.vDelay + dev.bounds.top - dev.defrect.top) % 0x400
    }

    /** The call of tw68_set_scale. */
    method ProgramScaler(buf: Buffer)
      requires dev.Valid() && buf.Programmed()
      modifies regs
      ensures ScalerSetFor(buf)
      ensures regs.Read().hdelay == ((if tw6800 then dev.norm.hDelay0 else dev.norm.hDelay) + dev.bounds.left) % 0x400
      ensures regs.Read().vdelay == (dev.norm.vDelay + dev.bounds.top - dev.defrect.top) % 0x400
    {
      hide NormTable, SetupFor, Truncated;
      TableGeometry(dev.norm);
      regs.SetScale(dev, tw6800, buf.width, buf.height, buf.field);
    }

    /** tw68_video_start_dma. */
    method StartDma(buf: Buffer)
      requires dev.Valid() && buf.Programmed()
      modifies this`hw, this`ran, this`woken, mux`selected, regs
      ensures mux.selected == mux.wanted && ScalerSetFor(buf)
      ensures regs.Read().hdelay == ((if tw6800 then dev.norm.hDelay0 else dev.norm.hDelay) + dev.bounds.left) % 0x400
      ensures regs.Read().vdelay == (dev.norm.vDelay + dev.bounds.top - dev.defrect.top) % 0x400
      ensures hw == Device(buf.dma, true, false, Geometry(buf.width, buf.height, buf.fmt.value), buf.field,
                           DmacStart(old(hw.dmac), buf.fmt.value))
      ensures ran == 0 && woken == 0
    {
      hide DmacStart, ScalerSetFor, Decoder.Valid;
      mux.Select();
      ProgramScaler(buf);
      hw := hw.(running := false);
      hw := hw.(geom := Geometry(buf.width, buf.height, buf.fmt.value), field := buf.field);
      hw := hw.(pc := buf.dma);
      hw := hw.(pending := false);
      hw := hw.(dmac := DmacStart(hw.dmac, buf.fmt.value), running := true);
      ran, woken := 0, 0;
    }

    /** buffer_activate. */
    method BufferActivate(buf: Buffer)
      modifies this`timer, mux`selected, buf`state
      ensures timer && buf.state == Active && mux.selected == mux.wanted
    {
      mux.Select();
      buf.state := Active;
      timer := true;
    }

    /** Appends a jump to the stopper to a program. */
    method AppendJump(buf: Buffer)
      requires buf.Programmed()
      modifies buf`cpu
      ensures buf.Programmed() && buf.Value() == old(buf.Value()).(jmp0 := JUMP_WORD, jmp1 := stopper)
    {
      JumpOr();
      buf.cpu := buf.cpu[buf.jmp := Or32(RISC_JUMP, RISC_INT_BIT)];
      buf.cpu := buf.cpu[buf.jmp + 1 := stopper];
      assert buf.cpu[..buf.jmp] == old(buf.cpu[..buf.jmp]);
    }

    /** `prev->risc.jmp[1] = target`. */
    method LinkTo(prev: Buffer, target: u32)
      requires prev.Programmed()
      modifies prev`cpu
      ensures prev.Programmed() && prev.Value() == old(prev.Value()).(jmp1 := target)
    {
      prev.cpu := prev.cpu[prev.jmp + 1 := target];
      assert prev.cpu[..prev.jmp] == old(prev.cpu[..prev.jmp]);
    }

    /** `buf` has a program and is in neither list. */
    ghost predicate Outside(buf: Buffer)
      reads this, buf
    {
      && buf.Programmed()
      && (forall i :: 0 <= i < |active| ==> active[i] != buf)
      && (forall i :: 0 <= i < |queued| ==> queued[i] != buf)
    }

    /** The buffer that is handed in. */
    ghost function Ready(buf: Buffer): Buf
      requires Outside(buf)
      reads this, buf
    {
      buf.Value()
    }

    /** buf is behind the others in one of the lists. */
    ghost predicate Added(active0: seq<Buffer>, queued0: seq<Buffer>, buf: Buffer)
      reads this
    {
      (active == active0 + [buf] && queued == queued0) || (active == active0 && queued == queued0 + [buf])
    }

    /** list_add_tail to the queued list. */
    method AddQueued(buf: Buffer)
      requires Valid() && Outside(buf)
      modifies this`queued, buf`state
      ensures Valid() && Abs() == PlacedQueued(old(Abs()), old(buf.Value()))
      ensures queued == old(queued) + [buf]
    {
      hide Decoder.Valid, ScalerSetFor;
      buf.state := Queued;
      assert Values(active) == old(Values(active)) && Values(queued) == old(Values(queued));
      ValuesAppend(queued, buf);
      queued := queued + [buf];
    }

    /** list_add_tail to the active list. */
    method AddActive(buf: Buffer)
      requires Valid() && Outside(buf)
      modifies this`active
      ensures Valid() && Abs() == old(Abs()).(active := old(Values(active)) + [buf.Value()])
      ensures active == old(active) + [buf]
    {
      hide Decoder.Valid, ScalerSetFor;
      ValuesAppend(active, buf);
      active := active + [buf];
    }

    method Activate(buf: Buffer)
      requires Valid() && Outside(buf)
      modifies this`timer, mux`selected, buf`state
      ensures Valid() && Outside(buf) && Abs() == old(Abs()).(timer := true)
      ensures buf.Value() == old(buf.Value()).(state := Active) && mux.selected == mux.wanted
    {
      hide Decoder.Valid, ScalerSetFor;
      BufferActivate(buf);
      assert Values(active) == old(Values(active)) && Values(queued) == old(Values(queued));
    }

    /** `prev->risc.jmp[1] = target` for the last active buffer. */
    method LinkLastActive(buf: Buffer)
      requires Valid() && Outside(buf) && active != []
      modifies LastActive()`cpu
      ensures Valid() && Abs() == old(Abs()).(active := LinkLast(old(Values(active)), buf.dma))
      ensures Outside(buf) && buf.Value() == old(buf.Value())
    {
      hide Decoder.Valid, ScalerSetFor;
      LinkTo(active[|active| - 1], buf.dma);
      assert Values(active) == LinkLast(old(Values(active)), buf.dma);
      assert Values(queued) == old(Values(queued));
    }

    /** The first active buffer: start the engine on it. */
    method AddFirst(buf: Buffer)
      requires Valid() && Outside(buf) && active == []
      modifies this`active, this`timer, this`hw, this`ran, this`woken, mux`selected, regs, buf`state
      ensures Valid() && Abs() == PlacedFirst(old(Abs()), old(buf.Value()))
      ensures active == [buf] && ScalerSetFor(buf) && mux.selected == mux.wanted
    {
      hide Decoder.Valid, ScalerSetFor, DmacStart, Separated, Values;
      StartDma(buf);
      Activate(buf);
      AddActive(buf);
    }

    /** A further active buffer: link the last program to it. */
    method AddLinked(buf: Buffer)
      requires Valid() && Outside(buf) && active != []
      modifies this`active, this`timer, mux`selected, buf`state, LastActive()`cpu
      ensures Valid() && Abs() == PlacedLinked(old(Abs()), old(buf.Value()))
      ensures active == old(active) + [buf] && mux.selected == mux.wanted
    {
      hide Decoder.Valid, ScalerSetFor, LinkLast, Separated, Values;
      LinkLastActive(buf);
      Activate(buf);
      AddActive(buf);
    }

    /** The part of tw68_buffer_queue before the lists are touched. */
    method Accept(buf: Buffer)
      requires Valid() && Outside(buf)
      modifies this`submitted, buf`cpu
      ensures Valid() && Outside(buf)
      ensures Abs() == old(Abs()).(submitted := old(submitted) + [buf.dma])
      ensures buf.Value() == WithStopper(Abs(), old(buf.Value()))
    {
      hide Decoder.Valid, ScalerSetFor;
      AppendJump(buf);
      submitted := submitted + [buf.dma];
      assert Values(active) == old(Values(active)) && Values(queued) == old(Values(queued));
    }

    /** The choice of the list. */
    method Place(buf: Buffer)
      requires Valid() && Outside(buf)
      modifies this`active, this`queued, this`timer, this`hw, this`ran, this`woken, mux`selected, regs, buf`state,
        LastActive()`cpu
      ensures Valid() && Abs() == QueueModel.Place(old(Abs()), old(buf.Value()))
      ensures Added(old(active), old(queued), buf)
      ensures mux.selected == if |active| > |old(active)| then mux.wanted else old(mux.selected)
      ensures if old(active == [] && queued == []) then ScalerSetFor(buf) else regs.Read() == old(regs.Read())
    {
      hide Decoder.Valid, ScalerSetFor, Separated, Compatible, QueueModel.Place, LinkLast, QueueModel.StartDma, Outside;
      PlaceCases(Abs(), Ready(buf));
      if queued != [] {
        AddQueued(buf);
      } else if active == [] {
        AddFirst(buf);
      } else {
        var same := CompatibleWithLast(buf);
        if same {
          AddLinked(buf);
        } else {
          AddQueued(buf);
        }
      }
    }

    /** tw68_buffer_queue. */
    method BufferQueue(buf: Buffer)
      requires Valid() && Outside(buf)
      modifies this, regs, mux`selected, buf`cpu, buf`state, LastActive()`cpu
      ensures Valid() && Abs() == QueueModel.BufferQueue(old(Abs()), old(buf.Value()))
      ensures old(Inv(Abs()) && Enabled(Abs(), Submit(buf.Value()))) ==> Inv(Abs())
      ensures if old(active == [] && queued == []) then ScalerSetFor(buf) else regs.Read() == old(regs.Read())
      ensures active + queued == old(active + queued) + [buf]
      ensures Kept(buf) && AllKept(old(active + queued))
      ensures mux.selected == if |active| > |old(active)| then mux.wanted else old(mux.selected)
    {
      hide Inv, Decoder.Valid, ScalerSetFor, Separated, Outside, DmacStart, Compatible, LinkLast, QueueModel.Place, Valid,
        Kept, Added;
      SubmitInv(Abs(), Ready(buf));
      Accept(buf);
      Place(buf);
      SubmitKeepsPrograms(buf);
    }

    /** The lists, one behind the other, in the old state and now. */
    twostate lemma CodesKept(l: seq<Buffer>)
      requires old(Valid()) && Valid() && l == old(active + queued)
      requires |l| <= |active + queued| && (active + queued)[..|l|] == l
      requires forall i :: 0 <= i < |l| ==> CodeOf(Abs(), i) == CodeOf(old(Abs()), i)
      ensures AllKept(l)
    {
      forall i | 0 <= i < |l| ensures Kept(l[i]) {
        assert l[i] == (active + queued)[i];
        CodeIs(i);
        assert old(l[i].Programmed()) && old(l[i].Value()).code == CodeOf(old(Abs()), i);
      }
    }

    lemma {:induction false} CodeIs(i: nat)
      requires Valid() && i < |active + queued|
      ensures (active + queued)[i].Programmed() && (active + queued)[i].Value().code == CodeOf(Abs(), i)
    {
    }

    twostate lemma SubmitKeepsPrograms(buf: Buffer)
      requires old(Valid() && Outside(buf)) && Valid() && Added(old(active), old(queued), buf)
      requires Abs() == QueueModel.BufferQueue(old(Abs()), old(Ready(buf)))
      ensures active + queued == old(active + queued) + [buf]
      ensures Kept(buf) && AllKept(old(active + queued))
    {
      hide QueueModel.BufferQueue, Decoder.Valid;
      SubmitCodes(old(Abs()), old(Ready(buf)));
      assert active + queued == old(active + queued) + [buf];
      CodesKept(old(active + queued));
      CodeIs(|old(active + queued)|);
    }

    twostate lemma RequeueKeepsPrograms()
      requires old(Valid()) && Valid() && active + queued == old(active + queued)
      requires Abs() == QueueModel.Requeue(old(Abs()))
      ensures AllKept(old(active + queued))
    {
      hide QueueModel.Requeue, Decoder.Valid;
      RequeueCodes(old(Abs()));
      CodesKept(old(active + queued));
    }

    method CompatibleWithLast(buf: Buffer) returns (same: bool)
      requires Valid() && Outside(buf) && active != []
      ensures same <==> Compatible(Abs().active[|active| - 1], buf.Value())
    {
      hide Decoder.Valid, ScalerSetFor;
      same := CheckVideoFmt(active[|active| - 1], buf);
    }

    /** list_del of the first queued buffer. */
    method TakeQueued() returns (buf: Buffer)
      requires Valid() && queued != []
      modifies this`queued
      ensures Valid() && Outside(buf) && Abs() == old(Abs()).(queued := old(Values(queued))[1..])
      ensures buf == old(queued[0]) && buf.Value() == old(Values(queued))[0] && queued == old(queued)[1..]
    {
      hide Decoder.Valid, ScalerSetFor;
      ValuesSplit(queued, 1);
      buf := queued[0];
      queued := queued[1..];
    }

    /** list_del of the first active buffer. */
    method TakeActive() returns (buf: Buffer)
      requires Valid() && active != []
      modifies this`active
      ensures Valid() && Outside(buf) && Abs() == old(Abs()).(active := old(Values(active))[1..])
      ensures buf == old(active[0]) && buf.Value() == old(Values(active))[0] && active == old(active)[1..]
    {
      hide Decoder.Valid, ScalerSetFor;
      ValuesSplit(active, 1);
      buf := active[0];
      active := active[1..];
    }

    /** tw68_buffer_requeue.  Moving a buffer from one list to the other is list_del and
        list_add_tail. */
    method BufferRequeue()
      requires Valid()
      modifies this, regs, mux`selected, queued`cpu, queued`state
      ensures Valid() && Abs() == QueueModel.Requeue(old(Abs()))
      ensures old(Inv(Abs()) && Enabled(Abs(), StreamOn)) ==> Inv(Abs())
      ensures active != [] ==> ScalerSetFor(active[0])
      ensures active + queued == old(active + queued)
      ensures AllKept(old(active + queued))
      ensures mux.selected == if active != [] then mux.wanted else old(mux.selected)
      ensures active == [] ==> regs.Read() == old(regs.Read())
    {
      hide Inv, Decoder.Valid, ScalerSetFor, Separated, Values, CompatRun, Chained, Compatible, LinkLast, DmacStart, Kept;
      StreamOnInv(Abs());
      if active != [] {
        Restart();
      } else {
        MoveQueued();
        assert old(active) + old(queued) == old(queued);
      }
      RequeueKeepsPrograms();
    }

    method Restart()
      requires Valid() && active != []
      modifies this`hw, this`ran, this`woken, mux`selected, this`timer, regs
      ensures hw == QueueModel.StartDma(old(Abs()), old(Values(active))[0]).hw && ran == 0 && woken == 0 && timer
      ensures ScalerSetFor(active[0]) && mux.selected == mux.wanted
    {
      hide Decoder.Valid, ScalerSetFor, DmacStart;
      StartDma(active[0]);
      timer := true;
    }

    /** One round of the requeue loop: the first queued buffer moves if it is compatible with the
        last active one, or if there is none. */
    method MoveNext(ghost l: seq<Buffer>) returns (moved: bool)
      requires Valid() && queued != [] && Lists(l)
      modifies this, regs, mux`selected, LastActive()`cpu, FirstQueued()`state
      ensures Valid()
      ensures moved == MayMove(old(Abs()))
      ensures moved ==> Abs() == MovedOne(old(Abs()))
      ensures moved ==> active == old(active) + [old(queued[0])] && queued == old(queued)[1..]
      ensures !moved ==> Abs() == old(Abs()) && active == old(active) && queued == old(queued)
      ensures mux.selected == if moved then mux.wanted else old(mux.selected)
      ensures Lists(l)
      ensures old(active) == [] ==> moved && ScalerSetFor(active[0])
      ensures old(active) != [] && old(ScalerSetFor(active[0])) ==> ScalerSetFor(active[0])
    {
      hide Decoder.Valid, ScalerSetFor, Separated, LinkLast, QueueModel.StartDma, Compatible, Values,
        PlacedFirst, PlacedLinked;
      moved := true;
      if active != [] {
        moved := FollowsLast();
      }
      if moved {
        ghost var a, b := active, queued;
        MoveFront();
        MoveOver(a, b);
      }
    }

    method MoveFront()
      requires Valid() && queued != []
      modifies this, regs, mux`selected, LastActive()`cpu, FirstQueued()`state
      ensures Valid() && Abs() == MovedOne(old(Abs()))
      ensures active == old(active) + [old(queued[0])] && queued == old(queued)[1..] && mux.selected == mux.wanted
      ensures old(active) == [] ==> ScalerSetFor(active[0])
      ensures old(active) != [] && old(ScalerSetFor(active[0])) ==> ScalerSetFor(active[0])
    {
      hide Decoder.Valid, ScalerSetFor, Separated, LinkLast, QueueModel.StartDma, Compatible, Values,
        PlacedFirst, PlacedLinked;
      var first := active == [];
      var buf := TakeQueued();
      if first {
        AddFirst(buf);
      } else {
        AddLinked(buf);
      }
    }

    method FollowsLast() returns (same: bool)
      requires Valid() && active != [] && queued != []
      ensures same <==> Compatible(Abs().active[|active| - 1], Abs().queued[0])
    {
      hide Decoder.Valid, ScalerSetFor;
      var prev := active[|active| - 1];
      same := CheckVideoFmt(prev, queued[0]);
      same := same && prev.fmt == queued[0].fmt;
    }

    ghost function FirstActive(): set<Buffer>
      reads this
    {
      if active == [] then {} else {active[0]}
    }

    ghost function FirstQueued(): set<Buffer>
      reads this
    {
      if queued == [] then {} else {queued[0]}
    }

    /** The lists, one behind the other. */
    ghost predicate Lists(l: seq<Buffer>)
      reads this`active, this`queued
    {
      active + queued == l
    }

    lemma {:induction false} ListsHold(l: seq<Buffer>)
      requires Lists(l)
      ensures forall b :: b in LastActive() ==> b in l
      ensures forall b :: b in FirstQueued() ==> b in l
      ensures |l| == |active| + |queued|
    {
      assert active != [] ==> l[|active| - 1] == active[|active| - 1];
      assert queued != [] ==> l[|active|] == queued[0];
    }

    lemma {:induction false} NothingMoved()
      requires active == []
      ensures Lists(queued)
    {
    }

    method MoveQueued()
      requires Valid() && active == []
      modifies this, regs, mux`selected, queued`cpu, queued`state
      ensures Valid() && Abs() == Moved(old(Abs()), CompatRun(old(Values(queued))))
      ensures active != [] ==> ScalerSetFor(active[0])
      ensures Lists(old(queued))
      ensures mux.selected == if active != [] then mux.wanted else old(mux.selected)
      ensures active == [] ==> regs.Read() == old(regs.Read())
    {
      hide Valid, Decoder.Valid, ScalerSetFor, Separated, Values, CompatRun, Moved, MovedOne, MayMove, Compatible,
        QueueModel.StartDma, Lists;
      ghost var s := Abs();
      ghost var n := 0;
      var moved := true;
      MovedNone(s);
      assert Lists(queued) by {
        NothingMoved();
      }
      while moved && queued != []
        invariant Valid() && |s.queued| == n + |queued| && n <= CompatRun(s.queued)
        invariant Abs() == Moved(s, n)
        invariant !moved ==> n == CompatRun(s.queued)
        invariant active != [] ==> ScalerSetFor(active[0])
        invariant mux.selected == if active != [] then mux.wanted else old(mux.selected)
        invariant active == [] ==> moved && regs.Read() == old(regs.Read())
        invariant Lists(old(queued))
        decreases moved, |queued|
      {
        MovedNext(s, n);
        ListsHold(old(queued));
        moved := MoveNext(old(queued));
        n := if moved then n + 1 else n;
      }
    }

    /** tw68_wakeup.  The first active buffer itself is DONE afterwards. */
    method Wakeup()
      requires Valid()
      modifies this, active`state, active`fieldCount
      ensures Valid() && Abs() == QueueModel.Wakeup(old(Abs())) && hw == old(hw)
      ensures old(active) != [] ==>
                var buf := old(active[0]);
                Outside(buf) && buf.Value() == old(buf.Value()).(state := Done, fieldCount := old(fieldCount))
    {
      hide Decoder.Valid, ScalerSetFor, Separated, Values;
      if active == [] {
        timer := false;
      } else {
        var buf := TakeActive();
        MarkDone(buf);
        CountDone(buf);
      }
    }

    method CountDone(buf: Buffer)
      requires Valid() && Outside(buf)
      modifies this`fieldCount, this`retired, this`woken, this`timer
      ensures Valid()
      ensures Abs() == old(Abs()).(retired := old(retired) + [buf.Value()], fc := (old(fieldCount) + 1) % WORD,
                                   timer := true, woken := old(woken) + 1)
    {
      hide Decoder.Valid, ScalerSetFor;
      fieldCount := (fieldCount + 1) % WORD;
      timer := true;
      retired, woken := retired + [buf.Value()], woken + 1;
    }

    method MarkDone(buf: Buffer)
      requires Valid() && Outside(buf)
      modifies buf`fieldCount, buf`state
      ensures Valid() && Outside(buf) && Abs() == old(Abs())
      ensures buf.Value() == old(buf.Value()).(state := Done, fieldCount := fieldCount)
    {
      hide Decoder.Valid, ScalerSetFor;
      buf.fieldCount := fieldCount;
      buf.state := Done;
      assert Values(active) == old(Values(active)) && Values(queued) == old(Values(queued));
    }

    /** tw68_irq_video_done, with the DMAPI and FFOF bits of the status it is called with.  A FIFO
        overflow switches the FIFO off and on again. */
    method IrqVideoDone(dmapi: bool, ffof: bool)
      requires Valid()
      modifies this, active`state, active`fieldCount
      ensures Valid() && Abs() == if dmapi then QueueModel.Irq(old(Abs())) else old(Abs())
      ensures dmapi && old(Inv(Abs()) && Enabled(Abs(), Interrupt)) ==> Inv(Abs())
      ensures dmapi ==> !hw.pending
    {
      hide Decoder.Valid, ScalerSetFor, QueueModel.Wakeup, Inv, Or32, And;
      if dmapi {
        OtherInv(Abs());
        hw := hw.(pending := false);
        Wakeup();
      }
      if ffof {
        ToggleFifo();
      }
    }

    method ToggleFifo()
      modifies this`hw
      ensures hw == old(hw)
    {
      hide Or32, And;
      FifoOffAndOn(hw.dmac);
      var fifo := And(hw.dmac, FIFO_EN);
      hw := hw.(dmac := FifoOff(hw.dmac));
      hw := hw.(dmac := Or32(hw.dmac, fifo));
    }

    method MarkFailed(buf: Buffer)
      requires Valid() && Outside(buf)
      modifies this`retired, buf`state
      ensures Valid() && buf.state == Error
      ensures Abs() == old(Abs()).(retired := old(retired) + [old(buf.Value()).(state := Error)])
    {
      hide Decoder.Valid, ScalerSetFor;
      buf.state := Error;
      retired := retired + [buf.Value()];
      assert Values(active) == old(Values(active)) && Values(queued) == old(Values(queued));
    }

    /** tw68_buffer_timeout.  All active buffers fail, and the queue starts again. */
    method BufferTimeout()
      requires Valid()
      modifies this, regs, mux`selected, active`state, queued`cpu, queued`state
      ensures Valid() && Abs() == QueueModel.Timeout(old(Abs()))
      ensures old(Inv(Abs()) && Enabled(Abs(), Expire)) ==> Inv(Abs())
      ensures active != [] ==> ScalerSetFor(active[0])
      ensures active + queued == old(queued) && AllKept(old(queued))
      ensures mux.selected == if active != [] then mux.wanted else old(mux.selected)
      ensures active == [] ==> regs.Read() == old(regs.Read())
      ensures forall i :: 0 <= i < |old(active)| ==> old(active)[i].state == Error
    {
      hide Inv, Decoder.Valid, ScalerSetFor, Separated, Values, QueueModel.Requeue, QueueModel.Timeout, AfterFailures;
      OtherInv(Abs());
      AllFailed(Abs());
      timer := false;
      FailActive();
      BufferRequeue();
    }

    method FailActive()
      requires Valid()
      modifies this`active, this`retired, active`state
      ensures Valid() && active == []
      ensures Abs() == AfterFailures(old(Abs()), |old(active)|)
      ensures forall i :: 0 <= i < |old(active)| ==> old(active)[i].state == Error
    {
      hide Decoder.Valid, ScalerSetFor, Values, Separated, AfterFailures, FailedOne, Outside;
      ghost var s := Abs();
      ghost var n := 0;
      NoneFailed(s);
      while active != []
        invariant n <= |old(active)| && active == old(active)[n..]
        invariant Valid() && Abs() == AfterFailures(s, n)
        invariant forall i :: 0 <= i < n ==> old(active)[i].state == Error
        decreases |active|
      {
        OneFailed(s, n);
        FailFirst();
        n := n + 1;
      }
    }

    method FailFirst()
      requires Valid() && active != []
      modifies this`active, this`retired, FirstActive()`state
      ensures Valid() && Abs() == FailedOne(old(Abs()))
      ensures active == old(active)[1..] && old(active[0]).state == Error
    {
      hide Decoder.Valid, ScalerSetFor, Values, Separated;
      var buf := TakeActive();
      MarkFailed(buf);
    }

    /** The queue's part of tw68_suspend. */
    method SuspendQueue()
      requires Valid()
      modifies this
      ensures Valid() && Abs() == QueueModel.SuspendDev(old(Abs()))
      ensures old(Inv(Abs()) && Enabled(Abs(), Event.Suspend)) ==> Inv(Abs())
      ensures suspended && !timer && !hw.running && hw.dmac % 4 == 0 && hw.dmac / 4 == old(hw.dmac) / 4
    {
      hide Decoder.Valid, ScalerSetFor, Inv;
      OtherInv(Abs());
      hw := hw.(running := false, dmac := DmacStop(hw.dmac));
      suspended := true;
      timer := false;
    }

    /** The queue's part of tw68_resume. */
    method ResumeQueue()
      requires Valid()
      modifies this, regs, mux`selected, queued`cpu, queued`state
      ensures Valid() && Abs() == QueueModel.ResumeDev(old(Abs()))
      ensures old(Inv(Abs()) && Enabled(Abs(), Event.Resume)) ==> Inv(Abs())
      ensures !suspended
      ensures mux.selected == if active != [] then mux.wanted else old(mux.selected)
      ensures active == [] ==> regs.Read() == old(regs.Read())
      ensures active != [] ==> ScalerSetFor(active[0])
      ensures active + queued == old(active + queued)
      ensures AllKept(old(active + queued))
    {
      hide Decoder.Valid, ScalerSetFor, QueueModel.Requeue, Inv;
      OtherInv(Abs());
      BufferRequeue();
      suspended := false;
    }

    /** What the hardware does between the driver's calls: the engine reaches the end of the program it
        is in and follows the jump words there. */
    method EngineDone(next: u32)
      requires Valid()
      modifies this`hw, this`completed, this`ran
      ensures Valid() && Abs() == QueueModel.Complete(old(Abs()), next)
      ensures old(Inv(Abs()) && Enabled(Abs(), Event.EngineDone(next))) ==> Inv(Abs())
    {
      hide Decoder.Valid, ScalerSetFor, Decode, Inv, FindActive;
      EngineInv(Abs(), next);
      var i := FindProgram();
      if i == |active| {
        hw := hw.(pc := next, pending := true);
      } else {
        FollowJump(i, next);
      }
    }

    method FollowJump(i: nat, next: u32)
      requires Valid() && FindActive(Values(active), hw.pc) == Some(i)
      modifies this`hw, this`completed, this`ran
      ensures Valid() && Abs() == QueueModel.Complete(old(Abs()), next)
    {
      hide Decoder.Valid, ScalerSetFor, Decode, FindActive, QueueModel.Complete, Separated, Values;
      FollowIs(Abs(), i, next);
      var d := JumpBehind(i);
      if d.None? || !d.value.op.Jump? {
        SetPc(next);
      } else {
        RanProgram(i, d.value.addr, d.value.irq == 1);
      }
    }

    method SetPc(pc: u32)
      requires Valid()
      modifies this`hw
      ensures Valid() && Abs() == old(Abs()).(hw := old(hw).(pc := pc))
    {
      hide Decoder.Valid, ScalerSetFor, Separated, Values;
      hw := hw.(pc := pc);
    }

    method RanProgram(i: nat, pc: u32, irq: bool)
      requires Valid()
      modifies this`hw, this`completed, this`ran
      ensures Valid() && Abs() == old(Abs()).(hw := old(hw).(pc := pc, pending := old(hw.pending) || irq),
                                              completed := old(completed) + [|retired| + i], ran := old(ran) + 1)
    {
      hide Decoder.Valid, ScalerSetFor, Separated, Values;
      hw := hw.(pc := pc, pending := hw.pending || irq);
      completed, ran := completed + [|retired| + i], ran + 1;
    }

    method JumpBehind(i: nat) returns (d: Option<Instr>)
      requires Valid() && i < |active|
      ensures d == Decode(Values(active)[i].jmp0, Values(active)[i].jmp1)
    {
      hide Decoder.Valid, ScalerSetFor, Decode;
      d := Decode(active[i].cpu[active[i].jmp], active[i].cpu[active[i].jmp + 1]);
    }

    /** The active buffer whose program the engine is in. */
    method FindProgram() returns (i: nat)
      requires Valid()
      ensures i <= |active|
      ensures FindActive(Values(active), hw.pc) == if i < |active| then Some(i) else None
    {
      hide Decoder.Valid, FindActive;
      i := 0;
      while i < |active| && active[i].dma != hw.pc
        invariant i <= |active| && forall j :: 0 <= j < i ==> Values(active)[j].dma != hw.pc
      {
        i := i + 1;
      }
      FirstFound(Values(active), hw.pc, i);
    }

    /** A buffer outside the lists may be submitted, in the model's sense, exactly if the driver is not
        suspended and the buffer's program has an address of its own. */
    lemma {:induction false} SubmitEnabledIff(buf: Buffer)
      requires Valid() && Outside(buf)
      ensures Enabled(Abs(), Submit(buf.Value()))
              <==> !suspended && buf.dma != stopper
                   && (forall i :: 0 <= i < |active| ==> active[i].dma != buf.dma)
                   && (forall i :: 0 <= i < |queued| ==> queued[i].dma != buf.dma)
    {
      hide Decoder.Valid;
      NotIn(Values(active), buf.dma);
      NotIn(Values(queued), buf.dma);
    }

    /** With programs at different addresses, as BufferPrepare keeps them, every prepared buffer outside the
        lists may be submitted, as long as the driver is not suspended. */
    lemma {:induction false} PreparedMaySubmit(buf: Buffer, pool: set<Buffer>)
      requires Valid() && Inv(Abs()) && Outside(buf) && buf.state != NeedsInit
      requires OwnAddresses(pool, stopper) && buf in pool
      requires (forall b :: b in active ==> b in pool) && (forall b :: b in queued ==> b in pool)
      ensures Enabled(Abs(), Submit(buf.Value())) <==> !suspended
    {
      hide Decoder.Valid, JumpChain, TimerArmed, DeviceAgrees, Fifo, EngineKnown, CompletedRecorded, DoneMeansCompleted;
      SubmitEnabledIff(buf);
      forall i | 0 <= i < |active| ensures active[i].dma != buf.dma {
        assert Abs().active[i].state == Active;
      }
      forall i | 0 <= i < |queued| ensures queued[i].dma != buf.dma {
        assert Abs().queued[i].state == Queued;
      }
    }
  }

  // the three places of a submitted buffer

  ghost function PlacedQueued(s: Sys, b: Buf): Sys {
    s.(queued := s.queued + [b.(state := Queued)])
  }

  ghost function PlacedFirst(s: Sys, b: Buf): Sys {
    QueueModel.StartDma(s, b).(active := [b.(state := Active)], timer := true)
  }

  ghost function PlacedLinked(s: Sys, b: Buf): Sys
    requires s.active != []
  {
    s.(active := LinkLast(s.active, b.dma) + [b.(state := Active)], timer := true)
  }

  lemma {:induction false} PlaceCases(s: Sys, b: Buf)
    ensures s.queued != [] ==> QueueModel.Place(s, b) == PlacedQueued(s, b)
    ensures s.queued == [] && s.active == [] ==> QueueModel.Place(s, b) == PlacedFirst(s, b)
    ensures s.queued == [] && s.active != [] ==>
              QueueModel.Place(s, b)
              == if Compatible(s.active[|s.active| - 1], b) then PlacedLinked(s, b) else PlacedQueued(s, b)
  {
  }

  // the loops

  /** The state after the loop of tw68_buffer_timeout has failed n buffers. */
  ghost function AfterFailures(s: Sys, n: nat): Sys
    requires n <= |s.active|
  {
    s.(active := s.active[n..], retired := s.retired + Failed(s.active[..n]))
  }

  ghost function FailedOne(s: Sys): Sys
    requires s.active != []
  {
    s.(active := s.active[1..], retired := s.retired + [s.active[0].(state := Error)])
  }

  lemma {:induction false} NoneFailed(s: Sys)
    ensures AfterFailures(s, 0) == s
  {
    assert s.active[0..] == s.active;
  }

  lemma {:induction false} OneFailed(s: Sys, n: nat)
    requires n < |s.active|
    ensures var t := AfterFailures(s, n);
            t.active != [] && AfterFailures(s, n + 1) == FailedOne(t)
  {
    assert Failed(s.active[..n + 1]) == Failed(s.active[..n]) + [s.active[n].(state := Error)];
  }

  lemma {:induction false} AllFailed(s: Sys)
    ensures QueueModel.Timeout(s) == QueueModel.Requeue(AfterFailures(s.(timer := false), |s.active|))
  {
    hide QueueModel.Requeue;
    assert s.active[..|s.active|] == s.active && s.active[|s.active|..] == [];
    assert AfterFailures(s.(timer := false), |s.active|)
           == s.(timer := false, active := [], retired := s.retired + Failed(s.active));
  }

  /** The state after the loop of tw68_buffer_requeue has moved n buffers. */
  ghost function Moved(s: Sys, n: nat): Sys
    requires n <= |s.queued|
  {
    if n == 0 then s
    else QueueModel.StartDma(s, s.queued[0]).(active := Chained(s.queued[..n]), queued := s.queued[n..], timer := true)
  }

  lemma {:induction false} MoveOver(a: seq<Buffer>, b: seq<Buffer>)
    requires b != []
    ensures (a + [b[0]]) + b[1..] == a + b
    ensures forall x :: x in a || x in b ==> x in a + b
  {
  }

  lemma {:induction false} MovedNone(s: Sys)
    ensures Moved(s, 0) == s
  {
  }

  ghost predicate MayMove(s: Sys)
    requires s.queued != []
  {
    s.active != [] ==> Compatible(s.active[|s.active| - 1], s.queued[0])
  }

  ghost function MovedOne(s: Sys): Sys
    requires s.queued != []
  {
    var rest := s.(queued := s.queued[1..]);
    if s.active == [] then PlacedFirst(rest, s.queued[0]) else PlacedLinked(rest, s.queued[0])
  }

  /** One more round of the loop moves the next buffer exactly if the run goes on. */
  lemma {:induction false} MovedNext(s: Sys, n: nat)
    requires s.active == [] && n < |s.queued| && n <= CompatRun(s.queued)
    ensures Moved(s, n).queued != []
    ensures MayMove(Moved(s, n)) <==> n < CompatRun(s.queued)
    ensures MovedOne(Moved(s, n)) == Moved(s, n + 1)
  {
    hide DmacStart, CompatRun, Compatible;
    if n == 0 {
      assert 0 < CompatRun(s.queued);
    } else {
      RunExtends(s.queued, n);
      SameCompatible(s.queued[n - 1], Moved(s, n).active[n - 1], s.queued[n]);
      assert s.queued[..n + 1] == s.queued[..n] + [s.queued[n]];
    }
  }

  lemma {:induction false} SameCompatible(a: Buf, b: Buf, next: Buf)
    requires a.geom == b.geom
    ensures Compatible(a, next) <==> Compatible(b, next)
  {
  }

  /** One more buffer moves exactly when it is compatible with the last one moved. */
  lemma {:induction false} RunExtends(q: seq<Buf>, n: nat)
    requires 0 < n < |q| && n <= CompatRun(q)
    ensures n < CompatRun(q) <==> Compatible(q[n - 1], q[n])
    decreases n
  {
    if n > 1 {
      RunExtends(q[1..], n - 1);
    }
  }

  // the programs

  /** The program of the buffer at position i of both lists. */
  ghost function CodeOf(s: Sys, i: nat): seq<u32> {
    if i < |s.active| then s.active[i].code
    else if i < |s.active| + |s.queued| then s.queued[i - |s.active|].code
    else []
  }

  lemma {:induction false} SubmitCodes(s: Sys, b: Buf)
    ensures var t := QueueModel.BufferQueue(s, b);
            && |t.active| + |t.queued| == |s.active| + |s.queued| + 1
            && (|t.active| > |s.active| ==> |s.queued| == 0)
            && (forall i :: 0 <= i < |s.active| + |s.queued| ==> CodeOf(t, i) == CodeOf(s, i))
            && CodeOf(t, |s.active| + |s.queued|) == b.code
  {
    hide DmacStart, Compatible;
  }

  lemma {:induction false} RequeueCodes(s: Sys)
    ensures var t := QueueModel.Requeue(s);
            && |t.active| + |t.queued| == |s.active| + |s.queued|
            && forall i :: 0 <= i < |s.active| + |s.queued| ==> CodeOf(t, i) == CodeOf(s, i)
  {
    hide DmacStart, CompatRun, Chained;
    if s.active == [] && s.queued != [] {
      MovedCodes(s, QueueModel.Requeue(s), CompatRun(s.queued));
    }
  }

  lemma {:induction false} MovedCodes(s: Sys, t: Sys, n: nat)
    requires s.active == [] && n <= |s.queued| && t.active == Chained(s.queued[..n]) && t.queued == s.queued[n..]
    ensures forall i :: 0 <= i < |s.queued| ==> CodeOf(t, i) == CodeOf(s, i)
  {
  }

  /** The step that follows the jump behind active[i]. */
  lemma {:induction false} FollowIs(s: Sys, i: nat, next: u32)
    requires i < |s.active| && FindActive(s.active, s.hw.pc) == Some(i)
    ensures var d := Decode(s.active[i].jmp0, s.active[i].jmp1);
            QueueModel.Complete(s, next)
            == if d.None? || !d.value.op.Jump? then s.(hw := s.hw.(pc := next))
               else s.(hw := s.hw.(pc := d.value.addr, pending := s.hw.pending || d.value.irq == 1),
                       completed := s.completed + [|s.retired| + i], ran := s.ran + 1)
  {
    hide Decode, FindActive;
  }

  // the engine

  lemma {:induction false} FirstFound(bs: seq<Buf>, a: u32, i: nat)
    requires i <= |bs| && (forall j :: 0 <= j < i ==> bs[j].dma != a) && (i < |bs| ==> bs[i].dma == a)
    ensures FindActive(bs, a) == if i < |bs| then Some(i) else None
    decreases i
  {
    if i > 0 {
      FirstFound(bs[1..], a, i - 1);
    }
  }

  lemma {:induction false} NotIn(bs: seq<Buf>, a: u32)
    ensures a !in Dmas(bs) <==> forall i :: 0 <= i < |bs| ==> bs[i].dma != a
  {
    forall i | 0 <= i < |bs| ensures Dmas(bs)[i] in Dmas(bs) {
    }
  }

  // the invariant

  lemma {:induction false} EngineInv(s: Sys, next: u32)
    ensures Inv(s) && Enabled(s, Event.EngineDone(next)) ==> Inv(QueueModel.Complete(s, next))
  {
    hide Inv, QueueModel.Complete;
    if Inv(s) && Enabled(s, Event.EngineDone(next)) {
      StepKeeps(s, Event.EngineDone(next));
    }
  }

  lemma {:induction false} SubmitInv(s: Sys, b: Buf)
    ensures Inv(s) && Enabled(s, Submit(b)) ==> Inv(QueueModel.BufferQueue(s, b))
  {
    hide Inv, QueueModel.BufferQueue;
    if Inv(s) && Enabled(s, Submit(b)) {
      StepKeeps(s, Submit(b));
    }
  }

  lemma {:induction false} StreamOnInv(s: Sys)
    ensures Inv(s) && Enabled(s, StreamOn) ==> Inv(QueueModel.Requeue(s))
  {
    hide Inv, QueueModel.Requeue;
    if Inv(s) && Enabled(s, StreamOn) {
      StepKeeps(s, StreamOn);
    }
  }

  lemma {:induction false} OtherInv(s: Sys)
    ensures Inv(s) && Enabled(s, Interrupt) ==> Inv(QueueModel.Irq(s))
    ensures Inv(s) && Enabled(s, Expire) ==> Inv(QueueModel.Timeout(s))
    ensures Inv(s) && Enabled(s, Event.Suspend) ==> Inv(QueueModel.SuspendDev(s))
    ensures Inv(s) && Enabled(s, Event.Resume) ==> Inv(QueueModel.ResumeDev(s))
  {
    hide Inv, QueueModel.Irq, QueueModel.Timeout, QueueModel.SuspendDev, QueueModel.ResumeDev;
    if Inv(s) {
      if Enabled(s, Interrupt) {
        StepKeeps(s, Interrupt);
      }
      if Enabled(s, Expire) {
        StepKeeps(s, Expire);
      }
      if Enabled(s, Event.Suspend) {
        StepKeeps(s, Event.Suspend);
      }
      if Enabled(s, Event.Resume) {
        StepKeeps(s, Event.Resume);
      }
    }
  }

  lemma {:induction false} JumpOr()
    ensures Or32(RISC_JUMP, RISC_INT_BIT) == JUMP_WORD
  {
    hide Or;
    var eleven, irq := 0xB, RISC_INT_BIT;
    Or28(eleven, irq);
  }
}
