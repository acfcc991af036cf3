/** Capture buffers as objects: what buffer_prepare fills in and the queue routines change. */
module Buffers {
  import opened Words
  import opened ScatterList
  import opened RiscCode
  import opened Formats
  import opened Scaler
  import opened QueueModel

  /** `struct tw68_buf` with the parts of its videobuf_buffer and btcx_riscmem that the driver
      uses.  `baddr` and `bsize` are the memory given by user space, if any.  `cpu` holds the
      words of the program memory at bus address `dma`, and cpu[jmp], cpu[jmp + 1] are the two
      words of the jump at the program's end. */
  class Buffer {
    var width: nat
    var height: nat
    var fmt: Option<Format>
    var field: VField
    var bpl: nat
    var size: nat
    var baddr: nat
    var bsize: nat
    var state: BufState
    var fieldCount: u32
    var sg: SgList
    var cpu: seq<u32>
    var jmp: nat
    var dma: u32

    constructor (baddr: nat, bsize: nat)
      ensures state == NeedsInit && fmt == None
    {
      this.baddr, this.bsize := baddr, bsize;
      width, height, fmt, field, bpl, size := 0, 0, None, Any, 0, 0;
      state, fieldCount, sg, cpu, jmp, dma := NeedsInit, 0, [], [], 0, 0;
    }

    /** The buffer has a program with room for its jump, and a picture that the scaler can be set to. */
    ghost predicate Programmed()
      reads this`fmt, this`width, this`height, this`field, this`jmp, this`cpu
    {
      fmt.Some? && width > 0 && FieldLines(height, field) > 0 && jmp + 2 <= |cpu|
    }

    ghost function Code(): seq<u32>
      requires Programmed()
      reads this`fmt, this`width, this`height, this`field, this`jmp, this`cpu
    {
      cpu[..jmp]
    }

    /** The buffer as the queue model sees it. */
    ghost function Value(): Buf
      requires Programmed()
      reads this
    {
      Buf(dma, Geometry(width, height, fmt.value), field, Code(), cpu[jmp], cpu[jmp + 1], state, fieldCount)
    }
  }

  /** The buffer has the program that it had. */
  twostate predicate Kept(b: Buffer)
    reads b
  {
    old(b.Programmed()) && b.Programmed() && b.Code() == old(b.Code())
  }

  twostate predicate AllKept(bs: seq<Buffer>)
    reads bs
  {
    forall i :: 0 <= i < |bs| ==> Kept(bs[i])
  }

  /** No buffer occurs twice, and all have programs. */
  ghost predicate Separated(bs: seq<Buffer>)
    reads bs`fmt, bs`width, bs`height, bs`field, bs`jmp, bs`cpu
  {
    && (forall i :: 0 <= i < |bs| ==> bs[i].Programmed())
    && (forall i, j :: 0 <= i < j < |bs| ==> bs[i] != bs[j])
  }

  ghost function Values(bs: seq<Buffer>): (vs: seq<Buf>)
    requires Separated(bs)
    reads bs
    ensures |vs| == |bs| && forall i :: 0 <= i < |bs| ==> vs[i] == bs[i].Value()
  {
    seq(|bs|, i requires 0 <= i < |bs| && bs[i].Programmed() reads bs => bs[i].Value())
  }

  lemma {:induction false} ValuesAppend(bs: seq<Buffer>, b: Buffer)
    requires Separated(bs) && b.Programmed() && b !in bs
    ensures Separated(bs + [b]) && Values(bs + [b]) == Values(bs) + [b.Value()]
  {
  }

  lemma {:induction false} ValuesSplit(bs: seq<Buffer>, n: nat)
    requires Separated(bs) && n <= |bs|
    ensures Separated(bs[..n]) && Values(bs[..n]) == Values(bs)[..n]
    ensures Separated(bs[n..]) && Values(bs[n..]) == Values(bs)[n..]
  {
  }
}
