/** Buffer preparation: the program of a buffer is compiled when its picture changes, and is
    otherwise kept. */
module Prepare {
  import opened Words
  import opened ScatterList
  import opened RiscCode
  import opened RiscSize
  import opened RiscCompiler
  import opened Formats
  import opened Frames
  import opened QueueModel
  import opened Buffers
  import opened Norms
  import opened Negotiation

  datatype Outcome = Ready | Refused(error: Errno) | Bug

  /** A list of pages short enough that no position computed from it wraps. */
  ghost predicate BufferList(sg: SgList) {
    PageList(sg) && Total(sg) + 2880 < WORD
  }

  /** cpu[..jmp] is the program for the picture, and there is room for the jump behind it. */
  ghost predicate ProgramFor(sg: SgList, field: VField, bpl: nat, height: nat, cpu: seq<u32>, jmp: nat) {
    && BufferList(sg) && bpl > 0 && bpl * height <= Total(sg) && LayoutFor(field, bpl, height).Some?
    && var l := LayoutFor(field, bpl, height).value;
    && LayoutFits(sg, l)
    && jmp + 2 <= |cpu|
    && jmp == 2 * |BufferCode(sg, l)| && cpu[..jmp] == Image(BufferCode(sg, l))
  }

  /** The invariant of a buffer: once it has been initialised, its program is the one for the
      dimensions, format and field that it records. */
  ghost predicate Coherent(buf: Buffer)
    reads buf
  {
    buf.state != NeedsInit ==>
      && buf.fmt.Some? && buf.fmt.value in FormatTable()
      && 48 <= buf.width <= 720 && buf.height >= 16 && buf.bpl == BytesPerLine(buf.width, buf.fmt.value.depth)
      && LayoutFor(buf.field, buf.bpl, buf.height).Some?
      && ProgramFor(buf.sg, buf.field, buf.bpl, buf.height, buf.cpu, buf.jmp)
      && !TooLong(buf.sg, buf.field, buf.bpl, buf.height)
  }

  /** The queue routines change a buffer's jump words, state and field count only; its invariant stays,
      so it can be prepared again. */
  twostate lemma KeptIsCoherent(b: Buffer)
    requires old(Coherent(b)) && old(b.state) != NeedsInit && Kept(b)
    requires unchanged(b`width, b`height, b`fmt, b`field, b`bpl, b`sg, b`jmp)
    ensures Coherent(b)
  {
  }

  function PictureSize(width: nat, height: nat, depth: nat): nat {
    width * height * depth / 8
  }

  lemma {:induction false} PictureBytes(f: Format, width: nat, height: nat)
    requires f in FormatTable() && 48 <= width <= 720
    ensures 96 <= BytesPerLine(width, f.depth) <= 2880
    ensures PictureSize(width, height, f.depth) == BytesPerLine(width, f.depth) * height
  {
    hide FormatTable;
    Depths(f);
    var d := f.depth / 8;
    assert width * f.depth == (width * d) * 8;
    assert width * height * f.depth == (width * d * height) * 8;
    Product(48, width, 2, d);
    Product(width, 720, d, 4);
  }

  /** The dimension and size checks. */
  predicate Accepts(buf: Buffer, fh: FileHandle, n: Norm)
    reads buf, fh
  {
    && Preparable(n, fh.width, fh.height)
    && (buf.baddr != 0 ==> buf.bsize >= PictureSize(fh.width, fh.height, fh.fmt.depth))
  }

  /** The buffer already records this picture. */
  predicate SamePicture(buf: Buffer, fh: FileHandle, field: VField)
    reads buf, fh
  {
    buf.fmt == Some(fh.fmt) && buf.width == fh.width && buf.height == fh.height && buf.field == field
  }

  /** What videobuf promises of a buffer's list: it covers the memory given by user space, or,
      when the buffer has none, the picture. */
  ghost predicate ListCovers(sg: SgList, buf: Buffer, fh: FileHandle)
    reads buf, fh
  {
    BufferList(sg)
    && Total(sg) >= if buf.baddr != 0 then buf.bsize else PictureSize(fh.width, fh.height, fh.fmt.depth)
  }

  /** The list that the buffer has after iolock. */
  function ListFor(buf: Buffer, locked: Result<SgList>): SgList
    reads buf
  {
    if buf.state == NeedsInit && locked.Ok? then locked.value else buf.sg
  }

  /** A buffer with memory from user space is accepted exactly if every list that may be supplied for it
      holds the picture. */
  lemma {:induction false} AcceptsIff(buf: Buffer, fh: FileHandle, n: Norm)
    requires n in NormTable() && fh.fmt in FormatTable()
    ensures Accepts(buf, fh, n)
            <==> Preparable(n, fh.width, fh.height)
                 && forall sg :: ListCovers(sg, buf, fh) ==> Total(sg) >= PictureSize(fh.width, fh.height, fh.fmt.depth)
  {
    hide NormTable, FormatTable, PictureSize, BufferList;
    TableGeometry(n);
    if Preparable(n, fh.width, fh.height) && !Accepts(buf, fh, n) {
      PictureBytes(fh.fmt, fh.width, fh.height);
      Product(BytesPerLine(fh.width, fh.fmt.depth), 2880, fh.height, 578);
      var sg := ListOf(buf.bsize);
      assert ListCovers(sg, buf, fh);
    }
  }

  /** A list of n bytes. */
  lemma {:induction false} ListOf(n: nat) returns (sg: SgList)
    requires n + 2880 < WORD
    ensures BufferList(sg) && Total(sg) == n
  {
    sg := if n == 0 then [] else [Seg(0, n)];
    assert n > 0 ==> Prefix(sg, 1) == Prefix(sg, 0) + n;
  }

  /** No two initialised buffers have programs at the same address, and none is at that of the stopper. */
  ghost predicate OwnAddresses(pool: set<Buffer>, stopper: u32)
    reads pool
  {
    && (forall b :: b in pool && b.state != NeedsInit ==> b.dma != stopper)
    && forall a, b :: a in pool && b in pool && a != b && a.state != NeedsInit && b.state != NeedsInit ==> a.dma != b.dma
  }

  /** What an allocation for buf promises: its address belongs to no other program. */
  ghost predicate FreeAddress(pool: set<Buffer>, stopper: u32, buf: Buffer, dma: u32)
    reads pool
  {
    dma != stopper && forall b :: b in pool && b != buf && b.state != NeedsInit ==> b.dma != dma
  }

  /** Compiles the program of a picture, allocated at bus address dma. */
  method Compile(buf: Buffer, dma: u32) returns (bug: bool)
    requires BufferList(buf.sg) && 0 < buf.bpl <= 2880 && buf.bpl * buf.height <= Total(buf.sg)
    modifies buf`cpu, buf`jmp, buf`dma
    ensures bug <==> LayoutFor(buf.field, buf.bpl, buf.height).None? || TooLong(buf.sg, buf.field, buf.bpl, buf.height)
    ensures !bug ==> ProgramFor(buf.sg, buf.field, buf.bpl, buf.height, buf.cpu, buf.jmp) && buf.dma == dma
  {
    hide BufferCode, Estimate, TooLong, LayoutFits, Image;
    var layout := LayoutFor(buf.field, buf.bpl, buf.height);
    if layout.None? {
      return true;
    }
    var l := layout.value;
    PictureOverflows(buf.sg, buf.field, buf.bpl, buf.height);
    LayoutBounds(buf.sg, buf.field, buf.bpl, buf.height);
    var cpu, size, jmp;
    cpu, size, jmp, bug := RiscBuffer(buf.sg, l);
    buf.cpu, buf.jmp, buf.dma := cpu[..size], jmp, dma;
    assert cpu[..size][..jmp] == cpu[..jmp];
  }

  lemma {:induction false} LayoutBounds(sg: SgList, field: VField, bpl: nat, height: nat)
    requires BufferList(sg) && 0 < bpl <= 2880 && bpl * height <= Total(sg)
    requires LayoutFor(field, bpl, height).Some?
    ensures var l := LayoutFor(field, bpl, height).value;
            && Total(sg) + l.padding < WORD && l.bpl < WORD && l.padding < WORD && l.lines < WORD
            && (l.top.Some? ==> l.top.value < WORD) && (l.bottom.Some? ==> l.bottom.value < WORD)
  {
    Product(1, bpl, height, height);
    Product(bpl, bpl, height / 2, height);
  }

  /** buffer_prepare.  `locked` is the outcome of videobuf_iolock if it is called, and `dma` the bus
      address of the program memory if it is allocated.  `pool` are the buffers there are. */
  method BufferPrepare(buf: Buffer, fh: FileHandle, dev: Decoder, field: VField, locked: Result<SgList>, dma: u32,
                       ghost pool: set<Buffer>, ghost stopper: u32)
    returns (r: Outcome)
    requires dev.Valid() && fh.fmt in FormatTable() && Coherent(buf)
    requires locked.Ok? ==> ListCovers(locked.value, buf, fh)
    requires buf.state != NeedsInit ==> ListCovers(buf.sg, buf, fh)
    modifies buf`fmt, buf`width, buf`height, buf`field, buf`bpl, buf`size, buf`state, buf`sg, buf`cpu, buf`jmp, buf`dma
    ensures !old(Accepts(buf, fh, dev.norm)) ==>
              && r == Refused(EINVAL) && Untouched(old(Snapshot(buf)), buf)
              && buf.size == if Preparable(dev.norm, fh.width, fh.height)
                             then PictureSize(fh.width, fh.height, fh.fmt.depth) else old(buf.size)
    ensures old(Accepts(buf, fh, dev.norm)) ==>
              && buf.fmt == Some(fh.fmt) && buf.width == fh.width && buf.height == fh.height && buf.field == field
              && buf.size == PictureSize(fh.width, fh.height, fh.fmt.depth)
    ensures old(Accepts(buf, fh, dev.norm)) && old(buf.state) == NeedsInit && locked.Err? ==>
              r == Refused(locked.error) && buf.state == NeedsInit && buf.cpu == [] && buf.sg == []
    ensures old(Accepts(buf, fh, dev.norm)) && !(old(buf.state) == NeedsInit && locked.Err?) ==>
              var bpl := BytesPerLine(fh.width, fh.fmt.depth);
              && bpl > 0 && buf.sg == old(ListFor(buf, locked))
              && (r == Bug <==> LayoutFor(field, bpl, fh.height).None? || TooLong(buf.sg, field, bpl, fh.height))
              && (r == Bug || (r == Ready && buf.state == Prepared && buf.bpl == bpl && buf.size == bpl * fh.height))
    ensures r == Ready ==>
              buf.dma == if old(buf.state == NeedsInit || buf.fmt != Some(fh.fmt) || buf.width != fh.width
                                || buf.height != fh.height || buf.field != field)
                         then dma else old(buf.dma)
    ensures r != Bug && old(OwnAddresses(pool, stopper) && FreeAddress(pool, stopper, buf, dma)) ==>
              OwnAddresses(pool, stopper)
    ensures old(SamePicture(buf, fh, field)) && old(buf.state) != NeedsInit ==>
              buf.cpu == old(buf.cpu) && buf.jmp == old(buf.jmp) && buf.dma == old(buf.dma)
    ensures r != Bug ==> Coherent(buf)
  {
    hide ProgramFor, TooLong, LayoutFor, FormatTable, NormTable, BytesPerLine, PictureSize, BufferList, Decoder.Valid,
      Accepts;
    var ok := CheckPicture(buf, fh, dev);
    if !ok {
      return Refused(EINVAL);
    }
    r := Install(buf, fh, field, locked, dma);
  }

  /** The checks of buffer_prepare.  The size is stored between them. */
  method CheckPicture(buf: Buffer, fh: FileHandle, dev: Decoder) returns (ok: bool)
    requires dev.Valid()
    modifies buf`size
    ensures ok <==> old(Accepts(buf, fh, dev.norm))
    ensures ok ==> 48 <= fh.width <= 720 && fh.height >= 16 && (buf.baddr != 0 ==> buf.bsize >= buf.size)
    ensures buf.size == if Preparable(dev.norm, fh.width, fh.height)
                        then PictureSize(fh.width, fh.height, fh.fmt.depth) else old(buf.size)
    ensures ok ==> Preparable(dev.norm, fh.width, fh.height)
  {
    hide PictureSize, Decoder.Valid, NormTable;
    NormOf(dev);
    var maxw := dev.norm.hStop - dev.norm.hStart + 1;
    var maxh := 2 * (dev.norm.vStop - dev.norm.vStart + 1);
    if fh.width < 48 || fh.width > maxw || fh.height > maxh || fh.height < 16 {
      return false;
    }
    buf.size := PictureSize(fh.width, fh.height, fh.fmt.depth);
    if buf.baddr != 0 && buf.bsize < buf.size {
      return false;
    }
    return true;
  }

  lemma {:induction false} NormOf(dev: Decoder)
    requires dev.Valid()
    ensures dev.norm.hStop - dev.norm.hStart + 1 == 720
  {
    hide NormTable;
    TableGeometry(dev.norm);
  }

  /** buffer_prepare after the checks. */
  method Install(buf: Buffer, fh: FileHandle, field: VField, locked: Result<SgList>, dma: u32) returns (r: Outcome)
    requires fh.fmt in FormatTable() && Coherent(buf) && 48 <= fh.width <= 720 && fh.height >= 16
    requires buf.size == PictureSize(fh.width, fh.height, fh.fmt.depth)
    requires buf.baddr != 0 ==> buf.bsize >= buf.size
    requires locked.Ok? ==> ListCovers(locked.value, buf, fh)
    requires buf.state != NeedsInit ==> ListCovers(buf.sg, buf, fh)
    modifies buf`fmt, buf`width, buf`height, buf`field, buf`bpl, buf`state, buf`sg, buf`cpu, buf`jmp, buf`dma
    ensures buf.fmt == Some(fh.fmt) && buf.width == fh.width && buf.height == fh.height && buf.field == field
    ensures old(buf.state) == NeedsInit && locked.Err? ==>
              r == Refused(locked.error) && buf.state == NeedsInit && buf.cpu == [] && buf.sg == []
    ensures !(old(buf.state) == NeedsInit && locked.Err?) ==>
              var bpl := BytesPerLine(fh.width, fh.fmt.depth);
              && bpl > 0 && buf.sg == old(ListFor(buf, locked))
              && (r == Bug <==> LayoutFor(field, bpl, fh.height).None? || TooLong(buf.sg, field, bpl, fh.height))
              && (r == Bug || (r == Ready && buf.state == Prepared && buf.bpl == bpl && buf.size == bpl * fh.height))
    ensures r == Ready ==>
              buf.dma == if old(buf.state == NeedsInit || !SamePicture(buf, fh, field)) then dma else old(buf.dma)
    ensures old(SamePicture(buf, fh, field)) && old(buf.state) != NeedsInit ==>
              buf.cpu == old(buf.cpu) && buf.jmp == old(buf.jmp) && buf.dma == old(buf.dma)
    ensures r != Bug ==> Coherent(buf)
  {
    hide ProgramFor, TooLong, LayoutFor, FormatTable, BytesPerLine, PictureSize, BufferList;
    PictureBytes(fh.fmt, fh.width, fh.height);
    var init := SetPicture(buf, fh, field);
    if buf.state == NeedsInit {
      if locked.Err? {
        DmaFree(buf);
        return Refused(locked.error);
      }
      buf.sg := locked.value;
      init := true;
    }
    if init {
      buf.bpl := BytesPerLine(buf.width, buf.fmt.value.depth);
      var bug := Compile(buf, dma);
      if bug {
        return Bug;
      }
    }
    buf.state := Prepared;
    return Ready;
  }

  method SetPicture(buf: Buffer, fh: FileHandle, field: VField) returns (changed: bool)
    modifies buf`fmt, buf`width, buf`height, buf`field
    ensures SamePicture(buf, fh, field)
    ensures changed == !old(SamePicture(buf, fh, field))
  {
    changed := buf.fmt != Some(fh.fmt) || buf.width != fh.width || buf.height != fh.height || buf.field != field;
    if changed {
      buf.fmt, buf.width, buf.height, buf.field := Some(fh.fmt), fh.width, fh.height, field;
    }
  }

  /** tw68_dma_free. */
  method DmaFree(buf: Buffer)
    modifies buf`sg, buf`cpu, buf`jmp, buf`state
    ensures buf.state == NeedsInit && buf.cpu == [] && buf.sg == []
  {
    buf.sg, buf.cpu, buf.jmp := [], [], 0;
    buf.state := NeedsInit;
  }

  /** What a refused call must not change: everything but the size, which is stored before the check
      against the memory of user space. */
  datatype Record = Record(fmt: Option<Format>, width: nat, height: nat, field: VField, bpl: nat, state: BufState,
                           sg: SgList, cpu: seq<u32>, jmp: nat, dma: u32)

  ghost function Snapshot(buf: Buffer): Record
    reads buf
  {
    Record(buf.fmt, buf.width, buf.height, buf.field, buf.bpl, buf.state, buf.sg, buf.cpu, buf.jmp, buf.dma)
  }

  ghost predicate Untouched(before: Record, buf: Buffer)
    reads buf
  {
    Snapshot(buf) == before
  }
}
