/** How many buffers fit into the 4 MB that one DMA channel can address. */
module Budget {
  import opened Norms
  import opened Negotiation

  const PAGE: nat := 4096

  const CHANNEL_PAGES: nat := 1024

  function PageAlign(size: nat): nat {
    (size + PAGE - 1) / PAGE * PAGE
  }

  /** tw68_buffer_pages. */
  function BufferPages(size: nat): nat {
    (PageAlign(size) + PAGE) / PAGE
  }

  /** Pages touched by `size` bytes that start `offset` bytes into a page. */
  function PagesTouched(offset: nat, size: nat): nat {
    (offset + size + PAGE - 1) / PAGE
  }

  /** The page count covers the buffer wherever in a page it starts, and never by more than one
      page; it is reached at some offset unless the buffer is one byte longer than whole pages. */
  lemma {:induction false} PagesCover(size: nat)
    ensures forall offset :: 0 <= offset < PAGE ==> PagesTouched(offset, size) <= BufferPages(size)
    ensures (exists offset :: 0 <= offset < PAGE && PagesTouched(offset, size) == BufferPages(size)) <==> size % PAGE != 1
    ensures PagesTouched(PAGE - 1, size) + 1 >= BufferPages(size)
  {
    assert forall offset :: 0 <= offset < PAGE ==> PagesTouched(offset, size) <= PagesTouched(PAGE - 1, size);
    assert size % PAGE != 1 ==> PagesTouched(PAGE - 1, size) == BufferPages(size);
  }

  /** tw68_buffer_count. */
  function BufferCount(size: nat, count: nat): nat {
    var maxcount := CHANNEL_PAGES / BufferPages(size);
    if count > maxcount then maxcount else count
  }

  /** n buffers of this size fit into the channel. */
  predicate FitsChannel(size: nat, n: nat) {
    n * BufferPages(size) <= CHANNEL_PAGES
  }

  /** The largest number of buffers up to `count` whose pages fit into the channel. */
  lemma {:induction false} BufferCountLargest(size: nat, count: nat, n: nat)
    ensures n <= BufferCount(size, count) <==> n <= count && FitsChannel(size, n)
  {
    hide BufferPages;
    PagesPositive(size);
    Quotient(CHANNEL_PAGES, BufferPages(size), n);
  }

  lemma {:induction false} PagesPositive(size: nat)
    ensures BufferPages(size) > 0
  {
  }

  lemma {:induction false} Quotient(x: nat, d: nat, n: nat)
    requires d > 0
    ensures n <= x / d <==> n * d <= x
  {
    var q := x / d;
    assert d * q <= x < d * (q + 1);
    if n <= q {
      Product(n, q, d, d);
    } else {
      Product(q + 1, n, d, d);
    }
  }

  /** buffer_setup: `count` and `size` are the in-out arguments; `gbuffers` is the module option. */
  method BufferSetup(fh: FileHandle, count: nat, gbuffers: nat) returns (count': nat, size: nat)
    ensures size * 8 <= fh.fmt.depth * fh.width * fh.height < (size + 1) * 8
    ensures forall n: nat :: n <= count' <==>
              n <= (if count == 0 then gbuffers else count) && FitsChannel(size, n)
  {
    hide BufferPages, BufferCount, FitsChannel;
    size := fh.fmt.depth * fh.width * fh.height / 8;
    count' := count;
    if count' == 0 {
      count' := gbuffers;
    }
    ghost var wanted := count';
    count' := BufferCount(size, count');
    forall n: nat ensures n <= count' <==> n <= wanted && FitsChannel(size, n) {
      BufferCountLargest(size, wanted, n);
    }
  }

  lemma {:induction false} PagesMonotone(a: nat, b: nat)
    requires a <= b
    ensures BufferPages(a) <= BufferPages(b)
  {
  }

  /** Every negotiated picture leaves room for at least two buffers. */
  lemma {:induction false} RoomForTwo(n: Norm, current: Rect, p: Pix, q: Pix, count: nat)
    requires n in NormTable() && current.width >= 0 && current.height >= 0 && count >= 2
    requires BoundsOf(n).width >= 0 && BoundsOf(n).height >= 0
    ensures Negotiate(current, BoundsOf(n), p) == Ok(q) ==> BufferCount(q.size, count) >= 2
  {
    hide NormTable, Negotiate, BufferPages, BufferCount;
    NegotiatedSizes(n, current, p, q);
    if q.size <= 1658880 {
      PagesMonotone(q.size, 1658880);
      LargestPicture();
      BufferCountLargest(q.size, count, 2);
    }
  }

  lemma {:induction false} LargestPicture()
    ensures BufferPages(1658880) == 406
  {
  }
}
