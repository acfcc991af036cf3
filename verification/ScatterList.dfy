/** Scatter-gather lists and the logical byte positions they describe.

    A list maps the logical positions 0 .. Total-1 of a frame buffer to bus addresses, segment
    after segment. */
module ScatterList {
  import opened Words

  /** One DMA segment: `sg_dma_address` and `sg_dma_len`. */
  datatype Seg = Seg(addr: u32, len: u32)

  type SgList = seq<Seg>

  /** No empty segment, and every segment lies inside the 32-bit bus address space. */
  ghost predicate ValidList(sg: SgList) {
    forall k :: 0 <= k < |sg| ==> sg[k].len > 0 && sg[k].addr + sg[k].len <= WORD
  }

  /** The number of bytes in the first k segments. */
  function Prefix(sg: SgList, k: nat): nat
    requires k <= |sg|
  {
    if k == 0 then 0 else Prefix(sg, k - 1) + sg[k - 1].len
  }

  function Total(sg: SgList): nat {
    Prefix(sg, |sg|)
  }

  lemma {:induction false} PrefixIncreases(sg: SgList, j: nat, k: nat)
    requires ValidList(sg) && j <= k <= |sg|
    ensures Prefix(sg, j) + (k - j) <= Prefix(sg, k)
    decreases k
  {
    if j < k {
      PrefixIncreases(sg, j, k - 1);
    }
  }

  /** The segment that holds logical position x. */
  function SegAt(sg: SgList, x: nat): (k: nat)
    requires ValidList(sg) && x < Total(sg)
    ensures k < |sg| && Prefix(sg, k) <= x < Prefix(sg, k + 1)
  {
    SegFrom(sg, 0, x)
  }

  function SegFrom(sg: SgList, from: nat, x: nat): (k: nat)
    requires ValidList(sg) && from <= |sg| && Prefix(sg, from) <= x < Total(sg)
    ensures from <= k < |sg| && Prefix(sg, k) <= x < Prefix(sg, k + 1)
    decreases |sg| - from
  {
    if x < Prefix(sg, from + 1) then from else SegFrom(sg, from + 1, x)
  }

  lemma {:induction false} SegAtUnique(sg: SgList, x: nat, k: nat)
    requires ValidList(sg) && x < Total(sg)
    requires k < |sg| && Prefix(sg, k) <= x < Prefix(sg, k + 1)
    ensures SegAt(sg, x) == k
  {
    var m := SegAt(sg, x);
    if m < k {
      PrefixIncreases(sg, m + 1, k);
    } else if k < m {
      PrefixIncreases(sg, k + 1, m);
    }
  }

  lemma {:induction false} SegAtMonotone(sg: SgList, x: nat, y: nat)
    requires ValidList(sg) && x <= y < Total(sg)
    ensures SegAt(sg, x) <= SegAt(sg, y)
  {
    var j, k := SegAt(sg, x), SegAt(sg, y);
    if k < j {
      PrefixIncreases(sg, k + 1, j);
    }
  }

  /** The bus address of logical position x. */
  function AddrOf(sg: SgList, x: nat): (a: nat)
    requires ValidList(sg) && x < Total(sg)
  {
    var k := SegAt(sg, x);
    sg[k].addr + (x - Prefix(sg, k))
  }

  /** The bus addresses of n consecutive bytes from address a. */
  function Span(a: nat, n: nat): (s: seq<nat>)
    ensures |s| == n && forall j :: 0 <= j < n ==> s[j] == a + j
  {
    seq<nat>(n, j requires 0 <= j < n => a + j)
  }

  /** The bus addresses of the n logical positions from p. */
  function Bytes(sg: SgList, p: nat, n: nat): (s: seq<nat>)
    requires ValidList(sg) && p + n <= Total(sg)
    ensures |s| == n && forall j :: 0 <= j < n ==> s[j] == AddrOf(sg, p + j)
  {
    seq<nat>(n, j requires 0 <= j < n => AddrOf(sg, p + j))
  }

  /** Positions inside one segment have consecutive addresses. */
  lemma {:induction false} BytesInSegment(sg: SgList, k: nat, p: nat, n: nat)
    requires ValidList(sg) && k < |sg|
    requires Prefix(sg, k) <= p && p + n <= Prefix(sg, k + 1)
    ensures p + n <= Total(sg)
    ensures Bytes(sg, p, n) == Span(sg[k].addr + (p - Prefix(sg, k)), n)
  {
    PrefixIncreases(sg, k + 1, |sg|);
    var q := Bytes(sg, p, n);
    forall j | 0 <= j < n
      ensures q[j] == sg[k].addr + (p - Prefix(sg, k)) + j
    {
      SegAtUnique(sg, p + j, k);
    }
  }

  lemma {:induction false} BytesJoin(sg: SgList, p: nat, m: nat, n: nat)
    requires ValidList(sg) && p + m + n <= Total(sg)
    ensures Bytes(sg, p, m) + Bytes(sg, p + m, n) == Bytes(sg, p, m + n)
  {
  }
}
