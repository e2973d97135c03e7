/**
  * The paging shared by the three list endpoints: the page number is at
  * least 1, the page size is between 1 and 100, the page is the slice
  * LIMIT size OFFSET (page - 1) * size of the ordered matches, and every
  * list answers with the envelope {data, total, page, pageSize, totalPages}.
  * Page inputs are integers here (a query text that parseInt cannot read is
  * not modelled).
  */
module Paging {
  import opened Ordering

  /** The list response body. */
  datatype Envelope<T> = Envelope(data: seq<T>, total: nat, page: int, pageSize: int, totalPages: nat)

  /** Math.max(1, page) */
  function ClampPage(page: int): int
  {
    if page < 1 then 1 else page
  }

  /** Math.min(100, Math.max(1, pageSize)) */
  function ClampSize(pageSize: int): int
  {
    if pageSize < 1 then 1 else if pageSize > 100 then 100 else pageSize
  }

  /** Math.ceil(n / d) for a positive d */
  function CeilDiv(n: nat, d: nat): nat
    requires d > 0
  {
    (n + d - 1) / d
  }

  lemma CeilDivBounds(n: nat, d: nat)
    requires d > 0
    ensures CeilDiv(n, d) * d >= n
    ensures CeilDiv(n, d) > 0 ==> (CeilDiv(n, d) - 1) * d < n
    ensures CeilDiv(n, d) == 0 <==> n == 0
  {
    var q, r := (n + d - 1) / d, (n + d - 1) % d;
    assert n + d - 1 == q * d + r && 0 <= r < d;
    assert (q - 1) * d == q * d - d;
    if n == 0 && q != 0 {
      MulMonotone(1, q, d);
      assert false;
    }
  }

  /** OFFSET (page - 1) * size */
  function Offset(page: int, size: int): int
  {
    (page - 1) * size
  }

  lemma OffsetNonneg(page: int, size: int)
    requires page >= 1 && size >= 0
    ensures Offset(page, size) >= 0
  {
  }

  /**
    * The envelope for one page of the (already filtered and ordered) rows.
    * total counts every row, not only the page's; data is the largest slice
    * of at most pageSize rows that starts at the page's offset.
    */
  function Paginate<T>(rows: seq<T>, page: int, pageSize: int): (e: Envelope<T>)
    ensures e.total == |rows|
    ensures e.page >= 1 && (page >= 1 ==> e.page == page) && (page < 1 ==> e.page == 1)
    ensures 1 <= e.pageSize <= 100
    ensures 1 <= pageSize <= 100 ==> e.pageSize == pageSize
    ensures pageSize < 1 ==> e.pageSize == 1
    ensures pageSize > 100 ==> e.pageSize == 100
    ensures e.totalPages * e.pageSize >= e.total
    ensures e.totalPages > 0 ==> (e.totalPages - 1) * e.pageSize < e.total
    ensures Offset(e.page, e.pageSize) >= 0
    ensures |e.data| <= e.pageSize
    ensures |e.data| == e.pageSize || Offset(e.page, e.pageSize) + |e.data| >= |rows|
    ensures forall k :: 0 <= k < |e.data| ==>
              Offset(e.page, e.pageSize) + k < |rows| && e.data[k] == rows[Offset(e.page, e.pageSize) + k]
  {
    var p := ClampPage(page);
    var size := ClampSize(pageSize);
    var offset := Offset(p, size);
    OffsetNonneg(p, size);
    var data := if offset >= |rows| then []
                else if offset + size <= |rows| then rows[offset .. offset + size]
                else rows[offset ..];
    CeilDivBounds(|rows|, size);
    Envelope(data, |rows|, p, size, CeilDiv(|rows|, size))
  }

  /** e shows, at its page's offset, the largest slice of at most pageSize rows of the ordered rows o. */
  ghost predicate SliceOf<T>(e: Envelope<T>, o: seq<T>)
  {
    && Offset(e.page, e.pageSize) >= 0
    && (|e.data| == e.pageSize || Offset(e.page, e.pageSize) + |e.data| >= |o|)
    && forall k :: 0 <= k < |e.data| ==>
         Offset(e.page, e.pageSize) + k < |o| && e.data[k] == o[Offset(e.page, e.pageSize) + k]
  }

  /**
    * Paging an ordering of the matches f: total counts f, page and size are
    * clamped, every listed row is one of f, and the page is the slice of an
    * admissible ordering.
    */
  lemma PageOfOrdering<T>(o: seq<T>, f: seq<T>, key: T -> Key, desc: bool, page: int, pageSize: int)
    requires IsOrdering(o, f, key, desc)
    ensures var e := Paginate(o, page, pageSize);
            && e.total == |f|
            && e.page == ClampPage(page)
            && e.pageSize == ClampSize(pageSize)
            && (forall k :: 0 <= k < |e.data| ==> e.data[k] in f)
            && exists o' :: IsOrdering(o', f, key, desc) && SliceOf(e, o')
  {
    var e := Paginate(o, page, pageSize);
    PermutationLength(o, f);
    forall k | 0 <= k < |e.data| ensures e.data[k] in f {
      assert e.data[k] == o[Offset(e.page, e.pageSize) + k];
      assert e.data[k] in multiset(f);
    }
    assert SliceOf(e, o);
  }

  lemma MulMonotone(a: int, b: int, c: int)
    requires a <= b && c >= 0
    ensures a * c <= b * c
  {
  }

  /** A page past the last one is empty; every page from 1 to totalPages holds at least one row. */
  lemma PageEmptyIffPastLast<T>(rows: seq<T>, page: int, pageSize: int)
    ensures var e := Paginate(rows, page, pageSize);
            (e.data == [] <==> e.page > e.totalPages)
    ensures Paginate(rows, page, pageSize).totalPages == 0 <==> rows == []
  {
    var e := Paginate(rows, page, pageSize);
    var size, n := e.pageSize, e.totalPages;
    CeilDivBounds(|rows|, size);
    if e.page > n {
      MulMonotone(n, e.page - 1, size);
      assert Offset(e.page, size) >= |rows|;
    } else {
      MulMonotone(e.page - 1, n - 1, size);
      assert Offset(e.page, size) < |rows|;
    }
  }

  /** Row i of the ordered matches is shown on page i / size + 1, at position i % size. */
  lemma EveryRowOnItsPage<T>(rows: seq<T>, pageSize: int, i: nat)
    requires i < |rows|
    ensures var size := ClampSize(pageSize);
            var e := Paginate(rows, i / size + 1, pageSize);
            i % size < |e.data| && e.data[i % size] == rows[i]
  {
    var size := ClampSize(pageSize);
    var page, m := i / size + 1, i % size;
    RowOffset(i, size);
    var e := Paginate(rows, page, pageSize);
    var off := Offset(e.page, e.pageSize);
    assert e.page == page && e.pageSize == size;
    if |e.data| != size {
      assert off + |e.data| >= |rows| > i;
    }
  }

  /** Row i sits at offset i % size of page i / size + 1. */
  lemma RowOffset(i: nat, size: int)
    requires size >= 1
    ensures i / size + 1 >= 1 && 0 <= i % size < size
    ensures Offset(i / size + 1, size) + i % size == i
  {
  }
}
