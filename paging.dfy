/** Pagination of the listings, shared by the product repository and the
    customer admin list: `_to_int` (written twice in the source, once in
    each of those files), the page/page_size mode and the offset/limit
    mode, and Python's slicing of the ordered rows. */
module Paging {
  import opened Base
  import opened Text
  import opened Sorting

  /** The number `_to_int` starts from: `int(x)`, or `default` when `x` is
      absent or is not an integer numeral. */
  function ParsedOr(x: Option<string>, default: int): int {
    if x.Some? && ParseInt(x.value).Some? then ParseInt(x.value).value else default
  }

  predicate InBounds(u: int, minVal: Option<int>, maxVal: Option<int>) {
    (minVal.None? || minVal.value <= u) && (maxVal.None? || u <= maxVal.value)
  }

  /** The clamping of `_to_int`: `u` raised to `minVal`, then lowered to
      `maxVal`; with consistent bounds the result lies within them, and a
      value already within them is kept. */
  function Clamp(u: int, minVal: Option<int>, maxVal: Option<int>): (v: int)
    ensures maxVal.Some? ==> v <= maxVal.value
    ensures minVal.Some? && (maxVal.None? || minVal.value <= maxVal.value) ==> v >= minVal.value
    ensures InBounds(u, minVal, maxVal) ==> v == u
    ensures minVal.Some? && u < minVal.value ==>
              v == if maxVal.Some? && maxVal.value < minVal.value then maxVal.value else minVal.value
    ensures maxVal.Some? && u > maxVal.value ==> v == maxVal.value
  {
    var raised := if minVal.Some? && u < minVal.value then minVal.value else u;
    if maxVal.Some? && raised > maxVal.value then maxVal.value else raised
  }

  /** `_to_int(x, default, min_val, max_val)`: parse, fall back to the
      default, raise to `min_val`, then lower to `max_val`. */
  method ToInt(x: Option<string>, default: int, minVal: Option<int>, maxVal: Option<int>) returns (v: int)
    ensures v == Clamp(ParsedOr(x, default), minVal, maxVal)
  {
    var parsed := if x.Some? then ParseInt(x.value) else None;
    if parsed.Some? {
      v := parsed.value;
    } else {
      v := default;
    }
    if minVal.Some? && v < minVal.value {
      v := minVal.value;
    }
    if maxVal.Some? && v > maxVal.value {
      v := maxVal.value;
    }
  }

  /** What a listing reports about the page it returns. */
  datatype Pagination = Pagination(
    total: nat, page: int, pageSize: int, totalPages: int,
    hasNext: bool, hasPrev: bool, offset: int, limit: int)

  /** `ceil(total / size)`, the number of pages of `size` rows. */
  function CeilDiv(total: nat, size: nat): (pages: nat)
    requires size > 0
    ensures pages * size >= total
    ensures pages == 0 || (pages - 1) * size < total
  {
    var q := (total + size - 1) / size;
    assert q * size <= total + size - 1 < (q + 1) * size;
    q
  }

  /** Python's `rows[start:stop]` for `0 <= start <= stop`. */
  function Slice<T>(rows: seq<T>, start: nat, stop: nat): (r: seq<T>)
    requires start <= stop
    ensures |r| <= stop - start
    ensures start <= |rows| ==> |r| == (if stop <= |rows| then stop else |rows|) - start
    ensures start >= |rows| ==> r == []
    ensures forall i :: 0 <= i < |r| ==> start + i < |rows| && r[i] == rows[start + i]
  {
    var n := |rows|;
    rows[if start < n then start else n..if stop < n then stop else n]
  }

  /** The first row of page `page` of `size` rows. */
  function PageStart(page: int, size: int): (start: nat)
    requires page >= 1 && size >= 1
    ensures start == (page - 1) * size
  {
    (page - 1) * size
  }

  /** The page/page_size mode, for an already clamped page and page size. */
  function PageMode(total: nat, page: int, pageSize: int): (p: Pagination)
    requires page >= 1 && pageSize >= 1
    ensures p.total == total && p.page == page && p.pageSize == pageSize && p.limit == pageSize
    ensures p.totalPages * pageSize >= total && (p.totalPages == 0 || (p.totalPages - 1) * pageSize < total)
    ensures p.offset == (page - 1) * pageSize >= 0
    ensures p.hasNext <==> page < p.totalPages
    ensures p.hasPrev <==> page > 1
  {
    var totalPages := CeilDiv(total, pageSize);
    Pagination(total, page, pageSize, totalPages, page < totalPages, page > 1, (page - 1) * pageSize, pageSize)
  }

  /** The offset/limit mode, for an already clamped offset and limit; a
      limit of 0 means every row, reported as one page of `total or 1` rows. */
  function OffsetMode(total: nat, offset: int, limit: int): (p: Pagination)
    requires offset >= 0 && limit >= 0
    ensures p.total == total && p.offset == offset && p.limit == limit
    ensures p.pageSize == if limit > 0 then limit else if total > 0 then total else 1
    ensures p.pageSize >= 1 && p.page == offset / p.pageSize + 1
    ensures p.totalPages * p.pageSize >= total && (p.totalPages == 0 || (p.totalPages - 1) * p.pageSize < total)
    ensures p.hasNext <==> offset + p.pageSize < total
    ensures p.hasPrev <==> offset > 0
  {
    var pageSize := if limit > 0 then limit else if total > 0 then total else 1;
    Pagination(total, offset / pageSize + 1, pageSize, CeilDiv(total, pageSize),
               offset + pageSize < total, offset > 0, offset, limit)
  }

  lemma MulCancelLt(a: int, b: int, s: int)
    requires s > 0 && a * s < b * s
    ensures a < b
  {
  }

  lemma MulDivExact(k: nat, s: nat)
    requires s >= 1
    ensures (k * s) / s == k
  {
    var q, r := (k * s) / s, (k * s) % s;
    assert q * s + r == k * s && 0 <= r < s;
    assert (k - q) * s == r;
    MulCancelLt(k - q, 1, s);
    MulCancelLt(-1, k - q, s);
  }

  /** `ceil(t / s) > p` exactly when more than `p` pages' worth of rows exist. */
  lemma CeilDivAbove(t: nat, s: nat, p: int)
    requires s >= 1 && p >= 1
    ensures p < CeilDiv(t, s) <==> p * s < t
  {
    var c := CeilDiv(t, s);
    if p < c {
      MulMonotone(p, c - 1, s);
    } else {
      MulMonotone(c, p, s);
    }
  }

  lemma MulMonotone(a: int, b: int, s: nat)
    requires a <= b
    ensures a * s <= b * s
  {
    assert (b - a) * s >= 0;
    assert b * s - a * s == (b - a) * s;
  }

  /** Page `p` of size `s` and offset `(p-1)*s` with limit `s` report the
      same pagination and select the same slice of the ordered rows. */
  lemma {:induction false} PageAgreesWithOffset<T>(rows: seq<T>, p: int, s: int)
    requires p >= 1 && 1 <= s <= 100
    ensures PageMode(|rows|, p, s) == OffsetMode(|rows|, (p - 1) * s, s)
    ensures var start := PageMode(|rows|, p, s).offset;
            start >= 0 && Slice(rows, start, start + s) == Slice(rows, (p - 1) * s, (p - 1) * s + s)
  {
    var a := PageMode(|rows|, p, s);
    var b := OffsetMode(|rows|, (p - 1) * s, s);
    MulDivExact(p - 1, s);
    assert b.page == p;
    CeilDivAbove(|rows|, s, p);
    assert (p - 1) * s + s == p * s;
    assert a.hasNext == b.hasNext;
    assert (p - 1) * s > 0 <==> p > 1 by {
      if p > 1 {
        assert (p - 1) * s >= s;
      }
    }
  }

  /** In page mode every page before the last is full, the last holds the
      remainder, and a page past the end is empty. */
  lemma PageModeRows<T>(rows: seq<T>, page: int, pageSize: int)
    requires page >= 1 && pageSize >= 1
    ensures var p := PageMode(|rows|, page, pageSize);
            var r := Slice(rows, p.offset, p.offset + pageSize);
            && |r| <= pageSize
            && (p.hasNext ==> |r| == pageSize)
            && (r == [] <==> page > p.totalPages)
  {
    var p := PageMode(|rows|, page, pageSize);
    var r := Slice(rows, p.offset, p.offset + pageSize);
    CeilDivAbove(|rows|, pageSize, page);
    if page > 1 {
      CeilDivAbove(|rows|, pageSize, page - 1);
    }
    assert p.offset + pageSize == page * pageSize;
    if page <= p.totalPages {
      assert (page - 1) * pageSize < |rows| by {
        if page == 1 {
          assert p.totalPages >= 1;
        }
      }
    }
  }

  /** A limit of 0 (or none) returns every row whatever the offset, and
      reports a single page with no next page. */
  lemma NoLimitReturnsAll<T>(rows: seq<T>, offset: int)
    requires offset >= 0
    ensures var p := OffsetMode(|rows|, offset, 0);
            && p.pageSize == (if |rows| > 0 then |rows| else 1)
            && !p.hasNext
            && p.totalPages == (if |rows| > 0 then 1 else 0)
  {
    var n := |rows|;
    if n > 0 {
      var c := CeilDiv(n, n);
      assert (c - 1) * n < 1 * n;
      MulCancelLt(c - 1, 1, n);
      assert 0 * n < c * n;
      MulCancelLt(0, c, n);
    }
  }

  // ----- The paging parameters of a request -----

  /** `page`, `page_size`, `offset` and `limit` as the query gives them. */
  datatype PageParams = PageParams(page: Option<string>, pageSize: Option<string>,
                                   offset: Option<string>, limit: Option<string>)

  /** Page mode is chosen by a non-empty `page` or `page_size`. */
  predicate PageRequested(q: PageParams) {
    Truthy(q.page) || Truthy(q.pageSize)
  }

  function PageOf(q: PageParams): (p: int)
    ensures p >= 1
  {
    Clamp(ParsedOr(q.page, 1), Some(1), None)
  }

  function PageSizeOf(q: PageParams): (s: int)
    ensures 1 <= s <= 100
  {
    Clamp(ParsedOr(q.pageSize, 20), Some(1), Some(100))
  }

  function OffsetOf(q: PageParams): (o: int)
    ensures o >= 0
  {
    Clamp(ParsedOr(q.offset, 0), Some(0), None)
  }

  function LimitOf(q: PageParams): (l: int)
    ensures 0 <= l <= 100
  {
    Clamp(ParsedOr(q.limit, 0), Some(0), Some(100))
  }

  /** The pagination reported for `total` ordered rows. */
  function Paginate(q: PageParams, total: nat): (p: Pagination)
    ensures p.total == total
  {
    if PageRequested(q) then PageMode(total, PageOf(q), PageSizeOf(q))
    else OffsetMode(total, OffsetOf(q), LimitOf(q))
  }

  /** Where the returned rows start in the ordered list: a limit of 0
      returns the list from its first row, whatever the offset. */
  function WindowStart(q: PageParams): nat {
    if PageRequested(q) then PageStart(PageOf(q), PageSizeOf(q))
    else if LimitOf(q) > 0 then OffsetOf(q)
    else 0
  }

  /** The rows of the ordered list that a listing returns: a run of
      consecutive rows. */
  function Window<T>(q: PageParams, ordered: seq<T>): (w: seq<T>)
    ensures |w| <= |ordered|
    ensures forall i :: 0 <= i < |w| ==> WindowStart(q) + i < |ordered| && w[i] == ordered[WindowStart(q) + i]
    ensures forall x :: x in w ==> x in ordered
  {
    var start := WindowStart(q);
    if PageRequested(q) then Slice(ordered, start, start + PageSizeOf(q))
    else if LimitOf(q) > 0 then Slice(ordered, start, start + LimitOf(q))
    else ordered
  }

  /** The pagination step of a listing: page/page_size when either is
      given, offset/limit otherwise. */
  method CutPage<T>(qs: seq<T>, q: PageParams) returns (selected: seq<T>, pagination: Pagination)
    ensures selected == Window(q, qs)
    ensures pagination == Paginate(q, |qs|)
  {
    var total := |qs|;
    if Truthy(q.page) || Truthy(q.pageSize) {
      var page := ToInt(q.page, 1, Some(1), None);
      var pageSize := ToInt(q.pageSize, 20, Some(1), Some(100));
      var offset := PageStart(page, pageSize);
      selected := Slice(qs, offset, offset + pageSize);
      pagination := PageMode(total, page, pageSize);
    } else {
      var offset := ToInt(q.offset, 0, Some(0), None);
      var limit := ToInt(q.limit, 0, Some(0), Some(100));
      selected := qs;
      if limit > 0 {
        selected := Slice(qs, offset, offset + limit);
      }
      pagination := OffsetMode(total, offset, limit);
    }
  }

  /** A run of consecutive rows of a sorted list is sorted. */
  lemma WindowSorted<T>(q: PageParams, ordered: seq<T>, key: T -> SortKey, desc: bool)
    requires SortedBy(ordered, key, desc)
    ensures SortedBy(Window(q, ordered), key, desc)
  {
    var w := Window(q, ordered);
    var start := WindowStart(q);
    forall i, j | 0 <= i < j < |w| ensures Ordered(key(w[i]), key(w[j]), desc) {
      assert w[i] == ordered[start + i] && w[j] == ordered[start + j];
    }
  }

  /** Page mode: page at least 1, page size between 1 and 100, the page
      starts at row (page-1)*page_size, holds at most page_size rows (all of
      them when there is a next page, none past the last page), and
      total_pages, has_next and has_prev are ceil(total/page_size),
      page < total_pages and page > 1. */
  lemma PageModeListing<T>(ordered: seq<T>, q: PageParams)
    requires PageRequested(q)
    ensures var p, w := Paginate(q, |ordered|), Window(q, ordered);
            && p.page >= 1 && 1 <= p.pageSize <= 100 && p.limit == p.pageSize
            && p.offset == (p.page - 1) * p.pageSize
            && p.totalPages == CeilDiv(|ordered|, p.pageSize)
            && (p.hasNext <==> p.page < p.totalPages) && (p.hasPrev <==> p.page > 1)
            && |w| <= p.pageSize
            && (p.hasNext ==> |w| == p.pageSize)
            && (w == [] <==> p.page > p.totalPages)
            && (forall i :: 0 <= i < |w| ==> w[i] == ordered[p.offset + i])
  {
    var page, size := PageOf(q), PageSizeOf(q);
    var start := PageStart(page, size);
    assert Paginate(q, |ordered|) == PageMode(|ordered|, page, size);
    assert Window(q, ordered) == Slice(ordered, start, start + size);
    PageModeRows(ordered, page, size);
  }

  /** Offset mode: offset at least 0, limit between 0 and 100; a limit of 0
      returns every ordered row whatever the offset and reports one page of
      (total or 1) rows; otherwise at most `limit` rows from the offset;
      has_next is offset+page_size < total and has_prev is offset > 0. */
  lemma OffsetModeListing<T>(ordered: seq<T>, q: PageParams)
    requires !PageRequested(q)
    ensures var p, w := Paginate(q, |ordered|), Window(q, ordered);
            && p.offset >= 0 && 0 <= p.limit <= 100
            && (p.hasNext <==> p.offset + p.pageSize < |ordered|) && (p.hasPrev <==> p.offset > 0)
            && (p.limit == 0 ==> w == ordered && p.pageSize == (if |ordered| > 0 then |ordered| else 1)
                                 && !p.hasNext && p.totalPages == (if |ordered| > 0 then 1 else 0))
            && (p.limit > 0 ==> p.pageSize == p.limit && |w| <= p.limit
                                && (forall i :: 0 <= i < |w| ==> w[i] == ordered[p.offset + i]))
  {
    assert Paginate(q, |ordered|) == OffsetMode(|ordered|, OffsetOf(q), LimitOf(q));
    NoLimitReturnsAll(ordered, OffsetOf(q));
  }

  /** A query with page `p` and page size `s` is in page mode and reads
      back as that page and size. */
  lemma PageQuery(q: PageParams, p: nat, s: nat)
    requires p >= 1 && 1 <= s <= 100
    ensures var qp := q.(page := Some(IntToString(p)), pageSize := Some(IntToString(s)));
            PageRequested(qp) && PageOf(qp) == p && PageSizeOf(qp) == s
  {
    ParseFormatted(p);
    ParseFormatted(s);
  }

  /** A query with no page, offset `o` and limit `s` is in offset mode and
      reads back as that offset and limit. */
  lemma OffsetQuery(q: PageParams, o: nat, s: nat)
    requires 1 <= s <= 100
    ensures var qo := q.(page := None, pageSize := None, offset := Some(IntToString(o)), limit := Some(IntToString(s)));
            !PageRequested(qo) && OffsetOf(qo) == o && LimitOf(qo) == s
  {
    ParseFormatted(o);
    ParseFormatted(s);
  }

  /** Page mode on page `p` of size `s` and offset mode on offset `start`,
      the first row of that page, with limit `s` return the same rows. */
  lemma WindowsAgree<T>(ordered: seq<T>, qp: PageParams, qo: PageParams, p: nat, s: nat, start: nat)
    requires p >= 1 && 1 <= s <= 100 && start == PageStart(p, s)
    requires PageRequested(qp) && PageOf(qp) == p && PageSizeOf(qp) == s
    requires !PageRequested(qo) && OffsetOf(qo) == start && LimitOf(qo) == s
    ensures Window(qp, ordered) == Window(qo, ordered)
  {
    assert WindowStart(qp) == start && WindowStart(qo) == start;
  }

  /** The same two requests report the same pagination. */
  lemma PaginationsAgree(total: nat, qp: PageParams, qo: PageParams, p: nat, s: nat, start: nat)
    requires p >= 1 && 1 <= s <= 100 && start == (p - 1) * s
    requires PageRequested(qp) && PageOf(qp) == p && PageSizeOf(qp) == s
    requires !PageRequested(qo) && OffsetOf(qo) == start && LimitOf(qo) == s
    ensures Paginate(qp, total) == Paginate(qo, total)
  {
    var rows := seq(total, i => 0);
    PageAgreesWithOffset(rows, p, s);
  }

  /** For a page size between 1 and 100, asking for page `p` of size `s`
      and asking for offset (p-1)*s with limit `s` return the same rows of
      the ordered list and report the same pagination. */
  lemma PageEqualsOffset<T>(ordered: seq<T>, q: PageParams, p: nat, s: nat)
    requires p >= 1 && 1 <= s <= 100
    ensures var qp := q.(page := Some(IntToString(p)), pageSize := Some(IntToString(s)));
            var qo := q.(page := None, pageSize := None,
                         offset := Some(IntToString((p - 1) * s)), limit := Some(IntToString(s)));
            && Window(qp, ordered) == Window(qo, ordered)
            && Paginate(qp, |ordered|) == Paginate(qo, |ordered|)
  {
    var start := PageStart(p, s);
    var qp := q.(page := Some(IntToString(p)), pageSize := Some(IntToString(s)));
    var qo := q.(page := None, pageSize := None,
                 offset := Some(IntToString(start)), limit := Some(IntToString(s)));
    PageQuery(q, p, s);
    OffsetQuery(q, start, s);
    WindowsAgree(ordered, qp, qo, p, s, start);
    PaginationsAgree(|ordered|, qp, qo, p, s, start);
  }
}
