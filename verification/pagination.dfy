/**
 Page slicing and page metadata, the body of `getPageData` after filtering.
 Page numbers are 1-based and the slice follows `Array.prototype.slice`.
 */
module Pagination {

  datatype PageInfo = PageInfo(
    currentPage: int,
    pageSize: int,
    totalCount: nat,
    totalPages: nat,
    hasNext: bool,
    hasPrev: bool)

  datatype PageResult<T> = PageResult(data: seq<T>, pagination: PageInfo)

  /** The default page size of the loader and of the dashboard. */
  const DefaultPageSize: int := 50

  /** `Math.ceil(n / d)` for a positive divisor. */
  function CeilDiv(n: nat, d: int): (q: nat)
    requires d >= 1
    ensures q * d >= n
    ensures q == 0 || (q - 1) * d < n
    ensures q == 0 <==> n == 0
  {
    (n + d - 1) / d
  }

  function Min(a: int, b: int): int
  {
    if a <= b then a else b
  }

  function Max(a: int, b: int): int
  {
    if a >= b then a else b
  }

  /** A slice bound: a negative one counts back from the end; both are clamped to the sequence. */
  function ResolveIndex(i: int, len: nat): (k: nat)
    ensures k <= len
    ensures 0 <= i ==> k == Min(i, len)
  {
    if i < 0 then Max(len + i, 0) else Min(i, len)
  }

  /** `s.slice(start, end)`: empty when the resolved end does not lie after the resolved start. */
  function Slice<T>(s: seq<T>, start: int, end: int): (r: seq<T>)
    ensures 0 <= start <= end ==> r == s[Min(start, |s|)..Min(end, |s|)]
    ensures |r| <= |s|
  {
    var from := ResolveIndex(start, |s|);
    var to := ResolveIndex(end, |s|);
    if from < to then s[from..to] else []
  }

  /** Everything in a slice comes from the sliced sequence. */
  lemma SliceMembers<T>(s: seq<T>, start: int, end: int, x: T)
    requires x in Slice(s, start, end)
    ensures x in s
  {
    var from := ResolveIndex(start, |s|);
    var to := ResolveIndex(end, |s|);
    var i :| 0 <= i < to - from && s[from..to][i] == x;
    assert s[from + i] == x;
  }

  /** `(page - 1) * pageSize`: the index of the first item of page `page`. */
  function PageStart(page: int, pageSize: int): int
  {
    (page - 1) * pageSize
  }

  /** Consecutive pages start `pageSize` apart, and page 1 starts at 0. */
  lemma PageStartStep(page: int, pageSize: int)
    requires pageSize >= 1
    ensures PageStart(page + 1, pageSize) == PageStart(page, pageSize) + pageSize
    ensures page >= 1 ==> PageStart(page, pageSize) >= 0
    ensures PageStart(1, pageSize) == 0
  {
    assert page * pageSize == (page - 1) * pageSize + pageSize;
    if page >= 1 {
      MulMonotone(0, page - 1, pageSize);
    }
  }

  /** The page `page` of `items`, with its metadata. */
  function Paginate<T>(items: seq<T>, page: int, pageSize: int): (r: PageResult<T>)
    requires pageSize >= 1
    ensures r.pagination.totalCount == |items|
    ensures r.pagination.totalPages == CeilDiv(|items|, pageSize)
    ensures r.pagination.hasPrev <==> page > 1
    ensures r.pagination.hasNext <==> page < r.pagination.totalPages
    ensures r.pagination.currentPage == page && r.pagination.pageSize == pageSize
    ensures |r.data| <= pageSize
  {
    var startIndex := PageStart(page, pageSize);
    PageLength(items, startIndex, pageSize);
    PageResult(Slice(items, startIndex, startIndex + pageSize),
               PageInfo(page, pageSize, |items|, CeilDiv(|items|, pageSize), page < CeilDiv(|items|, pageSize), page > 1))
  }

  /** Page `page` (counting from 1) holds the items from `PageStart(page)` up to the next page's start. */
  lemma PageData<T>(items: seq<T>, page: int, pageSize: int)
    requires pageSize >= 1 && page >= 1
    ensures Paginate(items, page, pageSize).data
            == items[Min(PageStart(page, pageSize), |items|)..Min(PageStart(page + 1, pageSize), |items|)]
  {
    PageStartStep(page, pageSize);
  }

  /** A slice whose bounds are `pageSize` apart holds at most `pageSize` elements. */
  lemma PageLength<T>(items: seq<T>, start: int, pageSize: int)
    requires pageSize >= 1
    ensures |Slice(items, start, start + pageSize)| <= pageSize
  {
  }

  /** A page past the last one is empty. */
  lemma PastLastPageIsEmpty<T>(items: seq<T>, page: int, pageSize: int)
    requires pageSize >= 1
    requires page > CeilDiv(|items|, pageSize)
    ensures Paginate(items, page, pageSize).data == []
  {
    var t := CeilDiv(|items|, pageSize);
    assert PageStart(page, pageSize) >= t * pageSize by {
      MulMonotone(t, page - 1, pageSize);
    }
  }

  /** Every page up to the last one is non-empty. */
  lemma PagesUpToLastAreNonEmpty<T>(items: seq<T>, page: int, pageSize: int)
    requires pageSize >= 1
    requires 1 <= page <= CeilDiv(|items|, pageSize)
    ensures |Paginate(items, page, pageSize).data| > 0
  {
    var t := CeilDiv(|items|, pageSize);
    var start := PageStart(page, pageSize);
    PageStartStep(page, pageSize);
    assert start < |items| by {
      MulMonotone(page - 1, t - 1, pageSize);
    }
    PageData(items, page, pageSize);
  }

  lemma MulMonotone(a: int, b: int, c: int)
    requires a <= b && c >= 0
    ensures a * c <= b * c
  {
  }

  /** The concatenation of pages `from` to the last one. */
  function PagesFrom<T>(items: seq<T>, pageSize: int, from: int): seq<T>
    requires pageSize >= 1 && from >= 1
    decreases CeilDiv(|items|, pageSize) - from
  {
    if from > CeilDiv(|items|, pageSize) then []
    else Paginate(items, from, pageSize).data + PagesFrom(items, pageSize, from + 1)
  }

  /** An item in pages `from` onwards is on one particular page among them. */
  lemma {:induction false} PageOf<T>(items: seq<T>, pageSize: int, from: int, x: T) returns (p: int)
    requires pageSize >= 1 && from >= 1
    requires x in PagesFrom(items, pageSize, from)
    ensures from <= p <= CeilDiv(|items|, pageSize)
    ensures x in Paginate(items, p, pageSize).data
    decreases CeilDiv(|items|, pageSize) - from
  {
    if x in Paginate(items, from, pageSize).data {
      p := from;
    } else {
      p := PageOf(items, pageSize, from + 1, x);
    }
  }

  /** Pages `from` onwards are exactly the items from the first index of page `from`. */
  lemma {:induction false} PagesFromSuffix<T>(items: seq<T>, pageSize: int, from: int)
    requires pageSize >= 1 && 1 <= from
    requires from <= CeilDiv(|items|, pageSize) + 1
    ensures PagesFrom(items, pageSize, from) == items[Min(PageStart(from, pageSize), |items|)..]
    decreases CeilDiv(|items|, pageSize) - from
  {
    var t := CeilDiv(|items|, pageSize);
    if from > t {
      assert PageStart(from, pageSize) >= |items| by {
        assert from - 1 == t;
      }
    } else {
      PagesFromSuffix(items, pageSize, from + 1);
      var a := Min(PageStart(from, pageSize), |items|);
      var b := Min(PageStart(from + 1, pageSize), |items|);
      PageData(items, from, pageSize);
      PageStartStep(from, pageSize);
      assert items[a..b] + items[b..] == items[a..];
    }
  }

  /**
   The pages partition the list: pages 1 to totalPages, concatenated, give back
   exactly the list, in order, with nothing repeated or left out.
   */
  lemma PagesPartition<T>(items: seq<T>, pageSize: int)
    requires pageSize >= 1
    ensures PagesFrom(items, pageSize, 1) == items
  {
    PagesFromSuffix(items, pageSize, 1);
    PageStartStep(1, pageSize);
  }

  /**
   A negative page number is not empty: `slice` counts negative bounds from the
   end, so page -1 of three items with page size 1 is the middle item.
   */
  lemma NegativePageCountsFromEnd<T>(a: T, b: T, c: T)
    ensures Paginate([a, b, c], -1, 1).data == [b]
  {
    assert Slice([a, b, c], -2, -1) == [a, b, c][1..2];
  }

  /** Page 0 is always empty. */
  lemma PageZeroIsEmpty<T>(items: seq<T>, pageSize: int)
    requires pageSize >= 1
    ensures Paginate(items, 0, pageSize).data == []
  {
  }
}
