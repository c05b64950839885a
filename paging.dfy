/**
 * Pagination of the table (src/components/DataTable.tsx): `paginatedData` is
 * `filteredData.slice(start, start + itemsPerPage)` with
 * `start = (currentPage - 1) * itemsPerPage`, and
 * `totalPages = Math.ceil(filteredData.length / itemsPerPage)`.
 */
module Paging {

  /** How `Array.prototype.slice` reads an index: counted from the end when negative, then clamped to the length. */
  function SliceIndex(i: int, len: nat): (r: nat)
    ensures r <= len
    ensures 0 <= i <= len ==> r == i
    ensures i > len ==> r == len
  {
    if i < 0 then (if len + i < 0 then 0 else len + i)
    else if i > len then len
    else i
  }

  /** `s.slice(start, end)`. */
  function Slice<T>(s: seq<T>, start: int, end: int): (r: seq<T>)
    ensures |r| <= |s|
    ensures 0 <= start <= end <= |s| ==> r == s[start..end]
    ensures 0 <= end <= start ==> r == []
  {
    var a, b := SliceIndex(start, |s|), SliceIndex(end, |s|);
    if a < b then s[a..b] else []
  }

  /** `paginatedData`. */
  function PageSlice<T>(rows: seq<T>, page: int, perPage: int): (r: seq<T>)
    ensures |r| <= |rows|
    ensures perPage >= 0 ==> |r| <= perPage
  {
    var start := (page - 1) * perPage;
    Slice(rows, start, start + perPage)
  }

  /** `Math.ceil(len / perPage)` for a positive page size. */
  function TotalPages(len: nat, perPage: int): (r: int)
    requires perPage > 0
    ensures r >= 0
    ensures r == 0 <==> len == 0
  {
    (len + perPage - 1) / perPage
  }

  function Min(a: int, b: int): int { if a < b then a else b }

  lemma MulMonotone(a: int, b: int, n: int)
    requires a <= b && n >= 0
    ensures a * n <= b * n
  {
    assert b * n - a * n == (b - a) * n;
  }

  lemma MulPred(a: int, n: int)
    ensures (a - 1) * n == a * n - n
  {
  }

  /** `totalPages` is the least page count whose pages hold every row; it is 0 for no rows. */
  lemma TotalPagesIsCeiling(len: nat, perPage: int)
    requires perPage > 0
    ensures TotalPages(len, perPage) >= 0
    ensures TotalPages(len, perPage) == 0 <==> len == 0
    ensures len <= TotalPages(len, perPage) * perPage
    ensures len > 0 ==> (TotalPages(len, perPage) - 1) * perPage < len
  {
    var q := (len + perPage - 1) / perPage;
    var r := (len + perPage - 1) % perPage;
    assert len + perPage - 1 == q * perPage + r && 0 <= r < perPage;
    MulPred(q, perPage);
    if q < 0 {
      MulMonotone(q, -1, perPage);
    }
    if q >= 1 {
      MulMonotone(1, q, perPage);
    }
  }

  /** A page starts at or past the last row exactly when it comes after `totalPages`. */
  lemma PastLastPage(len: nat, perPage: int, page: int)
    requires perPage > 0 && page >= 1
    ensures (page - 1) * perPage >= len <==> page > TotalPages(len, perPage)
  {
    var t := TotalPages(len, perPage);
    TotalPagesIsCeiling(len, perPage);
    if page > t {
      MulMonotone(t, page - 1, perPage);
    } else {
      MulMonotone(page - 1, t - 1, perPage);
    }
  }

  /** For a page of at least 1, the slice is the rows from `(page - 1) * perPage` up to `page * perPage`, clamped to the end. */
  lemma PageSliceIsWindow<T>(rows: seq<T>, page: int, perPage: int)
    requires page >= 1 && perPage >= 1
    ensures var start := (page - 1) * perPage;
      PageSlice(rows, page, perPage) == if start < |rows| then rows[start..Min(page * perPage, |rows|)] else []
    ensures |PageSlice(rows, page, perPage)| <= perPage
  {
    MulMonotone(0, page - 1, perPage);
    MulPred(page, perPage);
  }

  /** Every page up to `totalPages` holds at least one row, and every later page is empty. */
  lemma PageEmptyIffPastLast<T>(rows: seq<T>, page: int, perPage: int)
    requires page >= 1 && perPage >= 1
    ensures PageSlice(rows, page, perPage) == [] <==> page > TotalPages(|rows|, perPage)
  {
    PageSliceIsWindow(rows, page, perPage);
    PastLastPage(|rows|, perPage, page);
    MulPred(page, perPage);
  }

  /** Pages 1 to `count`, one after the other. */
  function Pages<T>(rows: seq<T>, perPage: int, count: nat): seq<T>
  {
    if count == 0 then [] else Pages(rows, perPage, count - 1) + PageSlice(rows, count, perPage)
  }

  lemma {:induction false} PagesArePrefix<T>(rows: seq<T>, perPage: int, count: nat)
    requires perPage >= 1
    ensures Pages(rows, perPage, count) == rows[..Min(count * perPage, |rows|)]
  {
    if count > 0 {
      PagesArePrefix(rows, perPage, count - 1);
      PageSliceIsWindow(rows, count, perPage);
      MulPred(count, perPage);
      MulMonotone(0, count - 1, perPage);
      var start := (count - 1) * perPage;
      var end := Min(count * perPage, |rows|);
      assert 0 <= start && start + perPage == count * perPage;
      if start < |rows| {
        assert start <= end <= |rows|;
        assert rows[..start] + rows[start..end] == rows[..end];
      }
    }
  }

  /** Reading pages 1 to `totalPages` in turn shows every row once, in order. */
  lemma PagesCoverRows<T>(rows: seq<T>, perPage: int)
    requires perPage >= 1
    ensures Pages(rows, perPage, TotalPages(|rows|, perPage)) == rows
  {
    TotalPagesIsCeiling(|rows|, perPage);
    PagesArePrefix(rows, perPage, TotalPages(|rows|, perPage));
  }

  /** The "Previous" button: `Math.max(1, prev - 1)`. */
  function PrevPage(page: int): (r: int)
    ensures r >= 1
    ensures page > 1 ==> r < page
  {
    if page - 1 > 1 then page - 1 else 1
  }

  /** The "Next" button: `Math.min(totalPages, prev + 1)`. */
  function NextPage(page: int, totalPages: int): (r: int)
    ensures r <= totalPages
    ensures page < totalPages ==> page < r
    ensures page >= 1 && totalPages >= 1 ==> r >= 1
  {
    if page + 1 < totalPages then page + 1 else totalPages
  }

  /** From a page in range, both buttons stay in range; each moves by one unless at its end. */
  lemma PageMovesStayInRange(page: int, totalPages: int)
    requires 1 <= page <= totalPages
    ensures 1 <= PrevPage(page) <= totalPages && 1 <= NextPage(page, totalPages) <= totalPages
    ensures PrevPage(page) == if page == 1 then 1 else page - 1
    ensures NextPage(page, totalPages) == if page == totalPages then totalPages else page + 1
  {
  }
}
