/**
 * Pagination of the filtered rows: `get_paginated_data` slices a fixed page
 * of five rows with Python's slice rules, and `update_table` counts the pages.
 */
module Paging {

  const ItemsPerPage: int := 5

  function Min(a: int, b: int): int
  {
    if a <= b then a else b
  }

  /** Python's normalisation of one slice bound for a sequence of length `n`:
      a negative bound counts from the end, and the result is clamped to
      `[0, n]`. */
  function SliceBound(i: int, n: nat): (b: nat)
    ensures b <= n
    ensures 0 <= i ==> b == Min(i, n)
  {
    if i < 0 then (if i + n < 0 then 0 else i + n)
    else if i > n then n
    else i
  }

  /** `s[start:end]` in Python. */
  function PySlice<T>(s: seq<T>, start: int, end: int): seq<T>
  {
    var a, b := SliceBound(start, |s|), SliceBound(end, |s|);
    if a < b then s[a..b] else []
  }

  /** `get_paginated_data(rows, page)`: `rows.iloc[(page-1)*5 : (page-1)*5 + 5]`. */
  function PageRows<T>(rows: seq<T>, page: int): seq<T>
  {
    var start := (page - 1) * ItemsPerPage;
    PySlice(rows, start, start + ItemsPerPage)
  }

  /** `total_pages` as gui3.py and gui4.py compute it: `(n + 4) // 5`,
      replaced by 1 when there are no rows. It is the least number of pages
      of five that hold `n` rows, and never zero. */
  function TotalPagesOrOne(n: nat): (t: int)
    ensures t >= 1
    ensures n == 0 ==> t == 1
    ensures n > 0 ==> (t - 1) * ItemsPerPage < n <= t * ItemsPerPage
  {
    var t := (n + ItemsPerPage - 1) / ItemsPerPage;
    if n == 0 then 1 else t
  }

  /** `total_pages` as gui3withCss.py computes it: `max(1, (n + 4) // 5)`. */
  function TotalPagesAtLeastOne(n: nat): (t: int)
    ensures t >= 1
    ensures n == 0 ==> t == 1
    ensures n > 0 ==> (t - 1) * ItemsPerPage < n <= t * ItemsPerPage
  {
    var t := (n + ItemsPerPage - 1) / ItemsPerPage;
    if t < 1 then 1 else t
  }

  /** `total_pages` when the script is loaded, before the first update:
      `(len(df) + 4) // 5`. It would be 0 for an empty table, but the scripts
      never get this far with one. */
  function InitialTotalPages(n: nat): (t: int)
    ensures t == 0 <==> n == 0
    ensures n > 0 ==> t == TotalPagesOrOne(n)
  {
    (n + ItemsPerPage - 1) / ItemsPerPage
  }

  /** Both ways of counting pages agree. */
  lemma TotalPagesAgree(n: nat)
    ensures TotalPagesOrOne(n) == TotalPagesAtLeastOne(n)
  {
  }

  /** Page `page` (counted from 1) holds the rows from `(page-1)*5` up to
      `page*5`, cut at the end of the list, so at most five rows. */
  lemma PageContents<T>(rows: seq<T>, page: int)
    requires page >= 1
    ensures var lo, hi := Min((page - 1) * ItemsPerPage, |rows|), Min(page * ItemsPerPage, |rows|);
            PageRows(rows, page) == rows[lo..hi]
    ensures |PageRows(rows, page)| <= ItemsPerPage
  {
  }

  /** Every page before the last is full, the last one is not empty, and
      every page after it is empty. */
  lemma PageSizes<T>(rows: seq<T>, page: int)
    requires page >= 1
    ensures page < TotalPagesOrOne(|rows|) ==> |PageRows(rows, page)| == ItemsPerPage
    ensures page == TotalPagesOrOne(|rows|) && rows != [] ==> PageRows(rows, page) != []
    ensures page > TotalPagesOrOne(|rows|) ==> PageRows(rows, page) == []
  {
    PageContents(rows, page);
  }

  /** Page 0, where Previous from page 1 would lead, is empty under Python's
      slice rules (`rows[-5:0]`). */
  lemma PageZeroEmpty<T>(rows: seq<T>)
    ensures PageRows(rows, 0) == []
  {
  }

  /** Pages 1 to `k`, one after the other. */
  function Pages<T>(rows: seq<T>, k: nat): seq<T>
  {
    if k == 0 then [] else Pages(rows, k - 1) + PageRows(rows, k)
  }

  /** The first `k` pages are the first `5k` rows. */
  lemma {:induction false} PagesPrefix<T>(rows: seq<T>, k: nat)
    ensures Pages(rows, k) == rows[..Min(k * ItemsPerPage, |rows|)]
  {
    if k > 0 {
      PagesPrefix(rows, k - 1);
      PageContents(rows, k);
      var lo, hi := Min((k - 1) * ItemsPerPage, |rows|), Min(k * ItemsPerPage, |rows|);
      assert rows[..lo] + rows[lo..hi] == rows[..hi];
    }
  }

  /** The pages partition the rows: pages 1 to `total_pages`, concatenated,
      give back the filtered list. */
  lemma PagesPartition<T>(rows: seq<T>)
    ensures Pages(rows, TotalPagesOrOne(|rows|)) == rows
  {
    PagesPrefix(rows, TotalPagesOrOne(|rows|));
  }
}
