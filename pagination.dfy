/** Page slicing of every list view (`paginate_by = 5`), as Django's
    paginator cuts an ordered, filtered listing. Only page numbers that
    exist are modelled. */
module Pagination {

  /** Rows per page, the same for every list view. */
  const PageSize: nat := 5

  /** Number of pages for `n` rows; an empty listing still has one (empty)
      page. */
  function PageCount(n: nat): (c: nat)
    ensures c >= 1
    ensures n > 0 ==> (c - 1) * PageSize < n <= c * PageSize
    ensures n == 0 ==> c == 1
  {
    if n == 0 then 1 else (n + PageSize - 1) / PageSize
  }

  /** Page `number` (counted from 1): the rows from `(number - 1) * 5` up to
      five further, cut at the end of the listing. */
  function Page<T>(rows: seq<T>, number: nat): (page: seq<T>)
    requires 1 <= number <= PageCount(|rows|)
    ensures |page| <= PageSize
    ensures number < PageCount(|rows|) ==> |page| == PageSize
    ensures |rows| > 0 ==> |page| > 0
    ensures (number - 1) * PageSize + |page| <= |rows|
    ensures forall k :: 0 <= k < |page| ==> page[k] == rows[(number - 1) * PageSize + k]
  {
    var bottom := (number - 1) * PageSize;
    var top := if bottom + PageSize >= |rows| then |rows| else bottom + PageSize;
    rows[bottom..top]
  }

  /** Every row of the listing appears on exactly the page and at the
      position its index gives. */
  lemma RowOnItsPage<T>(rows: seq<T>, i: nat)
    requires i < |rows|
    ensures 1 <= i / PageSize + 1 <= PageCount(|rows|)
    ensures i % PageSize < |Page(rows, i / PageSize + 1)|
    ensures Page(rows, i / PageSize + 1)[i % PageSize] == rows[i]
  {
  }

  /** Twelve rows make three pages of 5, 5 and 2 rows. */
  lemma TwelveRowsThreePages<T>(rows: seq<T>)
    requires |rows| == 12
    ensures PageCount(|rows|) == 3
    ensures |Page(rows, 1)| == 5 && |Page(rows, 2)| == 5 && |Page(rows, 3)| == 2
    ensures Page(rows, 1) + Page(rows, 2) + Page(rows, 3) == rows
  {
  }
}
