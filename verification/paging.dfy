/** The page arithmetic of a paginated event listing. */
module Paging {

  /** One page of results and the figures describing the whole listing. */
  datatype PageResult<T> = PageResult(
    items: seq<T>,
    pageNumber: int,
    pageSize: int,
    totalCount: int,
    totalPages: int)
  {
    predicate HasPreviousPage()
    {
      pageNumber > 1
    }

    predicate HasNextPage()
    {
      pageNumber < totalPages
    }
  }

  /** The least q with a <= q * b, for b > 0: Math.Ceiling(a / (double)b),
      which is exact for 32-bit operands. */
  function CeilingDivision(a: int, b: int): (q: int)
    requires b > 0
    ensures (q - 1) * b < a <= q * b
  {
    -((-a) / b)
  }

  /** The PageResult constructor: the four inputs are stored unchanged and
      the page count is the ceiling of totalCount / pageSize. A negative page
      size is not rejected; it gives the ceiling of a negative quotient. */
  function NewPageResult<T>(items: seq<T>, totalCount: int, pageNumber: int, pageSize: int): (r: PageResult<T>)
    requires pageSize != 0
    ensures r.items == items && r.totalCount == totalCount
    ensures r.pageNumber == pageNumber && r.pageSize == pageSize
    ensures pageSize > 0 ==> (r.totalPages - 1) * pageSize < totalCount <= r.totalPages * pageSize
    ensures pageSize < 0 ==> r.totalPages * pageSize <= totalCount < (r.totalPages - 1) * pageSize
    ensures totalCount >= 0 ==> (r.totalPages >= 0 <==> pageSize > 0 || totalCount < -pageSize)
  {
    var pages := if pageSize > 0 then CeilingDivision(totalCount, pageSize) else CeilingDivision(-totalCount, -pageSize);
    PageResult(items, pageNumber, pageSize, totalCount, pages)
  }

  /** Multiplying by a positive number keeps an order, by a negative one turns it round. */
  lemma ScaleOrder(x: int, y: int, b: int)
    requires x <= y
    ensures b > 0 ==> x * b <= y * b
    ensures b < 0 ==> x * b >= y * b
  {
    assert y * b - x * b == (y - x) * b;
  }

  /** There is a next page exactly when some results lie beyond the current
      one; with a negative page size the comparison turns round. */
  lemma HasNextPageIffMoreResults<T>(items: seq<T>, totalCount: int, pageNumber: int, pageSize: int)
    requires pageSize != 0
    ensures NewPageResult(items, totalCount, pageNumber, pageSize).HasNextPage()
        <==> if pageSize > 0 then pageNumber * pageSize < totalCount else pageNumber * pageSize > totalCount
  {
    var q := NewPageResult(items, totalCount, pageNumber, pageSize).totalPages;
    if pageNumber < q {
      ScaleOrder(pageNumber, q - 1, pageSize);
    } else {
      ScaleOrder(q, pageNumber, pageSize);
    }
  }

  /** An empty listing has no pages and no next page from page 0 on. */
  lemma EmptyListingHasNoPages<T>(items: seq<T>, pageNumber: int, pageSize: int)
    requires pageSize != 0 && pageNumber >= 0
    ensures NewPageResult(items, 0, pageNumber, pageSize).totalPages == 0
    ensures !NewPageResult(items, 0, pageNumber, pageSize).HasNextPage()
  {
  }
}
