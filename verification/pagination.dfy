/** The pagination block repeated in every paginated list endpoint: the page
    numbers are computed from the `skip` and `limit` query parameters and the
    number of matching records. */
module Pagination {
  import opened Wrappers

  /** Python's `//`: division rounding toward negative infinity. */
  function FloorDiv(a: int, b: int): (q: int)
    requires b != 0
    ensures b > 0 ==> q * b <= a < q * b + b
    ensures b < 0 ==> q * b >= a > q * b + b
  {
    if b > 0 then a / b else (-a) / (-b)
  }

  /** The `pagination` object of a list response. */
  datatype Info = Info(
    totalRecords: int,
    perPage: int,
    currentPage: int,
    totalPages: int,
    nextPage: Option<int>,
    prevPage: Option<int>)

  /** The page numbers for `skip`, `limit` and the record count. A `limit`
      of zero is falsy, so it falls back to a single page. */
  function Paginate(skip: int, limit: int, total: nat): (p: Info)
    ensures p.totalRecords == total && p.perPage == limit
    ensures limit == 0 ==> p.currentPage == 1 && p.totalPages == 1
    ensures limit > 0 ==> (p.currentPage - 1) * limit <= skip < p.currentPage * limit
    ensures limit > 0 ==> (p.totalPages - 1) * limit < total <= p.totalPages * limit
    ensures p.nextPage.Some? <==> p.currentPage < p.totalPages
    ensures p.nextPage.Some? ==> p.nextPage.value == p.currentPage + 1
    ensures p.prevPage.Some? <==> p.currentPage > 1
    ensures p.prevPage.Some? ==> p.prevPage.value == p.currentPage - 1
  {
    var current := if limit != 0 then FloorDiv(skip, limit) + 1 else 1;
    var pages := if limit != 0 then FloorDiv(total + limit - 1, limit) else 1;
    var next := if current < pages then Some(current + 1) else None;
    var prev := if current > 1 then Some(current - 1) else None;
    Info(total, limit, current, pages, next, prev)
  }

  /** A list response: the page of rows and its pagination. */
  datatype Page<T> = Page(data: seq<T>, pagination: Info)

  /** With `limit == 0` there is one page and no neighbours. */
  lemma ZeroLimit(skip: int, total: nat)
    ensures Paginate(skip, 0, total) == Info(total, 0, 1, 1, None, None)
  {
  }

  /** A present next page never exceeds the page count. */
  lemma NextWithinPages(skip: int, limit: int, total: nat)
    ensures var p := Paginate(skip, limit, total);
      p.nextPage.Some? ==> p.nextPage.value <= p.totalPages
  {
  }

  /** Cancelling a positive factor on both sides of `<`. */
  lemma CancelFactor(a: int, b: int, c: int)
    requires c > 0 && a * c < b * c
    ensures a < b
  {
    assert b * c - a * c == (b - a) * c;
  }

  /** With no records and a positive limit there are no pages; a first-page
      `skip` is page 1, and no non-negative `skip` has a next page. */
  lemma NoRecords(skip: int, limit: int)
    requires limit > 0
    ensures Paginate(skip, limit, 0).totalPages == 0
    ensures skip >= 0 ==> Paginate(skip, limit, 0).nextPage == None
    ensures 0 <= skip < limit ==> Paginate(skip, limit, 0).currentPage == 1
  {
    var p := Paginate(skip, limit, 0);
    CancelFactor(p.totalPages - 1, 0, limit);
    CancelFactor(-1, p.totalPages, limit);
    if skip >= 0 {
      CancelFactor(-1, p.currentPage, limit);
    }
    if 0 <= skip < limit {
      CancelFactor(p.currentPage - 1, 1, limit);
    }
  }

  /** A `skip` past the last page lands on a page after the last one, still
      with no next page. */
  lemma BeyondLastPage(skip: int, limit: int, total: nat)
    requires limit > 0
    requires skip >= Paginate(skip, limit, total).totalPages * limit
    ensures Paginate(skip, limit, total).currentPage > Paginate(skip, limit, total).totalPages
    ensures Paginate(skip, limit, total).nextPage == None
  {
    var p := Paginate(skip, limit, total);
    CancelFactor(p.totalPages, p.currentPage, limit);
  }

  /** A negative limit is truthy, so the formulas floor-divide by it:
      `skip=0, limit=-1` over 5 records is page 1 of -3. */
  lemma NegativeLimitExample()
    ensures Paginate(0, -1, 5) == Info(5, -1, 1, -3, None, None)
  {
  }
}
