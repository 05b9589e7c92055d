/** The list endpoints of api/routers/{events,users,agreements}.py: the
    `sort` and `filter` query strings are parsed when non-empty, the matching
    rows are counted, the page numbers are computed from `skip`, `limit` and
    that count, and the page is fetched. The tag, post, comment and reaction
    lists of api/routers/posts.py skip the count and return the bare page. */
module Listing {
  import opened Wrappers
  import opened Store
  import opened Pagination
  import Query

  /** `parse_*_param(q) if q else None`: an absent or empty string is not
      parsed and means no sort or no filter. */
  predicate Given(q: Option<string>) {
    q.Some? && q.value != ""
  }

  function SortOf(q: Option<string>): Result<seq<(string, string)>> {
    if Given(q) then Query.ParseSort(q.value) else Ok([])
  }

  function FilterOf(q: Option<string>): Result<seq<(string, Query.FilterValue)>> {
    if Given(q) then Query.ParseFilter(q.value) else Ok([])
  }

  /** The ids the filter string selects, ascending, once it parsed and named
      only attributes of the model. */
  function Selection(t: Table, attrs: set<string>, filter: Option<string>): seq<nat> {
    if FilterOf(filter).Ok? && Query.ApplyFilters(attrs, FilterOf(filter).value).Ok? then
      Matching(t, Query.ApplyFilters(attrs, FilterOf(filter).value).value)
    else []
  }

  /** Whether the query strings parse and name only attributes of the model. */
  predicate Valid(attrs: set<string>, sort: Option<string>, filter: Option<string>) {
    && SortOf(sort).Ok? && FilterOf(filter).Ok?
    && Query.ApplyFilters(attrs, FilterOf(filter).value).Ok?
    && (|SortOf(sort).value| == 0 || Query.ApplySorting(attrs, SortOf(sort).value).Ok?)
  }

  /** Whether `data` is the page of `all` that starts at `skip` and holds at
      most `limit` ids (any number when the limit does not apply). */
  predicate IsPage(data: seq<nat>, all: seq<nat>, skip: nat, limit: int, bounded: bool) {
    && (forall i :: 0 <= i < |data| ==> skip + i < |all| && data[i] == all[skip + i])
    && |data| == if skip >= |all| then 0 else if bounded && limit < |all| - skip then limit else |all| - skip
  }

  /** A list endpoint with the pagination envelope: it fails exactly when a
      query string is malformed, names an unknown field, or the offset or
      limit is negative; otherwise it returns the page starting at `skip`,
      every record the filter selects counted. */
  function Envelope(t: Table, attrs: set<string>, skip: int, limit: int,
                    sort: Option<string>, filter: Option<string>, mode: Mode): (r: Result<Page<nat>>)
    ensures r.Ok? <==> Valid(attrs, sort, filter) && skip >= 0 && (limit >= 0 || !Applies(Some(limit), mode))
    ensures SortOf(sort).Err? ==> r == Err(Query.UnpackError)
    ensures SortOf(sort).Ok? && FilterOf(filter).Err? ==> r == Err(Query.UnpackError)
    ensures !Valid(attrs, sort, filter) ==> r.Err? && r.error.Status() in {400, 500}
    ensures r.Ok? ==> r.value.pagination == Paginate(skip, limit, |Selection(t, attrs, filter)|)
    ensures r.Ok? ==> IsPage(r.value.data, Selection(t, attrs, filter), skip, limit, Applies(Some(limit), mode))
    ensures r.Ok? ==> forall i :: 0 <= i < |r.value.data| ==> GetActive(t, r.value.data[i]).Some?
  {
    var sortMap :- SortOf(sort);
    var filterMap :- FilterOf(filter);
    var total :- Count(t, attrs, filterMap);
    var data :- List(t, attrs, Some(skip), Some(limit), sortMap, filterMap, mode);
    var all := Selection(t, attrs, filter);
    assert Offset(Some(skip), mode) == skip;
    forall i | 0 <= i < |data|
      ensures GetActive(t, data[i]).Some?
    {
      assert data[i] in all;
    }
    Ok(Page(data, Paginate(skip, limit, total)))
  }

  /** A list endpoint that returns the bare page: no count, no envelope. */
  function Bare(t: Table, attrs: set<string>, skip: int, limit: int,
                sort: Option<string>, filter: Option<string>): (r: Result<seq<nat>>)
    ensures r.Ok? <==> Valid(attrs, sort, filter) && skip >= 0 && limit >= 0
    ensures r.Ok? ==> IsPage(r.value, Selection(t, attrs, filter), skip, limit, true)
    ensures r.Ok? ==> r.value == Envelope(t, attrs, skip, limit, sort, filter, WhenGiven).value.data
  {
    var sortMap :- SortOf(sort);
    var filterMap :- FilterOf(filter);
    assert Offset(Some(skip), WhenGiven) == skip;
    List(t, attrs, Some(skip), Some(limit), sortMap, filterMap, WhenGiven)
  }

  /** Multiplying both sides of `<=` by a positive factor. */
  lemma MulMonotone(a: int, b: int, c: int)
    requires a <= b && c > 0
    ensures a * c <= b * c
  {
    assert b * c - a * c == (b - a) * c;
  }

  /** A page number from a valid request is at least 1. */
  lemma FirstPageAtLeastOne(skip: int, limit: int, total: nat)
    requires skip >= 0 && limit > 0
    ensures Paginate(skip, limit, total).currentPage >= 1
  {
    var p := Paginate(skip, limit, total);
    CancelFactor(0, p.currentPage, limit);
  }

  /** The offset `c * limit` lies on page `c + 1`. */
  lemma PageOfMultiple(c: int, q: int, limit: int)
    requires limit > 0 && (q - 1) * limit <= c * limit < q * limit
    ensures q == c + 1
  {
    CancelFactor(c, q, limit);
    assert (c + 1) * limit == c * limit + limit;
    if q - 1 > c {
      MulMonotone(c + 1, q - 1, limit);
    }
  }

  /** The offset of the page after page `c` of `pages` lies below the record
      count. */
  lemma NextOffsetBelowTotal(c: int, pages: int, limit: int, total: nat)
    requires limit > 0 && 1 <= c < pages && (pages - 1) * limit < total
    ensures 0 < c * limit < total
  {
    MulMonotone(1, c, limit);
    MulMonotone(c, pages - 1, limit);
  }

  /** The page after the current one starts at `current_page * limit`, a
      positive offset below the record count, and is numbered `next_page`. */
  lemma NextPageOffset(skip: int, limit: int, total: nat)
    requires skip >= 0 && limit > 0
    requires Paginate(skip, limit, total).nextPage.Some?
    ensures var p := Paginate(skip, limit, total);
      && 0 < p.currentPage * limit < total
      && Paginate(p.currentPage * limit, limit, total).currentPage == p.nextPage.value
  {
    var p := Paginate(skip, limit, total);
    FirstPageAtLeastOne(skip, limit, total);
    NextOffsetBelowTotal(p.currentPage, p.totalPages, limit, total);
    var q := Paginate(p.currentPage * limit, limit, total);
    PageOfMultiple(p.currentPage, q.currentPage, limit);
  }

  /** Following `next_page` lands on a page that holds records: requesting
      `skip = current_page * limit` succeeds, is numbered `next_page`, and is
      not empty. */
  lemma NextPageNotEmpty(t: Table, attrs: set<string>, skip: int, limit: int,
                         sort: Option<string>, filter: Option<string>, mode: Mode)
    requires Envelope(t, attrs, skip, limit, sort, filter, mode).Ok?
    requires limit > 0
    requires Envelope(t, attrs, skip, limit, sort, filter, mode).value.pagination.nextPage.Some?
    ensures var p := Envelope(t, attrs, skip, limit, sort, filter, mode).value.pagination;
      var next := Envelope(t, attrs, p.currentPage * limit, limit, sort, filter, mode);
      && next.Ok?
      && next.value.pagination.currentPage == p.nextPage.value
      && |next.value.data| > 0
  {
    var total := |Selection(t, attrs, filter)|;
    var p := Paginate(skip, limit, total);
    NextPageOffset(skip, limit, total);
    var next := Envelope(t, attrs, p.currentPage * limit, limit, sort, filter, mode);
    assert next.Ok?;
  }

  /** Without a next page, the page holds every selected record from `skip`
      on. */
  lemma LastPageHoldsRest(t: Table, attrs: set<string>, skip: int, limit: int,
                          sort: Option<string>, filter: Option<string>, mode: Mode)
    requires Envelope(t, attrs, skip, limit, sort, filter, mode).Ok?
    requires limit > 0
    requires Envelope(t, attrs, skip, limit, sort, filter, mode).value.pagination.nextPage.None?
    ensures var r := Envelope(t, attrs, skip, limit, sort, filter, mode).value;
      skip + |r.data| >= |Selection(t, attrs, filter)|
  {
    var r := Envelope(t, attrs, skip, limit, sort, filter, mode).value;
    var all := Selection(t, attrs, filter);
    assert IsPage(r.data, all, skip, limit, Applies(Some(limit), mode));
    LastPageReaches(skip, limit, |all|);
  }

  /** On the last page, a full page of `limit` records reaches the end. */
  lemma LastPageReaches(skip: int, limit: int, total: nat)
    requires skip >= 0 && limit > 0
    requires Paginate(skip, limit, total).nextPage.None?
    ensures skip + limit >= total
  {
    var p := Paginate(skip, limit, total);
    MulMonotone(p.totalPages, p.currentPage, limit);
  }
}
