/** The read queries of the book controller: `getAllBooks` (optional bucket,
    status and search filters) and `searchBooks` (a required search term),
    both ordered by title and cut into pages of `limit` rows. The table is
    a sequence of rows; a `LIKE '%term%'` test under the column collation is
    the parameter `like(value, term)`. */
module BookQueries {
  import opened Wrappers
  import opened Text
  import opened Http
  import opened Books

  function Title(b: Book): string { b.title }

  const DefaultPage: nat := 1
  const DefaultLimit: nat := 20

  datatype Pagination = Pagination(page: nat, limit: nat, total: nat, pages: nat)
  datatype Listing = Listing(rows: seq<Book>, pagination: Pagination)

  /** `Math.ceil(total / limit)`. */
  function PageCount(total: nat, limit: nat): (pages: nat)
    requires limit >= 1
    ensures pages * limit >= total
    ensures pages > 0 ==> (pages - 1) * limit < total
    ensures pages == 0 <==> total == 0
  {
    var q := (total + limit - 1) / limit;
    var rem := (total + limit - 1) % limit;
    assert q * limit + rem == total + limit - 1;
    assert (q - 1) * limit == q * limit - limit;
    q
  }

  /** `(page - 1) * limit`. */
  function Offset(page: nat, limit: nat): (o: nat)
    requires page >= 1
    ensures o + limit == page * limit
    ensures page == 1 ==> o == 0
  {
    (page - 1) * limit
  }

  /** One page of the title-ordered matches: the rows at positions
      `offset .. offset + limit - 1`, and the page count. */
  function Paginate(matching: seq<Book>, page: nat, limit: nat): (l: Listing)
    requires page >= 1 && limit >= 1
    ensures l.pagination == Pagination(page, limit, |matching|, PageCount(|matching|, limit))
    ensures |l.rows| <= limit
    ensures SortedBy(l.rows, Title)
    ensures l.rows == Window(SortBy(matching, Title), Offset(page, limit), limit)
    ensures forall i :: 0 <= i < |l.rows| ==> l.rows[i] in matching
  {
    var sorted := SortBy(matching, Title);
    SortBySorted(matching, Title);
    var rows := Window(sorted, Offset(page, limit), limit);
    WindowSorted(sorted, Offset(page, limit), limit, Title);
    forall i | 0 <= i < |rows| ensures rows[i] in matching {
      assert rows[i] == sorted[Offset(page, limit) + i];
      assert rows[i] in multiset(sorted);
    }
    Listing(rows, Pagination(page, limit, |matching|, PageCount(|matching|, limit)))
  }

  lemma MulMonotone(a: nat, b: nat, c: nat)
    requires a <= b
    ensures a * c <= b * c
  {
    assert b * c == a * c + (b - a) * c;
  }

  /** The page that holds position `i` exists. */
  lemma PageOfPositionExists(n: nat, limit: nat, i: nat)
    requires limit >= 1 && i < n
    ensures 1 <= i / limit + 1 <= PageCount(n, limit)
  {
    var pages := PageCount(n, limit);
    assert (i / limit) * limit <= i;
    if pages < i / limit + 1 {
      MulMonotone(pages, i / limit, limit);
    }
  }

  /** Position `i` sits `i % limit` rows into the page that starts at `(i / limit) * limit`. */
  lemma PositionSplit(i: nat, limit: nat)
    requires limit >= 1
    ensures Offset(i / limit + 1, limit) + i % limit == i
    ensures i % limit < limit
  {
  }

  /** Every match is on exactly the page its position in title order puts it. */
  lemma RowOnItsPage(matching: seq<Book>, limit: nat, i: nat)
    requires limit >= 1 && i < |matching|
    ensures 1 <= i / limit + 1 <= PageCount(|matching|, limit)
    ensures i % limit < |Paginate(matching, i / limit + 1, limit).rows|
    ensures Paginate(matching, i / limit + 1, limit).rows[i % limit] == SortBy(matching, Title)[i]
  {
    PageOfPositionExists(|matching|, limit, i);
    PositionSplit(i, limit);
    var p := i / limit + 1;
    var k := i % limit;
    var sorted := SortBy(matching, Title);
    var w := Window(sorted, Offset(p, limit), limit);
    assert Paginate(matching, p, limit).rows == w;
    assert k < |w|;
    assert w[k] == sorted[i];
  }

  /** JavaScript truthiness of an optional string. */
  predicate Present(v: Option<string>) { v.Some? && v.value != "" }

  function LikeOptional(v: Option<string>, term: string, like: (string, string) -> bool): bool {
    v.Some? && like(v.value, term)
  }

  datatype ListQuery = ListQuery(
    page: Option<nat>,
    limit: Option<nat>,
    category: Option<string>,
    search: Option<string>,
    status: Option<string>)

  /** The `whereClause` getAllBooks builds: each truthy parameter adds one conjunct. */
  predicate ListMatches(q: ListQuery, like: (string, string) -> bool, b: Book): (ok: bool)
    ensures !Present(q.category) && !Present(q.status) && !Present(q.search) ==> ok
    ensures ok && Present(q.category) ==> b.deweyCategory == q.category.value
    ensures ok && Present(q.status) ==> StatusName(b.status) == q.status.value
    ensures (Present(q.search) && !like(b.title, q.search.value) && !like(b.author, q.search.value)
             && !LikeOptional(b.description, q.search.value, like) && !like(b.ddc, q.search.value)) ==> !ok
  {
    && (Present(q.category) ==> b.deweyCategory == q.category.value)
    && (Present(q.status) ==> StatusName(b.status) == q.status.value)
    && (Present(q.search) ==>
          like(b.title, q.search.value) || like(b.author, q.search.value)
          || LikeOptional(b.description, q.search.value, like) || like(b.ddc, q.search.value))
  }

  /** The `where` of searchBooks: the term against five columns. */
  predicate SearchMatches(term: string, like: (string, string) -> bool, b: Book): (ok: bool)
    ensures like(b.title, term) || like(b.category, term) ==> ok
    ensures (forall s :: !like(s, term)) ==> !ok
  {
    like(b.title, term) || like(b.author, term) || LikeOptional(b.description, term, like)
    || like(b.ddc, term) || like(b.category, term)
  }

  /** page and limit arrive as positive integers when present. */
  predicate PagingOk(page: Option<nat>, limit: Option<nat>) {
    (page.Some? ==> page.value >= 1) && (limit.Some? ==> limit.value >= 1)
  }

  function GetAllBooks(table: seq<Book>, q: ListQuery, like: (string, string) -> bool): (r: Response<Listing>)
    requires PagingOk(q.page, q.limit)
    ensures r.Success? && r.status == Ok200
    ensures r.data.pagination.total == |Filter(table, b => ListMatches(q, like, b))|
    ensures r.data.pagination.page == q.page.GetOr(DefaultPage)
    ensures r.data.pagination.limit == q.limit.GetOr(DefaultLimit)
    ensures r.data.pagination.pages == PageCount(r.data.pagination.total, q.limit.GetOr(DefaultLimit))
    ensures |r.data.rows| <= q.limit.GetOr(DefaultLimit)
    ensures SortedBy(r.data.rows, Title)
    ensures r.data.rows == Window(SortBy(Filter(table, b => ListMatches(q, like, b)), Title),
                                  Offset(q.page.GetOr(DefaultPage), q.limit.GetOr(DefaultLimit)),
                                  q.limit.GetOr(DefaultLimit))
    ensures forall i :: 0 <= i < |r.data.rows| ==> r.data.rows[i] in table && ListMatches(q, like, r.data.rows[i])
  {
    var matching := Filter(table, b => ListMatches(q, like, b));
    var l := Paginate(matching, q.page.GetOr(DefaultPage), q.limit.GetOr(DefaultLimit));
    Success(Ok200, l)
  }

  /** A query with no filter lists the whole table. */
  lemma UnfilteredListingCountsEveryRow(table: seq<Book>, page: Option<nat>, limit: Option<nat>, like: (string, string) -> bool)
    requires PagingOk(page, limit)
    ensures GetAllBooks(table, ListQuery(page, limit, None, None, None), like).data.pagination.total == |table|
  {
    var q := ListQuery(page, limit, None, None, None);
    FilterKeepsAll(table, b => ListMatches(q, like, b));
  }

  lemma {:induction false} FilterKeepsAll<T(!new)>(s: seq<T>, keep: T -> bool)
    requires forall i :: 0 <= i < |s| ==> keep(s[i])
    ensures Filter(s, keep) == s
  {
    if s != [] {
      FilterKeepsAll(s[1..], keep);
    }
  }

  function SearchBooks(table: seq<Book>, term: Option<string>, page: Option<nat>, limit: Option<nat>,
                       like: (string, string) -> bool): (r: Response<Listing>)
    requires PagingOk(page, limit)
    ensures !Present(term) <==> r == Failure(BadRequest400)
    ensures r.Success? ==>
      && r.status == Ok200
      && r.data.pagination.total == |Filter(table, b => SearchMatches(term.value, like, b))|
      && r.data.pagination.page == page.GetOr(DefaultPage)
      && r.data.pagination.limit == limit.GetOr(DefaultLimit)
      && r.data.pagination.pages == PageCount(r.data.pagination.total, limit.GetOr(DefaultLimit))
      && |r.data.rows| <= limit.GetOr(DefaultLimit)
      && SortedBy(r.data.rows, Title)
      && r.data.rows == Window(SortBy(Filter(table, b => SearchMatches(term.value, like, b)), Title),
                               Offset(page.GetOr(DefaultPage), limit.GetOr(DefaultLimit)),
                               limit.GetOr(DefaultLimit))
      && forall i :: 0 <= i < |r.data.rows| ==> r.data.rows[i] in table && SearchMatches(term.value, like, r.data.rows[i])
  {
    if !Present(term) then Failure(BadRequest400)
    else
      var matching := Filter(table, b => SearchMatches(term.value, like, b));
      Success(Ok200, Paginate(matching, page.GetOr(DefaultPage), limit.GetOr(DefaultLimit)))
  }
}
