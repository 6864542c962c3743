/** The `books` table (models/Book.js): the row type, the request-body type
    handed to `Book.create` / `book.update`, the status enum with its default,
    the non-null columns and the column widths. */
module Books {
  import opened Wrappers

  datatype Status = Available | CheckedOut | Reserved | Maintenance

  /** Column default of `status`. */
  const DefaultStatus: Status := Available

  function StatusName(s: Status): string {
    match s
    case Available => "available"
    case CheckedOut => "checked_out"
    case Reserved => "reserved"
    case Maintenance => "maintenance"
  }

  /** The ENUM column accepts exactly the four names. */
  function ParseStatus(s: string): (r: Option<Status>)
    ensures r.Some? ==> StatusName(r.value) == s
    ensures r.None? ==> forall st: Status :: StatusName(st) != s
  {
    if s == "available" then Some(Available)
    else if s == "checked_out" then Some(CheckedOut)
    else if s == "reserved" then Some(Reserved)
    else if s == "maintenance" then Some(Maintenance)
    else None
  }

  lemma StatusRoundTrip(st: Status)
    ensures ParseStatus(StatusName(st)) == Some(st)
  {
  }

  /** One stored row. The columns declared `allowNull: false` have plain types. */
  datatype Book = Book(
    id: nat,
    title: string,
    author: string,
    isbn: Option<string>,
    ddc: string,
    category: string,
    description: Option<string>,
    keywords: seq<string>,
    location: Option<string>,
    status: Status,
    deweyCategory: string,
    publishedYear: Option<int>,
    publisher: Option<string>,
    pageCount: Option<int>,
    thumbnail: Option<string>)

  /** A request body: the keys of the book schema, each of them possibly absent. */
  datatype BookData = BookData(
    title: Option<string>,
    author: Option<string>,
    isbn: Option<string>,
    ddc: Option<string>,
    category: Option<string>,
    description: Option<string>,
    keywords: Option<seq<string>>,
    location: Option<string>,
    status: Option<string>,
    publishedYear: Option<int>,
    publisher: Option<string>,
    pageCount: Option<int>,
    thumbnail: Option<string>)

  // Declared widths of the STRING(n) columns.
  const TitleWidth: nat := 255
  const AuthorWidth: nat := 255
  const IsbnWidth: nat := 20
  const DdcWidth: nat := 20
  const CategoryWidth: nat := 100
  const LocationWidth: nat := 100
  const DeweyCategoryWidth: nat := 10
  const PublisherWidth: nat := 100
  const ThumbnailWidth: nat := 255

  predicate FitsWidth(s: Option<string>, width: nat) {
    s.None? || |s.value| <= width
  }

  /** The database refuses a row whose strings exceed their column widths. */
  predicate FitsColumns(b: Book) {
    && |b.title| <= TitleWidth
    && |b.author| <= AuthorWidth
    && FitsWidth(b.isbn, IsbnWidth)
    && |b.ddc| <= DdcWidth
    && |b.category| <= CategoryWidth
    && FitsWidth(b.location, LocationWidth)
    && |b.deweyCategory| <= DeweyCategoryWidth
    && FitsWidth(b.publisher, PublisherWidth)
    && FitsWidth(b.thumbnail, ThumbnailWidth)
  }

  /** The row `Book.create(data)` builds (with `deweyCategory` set by the
      controller), or `None` when a non-null column is missing or `status` is
      not one of the enum's names: both are validation errors Sequelize throws. */
  function NewRecord(id: nat, data: BookData, deweyCategory: Option<string>): (r: Option<Book>)
    ensures r.Some? <==>
      && data.title.Some? && data.author.Some? && data.ddc.Some? && data.category.Some?
      && deweyCategory.Some?
      && (data.status.Some? ==> ParseStatus(data.status.value).Some?)
    ensures r.Some? ==> r.value.id == id && r.value.deweyCategory == deweyCategory.value
    ensures r.Some? ==> r.value.ddc == data.ddc.value && r.value.isbn == data.isbn
    ensures r.Some? && data.status.None? ==> r.value.status == DefaultStatus
    ensures r.Some? && data.status.Some? ==> StatusName(r.value.status) == data.status.value
    ensures r.Some? && data.keywords.None? ==> r.value.keywords == []
    ensures r.Some? && data.keywords.Some? ==> r.value.keywords == data.keywords.value
    ensures r.Some? ==> r.value.title == data.title.value && r.value.author == data.author.value
    ensures r.Some? ==> r.value.category == data.category.value && r.value.description == data.description
    ensures r.Some? ==> r.value.location == data.location && r.value.publisher == data.publisher
    ensures r.Some? ==> r.value.publishedYear == data.publishedYear && r.value.pageCount == data.pageCount
    ensures r.Some? ==> r.value.thumbnail == data.thumbnail
  {
    if data.title.None? || data.author.None? || data.ddc.None? || data.category.None? || deweyCategory.None? then None
    else
      var status := if data.status.None? then Some(DefaultStatus) else ParseStatus(data.status.value);
      if status.None? then None
      else Some(Book(
        id, data.title.value, data.author.value, data.isbn, data.ddc.value, data.category.value,
        data.description, data.keywords.GetOr([]), data.location, status.value, deweyCategory.value,
        data.publishedYear, data.publisher, data.pageCount, data.thumbnail))
  }

  function Over<T>(patch: Option<T>, current: T): T {
    if patch.Some? then patch.value else current
  }

  function OverOptional<T>(patch: Option<T>, current: Option<T>): Option<T> {
    if patch.Some? then patch else current
  }

  /** What `book.update(data)` writes: every key present in the body replaces
      the column, every absent key keeps it; `None` when `status` is not an
      enum name. */
  function Patched(b: Book, data: BookData, deweyCategory: Option<string>): (r: Option<Book>)
    ensures r.Some? <==> (data.status.Some? ==> ParseStatus(data.status.value).Some?)
    ensures r.Some? ==> r.value.id == b.id
    ensures r.Some? ==> r.value.deweyCategory == (if deweyCategory.Some? then deweyCategory.value else b.deweyCategory)
    ensures r.Some? ==> r.value.ddc == (if data.ddc.Some? then data.ddc.value else b.ddc)
    ensures r.Some? ==> r.value.isbn == (if data.isbn.Some? then data.isbn else b.isbn)
    ensures r.Some? ==> r.value.title == (if data.title.Some? then data.title.value else b.title)
    ensures r.Some? ==> r.value.author == (if data.author.Some? then data.author.value else b.author)
    ensures r.Some? ==> r.value.category == (if data.category.Some? then data.category.value else b.category)
    ensures r.Some? ==> r.value.description == (if data.description.Some? then data.description else b.description)
    ensures r.Some? ==> r.value.keywords == (if data.keywords.Some? then data.keywords.value else b.keywords)
    ensures r.Some? ==> r.value.location == (if data.location.Some? then data.location else b.location)
    ensures r.Some? ==> r.value.publishedYear == (if data.publishedYear.Some? then data.publishedYear else b.publishedYear)
    ensures r.Some? ==> r.value.publisher == (if data.publisher.Some? then data.publisher else b.publisher)
    ensures r.Some? ==> r.value.pageCount == (if data.pageCount.Some? then data.pageCount else b.pageCount)
    ensures r.Some? ==> r.value.thumbnail == (if data.thumbnail.Some? then data.thumbnail else b.thumbnail)
    ensures r.Some? && data.status.None? ==> r.value.status == b.status
    ensures r.Some? && data.status.Some? ==> StatusName(r.value.status) == data.status.value
  {
    var status := if data.status.None? then Some(b.status) else ParseStatus(data.status.value);
    if status.None? then None
    else Some(b.(
      title := Over(data.title, b.title),
      author := Over(data.author, b.author),
      isbn := OverOptional(data.isbn, b.isbn),
      ddc := Over(data.ddc, b.ddc),
      category := Over(data.category, b.category),
      description := OverOptional(data.description, b.description),
      keywords := Over(data.keywords, b.keywords),
      location := OverOptional(data.location, b.location),
      status := status.value,
      deweyCategory := Over(deweyCategory, b.deweyCategory),
      publishedYear := OverOptional(data.publishedYear, b.publishedYear),
      publisher := OverOptional(data.publisher, b.publisher),
      pageCount := OverOptional(data.pageCount, b.pageCount),
      thumbnail := OverOptional(data.thumbnail, b.thumbnail)))
  }

  /** An update whose body is empty writes nothing. */
  lemma EmptyPatchIsIdentity(b: Book)
    ensures Patched(b, BookData(None, None, None, None, None, None, None, None, None, None, None, None, None), None) == Some(b)
  {
  }
}
