/** The Dewey controller's three read endpoints: the category list in `number`
    order, one category with (up to fifty of) its books, and the per-bucket
    book counts. Tables are sequences of rows. */
module DeweyQueries {
  import opened Wrappers
  import opened Text
  import opened Http
  import opened Books
  import Categories
  import Classification

  type Category = Categories.DeweyCategory

  function Number(c: Category): string { c.number }
  function Title(b: Book): string { b.title }

  /** `findAll` ordered by `number ASC`: the same rows, in order. */
  function GetAllCategories(cats: seq<Category>): (r: Response<seq<Category>>)
    ensures r.Success? && r.status == Ok200
    ensures multiset(r.data) == multiset(cats)
    ensures SortedBy(r.data, Number)
  {
    SortBySorted(cats, Number);
    Success(Ok200, SortBy(cats, Number))
  }

  /** The `limit` of the book list of one category. */
  const BooksPerCategory: nat := 50

  datatype CategoryPage = CategoryPage(category: Category, books: seq<Book>)

  /** `findOne({ where: { number } })`: the first row with that number. */
  function FindByNumber(cats: seq<Category>, number: string): (r: Option<Category>)
    ensures r.Some? ==> r.value in cats && r.value.number == number
    ensures r.Some? ==> exists i :: 0 <= i < |cats| && cats[i] == r.value && NoneBefore(cats, number, i)
    ensures r.None? <==> forall i :: 0 <= i < |cats| ==> cats[i].number != number
  {
    if cats == [] then None
    else if cats[0].number == number then
      assert NoneBefore(cats, number, 0);
      Some(cats[0])
    else
      var r := FindByNumber(cats[1..], number);
      if r.Some? then
        var i :| 0 <= i < |cats[1..]| && cats[1..][i] == r.value && NoneBefore(cats[1..], number, i);
        assert cats[i + 1] == r.value;
        assert NoneBefore(cats, number, i + 1);
        r
      else
        r
  }

  /** No row before position `i` carries the number. */
  predicate NoneBefore(cats: seq<Category>, number: string, i: nat)
    requires i <= |cats|
  {
    forall j :: 0 <= j < i ==> cats[j].number != number
  }

  predicate InBucket(number: string, b: Book) { b.deweyCategory == number }

  /** `Book.findAll({ where: { deweyCategory: number }, order: [['title', 'ASC']], limit: 50 })`. */
  function BucketBooks(table: seq<Book>, number: string): (books: seq<Book>)
    ensures |books| <= BooksPerCategory
    ensures SortedBy(books, Title)
    ensures forall i :: 0 <= i < |books| ==> books[i] in table && books[i].deweyCategory == number
    ensures |Filter(table, b => InBucket(number, b))| <= BooksPerCategory ==>
      multiset(books) == multiset(Filter(table, b => InBucket(number, b)))
    ensures books == Window(SortBy(Filter(table, b => InBucket(number, b)), Title), 0, BooksPerCategory)
  {
    var inBucket := Filter(table, b => InBucket(number, b));
    var sorted := SortBy(inBucket, Title);
    SortBySorted(inBucket, Title);
    var books := Window(sorted, 0, BooksPerCategory);
    WindowSorted(sorted, 0, BooksPerCategory, Title);
    forall i | 0 <= i < |books| ensures books[i] in inBucket {
      assert books[i] == sorted[i];
      assert books[i] in multiset(sorted);
    }
    if |inBucket| <= BooksPerCategory then
      assert books == sorted;
      books
    else
      books
  }

  function GetCategoryByNumber(cats: seq<Category>, table: seq<Book>, number: string): (r: Response<CategoryPage>)
    ensures r.Failure? <==> forall i :: 0 <= i < |cats| ==> cats[i].number != number
    ensures r.Failure? ==> r.status == NotFound404
    ensures r.Success? ==>
      && r.status == Ok200
      && r.data.category in cats && r.data.category.number == number
      && |r.data.books| <= BooksPerCategory
      && SortedBy(r.data.books, Title)
      && (forall i :: 0 <= i < |r.data.books| ==> r.data.books[i] in table && r.data.books[i].deweyCategory == number)
      && (|Filter(table, b => InBucket(number, b))| <= BooksPerCategory ==>
            multiset(r.data.books) == multiset(Filter(table, b => InBucket(number, b))))
      && r.data.books == Window(SortBy(Filter(table, b => InBucket(number, b)), Title), 0, BooksPerCategory)
  {
    match FindByNumber(cats, number)
    case None => Failure(NotFound404)
    case Some(category) => Success(Ok200, CategoryPage(category, BucketBooks(table, number)))
  }

  // ---------------------------------------------------------------------------
  // getCategoryStats

  datatype BucketCount = BucketCount(deweyCategory: string, bookCount: nat)

  /** As written the handler names `sequelize`, which the controller never
      imports; evaluating the query's attributes throws, and the catch answers
      500 whatever the table holds. */
  function GetCategoryStats(table: seq<Book>): (r: Response<seq<BucketCount>>)
    ensures r == Failure(ServerError500)
  {
    Failure(ServerError500)
  }

  /** `COUNT(id)` of the rows in one bucket. */
  function CountIn(table: seq<Book>, bucket: string): (n: nat)
    ensures n <= |table|
    ensures (forall k :: 0 <= k < |table| ==> table[k].deweyCategory != bucket) <==> n == 0
  {
    if table == [] then 0
    else
      var rest := CountIn(table[1..], bucket);
      assert forall k :: 1 <= k < |table| ==> table[k] == table[1..][k - 1];
      (if table[0].deweyCategory == bucket then 1 else 0) + rest
  }

  /** The count is the number of rows the bucket's `where` selects. */
  lemma {:induction false} CountInIsFilterLength(table: seq<Book>, bucket: string)
    ensures CountIn(table, bucket) == |Filter(table, b => InBucket(bucket, b))|
  {
    if table != [] {
      CountInIsFilterLength(table[1..], bucket);
    }
  }

  ghost predicate Ascending(labels: seq<string>) {
    forall i, j :: 0 <= i < j < |labels| ==> StrLe(labels[i], labels[j]) && labels[i] != labels[j]
  }

  function Label(c: BucketCount): string { c.deweyCategory }

  /** One group per label of `labels` that some row carries, in the order of `labels`. */
  function StatsOver(table: seq<Book>, labels: seq<string>): (r: seq<BucketCount>)
    ensures forall i :: 0 <= i < |r| ==> r[i].deweyCategory in labels
    ensures forall i :: 0 <= i < |r| ==> r[i].bookCount == CountIn(table, r[i].deweyCategory) && r[i].bookCount > 0
  {
    if labels == [] then []
    else
      var count := CountIn(table, labels[0]);
      (if count > 0 then [BucketCount(labels[0], count)] else []) + StatsOver(table, labels[1..])
  }

  /** Some group of `r` is labelled `l`. */
  ghost predicate HasGroup(r: seq<BucketCount>, l: string) {
    exists i :: 0 <= i < |r| && r[i].deweyCategory == l
  }

  /** Every label some row carries gets its group. */
  lemma {:induction false} StatsOverComplete(table: seq<Book>, labels: seq<string>, l: string)
    requires l in labels && CountIn(table, l) > 0
    ensures HasGroup(StatsOver(table, labels), l)
  {
    var count := CountIn(table, labels[0]);
    var head := if count > 0 then [BucketCount(labels[0], count)] else [];
    var rest := StatsOver(table, labels[1..]);
    var r := StatsOver(table, labels);
    assert r == head + rest;
    if l == labels[0] {
      assert r[0].deweyCategory == l;
    } else {
      assert labels == [labels[0]] + labels[1..];
      assert l in labels[1..];
      StatsOverComplete(table, labels[1..], l);
      var i :| 0 <= i < |rest| && rest[i].deweyCategory == l;
      assert r[|head| + i].deweyCategory == l;
    }
  }

  /** Groups in ascending, distinct label order. */
  ghost predicate GroupsAscending(r: seq<BucketCount>) {
    forall i, j :: 0 <= i < j < |r| ==> StrLe(r[i].deweyCategory, r[j].deweyCategory) && r[i].deweyCategory != r[j].deweyCategory
  }

  lemma GroupsPrepend(x: BucketCount, rest: seq<BucketCount>, labels: seq<string>)
    requires labels != [] && Ascending(labels) && x.deweyCategory == labels[0]
    requires forall i :: 0 <= i < |rest| ==> rest[i].deweyCategory in labels[1..]
    requires GroupsAscending(rest)
    ensures GroupsAscending([x] + rest)
  {
    var r := [x] + rest;
    forall i, j | 0 <= i < j < |r|
      ensures StrLe(r[i].deweyCategory, r[j].deweyCategory) && r[i].deweyCategory != r[j].deweyCategory
    {
      assert r[j] == rest[j - 1];
      if i == 0 {
        var k :| 0 <= k < |labels| - 1 && labels[1..][k] == rest[j - 1].deweyCategory;
        assert labels[k + 1] == rest[j - 1].deweyCategory;
      } else {
        assert r[i] == rest[i - 1];
      }
    }
  }

  /** The groups keep the order of `labels`, so ascending labels give ascending, distinct groups. */
  lemma {:induction false} StatsOverAscending(table: seq<Book>, labels: seq<string>)
    requires Ascending(labels)
    ensures GroupsAscending(StatsOver(table, labels))
  {
    if labels != [] {
      var rest := StatsOver(table, labels[1..]);
      StatsOverAscending(table, labels[1..]);
      var count := CountIn(table, labels[0]);
      if count > 0 {
        GroupsPrepend(BucketCount(labels[0], count), rest, labels);
        assert StatsOver(table, labels) == [BucketCount(labels[0], count)] + rest;
      } else {
        assert StatsOver(table, labels) == rest;
      }
    }
  }

  lemma LabelsAscending()
    ensures Ascending(Classification.Labels)
  {
    Classification.LabelsAreBucketLabels();
    forall i, j | 0 <= i < j < 10
      ensures StrLe(Classification.Labels[i], Classification.Labels[j]) && Classification.Labels[i] != Classification.Labels[j]
    {
      assert Classification.Labels[i][0] == Classification.DigitChar(i);
      assert Classification.Labels[j][0] == Classification.DigitChar(j);
    }
  }

  /** What the stats query evidently intends (`GROUP BY deweyCategory ORDER BY
      deweyCategory ASC` with `COUNT(id)`), over a table whose buckets are all
      labels the resolver produces: one entry per bucket that holds a book,
      ascending and distinct, each with its exact count. */
  function CategoryStats(table: seq<Book>): (r: seq<BucketCount>)
    requires forall i :: 0 <= i < |table| ==> table[i].deweyCategory in Classification.Labels
    ensures forall i, j :: 0 <= i < j < |r| ==> StrLe(r[i].deweyCategory, r[j].deweyCategory) && r[i].deweyCategory != r[j].deweyCategory
    ensures forall i :: 0 <= i < |r| ==> r[i].bookCount == CountIn(table, r[i].deweyCategory) && r[i].bookCount > 0
    ensures forall k :: 0 <= k < |table| ==> exists i :: 0 <= i < |r| && r[i].deweyCategory == table[k].deweyCategory
  {
    LabelsAscending();
    StatsOverAscending(table, Classification.Labels);
    var r := StatsOver(table, Classification.Labels);
    forall k | 0 <= k < |table| ensures exists i :: 0 <= i < |r| && r[i].deweyCategory == table[k].deweyCategory {
      StatsOverComplete(table, Classification.Labels, table[k].deweyCategory);
    }
    r
  }
}
