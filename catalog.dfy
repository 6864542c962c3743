/** The write paths of the book controller: `createBook`, `updateBook`,
    `deleteBook`, `getBookById`, and the `updateCategoryCount` helper that
    recounts the books of one Dewey bucket and stores the count in the
    category row whose `number` is that bucket label.

    The two tables are maps from primary key to row. The count kept in a
    category row is a cache: `Coherent` says that every cached count equals
    the recount, and the lemmas below say which writes keep it. */
module Catalog {
  import opened Wrappers
  import opened Http
  import opened Books
  import Categories
  import Classification
  import BookQueries
  import DeweyQueries

  type Category = Categories.DeweyCategory

  // ---------------------------------------------------------------------------
  // The count query and the count write, on table values.

  /** `Book.count({ where: { deweyCategory: bucket } })`. */
  function Recount(books: map<nat, Book>, bucket: string): nat {
    |Members(books, bucket)|
  }

  /** The count is at most the number of rows, and zero exactly when no row
      is in the bucket. */
  lemma RecountBounds(books: map<nat, Book>, bucket: string)
    ensures Recount(books, bucket) <= |books|
    ensures Recount(books, bucket) == 0 <==> forall id :: id in books ==> books[id].deweyCategory != bucket
  {
    var m := Members(books, bucket);
    SubsetCardinality(m, books.Keys);
    if exists id :: id in books && books[id].deweyCategory == bucket {
      var id :| id in books && books[id].deweyCategory == bucket;
      assert id in m;
    }
  }

  lemma SubsetCardinality(a: set<nat>, b: set<nat>)
    requires a <= b
    ensures |a| <= |b|
  {
    if a != {} {
      var x :| x in a;
      SubsetCardinality(a - {x}, b - {x});
    }
  }

  /** The ids of the rows in `bucket`. */
  function Members(books: map<nat, Book>, bucket: string): set<nat> {
    set id | id in books && books[id].deweyCategory == bucket
  }

  /** `DeweyCategory.update({ bookCount: count }, { where: { number } })`:
      every row with that number gets the count, the others are untouched. */
  function WithCount(cats: map<nat, Category>, number: string, count: nat): (r: map<nat, Category>)
    ensures r.Keys == cats.Keys
    ensures forall id :: id in cats && cats[id].number == number ==> r[id] == cats[id].(bookCount := count)
    ensures forall id :: id in cats && cats[id].number != number ==> r[id] == cats[id]
  {
    map id | id in cats :: if cats[id].number == number then cats[id].(bookCount := count) else cats[id]
  }

  /** updateCategoryCount on table values: the recount of `bucket` written
      into the row with that number. */
  function Resynced(books: map<nat, Book>, cats: map<nat, Category>, bucket: string): (r: map<nat, Category>)
    ensures r.Keys == cats.Keys
    ensures forall id :: id in cats && cats[id].number == bucket ==>
      r[id] == cats[id].(bookCount := Recount(books, bucket))
    ensures forall id :: id in cats && cats[id].number != bucket ==> r[id] == cats[id]
    ensures !Categories.NumberTaken(cats, bucket) ==> r == cats
  {
    WithCount(cats, bucket, Recount(books, bucket))
  }

  /** The cached count of `bucket`'s row equals the recount. */
  ghost predicate CountIsSynced(books: map<nat, Book>, cats: map<nat, Category>, bucket: string) {
    forall id :: id in cats && cats[id].number == bucket ==> cats[id].bookCount == Recount(books, bucket)
  }

  /** Every cached count equals the recount of its bucket. */
  ghost predicate Coherent(books: map<nat, Book>, cats: map<nat, Category>) {
    forall id :: id in cats ==> cats[id].bookCount == Recount(books, cats[id].number)
  }

  /** With unique numbers, a resync changes at most one row. */
  lemma ResyncTouchesAtMostOneRow(books: map<nat, Book>, cats: map<nat, Category>, bucket: string, i: nat, j: nat)
    requires Categories.UniqueNumbers(cats)
    requires i in cats && j in cats && i != j
    ensures Resynced(books, cats, bucket)[i] == cats[i] || Resynced(books, cats, bucket)[j] == cats[j]
  {
  }

  /** Running the resync again straight away changes nothing. */
  lemma ResyncIdempotent(books: map<nat, Book>, cats: map<nat, Category>, bucket: string)
    ensures Resynced(books, Resynced(books, cats, bucket), bucket) == Resynced(books, cats, bucket)
  {
    var once := Resynced(books, cats, bucket);
    var twice := Resynced(books, once, bucket);
    assert twice.Keys == once.Keys;
    forall id | id in once ensures twice[id] == once[id] {
      if cats[id].number == bucket {
        assert once[id].number == bucket;
      }
    }
  }

  /** A resync of `bucket` makes its row synced, and keeps every other row's state. */
  lemma ResyncSyncsLabel(books: map<nat, Book>, cats: map<nat, Category>, bucket: string)
    ensures CountIsSynced(books, Resynced(books, cats, bucket), bucket)
    ensures Coherent(books, cats) ==> Coherent(books, Resynced(books, cats, bucket))
  {
    var r := Resynced(books, cats, bucket);
    forall id | id in r && r[id].number == bucket ensures r[id].bookCount == Recount(books, bucket) {
      assert cats[id].number == bucket;
    }
  }

  /** A resync of one bucket keeps another bucket's row synced. */
  lemma ResyncKeepsOtherSynced(books: map<nat, Book>, cats: map<nat, Category>, synced: string, bucket: string)
    requires CountIsSynced(books, cats, synced) && synced != bucket
    ensures CountIsSynced(books, Resynced(books, cats, bucket), synced)
  {
    var r := Resynced(books, cats, bucket);
    forall id | id in r && r[id].number == synced ensures r[id].bookCount == Recount(books, synced) {
      assert r[id] == cats[id];
    }
  }

  /** A resync only writes `bookCount`: keys, numbers and widths stay. */
  lemma ResyncKeepsRowShape(books: map<nat, Book>, cats: map<nat, Category>, bucket: string)
    ensures forall id :: id in cats ==> Resynced(books, cats, bucket)[id] == cats[id].(bookCount := Resynced(books, cats, bucket)[id].bookCount)
    ensures Categories.UniqueNumbers(cats) ==> Categories.UniqueNumbers(Resynced(books, cats, bucket))
  {
    var r := Resynced(books, cats, bucket);
    forall id | id in cats ensures r[id] == cats[id].(bookCount := r[id].bookCount) {
    }
    if Categories.UniqueNumbers(cats) {
      forall i, j | i in r && j in r && i != j ensures r[i].number != r[j].number {
        assert r[i].number == cats[i].number && r[j].number == cats[j].number;
      }
    }
  }

  // ---------------------------------------------------------------------------
  // How a single row write moves the recounts.

  lemma RecountInsert(books: map<nat, Book>, id: nat, b: Book, bucket: string)
    requires id !in books
    ensures Recount(books[id := b], bucket) == Recount(books, bucket) + (if b.deweyCategory == bucket then 1 else 0)
  {
    var books' := books[id := b];
    var before := Members(books, bucket);
    var after := Members(books', bucket);
    forall k ensures k in after <==> k in before || (k == id && b.deweyCategory == bucket) {
      if k != id {
        assert k in books' <==> k in books;
      }
    }
    if b.deweyCategory == bucket {
      assert id !in before;
      assert after == before + {id};
    } else {
      assert after == before;
    }
  }

  lemma RecountRemove(books: map<nat, Book>, id: nat, bucket: string)
    requires id in books
    ensures Recount(books - {id}, bucket) == Recount(books, bucket) - (if books[id].deweyCategory == bucket then 1 else 0)
  {
    var books' := books - {id};
    var before := Members(books, bucket);
    var after := Members(books', bucket);
    forall k ensures k in after <==> k in before && k != id {
      if k != id {
        assert k in books' <==> k in books;
      }
    }
    if books[id].deweyCategory == bucket {
      assert after == before - {id};
    } else {
      assert after == before;
    }
  }

  lemma RecountReplace(books: map<nat, Book>, id: nat, b: Book, bucket: string)
    requires id in books
    ensures Recount(books[id := b], bucket) ==
      Recount(books, bucket)
      - (if books[id].deweyCategory == bucket then 1 else 0)
      + (if b.deweyCategory == bucket then 1 else 0)
  {
    RecountRemove(books, id, bucket);
    RecountInsert(books - {id}, id, b, bucket);
    assert (books - {id})[id := b] == books[id := b];
  }

  // ---------------------------------------------------------------------------
  // Coherence of the cached counts across the three writes.

  /** An insert followed by a resync of the new row's bucket keeps every
      cached count exact; that bucket's count goes up by exactly one. */
  lemma InsertThenResync(books: map<nat, Book>, cats: map<nat, Category>, id: nat, b: Book)
    requires id !in books
    requires Coherent(books, cats)
    ensures Coherent(books[id := b], Resynced(books[id := b], cats, b.deweyCategory))
    ensures forall c :: c in cats && cats[c].number == b.deweyCategory ==>
      Resynced(books[id := b], cats, b.deweyCategory)[c].bookCount == cats[c].bookCount + 1
  {
    var books' := books[id := b];
    var r := Resynced(books', cats, b.deweyCategory);
    forall c | c in r ensures r[c].bookCount == Recount(books', r[c].number) {
      RecountInsert(books, id, b, cats[c].number);
    }
    forall c | c in cats && cats[c].number == b.deweyCategory
      ensures r[c].bookCount == cats[c].bookCount + 1
    {
      RecountInsert(books, id, b, b.deweyCategory);
    }
  }

  /** A delete followed by a resync of the former bucket keeps every cached
      count exact; that bucket's count goes down by exactly one. */
  lemma RemoveThenResync(books: map<nat, Book>, cats: map<nat, Category>, id: nat)
    requires id in books
    requires Coherent(books, cats)
    ensures Coherent(books - {id}, Resynced(books - {id}, cats, books[id].deweyCategory))
    ensures forall c :: c in cats && cats[c].number == books[id].deweyCategory ==>
      Resynced(books - {id}, cats, books[id].deweyCategory)[c].bookCount == cats[c].bookCount - 1
  {
    var bucket := books[id].deweyCategory;
    var books' := books - {id};
    var r := Resynced(books', cats, bucket);
    forall c | c in r ensures r[c].bookCount == Recount(books', r[c].number) {
      RecountRemove(books, id, cats[c].number);
    }
    forall c | c in cats && cats[c].number == bucket ensures r[c].bookCount == cats[c].bookCount - 1 {
      RecountRemove(books, id, bucket);
    }
  }

  /** An update that leaves the row in its bucket needs no resync. */
  lemma ReplaceWithinBucket(books: map<nat, Book>, cats: map<nat, Category>, id: nat, b: Book)
    requires id in books && b.deweyCategory == books[id].deweyCategory
    requires Coherent(books, cats)
    ensures Coherent(books[id := b], cats)
  {
    forall c | c in cats ensures cats[c].bookCount == Recount(books[id := b], cats[c].number) {
      RecountReplace(books, id, b, cats[c].number);
    }
  }

  /** An update that moves a row from bucket A to bucket B and resyncs no
      bucket leaves A's cached count one too high (so the cache is no longer
      coherent) whenever a category row for A exists. */
  lemma MoveWithoutResyncLeavesOldBucketStale(books: map<nat, Book>, cats: map<nat, Category>, id: nat, b: Book, c: nat)
    requires id in books && b.deweyCategory != books[id].deweyCategory
    requires Coherent(books, cats)
    requires c in cats && cats[c].number == books[id].deweyCategory
    ensures cats[c].bookCount == Recount(books[id := b], cats[c].number) + 1
    ensures !Coherent(books[id := b], cats)
  {
    RecountReplace(books, id, b, cats[c].number);
  }

  /** Resyncing the new bucket, even twice, leaves the old bucket stale: the
      two calls that could follow the update both pass the new bucket. */
  lemma ResyncNewBucketOnlyLeavesOldBucketStale(books: map<nat, Book>, cats: map<nat, Category>, id: nat, b: Book, c: nat)
    requires id in books && b.deweyCategory != books[id].deweyCategory
    requires Coherent(books, cats)
    requires c in cats && cats[c].number == books[id].deweyCategory
    ensures !Coherent(books[id := b],
                      Resynced(books[id := b], Resynced(books[id := b], cats, b.deweyCategory), b.deweyCategory))
  {
    var books' := books[id := b];
    var r := Resynced(books', Resynced(books', cats, b.deweyCategory), b.deweyCategory);
    RecountReplace(books, id, b, cats[c].number);
    assert r[c] == cats[c];
  }

  /** Resyncing both the new and the old bucket after a move keeps every
      cached count exact. */
  lemma MoveThenResyncBoth(books: map<nat, Book>, cats: map<nat, Category>, id: nat, b: Book)
    requires id in books
    requires Coherent(books, cats)
    ensures Coherent(books[id := b],
                     Resynced(books[id := b], Resynced(books[id := b], cats, b.deweyCategory), books[id].deweyCategory))
    ensures b.deweyCategory != books[id].deweyCategory ==>
      forall c :: c in cats && cats[c].number == b.deweyCategory ==>
        Resynced(books[id := b], Resynced(books[id := b], cats, b.deweyCategory), books[id].deweyCategory)[c].bookCount
          == cats[c].bookCount + 1
    ensures b.deweyCategory != books[id].deweyCategory ==>
      forall c :: c in cats && cats[c].number == books[id].deweyCategory ==>
        Resynced(books[id := b], Resynced(books[id := b], cats, b.deweyCategory), books[id].deweyCategory)[c].bookCount
          == cats[c].bookCount - 1
  {
    var books' := books[id := b];
    var oldLabel := books[id].deweyCategory;
    var r := Resynced(books', Resynced(books', cats, b.deweyCategory), oldLabel);
    forall c | c in r ensures r[c].bookCount == Recount(books', r[c].number) {
      RecountReplace(books, id, b, cats[c].number);
    }
    if b.deweyCategory != oldLabel {
      forall c | c in cats && cats[c].number == b.deweyCategory ensures r[c].bookCount == cats[c].bookCount + 1 {
        RecountReplace(books, id, b, b.deweyCategory);
      }
      forall c | c in cats && cats[c].number == oldLabel ensures r[c].bookCount == cats[c].bookCount - 1 {
        RecountReplace(books, id, b, oldLabel);
      }
    }
  }

  // ---------------------------------------------------------------------------
  // Stored rows as the query layer sees them.

  /** The primary keys of a table below `bound`. */
  function KeysBelow<T>(table: map<nat, T>, bound: nat): set<nat> {
    set k | k in table && k < bound
  }

  /** The rows of a table in primary-key order, keys below `bound`: one
      position per key, holding that key's row. */
  function RowsBelow<T(==)>(table: map<nat, T>, bound: nat): (rows: seq<T>)
    ensures forall k :: k in table && k < bound ==> table[k] in rows
    ensures forall i :: 0 <= i < |rows| ==> rows[i] in table.Values
    ensures |rows| == |KeysBelow(table, bound)|
  {
    if bound == 0 then
      assert KeysBelow(table, 0) == {};
      []
    else
      var prefix := RowsBelow(table, bound - 1);
      if bound - 1 in table then
        assert KeysBelow(table, bound) == KeysBelow(table, bound - 1) + {bound - 1};
        prefix + [table[bound - 1]]
      else
        assert KeysBelow(table, bound) == KeysBelow(table, bound - 1);
        prefix
  }

  ghost predicate UniqueIsbns(books: map<nat, Book>) {
    forall i, j :: i in books && j in books && i != j && books[i].isbn.Some? ==> books[i].isbn != books[j].isbn
  }

  /** Whether a row other than `self` already holds this (present) isbn. */
  predicate IsbnTaken(books: map<nat, Book>, isbn: Option<string>, self: Option<nat>) {
    isbn.Some? && exists k :: k in books && Some(k) != self && books[k].isbn == isbn
  }

  // ---------------------------------------------------------------------------
  // What the store keeps true of its tables.

  /** Primary keys below the next id, rows that fit their columns and carry a
      bucket label, and the unique index on `isbn`. */
  ghost predicate BookTable(books: map<nat, Book>, next: nat) {
    && (forall id :: id in books ==> books[id].id == id && id < next && FitsColumns(books[id]))
    && (forall id :: id in books ==> books[id].deweyCategory in Classification.Labels)
    && UniqueIsbns(books)
  }

  /** A stored row's bucket is one of the ten labels, so never empty. */
  lemma StoredBucketIsLabel(books: map<nat, Book>, next: nat, id: nat)
    requires BookTable(books, next) && id in books
    ensures books[id].deweyCategory in Classification.Labels && books[id].deweyCategory != ""
  {
  }

  /** Primary keys below the next id, rows that fit, and the unique index on `number`. */
  ghost predicate CategoryTable(cats: map<nat, Category>, next: nat) {
    && (forall id :: id in cats ==> cats[id].id == id && id < next && Categories.FitsColumns(cats[id]))
    && Categories.UniqueNumbers(cats)
  }

  /** Every row's bucket is the one its `ddc` resolves to. */
  ghost predicate ClassifiedBy(books: map<nat, Book>, parse: string -> Option<real>) {
    forall id :: id in books ==> books[id].deweyCategory == Classification.GetDeweyCategory(parse(books[id].ddc))
  }

  /** A row that is acceptable as the one stored under `id`. */
  ghost predicate Storable(books: map<nat, Book>, id: nat, b: Book) {
    b.id == id && FitsColumns(b) && b.deweyCategory in Classification.Labels
    && !IsbnTaken(books, b.isbn, Some(id))
  }

  lemma InsertKeepsBookTable(books: map<nat, Book>, next: nat, b: Book)
    requires BookTable(books, next) && Storable(books, next, b)
    ensures BookTable(books[next := b], next + 1)
  {
    var r := books[next := b];
    forall i, j | i in r && j in r && i != j && r[i].isbn.Some? ensures r[i].isbn != r[j].isbn {
      if i == next {
        assert j in books && Some(j) != Some(next);
      } else if j == next {
        assert i in books && Some(i) != Some(next);
      }
    }
  }

  lemma ReplaceKeepsBookTable(books: map<nat, Book>, next: nat, id: nat, b: Book)
    requires BookTable(books, next) && id in books && Storable(books, id, b)
    ensures BookTable(books[id := b], next)
  {
    var r := books[id := b];
    forall i, j | i in r && j in r && i != j && r[i].isbn.Some? ensures r[i].isbn != r[j].isbn {
      if i == id {
        assert j in books && Some(j) != Some(id);
      } else if j == id {
        assert i in books && Some(i) != Some(id);
      }
    }
  }

  lemma RemoveKeepsBookTable(books: map<nat, Book>, next: nat, id: nat)
    requires BookTable(books, next)
    ensures BookTable(books - {id}, next)
  {
  }

  lemma StoreKeepsClassified(books: map<nat, Book>, parse: string -> Option<real>, id: nat, b: Book)
    requires ClassifiedBy(books, parse)
    requires b.deweyCategory == Classification.GetDeweyCategory(parse(b.ddc))
    ensures ClassifiedBy(books[id := b], parse)
  {
  }

  lemma ResyncKeepsCategoryTable(books: map<nat, Book>, cats: map<nat, Category>, next: nat, bucket: string)
    requires CategoryTable(cats, next)
    ensures CategoryTable(Resynced(books, cats, bucket), next)
  {
    ResyncKeepsRowShape(books, cats, bucket);
    var r := Resynced(books, cats, bucket);
    forall id | id in r ensures r[id].id == id && id < next && Categories.FitsColumns(r[id]) {
      assert r[id] == cats[id].(bookCount := r[id].bookCount);
    }
  }

  class CatalogStore {
    var books: map<nat, Book>
    var categories: map<nat, Category>
    var nextBookId: nat
    var nextCategoryId: nat
    /** The host's `parseFloat`; `None` is `NaN`. */
    const parseFloat: string -> Option<real>

    /** Primary keys, column widths, the unique indexes on `isbn` and
        `number`, and a bucket label on every row. */
    ghost predicate Valid()
      reads this
    {
      BookTable(books, nextBookId) && CategoryTable(categories, nextCategoryId)
    }

    /** Every row's bucket is the one its `ddc` resolves to. */
    ghost predicate Classified()
      reads this
    {
      ClassifiedBy(books, parseFloat)
    }

    constructor (parseFloat: string -> Option<real>)
      ensures Valid() && Classified()
      ensures books == map[] && categories == map[] && this.parseFloat == parseFloat
      ensures nextBookId == 1 && nextCategoryId == 1
    {
      books := map[];
      categories := map[];
      nextBookId := 1;
      nextCategoryId := 1;
      this.parseFloat := parseFloat;
    }

    /** `bookData.deweyCategory = getDeweyCategory(bookData.ddc)` when the
        body carries a non-empty ddc (createBook, :91-93). */
    function BucketOnCreate(data: BookData): (r: Option<string>)
      ensures r.Some? <==> data.ddc.Some? && data.ddc.value != ""
      ensures r.Some? ==> r.value == Classification.GetDeweyCategory(parseFloat(data.ddc.value))
    {
      if data.ddc.Some? && data.ddc.value != "" then Some(Classification.GetDeweyCategory(parseFloat(data.ddc.value)))
      else None
    }

    /** The bucket recomputed only when the body's ddc is non-empty and
        differs from the stored one (updateBook, :131-133). */
    function BucketOnUpdate(b: Book, data: BookData): (r: Option<string>)
      ensures r.Some? <==> data.ddc.Some? && data.ddc.value != "" && data.ddc.value != b.ddc
      ensures r.Some? ==> r.value == Classification.GetDeweyCategory(parseFloat(data.ddc.value))
    {
      if data.ddc.Some? && data.ddc.value != "" && data.ddc.value != b.ddc
      then Some(Classification.GetDeweyCategory(parseFloat(data.ddc.value)))
      else None
    }

    /** The stored books, one per primary key, as the read queries receive them. */
    function BookRows(): (rows: seq<Book>)
      reads this
      requires Valid()
      ensures |rows| == |books|
      ensures forall id :: id in books ==> books[id] in rows
      ensures forall i :: 0 <= i < |rows| ==> rows[i] in books.Values
    {
      assert KeysBelow(books, nextBookId) == books.Keys;
      RowsBelow(books, nextBookId)
    }

    /** The stored categories, one per primary key, as the read queries receive them. */
    function CategoryRows(): (rows: seq<Category>)
      reads this
      requires Valid()
      ensures |rows| == |categories|
      ensures forall id :: id in categories ==> categories[id] in rows
      ensures forall i :: 0 <= i < |rows| ==> rows[i] in categories.Values
    {
      assert KeysBelow(categories, nextCategoryId) == categories.Keys;
      RowsBelow(categories, nextCategoryId)
    }

    /** An insert into `dewey_categories`: refused (a database error) when
        `number` or `name` is missing, a value is too wide, or the number is
        taken; `bookCount` defaults to 0. */
    method InsertCategory(data: Categories.CategoryData) returns (r: Response<Category>)
      requires Valid()
      modifies this
      ensures Valid() && books == old(books) && nextBookId == old(nextBookId)
      ensures nextCategoryId == old(nextCategoryId) + (if r.Success? then 1 else 0)
      ensures r.Success? <==>
        && Categories.NewCategory(old(nextCategoryId), data).Some?
        && Categories.FitsColumns(Categories.NewCategory(old(nextCategoryId), data).value)
        && !Categories.NumberTaken(old(categories), data.number.value)
      ensures r.Success? ==>
        && r.status == Created201
        && r.data == Categories.NewCategory(old(nextCategoryId), data).value
        && r.data.id !in old(categories)
        && categories == old(categories)[r.data.id := r.data]
      ensures r.Failure? ==> r.status == ServerError500 && categories == old(categories)
    {
      var row := Categories.NewCategory(nextCategoryId, data);
      if row.None? || !Categories.FitsColumns(row.value) || Categories.NumberTaken(categories, row.value.number) {
        return Failure(ServerError500);
      }
      categories := categories[nextCategoryId := row.value];
      nextCategoryId := nextCategoryId + 1;
      return Success(Created201, row.value);
    }

    /** updateCategoryCount: count the books of the bucket, then write the
        count into the category row with that number, if there is one. */
    method ResyncCount(bucket: string)
      requires Valid()
      modifies this`categories
      ensures Valid()
      ensures categories == Resynced(books, old(categories), bucket)
      ensures CountIsSynced(books, categories, bucket)
    {
      var count := Recount(books, bucket);
      var updated := WithCount(categories, bucket, count);
      ResyncSyncsLabel(books, categories, bucket);
      ResyncKeepsCategoryTable(books, categories, nextCategoryId, bucket);
      categories := updated;
    }

    /** getBookById. */
    method GetBookById(id: nat) returns (r: Response<Book>)
      requires Valid()
      ensures r.Success? <==> id in books
      ensures r.Success? ==> r.status == Ok200 && r.data == books[id] && r.data.id == id
      ensures r.Failure? ==> r.status == NotFound404
    {
      if id !in books {
        return Failure(NotFound404);
      }
      return Success(Ok200, books[id]);
    }

    /** createBook: resolve the bucket from the ddc, insert the row (any
        database error is a 500), then resync the new row's bucket. */
    method CreateBook(data: BookData) returns (r: Response<Book>)
      requires Valid()
      modifies this
      ensures Valid()
      ensures nextBookId == old(nextBookId) + (if r.Success? then 1 else 0)
      ensures nextCategoryId == old(nextCategoryId)
      ensures r.Success? <==>
        && NewRecord(old(nextBookId), data, BucketOnCreate(data)).Some?
        && FitsColumns(NewRecord(old(nextBookId), data, BucketOnCreate(data)).value)
        && !IsbnTaken(old(books), data.isbn, None)
      ensures r.Success? ==>
        && r.status == Created201
        && r.data == NewRecord(old(nextBookId), data, BucketOnCreate(data)).value
        && r.data.id !in old(books)
        && books == old(books)[r.data.id := r.data]
        && categories == Resynced(books, old(categories), r.data.deweyCategory)
        && CountIsSynced(books, categories, r.data.deweyCategory)
      ensures r.Success? && old(Coherent(books, categories)) ==> Coherent(books, categories)
      ensures r.Success? && old(Classified()) ==> Classified()
      ensures r.Failure? ==> r.status == ServerError500 && books == old(books) && categories == old(categories)
    {
      var deweyCategory := BucketOnCreate(data);
      var row := NewRecord(nextBookId, data, deweyCategory);
      if row.None? || !FitsColumns(row.value) || IsbnTaken(books, row.value.isbn, None) {
        return Failure(ServerError500);
      }
      var book := row.value;
      ghost var before := books;
      InsertKeepsBookTable(books, nextBookId, book);
      if ClassifiedBy(books, parseFloat) {
        StoreKeepsClassified(books, parseFloat, book.id, book);
      }
      books := books[book.id := book];
      nextBookId := nextBookId + 1;
      if book.deweyCategory != "" {
        ResyncCount(book.deweyCategory);
      }
      if Coherent(before, old(categories)) {
        InsertThenResync(before, old(categories), book.id, book);
      }
      return Success(Created201, book);
    }

    /** updateBook as written: the bucket is recomputed when the ddc changed
        and the row is updated, but the resync at :138-141 is guarded by a
        comparison against the instance that `book.update` has already
        overwritten, so it never runs: no category row changes. */
    method UpdateBook(id: nat, data: BookData) returns (r: Response<Book>)
      requires Valid()
      modifies this
      ensures Valid()
      ensures nextBookId == old(nextBookId) && nextCategoryId == old(nextCategoryId)
      ensures categories == old(categories)
      ensures id !in old(books) ==> r == Failure(NotFound404) && books == old(books)
      ensures id in old(books) ==>
        var updated := Patched(old(books)[id], data, BucketOnUpdate(old(books)[id], data));
        r.Success? <==> updated.Some? && FitsColumns(updated.value) && !IsbnTaken(old(books), updated.value.isbn, Some(id))
      ensures r.Success? ==>
        && id in old(books)
        && r.status == Ok200
        && r.data == Patched(old(books)[id], data, BucketOnUpdate(old(books)[id], data)).value
        && books == old(books)[id := r.data]
      ensures r.Failure? ==> books == old(books)
      ensures id in old(books) && r.Failure? ==> r.status == ServerError500
      ensures r.Success? && r.data.deweyCategory != old(books)[id].deweyCategory
              && old(Coherent(books, categories)) && Categories.NumberTaken(categories, old(books)[id].deweyCategory) ==>
                !Coherent(books, categories)
      ensures old(Classified()) && data.ddc != Some("") ==> Classified()
    {
      if id !in books {
        return Failure(NotFound404);
      }
      var book := books[id];
      var deweyCategory := BucketOnUpdate(book, data);
      var updated := Patched(book, data, deweyCategory);
      if updated.None? || !FitsColumns(updated.value) || IsbnTaken(books, updated.value.isbn, Some(id)) {
        return Failure(ServerError500);
      }
      book := updated.value;
      ReplaceKeepsBookTable(books, nextBookId, id, book);
      books := books[id := book];
      // The comparison at :138 reads `book.deweyCategory` after the update,
      // so it compares the body's value with itself.
      var moved := deweyCategory.Some? && deweyCategory.value != book.deweyCategory;
      assert !moved;
      if book.deweyCategory != old(books)[id].deweyCategory && Coherent(old(books), categories)
         && Categories.NumberTaken(categories, old(books)[id].deweyCategory) {
        var c :| c in categories && categories[c].number == old(books)[id].deweyCategory;
        MoveWithoutResyncLeavesOldBucketStale(old(books), categories, id, book, c);
      }
      return Success(Ok200, book);
    }

    /** updateBook as evidently intended: remember the old bucket before the
        update and resync both buckets when the row moved. */
    method UpdateBookResyncingBoth(id: nat, data: BookData) returns (r: Response<Book>)
      requires Valid()
      modifies this
      ensures Valid()
      ensures nextBookId == old(nextBookId) && nextCategoryId == old(nextCategoryId)
      ensures id !in old(books) ==> r == Failure(NotFound404) && books == old(books) && categories == old(categories)
      ensures r.Success? ==>
        && id in old(books)
        && r.status == Ok200
        && Patched(old(books)[id], data, BucketOnUpdate(old(books)[id], data)) == Some(r.data)
        && books == old(books)[id := r.data]
      ensures r.Success? && r.data.deweyCategory != old(books)[id].deweyCategory ==>
        && CountIsSynced(books, categories, r.data.deweyCategory)
        && CountIsSynced(books, categories, old(books)[id].deweyCategory)
      ensures r.Success? && r.data.deweyCategory == old(books)[id].deweyCategory ==> categories == old(categories)
      ensures r.Failure? ==> books == old(books) && categories == old(categories)
      ensures old(Coherent(books, categories)) ==> Coherent(books, categories)
    {
      if id !in books {
        return Failure(NotFound404);
      }
      var book := books[id];
      var oldCategory := book.deweyCategory;
      var deweyCategory := BucketOnUpdate(book, data);
      var updated := Patched(book, data, deweyCategory);
      if updated.None? || !FitsColumns(updated.value) || IsbnTaken(books, updated.value.isbn, Some(id)) {
        return Failure(ServerError500);
      }
      ghost var before := books;
      book := updated.value;
      ReplaceKeepsBookTable(books, nextBookId, id, book);
      books := books[id := book];
      if book.deweyCategory != oldCategory {
        ResyncCount(book.deweyCategory);
        ghost var between := categories;
        ResyncCount(oldCategory);
        ResyncKeepsOtherSynced(books, between, book.deweyCategory, oldCategory);
        if Coherent(before, old(categories)) {
          MoveThenResyncBoth(before, old(categories), id, book);
        }
      } else if Coherent(before, old(categories)) {
        ReplaceWithinBucket(before, old(categories), id, book);
      }
      return Success(Ok200, book);
    }

    /** deleteBook: a missing id is a 404 with no change; otherwise the row is
        destroyed and its former bucket resynced. */
    method DeleteBook(id: nat) returns (status: StatusCode)
      requires Valid()
      modifies this
      ensures Valid()
      ensures nextBookId == old(nextBookId) && nextCategoryId == old(nextCategoryId)
      ensures id !in old(books) ==> status == NotFound404 && books == old(books) && categories == old(categories)
      ensures id in old(books) ==>
        && status == Ok200
        && books == old(books) - {id}
        && categories == Resynced(books, old(categories), old(books)[id].deweyCategory)
        && CountIsSynced(books, categories, old(books)[id].deweyCategory)
      ensures id in old(books) && old(Coherent(books, categories)) ==>
        && Coherent(books, categories)
        && forall c :: c in categories && categories[c].number == old(books)[id].deweyCategory ==>
             categories[c].bookCount == old(categories)[c].bookCount - 1
      ensures old(Classified()) ==> Classified()
    {
      if id !in books {
        return NotFound404;
      }
      var oldCategory := books[id].deweyCategory;
      ghost var before := books;
      ghost var cats := categories;
      StoredBucketIsLabel(books, nextBookId, id);
      RemoveKeepsBookTable(books, nextBookId, id);
      books := books - {id};
      if oldCategory != "" {
        ResyncCount(oldCategory);
      }
      assert categories == Resynced(books, cats, oldCategory);
      if Coherent(before, cats) {
        RemoveThenResync(before, cats, id);
      }
      return Ok200;
    }
  }

  /** The read queries over the store's tables: an unfiltered listing counts
      every stored book, every listed row is a stored book, and the category
      list holds every stored category. */
  lemma StoreListings(s: CatalogStore, page: Option<nat>, limit: Option<nat>, like: (string, string) -> bool)
    requires s.Valid() && BookQueries.PagingOk(page, limit)
    ensures var l := BookQueries.GetAllBooks(s.BookRows(), BookQueries.ListQuery(page, limit, None, None, None), like).data;
      && l.pagination.total == |s.books|
      && forall i :: 0 <= i < |l.rows| ==> l.rows[i] in s.books.Values
    ensures |DeweyQueries.GetAllCategories(s.CategoryRows()).data| == |s.categories|
  {
    BookQueries.UnfilteredListingCountsEveryRow(s.BookRows(), page, limit, like);
  }
}
