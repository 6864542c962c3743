# Communiversity Digital Library backend — a Dafny model

This project models the core of a library-catalogue REST backend. In the original, an Express
server over a MySQL database via Sequelize serves books classified by the Dewey Decimal
Classification. Each book carries a free-form `ddc` string (such as `"512.5"`). From it the
controller derives a *bucket*, one of the ten hundred-wide main classes `"000-099"` …
`"900-999"`. A `dewey_categories` table keeps one row per bucket with a cached `bookCount`.

The model covers these parts of the system:

- **The bucket resolver** (`Classification`). It maps the value `parseFloat` gives to a bucket,
  with `"000-099"` as the fallback.
- **The three tables** (`Books`, `Categories`, `Users`). Each has its column widths, not-null
  columns, enum columns, defaults and unique keys.
- **The user model's password hooks** (`Users.UserInstance`). The hash and compare functions
  are parameters.
- **The book controller's write paths** (`Catalog.CatalogStore`). This class holds the two
  tables that create/update/delete change and the `updateCategoryCount` recount. Its invariant
  is that the stored rows fit their columns and keep their unique keys. Its coherence property
  is that every category row's `bookCount` equals the number of books in its bucket.
- **The read queries**: `BookQueries` (listing, search, pagination) and `DeweyQueries`.
- **The Joi schemas and the `validate` middleware** (`Validation`).
- **Token authentication and role authorization** (`Auth`).
- **The book router's table of routes and middleware chains** (`BookRoutes`).

Outside inputs are parameters of the model:

- `parseFloat`, as a function from string to an optional real;
- JWT verification, as a function from token to optional claims;
- bcrypt hash/compare;
- Joi's `uri()` and `email()` checks;
- the current year;
- SQL `LIKE` under the column collation.

Shared helpers live in `Text` (substring search, stable sort by a string key, filtering,
windows), `Http` and `Wrappers`.

## Model

| member | source | states |
|---|---|---|
| Classification.GetDeweyCategory | bankend/controllers.js/bookController.js:240-256 | every input, including NaN and out-of-range values, gets one of the ten bucket labels |
| Classification.ResolvesByHundreds | bankend/controllers.js/bookController.js:244-253 | a value in [0, 1000) goes to bucket number floor(n)/100 |
| Classification.FallbackOutsideRange | bankend/controllers.js/bookController.js:242-255 | NaN, negative values and values of 1000 or more fall back to "000-099" |
| Classification.BucketMembership | bankend/controllers.js/bookController.js:245-253 | for buckets 1..9: a value gets bucket k if and only if 100k <= n < 100k+100 |
| Classification.BoundaryCases | bankend/controllers.js/bookController.js:242-255 | the ranges are half-open: 99.99 → "000-099", 100 → "100-199", 999.99 → "900-999", 1000 → fallback |
| Classification.LabelsAreBucketLabels | bankend/controllers.js/bookController.js:244-253 | label k is "k00-k99" for every k |
| Classification.LabelsDistinct | bankend/controllers.js/bookController.js:244-253 | two labels are equal exactly when their bucket numbers are |
| Classification.HundredOf | bankend/controllers.js/bookController.js:245-253 | the hundreds digit of a non-negative value is k exactly when the value is in [100k, 100k+100) |
| Books.ParseStatus | bankend/models/Book.js:42-45 | a string names a status exactly when it is one of the four enum values |
| Books.StatusRoundTrip | bankend/models/Book.js:42-45 | reading a status's name back gives that status |
| Books.NewRecord | bankend/models/Book.js:5-65 | `Book.create` succeeds exactly when title, author, ddc, category and a bucket are present and any status names an enum value; the row has the given id and bucket and every column the body gives (title, author, isbn, ddc, category, description, keywords, location, status, publishedYear, publisher, pageCount, thumbnail); status defaults to available, keywords to [] |
| Books.Patched | bankend/models/Book.js:5-65 | `instance.update` fails only on a non-enum status; it keeps the id, and for every column a value given in the body replaces the stored one while an absent key keeps it |
| Books.EmptyPatchIsIdentity | bankend/models/Book.js:5-65 | an update with an empty body leaves the row unchanged |
| Categories.NewCategory | bankend/models/DeweyCategory.js:5-31 | a category is created exactly when number and name are present; the row holds the given id, number, name, description and icon; bookCount defaults to 0 |
| Users.ParseRole | bankend/models/User.js:29-32 | a role string is accepted exactly when it is admin, librarian or user |
| Users.NewAccount | bankend/models/User.js:6-40 | an account is created exactly when username, a well-formed email, password and any role are valid; it holds the given id, username, email, password and names; the role defaults to user |
| Users.InsertAccount | bankend/models/User.js:12-24 | an insert is refused when the username or email is taken, and it keeps both unique |
| Users.UserInstance.BeforeCreate | bankend/models/User.js:45-49 | a non-empty password is replaced by its hash; nothing else changes |
| Users.UserInstance.BeforeUpdate | bankend/models/User.js:50-54 | the password is rehashed only when it changed; otherwise the instance is unchanged |
| Users.UserInstance.ValidatePassword | bankend/models/User.js:70-72 | the candidate is compared with the stored hash |
| Users.CreatedPasswordValidates | bankend/models/User.js:45-49 | with a compare that accepts a password against its own hash, an instance holding what the create hook leaves for a non-empty password validates that password |
| Users.RegisteredPasswordValidates | bankend/models/User.js:45-72 | an account created from a body with a non-empty password, once the create hook has hashed it, validates that same password and keeps the username |
| Catalog.Resynced | bankend/controllers.js/bookController.js:259-268 | `updateCategoryCount`: rows with that number get the recount, every other row is unchanged, and no rows are added or removed |
| Catalog.Recount | bankend/controllers.js/bookController.js:260-262 | `Book.count` of a bucket: the number of stored rows carrying it |
| Catalog.RecountBounds | bankend/controllers.js/bookController.js:260-262 | the count is at most the number of rows, and zero exactly when no row is in the bucket |
| Catalog.WithCount | bankend/controllers.js/bookController.js:264-267 | `DeweyCategory.update` of bookCount: every row with that number gets the count, the other rows are unchanged, and no rows are added or removed |
| Catalog.ResyncTouchesAtMostOneRow | bankend/controllers.js/bookController.js:264-267 | with unique numbers, no two category rows both change |
| Catalog.ResyncIdempotent | bankend/controllers.js/bookController.js:259-268 | a second recount of the same bucket changes nothing |
| Catalog.ResyncSyncsLabel | bankend/controllers.js/bookController.js:259-268 | after a recount, that bucket's count is correct, and coherence is kept |
| Catalog.ResyncKeepsOtherSynced | bankend/controllers.js/bookController.js:259-268 | a recount of one bucket does not disturb another bucket's correct count |
| Catalog.ResyncKeepsRowShape | bankend/controllers.js/bookController.js:264-267 | only `bookCount` changes, and number uniqueness is kept |
| Catalog.RecountInsert | bankend/controllers.js/bookController.js:260-262 | adding a book raises its bucket's count by one and no other bucket's count |
| Catalog.RecountRemove | bankend/controllers.js/bookController.js:260-262 | removing a book lowers its bucket's count by one and no other bucket's count |
| Catalog.RecountReplace | bankend/controllers.js/bookController.js:260-262 | replacing a book moves one unit from the old bucket to the new one |
| Catalog.InsertThenResync | bankend/controllers.js/bookController.js:95-100 | create followed by a recount of the new book's bucket keeps every count correct and raises that bucket's count by one |
| Catalog.RemoveThenResync | bankend/controllers.js/bookController.js:170-176 | delete followed by a recount of the old bucket keeps every count correct and lowers that bucket's count by one |
| Catalog.ReplaceWithinBucket | bankend/controllers.js/bookController.js:135 | an update that keeps the bucket needs no recount |
| Catalog.MoveWithoutResyncLeavesOldBucketStale | bankend/controllers.js/bookController.js:135-141 | after a move that is not recounted, the old bucket's cached count is one too high, so the counts are not all correct |
| Catalog.ResyncNewBucketOnlyLeavesOldBucketStale | bankend/controllers.js/bookController.js:138-140 | recounting only the new label (what both calls at :139-140 pass once the instance is updated) leaves the old bucket stale |
| Catalog.MoveThenResyncBoth | bankend/controllers.js/bookController.js:138-141 | recounting both the new and the old bucket after a move keeps every count correct; the old bucket's count drops by one and the new one's rises by one |
| Catalog.RowsBelow | bankend/controllers.js/bookController.js:33-38 | the rows of a table: one position per key below the bound, each holding a stored row, and every such row present |
| Catalog.InsertKeepsBookTable | bankend/models/Book.js:5-50 | inserting a storable row under the next id keeps the primary keys, column widths, bucket labels and unique isbns |
| Catalog.ReplaceKeepsBookTable | bankend/models/Book.js:5-50 | replacing a row with a storable one whose isbn no other row holds keeps the table invariant |
| Catalog.RemoveKeepsBookTable | bankend/models/Book.js:5-50 | destroying a row keeps the table invariant |
| Catalog.ResyncKeepsCategoryTable | bankend/models/DeweyCategory.js:5-31 | a recount keeps the category keys, widths and unique numbers |
| Catalog.StoreKeepsClassified | bankend/controllers.js/bookController.js:91-95 | storing a row whose bucket is the one its ddc resolves to keeps every row classified |
| Catalog.CatalogStore.constructor | bankend/models/Book.js:5-10 | an empty store satisfies the invariant, and both id counters start at 1 as `AUTO_INCREMENT` does |
| Catalog.CatalogStore.BucketOnCreate | bankend/controllers.js/bookController.js:91-93 | a bucket is derived exactly when the body's ddc is truthy, and it is the resolver's label for it |
| Catalog.CatalogStore.BucketOnUpdate | bankend/controllers.js/bookController.js:131-133 | a bucket is derived exactly when the body's ddc is truthy and differs from the stored ddc |
| Catalog.CatalogStore.BookRows | bankend/controllers.js/bookController.js:33-38 | the table the book queries read: one row per stored book, every stored book present |
| Catalog.CatalogStore.CategoryRows | bankend/controllers.js/deweyController.js:7-9 | the table the category queries read: one row per stored category, every stored category present |
| Catalog.CatalogStore.InsertCategory | bankend/models/DeweyCategory.js:5-31 | a category is stored exactly when it has its columns, fits them and its number is free; otherwise 500 and no change |
| Catalog.CatalogStore.ResyncCount | bankend/controllers.js/bookController.js:259-268 | the category table becomes `Resynced` of the old one, and that bucket's count is correct |
| Catalog.CatalogStore.GetBookById | bankend/controllers.js/bookController.js:60-83 | 200 with the stored row when the id exists, otherwise 404 |
| Catalog.CatalogStore.CreateBook | bankend/controllers.js/bookController.js:86-114 | 201 with a new row exactly when the record is valid, fits and has a free isbn; the row takes the next id, which then advances; the bucket's count is recounted; coherence and classification are kept; on 500 nothing changes |
| Catalog.CatalogStore.UpdateBook | bankend/controllers.js/bookController.js:117-155 | as written: 404 for a missing id, the patched row on success, no recount ever; a book moved between buckets leaves the counts incorrect |
| Catalog.CatalogStore.UpdateBookResyncingBoth | bankend/controllers.js/bookController.js:117-155 | corrected update: when the bucket changes, both the new and the old bucket are recounted, so coherence is kept |
| Catalog.CatalogStore.DeleteBook | bankend/controllers.js/bookController.js:158-189 | 404 for a missing id; otherwise the row is gone, its old bucket is recounted, coherence is kept and that count drops by one |
| Catalog.StoreListings | bankend/controllers.js/bookController.js:33-38 | over the store's tables, an unfiltered listing counts every stored book and lists only stored books, and the category list has one entry per stored category |
| BookQueries.PageCount | bankend/controllers.js/bookController.js:47 | `Math.ceil(total / limit)`: the smallest page count whose pages hold every row |
| BookQueries.Offset | bankend/controllers.js/bookController.js:9 | page p starts at offset (p-1)*limit, so it ends where page p+1 starts, and page 1 starts at 0 |
| Text.Filter | bankend/controllers.js/bookController.js:33-38 | `WHERE`: every row kept is a row of the table passing the test, and every passing row is kept; the multiplicities are stated by `Text.FilterMultiset` |
| Text.FilterMultiset | bankend/controllers.js/bookController.js:33-38 | `WHERE` keeps multiplicities: a row passing the test occurs in the result exactly as often as in the table, and a failing row never, so `total` is the number of matching rows |
| Text.SortBy | bankend/controllers.js/bookController.js:36 | `ORDER BY`: the result is a permutation of the rows |
| Text.SortBySorted | bankend/controllers.js/bookController.js:36 | `ORDER BY`: the result is ordered by the key |
| Text.Window | bankend/controllers.js/bookController.js:35-37 | `LIMIT`/`OFFSET`: at most limit rows, row i being row offset+i, and none past the end |
| BookQueries.Paginate | bankend/controllers.js/bookController.js:33-48 | a page holds at most `limit` rows, sorted by title, taken from the matches at offset (page-1)*limit; the total is the match count |
| BookQueries.PageOfPositionExists | bankend/controllers.js/bookController.js:9 | the page holding position i is a page between 1 and the page count |
| BookQueries.RowOnItsPage | bankend/controllers.js/bookController.js:9-47 | the i-th match in title order is row i mod limit of page i/limit + 1 |
| BookQueries.GetAllBooks | bankend/controllers.js/bookController.js:6-57 | 200; the rows are the window at offset (page-1)*limit, at most limit long, of the title-sorted rows passing each truthy filter (bucket, status, search over title/author/description/ddc); total counts all matches; page and limit default to 1 and 20, and pages is the ceiling of total/limit |
| BookQueries.ListMatches | bankend/controllers.js/bookController.js:11-31 | with no truthy filter every book matches; a truthy bucket or status filter must equal the row's; a search that matches none of title, author, description and ddc excludes the row |
| BookQueries.UnfilteredListingCountsEveryRow | bankend/controllers.js/bookController.js:11-38 | with no filters, the total is the number of books |
| BookQueries.SearchBooks | bankend/controllers.js/bookController.js:192-237 | 400 exactly when q is missing or empty; otherwise the rows are the window at offset (page-1)*limit of the title-sorted matches of q in title, author, description, ddc or category, at most limit; total counts all matches, page and limit take their defaults, and pages is the ceiling of total/limit |
| BookQueries.SearchMatches | bankend/controllers.js/bookController.js:206-214 | a hit in the title or category makes a match, and a term that matches nothing matches no row |
| DeweyQueries.GetAllCategories | bankend/controllers.js/deweyController.js:5-22 | the same rows, ordered by number |
| DeweyQueries.FindByNumber | bankend/controllers.js/deweyController.js:28-30 | the row at the first position holding that number, or none exactly when no row has it |
| DeweyQueries.BucketBooks | bankend/controllers.js/deweyController.js:40-44 | the first 50 books of the bucket in title order, all from the table; every book of the bucket when it holds at most 50 |
| DeweyQueries.GetCategoryByNumber | bankend/controllers.js/deweyController.js:25-60 | 404 exactly when no category has the number; otherwise that category with the first 50 of its bucket's books in title order, all of them when there are at most 50 |
| DeweyQueries.GetCategoryStats | bankend/controllers.js/deweyController.js:63-85 | as written: always 500 |
| DeweyQueries.CountIn | bankend/controllers.js/deweyController.js:68 | `COUNT(id)` of a bucket is at most the number of rows, and zero exactly when no row is in the bucket |
| DeweyQueries.CountInIsFilterLength | bankend/controllers.js/deweyController.js:68 | the count equals the number of rows the bucket filter selects |
| DeweyQueries.StatsOver | bankend/controllers.js/deweyController.js:65-72 | every group is non-empty, is one of the given labels and has its exact count |
| DeweyQueries.StatsOverComplete | bankend/controllers.js/deweyController.js:70 | every label that some book carries gets a group |
| DeweyQueries.StatsOverAscending | bankend/controllers.js/deweyController.js:71 | groups come in ascending, distinct label order |
| DeweyQueries.LabelsAscending | bankend/controllers.js/bookController.js:244-253 | the ten labels are ascending and distinct |
| DeweyQueries.CategoryStats | bankend/controllers.js/deweyController.js:65-72 | corrected stats: one group per bucket in use, ascending and distinct, each with its exact count, and every book's bucket present |
| Validation.Fraction | bankend/middleware/validation.js:11 | the digits after the point make a fraction in [0, 1) |
| Validation.DdcPattern | bankend/middleware/validation.js:11 | `^\d{3}(\.\d+)?$`: three digits, then nothing or a point followed by at least one digit |
| Validation.DdcPatternPositionwise | bankend/middleware/validation.js:11 | a string matches exactly when every character but the fourth is a digit, the fourth (if any) is the point, and the length is not 4 |
| Validation.DdcValue | bankend/middleware/validation.js:11 | a string matching the ddc pattern denotes a value in [0, 1000) whose hundreds digit is its first character |
| Validation.ValidatedDdcResolvesByFirstDigit | bankend/middleware/validation.js:11 | for a parse that reads pattern strings exactly, a validated ddc goes to the bucket named by its first digit |
| Validation.ExactBucket | bankend/controllers.js/bookController.js:240-256 | the resolver on a validated ddc's exact value is the bucket of its first digit, and the fallback only for a leading 0 |
| Validation.RoundedDdcFallsBack | bankend/controllers.js/bookController.js:91-93 | when parseFloat rounds "999.9999999999999999" to 1000, that validated, column-fitting ddc falls back to "000-099" although its first digit names "900-999" |
| Validation.RoundedDdcMovesUp | bankend/controllers.js/bookController.js:91-93 | when parseFloat rounds "099.9999999999999999" to 100, that validated ddc lands in "100-199" although its first digit names "000-099" |
| Validation.StringCheck | bankend/middleware/validation.js:8-13 | a Joi string rule passes exactly when the value meets presence, emptiness and length bounds, the length counted in UTF-16 code units |
| Text.Utf16Length | bankend/middleware/validation.js:8 | a string's JavaScript length lies between its character count and twice it, and is zero only for the empty string |
| Text.Utf16LengthOfBmp | bankend/middleware/validation.js:25 | with no character above U+FFFF the JavaScript length is the character count, so the ASCII-only username bounds are character counts |
| Text.AstralCharIsTwoUnits | bankend/middleware/validation.js:8 | one character above U+FFFF has JavaScript length 2 |
| Validation.AstralPasswordMeetsMinimum | bankend/middleware/validation.js:27 | three characters above U+FFFF meet the password's min(6) |
| Validation.DdcCheck | bankend/middleware/validation.js:11 | ddc passes exactly when present and matching `^\d{3}(\.\d+)?$` |
| Validation.StatusCheck | bankend/middleware/validation.js:16 | status passes exactly when absent or one of the four values |
| Validation.IntegerCheck | bankend/middleware/validation.js:17-19 | passes exactly when absent or within [min, max] |
| Validation.KeywordsCheck | bankend/middleware/validation.js:14 | passes exactly when absent or every item is a non-empty string |
| Validation.FormatCheck | bankend/middleware/validation.js:20 | an optional uri/email field passes exactly when absent, allowed-empty or accepted by the format check |
| Validation.BookErrorsEmptyIffConforms | bankend/middleware/validation.js:7-21 | the book schema reports no error exactly when every key's bound holds |
| Validation.ValidateBook | bankend/middleware/validation.js:46-59 | `validate('book','body')` calls next exactly when the body conforms; otherwise 400 with exactly the first violation in key order |
| Validation.Validate | bankend/middleware/validation.js:46-59 | next exactly when there are no errors; otherwise 400 with one detail |
| Validation.ConformingBodyIsStorable | bankend/middleware/validation.js:7-21 | a conforming body creates a row that fits the table whenever isbn, ddc and thumbnail fit their columns |
| Validation.PatternDoesNotBoundDdcWidth | bankend/middleware/validation.js:11 | a 21-character ddc passes the pattern but not the 20-character column |
| Validation.UsernameCheck | bankend/middleware/validation.js:25 | passes exactly when present, alphanumeric and 3 to 30 characters long |
| Validation.ValidateRegister | bankend/middleware/validation.js:24-30 | passes exactly when every register key's bound holds (lengths in UTF-16 units); otherwise 400 with exactly the first violation |
| Validation.ValidateLogin | bankend/middleware/validation.js:33-36 | passes exactly when username and password are non-empty strings |
| Validation.ValidateProfile | bankend/middleware/validation.js:39-43 | passes exactly when the names are at most 50 UTF-16 units and the email is present and well-formed |
| Auth.ExtractToken | bankend/middleware/auth.js:8 | no header gives no token; a header without "Bearer " is the token unchanged |
| Text.IndexOf | bankend/middleware/auth.js:8 | the first position where the pattern occurs, or none exactly when it occurs nowhere |
| Text.RemoveFirst | bankend/middleware/auth.js:8 | `replace` with a string pattern: unchanged when the pattern does not occur, otherwise only its first occurrence is removed |
| Auth.BearerHeaderGivesRest | bankend/middleware/auth.js:8 | "Bearer t" gives t |
| Auth.BearerCutAnywhere | bankend/middleware/auth.js:8 | the first "Bearer " is cut wherever it is: "xBearer y" gives "xy" |
| Auth.Authenticate | bankend/middleware/auth.js:6-36 | 401 for a missing or empty token, 400 exactly when verification fails, 401 when the user no longer exists; otherwise the decoded claims are passed on |
| Auth.RoleList | bankend/middleware/auth.js:39-42 | a single role becomes a one-element list |
| Auth.Authorize | bankend/middleware/auth.js:44-52 | next exactly when the user's role is in the list, otherwise 403 |
| Auth.OneRoleIsSingletonList | bankend/middleware/auth.js:40-42 | `authorize('r')` behaves as `authorize(['r'])` |
| Auth.NoRolesDeniesEveryone | bankend/middleware/auth.js:39 | the default empty list denies every user |
| BookRoutes.Dispatch | bankend/routes/books.js:16-23 | the first route in registration order that matches, or none exactly when none matches |
| BookRoutes.TableShape | bankend/routes/books.js:16-23 | the six routes in registration order, with their verbs and path shapes |
| BookRoutes.RunChain | bankend/routes/books.js:21-23 | a chain answers only 400/401/403/500 or reaches one of its own handlers |
| BookRoutes.Serve | bankend/routes/books.js:16-23 | a request falls through exactly when no route matches it |
| BookRoutes.StaffChainSteps | bankend/routes/books.js:21-22 | authenticate, then authorize admin/librarian, then validate, then the handler |
| BookRoutes.AdminChainSteps | bankend/routes/books.js:23 | authenticate, then authorize admin, then deleteBook |
| BookRoutes.ReadsArePublic | bankend/routes/books.js:16-18 | the GET routes reach their handlers with no token, role or body check |
| BookRoutes.SearchShadowsBookId | bankend/routes/books.js:17-18 | /search matches /:id as well, yet reaches searchBooks because it is registered first |
| BookRoutes.WritesNeedStaffAndValidBody | bankend/routes/books.js:21-22 | POST and PUT reach createBook/updateBook exactly when authenticated as admin or librarian with a conforming body |
| BookRoutes.DeleteIsAdminOnly | bankend/routes/books.js:23 | DELETE reaches deleteBook exactly when authenticated as admin, and the body is irrelevant |
| BookRoutes.LibrarianCannotDelete | bankend/routes/books.js:23 | a valid librarian token gets 403 on DELETE |
| BookRoutes.StageOrder | bankend/routes/books.js:21-22 | a token failure wins over role and body, and a wrong role gets 403 before the body is looked at |
| BookRoutes.UnroutedFallsThrough | bankend/routes/books.js:16-23 | longer paths, POST to /:id and PUT/DELETE on / match no route |

## Left out

- `parseFloat` is a parameter. IEEE rounding and NaN arithmetic are not modelled. The store resolves buckets through whatever `parse` it is given.
- Validation.ValidatedDdcResolvesByFirstDigit: holds only for a parse that reads pattern strings exactly (`Validation.ParsesDdcExactly`). IEEE `parseFloat` does not: "999.9999999999999999" validates, fits the column and becomes 1000, which falls back to "000-099" (see Findings).
- MySQL collation and `LIKE` are not modelled. Ordering uses code-point lexicographic order with a stable sort (ties keep table order). `LIKE '%term%'` is the parameter `like`.
- Under a case-insensitive collation such as utf8mb4_unicode_ci, the unique indexes (isbn, number, username, email) and the `=` filters (`deweyCategory = ?`, `number = ?`, `status = ?`) compare strings case-insensitively. The model compares them exactly: `Catalog.IsbnTaken`, `Categories.NumberTaken`, `Users.InsertAccount`, `DeweyQueries.InBucket`, `DeweyQueries.FindByNumber` and the bucket and status filters of `BookQueries.ListMatches`.
- Express routing is simplified: case-insensitive paths, trailing slashes and URL decoding are not modelled. A path is its list of segments below `/books`.
- `parseInt` of page/limit is not modelled. Page and limit are positive integers when present, with defaults 1 and 20. Non-numeric or zero query values are not modelled.
- `Catalog.CatalogStore.GetBookById`, `UpdateBook` and `DeleteBook` take the id as a natural number. `req.params.id` arrives as a string, and how Sequelize coerces a string such as "abc" or "1abc" before `findByPk` is not modelled.
- Store failures other than the modelled constraint violations are not modelled: a dropped connection, a failing query, or a recount that fails after the book write has committed (createBook, updateBook and deleteBook then answer 500 with the write already stored). In the model every write and recount succeeds once the constraints hold.
- Concurrency between requests is not modelled. Each controller call runs alone, so the recount and the write are not interleaved with other requests.
- JSON response bodies and messages are left out. Only statuses and payload data are modelled.
- 32-bit INTEGER ranges for ids, years, page counts and bookCount are not modelled. Integers are unbounded.
- The clock (`new Date().getFullYear()`), JWT signing and verification, bcrypt, and Joi's `email()`/`uri()` are parameters.
- `req.user` is the verified claims as passed on. The token's expiry is inside `verify`.
- Autoincrement ids are the next unused id. Gaps left by failed inserts are not modelled.
- Timestamps (`createdAt`/`updatedAt`) and indexes are not modelled. Indexes do not change results.
- initDatabase.js, server.js, config/database.js and the auth and dewey route files are not part of this model. Only the book router is modelled.
- Users.UserInstance.ValidatePassword: bcrypt.compare is the `compare` parameter, so the contract only says the stored hash is what is compared.
- Catalog.CatalogStore.UpdateBook: the staleness is stated only when the old bucket has a category row and the counts were correct before the update.
- Users.NewAccount: the widths of the users columns (username 50, email 100, password 255, names 50) are not checked.
- DeweyQueries.CategoryStats: requires every stored bucket is one of the ten labels, as the store keeps it. Arbitrary bucket strings are not grouped.

## Findings

| source | as written | input that shows it | evidently intended | confidence | as-written member | corrected member |
|---|---|---|---|---|---|---|
| bankend/controllers.js/bookController.js:135-141 | `book.update(bookData)` writes the new `deweyCategory` onto `book` before the guard compares `bookData.deweyCategory !== book.deweyCategory`, so the guard is never true and neither bucket is recounted; even if it were, both calls pass the new label | a book in "500-599" updated with ddc "720.1": "700-799" keeps its old count and "500-599" keeps counting the moved book | recount the new and the old bucket when a book changes bucket | high, not executed | Catalog.CatalogStore.UpdateBook, Catalog.MoveWithoutResyncLeavesOldBucketStale | Catalog.CatalogStore.UpdateBookResyncingBoth, Catalog.MoveThenResyncBoth |
| bankend/middleware/validation.js:11 with bankend/controllers.js/bookController.js:91-93 | the ddc pattern allows any number of decimals, and `parseFloat` rounds to the nearest double, so a validated ddc can round up across a hundreds boundary before `getDeweyCategory` sees it | ddc "999.9999999999999999" (20 characters, fits the column) becomes 1000 and lands in "000-099"; "099.9999999999999999" becomes 100 and lands in "100-199" | a validated ddc lands in the bucket of its first digit | high, not executed | Validation.RoundedDdcFallsBack, Validation.RoundedDdcMovesUp | Validation.ExactBucket |
| bankend/controllers.js/deweyController.js:65-72 | `sequelize.fn` / `sequelize.col` name an identifier the controller never imports (it imports only `DeweyCategory` and `Book`), so building the query throws and the catch answers 500 | any GET /dewey/stats, even with books stored | group the books by bucket in ascending order with a count per bucket | high, not executed | DeweyQueries.GetCategoryStats | DeweyQueries.CategoryStats |
