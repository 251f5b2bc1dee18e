# POS catalog backend — a Dafny model

This project models the catalog core of a small point-of-sale backend
(Express, PostgreSQL, Clerk, Upstash). Four parts are covered:

- **The product and category handlers** (`createOrUpdateProduct`, `getProducts`,
  `getProductsByCategory`, `searchProductByBarcode`, `createCategory`,
  `getCategories`). Each is a pure function from the database and the request
  fields it reads to the new database and the HTTP response.
- **The tables `initDB` creates.** These are `categories`, `products`,
  `sales_orders`, `sales_items` and `stock_movements`. The model covers their
  column constraints, unique keys, CHECK lists, foreign keys with their delete
  rules, and the idempotent seed of default categories. Together these form a
  well-formedness predicate that every modelled write preserves.
- **The authentication middleware.** It reads a bearer token, has an abstract
  verifier judge it, and then proceeds as a user, proceeds anonymously, or
  answers 401.
- **The rate-limiting middleware.** It derives the caller's key, decides from an
  abstract limiter reply, sets the limit headers, and fails open.

Files:

- `common.dfy`: JavaScript values and truthiness, `trim`, `replace`, and decimal text.
- `sorting.dfy`: `ORDER BY` as an insertion sort.
- `schema.dfy`: rows, the database, and well-formedness.
- `products.dfy`: the product upsert.
- `categories.dfy`: the category inserts, the seed, and the category delete.
- `ledger.dfy`: the sales and stock tables.
- `catalog.dfy`: the handlers.
- `auth.dfy`: the authentication middleware.
- `ratelimit.dfy`: the rate-limiting middleware.

Modelling conventions:

- A table is a sequence of rows. Uniqueness of keys is part of `WellFormed`, and
  each write is proved to preserve it.
- Money is in integer cents.
- Timestamps are ticks of a counter that every successful insert or update
  advances. A delete writes no timestamp and leaves the counter as it is.
- Nullable columns are `Option`s, except `is_active`. That column is nullable,
  but no modelled statement writes NULL to it (an insert takes the default
  `true`), so it is a `bool`.
- A database error is a `DbError`, and the handler turns it into a 500 with
  the state unchanged.
- A text bound to a VARCHAR(n) column is stored as `Schema.Varchar` stores it:
  as it is when it fits, cut to n characters when everything past the n-th is
  a space, and refused otherwise.
- Identifier sequences are counters. An `INSERT … ON CONFLICT DO NOTHING` still
  draws a value from its counter, as PostgreSQL's `nextval` does.
- The `products` UUID from `gen_random_uuid()` is modelled as a fresh natural
  number.

## Model

| member | source | states |
|---|---|---|
| Common.TrimSlice | src/controllers/productController.js:210 | Trimming keeps a contiguous slice of the name and drops only whitespace at each end, stopping at the first non-whitespace character |
| Common.TrimEmptyIffBlank | src/controllers/productController.js:210 | A name trims to the empty string exactly when every character is ECMAScript whitespace, so `!name.trim()` refuses exactly the blank names |
| Common.ParseIntToString | src/controllers/productController.js:42-44 | A number bound to an integer column, sent as its decimal text, reads back as the same integer |
| Common.ParseCentsIntToString | src/controllers/productController.js:43 | A whole number bound to a DECIMAL(10,2) column reads back as that many units (a hundred times as many cents) |
| Common.ReplacePrefix | src/middleware/auth.js:13 | Removing `Bearer ` from a header that starts with it removes exactly that prefix, even if the text recurs later |
| Common.ReplaceFirstSplits | src/middleware/auth.js:13 | `replace` with a string pattern substitutes the first occurrence only and otherwise returns the text unchanged |
| Sorting.SortBy | src/controllers/productController.js:93 | An ORDER BY result is a permutation of the selected rows, sorted by the given total preorder |
| Sorting.SortedPermutationUnique | src/controllers/productController.js:269 | When no two distinct rows compare equal, a sequence has exactly one ordering sorted by the order |
| Schema.ParseUnitType | src/config/db.js:38-39 | A stored unit is accepted exactly when it is one of pcs, pack, box, kg, g, L, mL, dozen (case-sensitive), and it maps back to that text |
| Schema.ParseMovementType | src/config/db.js:81 | A movement type is accepted exactly when it is one of add_stock, return, adjustment, wastage |
| Schema.Varchar | src/config/db.js:35-45 | A text is stored whole when it fits VARCHAR(n), as its first n characters when everything past them is a space, and refused otherwise |
| Schema.BarcodeDeterminesRow | src/config/db.js:35 | With unique barcodes the table is a partial function from barcode to row: a barcode names at most one row, and the lookup finds it |
| Schema.CategoryNameOf | src/controllers/productController.js:89-91 | The LEFT JOIN gives a category name exactly when the product's category id is a category's id, and then it is that category's name |
| Schema.EmptyWellFormed | src/config/db.js:22-87 | The freshly created, empty tables satisfy every constraint |
| ProductTable.CheckProduct | src/config/db.js:33-48 | The insert is accepted exactly when some row denotes the values as the columns read them (a VARCHAR text cut to its width when the excess is spaces) and fits the widths, ranges, NOT NULL, unit CHECK and category foreign key; that row is the one written |
| ProductTable.UnknownUnitStaysUnknown | src/config/db.js:38-39 | Cutting a unit text to VARCHAR(20) never turns a name outside the CHECK list into one on it |
| ProductTable.Upsert | src/controllers/productController.js:36-56 | After the upsert the barcode's row carries the written values; an existing row keeps its id, owner, active flag and creation time; a new row belongs to the writer and is active; no row for another barcode changes; the other tables are untouched |
| ProductTable.UpsertPreservesWellFormed | src/controllers/productController.js:36-56 | An upsert of values that fit keeps every table constraint, in particular barcode uniqueness |
| ProductTable.UpsertIdempotent | src/controllers/productController.js:46-54 | Upserting the same values twice leaves the rows as once, up to `updated_at` |
| ProductTable.UpsertConverges | src/controllers/productController.js:46-56 | Two upserts of one barcode leave exactly one row for it, carrying the later values and owned by whoever created the row |
| CategoryTable.AddCategoryRow | src/controllers/productController.js:218-223 | An insert with ON CONFLICT (name) DO NOTHING adds a row with the next id only for a name not yet present (exact match), and always draws an id |
| CategoryTable.AddCategoryRowKeepsCategoriesOk | src/config/db.js:24-28 | Inserting a name of at most 100 characters keeps category names and ids unique |
| CategoryTable.AddCategoryRows | src/config/db.js:90-95 | The multi-row insert keeps the existing rows as a prefix and draws one id per listed name |
| CategoryTable.AddCategoryRowsNames | src/config/db.js:90-95 | After the multi-row insert the names present are the old names together with the listed ones |
| CategoryTable.AddNewNamesAppends | src/config/db.js:90-95 | New, pairwise different names are appended in order |
| CategoryTable.AddPresentNamesChangesNoRow | src/config/db.js:94 | Names that are all present already leave the rows as they are |
| CategoryTable.SeedDefaultCategories | src/config/db.js:89-95 | The seed leaves every existing category row as it was and in its place: the old table is a prefix of the new one |
| CategoryTable.SeedAddsDefaults | src/config/db.js:90-95 | After the seed the names present are the previous ones plus the eight defaults, and no others |
| CategoryTable.SeedPreservesWellFormed | src/config/db.js:90-95 | The seed keeps every constraint: no name appears twice |
| CategoryTable.SeedIdempotent | src/config/db.js:90-95 | Running the seed a second time changes no category row |
| CategoryTable.SeededEmptyDatabase | src/config/db.js:89-95 | A fresh database after initialisation is well-formed and holds exactly the eight default names, once each, in order |
| CategoryTable.DeleteCategory | src/config/db.js:37 | Under ON DELETE SET NULL, deleting a category removes it, makes the products that referred to it uncategorised with nothing else changed on them, and leaves all other rows as they were |
| CategoryTable.DeleteCategoryPreservesWellFormed | src/config/db.js:37 | The set-null delete leaves no product pointing at a missing category and keeps every constraint |
| CategoryTable.DeleteCategoryAsWritten | src/config/db.js:37 | As declared (a SERIAL column is NOT NULL), the delete fails exactly when some product refers to the category, and otherwise equals the set-null delete |
| CategoryTable.DeleteReferencedCategoryAsWrittenFails | src/config/db.js:37 | On one category with one product in it, the declared table refuses the delete, while set-null removes the category and leaves the product uncategorised |
| LedgerTables.InsertOrder | src/config/db.js:53-61 | An order insert succeeds exactly when owner and total are present, the owner and payment method are accepted by their VARCHAR columns and the total fits DECIMAL(10,2); it appends one row with a fresh id holding the texts as those columns store them |
| LedgerTables.InsertOrderPreservesWellFormed | src/config/db.js:53-61 | An accepted order insert keeps every constraint |
| LedgerTables.InsertSalesItem | src/config/db.js:64-74 | A sales-line insert succeeds exactly when every column is present, `quantity > 0` within 32 bits, the amounts fit DECIMAL(10,2), and the order and product exist |
| LedgerTables.InsertSalesItemPreservesWellFormed | src/config/db.js:64-74 | An accepted sales-line insert keeps every constraint |
| LedgerTables.InsertStockMovement | src/config/db.js:77-87 | A movement insert succeeds exactly when the type, as VARCHAR(20) stores it, is one of the four names, the quantity is a 32-bit integer, the owner is present and accepted by VARCHAR(255), and the product exists |
| LedgerTables.InsertStockMovementPreservesWellFormed | src/config/db.js:77-87 | An accepted movement insert keeps every constraint |
| LedgerTables.DeleteProduct | src/config/db.js:68-80 | Deleting a product is refused exactly when a sales line refers to it (RESTRICT); otherwise the product and its stock movements go (CASCADE) and nothing else changes |
| LedgerTables.DeleteProductPreservesWellFormed | src/config/db.js:68-80 | A permitted product delete leaves no dangling reference |
| LedgerTables.DeleteOrder | src/config/db.js:67 | Deleting an order removes it and its sales lines (CASCADE) and nothing else |
| LedgerTables.DeleteOrderPreservesWellFormed | src/config/db.js:67 | The order delete leaves no dangling reference |
| Catalog.TextParam | src/controllers/productController.js:42-44 | A value bound to a text column is NULL exactly when it is null or absent; a string is sent as it is |
| Catalog.IntParam | src/controllers/productController.js:42-44 | A value bound to an integer column: a number arrives as itself, a string is accepted exactly when it is an integer literal, a boolean is refused, null is NULL |
| Catalog.MoneyParam | src/controllers/productController.js:43 | A value bound to a money column: a number of whole units, a string with at most two fraction digits, a boolean refused, null as NULL |
| Catalog.BindProduct | src/controllers/productController.js:36-45 | The statement fails before any check exactly when a numeric field is a boolean or a string that does not spell a number; otherwise every parameter is NULL exactly for a null or absent field, a string arrives as itself, a number as itself in an integer column and as that many units in a money column |
| Catalog.SaveProduct | src/controllers/productController.js:6-75 | 401 without an owner, then 400 when a required field is falsy, both with no write; for any other request, 500 with no write when the values cannot be bound or no fitting row denotes them, and otherwise 201, the state is the upsert of that row, and the body holds the seven RETURNING columns of the saved row |
| Catalog.SaveAppliesDefaults | src/controllers/productController.js:12-16 | Omitted optional fields are stored as unit pcs, purchase cost 0, stock 0 and no image in the row the answer names |
| Catalog.SaveKeepsExplicitNulls | src/controllers/productController.js:13-16 | An explicit null is not replaced by the default: the purchase cost, stock and image are stored as NULL in the row the answer names |
| Catalog.SaveRefusesZeroPrice | src/controllers/productController.js:28-33 | A selling price of 0 (or an empty string) counts as missing: 400, nothing written |
| Catalog.SaveAcceptsZeroPriceText | src/controllers/productController.js:28-33 | The text "0" is truthy and passes the required-field check, and a save that goes through stores the price 0 |
| Catalog.SaveRefusesUnknownUnit | src/config/db.js:38-39 | A unit outside the CHECK list, or an explicit null (which the default does not replace), makes the save fail with 500 and no write |
| Catalog.SaveRefusesUnreadableNumber | src/controllers/productController.js:36-45 | A numeric field its column cannot read (a boolean, or a string that is not a number) makes the save fail with 500 and no write, whatever the other fields hold |
| Catalog.SaveIdempotent | src/controllers/productController.js:46-62 | The same request twice answers 201 both times with the same returned columns, and leaves the table as once up to `updated_at` |
| Catalog.SaveKeepsOwners | src/controllers/productController.js:46-54 | Whoever saves, every existing product keeps its owner, id, active flag and creation time |
| Catalog.SavePreservesWellFormed | src/controllers/productController.js:36-56 | A save keeps every table constraint |
| Catalog.Joined | src/controllers/productController.js:89-91 | Each listed row keeps its place and carries a category name exactly when its category id is the id of some category, and then the name is that category's |
| Catalog.ListProducts | src/controllers/productController.js:79-112 | 401 without an owner; otherwise 200 with exactly the owner's active rows, each as often as in the table, newest first, each with its category name |
| Catalog.ListProductsByCategory | src/controllers/productController.js:113-166 | 401 without an owner; an empty, absent or "null" category gives the plain listing; otherwise the category must read as a 32-bit integer (else 500) and only that category's active rows of the owner are listed, newest first |
| Catalog.CategoryListingIsSubListing | src/controllers/productController.js:140-145 | A row is in the listing for category k exactly when it is in the owner's plain listing and has category k |
| Catalog.FindOwned | src/controllers/productController.js:177-183 | The search finds a row with the barcode and owner if there is one, and only such a row |
| Catalog.FindByBarcode | src/controllers/productController.js:169-194 | 401 unauthenticated, then 400 without a barcode, then 404 exactly when the user owns no row with the barcode, else 200 with such a row and its category name; the active flag plays no part |
| Catalog.FindByBarcodeFindsEveryRow | src/controllers/productController.js:177-189 | In a well-formed table the look-up returns every row to its owner, inactive rows included |
| Catalog.SavedProductIsFound | src/controllers/productController.js:36-62 | After an owner saves a barcode that is new or already theirs, the look-up under the barcode and owner as their columns stored them returns the row whose returned columns the save answered with |
| Catalog.CreateCategory | src/controllers/productController.js:206-217 | 400 exactly for a falsy name or a string that is all whitespace, with no change; 500 for a truthy non-string, which has no `trim`; any other name is handed to the insert trimmed |
| Catalog.InsertCategory | src/controllers/productController.js:217-243 | For a trimmed name: 500 with no change exactly when it is over 100 characters; 201 when no row has that exact name, appending a row with the name, the next id and the current time, and answering its id and name; 200 with the id and name of an existing row of that name and no row added; no other table changes |
| Catalog.CreateCategoryInsertsTrimmed | src/controllers/productController.js:209-220 | A string name that is not blank once trimmed is inserted trimmed |
| Catalog.InsertCategoryReturnsLookup | src/controllers/productController.js:217-235 | The id and name a successful insert answers with are those of the row a lookup by that name finds afterwards |
| Catalog.InsertPresentCategory | src/controllers/productController.js:226-233 | Inserting a name already present answers 200 with the id and name of the row the lookup finds, and adds no row |
| Catalog.CreateCategoryTwice | src/controllers/productController.js:218-235 | Sending a name again, with any surrounding whitespace, answers 200 with the row the first request returned and adds no row |
| Catalog.CreateCategoryPreservesWellFormed | src/controllers/productController.js:218-223 | Creating a category keeps every constraint |
| Catalog.TrimmedNameIsNeverCut | src/config/db.js:26 | A trimmed name is never cut by VARCHAR(n): it is stored whole when it fits and refused otherwise |
| Catalog.CreateCategoryFollowsVarchar | src/controllers/productController.js:209-221 | For a name that is not blank, the over-long 500 is exactly the VARCHAR(100) refusal of the trimmed name, and a created row holds the trimmed name as the column stores it |
| Catalog.NameLeTotal | src/controllers/productController.js:269 | Any two names are comparable in the byte order |
| Catalog.NameLeTransitive | src/controllers/productController.js:269 | The byte order of names is transitive |
| Catalog.NameLeAntisymmetric | src/controllers/productController.js:269 | Two names that sort with each other are equal, so the order of distinct names is strict |
| Catalog.ByNameIsPreorder | src/controllers/productController.js:269 | Ordering categories by name is a total preorder, so the sort applies |
| Catalog.ListCategories | src/controllers/productController.js:267-281 | 200 with every category row exactly once, in ascending name order |
| Catalog.CategoryListingIsDetermined | src/controllers/productController.js:267-281 | Because category names are unique, any ordering of the table sorted by name is the listing, so the response is fully determined |
| Auth.BearerToken | src/middleware/auth.js:11-13 | A token is found exactly when the header starts with `Bearer ` and something follows, and the header is then `Bearer ` followed by the token |
| Auth.BearerTokenRoundTrip | src/middleware/auth.js:12-20 | A header built from a token yields that token; `Bearer ` alone yields none |
| Auth.Authenticate | src/middleware/auth.js:7-53 | Exactly one outcome: 401 exactly when a token is present and fails verification; proceed as the user exactly when a verified token carries a non-empty `sub`; otherwise proceed anonymously |
| Auth.NoTokenIgnoresVerifier | src/middleware/auth.js:16-20 | Without a bearer token every verifier gives the same answer: proceed anonymously |
| Auth.FailureNeverDowngrades | src/middleware/auth.js:38-52 | A token that fails verification is answered with 401 and never let through anonymously |
| Auth.UserOnlyByVerifiedToken | src/middleware/auth.js:22-36 | A request proceeds as a user only when it presented a non-empty token that the verifier accepted for that user |
| RateLimit.IdentityKey | src/middleware/rateLimiter.js:10-21 | The key starts with `user_` exactly when a user is signed in, and then it ends with the user id; otherwise it is `ip_` followed by the forwarded address when one is given, else by the request address, else by "undefined" |
| RateLimit.KeysSeparateUsers | src/middleware/rateLimiter.js:14-19 | A signed-in user never shares a key with an anonymous caller, and two users share a key only when they are the same user |
| RateLimit.Decide | src/middleware/rateLimiter.js:26-46 | 429 exactly when the limiter answers and refuses; whenever it answers, the three headers carry its figures; when it throws, the request continues without headers |
| RateLimit.RateLimiter | src/middleware/rateLimiter.js:9-47 | The request is refused exactly when the limiter refuses the caller's key |
| RateLimit.FailsOpen | src/middleware/rateLimiter.js:42-46 | A limiter error never blocks the request |
| RateLimit.SameKeySameOutcome | src/middleware/rateLimiter.js:23-26 | Requests with the same key are treated alike |
| RateLimit.HeadersReportFigures | src/middleware/rateLimiter.js:28-31 | The three header values read back as the limit, the remaining count and the reset time |

## Findings

| source | as written | input that shows it | evidently intended | confidence | as-written member | corrected member |
|---|---|---|---|---|---|---|
| src/config/db.js:37 | `products.category_id` is declared `SERIAL … ON DELETE SET NULL`. SERIAL implies NOT NULL, so the set-null action fails and the category delete is refused | One category 1 "Snacks" and one product "Chips" in it: `DELETE FROM categories WHERE category_id = 1` fails with a not-null violation | An `INTEGER` column, so that deleting a category leaves its products uncategorised | high; not executed | CategoryTable.DeleteCategoryAsWritten, CategoryTable.DeleteReferencedCategoryAsWrittenFails | CategoryTable.DeleteCategory, CategoryTable.DeleteCategoryPreservesWellFormed |

The rest of the model lets `Product.categoryId` be null, which is what the
intended declaration allows.

## Left out

- SQL execution, the Neon client, connection errors, logging and `process.exit`
  are left out. The database is the in-memory `Db`, and a statement is a
  function on it.
- Columns the handlers name but the tables lack are not modelled as errors. The
  joins use `c.id` where the key is `category_id`, `getProductsByCategory`
  selects `p.id`, `p.price`, `p.quantity` and `p.image_url`, and
  `createCategory` returns `id`. As written these queries fail. The model gives
  them their evident meaning: join on the category key, select the product
  row, and answer a category's key and name.
- Catalog.InsertCategory: the id that a failing over-long insert may still draw
  from the category sequence is not modelled. The state is left unchanged.
- Catalog.FindOwned: `LIMIT 1` without an ORDER BY may return any matching row.
  The model returns the first. In a well-formed table there is at most one.
- The text form of parameters is simplified. Integer and decimal text is
  accepted without surrounding blanks, a leading `+` or exponents. A decimal
  with more than two fraction digits is refused, where PostgreSQL would round
  it. JSON numbers are whole numbers, because fractional numbers are floating
  point.
- Category names are ordered by code point, which is the C collation. A
  database with another collation orders differently.
- The sliding-window algorithm of the rate limiter, its Redis store and its
  quota of 100 requests per 60 seconds are left out. The limiter is a function
  from key to reply.
- Clerk's token verification is left out. The verifier is a function from token
  to outcome.
- Express routing, CORS, the cron job and server start-up are left out, and so
  is which middleware guards which route. Also left out are the routes that
  import handlers the controller does not define, and the transactions
  controller, which is not part of this model.
- Stock and sales operations are modelled only as the constraint-checked
  inserts and deletes their tables allow, because no handler writes them.
  Nothing enforces `line_total = quantity × unit_selling_price`, and neither
  does the model.
- Concurrency and racing writers are left out. Each handler runs alone, so
  `createCategory`'s re-fetch always finds the row.
- Time is a counter, not wall-clock time. The `set_updated_at` function is
  created but attached to no trigger, so only the upsert's explicit
  `updated_at = NOW()` moves that column.
- A request whose query parameter repeats (an array value) is left out. So is a
  JWT payload that is not an object.
- JSON objects and arrays as request body fields are left out: `JsValue` has
  only undefined, null, booleans, numbers and strings. Such a field would be
  sent as text by the driver, and a `name` that is one would fail `trim` in
  `createCategory` with 500.
- Catalog.TextParam: JSON numbers are modelled as unbounded whole numbers. A
  JavaScript number is a double, so a whole number above 2^53 arrives rounded
  (12345678901234567 becomes 12345678901234568), and one of 10^21 or more is
  sent in exponent form (`1e+21`). Such a number sent for a text, integer or
  money field is stored differently from what the model stores.
- The SERIAL id sequences are 32-bit and fail after 2147483647. The model's
  counters (`nextCategoryId` and the others) never run out.
- PostgreSQL refuses text containing the character U+0000. The model accepts
  any text that fits its column.
- The model follows the code, not the intended design, in five places:
  - category names are unique by exact match, not case-insensitively;
  - the upsert on a barcode another user owns overwrites that row and keeps
    its owner;
  - the barcode search does not filter on `is_active`;
  - no reorder level exists;
  - a negative selling price is accepted.
- The product owner comes from the request body (`createOrUpdateProduct`) or
  from the query and path (`getProducts`, `getProductsByCategory`), not from
  the authenticated user, as the code does.
