# bodega, modelled in Dafny

bodega is a small Rust model layer over PostgreSQL. It has two halves, and this project models both.

The first half is a generic CRUD engine, `bodega/src/base.rs`. It has seven operations: `count`, `create`, `get`, `list`, `list_paginated`, `update` and `delete`.
- Each operation runs over any model controller (`DbBmc`) and builds one sea_query statement.
- It sends the statement through sqlx and interprets the reply.
- It tags driver failures with the entity and the operation.
- It reports `EmptyUpdate` and `EntityNotFound` itself.

Keyset pagination (`pagination.rs`) wraps each page and decides whether a next cursor exists. The error taxonomy (`error.rs`) singles out SQLSTATE 40001 (serialization_failure) so callers can retry. `CustomOption` (`custom_option.rs`) maps a missing value to the literal NULL.

The second half is the derive macros of `bodega-macros`. They generate the trait impls the engine consumes:
- `DbBmc`: naming of the entity, table, iden enum and id column; the choice of CRUD wrappers and their names.
- `Select`: the column list and the cursor field.
- `Insert`: parallel column and value lists.
- `Update`: partial-update pairs.
- `#[uuid_id]`: the shape check and the flag-selected impl blocks.

The example crate `examples/simple-crud` instantiates all of this for a book store.

## Files

- `wrappers.dfy`: Option and Result.
- `sql.dfy`: the statement language the engine builds (identifiers, values, expressions, where-conjuncts, orderings, the five statements), plus the value order PostgreSQL uses to compare cursors.
- `postgres.dfy`, `postgres_laws.dfy`: what the database does with those statements.
  - The database holds one table, as a sequence of rows, with a non-null unique primary key.
  - Each statement returns its reply or the SQLSTATE error PostgreSQL raises.
  - The laws: sorting is a permutation, and the key invariant is preserved by INSERT, UPDATE and DELETE.
- `errors.dfy`: `error.rs`.
- `pagination.dfy`: `pagination.rs`.
- `custom_option.dfy`: `custom_option.rs`.
- `base.dfy`: `base.rs`.
  - Per operation, the statement it builds and a function giving its result from the database's answer.
  - `class Store`: the table and the log of issued statements, with one method per operation. Each method builds its query step by step, as the source does.
- `base_laws.dfy`: what each operation does to a well-keyed table.
- `page_walk.dfy`: what happens when a caller walks the pages by following `next_cursor`.
- `derive_common.dfy`, `db_bmc_derive.dfy`, `select_derive.dfy`, `insert_derive.dfy`, `update_derive.dfy`, `uuid_id_derive.dfy`: the macros.
- `simple_crud.dfy`: the example crate.

The heck case conversions (`to_snake_case`, `to_upper_camel_case`) are not re-implemented. They are the two function fields of a `Casing` value passed to every derive. Rust paths are sequences of segments.

`Paginated::new` offers a next cursor only when the page holds at least `limit` entries and has a last one (`pagination.rs:71-75`), so with limit 0 and no entries there is none; see `Pagination.New` and `Pagination.ZeroLimitEmptyPage`.

## Model

| member | source | states |
|---|---|---|
| `Pagination.Default` | bodega/src/pagination.rs:53-61 | the default page has no entries, no next cursor and limit 10 |
| `Pagination.New` | bodega/src/pagination.rs:67-86 | entries and limit are kept unchanged; `has_next` holds iff the page holds at least `limit` entries and at least one; the cursor is then the last entry's cursor value |
| `Pagination.ExactMultipleOverSignals` | bodega/src/pagination.rs:68-75 | a page of exactly `limit` entries still offers a next cursor (the documented over-signal) |
| `Pagination.ZeroLimitEmptyPage` | bodega/src/pagination.rs:71-75 | limit 0 with no entries offers no cursor |
| `Pagination.TestedCases` | bodega/src/pagination.rs:127-142 | the three unit tests: ten entries with limit 10 give Some(10), two with limit 2 give Some(2), ten with limit 11 give None |
| `Errors.FromSqlx` | bodega/src/error.rs:32-41 | a database error becomes SerializationError iff its code is 40001, and then carries that database error; every other driver error is wrapped unchanged as Sqlx |
| `Errors.ConversionsDisjoint` | bodega/src/error.rs:20-41 | TryFromIntError always becomes TransformIntError and MigrateError always becomes SqlxMigrate; no driver error is converted to either of them |
| `Errors.RowErrorsNameEntityAndId` | bodega/src/error.rs:5-9 | the EmptyUpdate and EntityNotFound messages contain the entity and the id, at the positions their templates fix |
| `Errors.RetriesExceededShowsCause` | bodega/src/error.rs:17-18 | the retries-exceeded message is its fixed prefix followed by the wrapped error's whole message |
| `CustomOptions.FromOption` | bodega/src/custom_option.rs:12-19 | `From<Option<T>>` wraps the option unchanged |
| `CustomOptions.IntoExpr` | bodega/src/custom_option.rs:21-30 | Some(v) becomes v's own expression; None becomes the raw fragment NULL |
| `CustomOptions.OptionToExpr` | bodega/src/custom_option.rs:32-39 | wrapping an option and converting it to an expression gives v's expression for Some(v) and NULL for None |
| `Base.OpName` | bodega/src/base.rs:87-100 | each operation displays as a non-empty upper-case name (COUNT … LIST PAGINATED) |
| `Base.OpNamesDistinct` | bodega/src/base.rs:87-100 | two operations display alike iff they are the same operation |
| `Base.DbBmcMessageShows` | bodega/src/base.rs:65-73 | the operation error's message names the operation and then the entity at the template's fixed positions, ends with the template's closing quote, and does not depend on the cause |
| `Base.Tag` | bodega/src/base.rs:65-73 | a tagged driver failure carries the entity, the operation and the driver error as its source |
| `Base.IdCond` | bodega/src/base.rs:129-131 | the id restriction is an equality between the id column and `id_to_value(id)` |
| `Base.TryUsize` | bodega/src/base.rs:162-167 | the i64-to-usize conversion succeeds iff the count lies within 0 and the 64-bit usize maximum, and then keeps the value |
| `Base.CursorBound` | bodega/src/base.rs:278-284 | the keyset bound compares the cursor column to the cursor: greater-than iff the order is ascending, less-than iff descending |
| `Base.PageQuery` | bodega/src/base.rs:268-284 | the page query is the base query (table, columns, ORDER BY cursor column, LIMIT page size) passed through `filter_query`; the cursor bound is appended last, and only when a cursor is set |
| `Base.Store.Count` | bodega/src/base.rs:141-168 | sends only the count statement and leaves the table unchanged; the result is the decoded, usize-converted count, or a failure tagged COUNT |
| `Base.Store.Create` | bodega/src/base.rs:171-197 | sends the INSERT; the table becomes what the database makes of it, and the result is the returned row or a failure tagged CREATE |
| `Base.Store.Get` | bodega/src/base.rs:200-229 | sends a SELECT restricted to the id and leaves the table unchanged; no row gives EntityNotFound |
| `Base.Store.List` | bodega/src/base.rs:234-256 | sends a SELECT with no restriction, no order and no limit, and leaves the table unchanged |
| `Base.Store.ListPaginated` | bodega/src/base.rs:261-298 | sends exactly the page query, built in the source's order, and leaves the table unchanged; the page is `Paginated::new` of the rows with the filter's limit |
| `Base.Store.Update` | bodega/src/base.rs:301-340 | with no pairs, fails with EmptyUpdate and issues nothing; otherwise sends one UPDATE restricted to the id, and no returned row gives EntityNotFound |
| `Base.Store.Delete` | bodega/src/base.rs:343-374 | sends one DELETE restricted to the id; zero affected rows give EntityNotFound |
| `BaseLaws.DriverFailuresAreTagged` | bodega/src/base.rs:141-374 | when the driver fails, each operation fails with that error tagged by its entity and its own operation (update only once it has pairs) |
| `BaseLaws.FailureChangesNothing` | bodega/src/base.rs:151-159 | a failed statement leaves the table as it was |
| `BaseLaws.CountIsRowCount` | bodega/src/base.rs:146-167 | on a served, well-keyed table, count returns the number of rows |
| `BaseLaws.NegativeCountRefused` | bodega/src/base.rs:162-167 | a negative i64 count is refused by the usize conversion |
| `BaseLaws.GetFindsKeyedRow` | bodega/src/base.rs:206-228 | get returns the row holding the id, cut to the selected columns; when no row holds it, EntityNotFound with the entity and the id's text |
| `BaseLaws.ListReturnsTable` | bodega/src/base.rs:240-255 | list returns every row of the table exactly once, cut to the selected columns (in the evaluator's row order, see "Left out") |
| `BaseLaws.UpdateAbsent` | bodega/src/base.rs:316-337 | updating an id no row holds gives EntityNotFound and changes nothing |
| `BaseLaws.UpdatePresent` | bodega/src/base.rs:316-339 | updating a present id either changes exactly that row and returns it, or fails tagged UPDATE and changes nothing |
| `BaseLaws.UpdatePresentSucceeds` | bodega/src/base.rs:316-339 | updating a present id succeeds exactly when the changed row's key is non-null and held by no other row, so the database refuses it exactly when the new key is NULL or a duplicate |
| `BaseLaws.UpdatePresentCommits` | bodega/src/base.rs:316-339 | when the changed row's key is free, update returns that row, changed and cut to the returning columns, and the table differs from before in that row alone |
| `BaseLaws.UpdateKeepingKeySucceeds` | bodega/src/base.rs:316-339 | an update that assigns nothing to the key column always succeeds on a present id, changing and returning exactly that row |
| `BaseLaws.UpdateThroughDriver` | bodega/src/base.rs:324-339 | the result and the new table of update follow the database's answer to the UPDATE: error, zero rows or the first returned row |
| `BaseLaws.DeleteByKey` | bodega/src/base.rs:348-373 | delete succeeds iff some row holds the id; it then removes that row and no other, and otherwise gives EntityNotFound and changes nothing |
| `BaseLaws.FilterDropsOne` | bodega/src/base.rs:350-352 | a restriction that only one row meets leaves every other row, in order |
| `BaseLaws.CreateThenGet` | bodega/src/base.rs:171-228 | after a create that appended a row, get by that row's id returns what create returned |
| `PageWalk.PageAt` | bodega/src/base.rs:268-297 | with the cursor at the key of the j-th row of the filtered key order, the page returned is the next page-limit rows after it |
| `PageWalk.FullPageMovesCursor` | bodega/src/pagination.rs:71-75 | a full page offers the key of its last row, which moves the walk forward exactly one page |
| `PageWalk.WalkReturnsEverything` | bodega/src/base.rs:261-298 | starting without a cursor and following `next_cursor` returns every matching row exactly once, in ascending key order, in N/L+1 pages; all pages but the last are full, and the last holds N mod L rows (empty when L divides N) |
| `DeriveCommon.FieldIden` | bodega-macros/src/insert.rs:56-73 | a field's column is its explicit iden if given, else the iden enum path extended by the field name in UpperCamelCase |
| `DbBmcDerive.Pluralize` | bodega-macros/src/db_bmc.rs:98-108 | the table name ends in 's'; a name already ending in 's' is kept, any other gets one 's' appended |
| `DbBmcDerive.PluralizeIdempotent` | bodega-macros/src/db_bmc.rs:103-107 | pluralizing twice gives the same name as pluralizing once |
| `DbBmcDerive.SuffixLast` | bodega-macros/src/db_bmc.rs:110-119 | the default iden enum is the model path with its last segment suffixed Iden, other segments unchanged |
| `DbBmcDerive.NewControllerInfo` | bodega-macros/src/db_bmc.rs:86-128 | fails with the model-name error iff there is neither a model_name nor a model path segment; the model name is the explicit one or the snake case of the last segment; the table name is the pluralized override or model name; the iden enum is the override or the suffixed path |
| `DbBmcDerive.ErrorPath` | bodega-macros/src/db_bmc.rs:147-151 | the error type is the given one, else `bodega::Error` |
| `DbBmcDerive.TraitImplOf` | bodega-macros/src/db_bmc.rs:130-170 | ENTITY is the model name, TABLE the table name; the id column is `id_iden` or the iden enum extended by Id |
| `DbBmcDerive.FnInfoOf` | bodega-macros/src/db_bmc.rs:172-186 | private methods get no visibility and the name "_" + basename; otherwise `pub` and the basename |
| `DbBmcDerive.BasenamesDistinct` | bodega-macros/src/db_bmc.rs:202-333 | the seven wrappers have pairwise distinct base names |
| `DbBmcDerive.WrapperFor` | bodega-macros/src/db_bmc.rs:202-219 | a wrapper delegates to its own operation, with the fn_info naming, the data type from `methods(...)` and the controller's error type |
| `DbBmcDerive.SelectedInOrder` | bodega-macros/src/db_bmc.rs:202-333 | an operation is emitted iff its flag or data type is set, in the order create, get, list, list_paginated, update, delete, count |
| `DbBmcDerive.EmitIf` | bodega-macros/src/db_bmc.rs:221-238 | one conditional `extend` appends the wrapper for the next operation of the emission order iff it is requested |
| `DbBmcDerive.CrudMethods` | bodega-macros/src/db_bmc.rs:188-336 | the emitted wrappers are exactly those for the requested operations, in emission order |
| `DbBmcDerive.WrapperNamesDistinct` | bodega-macros/src/db_bmc.rs:172-186 | no two wrappers of one expansion share a name, private or public |
| `DbBmcDerive.DbBmcImpl` | bodega-macros/src/db_bmc.rs:60-74 | the expansion fails iff the model name cannot be derived; otherwise it is the trait impl followed by the selected wrappers |
| `DbBmcDerive.ErrorTypesAgree` | bodega-macros/src/db_bmc.rs:194-198 | every wrapper names the same error type as the trait impl |
| `DbBmcDerive.BookNaming` | bodega/src/lib.rs:275-276 | for `model = Book`: ENTITY "book", TABLE "books", iden enum BookIden and id column `BookIden::Id` |
| `SelectDerive.ExtractFieldIdenIdents` | bodega-macros/src/select.rs:146-161 | succeeds iff the fields are named; one UpperCamelCase ident per field, in order; unnamed fields give the unnamed-fields error |
| `SelectDerive.ChooseCursor` | bodega-macros/src/select.rs:111-128 | no cursor iff no field is marked; otherwise the cursor is the last marked field, with its name, UpperCamelCase iden and type |
| `SelectDerive.TryFrom` | bodega-macros/src/select.rs:99-143 | accepts exactly structs with named fields, rejecting the others with the matching error; the iden enum is the struct name + Iden, with the field idents and the last marked cursor |
| `SelectDerive.ImplementSelectTrait` | bodega-macros/src/select.rs:50-93 | select_cols is `Iden::Field` per field, in order; Cursored is emitted iff there is a cursor, with its type, field and `Iden::CursorIden` column |
| `SelectDerive.CursorColumnIsSelected` | bodega-macros/src/select.rs:62-87 | the cursor column is always one of the selected columns |
| `InsertDerive.ExprOf` | bodega-macros/src/insert.rs:74-80 | a field's value expression names the field and goes through CustomOption iff the field is `cust_opt` |
| `InsertDerive.ImplementInsertTrait` | bodega-macros/src/insert.rs:48-101 | insert_cols and insert_vals have one entry per field, in the same order, each the field's column and value expression |
| `InsertDerive.CustOptStoresSameValue` | bodega-macros/src/insert.rs:76-80 | a `cust_opt` field stores the same value as a plain `into` would; a None is the raw NULL |
| `InsertDerive.InsertListsPairUp` | bodega-macros/src/insert.rs:86-98 | the evaluated values line up with the columns one for one, each the field's own value |
| `UpdateDerive.StmtOf` | bodega-macros/src/update.rs:53-85 | a field's push names its column; it is conditional on Some iff the field's type is an Option |
| `UpdateDerive.ImplementUpdateTrait` | bodega-macros/src/update.rs:47-102 | the generated body has one push per field, in declaration order |
| `UpdateDerive.Pairs` | bodega-macros/src/update.rs:94-98 | update_values never returns more pairs than there are fields |
| `UpdateDerive.UpdateValues` | bodega-macros/src/update.rs:91-99 | running the pushes in order on an empty vector gives the pairs of the contributing fields, in order |
| `UpdateDerive.PairsEmptyIff` | bodega-macros/src/update.rs:74-85 | no pair is pushed iff no push contributes |
| `UpdateDerive.PairsFromContributors` | bodega-macros/src/update.rs:74-85 | every contributing push has its pair in the result |
| `UpdateDerive.PairsComeFromContributors` | bodega-macros/src/update.rs:74-85 | every pair in the result is the pair of some contributing push |
| `UpdateDerive.UpdateValuesEmptyIff` | bodega-macros/src/update.rs:52-98 | update_values is empty iff every field is an Option holding None; each non-Option field's pair is always present |
| `UpdateDerive.AllNoneIsEmptyUpdate` | bodega/src/base.rs:308-314 | a derived update whose Option fields are all None makes `update` fail with EmptyUpdate for the entity and the id |
| `UuidIdDerive.EnabledExactly` | bodega-macros/src/uuid_id.rs:39-67 | an impl block is emitted iff its skip flag is off, at most once, in the order default, construction, refs, display, store |
| `UuidIdDerive.UuidIdImpl` | bodega-macros/src/uuid_id.rs:26-76 | accepts exactly one-field tuple structs, else the shape error; sqlx attributes are appended unless skip_store; the impls are the enabled blocks |
| `UuidIdDerive.New` | bodega-macros/src/uuid_id.rs:103-105 | `new(u)` wraps u |
| `UuidIdDerive.ToValue` | bodega-macros/src/uuid_id.rs:173-184 | an id becomes the non-negative integer value of its uuid |
| `UuidIdDerive.WrapUnwrap` | bodega-macros/src/uuid_id.rs:103-145 | `deref(new(u))` is u, `new(deref(id))` is id, and `From<Uuid>` is `new` |
| `UuidIdDerive.DisplayIsInner` | bodega-macros/src/uuid_id.rs:155-161 | an id displays as its uuid |
| `UuidIdDerive.ToValueFaithful` | bodega-macros/src/uuid_id.rs:173-184 | two ids give the same value iff they are equal, and values order as their uuids do |
| `SimpleCrud.GenreValue` | examples/simple-crud/src/lib.rs:15-21 | a genre is stored as text |
| `SimpleCrud.GenreValuesDistinct` | examples/simple-crud/src/lib.rs:15-21 | two genres store the same text iff they are the same genre |
| `SimpleCrud.BookFilters.constructor` | examples/simple-crud/src/lib.rs:66-76 | the builder keeps every field given, the limit defaulting to 20 |
| `SimpleCrud.BookFilters.SetCursor` | examples/simple-crud/src/lib.rs:85-87 | afterwards `cursor()` is Some(c); limit, author and genre are unchanged |
| `SimpleCrud.BookFilters.Extra` | examples/simple-crud/src/lib.rs:95-103 | the filter adds an author equality iff an author is set and a genre equality iff a genre is set, with nothing else |
| `SimpleCrud.BookFilters.FilterQuery` | examples/simple-crud/src/lib.rs:94-104 | `filter_query` appends those conjuncts after the query's own and changes nothing else |
| `SimpleCrud.ViewAscendingWithCriteria` | examples/simple-crud/src/lib.rs:78-92 | the engine sees the filter ascending (no override), with its limit and cursor, adding only its criteria |
| `SimpleCrud.ExtraUsable` | examples/simple-crud/src/lib.rs:95-103 | the criteria name known columns and bind values, so the database can evaluate them |
| `SimpleCrud.WalkBooks` | examples/simple-crud/src/lib.rs:78-104 | walking BookFilters pages from no cursor returns every matching book once, by ascending id, in N/L+1 pages |
| `SimpleCrud.BookUpdateNeverEmpty` | examples/simple-crud/src/lib.rs:55-64 | BookUpdate always yields a pair (`updated_at` is not an Option), so EmptyUpdate cannot occur for it |
| `SimpleCrud.BookBmcExpansion` | examples/simple-crud/src/lib.rs:106-120 | BookBmc is named book over books, its id column is `BookIden::Id`, and it gets all seven wrappers in emission order |
| `SimpleCrud.BookCursorIsIdColumn` | examples/simple-crud/src/lib.rs:29-42 | Book's cursor is its `id` field of type BookId, and its cursor column is the same path as BookBmc's id column |

## Left out

- `bodega/src/model_manger.rs` is not part of this model: pool construction, the connectivity check, and transaction begin/commit/rollback are asynchronous I/O over sqlx. The sealed executor is a Rust visibility property. Executors are not modelled.
- SQL rendering (`PostgresQueryBuilder`, `build_sqlx`) and parameter binding: a statement is its abstract description.
- Fetching and `FromRow` decoding are replaced by the `Postgres` module's reference evaluator. A row is a map from column to value, and an entity is its row.
- Driver I/O failures (lost connection, pool timeout, …) are the `fault` parameter of each operation.
- Column defaults filled in by the database (random ids, `now()`) are the `defaults` row parameter of `create`.
- async/await and concurrency: operations are modelled as atomic steps on the store.
- The `From<DbBmcError>` conversion that `?` relies on in `base.rs` is not part of this model. Operations therefore fail with either a crate `Error` (EmptyUpdate, EntityNotFound) or the tagged `DbBmcError`, and the model defines no mapping between the two.
- heck's case conversions, syn/quote token streams, darling attribute parsing and `option_kind`:
  - Case conversions are parameters (`Casing`).
  - Attributes arrive parsed, as datatypes.
  - Generated code is described by datatypes, not tokens.
  - Whether a field's type is an `Option` is a field of the update descriptor.
- Column paths are turned into database identifiers by a `render` parameter (`into_iden`).
- `uuid::Uuid::now_v7()` in the generated `Default` is time-dependent; only the block's presence is modelled.
- `bodega-macros/src/store_enum.rs`, `bodega-macros/src/json_value.rs`, `bodega-macros/src/lib.rs` and `bodega/src/lib.rs` are not part of this model, apart from the `Book` doc-test naming (`DbBmcDerive.BookNaming`).
- Value types: only NULL, integers and text. A uuid is its 128-bit unsigned big-endian integer, which keeps the order both Rust and PostgreSQL give uuids. Genres are text. JSON, timestamps and floating point are not modelled.
- `Pagination.DefaultCursorColumnOrder` is the constant ascending order. It carries no contract of its own; `SimpleCrud.ViewAscendingWithCriteria` states its consequence for `BookFilters`.
- `usize` is taken as 64 bits wide (`Base.UsizeMax`); `page_limit` is an unbounded natural number, so the `as u64` cast never truncates.
- PageWalk.WalkReturnsEverything: proved for ascending filters over integer keys. Descending walks and text or NULL keys are not covered by the walk theorem, though `Base.CursorBound` and `Base.PageQuery` state the descending query.
- PageWalk.WalkReturnsEverything: the walk is bounded by a `fuel` count of requests; the lemma requires enough fuel for N/L follow-up requests.
- UuidIdDerive.ToValue: the uuid crate's value conversion is taken as the big-endian integer reading. The hyphenated text form is left to a `uuidDisplay` parameter.
- Row order without ORDER BY: PostgreSQL leaves the order of an unordered SELECT unspecified, and an UPDATE writes a new row version that a later scan may return elsewhere. The `Postgres` evaluator fixes one order instead: inserts are appended, updates stay in place, deletes close the gap. The sequence equalities about whole tables (`BaseLaws.ListReturnsTable`, the table after `BaseLaws.UpdatePresentCommits` and `BaseLaws.DeleteByKey`, `BaseLaws.FilterDropsOne`) hold for that choice; the row contents they state do not depend on it. Paginated listing always orders by the cursor column, so `PageWalk` does not depend on this choice.
- Base.Store.Create: requires as many values as columns. With lists of different lengths, `values_panic` (`bodega/src/base.rs:182`) panics, and the model has no counterpart of a panic. The derived `Insert` always produces lists of equal length (`InsertDerive.ImplementInsertTrait`).
- sea_query's third ordering, `Order::Field` (order by a list of values), is not modelled: `Sql.Order` is `Asc | Desc`. `bodega/src/base.rs:279-283` sends every order other than `Asc` to the `lt` bound. Among the model's two orders that is exactly `Desc`, as `Base.CursorBound` states.
- Errors.SqlxMessage: the texts of sqlx's own errors are sqlx's `Display` strings, which are outside this repository. For `Error::Database` the model uses sqlx's prefix "error returned from database: " followed by the database's message.
- SelectDerive.ExtractFieldIdenIdents: named fields always have an ident, so the `filter_map` never drops one. The model states the one-per-field list directly.
