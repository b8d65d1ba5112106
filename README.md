# backset, modelled in Dafny

backset is a multi-tenant JSON document store served over HTTP. Tenants
own elements; an element is a JSON object stored under a tenant, keyed by
an id the client chooses or the server draws at random. This project
models the core of the server and proves properties of that model:

- the tenant and element repositories (`src/tenants/model.rs`,
  `src/elements/model.rs`), as methods over a transaction object
  `Tables.Tx` that holds the two tables as maps keyed by primary key,
  with `NOW()` as a constant of the transaction;
- the payload rules of both entities, the two `ID_VALID` regexes written
  as character-class predicates;
- the query-string handling (`src/query.rs`): defaults, range rules,
  `parse_sort`, `sort_as_order_by_args`, and what the resulting
  `ORDER BY` means for the rows (`Sql`);
- the page envelope (`src/page.rs`) and the element HTTP handlers
  (`src/elements/api.rs`), including the count/find short-circuit of
  `list`;
- the reserved-key check (`src/utils.rs`), the error-to-response mapping
  (`src/errors.rs`), and configuration parsing (`src/conf/mod.rs`,
  `src/conf/db.rs`, `src/conf/env.rs`);
- three integration tests replayed against the model (`Scenarios`).

The table state keeps one invariant, `Tables.Consistent`: each row is
stored under its own primary key, every element belongs to an existing
tenant, and no two tenants share a name. The first two hold because of
the database schema. The third holds because `Tenant::insert` and
`Tenant::save` check names before writing. Every state-changing method
preserves the invariant, and each one states its whole new state.

`ORDER BY` is modelled as a lexicographic order over the sort columns,
with text compared by code point. `Sql.RowLt` is proved irreflexive and
transitive. A `find` returns a `LIMIT`/`OFFSET` window (`Sql.Window`) of
a listing that is sorted and is a permutation of the selected rows. Rows
that tie on every sort column may come in any order.

The code, not the documentation comment, decides one edge case. The
doc-test of `parse_sort` says an absent `sort` gives no items. The code
splits the empty string into one empty piece, so when `""` is itself an
allowed column the result is `[""]` (`Query.ParseSortAbsent`).

Two error types appear. The repositories return `Rest.AppError`, the
error type of the `actix_contrib_rest` crate, whose variants they use.
`Errors.AppError` is the enum of `src/errors.rs`, an older shape whose
HTTP mapping is modelled on its own.

## Model

| member | source | states |
|---|---|---|
| Strings.Split | src/query.rs:43 | `split(',')` always yields at least one piece, no piece holds the separator, and joining the pieces with it gives the input back |
| Strings.SplitJoin | src/query.rs:43 | splitting undoes joining for pieces without the separator |
| Strings.StripPrefixOr | src/query.rs:44 | `strip_prefix('-').unwrap_or(s)` returns the input minus its first character exactly when that character is `-`, and the input unchanged otherwise |
| Strings.ContainsAt | src/tenants/model.rs:166 | the substring scan finds a needle exactly when it occurs at some position |
| Strings.AsciiLower | src/conf/mod.rs:27 | lower-casing keeps the length, maps each ASCII capital to its own lower-case letter (code point + 32) and leaves every other character alone |
| Strings.ToDecimalDenotes | src/elements/model.rs:53 | `u64::to_string` writes digits that denote the number |
| Strings.ParseToDecimal | src/conf/db.rs:47-50 | parsing the decimal text of an in-range number gives the number back |
| Strings.ToDecimalLength | src/elements/model.rs:53 | a number below 10^k has at most k digits |
| Strings.U64DecimalLength | src/elements/model.rs:53 | a `u64` has at most 20 digits |
| Sql.StrLtTotal | src/tenants/model.rs:181 | two different strings are ordered one way or the other |
| Sql.KeyLtStrictTotalOrder | src/tenants/model.rs:181 | the order on column values is a strict total order |
| Sql.RowLtIrreflexive | src/tenants/model.rs:181 | no row sorts strictly before itself |
| Sql.RowLtTransitive | src/tenants/model.rs:181 | the multi-column `ORDER BY` order is transitive |
| Sql.Insert | src/tenants/model.rs:181 | inserting into a listing adds exactly that row |
| Sql.SortBy | src/tenants/model.rs:181 | the ordered listing is a permutation of the fetched rows |
| Sql.SortBySorted | src/tenants/model.rs:181 | the ordered listing is sorted under the directives |
| Sql.Window | src/tenants/model.rs:181 | `LIMIT n OFFSET o` skips exactly o rows and keeps at most n, in order |
| Sql.WindowsConcatenate | src/tenants/model.rs:181 | two consecutive pages make the larger page that spans both |
| Sql.FetchAll | src/tenants/model.rs:202 | fetching yields every selected row exactly once |
| Validator.AddField | src/tenants/model.rs:36-48 | a field appears in the error map exactly when it failed a rule, and other fields are untouched |
| Validator.CheckLength | src/tenants/model.rs:38 | `length(min, max)` passes exactly when the length is within the bounds, and a failure is the single `length` error |
| Query.ValidateAccepts | src/query.rs:16-21 | `Query.Validate` (the derived `validate`): a query passes validation exactly when `offset >= 0` and `page_size >= 1`, and each failed bound is reported under its field |
| Query.DefaultsAreValid | src/query.rs:7-21 | omitted `offset` and `page_size` default to 0 and `PAGE_SIZE` (50) and pass validation |
| Query.SortTerms | src/query.rs:44-49 | at most one item per piece, each an allowed column optionally followed by ` DESC` |
| Query.SortTermsKeepOrder | src/query.rs:44 | filtering keeps input order and duplicates: the items of two runs are the items of each run in turn |
| Query.SortTermsOfPiece | src/query.rs:44-49 | a piece survives exactly when its name without one leading `-` is allowed, and a leading `-` becomes a ` DESC` suffix |
| Query.ParseSortAbsent | src/query.rs:40-43 | `Query.ParseSort` (`parse_sort`): an absent directive gives no items unless `""` is an allowed column |
| Query.ParseSortShape | src/query.rs:43-50 | `Query.ParseSort` (`parse_sort`) yields no more items than pieces, each an allowed column optionally followed by ` DESC` |
| Query.ParseSortAscDesc | src/query.rs:34-35 | `"a,-b"` over `[a, b]` gives `["a", "b DESC"]` |
| Query.ParseSortDropsUnknown | src/query.rs:36-37 | in `"name,-b,c"`, an unknown `b` is dropped and the allowed columns stay in order |
| Query.ParseSortExamples | src/query.rs:32-37 | the three documented `parse_sort` examples |
| Query.SortAsOrderByArgsAbsent | src/query.rs:58-59 | `Query.SortAsOrderByArgs` (`sort_as_order_by_args`): an absent directive orders by the default column |
| Query.SortAsOrderByArgsAscDesc | src/query.rs:60-61 | `Query.SortAsOrderByArgs` (`sort_as_order_by_args`): `"a,-b"` over `[a, b]` orders by `"a, b DESC"` |
| Query.SortAsOrderByArgsNoneAllowed | src/query.rs:62-63 | a directive with no allowed column orders by the default one |
| Query.RenderInterpret | src/query.rs:45-49 | writing back how the database reads an `ORDER BY` item gives the same text |
| Query.OrderByRendersAs | src/query.rs:65-71 | the directives the model sorts by are exactly what the `ORDER BY` text says, the default column when no item survives |
| Query.OrderByColumns | src/query.rs:65-71 | every sort directive names an allowed column or the default |
| Pages.WithData | src/page.rs:59-69 | `page_size` is the number of rows returned, total and offset are as given, no message or warning |
| Pages.From | src/page.rs:33-45 | a whole list is the page at offset 0 whose total is its length |
| Pages.Empty | src/page.rs:48-57 | the empty page is the page of the empty list: offset, size and total 0 |
| Utils.RejectCreatedAt | src/utils.rs:5-11 | fails exactly when the document has the `created_at` key, with the fixed message; every other document passes |
| Errors.NewPayload | src/errors.rs:42-49 | a validation payload with the message and no field errors |
| Errors.FromValidationErrors | src/errors.rs:51-65 | the payload carries "Validation error" and exactly the field errors it was given |
| Errors.StatusCode | src/errors.rs:134-139 | the validation kinds map to 400, the driver and unexpected errors to 500 |
| Errors.ErrorResponse | src/errors.rs:141-160 | the response body for each kind; server-side errors carry only the canonical reason |
| Errors.ServerErrorsHideDetail | src/errors.rs:152-158 | the response to a server-side error does not depend on what went wrong |
| Errors.JsonErrorHandler | src/errors.rs:89-101 | field-rule failures give 400 with the field errors, a malformed body 422, anything else 400 |
| Conf.EnvBoolAccepts | src/conf/mod.rs:22-34 | `Conf.EnvBool` (`env_bool`): a set variable is accepted exactly when it is "0", "1", or "true"/"false" in any case; what it means; the error text otherwise |
| Conf.EnvBoolExamples | src/conf/mod.rs:24-33 | "TRUE" and "False" are read, "yes" is refused, an unset variable gives the default |
| Conf.EnvParsable | src/conf/mod.rs:38-48 | an unset variable gives the default; a set one parses or fails with the quoted raw text |
| Env.FromStr | src/conf/env.rs:8-16 | a parsed environment is the one whose snake_case name is exactly the input |
| Env.FromStrName | src/conf/env.rs:8-9 | every environment is parsed back from its displayed name |
| Env.FromAppEnv | src/conf/env.rs:22-29 | unset means `Local`; otherwise the value must be an environment's name, or the error quotes it |
| DbConf.DatabaseUrlFor | src/conf/db.rs:42-46 | in the test environment the URL ends in `_test`, with the suffix appended only when missing; elsewhere the URL is unchanged |
| DbConf.DatabaseUrlForIdempotent | src/conf/db.rs:42-46 | applying the suffix rule twice is applying it once |
| DbConf.InitForFirstError | src/conf/db.rs:47-51 | `DbConf.InitFor`: the `?` chain returns the error of the first variable that fails, in source order, each number with its `NAME invalid number "value"` text |
| DbConf.InitForAccepts | src/conf/db.rs:40-60 | `DbConf.InitFor` (`init_for`): the config is built exactly when the URL is set and every set variable parses; a missing URL is "DATABASE_URL must be set" |
| DbConf.InitForDefaults | src/conf/db.rs:47-51 | the defaults are 1, 10, 750 ms, 300 s and false |
| DbConf.InitForReadsMinConnections | src/conf/db.rs:47 | a `u32` written in decimal is read back as the minimum connection count |
| Tables.RowsCount | src/tenants/model.rs:161 | selecting rows by primary key yields one row per key |
| Tables.ElementRowsCount | src/elements/model.rs:115-124 | a tenant's element rows number as many as their keys |
| Tables.NoElementKeysIffNoRows | src/tenants/model.rs:208-217 | in a consistent store, `SELECT EXISTS(... WHERE tid = $1)` over the keys is false exactly when no element row carries the tid, in both directions |
| Tables.Tx.Begin | src/elements/api.rs:18 | a transaction sees the current, consistent tables |
| Tenants.ValidateForbiddenList | src/tenants/model.rs:24-34 | exactly "tenants" and "health" are refused, with the `forbidden_id` error |
| Tenants.ValidatePayloadAccepts | src/tenants/model.rs:36-48 | `Tenants.ValidatePayload` (the derived `validate`): a payload passes exactly when the id has 3-40 characters, is not reserved and matches the pattern, and the name has 3-80; each failing field is reported |
| Tenants.ValidateEditionAccepts | src/tenants/model.rs:50-54 | `Tenants.ValidateEdition` (the derived `validate`): an edition passes exactly when the name has 3-80 characters |
| Tenants.ReservedIdsNeedForbiddenList | src/tenants/model.rs:14-45 | the reserved ids fit the length and pattern rules, so only the custom rule refuses them |
| Tenants.MatchingRows | src/tenants/model.rs:159-168 | a search selects the rows whose id or name contains the text, ignoring ASCII case |
| Tenants.MatchingAllRows | src/tenants/model.rs:159-161 | without a search every row is selected, as many as the table holds |
| Tenants.Order | src/tenants/model.rs:177 | a listing sorts only by `id`, `name` or `created_at` |
| Tenants.Exists | src/tenants/model.rs:118-126 | true exactly when some row has the id |
| Tenants.ExistsOrFail | src/tenants/model.rs:128-138 | succeeds exactly when the tenant exists, else `ResourceNotFound(tenant, id, tid)` |
| Tenants.GetIdByName | src/tenants/model.rs:140-147 | the id of the tenant with the name, present exactly when some row has it |
| Tenants.Get | src/tenants/model.rs:149-157 | the row with the id, present exactly when it exists |
| Tenants.Insert | src/tenants/model.rs:57-83 | id taken first, then name taken, each refusing with nothing written; otherwise exactly one row `(id, name, now)` is added |
| Tenants.Save | src/tenants/model.rs:85-116 | refused with `tenant_name_exists` naming the holder when another tenant has the name; otherwise an upsert that keeps the creation time of an existing row |
| Tenants.Count | src/tenants/model.rs:159-174 | the number of rows the search selects |
| Tenants.Find | src/tenants/model.rs:176-206 | a window of a sorted permutation of the selected rows: every returned row matches the search, and there are exactly min(page size, matches − offset) of them |
| Tenants.HasElements | src/tenants/model.rs:208-217 | true exactly when some element belongs to the tenant |
| Tenants.Delete | src/tenants/model.rs:219-248 | refused when unforced and elements exist; otherwise removes the tenant's elements and the tenant and returns how many rows went |
| Elements.ValidatePayloadAccepts | src/elements/model.rs:31-43 | `Elements.ValidatePayload` (the derived `validate`): a payload passes exactly when it has no id, or an id of 1-256 characters matching the pattern |
| Elements.GeneratedIdIsValid | src/elements/model.rs:52-53 | a generated id always passes the rules for client ids |
| Elements.Exists | src/elements/model.rs:79-88 | true exactly when the tenant has an element with the id |
| Elements.Insert | src/elements/model.rs:46-77 | tenant guard, then reserved key, then client id taken, each refusing with nothing written; the inline reserved-key check fails exactly as `Utils.RejectCreatedAt` does, with its error; otherwise exactly one row `(id, tid, data, now)` is added |
| Elements.Get | src/elements/model.rs:90-100 | tenant guard; then the element stored under `(tid, id)`, if any |
| Elements.Delete | src/elements/model.rs:102-113 | tenant guard; then removes `(tid, id)` and nothing else, returning 1 if it existed and 0 otherwise |
| Elements.Count | src/elements/model.rs:115-124 | the number of the tenant's elements, with no tenant guard |
| Elements.NewestFirstOrder | src/elements/model.rs:132 | a listing sorted by `created_at DESC` is non-increasing in creation time |
| Elements.Find | src/elements/model.rs:126-143 | a window of the tenant's elements, newest first, ignoring search and sort: every returned row belongs to the tenant, and there are exactly min(page size, rows − offset) of them |
| ElementsApi.Create | src/elements/api.rs:12-24 | 201 with the stored element, whose id always passes the id rules; each repository error passes through with the tables unchanged |
| ElementsApi.Read | src/elements/api.rs:26-41 | tenant guard; 200 with the element, or 404 when it does not exist |
| ElementsApi.List | src/elements/api.rs:43-66 | tenant guard; total unless opted out; a zero total gives the empty page with the rows the skipped query would have returned; otherwise the window at the requested offset |
| ElementsApi.Delete | src/elements/api.rs:87-102 | tenant guard; 204 when a row went, 404 otherwise |
| Scenarios.DeleteTenantWithElements | tests/backset/tenants_api_tests.rs:285-336 | a tenant with an element is refused an unforced delete; a forced delete takes two rows and restores the tables |
| Scenarios.PostElementAlreadyExists | tests/backset/elements_api_tests.rs:194-221 | a client id is refused a second time under one tenant and accepted under another |
| Scenarios.DeleteThenRead | tests/backset/elements_api_tests.rs:223-242 | deleting an element gives 204, and reading it afterwards 404 |

## Left out

- Database driver failures (connection loss, timeouts and the like) are not modelled. The one driver error modelled is the primary-key violation when a generated element id is already taken; its message (`duplicate key value violates unique constraint "elements_pkey"`) is PostgreSQL's wording with PostgreSQL's default constraint name, not text found in the program, and the exact driver text is not promised.
- Transactions are not modelled as such: no pool, no commit or rollback, no concurrent transactions. The check-then-insert race between concurrent requests is out of scope.
- `rand::random::<u64>()` is a parameter of `Elements.Insert`.
- JSON (de)serialisation is not modelled: `#[serde(flatten)]`, `skip_serializing`, the response bodies' JSON shape. Element documents are opaque maps, and JSON numbers are integers.
- The params (`min`, `max`, `value`) that the validator crate attaches to each `ValidationError` are not modelled.
- Database collation is replaced by code-point order. The order of rows that tie on every sort column is left open.
- `ILIKE` case-insensitivity is modelled as ASCII lower-casing, and `%`, `_` and the escape character `\` inside the search text are taken literally.
- Tenants.MatchingRows: does not model `%` and `_` in the search text acting as wildcards, nor `\` acting as LIKE's default escape character (so `a\_b` matches the name `a_b` in the database but not in the model), because the code passes the text to `ILIKE` unescaped; Tenants.Count and Tenants.Find inherit this.
- Conf.EnvBoolAccepts: lower-casing is ASCII-only. No non-ASCII character lower-cases into the letters of "true" or "false", so only the error text for a non-ASCII value can differ from the source.
- `i64` widths of `offset`, `page_size` and the counts are not modelled. Values outside `i64` are refused by deserialisation before a handler runs.
- `Element::save` and the `put` handler are not modelled, because the body of `save` is not part of this model.
- The tenant HTTP handlers (`src/tenants/api.rs`) and `src/tenants.rs` are older snapshots superseded by `src/tenants/model.rs`, and are not part of this model.
- In `src/page.rs`, `Page.total` is an `i64`. The `list` handler passes an optional total to the page type of `actix_contrib_rest`, so the model uses `Option<int>`.
- The HTTP mapping of `Rest.AppError` lives in `actix_contrib_rest`, which is not part of this model.
- Durations are kept as plain millisecond and second counts.
- Environment variables that are set but not valid Unicode read as unset, as `std::env::var` reports them.
- Server, CLI and bootstrap plumbing is not modelled: `src/app_server.rs`, `src/routes.rs`, `src/health.rs`, `src/app_cmd.rs`, `src/app_args.rs`, `src/main.rs`, `src/stream.rs`, `src/test.rs`, `src/conf/config.rs`, `src/conf/server.rs` and `src/config.rs`.
- Logging is not modelled, including the `error!` call in `error_response`.
