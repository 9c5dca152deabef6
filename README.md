# URL shortener: slug issuance and URL mapping

This project models the core of a URL-shortening service. The backend maps long URLs to six-character
slugs, resolves slugs back to their URL while counting visits, and reports the stored mappings as
JSON or CSV. A separate slug service draws random slugs until it finds one that is not taken.

The `urls` table both services share is one mapping store, `MappingStore.Store`: a class holding a
map slug → `UrlRecord(originalUrl, visitCount, createdAt)` plus the order a full scan returns the
rows in. Its invariant `Valid()` says every slug appears once and no two slugs hold the same URL.
Every method that changes it also keeps `Extends(old, new)`: records are never removed, URLs and
creation times never change, and visit counts never go down.

Modules, one per service file, plus two helper modules (`Common` for the result types and error
messages, `JsStrings` for string trimming):

- `JsStrings`: `String.prototype.trim`, with ECMAScript's white-space and line-terminator set.
- `ShortenService` (`backend/src/services/shortenService.ts`): URL normalisation and `shortenUrl`.
  Normalisation trims the input and prepends `http://` unless the input already starts with `http://`
  or `https://` in any letter case. `shortenUrl` then reuses the slug that already holds the URL, or
  asks the slug service for a fresh slug and inserts it.
- `RedirectService` (`backend/src/services/redirectService.ts`): `redirectUrl` looks the slug up,
  adds one visit and returns the stored URL.
- `StatsService` (`backend/src/services/statsService.ts`): `getStats` returns every row, or only the
  rows created inside an inclusive window when both dates are given.
- `DownloadCsvService` (`backend/src/services/downloadCsvService.ts`): `downloadCsv` makes the same
  selection and treats an empty one as an error. It rewrites each row in place (quotes doubled, time
  rendered) and lays out a fixed header and one comma-separated line per row.
- `SlugGenerator` (`slug-service/src/utils/slugGenerator.ts`): `generateSlug` builds a string of
  `length` characters from the 62-character alphabet.
- `SlugService` (`slug-service/src/index.ts`): the `/generate-slug` loop draws 6-character
  candidates until one is not a slug of the table.
- `Common`: the `Option` and `Result` types and the error texts the services surface.

The model replaces what it does not run with parameters:

- Whether each SQL query succeeds is a boolean (`lookupOk`, `insertOk`, `selectOk`, `updateOk`,
  `queryOk`).
- Whether the HTTP call to the slug service gets through is `slugServiceUp`.
- `Math.random` becomes a sequence of alphabet indices per round of the slug loop (`Attempt`).
- The database clock is `now`.
- `new Date(...).toISOString()` is a function parameter `render`.
- A date query parameter is `Option<Timestamp>`: `None` stands for a missing or empty string, which
  JavaScript treats as false.

`ShortenUrl` calls the slug-service model directly, through `StoreNewUrl`, its branch for a URL not
yet stored. So the freshness of an inserted slug is proved from the slug service's own check rather
than assumed, and the inserted slug is the slug service's answer.

Behaviour of the code a reader might not expect:

- Normalisation has no trailing-slash rule and rejects nothing. Any other scheme is kept behind
  `http://` (`ftp://x` becomes `http://ftp://x`).
- The backend has no insert-if-absent with conflict retry. It looks up by URL, then inserts.
- A redirect whose visit-count UPDATE fails throws `Database error`. It does not still redirect.
- An unknown slug inside `redirectUrl` is rethrown as `Database error`.

## Model

| member | source | states |
|---|---|---|
| `JsStrings.TrimStart` | backend/src/services/shortenService.ts:16 | the result is a suffix of the input that does not start with white space, and everything cut off is white space |
| `JsStrings.TrimEnd` | backend/src/services/shortenService.ts:16 | the result is a prefix of the input that does not end with white space, and everything cut off is white space |
| `JsStrings.TrimCutsOnlyWhitespace` | backend/src/services/shortenService.ts:16 | trimming keeps one contiguous slice whose ends are not white space, and only white space lies on either side of it |
| `JsStrings.TrimIdempotent` | backend/src/services/shortenService.ts:16 | trimming a trimmed string changes nothing |
| `ShortenService.MatchesHttpSchemeIffPrefix` | backend/src/services/shortenService.ts:17 | the `/^https?:\/\//i` test holds exactly when the string starts with `http://` or `https://`, ignoring letter case |
| `ShortenService.NormalizeSpec` | backend/src/services/shortenService.ts:16-19 | a normalised URL always starts with an http(s) scheme. It is the trimmed input when that already has one (any case), and exactly `http://` + the trimmed input otherwise |
| `ShortenService.NormalizeIdempotent` | backend/src/services/shortenService.ts:16-19 | normalising an already normalised URL returns it unchanged |
| `ShortenService.ShortenUrl` | backend/src/services/shortenService.ts:12-39 | a stored URL returns `server/slug` of its existing slug and leaves the store unchanged. For a new URL the call succeeds exactly when the lookup, the call to the slug service, every SELECT of the slug service and the insert succeed. It then adds exactly one record `(slug, normalised URL, 0 visits, now)` and returns `server/slug`, where `slug` is the slug service's answer: the first free candidate after collisions only, 6 alphanumeric characters. Afterwards the returned slug holds the normalised URL. Every failure is `Database error` and changes nothing. The store invariant (one slug per URL) is kept |
| `ShortenService.StoreNewUrl` | backend/src/services/shortenService.ts:28-37 | for a URL not yet stored: succeeds exactly when the slug service is reached, none of its SELECTs throws first and the insert succeeds. It then adds exactly the record of the slug service's first free candidate and returns `server/slug`. A failure is `Database error` and changes nothing |
| `ShortenService.ShortenTwice` | backend/src/services/shortenService.ts:22-26 | shortening the same input again returns the same short URL. Across both calls, every old record survives with its URL and creation time, at most one record is added, and any added record holds the normalised URL |
| `MappingStore.Store.FindByUrl` | backend/src/services/shortenService.ts:22 | finds a slug whose record holds the URL, or none exactly when no record holds it |
| `MappingStore.Store.Insert` | backend/src/services/shortenService.ts:33 | adds exactly the record `(slug, url, 0, now)` at the end of the scan order, changes nothing else, and keeps the invariant |
| `MappingStore.Store.IncrementVisits` | backend/src/services/redirectService.ts:22 | adds one to that slug's visit count and changes nothing else; with no such slug it changes nothing |
| `MappingStore.Store.Rows` | backend/src/services/statsService.ts:12 | one row per stored slug, in scan order, carrying that slug's URL, count and creation time |
| `MappingStore.ExtendsTransitive` | backend/src/services/redirectService.ts:22 | across any sequence of operations, records persist, URLs and creation times stay fixed and visit counts never decrease. `ShortenTwice` chains its two calls with it |
| `MappingStore.FilterMembership` | backend/src/services/statsService.ts:15-18 | a row is selected exactly when it is a table row inside the window |
| `MappingStore.FilterAppend` | backend/src/services/statsService.ts:15-18 | selection keeps the scan order |
| `MappingStore.FilterWithoutBothBounds` | backend/src/services/statsService.ts:15 | without both bounds every row is returned |
| `MappingStore.FilterKeepsDistinctSlugs` | backend/src/services/statsService.ts:12-16 | filtering a table's rows never lists a slug twice |
| `RedirectService.RedirectUrl` | backend/src/services/redirectService.ts:11-29 | succeeds exactly when the lookup and update succeed and the slug is stored. It then returns the stored URL and adds exactly one visit to that slug only. Otherwise it fails with `Database error` and changes nothing |
| `StatsService.GetStats` | backend/src/services/statsService.ts:11-27 | fails, with `Database error`, exactly when the query fails |
| `StatsService.GetStatsSelects` | backend/src/services/statsService.ts:12-22 | the rows returned are exactly the stored records inside the window, each with its slug, URL, count and creation time; each record is listed once (distinct slugs); without both bounds, the whole table in scan order |
| `StatsService.RowsAreStoredRecords` | backend/src/services/statsService.ts:12 | the unfiltered SELECT returns exactly the stored records, one row per slug |
| `StatsService.GetStatsWindowIsInclusive` | backend/src/services/statsService.ts:15-18 | with both bounds, a record is listed exactly when `start <= createdAt <= end` |
| `DownloadCsvService.EscapeQuotes` | backend/src/services/downloadCsvService.ts:33 | the escaped URL is longer by exactly the number of quotes |
| `DownloadCsvService.UnescapeEscape` | backend/src/services/downloadCsvService.ts:33 | un-doubling the quotes gives back the original URL |
| `DownloadCsvService.EscapeWithoutQuotes` | backend/src/services/downloadCsvService.ts:33 | a URL without quotes passes through unchanged |
| `DownloadCsvService.EscapeKeepsOtherChars` | backend/src/services/downloadCsvService.ts:33 | escaping adds no character other than `"` |
| `DownloadCsvService.HeaderLine` | backend/src/services/downloadCsvService.ts:38-43 | the header is exactly the four column titles `Slug`, `Original URL`, `Visit Count`, `Created At` joined by commas |
| `DownloadCsvService.HeaderColumns` | backend/src/services/downloadCsvService.ts:38-43 | the header splits back into exactly the four column titles, in order |
| `DownloadCsvService.FormatRows` | backend/src/services/downloadCsvService.ts:32-35 | every row is rewritten in place: slug and visit count kept, URL quote-doubled, creation time rendered |
| `DownloadCsvService.DecimalRoundTrip` | backend/src/services/downloadCsvService.ts:51-54 | a visit count is written as digits that read back as the same number |
| `DownloadCsvService.SplitJoin` | backend/src/services/downloadCsvService.ts:51-54 | a line of comma-free fields splits back into exactly those fields |
| `DownloadCsvService.DataLineColumns` | backend/src/services/downloadCsvService.ts:32-54 | a data line has four columns: the slug, the doubled URL (which un-doubles to the stored one), the count and the rendered time |
| `DownloadCsvService.DownloadCsv` | backend/src/services/downloadCsvService.ts:13-60 | a failed query gives `Database error` and an empty selection `No data available`. Otherwise the result is the header followed by one line per selected row, in selection order (the selection `getStats` makes) |
| `SlugGenerator.AlphabetIsAlphanumeric` | slug-service/src/utils/slugGenerator.ts:2 | the alphabet has 62 pairwise distinct characters, exactly `A-Z a-z 0-9` |
| `SlugGenerator.SlugOfAt` | slug-service/src/utils/slugGenerator.ts:4-5 | character `i` of a slug is the alphabet character of the `i`-th draw |
| `SlugGenerator.SlugOfIsAlphanumeric` | slug-service/src/utils/slugGenerator.ts:2-5 | every slug character is a letter or a digit |
| `SlugGenerator.GenerateSlug` | slug-service/src/utils/slugGenerator.ts:1-8 | the result has `length` characters (none when `length <= 0`), character `i` is `alphabet[draw_i]`, and all are alphanumeric |
| `SlugService.GenerateUniqueSlug` | slug-service/src/index.ts:24-44 | returns the candidate of the first round whose candidate is not taken, after collisions only. It is 6 alphanumeric characters and not a slug of the table. It fails, with `Database error during slug generation`, exactly when a SELECT throws before a free candidate is found. The store is only read |
| `SlugService.FirstStopIsUnique` | slug-service/src/index.ts:29-43 | the loop has one outcome: a free candidate after collisions only and a throwing SELECT after collisions only cannot both occur |

## Left out

- HTTP layer: Express bootstrap, routing and status mapping are not part of this model. Routing
  answers a failed redirect with 404 `URL not found`, and the CSV route calls `downloadCsv` with no
  dates. The frontend is not part of this model either.
- Request validation: the `isURL()` check on the request body is a foreign library, and
  normalisation does not depend on it.
- PostgreSQL: the connection pool and SQL text are replaced by the store class. A failing query is a
  boolean parameter.
- Column defaults: the table's defaults are not visible in the code. New records start at 0 visits
  and are created at the `now` parameter.
- Row order: the queries have no ORDER BY, so the model fixes insertion order as the order a scan
  returns.
- Query dates: dates are abstract integers. A date string the database cannot parse counts as a
  failed query.
- Concurrency: the gap between lookup and insert in `shortenUrl`, and between the slug service's
  check and the backend's insert, is not modelled. Atomicity and lost updates are not modelled
  either. The model is sequential.
- Randomness: `Math.random` is an index oracle. The retry loop ends on its own only with
  probability 1, so the model is given a finite list of rounds, one of which ends the loop
  (`EventuallyStops`).
- `generateSlug` length: the `length` argument is an integer. JavaScript would also accept a
  fractional number.
- `SlugGenerator.Alphabet`: written as its three runs of consecutive code points (`A`-`Z`,
  `a`-`z`, `0`-`9`) instead of the 62-character literal. It has the same characters in the same
  order.
- CSV output: csv-stringify's own quoting, streaming, record delimiter and response headers are not
  modelled. Lines are comma joins. So a URL containing `"` or `,`, which the library would quote
  once more, is not modelled.
- Time rendering: `toISOString` is the parameter `render`.
- Slug-service response: its JSON shape is trusted. A missing `slug` field is not modelled.
