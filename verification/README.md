# Country refresh-and-merge, modelled in Dafny

This project models the core of a small NestJS service that keeps a table of
countries. On `POST /countries/refresh` it fetches a country list and an
exchange-rate table from two external endpoints. For each fetched country it
derives a currency code, an exchange rate and a randomised GDP estimate. It
then upserts the country into the `countries` table by case-insensitive name,
stamping every row it touches with one batch timestamp. It then asks an image
generator for a summary picture, whose failure never fails the refresh. The
read side lists countries with region/currency filters and an optional sort,
looks up and deletes countries by name, and reports a status (row count and
latest refresh time).

Files and modules:

- `wrappers.dfy` (`Wrappers`): `Option`, `Result`, `Outcome`.
- `http_errors.dfy` (`HttpErrors`): the 503 and 404 `HttpException`s the core raises.
- `country_entity.dfy` (`CountryEntity`): the `Country` row, the `CountryDto`, and ASCII
  case-insensitive name equality (`SameName`, defined over `Lower`).
- `external_api.dfy` (`ExternalApi`): the fetched shapes. Also both fetches, reduced to
  how they translate a transport outcome, `ExtractCurrencyCode`, and
  `CalculateEstimatedGdp` with the random draw as a parameter.
- `country_store.dfy` (`CountryStore`): the table as a value (`Table`, rows in storage
  order plus the next generated id). Also its invariant (unique ids, case-insensitively
  unique names) and the repository operations the service uses: find by name, upsert,
  delete by name.
- `country_queries.dfy` (`CountryQueries`): `findAll`, `findByName` and `getStatus` as
  functions of the rows.
- `countries_service.dfy` (`Countries`): the per-country DTO derivation and the refresh
  as a fold of upserts (`UpsertAll`, `Reconciled`) with the lemmas about it. Also the class `CountriesService`,
  which holds the table and whose methods `Upsert`, `DeleteByName` and
  `RefreshCountries` update it in place.

External effects are parameters. Each HTTP response is a `Transport` value.
The clock read that stamps a batch is `now`. The `Math.random()` draws are
`random(i)` for the i-th fetched country. The image generator is a function
argument whose outcome the refresh ignores.

## Model

| member | source | states |
|---|---|---|
| `ExternalApi.Fetch` | src/countries/services/external-api.service.ts:24-50 | a received body is returned unchanged; every transport failure becomes the same 503 "External data source unavailable" error |
| `ExternalApi.ExtractCurrencyCode` | src/countries/services/external-api.service.ts:57-63 | no code for a missing or empty list; otherwise the first entry's code exactly when it is present and non-empty; later entries are never consulted |
| `ExternalApi.Multiplier` | src/countries/services/external-api.service.ts:53 | the multiplier `u*1000+1000` built from a draw in [0, 1) lies in [1000, 2000) |
| `ExternalApi.CalculateEstimatedGdp` | src/countries/services/external-api.service.ts:52-55 | for population p >= 0 and rate r > 0 the estimate lies in [p·1000/r, p·2000/r], strictly below p·2000/r when p > 0; it is zero exactly when p is zero |
| `ExternalApi.QuotientBetween` | src/countries/services/external-api.service.ts:53-54 | dividing p·m by a positive rate keeps the bounds m has in [1000, 2000) |
| `CountryEntity.SameName` | src/countries/services/countries.service.ts:90 | the `ILike(name)` match (also at lines 146 and 158): every name matches itself, and matching names have the same length |
| `CountryEntity.SameNameCharwise` | src/countries/services/countries.service.ts:90 | two names match exactly when they have the same length and agree character by character up to ASCII case |
| `CountryStore.FindIndex` | src/countries/services/countries.service.ts:89-91 | `findOne` by `ILike(name)`: none exactly when no row matches case-insensitively; otherwise a matching position with no match before it |
| `CountryStore.Upserted` | src/countries/services/countries.service.ts:85-105 | afterwards the DTO's name has a match holding exactly the DTO's fields and the batch timestamp; an existing match keeps its position and id and the id counter stays; the table grows by one exactly when there was no match, and then the new row takes the next id and the counter advances; every other row is unchanged |
| `CountryStore.UpsertKeepsValid` | src/countries/services/countries.service.ts:85-105 | an upsert keeps ids unique and below the next id, and names unique case-insensitively |
| `CountryStore.UpsertIdempotent` | src/countries/services/countries.service.ts:85-105 | upserting the same DTO twice with the same timestamp equals upserting it once |
| `CountryStore.CaseInsensitiveIdentity` | src/countries/services/countries.service.ts:89-97 | upserting two names that differ only in case updates the same row and does not grow the table |
| `CountryStore.MatchCount` | src/countries/services/countries.service.ts:157-161 | the number of rows a delete by name affects, at most the row count; zero exactly when no row matches, and the row count exactly when every row matches |
| `CountryStore.MatchCountAtMostOne` | src/countries/services/countries.service.ts:156-161 | with case-insensitively unique names a delete affects at most one row |
| `CountryStore.RemoveNamed` | src/countries/services/countries.service.ts:156-160 | no remaining row matches; every non-matching row stays and nothing new appears; exactly the matching rows are removed; the remaining rows keep their storage order (a subsequence) |
| `CountryStore.TailValid` | src/countries/services/countries.service.ts:156-160 | the rows after the first keep the table invariant, and the first row differs from each of them in id and name |
| `CountryStore.RemoveKeepsValid` | src/countries/services/countries.service.ts:156-160 | a delete keeps the table invariant |
| `CountryQueries.SortKeyOf` | src/countries/services/countries.service.ts:124-139 | a sort key is selected exactly for the four recognised `sort` values |
| `CountryQueries.GdpAtMost` | src/countries/services/countries.service.ts:126-131 | the order on the nullable `estimatedGdp` column: NULL is above every value, a value is never above NULL, and two values compare numerically |
| `CountryQueries.GdpOrder` | src/countries/services/countries.service.ts:126-131 | that GDP order is total and transitive, so it is a valid sort key |
| `CountryQueries.Filter` | src/countries/services/countries.service.ts:114-122 | keeps exactly the rows equal on every given filter, each as often as stored |
| `CountryQueries.FilterKeepsOrder` | src/countries/services/countries.service.ts:107-122 | the filtered rows are a subsequence of the stored rows: storage order is kept when no sort applies |
| `CountryQueries.Insert` | src/countries/services/countries.service.ts:124-139 | inserting into an ordered sequence adds exactly that row and keeps it ordered |
| `CountryQueries.SortBy` | src/countries/services/countries.service.ts:124-139 | `ORDER BY` yields a permutation of its input ordered by the key |
| `CountryQueries.FindAll` | src/countries/services/countries.service.ts:107-142 | exactly the rows matching region AND currency, each as often as stored. `population_desc` gives non-increasing and `population_asc` non-decreasing population; the GDP keys order with NULL last ascending, first descending. A missing or unrecognised sort keeps storage order |
| `CountryQueries.FindByName` | src/countries/services/countries.service.ts:144-154 | NotFound (404) exactly when no row matches case-insensitively; otherwise a stored row that matches |
| `CountryQueries.FindByNameUnique` | src/countries/services/countries.service.ts:144-154 | under the table's unique-names invariant the lookup returns the one matching row |
| `CountryQueries.MaxRefreshed` | src/countries/services/countries.service.ts:171-174 | `MAX(lastRefreshedAt)`: none for no rows, otherwise a stamp some row has and no row exceeds |
| `CountryQueries.GetStatus` | src/countries/services/countries.service.ts:166-180 | `total_countries` is the row count; `last_refreshed_at` is absent exactly for an empty table and otherwise the maximum stamp |
| `Countries.LookupRate` | src/countries/services/countries.service.ts:38-39 | a rate exactly when the code is present, in the table and truthy (non-zero), and then the table's rate |
| `Countries.BuildDto` | src/countries/services/countries.service.ts:31-57 | pass-through fields copied. The currency code is the extracted code. A rate only for a code with a truthy rate. A GDP estimate exactly when there is a rate and the population is non-zero (a zero estimate is stored as absent), within the multiplier bounds |
| `Countries.Dtos` | src/countries/services/countries.service.ts:30-57 | one DTO per fetched country, in fetched order, the i-th built by `BuildDto` from the i-th country with the i-th random draw |
| `Countries.UpsertAll` | src/countries/services/countries.service.ts:30-61 | the loop of upserts with one timestamp: the table gains between zero and one row per DTO and the id counter advances by exactly the number of rows added (further characterised by `UpsertAllKeepsOthers`, `UpsertAllStamps` and `UpsertAllLastWins`) |
| `Countries.Reconciled` | src/countries/services/countries.service.ts:27-61 | the table after a successful refresh: at most one new row per fetched country, none removed, and the id counter advances by the rows added |
| `Countries.RefreshOutcome` | src/countries/services/countries.service.ts:21-83 | success exactly when both fetches succeed, then the fixed message with count = number of fetched countries; otherwise the fetch error |
| `Countries.UpsertAllKeepsValid` | src/countries/services/countries.service.ts:30-61 | a whole refresh keeps the table invariant |
| `Countries.UpsertAllKeepsOthers` | src/countries/services/countries.service.ts:30-61 | a refresh never removes rows, adds at most one per fetched country, and leaves rows no fetched name matches unchanged in place |
| `Countries.UpsertStamps` | src/countries/services/countries.service.ts:93-103 | an upsert stamps its own name and keeps names already stamped with the same timestamp stamped |
| `Countries.UpsertAllStamps` | src/countries/services/countries.service.ts:27-61 | after a refresh the i-th fetched country, for every i, has a matching row stamped with the one batch timestamp |
| `Countries.UpsertHolds` | src/countries/services/countries.service.ts:93-103 | an upsert writes its own DTO and keeps any row written for another name |
| `Countries.UpsertAllLastWins` | src/countries/services/countries.service.ts:30-61 | duplicate names collapse with the last one winning: each fetched country with no later same-name country has a row holding exactly its DTO and the batch timestamp |
| `Countries.UpsertBatchStep` | src/countries/services/countries.service.ts:93-103 | an upsert with the batch timestamp keeps every row stamped with it when all were before |
| `Countries.UpsertAllFromEmpty` | src/countries/services/countries.service.ts:27-61 | refreshing an empty table, even with repeated fetched names, leaves only rows stamped with the batch timestamp |
| `Countries.AppendStep` | src/countries/services/countries.service.ts:98-104 | upserting a name no stored row has appends its DTO under the next id, after the rows already stored in order |
| `Countries.UpsertAllFromEmptyDistinct` | src/countries/services/countries.service.ts:30-61 | refreshing an empty table with N case-insensitively distinct names stores exactly N rows in fetched order, the k-th holding the k-th DTO and the batch timestamp under id k + 1 |
| `Countries.CoverStep` | src/countries/services/countries.service.ts:89-97 | upserting a name some row already has adds no row, keeps the id counter, and every row keeps its id and its name up to case |
| `Countries.UpsertAllCovered` | src/countries/services/countries.service.ts:30-61 | a batch whose names all have rows already adds no row and keeps every row's position, id and name up to case |
| `Countries.SecondBatchCovered` | src/countries/services/countries.service.ts:89-97 | a second batch with the first batch's names finds a row for every name, so it adds no row, keeps the id counter and keeps each row's id and name up to case |
| `Countries.RowAgain` | src/countries/services/countries.service.ts:30-61 | after a second refresh from the same data, each row equals its first-refresh self except `lastRefreshedAt` and `estimatedGdp`, and is either unchanged or carries the second timestamp |
| `Countries.RefreshAgain` | src/countries/services/countries.service.ts:27-61 | upserting a second batch that differs from the first only in GDP estimates adds and removes no row, keeps the id counter, and leaves every row's position, id and fields except `lastRefreshedAt` and `estimatedGdp`; a changed row carries the second timestamp |
| `Countries.RefreshTwice` | src/countries/services/countries.service.ts:21-61 | refreshing twice from the same fetched countries and rates, with fresh random draws and a new timestamp, leaves the same records apart from `lastRefreshedAt` and the randomised `estimatedGdp` |
| `Countries.StatusAfterFirstRefresh` | src/countries/services/countries.service.ts:166-179 | after one refresh of N distinct countries into an empty table the status is N and the batch timestamp (absent when N = 0) |
| `Countries.CountriesService.constructor` | src/countries/services/countries.service.ts:14-19 | the service starts over the table the injected repository already holds, which must satisfy the table invariant |
| `Countries.CountriesService.Upsert` | src/countries/services/countries.service.ts:85-105 | the new table is `Upserted` of the old one, and the invariant is kept |
| `Countries.CountriesService.DeleteByName` | src/countries/services/countries.service.ts:156-164 | the new rows are the old ones without the case-insensitive matches; NotFound exactly when no row was removed, i.e. exactly when none matched; at most one row is removed, since names are unique |
| `Countries.CountriesService.RefreshCountries` | src/countries/services/countries.service.ts:21-83 | the result is `RefreshOutcome` of the two fetches whatever the image generator does. On a fetch failure the table is untouched. Otherwise the table is the fold of upserts over the fetched countries in order, with one timestamp, and the invariant is kept |

## Left out

- HTTP calls (axios), the endpoint URLs and the 10-second timeouts: each fetch is a `Transport` input. The concurrency of `Promise.all` is reduced to "both succeed, or the refresh fails with the fetch error"; both fetches raise the same error, so which rejects first does not matter.
- `ExternalApi.CalculateEstimatedGdp`: requires a non-zero rate, because JavaScript's division by zero (Infinity/NaN) is not modelled. The only caller passes a truthy rate.
- Floating point: rates and GDP are exact reals (no rounding, NaN or Infinity). Population is an unbounded integer; the loss of precision above 2^53 in a JavaScript number is not modelled.
- `Math.random` is a parameter (`random(i)` for the i-th fetched country); the model proves bounds, not a distribution.
- `CountryStore.Upserted`: on an existing match, fields absent from the DTO are written as absent. TypeORM's `update` skips `undefined` properties, so in the running system such a field keeps its old stored value.
- `CountryStore.FindIndex`: `ILike` pattern semantics are not modelled. Names are compared by ASCII lower-casing only, and `%` and `_` in a name are literal characters; in the running system `findByName("%")` or `deleteByName("%")` would match every row. Locale-aware case folding is also not modelled.
- `CountryQueries.FindByName`: when several rows match it returns the first in storage order. Under the table invariant at most one row matches.
- `CountryQueries.FindAll`: without a recognised sort the source applies no `ORDER BY`, so the database promises no order, and PostgreSQL may move a row when it is updated. The model returns the filtered rows in the table's natural order: updated rows stay in place and new rows go at the end.
- `CountryQueries.SortBy`: SQL leaves the order of ties unspecified; the model uses a stable insertion sort. NULL GDPs are placed as PostgreSQL does (last ascending, first descending); the local MySQL configuration orders NULLs the other way.
- `createdAt` and `updatedAt` are managed by the database and are not modelled.
- Store failures: the in-memory table never fails, so the source's abort of the remaining batch on a per-record database error is not modelled.
- The image generator is a function argument. The file it writes, `imageExists` and `getImagePath` (`GET /countries/image`) are not modelled; the generator's source file is not part of this model.
- Logging (`Logger`).
- Controllers, module wiring, database configuration and `DATABASE_URL` parsing, and class-validator decorators on the DTO.
- Overlapping refreshes from concurrent requests: each method runs to completion.
- Property lookup on `exchangeData.rates` is a map lookup. Inherited JavaScript object properties (a code such as `constructor`) are not modelled.
