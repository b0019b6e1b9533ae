# Currency API core, modelled in Dafny

This project models the two services of the currency API demo and proves properties of them.

- **The currency lifecycle service** (`CurrencyServiceImpl`) manages the CURRENCY table:
  - create, with reactivation of a soft-deleted code;
  - full replace;
  - tri-state partial update, where a field is absent, explicit `null`, or a value;
  - soft delete and reactivate;
  - the active-only reads.
- **The rate-feed transform** (`CoinDeskMapper` and `CoinDeskServiceImpl.getTransformedCoinDeskData`):
  - the upstream snapshot is merged with the stored display names;
  - its ISO 8601 time is reformatted to `yyyy/MM/dd HH:mm:ss`, with the original text echoed when it does not parse.

Modules follow the source:

| file | what it holds |
|---|---|
| `wrappers.dfy` | `Option` and `Result` |
| `currency_entity.dfy` | the `Currency` row and the request bodies; Java `trim()`/blank; substring containment; the invariant every service write keeps |
| `currency_repository.dfy` | the Spring Data derived queries and `save`, as functions of the table |
| `currency_lifecycle.dfy` | each service operation as a function from the table before to the result and the table after |
| `currency_lifecycle_properties.dfy` | lemmas that relate several calls |
| `currency_service.dfy` | the service class; the table is a `map` field that only `Save` writes |
| `coindesk_dto.dfy` | the upstream and transformed DTOs |
| `iso_date_time.dfy` | the `ISO_DATE_TIME` forms the feed uses, and the output pattern |
| `iso_date_time_examples.dfy` | concrete texts that parse or do not |
| `coindesk_mapper.dfy`, `coindesk_mapper_properties.dfy` | the transform and what it promises |
| `coindesk_service.dfy`, `coindesk_service_properties.dfy` | the first-wins lookup, the null short-circuit, the end-to-end properties |

Each method of the service class reads the row, changes a working copy field by field, and calls `Save`. Each is proved to return exactly the result of the matching `CurrencyLifecycle` function and to leave exactly that function's table. The lemmas are stated about those functions.

Inputs that stand in for things the model cannot see:
- the HTTP fetch is a parameter: the snapshot, which may be null, or the failure it raised;
- `findAll` is a parameter: the rows in the order the repository returns them;
- the iteration order of the snapshot's `bpi` HashMap is a parameter `order`, which lists each key once.

## Model

| member | source | states |
|---|---|---|
| CurrencyEntity.TrimStart | src/main/java/io/github/montytsai/currencyapi/currency/service/impl/CurrencyServiceImpl.java:204 | Java `trim()` on the left: the result is a suffix of the input, everything removed is at most U+0020, and a non-empty result starts above U+0020 |
| CurrencyEntity.TrimEnd | src/main/java/io/github/montytsai/currencyapi/currency/service/impl/CurrencyServiceImpl.java:204 | the same on the right: a prefix, everything removed is at most U+0020, and a non-empty result ends above U+0020 |
| CurrencyEntity.BlankIsEmptyWhenTrimmed | src/main/java/io/github/montytsai/currencyapi/currency/service/impl/CurrencyServiceImpl.java:204-206 | `s.trim().isEmpty()` holds exactly when every character of `s` is at most U+0020 (the `IsBlank` predicate the validations use) |
| CurrencyEntity.ScanContainsIsContains | src/main/java/io/github/montytsai/currencyapi/currency/repository/CurrencyRepository.java:36 | a left-to-right scan finds `name` exactly when it occurs somewhere in `text` as a contiguous substring (the `Containing` query) |
| CurrencyRepository.FindById | src/main/java/io/github/montytsai/currencyapi/currency/service/impl/CurrencyServiceImpl.java:112-113 | finds a row exactly when the code is stored, whatever its active flag, and returns that row |
| CurrencyRepository.FindByCodeAndIsActiveTrue | src/main/java/io/github/montytsai/currencyapi/currency/repository/CurrencyRepository.java:28 | finds a row exactly when the code is stored and the row is active |
| CurrencyRepository.FindAllByIsActiveTrue | src/main/java/io/github/montytsai/currencyapi/currency/repository/CurrencyRepository.java:20 | holds every active row and only rows that are stored and active |
| CurrencyRepository.FindByDisplayNameContainingAndIsActiveTrue | src/main/java/io/github/montytsai/currencyapi/currency/repository/CurrencyRepository.java:36 | computed by scanning each active row's display name, it holds exactly the active rows whose display name contains the search text |
| CurrencyRepository.Save | src/main/java/io/github/montytsai/currencyapi/currency/service/impl/CurrencyServiceImpl.java:80 | an upsert under the entity's own code: that row is the entity, one key at most is added, every other row is unchanged |
| CurrencyLifecycle.Create | src/main/java/io/github/montytsai/currencyapi/currency/service/impl/CurrencyServiceImpl.java:55-62 | succeeds exactly when the code is not active: the stored row is active with the request's fields, whether it was absent or inactive; an active code gives AlreadyExists and the table unchanged; only that row changes; the invariant every service write keeps is kept |
| CurrencyLifecycle.Replace | src/main/java/io/github/montytsai/currencyapi/currency/service/impl/CurrencyServiceImpl.java:66-81 | a path/body code mismatch gives InvalidArgument before the table is read; otherwise only an active code succeeds, and both fields are overwritten; an inactive or absent code gives NotFound; a failure leaves the table unchanged |
| CurrencyLifecycle.ValidateAndSetDisplayName | src/main/java/io/github/montytsai/currencyapi/currency/service/impl/CurrencyServiceImpl.java:195-214 | an absent field keeps the name; explicit null, a blank value and a value over 50 characters are refused with InvalidArgument; otherwise the name is set and nothing else changes |
| CurrencyLifecycle.ValidateAndSetSymbol | src/main/java/io/github/montytsai/currencyapi/currency/service/impl/CurrencyServiceImpl.java:230-245 | an absent field keeps the symbol; explicit null clears it; a value over 10 characters is refused; otherwise the symbol is set |
| CurrencyLifecycle.ApplyPatch | src/main/java/io/github/montytsai/currencyapi/currency/service/impl/CurrencyServiceImpl.java:89-90 | the patch applies exactly when both fields are acceptable; it changes only the provided fields, never the code or the active flag, and keeps a well-formed row well-formed |
| CurrencyLifecycle.PartialUpdate | src/main/java/io/github/montytsai/currencyapi/currency/service/impl/CurrencyServiceImpl.java:85-93 | only an active code is patched (otherwise NotFound); success exactly when both fields are acceptable; a rejected patch leaves the table unchanged |
| CurrencyLifecycle.SoftDelete | src/main/java/io/github/montytsai/currencyapi/currency/service/impl/CurrencyServiceImpl.java:97-106 | succeeds exactly on an active code, clears its active flag and nothing else; otherwise NotFound and the table unchanged |
| CurrencyLifecycle.Reactivate | src/main/java/io/github/montytsai/currencyapi/currency/service/impl/CurrencyServiceImpl.java:110-124 | fails (NotFound) only on an absent code; the result is the row with the active flag set; an already active row is returned as it is with the table untouched |
| CurrencyLifecycle.FindActiveByCode | src/main/java/io/github/montytsai/currencyapi/currency/service/impl/CurrencyServiceImpl.java:137-143 | returns the row exactly when the code is stored and active, otherwise NotFound |
| CurrencyLifecycleProperties.ReactivateIsIdempotent | src/main/java/io/github/montytsai/currencyapi/currency/service/impl/CurrencyServiceImpl.java:115-118 | reactivating twice returns the same record and leaves the same table as reactivating once |
| CurrencyLifecycleProperties.SoftDeleteThenReactivateRestores | src/main/java/io/github/montytsai/currencyapi/currency/service/impl/CurrencyServiceImpl.java:97-124 | a soft delete followed by a reactivation returns the original record and restores the table exactly |
| CurrencyLifecycleProperties.SoftDeletedCodeIsHidden | src/main/java/io/github/montytsai/currencyapi/currency/service/impl/CurrencyServiceImpl.java:137-143 | after a soft delete the code is hidden: find, replace, partial update, soft delete, list and search all treat it as missing, and reactivate still finds it |
| CurrencyLifecycleProperties.CreateAfterSoftDeleteReactivates | src/main/java/io/github/montytsai/currencyapi/currency/service/impl/CurrencyServiceImpl.java:153-164 | creating a soft-deleted code reactivates it with the new fields and adds no row |
| CurrencyLifecycleProperties.CreateTwiceConflicts | src/main/java/io/github/montytsai/currencyapi/currency/service/impl/CurrencyServiceImpl.java:154-157 | creating a fresh code succeeds with an active row; creating it again is AlreadyExists and changes nothing |
| CurrencyLifecycleProperties.EmptyPatchIsNoOp | src/main/java/io/github/montytsai/currencyapi/currency/service/impl/CurrencyServiceImpl.java:197-199 | a PATCH with neither field returns the record and leaves the table as it was |
| CurrencyLifecycleProperties.NullSymbolPatchClears | src/main/java/io/github/montytsai/currencyapi/currency/service/impl/CurrencyServiceImpl.java:236-244 | `{"symbol": null}` clears the symbol and keeps the display name |
| CurrencyLifecycleProperties.Apply | src/main/java/io/github/montytsai/currencyapi/currency/service/impl/CurrencyServiceImpl.java:55-124 | no single service call removes a row, and a call whose body passed validation keeps every row within the invariant every service write keeps |
| CurrencyLifecycleProperties.RunKeepsRowsAndInvariant | src/main/java/io/github/montytsai/currencyapi/currency/service/impl/CurrencyServiceImpl.java:55-124 | over any history of calls no row is ever removed (deletion is soft only), and every row keeps the invariant every service write keeps |
| CurrencyServiceImpl.CurrencyService.constructor | src/main/java/io/github/montytsai/currencyapi/currency/service/impl/CurrencyServiceImpl.java:26-28 | the service starts on a table that meets the invariant every service write keeps, with no call to `save` made |
| CurrencyServiceImpl.CurrencyService.Save | src/main/java/io/github/montytsai/currencyapi/currency/service/impl/CurrencyServiceImpl.java:163 | the table becomes the repository's upsert of the entity, and one call to `save` is counted |
| CurrencyServiceImpl.CurrencyService.FindAllActive | src/main/java/io/github/montytsai/currencyapi/currency/service/impl/CurrencyServiceImpl.java:31-34 | exactly the active rows of the table |
| CurrencyServiceImpl.CurrencyService.FindActiveByCode | src/main/java/io/github/montytsai/currencyapi/currency/service/impl/CurrencyServiceImpl.java:37-40 | the active row under the code, or NotFound |
| CurrencyServiceImpl.CurrencyService.SearchActiveByDisplayName | src/main/java/io/github/montytsai/currencyapi/currency/service/impl/CurrencyServiceImpl.java:43-46 | exactly the active rows whose display name contains the text |
| CurrencyServiceImpl.CurrencyService.Create | src/main/java/io/github/montytsai/currencyapi/currency/service/impl/CurrencyServiceImpl.java:55-62 | result and new table are those of `CurrencyLifecycle.Create`; the table keeps the invariant; one call to `save` exactly on success |
| CurrencyServiceImpl.CurrencyService.Replace | src/main/java/io/github/montytsai/currencyapi/currency/service/impl/CurrencyServiceImpl.java:66-81 | result and new table are those of `CurrencyLifecycle.Replace`; one call to `save` exactly on success |
| CurrencyServiceImpl.CurrencyService.PartialUpdate | src/main/java/io/github/montytsai/currencyapi/currency/service/impl/CurrencyServiceImpl.java:85-93 | result and new table are those of `CurrencyLifecycle.PartialUpdate`; a rejected patch makes no call to `save`, an accepted one makes exactly one |
| CurrencyServiceImpl.CurrencyService.SoftDeleteByCode | src/main/java/io/github/montytsai/currencyapi/currency/service/impl/CurrencyServiceImpl.java:97-106 | result and new table are those of `CurrencyLifecycle.SoftDelete`; one call to `save` exactly on success |
| CurrencyServiceImpl.CurrencyService.ReactivateByCode | src/main/java/io/github/montytsai/currencyapi/currency/service/impl/CurrencyServiceImpl.java:110-124 | result and new table are those of `CurrencyLifecycle.Reactivate`; `save` is called only for an inactive row |
| CurrencyServiceImpl.CurrencyService.GetActiveCurrencyOrThrow | src/main/java/io/github/montytsai/currencyapi/currency/service/impl/CurrencyServiceImpl.java:137-143 | the active row under the code, or NotFound, and the table is not changed |
| CurrencyServiceImpl.CurrencyService.HandleExistingCurrencyOnCreate | src/main/java/io/github/montytsai/currencyapi/currency/service/impl/CurrencyServiceImpl.java:153-164 | for a stored code: AlreadyExists if active; otherwise the row is reactivated with the request's fields and saved, as `CurrencyLifecycle.Create` says |
| CurrencyServiceImpl.CurrencyService.CreateNewCurrency | src/main/java/io/github/montytsai/currencyapi/currency/service/impl/CurrencyServiceImpl.java:172-179 | for an absent code: a new active row with the request's fields is saved, as `CurrencyLifecycle.Create` says |
| IsoDateTime.SecondsAt | src/main/java/io/github/montytsai/currencyapi/coindesk/mapper/CoinDeskMapper.java:87 | after `hh:mm`, either nothing is consumed and the seconds and nanoseconds are 0, or `:ss` is read as the seconds, optionally followed by `.` and at most 9 digits read as the fraction scaled to nanoseconds; conversely `:` and two digits are always consumed, a `.` after them always is, and the fraction stops only at 9 digits or at a non-digit |
| IsoDateTime.OffsetAt | src/main/java/io/github/montytsai/currencyapi/coindesk/mapper/CoinDeskMapper.java:87 | the offset must end the text: `Z` is 0; otherwise `+hh:mm` or `+hh:mm:ss` (or with `-`) with minutes and seconds at most 59, read as signed seconds, within +-18:00; conversely a final `Z`, and every such well-formed offset within +-18:00, is accepted |
| IsoDateTime.Parse | src/main/java/io/github/montytsai/currencyapi/coindesk/mapper/CoinDeskMapper.java:87 | a parsed value requires the fixed `YYYY-MM-DD'T'hh:mm` prefix; its year, month, day, hour and minute are the numbers those digits spell, its seconds and fraction are what `SecondsAt` reads, its offset is what `OffsetAt` reads from the rest, and it is a valid calendar date-time; when prefix and offset are well-formed, parsing fails only on an invalid calendar date-time |
| IsoDateTimeExamples.ZuluWithFractionParses | src/main/java/io/github/montytsai/currencyapi/coindesk/mapper/CoinDeskMapper.java:87 | `2024-09-02T07:07:20.5Z` parses to 07:07:20.5 at offset 0: `Z` and a one-digit fraction are accepted |
| IsoDateTimeExamples.WestOffsetWithoutSecondsParses | src/main/java/io/github/montytsai/currencyapi/coindesk/mapper/CoinDeskMapper.java:87 | `2024-09-02T07:07-05:30` parses to 07:07:00 at offset -19800 seconds: the seconds are optional and a negative offset is accepted |
| IsoDateTimeExamples.OffsetWithoutColonRejected | src/main/java/io/github/montytsai/currencyapi/coindesk/mapper/CoinDeskMapper.java:87 | `2024-09-02T07:07:20+0530` does not parse: the offset needs its colon |
| IsoDateTime.Format | src/main/java/io/github/montytsai/currencyapi/coindesk/mapper/CoinDeskMapper.java:88 | the output has the 19-character shape `dddd/dd/dd dd:dd:dd`, and its digit groups spell the year of era, month, day, hour, minute and second of the value's own local fields |
| IsoDateTime.ParseToIso | src/main/java/io/github/montytsai/currencyapi/coindesk/mapper/CoinDeskMapper.java:87-88 | a whole-second date-time whose offset is whole minutes, written as `YYYY-MM-DDThh:mm:ss+hh:mm`, parses back to itself |
| CoinDeskMapper.LookupByCode | src/main/java/io/github/montytsai/currencyapi/coindesk/mapper/CoinDeskMapper.java:44 | `currencyMap.get(code)` finds a row exactly when the code is non-null and a key |
| CoinDeskMapper.ToCurrencyInfo | src/main/java/io/github/montytsai/currencyapi/coindesk/mapper/CoinDeskMapper.java:63-77 | code and rate are copied from the entry; the name is the row's display name when there is a row, otherwise "N/A" |
| CoinDeskMapper.FormatUpdatedTime | src/main/java/io/github/montytsai/currencyapi/coindesk/mapper/CoinDeskMapper.java:85-93 | a text that does not parse is returned unchanged; a parsed one is the formatted parsed value (see `IsoDateTime.Format`) |
| CoinDeskMapper.UpdatedTime | src/main/java/io/github/montytsai/currencyapi/coindesk/mapper/CoinDeskMapper.java:34-39 | "N/A" when the time block or its `updatedISO` is missing; otherwise the formatted `updatedISO` |
| CoinDeskMapper.CurrencyInfos | src/main/java/io/github/montytsai/currencyapi/coindesk/mapper/CoinDeskMapper.java:43-45 | one entry per listed key, at the key's position, built from that key's value and the value's own code |
| CoinDeskMapper.ToTransformedResponse | src/main/java/io/github/montytsai/currencyapi/coindesk/mapper/CoinDeskMapper.java:29-54 | the time is always set through `UpdatedTime`; no `bpi` gives no entries; otherwise there are exactly as many entries as keys |
| CoinDeskMapper.EnumerationCount | src/main/java/io/github/montytsai/currencyapi/coindesk/mapper/CoinDeskMapper.java:43 | listing a map's keys once each takes exactly as many positions as the map has keys |
| CoinDeskMapperProperties.EachKeyExactlyOnce | src/main/java/io/github/montytsai/currencyapi/coindesk/mapper/CoinDeskMapper.java:43-45 | every key of the snapshot gives an entry with that value's code and rate, at the one position that key occupies in the iteration, and there are as many entries as keys: no entry is dropped or repeated |
| CoinDeskMapperProperties.ChineseNameRule | src/main/java/io/github/montytsai/currencyapi/coindesk/mapper/CoinDeskMapper.java:44 | an entry's name is the display name stored under the entry's own code (not the map key), otherwise "N/A"; "N/A" appears exactly when the code is null, not stored, or stored with the display name "N/A" |
| CoinDeskMapperProperties.NotAvailableIsNotProofOfAbsence | src/main/java/io/github/montytsai/currencyapi/coindesk/mapper/CoinDeskMapper.java:69 | a stored row whose display name is "N/A" gives the same name as a missing row |
| CoinDeskMapperProperties.CurrencyInfosPermute | src/main/java/io/github/montytsai/currencyapi/coindesk/mapper/CoinDeskMapper.java:43-45 | two key orders with the same keys as often give the same entries as often |
| CoinDeskMapperProperties.ResponseIndependentOfOrder | src/main/java/io/github/montytsai/currencyapi/coindesk/mapper/CoinDeskMapper.java:43-45 | whatever order the HashMap yields, the response has the same time and the same multiset of entries |
| CoinDeskMapperProperties.MissingTimeIsNotAvailable | src/main/java/io/github/montytsai/currencyapi/coindesk/mapper/CoinDeskMapper.java:34-39 | a missing time block or `updatedISO` gives the time "N/A" |
| CoinDeskMapperProperties.UnparsableTimeIsEchoed | src/main/java/io/github/montytsai/currencyapi/coindesk/mapper/CoinDeskMapper.java:89-92 | whenever `updatedISO` does not parse, the response's time is that text itself, not an error |
| CoinDeskMapperProperties.ParsedTimeIsReformatted | src/main/java/io/github/montytsai/currencyapi/coindesk/mapper/CoinDeskMapper.java:87-88 | whenever `updatedISO` parses, the response's time has the output shape and spells the parsed value's own local fields, year of era first |
| CoinDeskMapperProperties.NotADateIsEchoed | src/main/java/io/github/montytsai/currencyapi/coindesk/mapper/CoinDeskMapper.java:89-92 | the text `not-a-date` is returned unchanged |
| CoinDeskMapperProperties.CanonicalTimeIsReformatted | src/main/java/io/github/montytsai/currencyapi/coindesk/mapper/CoinDeskMapper.java:85-88 | a canonical ISO 8601 time is shown as its own local fields in the output pattern, in its own offset |
| CoinDeskMapperProperties.SampleTimeIsReformatted | src/main/java/io/github/montytsai/currencyapi/coindesk/mapper/CoinDeskMapper.java:82 | `2024-09-02T07:07:20+00:00` and the same local time at `-05:30` are both shown as `2024/09/02 07:07:20` |
| CoinDeskServiceImpl.BuildCurrencyMap | src/main/java/io/github/montytsai/currencyapi/coindesk/service/impl/CoinDeskServiceImpl.java:64-69 | the keys are exactly the codes in the list; each value is the first row with that code (first wins on a repeat); every value sits under its own code |
| CoinDeskServiceImpl.GetTransformedCoinDeskData | src/main/java/io/github/montytsai/currencyapi/coindesk/service/impl/CoinDeskServiceImpl.java:49-78 | a fetch failure propagates; a null snapshot or a null `bpi` gives the empty response (no time, no entries); otherwise the mapper's response over the first-wins lookup |
| CoinDeskServiceProperties.CurrencyMapOfTable | src/main/java/io/github/montytsai/currencyapi/coindesk/service/impl/CoinDeskServiceImpl.java:62-69 | over all rows of the table, in any order, the lookup is the table itself |
| CoinDeskServiceProperties.RepeatedCodeKeepsFirst | src/main/java/io/github/montytsai/currencyapi/coindesk/service/impl/CoinDeskServiceImpl.java:68 | two rows with one code: the first is kept |
| CoinDeskServiceProperties.EntryNamedFromTable | src/main/java/io/github/montytsai/currencyapi/coindesk/service/impl/CoinDeskServiceImpl.java:60-74 | end to end, an entry whose code is stored carries that row's display name, active or not; any other entry carries "N/A" |
| CoinDeskServiceProperties.NoRatesGiveEmptyResponse | src/main/java/io/github/montytsai/currencyapi/coindesk/service/impl/CoinDeskServiceImpl.java:54-58 | a null snapshot, or one with no `bpi`, gives no time and no entries even when a time block is present |
| CoinDeskServiceProperties.SuccessPathEntries | src/test/java/io/github/montytsai/currencyapi/coindesk/service/impl/CoinDeskServiceImplTest.java:74-96 | with USD stored as 美金 and GBP not stored, the response has two entries, USD named 美金 and GBP "N/A", each with its own rate, in any key order |
| CoinDeskServiceProperties.SuccessPathExample | src/test/java/io/github/montytsai/currencyapi/coindesk/service/impl/CoinDeskServiceImplTest.java:62-96 | with the feed time `2024-09-02T07:07:20+00:00` added, the time is `2024/09/02 07:07:20` |

## Left out

- The WebClient call (`getOriginalCoinDeskData`): its URL, blocking and timeouts are not modelled. What it returns, or the error it raises, is an input.
- Logging, and the `createdAt`/`updatedAt` timestamps: they read the clock. A ghost counter counts the calls to `save`. It is not a model of `updatedAt`: `@PreUpdate` runs only when a flushed row actually differs, so a call to `save` that repeats the stored values leaves the stamp unchanged. Examples are an empty PATCH, or a PUT with the stored fields.
- Transactions and the persistence context. Each call is modelled as atomic. `partialUpdate` sets the display name on the managed entity before it validates the symbol, so a rejected symbol leaves the table unchanged only because `@Transactional` rolls back on the `IllegalArgumentException`. The comment at CurrencyServiceImpl.java:211 says validation is finished before a field is set. That holds within each field's helper, but not across the two fields: the code sets the display name first and relies on the rollback.
- Lengths are counted in Dafny `char`s, not UTF-16 code units. The two differ only outside the Basic Multilingual Plane.
- Display-name search uses exact, case-sensitive substring matching. Database collation is not modelled.
- Concurrent writers are not modelled. The table is one map, and each call sees it alone.
- Bean Validation of the create and replace bodies is a precondition. The controllers, the exception handler and the HTTP status codes are not modelled.
- Forms `ISO_DATE_TIME` accepts that the feed does not use are not modelled, and `Parse` rejects them:
  - a bracketed zone-id suffix such as `[Europe/Paris]`;
  - signed or more-than-four-digit years;
  - a lowercase `z` offset.
- An offset written without the colon, such as `+0530`, is rejected by `Parse` as it is by `ZonedDateTime.parse`; `IsoDateTimeExamples.OffsetWithoutColonRejected` shows one.
- `Format` prints a year of era below 10000 only, which is all a four-digit parsed year can give.
- Rates are Java `float` values. They are only copied, so they are kept as 32-bit patterns with no arithmetic.
- `CurrencyService.FindAllActive` and `CurrencyService.SearchActiveByDisplayName` return sets. The JPA `List` order is not promised and is not modelled.
- A null value inside the `bpi` map is not modelled. The code would throw on it, and the upstream snapshot never contains one.
- "N/A" as an entry's name does not by itself show that the entry's code is missing: a stored display name may be "N/A". `ChineseNameRule` proves the name is "N/A" exactly when the code is null, not stored, or stored with the display name "N/A", and `NotAvailableIsNotProofOfAbsence` shows the last case.
