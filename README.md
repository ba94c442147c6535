# Transactions dashboard backend — a Dafny model

The system is the backend of a product-sales dashboard. It seeds its store of
sale records from a JSON feed. It lists the sales of a calendar month, page by
page, with an optional text or price search. It reports three aggregates over
one month of 2022:

- statistics: the total sale amount, the number of sold items and the number of
  items not sold;
- a bar chart: record counts in ten price bands;
- a pie chart: record counts per category.

This project models five things:

- the five request handlers of
  `mern-coding-challenge/controllers/transactionController.js`;
- the `Transaction` schema of `mern-coding-challenge/models/Transaction.js`,
  with its `dateOfSale` validator and its pre-save hook;
- the two pieces of JavaScript date handling the handlers use
  (`new Date(...)`/`getMonth()` and `Date.UTC`);
- the query engine's filter, skip and limit, and its aggregation stages;
- the HTTP outcome of each handler, as a `Result` with an error whose `Status()`
  is the response code.

Modules:

- `Wrappers`: the `Option` and `Result` datatypes.
- `Text`: ASCII case folding, case-insensitive substring search (with the
  proof that letters of either case match), and the `^[a-zA-Z]+$` test.
- `Calendar`: JavaScript time values (`NaN` or a millisecond count clipped to
  ±8.64e15) and the proleptic Gregorian UTC calendar as `CivilOf` and
  `Civil.Time`. Also `Date.UTC` with its month and day carry, and month-name
  lookup.
- `TransactionModel`: a raw `Document` with every field optional and the stored
  `Transaction`. Also the schema rules (`Validate`) and the pre-save hook
  (`PreSave`).
- `Sequences`: `Filter` in store order (its counts and its positions) and
  `Page` (skip and limit), with their algebra.
- `Seeding`: the seed normalisation (`Normalize`) and batch validation
  (`ValidateAll`). Also the `TransactionStore` class, whose
  `InitializeDatabase` method replaces the stored records.
- `Listing`: parameter validation (`ParseListQuery`), the search filter
  (`Matching`) and the page with its 404 (`ListPage`, `ListTransactions`).
- `Reports`: the month check and the 2022 window shared by the three
  aggregates. Also `GetStatistics`, `GetBarChartData` (with the contiguous-band
  correction, see Findings) and `GetPieChartData`.

Two ways the modelled code departs from what one might expect:

- The listing's month filter matches the month of any year. The three
  aggregates match only that month of 2022 (`ListingIgnoresYear`,
  `OtherYearOutsideWindow`).
- The seed uses `insertMany`, which runs schema validation but not `save`
  middleware. `PreSave` is therefore modelled on its own.
  `NormalizedDateAndImageValid` shows that a normalised document would pass it
  anyway.

## Model

| member | source | states |
|---|---|---|
| Seeding.TransactionStore.InitializeDatabase | mern-coding-challenge/controllers/transactionController.js:6-34 | A failed fetch gives 500 and leaves the store unchanged. Otherwise the store is cleared. Seeding succeeds exactly when every normalised document satisfies the schema. A failure leaves the store empty. A success stores one record per fetched document, in feed order, each seeded from its document. |
| Seeding.Normalize | mern-coding-challenge/controllers/transactionController.js:15-24 | The result always has a valid date and a non-empty image. It keeps a valid date and uses `now` for an invalid one. It keeps a truthy image and uses the placeholder URL otherwise. Every other field is unchanged. |
| Seeding.NormalizedDateAndImageValid | mern-coding-challenge/controllers/transactionController.js:16-22 | Whatever the raw document held, the normalised `dateOfSale` passes the validator, the normalised `image` passes `required`, and the document passes the pre-save hook. |
| Seeding.NormalizeAll | mern-coding-challenge/controllers/transactionController.js:15 | The `map` keeps the length and normalises the document at each position. |
| Seeding.ValidateAll | mern-coding-challenge/controllers/transactionController.js:27 | The batch is accepted exactly when every document satisfies the schema. An accepted batch holds, position by position, the validated record of each document. |
| Seeding.SeededRecord | mern-coding-challenge/controllers/transactionController.js:15-27 | After normalisation a document is accepted exactly when `title`, `category`, `price` and `sold` are present and the strings are non-empty. An accepted document yields a record seeded from the original (date kept or `now`, image kept or the placeholder, other fields copied). |
| TransactionModel.NewDate | mern-coding-challenge/models/Transaction.js:27-28 | A missing value is NaN. A valid time value lies within ±8.64e15 ms. |
| TransactionModel.Validate | mern-coding-challenge/models/Transaction.js:3-21 | A record is produced exactly when all rules hold: title, category and image present and non-empty; price and sold present; dateOfSale a valid date. `description` is optional. The record carries the document's field values; fields outside the schema are dropped. |
| TransactionModel.StoredRecordRoundTrip | mern-coding-challenge/models/Transaction.js:3-21 | A stored record, read back as a document, validates to itself. |
| TransactionModel.PreSave | mern-coding-challenge/models/Transaction.js:24-33 | The save is aborted, with the message "Invalid date format for dateOfSale", exactly when a `dateOfSale` is present and is not a valid date. Otherwise it proceeds. |
| TransactionModel.SchemaImpliesPreSave | mern-coding-challenge/models/Transaction.js:8-33 | A document that satisfies the schema is never stopped by the pre-save hook. |
| Listing.ListMonthNumber | mern-coding-challenge/controllers/transactionController.js:53-59 | A month number 1..12 is found exactly when the parameter is present and names a month, case-insensitively. That number is the named month. |
| Listing.ParseListQuery | mern-coding-challenge/controllers/transactionController.js:39-78 | Errors come in order: 400 for a page that is not a positive integer; else 400 for such a perPage; else 400 for a month that is not a month name. Page defaults to 1, perPage to 10 and search to "". Validation never gives 404. A valid request skips `Offset(page - 1, perPage)` matches, which is `(page - 1) * perPage` (`OffsetIsProduct`), and takes at most `perPage`. It carries the month number, the search and the search read as a number. |
| Listing.Matching | mern-coding-challenge/controllers/transactionController.js:66-80 | Every returned record is in the store and matches both the month and the search. Every store record that matches is returned. |
| Listing.MatchingCounts | mern-coding-challenge/controllers/transactionController.js:80 | Each record that matches is returned as many times as the store holds it; no other record is returned. |
| Listing.MatchingInStoreOrder | mern-coding-challenge/controllers/transactionController.js:80 | The matches are the store's records at increasing store positions, and those positions are exactly the positions of matching records. |
| Listing.SearchIgnoresCase | mern-coding-challenge/controllers/transactionController.js:70-72 | A record of the requested month is listed when its title contains the search with any letters in the other case, e.g. "mouse" in "Mouse". |
| Listing.NumericSearchMatchesPrice | mern-coding-challenge/controllers/transactionController.js:62-73 | A record of the requested month is listed when its price equals the search read as a number, whatever its title and description say. |
| Listing.OffsetIsProduct | mern-coding-challenge/controllers/transactionController.js:78 | The skip `Offset(page - 1, perPage)` equals `(page - 1) * perPage`. |
| Listing.NextPageSkip | mern-coding-challenge/controllers/transactionController.js:78 | Page p + 1 skips exactly `perPage` more matches than page p. |
| Listing.MatchingDistinct | mern-coding-challenge/controllers/transactionController.js:80 | A store without duplicate records gives matches without duplicates. |
| Listing.ListPage | mern-coding-challenge/controllers/transactionController.js:78-86 | The result is 404 exactly when the skip reaches past the last match. Otherwise it is the run of `min(limit, matches - skip)` matches starting at the skip, and every one of them matches. |
| Listing.ListTransactions | mern-coding-challenge/controllers/transactionController.js:37-88 | A parameter error is returned before any query. A valid request gives the page of its query. |
| Listing.ListPageRows | mern-coding-challenge/controllers/transactionController.js:80-86 | The rows of a listing response are the page of matches at the skip. A response past the end has no rows. |
| Listing.ConsecutiveListPages | mern-coding-challenge/controllers/transactionController.js:78-82 | Pages at offsets `skip` and `skip + perPage` (pages p and p + 1, by `NextPageSkip`) together are the run of `2 * perPage` matches from page p's offset: nothing is skipped or repeated between them. |
| Listing.FirstTwoListPages | mern-coding-challenge/controllers/transactionController.js:78-82 | Pages 1 and 2 together are the first `2 * perPage` matches, or all of them when there are fewer. |
| Listing.ConsecutiveListPagesDisjoint | mern-coding-challenge/controllers/transactionController.js:78-82 | In a store without duplicate records, the pages at offsets `skip` and `skip + perPage` (pages p and p + 1) share no record. |
| Listing.EmptySearchMatchesWholeMonth | mern-coding-challenge/controllers/transactionController.js:70-72 | With the default empty search and a non-numeric search, the listing keeps every record of the month. |
| Listing.ListingIgnoresYear | mern-coding-challenge/controllers/transactionController.js:67-69 | A record sold in the requested month of any year passes the month filter. |
| Text.LowerChar | mern-coding-challenge/controllers/transactionController.js:71 | The result is never an upper-case ASCII letter, a character that is not one is unchanged, and letters stay letters. |
| Text.Lower | mern-coding-challenge/controllers/transactionController.js:71 | Each character is lower-cased in place and the length is kept. |
| Text.EmptyPatternEverywhere | mern-coding-challenge/controllers/transactionController.js:71 | The empty search text occurs in every title. |
| Text.LowerCharEqual | mern-coding-challenge/controllers/transactionController.js:71 | Two characters fold to the same character exactly when they are equal or are the upper- and lower-case forms of one letter. |
| Text.CaseVariantOccurs | mern-coding-challenge/controllers/transactionController.js:71-72 | An occurrence whose characters are each equal to the search's or the same letter in the other case makes the text contain the search, ignoring case. |
| Text.CaseVariantEqual | mern-coding-challenge/controllers/transactionController.js:54 | Two texts that differ only in the case of letters are equal up to case. |
| Text.MouseFindsMouse | mern-coding-challenge/controllers/transactionController.js:71 | The search "mouse" finds the title "Wireless Mouse". |
| Calendar.TimeClip | mern-coding-challenge/controllers/transactionController.js:16-17 | A time value beyond ±8.64e15 ms becomes NaN. A value within range is kept. |
| Calendar.CivilOf | mern-coding-challenge/controllers/transactionController.js:68 | Every time value has a valid UTC calendar date and time of day that denotes exactly that time value. |
| Calendar.CivilRoundTrip | mern-coding-challenge/controllers/transactionController.js:68 | A valid calendar date and time of day reads back as itself from its time value. |
| Calendar.MonthOfDate | mern-coding-challenge/controllers/transactionController.js:68 | `MonthOf`, the model of `$month`, gives month m for a sale on any day of month m of any year. |
| Calendar.MonthIndex | mern-coding-challenge/controllers/transactionController.js:105 | An index 0..11 is found exactly when the text equals a month name, case-insensitively. |
| Calendar.MonthNameRoundTrip | mern-coding-challenge/controllers/transactionController.js:105 | Each month name is recognised as its own index. |
| Calendar.MonthNameAnyCase | mern-coding-challenge/controllers/transactionController.js:105 | A month name written with any mix of upper- and lower-case letters is recognised as its own month. |
| Calendar.MarchInAnyCase | mern-coding-challenge/controllers/transactionController.js:54-55 | "march" and "MARCH" both name March. |
| Calendar.MonthNameAlphabetic | mern-coding-challenge/controllers/transactionController.js:101 | Each month name consists of letters only. |
| Reports.AggregateMonth | mern-coding-challenge/controllers/transactionController.js:98-105 | The result is 400 exactly when `month` is missing or not made of letters only. Otherwise it is the index 0..11 of the month named by the parameter, ignoring case. |
| Reports.MonthNameAccepted | mern-coding-challenge/controllers/transactionController.js:101-105 | Every month name passes the check and selects its own month. |
| Reports.WindowBounds | mern-coding-challenge/controllers/transactionController.js:106-107 | `DateUtc` models `Date.UTC`. The two `Date.UTC` values are valid. They are the first millisecond of day 1 and the last millisecond of the last day of the month in 2022. December's end is reached through day 0 of January 2023. |
| Reports.StartOfMonth | mern-coding-challenge/controllers/transactionController.js:106 | The window starts at midnight UTC of day 1 of the month in 2022. |
| Reports.EndOfMonth | mern-coding-challenge/controllers/transactionController.js:107 | The window ends at 23:59:59.999 UTC of the month's last day in 2022. |
| Reports.WindowIsMonthOf2022 | mern-coding-challenge/controllers/transactionController.js:105-110 | A time value lies in the window exactly when its UTC date is in that month of 2022. |
| Reports.WindowRecordsAreMonthOf2022 | mern-coding-challenge/controllers/transactionController.js:110 | The `$match` stage keeps exactly the records sold in that month of 2022. |
| Reports.OtherYearOutsideWindow | mern-coding-challenge/controllers/transactionController.js:105-107 | The same month of another year matches the listing's `$month` filter but lies outside the aggregates' window. |
| Reports.GetStatistics | mern-coding-challenge/controllers/transactionController.js:96-123 | The result is 400 exactly when the month check fails. Otherwise it gives the sum of the window's prices, the number sold and the number not sold. The two counts add up to the window's size, and an empty window gives all zeros. |
| Reports.StatisticsCountMonthOf2022 | mern-coding-challenge/controllers/transactionController.js:109-121 | Sold plus not sold equals the number of records sold in that month of 2022. |
| Reports.BandEntries | mern-coding-challenge/controllers/transactionController.js:157-163 | There is one entry per band, in band order, with the band's label and the number of records priced in that band. |
| Reports.GetBarChartData | mern-coding-challenge/controllers/transactionController.js:131-165 | The result is 400 exactly when the month check fails. Otherwise it has ten entries with the labels of `priceRanges`. Each count is the number of window records whose price lies inclusively between that band's min and max. |
| Reports.PriceRangesShape | mern-coding-challenge/controllers/transactionController.js:144-155 | Band i runs from `100i + 1` (0 for the first) to `100(i + 1)`. The last band has no upper bound. |
| Reports.BandsDisjoint | mern-coding-challenge/controllers/transactionController.js:144-160 | No price lies in two bands. |
| Reports.IntegerPriceInOneBand | mern-coding-challenge/controllers/transactionController.js:144-160 | Every non-negative integer price lies in exactly one band, which is named. |
| Reports.PricesInNoBand | mern-coding-challenge/controllers/transactionController.js:144-160 | A negative price, or one strictly between 100 and 101, lies in no band. |
| Reports.HitsAtMostOne | mern-coding-challenge/controllers/transactionController.js:144-160 | A price lies in at most one band. A non-negative integer price lies in exactly one. |
| Reports.TotalCountIsBandedRecords | mern-coding-challenge/controllers/transactionController.js:157-163 | When no price lies in two bands, the band counts add up to the number of records priced in some band. |
| Reports.BandedTotal | mern-coding-challenge/controllers/transactionController.js:157-163 | The counts add up to the records priced inside a band, which is at most all of them. If every price is a non-negative integer, the counts add up to all of them. |
| Reports.BarChartTotal | mern-coding-challenge/controllers/transactionController.js:131-165 | The bar chart's counts add up to at most the window's size. They equal it when every price in the window is a non-negative integer. |
| Reports.FractionalPriceUncounted | mern-coding-challenge/controllers/transactionController.js:160 | A February 2022 sale priced 100.5 is in the window, yet the chart as written counts it in no band. |
| Reports.UncountedRecord | mern-coding-challenge/controllers/transactionController.js:160 | A record priced 100.5 adds nothing to any band as written. |
| Reports.GetBarChartDataContiguous | mern-coding-challenge/controllers/transactionController.js:131-165 | This is the corrected chart. The error case and the ten labels are the same as in `GetBarChartData`. Each band after the first starts just above the previous band's maximum. |
| Reports.ContiguousAgreesOnIntegers | mern-coding-challenge/controllers/transactionController.js:144-160 | On integer prices the corrected bands and the bands as written agree. |
| Reports.ContiguousBand | mern-coding-challenge/controllers/transactionController.js:144-155 | Every non-negative price lies in one of the ten corrected bands. |
| Reports.ContiguousHits | mern-coding-challenge/controllers/transactionController.js:144-160 | A non-negative price lies in exactly one corrected band; a negative price lies in none. |
| Reports.ContiguousTotal | mern-coding-challenge/controllers/transactionController.js:157-163 | The corrected band counts add up to the number of records with a non-negative price. |
| Reports.ContiguousBarChartTotal | mern-coding-challenge/controllers/transactionController.js:131-165 | The corrected chart counts every window record whose price is not negative. |
| Reports.Tally | mern-coding-challenge/controllers/transactionController.js:188 | One more sale of category c adds 1 to c's count and to the total and leaves every other count unchanged. No category is introduced except c. |
| Reports.TallyDistinct | mern-coding-challenge/controllers/transactionController.js:188 | Counting a sale keeps one entry per category. |
| Reports.GroupByCategory | mern-coding-challenge/controllers/transactionController.js:188-189 | There is one entry per category, each count at least 1. The count of every category is its number of records, and the counts add up to the number of records. |
| Reports.GroupByCategoryEntries | mern-coding-challenge/controllers/transactionController.js:188 | Every entry's count is at least 1 and is its category's number of records, and every category of the input has an entry. |
| Reports.GetPieChartData | mern-coding-challenge/controllers/transactionController.js:173-192 | The result is 400 exactly when the month check fails. Otherwise it is the grouping of the window's records by category. |
| Reports.PieChartEntries | mern-coding-challenge/controllers/transactionController.js:186-190 | The pie chart has one entry per category of the window's records and no others. Each count is at least 1 and equals the number of window records in that category. The counts add up to the window's size. |
| Sequences.Filter | mern-coding-challenge/controllers/transactionController.js:80 | Every kept element is in the input and satisfies the filter. Every input element that satisfies it is kept. No more elements come out than go in. |
| Sequences.FilterCounts | mern-coding-challenge/controllers/transactionController.js:80 | Every element that satisfies the filter is kept as many times as the input holds it, and no other element is kept. |
| Sequences.FilterPositions | mern-coding-challenge/controllers/transactionController.js:80 | The kept elements are the input's elements at strictly increasing positions, and those positions are exactly the ones whose elements satisfy the filter: the filter keeps the input's order. |
| Sequences.FilterPartition | mern-coding-challenge/controllers/transactionController.js:114-115 | When one condition is the negation of the other, the two counts add up to the whole. |
| Sequences.Page | mern-coding-challenge/controllers/transactionController.js:81-82 | `.skip(k).limit(n)` is the run of `min(n, size - k)` elements from position k, and nothing past the end. |
| Sequences.ConsecutivePages | mern-coding-challenge/controllers/transactionController.js:81-82 | Two adjacent pages of size n form the page of size 2n. |
| Sequences.DisjointPages | mern-coding-challenge/controllers/transactionController.js:81-82 | Non-overlapping pages of a sequence without repeated elements share no element. |

## Left out

- The HTTP request for the seed feed, in `initializeDatabase`, is not modelled. The feed arrives as a parameter: `None` for a failed request, otherwise the parsed documents.
- The clock is a parameter: `Seeding.TransactionStore.InitializeDatabase` takes one `now` for the whole batch, while the source reads the clock once per document with an invalid date.
- The JavaScript date-string parser is not modelled. A document's `dateOfSale` carries the time value the parser yields (`DateInput.Given`), and the validator's `Date.parse` of the cast `Date` is taken to agree with it on validity.
- Mongoose casting of field values (a numeric string to a Number, and so on) is not modelled. A `Document` holds already-typed values, and a value that fails to cast is modelled as a missing field.
- The database engine is modelled as sequences. Executing the queries, indexes and concurrency are not modelled.
- Listing.Matching: a `find` without `.sort()` (transactionController.js:80-82) promises no order, but the model assumes the matches come in store order. `ConsecutiveListPages`, `FirstTwoListPages` and `ConsecutiveListPagesDisjoint` hold only under that assumption. If two requests could see the matches in different orders, pages p and p + 1 could overlap or skip records.
- Failures of the database itself (a lost connection, a write error in the middle of `insertMany`) and the 500 responses they cause are not modelled. Seeding's failed fetch and failed validation are modelled.
- Logging to the console is not modelled.
- The `$regex` search is modelled as a literal substring. Regular-expression metacharacters in the search text are not interpreted.
- The `i` option is modelled with ASCII case folding only. Unicode case folding is not modelled.
- `parseInt` and `parseFloat` are not modelled as text parsers. Their results are inputs: `IntParam` for page and perPage, and `Option<real>` for the search read as a number.
- Prices are exact reals. IEEE-754 rounding in `$sum` and in the price comparison is not modelled.
- `$month` is evaluated in UTC, which is what the engine does without a timezone argument.
- Listing.ListMonthNumber: only the twelve full month names (in any letter case) are recognised. The JavaScript engine's legacy date parser also accepts other forms, such as three-letter abbreviations, which the model rejects with 400.
- Reports.AggregateMonth: requires that a month parameter made of letters only is one of the twelve full month names, in any letter case. The JavaScript engine's date parser reads `01 ${month} 2022` more leniently: it also takes abbreviations such as "Jan" or "Sept", and words such as "Janitor" that begin like a month name. The requires excludes those words too. For an alphabetic word the parser rejects, `getMonth()` is NaN and `Date.UTC` gives an invalid date, a case the handler leaves undefined.
- The ten `countDocuments` queries of the bar chart run concurrently under `Promise.all`. The model computes them one after another. If one of them fails, the whole request fails with 500, which is not modelled.
- The `_id: null` field of the statistics object and the JSON encoding of responses are not modelled.
- Reports.GroupByCategory: fixes one order of the pie chart entries, while the source's `$group` promises no order. No contract depends on the order.
- The Express routing, the server start-up and the combined-data handler are not part of this model.

## Findings

| source | as written | input that shows it | evidently intended | confidence | as-written member | corrected member |
|---|---|---|---|---|---|---|
| mern-coding-challenge/controllers/transactionController.js:144-160 | The bands are inclusive integer ranges 0-100, 101-200, …, 901-∞. A price between two bands, or a negative price, is counted in no band. | A sale of February 2022 priced 100.5 (any month value naming February): the window holds it and all ten counts are 0. | Contiguous bands in which every non-negative price is counted exactly once. | not executed | Reports.FractionalPriceUncounted | Reports.ContiguousBarChartTotal |
