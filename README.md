# Stock market data pipeline: a verified model of its core

The pipeline has four batch stages over one object-store bucket:

1. **Fetcher** (`stock_market_ninjas_api_to_s3_bucket.py`). It queries a price and a market cap for each of twenty tickers. It assembles one record per ticker that answered. It stores the list as `inbound/YYYY-MM-DD_DAY_slot.json`, where the date and weekday are those of the UTC instant shifted back five hours. The slot is `opening` before noon of that shifted day and `closing` from noon on.
2. **Normalizer** (`stock_market_transformation.py`). It is triggered by a new object. It ignores keys outside `inbound/`. It detects the session (`opening`, `closing`, `unknown`) in the lower-cased key. It rewrites every record: `updated` becomes a UTC `YYYY-MM-DD` text, `market_cap` becomes a figure scaled to T, B or M, and `price_type` is set. It writes the batch under the key with `inbound/` replaced by `transformed/`.
3. **Weekly partitioner** (`stock_market_weekly_job_json_to_parquet_partioned.py`). It lists the `.json` keys under `transformed/`. For each one it renames an `exchange` column to `stock_exchange` and reads the date at the start of the file name. It writes the table under `parquet/year=Y/month=M/week=W/day=D/`, with the name's `.json` made `.parquet`. W is the ISO 8601 week number (section 4.1.4 of ISO 8601:2004), paired with the calendar year and month.
4. **Weekly aggregator** (`stock_market_generate_aggregated_query.py`). It derives (year, month, ISO week) from the New York local date. It builds two queries. Per ticker, each query takes the opening row with the earliest `updated` and the closing row with the latest `updated` in that partition, and joins the two. The first query keeps positive ratios, sorts them descending and returns five. The second keeps negative ratios, sorts them ascending and returns five.

The project has one module per stage and four shared modules:

- `wrappers.dfy`: `Option` and the all-or-nothing map `MapAll`.
- `text.dfy`: digits, zero-padded and plain decimals, prefix, suffix and containment tests, ASCII lower-casing, `str.replace`, the basename split, and lexicographic order.
- `records.dfy`: JSON values, records and the session type.
- `calendar.dfy`: the proleptic Gregorian calendar in integers. It covers leap years, day ordinals in both directions, the weekday, the civil date of an epoch instant, the date text, and the ISO week.

`pipeline.dfy` proves how the stages fit together. A batch name written by the fetcher is routed by the normalizer to the session it names. The partitioner reads back exactly the fetcher's date and files the batch under that date's partition. The aggregator's selector holds that partition's year, month and week.

Each stage's loops are methods proved against the recursive function that specifies them:

- `FetchStockData` (the ticker loop)
- `TransformData` (the record loop)
- `ConvertToParquet` (the file loop with `continue`, renaming a `Frame` in place)

The bucket, HTTP, secrets and clock are parameters:

- an instant or a local date
- a reply per ticker
- the body that was read
- whether a put succeeded

Where the code takes a different policy from the obvious alternative, the model follows the code:

- **Partitioner read failures.** A file that cannot be read aborts the whole conversion loop, because the exception is not caught. Files processed before it stay written. The model's `Convert` returns `aborted` with the puts done so far. A more lenient policy would collect the failures and keep converting. The code aborts instead.
- **Records the normalizer cannot rewrite.** A record lacking `updated` or with a non-numeric `market_cap` fails the whole batch with status 500, and nothing is written. A more lenient policy would skip only that record. The code rejects the batch. The fetcher stores `'N/A'` when a market-cap request fails, so one failed market-cap request makes the normalizer reject that whole batch (`Normalizer.NotAvailableFailsBatch`).
- **Retries.** No stage retries I/O.

## Model

| member | source | states |
|---|---|---|
| Wrappers.MapAll | stock_market_transformation.py:35-42 | the rewrite of a list succeeds exactly when every element's rewrite succeeds; the result then has one entry per input, in input order, entry i being element i's rewrite |
| Wrappers.MapAllAppend | stock_market_transformation.py:35-42 | rewriting a + b is rewriting a, then b, and fails when either part fails |
| Text.ValueOfPadded | stock_market_ninjas_api_to_s3_bucket.py:60 | reading back a zero-padded field gives the number that was padded |
| Text.PaddedValueOf | stock_market_weekly_job_json_to_parquet_partioned.py:27-30 | re-padding the value of a digit field to its width gives the field back |
| Text.ValueOfDecimal | stock_market_weekly_job_json_to_parquet_partioned.py:56 | an unpadded decimal reads back as its number |
| Text.DecimalInjective | stock_market_weekly_job_json_to_parquet_partioned.py:56 | distinct numbers have distinct decimal texts |
| Text.ToLower | stock_market_transformation.py:71 | lower-casing keeps the length and maps each character by itself |
| Text.ReplaceAllAbsent | stock_market_transformation.py:87 | replacing a pattern that does not occur changes nothing |
| Text.ReplaceAllAtEnd | stock_market_weekly_job_json_to_parquet_partioned.py:67 | a pattern occurring only at the end is replaced there and nowhere else |
| Text.ReplaceAll | stock_market_transformation.py:87 | no contract of its own: `str.replace` scanning left to right over non-overlapping occurrences; see `ReplaceAllAbsent`, `ReplaceAllAtEnd`, `ReplaceAllRemovesAll` |
| Text.ReplaceAllPrefixKept | stock_market_transformation.py:87 | the output up to the first character that starts a replacement is the input unchanged |
| Text.ReplaceAllRemovesAll | stock_market_transformation.py:87 | when neither string starts with a character of the other, no occurrence of the pattern is left after replacing |
| Text.Basename | stock_market_weekly_job_json_to_parquet_partioned.py:49 | the last `/`-segment holds no `/`, is a suffix of the key and, when shorter than the key, follows a `/` |
| Text.BasenameAfterSlash | stock_market_weekly_job_json_to_parquet_partioned.py:49 | the last segment of dir + "/" + name is name when name holds no `/` |
| Text.StrLeReflexive | stock_market_generate_aggregated_query.py:14 | the string order on `updated` is reflexive |
| Text.StrLeTotal | stock_market_generate_aggregated_query.py:14 | the string order on `updated` is total |
| Text.StrLeTransitive | stock_market_generate_aggregated_query.py:14 | the string order on `updated` is transitive |
| Text.StrLeConcat | stock_market_generate_aggregated_query.py:14 | strings with equal-length heads compare by head, then by tail |
| Text.PaddedOrder | stock_market_transformation.py:27 | zero-padded fields of one width compare as text exactly as their numbers compare, and are equal exactly when the numbers are |
| Calendar.DaysBeforeYearFormula | stock_market_transformation.py:27 | the days before a year follow the Gregorian closed form 365(y-1) + leap days |
| Calendar.ToOrdinal | stock_market_transformation.py:27 | no contract of its own: the proleptic Gregorian day number, 0001-01-01 being day 1; see `FromToOrdinal`, `ToOrdinalMonotone`, `ToOrdinalInjective`, `EpochOrdinal` |
| Calendar.FromOrdinal | stock_market_transformation.py:27 | every positive day number has a civil date whose day number it is |
| Calendar.FromToOrdinal | stock_market_transformation.py:27 | converting a date to its day number and back gives the date |
| Calendar.ToOrdinalMonotone | stock_market_transformation.py:27 | an earlier date has a smaller day number |
| Calendar.ToOrdinalInjective | stock_market_transformation.py:27 | distinct dates have distinct day numbers |
| Calendar.ValidOrdinalRange | stock_market_transformation.py:27 | a day number names a date in years 1..9999 exactly when it is at most 3652059 |
| Calendar.EpochOrdinal | stock_market_transformation.py:27 | 1970-01-01 is day 719163 |
| Calendar.Weekday | stock_market_ninjas_api_to_s3_bucket.py:61 | the weekday index lies in 0..6, is 0 exactly on a Monday, and counts the days since the Monday that starts the date's week |
| Calendar.WeekdayNext | stock_market_ninjas_api_to_s3_bucket.py:61 | consecutive days have consecutive weekdays, Sunday being followed by Monday |
| Calendar.WeekdayResidue | stock_market_ninjas_api_to_s3_bucket.py:61 | the residue `(ordinal + 6) mod 7` is 0 exactly on a Monday and equals the days since the Monday of the week |
| Calendar.MondayMarch4 | stock_market_ninjas_api_to_s3_bucket.py:61 | 2024-03-04 is day 738949 and a Monday |
| Calendar.DateOfInstantContains | stock_market_ninjas_api_to_s3_bucket.py:57-60 | the civil date of an instant is d exactly when d is a valid date and the instant lies within d's UTC day |
| Calendar.DateOfInstant | stock_market_ninjas_api_to_s3_bucket.py:57-60 | the civil date of a second count since 1970-01-01 UTC is a valid date when there is one; see `DateOfInstantContains`, `DateOfInstantMonotone` |
| Calendar.DateOfInstantMonotone | stock_market_transformation.py:25-27 | a later instant never has an earlier date |
| Calendar.EpochDate | stock_market_transformation.py:27 | instant 0 falls on 1970-01-01 |
| Calendar.DateText | stock_market_ninjas_api_to_s3_bucket.py:60 | the `%Y-%m-%d` text is ten characters: four, two and two digits separated by dashes |
| Calendar.DateTextOrder | stock_market_generate_aggregated_query.py:14 | date texts compare as strings exactly as the dates compare in time, and are equal exactly when the dates are |
| Calendar.Week1Monday | stock_market_weekly_job_json_to_parquet_partioned.py:56 | week 1 of a year starts on the Monday whose Thursday falls in January 1..7 |
| Calendar.Week1MondaySpacing | stock_market_weekly_job_json_to_parquet_partioned.py:56 | an ISO year is 52 or 53 weeks long |
| Calendar.IsoWeekRange | stock_market_weekly_job_json_to_parquet_partioned.py:56 | the ISO week number lies in 1..53 |
| Calendar.IsoWeek | stock_market_weekly_job_json_to_parquet_partioned.py:56 | no contract of its own: `isocalendar()[1]`; see `IsoWeekRange`, `IsoWeekIsThursdayRule` and the worked years |
| Calendar.IsoWeekIsThursdayRule | stock_market_weekly_job_json_to_parquet_partioned.py:56 | a date's ISO week is the week, counted from January 1, of the year holding the Thursday of its Monday-to-Sunday week |
| Calendar.IsoWeekNewYear2024 | stock_market_weekly_job_json_to_parquet_partioned.py:56 | 2024-01-01 is in ISO week 1 |
| Calendar.IsoWeekEndOf2024 | stock_market_weekly_job_json_to_parquet_partioned.py:56 | 2024-12-30 is in ISO week 1 (of 2025) |
| Calendar.IsoWeekNewYear2021 | stock_market_weekly_job_json_to_parquet_partioned.py:56 | 2021-01-01 is in ISO week 53 (of 2020) |
| Fetcher.HourOf | stock_market_ninjas_api_to_s3_bucket.py:63 | the hour of an instant lies in 0..23 |
| Fetcher.SlotRule | stock_market_ninjas_api_to_s3_bucket.py:63-64 | the slot is opening exactly when the shifted instant lies in the first 43200 seconds of its day, closing otherwise, never unknown |
| Fetcher.SlotOf | stock_market_ninjas_api_to_s3_bucket.py:63-64 | no contract of its own: opening before hour 12 of the shifted instant, closing from then on; see `SlotRule` |
| Fetcher.FileName | stock_market_ninjas_api_to_s3_bucket.py:57-66 | a name exists exactly when the instant shifted back five hours is a representable date |
| Fetcher.BatchStemFields | stock_market_ninjas_api_to_s3_bucket.py:60-66 | the stem is the date text, `_`, the three-letter upper-case weekday of that date, `_`, the slot word |
| Fetcher.FileNameShape | stock_market_ninjas_api_to_s3_bucket.py:66 | the name starts with `inbound/`, ends with `.json`, holds the shifted date's text and weekday at fixed places and no `/` after the folder |
| Fetcher.DayNameChars | stock_market_ninjas_api_to_s3_bucket.py:61 | weekday abbreviations are upper-case letters (none of them `P`) |
| Fetcher.BatchStemChars | stock_market_ninjas_api_to_s3_bucket.py:60-66 | a stem holds no `/`, `.` or `P`, and a closing stem holds no `p` |
| Fetcher.FileNameExample | stock_market_ninjas_api_to_s3_bucket.py:57-66 | 2024-03-05 03:00 UTC gives `inbound/2024-03-04_MON_closing.json` |
| Fetcher.DateTextExample | stock_market_ninjas_api_to_s3_bucket.py:60 | 2024-03-04 is spelled `2024-03-04` |
| Fetcher.Decode | stock_market_ninjas_api_to_s3_bucket.py:37-41 | a reply decodes to a body exactly when its status is 200 and it holds JSON, and that body is the reply's own; any other status gives `None`; it raises when the request raised or a 200 body is not JSON |
| Fetcher.MarketCapOf | stock_market_ninjas_api_to_s3_bucket.py:45 | the stored cap is the cap body's `market_cap`, or `N/A` when the body is falsy or lacks it; a truthy non-object raises |
| Fetcher.SymbolRecord | stock_market_ninjas_api_to_s3_bucket.py:36-51 | a ticker yields a record exactly when its price reply is a non-empty 200 object and the cap step does not raise; the record is the price object with `market_cap` set and no other key added |
| Fetcher.FetchStockData | stock_market_ninjas_api_to_s3_bucket.py:30-53 | the loop returns the assembled records of the twenty tickers in list order |
| Fetcher.AssembledAppend | stock_market_ninjas_api_to_s3_bucket.py:35-46 | assembling s + t gives s's records followed by t's: order follows the ticker list |
| Fetcher.AssembledMembers | stock_market_ninjas_api_to_s3_bucket.py:35-51 | a record is assembled exactly when some ticker yields it; at most one record per ticker |
| Fetcher.Assembled | stock_market_ninjas_api_to_s3_bucket.py:35-51 | no contract of its own: the records the ticker loop appends; see `AssembledAppend`, `AssembledMembers`, `AssembledHaveMarketCap`, `AssembledEmpty`, and `FetchStockData` for the loop |
| Fetcher.AssembledHaveMarketCap | stock_market_ninjas_api_to_s3_bucket.py:45-46 | every assembled record has a `market_cap` |
| Fetcher.AssembledEmpty | stock_market_ninjas_api_to_s3_bucket.py:43-48 | when no price request answers 200, nothing is assembled |
| Fetcher.FetchHandler | stock_market_ninjas_api_to_s3_bucket.py:95-115 | an upload stores the assembled records under the batch name of the instant |
| Fetcher.FetchHandlerStatus | stock_market_ninjas_api_to_s3_bucket.py:97-125 | status 200 exactly when the key is present and non-empty, a record assembled, the name computable and the put succeeded; an upload is never empty and sits under `inbound/` as `.json` |
| Normalizer.FormatMarketCap | stock_market_transformation.py:14-23 | a numeric cap formats (others raise), and the scaled figure times its unit is the cap |
| Normalizer.MarketCapUnit | stock_market_transformation.py:16-23 | T exactly from 10^12, B exactly in [10^9, 10^12), M exactly in [10^6, 10^9), no letter below 10^6 |
| Normalizer.MarketCapBillionBoundary | stock_market_transformation.py:18-19 | exactly 10^9 gives 1.00B |
| Normalizer.InstantOf | stock_market_transformation.py:27 | an integer timestamp is its own second; a float one falls in the second of its floor |
| Normalizer.ConvertUnixToDate | stock_market_transformation.py:25-27 | conversion succeeds exactly for numeric timestamps in the date range, and yields a ten-character text |
| Normalizer.ConvertUnixToDateDay | stock_market_transformation.py:25-27 | a timestamp converts to d's text exactly when it lies within d's UTC day |
| Normalizer.ConvertEpoch | stock_market_transformation.py:27 | timestamp 0 gives `1970-01-01` |
| Normalizer.EpochText | stock_market_transformation.py:27 | the epoch date is spelled `1970-01-01` |
| Normalizer.ConvertMonotone | stock_market_transformation.py:25-27 | a later timestamp never gives a text ordered before an earlier one's |
| Normalizer.TransformItem | stock_market_transformation.py:37-40 | a record rewrites exactly when it has a convertible `updated` and a numeric `market_cap` |
| Normalizer.TransformItemFields | stock_market_transformation.py:37-40 | the rewrite adds only `price_type`, replaces `updated` and `market_cap` by their conversions, sets `price_type` to the session and leaves every other field unchanged |
| Normalizer.TransformData | stock_market_transformation.py:29-42 | the loop returns the all-or-nothing rewrite of the list |
| Normalizer.TransformAllPointwise | stock_market_transformation.py:35-42 | the batch fails exactly when some record fails; otherwise output i is the rewrite of input i and lengths agree |
| Normalizer.NotAvailableFailsBatch | stock_market_transformation.py:39 | one `N/A` market cap fails the whole batch |
| Normalizer.TransformAllAppend | stock_market_transformation.py:35-42 | rewriting a + b is rewriting a, then b |
| Normalizer.TransformAll | stock_market_transformation.py:35-42 | no contract of its own: the all-or-nothing rewrite of the batch; see `TransformAllPointwise`, `TransformAllAppend`, `NotAvailableFailsBatch`, and `TransformData` for the loop |
| Normalizer.PriceTypeOf | stock_market_transformation.py:70-77 | opening exactly when the lower-cased key contains `opening`; closing exactly when it contains `closing` but not `opening`; else unknown |
| Normalizer.PriceTypeIgnoresCase | stock_market_transformation.py:71 | the detected session does not depend on the key's letter case |
| Normalizer.DestinationKeyFolder | stock_market_transformation.py:87 | a key under `inbound/` is rewritten to one under `transformed/` |
| Normalizer.DestinationKeyKeepsName | stock_market_transformation.py:87 | when `inbound/` occurs only as the folder, the rest of the key is kept |
| Normalizer.DestinationKey | stock_market_transformation.py:87 | no `inbound/` is left in the destination key |
| Normalizer.NormalizeHandlerStatus | stock_market_transformation.py:44-112 | status 500 exactly when Records, bucket or key is missing, or a key in the folder cannot be read, rewritten or written; a key outside the folder is ignored with 200 |
| Normalizer.NormalizeHandlerWrites | stock_market_transformation.py:84-95 | a write holds the rewritten records with the session detected in the key, under the destination key in `transformed/` |
| Normalizer.NormalizeHandler | stock_market_transformation.py:44-112 | no contract of its own: the handler's outcome for an event, the body read and the put's success; see `NormalizeHandlerStatus`, `NormalizeHandlerWrites`, `NormalizeEmptyBatch` |
| Normalizer.NormalizeEmptyBatch | stock_market_transformation.py:81-95 | a body that iterates to nothing (`[]`, `{}`, `""`) is written back as an empty batch under the destination key |
| Partitioner.JsonKeys | stock_market_weekly_job_json_to_parquet_partioned.py:22 | the filter never lengthens the listing |
| Partitioner.JsonKeysMembers | stock_market_weekly_job_json_to_parquet_partioned.py:22 | a key is kept exactly when it is listed and ends with `.json` |
| Partitioner.JsonKeysAppend | stock_market_weekly_job_json_to_parquet_partioned.py:22 | the filter keeps listing order |
| Partitioner.ExtractDate | stock_market_weekly_job_json_to_parquet_partioned.py:25-35 | a date is returned only for a name starting with the digit pattern that forms a valid date |
| Partitioner.ExtractDateSpelled | stock_market_weekly_job_json_to_parquet_partioned.py:27-30 | a name yielding d starts with d's text |
| Partitioner.ExtractDateOfText | stock_market_weekly_job_json_to_parquet_partioned.py:27-30 | a name starting with a valid date's text yields that date |
| Partitioner.ExtractDateText | stock_market_weekly_job_json_to_parquet_partioned.py:25-35 | a name yields d exactly when d is valid and the name starts with d's text |
| Partitioner.ExtractDateFebruary30 | stock_market_weekly_job_json_to_parquet_partioned.py:29-33 | `2024-02-30_FRI_opening.json` matches the pattern but yields no date |
| Partitioner.ExtractDateAnchored | stock_market_weekly_job_json_to_parquet_partioned.py:27 | `x2024-01-01_MON_opening.json` yields no date: the match is anchored |
| Partitioner.WeekOf | stock_market_weekly_job_json_to_parquet_partioned.py:56 | the partition's week is the date's ISO week, in 1..53 |
| Partitioner.PathOfInjective | stock_market_weekly_job_json_to_parquet_partioned.py:56 | distinct (year, month, week, day) give distinct folders |
| Partitioner.PathOf | stock_market_weekly_job_json_to_parquet_partioned.py:56 | no contract of its own: `parquet/year=Y/month=M/week=W/day=D/` with unpadded decimals; see `PathOfInjective`, `PartitionPathPrefix` |
| Partitioner.PartitionPathInjective | stock_market_weekly_job_json_to_parquet_partioned.py:56 | distinct dates go to distinct partitions |
| Partitioner.PartitionPath | stock_market_weekly_job_json_to_parquet_partioned.py:56 | no contract of its own: the folder of a date's year, month, ISO week and day; see `PartitionPathInjective` and the worked dates |
| Partitioner.PartitionNewYear2024 | stock_market_weekly_job_json_to_parquet_partioned.py:56 | 2024-01-01 goes to year=2024/month=1/week=1/day=1 |
| Partitioner.PartitionEndOf2024 | stock_market_weekly_job_json_to_parquet_partioned.py:56 | 2024-12-30 goes to year=2024/month=12/week=1/day=30 |
| Partitioner.PartitionNewYear2021 | stock_market_weekly_job_json_to_parquet_partioned.py:56 | 2021-01-01 goes to year=2021/month=1/week=53/day=1 |
| Partitioner.ParquetKey | stock_market_weekly_job_json_to_parquet_partioned.py:49-67 | a key has an output key exactly when its basename yields a date |
| Partitioner.ParquetKeyPrefix | stock_market_weekly_job_json_to_parquet_partioned.py:56-67 | every output key lies under `parquet/` |
| Partitioner.PartitionPathPrefix | stock_market_weekly_job_json_to_parquet_partioned.py:56 | a partition folder followed by anything lies under `parquet/` |
| Partitioner.StemName | stock_market_weekly_job_json_to_parquet_partioned.py:49-67 | the basename of dir/stem.json is stem.json, and its parquet name is stem.parquet |
| Partitioner.ParquetName | stock_market_weekly_job_json_to_parquet_partioned.py:67 | no contract of its own: every `.json` in the name made `.parquet`; see `StemName`, `ReplaceAllAtEnd` |
| Partitioner.ParquetKeyOfStem | stock_market_weekly_job_json_to_parquet_partioned.py:49-67 | dir/stem.json with stem starting with d's text goes to d's partition as stem.parquet |
| Partitioner.RenamedColumns | stock_market_weekly_job_json_to_parquet_partioned.py:45-46 | column i of the result is column i renamed, with the same count |
| Partitioner.RenamedColumnsNoExchange | stock_market_weekly_job_json_to_parquet_partioned.py:45-46 | no `exchange` column survives, and each one becomes `stock_exchange` in its place |
| Partitioner.RenamedColumnsAbsent | stock_market_weekly_job_json_to_parquet_partioned.py:45 | without an `exchange` column nothing changes |
| Partitioner.Frame.constructor | stock_market_weekly_job_json_to_parquet_partioned.py:42 | the frame holds the read table's columns and rows |
| Partitioner.Frame.RenameExchange | stock_market_weekly_job_json_to_parquet_partioned.py:45-46 | renaming in place changes the column labels as `RenamedColumns` does and keeps the rows |
| Partitioner.Renamed | stock_market_weekly_job_json_to_parquet_partioned.py:44-46 | the renamed table keeps its rows and column count and has no `exchange` column |
| Partitioner.Convert | stock_market_weekly_job_json_to_parquet_partioned.py:37-70 | a run writes at most one table per file |
| Partitioner.ConvertToParquet | stock_market_weekly_job_json_to_parquet_partioned.py:37-70 | the loop with `continue` and an in-place rename produces exactly the run `Convert` specifies |
| Partitioner.ConvertAppend | stock_market_weekly_job_json_to_parquet_partioned.py:39 | files are handled in order: a run over a + b is a's run, then b's unless a's aborted |
| Partitioner.ConvertWrites | stock_market_weekly_job_json_to_parquet_partioned.py:37-68 | each write goes to the output key of a listed, readable file, holds that file's renamed table, and was accepted |
| Partitioner.ConvertAllSucceed | stock_market_weekly_job_json_to_parquet_partioned.py:39-68 | when every file reads and every put succeeds, the run does not abort and writes once per file with a date |
| Partitioner.RunJob | stock_market_weekly_job_json_to_parquet_partioned.py:72-79 | with no `.json` key listed, nothing is written and nothing aborts |
| Partitioner.RunJobSources | stock_market_weekly_job_json_to_parquet_partioned.py:72-79 | every write comes from a listed `.json` key whose output key it is, and lies under `parquet/` |
| Ranking.SelectorOf | stock_market_generate_aggregated_query.py:6-9 | the selector is the local date's calendar year and month with its ISO week in 1..53 |
| Ranking.SelectorNewYear2021 | stock_market_generate_aggregated_query.py:9 | on 2021-01-01 the queries select year 2021, month 1, week 53 |
| Ranking.PickIsExtremal | stock_market_generate_aggregated_query.py:12-24 | a ticker has a row numbered 1 exactly when it has a selected row of that type, and that row is earliest (opening) or latest (closing) by `updated` |
| Ranking.PickTicker | stock_market_generate_aggregated_query.py:14 | the picked row belongs to the ticker of its window |
| Ranking.Pick | stock_market_generate_aggregated_query.py:12-24 | no contract of its own: the row ROW_NUMBER() numbers 1, ties going to the earlier row of the table; see `PickIsExtremal`, `PickTicker` |
| Ranking.ChangeOf | stock_market_generate_aggregated_query.py:26-31 | the ratio times the opening price is the price change, it is positive exactly when the closing price is above a positive opening price (below a negative one), and the reported figure is its rounded percentage |
| Ranking.Tickers | stock_market_generate_aggregated_query.py:29 | the distinct tickers, each exactly once |
| Ranking.UnselectedRowIgnored | stock_market_generate_aggregated_query.py:16-24 | a row outside the selected year, month and week changes no pick, so it never affects which opening prices are divided by |
| Ranking.ZeroLaterOpeningAccepted | stock_market_generate_aggregated_query.py:14-31 | a zero opening price that is not the earliest opening of its ticker is never a divisor, and the table is accepted |
| Ranking.JoinedFromPicks | stock_market_generate_aggregated_query.py:26-30 | every joined row pairs an extremal opening and an extremal closing row of its ticker, which trades both ways |
| Ranking.JoinedComplete | stock_market_generate_aggregated_query.py:28-30 | every ticker with both an opening and a closing row in the selection is joined |
| Ranking.JoinedUnique | stock_market_generate_aggregated_query.py:28-30 | no ticker is joined twice |
| Ranking.JoinOverHead | stock_market_generate_aggregated_query.py:28-30 | joining over a ticker list adds at most one row, for its first ticker, in front of the rest's join |
| Ranking.JoinOverUnique | stock_market_generate_aggregated_query.py:28-30 | over distinct tickers the joined rows have distinct tickers |
| Ranking.Joined | stock_market_generate_aggregated_query.py:26-30 | no contract of its own: the inner join of the two row-1 picks per ticker; see `JoinedFromPicks`, `JoinedComplete`, `JoinedUnique` |
| Ranking.Filter | stock_market_generate_aggregated_query.py:31 | a joined row is kept exactly when its unrounded ratio has the query's sign |
| Ranking.InsertPermutes | stock_market_generate_aggregated_query.py:32 | inserting adds exactly the new row |
| Ranking.InsertSorted | stock_market_generate_aggregated_query.py:32 | inserting into a sorted list keeps it sorted |
| Ranking.SortSpec | stock_market_generate_aggregated_query.py:32 | sorting gives a sorted permutation |
| Ranking.Limit | stock_market_generate_aggregated_query.py:33 | the first five rows, or all when fewer |
| Ranking.LimitOfSorted | stock_market_generate_aggregated_query.py:32-33 | the first five of a sorted list stay sorted and rank at least as high as every row cut |
| Ranking.RankedSpec | stock_market_generate_aggregated_query.py:26-33 | a result has min(5, qualifying) rows, sorted, drawn from the qualifying joined rows, each ranking at least as high as every qualifying row left out |
| Ranking.RankedMembers | stock_market_generate_aggregated_query.py:26-33 | every result row is a joined row with the query's sign |
| Ranking.Ranked | stock_market_generate_aggregated_query.py:26-33 | no contract of its own: the join filtered, ordered and limited to five; see `RankedSpec`, `RankedMembers`, `RankedDisjoint` |
| Ranking.RankedDisjoint | stock_market_generate_aggregated_query.py:31-56 | no ticker is both a gain and a loss, and a ticker whose closing equals its opening is in neither |
| Ranking.GainKeptBeforeRounding | stock_market_generate_aggregated_query.py:27-31 | a positive ratio qualifies as a gain even when its rounded percentage is 0.00 |
| Ranking.WeeklyReport | stock_market_generate_aggregated_query.py:5-67 | both queries use one selector, the one the handler returns: the local date's calendar year, month and ISO week |
| Ranking.WeeklyReportRows | stock_market_generate_aggregated_query.py:11-30 | every reported row is built from an opening and a closing row of its ticker in the local date's calendar year, calendar month and ISO week |
| Pipeline.PriceTypeOfKey | stock_market_transformation.py:70-77 | the session detected in a batch key of a known slot is that slot |
| Pipeline.PriceTypeOfBatch | stock_market_transformation.py:70-77 | the normalizer detects in the fetcher's batch key (ninjas file, line 66) exactly the slot the fetcher chose |
| Pipeline.DestinationOfBatch | stock_market_transformation.py:87 | the normalizer moves a batch key to `transformed/` keeping the fetcher's file name |
| Pipeline.BatchDateRoundTrip | stock_market_weekly_job_json_to_parquet_partioned.py:25-35 | the partitioner reads back from a batch name exactly the shifted date the fetcher wrote into it |
| Pipeline.ParquetKeyOfBatch | stock_market_weekly_job_json_to_parquet_partioned.py:49-67 | a transformed batch of date d goes to d's partition with `.parquet` for `.json` |
| Pipeline.BatchParquetKey | stock_market_weekly_job_json_to_parquet_partioned.py:49-67 | end to end: a batch fetched at an instant is normalized to a `.json` key that the weekly job writes to the partition of the fetcher's date |
| Pipeline.SelectorMatchesPartition | stock_market_generate_aggregated_query.py:6-9 | the aggregator's selector for a date names that date's partition folder |
| Pipeline.SameSelection | stock_market_generate_aggregated_query.py:9-24 | two dates are selected together exactly when year, month and ISO week agree; days of one ISO week in different months never are |

## Left out

- Network and cloud calls: the object store (list, get, put), notifications, the secrets store and HTTP requests. Their results are parameters: a reply per ticker, the body read, whether a put succeeded, the listing.
- JSON, pandas and Parquet encoding. A record is a map from field name to value, a table is (columns, rows), and a Parquet output is (key, table).
- Wall-clock reads and time zones. The fetcher gets the UTC instant as epoch seconds and applies the fixed five-hour shift, without daylight saving. The aggregator gets its New York local date as a parameter.
- Status bodies, messages and `print` logging. The model keeps only the status code and what is written.
- Normalizer.FormatMarketCap: the digit string that `:.2f` prints is not modelled; the result is the unit letter and the exact scaled real.
- Normalizer.InstantOf: a float timestamp is taken to its floor second; the microsecond rounding of `utcfromtimestamp` near a midnight boundary is not modelled.
- Ranking.ChangeOf: SQL rounding to two places is the parameter `round2`, and double arithmetic is real arithmetic.
- Ranking.Ranked: the precondition `OpeningsNonzero` excludes a table in which a joined ticker's earliest opening price in the selected partition is zero. The query divides by that price, and the result then depends on the column's SQL type, which is not part of this model (a double gives Infinity or NaN, a decimal raises an error). Zero opening prices that are not divisors are allowed (`UnselectedRowIgnored`, `ZeroLaterOpeningAccepted`).
- Ranking.Pick: ties in `ROW_NUMBER` and `ORDER BY` are resolved by table order; the lemmas state only what every resolution satisfies (an extremal row, a sorted permutation, the top five).
- The SQL text itself and its execution engine.
- Calendar.DateText: `%Y` is taken to be zero-padded to four digits; some C libraries print years below 1000 unpadded.
- Text.ToLower: lower-casing and the regex `\d` are modelled on ASCII only; Unicode letters and digits are not.
- Fetcher.Decode: a body is an object or an opaque value known only by its truthiness; JSON arrays, strings and numbers are not told apart.
- Partitioner.Convert: the output-key function is a parameter so that the loop's lemmas hold for any key function; `ConvertToParquet` and `RunJob` use the real `ParquetKey`.
- Object listing pagination: only the single listing response is modelled.
- Partitioner worked examples are stated on the folder components (`PathOf(2024, 1, 1, 1)` and so on), not on the spelled-out path text.
