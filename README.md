# Order-table statistics, modelled in Dafny

This project models `src/routes/data-analyzer.ts` of a small e-commerce sales dashboard. The file reads a table of
order lines exported as CSV. It computes the statistics the dashboard shows:

- total sales and total fees;
- how often each item was ordered, ranked, optionally cut to a top `k` plus an "Other" entry;
- a dense time series of sales and item counts per day, month or year, with zero entries for empty buckets;
- the number of different days;
- the most expensive order line, and the day with the most sales and the day with the most items;
- the age in days of the oldest line;
- the formatting of a date as "5 March 2024";
- the normalisation of EST timestamps to UTC.

Modelling choices:

- **Dates** are integer millisecond timestamps (UTC). Money is integer cents.
- **Bucket keys.** `dateToString` becomes an integer bucket key, so that the walk's `incrementDate` is `+ 1`:
  - the day number for daily buckets;
  - `year * 12 + month` for monthly buckets;
  - the year for yearly buckets.
  The calendar date of a day number is computed with the usual days-to-civil algorithm (`Rows.CivilFromDays`).
- **Key order.** The key order of a JavaScript `Map` or object is first-seen order (`Seqs.Distinct`, `Seqs.FirstSeen`).
- **Sort.** `Array.prototype.sort` is a stable sort, modelled as a stable insertion sort (`Occurrences.SortByCountDesc`).
- **Imperative code.** Each loop of the source is a Dafny method with loop invariants, proved against a specification
  function:
  - the accumulators;
  - the dictionary fill;
  - the bucket map fill and the walk;
  - the running-maximum scans;
  - the in-place rewrite of the rows array.
  The properties the code promises are proved about those functions as lemmas.

Modules:

| module | file | models |
|---|---|---|
| `Seqs` | seqs.dfy | counting, first-seen order, sums, shared by the rest |
| `Rows` | rows.dfy | `CsvRow`, day numbers, calendar dates, `dateToString` as a key |
| `Normalize` | normalize.dfy | `reformatDates` |
| `Totals` | totals.dfy | `getTotalSales`, `getTotalFees`, `getLastItemDayDifference`, `countDifferentDays` |
| `Occurrences` | occurrences.dfy | `countItemOccurrences` |
| `Buckets` | buckets.dfy | `getPriceSumAndItemCount` |
| `Peaks` | peaks.dfy | `getMostExpensiveItem`, `getMostSalesInOneDay`, `getMostItemsSoldInOneDay` |
| `DateFormat` | dateformat.dfy | `formatDate` |

## Model

| member | source | states |
|---|---|---|
| Normalize.ReformatDates | src/routes/data-analyzer.ts:18-31 | rewrites the given array in place so that every row's date is five hours later (EST to UTC), and returns the same array |
| Normalize.ShiftedRoundTrip | src/routes/data-analyzer.ts:22-27 | moving every date back by five hours gives the table that was read, so the rewrite loses nothing |
| Normalize.ShiftedKeepsColumns | src/routes/data-analyzer.ts:21-28 | only dates change: names, prices and fees are unchanged, so totals and occurrence counts are too |
| Normalize.ShiftedKeepsOrder | src/routes/data-analyzer.ts:21-28 | the table is newest-first after the rewrite exactly when it was newest-first before |
| Normalize.ShiftedDays | src/routes/data-analyzer.ts:25 | each timestamp moves by exactly 18 000 000 ms, so its UTC day moves forward by zero or one |
| Occurrences.CountNames | src/routes/data-analyzer.ts:39-44 | the dictionary loop: the key order is the first-seen order of the names, and the map is the count map of all rows |
| Occurrences.CountMapMeaning | src/routes/data-analyzer.ts:41-44 | after `n` rows, a name is a key exactly when it occurs among them, and its value is its number of occurrences |
| Occurrences.DictionaryEntries | src/routes/data-analyzer.ts:39-46 | `Object.entries` of the filled dictionary is every name once, in first-seen order, with its count |
| Occurrences.CountItemOccurrences | src/routes/data-analyzer.ts:38-59 | returns the ranking: the entries stably sorted by descending count, cut to the limit with an "Other" entry when counts were cut; its counts add up to the number of rows |
| Occurrences.EntriesMeaning | src/routes/data-analyzer.ts:39-46 | an entry is in the list exactly when its name occurs in the rows and its count is that name's number of rows; names are all different and come in first-seen order; counts add up to the number of rows |
| Occurrences.SortByCountDesc | src/routes/data-analyzer.ts:47 | the stable sort by descending count keeps the number of entries; `SortPermutation`, `SortSorted` and `SortStable` state that it is a permutation, ordered by non-increasing count, with equal counts in input order |
| Occurrences.SortPermutation | src/routes/data-analyzer.ts:47 | the sort only reorders its input (same multiset) |
| Occurrences.SortSorted | src/routes/data-analyzer.ts:47 | the sorted entries are by non-increasing count |
| Occurrences.SortStable | src/routes/data-analyzer.ts:47 | for every count, the entries with that count come out in the order they went in |
| Occurrences.SortNamesDistinct | src/routes/data-analyzer.ts:47 | sorting entries whose names differ keeps them different |
| Occurrences.SortCountSum | src/routes/data-analyzer.ts:47 | sorting keeps the total count |
| Occurrences.RankingUnlimited | src/routes/data-analyzer.ts:38-47 | without a limit, or with a negative one, the result has one entry per distinct name, each with its number of rows, names all different, by non-increasing count, equal counts in first-seen order |
| Occurrences.RankingLimited | src/routes/data-analyzer.ts:49-55 | with a limit `k >= 0` the result starts with the first `k` sorted entries; exactly when entries were cut, one more entry ("Other", sum of the cut counts) follows; length at most `k + 1` |
| Occurrences.SortedPositive | src/routes/data-analyzer.ts:41-47 | every sorted entry counts at least one row, so "Other" is added exactly when something was cut |
| Occurrences.CutTotal | src/routes/data-analyzer.ts:50-55 | cutting the sorted list and appending the "Other" entry keeps the total count |
| Occurrences.RankingTotal | src/routes/data-analyzer.ts:38-59 | with or without a limit, the counts of the result add up to the number of rows |
| Totals.GetTotalSales | src/routes/data-analyzer.ts:67-75 | the loop returns the sum of all prices |
| Totals.GetTotalFees | src/routes/data-analyzer.ts:83-91 | the loop returns the sum of all fees |
| Totals.TotalsAppend | src/routes/data-analyzer.ts:67-91 | the totals of two tables put together are the sums of their totals |
| Totals.LastItemDayDifference | src/routes/data-analyzer.ts:99-106 | the result is the number of whole days from the last row's timestamp to `now`, rounded down (`days * 86400000 <= now - t < (days + 1) * 86400000`) |
| Totals.LastItemIsOldest | src/routes/data-analyzer.ts:94-106 | for newest-first rows no row lies more whole days before `now` than the last one |
| Totals.CountDifferentDays | src/routes/data-analyzer.ts:114-125 | the set loop returns the number of different UTC days among the rows |
| Totals.DifferentDaysBounds | src/routes/data-analyzer.ts:114-125 | there are no more days than rows, and at least one day for a non-empty table |
| Totals.DifferentDaysSnoc | src/routes/data-analyzer.ts:117-122 | one more row adds one day exactly when no earlier row is on its day |
| Rows.DayNumber | src/routes/data-analyzer.ts:119 | the day number of a timestamp is the day whose 24 hours contain it |
| Rows.CivilFromDays | src/routes/data-analyzer.ts:139-145 | the calendar date of a day number has month 1..12 and day 1..31 |
| Rows.CivilFromDaysExample | src/routes/data-analyzer.ts:139-145 | day 19787 is 5 March 2024 |
| Rows.BucketKeyExample | src/routes/data-analyzer.ts:136-147 | a timestamp on 5 March 2024 is in day bucket 19787, month bucket March 2024 and year bucket 2024 |
| Rows.KeysAt | src/routes/data-analyzer.ts:171-173 | the key of row `i` is `dateToString` of its date for the chosen aggregation |
| Rows.KeyOfMeaning | src/routes/data-analyzer.ts:136-147 | the bucket of a timestamp: for daily buckets the UTC day whose 24 hours hold it; for monthly buckets `year * 12 + month` of that day, whose quotient and remainder by twelve are the year and the month 0..11; for yearly buckets the year |
| Rows.MonthCountMonotone | src/routes/data-analyzer.ts:141-142 | a later day never has an earlier `YYYY-MM` month |
| Rows.BucketKeyMonotone | src/routes/data-analyzer.ts:136-147 | for every aggregation, a later timestamp never has an earlier bucket |
| Rows.TimeOrderGivesKeyOrder | src/routes/data-analyzer.ts:136-147 | rows ordered newest-first by timestamp are newest-first by day, by month and by year, so the lemmas below that assume newest-first keys hold for tables sorted by date |
| Buckets.Accumulate | src/routes/data-analyzer.ts:171-182 | a bucket's item count is the number of rows with its key, and its price sum is zero when there are none |
| Buckets.AccumulatePriceSum | src/routes/data-analyzer.ts:175-179 | a bucket's price sum is the sum of the prices of the rows with its key |
| Buckets.BucketMapMeaning | src/routes/data-analyzer.ts:171-182 | after `n` rows, the map holds a bucket for exactly the keys seen so far, in first-seen order, and each bucket accumulates exactly the rows with its key |
| Buckets.FillBuckets | src/routes/data-analyzer.ts:171-182 | the first loop leaves the map and its key order as `BucketMap` and `FirstSeen` describe |
| Buckets.WalkStartIsNewest | src/routes/data-analyzer.ts:184 | the walk starts at the key inserted last: a key of a row, after whose first occurrence every row repeats an earlier key |
| Buckets.WalkEnd | src/routes/data-analyzer.ts:185 | the walk ends at the key inserted first, the key of the first row |
| Buckets.WalkBuckets | src/routes/data-analyzer.ts:184-205 | the walk from the last-inserted key to the first-inserted key emits the dense series: consecutive keys, zeros for absent keys, the bucket's sums otherwise |
| Buckets.GetPriceSumAndItemCount | src/routes/data-analyzer.ts:134-208 | returns the dense series of the rows' keys and prices |
| Buckets.SeriesOf | src/routes/data-analyzer.ts:184-207 | the three returned arrays have the same length, the number of walked keys |
| Buckets.SpanOfNonIncreasing | src/routes/data-analyzer.ts:184-205 | for non-increasing keys, the walk covers every key from the last to the first, one at a time |
| Buckets.NewestFirstSpan | src/routes/data-analyzer.ts:184-205 | for non-empty rows whose keys are newest-first (as they are for rows newest-first by timestamp) the dates run from the oldest row's bucket to the newest row's bucket, each one more than the one before |
| Buckets.EveryRowInOneBucket | src/routes/data-analyzer.ts:171-205 | for non-empty rows whose keys are newest-first (as they are for rows newest-first by timestamp) every row's bucket appears in the series exactly once |
| Buckets.BucketsCountRows | src/routes/data-analyzer.ts:193-202 | each item count is the number of rows with that key; an empty bucket has price sum zero |
| Buckets.SeriesTotals | src/routes/data-analyzer.ts:171-205 | for non-empty rows whose keys are newest-first (as they are for rows newest-first by timestamp) the item counts add up to the number of rows and the price sums to the total price, the value of `getTotalSales` |
| Buckets.AscendingWalk | src/routes/data-analyzer.ts:184-189 | for rows in ascending order the series is empty when the first and last rows' buckets differ, and has one entry when they are equal |
| Peaks.FirstMax | src/routes/data-analyzer.ts:231-235 | the position of the first greatest value among the first `n`: no value is greater, and every earlier one is smaller |
| Peaks.GetMostExpensiveItem | src/routes/data-analyzer.ts:228-238 | `None` for an empty table; otherwise a row of the table, no row has a greater price and every earlier row has a smaller price |
| Peaks.GetMostSalesInOneDay | src/routes/data-analyzer.ts:245-256 | as written: `None` for an empty series; otherwise the first greatest price sum, with its day, among the first `min(rows, days)` days |
| Peaks.GetMostItemsSoldInOneDay | src/routes/data-analyzer.ts:263-273 | as written: `None` for an empty series; otherwise the first greatest item count, with its day, among the first `min(rows, days)` days |
| Peaks.ScanBoundPositive | src/routes/data-analyzer.ts:249 | a non-empty daily series comes from a non-empty table, so the scans look at one day at least |
| Peaks.MostSalesInOneDay | src/routes/data-analyzer.ts:239-256 | the day of greatest price sum over the whole series, the first such day |
| Peaks.MostItemsSoldInOneDay | src/routes/data-analyzer.ts:258-273 | the day of most rows over the whole series, the first such day |
| Peaks.MostSalesBoundsEveryRowDay | src/routes/data-analyzer.ts:245-256 | for rows whose days are newest-first no row's day has a greater price sum than the peak |
| Peaks.MostItemsBoundsEveryRowDay | src/routes/data-analyzer.ts:263-273 | for rows whose days are newest-first no row's day has more rows than the peak |
| Peaks.ScansAgreeWhenSeriesFits | src/routes/data-analyzer.ts:249-253 | when the series is no longer than the table, the scans as written return the peaks over the whole series |
| Peaks.ScanStopsBeforeLastDay | src/routes/data-analyzer.ts:249-253 | rows on days 3, 3 and 0: the scans as written report day 0, while day 3 has the greater sales and more rows |
| DateFormat.FormatDate | src/routes/data-analyzer.ts:215-221 | "day month year" with the month's English name |
| DateFormat.FormatRoundTrip | src/routes/data-analyzer.ts:215-221 | parsing a formatted date gives back its day, month index and year, so different dates format differently |
| DateFormat.IntRoundTrip | src/routes/data-analyzer.ts:220 | a printed integer reads back as itself and contains no space |
| DateFormat.NatRoundTrip | src/routes/data-analyzer.ts:220 | a printed natural number is all digits and reads back as itself |
| DateFormat.MonthIndexOfName | src/routes/data-analyzer.ts:216-218 | the twelve month names are different, so a name gives its month index back |
| DateFormat.FormatDateExample | src/routes/data-analyzer.ts:215-221 | day 5, month 2 and year 2024 format as "5 March 2024" |
| DateFormat.FormatDayExample | src/routes/data-analyzer.ts:215-221 | day number 19787 formats as "5 March 2024" |

## Left out

- Parsing the date strings of the CSV file (`new Date(...)`) and printing them with `toISOString` are not modelled. Rows carry an integer UTC timestamp, and bucket keys are integers. For years 0000 to 9999 they correspond one to one to the `YYYY-MM-DD`, `YYYY-MM` and `YYYY` strings. The series' `dates` are these integer keys, not strings.
- `incrementDate` uses local-time setters (`setDate`, `setMonth`, `setFullYear`); the model steps keys by one in UTC. Daylight-saving and time-zone effects of the host are not modelled.
- Normalize.ReformatDates: the source adds five hours with local-time `setHours`; the model adds exactly 18 000 000 ms, which is what that does outside daylight-saving transitions.
- DateFormat.FormatDate: takes the day of the month, the month index 0..11 and the year directly; the local-time accessors `getDate`, `getMonth` and `getFullYear` are not modelled, and `DateFormat.FormatDay` reads them in UTC.
- Sums are exact integers in cents. Floating-point addition and the `parseFloat(x.toFixed(2))` rounding of totals and price sums are not modelled.
- Totals.LastItemDayDifference: the wall clock `new Date()` is the parameter `now`. The table must not be empty, because the source reads its last row.
- Peaks.GetMostExpensiveItem, Peaks.GetMostSalesInOneDay, Peaks.GetMostItemsSoldInOneDay: `getMostExpensiveItem` returns `undefined` for an empty table, and the two daily scans return an object of `undefined` fields whenever the daily series is empty; the model returns `None` in both cases. The daily series is empty for an empty table, and also for rows that run oldest-first over two or more days, where the walk's start lies after its end (days 0 then 3 give keys [0, 3]).
- `Object.entries` lists integer-like keys first, in numeric order. The model uses first-seen order for all names. In limited output, an item really named "Other" can appear twice; the model makes no uniqueness claim there.
- The fields `sku`, `orderid`, `status` and `net` of `CsvRow` are never read and are not modelled.
- Invalid dates (`NaN` timestamps) are not modelled.
- Rows.KeyOf: outside the years 0000 to 9999, `toISOString` writes the year as a sign and six digits (`+010000-01-01T…`), so the source's `substr(0, 7)` and `substr(0, 4)` give strings like `+010000` and `+010` that are not months or years; the model's keys stay the true month and year there. Timestamps beyond 8.64e15 ms either side of the epoch make `toISOString` throw; the model has no such limit.
- Occurrences.CountItemOccurrences: names that are properties of `Object.prototype` are not modelled, because the source counts into a plain object `{}`. A row named `__proto__` sets the prototype instead of a count and is dropped from the entries. Names such as `constructor`, `toString` or `valueOf` start from an inherited function, so their count becomes a string, the sort comparator sees `NaN` and the "Other" sum concatenates strings. The model counts every name from zero, so its claims (and `Occurrences.RankingTotal`) hold for tables without such names.
- Normalize.ReformatDates: the rows of the array are values in the model; the aliasing of the row objects between the input and other holders is not modelled, only the array's contents.
- The sort algorithm of the JavaScript engine is not modelled; only the promised result of a stable sort is.
- Rows.CivilFromDays: its contract gives only the month and day ranges, and `Rows.CivilFromDaysExample` proves one date, 5 March 2024; its agreement with the Gregorian calendar on every day is not proved.

## Findings

| source | as written | input that shows it | evidently intended | confidence | as-written member | corrected member |
|---|---|---|---|---|---|---|
| src/routes/data-analyzer.ts:249, src/routes/data-analyzer.ts:267 | the scans of `getMostSalesInOneDay` and `getMostItemsSoldInOneDay` stop at `data.length`, the number of rows, not at the length of the daily series; days beyond the row count are never compared | three rows on days 3, 3 and 0 (newest first): the series has four days, the scans read days 0..2 and report day 0 (sales 100, 1 item), while day 3 has sales 900 and 2 items | scan the whole daily series, loop bound `dataDaily[0].length` | not executed | Peaks.ScanStopsBeforeLastDay | Peaks.MostSalesInOneDay |
