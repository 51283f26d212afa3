# Price-history analysis of the Steam market parser

This project models `analyze_price_data`, the analysis step of the Steam market
price parser, and proves what it computes. The function takes the raw price history
scraped from a market page: a list of `[timestamp, price, ...]` records, where each
field is a number or a text. It returns either nothing (`None`) or a statistics
dictionary. The steps are:

1. **Normalise each record.**
   - Records with fewer than two fields are skipped.
   - A text timestamp loses the `": +0"` / `": -0"` offset artifact. It is then read
     with the pattern `"%b %d %Y %H"` (month abbreviation, day, year, hour).
   - A text price loses `$`, `€` and `£`, has its commas turned into points, and is read
     as a decimal.
   - A record that fails any of these is skipped on its own.
2. **Fail early.** The result is `None` when there are fewer than two raw records or
   no record survives.
3. **Derive a date for every stored timestamp.** Values above 10,000,000,000 are read
   as milliseconds. A timestamp whose date `datetime` cannot hold is skipped, with a
   warning. If no date at all can be formed, the result is `None`.
4. **Build the series.** Timestamps, prices and dates are zipped into
   `(timestamp, price, date)` triples and sorted stably by date.
5. **Keep the trailing window.** The points dated at most 3 × 365 days before now are
   kept. When that leaves nothing, the whole sorted series is used.
6. **Summarise.** The gaps in minutes between neighbouring points give the average,
   minimum and maximum gap, all 0 when there is no gap. The result also records the
   first and last date, the point count and the windowed series.

The modules follow that pipeline:

| module | file | what it models |
|---|---|---|
| `PriceData` | `price_data.dfy` | raw fields and records, samples, points, the statistics dictionary |
| `CivilTime` | `civil_time.dfy` | the proleptic Gregorian calendar of `datetime`, and the range of instants it can hold |
| `FieldParsing` | `field_parsing.dfy` | the artifact removal, the `"%b %d %Y %H"` reader, the price cleaner and decimal reader |
| `Normalize` | `normalize.dfy` | the normalisation loop and the date loop, as methods, and the functions that specify them |
| `Series` | `series.dfy` | the stable sort by date and the trailing window with its fallback |
| `GapStats` | `gap_stats.dfy` | the gap loop, as a method, and the statistics |
| `Analysis` | `analysis.dfy` | the whole function as a method, the function it is proved against, and the corrected analysis |
| `AnalysisExamples` | `analysis.dfy` | worked examples of the analysis on concrete records |

How the source is represented:

- **The clock.** `datetime.now()` becomes the parameter `now`, in seconds since the
  epoch.
- **Timestamps, prices and dates** are `real` numbers.
  - A date is the instant it stands for, in seconds. Comparing two `datetime` values
    becomes comparing reals.
  - Subtracting two `datetime` values becomes subtracting reals. `total_seconds() / 60`
    becomes a division by 60.
- **Loops.** The three loops are methods with loop invariants. Each is proved equal to
  a function:
  - `CollectSamples` against `Survivors`;
  - `ToDates` against `DatesOf`;
  - `ComputeGaps` against `GapsOf`.
- **The whole function.** `Analysis.AnalyzePriceData` is proved to return exactly
  `Analysis.AnalysisAsWritten`.

The date loop has a flaw, described under "## Findings". The model therefore has two
versions of the analysis:

- `AnalysisAsWritten` is what the code computes.
- `AnalysisOf` drops any sample whose date cannot be formed. The properties of sorting,
  windowing and statistics are proved about `AnalysisOf`.
- `Analysis.AsWrittenAgrees` proves that the two coincide whenever every surviving
  timestamp has a date.
- The order and statistics properties are also proved for the as-written result, in
  `Analysis.AsWrittenStatistics`.

The record count (line 211), whether any record survives (line 249) and whether any date
can be formed (lines 263-265) decide failure, so a single surviving record with a date
yields statistics over one point (`AnalysisExamples.OneSurvivor`).

## Model

| member | source | states |
|---|---|---|
| CivilTime.DaysInMonth | CodeBase/Parser/selenium_parser_script.py:231 | every month has 28 to 31 days, and 29 exactly for February of a leap year, the calendar `strptime` validates the day against |
| CivilTime.InstantRange | CodeBase/Parser/selenium_parser_script.py:259 | the instants `fromtimestamp` accepts run from 0001-01-01 00:00 up to, but not including, 10000-01-01 00:00 |
| CivilTime.EpochIsDayZero | CodeBase/Parser/selenium_parser_script.py:232 | 1970-01-01 is day 0 of the count `timestamp()` measures from |
| CivilTime.NextDayInMonth | CodeBase/Parser/selenium_parser_script.py:232 | consecutive days of a month are consecutive day counts |
| CivilTime.NextMonth | CodeBase/Parser/selenium_parser_script.py:232 | the first day of a month follows the last day of the previous month |
| CivilTime.NextYear | CodeBase/Parser/selenium_parser_script.py:232 | 1 January follows 31 December of the year before, leap rules included |
| CivilTime.NextHour | CodeBase/Parser/selenium_parser_script.py:232 | consecutive hours of a day are 3600 seconds apart |
| FieldParsing.RemoveAllAbsent | CodeBase/Parser/selenium_parser_script.py:230 | `replace` leaves a text that does not contain the pattern's first character unchanged |
| FieldParsing.RemoveAllTrailing | CodeBase/Parser/selenium_parser_script.py:230 | `replace` removes a trailing occurrence of the pattern, and nothing else, from a text that does not contain the pattern's first character |
| FieldParsing.RemoveAllPrefix | CodeBase/Parser/selenium_parser_script.py:230 | `replace` keeps a prefix without the pattern's first character and goes on scanning after it |
| FieldParsing.CleanStampPlain | CodeBase/Parser/selenium_parser_script.py:230 | a text without a colon passes the artifact removal unchanged |
| FieldParsing.CleanStampPlus | CodeBase/Parser/selenium_parser_script.py:230 | a trailing `": +0"` is removed |
| FieldParsing.CleanStampMinus | CodeBase/Parser/selenium_parser_script.py:230 | a trailing `": -0"` is removed, although the first removal scans past it |
| FieldParsing.MonthNumberOfAbbrev | CodeBase/Parser/selenium_parser_script.py:231 | each English abbreviation Jan to Dec (the locale set at lines 23-29) names its month |
| FieldParsing.ScanHourStamp | CodeBase/Parser/selenium_parser_script.py:231 | an accepted text always names an existing date and an hour from 0 to 23 |
| FieldParsing.ScanHourStampShape | CodeBase/Parser/selenium_parser_script.py:231 | an accepted text is three month characters, then whitespace, one or two day digits, whitespace, four year digits, whitespace and one or two hour digits, and nothing else; the stamp holds the month those characters name and the values of the three digit runs |
| FieldParsing.ScanStampLayout | CodeBase/Parser/selenium_parser_script.py:231 | conversely, three characters followed by that layout are accepted exactly when the month, day, year and hour they name form a real date and hour, and then yield those fields |
| FieldParsing.ScanFormatStamp | CodeBase/Parser/selenium_parser_script.py:231 | every date and hour, printed as "Mon DD YYYY HH", is read back to the same fields |
| FieldParsing.NoColonInStamp | CodeBase/Parser/selenium_parser_script.py:230 | a printed stamp contains no colon, so the artifact removal cannot touch it |
| FieldParsing.ParseFormatStamp | CodeBase/Parser/selenium_parser_script.py:231-232 | a printed stamp is read as the instant of its date and hour |
| FieldParsing.ParseStampWithArtifact | CodeBase/Parser/selenium_parser_script.py:228-232 | a printed stamp reads as the same instant with no artifact, with `": +0"` and with `": -0"` |
| FieldParsing.ParseStampExample | CodeBase/Parser/selenium_parser_script.py:228-232 | "Nov 14 2023 22: +0" is read as 1699999200 |
| FieldParsing.ParseStampRejectsWord | CodeBase/Parser/selenium_parser_script.py:228-236 | "bad", which names no month, is rejected, so its record is skipped |
| FieldParsing.CleanPriceText | CodeBase/Parser/selenium_parser_script.py:240 | no currency sign and no comma is left, and the text never grows |
| FieldParsing.CleanPriceChar | CodeBase/Parser/selenium_parser_script.py:240 | on one character, a currency sign is dropped, a comma becomes a point and anything else is kept |
| FieldParsing.CleanPriceAppend | CodeBase/Parser/selenium_parser_script.py:240 | the price cleaning works character by character: cleaning a concatenation cleans its parts |
| FieldParsing.ParseDecimalParts | CodeBase/Parser/selenium_parser_script.py:241 | "digits.digits" reads as the whole part plus the fraction |
| FieldParsing.PriceRoundTrip | CodeBase/Parser/selenium_parser_script.py:238-241 | every price printed as "$D,CC" reads back as its value in dollars |
| FieldParsing.PriceExample | CodeBase/Parser/selenium_parser_script.py:238-241 | "$12,50" reads as 12.5 |
| FieldParsing.ParseDecimalTwoPoints | CodeBase/Parser/selenium_parser_script.py:241 | a text with two decimal points is never a number |
| FieldParsing.ParsePriceCommaAndPoint | CodeBase/Parser/selenium_parser_script.py:238-244 | a price holding a comma and another comma or point is always rejected |
| FieldParsing.ThousandsSeparatorExample | CodeBase/Parser/selenium_parser_script.py:238-244 | "1,234.56" is rejected |
| Normalize.NumericRecord | CodeBase/Parser/selenium_parser_script.py:221-247 | numeric fields pass through unchanged, and fields after the second are ignored |
| Normalize.Survivors | CodeBase/Parser/selenium_parser_script.py:221-247 | there are never more survivors than records |
| Normalize.SurvivorsAppend | CodeBase/Parser/selenium_parser_script.py:221-247 | normalisation works record by record: the survivors of a concatenation are the survivors of its parts |
| Normalize.SkipIsLocal | CodeBase/Parser/selenium_parser_script.py:221-247 | a record that does not normalise is skipped, and the records on both sides are processed as without it |
| Normalize.ShortRecordSkipped | CodeBase/Parser/selenium_parser_script.py:222-224 | a record with fewer than two fields is skipped, and processing continues |
| Normalize.SurvivorsMembership | CodeBase/Parser/selenium_parser_script.py:221-247 | a sample survives exactly when some record normalises to it |
| Normalize.CollectSamples | CodeBase/Parser/selenium_parser_script.py:218-247 | the first loop collects, position by position, the timestamp and price of every surviving record |
| Normalize.DateOfScaling | CodeBase/Parser/selenium_parser_script.py:257-258 | above 10,000,000,000 the date is the timestamp divided by 1000, and otherwise the timestamp itself |
| Normalize.MillisecondExample | CodeBase/Parser/selenium_parser_script.py:257-258 | 1700000000000 and 1700000000 both date to 1700000000 |
| Normalize.DatesOf | CodeBase/Parser/selenium_parser_script.py:254-261 | there are never more dates than timestamps |
| Normalize.DatesOfAll | CodeBase/Parser/selenium_parser_script.py:254-261 | when every timestamp converts, the dates are in step with the timestamps |
| Normalize.DatesOfEmpty | CodeBase/Parser/selenium_parser_script.py:254-265 | no date is collected exactly when no timestamp converts |
| Normalize.DatesOfAppend | CodeBase/Parser/selenium_parser_script.py:254-261 | the date loop works timestamp by timestamp |
| Normalize.DatesOfSkips | CodeBase/Parser/selenium_parser_script.py:255-261 | a timestamp that does not convert leaves no entry, so every later date moves one place to the front |
| Normalize.ToDates | CodeBase/Parser/selenium_parser_script.py:254-261 | the second loop collects the dates of the converting timestamps in order, one per timestamp when all convert |
| Normalize.DatedPoints | CodeBase/Parser/selenium_parser_script.py:254-267 | the corrected pairing never yields more points than samples |
| Normalize.DatedPointsMembership | CodeBase/Parser/selenium_parser_script.py:254-267 | in the corrected pairing, a point is kept exactly when it is the point of a sample whose timestamp converts, with that sample's own date |
| Normalize.DatedPointsEmpty | CodeBase/Parser/selenium_parser_script.py:254-267 | the corrected pairing is empty exactly when no timestamp converts |
| Normalize.DatedPointsAll | CodeBase/Parser/selenium_parser_script.py:254-267 | when every timestamp converts, the corrected pairing keeps every sample |
| Series.Insert | CodeBase/Parser/selenium_parser_script.py:268 | inserting into a sorted series keeps it sorted and adds only the one point |
| Series.SortByDate | CodeBase/Parser/selenium_parser_script.py:268 | the sort yields a series ordered by date that is a permutation of its input |
| Series.InsertWithDate | CodeBase/Parser/selenium_parser_script.py:268 | the inserted point goes ahead of the points with its date, and other dates are unaffected |
| Series.SortByDateStable | CodeBase/Parser/selenium_parser_script.py:268 | the sort is stable: for every date, the points with that date keep their input order |
| Series.SortByDateOfSorted | CodeBase/Parser/selenium_parser_script.py:268 | a series already in date order is left as it is |
| Series.KeepRecent | CodeBase/Parser/selenium_parser_script.py:273 | a point is kept exactly when it is in the series and dated at or after the cutoff |
| Series.KeepRecentAll | CodeBase/Parser/selenium_parser_script.py:273 | when every point is recent, the filter keeps everything |
| Series.KeepRecentSuffix | CodeBase/Parser/selenium_parser_script.py:273 | on a sorted series the kept points are a suffix, and every point before it is older than the cutoff |
| Series.KeepRecentSorted | CodeBase/Parser/selenium_parser_script.py:273 | filtering a sorted series leaves it sorted |
| Series.KeepRecentIdempotent | CodeBase/Parser/selenium_parser_script.py:273 | filtering again with the same cutoff removes nothing more |
| Series.WindowAllRecent | CodeBase/Parser/selenium_parser_script.py:273-277 | when every point is recent, the window is the whole series |
| Series.WindowIdempotent | CodeBase/Parser/selenium_parser_script.py:273-277 | taking the window again with the same cutoff changes nothing |
| Series.WindowCases | CodeBase/Parser/selenium_parser_script.py:273-277 | the window is the recent points, all at or after the cutoff, when any are recent; otherwise it is the whole series; it is never empty for a non-empty series |
| Series.WindowSorted | CodeBase/Parser/selenium_parser_script.py:273-277 | the window of a sorted series is sorted |
| Series.WindowOfSorted | CodeBase/Parser/selenium_parser_script.py:273-277 | the window of a sorted non-empty series is non-empty, sorted and idempotent, and either the recent points or, with none recent, the whole series |
| GapStats.GapsOf | CodeBase/Parser/selenium_parser_script.py:282-287 | N points give N − 1 gaps, and no points give none |
| GapStats.GapsOfAt | CodeBase/Parser/selenium_parser_script.py:282-287 | gap i is the minutes from point i to point i + 1 |
| GapStats.ComputeGaps | CodeBase/Parser/selenium_parser_script.py:282-287 | the third loop yields one gap per neighbouring pair, in order |
| GapStats.GapsNonNegative | CodeBase/Parser/selenium_parser_script.py:282-287 | on a sorted series no gap is negative |
| GapStats.GapsTelescope | CodeBase/Parser/selenium_parser_script.py:282-293 | the gaps add up to the minutes from the first date to the last |
| GapStats.MinOf | CodeBase/Parser/selenium_parser_script.py:294 | `min` returns an element no greater than any other |
| GapStats.MaxOf | CodeBase/Parser/selenium_parser_script.py:295 | `max` returns an element no smaller than any other |
| GapStats.MeanBetweenMinAndMax | CodeBase/Parser/selenium_parser_script.py:293-295 | the mean of the gaps lies between their minimum and maximum, and times the count it is the sum |
| GapStats.MeanTimesCount | CodeBase/Parser/selenium_parser_script.py:293 | the mean times the number of gaps is their sum |
| GapStats.MeanTimes | CodeBase/Parser/selenium_parser_script.py:293 | the mean added up once per gap gives back the sum |
| GapStats.SummarizeGapOrder | CodeBase/Parser/selenium_parser_script.py:289-297 | for two or more sorted points, 0 ≤ min ≤ avg ≤ max |
| GapStats.SummarizeGapSum | CodeBase/Parser/selenium_parser_script.py:289-297 | avg added up N − 1 times (avg × (N − 1), by `GapStats.TimesIsProduct`) is the sum of the gaps, which is the time covered |
| GapStats.SummarizeConsistent | CodeBase/Parser/selenium_parser_script.py:289-297 | the dictionary reports N points, the first and last date and the series itself; the gap figures are 0 below two points, and ordered and summing to the time covered from two points on |
| Analysis.Zip | CodeBase/Parser/selenium_parser_script.py:267 | `zip` is as long as the shortest list, and pairs entries position by position |
| Analysis.SeriesAsWritten | CodeBase/Parser/selenium_parser_script.py:267 | the zipped series has one point per collected date |
| Analysis.AsWrittenShiftsDates | CodeBase/Parser/selenium_parser_script.py:254-267 | when the first timestamp does not convert and every later one does, each stored sample is zipped with the next sample's date, and the last sample is lost |
| Analysis.AsWrittenOfWindow | CodeBase/Parser/selenium_parser_script.py:263-297 | past the early exits, the result is the summary of the window of the sorted zipped series, which is never empty |
| Analysis.AnalyzePriceData | CodeBase/Parser/selenium_parser_script.py:200-300 | the function as written: its result is exactly `AnalysisAsWritten` of the records and the clock |
| Analysis.AsWrittenFailure | CodeBase/Parser/selenium_parser_script.py:211-265 | the result is `None` exactly when there are fewer than two records or no surviving timestamp converts |
| Analysis.AsWrittenStatistics | CodeBase/Parser/selenium_parser_script.py:267-297 | a result's series is the sorted, non-empty window of a permutation of the zipped series, and its statistics agree with it |
| Analysis.AsWrittenAgrees | CodeBase/Parser/selenium_parser_script.py:254-267 | when every surviving timestamp converts, the source's result and the corrected result are equal |
| Analysis.AnalysisFailure | CodeBase/Parser/selenium_parser_script.py:211-265 | the corrected analysis fails exactly when there are fewer than two records or no surviving timestamp converts |
| Analysis.SortedSeriesOrder | CodeBase/Parser/selenium_parser_script.py:267-268 | the sorted series is ordered by date, a permutation of the dated points and stable for every date |
| Analysis.AnalysisSeries | CodeBase/Parser/selenium_parser_script.py:267-278 | the analysed series is sorted and non-empty; it holds only points at or after the cutoff when any exist, and otherwise the whole sorted series; windowing it again changes nothing |
| Analysis.AnalysisPoints | CodeBase/Parser/selenium_parser_script.py:221-268 | every analysed point comes from a record that normalised to its timestamp and price, and carries the date of its own timestamp |
| Analysis.AnalysisStatistics | CodeBase/Parser/selenium_parser_script.py:282-297 | count, start and end date, and the gap figures of a result agree with its series: 0 below two points, ordered and summing to the time covered otherwise |
| AnalysisExamples.PlainPriceExample | CodeBase/Parser/selenium_parser_script.py:238-241 | "10.00" reads as 10 |
| AnalysisExamples.HasDateExamples | CodeBase/Parser/selenium_parser_script.py:255-259 | dates in 2023, given in seconds or milliseconds, convert; 10^15 milliseconds, which is in the year 33658, does not |
| AnalysisExamples.TwoRecordsAnHourApart | CodeBase/Parser/selenium_parser_script.py:200-300 | two records an hour apart, with prices "10.00" and "$12,50", give 2 points and a 60-minute gap, and the source's result equals the corrected one |
| AnalysisExamples.OneSurvivor | CodeBase/Parser/selenium_parser_script.py:211-297 | an unreadable record next to a readable one yields statistics for one point, with all gap figures 0, in the source's result and the corrected one |
| AnalysisExamples.StaleSeriesFallsBack | CodeBase/Parser/selenium_parser_script.py:270-278 | when both points are older than the window, the whole series is analysed, in the source's result and the corrected one |
| AnalysisExamples.MillisecondRecords | CodeBase/Parser/selenium_parser_script.py:255-268 | millisecond records given out of order are stored as given, dated in seconds and sorted by date, in the source's result and the corrected one |
| AnalysisExamples.MisalignedAsWritten | CodeBase/Parser/selenium_parser_script.py:255-267 | as written, a record without a date hands the next record's date to its own price and drops the last record |
| AnalysisExamples.MisalignedCorrected | CodeBase/Parser/selenium_parser_script.py:255-267 | as intended, the same input analyses the two dated records, each with its own date |

## Left out

- Logging through loguru: the calls at lines 212-216, 223, 233-235, 243, 250-253, 261, 264, 271-280 and 299-300, and the sinks at lines 31-38. They do not change the result.
- The locale setup at lines 23-29 is taken as succeeding: month abbreviations are the English ones of the `en_US` and `C` locales.
- The clock: `datetime.now()` at line 270 becomes the parameter `now`.
- Local time. `dt.timestamp()` (line 232) and `fromtimestamp` (line 259) work in the machine's time zone; the model reads every date in UTC. Daylight-saving jumps, which would shift a gap or the cutoff by an hour, are therefore not modelled.
- The range check of `fromtimestamp` is modelled as years 1 to 9999 in UTC. Platform limits of the C library, such as rejecting negative or very large values on some systems or raising `OverflowError`, are not modelled, and neither is the time-zone shift at the two ends of the range.
- Floating point. Prices, timestamps and dates are exact reals. The rounding of `/ 1000`, `/ 60`, `sum / len` and `float()` is not modelled, and neither are the microsecond rounding of `fromtimestamp` or floats at the edge of `datetime`'s range.
- Leniencies of `strptime` and of `float()` beyond the ones modelled: whitespace and digits outside ASCII, a leading or trailing space around a price, exponents, underscores, `inf` and `nan`. Prices are read with the grammar `[+|-]digits[.digits]` (at least one digit); dates use the ASCII whitespace `\s` matches on text (space, tab to carriage return, and the separators 28 to 31) and ASCII digits.
- Field types other than a number or a text, such as `None` or a list. The source passes such a field through the `isinstance` checks at lines 228 and 238 and stores it. As a timestamp, the comparison at line 257 then raises a `TypeError`, which line 260 catches: only its date is dropped, which misaligns the series exactly as in the finding below. As a price, it is carried into the series unchanged. Only a record without a length, at line 222, or one that has a length but cannot be indexed by 0 and 1 (a dictionary or a set, say), at line 226, makes the source raise.
- `price_data` itself being `None` (line 211). An empty list is covered by the record-count check.
- The integer `0` of the gap figures when there is no gap (lines 293-295) is modelled as the real 0.
- The millisecond check at line 257 also applies to timestamps read from a text; this is modelled as written, so a text date from 20 November 2286 on would be divided by 1000.
- FieldParsing.CleanPriceText: its own contract states only that no currency sign or comma is left and that the text never grows. What it does to each character is stated by `FieldParsing.CleanPriceChar`, and `FieldParsing.CleanPriceAppend` extends that to a whole text.
- Browser automation, page scraping and `eval` (lines 41-197), plotting (lines 303-348), CSV export (lines 351-395) and the interactive `main` (lines 398-442): I/O against a web page, a plotting library, the file system and the terminal.
- CodeBase/TBank_API/TBANK_API_script.py is not part of this model: it is a network client for a brokerage API with asynchronous retries and DataFrame output.
- Analysis.AnalysisFailure, Analysis.AnalysisSeries, Analysis.AnalysisPoints and Analysis.AnalysisStatistics are stated about the corrected analysis. They hold for the source's own result wherever every surviving timestamp converts (`Analysis.AsWrittenAgrees`). For the source's result in general, `Analysis.AsWrittenFailure` and `Analysis.AsWrittenStatistics` state the failure condition, the order and the statistics, but not the per-point date property, which the finding below shows to be false.

## Findings

| source | as written | input that shows it | evidently intended | confidence | as-written member | corrected member |
|---|---|---|---|---|---|---|
| CodeBase/Parser/selenium_parser_script.py:255-267 | when `fromtimestamp` raises for a timestamp, only its date is skipped, but the timestamp and price stay in their lists. `zip(timestamps, prices, dates)` then pairs that record's and every later record's timestamp and price with the date of the next record, and drops the last record | records `[1e15, 1.0]`, `[1700000000, 2.0]`, `[1700003600, 3.0]` with now = 1700003600: 10^15 is read as milliseconds, in the year 33658, beyond `datetime`. The result holds `(1e15, 1.0, 1700000000)` and `(1700000000, 2.0, 1700003600)`, and the price 3.0 is lost | a record whose date cannot be formed is skipped whole, like the records normalisation drops, so that every point carries the date of its own timestamp | not executed | AnalysisExamples.MisalignedAsWritten | Analysis.AnalysisPoints |

`Analysis.AnalysisOf` is the corrected analysis. The properties about it are proved in
`Analysis.AnalysisPoints` and the other `Analysis*` lemmas, and its result on the input
above is given by `AnalysisExamples.MisalignedCorrected`. The general form of the
misalignment is `Analysis.AsWrittenShiftsDates`.
