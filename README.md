# Weather observation record-and-query layer, in Dafny

This project models the record-and-query layer of a small weather-tracking app.
The layer exists twice, as near-duplicate Python code: `streamlit_app.py` (lines 17–95)
and `utils.py` (lines 12–122). An observation is one CSV row:
`Date` (`MM-DD-YYYY` text), `Temperature`, `Condition`, `Humidity` and `WindSpeed`.
A table is the rows in file order.

The operations are:

- `generate_weather_data`: a bootstrap year of synthetic rows;
- `load_weather_data`: read the file, or generate when it is missing;
- `record_observation`: append one row and write the file;
- `weather_statistics`: mean, minimum, maximum and most common condition;
- `search_by_date`, `filter_by_month` and `filter_by_season`;
- `record_temperatures`: the first hottest and first coldest row;
- `predict_tomorrow`: mean temperature and most common condition of the last 8 calendar days.

The two copies differ in three ways, and a `Copy` value (`StreamlitApp` or `Utils`) selects the behaviour:

- `np.random.randint` excludes its upper bound, while `random.randint` includes it.
- `utils.py` capitalises the season name before the lookup.
- `utils.py` writes one file per year and takes the year from the date text. `streamlit_app.py` writes one fixed file and always generates 2025.

Files:

- `wrappers.dfy`: `Option`.
- `calendar.dfy`: proleptic Gregorian dates, `timedelta` day stepping, and Python's day ordinal.
- `date_text.dfy`: `strftime("%m-%d-%Y")` and `strptime` on the zero-padded form, proved to be inverses.
- `tables.dfy`: the row type, the six conditions, and boolean-mask selection `df[mask]` with its order and partition laws.
- `counting.dfy`: `Counter(xs).most_common(1)[0][0]` with its first-seen tie-break.
- `queries.dfy`: the read-only queries.
- `generator.dfy`: the bootstrap generator. It is a loop over 365 days. The random draws are inputs.
- `store.dfy`: the CSV files as classes whose methods update them in place. `WeatherCsv` is the single file of `streamlit_app.py`. `DataFolder` holds the per-year files of `utils.py`.

Where the source raises on an empty table, the model returns `None`:

- `most_common(1)[0]` raises IndexError;
- `idxmax` raises ValueError.

Two inputs give an empty selection and raise no error:

- an unknown season name, because `month_map.get(season, [])` yields no months (streamlit_app.py:84, utils.py:109);
- a search text that is not a date (`13-01-2025`), because `df["Date"] == date` is a plain string comparison (streamlit_app.py:77, utils.py:95).

The generator always makes 365 rows. In a leap year it therefore includes 02-29 and ends on 12-30, not 12-31.

## Model

| member | source | states |
|---|---|---|
| `Calendar.NextDayOrdinal` | streamlit_app.py:23 | one `timedelta(days=1)` step keeps a date valid and advances the day ordinal by exactly one, across month and year ends and leap days |
| `Calendar.DaysBeforeNextYear` | utils.py:18 | the ordinal of January 1 advances by 366 across a leap year and 365 otherwise (Gregorian 4/100/400 rule) |
| `Calendar.AddDaysSum` | utils.py:18 | `AddDays` (repeated `timedelta(days=1)`) by `a` and then by `b` is `AddDays` by `a + b` |
| `Calendar.MonthStart` | utils.py:18 | counting the days before month `m` on from January 1 reaches the first of `m` |
| `Calendar.MonthOfDayIndex` | utils.py:19 | the month found for a day index is the one whose day range holds that index |
| `Calendar.DayIndexDate` | streamlit_app.py:20-24 | `start_date + timedelta(days=i)` for `i` within the year is a valid date of that year, in the month `MonthOfDayIndex` gives, with ordinal `Ordinal(Jan 1) + i` |
| `DateText.Format` | streamlit_app.py:45 | the written date is ten characters: two digits, dash, two digits, dash, four digits |
| `DateText.Parse` | utils.py:80 | a text that parses has the `MM-DD-YYYY` dash layout; anything else (bad layout, non-digits, no such day) is the ValueError, `None` |
| `DateText.ParseFormat` | utils.py:80 | reading back a written date gives the same date, so the year read is the year written |
| `DateText.FormatParse` | utils.py:80 | any text that parses is exactly the text `strftime` writes for the parsed date |
| `DateText.FormatInjective` | streamlit_app.py:77 | two dates have the same text exactly when they are the same date |
| `Tables.Filter` | streamlit_app.py:77 | a selection is no longer than the table and holds exactly the rows satisfying the mask |
| `Tables.FilterAppend` | streamlit_app.py:80 | selection distributes over concatenation, so it keeps the rows' relative order |
| `Tables.FilterDisjointUnion` | streamlit_app.py:85 | selecting by the disjunction of two exclusive masks gives, as a multiset, both selections together |
| `Tables.FilterSame` | streamlit_app.py:77 | two masks that agree on the rows select the same rows |
| `Tables.FilterKeepsAll` | streamlit_app.py:85 | a mask true on every row keeps the whole table |
| `Tables.FilterKeepsNone` | streamlit_app.py:85 | a mask false on every row keeps nothing |
| `Counting.FirstIndex` | streamlit_app.py:73 | the first position of an element holds it and no earlier position does |
| `Counting.OccursIffPositive` | streamlit_app.py:73 | an element occurs in the column exactly when its count is positive |
| `Counting.CountElementsCorrect` | streamlit_app.py:73 | `CountElements`, the Counter, holds exactly the column's elements, each with its number of occurrences, keys in first-seen order |
| `Counting.FirstMaxIndex` | streamlit_app.py:73 | `max` over the keys returns a key of greatest count, and every earlier key has a strictly smaller count |
| `Counting.MostCommon` | streamlit_app.py:73 | there is a result exactly when the column is non-empty, and it is one of the column's values |
| `Counting.MostCommonIsFirstMode` | utils.py:90 | the most common element occurs at least as often as any other, and every element first seen before it occurs strictly less often |
| `Counting.FirstModeUnique` | utils.py:90 | the first-seen tie-break determines a single mode |
| `Queries.ArgMax` | streamlit_app.py:88 | `idxmax`: a position of the largest value, with every earlier value strictly smaller |
| `Queries.ArgMin` | utils.py:114 | `idxmin`: a position of the smallest value, with every earlier value strictly larger |
| `Queries.SumBounds` | streamlit_app.py:70 | `n` values in `[lo, hi]` sum to a total in `[n*lo, n*hi]` |
| `Queries.QuotientBetween` | streamlit_app.py:70 | a total in `[n*lo, n*hi]` divided by `n` lies in `[lo, hi]`, and the quotient times `n` is the total |
| `Queries.MeanBounds` | streamlit_app.py:70-72 | the mean of a non-empty column lies between its minimum and its maximum |
| `Queries.WeatherStatistics` | streamlit_app.py:69-74 | there are statistics exactly when the table is non-empty |
| `Queries.StatisticsExtremes` | utils.py:88-89 | the minimum and maximum bound every row's temperature and are each some row's temperature |
| `Queries.StatisticsMean` | streamlit_app.py:70-72 | minimum ≤ mean ≤ maximum, where the mean is the temperature sum over the row count |
| `Queries.StatisticsMode` | streamlit_app.py:73 | the condition returned has the greatest count, the first seen among equally frequent ones |
| `Queries.SearchByDateFindsDate` | streamlit_app.py:76-77 | `SearchByDate` of a date's text selects exactly the rows of that date, in order |
| `Queries.SearchByMalformedDate` | utils.py:94-95 | a query that is not a calendar date matches no row, with no error |
| `Queries.MonthsUpToSelects` | streamlit_app.py:79-80 | the `FilterByMonth` selections for months 1 to `k` together select exactly the rows with month ≤ `k` |
| `Queries.MonthsPartition` | utils.py:98-99 | the twelve month filters together are the whole table, and each row is in exactly the filter of its own month |
| `Queries.SeasonMonths` | streamlit_app.py:83-84 | the lookup gives three months for the four season names and none for any other text |
| `Queries.SeasonIsItsMonths` | streamlit_app.py:82-85 | `FilterBySeason` of a season is the union of its three `FilterByMonth` selections; an unknown name selects nothing |
| `Queries.SeasonNamesAreKeys` | utils.py:109 | capitalising a season name leaves it unchanged |
| `Queries.SeasonFilterByMonths` | utils.py:102-110 | in both copies a season name's filter is the selection of rows whose month is among its three |
| `Queries.MonthInOneSeason` | utils.py:103-108 | every month 1..12 belongs to exactly one season |
| `Queries.SeasonsPartition` | streamlit_app.py:83 | the four season filters together are the whole table |
| `Queries.Capitalize` | utils.py:109 | capitalising keeps the length |
| `Queries.LowerChars` | utils.py:109 | lower-casing is idempotent and ignores a preceding capitalisation |
| `Queries.SeasonNameCasing` | utils.py:109 | a text capitalises to a season name exactly when it equals that name up to letter case |
| `Queries.SeasonFilterIgnoresCase` | utils.py:102-110 | in utils.py any casing of a season name selects that season's rows |
| `Queries.LowerCaseSeasonDiffers` | streamlit_app.py:84 | `"winter"` selects nothing in streamlit_app.py but the winter rows in utils.py |
| `Queries.RecordTemperatures` | streamlit_app.py:87-88 | on a non-empty table, the first row returned is the first row of the highest temperature and the second is the first row of the lowest |
| `Queries.RecordsMatchStatistics` | utils.py:113-114 | the record rows carry the statistics' maximum and minimum |
| `Queries.LatestOrdinal` | streamlit_app.py:91-92 | `df_dates.max()` is at or after every row's date and is some row's date |
| `Queries.LastWeekWindow` | streamlit_app.py:92 | the `LastWeek` window is non-empty, holds a latest-dated row, lies within the 8 days ending on the latest date, and holds every row of that span |
| `Queries.PredictTomorrow` | streamlit_app.py:90-95 | there is a forecast exactly when the table is non-empty |
| `Queries.PredictionTemperature` | utils.py:120 | the forecast temperature is the window's mean and lies between the window's lowest and highest temperature |
| `Queries.PredictionCondition` | utils.py:121 | the forecast condition is the window's most frequent, the first seen on ties |
| `Queries.SingleObservation` | utils.py:86-122 | a one-row table's statistics, record rows and forecast all come from that row |
| `Generator.Width` | streamlit_app.py:26 | a `randint` call can return a positive number of values |
| `Generator.Draw` | utils.py:23 | a drawn value lies in the call's band: `[lo, hi)` for NumPy, `[lo, hi]` for `random` |
| `Generator.DrawCovers` | streamlit_app.py:26 | every value of the band is the outcome of some raw draw |
| `Generator.BucketInterval` | utils.py:35 | each condition's bucket of residues 0..99 is a run as long as its weight, starting at the total weight of the conditions listed before it |
| `Generator.HitsConst` | streamlit_app.py:34 | a run of residues all inside (or all outside) a condition's bucket counts fully (or not at all) for it |
| `Generator.HitsSplit` | utils.py:35 | counting over two adjacent runs of residues adds up |
| `Generator.ConditionShare` | streamlit_app.py:34 | of the 100 residues, each condition is chosen by exactly its weight: 40, 25, 20, 5, 6, 4 |
| `Generator.DayRow` | streamlit_app.py:23-50 | one loop pass (date, season band, noise, condition, humidity band, wind) builds the row `GeneratedRow` gives for that day |
| `Generator.GenerateRows` | streamlit_app.py:17-51 | the loop appends, in order, the 365 rows of `GeneratedTable`; row `i` is built from draw `i` and dated `i` days after January 1 |
| `Generator.GeneratedDates` | utils.py:14-18 | the first row is January 1 of the year; every row is in that year; row `i` has ordinal `Ordinal(Jan 1) + i`, so the dates are strictly increasing with no duplicates |
| `Generator.GeneratedLastDate` | utils.py:17 | the last row is December 31, or December 30 in a leap year |
| `Generator.GeneratedLeapDay` | utils.py:17-18 | February 29 is among the rows exactly when the year is a leap year |
| `Generator.AppTableSpan` | streamlit_app.py:20-23 | the streamlit_app.py table runs from `01-01-2025` to `12-31-2025` |
| `Generator.GeneratedBands` | utils.py:22-47 | before noise, each temperature is in its month's band; humidity is in its condition's band; wind is in `[3, 30)` for NumPy and `[3, 30]` for `random` |
| `Generator.TemperatureBandBySeason` | streamlit_app.py:25-32 | the temperature bands follow the season months of the season filter |
| `Generator.GeneratedYearReadBack` | utils.py:50 | reading a generated row's written date gives back the date, whose year is the generated year |
| `Store.WeatherCsv.constructor` | streamlit_app.py:15 | a file state with the given presence and contents |
| `Store.WeatherCsv.GenerateWeatherData` | streamlit_app.py:51-53 | the generated 2025 table is returned and is now the file's contents |
| `Store.WeatherCsv.LoadWeatherData` | streamlit_app.py:55-59 | an existing file's table is returned unchanged; a missing file is generated, written and returned |
| `Store.WeatherCsv.RecordObservation` | streamlit_app.py:61-67 | the result is the loaded table with exactly one new row at the end, and the file now holds it |
| `Store.DataFolder.constructor` | utils.py:8 | a folder holding the given per-year files |
| `Store.DataFolder.GenerateWeatherData` | utils.py:12-60 | for a year 1..9999 the generated table is returned and written to that year's file, with the other files unchanged; any other year is the `datetime` ValueError, with nothing written |
| `Store.DataFolder.LoadWeatherData` | utils.py:63-68 | an existing year file is returned with nothing written; a missing one is generated and written, or is the ValueError for a year outside 1..9999 |
| `Store.DataFolder.RecordObservation` | utils.py:71-83 | a parsable date gives the input table plus one row at the end, written to the file of the date's `YYYY` year, with the other files unchanged; the row's date text is the given text; an unparsable date is the error with nothing written |
| `Store.SearchAfterRecord` | utils.py:79 | after an append, a date search finds the earlier matches in order, then the new row when its date is the query |
| `Store.RecordedRowFound` | streamlit_app.py:65 | the recorded row is the last row found by searching its own date |
| `Store.StatisticsAfterRecord` | streamlit_app.py:65 | after an append the maximum and minimum move only as far as the new row's temperature |

## Left out

- CSV reading and writing: a file's contents are modelled as the table last written to it. The `to_csv`/`read_csv` round trip is taken as lossless. A malformed file is not modelled.
- `os.makedirs` at import time in `utils.py`, and the file paths themselves: a file is identified by its year, or is the one fixed file.
- Randomness: every `randint`, the Gaussian noise and the weighted condition choice are inputs. A `randint` outcome is `lo + r % width` of a raw draw `r`. The weighted choice takes the raw draw modulo 100 and looks it up in buckets as wide as the weights. The model says which outcomes are possible and how the weights divide the residues, not the probability distributions themselves.
- Generator.GeneratedBands: states bounds only before the noise, because `int(gauss(0, 2))` is unbounded.
- Float arithmetic: the mean is an exact `real`. `round(avg_temp, 1)` in `predict_tomorrow` is not modelled.
- `strptime` also accepts one-digit months and days (`1-5-2025`), space-padded ones (`01- 5-2025`) and non-ASCII digits. The model parses only the zero-padded form, so those texts take the error path here.
- `strftime("%Y")` below year 1000 depends on the platform. Years are written with four digits here.
- `str.capitalize` on non-ASCII letters: only ASCII case mapping is modelled.
- The Streamlit UI and its form ranges (temperature -50..60, humidity 0..100, wind 0..200): `record_observation` itself accepts any values, so they are not preconditions here.
- The image classifier (`weather_model.py` and the image path of `streamlit_app.py`): foreign calls over floating-point tensors.
- Conditions outside the six labels: the condition column holds one of the six labels, as both the generator and the form produce.
- `pd.to_datetime` timestamps: a date is a calendar day, and the window compares day ordinals, which is the same as comparing midnight timestamps.
- Queries.FilterByMonth: does not model the OutOfBoundsDatetime that `pd.to_datetime` raises when a row's date lies before 1677-09-22 or after 2262-04-11 (nanosecond timestamps; `pd.Timestamp.min` is 1677-09-21 00:12:43, so midnight of that day is already out of range); every date of years 1..9999 is selected on. `MonthsUpToSelects` and `MonthsPartition` inherit this.
- Queries.FilterBySeason: does not model the same OutOfBoundsDatetime for rows outside 1677-09-22..2262-04-11; `SeasonIsItsMonths`, `SeasonFilterByMonths` and `SeasonsPartition` inherit this.
- Queries.LastWeek: does not model the same OutOfBoundsDatetime for rows outside 1677-09-22..2262-04-11, nor the one `df_dates.max() - pd.Timedelta(days=7)` raises when the latest date is before 1677-09-29; `LastWeekWindow` inherits this.
- Queries.PredictTomorrow: returns a forecast for every non-empty table, including tables with rows outside 1677-09-22..2262-04-11, where `pd.to_datetime` raises, and tables whose latest date is before 1677-09-29, where subtracting seven days raises. Such rows can reach a table through `generate_weather_data(1500)` or `record_observation(df, "01-01-2300", …)`.
