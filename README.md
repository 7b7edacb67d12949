# COVID-19 Brazil data loading, modelled in Dafny

This project models `LoadData` from the forecasting repository. `LoadData` turns the public Brazilian COVID-19 case feeds into the tables that the epidemic models fit. It has four operations:

- `getBrazilDataFrame`, the national loader. It fills a missing `recovered` with 0 and renames `totalCases`/`newCases`/`deaths` to `confirmed`/`infected`/`dead`. It keeps the rows with `confirmed > min_confirmed` and adds `day`, the whole days since the earliest surviving date of any state. It then renumbers the rows. With `store` set, it writes the table to `<DATA_PATH>/<date of last row>_Brazil_by_day.csv`.
- `getBrazilStateDataFrame`, the state slice. It keeps the rows of one state, drops `state` and renumbers.
- `getBrazilStateCityDataFrame`, the city loader. It keeps one state's rows of the city feed and adds `day` relative to that state's earliest date. It renames the columns and puts them in the order date, state, city, dead, confirmed, day, then renumbers. With `store` set, it writes `<DATA_PATH>/<date of last row>_<state>_cities_by_day.csv`.
- `getBrazilCityDataFrame`, the city slice. It keeps the rows of one city, drops `state` and `city` and renumbers.

The project has four modules, one per file:

- `Frames` (`frames.dfy`) is the slice of pandas the loaders use.
  - A frame is a sequence of rows, each carrying its index label.
  - `df[mask]` is `Where`. It keeps the rows whose mask entry is true, with their labels.
  - Column assignment, rename and projection are `Select`.
  - `reset_index(drop=True)` is `ResetIndex`.
  - `Positions(mask)` is the reference list of the rows a mask selects. The lemmas tie `Where` to it.
- `Calendar` (`calendar.dfy`) models `datetime.date`, the values that `.dt.date` produces.
  - A date is a (year, month, day) triple of the proleptic Gregorian calendar.
  - `<` compares the triples.
  - `(x - y).days` is the difference of the ordinals, computed as CPython does (0001-01-01 is day 1).
  - `Series.min()` is `MinDate`.
  - `str(date)` is the zero-padded `YYYY-MM-DD` text.
  - Dates are kept as dates rather than bare day numbers so that the file name, which spells the date, can be modelled. The day-number view is `Ordinal`.
- `LoadData` (`data_loading.dfy`) holds the records, the two loaders and the two slices.
  - The loaders are methods. They reassign a frame step by step, as the source does: fill and rename, mask, add `day`, renumber, then name the file.
  - Their parameters keep the source's defaults: `minConfirmed := 5` and `store := false` (data_loading.py:15, 78). The fetched feed and the data directory come first, since they take the place of the download and of `ProjectConsts.DATA_PATH`.
  - Each method is proved equal to a row-by-row reference table, `NationalTable` or `CityTable`.
  - The slices are functions over frames.
  - A loader's outcome is either the table, together with the path it would be written to, or `IndexError`. `IndexError` is what `iloc[-1]` raises when `store` is set and the table is empty.
- `LoadDataProperties` (`properties.dfy`) states what the tables mean.
  - Which feed rows survive, and how they map to output rows.
  - What `day` counts.
  - What a slice of a loaded table holds.
  - When the file name carries the latest date.

## Model

| member | source | states |
|---|---|---|
| Frames.FromRows | data_loading.py:34-38 | a freshly read frame holds the given rows in order, labelled 0..n-1 |
| Frames.ResetIndex | data_loading.py:49 | `reset_index(drop=True)` keeps the rows and their order and labels them 0..n-1 |
| Frames.Where | data_loading.py:45 | `df[mask]` (also lines 72, 103 and 133) keeps, in order and with their labels, the rows whose mask entry is true: never more rows than the frame, and the whole frame when every entry is true |
| Frames.Positions | data_loading.py:45 | the selected positions are in range, strictly increasing, all have a true mask entry, and every true entry is listed |
| Frames.PositionsUnique | data_loading.py:45 | any strictly increasing list of exactly the true positions equals `Positions` |
| Frames.WhereIsPicked | data_loading.py:45 | `df[mask]` is exactly the rows at `Positions(mask)`, in order, with their labels |
| Frames.InPositions | data_loading.py:45 | a row is selected if and only if its mask entry is true |
| Frames.NoPositions | data_loading.py:72 | a mask selects nothing if and only if every entry is false |
| Frames.NestedPositions | data_loading.py:72 | filtering an already filtered table is the same as one filter with the conjunction of both conditions |
| Frames.FilterProject | data_loading.py:72-74 | filter, column drop and renumbering: row j of the result is the changed row at the j-th selected position, labelled j |
| Calendar.Ordinal | data_loading.py:47 | `date.toordinal()` as CPython computes it, at least 1 for every date (0001-01-01 is day 1) |
| Calendar.NextDayIsOneDayLater | data_loading.py:47 | the ordinal counts days: the next calendar day is exactly one day later, across month and year ends and leap days |
| Calendar.NextDayFollows | data_loading.py:47 | the next calendar day comes after the date, and no date lies between them |
| Calendar.OrdinalOrder | data_loading.py:47 | date comparison agrees with ordinal comparison, both for `<` and for `==` |
| Calendar.DaysBetween | data_loading.py:47 | `(later - earlier).days` is non-negative if and only if `earlier <= later`, and zero if and only if the dates are equal |
| Calendar.DayOffsets | data_loading.py:46-48 | days counted from a common origin differ by the days between the dates and preserve date order |
| Calendar.MinDate | data_loading.py:47 | `Series.min()` of a non-empty column is one of its dates and is not after any of them |
| Calendar.Decimal | data_loading.py:51 | `str(n)` is a non-empty digit string whose value is `n` |
| Calendar.ZeroPadded | data_loading.py:51 | a zero-padded field has exactly the requested width and spells `n` |
| Calendar.IsoFormat | data_loading.py:51 | `str(date)` is 10 characters with dashes at 4 and 7; its three digit groups spell the year, month and day |
| Calendar.IsoFormatInjective | data_loading.py:51-52 | two dates have the same text if and only if they are equal, so a file name identifies its date |
| LoadData.GetBrazilDataFrame | data_loading.py:34-53 | returns the national reference table labelled 0..n-1; with `store` it names the file after the last row's date; it raises `IndexError` if and only if `store` is set and no row exceeds the threshold |
| LoadData.FillAndRename | data_loading.py:41-43 | `totalCases`, `newCases`, `deaths` reappear as `confirmed`, `infected`, `dead` with their values; a missing `recovered` reads as 0 and a present one is kept, so `recovered` stays non-negative when the feed's is |
| LoadData.AddDay | data_loading.py:46-48 | adding `day` keeps the number of rows, their labels, dates, state, infected, confirmed, dead and recovered; every `day` is non-negative, some row has `day == 0` in a non-empty frame, and two rows' days differ by the days between their dates, so `day` is the days since the frame's minimum date |
| LoadData.NationalTable | data_loading.py:41-49 | the national reference table has exactly one row per feed row above the threshold (its content row by row is `NationalKeepsSurvivors`) |
| LoadData.NationalPath | data_loading.py:51-52 | the national file name is the data directory, `/`, the text of the last row's date (not the latest date), then `_Brazil_by_day.csv`, each at a fixed position |
| LoadData.NationalSteps | data_loading.py:40-49 | the loader's fill/rename, mask, `day` and renumbering steps produce exactly the national reference table |
| LoadData.NationalFiltered | data_loading.py:41-45 | the mask step keeps, in order, the filled and renamed feed rows at the surviving positions |
| LoadData.NationalDated | data_loading.py:46-48 | adding `day` from the minimum date of the survivors gives the rows of the national reference table |
| LoadData.SurvivorsFirstDate | data_loading.py:47 | the minimum date of the filtered frame is the earliest date among the feed rows above the threshold |
| LoadData.NoSurvivors | data_loading.py:45 | no row survives if and only if no feed row has `totalCases > min_confirmed` |
| LoadData.GetBrazilStateDataFrame | data_loading.py:72-75 | the slice holds, in order and labelled 0..n-1, the rows with `state == S` with every other field unchanged; it is empty if and only if no row has that state |
| LoadData.GetBrazilStateCityDataFrame | data_loading.py:97-114 | returns the state's city reference table labelled 0..n-1; with `store` it names the file after the last row's date and the state; it raises `IndexError` if and only if `store` is set and the state has no rows |
| LoadData.ShapeCityRows | data_loading.py:104-109 | keeps the number of rows, their labels, dates, state and city, with `dead` from `deaths` and `confirmed` from `totalCases`; every `day` is non-negative, some row has `day == 0` in a non-empty frame, and two rows' days differ by the days between their dates, so `day` is the days since the frame's minimum date |
| LoadData.CityTable | data_loading.py:103-110 | the city reference table has exactly one row per feed row of the state (its content row by row is `CityTableKeepsStateRows`) |
| LoadData.CityPath | data_loading.py:112-113 | the city file name is the data directory, `/`, the text of the last row's date (not the latest date), then `_`, the state and `_cities_by_day.csv`, each at a fixed position |
| LoadData.CitySteps | data_loading.py:102-110 | the loader's state mask, `day`, rename, column order and renumbering produce exactly the city reference table |
| LoadData.CityFiltered | data_loading.py:103 | the state mask keeps, in order, the feed rows at that state's positions |
| LoadData.CityShaped | data_loading.py:104-109 | adding `day` from the state's minimum date and reshaping gives the rows of the city reference table |
| LoadData.StateRowsFirstDate | data_loading.py:105 | the minimum date of the state's frame is the earliest date among that state's feed rows |
| LoadData.NoStateRows | data_loading.py:103 | a state has no rows if and only if no feed row carries that state |
| LoadData.GetBrazilCityDataFrame | data_loading.py:133-136 | the slice holds, in order and labelled 0..n-1, the rows with `city == C` with date, dead, confirmed and day unchanged; it is empty if and only if no row has that city |
| LoadDataProperties.NationalKeepsSurvivors | data_loading.py:41-49 | a feed row survives if and only if `totalCases > min_confirmed`; survivors keep feed order; every result row has `confirmed > min_confirmed`; `recovered` is 0 where missing and otherwise the feed value; the other fields pass through under the new names |
| LoadDataProperties.NationalDays | data_loading.py:46-48 | national `day >= 0`; some row has `day == 0` when the table is non-empty; two rows' days differ by the days between their dates; `day` is monotone in date |
| LoadDataProperties.StateSliceOfNationalTable | data_loading.py:72-74 | a state slice of the national table is exactly that state's feed rows above the threshold, in feed order: date, infected, confirmed, dead and recovered (0 where missing) come from the feed row, and `day` is still counted from the earliest date of all states |
| LoadDataProperties.StateSliceRows | data_loading.py:72-74 | row j of the state slice is the national row built from the j-th feed row of that state above the threshold, without `state` |
| LoadDataProperties.StateSliceMayStartAfterDayZero | data_loading.py:72-74 | with SP on 2020-02-26 and RJ on 2020-03-05, the RJ slice has one row and its first `day` is 8, not 0 |
| LoadDataProperties.TwoStatesFirstDate | data_loading.py:47 | in that two-state feed, the minimum date of all survivors is SP's 2020-02-26 |
| LoadDataProperties.RioExample | data_loading.py:41-49 | an RJ row with 3 confirmed cases is dropped at threshold 5; the row with 50 survives on day 0 with its missing `recovered` read as 0 |
| LoadDataProperties.CityTableKeepsStateRows | data_loading.py:103-110 | the city table holds every feed row of the state and no other, whatever its counts, in feed order, under the new column names |
| LoadDataProperties.CityDays | data_loading.py:104-106 | city `day >= 0`; some row has `day == 0` when the table is non-empty; days differ by the days between dates; `day` is monotone in date |
| LoadDataProperties.CitySliceOfCityTable | data_loading.py:133-136 | a city slice of a state's city table is exactly that state's feed rows of the city, in feed order, with `day` counted from the state's earliest date |
| LoadDataProperties.NationalPathNamesLatestDate | data_loading.py:51-52 | when the feed is in date order, the last row, whose date names the national file, has the latest date of the table |
| LoadDataProperties.CityPathNamesLatestDate | data_loading.py:112-113 | when the city feed is in date order, the last row, whose date names the city file, has the latest date of the table |
| LoadDataProperties.NationalPathUsesLastRow | data_loading.py:51-52 | from a feed listing 2020-03-10 before 2020-03-01, the national table's file is named after its last row's date 2020-03-01, whose text differs from that of the table's latest date |

## Left out

- Fetching the two feeds over HTTP with `pd.read_csv` (data_loading.py:34-38, 97-100). The fetched rows are the loaders' input, and `usecols` is reflected in the feed row types.
- Writing the CSV with `to_csv` (data_loading.py:52, 113). Only the path it would be written to is modelled.
- Date parsing with `pd.to_datetime(...).dt.date` (data_loading.py:40, 102). Feed rows already carry valid `datetime.date` values.
- pandas dtypes. `downcast="int64"` is not modelled, and the only NaN handled is a missing `recovered`. Counts are unbounded integers.
- Column order of the national table. `read_csv` keeps the feed file's header order, which is not part of this model; the record fields are named, not ordered. The city table's order (date, state, city, dead, confirmed, day) is the order of `CityRecord`'s fields.
- `ProjectConsts.DATA_PATH`. proj_consts.py does not define it, so the source's `store=True` would raise `AttributeError`. The data directory is a parameter `dataPath` instead.
- The population constants and feed URLs of proj_consts.py. They carry no behaviour.
- The file name uses the date of the last row (`iloc[-1]`), as the code does, not "the latest date". `NationalPathNamesLatestDate` and `CityPathNamesLatestDate` show the two agree on date-ordered feeds. `NationalPathUsesLastRow` shows they can differ otherwise.
- Concrete spellings such as `str(date(2020, 4, 1)) == "2020-04-01"` are not stated as literal strings. `IsoFormat`'s contract gives the spelling digit group by digit group, and `IsoFormatInjective` shows that the text determines the date.
- Calendar.MinDate: models `Series.min()` only on a non-empty column. The loaders reach it only when rows survive; on an empty frame `apply` never calls it.
