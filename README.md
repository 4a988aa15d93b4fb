# Feature-vector stage of the PV fault pipeline, in Dafny

This project models `src/create_feature_vectors.py`. That stage of the
photovoltaic shading/soiling pipeline turns each plant's differences file (one
row per timestamp) into two per-day feature tables:

- **`normalize_dataframe`** rescales every numeric column of a frame to
  [0, 1] in place. A column whose range is zero becomes 0.0 throughout.
- **`create_shading_features`** groups a plant's readings by calendar date.
  For each date it computes nine features: energy yield, peak power, spread
  of the PV step series, hour of the largest step, morning/afternoon ratio,
  and the spreads of the four MPP currents and voltages. It then normalises
  the table and writes it.
- **`create_pollution_features`** aggregates each date with a fixed
  dictionary of sums, means, stds, maxima and minima, and flattens the column
  names. It appends a 30-row rolling mean of `Difference_mean` that needs at
  least 15 present values, drops every row holding a NaN, normalises, and
  writes the result.

Both drivers loop over the plants' files. They skip a plant whose output file
already exists, or whose file is unreadable, lacks a required column, is
empty, or yields no feature rows. Every other plant is unaffected.

Layout:

- `wrappers.dfy`: `Option`. A NaN cell is `None`.
- `stats.dfy`: pandas reductions that skip NaN: count, sum, mean, max, min,
  and std with ddof=1. Also boolean-mask selection.
- `frames.dfy`: tables, `normalize_dataframe` as a function on values, and a
  `DataFrame` class whose `Normalize` method overwrites its columns one by
  one.
- `readings.dfy`: one reading row; the input file (`Unreadable` or a CSV
  with its header and rows); `groupby("date")` keys and groups.
- `shading.dfy`: the shading per-day features, the daily `features` loop, and
  one plant's output.
- `pollution.dfy`: aggregation, rolling mean, `dropna`, and one plant's
  output.
- `drivers.dfy`: the two per-plant loops over an output directory object.
  Both are proved equal to one reference fold, `Process`.

Where the original project's design description and the code differ, the
model follows the code:

- The design description says days with too few samples get no row. The shading
  code emits a row for every date, a single-reading date included (its stds
  are missing). The pollution code drops every row that holds a NaN: a date
  with a missing aggregate, and every date without a rolling mean, which
  includes the first fourteen dates whatever their sample count.
- The design description describes the pollution schema as a trended
  actual-vs-theoretical ratio. The code takes a 30-row rolling mean of the
  daily mean of `Difference`.
- The design description says a stage that fails for every plant is fatal. The code
  skips each failing plant and carries on.

## Model

| member | source | states |
|---|---|---|
| Stats.CountPresent | src/create_feature_vectors.py:179-181 | `count()`: never more than the cells; zero exactly when every cell is NaN |
| Stats.MaxSkipNa | src/create_feature_vectors.py:70 | `max()`: missing exactly when every cell is NaN; otherwise a present cell that bounds every present cell from above |
| Stats.MinSkipNa | src/create_feature_vectors.py:167 | `min()`: missing exactly when every cell is NaN; otherwise a present cell that bounds every present cell from below |
| Stats.SumSkipNaIsSum | src/create_feature_vectors.py:69 | `sum()` skipping NaN (`SumSkipNa`) equals the plain sum of the present cells, in order (0.0 when none is present) |
| Stats.MeanSkipNa | src/create_feature_vectors.py:163-167 | `mean()`: present exactly when some cell is present |
| Stats.StdSkipNa | src/create_feature_vectors.py:83-86 | `std()`: present exactly when at least two cells are present (ddof=1) |
| Stats.SampleVariance | src/create_feature_vectors.py:73 | the variance under the square root is never negative |
| Stats.SumSplit | src/create_feature_vectors.py:78-80 | the sums of `pv[mask]` and `pv[~mask]` add up to `pv.sum()` |
| Stats.MeanBetween | src/create_feature_vectors.py:179-181 | a mean of present cells that all lie in [lo, hi] lies in [lo, hi] |
| Stats.CountAllPresent | src/create_feature_vectors.py:73 | a column without NaN counts every cell |
| Frames.NormalizeValues | src/create_feature_vectors.py:9-13 | one column keeps its length; a column with no present value stays all NaN |
| Frames.NormalizedUnitRange | src/create_feature_vectors.py:9-11 | with a non-zero range: presence of each cell unchanged, every present cell in [0, 1], minimum becomes 0 and maximum 1 |
| Frames.NormalizedExtremes | src/create_feature_vectors.py:11 | the column minimum maps to 0.0 and the maximum to 1.0 |
| Frames.NormalizedCell | src/create_feature_vectors.py:11 | one rescaled cell is present exactly when it was, and then lies in [0, 1] |
| Frames.NormalizedByRange | src/create_feature_vectors.py:9-11 | a non-zero range is positive, and the column is rescaled by its minimum and range |
| Frames.NormalizedOrder | src/create_feature_vectors.py:9-11 | rescaling keeps the order of any two present cells, in both directions |
| Frames.NormalizedConstant | src/create_feature_vectors.py:12-13 | a column whose max equals its min becomes 0.0 in every cell, NaN cells included |
| Frames.NormalizedComplete | src/create_feature_vectors.py:6-14 | a non-empty column without NaN comes out without NaN and inside [0, 1] |
| Frames.NormalizedInUnitInterval | src/create_feature_vectors.py:6-14 | whatever the column, every present result cell lies in [0, 1] |
| Frames.NormalizeIdempotent | src/create_feature_vectors.py:9-13 | normalising a column twice equals normalising it once |
| Frames.NormalizeColumn | src/create_feature_vectors.py:7 | a column keeps its length and kind |
| Frames.NormalizeTable | src/create_feature_vectors.py:6-14 | index (row count and order) and names unchanged, non-numeric columns untouched, well-formedness kept |
| Frames.NormalizeTableIdempotent | src/create_feature_vectors.py:6-14 | normalising a frame twice equals normalising it once |
| Frames.DataFrame.constructor | src/create_feature_vectors.py:106-107 | the new frame object holds the given table |
| Frames.DataFrame.Normalize | src/create_feature_vectors.py:8-13 | the in-place column loop leaves exactly `NormalizeTable` of the old frame |
| Readings.Dates | src/create_feature_vectors.py:55-56 | the group keys are strictly ascending, and a date is a key exactly when some row has it; a row without a timestamp gives no key |
| Readings.DatesEmpty | src/create_feature_vectors.py:55-56 | there is no key exactly when no row has a timestamp |
| Readings.Group | src/create_feature_vectors.py:59 | a group holds only rows of its date, and every such row |
| Readings.GroupMultiplicity | src/create_feature_vectors.py:59 | a group holds each row of its date as many times as the file does, and no other row |
| Readings.Positions | src/create_feature_vectors.py:59 | the positions of a date's rows are ascending and are exactly the rows with that date |
| Readings.GroupInFileOrder | src/create_feature_vectors.py:59 | the k-th entry of a group is the row at the k-th position of its date, so the group keeps file order |
| Readings.GroupsNonEmpty | src/create_feature_vectors.py:59-61 | every key's group is non-empty, so `group.empty` never holds |
| Readings.Values | src/create_feature_vectors.py:63-67 | `group[col]` has one cell per row of the group, that row's cell |
| Readings.Insert | src/create_feature_vectors.py:56 | inserting a date keeps the keys ascending and adds exactly that date |
| Shading.Delta | src/create_feature_vectors.py:72 | `pv.diff().fillna(0)` is as long as the day and starts with 0 |
| Shading.DeltaTelescopes | src/create_feature_vectors.py:72 | on a day without NaN the steps sum to the last PV value minus the first |
| Shading.ArgMaxAbs | src/create_feature_vectors.py:75 | `delta.abs().argmax()` is the first position holding the largest absolute step |
| Shading.MaxDeltaHour | src/create_feature_vectors.py:75-76 | `max_delta_hour` as written, fallback 12 included; never negative. What it returns is stated in `MaxDeltaHourIsFirstLargest` |
| Shading.MaxDeltaHourIsFirstLargest | src/create_feature_vectors.py:75-76 | `max_delta_hour` is the hour of the first row with the largest absolute step; the fallback 12 is never taken |
| Shading.MorningAfternoonSplit | src/create_feature_vectors.py:69-80 | morning plus afternoon sum equals the day's PV sum, which is 1000 times the energy yield |
| Shading.MorningAfternoonRatio | src/create_feature_vectors.py:81 | present exactly when the afternoon sum is positive, and then ratio times afternoon equals morning |
| Shading.Day | src/create_feature_vectors.py:63-99 | the nine features of one date's group: the entry carries the date and its yield is a thousandth of the PV sum. The other features are stated in `DayPeakAndYield`, `SingleReadingDay`, `MaxDeltaHourIsFirstLargest` and `MorningAfternoonRatio` |
| Shading.DayPeakAndYield | src/create_feature_vectors.py:69-81 | a day's peak is its largest present PV reading (missing when none); 1000 times its yield is morning plus afternoon; its ratio is present exactly when the afternoon is positive |
| Shading.SingleReadingDay | src/create_feature_vectors.py:73-86 | the step spread is missing exactly on a one-reading day, and every std feature is missing on such a day |
| Shading.ShadingDays | src/create_feature_vectors.py:58-99 | the `features` list has one entry per group key, carrying that key's date, in ascending order |
| Shading.DayOf | src/create_feature_vectors.py:59-99 | a date's entry carries that date |
| Shading.ToTable | src/create_feature_vectors.py:106-107 | the frame is well formed, indexed by the entries' dates, with the nine feature names in order |
| Shading.FrameShape | src/create_feature_vectors.py:106-108 | the normalised frame is indexed by the entries' dates, has the nine feature columns in order, and every present cell in [0, 1] |
| Shading.NormalizedTableInUnitInterval | src/create_feature_vectors.py:108 | after normalisation every present cell of every numeric column is in [0, 1] |
| Shading.ShadingOutput | src/create_feature_vectors.py:43-111 | what one plant's shading iteration writes: nothing unless the file is readable, has the required columns and has rows. The full characterisation is in `ShadingOutputIsFrame` and `ShadingOutputShape` |
| Shading.ShadingOutputIsFrame | src/create_feature_vectors.py:101-108 | a usable input yields the normalised frame of its days, and nothing when no row has a timestamp (`not features`) |
| Shading.ShadingOutputShape | src/create_feature_vectors.py:43-111 | a file is written exactly for a readable, non-empty input with all required columns and some timestamp; it has one row per distinct input date, ascending, the nine columns in order, every present value in [0, 1] |
| Shading.CollectShadingDays | src/create_feature_vectors.py:58-99 | the daily loop builds exactly the `features` list |
| Shading.ShadingPlant | src/create_feature_vectors.py:43-111 | one plant's iteration writes exactly what `ShadingOutput` gives |
| Pollution.Aggregate | src/create_feature_vectors.py:162-168 | a sum is always present; std needs two present cells; mean, max and min need one |
| Pollution.DailyTable | src/create_feature_vectors.py:162-175 | one row per date, ascending, ten numeric columns with the flattened names |
| Pollution.DailyColumn | src/create_feature_vectors.py:162-168 | each daily cell is its aggregate over that date's group |
| Pollution.DailyNames | src/create_feature_vectors.py:175 | one flattened name per aggregate |
| Pollution.FlatNamesSpelled | src/create_feature_vectors.py:175 | each `(column, aggregate)` label joins to `column_aggregate` |
| Pollution.NamesSpelled | src/create_feature_vectors.py:175-181 | the output header is the ten flattened names followed by `diff_mean_30d_avg` |
| Pollution.Window | src/create_feature_vectors.py:179-181 | the window at row i is rows max(0, i-29)..i, in order |
| Pollution.Rolling | src/create_feature_vectors.py:179-181 | the rolling column is as long as its input |
| Pollution.RollingPresence | src/create_feature_vectors.py:179-181 | the definition of `Rolling` stated cell by cell: a rolling value is present exactly when at least 15 window cells are, and is then their mean |
| Pollution.RollingBetween | src/create_feature_vectors.py:179-181 | a present rolling value sits at row 14 or later and between the window's minimum and maximum |
| Pollution.RollingPresentAfterRun | src/create_feature_vectors.py:179-181 | fifteen consecutive present cells ending at row i give a rolling value at row i |
| Pollution.PresentRunCounts | src/create_feature_vectors.py:180 | a trailing run of n present cells makes at least n present cells |
| Pollution.CountSuffix | src/create_feature_vectors.py:180 | dropping leading cells never raises the present count |
| Pollution.WithRolling | src/create_feature_vectors.py:179-181 | the rolling column of `Difference_mean` is appended last; the other columns are unchanged |
| Pollution.CompleteRows | src/create_feature_vectors.py:183 | the kept row positions are ascending and are exactly the rows without NaN |
| Pollution.Pick | src/create_feature_vectors.py:183 | a column restricted to the kept rows holds their cells, in order |
| Pollution.DropNa | src/create_feature_vectors.py:183 | `dropna()` keeps names, its index lists the kept rows' dates in order, and each column holds the kept rows' cells |
| Pollution.DropNaComplete | src/create_feature_vectors.py:183 | no row left by `dropna()` holds a NaN |
| Pollution.DropNaKeepsCompleteRows | src/create_feature_vectors.py:183 | every kept date labels a complete input row, and every complete row's date is kept |
| Pollution.DropNaKeepsOrder | src/create_feature_vectors.py:183 | an ascending index stays ascending |
| Pollution.Augmented | src/create_feature_vectors.py:162-181 | the daily frame with its rolling column: eleven numeric columns indexed by the input dates |
| Pollution.DailyCell | src/create_feature_vectors.py:162-168 | the definition of `DailyTable` stated cell by cell: daily cell (j, i) is aggregate j over the i-th date's group |
| Pollution.DailyCellPresent | src/create_feature_vectors.py:162-168 | a present daily cell means its aggregate over that date's group is defined |
| Pollution.RollingCellPresent | src/create_feature_vectors.py:179-181 | a present rolling cell lies at row 14 or later |
| Pollution.CompleteRowFacts | src/create_feature_vectors.py:162-183 | a complete daily row lies at row 14 or later, and its day has enough readings of every measure |
| Pollution.CompleteRowReadings | src/create_feature_vectors.py:162-168 | a complete daily row's day has at least two PV and Difference readings and at least one battery, SOC and load reading |
| Pollution.CompleteRowAggregate | src/create_feature_vectors.py:162-168 | every aggregate behind a complete daily row is defined over that date's group |
| Pollution.DefinedAggregatesEnough | src/create_feature_vectors.py:163-167 | a day whose PV and Difference stds and battery, SOC and load means are defined has at least two PV and Difference readings and one of each other measure |
| Pollution.CompleteDateFacts | src/create_feature_vectors.py:162-183 | a date surviving `dropna` is an input date, has enough readings, and is none of the first fourteen dates |
| Pollution.Clean | src/create_feature_vectors.py:183 | the frame left by `dropna` is well formed, numeric, with the eleven names |
| Pollution.CleanNonEmpty | src/create_feature_vectors.py:183-188 | rows survive `dropna` exactly when some daily row is complete |
| Pollution.CleanDates | src/create_feature_vectors.py:162-183 | the surviving dates are ascending input dates past the first fourteen, each with enough readings |
| Pollution.NormalizedCompleteTable | src/create_feature_vectors.py:190 | normalising a non-empty numeric frame without NaN puts every cell in [0, 1] |
| Pollution.CleanNormalized | src/create_feature_vectors.py:190 | every cell of the written frame is a number in [0, 1] |
| Pollution.PollutionOutput | src/create_feature_vectors.py:150-193 | what one plant's pollution iteration writes: nothing unless the file is readable, has the required columns and has rows. The full characterisation is in `PollutionOutputIsClean`, `PollutionOutputExists` and `PollutionOutputShape` |
| Pollution.PollutionOutputIsClean | src/create_feature_vectors.py:159-190 | for a usable input, the output is the normalised clean frame when it has rows; with no timestamp the daily frame is empty (`daily_df.empty`) and nothing is written |
| Pollution.PollutionOutputExists | src/create_feature_vectors.py:150-188 | a file is written exactly for a readable, non-empty input with all required columns and some complete daily row |
| Pollution.PollutionOutputShape | src/create_feature_vectors.py:159-193 | a written file has the eleven columns in order and ascending input dates, none among the first fourteen. Every cell is in [0, 1], and every row's day has enough readings |
| Pollution.PollutionPlant | src/create_feature_vectors.py:150-193 | one plant's iteration writes exactly what `PollutionOutput` gives |
| Drivers.OutputDir.constructor | src/create_feature_vectors.py:129-130 | the directory starts with the files that already exist |
| Drivers.Step | src/create_feature_vectors.py:30-50 | one iteration of a driver loop: an existing file is kept as it is, and only the plant's own file can be added. Skipping is stated in `StepIsolated` |
| Drivers.Process | src/create_feature_vectors.py:137-200 | the directory after the loop has visited the plants in order: files are added only for the plants' ids. Its properties are in `ProcessKeepsExisting`, `ProcessFiles`, `ProcessWritesFirstFrame`, `ProcessSettled` and `ProcessIdempotent` |
| Drivers.StepIsolated | src/create_feature_vectors.py:142-145 | one plant's iteration touches no other plant's file; a cached or failed plant changes nothing |
| Drivers.ProcessKeepsExisting | src/create_feature_vectors.py:35-38 | a file that existed before the run is never overwritten |
| Drivers.ProcessFiles | src/create_feature_vectors.py:137-200 | after the run a plant has a file exactly when it had one or one of its inputs yields a frame |
| Drivers.ProcessWritesFirstFrame | src/create_feature_vectors.py:137-193 | a plant without a file gets the frame of the first of its inputs that yields one |
| Drivers.ProcessSettled | src/create_feature_vectors.py:142-145 | a run changes nothing once every plant that yields a frame has a file |
| Drivers.ProcessIdempotent | src/create_feature_vectors.py:30-38 | running a driver a second time changes nothing |
| Drivers.CreateShadingFeatures | src/create_feature_vectors.py:30-118 | the shading loop leaves the directory equal to `Process` with the shading builder |
| Drivers.CreatePollutionFeatures | src/create_feature_vectors.py:137-200 | the pollution loop leaves the directory equal to `Process` with the pollution builder |

## Left out

- CSV reading and writing, `Path.glob`, `mkdir` and verbose printing are not
  modelled. Each plant arrives as an id with its already-read input. A written
  file is an entry of `OutputDir.files`.
- Deriving the plant id from the file name (`stem.replace`) is not modelled.
  Ids are given with the plants.
- `pd.to_datetime` is not modelled. Each reading carries a date (a day
  ordinal), or none when its timestamp is blank (NaT), and an hour. A read
  or parse failure is the `Unreadable` input, handled by the `except`
  branch. The hour is not bounded to 0..23.
- Floats are exact reals. NaN is `None`, and no rounding, infinity or
  overflow is modelled.
- The square root inside `std()` is a parameter `sqrt`. Only the sample
  variance under it is computed.
- `daily_df.index = pd.to_datetime(daily_df.index)` is not modelled. It only
  converts dates to timestamps, and the order is the same.
- Shading.CollectShadingDays: the loop leaves out the `group.empty` check,
  because `Readings.GroupsNonEmpty` proves it never fires.
- Every measure cell is a float or NaN. A file whose measure column holds a
  non-numeric token makes `sum`, `diff` or `agg` raise, and the `except`
  branch skips the plant; such an input is not represented.
