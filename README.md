# COVID-19 pipeline for Ecuador and Colombia, modelled in Dafny

The pipeline reads the Our World in Data COVID-19 feed and runs a fixed chain
of table transforms, each followed by a data-quality check:

1. **Input check** (`chequeos_entrada`): five row rules on the raw feed (no
   date after today, no null location/date/population, unique
   (location, date), population > 0, new_cases ≥ 0 with a null read as 0).
   For each rule it reports the number of rows the rule flags, a verdict and
   a note. It then reports an overall verdict and the names of the failing
   rules.
2. **Cleaning** (`datos_procesados`): drops rows with a null new_cases or
   people_vaccinated, drops repeated (location, date) keys keeping the first,
   keeps Ecuador and Colombia, and projects to five columns.
3. **Post-clean check** (`validar_datos_procesados`): no null anywhere, no
   two identical rows, no location outside {Ecuador, Colombia}.
4. **7-day incidence** (`metrica_incidencia_7d`): new cases per 100 000
   inhabitants, then a per-location trailing mean over at most seven rows,
   with a shorter window accepted. Its check counts values outside
   [0, 2000] and shows the first five of them.
5. **7-day growth factor** (`metrica_factor_crec_7d`): a per-location sum of
   new cases over a full seven-row window, the same sum seven rows of the
   location earlier (dropped below 10), their ratio, and a null flag and an
   outlier flag (> 10). Its check counts the outliers.

Windows and shifts count rows inside a location, in row order, never
calendar days; rows of different locations never mix.

Modules, one per stage: `Frame` (row types, null cells as `Option`, masks,
filters and ordered subsequences), `InputChecks`, `Cleaning`, `CleanChecks`,
`Windows` (the group series behind `groupby(...).rolling/shift`),
`Incidence`, `Growth` and `Pipeline` (the chain as sequential calls).

The transforms copy the frame and then assign columns one by one. The model
does the same: a method fills an array of rows one column at a time, and its
postcondition ties the result to a specification function
(`IncidenceTable`, `GrowthTable`). The checks that append to a list
(`resumen`, `errores`) are methods. Masks, counts, windows, verdicts and the
cleaning steps are functions. Incidence and the growth factor are exact
`real`s. Case counts and weekly sums are `int`s. Dates are day numbers, and
the day of the run is a parameter.

## Model

| member | source | states |
|---|---|---|
| `InputChecks.Violates` | proyecto_covid/proyecto_covid/assets.py:24-64 | the five row masks: a date after the day of the run, a null location, date or population, a (location, date) shared with any other row (every copy flagged), a population of at most 0, and a new_cases below 0 with a null read as 0; a comparison with a null cell is false |
| `InputChecks.Summarize` | proyecto_covid/proyecto_covid/assets.py:26-70 | a rule's line: its name, estado as "no row flagged", filas_afectadas as the count of flagged rows, and "OK" or the rule's note |
| `InputChecks.SummarizeReportsRule` | proyecto_covid/proyecto_covid/assets.py:26-70 | a rule's filas_afectadas is the number of rows its mask flags; estado holds iff no row is flagged, iff that count is 0; the note is "OK" or the rule's failure note |
| `InputChecks.SummaryTable` | proyecto_covid/proyecto_covid/assets.py:24-70 | the appended summary has exactly five lines, and line k is the summary of the k-th rule in the check's order |
| `InputChecks.AllPassed` | proyecto_covid/proyecto_covid/assets.py:73 | the overall verdict holds iff every line's estado holds |
| `InputChecks.FailedNames` | proyecto_covid/proyecto_covid/assets.py:83 | reglas_fallidas holds exactly the names of the failing lines, in summary order |
| `InputChecks.CheckInput` | proyecto_covid/proyecto_covid/assets.py:20-85 | total_reglas is 5, line k summarizes rule k, passed iff all five rules hold, reglas_fallidas is the failing names |
| `InputChecks.SharedKeyFlagsBothRows` | proyecto_covid/proyecto_covid/assets.py:46-52 | two rows sharing (location, date) are both flagged, so at least two rows are affected |
| `InputChecks.TwoRowsSharingAKey` | proyecto_covid/proyecto_covid/assets.py:46-52 | a two-row feed with one shared key reports exactly 2 affected rows |
| `InputChecks.DuplicateRulePassesIffKeysDistinct` | proyecto_covid/proyecto_covid/assets.py:46-52 | the uniqueness rule passes iff no two rows share a key |
| `Cleaning.DropNullCounts` | proyecto_covid/proyecto_covid/assets.py:99 | step 1 keeps exactly the feed rows whose new_cases and people_vaccinated are both non-null |
| `Cleaning.DropDuplicateKeys` | proyecto_covid/proyecto_covid/assets.py:102 | the result keeps only input rows, loses no key and has no repeated key |
| `Cleaning.DropDuplicateKeysIsSubseq` | proyecto_covid/proyecto_covid/assets.py:102 | deduplication keeps rows in their original order |
| `Cleaning.KeepCountries` | proyecto_covid/proyecto_covid/assets.py:105-106 | step 3 keeps exactly the rows whose location is Ecuador or Colombia; a null location is dropped |
| `Cleaning.ProjectAll` | proyecto_covid/proyecto_covid/assets.py:109-110 | step 4 keeps every row, in order, with only location, date, new_cases, people_vaccinated and population |
| `Cleaning.Clean` | proyecto_covid/proyecto_covid/assets.py:96-115 | the cleaned table has no null new_cases or people_vaccinated, only Ecuador and Colombia, and distinct (location, date) keys |
| `Cleaning.CleanIsOrderedSubsequence` | proyecto_covid/proyecto_covid/assets.py:98-110 | the cleaned rows are the projections of an order-preserving subsequence of the feed |
| `Cleaning.CleaningKeepsFirstCompleteRowPerKey` | proyecto_covid/proyecto_covid/assets.py:98-106 | a row survives iff it has both counts, a kept location and no earlier row with both counts shares its key |
| `Cleaning.NullRowDoesNotShadowCompleteRow` | proyecto_covid/proyecto_covid/assets.py:98-102 | a row with a null count does not displace a later complete row with its key |
| `CleanChecks.HasNull` | proyecto_covid/proyecto_covid/assets.py:122 | some cell of the cleaned table is null |
| `CleanChecks.HasRepeatedRow` | proyecto_covid/proyecto_covid/assets.py:126 | two rows agree in every column |
| `CleanChecks.LocationsPermitted` | proyecto_covid/proyecto_covid/assets.py:130-131 | every location is Ecuador or Colombia; a null location is not permitted |
| `CleanChecks.ErrorList` | proyecto_covid/proyecto_covid/assets.py:119-132 | the messages of the findings made, one each, in the order nulls, duplicates, foreign locations |
| `CleanChecks.CollectErrors` | proyecto_covid/proyecto_covid/assets.py:119-132 | each message is present iff its finding holds, the messages keep the check's order, and the list is empty iff nothing was found |
| `CleanChecks.ErrorListNamesFindings` | proyecto_covid/proyecto_covid/assets.py:119-135 | the error list is empty iff no finding was made, and holds each message iff its finding was made |
| `CleanChecks.ErrorListInCheckOrder` | proyecto_covid/proyecto_covid/assets.py:119-132 | the messages appear in the order nulls, duplicates, foreign locations |
| `CleanChecks.CheckCleaned` | proyecto_covid/proyecto_covid/assets.py:117-144 | passed iff no null cell, no two identical rows and every location is Ecuador or Colombia; passed iff errores is empty; total_filas is the row count |
| `CleanChecks.CleanedTableFailsOnlyOnNullDateOrPopulation` | proyecto_covid/proyecto_covid/assets.py:98-132 | on any cleaned table the check passes iff every row has a date and a population |
| `Windows.WindowAt` | proyecto_covid/proyecto_covid/assets.py:155-156 | the rolling window at a row is the last w values, row included, of the column at the rows of that row's location; fewer when the location has fewer rows so far |
| `Windows.ShiftAt` | proyecto_covid/proyecto_covid/assets.py:200 | the grouped shift by p at a row is the value p rows of the same location earlier, or null when there is no such row or the location is null |
| `Windows.GroupValuesAppend` | proyecto_covid/proyecto_covid/assets.py:154-157 | appending rows never changes the group series of an earlier row |
| `Windows.GroupValuesOwnRowsOnly` | proyecto_covid/proyecto_covid/assets.py:155 | a location's series depends only on that location's rows |
| `Windows.GroupValuesSingleLocation` | proyecto_covid/proyecto_covid/assets.py:155 | in a one-location table the group series is the column itself |
| `Windows.ShiftSingleLocation` | proyecto_covid/proyecto_covid/assets.py:200 | in a one-location table shift(p) at row i reads row i - p, null before |
| `Windows.WindowValuesSatisfy` | proyecto_covid/proyecto_covid/assets.py:154-157 | every value a window aggregates comes from a row of the same location at or before the row |
| `Incidence.DailyIncidence` | proyecto_covid/proyecto_covid/assets.py:151 | the daily value is defined iff new_cases and a non-zero population are |
| `Incidence.DailyIncidenceScales` | proyecto_covid/proyecto_covid/assets.py:151 | a defined daily value times the population equals new_cases × 100 000 |
| `Incidence.RollingMean` | proyecto_covid/proyecto_covid/assets.py:156 | the mean is defined iff at least min_periods (and one) values are present, and then mean × count = sum of the present values |
| `Incidence.RollingMeanAt` | proyecto_covid/proyecto_covid/assets.py:154-157 | incidencia_7d at a row is the mean of the non-null daily values in its 7-row window, null when there is none or the location is null |
| `Incidence.Incidence7dAt` | proyecto_covid/proyecto_covid/assets.py:151-157 | incidencia_7d at a row, computed from the daily column of the whole table |
| `Incidence.IncidenceTable` | proyecto_covid/proyecto_covid/assets.py:159-162 | the metric table: per input row, in order, its date as fecha, its location as pais, and its incidencia_7d |
| `Incidence.SelectIncidenceColumns` | proyecto_covid/proyecto_covid/assets.py:160-162 | keeps one row per working row with date, location and incidencia_7d, renamed fecha and pais |
| `Incidence.SetDaily` | proyecto_covid/proyecto_covid/assets.py:151 | incidencia_diaria is set on every row from that row and nothing else changes |
| `Incidence.SetIncidence7d` | proyecto_covid/proyecto_covid/assets.py:154-157 | incidencia_7d is the grouped rolling mean on every row and nothing else changes |
| `Incidence.MetricIncidence7d` | proyecto_covid/proyecto_covid/assets.py:147-164 | the column-by-column computation yields the metric table: one (fecha, pais, incidencia_7d) row per input row |
| `Incidence.IncidenceIsMeanOfTrailingRows` | proyecto_covid/proyecto_covid/assets.py:151-157 | with all daily values defined, incidencia_7d is the mean daily value over the last min(7, k) rows of the row's location, k counting its rows so far |
| `Incidence.FirstRowOfLocation` | proyecto_covid/proyecto_covid/assets.py:154-157 | a location's first row gets its own daily value (one-row window accepted) |
| `Incidence.IncidenceWithinDailyRange` | proyecto_covid/proyecto_covid/assets.py:151-157 | if every daily value lies in [lo, hi] so does every incidencia_7d |
| `Incidence.IncidenceOnlyLooksBack` | proyecto_covid/proyecto_covid/assets.py:154-157 | later rows never change an earlier row's incidencia_7d |
| `Incidence.IncidenceOwnLocationOnly` | proyecto_covid/proyecto_covid/assets.py:154-157 | rows of other locations never change a row's incidencia_7d |
| `Incidence.RisingSeriesFirstRow` | proyecto_covid/proyecto_covid/assets.py:151-157 | daily series 10, 20, ..., 80: the first row's incidence is 10 |
| `Incidence.RisingSeriesEighthRow` | proyecto_covid/proyecto_covid/assets.py:151-157 | daily series 10, 20, ..., 80: the eighth row's incidence is 50 |
| `Incidence.OutOfRange` | proyecto_covid/proyecto_covid/assets.py:172-175 | a metric row is out of range iff its incidencia_7d is below 0 or above 2000; a null value never is |
| `Incidence.CheckIncidence` | proyecto_covid/proyecto_covid/assets.py:170-188 | fuera_de_rango is the number of rows outside [0, 2000] (nulls never count); passed iff there are none; the sample holds the first min(5, count) of them in order |
| `Incidence.SampleIsOrderedSubsequence` | proyecto_covid/proyecto_covid/assets.py:184-186 | the sample rows are rows of the metric in its order |
| `Incidence.RangeBoundaries` | proyecto_covid/proyecto_covid/assets.py:172-177 | 2000, 1999.999, 0 and null pass; 2500 and -0.5 fail |
| `Incidence.CheckPassesWhenDailyInRange` | proyecto_covid/proyecto_covid/assets.py:151-177 | the check passes on the metric of any table whose daily values all lie in [0, 2000] |
| `Growth.RollingSum` | proyecto_covid/proyecto_covid/assets.py:198 | the sum is defined iff at least min_periods values are present |
| `Growth.WeekCasesAt` | proyecto_covid/proyecto_covid/assets.py:196-199 | casos_semana_actual at a row: the sum of new_cases over its location's 7-row window, null unless all seven are present |
| `Growth.ShiftedWeekAt` | proyecto_covid/proyecto_covid/assets.py:200 | casos_semana_prev at a row before the small-base rule: casos_semana_actual seven rows of the same location earlier |
| `Growth.GuardBase` | proyecto_covid/proyecto_covid/assets.py:203 | a base survives iff it is non-null and at least 10, unchanged |
| `Growth.Ratio` | proyecto_covid/proyecto_covid/assets.py:206 | the ratio is defined iff both sums are, and then factor × base = actual |
| `Growth.IsOutlier` | proyecto_covid/proyecto_covid/assets.py:210 | a factor is an outlier iff it is above 10; a null factor never is |
| `Growth.FactorRow` | proyecto_covid/proyecto_covid/assets.py:203-210 | the factor is defined iff the week sum and a base of at least 10 are; es_nulo_factor iff it is null; es_outlier_factor iff it is above 10 |
| `Growth.GrowthRowAt` | proyecto_covid/proyecto_covid/assets.py:196-210 | the metric row at a row: the cleaned row with its weekly sum, its guarded previous-week sum, their ratio and both flags |
| `Growth.GrowthTable` | proyecto_covid/proyecto_covid/assets.py:192-212 | the metric table keeps every cleaned row, in order, each with its derived columns |
| `Growth.MetricGrowth7d` | proyecto_covid/proyecto_covid/assets.py:192-212 | the five column assignments yield the metric table: every input row kept, in order, with its derived columns |
| `Growth.SetWeekCases` | proyecto_covid/proyecto_covid/assets.py:196-199 | casos_semana_actual is set on every row and nothing else changes |
| `Growth.SetShiftedWeekCases` | proyecto_covid/proyecto_covid/assets.py:200 | casos_semana_prev is the grouped shift by 7 and nothing else changes |
| `Growth.DropSmallBases` | proyecto_covid/proyecto_covid/assets.py:203 | exactly the bases below 10 become null and nothing else changes |
| `Growth.SetFactor` | proyecto_covid/proyecto_covid/assets.py:206 | factor_crec_7d is the ratio on every row and nothing else changes |
| `Growth.SetFlags` | proyecto_covid/proyecto_covid/assets.py:209-210 | the two flags follow the factor on every row and nothing else changes |
| `Growth.WeekCasesNeedsSevenRows` | proyecto_covid/proyecto_covid/assets.py:196-199 | a weekly sum exists only from a location's seventh row on |
| `Growth.WeekCasesIsSumOfLastSevenRows` | proyecto_covid/proyecto_covid/assets.py:196-199 | with no null new_cases, from the seventh row on the weekly sum is the total over the location's last seven rows |
| `Growth.NullInWindowVoidsSum` | proyecto_covid/proyecto_covid/assets.py:198 | one null in a seven-row window makes the weekly sum null |
| `Growth.FactorNeedsFourteenRows` | proyecto_covid/proyecto_covid/assets.py:196-206 | the previous-week sum, and so the factor, exist only from a location's fourteenth row on |
| `Growth.FactorUsesOnlyLargeBases` | proyecto_covid/proyecto_covid/assets.py:200-209 | the factor is defined iff both sums are and the base is at least 10, and is then their ratio; a base below 10 gives a null factor |
| `Growth.WeekCasesOnlyLooksBack` | proyecto_covid/proyecto_covid/assets.py:196-199 | later rows never change an earlier weekly sum |
| `Growth.ShiftedWeekOnlyLooksBack` | proyecto_covid/proyecto_covid/assets.py:196-200 | later rows never change an earlier row's previous-week sum |
| `Growth.GrowthOnlyLooksBack` | proyecto_covid/proyecto_covid/assets.py:196-210 | later rows never change an earlier row of the metric |
| `Growth.WeekCasesOwnLocationOnly` | proyecto_covid/proyecto_covid/assets.py:196-199 | rows of other locations never change a weekly sum |
| `Growth.GrowthOwnLocationOnly` | proyecto_covid/proyecto_covid/assets.py:196-210 | rows of other locations never change a row of the metric |
| `Growth.FactorExamples` | proyecto_covid/proyecto_covid/assets.py:203-219 | 210 over a base of 5 gives null, not 42; 120 over 10 gives 12, flagged as an outlier, and fails the check |
| `Growth.WeekSeriesSixthRow` | proyecto_covid/proyecto_covid/assets.py:196-199 | series 10, ..., 70: the sixth row has no weekly sum |
| `Growth.WeekSeriesSeventhRow` | proyecto_covid/proyecto_covid/assets.py:196-199 | series 10, ..., 70: the seventh row's weekly sum is 280 |
| `Growth.CheckGrowth` | proyecto_covid/proyecto_covid/assets.py:215-229 | outliers is the number of rows with a factor above 10; passed iff there are none; the note is fixed |
| `Growth.CheckCountsFlaggedRows` | proyecto_covid/proyecto_covid/assets.py:210-217 | on the metric table the check counts exactly the rows flagged es_outlier_factor |
| `Pipeline.RunPipeline` | proyecto_covid/proyecto_covid/definitions.py:16-38 | one run checks the feed, cleans it, checks the cleaned table, and builds and checks both metrics on it; no check stops the chain, and both metrics have one row per cleaned row |

## Left out

- `leer_datos` (the HTTP download and the CSV parsing) is not modelled. The feed is a parameter whose rows already carry the `country` column renamed to `location`. The columns no stage reads are kept as opaque values in `RawRow.others`.
- `reporte_excel_covid` (writing the Excel workbook and logging) is I/O and is not modelled.
- Dagster registration, `AssetCheckResult`, `MetadataValue` and `to_markdown` are not modelled. Each check returns a plain record. The summary table and the out-of-range sample are sequences of records, and an empty sample stands for the text "Ninguno".
- The order in which Dagster runs assets and checks is decided by the library and is not modelled. `Pipeline.RunPipeline` runs them in dependency order.
- `pd.to_datetime` and `dt.date.today()`: dates are day numbers and the day of the run is a parameter. The date conversion in the cleaning stage therefore changes nothing in the model. An unparsable date, which makes pandas raise, is outside the model.
- Floating point is not modelled. Incidence and the factor are exact reals, with no rounding and no NaN. Weekly sums are integers, whereas pandas returns floats.
- `Incidence.DailyIncidence`: with a population of 0 pandas produces ±inf (or NaN for 0/0). The model produces a null instead, so such a row counts as missing in the mean and is never out of range. Neither feed rule 4 nor cleaning removes such rows.
- `Growth.Ratio` requires a non-zero base. The stage only divides after bases below 10 have been set to null, so a zero base never reaches the division. pandas' inf for x/0 is not modelled.
- A row with a null location forms no group. pandas' `groupby` drops such rows by default and gives them NaN in `transform` and `shift`, and the model gives a null. Cleaning never lets such a row through.
- `InputChecks.SummaryTable`: the source writes one append block per rule, five times over. The model appends the same five lines in the same order with a loop over the rule list.
- `CleanChecks.CheckCleaned`: the third message prints a Python set, whose element order Python does not fix. The model uses the order `{'Ecuador', 'Colombia'}`.
- `CleanChecks.CheckCleaned`: the source's metadata omits `errores` when the check passes. The model reports an empty list instead.
- `proyecto_covid/eda_manual.py` (an exploratory script with CSV I/O, printing and rounded percentages) and `proyecto_covid/setup.py` (packaging) are not part of this model.
