# Chicago crime analytics: verified model of the deterministic core

The application is a Flask back end over a SQLite table of Chicago crime
reports, with a React dashboard in front of it. Most of it is I/O, charts and
numerical libraries. This project models the small deterministic rules
scattered through both sides, and proves what they promise.

**Client side.**
- **Spatial binning on the analysis page.** Each map feature gets an area key
  (district, ward or beat, else a latitude band, else `Unknown`). Areas are
  counted in insertion order and turned into percentages. The list is stably
  sorted by count and cut to the top ten.
- **Long-tail grouping.** The two crime-type pie charts fold everything past
  the sixth slice into `Others`.
- **Summary metrics.** Rate change, peak hour, hotspots and risk on the
  analysis page; the forecast summary cards.
- **Monthly trend classifier.** It compares the two halves of a series, with a
  ±5 % dead band, and computes monthly statistics.
- **Hour-by-type heat grid.** Row selection, the maximum count, four colour
  tiers, the dense 24-cell lookup and row totals.
- **Hourly statistics card.**
- **Dashboard.** The heat-layer conversion, the CSV export, the
  month-over-month change and the records-in-view bar.

**Server side.**
- **Temporal analysis.** The moving average and the trend of the
  temporal-trends route; the synthetic hourly distribution and peak-hour
  selection.
- **Forecasting.** The 7-day forecast schedule and the risk assessment.
- **District names and feature filtering.** The district-name lookup, the
  parameterised SQL assembly and GeoJSON feature filtering of
  `/api/crimes/all`, and the month reordering of `/api/stats/monthly`.
- **The two cleaning routines.** The `ChicagoCrimeDataCleaner` class, and the
  `clean_data` step of the database set-up script.

**How the model is built.**
- One Dafny module per source file: `Analysis`, `CrimeTypeDistribution`,
  `MonthlyTrendsChart`, `HeatmapChart`, `HourlyPatternsChart`, `Dashboard`,
  `TemporalAnalysis`, `Forecasting`, `ApiMain`, `DataCleaner` and
  `SetupDatabase`.
- Shared helper modules:
  - `Common`: sums, occurrences, filters and first-seen order;
  - `Numeric`: JavaScript and Python rounding, and IEEE special values for
    unguarded divisions;
  - `Text`: trimming, digits, joining and splitting;
  - `Series`: the first maximum and minimum;
  - `StableSort`: a stable sort, standing for `Array.prototype.sort` and
    Python's `sorted`;
  - `ApiTypes`: the JSON shapes the client receives.
- Code that only computes is written as functions. Code that builds results
  step by step is written as methods with loops, proved against those
  functions:
  - the area counting loop;
  - the `maxCount` loop;
  - the hourly synthesis loop;
  - the trends loop;
  - the forecast loop;
  - the hourly risk loop;
  - the feature loop;
  - the data-frame steps that add columns in place. These work on a `Frame`
    object.
- Means and percentages are exact rationals (`real`). JavaScript `toFixed(1)`,
  `Math.round` and Python `int()` are explicit rounding functions.

**Behaviour worth knowing.**
- Equal counts keep first-seen order, because the sort is stable.
- The area key is trimmed after it is chosen, so a blank district gives the
  empty key.
- An empty feature list gives no spatial summary (`null`).
- The monthly trend has no guard for a zero first-half mean. The result is
  Infinity or NaN, as JavaScript computes it.
- The pie grouping does not check `maxTypes`; the model requires a positive
  `maxTypes`.
- `fillna("0")` on the district column runs after `astype(str)`, so a missing
  district is stored as `"nan"`.

## Model

| member | source | states |
|---|---|---|
| Analysis.GetDaysFromRange | frontend/src/pages/Analysis.tsx:95-102 | "7d", "30d" and "1y" give 7, 30 and 365 days; any other range gives 90 |
| Analysis.AreaKeyFromProperties | frontend/src/pages/Analysis.tsx:113-127 | the key is the trimmed text of the first truthy field among district, ward and beat, when that field is not the text "null" |
| Analysis.AreaKeyFallback | frontend/src/pages/Analysis.tsx:117-124 | a missing or "null" raw key falls back to the latitude band `District n` when the latitude is truthy, and to `Unknown` otherwise |
| Analysis.NullDistrictIgnoresWard | frontend/src/pages/Analysis.tsx:113-125 | a district that is literally "null" is chosen before ward and beat, so two such features with the same coordinates get the same key whatever their ward and beat |
| Analysis.BlankDistrictBecomesEmptyKey | frontend/src/pages/Analysis.tsx:113-127 | a whitespace-only district is truthy, so it is kept and trimmed to the empty key instead of falling back |
| Analysis.Entries | frontend/src/pages/Analysis.tsx:138-143 | one entry per map key, in map order, carrying that key's number of occurrences and count / total × 100 |
| Analysis.Top | frontend/src/pages/Analysis.tsx:145 | `slice(0, n)` is the prefix of length min(n, length) |
| Analysis.SpatialSummary | frontend/src/pages/Analysis.tsx:105-151 | null exactly when there are no features; otherwise the total is the number of features, the list holds as many areas as there are distinct keys, cut at 10, and is sorted by count non-increasing |
| Analysis.SpatialNamesDistinct | frontend/src/pages/Analysis.tsx:129-145 | no area appears twice in the list |
| Analysis.SpatialPercentagesAddUp | frontend/src/pages/Analysis.tsx:137-145 | with at most 10 distinct areas nothing is cut and the percentages add up to exactly 100 |
| Analysis.TallyCounts | frontend/src/pages/Analysis.tsx:129-135 | the count map holds exactly the keys seen, each mapped to its number of occurrences |
| Analysis.CountAreas | frontend/src/pages/Analysis.tsx:110-135 | the counting loop leaves the map in first-seen key order, with each key's count equal to its number of occurrences |
| Analysis.ProcessSpatialData | frontend/src/pages/Analysis.tsx:105-151 | the imperative binning returns exactly the spatial summary |
| Analysis.TotalOccFirstSeen | frontend/src/pages/Analysis.tsx:129-137 | the counts of the distinct keys add up to the number of keys |
| Analysis.SpatialCountsAddUp | frontend/src/pages/Analysis.tsx:129-137 | before truncation, the district counts add up to `features.length` |
| Analysis.SpatialEntriesFromMap | frontend/src/pages/Analysis.tsx:138-143 | every returned district is a map entry: a key that was seen, its count (at least 1) and its percentage of the total |
| Analysis.SortedEntriesStable | frontend/src/pages/Analysis.tsx:144 | after the sort, counts are non-increasing and equal counts keep map insertion order |
| Analysis.SpatialTiesKeepFirstSeen | frontend/src/pages/Analysis.tsx:138-145 | districts with equal counts are listed in the order their keys were first seen |
| Analysis.SpatialKeepsBusiest | frontend/src/pages/Analysis.tsx:144-145 | an area cut from the top ten never has more crimes than any returned district |
| Analysis.LeftOutIsSmaller | frontend/src/pages/Analysis.tsx:144-145 | an entry missing from a prefix of the sorted list has a count no larger than any entry in that prefix |
| Analysis.BarWidths | frontend/src/pages/Analysis.tsx:434-436 | one bar width per listed district |
| Analysis.BarWidthsInRange | frontend/src/pages/Analysis.tsx:434-436 | when the first district is the busiest and all counts are positive, the first bar is 100 % and every bar is finite and within (0, 100] |
| Analysis.BarWidthsOfSummary | frontend/src/pages/Analysis.tsx:434-436 | the bars drawn for a real spatial summary are finite, the first at 100 % and all within (0, 100] |
| Analysis.CrimeTypePie | frontend/src/pages/Analysis.tsx:283-316 | no data exactly when the list is empty; otherwise at most 7 slices, the input itself when it has at most 7, else the first 6 entries followed by `Others`; total crimes equal the sum of the counts both before and after grouping |
| Analysis.RateChange | frontend/src/pages/Analysis.tsx:227-231 | (increasing − not increasing) / n × 50 lies within [−50, 50] |
| Analysis.CalculateMetrics | frontend/src/pages/Analysis.tsx:215-245 | placeholders exactly when loading with no trends; the rate change is "0.0" without trends and otherwise the one-decimal form of the rate change (within 0.05); peak hour is `peak_hours[0]` or 0; hotspots is the number of high-risk areas or 0; risk level is `overall_risk` or "N/A" |
| Analysis.RateChangeExtremes | frontend/src/pages/Analysis.tsx:227-231 | all trends increasing gives +50, none increasing gives −50 |
| Analysis.SteadyCountsAsNotRising | frontend/src/pages/Analysis.tsx:228 | a "stable" trend moves the rate exactly as a "decreasing" one does |
| Analysis.SummarizeForecast | frontend/src/pages/Analysis.tsx:470-482 | no summary for an empty forecast; otherwise the direction is the last day's trend and the confidence is the mean confidence rounded by `Math.round` |
| Analysis.AverageConfidenceInBand | frontend/src/pages/Analysis.tsx:481 | the rounded mean confidence lies between the smallest and largest daily confidence bounds |
| CrimeTypeDistribution.GroupOthers | frontend/src/components/CrimeTypeDistribution.tsx:63-72 | at most `maxTypes` entries leave the data unchanged; otherwise the first `maxTypes − 1` entries are kept verbatim and one last `Others` entry carries the summed counts and summed percentages of the rest |
| CrimeTypeDistribution.GroupOthersLength | frontend/src/components/CrimeTypeDistribution.tsx:64-71 | the chart has min(length, maxTypes) slices |
| CrimeTypeDistribution.GroupOthersPreservesCount | frontend/src/components/CrimeTypeDistribution.tsx:68-80 | grouping preserves the total count |
| CrimeTypeDistribution.GroupOthersPreservesPercentage | frontend/src/components/CrimeTypeDistribution.tsx:69 | grouping preserves the total percentage, which is summed rather than recomputed from counts |
| CrimeTypeDistribution.Distribute | frontend/src/components/CrimeTypeDistribution.tsx:47-80 | the no-data state exactly for empty data; otherwise `totalCrimes` is the input's count sum, the slices add up to it, and all slices but the last are input entries in order |
| MonthlyTrendsChart.HalvesPartition | frontend/src/components/MonthlyTrendsChart.tsx:244-245 | the two halves concatenate to the series; the second is as long as the first or one longer; the first is non-empty from two points on |
| MonthlyTrendsChart.TrendClassification | frontend/src/components/MonthlyTrendsChart.tsx:247-254 | with a positive first-half mean: up iff the second mean exceeds 105 % of the first, down iff it is below 95 %, stable otherwise (±5 % exactly is stable); the percentage is \|change\| to one decimal |
| MonthlyTrendsChart.DeadBand | frontend/src/components/MonthlyTrendsChart.tsx:250-253 | the percentage-change thresholds ±5 are the same as comparing the means against 1.05 and 0.95 times the first mean |
| MonthlyTrendsChart.TrendFromZeroMean | frontend/src/components/MonthlyTrendsChart.tsx:247-254 | an unguarded zero first-half mean gives up with "Infinity", stable with "NaN", or down with "Infinity" |
| MonthlyTrendsChart.ShortSeriesIsStable | frontend/src/components/MonthlyTrendsChart.tsx:242 | fewer than two months give stable with percentage 0 |
| MonthlyTrendsChart.DoublingExample | frontend/src/components/MonthlyTrendsChart.tsx:241-256 | counts [n, n, 2n, 2n] give up with "100.0" |
| MonthlyTrendsChart.FlatExample | frontend/src/components/MonthlyTrendsChart.tsx:241-256 | counts [n, n, n, n] give stable with "0.0" |
| MonthlyTrendsChart.MonthlyStats | frontend/src/components/MonthlyTrendsChart.tsx:259-262 | the total is the sum of the counts; the average is that sum over the months, rounded; the max month is the first with the largest count and the min month the first with the smallest; both are months of the data |
| HourlyPatternsChart.MostActive | frontend/src/components/HourlyPatternsChart.tsx:337 | Night iff the hour is at least 18 or below 6 |
| HourlyPatternsChart.NightHasTwelveHours | frontend/src/components/HourlyPatternsChart.tsx:337 | exactly 12 of the 24 hours read as Night |
| HourlyPatternsChart.HourlyStats | frontend/src/components/HourlyPatternsChart.tsx:280-283 | the total is the sum of the counts; the average is the total / 24, rounded, whatever the data length; max and min hour are the first entries with the largest and smallest count and bound every count; the label follows the max hour |
| HourlyPatternsChart.UniformDay | frontend/src/components/HourlyPatternsChart.tsx:280-283 | 24 equal counts c give average c, hour 0 as both extremes, and Night |
| HeatmapChart.NonEmptyRows | frontend/src/components/HeatmapChart.tsx:16 | keeps exactly the types that have at least one sample |
| HeatmapChart.DisplayedRows | frontend/src/components/HeatmapChart.tsx:13-17 | at most 10 types: those among the first 10 keys that have samples |
| HeatmapChart.CutBeforeFilter | frontend/src/components/HeatmapChart.tsx:14-16 | cutting before filtering shows only 9 types when the first key is empty, even though an eleventh type has samples |
| HeatmapChart.MaxCount | frontend/src/components/HeatmapChart.tsx:22-30 | the nested loop returns the table maximum |
| HeatmapChart.FoldMaxBounds | frontend/src/components/HeatmapChart.tsx:24-28 | the running maximum is at least its start and every count, and is either its start or one of the counts |
| HeatmapChart.TableMaxBounds | frontend/src/components/HeatmapChart.tsx:22-30 | `maxCount` is non-negative and at least every displayed count; it is 0 or some displayed count |
| HeatmapChart.ZeroIsNoData | frontend/src/components/HeatmapChart.tsx:34 | a zero count is the no-data colour whatever `maxCount` is |
| HeatmapChart.TierByQuarters | frontend/src/components/HeatmapChart.tsx:35-40 | a positive count falls in the darkest, dark, medium or light tier as count / maxCount is above 3/4, above 1/2, above 1/4, or neither (strict thresholds) |
| HeatmapChart.TierMonotone | frontend/src/components/HeatmapChart.tsx:33-41 | a larger count never gets a lighter tier |
| HeatmapChart.MaxIsDarkest | frontend/src/components/HeatmapChart.tsx:35-37 | the maximum count gets the darkest tier |
| HeatmapChart.CountForHourFirstMatch | frontend/src/components/HeatmapChart.tsx:44-47 | a cell shows the count of the first item with that hour, or 0 when none has it |
| HeatmapChart.DenseRow | frontend/src/components/HeatmapChart.tsx:113-114 | every row renders exactly 24 cells |
| HeatmapChart.TotalMatchesCells | frontend/src/components/HeatmapChart.tsx:95 | with distinct hours in 0..23, the row total equals the sum of the 24 cells |
| HeatmapChart.TotalCanDifferFromCells | frontend/src/components/HeatmapChart.tsx:95 | a duplicated hour or an hour outside 0..23 makes the row total differ from the cells |
| HeatmapChart.Render | frontend/src/components/HeatmapChart.tsx:49-114 | no grid exactly when no type is displayed; otherwise one row per displayed type (at most 10), in display order, labelled with its type and the sum of its samples; cell h shows that type's `getCountForHour` for hour h and is coloured by `getColor` against the table maximum |
| HeatmapChart.RenderCellsWithinMax | frontend/src/components/HeatmapChart.tsx:22-41 | no drawn cell exceeds the table maximum, and a cell equal to a positive maximum is drawn darkest |
| Dashboard.MonthlyChange | frontend/src/components/Dashboard.tsx:216-220 | "0" exactly when fewer than two months exist |
| Dashboard.MonthlyChangeUsesLastTwo | frontend/src/components/Dashboard.tsx:216-219 | only the last two months matter |
| Dashboard.MonthlyChangeOfPositive | frontend/src/components/Dashboard.tsx:219 | with a positive previous month, the text is (latest − previous) / previous × 100 to one decimal, negative iff the count fell |
| Dashboard.MonthlyChangeAfterZero | frontend/src/components/Dashboard.tsx:219 | an unguarded zero previous month gives "Infinity", "NaN" or "-Infinity" |
| Dashboard.HeatPointOf | frontend/src/components/Dashboard.tsx:110-112 | [lng, lat] becomes [lat, lng, 0.8] |
| Dashboard.HeatData | frontend/src/components/Dashboard.tsx:108-113 | at most one heat point per feature |
| Dashboard.HeatDataAppend | frontend/src/components/Dashboard.tsx:108-113 | the conversion distributes over concatenation, so order is preserved |
| Dashboard.HeatDataLength | frontend/src/components/Dashboard.tsx:109 | exactly the features with geometry and coordinates produce points |
| Dashboard.HeatDataOfOne | frontend/src/components/Dashboard.tsx:108-113 | a feature with geometry gives its swapped point; one without gives nothing |
| Dashboard.HeatDataAllGeometry | frontend/src/components/Dashboard.tsx:108-113 | when every feature has geometry, the i-th point is the i-th feature's |
| Dashboard.FeatureRow | frontend/src/components/Dashboard.tsx:190-197 | a feature with geometry gives six fields (id, date, type, district, coordinates[1], coordinates[0]); one without abandons the export |
| Dashboard.ExportRows | frontend/src/components/Dashboard.tsx:188-198 | the header followed by one six-field row per feature, in order; no export when any feature lacks geometry |
| Dashboard.FieldsReadBack | frontend/src/components/Dashboard.tsx:200 | splitting a joined row on commas gives 6 fields plus one per comma inside the fields |
| Dashboard.CsvRoundTrip | frontend/src/components/Dashboard.tsx:200 | without commas or newlines inside fields, splitting the file on newlines and commas gives back the rows exactly |
| Dashboard.CommaBreaksColumns | frontend/src/components/Dashboard.tsx:200 | a comma in any field makes the row read back with more than six columns, since nothing is quoted |
| Dashboard.RecentCrimesCount | frontend/src/components/Dashboard.tsx:214 | `metadata.count`, or 0 when absent |
| Dashboard.RecordsBarWidth | frontend/src/components/Dashboard.tsx:371 | a width of 0 when the total is 0 |
| Dashboard.RecordsBarWithin | frontend/src/components/Dashboard.tsx:371 | with 0 ≤ recent ≤ total and total > 0, the width is within [0, 100], and 100 when all records are in view |
| TemporalAnalysis.RowsOfType | backend/src/api/routes/temporal_analysis.py:93 | the selected rows all have the requested crime type, every input row of that type is selected, and nothing else is |
| TemporalAnalysis.RowsOfTypeIsFilter | backend/src/api/routes/temporal_analysis.py:93 | the selection is exactly the boolean mask `crime_type == t` applied to the rows, in their order |
| TemporalAnalysis.TypeTotalsPartition | backend/src/api/routes/temporal_analysis.py:202-204 | the types' totals add up to the sum of all rows' daily counts: every row is counted under exactly one type |
| TemporalAnalysis.HourlyTotalCrimesBound | backend/src/api/routes/temporal_analysis.py:202-211 | `total_crimes` is non-negative and at most 0.92 of the summed daily counts of the query rows |
| TemporalAnalysis.TypeTotals | backend/src/api/routes/temporal_analysis.py:204 | one daily-count total per distinct crime type |
| TemporalAnalysis.TrendsCoverTypes | backend/src/api/routes/temporal_analysis.py:92 | the unique types are exactly the types that occur, each has rows, and none repeats |
| TemporalAnalysis.MovingAverage | backend/src/api/routes/temporal_analysis.py:94-96 | one average per day |
| TemporalAnalysis.MovingAverageBounds | backend/src/api/routes/temporal_analysis.py:94-96 | the window holds min(i + 1, 7) days; every average lies between the smallest and largest count; the first average is the first count |
| TemporalAnalysis.TrendOf | backend/src/api/routes/temporal_analysis.py:99-104 | one day gives slope 0 and stable; otherwise the slope is the least-squares slope and the trend is increasing iff it is positive, never stable |
| TemporalAnalysis.FlatSeriesReadsDecreasing | backend/src/api/routes/temporal_analysis.py:99-101 | a constant series of two or more days has slope 0 and is reported as decreasing |
| TemporalAnalysis.TwoDayTrend | backend/src/api/routes/temporal_analysis.py:99-101 | two days read as increasing iff the second count is larger |
| TemporalAnalysis.TemporalTrends | backend/src/api/routes/temporal_analysis.py:87-115 | no rows give no trends; otherwise the loop gives one trend per unique type, in order, each the type's series, moving average and slope trend |
| TemporalAnalysis.WeightsSum | backend/src/api/routes/temporal_analysis.py:175-200 | 24 hour weights, summing to 0.920 |
| TemporalAnalysis.HourlyCountQuotient | backend/src/api/routes/temporal_analysis.py:208 | the hourly count is `int(total × weight)`, i.e. total × thousandths / 1000 rounded down |
| TemporalAnalysis.HourlyRowShape | backend/src/api/routes/temporal_analysis.py:206-209 | hours 0..23 in order, each count between 0 and the type's total, and the row sums to at most 0.92 of the total |
| TemporalAnalysis.HourlyTotals | backend/src/api/routes/temporal_analysis.py:171 | one total per hour of the day |
| TemporalAnalysis.HourlyTotalsAddUp | backend/src/api/routes/temporal_analysis.py:210-211 | adding up every hour's total gives `total_crimes` |
| TemporalAnalysis.TotalEmittedBound | backend/src/api/routes/temporal_analysis.py:208-211 | `total_crimes` is non-negative and at most 0.92 of the summed daily counts |
| TemporalAnalysis.Heatmap | backend/src/api/routes/temporal_analysis.py:202-213 | one 24-hour row per crime type |
| TemporalAnalysis.EmitHours | backend/src/api/routes/temporal_analysis.py:207-211 | the inner loop emits the type's hourly row, adds each hour's count to that hour's total and adds the row's sum to `total_crimes` |
| TemporalAnalysis.HourlyDistribution | backend/src/api/routes/temporal_analysis.py:165-217 | empty rows give an empty heatmap, no peak hours and 0; otherwise the heatmap, peak hours and total follow from the per-type totals, and the total is at most 0.92 of the rows' summed daily counts |
| TemporalAnalysis.HourlyResponseTotals | backend/src/api/routes/temporal_analysis.py:171-211 | the hourly totals add up to `total_crimes`, which is at most 0.92 of the input counts |
| TemporalAnalysis.HourPairs | backend/src/api/routes/temporal_analysis.py:216 | the (hour, total) items for hours 0..23 in order |
| TemporalAnalysis.PeakHours | backend/src/api/routes/temporal_analysis.py:216-217 | exactly three peak hours |
| TemporalAnalysis.RankedHoursOrder | backend/src/api/routes/temporal_analysis.py:216 | the sort orders the 24 items by total descending, with ties in ascending hour order |
| TemporalAnalysis.PeakHoursChosen | backend/src/api/routes/temporal_analysis.py:216-217 | three distinct hours in 0..23, ascending; each chosen total is at least every unchosen total; on a tie the chosen hour is the earlier |
| TemporalAnalysis.ChosenBeatsUnchosen | backend/src/api/routes/temporal_analysis.py:216 | any of the first three ranked hours beats an unranked hour, or ties it and comes earlier |
| TemporalAnalysis.FlatDayPeaks | backend/src/api/routes/temporal_analysis.py:216-217 | equal totals (for example all zero) give peak hours [0, 1, 2] |
| Forecasting.Weekday | backend/src/api/routes/forecasting.py:81 | a weekday index in 0..6, congruent to the day ordinal (Monday = 0) |
| Forecasting.WeekFrom | backend/src/api/routes/forecasting.py:79-81 | seven forecast dates |
| Forecasting.WeekCoversEveryDay | backend/src/api/routes/forecasting.py:79-81 | the seven days after the latest date fall on seven distinct weekdays and cover all seven |
| Forecasting.Predicted | backend/src/api/routes/forecasting.py:88 | `int(avg × (1 + variation))`, rounding down a non-negative product |
| Forecasting.PredictedNearAverage | backend/src/api/routes/forecasting.py:83-88 | with the weekday or weekend variation range, the prediction is non-negative and within avg × 0.85 − 1 and avg × 1.15 |
| Forecasting.Confidence | backend/src/api/routes/forecasting.py:91 | at least 70, and either 70 or 90 − 2i |
| Forecasting.ConfidenceSchedule | backend/src/api/routes/forecasting.py:91 | over the seven days the confidence is 90 − 2i, within [78, 90] and non-increasing |
| Forecasting.StepOf | backend/src/api/routes/forecasting.py:95-100 | up iff the prediction exceeds 1.05 × the previous, down iff it is not up and below 0.95 × the previous |
| Forecasting.StepBands | backend/src/api/routes/forecasting.py:93-102 | for a non-negative previous value, down iff below 0.95 × the previous; an unchanged prediction is stable |
| Forecasting.LowerBound | backend/src/api/routes/forecasting.py:89-110 | `max(0, int(predicted − std))`: non-negative, the truncation of predicted − std when that is non-negative, and 0 below 1 |
| Forecasting.UpperBound | backend/src/api/routes/forecasting.py:90 | `int(predicted + std)` truncates a non-negative sum |
| Forecasting.BoundsBracket | backend/src/api/routes/forecasting.py:89-110 | 0 ≤ lower ≤ predicted ≤ upper for a non-negative prediction and spread |
| Forecasting.ForecastPointAt | backend/src/api/routes/forecasting.py:79-114 | day i is dated latest + i + 1 with that weekday's label, its prediction, a non-negative lower bound, a confidence of at least 70, and a stable trend on the first day and the step from the previous prediction afterwards |
| Forecasting.ForecastWeek | backend/src/api/routes/forecasting.py:79-114 | the loop produces exactly seven points, the i-th being the specified day i |
| Forecasting.MeanOf | backend/src/api/routes/forecasting.py:72 | the mean of non-negative counts is non-negative |
| Forecasting.ShortTermForecast | backend/src/api/routes/forecasting.py:47-119 | an empty answer exactly when there is no latest date or fewer than two days of data; otherwise the seven specified days around the window mean |
| Forecasting.ForecastSummaryOfWeek | backend/src/api/routes/forecasting.py:91-102 | the client's summary of a generated week has average confidence 84 and the last day's step as its direction |
| Forecasting.HourRiskLevel | backend/src/api/routes/forecasting.py:228-233 | high iff the hour is 18–23 or 0–2, medium iff 6–17 |
| Forecasting.HourlyRiskTable | backend/src/api/routes/forecasting.py:226-234 | 24 entries for hours 0..23 in order |
| Forecasting.NineHighRiskHours | backend/src/api/routes/forecasting.py:236 | exactly nine hours are high risk |
| Forecasting.HourlyRisk | backend/src/api/routes/forecasting.py:226-236 | the loop builds the hourly table and counts 9 high-risk hours |
| Forecasting.OverallRisk | backend/src/api/routes/forecasting.py:218-224 | HIGH iff total / 30 > 150, MEDIUM iff 100 < total / 30 ≤ 150, LOW otherwise |
| Forecasting.OverallRiskInCrimes | backend/src/api/routes/forecasting.py:218-224 | the same thresholds in whole crimes: above 4500, above 3000, otherwise |
| Forecasting.AvgDailyTenths | backend/src/api/routes/forecasting.py:249 | `round(total / 30, 1)` in tenths is within half a tenth of total / 30 |
| Forecasting.AreaOf | backend/src/api/routes/forecasting.py:209-215 | each area is labelled "District " + district and keeps its count |
| Forecasting.AssessRisk | backend/src/api/routes/forecasting.py:150-251 | no latest date or no district rows give the unknown answer; otherwise one labelled area per row, the overall risk, the 24-hour table, 9 high-risk hours, the total and its daily average |
| ApiMain.GetDistrictName | backend/src/api/main.py:42-45 | the mapped name when the district is a key of the table, otherwise "District " + district; never empty |
| ApiMain.UnnamedDistricts | backend/src/api/main.py:16-39 | among districts 1..25, exactly 13, 21 and 23 have no name |
| ApiMain.Conditions | backend/src/api/main.py:131-141 | one condition per truthy filter, each one of the three clauses |
| ApiMain.Values | backend/src/api/main.py:131-141 | one text parameter per condition, holding that condition's value |
| ApiMain.BuildQuery | backend/src/api/main.py:128-144 | the query is the base, the clauses of the truthy filters, and the ordering with its limit; the parameters are the filter values followed by the limit |
| ApiMain.ClausePlaceholders | backend/src/api/main.py:128-143 | the base query has no `?`; each filter clause and the limit clause have exactly one |
| ApiMain.ClauseTextPlaceholders | backend/src/api/main.py:131-141 | appended clauses with one `?` each contribute one `?` per clause |
| ApiMain.PlaceholdersMatchParams | backend/src/api/main.py:128-144 | the number of `?` equals the number of parameters, the limit is last, and each earlier parameter is its clause's value |
| ApiMain.AllFiltersOrder | backend/src/api/main.py:131-144 | with all filters set, the parameters are crime type, start, end and limit, in that order |
| ApiMain.FeatureOf | backend/src/api/main.py:152-177 | the coordinates are [longitude, latitude]; the district is the readable name, and `district_num` is its text |
| ApiMain.FeaturesOf | backend/src/api/main.py:150-178 | at most one feature per row |
| ApiMain.FeaturesOfRows | backend/src/api/main.py:150-178 | every located row gives its feature, and every feature comes from a located row |
| ApiMain.FeaturesOfCount | backend/src/api/main.py:152 | the number of features is the number of rows with both coordinates |
| ApiMain.CrimesToFeatures | backend/src/api/main.py:150-193 | the row loop returns exactly the located rows' features; `count` equals their number; the filters are echoed unchanged |
| ApiMain.HeatRoundTrip | backend/src/api/main.py:161-164 | the dashboard's heat layer reads every served feature back as [latitude, longitude] at its row's own position |
| ApiMain.Reverse | backend/src/api/main.py:252 | `iloc[::-1]`: element i is element n − 1 − i |
| ApiMain.GetMonthlyStats | backend/src/api/main.py:252-263 | the trends reversed, their number, and a date range from the earliest to the latest month, or none when empty |
| ApiMain.MonthlyStatsAscending | backend/src/api/main.py:237-252 | months served in descending order come out in ascending order |
| DataCleaner.ValidateCoordinates | backend/src/utils/data_cleaner.py:39-48 | keeps exactly the rows with latitude in [41.6, 42.1] and longitude in [−87.9, −87.5], bounds inclusive |
| DataCleaner.CrimeCategory | backend/src/utils/data_cleaner.py:52-63 | the mapped category for a mapped type, "OTHER" for an unmapped or missing one |
| DataCleaner.CategoryFacts | backend/src/utils/data_cleaner.py:52-63 | BATTERY and ASSAULT both map to "ASSAULT/BATTERY"; every category is one of eight values |
| DataCleaner.Standardized | backend/src/utils/data_cleaner.py:63 | each row gains its category and nothing else changes |
| DataCleaner.StandardizeCrimeTypes | backend/src/utils/data_cleaner.py:50-64 | the frame's rows become the standardised rows, in place |
| DataCleaner.CleanDates | backend/src/utils/data_cleaner.py:66-74 | keeps exactly the rows whose date parsed, is in 2008 or later and is not after now |
| DataCleaner.Season | backend/src/utils/data_cleaner.py:85-100 | a season exactly for months 1–12; Winter exactly for December, January and February |
| DataCleaner.SeasonsOfThreeMonths | backend/src/utils/data_cleaner.py:85-100 | each of the four seasons has exactly three months |
| DataCleaner.DerivedOf | backend/src/utils/data_cleaner.py:78-100 | year, month and hour from the date; the day name of its weekday; weekend iff weekday ≥ 5; a season is always present |
| DataCleaner.WeekendIsSaturdayOrSunday | backend/src/utils/data_cleaner.py:80-82 | weekend iff the day name is Saturday or Sunday |
| DataCleaner.WithDerived | backend/src/utils/data_cleaner.py:76-102 | each row gains its calendar columns and nothing else changes |
| DataCleaner.AddDerivedColumns | backend/src/utils/data_cleaner.py:76-102 | the frame's rows gain their calendar columns, in place |
| DataCleaner.Enriched | backend/src/utils/data_cleaner.py:28-35 | standardising and deriving keep a row's index, coordinates and date |
| DataCleaner.CleanDataset | backend/src/utils/data_cleaner.py:15-37 | a fresh frame holding the input rows after the null filter, bounds, category, date range and calendar columns |
| DataCleaner.CleanedRowsComeFromInput | backend/src/utils/data_cleaner.py:15-37 | every cleaned row is an enriched input row that passes all the filters |
| DataCleaner.SurvivorsAreKept | backend/src/utils/data_cleaner.py:15-37 | every input row that passes all the filters appears, enriched, in the output |
| SetupDatabase.Pad2 | backend/setup_database.py:124-125 | two decimal digits |
| SetupDatabase.YearMonthText | backend/setup_database.py:124 | seven characters with a dash after the year |
| SetupDatabase.DateText | backend/setup_database.py:125 | ten characters with dashes after the year and month |
| SetupDatabase.YearMonthIsDatePrefix | backend/setup_database.py:124-125 | `year_month` is the first seven characters of `date`, which is `year_month` + "-" + day |
| SetupDatabase.DateTextOrder | backend/setup_database.py:125 | stored dates compare as text exactly as they compare on the calendar, and equal text means the same day |
| SetupDatabase.YearMonthTextOrder | backend/setup_database.py:124 | stored months compare as text exactly as (year, month) pairs do |
| SetupDatabase.Renamed | backend/setup_database.py:87-89 | each column label is renamed through the map or kept |
| SetupDatabase.RenameTargets | backend/setup_database.py:87-89 | crime_type and description exist after renaming iff either their old or new name existed; the old names are gone |
| SetupDatabase.Available | backend/setup_database.py:104 | exactly the kept columns present in the frame |
| SetupDatabase.KeepColsRanked | backend/setup_database.py:92-102 | the schema order ranks the nine kept columns 0..8 |
| SetupDatabase.AvailableInSchemaOrder | backend/setup_database.py:104-105 | the selected columns come in the schema order |
| SetupDatabase.Select | backend/setup_database.py:105 | a selected row has exactly the available columns, each with the row's value for it |
| SetupDatabase.SelectAll | backend/setup_database.py:105 | selection keeps the rows and their order |
| SetupDatabase.AsText | backend/setup_database.py:129 | `astype(str)` writes a missing value as "nan" and keeps text |
| SetupDatabase.FillNa | backend/setup_database.py:128-130 | a fill leaves no missing value and does not touch a present one |
| SetupDatabase.CleanRowOf | backend/setup_database.py:119-130 | a stored row holds the parsed date as YYYY-MM-DD and YYYY-MM, the type and coordinates, the district as text, the description filled with "", and the optional columns when present |
| SetupDatabase.PresentRows | backend/setup_database.py:104-108 | rows kept by the null filter have all four essentials and exactly the selected columns |
| SetupDatabase.KeptRows | backend/setup_database.py:108-121 | exactly the present rows inside the bounds whose date parses |
| SetupDatabase.MissingEssentials | backend/setup_database.py:108 | the essential columns named as missing are not among the selected columns |
| SetupDatabase.NoneMissing | backend/setup_database.py:108 | nothing is missing iff latitude, longitude, date and crime_type are all selected |
| SetupDatabase.CleanData | backend/setup_database.py:80-134 | on success the required columns were selected, the output has the selected columns plus year_month, and its rows are the cleaned kept rows |
| SetupDatabase.CleanDataSucceeds | backend/setup_database.py:108-130 | the step succeeds iff the required columns are selected and the coordinates are numeric; a failure for missing columns names only absent columns |
| SetupDatabase.CleanRows | backend/setup_database.py:119-130 | one stored row per kept row, in order |
| SetupDatabase.CleanRowsWellFormed | backend/setup_database.py:112-125 | every stored row lies within [41.64, 42.02] × [−87.94, −87.52], has a 10-character date whose 7-character prefix is year_month, and has a type and a description |
| SetupDatabase.KeptRowsAreWritten | backend/setup_database.py:108-134 | every row that passes the filters is stored |
| SetupDatabase.WrittenRowsAreKept | backend/setup_database.py:108-134 | every stored row comes from a row that passes the filters |
| SetupDatabase.DeadFills | backend/setup_database.py:128-129 | the crime-type fill never applies, and a missing district is stored as "nan", never "0" |
| StableSort.SortDescBy | frontend/src/pages/Analysis.tsx:144 | a permutation of the input sorted by key non-increasing |
| StableSort.SortIsStable | frontend/src/pages/Analysis.tsx:144 | equal keys keep their input order |
| Series.FirstMaxIndex | frontend/src/components/MonthlyTrendsChart.tsx:261 | the first index holding the largest key |
| Series.FirstMinIndex | frontend/src/components/MonthlyTrendsChart.tsx:262 | the first index holding the smallest key |
| Numeric.JsRound | frontend/src/components/MonthlyTrendsChart.tsx:260 | `Math.round` lies within half a unit of its argument, halves rounding up |
| Numeric.ToFixed1 | frontend/src/components/MonthlyTrendsChart.tsx:254 | `toFixed(1)` is within 0.05 of its argument and negative iff it is |
| Numeric.PyInt | backend/src/api/routes/temporal_analysis.py:208 | `int()` truncates toward zero |
| Numeric.JsDivide | frontend/src/components/MonthlyTrendsChart.tsx:250 | division by a non-zero gives the quotient; by zero it gives Infinity, −Infinity or NaN from the numerator's sign |
| Text.TrimShape | frontend/src/pages/Analysis.tsx:127 | `trim()` removes exactly the leading and trailing whitespace |
| Text.SplitJoin | frontend/src/components/Dashboard.tsx:200 | splitting a join on its separator gives the parts back when no part contains the separator |
| Text.JoinCount | frontend/src/components/Dashboard.tsx:200 | a join has one separator between parts plus those inside the parts |
| Common.FirstSeen | frontend/src/pages/Analysis.tsx:129-131 | the Map's insertion order: every key once, in the order first seen |

## Left out

- The surrounding HTTP, SQL and file I/O are not modelled. The SQL queries (`GROUP BY`, `COUNT`, `ORDER BY`, `LIMIT`, date cut-offs) are taken as the result rows they return. The database creation, the data download and the CSV reads and writes of the set-up script are left out too.
- Floating point: counts, means and percentages are exact rationals. A double can land on the other side of a bin edge or a threshold: the latitude band, `toFixed`, `Math.round`, `int(total × weight)` and the risk thresholds.
- The random forecast variation is an input, and so is the window's sample standard deviation (no square root is modelled). `np.polyfit` is modelled by the closed-form least-squares slope in exact rationals.
- Calendar arithmetic: dates in the forecast are day ordinals. `strptime`/`strftime` and the month-length rules are not modelled.
- `pd.Timestamp.now()` is a parameter of the date filter. Sub-second parts of timestamps are not modelled.
- `pd.to_datetime` is a `parse` parameter, and Python's text form of a numeric district is a `numText` parameter. The number text written by the CSV export is a `show` parameter.
- SetupDatabase.Select: duplicate column labels after renaming use the first column with that label, whereas pandas would keep both.
- SetupDatabase.CleanData: modelled as a function on a table value. The routine only rebinds a local frame, so nothing is updated in place. The model's failure order is: missing essential columns, then non-numeric coordinates (a comparison error), then missing district or description (a key error).
- DataCleaner.AddDerivedColumns: requires every date to be parsed. The routine is only called after `clean_dates`, and on an unparsed date pandas would write missing values.
- React state, effects and memoisation are left out. So are `Promise.allSettled` orchestration, Leaflet script loading and map layers, Blob downloads, the auto-refresh timer and the CSS colour values. The tooltip peak flag (`HourlyPatternsChart.IsPeak`) is plain membership.
- JavaScript `Object.keys` order is taken as the order of the given rows. The backend's `dict` and `unique()` order is first appearance.
- The commented-out earlier versions of the hourly and monthly charts are not part of this model.
- CrimeTypeDistribution.GroupOthers: requires `maxTypes ≥ 1`. The component has no guard, and JavaScript's negative-index `slice` for `maxTypes ≤ 0` is not modelled.
- Analysis.RateChange: the result is stated in exact rationals; the one-decimal text is related to it in CalculateMetrics within 0.05.
