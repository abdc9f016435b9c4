# CSV analysis engine, modelled in Dafny

This models the analysis engine of the CSV dashboard backend, `backend/app/main.py`. A CSV file has been read into a table. The engine then does the following:

- It classifies every column as numeric, date, categorical or text (`detect_column_type`).
- It audits the table (`build_data_audit`):
  - missing values per column;
  - rows that repeat an earlier row;
  - a health score from 0 to 100.
- For every column with numeric content, it summarises mean, minimum, maximum and total (`build_numeric_stats`).
- It flags values more than two population standard deviations above the mean (`build_anomaly_report`).
- It turns these results into insights (`build_insights`). There are four rules, applied in a fixed order, with a fallback when none fires.
- It recommends charts from the column types (`build_chart_suggestions`).
- It assembles the whole analysis (`analyze_dataframe`) and condenses it into a dashboard (`build_dashboard_config`).

The modules, in dependency order:

| module | file | models |
|---|---|---|
| `Ratios` | ratios.dfy | the ratio-versus-threshold comparisons the rules make |
| `Seqs` | seqs.dfy | Python dicts and list comprehensions as sequences of pairs (`Map`, `FilterMap`, `Keys`) |
| `Tables` | tables.dfy | the DataFrame (`Cell`, `Column`, `Table`), `dropna`, `astype(str)` and `pd.to_numeric` on cells |
| `Order` | order.dfy | `Series.mode().iloc[0]`: the most frequent string, ties broken by the smallest string |
| `Classifier` | classifier.dfy | `detect_column_type` and the column type map |
| `Audit` | audit.dfy | `build_data_audit` |
| `Stats` | stats.dfy | `build_numeric_stats` |
| `Anomaly` | anomaly.dfy | `build_anomaly_report` |
| `InsightRules` | insights.dfy | `build_insights` |
| `Charts` | charts.dfy | `build_chart_suggestions` |
| `Report` | report.dfy | `analyze_dataframe`, `build_dashboard_config` and the response shapes |

### How it is modelled

**Cells.** A cell is `Null`, `Int(int)` (a value of an integer column), `Num(real)` (a value of a float64 column) or `Str(string)`. read_csv gives a column of integers without blanks the int64 dtype when every value fits in int64, and uint64 when some value exceeds 2^63 - 1 and none is negative (`Stats.Int64Column`, `Stats.UInt64Column`). The two numeric kinds print differently under `astype(str)`: an integer prints as a Python int (`Tables.DecimalString`), a float64 value as the `render` parameter says.

**Tables.** A table has a row count and columns. `Table.Valid()` states what read_csv guarantees: every column has one cell per row, and the column names are unique.

**Dicts.** A Python dict keyed by column name is a sequence of `(name, value)` pairs in insertion order. Insertion order is the table's column order.

**Pandas routines.** The parsers pandas applies to a cell are a parameter, `Coercion`: `pd.to_datetime`, `pd.to_numeric` on strings, and `str` of a float64 value. The general properties hold for every `Coercion`; the scenario lemmas state what they assume about it (`Classifier.ThreeDistinctOfFourIsText` and `Classifier.FewShortValuesAreCategorical` take strings that parse as neither date nor number, `Tables.IntAndFloatColumnsPrintApart` takes `render(1.0) == "1.0"`).

**Loops.** Each Python `for` loop that builds a dict or a list becomes a `method` with a `for` loop and its invariants. It is proved equal to a specification function. The properties the code promises are then proved about that function as lemmas:
- `BuildNumericStats` and `BuildAnomalyReport`;
- the four insight loops and `BuildInsights`;
- the three single-column chart loops, the nested pair loop and `BuildChartSuggestions`.

The classifier, the audit, the analysis and the dashboard contain no loops of their own, so they are functions.

**Insights.** An insight is kept as the data its sentence reports, not as the sentence.

**Anomalies.** An anomaly entry keeps the population variance from which `std_dev` and `threshold` follow. The flag `v > mean + 2 * std_dev` is decided without a square root. `Anomaly.ThresholdWithoutSquareRoot` proves the two forms agree.

### Two edge cases of the code

The model follows the code in both cases:

- **The 1, 2, 3, 4, 100 column flags nothing.** The mean is 22 and the population variance is 1522. So the standard deviation is about 39.01 and the threshold about 100.03. The value 100 is not above the threshold, so nothing is flagged (`Anomaly.SpreadOutlierNotFlagged`).
- **The column x, x, y, z is text, not categorical.** It has three distinct values. The categorical cap is `min(50, max(2, int(4 * 0.2)))`, which is 2 (`Classifier.ThreeDistinctOfFourIsText`). The cap truncates `total * 0.2`; it does not round it (`Classifier.CategoricalCapIsFloorDivision`).

## Model

| member | source | states |
|---|---|---|
| `Tables.NullCountSplit` | backend/app/main.py:103-106 | A column's missing count plus the number of cells `dropna` keeps is the column's length. |
| `Tables.NonNullEmptyIff` | backend/app/main.py:56-58 | `dropna` leaves nothing exactly when every cell is missing. |
| `Tables.NonNullIdempotent` | backend/app/main.py:56 | Dropping missing values twice is the same as once. |
| `Tables.NumbersNonEmptyIff` | backend/app/main.py:333-335 | A column has valid numbers exactly when some cell survives `pd.to_numeric(errors="coerce")`. |
| `Tables.DistinctAtMostLength` | backend/app/main.py:75 | `nunique` never exceeds the number of values. |
| `Tables.DigitsRoundTrip` | backend/app/main.py:198 | The decimal digits of a natural number read back to that number; they never start with a minus sign. |
| `Tables.DecimalRoundTrip` | backend/app/main.py:198 | `astype(str)` of an integer value loses nothing: the integer reads back from its string. |
| `Tables.IntAndFloatColumnsPrintApart` | backend/app/main.py:198 | An int64 column of ones prints "1", while a float64 column of ones with a blank prints what `render` gives for 1.0, such as "1.0". |
| `Order.ModeIsSmallestMostFrequent` | backend/app/main.py:201-203 | The mode of a non-empty column is one of its values and is the most frequent. Among values equally frequent, it is the smallest string. |
| `Order.ModeIsUnique` | backend/app/main.py:201-203 | Any value that is most frequent and smallest among the most frequent is the mode, so the tie-break is deterministic. |
| `Order.Mode` | backend/app/main.py:201-203 | `mode().iloc[0]`: there is no mode exactly when there are no values. What the mode is, is stated by `Order.ModeIsSmallestMostFrequent` and `Order.ModeIsUnique`. |
| `Classifier.DetectColumnType` | backend/app/main.py:55-83 | `detect_column_type`, a function without a contract of its own. Which type it returns for which column is stated by `Classifier.RuleOrder` and `Classifier.CategoricalIff`. Its invariances are stated by `Classifier.MissingCellsIgnored` and `Classifier.SameValuesSameType`, and its fixed cases by `Classifier.AllMissingIsText` and `Classifier.NativeNumbersAreNumeric`. |
| `Classifier.RuleOrder` | backend/app/main.py:55-83 | Each of the four types holds exactly when its rule is the first to fire. The order: empty column means text, native numbers mean numeric, then the 80% date share, the 80% number share, the categorical test, and text otherwise. |
| `Classifier.AllMissingIsText` | backend/app/main.py:56-58 | A column whose every cell is missing (or which has no rows) is text. |
| `Classifier.MissingCellsIgnored` | backend/app/main.py:56 | Removing missing cells never changes the detected type. |
| `Classifier.SameValuesSameType` | backend/app/main.py:56-83 | Two columns with the same non-missing values get the same type. |
| `Classifier.NativeNumbersAreNumeric` | backend/app/main.py:60-61 | A column of numbers and missing values, with at least one number, is numeric whatever its strings would parse as. |
| `Classifier.OnlyNumbersSurvive` | backend/app/main.py:56-61 | Dropping the missing values of such a column leaves only numbers. |
| `Classifier.CategoricalCap` | backend/app/main.py:79 | The categorical cap lies between 2 and 50. |
| `Classifier.CategoricalCapIsFloorDivision` | backend/app/main.py:79 | The cap is `min(50, max(2, total div 5))`: `int(total * 0.2)` truncates. |
| `Classifier.ThresholdsAsIntegers` | backend/app/main.py:67-81 | The 80% share tests are `5 * hits >= 4 * total`, and the mean length bound of 40 is `lengths <= 40 * total`. |
| `Classifier.CategoricalIff` | backend/app/main.py:75-83 | Once the date and number shares fail, the column is categorical exactly when it has at most `min(50, max(2, total div 5))` distinct strings and the mean string length is at most 40. Otherwise it is text. |
| `Classifier.FewShortValuesAreCategorical` | backend/app/main.py:75-81 | One or two short non-numeric, non-date values always make the column categorical. |
| `Classifier.ThreeDistinctOfFourIsText` | backend/app/main.py:75-83 | The column x, x, y, z is text: three distinct values exceed the cap of 2. |
| `Classifier.ColumnTypes` | backend/app/main.py:280-282 | The type map has exactly the table's column names, in order, each paired with its column's detected type. |
| `Audit.BuildDataAudit` | backend/app/main.py:102-121 | `build_data_audit`. Its three fields are stated by `Audit.MissingValuesPerColumn` and `Audit.MissingEntries` (missing counts), `Audit.DuplicatesAreRepeats` and `Audit.DuplicateRowsBound` (duplicates), and `Audit.HealthScoreBounds` (health). |
| `Audit.DuplicateRows` | backend/app/main.py:107 | `duplicated().sum()`, 0 for an empty frame. It equals the row count minus the distinct rows (`Audit.DuplicatesAreRepeats`) and is at most the row count minus one (`Audit.DuplicateRowsBound`). |
| `Audit.HealthScore` | backend/app/main.py:108-116 | The completeness percentage, 0 without cells. Its range and when it reaches 100 are stated by `Audit.HealthScoreBounds`. |
| `Audit.MissingPerColumn` | backend/app/main.py:103-106 | The `missing_values` dict. Its keys, counts and order are stated by `Audit.MissingValuesPerColumn` and `Audit.MissingEntries`. |
| `Audit.MissingValuesPerColumn` | backend/app/main.py:103-106 | The missing counts are keyed by the column names in order. Each count is the column's number of missing cells, and with the non-missing cells it adds up to the row count. |
| `Audit.MissingEntries` | backend/app/main.py:103-106 | A name is paired with a count exactly when that column has that many missing cells. |
| `Audit.NullCountAtMost` | backend/app/main.py:103-106 | A column never has more missing cells than cells. |
| `Audit.MissingCellsBound` | backend/app/main.py:108-109 | The table never has more missing cells than cells. |
| `Audit.HealthScoreBounds` | backend/app/main.py:108-116 | The health score lies in 0..100. It is 0 for a table without cells. For any other table it is 100 exactly when no cell is missing. |
| `Audit.Percentage` | backend/app/main.py:114-116 | `100 * part / whole` lies in 0..100 and is 100 exactly when `part == whole`. |
| `Audit.RepeatedRowsBound` | backend/app/main.py:107 | Among the first n rows, at most n - 1 repeat an earlier row. |
| `Audit.DuplicateRowsBound` | backend/app/main.py:107 | The duplicate count is at most the row count minus one: the first row is never a duplicate. |
| `Audit.RepeatedPlusDistinct` | backend/app/main.py:107 | Among the first n rows, the repeated rows plus the distinct rows (missing equal to missing) are n. |
| `Audit.DuplicatesAreRepeats` | backend/app/main.py:107 | The duplicate count is the row count minus the number of distinct rows. |
| `Stats.NumericStats` | backend/app/main.py:329-344 | The statistics dict. Which columns it names is stated by `Stats.StatsColumns` and `Stats.StatsNames`, what each entry holds by `Stats.StatsEntries`, `Stats.StatsMembers` and `Stats.ColumnTotal`. |
| `Stats.BuildNumericStats` | backend/app/main.py:329-344 | The loop builds exactly the statistics map: one entry per column with valid numbers, in table order, each the column's `ColumnSummary`. |
| `Stats.MinimumIsLeast` | backend/app/main.py:339 | The minimum is one of the numbers and no number is below it. |
| `Stats.MaximumIsGreatest` | backend/app/main.py:340 | The maximum is one of the numbers and no number is above it. |
| `Stats.SumBounds` | backend/app/main.py:341 | The total of numbers in lo..hi lies between n·lo and n·hi. |
| `Stats.MeanWithinRange` | backend/app/main.py:338-340 | The mean lies between the minimum and the maximum. |
| `Stats.MeanBetween` | backend/app/main.py:338 | A total between n·lo and n·hi gives a mean between lo and hi. |
| `Stats.StatsColumns` | backend/app/main.py:332-335 | A name has statistics exactly when a column of that name has a cell `pd.to_numeric` accepts. |
| `Stats.StatsNames` | backend/app/main.py:332-337 | A name has statistics exactly when a column of that name has valid numbers. |
| `Stats.StatsEntries` | backend/app/main.py:332-342 | Every entry summarises the valid numbers of the column it names, and its mean lies between its minimum and maximum. |
| `Stats.StatsMembers` | backend/app/main.py:332-342 | A pair is in the map exactly when its statistics summarise the valid numbers of the column it names. |
| `Stats.Int64Wrap` | backend/app/main.py:341 | numpy's int64 addition: the result lies in -2^63 .. 2^63 - 1, differs from the exact value by a multiple of 2^64, and is the exact value whenever that fits. |
| `Stats.UInt64Wrap` | backend/app/main.py:341 | numpy's uint64 addition: the result lies in 0 .. 2^64 - 1, differs from the exact value by a multiple of 2^64, and is the exact value whenever that fits. |
| `Stats.IntSumIsSum` | backend/app/main.py:333-341 | On an integer column the valid numbers are its integers, so their exact sum is the integer sum. |
| `Stats.Total` | backend/app/main.py:341 | `numeric_series.sum()`, by the column's dtype. What it is on each dtype is stated by `Stats.ColumnTotal`. |
| `Stats.ColumnTotal` | backend/app/main.py:337-342 | An entry's mean, minimum and maximum are the exact ones. Its total is the exact sum for a float64 or object column. For an int64 column it is the int64 `sum()`: in -2^63 .. 2^63 - 1, congruent to the exact sum modulo 2^64, and equal to it exactly when the exact sum fits. For a uint64 column it is the uint64 `sum()`: in 0 .. 2^64 - 1, congruent to the exact sum modulo 2^64, and equal to it exactly when the exact sum is below 2^64. |
| `Stats.TotalWrapsPastInt64` | backend/app/main.py:337-342 | An int64 column holding 5 * 10^18 twice has mean, minimum and maximum 5 * 10^18 and total 10^19 - 2^64 = -8446744073709551616. |
| `Stats.UInt64Totals` | backend/app/main.py:337-342 | A uint64 column holding 10^19 has total 10^19, not a negative wrap. Two of them have total 2 * 10^19 - 2^64 = 1553255926290448384. |
| `Anomaly.AnomalyReport` | backend/app/main.py:124-150 | The anomaly report dict. Its entries are stated by `Anomaly.AnomalyEntries` and `Anomaly.ColumnEntry`, its columns and their order by `Anomaly.AnomalyColumnsMatchStats`. |
| `Anomaly.BuildAnomalyReport` | backend/app/main.py:124-150 | The loop builds exactly the anomaly report: one entry per column with valid numbers, in table order. |
| `Anomaly.Variance` | backend/app/main.py:134 | The population variance is never negative, so its square root, the `std_dev`, exists. |
| `Anomaly.Exceeds` | backend/app/main.py:135-136 | The flag test. `Anomaly.ThresholdWithoutSquareRoot` states that it is `v > mean + 2 * std_dev`. |
| `Anomaly.AnomalyFor` | backend/app/main.py:128-148 | One column's entry, or none for a column without valid numbers. What the entry holds is stated by `Anomaly.ColumnEntry`. |
| `Anomaly.ThresholdWithoutSquareRoot` | backend/app/main.py:133-136 | With sigma the standard deviation, the square-free test holds exactly when `v > mean + 2 * sigma`. A value at or below the mean, or exactly at the threshold, is never flagged. |
| `Anomaly.FlaggedIndices` | backend/app/main.py:138 | Every flagged index is a row of the column. |
| `Anomaly.FlaggedIndicesExact` | backend/app/main.py:136-138 | The indices ascend, and a row is listed exactly when its coerced value is present and above the threshold. A missing value is never flagged. |
| `Anomaly.FlaggedValuesMatch` | backend/app/main.py:138-139 | There are as many values as indices, and each value is the coerced value at its index. |
| `Anomaly.ColumnEntry` | backend/app/main.py:128-148 | A column's entry holds the mean and variance of its valid numbers, the flagged rows and values, and their count. |
| `Anomaly.AnomalyEntries` | backend/app/main.py:127-148 | Every entry of the report describes, in that sense, the column it names. |
| `Anomaly.AnomalyColumnsMatchStats` | backend/app/main.py:127-131 | The anomaly report and the statistics name the same columns in the same order. A column with no anomaly still has an entry. |
| `Anomaly.SpreadOutlierNotFlagged` | backend/app/main.py:133-145 | For 1, 2, 3, 4, 100 the entry has mean 22, variance 1522 and no anomaly. |
| `Anomaly.SpreadNumbers` | backend/app/main.py:128-129 | The valid numbers of that column are the column itself. |
| `Anomaly.SpreadMoments` | backend/app/main.py:133-134 | Its mean is 22 and its population variance 1522. |
| `Anomaly.SpreadFlags` | backend/app/main.py:136-139 | None of its values is above the threshold. |
| `InsightRules.RowCount` | backend/app/main.py:162 | The row count the missing-data rule divides by is at least 1. |
| `InsightRules.LabelColumns` | backend/app/main.py:193-198 | The dominance rule sees every column's non-missing values as strings, in table order. |
| `InsightRules.DominanceRule` | backend/app/main.py:193-208 | The dominance rule only ever reports a dominant category of the column it looked at. |
| `InsightRules.DominanceOfColumn` | backend/app/main.py:194-208 | One pass of the dominance loop gives the dominance rule's verdict on that column. |
| `InsightRules.MissingDataLoop` | backend/app/main.py:164-170 | The loop builds exactly the missing-data insights of the audit, in order. |
| `InsightRules.VariabilityLoop` | backend/app/main.py:172-182 | The loop builds exactly the variability insights of the statistics, in order. |
| `InsightRules.AnomalyLoop` | backend/app/main.py:183-191 | The loop builds exactly the anomaly insights of the report, in order. |
| `InsightRules.DominanceLoop` | backend/app/main.py:192-208 | The loop builds exactly the dominance insights of the table's columns, in order. |
| `InsightRules.BuildInsights` | backend/app/main.py:153-213 | The four loops and the fallback give exactly the insight list. |
| `InsightRules.ThresholdsAsComparisons` | backend/app/main.py:166-205 | A missing ratio of at least 0.2 is `5 * missing >= rows`, and a dominant share of at least 0.5 is `2 * occurrences >= nonNull`. A range-to-mean ratio of at least 1 with a positive mean is `max - min >= mean`. |
| `InsightRules.MissingRanks` | backend/app/main.py:164-170 | The missing-data loop only produces missing-data insights. |
| `InsightRules.VariabilityRanks` | backend/app/main.py:172-182 | The variability loop only produces variability insights. |
| `InsightRules.AnomalyRanks` | backend/app/main.py:183-191 | The anomaly loop only produces anomaly insights. |
| `InsightRules.DominanceRanks` | backend/app/main.py:192-208 | The dominance loop only produces dominance insights. |
| `InsightRules.GroupRanks` | backend/app/main.py:164-208 | Each rule group holds only the insights of its own kind. |
| `InsightRules.ConcatInOrder` | backend/app/main.py:159-208 | Appending the four groups in rule order gives a list ordered by rule. |
| `InsightRules.GroupsNoFallback` | backend/app/main.py:159-208 | The four groups never contain the fallback. |
| `InsightRules.GroupsInOrder` | backend/app/main.py:159-211 | With the fallback, the list is non-empty and ordered by rule, and it contains the fallback only when that is all it contains. |
| `InsightRules.GroupsFallbackIff` | backend/app/main.py:210-211 | The list is the fallback alone exactly when all four groups are empty. |
| `InsightRules.GroupsMembers` | backend/app/main.py:159-211 | An insight is in the list exactly when it is in the group of its kind, or it is the fallback and the list is the fallback alone. |
| `InsightRules.FoundHasNoFallback` | backend/app/main.py:159-208 | The rules' own insights never include the fallback. |
| `InsightRules.Insights` | backend/app/main.py:153-213 | The insight list, computed by `InsightRules.BuildInsights`. It is stated by `InsightRules.InsightsInOrder` (non-empty, rule order, fallback alone), `InsightRules.FallbackIff` and `InsightRules.InsightMembers`, and by the per-rule `*InsightIff` lemmas. |
| `InsightRules.WithFallback` | backend/app/main.py:210-211 | The fallback step. `InsightRules.GroupsInOrder` and `InsightRules.GroupsFallbackIff` state that it adds the fallback exactly when the four groups are empty. |
| `InsightRules.InsightsInOrder` | backend/app/main.py:153-213 | The insights are never empty. They come in rule order: missing data, variability, anomalies, dominance. The fallback appears only alone. |
| `InsightRules.FallbackIff` | backend/app/main.py:162-211 | The insights are the fallback alone exactly when no rule fires anywhere. That means: no column has a missing ratio of at least 0.2, no statistics entry has a wide range, no column has an anomaly, and no column has a dominant category. |
| `InsightRules.FallbackWhenNothingFound` | backend/app/main.py:210-211 | The insights are the fallback alone exactly when every rule group is empty. |
| `InsightRules.MissingNone` | backend/app/main.py:164-170 | No missing-data insight exactly when no column reaches the 20% share. |
| `InsightRules.VariabilityNone` | backend/app/main.py:172-182 | No variability insight exactly when no statistics entry has a wide range. |
| `InsightRules.AnomalyNone` | backend/app/main.py:183-191 | No anomaly insight exactly when no entry has an anomaly. |
| `InsightRules.InsightMembers` | backend/app/main.py:153-213 | An insight is reported exactly when the rule of its kind produces it, or it is the fallback and the list is the fallback alone. |
| `InsightRules.MissingInsightIff` | backend/app/main.py:161-170 | A missing-data insight reports an audit entry with its count exactly when the count is at least a fifth of `max(rows, 1)`. |
| `InsightRules.MissingMember` | backend/app/main.py:164-170 | The same, for the missing-data group on its own. |
| `InsightRules.VariabilityInsightIff` | backend/app/main.py:172-182 | A variability insight reports a statistics entry's range and mean exactly when the mean is positive and the range is at least the mean. |
| `InsightRules.VariabilityMember` | backend/app/main.py:172-182 | The same, for the variability group on its own. |
| `InsightRules.AnomalyInsightIff` | backend/app/main.py:183-191 | An anomaly insight reports an anomaly entry with its count exactly when the count is positive. |
| `InsightRules.AnomalyMember` | backend/app/main.py:183-191 | The same, for the anomaly group on its own. |
| `InsightRules.DominanceInsightIff` | backend/app/main.py:192-208 | A dominance insight reports a column, its mode, the mode's frequency and the number of values. It does so exactly when the column has values, at most 10 of them distinct, and the mode covers at least half. |
| `InsightRules.DominanceMember` | backend/app/main.py:192-208 | The same, for the dominance group on its own. |
| `InsightRules.DominanceRuleIff` | backend/app/main.py:194-208 | The same, for one column. |
| `Charts.SingleColumnCharts` | backend/app/main.py:228-251 | Each single-column loop gives one chart per column, in order. |
| `Charts.PairCharts` | backend/app/main.py:254-265 | The nested loop gives the pair charts, outer loop over categorical columns. |
| `Charts.BuildChartSuggestions` | backend/app/main.py:216-276 | The loops and the fallback give exactly the recommendation list. |
| `Charts.ColumnsOfTypeIff` | backend/app/main.py:219-225 | A column is in a type's list exactly when the type map gives it that type. |
| `Charts.ColumnsOfTypeEmpty` | backend/app/main.py:219-225 | A type's list is empty exactly when no column has that type. |
| `Charts.PairsLength` | backend/app/main.py:254-265 | There are exactly `|categorical| * |numeric|` pair charts. |
| `Charts.PairAt` | backend/app/main.py:254-265 | The pair of the i-th categorical and j-th numeric column sits at position `i * |numeric| + j`. |
| `Charts.PairsMembers` | backend/app/main.py:254-265 | A pair chart is produced exactly for a categorical column and a numeric column. |
| `Charts.MapMember` | backend/app/main.py:228-251 | A single-column loop produces a chart exactly for a column of its list. |
| `Charts.RecommendedMembers` | backend/app/main.py:227-265 | A chart is recommended exactly when it is a bar of a categorical column, a histogram of a numeric one, a line of a date one, or a categorical-numeric pair. |
| `Charts.SuggestionMembers` | backend/app/main.py:216-276 | The same, stated over the type map. |
| `Charts.BarIff` | backend/app/main.py:228-235 | A bar chart is suggested for a column exactly when it is categorical. |
| `Charts.HistogramIff` | backend/app/main.py:236-243 | A histogram is suggested for a column exactly when it is numeric. |
| `Charts.LineIff` | backend/app/main.py:244-251 | A line chart is suggested for a column exactly when it is a date column. |
| `Charts.PairIff` | backend/app/main.py:254-265 | A pie or grouped bar chart is suggested for a pair exactly when the first is categorical and the second numeric. |
| `Charts.Suggestions` | backend/app/main.py:216-276 | The recommendation list, computed by `Charts.BuildChartSuggestions`. It is stated by `Charts.SuggestionsShape`, `Charts.SuggestionMembers` and the four `*Iff` lemmas. |
| `Charts.ChartSuggestion.Reason` | backend/app/main.py:228-274 | The sentence of each chart. `Charts.ReasonNamesColumns` states that it names every column of the suggestion. |
| `Charts.ReasonMentionsColumns` | backend/app/main.py:228-274 | A suggestion with the right number of columns for its type has a reason naming each of them, quoted. |
| `Charts.ReasonNamesColumns` | backend/app/main.py:216-276 | The reason of every recommendation names, quoted, each column it is about. |
| `Charts.SuggestionsShape` | backend/app/main.py:216-276 | The list is never empty. It is the table fallback exactly when every column is text. Otherwise it is bars, histograms, lines, then pairs, with `|cat| + |num| + |date| + |cat| * |num|` charts. |
| `Charts.NothingRecommendedIff` | backend/app/main.py:267 | Nothing is recommended exactly when there are no categorical, numeric or date columns, that is, when every column is text. |
| `Charts.FallbackAlone` | backend/app/main.py:267-274 | The table fallback appears only alone. |
| `Charts.PartsOfFour` | backend/app/main.py:227-265 | The recommendation list is its four parts laid end to end. |
| `Charts.SingleChartsOrder` | backend/app/main.py:227-251 | The k-th bar, histogram and line charts sit at their group's offset plus k, for the k-th column of the type. |
| `Charts.PairChartsOrder` | backend/app/main.py:253-265 | The pair chart of the i-th categorical and j-th numeric column follows all single-column charts, at `i * |numeric| + j`. |
| `Report.Analyze` | backend/app/main.py:279-293 | `analyze_dataframe`. Its parts are stated by `Report.ColumnTypeMembers` and `Report.ChartsFollowTypes` (types and charts), `Report.MissingInsightsOfTable` and `Report.VariabilityInsightsOfTable` (insights), and `Report.DashboardNeverEmpty`. |
| `Report.BuildDashboard` | backend/app/main.py:296-326 | `build_dashboard_config`. Its contract is stated by `Report.DashboardSummary`, `Report.DashboardNeverEmpty` and `Report.HighlightsMatchInsights`. |
| `Report.Condense` | backend/app/main.py:298-326 | The dashboard built from an analysis. Its meta and summary are stated by `Report.CondensedSummary`. |
| `Report.TotalMissing` | backend/app/main.py:301 | `sum(missing_values.values())`. `Report.TotalMissingIsMissingCells` states that on the audit it is the table's number of missing cells. |
| `Report.TotalMissingIsMissingCells` | backend/app/main.py:301 | The sum of the per-column missing counts is the number of missing cells of the table. |
| `Report.DashboardSummary` | backend/app/main.py:296-322 | The dashboard's meta is the table's shape and the clock reading. The summary is health score (in 0..100), duplicate rows and total missing values. |
| `Report.CondensedSummary` | backend/app/main.py:298-322 | The same, for any analysis whose audit is the table's audit. |
| `Report.DashboardNeverEmpty` | backend/app/main.py:279-293 | The dashboard's charts and insights are the analysis's, and neither is empty. |
| `Report.Highlights` | backend/app/main.py:306-310 | The `anomaly_highlights` list. Its members are stated by `Report.HighlightMembers`, their agreement with the anomaly insights by `Report.HighlightsMatchInsights`. |
| `Report.HighlightMembers` | backend/app/main.py:306-310 | A column is highlighted with a count exactly when the anomaly report gives it that many anomalies, at least one. |
| `Report.HighlightsMatchInsights` | backend/app/main.py:306-310 | The highlights name exactly the anomaly entries with anomalies, and exactly the columns the anomaly insights report, with the same count. |
| `Report.ColumnTypeMembers` | backend/app/main.py:280-282 | A column is paired with a type exactly when that is its detected type. |
| `Report.ChartsFollowTypes` | backend/app/main.py:279-293 | On the analysis of a table, bar, histogram and line charts go to exactly the categorical, numeric and date columns. Pair charts go to exactly the categorical-numeric pairs. |
| `Report.MissingInsightsOfTable` | backend/app/main.py:279-293 | On the analysis, a missing-data insight names a column whose missing count is at least a fifth of `max(rows, 1)`. It names every such column. |
| `Report.VariabilityInsightsOfTable` | backend/app/main.py:279-293 | On the analysis, a variability insight names exactly the columns whose valid numbers have a positive mean and a range of at least the mean. |
| `Report.WideSpreadEntries` | backend/app/main.py:332-342 | A statistics entry has a wide range exactly when its column's valid numbers do. |
| `Report.WideSpreadColumn` | backend/app/main.py:332-342 | A wide statistics entry comes from a column whose numbers are wide. |
| `Report.WideSpreadEntry` | backend/app/main.py:332-342 | A column with wide numbers has a wide statistics entry. |

## Left out

- Reading the CSV and the HTTP 400 on a parse error (`parse_csv_text`, backend/app/main.py:95-99) are not modelled. The model starts from the DataFrame that read_csv returns.
- `detect_types_from_csv_text` (backend/app/main.py:86-92) is only its parse followed by the type map, which is `Classifier.ColumnTypes`.
- `pd.to_datetime`, `pd.to_numeric` on strings and `str` of a float64 value are the `Coercion` parameter. Their parsing and printing rules are pandas', not this project's.
- `Classifier.DetectColumnType`: `parsesAsDate` judges each string on its own. pandas 2's `pd.to_datetime` on a Series (backend/app/main.py:67) infers one format from the first value and coerces the others against it. A column whose strings all parse as dates one by one, but in mixed formats, may therefore get a lower date share in pandas than in the model.
- `InsightRules.LabelsOf`: a float64 value's string is whatever `render` gives for it, one renderer for the whole table. Python's shortest round-trip printing of floats is not modelled. An integer value's string is modelled exactly.
- `Tables.Table.Valid` does not require a column's numbers to be all `Int` or all `Num`, nor an integer column to be free of blanks. The properties hold for such tables too; a column of `Int` cells and blanks, or one whose integers fit neither 64-bit type, gets the exact total.
- The `is_datetime64_any_dtype` branch (backend/app/main.py:62-63) is not modelled. read_csv without `parse_dates` never produces a datetime column.
- Boolean columns are not modelled. read_csv makes `True`/`False` columns `bool`, which pandas counts as numeric; the model has no boolean cell.
- `Classifier.NativeNumbersAreNumeric`: `is_numeric_dtype` is modelled as "every non-missing cell is a number". A column with any unparsable entry has object dtype, so `is_numeric_dtype` is false, as `AllNumbers` is whenever a cell is a `Str`. Such a column may still hold native integers beside its strings (read_csv reads in chunks); the model agrees on it, since its one `Str` cell decides.
- Floating point is not modelled: every quantity is an exact real.
- `Audit.HealthScoreBounds`: states the score before `round(..., 2)` (backend/app/main.py:116).
- `Stats.BuildNumericStats`: the entries hold exact values, not values rounded to 4 places (backend/app/main.py:338-341).
- `Stats.NumericStats`: the 64-bit wrap of `total` follows the dtype read_csv gives a column of `Int` cells (`Stats.Int64Column`, `Stats.UInt64Column`). Two cases keep the exact total. (1) `pd.to_numeric` also makes an object column int64 or uint64 when every entry parses as an integer; the model gives such a column the exact total, as it does for a float64 column. (2) An all-`Int` column that fits neither int64 nor uint64 is one read_csv would have left as strings; the model gives it the exact total, which is what `pd.to_numeric`'s float64 gives up to floating point. `Stats.SumBounds` is about the exact sum, which the total of an int64 or uint64 column equals only when it fits the type.
- `Anomaly.BuildAnomalyReport`:
  - the entry keeps the variance rather than `std_dev` and `threshold`, because there is no exact square root on reals;
  - no value is rounded to 4 places (backend/app/main.py:142-147).
- `InsightRules.VariabilityInsightIff`: the rule reads the statistics it is given. In the analysis those are exact, whereas the source compares rounded statistics, so a range within rounding error of the mean may decide differently.
- The insight sentences are not modelled (backend/app/main.py:169, 180, 189, 207), including the rounded percentages inside them. An insight keeps the data its sentence reports. The chart reasons are modelled: `ChartSuggestion.Reason()` gives the sentence of each chart type.
- The clock reading `datetime.now(timezone.utc)` (backend/app/main.py:304) is the parameter `generatedAt`.
- The summary values are reals, as `DashboardSummaryItem.value: float` is. Pydantic's validation of the response shapes (backend/app/main.py:25-52) is not modelled.
- The HTTP routes, CORS setup, OpenAPI wiring and the frontend are not part of this model.
