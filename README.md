# Athlete performance analysis: the rule-driven core

`athlete_perf_analysis.py` loads a table of athletes (training hours, resting
heart rate, HRV, perceived stress, sleep, performance score, injury risk score,
gender, sport), prints summaries and draws charts. Between the charts sit a few
pieces of deterministic logic, and this project models them in Dafny:

- **Missing-value count** (`df.isnull().sum()`): the number of missing cells per column.
- **Insight rules**: five fixed comparisons against ±0.3 on entries of the
  correlation matrix. They are checked in a fixed order, and each one that holds
  prints one fixed message.
- **Bucketizers** (`pd.cut`): injury risk levels over bins `[0, 33, 66, 100]`
  and sleep buckets over `[0, 5, 7, 9, 12]`. Each adds a label column to the frame in place.
- **Group aggregates** (`groupby(...).mean()`): mean training hours per gender,
  and the five sports with the highest mean performance.
- **Top-quartile filter**: the rows whose performance score is strictly above
  the linearly interpolated 75th percentile.

The frame is a sequence of records. Each record is a map from column name to a
`Value`: `Missing` (NaN), `Num(real)` or `Text(string)`. A column that a record
lacks reads as missing. Numbers are exact reals. The frame that the script
mutates is the class `Frame.DataFrame`, with fields `columns` and `rows`. The
insight rules take the correlation matrix as an input: a map from
(row label, column label) to `Option<real>`, where `None` is a NaN entry.

Files: `wrappers.dfy` (Option, Result), `frame.dfy` (values, rows, the frame
class), `missing.dfy`, `insights.dfy`, `bucketize.dfy`, `groups.dfy`,
`quartile.dfy`.

Three points where the behaviour may differ from what a reader expects; the model follows the code:

- A reader might expect a value of exactly 0 to fall in the first risk level or
  sleep bucket. `pd.cut`'s default `include_lowest=False` makes every bin
  right-closed and open on the left, so 0 gets neither (`Bucketize.ZeroIsUnassigned`).
- A reader might expect the gender table in order of first appearance, such as
  `(M, 11), (F, 8)`. `groupby` sorts by key by default, so the table is
  `(F, 8), (M, 11)` (`GroupMeans.GenderExample`).
- A reader might expect tied sport means to keep their first-seen order.
  `sort_values` uses an unstable sort by default, so no order among ties is promised.

## Model

| member | source | states |
|---|---|---|
| `Frame.WithColumnCells` | athlete_perf_analysis.py:134 | assigning a label column keeps the row count, gives every row exactly one new cell under the target name, and leaves every other column's view unchanged |
| `Frame.DataFrame.AssignColumn` | athlete_perf_analysis.py:134 | `df[name] = values` updates the frame in place: an existing column is overwritten where it stands, a new one is appended at the end, and the frame stays well formed |
| `MissingValues.MissingCountIsMultiplicity` | athlete_perf_analysis.py:18 | the missing count of a column equals the multiplicity of "missing" in that column's view |
| `MissingValues.MissingPlusPresent` | athlete_perf_analysis.py:18 | missing cells plus present cells account for every row |
| `MissingValues.NoMissingIffZero` | athlete_perf_analysis.py:18 | a column's count is zero exactly when none of its cells is missing |
| `MissingValues.MissingCountAppend` | athlete_perf_analysis.py:18 | the missing count of two row blocks joined together is the sum of their counts |
| `MissingValues.MissingCountsSpec` | athlete_perf_analysis.py:18 | the result has one entry per column, in column order, each holding that column's number of missing cells |
| `Insights.Evaluate` | athlete_perf_analysis.py:59-79 | a lookup of a position absent from the matrix (KeyError) is reported, and nothing is reported exactly when all positions are present; every printed insight comes from a rule that fires; no more insights are printed than there are rules |
| `Insights.EvaluateComplete` | athlete_perf_analysis.py:59-79 | every rule is evaluated: a rule that fires, with no absent position at or before it, has its insight printed |
| `Insights.EvaluateAppend` | athlete_perf_analysis.py:59-79 | output follows rule order: when every position of a first block of rules is present, running it and then a second block prints the first block's insights before the second's, and any KeyError is the second block's |
| `Insights.ActionableInsightsSpec` | athlete_perf_analysis.py:62-79 | the output is the five messages in rule order (sleep, training, stress, HRV, resting HR), each present exactly when its entry is defined and strictly above 0.3, or strictly below -0.3 for stress and HRV |
| `Insights.InsightPresentIff` | athlete_perf_analysis.py:62-79 | each of the five messages is printed if and only if its entry is defined and strictly beyond its threshold |
| `Insights.AllUndefinedNoInsights` | athlete_perf_analysis.py:62-79 | when every entry the rules read is NaN, no insight is printed |
| `Insights.ThresholdsAreStrict` | athlete_perf_analysis.py:62-79 | entries exactly at 0.3 and -0.3 fire no rule |
| `Insights.MissingEntryStops` | athlete_perf_analysis.py:62-79 | when the k-th rule's position is absent, the output is the insights of the first k rules, followed by the KeyError for that position |
| `Bucketize.CheckCut` | athlete_perf_analysis.py:132-134 | pandas' configuration checks, in its order: non-monotonic bins, duplicate edges, a non-numeric column, duplicate labels, a label count other than edges - 1; passing them implies sorted edges, distinct labels and one label per bin |
| `Bucketize.Cut` | athlete_perf_analysis.py:134 | `pd.cut` succeeds exactly when the configuration checks pass, and then gives one label or missing per row |
| `Bucketize.BinIndexSpec` | athlete_perf_analysis.py:134 | on sorted edges, a value falls in bin k if and only if it lies in the right-closed interval (edges[k], edges[k+1]] |
| `Bucketize.BinIndexNone` | athlete_perf_analysis.py:134 | on sorted edges, a value is unassigned if and only if it is at or below the first edge or above the last |
| `Bucketize.BinIndexMonotone` | athlete_perf_analysis.py:165 | a larger value never falls in an earlier bin |
| `Bucketize.CutSpec` | athlete_perf_analysis.py:134 | after a successful cut, row i carries label k if and only if its value lies in (edges[k], edges[k+1]], and it is missing if and only if its value is missing or in no bin |
| `Bucketize.CutInto` | athlete_perf_analysis.py:134 | `df[target] = pd.cut(df[source], ...)`: a missing source column or a failed check leaves the frame unchanged and reports the error; otherwise the label column is assigned |
| `Bucketize.ConfigurationsAccepted` | athlete_perf_analysis.py:132-134 | the script's two bin/label configurations pass every check on a numeric column |
| `Bucketize.RiskLevelSpec` | athlete_perf_analysis.py:132-134 | Low Risk iff 0 < s <= 33, Moderate Risk iff 33 < s <= 66, High Risk iff 66 < s <= 100; missing, non-positive and over-100 scores are unassigned |
| `Bucketize.SleepBucketSpec` | athlete_perf_analysis.py:165 | each sleep bucket is its right-closed interval; values in (0, 12] are always assigned, and every other value is unassigned |
| `Bucketize.SleepBucketMonotone` | athlete_perf_analysis.py:165 | more sleep never lands in an earlier bucket |
| `Bucketize.ZeroIsUnassigned` | athlete_perf_analysis.py:132-134 | a value of exactly 0 gets neither a risk level nor a sleep bucket |
| `Bucketize.AddInjuryRiskLevel` | athlete_perf_analysis.py:134 | succeeds exactly when the score column exists and is numeric; an absent column gives the KeyError and a non-numeric cell the TypeError, leaving the frame unchanged; on success the column list gains `Injury_Risk_Level` at the end (or keeps it where it stands), each row gains its risk level and nothing else changes |
| `Bucketize.AddSleepBucket` | athlete_perf_analysis.py:165 | succeeds exactly when the sleep column exists and is numeric; an absent column gives the KeyError and a non-numeric cell the TypeError, leaving the frame unchanged; on success the column list gains `Sleep_Bucket` at the end (or keeps it where it stands), each row gains its sleep bucket and nothing else changes |
| `GroupMeans.GroupKeys` | athlete_perf_analysis.py:82 | the group keys are strictly increasing, and a key is present exactly when some row has it (missing keys form no group) |
| `GroupMeans.MeanBy` | athlete_perf_analysis.py:82 | one entry per distinct non-missing key, ordered by key, each holding the sum of its group's non-missing targets divided by their count (NaN when there are none) |
| `GroupMeans.MeanBounds` | athlete_perf_analysis.py:82 | a group's mean lies between any lower and upper bound of that group's values |
| `GroupMeans.GroupsPartitionRows` | athlete_perf_analysis.py:82 | the groups partition the rows: every row with a key and a target value is counted in exactly one group |
| `GroupMeans.GenderExample` | athlete_perf_analysis.py:82 | genders M, M, F with 10, 12 and 8 training hours give the table (F, 8), (M, 11) |
| `GroupMeans.SortDesc` | athlete_perf_analysis.py:86 | `sort_values(ascending=False)` returns a permutation in non-increasing order of mean, with NaN means last |
| `GroupMeans.TopNSpec` | athlete_perf_analysis.py:86 | `head(n)` after sorting keeps exactly min(n, groups) entries drawn from the groups, in non-increasing order, and every kept mean ranks at least as high as every dropped one |
| `GroupMeans.TopSportsSpec` | athlete_perf_analysis.py:86 | the top-sports table has min(5, sports) entries, in non-increasing mean order, each a real sport with its own mean |
| `TopQuartile.SortAsc` | athlete_perf_analysis.py:161 | the order statistics are the values sorted ascending, as a permutation |
| `TopQuartile.PositionSplit` | athlete_perf_analysis.py:161 | the interpolation position 0.75 * (n - 1) splits into a lower rank below n and a fraction in [0, 1) |
| `TopQuartile.InterpolateBetween` | athlete_perf_analysis.py:161 | the interpolated value lies between the two order statistics it interpolates |
| `TopQuartile.Quantile75` | athlete_perf_analysis.py:161 | the percentile is NaN exactly when the column has no numbers |
| `TopQuartile.Quantile75Bounds` | athlete_perf_analysis.py:161 | the percentile lies between the smallest and the largest value |
| `TopQuartile.InterpolateExample` | athlete_perf_analysis.py:161 | sorted scores 40, 55, 80, 85 give the percentile 81.25 |
| `TopQuartile.AboveIsSubsequence` | athlete_perf_analysis.py:161 | the filtered rows are a subsequence of the input: rows are left out, and the kept ones stay in order |
| `TopQuartile.AboveMembers` | athlete_perf_analysis.py:161 | a row is kept if and only if its score is a number strictly above the threshold |
| `TopQuartile.TopPerformersSpec` | athlete_perf_analysis.py:161 | the top performers are a subsequence of the rows; they are exactly the rows scoring strictly above the percentile (none when no score exists), and their number equals the number of scores strictly above it; with n scores there are at most n - 1 - floor(0.75 (n - 1)) of them |

## Left out

- Loading the CSV file (lines 6-7) is file I/O. The frame is a given value.
- All printing, `df.info()`, `df.head()` and `describe()` output (lines 10-22, 163) is left out as display only. `describe()` also needs square roots for the standard deviation.
- All plotting and styling calls (lines 29-53, 101-130, 136-159, 166-168) are rendering in libraries that are not modelled. This includes the `dropna()` frame at line 101, which only feeds a plot.
- The Pearson correlation itself (line 50) needs square roots over floats, so the matrix is an input of the insight rules.
- Float rounding is not modelled: values are exact reals. It only shows exactly at the thresholds and bin edges.
- GroupMeans.MeanBy: requires a string-or-missing key column and a number-or-missing target column. pandas' behaviour on mixed-type keys, and its TypeError on a non-numeric mean, are not modelled.
- TopQuartile.TopPerformers: requires a number-or-missing score column. The TypeError pandas raises on text scores is not modelled.
- GroupMeans.TopSports: the order among sports with equal means is the one a stable insertion sort gives. pandas' default sort does not promise that order, so no contract states it.
- A column name that the frame lacks raises KeyError in pandas at lines 82, 86 and 161. The pure functions read its cells as missing instead. The bucket methods do report the KeyError.
- Bucketize.CheckCut: `pd.cut`'s labels become a pandas Categorical. The model stores them as `Text` cells, and the category metadata (the ordered label list) is not kept.
