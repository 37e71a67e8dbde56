# ML4J core in Dafny

This project models the data-handling and nearest-neighbour core of ML4J,
a small Java toolkit for tabular data and machine learning.

The model covers:

- the column-oriented `DataFrame`, which maps column names to lists of cells
  and keeps a recorded row and column count;
- the column statistics in `StatsUtils`;
- the transformations applied before training: `Encoder`, `Scaler`,
  `OutlierHandler`, `NullHandler` and `Splitter`;
- the two k-nearest-neighbour learners, `KNeighboursClassification` and
  `KNeighboursRegression`.

Each Java exception becomes an `Err` value of a `Result` or `Outcome`. The
error is named after its cause: `ColumnNotFound`, `NullPointer`,
`NotNumeric`, `OutOfRange`, `Incomparable` and so on.

A cell is one of the following: an integer, a double, a string, or null.

Each Java operation appears twice:

- as a method that follows the source loop by loop, with its invariants;
- as a specification function on values (the `...Of` functions).

Each method's `ensures` ties it to its specification function. The lemmas
then state what the operation promises in terms of that function.

Files and modules:

| file | module | models |
|---|---|---|
| `cells.dfy` | `Cells` | cells, errors, `Double.valueOf(toString())`, the ordering `compareTo` gives cells |
| `seqs.dfy` | `Seqs` | sequence helpers: gathering by positions, permutations, distinct values, counts |
| `sorting.dfy` | `Sorting` | the stable sort `List.sort` performs on a list of row positions |
| `dataframe.dfy` | `Frames` | `DataFrame` |
| `stats.dfy` | `Stats` | `StatsUtils` |
| `encoder.dfy` | `Encoders` | `Encoder` |
| `scaler.dfy` | `Scalers` | `Scaler` |
| `outliers.dfy` | `Outliers` | `OutlierHandler` |
| `nulls.dfy` | `Nulls` | `NullHandler` |
| `splitter.dfy` | `Splitters` | `Splitter` |
| `neighbours.dfy` | `Neighbours` | `euclideanDistance` and `getKNearestIndices`, shared by both learners |
| `knn_classification.dfy` | `Classification` | `KNeighboursClassification` |
| `knn_regression.dfy` | `Regression` | `KNeighboursRegression` |

Where the code departs from what its names and comments suggest, the
model follows the code:

- `labelEncoding` increments its counter on every row, not on every new
  value. A value's code is therefore the row of its first occurrence:
  `a, b, a, c` is coded `0, 1, 0, 3` (`Encoders.LabelCodesExample`).
- Both `oneHotEncoding` forms call `dropColumn` and discard the table it
  returns. The source column therefore stays in the result
  (`Encoders.OneHotKeepsSource`).
- The single-column `oneHotEncoding` names its indicator columns with
  `toString()` as it is. The list form replaces each run of whitespace with
  one underscore.
- `varianceValue` computes `squaredSum / n - 1`, which is neither the
  population variance nor the sample variance. See "Findings".
- `minimumValue`, `maximumValue`, `medianColumn` and the quartiles return
  0.0 for a column without numbers, whereas `meanColumn` throws. `Q1Value`
  and `Q3Value` of a single number read an empty half and throw.
- The `DataFrame` constructor takes the row count from the first column the
  map yields. `withColumn` and `InPlaceRemoveColumn` leave the recorded
  counts as they were.
- Scaling and outlier removal read every cell with
  `Double.valueOf(toString())`. A string cell therefore fails with
  `NotNumeric`; it is not skipped.

## Model

| member | source | states |
|---|---|---|
| Frames.DataFrame.Empty | mlcore/dataframe/DataFrame.java:16-21 | the new frame has no columns and zero recorded rows and columns |
| Frames.DataFrame.constructor | mlcore/dataframe/DataFrame.java:23-34 | the frame holds the given map; the column count is its size; the row count is the length of some column, or 0 for an empty map |
| Frames.DataFrame.Head | mlcore/dataframe/DataFrame.java:83-90 | the new frame holds every column cut to its first min(5, length) cells (HeadSelectsFirstRows: on a rectangular table, selecting rows 0..min(5,n)-1) |
| Frames.DataFrame.Tail | mlcore/dataframe/DataFrame.java:92-100 | the new frame holds every column's last min(5, length) cells (TailSelectsLastRows) |
| Frames.DataFrame.GetColumn | mlcore/dataframe/DataFrame.java:102-109 | an absent name gives ColumnNotFound; otherwise a new frame holding exactly that one column |
| Frames.DataFrame.GetColumns | mlcore/dataframe/DataFrame.java:111-124 | the first absent name gives ColumnNotFound; otherwise a new frame holding exactly the listed columns |
| Frames.DataFrame.WithColumn | mlcore/dataframe/DataFrame.java:149-153 | the frame's own map gains or overwrites the column, and the returned new frame holds that same map |
| Frames.DataFrame.InPlaceRemoveColumn | mlcore/dataframe/DataFrame.java:156-162 | a present column is removed from the map and nothing else changes; an absent one fails with ColumnNotFound and leaves the map as it was |
| Frames.DataFrame.DropColumn | mlcore/dataframe/DataFrame.java:165-173 | an absent column gives ColumnNotFound; otherwise a new frame holding the map without that column |
| Frames.DataFrame.WithColumnReplaced | mlcore/dataframe/DataFrame.java:174-185 | an absent old name gives ColumnNotFound; otherwise the old column is removed, the new one is put in, and the counts are the input frame's |
| Frames.DataFrame.MergeDataFrameColumns | mlcore/dataframe/DataFrame.java:187-204 | an empty side gives NoColumns; otherwise the result is a union of two disjoint key sets, RowCountMismatch or DuplicateColumn; RowCountMismatch only when a column of each side differ in length, a union or DuplicateColumn only when two such columns agree; DuplicateColumn only when the key sets overlap |
| Frames.DataFrame.MergeDataFrameRows | mlcore/dataframe/DataFrame.java:206-219 | the result is MergeRowsOf, each column of this frame followed by the same column of the other, or ColumnsMismatch (MergeRowsThenSplit) |
| Frames.DataFrame.Headers | mlcore/dataframe/DataFrame.java:227 | the header list is an ordering of the map's keys, each key exactly once |
| Frames.DataFrame.To2DArray | mlcore/dataframe/DataFrame.java:222-240 | the matrix exists exactly when every needed cell can be read; it is nRows by nCols, and entry (i, j) is row i of header j as a double, with null read as 0.0 |
| Frames.DataFrame.To1DArray | mlcore/dataframe/DataFrame.java:243-261 | fails unless the frame has exactly one recorded column; otherwise succeeds exactly when every row's cell is readable, and entry i is that cell as a double |
| Frames.DataFrame.SelectRows | mlcore/dataframe/DataFrame.java:262-277 | a new frame whose every column is the input column at the given positions, in the given order, repeats allowed; a position out of range gives OutOfRange |
| Frames.GatherColumn | mlcore/dataframe/DataFrame.java:267-272 | the column at the given positions, or OutOfRange exactly when a position is outside the column |
| Frames.SelectRowsTable | mlcore/dataframe/DataFrame.java:262-277 | the loop over the columns computes SelectRowsOf |
| Frames.SelectAllRows | mlcore/dataframe/DataFrame.java:262-277 | selecting 0..n-1 from a rectangular table of n rows gives back the table |
| Frames.SelectTwice | mlcore/dataframe/DataFrame.java:262-277 | selecting b from the selection at a is selecting at a composed with b |
| Frames.HeadSelectsFirstRows | mlcore/dataframe/DataFrame.java:83-90 | head equals selecting the first min(5, n) rows |
| Frames.TailSelectsLastRows | mlcore/dataframe/DataFrame.java:92-100 | tail equals selecting the last min(5, n) rows |
| Frames.MergeRowsThenSplit | mlcore/dataframe/DataFrame.java:206-219 | merging rows of two rectangular tables with the same columns succeeds, has n + m rows, and its first n rows and last m rows give back the two inputs |
| Stats.ValueCounts | mlcore/dataframe/utils/StatsUtils.java:13-28 | the keys are the column's distinct values in first-occurrence order, and each maps to its number of occurrences; an absent column gives ColumnNotFound |
| Stats.CountsSumToLength | mlcore/dataframe/utils/StatsUtils.java:13-28 | the counts of the distinct values add up to the column's length |
| Stats.MeanColumn | mlcore/dataframe/utils/StatsUtils.java:31-54 | the mean of the column's numbers; NoNumericValues when it has none; ColumnNotFound when it is absent |
| Stats.MeanBetweenMinMax | mlcore/dataframe/utils/StatsUtils.java:31-54 | the mean of a non-empty list lies between its minimum and maximum |
| Stats.SortByColumn | mlcore/dataframe/utils/StatsUtils.java:57-100 | the new frame is SortByColumnOf: ColumnNotFound, Incomparable for cells compareTo cannot order, or every column reordered by one stable sort of the key column (SortByColumnSorted) |
| Stats.SortByColumnSorted | mlcore/dataframe/utils/StatsUtils.java:57-100 | the row order is the unique stable sort of the key column; every column is gathered by it; the key column comes out ordered and is a permutation of the input |
| Stats.SortedNumericValues | mlcore/dataframe/utils/StatsUtils.java:106-112 | the numbers of the column sorted ascending by sortByColumn, in that order |
| Stats.SortedNumericsAscending | mlcore/dataframe/utils/StatsUtils.java:106-112 | the number list median and the quartiles work on is ascending |
| Stats.NumericsAscending | mlcore/dataframe/utils/StatsUtils.java:106-112 | the numbers of an ordered column of one kind are ascending |
| Stats.MedianColumn | mlcore/dataframe/utils/StatsUtils.java:103-127 | the middle number, or the mean of the two middle numbers, of the sorted numbers |
| Stats.ModeColumn | mlcore/dataframe/utils/StatsUtils.java:130-145 | a most frequent value, the earliest in first-occurrence order among those, or null for an empty column; ColumnNotFound when absent |
| Stats.ModeUnique | mlcore/dataframe/utils/StatsUtils.java:130-145 | this defines the mode uniquely |
| Stats.MinimumValue | mlcore/dataframe/utils/StatsUtils.java:148-173 | the least number of the column (MinOfIsLeast); ColumnNotFound when absent |
| Stats.MinOfIsLeast | mlcore/dataframe/utils/StatsUtils.java:148-173 | MinOf of a non-empty list is an element and no element is smaller |
| Stats.MaximumValue | mlcore/dataframe/utils/StatsUtils.java:175-200 | the greatest number of the column (MaxOfIsGreatest); ColumnNotFound when absent |
| Stats.MaxOfIsGreatest | mlcore/dataframe/utils/StatsUtils.java:175-200 | MaxOf of a non-empty list is an element and no element is larger |
| Stats.SumValue | mlcore/dataframe/utils/StatsUtils.java:202-221 | the sum of the column's numbers; ColumnNotFound when absent |
| Stats.VarianceValue | mlcore/dataframe/utils/StatsUtils.java:223-256 | the value the code computes: 0 for at most one number, otherwise the squared deviations from the mean divided by n, minus one |
| Stats.CollectNumbers | mlcore/dataframe/utils/StatsUtils.java:233-237 | the numbers of the column in row order |
| Stats.AddUp | mlcore/dataframe/utils/StatsUtils.java:244-247 | the sum of the list |
| Stats.AddSquaredDeviations | mlcore/dataframe/utils/StatsUtils.java:250-253 | the sum of the squared differences from the mean |
| Stats.VarianceAsWrittenAtLeastMinusOne | mlcore/dataframe/utils/StatsUtils.java:255 | the value returned is never below -1 |
| Stats.VarianceAsWrittenNegative | mlcore/dataframe/utils/StatsUtils.java:255 | as written, the two numbers 1.0, 1.0 have variance -1 |
| Stats.SampleVarianceValue | mlcore/dataframe/utils/StatsUtils.java:223-256 | the corrected computation, dividing by n - 1: never negative |
| Stats.SampleVarianceNonNegative | mlcore/dataframe/utils/StatsUtils.java:223-256 | the sample variance is never negative, and is 0 for 1.0, 1.0 |
| Stats.SquaredDeviationsNonNegative | mlcore/dataframe/utils/StatsUtils.java:250-253 | a sum of squared deviations is never negative |
| Stats.Q1Value | mlcore/dataframe/utils/StatsUtils.java:264-291 | the middle of the lower half of the sorted numbers; a single number gives OutOfRange |
| Stats.Q3Value | mlcore/dataframe/utils/StatsUtils.java:293-327 | the middle of the upper half, which leaves out the median of an odd-sized list |
| Stats.QuartilesOrdered | mlcore/dataframe/utils/StatsUtils.java:264-327 | on an ascending list of at least two numbers, Q1 <= median <= Q3 |
| Stats.QuartilesOfOneNumber | mlcore/dataframe/utils/StatsUtils.java:264-327 | with one number both quartiles fail with OutOfRange and the median is the number |
| Sorting.StableSortCorrect | mlcore/dataframe/utils/StatsUtils.java:74-97 | for a total preorder, the sort is a permutation of 0..n-1 that orders the keys and keeps equal keys in their original order |
| Sorting.StableSortUnique | mlcore/dataframe/utils/StatsUtils.java:74-97 | any stable sorting permutation is this one |
| Sorting.StableSortSameOrder | mlcore/models/KNeighboursClassification.java:110-119 | two key lists that compare alike at every pair of positions sort to the same permutation |
| Sorting.StableSortLength | mlcore/dataframe/utils/StatsUtils.java:74-97 | the sort has one position per key |
| Sorting.SortPrefixPermutation | mlcore/dataframe/utils/StatsUtils.java:74-97 | sorting the first n positions gives a permutation of 0..n-1 |
| Sorting.SortPrefixOrdered | mlcore/dataframe/utils/StatsUtils.java:74-97 | sorting the first n positions gives a stable order |
| Sorting.InsertLast | mlcore/dataframe/utils/StatsUtils.java:74-97 | shifting position i left into the sorted prefix gives the functional insertion, and the rest of the array is untouched |
| Sorting.SortIndices | mlcore/dataframe/utils/StatsUtils.java:74-97 | the in-place insertion sort of 0..n-1 leaves exactly StableSort in the array |
| Cells.CodeUnits | mlcore/dataframe/utils/StatsUtils.java:74-86 | a character is one UTF-16 code unit below U+10000 and otherwise a high surrogate followed by a low surrogate |
| Cells.StrLeTotal | mlcore/dataframe/utils/StatsUtils.java:74-86 | String.compareTo, which compares UTF-16 code units, orders any two strings |
| Cells.StrLeTransitive | mlcore/dataframe/utils/StatsUtils.java:74-86 | String.compareTo's order is transitive |
| Cells.SurrogateSortsFirst | mlcore/dataframe/utils/StatsUtils.java:74-86 | U+10000 sorts before U+E000 in String.compareTo's order, although its code point is larger |
| Cells.CellOrderTotal | mlcore/dataframe/utils/StatsUtils.java:74-86 | the ascending and the descending comparator are total preorders |
| Encoders.EncodeLabels | mlcore/dataframe/transformations/Encoder.java:29-32 | the loop produces LabelCodes: each row gets the row of its value's first occurrence |
| Encoders.LabelEncoding | mlcore/dataframe/transformations/Encoder.java:17-38 | an absent column gives ColumnNotFound; otherwise the column is replaced by `<name>_Encoded` holding the codes |
| Encoders.LabelEncodingAll | mlcore/dataframe/transformations/Encoder.java:40-62 | each listed column in turn on the table the previous ones left; the first absent name gives ColumnNotFound |
| Encoders.LabelCodesSameIff | mlcore/dataframe/transformations/Encoder.java:29-32 | two rows get the same code exactly when they hold the same value |
| Encoders.LabelCodesDecode | mlcore/dataframe/transformations/Encoder.java:29-32 | a row's code is an earlier or equal row holding the same value, and it is the row itself exactly when the value is new there |
| Encoders.LabelCodesExample | mlcore/dataframe/transformations/Encoder.java:29-32 | a, b, a, c gets codes 0, 1, 0, 3 |
| Encoders.ZeroColumns | mlcore/dataframe/transformations/Encoder.java:75-82 | one all-zero column per distinct value's indicator name; a null value throws NullPointer |
| Encoders.MarkRows | mlcore/dataframe/transformations/Encoder.java:83-87 | marking row by row turns the zero columns into the one-hot columns |
| Encoders.OneHotColumns | mlcore/dataframe/transformations/Encoder.java:75-87 | the one-hot columns of the values, or NullPointer for a null value |
| Encoders.AddColumns | mlcore/dataframe/transformations/Encoder.java:89-92 | the frame's map gains every new column |
| Encoders.OneHotEncoding | mlcore/dataframe/transformations/Encoder.java:64-96 | the result is the input table plus the indicator columns, which the lemmas below describe; ColumnNotFound or NullPointer otherwise |
| Encoders.OneHotStep | mlcore/dataframe/transformations/Encoder.java:101-131 | one pass of the list form's loop updates the working frame to the one-hot table of that column |
| Encoders.OneHotEncodingAll | mlcore/dataframe/transformations/Encoder.java:98-134 | the listed columns one-hot encoded in turn, with whitespace in labels collapsed |
| Encoders.OneHotExactlyOne | mlcore/dataframe/transformations/Encoder.java:75-87 | each indicator column has one cell per row; in every row, exactly the row value's indicator holds 1 and all others hold 0 |
| Encoders.OneHotDecodes | mlcore/dataframe/transformations/Encoder.java:75-87 | when distinct values get distinct labels, each indicator column marks exactly the rows of one value |
| Encoders.OneHotKeepsSource | mlcore/dataframe/transformations/Encoder.java:93 | the discarded dropColumn leaves the source column and every input column in the result |
| Encoders.OneHotAllLabelsHaveNoSpaces | mlcore/dataframe/transformations/Encoder.java:115 | in the list form each indicator name is `<name>_` followed by a label without whitespace |
| Encoders.CollapseSpacesNoSpaces | mlcore/dataframe/transformations/Encoder.java:115 | `replaceAll("\\s+", "_")` leaves no whitespace |
| Encoders.CollapseSpacesIdempotent | mlcore/dataframe/transformations/Encoder.java:115 | collapsing twice is collapsing once |
| Encoders.CollapseSpacesExample | mlcore/dataframe/transformations/Encoder.java:115 | `a \t b` becomes `a_b`: a run of whitespace becomes one underscore |
| Encoders.ParseTargets | mlcore/dataframe/transformations/Encoder.java:149-151 | a successful parse yields one double per category row |
| Encoders.ParseTargetsOk | mlcore/dataframe/transformations/Encoder.java:149-151 | parsing succeeds exactly when every target row exists and is a number, and yields those numbers |
| Encoders.GroupTotals | mlcore/dataframe/transformations/Encoder.java:149-155 | the maps hold exactly the categories present, each with the sum of its rows' targets and its row count |
| Encoders.CategoryMeans | mlcore/dataframe/transformations/Encoder.java:157-161 | every category present maps to the mean target of its rows, whatever order the key set yields |
| Encoders.TargetMeans | mlcore/dataframe/transformations/Encoder.java:149-166 | each row gets the mean target of its category, or the first parse error |
| Encoders.TargetEncoding | mlcore/dataframe/transformations/Encoder.java:136-173 | an absent column gives ColumnNotFound; otherwise the category column is replaced by `<name>_TargetEncoded` holding the group means |
| Encoders.TargetEncodingAll | mlcore/dataframe/transformations/Encoder.java:175-227 | every listed column gains an encoded companion column, and the category columns stay |
| Encoders.TargetMeanWithinGroup | mlcore/dataframe/transformations/Encoder.java:157-166 | a row's encoding lies within any bounds of its group's targets |
| Encoders.TargetMeansAgreeWithinGroup | mlcore/dataframe/transformations/Encoder.java:163-166 | rows of the same category get the same encoding |
| Scalers.ClampIqr | mlcore/dataframe/transformations/Scaler.java:143-145 | the divisor is never zero and equals the IQR when the IQR is not zero |
| Scalers.RescaleColumn | mlcore/dataframe/transformations/Scaler.java:29-37 | the loop maps each number x to (x - a) / b and keeps nulls, or stops at the first unreadable cell (RescaleOkIff) |
| Scalers.RestoreColumn | mlcore/dataframe/transformations/Scaler.java:53-62 | the loop maps each number x to x * b + a and keeps nulls (RestoreOkIff) |
| Scalers.PutAndRemove | mlcore/dataframe/transformations/Scaler.java:39-40 | the input frame's map gains the new column; the returned frame holds it without the source column |
| Scalers.MinMaxScaler | mlcore/dataframe/transformations/Scaler.java:17-43 | ColumnNotFound for an absent column; otherwise the column is rescaled by minimum and range, written as `<name>_scaled` into the input map, and returned without the source column |
| Scalers.InverseMinMaxScaler | mlcore/dataframe/transformations/Scaler.java:45-70 | each number x becomes x * (max - min) + min, under the name with `_scaled` removed |
| Scalers.StandardScaler | mlcore/dataframe/transformations/Scaler.java:73-99 | each number x becomes (x - mean) / sd under `<name>_scaled`, where sd is the root of varianceValue as written (`Stats.IsSdValue`); a column without numbers gives NoNumericValues; the result has mean 0 (StandardScaledCentred) |
| Scalers.InverseStandardScaler | mlcore/dataframe/transformations/Scaler.java:101-126 | each number x becomes x * sd + mean, under the restored name |
| Scalers.RobustScaler | mlcore/dataframe/transformations/Scaler.java:128-161 | the column centred on the median and divided by the clamped IQR; the errors of median and quartiles pass through |
| Scalers.InverseRobustScaler | mlcore/dataframe/transformations/Scaler.java:163-194 | each number x becomes x * IQR + median, with a zero IQR read as 1 |
| Scalers.RescaleOkIff | mlcore/dataframe/transformations/Scaler.java:29-37 | scaling fails exactly when a cell is a string, always with NotNumeric, and keeps the column length |
| Scalers.RestoreOkIff | mlcore/dataframe/transformations/Scaler.java:53-62 | the inverse fails exactly when a cell is a string, and keeps the column length |
| Scalers.RescaleThenRestore | mlcore/dataframe/transformations/Scaler.java:17-70 | inverting a scaled column with the same a and b gives back the column, its numbers as doubles |
| Scalers.RestoreThenRescale | mlcore/dataframe/transformations/Scaler.java:17-70 | scaling an inverted column gives back the column |
| Scalers.MinMaxWithinUnit | mlcore/dataframe/transformations/Scaler.java:26-36 | after min-max scaling every number lies in [0, 1] |
| Scalers.StandardScaledCentred | mlcore/dataframe/transformations/Scaler.java:82-92 | the standard-scaled numbers have mean 0 |
| Scalers.InverseNameOfScaled | mlcore/dataframe/transformations/Scaler.java:65 | for a name not containing `_scaled`, the inverse name of `<name>_scaled` is the name |
| Scalers.InverseNameUnchanged | mlcore/dataframe/transformations/Scaler.java:65 | a name without `_scaled` is left as it is |
| Scalers.InverseOfUnscaledNameDropsColumn | mlcore/dataframe/transformations/Scaler.java:65-68 | inverting a column whose name lacks `_scaled` puts and then removes the same name, so the column is lost |
| Outliers.Iqr | mlcore/dataframe/transformations/OutlierHandler.java:10-14 | Q3 - Q1 of the column, or the quartiles' error |
| Outliers.IqrNonNegative | mlcore/dataframe/transformations/OutlierHandler.java:10-14 | with at least two sorted numbers the IQR exists and is never negative |
| Outliers.SpreadBounds | mlcore/dataframe/transformations/OutlierHandler.java:25-40 | the small-table bounds: mean and variance over the recorded row count, or the first parse error |
| Outliers.SpreadWithinIff | mlcore/dataframe/transformations/OutlierHandler.java:37-40 | with std the root of the variance, the test on squares is exactly mean - std <= v <= mean + std |
| Outliers.ColumnBoundsOf | mlcore/dataframe/transformations/OutlierHandler.java:23-50 | spread bounds below ten rows and Tukey fences Q1 - 1.5 IQR, Q3 + 1.5 IQR from ten on |
| Outliers.FencesOfAbsent | mlcore/dataframe/transformations/OutlierHandler.java:41-50 | the fences of an absent column fail with ColumnNotFound |
| Outliers.FilterRows | mlcore/dataframe/transformations/OutlierHandler.java:53-59 | the kept positions of the parsed column |
| Outliers.KeptRowsSpec | mlcore/dataframe/transformations/OutlierHandler.java:53-59 | a position is kept exactly when its value is within the bounds; kept positions are increasing and in range |
| Outliers.ParseAllValues | mlcore/dataframe/transformations/OutlierHandler.java:55 | parsing succeeds exactly when every cell is a number, and gives those numbers |
| Outliers.RemoveOutliers | mlcore/dataframe/transformations/OutlierHandler.java:16-73 | the new frame is RemoveOutliersOf: every column gathered at the kept positions |
| Outliers.RemoveOutliersFilters | mlcore/dataframe/transformations/OutlierHandler.java:52-72 | the result has the same columns, each the input column at the same increasing list of kept positions |
| Outliers.RemoveOutliersShrinks | mlcore/dataframe/transformations/OutlierHandler.java:52-72 | a rectangular table stays rectangular with no more rows |
| Outliers.RowWithinAll | mlcore/dataframe/transformations/OutlierHandler.java:84-126 | the inner loop computes RowCheck for the row |
| Outliers.RowCheckTrueIff | mlcore/dataframe/transformations/OutlierHandler.java:84-126 | a row is valid exactly when every listed column is present and its cell parses and lies within that column's bounds |
| Outliers.RowCheckOrderFree | mlcore/dataframe/transformations/OutlierHandler.java:84-126 | whether a row is valid does not depend on the order or repetition of the listed names |
| Outliers.RemoveOutliersAll | mlcore/dataframe/transformations/OutlierHandler.java:75-143 | the new frame is RemoveOutliersAllOf: the rows valid for all listed columns, bounds taken over the whole table |
| Outliers.KeptRowsAllSpec | mlcore/dataframe/transformations/OutlierHandler.java:81-129 | a row is kept exactly when it is valid; kept rows are increasing and below the row count |
| Outliers.RemoveOutliersAllNoRows | mlcore/dataframe/transformations/OutlierHandler.java:75-143 | with zero recorded rows no column is checked and every column comes out empty |
| Outliers.RemoveOutliersAllAbsent | mlcore/dataframe/transformations/OutlierHandler.java:85-88 | an absent first listed column fails with ColumnNotFound |
| Nulls.RowHasNoNulls | mlcore/dataframe/transformations/NullHandler.java:26-31 | the inner loop computes NullCheck for the row |
| Nulls.NullCheckTrueIff | mlcore/dataframe/transformations/NullHandler.java:26-31 | a row passes exactly when every listed column is present, long enough and not null there |
| Nulls.DropRowsWithNulls | mlcore/dataframe/transformations/NullHandler.java:18-46 | the new frame is DropRowsWithNullsOf: every column gathered at the passing rows |
| Nulls.NonNullRowsSpec | mlcore/dataframe/transformations/NullHandler.java:24-35 | a row is kept exactly when it passes; kept rows are increasing and in range |
| Nulls.DropRowsListedHaveNoNulls | mlcore/dataframe/transformations/NullHandler.java:18-46 | after dropping, the listed columns hold no null and every column is the input at the same increasing positions |
| Nulls.UnlistedColumnsKeepNulls | mlcore/dataframe/transformations/NullHandler.java:18-46 | columns that are not listed keep their nulls |
| Nulls.ReplaceNullsWithValue | mlcore/dataframe/transformations/NullHandler.java:48-60 | the new frame is the input map with the column's nulls replaced; an absent column throws NullPointer |
| Nulls.ReplaceNullsChangesOnlyNulls | mlcore/dataframe/transformations/NullHandler.java:48-60 | only the null cells of the named column change, and they become the value |
| Nulls.ReplaceNullsLeavesNoNull | mlcore/dataframe/transformations/NullHandler.java:48-60 | with a non-null value no null remains in the column |
| Nulls.ReplaceNullsIdempotent | mlcore/dataframe/transformations/NullHandler.java:48-60 | replacing twice with the same value is replacing once |
| Splitters.TrainTestSplit | mlcore/dataframe/transformations/Splitter.java:7-39 | the four frames are SplitOf: the first round(n * trainSize) shuffled positions select the training rows of X and y, the rest the test rows; a count outside 0..n fails as subList does |
| Splitters.TrainCountNearest | mlcore/dataframe/transformations/Splitter.java:11 | the training count is within one half of n * trainSize |
| Splitters.TrainCountInRange | mlcore/dataframe/transformations/Splitter.java:11 | for a fraction in [0, 1] the training count is between 0 and n |
| Splitters.SplitKeepsEveryRow | mlcore/dataframe/transformations/Splitter.java:7-39 | for a permutation, the split succeeds; train and test have count and n - count rows and the input's columns; each column's train and test cells together are the column's cells |
| Splitters.SplitPartitionsRows | mlcore/dataframe/transformations/Splitter.java:24-25 | the training and test positions are disjoint and together are 0..n-1 |
| Splitters.SplitAlignedTrain | mlcore/dataframe/transformations/Splitter.java:28-30 | row k of X_train and of y_train both come from input row shuffled[k] |
| Splitters.SplitAlignedTest | mlcore/dataframe/transformations/Splitter.java:29-31 | row k of X_test and of y_test both come from input row shuffled[count + k] |
| Splitters.GetRowsByIndices | mlcore/dataframe/transformations/Splitter.java:41-52 | every column at the given positions, or OutOfRange |
| Splitters.GetTargetColumn | mlcore/dataframe/transformations/Splitter.java:54-64 | ColumnNotFound for an absent target; otherwise a frame with that single column |
| Splitters.GetTargetColumns | mlcore/dataframe/transformations/Splitter.java:65-76 | the frame of the listed columns, or ColumnNotFound at the first absent one |
| Splitters.CopyColumns | mlcore/dataframe/transformations/Splitter.java:67-74 | the loop builds exactly the listed columns |
| Splitters.TargetsCommuteWithRows | mlcore/dataframe/transformations/Splitter.java:41-76 | picking target columns and selecting rows can be done in either order |
| Splitters.TargetColumnIsListOfOne | mlcore/dataframe/transformations/Splitter.java:54-76 | getTargetColumns of a single name succeeds exactly when getTargetColumn does, with the same table |
| Neighbours.SquaredDistance | mlcore/models/KNeighboursClassification.java:101-107 | the summed squared differences over the query row's length; OutOfRange when the training row is shorter |
| Neighbours.SqDistProperties | mlcore/models/KNeighboursClassification.java:101-107 | the distance exists exactly when the second row is long enough; it is non-negative, zero from a row to itself, and symmetric for rows of equal length |
| Neighbours.Distances | mlcore/models/KNeighboursClassification.java:68-71 | the distances to every training row in order, or the first error |
| Neighbours.DistancesSpec | mlcore/models/KNeighboursClassification.java:68-71 | the distances exist exactly when no training row is shorter than the query; entry i is the distance to row i |
| Neighbours.SortedPositions | mlcore/models/KNeighboursClassification.java:110-116 | the positions 0..n-1 stably sorted by distance |
| Neighbours.KNearestIndices | mlcore/models/KNeighboursClassification.java:110-119 | the first k sorted positions; NegativeSize for k < 0 and OutOfRange for k above the row count |
| Neighbours.KNearestSpec | mlcore/models/KNeighboursClassification.java:110-119 | k distinct positions in range, none farther than a position left out, ties going to the earlier row, listed nearest first |
| Neighbours.KNearestMonotone | mlcore/models/KNeighboursClassification.java:101-119 | applying an order-preserving map such as the square root to the distances leaves the chosen neighbours unchanged |
| Neighbours.EachRowSpec | mlcore/models/KNeighboursClassification.java:66-92 | a successful per-row loop has one result per query row, each the row's own result |
| Neighbours.EachRowSucceeds | mlcore/models/KNeighboursClassification.java:66-92 | the loop succeeds when every row does |
| Neighbours.ArrayHoldsMatrix | mlcore/dataframe/DataFrame.java:222-240 | a filled array holds the table's matrix row by row |
| Classification.KNeighbours.constructor | mlcore/models/KNeighboursClassification.java:20-22 | a new model keeps k and holds no training state |
| Classification.KNeighbours.Train | mlcore/models/KNeighboursClassification.java:25-58 | the feature matrix is stored; an empty target table gives NoColumns; fewer than two distinct targets give TooFewClasses; otherwise the mapping is the distinct targets in first-occurrence order and each row's code indexes its target in it |
| Classification.EncodeTargets | mlcore/models/KNeighboursClassification.java:49-57 | the code array and the outcome of the encoding loop, including the part filled before a failure |
| Classification.RowCode | mlcore/models/KNeighboursClassification.java:50-56 | the code of one row, or the error of reading it |
| Classification.EncodingDecodes | mlcore/models/KNeighboursClassification.java:42-57 | without nulls the encoding succeeds and each code looks up the row's own target |
| Classification.NullTargetThrows | mlcore/models/KNeighboursClassification.java:50-56 | a null target makes training throw NullPointer |
| Classification.OnlyNullErrors | mlcore/models/KNeighboursClassification.java:49-57 | NullPointer is the only error the encoding can give |
| Classification.CodeFromFinds | mlcore/models/KNeighboursClassification.java:50-56 | the scan finds the position of the value in the mapping |
| Classification.KNeighbours.Predict | mlcore/models/KNeighboursClassification.java:61-97 | the result is a one-column table "Predictions" of PredictFrameOf over the query matrix |
| Classification.KNeighbours.PredictRows | mlcore/models/KNeighboursClassification.java:66-92 | the predictions for the query rows in order, or the first error |
| Classification.KNeighbours.PredictRow | mlcore/models/KNeighboursClassification.java:68-91 | the prediction for one query row from the trained state |
| Classification.KNeighbours.CountVotes | mlcore/models/KNeighboursClassification.java:75-79 | the vote count of each code among the neighbours, or the error of reading the codes |
| Classification.Tally | mlcore/models/KNeighboursClassification.java:75-79 | the counts of the neighbours' codes; OutOfRange exactly when a neighbour lies outside the code array |
| Classification.MaxVote | mlcore/models/KNeighboursClassification.java:81-89 | -1 without votes; otherwise the code with the most votes, the smallest on a tie, whatever order the key set yields |
| Classification.BestOfIsBest | mlcore/models/KNeighboursClassification.java:81-89 | the list-order reference finds a code with the most votes, the smallest among them |
| Classification.WinnerIsBest | mlcore/models/KNeighboursClassification.java:81-89 | the winner of a non-empty label list is the best of its votes |
| Classification.BestIsUnique | mlcore/models/KNeighboursClassification.java:81-89 | the best code is unique, so key order does not change the prediction |
| Classification.PredictFrameSpec | mlcore/models/KNeighboursClassification.java:61-97 | the prediction table has one row per query, each that row's prediction, and exists when every row's does |
| Classification.PredictionIsTrainingTarget | mlcore/models/KNeighboursClassification.java:61-97 | with k >= 1 and a successful prediction, the predicted value is one of the training targets |
| Classification.ZeroNeighboursPredictNull | mlcore/models/KNeighboursClassification.java:81-91 | with k = 0 no vote is cast and the prediction is null |
| Regression.KNeighboursRegression.constructor | mlcore/models/KNeighboursRegression.java:17-19 | a new model keeps k and holds no training state |
| Regression.KNeighboursRegression.Train | mlcore/models/KNeighboursRegression.java:22-34 | the feature matrix is stored; an empty target table gives NoColumns; otherwise the targets are parsed row by row, the first unreadable one failing |
| Regression.ParseTargets | mlcore/models/KNeighboursRegression.java:30-33 | the parsed array, filled up to the failing row, and the outcome |
| Regression.TargetsSpec | mlcore/models/KNeighboursRegression.java:30-33 | parsing succeeds exactly when every row exists and parses, and gives the parsed doubles |
| Regression.KNeighboursRegression.Predict | mlcore/models/KNeighboursRegression.java:37-63 | the result is a one-column table "Predictions" of PredictFrameOf |
| Regression.KNeighboursRegression.PredictRows | mlcore/models/KNeighboursRegression.java:42-59 | the predictions for the query rows in order, or the first error |
| Regression.KNeighboursRegression.PredictRow | mlcore/models/KNeighboursRegression.java:44-57 | the prediction for one query row from the trained state |
| Regression.KNeighboursRegression.SumTargets | mlcore/models/KNeighboursRegression.java:52-55 | the sum of the neighbours' targets, or OutOfRange |
| Regression.PredictFrameSpec | mlcore/models/KNeighboursRegression.java:37-63 | the prediction table has one row per query, each that row's prediction |
| Regression.PredictionIsNeighbourMean | mlcore/models/KNeighboursRegression.java:44-57 | with k >= 1 the prediction is the mean target of the k nearest training rows |
| Regression.PredictionWithinTargets | mlcore/models/KNeighboursRegression.java:44-57 | with k >= 1 the prediction lies between the least and the greatest training target |
| Regression.ZeroNeighboursPredictNull | mlcore/models/KNeighboursRegression.java:57 | with k = 0 the sum is divided by zero; the model gives null |

## Left out

- `DataFrame.readCSV` and `display`: file input and console output.
- `parseValue`: CSV parsing is not modelled. Cells enter the model already typed.
- Double arithmetic is modelled as exact real arithmetic: no rounding, infinities or NaN. Wherever a NaN decides a branch, the model states the outcome NaN leads to.
- Math.sqrt: distances stay squared. `KNearestMonotone` shows the square root does not change which neighbours are chosen.
- The outlier spread test compares squares. `SpreadWithinIff` shows this is the same interval as the square-root test.
- `sdValue` is not computed: `Scalers.StandardScaler` takes the standard deviation as a parameter, tied to the column by `Stats.IsSdValue`.
- Scalers.StandardScaler: the parameter is the root of varianceValue as written. A column whose numbers give a negative variance as written (a NaN standard deviation in Java) or a zero one (a division by zero) is outside its precondition.
- Frames.DataFrame.MergeDataFrameColumns: which column of each side is measured is the first its map yields, which the model leaves open, so the row-count check is stated by existence.
- HashMap iteration order is unspecified. It is left open: where it matters the model picks an arbitrary key, and the contracts hold for every order. This covers header order, the row count the constructor takes, target-encoding means and vote counting.
- A numeric-looking string is read as `NotNumeric`, though `Double.valueOf` would parse it.
- Regression.ZeroNeighboursPredictNull: with k = 0 Java computes 0.0 / 0 = NaN; the model gives null.
- An empty target frame throws NoSuchElementException in `train`; the model reports it as NoColumns.
- `NullHandler.FillNullsWithMeasure` (both forms): the source methods have empty bodies and define no behaviour.
- The seeded shuffle is not modelled. `Collections.shuffle` with `java.util.Random` becomes a parameter, which may be any permutation of 0..n-1.
- `LinearRegression`, `LogisticRegression` and the evaluation reports: outside this model's core.
- The 32-bit `int` width of counters and codes is not modelled; no loop in the core comes near it.

## Findings

| source | as written | input that shows it | evidently intended | confidence | as-written member | corrected member |
|---|---|---|---|---|---|---|
| mlcore/dataframe/utils/StatsUtils.java:255 | `squared_sum / n - 1` subtracts one from the population variance | the numbers 1.0, 1.0 give -1.0, and `sdValue` then takes the square root of a negative number | the sample variance `squared_sum / (n - 1)`, which the special case for n <= 1 points to | high, not executed | Stats.VarianceAsWrittenNegative | Stats.SampleVarianceNonNegative |

`Scalers.StandardScaler` follows the code: its standard deviation is the
root of the variance as written. `Stats.SampleVarianceValue` gives the
corrected variance; `Scalers.StandardScaledCentred` holds for any non-zero
standard deviation, so it also covers scaling by the corrected one.
