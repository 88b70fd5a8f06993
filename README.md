# Appraisal adjustment tool — Dafny model of the analysis core

The tool reads a sheet of recent home sales (MLS export). It cleans six
columns of that sheet, fits three regressors to predict the sold price from
five property features, and scores the equal-weight blend of their
predictions by mean absolute error on a held-out fifth of the sales. Then it
turns the random forest's feature importances into an appraisal adjustment
table: for each feature, a dollar amount and a percentage of the median
price.

This project models that core, `app.py` lines 33-86, over exact reals, and
proves a set of properties about it:

- `Frame` is the sheet: named columns and rows of cells, where a cell is a
  number, some text, or pandas' missing marker. The object `df`, whose
  columns the script overwrites one after another, is the class
  `Frame.DataFrame`. `pd.to_numeric(..., errors='coerce')` is `Coerce`,
  given a text-to-number parser `parse` as a parameter. `df.dropna()` is
  `DropNa`.
- `Sanitizer` is the cleaning step, lines 33-39. `SanitizeFrame` is the
  script's own sequence of six in-place assignments followed by `dropna`.
  It is proved equal to the functional `Sanitize`, whose contract says when
  cleaning fails and that its output is numeric and complete. Which rows
  survive is stated by `SanitizeKeepsExactlySurvivors`.
- `Schema` holds the six column names, spelled as the script spells them.
  `Selection` picks `X` and `y` out of the cleaned table (lines 42-44) and
  the test rows out of those (line 47).
- `Stats` holds sum, `max`, `min` and pandas' `median`, the last through an
  insertion sort. `Ensemble` is the blend (line 62) and the mean absolute
  error (line 65).
- `Adjustments` is `dict(zip(features, importances))` and the two
  adjustment columns (lines 81-86). They use the range and the median of the
  full cleaned price column.
- `Pipeline` chains the stages. The models' predictions and the forest's
  importances enter it as values.

Some behaviour of the script worth noting:

- `dropna()` (line 39) drops a row with a missing marker in any column, not
  only in the six named ones. A sheet with an empty cell in an unrelated
  column loses that row too (`Sanitizer.RowSurvives`).
- An absent required column is a `KeyError` raised by the first assignment
  that names it. The assignments before it have already rewritten `df`.
  `SanitizeFrame` ends in exactly that partly-coerced state
  (`CoercePrefix`). The error it returns names the first absent column in
  the script's order.
- A cleaned table that is too small is not checked by the script. The
  failure comes from the 80/20 split inside the library. Its test part has
  `ceil(n / 5)` rows, so it leaves no training row for n = 0 and also for
  n = 1. `Pipeline.Prepare` reports both cases as `InsufficientData`.
- A single-price sheet needs no special case in the code. The range is zero,
  so every dollar and every percentage adjustment is zero
  (`DegenerateTargetGivesZeroAdjustments`).

Column names are taken to be distinct, because the loaders rename repeated
headers (`Table.WellFormed`).

## Model

| member | source | states |
|---|---|---|
| Frame.Coerce | app.py:33-38 | coercion never leaves text behind; a number stays the same number, a missing marker stays missing, and text becomes a number exactly when the parser reads one, namely the number it reads |
| Frame.CoerceIdempotent | app.py:33-38 | coercing an already coerced cell changes nothing |
| Frame.CoerceColumn | app.py:33 | re-assigning one column keeps the column names and the number of rows, coerces every cell of that column and leaves every other cell as it was |
| Frame.DataFrame.AssignNumeric | app.py:33-38 | one in-place assignment: it succeeds exactly when the column exists, and the frame becomes the column-coerced table, or stays as it was where the lookup raises |
| Frame.DropNa | app.py:39 | `dropna` returns no more rows than it is given, and every returned row has no missing marker |
| Frame.KeptIndices | app.py:39 | the kept positions are strictly increasing, in range, and contain a row exactly when that row is complete |
| Frame.DropNaKeepsCompleteRows | app.py:39 | the k-th row after `dropna` is the input row at the k-th kept position, so rows are neither reordered, altered nor invented |
| Sanitizer.FirstAbsent | app.py:33-38 | finds the first required column, in coercion order, that the sheet lacks; all earlier names are present, and none is missing when it finds none |
| Sanitizer.CoercePrefix | app.py:33-38 | the frame the assignments leave behind, including when one raises part-way, keeps its columns and its row count |
| Sanitizer.CoercePrefixStopsAtAbsent | app.py:33-38 | the assignments after the first absent column are never reached |
| Sanitizer.FailedCoercionCells | app.py:33-38 | when an assignment raises, exactly the columns before the absent one have been coerced and every other cell is as loaded |
| Sanitizer.CoercePrefixCells | app.py:33-38 | after the assignments, exactly the cells of the assigned columns are coerced, each once |
| Sanitizer.CoercedRowsAgree | app.py:33-38 | coercing the six columns one after another equals coercing the six required cells of each row |
| Sanitizer.Sanitize | app.py:33-39 | cleaning fails exactly when a required column is absent, naming the first absent one in coercion order; otherwise the columns are unchanged, no row is added, every required cell is a number and no row has a missing cell |
| Sanitizer.Clean | app.py:39 | when every required column is present, the coerced, row-dropped table is fully numeric in the required columns and complete |
| Sanitizer.SanitizeKeepsExactlySurvivors | app.py:33-39 | the cleaned rows are the coerced input rows, in order, at exactly the positions whose required cells are numbers or parseable text and whose other cells are not missing |
| Sanitizer.SanitizeFrame | app.py:33-39 | the script's six in-place assignments plus `dropna` leave `df` partly or fully coerced, as far as the first absent column, and return exactly what `Sanitize` returns |
| Schema.NamesDistinct | app.py:33-42 | five distinct features and six distinct coerced columns; the price is coerced but is not a feature |
| Selection.ColumnValues | app.py:43-44 | the numbers read from one required column, one per cleaned row, are exactly that column's cells |
| Selection.FeatureMatrix | app.py:42-43 | `X` has one row per cleaned sale, holding the five feature values in the order of `features` |
| Selection.TargetVector | app.py:44 | `y` has one price per cleaned sale, exactly the row's "Sold Price" cell |
| Selection.TestRowsAligned | app.py:47 | a test sale's features and its price come from the same cleaned row |
| Stats.Max | app.py:84 | `y.max()` is one of the prices and no price exceeds it |
| Stats.Min | app.py:84 | `y.min()` is one of the prices and exceeds none of them |
| Stats.Sort | app.py:85 | the values in ascending order, a permutation of the input |
| Stats.Insert | app.py:85 | inserting into an ascending list keeps it ascending and puts the smaller of the new value and the old head first |
| Stats.InsertPermutes | app.py:85 | inserting adds exactly the one value |
| Stats.SortedUnique | app.py:85 | two ascending arrangements of the same values are equal |
| Stats.MedianOrderIndependent | app.py:85 | the median depends on the prices only, not on the order of the rows |
| Stats.Median | app.py:85 | `y.median()` lies between the minimum and the maximum price, and is one of the prices when their number is odd |
| Stats.ConstantMedian | app.py:85 | when every price is the same, the median is that price |
| Stats.ConstantStatistics | app.py:84-85 | when every price is the same, median, maximum and minimum are all that price |
| Stats.MaxEqualsMinIffConstant | app.py:84 | the maximum equals the minimum exactly when every price is the same |
| Stats.ExtremesOfSorted | app.py:84-85 | the minimum and the maximum are the two ends of the sorted prices |
| Stats.SumScale | app.py:84 | scaling every value scales the total by the same factor |
| Stats.SumZeroIffAllZero | app.py:65 | a sum of non-negative values is non-negative, and zero exactly when every value is zero |
| Ensemble.Blend | app.py:62 | one blended prediction per test sale, the equal-weight mean of the three models' predictions: the three deviations from it total zero, which no other value satisfies |
| Ensemble.BlendWithinPredictions | app.py:62 | each blended prediction lies between the lowest and the highest of the three models' predictions |
| Ensemble.BlendOfAgreeingModels | app.py:62 | where the three models predict the same prices, the blend is those prices |
| Ensemble.AbsErrors | app.py:65 | one error per test sale, never negative, zero exactly where the prediction is right |
| Ensemble.MeanAbsoluteError | app.py:65 | the reported error is never negative |
| Ensemble.MaeZeroIffExact | app.py:65 | the error is zero exactly when every prediction equals its true price |
| Ensemble.MaeWithinBound | app.py:65 | the error never exceeds a bound that every single absolute difference respects |
| Ensemble.BlendErrorAtMostMeanOfErrors | app.py:62-65 | the blend's error is at most the mean of the three models' own errors |
| Adjustments.Dict | app.py:81 | every feature zipped with an importance is a key of the dictionary |
| Adjustments.DictLookup | app.py:81 | with distinct feature names, each name looks up the importance zipped with it |
| Adjustments.PriceRange | app.py:84 | `y.max() - y.min()` is never negative, and zero exactly when every price is the same |
| Adjustments.AdjustmentTable | app.py:81-86 | five rows in the order of `features`; each dollar amount is the feature's importance times the full-price range, and each percentage is that amount over the full-price median, times 100 |
| Adjustments.TableIsRows | app.py:81-86 | looking the importances up by name gives the same rows as pairing them by position |
| Adjustments.RowsMonetarySum | app.py:84 | the dollar column totals the importances' sum times the range |
| Adjustments.RowsShareOutRange | app.py:84 | importances that sum to one share out exactly the range among the features |
| Adjustments.RowsPercentageSum | app.py:85 | the percentage column totals the dollar total over the median, times 100 |
| Adjustments.RowsMonetaryWithinRange | app.py:84 | an importance between 0 and 1 gives a dollar amount between 0 and the range |
| Adjustments.RowsMonetaryFollowsImportance | app.py:84 | a feature with no lower importance gets no smaller dollar amount, so dollar amounts rank the features as importance does |
| Adjustments.MonetarySumsToPriceRange | app.py:81-84 | when the importances sum to one, the dollar adjustments add up to the maximum minus the minimum price |
| Adjustments.PercentageSum | app.py:84-85 | the percentages add up to the dollar total over the median price, times 100 |
| Adjustments.DegenerateTargetGivesZeroAdjustments | app.py:84-85 | a sheet in which every sale has the same price gets a zero dollar and a zero percentage adjustment for every feature |
| Adjustments.MonetaryWithinPriceRange | app.py:84 | an importance between 0 and 1 gives a dollar adjustment between 0 and the price range |
| Adjustments.MonetaryFollowsImportance | app.py:84 | in the table, dollar adjustments are ordered as the importances are |
| Pipeline.Prepare | app.py:33-47 | the run stops with a schema error exactly when a required column is absent, naming one; it stops for lack of data exactly when cleaning succeeds but leaves fewer than two rows, too few to split; otherwise `X` and `y` are the feature matrix and the price column of the cleaned table, with at least two rows and five values in every `X` row |
| Pipeline.Appraise | app.py:62-86 | the reported error is the mean absolute error of the blend against the test prices, non-negative and zero exactly when the blend prices every test sale right; the table is the adjustment table over the full cleaned price column, five rows in feature order |
| Pipeline.AdjustmentsIgnoreSplitAndPredictions | app.py:44-86 | the adjustment table is the same whichever rows were held out and whatever the models predicted, since it reads the full price column only |
| Pipeline.MaeReadsOnlyTestPrices | app.py:47-65 | changing the price of a training row leaves the reported error unchanged |

## Left out

- The Streamlit page, the file upload and the CSV or Excel loading (lines 1-30). The model starts from a loaded table.
- `pd.to_numeric`'s text grammar. Text-to-number parsing is the parameter `parse`, so every property holds for any parser.
- The Zillow market-data request (lines 69-78). It is network I/O, and nothing after it uses its result.
- The randomness of `train_test_split` and its seed 42 (line 47). The test rows are any set of distinct positions that leaves at least one row on each side (`Selection.IsTestSplit`). Reproducibility under the fixed seed is therefore not stated.
- Fitting and predicting with the three regressors, and `feature_importances_` (lines 50-61, 81). These are library behaviour. Their outputs are inputs to `Pipeline.Appraise`. A fit that fails on too few training rows is not modelled.
- Displaying the table, the bar chart, the Excel file and the PDF report, including the `:,.2f` formatting (lines 88-116).
- Floating-point rounding. All arithmetic is over exact reals. A zero median, which gives inf or nan in the script, is excluded by a precondition. An empty target is excluded in the same way.
- Stats.Median: its contract gives the bounds and, for an odd count, membership. Which middle value it takes is its definition over the sorted prices, used by `ConstantMedian` and `MedianOrderIndependent`.
