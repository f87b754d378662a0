# Portfolio risk metrics, modelled in Dafny

`risk.py` defines one class, `CompareMetrics`. It takes a table of daily
closing prices: one row per trading day, one column per stock, and NaN where
a stock has no price that day. From that table it computes:

- the equal-weighted daily return of the portfolio;
- the daily total value of the portfolio;
- the annualized **Burke ratio** at the most recent day. This is the excess
  return over a risk-free rate divided by the root-sum-square of the
  drawdowns from the peak value;
- the annualized **Sharpe ratio**;
- a side-by-side table of both ratios at offsets `range(1, 800, 15)` from
  the most recent day;
- Pearson's correlation coefficient between the two columns of that table.

The model works over exact `real` numbers, so none of this depends on float
rounding. A price table is `seq<seq<Option<real>>>`, with `None` for a NaN
cell. Every division that can hit zero returns `Err` and names its cause, except the divisions by a stored price at risk.py:49 and 93, which the model excludes by a precondition.
`math.sqrt` is a parameter, and lemmas that need a root assume only that it
returns the non-negative square root (`IsSqrt`).

The modules follow the structure of the class:

| module | models |
|---|---|
| `Common` | option and result types, sums, squares, integer powers, the rate constants, the root contract |
| `Portfolio` | `__calc_daily_returns` (a loop over days and assets that tracks each asset's last observed price) and `__calc_daily_values` |
| `Burke` | `__my_metric` |
| `Sharpe` | `__sharpe_ratio` |
| `Sweep` | `__compare_metrics` |
| `Correlation` | `__get_correlation_coefficient` |
| `Analysis` | `__init__`, given a table that is already loaded |

Each loop in the source becomes a Dafny `method` with a loop. Each method is
proved equal to a specification function, and the lemmas are
proved about those functions. The object is built once and never changed, so
it is a datatype returned by `NewCompareMetrics`.

The following behaviour of the code is kept as written:

- `__calc_daily_returns` counts an asset's first observation in `numCounted`
  (risk.py:44), although that observation adds nothing to `totalROC`. A day
  with at least one observed price, all of whose observed assets are seen
  for the first time, therefore has return 0, not an undefined one. The
  first day is such a day when it has an observed price; a first day with
  every price missing fails at risk.py:52.
- `ThreeDayExample` proves that the code's daily returns for the table
  `[[100, 200], [110, 190], [121, 200.9]]` are `[0, 0.025, 29.9/380]`.
- `__my_metric` overwrites its `adjustedScale` argument with 252 (risk.py:73).
- `__sharpe_ratio` multiplies the daily deviation by `adjustedScale`
  (risk.py:155). The docstring speaks of scaling by the square root of 252.
  The model follows the code.

## Model

| member | source | states |
|---|---|---|
| Portfolio.CalcDailyReturns | risk.py:20-54 | the nested loop, with its last-price dictionary and its two per-day accumulators, returns exactly `DailyReturns(t)` |
| Portfolio.DailyReturns | risk.py:20-54 | a defined result has one daily return per row |
| Portfolio.DailyReturnsAt | risk.py:27-52 | entry i is `DailyReturnAt` (risk.py:31-52) of row i: the row's total rate of change divided by its count, measured against the last prices left by the rows before it |
| Portfolio.DailyReturnsOkIff | risk.py:52 | the list is defined exactly when every row has at least one observed cell |
| Portfolio.DailyReturnsFirstFailure | risk.py:27-52 | the first row whose every cell is missing makes the result undefined, and the error names that row |
| Portfolio.DailyReturnsErrPrefix | risk.py:27-52 | once a prefix of the table fails, the whole table fails with the same error |
| Portfolio.LastSeenNone | risk.py:38-43 | no price remembered for an asset exactly when it was never observed |
| Portfolio.LastSeenMostRecent | risk.py:38-50 | the remembered price is the asset's most recent observation |
| Portfolio.TracksCell | risk.py:38-50 | if `lastValues` maps each asset to its last price over the days and cells read so far, the lookup for cell k yields that asset's last price before the current day, and storing an observed price (nothing for a NaN) keeps the map exact one cell further |
| Portfolio.LastSeenNonzero | risk.py:49 | with nonzero prices, a remembered price is nonzero, so the percent change is defined |
| Portfolio.MissingCellNeutral | risk.py:42-46 | a missing cell leaves the day's total, its count and the remembered prices unchanged |
| Portfolio.CountBounds | risk.py:38-50 | `numCounted` is at most the row width, is 0 exactly when every cell is missing, and equals the width exactly when the row is fully observed |
| Portfolio.RowChangeFirstObservations | risk.py:40-44 | first observations add nothing to the day's total rate of change |
| Portfolio.FirstObservationsReturnZero | risk.py:40-44 | a day whose every observed asset is new has daily return 0 |
| Portfolio.FirstDayReturnIsZero | risk.py:40-44 | the first day's daily return is 0 |
| Portfolio.FullyObservedReturn | risk.py:45-52 | a fully observed day after a fully observed day returns the mean of the per-asset percent changes |
| Portfolio.ThreeDayExample | risk.py:20-54 | the 3x2 table `[[100,200],[110,190],[121,200.9]]` has daily returns `[0, 0.025, 29.9/380]` |
| Portfolio.DailyValues | risk.py:60-61 | one value per row, each the sum of the row's prices with missing cells counted as 0 |
| Portfolio.ObservedSumIsZeroFilledSum | risk.py:61 | summing only the observed prices equals summing the row with NaN taken as 0 |
| Portfolio.DailyValuePositive | risk.py:61 | with positive prices a day's value is non-negative, and positive exactly when some price is observed |
| Burke.WindowStart | risk.py:78-84 | the window branch is taken exactly when `252 <= idx + 1`; its start row lies in `[0, idx]` and the window spans exactly 252 rows |
| Burke.WindowCountZeroIff | risk.py:88-92 | the window count is at most the width, and is 0 exactly when no asset is observed at both ends |
| Burke.WindowFullyObserved | risk.py:88-95 | with both end rows fully observed, the window return `WindowReturn` (risk.py:88-95) is the mean of the per-asset percent changes |
| Burke.PeriodReturnFallback | risk.py:96-106 | with fewer than 252 rows up to the target day the period return `PeriodReturn` (risk.py:81-106) is defined; a zero mean daily return gives 0, and a mean of at least -1 gives at least 252 times the mean |
| Burke.Max | risk.py:115 | the peak is an element of the values and bounds every one of them |
| Burke.DrawdownAt | risk.py:118 | with a positive peak, a value below it has a non-positive drawdown; a drawdown is 0 exactly at the peak |
| Burke.DrawdownsNonPositive | risk.py:114-118 | with a positive peak, every drawdown is at most 0, and the peak's own drawdown is 0 |
| Burke.DrawdownSquaresZeroIff | risk.py:118-122 | `DrawdownSquares` (risk.py:114-122) is, for a nonzero peak, the defined sum of squared drawdowns; it is at least 0, and is 0 exactly when every value equals the peak |
| Burke.MyMetric | risk.py:72-125 | the method, with its window loop, returns exactly `BurkeRatio` |
| Burke.BurkeRatioFixedScale | risk.py:73-74 | the ratio does not depend on the `adjustedScale` argument; the risk-free term is 0.0426; a defined ratio times the drawdown root is the period return minus 0.0426 |
| Burke.BurkeUndefinedIff | risk.py:114-125 | with a defined period return and a nonzero peak, the ratio is undefined exactly when every value up to the target day equals the peak |
| Burke.BurkeOldestDayUndefined | risk.py:114-125 | on the oldest day the single value is its own peak, so the ratio is undefined |
| Sharpe.RelevantReturns | risk.py:147 | the selection is the first `len - daysin` daily returns, unchanged |
| Sharpe.SharpeUndefinedIff | risk.py:137-159 | `SharpeRatio`, the model of `__sharpe_ratio`, is undefined exactly when the scale is 0 or the selected daily returns are all equal |
| Sharpe.ConstantReturnsUndefined | risk.py:154-157 | equal selected daily returns make the ratio undefined with `ZeroStdev` |
| Sharpe.SharpeStdevLinear | risk.py:154-155 | the square of the scaled deviation is scale squared times the population variance, so the scaling is linear in the scale |
| Sharpe.SharpeSign | risk.py:141-157 | with a positive scale and unequal daily returns the ratio is defined, positive exactly when `(1 + mean) ** scale - 1` exceeds `0.0426 / 252 * scale`, and 0 exactly when they are equal |
| Common.CompoundBounds | risk.py:151 | compounding a zero mean gives 0; compounding a mean of at least -1 over n days gives at least n times the mean |
| Common.Bernoulli | risk.py:151 | `(1 + x) ** n >= 1 + n * x` for `x >= -1` |
| Common.SumSquaredDeviations | risk.py:200-201 | a sum of squared deviations is at least 0 |
| Common.SumSquaredDeviationsZeroIff | risk.py:154 | the squared deviations from m sum to 0 exactly when every element equals m |
| Common.ConstantIffZeroDeviation | risk.py:154 | the squared deviations from the mean sum to 0 exactly for a constant sequence |
| Common.SumOfSquaresZeroIff | risk.py:119-122 | a sum of squares is 0 exactly when every term is 0 |
| Sweep.StepRange | risk.py:167 | element k of `range(start, stop, step)` is `start + k * step`, below `stop`, and the range stops at the first value that would reach `stop` |
| Sweep.OffsetsShape | risk.py:167 | the offsets are 1, 16, ..., 796: 54 values, each 15 more than the last |
| Sweep.SweepColumns | risk.py:174-176 | the loop appending to the two columns returns exactly `Columns` over its offsets |
| Sweep.CompareMetricsSweep | risk.py:166-178 | the method returns exactly `CompareMetrics`, the table indexed by the 54 offsets |
| Sweep.CompareMetrics | risk.py:166-178 | a defined table is indexed by the offsets and has one entry per offset in each column |
| Sweep.ColumnsAligned | risk.py:174-176 | the columns are defined exactly when both ratios are defined at every offset; then entry k of each column is that ratio at offset k |
| Sweep.ColumnsErrPrefix | risk.py:174-176 | the first undefined ratio makes the whole comparison undefined, with that ratio's error |
| Sweep.CompareMetricsAligned | risk.py:166-178 | a defined table has 54 rows, and row k holds the Sharpe and Burke ratios at offset `1 + 15k` |
| Sweep.OffsetsFit | risk.py:167-176 | every offset names a row of any table with at least 797 rows |
| Correlation.CorrelationCoefficient | risk.py:185-204 | the loop's three running sums give exactly `Pearson` |
| Correlation.SelfProducts | risk.py:198-201 | pairing a column with itself makes `sumdXdY` equal `sumdX2` |
| Correlation.IdenticalColumns | risk.py:192-203 | for identical columns `sumdXdY == sumdX2 == sumdY2`, and r is 1 unless the column is constant |
| Correlation.NegatedColumns | risk.py:192-203 | a column against its negation has r of -1 unless it is constant |
| Correlation.PearsonUndefinedIff | risk.py:203 | r is undefined exactly when the columns are empty or either is constant |
| Analysis.NewCompareMetrics | risk.py:6-13 | the initializer's sequence of calls returns exactly `Metrics` |
| Analysis.MetricsShape | risk.py:8-13 | a constructed object has one daily return and one daily value per row, the two ratios at the most recent day, a 54-row comparison, and Pearson's r of its columns |
| Analysis.MetricsFirstEmptyRow | risk.py:8-13 | the first day with every price missing makes construction fail at that day's daily return |

## Left out

- Loading the pickle file through pandas (risk.py:7). This is I/O. `NewCompareMetrics` takes the table as a parameter.
- The pandas DataFrame (risk.py:178). The comparison is a datatype that holds the offsets and the two columns.
- The `print` calls (risk.py:189-190) and the `__main__` block (risk.py:206-214). These are console output.
- IEEE float rounding. Arithmetic is over exact reals.
- NaN and inf results. Where Python would raise `ZeroDivisionError` or numpy would produce NaN or inf, the model returns `Err` at lines 52, 95, 118, 125, 157 and 203, and that error propagates as an exception would. A NaN that pandas would keep in a column is not modelled.
- Division by zero at lines 103 and 150. It cannot happen under `daysin < rows`, because the selected slice is never empty.
- The concrete value of `math.sqrt`. It is a parameter, and lemmas assume only the `IsSqrt` contract.
- Negative or out-of-range `daysin`. Python's negative indices and slice bounds wrap around silently. The model requires `0 <= daysin < rows`.
- Tables with fewer than 797 rows. Construction calls `__sharpe_ratio` and then `__my_metric` with offsets up to 796; with fewer rows the indices wrap around, or the Sharpe slice (risk.py:147) is empty and risk.py:150 divides by zero, so `Analysis.Analysable` requires 797 rows.
- Zero prices. Lines 49 and 93 divide by a stored price, so the model requires every observed price to be nonzero (`NonzeroPrices`).
- Negative `adjustedScale` for `__sharpe_ratio`. The integer power is modelled for a non-negative exponent only; the code only ever passes 252.
- Correlation.PearsonUndefinedIff: the bound `-1 <= r <= 1` (Cauchy–Schwarz) is not proved; only r's values for identical and negated columns are.
