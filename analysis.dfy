/** The `CompareMetrics` object: every metric of a price table, computed
    once, in the order of its initializer. */
module Analysis {
  import opened Common
  import opened Portfolio
  import Burke
  import Sharpe
  import Sweep
  import Correlation

  /** The attributes the initializer sets; the loaded table is a parameter. */
  datatype CompareMetrics = CompareMetrics(
    portfolio: Table,
    dailyReturns: seq<real>,
    dailyValues: seq<real>,
    myMetric: real,
    sharpeRatio: real,
    compareMetrics: Sweep.Comparison,
    correlationCoefficient: real)

  /** Whether every metric can be asked of the table: rectangular, no zero
      price, and enough rows for the largest sweep offset (796). */
  predicate Analysable(t: Table)
  {
    Rectangular(t) && NonzeroPrices(t) && |t| >= 797
  }

  /** What the initializer computes, with defaults `daysin = 0` and
      `adjustedScale = 252`; the first undefined metric aborts it. */
  function Metrics(t: Table, sqrt: real -> real): Result<CompareMetrics>
    requires Analysable(t)
  {
    var dailyReturns :- DailyReturns(t);
    var dailyValues := DailyValues(t);
    var myMetric :- Burke.BurkeRatio(t, dailyReturns, dailyValues, 0, TradingDays, sqrt);
    var sharpeRatio :- Sharpe.SharpeRatio(dailyReturns, 0, TradingDays, sqrt);
    var compareMetrics :- Sweep.CompareMetrics(t, dailyReturns, dailyValues, sqrt);
    var correlationCoefficient :- Correlation.Pearson(compareMetrics.sharpe, compareMetrics.burke, sqrt);
    Ok(CompareMetrics(t, dailyReturns, dailyValues, myMetric, sharpeRatio, compareMetrics, correlationCoefficient))
  }

  /** `CompareMetrics.__init__` on an already loaded table. */
  method NewCompareMetrics(t: Table, sqrt: real -> real) returns (r: Result<CompareMetrics>)
    requires Analysable(t)
    ensures r == Metrics(t, sqrt)
  {
    var dailyReturns :- CalcDailyReturns(t);
    var dailyValues := DailyValues(t);
    var myMetric :- Burke.MyMetric(t, dailyReturns, dailyValues, 0, TradingDays, sqrt);
    var sharpeRatio :- Sharpe.SharpeRatio(dailyReturns, 0, TradingDays, sqrt);
    var compareMetrics :- Sweep.CompareMetricsSweep(t, dailyReturns, dailyValues, sqrt);
    var correlationCoefficient :- Correlation.CorrelationCoefficient(compareMetrics.sharpe, compareMetrics.burke, sqrt);
    r := Ok(CompareMetrics(t, dailyReturns, dailyValues, myMetric, sharpeRatio, compareMetrics, correlationCoefficient));
  }

  /** A constructed object holds one daily return and one daily value per
      row, the two ratios at the most recent day, the 54-row comparison and
      Pearson's r of its columns. */
  lemma MetricsShape(t: Table, sqrt: real -> real)
    requires Analysable(t)
    ensures var m := Metrics(t, sqrt);
            m.Ok? ==>
              m.value.portfolio == t
              && DailyReturns(t) == Ok(m.value.dailyReturns) && |m.value.dailyReturns| == |t|
              && m.value.dailyValues == DailyValues(t) && |m.value.dailyValues| == |t|
              && Burke.BurkeRatio(t, m.value.dailyReturns, m.value.dailyValues, 0, TradingDays, sqrt) == Ok(m.value.myMetric)
              && Sharpe.SharpeRatio(m.value.dailyReturns, 0, TradingDays, sqrt) == Ok(m.value.sharpeRatio)
              && m.value.compareMetrics.index == Sweep.Offsets()
              && |m.value.compareMetrics.sharpe| == 54 && |m.value.compareMetrics.burke| == 54
              && Correlation.Pearson(m.value.compareMetrics.sharpe, m.value.compareMetrics.burke, sqrt)
                 == Ok(m.value.correlationCoefficient)
  {
    if Metrics(t, sqrt).Ok? {
      var dr := DailyReturns(t).value;
        Sweep.CompareMetricsAligned(t, dr, DailyValues(t), sqrt);
    }
  }

  /** A day on which every price is missing, with none before it, makes the
      whole object undefined at that day's daily return. */
  lemma MetricsFirstEmptyRow(t: Table, i: nat, sqrt: real -> real)
    requires Analysable(t) && i < |t| && Count(t[i]) == 0
    requires forall k :: 0 <= k < i ==> Count(t[k]) > 0
    ensures Metrics(t, sqrt) == Err(NoCountedAsset(i))
  {
    DailyReturnsFirstFailure(t, i);
  }
}
