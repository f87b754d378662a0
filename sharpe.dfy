/** The annualized Sharpe ratio of the portfolio `daysin` days before its
    most recent day: the compounded mean daily return in excess of the
    risk-free rate, over the population deviation of the daily returns
    scaled by the period length. */
module Sharpe {
  import opened Common

  /** The daily returns the ratio looks at: all but the `daysin` most recent. */
  function RelevantReturns(dailyReturns: seq<real>, daysin: nat): (r: seq<real>)
    requires daysin < |dailyReturns|
    ensures |r| == |dailyReturns| - daysin && |r| > 0
    ensures forall i :: 0 <= i < |r| ==> r[i] == dailyReturns[i]
  {
    dailyReturns[..|dailyReturns| - daysin]
  }

  /** Daily standard deviation of the returns, population form (divides by n). */
  function DailyStdev(xs: seq<real>, sqrt: real -> real): real
    requires |xs| > 0
  {
    sqrt(SumSquaredDeviations(xs, Mean(xs)) / |xs| as real)
  }

  /** `__sharpe_ratio`: undefined when the scaled deviation is 0. */
  function SharpeRatio(dailyReturns: seq<real>, daysin: nat, adjustedScale: nat,
                       sqrt: real -> real): Result<real>
    requires daysin < |dailyReturns|
  {
    var riskFreeReturnRate := RiskFreeRate(adjustedScale);
    var relevantDailyRets := RelevantReturns(dailyReturns, daysin);
    var avgDailyRet := Mean(relevantDailyRets);
    var avgPeriodRet := Compound(avgDailyRet, adjustedScale);
    var stdev := DailyStdev(relevantDailyRets, sqrt) * adjustedScale as real;
    if stdev == 0.0 then Err(ZeroStdev) else Ok((avgPeriodRet - riskFreeReturnRate) / stdev)
  }

  /** The ratio is undefined exactly for a zero scale or a constant window
      of daily returns. */
  lemma SharpeUndefinedIff(dailyReturns: seq<real>, daysin: nat, adjustedScale: nat, sqrt: real -> real)
    requires IsSqrt(sqrt) && daysin < |dailyReturns|
    ensures var xs := RelevantReturns(dailyReturns, daysin);
            SharpeRatio(dailyReturns, daysin, adjustedScale, sqrt).Err?
            <==> adjustedScale == 0 || Constant(xs)
  {
    var xs := RelevantReturns(dailyReturns, daysin);
    var v := SumSquaredDeviations(xs, Mean(xs));
    ConstantIffZeroDeviation(xs);
    DivZeroIff(v, |xs| as real);
    SqrtZeroIff(sqrt, v / |xs| as real);
    ZeroProduct(DailyStdev(xs, sqrt), adjustedScale as real);
  }

  /** The period deviation is the daily deviation times the scale, not times
      its root: its square is scale squared times the daily variance. */
  lemma SharpeStdevLinear(xs: seq<real>, adjustedScale: nat, sqrt: real -> real)
    requires IsSqrt(sqrt) && |xs| > 0
    ensures Square(DailyStdev(xs, sqrt) * adjustedScale as real)
         == Square(adjustedScale as real) * (SumSquaredDeviations(xs, Mean(xs)) / |xs| as real)
  {
    var v := SumSquaredDeviations(xs, Mean(xs)) / |xs| as real;
    DivZeroIff(SumSquaredDeviations(xs, Mean(xs)), |xs| as real);
    assert Square(sqrt(v)) == v;
    SquareProduct(sqrt(v), adjustedScale as real);
  }

  /** With a positive scale and unequal daily returns the ratio is defined,
      and its sign is the sign of the compounded mean return in excess of
      the period's risk-free rate. */
  lemma SharpeSign(dailyReturns: seq<real>, daysin: nat, adjustedScale: nat, sqrt: real -> real)
    requires IsSqrt(sqrt) && daysin < |dailyReturns| && adjustedScale > 0
    requires !Constant(RelevantReturns(dailyReturns, daysin))
    ensures var xs := RelevantReturns(dailyReturns, daysin);
            var r := SharpeRatio(dailyReturns, daysin, adjustedScale, sqrt);
            var excess := Compound(Mean(xs), adjustedScale) - RiskFreeRate(adjustedScale);
            r.Ok? && (r.value > 0.0 <==> excess > 0.0) && (r.value == 0.0 <==> excess == 0.0)
  {
    var xs := RelevantReturns(dailyReturns, daysin);
    SharpeUndefinedIff(dailyReturns, daysin, adjustedScale, sqrt);
    var v := SumSquaredDeviations(xs, Mean(xs)) / |xs| as real;
    DivZeroIff(SumSquaredDeviations(xs, Mean(xs)), |xs| as real);
    var stdev := DailyStdev(xs, sqrt) * adjustedScale as real;
    assert DailyStdev(xs, sqrt) >= 0.0;
    MulNonneg(DailyStdev(xs, sqrt), adjustedScale as real);
    assert stdev != 0.0;
    DivZeroIff(Compound(Mean(xs), adjustedScale) - RiskFreeRate(adjustedScale), stdev);
  }

  /** A window of equal daily returns leaves the ratio undefined. */
  lemma ConstantReturnsUndefined(dailyReturns: seq<real>, daysin: nat, adjustedScale: nat, sqrt: real -> real)
    requires IsSqrt(sqrt) && daysin < |dailyReturns|
    requires forall i, j :: 0 <= i < j < |dailyReturns| - daysin ==> dailyReturns[i] == dailyReturns[j]
    ensures SharpeRatio(dailyReturns, daysin, adjustedScale, sqrt) == Err(ZeroStdev)
  {
    var xs := RelevantReturns(dailyReturns, daysin);
    assert Constant(xs) by {
      forall i | 0 < i < |xs| ensures xs[i] == xs[0] {
        assert dailyReturns[0] == dailyReturns[i];
      }
    }
    SharpeUndefinedIff(dailyReturns, daysin, adjustedScale, sqrt);
  }
}
