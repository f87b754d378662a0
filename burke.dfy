/** The Burke ratio of the portfolio `daysin` days before its most recent
    day: excess return over a year's window (or, without a year of history,
    the compounded mean daily return), divided by the root-sum-square of the
    drawdowns of the daily value from its peak. */
module Burke {
  import opened Common
  import opened Portfolio

  /** First day of a window of TradingDays days that ends on day `idx`, when
      there is that much history. */
  function WindowStart(idx: nat): (r: Option<nat>)
    ensures r.Some? <==> TradingDays <= idx + 1
    ensures r.Some? ==> r.value <= idx && idx - r.value + 1 == TradingDays
  {
    if TradingDays <= idx + 1 then Some(idx - TradingDays + 1) else None
  }

  // ---------------------------------------------------------------------
  // Return over the window
  // ---------------------------------------------------------------------

  /** Both ends of the window have a price for asset slot j. */
  predicate BothObserved(init: Row, target: Row, j: nat)
  {
    j < |init| && j < |target| && init[j].Some? && target[j].Some?
  }

  /** Number of the first k asset slots observed at both ends. */
  function WindowCount(init: Row, target: Row, k: nat): nat
    requires k <= |init| <= |target|
  {
    if k == 0 then 0 else WindowCount(init, target, k - 1) + (if BothObserved(init, target, k - 1) then 1 else 0)
  }

  /** Sum of the percent changes over the window of the first k asset slots
      observed at both ends. */
  function WindowChange(init: Row, target: Row, k: nat): real
    requires k <= |init| <= |target| && NonzeroRow(init)
  {
    if k == 0 then 0.0
    else
      WindowChange(init, target, k - 1)
      + (if BothObserved(init, target, k - 1)
         then (target[k - 1].value - init[k - 1].value) / init[k - 1].value
         else 0.0)
  }

  /** Equal-weighted return over the window, undefined when no asset is
      observed at both ends. */
  function WindowReturn(init: Row, target: Row): Result<real>
    requires |init| <= |target| && NonzeroRow(init)
  {
    var n := WindowCount(init, target, |init|);
    if n == 0 then Err(NoWindowAsset) else Ok(WindowChange(init, target, |init|) / n as real)
  }

  /** No asset is counted exactly when none is observed at both ends. */
  lemma {:induction false} WindowCountZeroIff(init: Row, target: Row, k: nat)
    requires k <= |init| <= |target|
    ensures WindowCount(init, target, k) <= k
    ensures WindowCount(init, target, k) == 0 <==> forall j :: 0 <= j < k ==> !BothObserved(init, target, j)
  {
    if k > 0 {
      WindowCountZeroIff(init, target, k - 1);
    }
  }

  lemma {:induction false} WindowFullyObservedPrefix(init: Row, target: Row, k: nat)
    requires Full(init) && Full(target) && NonzeroRow(init) && |init| == |target| && k <= |init|
    ensures WindowCount(init, target, k) == k
    ensures WindowChange(init, target, k) == Sum(PercentChanges(init, target)[..k])
  {
    if k > 0 {
      WindowFullyObservedPrefix(init, target, k - 1);
      assert PercentChanges(init, target)[..k][..k - 1] == PercentChanges(init, target)[..k - 1];
    }
  }

  /** With both ends fully observed, the window return is the mean of the
      assets' simple percent changes. */
  lemma WindowFullyObserved(init: Row, target: Row)
    requires Full(init) && Full(target) && NonzeroRow(init) && |init| == |target| > 0
    ensures WindowReturn(init, target) == Ok(Mean(PercentChanges(init, target)))
  {
    WindowFullyObservedPrefix(init, target, |init|);
    assert PercentChanges(init, target)[..|init|] == PercentChanges(init, target);
  }

  // ---------------------------------------------------------------------
  // Drawdowns
  // ---------------------------------------------------------------------

  /** Largest element, as Python's `max`. */
  function Max(xs: seq<real>): (m: real)
    requires |xs| > 0
    ensures m in xs
    ensures forall i :: 0 <= i < |xs| ==> xs[i] <= m
  {
    if |xs| == 1 then xs[0]
    else
      var m := Max(xs[..|xs| - 1]);
      assert forall i :: 0 <= i < |xs| - 1 ==> xs[..|xs| - 1][i] == xs[i];
      if xs[|xs| - 1] > m then xs[|xs| - 1] else m
  }

  /** Drawdown of every value relative to the peak: `(x - peak) / peak`. */
  function Drawdowns(values: seq<real>, peak: real): (r: seq<real>)
    requires peak != 0.0
    ensures |r| == |values|
  {
    seq(|values|, i requires 0 <= i < |values| => (values[i] - peak) / peak)
  }

  /** Sum of the squared drawdowns from the peak of `values`, undefined when
      the peak is 0. */
  function DrawdownSquares(values: seq<real>): Result<real>
    requires |values| > 0
  {
    var peak := Max(values);
    if peak == 0.0 then Err(ZeroPeak) else Ok(SumOfSquares(Drawdowns(values, peak)))
  }

  /** One day's drawdown: at most 0 below a positive peak, 0 exactly at
      the peak. */
  lemma DrawdownAt(v: real, peak: real)
    requires peak != 0.0
    ensures peak > 0.0 && v <= peak ==> (v - peak) / peak <= 0.0
    ensures (v - peak) / peak == 0.0 <==> v == peak
  {
    assert ((v - peak) / peak) * peak == v - peak;
  }

  /** Against a positive peak no drawdown is positive, and a day at the peak
      has drawdown 0. */
  lemma DrawdownsNonPositive(values: seq<real>)
    requires |values| > 0 && Max(values) > 0.0
    ensures forall i :: 0 <= i < |values| ==> Drawdowns(values, Max(values))[i] <= 0.0
    ensures forall i :: 0 <= i < |values| && values[i] == Max(values) ==> Drawdowns(values, Max(values))[i] == 0.0
  {
    DrawdownsBelowPeak(values, Max(values));
  }

  lemma DrawdownsBelowPeak(values: seq<real>, peak: real)
    requires peak > 0.0 && forall i :: 0 <= i < |values| ==> values[i] <= peak
    ensures forall i :: 0 <= i < |values| ==> Drawdowns(values, peak)[i] <= 0.0
    ensures forall i :: 0 <= i < |values| && values[i] == peak ==> Drawdowns(values, peak)[i] == 0.0
  {
    forall i | 0 <= i < |values| ensures Drawdowns(values, peak)[i] <= 0.0 && (values[i] == peak ==> Drawdowns(values, peak)[i] == 0.0) {
      DrawdownAt(values[i], peak);
    }
  }

  /** The squared drawdowns sum to 0 exactly when every value equals the peak. */
  lemma DrawdownSquaresZeroIff(values: seq<real>)
    requires |values| > 0 && Max(values) != 0.0
    ensures DrawdownSquares(values) == Ok(SumOfSquares(Drawdowns(values, Max(values))))
    ensures DrawdownSquares(values).value == 0.0 <==> forall i :: 0 <= i < |values| ==> values[i] == Max(values)
  {
    DrawdownsZeroAtPeak(values, Max(values));
  }

  lemma DrawdownsZeroAtPeak(values: seq<real>, peak: real)
    requires peak != 0.0
    ensures SumOfSquares(Drawdowns(values, peak)) == 0.0 <==> forall i :: 0 <= i < |values| ==> values[i] == peak
  {
    var dd := Drawdowns(values, peak);
    SumOfSquaresZeroIff(dd);
    forall i | 0 <= i < |values| ensures dd[i] == 0.0 <==> values[i] == peak {
      DrawdownAt(values[i], peak);
    }
  }

  // ---------------------------------------------------------------------
  // The ratio
  // ---------------------------------------------------------------------

  /** Return over the period ending on day `idx`: over the window when a
      year of history is available, else the mean daily return of days
      0..idx compounded over TradingDays days. */
  function PeriodReturn(t: Table, dailyReturns: seq<real>, idx: nat): Result<real>
    requires Rectangular(t) && NonzeroPrices(t) && idx < |t| && |dailyReturns| == |t|
  {
    match WindowStart(idx)
    case Some(init) => WindowReturn(t[init], t[idx])
    case None => Ok(Compound(Mean(dailyReturns[..idx + 1]), TradingDays))
  }

  /** `__my_metric`: the Burke ratio `daysin` days before the most recent
      day. The scale argument is ignored: TradingDays is always used. */
  function BurkeRatio(t: Table, dailyReturns: seq<real>, dailyValues: seq<real>,
                      daysin: nat, adjustedScale: int, sqrt: real -> real): Result<real>
    requires Rectangular(t) && NonzeroPrices(t) && daysin < |t|
    requires |dailyReturns| == |t| && |dailyValues| == |t|
  {
    var idx := |t| - 1 - daysin;
    var periodReturn :- PeriodReturn(t, dailyReturns, idx);
    var dd :- DrawdownSquares(dailyValues[..idx + 1]);
    var denom := sqrt(dd);
    if denom == 0.0 then Err(ZeroDrawdownDenominator)
    else Ok((periodReturn - RiskFreeRate(TradingDays)) / denom)
  }

  /** `__my_metric`, step by step: the window branch counts and sums the
      assets observed at both ends of the window in one loop. */
  method MyMetric(t: Table, dailyReturns: seq<real>, dailyValues: seq<real>,
                  daysin: nat, adjustedScale: int, sqrt: real -> real) returns (r: Result<real>)
    requires Rectangular(t) && NonzeroPrices(t) && daysin < |t|
    requires |dailyReturns| == |t| && |dailyValues| == |t|
    ensures r == BurkeRatio(t, dailyReturns, dailyValues, daysin, adjustedScale, sqrt)
  {
    var scale := TradingDays;  // the caller's adjustedScale is overridden
    var riskFreeReturnRate := TreasuryRate / 252.0 * scale as real;
    var periodReturn: real;  // `returns` in the source
    var burkeRatioIdx := |t| - 1 - daysin;
    var targetDate := t[burkeRatioIdx];
    if scale <= burkeRatioIdx + 1 {
      var initDateIdx := burkeRatioIdx - scale + 1;
      var initialDate := t[initDateIdx];
      assert NonzeroRow(initialDate);
      var numCounted := 0;
      var cumReturns := 0.0;
      var seriesIdx := 0;
      while seriesIdx < |initialDate|
        invariant 0 <= seriesIdx <= |initialDate|
        invariant numCounted == WindowCount(initialDate, targetDate, seriesIdx)
        invariant cumReturns == WindowChange(initialDate, targetDate, seriesIdx)
      {
        if targetDate[seriesIdx].Some? && initialDate[seriesIdx].Some? {
          numCounted := numCounted + 1;
          cumReturns := cumReturns + (targetDate[seriesIdx].value - initialDate[seriesIdx].value) / initialDate[seriesIdx].value;
        }
        seriesIdx := seriesIdx + 1;
      }
      if numCounted == 0 {
        return Err(NoWindowAsset);
      }
      periodReturn := cumReturns / numCounted as real;
    } else {
      var relevantDailyRets := dailyReturns[..burkeRatioIdx + 1];
      var avgDailyRet := Sum(relevantDailyRets) / |relevantDailyRets| as real;
      periodReturn := Compound(avgDailyRet, scale);
    }
    var rpMinusrf := periodReturn - riskFreeReturnRate;
    var sumValues := dailyValues[..burkeRatioIdx + 1];
    var maximum := Max(sumValues);
    if maximum == 0.0 {
      return Err(ZeroPeak);
    }
    var denom := sqrt(SumOfSquares(Drawdowns(sumValues, maximum)));
    if denom == 0.0 {
      return Err(ZeroDrawdownDenominator);
    }
    r := Ok(rpMinusrf / denom);
  }

  // ---------------------------------------------------------------------
  // Properties of the ratio
  // ---------------------------------------------------------------------

  /** The ratio does not depend on the scale argument, its risk-free term is
      the full annual rate, and a defined ratio times the root of the summed
      squared drawdowns is the excess period return. */
  lemma BurkeRatioFixedScale(t: Table, dailyReturns: seq<real>, dailyValues: seq<real>,
                             daysin: nat, s1: int, s2: int, sqrt: real -> real)
    requires Rectangular(t) && NonzeroPrices(t) && daysin < |t|
    requires |dailyReturns| == |t| && |dailyValues| == |t|
    ensures BurkeRatio(t, dailyReturns, dailyValues, daysin, s1, sqrt)
         == BurkeRatio(t, dailyReturns, dailyValues, daysin, s2, sqrt)
    ensures RiskFreeRate(TradingDays) == 0.0426
    ensures var idx := |t| - 1 - daysin;
            BurkeRatio(t, dailyReturns, dailyValues, daysin, s1, sqrt).Ok? ==>
              PeriodReturn(t, dailyReturns, idx).Ok? &&
              DrawdownSquares(dailyValues[..idx + 1]).Ok? &&
              BurkeRatio(t, dailyReturns, dailyValues, daysin, s1, sqrt).value
                * sqrt(DrawdownSquares(dailyValues[..idx + 1]).value)
              == PeriodReturn(t, dailyReturns, idx).value - 0.0426
  {
  }

  /** With a defined period return and a non-zero peak, the ratio is
      undefined exactly when every daily value of days 0..idx equals the peak. */
  lemma BurkeUndefinedIff(t: Table, dailyReturns: seq<real>, dailyValues: seq<real>,
                          daysin: nat, adjustedScale: int, sqrt: real -> real)
    requires IsSqrt(sqrt)
    requires Rectangular(t) && NonzeroPrices(t) && daysin < |t|
    requires |dailyReturns| == |t| && |dailyValues| == |t|
    requires PeriodReturn(t, dailyReturns, |t| - 1 - daysin).Ok?
    requires Max(dailyValues[..|t| - daysin]) != 0.0
    ensures BurkeRatio(t, dailyReturns, dailyValues, daysin, adjustedScale, sqrt).Err?
        <==> forall i :: 0 <= i <= |t| - 1 - daysin ==> dailyValues[i] == Max(dailyValues[..|t| - daysin])
  {
    var values := dailyValues[..|t| - daysin];
    DrawdownSquaresZeroIff(values);
    SqrtZeroIff(sqrt, DrawdownSquares(values).value);
    assert forall i :: 0 <= i < |values| ==> values[i] == dailyValues[i];
  }

  /** Without a year of history the period return is always defined, and it
      compounds rather than scales the mean daily return: a zero mean gives 0,
      and a mean of at least -100% gives at least 252 times the mean. */
  lemma PeriodReturnFallback(t: Table, dailyReturns: seq<real>, idx: nat)
    requires Rectangular(t) && NonzeroPrices(t) && idx < |t| && |dailyReturns| == |t|
    requires idx + 1 < TradingDays
    ensures var avg := Mean(dailyReturns[..idx + 1]);
            var r := PeriodReturn(t, dailyReturns, idx);
            r.Ok? && (avg == 0.0 ==> r.value == 0.0) && (avg >= -1.0 ==> r.value >= 252.0 * avg)
  {
    CompoundBounds(Mean(dailyReturns[..idx + 1]), TradingDays);
  }

  /** On the oldest day the single daily value is its own peak, so the ratio
      is undefined. */
  lemma BurkeOldestDayUndefined(t: Table, dailyReturns: seq<real>, dailyValues: seq<real>,
                                adjustedScale: int, sqrt: real -> real)
    requires IsSqrt(sqrt)
    requires Rectangular(t) && NonzeroPrices(t) && |t| > 0
    requires |dailyReturns| == |t| && |dailyValues| == |t|
    ensures BurkeRatio(t, dailyReturns, dailyValues, |t| - 1, adjustedScale, sqrt).Err?
  {
    var values := dailyValues[..1];
    assert Max(values) == dailyValues[0];
    if Max(values) != 0.0 {
      BurkeUndefinedIff(t, dailyReturns, dailyValues, |t| - 1, adjustedScale, sqrt);
    }
  }
}
