/** `__compare_metrics`: the Sharpe and Burke ratios side by side for the
    offsets `range(1, 800, 15)`, one row per offset. */
module Sweep {
  import opened Common
  import opened Portfolio
  import Burke
  import Sharpe

  /** Python's `range(start, stop, step)` for a positive step. */
  function StepRange(start: nat, stop: nat, step: nat): (r: seq<nat>)
    requires step > 0
    ensures forall k :: 0 <= k < |r| ==> r[k] == start + k * step && r[k] < stop
    ensures start + |r| * step >= stop
    decreases stop - start
  {
    if start < stop then
      var rest := StepRange(start + step, stop, step);
      assert forall k :: 1 <= k <= |rest| ==> start + step + (k - 1) * step == start + k * step by {
        forall k | 1 <= k <= |rest| ensures start + step + (k - 1) * step == start + k * step {
          assert (k - 1) * step == k * step - step;
        }
      }
      assert start + step + |rest| * step == start + (|rest| + 1) * step;
      [start] + rest
    else []
  }

  /** `numGenerate = range(1, 800, 15)`. */
  function Offsets(): seq<nat>
  {
    StepRange(1, 800, 15)
  }

  /** The offsets are 1, 16, ..., 796: 54 of them, 15 apart. */
  lemma OffsetsShape()
    ensures |Offsets()| == 54
    ensures Offsets()[0] == 1 && Offsets()[53] == 796
    ensures forall k :: 0 <= k < 54 ==> Offsets()[k] == 1 + 15 * k
    ensures forall k :: 0 < k < 54 ==> Offsets()[k] == Offsets()[k - 1] + 15
    ensures forall k, l :: 0 <= k < l < 54 ==> Offsets()[k] < Offsets()[l]
  {
  }

  /** The comparison table: one row per offset, the two ratios as columns. */
  datatype Comparison = Comparison(index: seq<nat>, sharpe: seq<real>, burke: seq<real>)

  /** Whether the table can compute both ratios at every offset: the
      largest offset, 796, must name a row. */
  predicate Computable(t: Table, dailyReturns: seq<real>, dailyValues: seq<real>)
  {
    Rectangular(t) && NonzeroPrices(t) && |dailyReturns| == |t| && |dailyValues| == |t| && |t| >= 797
  }

  /** Every offset names a row of a table of that many rows. */
  predicate Fits(offsets: seq<nat>, rows: nat)
  {
    forall k :: 0 <= k < |offsets| ==> offsets[k] < rows
  }

  lemma FitsPrefix(offsets: seq<nat>, rows: nat, n: nat)
    requires Fits(offsets, rows) && n <= |offsets|
    ensures Fits(offsets[..n], rows)
  {
    assert forall k :: 0 <= k < n ==> offsets[..n][k] == offsets[k];
  }

  /** The two columns over a prefix of the offsets, filled in order, Sharpe
      before Burke at each offset; the first undefined ratio aborts. */
  function Columns(t: Table, dailyReturns: seq<real>, dailyValues: seq<real>,
                   offsets: seq<nat>, sqrt: real -> real): (r: Result<(seq<real>, seq<real>)>)
    requires Rectangular(t) && NonzeroPrices(t) && |dailyReturns| == |t| && |dailyValues| == |t|
    requires Fits(offsets, |t|)
    ensures r.Ok? ==> |r.value.0| == |offsets| && |r.value.1| == |offsets|
  {
    if offsets == [] then Ok(([], []))
    else
      FitsPrefix(offsets, |t|, |offsets| - 1);
      var cols :- Columns(t, dailyReturns, dailyValues, offsets[..|offsets| - 1], sqrt);
      var i := offsets[|offsets| - 1];
      var s :- Sharpe.SharpeRatio(dailyReturns, i, TradingDays, sqrt);
      var b :- Burke.BurkeRatio(t, dailyReturns, dailyValues, i, TradingDays, sqrt);
      Ok((cols.0 + [s], cols.1 + [b]))
  }

  /** `__compare_metrics`: the comparison table indexed by `range(1, 800, 15)`. */
  function CompareMetrics(t: Table, dailyReturns: seq<real>, dailyValues: seq<real>,
                          sqrt: real -> real): (r: Result<Comparison>)
    requires Computable(t, dailyReturns, dailyValues)
    ensures r.Ok? ==> r.value.index == Offsets() && |r.value.sharpe| == |Offsets()| && |r.value.burke| == |Offsets()|
  {
    OffsetsFit(t);
    var cols :- Columns(t, dailyReturns, dailyValues, Offsets(), sqrt);
    Ok(Comparison(Offsets(), cols.0, cols.1))
  }

  /** The loop of `__compare_metrics` over the offsets `numGenerate`,
      appending to both columns. */
  method SweepColumns(t: Table, dailyReturns: seq<real>, dailyValues: seq<real>,
                      numGenerate: seq<nat>, sqrt: real -> real) returns (r: Result<(seq<real>, seq<real>)>)
    requires Rectangular(t) && NonzeroPrices(t) && |dailyReturns| == |t| && |dailyValues| == |t|
    requires Fits(numGenerate, |t|)
    ensures r == Columns(t, dailyReturns, dailyValues, numGenerate, sqrt)
  {
    var sharpeColumn: seq<real> := [];
    var burkeColumn: seq<real> := [];
    var k := 0;
    FitsPrefix(numGenerate, |t|, 0);
    while k < |numGenerate|
      invariant 0 <= k <= |numGenerate|
      invariant Fits(numGenerate[..k], |t|)
      invariant Columns(t, dailyReturns, dailyValues, numGenerate[..k], sqrt) == Ok((sharpeColumn, burkeColumn))
    {
      var i := numGenerate[k];
      FitsPrefix(numGenerate, |t|, k + 1);
      assert numGenerate[..k + 1][..k] == numGenerate[..k];
      var s := Sharpe.SharpeRatio(dailyReturns, i, TradingDays, sqrt);
      if s.Err? {
        ColumnsErrPrefix(t, dailyReturns, dailyValues, numGenerate, k + 1, sqrt);
        return Err(s.error);
      }
      var b := Burke.MyMetric(t, dailyReturns, dailyValues, i, TradingDays, sqrt);
      if b.Err? {
        ColumnsErrPrefix(t, dailyReturns, dailyValues, numGenerate, k + 1, sqrt);
        return Err(b.error);
      }
      sharpeColumn := sharpeColumn + [s.value];
      burkeColumn := burkeColumn + [b.value];
      k := k + 1;
    }
    assert numGenerate[..k] == numGenerate;
    r := Ok((sharpeColumn, burkeColumn));
  }

  /** `__compare_metrics`: the table indexed by `range(1, 800, 15)`. */
  method CompareMetricsSweep(t: Table, dailyReturns: seq<real>, dailyValues: seq<real>,
                             sqrt: real -> real) returns (r: Result<Comparison>)
    requires Computable(t, dailyReturns, dailyValues)
    ensures r == CompareMetrics(t, dailyReturns, dailyValues, sqrt)
  {
    var numGenerate := Offsets();
    OffsetsFit(t);
    var cols :- SweepColumns(t, dailyReturns, dailyValues, numGenerate, sqrt);
    r := Ok(Comparison(numGenerate, cols.0, cols.1));
  }

  /** The first undefined ratio in the sweep makes the whole comparison undefined,
      with that ratio's reason. */
  lemma {:induction false} ColumnsErrPrefix(t: Table, dailyReturns: seq<real>, dailyValues: seq<real>,
                                            offsets: seq<nat>, n: nat, sqrt: real -> real)
    requires Rectangular(t) && NonzeroPrices(t) && |dailyReturns| == |t| && |dailyValues| == |t|
    requires Fits(offsets, |t|)
    requires n <= |offsets|
    requires Columns(t, dailyReturns, dailyValues, offsets[..n], sqrt).Err?
    ensures Columns(t, dailyReturns, dailyValues, offsets, sqrt)
         == Columns(t, dailyReturns, dailyValues, offsets[..n], sqrt)
    decreases |offsets| - n
  {
    FitsPrefix(offsets, |t|, n);
    if n < |offsets| {
      var m := |offsets| - 1;
      FitsPrefix(offsets, |t|, m);
      assert offsets[..m][..n] == offsets[..n];
      ColumnsErrPrefix(t, dailyReturns, dailyValues, offsets[..m], n, sqrt);
      ColumnsErrStep(t, dailyReturns, dailyValues, offsets, sqrt);
    } else {
      assert offsets[..n] == offsets;
    }
  }

  lemma ColumnsErrStep(t: Table, dailyReturns: seq<real>, dailyValues: seq<real>,
                       offsets: seq<nat>, sqrt: real -> real)
    requires Rectangular(t) && NonzeroPrices(t) && |dailyReturns| == |t| && |dailyValues| == |t|
    requires Fits(offsets, |t|)
    requires offsets != []
    requires Columns(t, dailyReturns, dailyValues, offsets[..|offsets| - 1], sqrt).Err?
    ensures Columns(t, dailyReturns, dailyValues, offsets, sqrt)
         == Columns(t, dailyReturns, dailyValues, offsets[..|offsets| - 1], sqrt)
  {
  }

  /** Defined columns have one entry per offset, aligned in order. */
  lemma {:induction false} ColumnsAligned(t: Table, dailyReturns: seq<real>, dailyValues: seq<real>,
                                          offsets: seq<nat>, sqrt: real -> real)
    requires Rectangular(t) && NonzeroPrices(t) && |dailyReturns| == |t| && |dailyValues| == |t|
    requires Fits(offsets, |t|)
    ensures var c := Columns(t, dailyReturns, dailyValues, offsets, sqrt);
            c.Ok? <==> forall k :: 0 <= k < |offsets| ==>
                        Sharpe.SharpeRatio(dailyReturns, offsets[k], TradingDays, sqrt).Ok?
                        && Burke.BurkeRatio(t, dailyReturns, dailyValues, offsets[k], TradingDays, sqrt).Ok?
    ensures var c := Columns(t, dailyReturns, dailyValues, offsets, sqrt);
            c.Ok? ==> |c.value.0| == |offsets| && |c.value.1| == |offsets|
                      && forall k :: 0 <= k < |offsets| ==>
                           Ok(c.value.0[k]) == Sharpe.SharpeRatio(dailyReturns, offsets[k], TradingDays, sqrt)
                           && Ok(c.value.1[k]) == Burke.BurkeRatio(t, dailyReturns, dailyValues, offsets[k], TradingDays, sqrt)
  {
    if offsets != [] {
      var init := offsets[..|offsets| - 1];
      FitsPrefix(offsets, |t|, |offsets| - 1);
      ColumnsAligned(t, dailyReturns, dailyValues, init, sqrt);
      assert forall k :: 0 <= k < |init| ==> init[k] == offsets[k];
    }
  }

  /** A defined comparison has 54 rows, indexed by the offsets, each holding
      the Sharpe and Burke ratios at that offset. */
  lemma CompareMetricsAligned(t: Table, dailyReturns: seq<real>, dailyValues: seq<real>, sqrt: real -> real)
    requires Computable(t, dailyReturns, dailyValues)
    ensures var c := CompareMetrics(t, dailyReturns, dailyValues, sqrt);
            c.Ok? ==> c.value.index == Offsets()
                      && |c.value.sharpe| == 54 && |c.value.burke| == 54
                      && forall k :: 0 <= k < 54 ==>
                           Ok(c.value.sharpe[k]) == Sharpe.SharpeRatio(dailyReturns, 1 + 15 * k, TradingDays, sqrt)
                           && Ok(c.value.burke[k]) == Burke.BurkeRatio(t, dailyReturns, dailyValues, 1 + 15 * k, TradingDays, sqrt)
  {
    OffsetsShape();
    OffsetsFit(t);
    ColumnsAligned(t, dailyReturns, dailyValues, Offsets(), sqrt);
  }

  /** The offsets fit any table of at least 797 rows. */
  lemma OffsetsFit(t: Table)
    requires |t| >= 797
    ensures Fits(Offsets(), |t|)
  {
    OffsetsShape();
  }
}
