/** `__get_correlation_coefficient`: Pearson's correlation coefficient of the
    Sharpe column (x) against the Burke column (y), from three running sums. */
module Correlation {
  import opened Common

  /** One term of the covariance sum. */
  function DeviationProduct(x: real, y: real, mx: real, my: real): real
  {
    (x - mx) * (y - my)
  }

  /** Sum of the products of the deviations of paired elements,
      accumulated left to right. */
  function SumDeviationProducts(xs: seq<real>, ys: seq<real>, mx: real, my: real): real
    requires |xs| == |ys|
  {
    if xs == [] then 0.0
    else SumDeviationProducts(xs[..|xs| - 1], ys[..|ys| - 1], mx, my)
         + DeviationProduct(xs[|xs| - 1], ys[|ys| - 1], mx, my)
  }

  /** `sumdXdY / math.sqrt(sumdX2 * sumdY2)`, undefined for a zero root. */
  function Quotient(sumdXdY: real, sumdX2: real, sumdY2: real, sqrt: real -> real): Result<real>
  {
    var denom := sqrt(sumdX2 * sumdY2);
    if denom == 0.0 then Err(ZeroCorrelationDenominator) else Ok(sumdXdY / denom)
  }

  lemma QuotientCases(sumdXdY: real, sumdX2: real, sumdY2: real, sqrt: real -> real)
    ensures sqrt(sumdX2 * sumdY2) == 0.0 ==> Quotient(sumdXdY, sumdX2, sumdY2, sqrt) == Err(ZeroCorrelationDenominator)
    ensures sqrt(sumdX2 * sumdY2) != 0.0 ==> Quotient(sumdXdY, sumdX2, sumdY2, sqrt) == Ok(sumdXdY / sqrt(sumdX2 * sumdY2))
  {
  }

  /** When both squared sums are s, the root of their product is s. */
  lemma QuotientOfSquare(p: real, s: real, sqrt: real -> real)
    requires IsSqrt(sqrt) && s >= 0.0
    ensures Quotient(p, s, s, sqrt) == if s == 0.0 then Err(ZeroCorrelationDenominator) else Ok(p / s)
  {
    SqrtOfSquare(sqrt, s);
    var d := sqrt(s * s);
    assert d == s;
    assert Quotient(p, s, s, sqrt) == if d == 0.0 then Err(ZeroCorrelationDenominator) else Ok(p / d);
  }

  lemma DivSelf(s: real)
    requires s != 0.0
    ensures s / s == 1.0 && -s / s == -1.0
  {
  }

  /** Pearson's r: undefined for empty or constant columns, where the
      denominator `sqrt(sumdX2 * sumdY2)` is 0. */
  function Pearson(xs: seq<real>, ys: seq<real>, sqrt: real -> real): Result<real>
    requires |xs| == |ys|
  {
    if |xs| == 0 then Err(ZeroCorrelationDenominator)
    else
      var averageX := Mean(xs);
      var averageY := Mean(ys);
      Quotient(SumDeviationProducts(xs, ys, averageX, averageY),
               SumSquaredDeviations(xs, averageX), SumSquaredDeviations(ys, averageY), sqrt)
  }

  /** The loop of `__get_correlation_coefficient`. */
  method CorrelationCoefficient(xValues: seq<real>, yValues: seq<real>, sqrt: real -> real)
    returns (r: Result<real>)
    requires |xValues| == |yValues|
    ensures r == Pearson(xValues, yValues, sqrt)
  {
    if |xValues| == 0 {
      assert xValues == [];
      return Err(ZeroCorrelationDenominator);
    }
    var averageX := Sum(xValues) / |xValues| as real;
    var averageY := Sum(yValues) / |yValues| as real;
    var sumdXdY := 0.0;
    var sumdX2 := 0.0;
    var sumdY2 := 0.0;
    for i := 0 to |xValues|
      invariant sumdXdY == SumDeviationProducts(xValues[..i], yValues[..i], averageX, averageY)
      invariant sumdX2 == SumSquaredDeviations(xValues[..i], averageX)
      invariant sumdY2 == SumSquaredDeviations(yValues[..i], averageY)
    {
      assert xValues[..i + 1][..i] == xValues[..i];
      assert yValues[..i + 1][..i] == yValues[..i];
      sumdXdY := sumdXdY + DeviationProduct(xValues[i], yValues[i], averageX, averageY);
      sumdX2 := sumdX2 + Square(xValues[i] - averageX);
      sumdY2 := sumdY2 + Square(yValues[i] - averageY);
    }
    assert xValues[..|xValues|] == xValues;
    assert yValues[..|yValues|] == yValues;
    assert averageX == Mean(xValues) && averageY == Mean(yValues);
    var denom := sqrt(sumdX2 * sumdY2);
    assert Pearson(xValues, yValues, sqrt) == Quotient(sumdXdY, sumdX2, sumdY2, sqrt);
    QuotientCases(sumdXdY, sumdX2, sumdY2, sqrt);
    if denom == 0.0 {
      return Err(ZeroCorrelationDenominator);
    }
    r := Ok(sumdXdY / denom);
  }

  /** Pairing a column with itself turns the product sum into the squared sum. */
  lemma {:induction false} SelfProducts(xs: seq<real>, m: real)
    ensures SumDeviationProducts(xs, xs, m, m) == SumSquaredDeviations(xs, m)
  {
    if xs != [] {
      SelfProducts(xs[..|xs| - 1], m);
    }
  }

  /** For identical columns the three sums agree, and r is 1 unless the
      column is constant. */
  lemma IdenticalColumns(xs: seq<real>, sqrt: real -> real)
    requires IsSqrt(sqrt) && |xs| > 0
    ensures var m := Mean(xs);
            SumDeviationProducts(xs, xs, m, m) == SumSquaredDeviations(xs, m)
    ensures Pearson(xs, xs, sqrt) == if Constant(xs) then Err(ZeroCorrelationDenominator) else Ok(1.0)
  {
    var m := Mean(xs);
    var s := SumSquaredDeviations(xs, m);
    SelfProducts(xs, m);
    ConstantIffZeroDeviation(xs);
    QuotientOfSquare(s, s, sqrt);
    if s != 0.0 {
      DivSelf(s);
    }
  }

  /** Sum of the negated sequence. */
  lemma {:induction false} SumNegate(xs: seq<real>, ys: seq<real>)
    requires |xs| == |ys| && forall i :: 0 <= i < |xs| ==> ys[i] == -xs[i]
    ensures Sum(ys) == -Sum(xs)
  {
    if xs != [] {
      SumNegate(xs[..|xs| - 1], ys[..|ys| - 1]);
    }
  }

  /** Negating a column about a negated centre leaves its squared deviations
      and negates its products with the original. */
  lemma {:induction false} NegatedSums(xs: seq<real>, ys: seq<real>, m: real)
    requires |xs| == |ys| && forall i :: 0 <= i < |xs| ==> ys[i] == -xs[i]
    ensures SumSquaredDeviations(ys, -m) == SumSquaredDeviations(xs, m)
    ensures SumDeviationProducts(xs, ys, m, -m) == -SumSquaredDeviations(xs, m)
  {
    if xs != [] {
      var n := |xs| - 1;
      NegatedSums(xs[..n], ys[..n], m);
      assert Square(ys[n] - -m) == Square(xs[n] - m);
      assert DeviationProduct(xs[n], ys[n], m, -m) == -Square(xs[n] - m);
    }
  }

  /** A column against its negation has r of -1 unless it is constant. */
  lemma NegatedColumns(xs: seq<real>, ys: seq<real>, sqrt: real -> real)
    requires IsSqrt(sqrt) && |xs| == |ys| > 0
    requires forall i :: 0 <= i < |xs| ==> ys[i] == -xs[i]
    ensures Pearson(xs, ys, sqrt) == if Constant(xs) then Err(ZeroCorrelationDenominator) else Ok(-1.0)
  {
    var m := Mean(xs);
    SumNegate(xs, ys);
    assert Mean(ys) == -m;
    NegatedSums(xs, ys, m);
    var s := SumSquaredDeviations(xs, m);
    ConstantIffZeroDeviation(xs);
    QuotientOfSquare(-s, s, sqrt);
    if s != 0.0 {
      DivSelf(s);
    }
  }

  /** The coefficient is undefined exactly when a column is empty or constant. */
  lemma PearsonUndefinedIff(xs: seq<real>, ys: seq<real>, sqrt: real -> real)
    requires IsSqrt(sqrt) && |xs| == |ys|
    ensures Pearson(xs, ys, sqrt).Err? <==> xs == [] || Constant(xs) || Constant(ys)
  {
    if xs != [] {
      var sx := SumSquaredDeviations(xs, Mean(xs));
      var sy := SumSquaredDeviations(ys, Mean(ys));
      ConstantIffZeroDeviation(xs);
      ConstantIffZeroDeviation(ys);
      MulNonneg(sx, sy);
      SqrtZeroIff(sqrt, sx * sy);
      ZeroProduct(sx, sy);
    }
  }
}
