/** Shared vocabulary of the risk model: optional cells, failure results,
    sums over sequences of reals, integer powers and the contract of a
    square root supplied from outside. */
module Common {

  /** A value that may be missing (a NaN cell of the price table). */
  datatype Option<+T> = None | Some(value: T)

  /** Where a computation of the portfolio metrics becomes undefined: every
      one of these is a division by zero in risk.py (a ZeroDivisionError,
      or a NaN/inf float, depending on the operand types). */
  datatype Undefined =
    | NoCountedAsset(row: nat)        // daily return of a row whose every cell is missing
    | NoWindowAsset                   // Burke window with no asset observed at both ends
    | ZeroPeak                        // Burke drawdowns relative to a peak of 0
    | ZeroDrawdownDenominator         // Burke ratio whose drawdown root-sum-square is 0
    | ZeroStdev                       // Sharpe ratio whose scaled deviation is 0
    | ZeroCorrelationDenominator      // Pearson coefficient of a constant (or empty) column

  /** Outcome of a computation that may hit an undefined division. */
  datatype Result<+T> = Ok(value: T) | Err(error: Undefined) {
    predicate IsFailure() { Err? }

    function PropagateFailure<U>(): Result<U>
      requires Err?
    {
      Err(error)
    }

    function Extract(): T
      requires Ok?
    {
      value
    }
  }

  /** Sum of a sequence, accumulated left to right like Python's `sum`. */
  function Sum(xs: seq<real>): real
  {
    if xs == [] then 0.0 else Sum(xs[..|xs| - 1]) + xs[|xs| - 1]
  }

  lemma {:induction false} SumAppend(xs: seq<real>, ys: seq<real>)
    ensures Sum(xs + ys) == Sum(xs) + Sum(ys)
    decreases |ys|
  {
    if ys == [] {
      assert xs + ys == xs;
    } else {
      assert (xs + ys)[..|xs + ys| - 1] == xs + ys[..|ys| - 1];
      SumAppend(xs, ys[..|ys| - 1]);
    }
  }

  /** Sum of a constant sequence. */
  lemma {:induction false} SumConstant(xs: seq<real>, c: real)
    requires forall i :: 0 <= i < |xs| ==> xs[i] == c
    ensures Sum(xs) == |xs| as real * c
  {
    if xs != [] {
      SumConstant(xs[..|xs| - 1], c);
    }
  }

  /** Arithmetic mean, as `sum(xs) / len(xs)`. */
  function Mean(xs: seq<real>): real
    requires |xs| > 0
  {
    Sum(xs) / |xs| as real
  }

  function Square(x: real): (r: real)
    ensures r >= 0.0
  {
    x * x
  }

  /** Sum of the squares of a sequence, as `sum([x ** 2 for x in xs])`. */
  function SumOfSquares(xs: seq<real>): (r: real)
    ensures r >= 0.0
  {
    if xs == [] then 0.0 else SumOfSquares(xs[..|xs| - 1]) + Square(xs[|xs| - 1])
  }

  /** A sum of squares is 0 exactly when every term is 0. */
  lemma {:induction false} SumOfSquaresZeroIff(xs: seq<real>)
    ensures SumOfSquares(xs) == 0.0 <==> forall i :: 0 <= i < |xs| ==> xs[i] == 0.0
  {
    if xs != [] {
      var init := xs[..|xs| - 1];
      SumOfSquaresZeroIff(init);
      SquareZero(xs[|xs| - 1]);
      assert forall i :: 0 <= i < |init| ==> init[i] == xs[i];
    }
  }

  /** Sum of the squared deviations from m, accumulated left to right:
      `sum([(x - m) ** 2 for x in xs])`. */
  function SumSquaredDeviations(xs: seq<real>, m: real): (r: real)
    ensures r >= 0.0
  {
    if xs == [] then 0.0 else SumSquaredDeviations(xs[..|xs| - 1], m) + Square(xs[|xs| - 1] - m)
  }

  /** The squared deviations sum to 0 exactly when every element equals m. */
  lemma {:induction false} SumSquaredDeviationsZeroIff(xs: seq<real>, m: real)
    ensures SumSquaredDeviations(xs, m) == 0.0 <==> forall i :: 0 <= i < |xs| ==> xs[i] == m
  {
    if xs != [] {
      var init := xs[..|xs| - 1];
      SumSquaredDeviationsZeroIff(init, m);
      SquareZero(xs[|xs| - 1] - m);
      assert forall i :: 0 <= i < |init| ==> init[i] == xs[i];
    }
  }

  /** Every element equals the first exactly when the sequence is constant. */
  predicate Constant(xs: seq<real>)
  {
    forall i :: 0 <= i < |xs| ==> xs[i] == xs[0]
  }

  /** The squared deviations from the mean sum to 0 exactly for a constant
      sequence. */
  lemma ConstantIffZeroDeviation(xs: seq<real>)
    requires |xs| > 0
    ensures SumSquaredDeviations(xs, Mean(xs)) == 0.0 <==> Constant(xs)
  {
    SumSquaredDeviationsZeroIff(xs, Mean(xs));
    if Constant(xs) {
      SumConstant(xs, xs[0]);
    }
  }

  /** `x ** n` for a non-negative integer exponent. */
  function Pow(x: real, n: nat): real
  {
    if n == 0 then 1.0 else x * Pow(x, n - 1)
  }

  /** Bernoulli's inequality: compounding a per-period return of at least
      -100% over n periods earns at least n times the per-period return. */
  lemma {:induction false} Bernoulli(x: real, n: nat)
    requires x >= -1.0
    ensures Pow(1.0 + x, n) >= 1.0 + n as real * x
  {
    if n > 0 {
      Bernoulli(x, n - 1);
      var p := Pow(1.0 + x, n - 1);
      assert (1.0 + x) * p >= (1.0 + x) * (1.0 + (n - 1) as real * x) by {
        assert 1.0 + x >= 0.0;
        assert p - (1.0 + (n - 1) as real * x) >= 0.0;
        MulNonneg(1.0 + x, p - (1.0 + (n - 1) as real * x));
      }
      assert (1.0 + x) * (1.0 + (n - 1) as real * x)
          == 1.0 + n as real * x + (n - 1) as real * (x * x);
      assert (n - 1) as real * (x * x) >= 0.0 by {
        MulNonneg((n - 1) as real, x * x);
      }
    }
  }

  lemma MulNonneg(a: real, b: real)
    requires a >= 0.0 && b >= 0.0
    ensures a * b >= 0.0
  {
  }

  lemma MulPos(a: real, b: real)
    requires a > 0.0 && b > 0.0
    ensures a * b > 0.0
  {
  }

  lemma MulLess(a: real, b: real, c: real)
    requires a < b && c > 0.0
    ensures a * c < b * c
  {
    MulPos(b - a, c);
  }

  lemma MulLeq(a: real, b: real, c: real)
    requires a <= b && c >= 0.0
    ensures a * c <= b * c
  {
    if a < b && c > 0.0 {
      MulPos(b - a, c);
    }
  }

  /** A product is 0 exactly when a factor is. */
  lemma ZeroProduct(a: real, b: real)
    ensures a * b == 0.0 <==> a == 0.0 || b == 0.0
  {
    if a != 0.0 && b != 0.0 {
      assert (a * b) / b == a;
    }
  }

  /** Dividing by a positive number keeps the sign. */
  lemma DivZeroIff(a: real, b: real)
    requires b > 0.0
    ensures a / b >= 0.0 <==> a >= 0.0
    ensures a / b == 0.0 <==> a == 0.0
  {
    var q := a / b;
    assert q * b == a;
    if q < 0.0 {
      MulLess(q, 0.0, b);
    } else {
      MulLeq(0.0, q, b);
    }
  }

  /** A square is 0 exactly at 0. */
  lemma SquareZero(x: real)
    ensures Square(x) == 0.0 <==> x == 0.0
  {
    if x > 0.0 {
      calc { Square(x); == x * x; > 0.0; }
    } else if x < 0.0 {
      calc { Square(x); == (-x) * (-x); > 0.0; }
    }
  }

  lemma SquareProduct(a: real, b: real)
    ensures Square(a * b) == Square(a) * Square(b)
  {
    calc {
      Square(a * b);
      == (a * b) * (a * b);
      == (a * a) * (b * b);
    }
  }

  /** Squaring is strictly increasing on the non-negative reals. */
  lemma SquareMono(r: real, s: real)
    requires 0.0 <= s < r
    ensures Square(s) < Square(r)
  {
    MulLess(s, r, r);
    MulLeq(s, r, s);
    calc {
      Square(s);
      == s * s;
      <= r * s;
      < r * r;
      == Square(r);
    }
  }

  /** Pow with base 1 is 1. */
  lemma {:induction false} PowOne(n: nat)
    ensures Pow(1.0, n) == 1.0
  {
    if n > 0 {
      PowOne(n - 1);
    }
  }

  /** A mean per-day return compounded over n days: `(1 + avg) ** n - 1`. */
  function Compound(avg: real, n: nat): real
  {
    Pow(1.0 + avg, n) - 1.0
  }

  /** Compounding is not scaling: a zero mean compounds to 0, and a mean of
      at least -100% compounds to at least n times itself. */
  lemma CompoundBounds(avg: real, n: nat)
    ensures avg == 0.0 ==> Compound(avg, n) == 0.0
    ensures avg >= -1.0 ==> Compound(avg, n) >= n as real * avg
  {
    PowOne(n);
    if avg >= -1.0 {
      Bernoulli(avg, n);
    }
  }

  /** Trading days in a year, the default annualization scale. */
  const TradingDays: nat := 252

  /** Annual yield of the 10-year treasury, the risk-free rate. */
  const TreasuryRate: real := 0.0426

  /** Risk-free return over `scale` trading days: `0.0426 / 252 * scale`. */
  function RiskFreeRate(scale: int): real
  {
    TreasuryRate / 252.0 * scale as real
  }

  /** What the model needs of `math.sqrt`: on non-negative arguments it
      returns the non-negative root. */
  ghost predicate IsSqrt(sqrt: real -> real)
  {
    forall x: real :: 0.0 <= x ==> 0.0 <= sqrt(x) && Square(sqrt(x)) == x
  }

  /** The root of a non-negative number is 0 exactly when the number is. */
  lemma SqrtZeroIff(sqrt: real -> real, x: real)
    requires IsSqrt(sqrt) && x >= 0.0
    ensures sqrt(x) == 0.0 <==> x == 0.0
  {
    SquareZero(sqrt(x));
  }

  /** The root of the square of a non-negative number is that number. */
  lemma SqrtOfSquare(sqrt: real -> real, s: real)
    requires IsSqrt(sqrt) && s >= 0.0
    ensures sqrt(Square(s)) == s
  {
    var r := sqrt(Square(s));
    assert r >= 0.0 && Square(r) == Square(s);
    if r < s {
      SquareMono(s, r);
    }
    if s < r {
      SquareMono(r, s);
    }
  }
}
