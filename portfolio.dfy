/** The price table of the portfolio and the two series derived from it once
    per analysis: the equal-weighted daily return (a single forward pass that
    remembers the last observed price of every asset) and the daily value
    (the sum of each day's observed prices). */
module Portfolio {
  import opened Common

  /** One trading day: one cell per asset slot, None where the price is NaN. */
  type Row = seq<Option<real>>

  /** Trading days in chronological order. */
  type Table = seq<Row>

  function Last<T>(s: seq<T>): T
    requires |s| > 0
  {
    s[|s| - 1]
  }

  function DropLast<T>(s: seq<T>): seq<T>
    requires |s| > 0
  {
    s[..|s| - 1]
  }

  /** Every day has the same asset slots (a DataFrame is rectangular). */
  predicate Rectangular(t: Table)
  {
    forall i :: 0 <= i < |t| ==> |t[i]| == |t[0]|
  }

  /** Every observed price of the day is non-zero. */
  predicate NonzeroRow(row: Row)
  {
    forall j :: 0 <= j < |row| && row[j].Some? ==> row[j].value != 0.0
  }

  /** Every observed price is non-zero, so every percent change is defined. */
  predicate NonzeroPrices(t: Table)
  {
    forall i :: 0 <= i < |t| ==> NonzeroRow(t[i])
  }

  /** Asset slot j holds a price (not NaN) on this day. */
  predicate ObservedAt(row: Row, j: nat)
  {
    j < |row| && row[j].Some?
  }

  /** No cell of the day is NaN. */
  predicate Full(row: Row)
  {
    forall j :: 0 <= j < |row| ==> row[j].Some?
  }

  lemma NonzeroPrefix(t: Table, n: nat)
    requires NonzeroPrices(t) && n <= |t|
    ensures NonzeroPrices(t[..n])
  {
    assert forall i :: 0 <= i < n ==> t[..n][i] == t[i];
  }

  // ---------------------------------------------------------------------
  // The last observed price of every asset
  // ---------------------------------------------------------------------

  /** The `lastValues` entry of asset slot j after the given days: its most
      recent observed price, or None while it was never observed. */
  function LastSeen(rows: Table, j: nat): Option<real>
  {
    if rows == [] then None
    else if ObservedAt(Last(rows), j) then Last(rows)[j]
    else LastSeen(DropLast(rows), j)
  }

  /** LastSeen is None exactly for an asset never observed on any of the days. */
  lemma {:induction false} LastSeenNone(rows: Table, j: nat)
    ensures LastSeen(rows, j).None? <==> forall i :: 0 <= i < |rows| ==> !ObservedAt(rows[i], j)
  {
    if rows != [] {
      LastSeenNone(DropLast(rows), j);
      assert forall i :: 0 <= i < |rows| - 1 ==> DropLast(rows)[i] == rows[i];
    }
  }

  /** LastSeen is the price of the latest day on which the asset was observed. */
  lemma {:induction false} LastSeenMostRecent(rows: Table, j: nat, i: nat)
    requires i < |rows| && ObservedAt(rows[i], j)
    requires forall k :: i < k < |rows| ==> !ObservedAt(rows[k], j)
    ensures LastSeen(rows, j) == rows[i][j]
  {
    if i < |rows| - 1 {
      assert !ObservedAt(rows[|rows| - 1], j);
      assert forall k :: i < k < |rows| - 1 ==> DropLast(rows)[k] == rows[k];
      LastSeenMostRecent(DropLast(rows), j, i);
    }
  }

  /** LastSeen only ever holds observed, hence non-zero, prices. */
  lemma {:induction false} LastSeenNonzero(rows: Table, j: nat)
    requires NonzeroPrices(rows)
    ensures LastSeen(rows, j).Some? ==> LastSeen(rows, j).value != 0.0
  {
    if rows != [] && !ObservedAt(Last(rows), j) {
      NonzeroPrefix(rows, |rows| - 1);
      LastSeenNonzero(DropLast(rows), j);
    }
  }

  /** Appending a day updates LastSeen only for the slots observed on it. */
  lemma LastSeenStep(hist: Table, row: Row, j: nat)
    ensures LastSeen(hist + [row], j) == if ObservedAt(row, j) then row[j] else LastSeen(hist, j)
  {
    assert DropLast(hist + [row]) == hist;
  }

  // ---------------------------------------------------------------------
  // Daily returns
  // ---------------------------------------------------------------------

  /** Number of observed cells of a day: the `numCounted` of that day. */
  function Count(row: Row): nat
  {
    if row == [] then 0 else Count(DropLast(row)) + (if Last(row).Some? then 1 else 0)
  }

  /** Count has exactly the range of the number of observed cells: 0 for a
      day with every cell missing, the width for a fully observed day. */
  lemma {:induction false} CountBounds(row: Row)
    ensures Count(row) <= |row|
    ensures Count(row) == 0 <==> forall j :: 0 <= j < |row| ==> row[j].None?
    ensures Count(row) == |row| <==> Full(row)
  {
    if row != [] {
      CountBounds(DropLast(row));
      assert forall j :: 0 <= j < |row| - 1 ==> DropLast(row)[j] == row[j];
    }
  }

  /** What one cell adds to the day's `totalROC`: nothing when it is missing
      or is the asset's first observation, else the percent change from the
      asset's last observed price. */
  function CellChange(cur: Option<real>, prev: Option<real>): real
    requires prev.Some? ==> prev.value != 0.0
  {
    if cur.Some? && prev.Some? then (cur.value - prev.value) / prev.value else 0.0
  }

  /** The day's `totalROC` over its cells (a prefix of the day while the
      inner loop runs), against the last prices `hist` left behind. */
  function RowChange(hist: Table, row: Row): real
    requires NonzeroPrices(hist)
  {
    if row == [] then 0.0
    else
      LastSeenNonzero(hist, |row| - 1);
      RowChange(hist, DropLast(row)) + CellChange(Last(row), LastSeen(hist, |row| - 1))
  }

  /** A missing cell changes nothing: the day's total rate of change, its
      count and the last observed prices stay as they were. */
  lemma MissingCellNeutral(hist: Table, row: Row, k: nat)
    requires NonzeroPrices(hist) && k < |row| && row[k].None?
    ensures RowChange(hist, row[..k + 1]) == RowChange(hist, row[..k])
    ensures Count(row[..k + 1]) == Count(row[..k])
    ensures forall j: nat :: LastSeen(hist + [row[..k + 1]], j) == LastSeen(hist + [row[..k]], j)
  {
    assert DropLast(row[..k + 1]) == row[..k];
    forall j: nat ensures LastSeen(hist + [row[..k + 1]], j) == LastSeen(hist + [row[..k]], j) {
      LastSeenStep(hist, row[..k + 1], j);
      LastSeenStep(hist, row[..k], j);
    }
  }

  /** Daily return of `row`, the day after the days `hist`: the total rate of
      change divided by the number of observed cells; undefined when every
      cell is missing. */
  function DailyReturnAt(hist: Table, row: Row): Result<real>
    requires NonzeroPrices(hist)
  {
    if Count(row) == 0 then Err(NoCountedAsset(|hist|))
    else Ok(RowChange(hist, row) / Count(row) as real)
  }

  /** The daily-return list of a table, or the failure of its first day whose
      every cell is missing. */
  function DailyReturns(t: Table): (r: Result<seq<real>>)
    requires NonzeroPrices(t)
    ensures r.Ok? ==> |r.value| == |t|
  {
    if t == [] then Ok([])
    else
      NonzeroPrefix(t, |t| - 1);
      var earlier :- DailyReturns(DropLast(t));
      var today :- DailyReturnAt(DropLast(t), Last(t));
      Ok(earlier + [today])
  }

  /** Once a prefix of the days fails, the whole table fails the same way. */
  lemma {:induction false} DailyReturnsErrPrefix(t: Table, n: nat)
    requires NonzeroPrices(t) && n <= |t|
    requires DailyReturns(t[..n]).Err?
    ensures DailyReturns(t) == DailyReturns(t[..n])
    decreases |t| - n
  {
    NonzeroPrefix(t, n);
    if n < |t| {
      NonzeroPrefix(t, n + 1);
      assert DropLast(t[..n + 1]) == t[..n];
      DailyReturnsErrPrefix(t, n + 1);
    } else {
      assert t[..n] == t;
    }
  }

  /** The dictionary `last` holds exactly the LastSeen price of every slot
      after the days `rows`. */
  ghost predicate Tracks(last: map<nat, real>, rows: Table)
  {
    forall j: nat :: LastSeen(rows, j) == (if j in last then Some(last[j]) else None)
  }

  /** Before any cell of a day is read, the dictionary still tracks the
      earlier days. */
  lemma TracksDayStart(last: map<nat, real>, hist: Table, row: Row)
    requires Tracks(last, hist)
    ensures Tracks(last, hist + [row[..0]])
  {
    forall j: nat ensures LastSeen(hist + [row[..0]], j) == LastSeen(hist, j) {
      LastSeenStep(hist, row[..0], j);
    }
  }

  /** Reading cell k of a day: the dictionary lookup yields the price left by
      the earlier days, and storing an observed price (and nothing for a NaN)
      keeps the dictionary tracking the days read so far. */
  lemma TracksCell(last: map<nat, real>, hist: Table, row: Row, k: nat)
    requires k < |row| && Tracks(last, hist + [row[..k]])
    ensures LastSeen(hist, k) == (if k in last then Some(last[k]) else None)
    ensures Tracks(if row[k].Some? then last[k := row[k].value] else last, hist + [row[..k + 1]])
  {
    var done, next := row[..k], row[..k + 1];
    var last' := if row[k].Some? then last[k := row[k].value] else last;
    LastSeenStep(hist, done, k);
    forall j: nat ensures LastSeen(hist + [next], j) == (if j in last' then Some(last'[j]) else None) {
      LastSeenStep(hist, next, j);
      LastSeenStep(hist, done, j);
      assert ObservedAt(next, j) <==> ObservedAt(done, j) || (j == k && row[k].Some?);
    }
  }

  /** `__calc_daily_returns`: one pass over the days that threads the last
      observed price of every asset slot through a dictionary. */
  method CalcDailyReturns(t: Table) returns (r: Result<seq<real>>)
    requires NonzeroPrices(t)
    ensures r == DailyReturns(t)
  {
    var dailyReturns: seq<real> := [];
    var lastValues: map<nat, real> := map[];
    var idx := 0;
    while idx < |t|
      invariant 0 <= idx <= |t|
      invariant NonzeroPrices(t[..idx])
      invariant DailyReturns(t[..idx]) == Ok(dailyReturns)
      invariant Tracks(lastValues, t[..idx])
    {
      ghost var hist := t[..idx];
      var row := t[idx];
      var totalROC := 0.0;
      var numCounted := 0;
      var seriesIdx := 0;
      TracksDayStart(lastValues, hist, row);
      while seriesIdx < |row|
        invariant 0 <= seriesIdx <= |row|
        invariant numCounted == Count(row[..seriesIdx])
        invariant totalROC == RowChange(hist, row[..seriesIdx])
        invariant Tracks(lastValues, hist + [row[..seriesIdx]])
      {
        assert DropLast(row[..seriesIdx + 1]) == row[..seriesIdx];
        TracksCell(lastValues, hist, row, seriesIdx);
        LastSeenNonzero(hist, seriesIdx);
        var prevValue := if seriesIdx in lastValues then Some(lastValues[seriesIdx]) else None;
        if prevValue.None? {
          // the asset's first observation: remembered and counted, no change
          if row[seriesIdx].Some? {
            lastValues := lastValues[seriesIdx := row[seriesIdx].value];
            numCounted := numCounted + 1;
          }
        } else {
          if row[seriesIdx].Some? {
            lastValues := lastValues[seriesIdx := row[seriesIdx].value];
            totalROC := totalROC + (row[seriesIdx].value - prevValue.value) / prevValue.value;
            numCounted := numCounted + 1;
          }
        }
        seriesIdx := seriesIdx + 1;
      }
      assert row[..|row|] == row;
      assert t[..idx + 1] == hist + [row];
      assert DropLast(t[..idx + 1]) == hist && Last(t[..idx + 1]) == row;
      NonzeroPrefix(t, idx + 1);
      if numCounted == 0 {
        DailyReturnsErrPrefix(t, idx + 1);
        return Err(NoCountedAsset(idx));
      }
      dailyReturns := dailyReturns + [totalROC / numCounted as real];
      idx := idx + 1;
    }
    assert t[..idx] == t;
    r := Ok(dailyReturns);
  }

  // ---------------------------------------------------------------------
  // What the daily returns are
  // ---------------------------------------------------------------------

  /** Entry i of the daily-return list is the return of day i after days 0..i-1. */
  lemma {:induction false} DailyReturnsAt(t: Table, i: nat)
    requires NonzeroPrices(t) && i < |t| && DailyReturns(t).Ok?
    ensures NonzeroPrices(t[..i]) && DailyReturnAt(t[..i], t[i]) == Ok(DailyReturns(t).value[i])
  {
    NonzeroPrefix(t, |t| - 1);
    NonzeroPrefix(t, i);
    if i < |t| - 1 {
      DailyReturnsAt(DropLast(t), i);
      assert DropLast(t)[..i] == t[..i];
    } else {
      assert DropLast(t) == t[..i];
    }
  }

  /** The daily returns are defined exactly when every day has an observed cell. */
  lemma {:induction false} DailyReturnsOkIff(t: Table)
    requires NonzeroPrices(t)
    ensures DailyReturns(t).Ok? <==> forall i :: 0 <= i < |t| ==> Count(t[i]) > 0
  {
    if t != [] {
      NonzeroPrefix(t, |t| - 1);
      DailyReturnsOkIff(DropLast(t));
      assert forall i :: 0 <= i < |t| - 1 ==> DropLast(t)[i] == t[i];
    }
  }

  /** The failure names the first day on which every cell is missing. */
  lemma DailyReturnsFirstFailure(t: Table, i: nat)
    requires NonzeroPrices(t) && i < |t| && Count(t[i]) == 0
    requires forall k :: 0 <= k < i ==> Count(t[k]) > 0
    ensures DailyReturns(t) == Err(NoCountedAsset(i))
  {
    NonzeroPrefix(t, i);
    NonzeroPrefix(t, i + 1);
    assert forall k :: 0 <= k < i ==> t[..i][k] == t[k];
    DailyReturnsOkIff(t[..i]);
    assert DropLast(t[..i + 1]) == t[..i] && Last(t[..i + 1]) == t[i];
    DailyReturnsErrPrefix(t, i + 1);
  }

  /** A cell that is the asset's first observation adds nothing to the total. */
  lemma {:induction false} RowChangeFirstObservations(hist: Table, row: Row)
    requires NonzeroPrices(hist)
    requires forall j :: 0 <= j < |row| && row[j].Some? ==> LastSeen(hist, j).None?
    ensures RowChange(hist, row) == 0.0
  {
    if row != [] {
      assert forall j :: 0 <= j < |row| - 1 ==> DropLast(row)[j] == row[j];
      RowChangeFirstObservations(hist, DropLast(row));
    }
  }

  /** A day whose observed assets are all observed for the first time has
      return 0, not an undefined one: those cells count in the denominator. */
  lemma FirstObservationsReturnZero(hist: Table, row: Row)
    requires NonzeroPrices(hist) && Count(row) > 0
    requires forall j :: 0 <= j < |row| && row[j].Some? ==> LastSeen(hist, j).None?
    ensures DailyReturnAt(hist, row) == Ok(0.0)
  {
    RowChangeFirstObservations(hist, row);
  }

  /** Whenever the daily returns are defined, the first day's return is 0. */
  lemma FirstDayReturnIsZero(t: Table)
    requires NonzeroPrices(t) && |t| > 0
    ensures DailyReturns(t).Ok? ==> DailyReturns(t).value[0] == 0.0
  {
    if DailyReturns(t).Ok? {
      DailyReturnsOkIff(t);
      DailyReturnsAt(t, 0);
      assert t[..0] == [];
      FirstObservationsReturnZero([], t[0]);
    }
  }

  /** Simple percent change of every asset between two fully observed days. */
  function PercentChanges(prev: Row, row: Row): (r: seq<real>)
    requires Full(prev) && Full(row) && NonzeroRow(prev) && |prev| == |row|
    ensures |r| == |row|
  {
    seq(|row|, j requires 0 <= j < |row| => (row[j].value - prev[j].value) / prev[j].value)
  }

  lemma {:induction false} RowChangeFullyObserved(hist: Table, row: Row, k: nat)
    requires NonzeroPrices(hist) && |hist| > 0
    requires Full(Last(hist)) && Full(row) && |Last(hist)| == |row| && k <= |row|
    ensures RowChange(hist, row[..k]) == Sum(PercentChanges(Last(hist), row)[..k])
  {
    if k > 0 {
      var prev := Last(hist);
      assert NonzeroRow(prev);
      assert DropLast(row[..k]) == row[..k - 1];
      assert DropLast(PercentChanges(prev, row)[..k]) == PercentChanges(prev, row)[..k - 1];
      RowChangeFullyObserved(hist, row, k - 1);
      assert LastSeen(hist, k - 1) == prev[k - 1];
    }
  }

  /** On two consecutive fully observed days the daily return is the mean of
      the assets' simple percent changes. */
  lemma FullyObservedReturn(hist: Table, row: Row)
    requires NonzeroPrices(hist) && |hist| > 0 && |row| > 0
    requires Full(Last(hist)) && Full(row) && |Last(hist)| == |row|
    ensures NonzeroRow(Last(hist))
    ensures DailyReturnAt(hist, row) == Ok(Mean(PercentChanges(Last(hist), row)))
  {
    assert NonzeroRow(Last(hist));
    CountBounds(row);
    RowChangeFullyObserved(hist, row, |row|);
    assert row[..|row|] == row;
    assert PercentChanges(Last(hist), row)[..|row|] == PercentChanges(Last(hist), row);
  }

  /** Two assets over three days, no missing price. */
  lemma ThreeDayExample()
    ensures DailyReturns([[Some(100.0), Some(200.0)], [Some(110.0), Some(190.0)], [Some(121.0), Some(200.9)]])
         == Ok([0.0, 0.025, 29.9 / 380.0])
  {
    var d0: Row := [Some(100.0), Some(200.0)];
    var d1: Row := [Some(110.0), Some(190.0)];
    var d2: Row := [Some(121.0), Some(200.9)];
    var t := [d0, d1, d2];
    assert NonzeroPrices(t);
    FirstObservationsReturnZero([], d0);
    FullyObservedReturn([d0], d1);
    FullyObservedReturn([d0, d1], d2);
    assert PercentChanges(d0, d1) == [0.1, -0.05];
    assert PercentChanges(d1, d2) == [0.1, 10.9 / 190.0];
    assert Sum(PercentChanges(d0, d1)) == 0.05 by {
      assert DropLast([0.1, -0.05]) == [0.1] && DropLast([0.1]) == [];
    }
    assert Sum(PercentChanges(d1, d2)) == 29.9 / 190.0 by {
      assert DropLast([0.1, 10.9 / 190.0]) == [0.1] && DropLast([0.1]) == [];
    }
    assert DropLast([d0]) == [] && DropLast([d0, d1]) == [d0] && DropLast(t) == [d0, d1];
    assert DailyReturns([]) == Ok([]);
    assert Last([d0]) == d0;
    assert DailyReturnAt(DropLast([d0]), Last([d0])) == Ok(0.0);
    assert [] + [0.0] == [0.0];
    assert DailyReturns([d0]) == Ok([0.0]);
    assert Last([d0, d1]) == d1 && Last(t) == d2;
    assert DailyReturnAt(DropLast([d0, d1]), Last([d0, d1])) == Ok(0.025);
    assert [0.0] + [0.025] == [0.0, 0.025];
    assert DailyReturns([d0, d1]) == Ok([0.0, 0.025]);
    assert DailyReturnAt(DropLast(t), Last(t)) == Ok(29.9 / 380.0);
    assert [0.0, 0.025] + [29.9 / 380.0] == [0.0, 0.025, 29.9 / 380.0];
  }

  // ---------------------------------------------------------------------
  // Daily values
  // ---------------------------------------------------------------------

  /** The observed prices of a day, in slot order. */
  function Observed(row: Row): (r: seq<real>)
    ensures |r| == Count(row)
  {
    if row == [] then [] else Observed(DropLast(row)) + (if Last(row).Some? then [Last(row).value] else [])
  }

  /** The day's cells with a missing price read as 0. */
  function ZeroFilled(row: Row): (r: seq<real>)
    ensures |r| == |row|
  {
    seq(|row|, j requires 0 <= j < |row| => if row[j].Some? then row[j].value else 0.0)
  }

  /** `__calc_daily_values`: the portfolio's value on every day, the sum of
      that day's observed prices (`DataFrame.sum(axis=1)` skips NaN). */
  function DailyValues(t: Table): (r: seq<real>)
    ensures |r| == |t|
    ensures forall i :: 0 <= i < |t| ==> r[i] == Sum(ZeroFilled(t[i]))
  {
    var r := seq(|t|, i requires 0 <= i < |t| => Sum(Observed(t[i])));
    forall i | 0 <= i < |t| ensures r[i] == Sum(ZeroFilled(t[i])) {
      ObservedSumIsZeroFilledSum(t[i]);
    }
    r
  }

  /** The sum of a day's observed prices grows by the last cell's price,
      if that cell is observed. */
  lemma ObservedSumStep(row: Row)
    requires row != []
    ensures Sum(Observed(row)) == Sum(Observed(DropLast(row))) + ZeroFilled(row)[|row| - 1]
  {
    var tail := if Last(row).Some? then [Last(row).value] else [];
    SumAppend(Observed(DropLast(row)), tail);
    assert Sum([]) == 0.0;
    assert DropLast([0.0]) == [];
  }

  /** Skipping the missing cells and reading them as 0 give the same sum. */
  lemma {:induction false} ObservedSumIsZeroFilledSum(row: Row)
    ensures Sum(Observed(row)) == Sum(ZeroFilled(row))
  {
    if row != [] {
      ObservedSumIsZeroFilledSum(DropLast(row));
      assert DropLast(ZeroFilled(row)) == ZeroFilled(DropLast(row));
      ObservedSumStep(row);
    }
  }

  /** With positive prices, a day is worth more than 0 exactly when some
      cell of it is observed. */
  lemma {:induction false} DailyValuePositive(row: Row)
    requires forall j :: 0 <= j < |row| && row[j].Some? ==> row[j].value > 0.0
    ensures Sum(Observed(row)) >= 0.0
    ensures Sum(Observed(row)) > 0.0 <==> Count(row) > 0
  {
    if row != [] {
      assert forall j :: 0 <= j < |row| - 1 ==> DropLast(row)[j] == row[j];
      DailyValuePositive(DropLast(row));
      ObservedSumStep(row);
    }
  }
}
