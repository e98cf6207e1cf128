/**
 * The statistics cards above the editor: the number of queries run, the
 * total of returned rows, and the average execution time in milliseconds.
 */
module StatsCards {
  import opened Values
  import opened QueryHistory

  /** The sum of the execution times (the `reduce` fold). */
  function TotalTime(history: seq<HistoryItem>): nat {
    if history == [] then 0 else TotalTime(history[..|history| - 1]) + history[|history| - 1].executionTime
  }

  /** `Math.round(x / n)` for whole `x >= 0` and `n > 0`: the quotient rounded half up. */
  function RoundedQuotient(x: nat, n: nat): nat
    requires n > 0
  {
    (2 * x + n) / (2 * n)
  }

  /** The "Avg Speed" figure: 0 for an empty history, otherwise the rounded mean. */
  function AverageSpeed(history: seq<HistoryItem>): nat {
    if |history| > 0 then RoundedQuotient(TotalTime(history), |history|) else 0
  }

  /** The "Queries" figure. */
  function QueryCount(history: seq<HistoryItem>): nat {
    |history|
  }

  /** The "Total Records" figure: the supplied total, or 0 when none is supplied. */
  function TotalRecords(totalResultRows: Option<nat>): nat {
    if totalResultRows.Some? then totalResultRows.value else 0
  }

  /** The count is the history's length, an absent total shows 0, and an empty history averages 0. */
  lemma CardFigures(history: seq<HistoryItem>, n: nat)
    ensures QueryCount(history) == |history|
    ensures TotalRecords(None) == 0 && TotalRecords(Some(n)) == n
    ensures history == [] ==> AverageSpeed(history) == 0
  {
  }

  /** Bounds on every execution time bound the total. */
  lemma {:induction false} TotalTimeBounds(history: seq<HistoryItem>, lo: nat, hi: nat)
    requires forall i :: 0 <= i < |history| ==> lo <= history[i].executionTime <= hi
    ensures |history| * lo <= TotalTime(history) <= |history| * hi
  {
    if history != [] {
      var init := history[..|history| - 1];
      TotalTimeBounds(init, lo, hi);
      assert |history| * lo == |init| * lo + lo;
      assert |history| * hi == |init| * hi + hi;
    }
  }

  /** Rounding `x / n` half up stays within `[lo, hi]` when `x` does within `[n * lo, n * hi]`. */
  lemma RoundedQuotientBounds(x: nat, n: nat, lo: nat, hi: nat)
    requires n > 0 && n * lo <= x <= n * hi
    ensures lo <= RoundedQuotient(x, n) <= hi
  {
    var d := 2 * n;
    var q := RoundedQuotient(x, n);
    assert q * d <= 2 * x + n < q * d + d;
    assert lo * d < (q + 1) * d;
    assert q * d < (hi + 1) * d;
    MulCancel(lo, q + 1, d);
    MulCancel(q, hi + 1, d);
  }

  /** A positive factor can be cancelled from a strict inequality. */
  lemma MulCancel(a: nat, b: nat, c: nat)
    requires c > 0 && a * c < b * c
    ensures a < b
  {
    assert (b - a) * c == b * c - a * c;
  }

  /** The average lies between the fastest and the slowest run. */
  lemma AverageWithinRange(history: seq<HistoryItem>, lo: nat, hi: nat)
    requires |history| > 0
    requires forall i :: 0 <= i < |history| ==> lo <= history[i].executionTime <= hi
    ensures lo <= AverageSpeed(history) <= hi
  {
    TotalTimeBounds(history, lo, hi);
    RoundedQuotientBounds(TotalTime(history), |history|, lo, hi);
  }

  /** When every run took `v` milliseconds, the average is `v`. */
  lemma AverageOfEqualTimes(history: seq<HistoryItem>, v: nat)
    requires forall i :: 0 <= i < |history| ==> history[i].executionTime == v
    ensures AverageSpeed(history) == if |history| > 0 then v else 0
  {
    if |history| > 0 {
      AverageWithinRange(history, v, v);
    }
  }
}
