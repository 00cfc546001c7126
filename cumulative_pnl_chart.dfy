/** The cumulative-PnL chart with trailing drawdown. It sorts a copy of the trades by
    date, runs the cumulative PnL and its peak (both from zero) over them, and keeps,
    per calendar year, the cumulative value and drawdown after that year's last trade.
    Each row of the per-year PnL list is then joined with its year's drawdown. */
module CumulativePnLChart {
  import opened Trades
  import opened Series
  import opened Seqs
  import Decimal

  // ---------------------------------------------------------------------------
  // Sorting a copy of the trades by date (`[...trades].sort(...)`, a stable sort)
  // ---------------------------------------------------------------------------

  predicate SortedByDate(s: seq<Trade>) {
    forall i, j :: 0 <= i < j < |s| ==> DateLe(s[i].date, s[j].date)
  }

  /** Puts `x` after every trade on or before its date, so that a later trade of the
      input stays after an earlier one with the same date. */
  function Insert(x: Trade, s: seq<Trade>): (r: seq<Trade>)
    ensures |r| == |s| + 1
    ensures multiset(r) == multiset(s) + multiset{x}
  {
    if s == [] then [x]
    else if DateLe(s[0].date, x.date) then
      assert s == [s[0]] + s[1..];
      [s[0]] + Insert(x, s[1..])
    else [x] + s
  }

  /** The date-sorted copy of the trades. */
  function SortByDate(s: seq<Trade>): (r: seq<Trade>)
    ensures |r| == |s|
    ensures multiset(r) == multiset(s)
  {
    if s == [] then []
    else
      assert s == s[..|s| - 1] + [s[|s| - 1]];
      Insert(s[|s| - 1], SortByDate(s[..|s| - 1]))
  }

  function OnDate(d: Date): Trade -> bool {
    (t: Trade) => t.date == d
  }

  /** Every trade of `s` is dated on or after `d`. */
  predicate AllFrom(d: Date, s: seq<Trade>) {
    forall k :: 0 <= k < |s| ==> DateLe(d, s[k].date)
  }

  lemma {:induction false} InsertFrom(x: Trade, s: seq<Trade>, d: Date)
    requires AllFrom(d, s) && DateLe(d, x.date)
    ensures AllFrom(d, Insert(x, s))
  {
    if s != [] && DateLe(s[0].date, x.date) {
      InsertFrom(x, s[1..], d);
      assert Insert(x, s) == [s[0]] + Insert(x, s[1..]);
    }
  }

  lemma {:induction false} InsertSorted(x: Trade, s: seq<Trade>)
    requires SortedByDate(s)
    ensures SortedByDate(Insert(x, s))
  {
    if s != [] && DateLe(s[0].date, x.date) {
      InsertSorted(x, s[1..]);
      InsertFrom(x, s[1..], s[0].date);
      assert Insert(x, s) == [s[0]] + Insert(x, s[1..]);
    } else if s != [] {
      forall k | 1 <= k < |s| + 1 ensures DateLe(x.date, ([x] + s)[k].date) {
        DateLeTotal(x.date, s[0].date);
        DateLeTransitive(x.date, s[0].date, s[k - 1].date);
      }
    }
  }

  /** A trade dated before every trade of a sorted sequence shares its date with none
      of them. */
  lemma NoneOnEarlierDate(x: Trade, s: seq<Trade>, d: Date)
    requires SortedByDate(s) && s != [] && !DateLe(s[0].date, x.date) && x.date == d
    ensures Filter(s, OnDate(d)) == []
  {
    forall k | 0 <= k < |s| ensures !OnDate(d)(s[k]) {
      if s[k].date == d {
        DateLeTransitive(s[0].date, s[k].date, x.date);
      }
    }
    FilterKeepsNone(s, OnDate(d));
  }

  /** Inserting a trade into a date-sorted sequence keeps the order among the trades of
      each date, the new trade going last among those of its own date. */
  lemma {:induction false} InsertStable(x: Trade, s: seq<Trade>, d: Date)
    requires SortedByDate(s)
    ensures Filter(Insert(x, s), OnDate(d)) == Filter(s, OnDate(d)) + (if x.date == d then [x] else [])
  {
    if s == [] {
      assert Filter([x], OnDate(d)) == (if x.date == d then [x] else []) + Filter([x][1..], OnDate(d));
    } else if DateLe(s[0].date, x.date) {
      InsertStable(x, s[1..], d);
      assert Insert(x, s)[1..] == Insert(x, s[1..]);
    } else {
      assert Insert(x, s) == [x] + s;
      assert ([x] + s)[1..] == s;
      if x.date == d {
        NoneOnEarlierDate(x, s, d);
      }
    }
  }

  lemma {:induction false} SortByDateSorted(s: seq<Trade>)
    ensures SortedByDate(SortByDate(s))
  {
    if s != [] {
      var init := s[..|s| - 1];
      SortByDateSorted(init);
      InsertSorted(s[|s| - 1], SortByDate(init));
    }
  }

  lemma {:induction false} SortByDateStable(s: seq<Trade>, d: Date)
    ensures Filter(SortByDate(s), OnDate(d)) == Filter(s, OnDate(d))
  {
    if s != [] {
      var init, last := s[..|s| - 1], s[|s| - 1];
      var sorted := SortByDate(init);
      assert SortByDate(s) == Insert(last, sorted);
      SortByDateStable(init, d);
      SortByDateSorted(init);
      InsertStable(last, sorted, d);
      assert s == init + [last];
      FilterSnoc(init, last, OnDate(d));
    }
  }

  /** The sorted copy is in ascending date order, holds the same trades, and keeps the
      input order among trades of the same date. */
  lemma SortByDateCorrect(s: seq<Trade>)
    ensures SortedByDate(SortByDate(s))
    ensures multiset(SortByDate(s)) == multiset(s)
    ensures forall d :: Filter(SortByDate(s), OnDate(d)) == Filter(s, OnDate(d))
  {
    SortByDateSorted(s);
    forall d ensures Filter(SortByDate(s), OnDate(d)) == Filter(s, OnDate(d)) {
      SortByDateStable(s, d);
    }
  }

  // ---------------------------------------------------------------------------
  // drawdownByYear
  // ---------------------------------------------------------------------------

  /** The record stored for a year. */
  datatype YearPoint = YearPoint(cumulative: real, drawdown: real)

  /** `date.getFullYear().toString()`: a non-empty string, signed exactly for years
      before 0. */
  function YearKey(d: Date): (key: string)
    ensures key != [] && (key[0] == '-' <==> d.year < 0)
  {
    Decimal.IntToString(d.year)
  }

  /** Two dates share a key exactly when they fall in the same year. */
  lemma YearKeySameYear(a: Date, b: Date)
    ensures YearKey(a) == YearKey(b) <==> a.year == b.year
  {
    if YearKey(a) == YearKey(b) {
      Decimal.IntToStringInjective(a.year, b.year);
    }
  }

  /** The cumulative PnL and drawdown (both from a zero baseline) after the trades `s`:
      the drawdown is never negative, and before any trade both are zero. */
  function PointAfter(s: seq<Trade>): (point: YearPoint)
    ensures point.drawdown >= 0.0
    ensures s == [] ==> point == YearPoint(0.0, 0.0)
  {
    YearPoint(Sum(Pnls(s)), Drawdown(0.0, Pnls(s)))
  }

  /** The per-year record after processing the trades `s` in order: each trade writes
      the point after it under its year's key. */
  function YearlyTable(s: seq<Trade>): (table: map<string, YearPoint>)
    ensures forall k :: k in table ==> table[k].drawdown >= 0.0
  {
    if s == [] then map[]
    else YearlyTable(s[..|s| - 1])[YearKey(s[|s| - 1].date) := PointAfter(s)]
  }

  lemma YearlyTableStep(s: seq<Trade>, i: nat)
    requires i < |s|
    ensures YearlyTable(s[..i + 1]) == YearlyTable(s[..i])[YearKey(s[i].date) := PointAfter(s[..i + 1])]
  {
    assert s[..i + 1][..i] == s[..i];
  }

  /** What one more trade does to the running sum, the peak and the table. */
  lemma DrawdownByYearStep(s: seq<Trade>, i: nat)
    requires i < |s|
    ensures Sum(Pnls(s)[..i + 1]) == Sum(Pnls(s)[..i]) + s[i].pnl
    ensures RunningPeak(0.0, Pnls(s)[..i + 1]) == Max(RunningPeak(0.0, Pnls(s)[..i]), Sum(Pnls(s)[..i + 1]))
    ensures PointAfter(s[..i + 1])
            == YearPoint(Sum(Pnls(s)[..i + 1]), RunningPeak(0.0, Pnls(s)[..i + 1]) - Sum(Pnls(s)[..i + 1]))
  {
    var amounts := Pnls(s);
    SumStep(amounts, i);
    PeakStep(0.0, amounts, i);
    PnlsPrefix(s, i + 1);
  }

  /** `drawdownByYear`: sorts a copy of the trades, then runs the cumulative PnL and its
      peak over them, writing the year's record after every trade. */
  method DrawdownByYear(trades: seq<Trade>) returns (yearly: map<string, YearPoint>)
    ensures yearly == YearlyTable(SortByDate(trades))
  {
    var sorted := SortByDate(trades);
    var cumulative := 0.0;
    var peak := 0.0;
    yearly := map[];
    ghost var amounts := Pnls(sorted);
    for i := 0 to |sorted|
      invariant cumulative == Sum(amounts[..i])
      invariant peak == RunningPeak(0.0, amounts[..i])
      invariant yearly == YearlyTable(sorted[..i])
    {
      var trade := sorted[i];
      DrawdownByYearStep(sorted, i);
      YearlyTableStep(sorted, i);
      cumulative := cumulative + trade.pnl;
      peak := Max(peak, cumulative);
      var year := YearKey(trade.date);
      var drawdown := peak - cumulative;
      ghost var point := YearPoint(cumulative, drawdown);
      assert point == PointAfter(sorted[..i + 1]);
      if year !in yearly {
        yearly := yearly[year := YearPoint(cumulative, drawdown)];
      } else {
        yearly := yearly[year := yearly[year].(cumulative := cumulative, drawdown := drawdown)];
      }
      assert yearly == YearlyTable(sorted[..i])[year := point];
    }
    assert sorted[..|sorted|] == sorted;
  }

  /** A year has a record exactly when some trade falls in it. */
  lemma {:induction false} YearlyTableKeys(s: seq<Trade>, k: string)
    ensures k in YearlyTable(s) <==> exists i :: 0 <= i < |s| && YearKey(s[i].date) == k
  {
    if s != [] {
      var init := s[..|s| - 1];
      YearlyTableKeys(init, k);
      assert forall i :: 0 <= i < |init| ==> init[i] == s[i];
    }
  }

  /** The record of a year is the point after the last trade of that year; the
      earlier trades of the year are overwritten. */
  lemma {:induction false} YearlyTableLast(s: seq<Trade>, i: nat)
    requires i < |s|
    requires forall j :: i < j < |s| ==> YearKey(s[j].date) != YearKey(s[i].date)
    ensures YearKey(s[i].date) in YearlyTable(s)
    ensures YearlyTable(s)[YearKey(s[i].date)] == PointAfter(s[..i + 1])
  {
    var n := |s|;
    var k := YearKey(s[i].date);
    if i == n - 1 {
      assert s[..i + 1] == s;
    } else {
      var init := s[..n - 1];
      assert init[i] == s[i];
      assert init[..i + 1] == s[..i + 1];
      forall j | i < j < |init| ensures YearKey(init[j].date) != k {
        assert init[j] == s[j];
      }
      YearlyTableLast(init, i);
      assert YearKey(s[n - 1].date) != k;
    }
  }

  /** The same, stated on the trades as the chart receives them: a year has a record
      exactly when one of the trades falls in it, and every record's drawdown is
      non-negative. */
  lemma YearsWithTrades(trades: seq<Trade>, k: string)
    ensures k in YearlyTable(SortByDate(trades)) <==> exists t :: t in trades && YearKey(t.date) == k
    ensures k in YearlyTable(SortByDate(trades)) ==> YearlyTable(SortByDate(trades))[k].drawdown >= 0.0
  {
    var sorted := SortByDate(trades);
    YearlyTableKeys(sorted, k);
    if k in YearlyTable(sorted) {
      var i :| 0 <= i < |sorted| && YearKey(sorted[i].date) == k;
      assert sorted[i] in multiset(sorted);
    }
    if t :| t in trades && YearKey(t.date) == k {
      assert t in multiset(trades);
      assert t in sorted;
    }
  }

  // ---------------------------------------------------------------------------
  // combinedData
  // ---------------------------------------------------------------------------

  datatype PnLData = PnLData(year: string, pnl: real)

  datatype ChartRow = ChartRow(year: string, cumulative: real, drawdown: real)

  /** `combinedData`: one row per entry of the per-year PnL list, in the same order.
      The `cumulative` column is the entry's own PnL, not a running sum; the
      drawdown is the year's recorded drawdown, or 0 when the year has no record. */
  function CombinedData(pnlData: seq<PnLData>, drawdownByYear: map<string, YearPoint>): (rows: seq<ChartRow>)
    ensures |rows| == |pnlData|
    ensures forall i :: 0 <= i < |rows| ==> rows[i].year == pnlData[i].year && rows[i].cumulative == pnlData[i].pnl
    ensures forall i :: 0 <= i < |rows| && pnlData[i].year !in drawdownByYear ==> rows[i].drawdown == 0.0
    ensures forall i :: 0 <= i < |rows| && pnlData[i].year in drawdownByYear ==>
              rows[i].drawdown == drawdownByYear[pnlData[i].year].drawdown
  {
    seq(|pnlData|, i requires 0 <= i < |pnlData| =>
      var entry := pnlData[i];
      ChartRow(entry.year, entry.pnl,
               if entry.year in drawdownByYear then drawdownByYear[entry.year].drawdown else 0.0))
  }

  /** Joined with the trades' yearly records: every row's drawdown is non-negative; it is
      0 when no trade falls in the row's year; otherwise it is the drawdown after the
      last trade of that year in date order. */
  lemma CombinedRowDrawdown(pnlData: seq<PnLData>, trades: seq<Trade>, i: nat)
    requires i < |pnlData|
    ensures var rows := CombinedData(pnlData, YearlyTable(SortByDate(trades)));
            && rows[i].drawdown >= 0.0
            && ((forall t :: t in trades ==> YearKey(t.date) != pnlData[i].year) ==> rows[i].drawdown == 0.0)
    ensures var sorted := SortByDate(trades);
            forall j :: 0 <= j < |sorted| && YearKey(sorted[j].date) == pnlData[i].year
                        && (forall m :: j < m < |sorted| ==> YearKey(sorted[m].date) != pnlData[i].year) ==>
              CombinedData(pnlData, YearlyTable(sorted))[i].drawdown == PointAfter(sorted[..j + 1]).drawdown
  {
    var sorted := SortByDate(trades);
    YearsWithTrades(trades, pnlData[i].year);
    forall j | 0 <= j < |sorted| && YearKey(sorted[j].date) == pnlData[i].year
               && (forall m :: j < m < |sorted| ==> YearKey(sorted[m].date) != pnlData[i].year)
      ensures CombinedData(pnlData, YearlyTable(sorted))[i].drawdown == PointAfter(sorted[..j + 1]).drawdown
    {
      YearlyTableLast(sorted, j);
    }
  }
}
