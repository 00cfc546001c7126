/** The drawdown-analysis chart: walks the trades in the order given, keeping the
    equity (initial capital plus the amounts so far) and its peak, and records one
    dollar drawdown `peak - equity` and one stop level per trade. */
module DDAnalysisChart {
  import opened Trades
  import opened Series
  import Decimal

  datatype StopType = Absolute | Relative

  /** The stop level drawn for one trade. Both kinds of stop give the stop amount:
      the relative kind has no formula of its own. */
  function StopLevel(stopType: StopType, stopAmount: real): (level: real)
    ensures level == stopAmount
  {
    match stopType
    case Absolute => stopAmount
    case Relative => stopAmount
  }

  /** The two series of the chart: the dollar drawdown after each trade, measured from
      the running peak that starts at the initial capital, and the constant stop line. */
  method Analyze(trades: seq<Trade>, initialCapital: real, stopAmount: real, stopType: StopType)
    returns (dollarDrawdown: seq<real>, stopLine: seq<real>)
    ensures dollarDrawdown == DrawdownSeries(initialCapital, Pnls(trades))
    ensures |stopLine| == |trades|
    ensures forall i :: 0 <= i < |stopLine| ==> stopLine[i] == stopAmount
  {
    var equity := initialCapital;
    var peak := initialCapital;
    var drawdowns: seq<real> := [];
    var stopCurve: seq<real> := [];
    ghost var amounts := Pnls(trades);
    for i := 0 to |trades|
      invariant equity == initialCapital + Sum(amounts[..i])
      invariant peak == RunningPeak(initialCapital, amounts[..i])
      invariant |drawdowns| == i && |stopCurve| == i
      invariant forall k :: 0 <= k < i ==> drawdowns[k] == Drawdown(initialCapital, amounts[..k + 1])
      invariant forall k :: 0 <= k < i ==> stopCurve[k] == stopAmount
    {
      var trade := trades[i];
      SumStep(amounts, i);
      assert amounts[..i + 1][..i] == amounts[..i];
      equity := equity + trade.pnl;
      if equity > peak {
        peak := equity;
      }
      var dd := peak - equity;
      drawdowns := drawdowns + [dd];
      var stopLevel := StopLevel(stopType, stopAmount);
      stopCurve := stopCurve + [stopLevel];
    }
    return drawdowns, stopCurve;
  }

  /** The x-axis labels: "1", "2", ... one per trade, the i-th reading back as i + 1
      with no leading zero. */
  function TradeLabels(trades: seq<Trade>): (labels: seq<string>)
    ensures |labels| == |trades|
    ensures forall i :: 0 <= i < |labels| ==>
              Decimal.AllDigits(labels[i]) && Decimal.DigitsValue(labels[i]) == i + 1 && labels[i][0] != '0'
  {
    seq(|trades|, i requires 0 <= i < |trades| => Decimal.NatToString(i + 1))
  }

  /** Every recorded drawdown is non-negative, and it is zero exactly when the trade
      brought the equity to a new peak (at or above the initial capital and every
      earlier equity). */
  lemma RecordedDrawdown(trades: seq<Trade>, initialCapital: real, i: nat)
    requires i < |trades|
    ensures DrawdownSeries(initialCapital, Pnls(trades))[i] >= 0.0
    ensures var amounts := Pnls(trades)[..i + 1];
            DrawdownSeries(initialCapital, Pnls(trades))[i] == 0.0
            <==> initialCapital + Sum(amounts) >= initialCapital
                 && forall j :: 0 <= j <= i ==> initialCapital + Sum(amounts) >= initialCapital + Sum(amounts[..j])
  {
    var amounts := Pnls(trades)[..i + 1];
    assert DrawdownSeries(initialCapital, Pnls(trades))[i] == Drawdown(initialCapital, amounts);
    DrawdownZeroIff(initialCapital, amounts);
    assert amounts[..i + 1] == amounts;
  }

  /** The peak behind the drawdowns starts at the initial capital, never decreases from
      one trade to the next, and is the largest of the initial capital and the equities. */
  lemma PeakBehindDrawdowns(trades: seq<Trade>, initialCapital: real, j: nat, k: nat)
    requires j <= k <= |trades|
    ensures RunningPeak(initialCapital, Pnls(trades)[..0]) == initialCapital
    ensures RunningPeak(initialCapital, Pnls(trades)[..j]) <= RunningPeak(initialCapital, Pnls(trades)[..k])
    ensures forall m :: 0 <= m <= k ==>
              RunningPeak(initialCapital, Pnls(trades)[..k]) >= initialCapital + Sum(Pnls(trades)[..m])
  {
    var amounts := Pnls(trades);
    PeakMonotone(initialCapital, amounts, j, k);
    PeakIsMaximum(initialCapital, amounts[..k]);
    assert forall m :: 0 <= m <= k ==> amounts[..k][..m] == amounts[..m];
  }
}
