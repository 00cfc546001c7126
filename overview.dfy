/** The yearly overview record shared by the yearly screen and the Monte Carlo chart:
    a year label, that year's PnL and its labelled metrics (all strings, as shown). */
module Overview {

  /** `name` is the metric's `label` (a reserved word in Dafny). */
  datatype Metric = Metric(name: string, value: string, change: string)

  datatype YearOverview = YearOverview(year: string, pnl: real, metrics: seq<Metric>)

  /** The PnL of each entry, in order. */
  function PnlOf(entries: seq<YearOverview>): (p: seq<real>)
    ensures |p| == |entries|
    ensures forall i :: 0 <= i < |entries| ==> p[i] == entries[i].pnl
  {
    seq(|entries|, i requires 0 <= i < |entries| => entries[i].pnl)
  }
}
