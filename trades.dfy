/** The trade record both drawdown charts take: a calendar date and a signed
    profit or loss. Dates are (year, month, day) compared in that order, which
    is the order of their timestamps at day precision. */
module Trades {

  datatype Date = Date(year: int, month: int, day: int)

  /** `a` is on or before `b`. */
  predicate DateLe(a: Date, b: Date) {
    a.year < b.year
    || (a.year == b.year && (a.month < b.month || (a.month == b.month && a.day <= b.day)))
  }

  lemma DateLeTotal(a: Date, b: Date)
    ensures DateLe(a, b) || DateLe(b, a)
  {
  }

  lemma DateLeTransitive(a: Date, b: Date, c: Date)
    requires DateLe(a, b) && DateLe(b, c)
    ensures DateLe(a, c)
  {
  }

  datatype Trade = Trade(date: Date, pnl: real)

  /** The amounts of the trades, in the same order. */
  function Pnls(trades: seq<Trade>): (p: seq<real>)
    ensures |p| == |trades|
    ensures forall i :: 0 <= i < |trades| ==> p[i] == trades[i].pnl
  {
    seq(|trades|, i requires 0 <= i < |trades| => trades[i].pnl)
  }

  lemma PnlsPrefix(trades: seq<Trade>, k: nat)
    requires k <= |trades|
    ensures Pnls(trades[..k]) == Pnls(trades)[..k]
  {
  }
}
