/** The strategy dashboard: three trading strategies, each with a simulated month of
    daily profits given by a closed formula, and a per-date statistics record looked
    up in a table that holds a single date. Choosing a strategy replaces the chart's
    series; choosing a date replaces the statistics. */
module StrategyDashboard {

  datatype Strategy = Comfortable | Modest | Aggressive

  datatype DayProfit = DayProfit(day: int, profit: int)

  const Days: nat := 31

  /** The profit of day `i + 1` (`i` counted from 0) under a strategy. Within the month,
      Comfortable and Aggressive win exactly on the odd-numbered days; Modest always
      makes 300 or loses 250. */
  function Profit(strategy: Strategy, i: nat): (p: int)
    ensures strategy != Modest && i < Days ==> (p > 0 <==> i % 2 == 0)
    ensures strategy == Modest ==> p == 300 || p == -250
  {
    match strategy
    case Comfortable => if i % 2 == 0 then 900 - i * 15 else -500 + i * 5
    case Modest => if i % 3 == 0 then 300 else -250
    case Aggressive => if i % 2 == 0 then 1200 - i * 20 else -900 + i * 10
  }

  /** `simulatedData[strategy]`: 31 days numbered from 1, each with its profit. */
  function Series(strategy: Strategy): (points: seq<DayProfit>)
    ensures |points| == Days
    ensures forall i :: 0 <= i < Days ==> points[i].day == i + 1
  {
    seq(Days, i requires 0 <= i < Days => DayProfit(i + 1, Profit(strategy, i)))
  }

  /** Comfortable: winning days (the odd-numbered ones) make at least 450, and losing
      days lose at least 355. */
  lemma ComfortableBounds()
    ensures forall i :: 0 <= i < Days && i % 2 == 0 ==> Series(Comfortable)[i].profit >= 450
    ensures forall i :: 0 <= i < Days && i % 2 == 1 ==> Series(Comfortable)[i].profit <= -355
  {
  }

  /** Modest: 300 on every third day starting with the first, -250 on every other day. */
  lemma ModestValues()
    ensures forall i :: 0 <= i < Days ==>
              (Series(Modest)[i].profit == 300 <==> i % 3 == 0)
              && (Series(Modest)[i].profit == -250 <==> i % 3 != 0)
  {
  }

  /** Aggressive: winning days make at least 600, losing days lose at least 610. */
  lemma AggressiveBounds()
    ensures forall i :: 0 <= i < Days && i % 2 == 0 ==> Series(Aggressive)[i].profit >= 600
    ensures forall i :: 0 <= i < Days && i % 2 == 1 ==> Series(Aggressive)[i].profit <= -610
  {
  }

  /** Comfortable and Aggressive alternate: a winning day is always followed by a losing
      day and the other way round. */
  lemma AlternatingStrategies(strategy: Strategy, i: nat)
    requires strategy != Modest && i + 1 < Days
    ensures Series(strategy)[i].profit > 0 <==> Series(strategy)[i + 1].profit < 0
  {
  }

  /** A value of the statistics record: a number or a display string. */
  datatype StatValue = Number(n: int) | Text(s: string)

  /** The statistics of the one date the table knows. */
  function MockRecord(): map<string, StatValue> {
    map[
      "totalTrades" := Number(13),
      "winPercentage" := Number(29),
      "lossPercentage" := Number(71),
      "totalPL" := Text("6,189"),
      "profit" := Text("13,354.75"),
      "loss" := Text("7,165.75"),
      "profitPoints" := Text("1,092.25"),
      "lossPoints" := Text("679.5"),
      "profitAvg" := Text("15.38"),
      "lossAvg" := Text("27.18"),
      "largestWin" := Text("895.5")]
  }

  const StatsDate: string := "2025-05-01"

  /** `mockData[selectedDate] || {}`: the record of the one known date, and an empty
      record for any other. */
  function StatsFor(date: string): (stats: map<string, StatValue>)
    ensures date != StatsDate ==> stats == map[]
    ensures date == StatsDate ==> "winPercentage" in stats && "lossPercentage" in stats
  {
    if date == StatsDate then MockRecord() else map[]
  }

  /** Only 2025-05-01 has statistics, and its win and loss percentages add up to 100. */
  lemma StatsForCorrect(date: string)
    ensures StatsFor(date) != map[] <==> date == StatsDate
    ensures date == StatsDate ==>
              StatsFor(date)["winPercentage"].n + StatsFor(date)["lossPercentage"].n == 100
  {
    if date == StatsDate {
      assert "totalTrades" in StatsFor(date);
    }
  }

  /** The dashboard's state: the chosen strategy and date, the series on the chart and
      the statistics on show, with the loading and error flags of the fetch. */
  class Dashboard {
    var strategy: Strategy
    var selectedDate: string
    var data: seq<DayProfit>
    var stats: map<string, StatValue>
    var loading: bool
    var failed: bool

    /** The series on the chart is the chosen strategy's and the statistics are those of
        the chosen date, once the fetch is over. */
    predicate Consistent()
      reads this
    {
      data == Series(strategy) && (!loading ==> stats == StatsFor(selectedDate))
    }

    /** The initial state, before the effects run. */
    constructor()
      ensures strategy == Comfortable && selectedDate == StatsDate
      ensures data == [] && stats == map[] && loading && !failed
    {
      strategy := Comfortable;
      selectedDate := StatsDate;
      data := [];
      stats := map[];
      loading := true;
      failed := false;
    }

    /** A strategy button: the strategy is chosen and its series replaces the chart's. */
    method SelectStrategy(s: Strategy)
      modifies this
      ensures strategy == s && data == Series(s)
      ensures selectedDate == old(selectedDate) && stats == old(stats)
      ensures loading == old(loading) && failed == old(failed)
    {
      strategy := s;
      data := Series(s);
    }

    /** The date input: the date is chosen and, once the fetch is over, its statistics
        replace the old ones. */
    method SelectDate(date: string)
      modifies this
      ensures selectedDate == date && stats == StatsFor(date) && !loading && !failed
      ensures strategy == old(strategy) && data == old(data)
    {
      selectedDate := date;
      loading := true;
      failed := false;
      stats := StatsFor(date);
      loading := false;
    }
  }

  /** Opening the dashboard: the initial state, then both effects. The Comfortable series
      is on the chart and the statistics of 2025-05-01 are on show. */
  method Open() returns (board: Dashboard)
    ensures fresh(board)
    ensures board.strategy == Comfortable && board.data == Series(Comfortable)
    ensures board.selectedDate == StatsDate && board.stats == MockRecord()
    ensures board.Consistent()
  {
    board := new Dashboard();
    board.SelectStrategy(board.strategy);
    board.SelectDate(board.selectedDate);
  }

  /** Choosing a strategy or a date keeps the chart and the statistics in step with the
      choices. */
  method SelectionsKeepConsistent(board: Dashboard, s: Strategy, date: string)
    requires board.Consistent()
    modifies board
    ensures board.Consistent()
    ensures board.strategy == s && board.selectedDate == date
  {
    board.SelectStrategy(s);
    board.SelectDate(date);
  }
}
