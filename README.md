# printa-trading dashboard transforms, in Dafny

This project models the computing core of the printa-trading dashboard, a React front end
that draws charts and tables of profit-and-loss (PnL) data. The core is the code that turns
arrays of trades, yearly records, orders and positions into the series and tables on
screen:

- the running-peak drawdown of the drawdown-analysis chart, which starts from an initial
  capital;
- the cumulative-PnL chart. It sorts a copy of the trades by date itself, runs the
  cumulative PnL and its peak from zero, and keeps each calendar year's last record. It then
  joins that record onto a per-year PnL list; the joined rows' `cumulative` column is each
  entry's own PnL, not a running sum;
- the Monte Carlo chart's three randomly perturbed running-sum paths;
- the yearly overview screen's transforms:
  - the inclusive date-range filter over years;
  - the `{year, pnl}` projection;
  - the per-metric dictionaries, which normalise labels into keys and sum the parsed
    values;
  - the `stats` defaults;
- the active-positions table's progress-string parser, `^(.+?)\s*-\s*(\d+)%$` with a
  fallback, and the colour of its progress bar;
- the order history screen:
  - its Today / Yesterday / all selection;
  - its state after loading and after each click;
  - the colour of the PnL cell;
- the strategy dashboard:
  - its closed-form daily series per strategy;
  - the `mockData[date] || {}` statistics lookup;
  - its state after a strategy or date change.

Each screen or chart is one module. Shared modules hold the JavaScript semantics the code
relies on:

- `Text`: the `\s` class, `trim`, ASCII `toLowerCase`, `replace(/\s+/g, '')`;
- `JsNumber`: `parseFloat`, NaN, `x || 0`;
- `Decimal`: digit strings and `parseInt`;
- `Seqs`: `Array.prototype.filter`;
- `Series`: running sum, running peak and drawdown;
- `Trades`: dates compared as (year, month, day);
- `Overview`: the yearly record.

Amounts are exact reals. `Math.random()` becomes a sequence of draws in [0, 1). The chart
asks for them year by year and path by path, so the draw for year `idx` and path `p` is
`draws[3 * idx + p]`.

Where the code holds state, the model holds the same state:

- The order history and the strategy dashboard are classes. Their fields are the
  components' state variables, and their methods are the event handlers.
- The loops of the drawdown chart, the yearly-drawdown table, the Monte Carlo generator
  and the metric aggregation are methods. Each is proved equal to a specification
  function, and the properties are proved as lemmas about that function.

## Model

| member | source | states |
|---|---|---|
| Series.SumStep | src/components/Charts/DDAnalysisChart.tsx:47 | Taking one more amount adds it to the running sum (the equity above the baseline). |
| Series.PeakStep | src/components/Charts/DDAnalysisChart.tsx:48 | Taking one more amount makes the new peak the larger of the old peak and the new equity. |
| Series.RunningPeak | src/components/Charts/DDAnalysisChart.tsx:48 | The peak is at least the baseline and at least the current equity. |
| Series.Max | src/components/Charts/CumulativePnLChart.tsx:40 | `Math.max` is at least both arguments and equals one of them. |
| Series.Drawdown | src/components/Charts/DDAnalysisChart.tsx:50 | The drawdown `peak - equity` is never negative. |
| Series.DrawdownSeries | src/components/Charts/DDAnalysisChart.tsx:46-51 | One drawdown per amount, and every one is non-negative. |
| Series.PeakIsMaximum | src/components/Charts/DDAnalysisChart.tsx:41-48 | The peak is at least the baseline and every equity reached so far, and it equals the baseline or one of those equities. |
| Series.PeakMonotone | src/components/Charts/DDAnalysisChart.tsx:48 | The peak never decreases as more amounts are taken in. |
| Series.DrawdownZeroIff | src/components/Charts/DDAnalysisChart.tsx:48-50 | The drawdown is 0 exactly when the current equity is at or above the baseline and every earlier equity. |
| Series.DrawdownExample | src/components/Charts/DDAnalysisChart.tsx:40-51 | Amounts 100, -50, 80, -200, 30 from a zero baseline give drawdowns 0, 50, 0, 200, 170. |
| Trades.DateLeTransitive | src/components/Charts/CumulativePnLChart.tsx:33 | The date order the sort uses is transitive. |
| Trades.DateLeTotal | src/components/Charts/CumulativePnLChart.tsx:33 | Any two dates are comparable in the sort's date order. |
| DDAnalysisChart.StopLevel | src/components/Charts/DDAnalysisChart.tsx:53 | Both stop types give the stop amount: the two branches are identical. |
| DDAnalysisChart.Analyze | src/components/Charts/DDAnalysisChart.tsx:38-58 | The loop gives exactly the drawdown series of the amounts in input order, from the initial capital, and one stop level per trade, each equal to the stop amount. |
| DDAnalysisChart.TradeLabels | src/components/Charts/DDAnalysisChart.tsx:61 | One label per trade; label i is a digit string with no leading zero that reads as i + 1, which is `(i + 1).toString()`. |
| DDAnalysisChart.RecordedDrawdown | src/components/Charts/DDAnalysisChart.tsx:48-51 | Every recorded drawdown is non-negative, and it is 0 exactly when the trade brought the equity to a new peak, at or above the initial capital and every earlier equity. |
| DDAnalysisChart.PeakBehindDrawdowns | src/components/Charts/DDAnalysisChart.tsx:41-48 | The peak starts at the initial capital, never decreases, and is at least every equity so far. |
| Decimal.NatToString | src/components/Charts/DDAnalysisChart.tsx:61 | Writing a number gives a non-empty digit string that reads back as that number, with no leading zero. |
| Decimal.IntToString | src/components/Charts/CumulativePnLChart.tsx:41 | Writing an integer gives a string that starts with '-' exactly for negatives. The digits after the optional '-' have no superfluous leading zero and read back as the integer's absolute value. |
| Decimal.IntToStringInjective | src/components/Charts/CumulativePnLChart.tsx:41 | Different years give different string keys. |
| CumulativePnLChart.Insert | src/components/Charts/CumulativePnLChart.tsx:33 | One insertion step of the stable sort: one element longer, the same trades plus the new one. |
| CumulativePnLChart.SortByDate | src/components/Charts/CumulativePnLChart.tsx:33 | The sorted copy has the same length and the same trades. |
| CumulativePnLChart.InsertStable | src/components/Charts/CumulativePnLChart.tsx:33 | Inserting into a sorted sequence keeps the order among the trades of each date; the new trade goes last among those of its date. |
| CumulativePnLChart.SortByDateCorrect | src/components/Charts/CumulativePnLChart.tsx:33 | The copy is in ascending date order, is a permutation of the input, and keeps the input order among trades of the same date. |
| CumulativePnLChart.YearlyTable | src/components/Charts/CumulativePnLChart.tsx:36-49 | Every recorded drawdown in the per-year table is non-negative. |
| CumulativePnLChart.YearKey | src/components/Charts/CumulativePnLChart.tsx:41 | A year key is a non-empty string that starts with '-' exactly for years before 0. |
| CumulativePnLChart.YearKeySameYear | src/components/Charts/CumulativePnLChart.tsx:41 | Two dates share a key exactly when they fall in the same year. |
| CumulativePnLChart.PointAfter | src/components/Charts/CumulativePnLChart.tsx:38-42 | The drawdown after any trades is never negative, and before any trade the cumulative value and the drawdown are both 0. |
| CumulativePnLChart.DrawdownByYearStep | src/components/Charts/CumulativePnLChart.tsx:38-42 | One more trade adds its amount to the cumulative value and raises the peak to the maximum of the old peak and the new cumulative value. The record it writes is that cumulative value and the peak minus it. |
| CumulativePnLChart.DrawdownByYear | src/components/Charts/CumulativePnLChart.tsx:32-53 | The loop, including the first-write and overwrite branches, gives exactly the per-year table of the date-sorted trades. |
| CumulativePnLChart.YearlyTableKeys | src/components/Charts/CumulativePnLChart.tsx:36-45 | A year has a record exactly when some trade falls in it. |
| CumulativePnLChart.YearlyTableLast | src/components/Charts/CumulativePnLChart.tsx:44-49 | A year's record is the cumulative value and drawdown after the last trade of that year; earlier trades of the year are overwritten. |
| CumulativePnLChart.YearsWithTrades | src/components/Charts/CumulativePnLChart.tsx:33-49 | Stated on the unsorted input: a year has a record exactly when one of the trades falls in it, and its drawdown is non-negative. |
| CumulativePnLChart.CombinedData | src/components/Charts/CumulativePnLChart.tsx:56-62 | One row per PnL entry, in order. `cumulative` is the entry's own PnL, not a running sum. The drawdown is the year's recorded drawdown, or 0 when the year has no record. |
| CumulativePnLChart.CombinedRowDrawdown | src/components/Charts/CumulativePnLChart.tsx:60 | Joined with the trades' table, a row's drawdown is non-negative. It is 0 when no trade falls in its year, and otherwise the drawdown after the year's last trade in date order. |
| MonteCarloSimulationChart.VariationLevel | src/components/Charts/MonteCarloSimulationChart.tsx:18 | Each path's level is strictly between 0 and 1. |
| MonteCarloSimulationChart.DrawIndexInjective | src/components/Charts/MonteCarloSimulationChart.tsx:22-24 | Different (year, path) pairs use different draws, so no draw is shared. |
| MonteCarloSimulationChart.PathPoints | src/components/Charts/MonteCarloSimulationChart.tsx:25-29 | A path over n years has n points. |
| MonteCarloSimulationChart.PathPointsAt | src/components/Charts/MonteCarloSimulationChart.tsx:25-29 | Point i of a path carries year i and the path's accumulated value there. |
| MonteCarloSimulationChart.FlatYearsStayAtZero | src/components/Charts/MonteCarloSimulationChart.tsx:24-28 | Years without PnL move no path, whatever the draws: a path stays at 0 up to the first year with PnL. |
| MonteCarloSimulationChart.ExtendPath | src/components/Charts/MonteCarloSimulationChart.tsx:25-28 | Appending the point the loop computes from the previous point's value (0 for the first year) gives the path one year longer. |
| MonteCarloSimulationChart.GenerateSimulations | src/components/Charts/MonteCarloSimulationChart.tsx:17-34 | The nested loops give exactly 3 paths, each equal to its specification over all base years; empty input gives three empty paths. |
| MonteCarloSimulationChart.VariationBounded | src/components/Charts/MonteCarloSimulationChart.tsx:24 | A draw in [0, 1) moves a step by at most the level times the size of the PnL, either way. |
| MonteCarloSimulationChart.MidpointDrawsGiveRunningSum | src/components/Charts/MonteCarloSimulationChart.tsx:24-29 | With every draw at 0.5, every path is the plain running sum of the PnL. |
| MonteCarloSimulationChart.PathNearRunningSum | src/components/Charts/MonteCarloSimulationChart.tsx:24-29 | Each path stays within its level times the running sum of PnL sizes of the plain running sum, above or below. |
| YearlyOverviewScreen.YearStart | src/screens/YearlyOverviewScreen.tsx:125 | A year label gives a date only when it has four characters, and that date is January 1 of a year that is not negative. |
| YearlyOverviewScreen.InRange | src/screens/YearlyOverviewScreen.tsx:125-128 | A year can lie in the range only when the range's start is on or before its end. |
| YearlyOverviewScreen.Filtered | src/screens/YearlyOverviewScreen.tsx:124-129 | An entry is kept exactly when January 1 of its year lies in [start, end], both ends included; every copy of a kept entry is kept, none of a dropped one, and the kept entries keep their order. |
| YearlyOverviewScreen.InvertedRangeKeepsNothing | src/screens/YearlyOverviewScreen.tsx:124-129 | A start after the end keeps nothing. |
| YearlyOverviewScreen.FilteredIdempotent | src/screens/YearlyOverviewScreen.tsx:124-129 | Filtering the kept entries again with the same range changes nothing. |
| YearlyOverviewScreen.FourDigitYear | src/screens/YearlyOverviewScreen.tsx:125 | A four-digit year label gives January 1 of the year its digits spell. |
| YearlyOverviewScreen.YearlyData | src/screens/YearlyOverviewScreen.tsx:131-134 | The same length and order as the kept entries; only year and PnL are copied. |
| YearlyOverviewScreen.MetricKey | src/screens/YearlyOverviewScreen.tsx:141 | A key holds no white space and no upper-case letter. |
| YearlyOverviewScreen.MetricKeyIsFilter | src/screens/YearlyOverviewScreen.tsx:141 | A key is the lower-cased label with every white-space character deleted and every other character kept, each copy of it, in order. |
| YearlyOverviewScreen.MetricKeyIdempotent | src/screens/YearlyOverviewScreen.tsx:141 | Normalising a key again gives the same key. |
| YearlyOverviewScreen.KeyOfTwoWords | src/screens/YearlyOverviewScreen.tsx:141 | Two words separated by a space have their lower cases run together as key. |
| YearlyOverviewScreen.TotalPnlKey | src/screens/YearlyOverviewScreen.tsx:141 | 'Total PnL' has the key `totalpnl`. |
| YearlyOverviewScreen.WinKey | src/screens/YearlyOverviewScreen.tsx:141 | 'Win %' has the key `win%`. |
| YearlyOverviewScreen.RemoveSpacesAndCommas | src/screens/YearlyOverviewScreen.tsx:142 | The cleaned value holds no white space and no comma. |
| YearlyOverviewScreen.RemoveSpacesAndCommasIsFilter | src/screens/YearlyOverviewScreen.tsx:142 | The cleaning deletes every white-space character and comma and keeps every other character, each copy of it, in order. |
| YearlyOverviewScreen.ReplaceFirstAbsent | src/screens/YearlyOverviewScreen.tsx:142 | Replacing a character that does not occur changes nothing. |
| YearlyOverviewScreen.CleanValue | src/screens/YearlyOverviewScreen.tsx:142 | The trailing `.replace(',', '.')` is a no-op: the value is just stripped of white space and commas. |
| YearlyOverviewScreen.ContributionOf | src/screens/YearlyOverviewScreen.tsx:141-143 | A metric contributes under its normalised key, with its own change, and with the value `parseFloat` reads once white space and commas are removed from the value string. |
| YearlyOverviewScreen.ValueOfDigits | src/screens/YearlyOverviewScreen.tsx:142 | A value made only of digits contributes its decimal value. |
| YearlyOverviewScreen.AggregateStep | src/screens/YearlyOverviewScreen.tsx:141-143 | One metric adds its parsed value to `(statsMap[key] \|\| 0)` and overwrites `changeMap[key]`. |
| YearlyOverviewScreen.Aggregate | src/screens/YearlyOverviewScreen.tsx:136-145 | The nested loops give exactly the totals and last changes of all metrics of the kept years, in order. |
| YearlyOverviewScreen.Totals | src/screens/YearlyOverviewScreen.tsx:139-145 | `statsMap` ends with the same keys as `changeMap`. |
| YearlyOverviewScreen.Changes | src/screens/YearlyOverviewScreen.tsx:139-145 | Every change recorded under a key is the change of some metric with that key. |
| YearlyOverviewScreen.FoldKeys | src/screens/YearlyOverviewScreen.tsx:139-145 | A key has a total, and a change, exactly when some metric of the kept years has that key. |
| YearlyOverviewScreen.TotalIsSum | src/screens/YearlyOverviewScreen.tsx:142 | When every value parses, a key's total is the sum of its values across the kept years. |
| YearlyOverviewScreen.ChangeIsLast | src/screens/YearlyOverviewScreen.tsx:143 | A key's change is that of the last metric with that key. |
| YearlyOverviewScreen.Show | src/screens/YearlyOverviewScreen.tsx:148-152 | A field shows '0' exactly when its key never occurred, and otherwise the formatted total. |
| YearlyOverviewScreen.StatsOf | src/screens/YearlyOverviewScreen.tsx:147-153 | Each of the five fields shows '0' exactly when its key (`totalpnl`, `totaltrades`, `totalprofit`, `totalloss`, `win%`) never occurred. |
| YearlyOverviewScreen.NothingKeptShowsZeros | src/screens/YearlyOverviewScreen.tsx:147-153 | A range that keeps nothing shows '0' in every field. |
| YearlyOverviewScreen.WinPercentageIsSummed | src/screens/YearlyOverviewScreen.tsx:142-152 | Two years' 'Win %' values are summed, not averaged, so the shown percentage can exceed 100. |
| YearlyOverviewScreen.InDefaultRange | src/screens/YearlyOverviewScreen.tsx:27-33 | Every year from 2020 to 2025 lies in the default range. |
| YearlyOverviewScreen.DefaultRangeKeepsAll | src/screens/YearlyOverviewScreen.tsx:27-111 | The default range keeps all six mock years. |
| JsNumber.Add | src/screens/YearlyOverviewScreen.tsx:142 | A sum is a number exactly when both operands are, and NaN absorbs. |
| JsNumber.OrZero | src/screens/YearlyOverviewScreen.tsx:142 | `x \|\| 0` is always a number, and it is x itself when x is a number. |
| JsNumber.ScanIntegerOfDigits | src/screens/YearlyOverviewScreen.tsx:142 | Reading a digit string after a partial value shifts that value by the digits and adds their value. |
| JsNumber.ParseFloatOfDigits | src/screens/YearlyOverviewScreen.tsx:142 | `parseFloat` of a non-empty digit string is its decimal value. |
| JsNumber.ParseFloatSkipsWhiteSpace | src/screens/YearlyOverviewScreen.tsx:142 | `parseFloat` skips the leading white space and reads what follows as a signed number. |
| JsNumber.ParseFloatOfSpace | src/screens/YearlyOverviewScreen.tsx:142 | A string of white space only is NaN. |
| JsNumber.ParseFloatOfLeadingDigit | src/screens/YearlyOverviewScreen.tsx:142 | A string that starts with a digit always reads as a number, never negative, whatever follows. |
| JsNumber.ParseFloatRoundTrip | src/screens/YearlyOverviewScreen.tsx:142 | `parseFloat` reads back the string of a whole number as that number. |
| JsNumber.NegativeParseStartsWithMinus | src/screens/OrdersHistoryScreen.tsx:113 | A string without leading white space that reads as a negative number starts with '-'. |
| Text.ToLower | src/screens/YearlyOverviewScreen.tsx:141 | Lower-casing keeps the length and maps each character by itself. |
| Text.RemoveSpaces | src/screens/YearlyOverviewScreen.tsx:141 | The result is no longer than the input, has no white space, and holds exactly the input's non-space characters. |
| Text.RemoveSpacesIsFilter | src/screens/YearlyOverviewScreen.tsx:141 | Removing white space keeps every other character, each copy of it, in order: it is `filter` with the test "not white space". |
| Text.RemoveSpacesAppend | src/screens/YearlyOverviewScreen.tsx:141 | Removing white space from two joined strings is removing it from each. |
| Text.Trim | src/components/Cards/ActivePositionsTable.tsx:25 | `trim()` gives the inner part of the string: a contiguous piece with only white space before and after it in the input, itself neither starting nor ending with white space. |
| Text.TrimStart | src/components/Cards/ActivePositionsTable.tsx:25 | The result is a suffix that does not start with white space, and only white space was dropped. |
| Text.TrimEnd | src/components/Cards/ActivePositionsTable.tsx:25 | The result is a prefix that does not end with white space, and only white space was dropped. |
| Text.TrimStartOfSpacePrefix | src/components/Cards/ActivePositionsTable.tsx:25 | Leading white space before a non-space start is dropped, and nothing else. |
| Text.TrimIgnoresTrailingSpace | src/components/Cards/ActivePositionsTable.tsx:25 | White space appended to a string does not survive `trim()`. |
| Text.TrimOfSpace | src/components/Cards/ActivePositionsTable.tsx:25 | A string of white space only trims to the empty string. |
| Seqs.Filter | src/screens/OrdersHistoryScreen.tsx:54 | `filter` never makes a sequence longer. |
| Seqs.FilterSpec | src/screens/OrdersHistoryScreen.tsx:54 | `filter` keeps exactly the elements that pass, every copy of each, none of the others, in their original order. |
| Seqs.FilterCount | src/screens/OrdersHistoryScreen.tsx:54 | An element that passes occurs as often in the result as in the input; one that fails does not occur. |
| Seqs.FilterAppend | src/screens/YearlyOverviewScreen.tsx:124 | Filtering two joined sequences is joining their filtered parts. |
| Seqs.FilterSnoc | src/screens/YearlyOverviewScreen.tsx:124 | Filtering with one more element at the end adds that element exactly when it passes. |
| Seqs.FilterIdempotent | src/screens/YearlyOverviewScreen.tsx:124-129 | Filtering twice with the same test is filtering once. |
| Seqs.SubsequenceCount | src/screens/OrdersHistoryScreen.tsx:49-61 | A subsequence holds each element at most as often as the sequence it comes from, and is no longer. |
| ActivePositionsTable.TailDigitsCorrect | src/components/Cards/ActivePositionsTable.tsx:22 | The tail scanner succeeds with digits d exactly when the rest matches `\s*-\s*(\d+)%$` with d captured. |
| ActivePositionsTable.MatchProgress | src/components/Cards/ActivePositionsTable.tsx:22 | A match's group 1 is a non-empty prefix of the input. |
| ActivePositionsTable.MatchProgressCorrect | src/components/Cards/ActivePositionsTable.tsx:22 | No match exactly when the regular expression has no split. Otherwise the match is a split, and its group 1 is the shortest possible (the lazy `+?`). |
| ActivePositionsTable.ExtractProgressParts | src/components/Cards/ActivePositionsTable.tsx:21-30 | The label is never longer than the input, and it is the input itself exactly when there is no match; without a match the percent is 0. |
| ActivePositionsTable.ExtractProgressPartsCorrect | src/components/Cards/ActivePositionsTable.tsx:21-30 | Without a match: the input unchanged and 0. With one: the trimmed shortest group 1 and the value of the digits before `%`. |
| ActivePositionsTable.FirstSplitAt | src/components/Cards/ActivePositionsTable.tsx:21-27 | When the first place the tail matches is n, the result is the trimmed text before n and the value of the digits. |
| ActivePositionsTable.LabelBeforeLastDash | src/components/Cards/ActivePositionsTable.tsx:22-25 | On a match, the label is the trimmed text before the last '-' of the string. |
| ActivePositionsTable.NoLaterDashFallsBack | src/components/Cards/ActivePositionsTable.tsx:22-29 | A string with no '-' after its first character falls back. |
| ActivePositionsTable.LoneDashFallsBack | src/components/Cards/ActivePositionsTable.tsx:22-29 | '-5%' falls back, because at least one character must precede the dash. |
| ActivePositionsTable.ProgressRoundTrip | src/components/Cards/ActivePositionsTable.tsx:21-27 | For a name without '-' or surrounding white space, `name - digits%` parses back to the name and the digits' value. |
| ActivePositionsTable.TakeProfitProgress | src/components/Cards/ActivePositionsTable.tsx:40 | 'TP1 - 60%' gives 'TP1' and 60. |
| ActivePositionsTable.HalfTakeProfitProgress | src/components/Cards/ActivePositionsTable.tsx:51 | 'TP1 - 50%' gives 'TP1' and 50. |
| ActivePositionsTable.StopLossProgress | src/components/Cards/ActivePositionsTable.tsx:62 | 'SL Hit - 100%' gives 'SL Hit' and 100. |
| ActivePositionsTable.PercentNotClamped | src/components/Cards/ActivePositionsTable.tsx:26 | The percent is not clamped to 100: 'TP2 - 250%' gives 250. |
| ActivePositionsTable.ProgressBarColor | src/components/Cards/ActivePositionsTable.tsx:125 | The bar is green exactly at 100 percent and yellow otherwise. |
| ActivePositionsTable.GreenBarIffComplete | src/components/Cards/ActivePositionsTable.tsx:125 | The bar is green exactly when the string matches and its digits read 100; a fallback is always yellow. |
| ActivePositionsTable.MockBarColors | src/components/Cards/ActivePositionsTable.tsx:125 | Of the three mock positions, only the stop-loss hit shows a green bar. |
| OrdersHistoryScreen.SelectOrders | src/screens/OrdersHistoryScreen.tsx:52-60 | What a label shows is always a subsequence of the loaded orders; a label other than 'Today' and 'Yesterday' shows them all. |
| OrdersHistoryScreen.SelectOrdersCorrect | src/screens/OrdersHistoryScreen.tsx:52-60 | 'Today' shows exactly the orders dated 2025.05.21 and 'Yesterday' exactly those dated 2025.05.20, each as many times as it was loaded, in original order. Any other label shows every order. |
| OrdersHistoryScreen.SelectOrdersIdempotent | src/screens/OrdersHistoryScreen.tsx:49-61 | Selecting with a label from what that label shows changes nothing. |
| OrdersHistoryScreen.TodayAndYesterdayDisjoint | src/screens/OrdersHistoryScreen.tsx:52-57 | No order is shown both under 'Today' and under 'Yesterday'. |
| OrdersHistoryScreen.OrderHistory.constructor | src/screens/OrdersHistoryScreen.tsx:15-18 | Before loading: no orders, loading, 'Year' highlighted. |
| OrdersHistoryScreen.OrderHistory.Load | src/screens/OrdersHistoryScreen.tsx:37-39 | After the fetch, every order is loaded and shown and loading stops; the highlighted label stays. |
| OrdersHistoryScreen.OrderHistory.HandleFilterClick | src/screens/OrdersHistoryScreen.tsx:49-61 | The clicked label is highlighted whatever it is. The orders on show are selected afresh from all loaded orders, so they depend only on the label. Nothing else changes, and the shown orders stay a subsequence of the loaded ones. |
| OrdersHistoryScreen.OrderHistory.ShowsOnlyLoaded | src/screens/OrdersHistoryScreen.tsx:49-61 | In every state the screen reaches, it shows only loaded orders, each at most as often as it was loaded, and never more orders than it loaded. |
| OrdersHistoryScreen.Open | src/screens/OrdersHistoryScreen.tsx:20-47 | Once the screen has loaded, it shows all mock orders with 'Year' highlighted. |
| OrdersHistoryScreen.MockOrders | src/screens/OrdersHistoryScreen.tsx:23-33 | Nine orders are loaded. |
| OrdersHistoryScreen.MockDates | src/screens/OrdersHistoryScreen.tsx:24-32 | The first five mock orders are dated 2025.05.21 and the last four 2025.05.20. |
| OrdersHistoryScreen.MockToday | src/screens/OrdersHistoryScreen.tsx:52-54 | On the mock orders, 'Today' shows the first five. |
| OrdersHistoryScreen.MockYesterday | src/screens/OrdersHistoryScreen.tsx:55-57 | On the mock orders, 'Yesterday' shows the last four. |
| OrdersHistoryScreen.PnlColor | src/screens/OrdersHistoryScreen.tsx:113 | A PnL is shown red exactly when its string starts with '-'. |
| OrdersHistoryScreen.NegativePnlIsRed | src/screens/OrdersHistoryScreen.tsx:113 | A PnL string that reads as a negative number, with no leading white space, is shown red. |
| OrdersHistoryScreen.RedPnlIsNotPositive | src/screens/OrdersHistoryScreen.tsx:113 | A red PnL string never reads as a positive number. |
| StrategyDashboard.Profit | src/components/Cards/StrategyDashboard.tsx:28-39 | Within the month, Comfortable and Aggressive win exactly on the even indices (the odd-numbered days); Modest always makes 300 or loses 250. |
| StrategyDashboard.Series | src/components/Cards/StrategyDashboard.tsx:27-40 | Each strategy's series has 31 points, and point i is day i + 1. |
| StrategyDashboard.ComfortableBounds | src/components/Cards/StrategyDashboard.tsx:28-31 | Comfortable: even-indexed days make at least 450, odd-indexed days lose at least 355. |
| StrategyDashboard.ModestValues | src/components/Cards/StrategyDashboard.tsx:32-35 | Modest: 300 exactly on the indices divisible by 3, -250 exactly on the others. |
| StrategyDashboard.AggressiveBounds | src/components/Cards/StrategyDashboard.tsx:36-39 | Aggressive: even-indexed days make at least 600, odd-indexed days lose at least 610. |
| StrategyDashboard.AlternatingStrategies | src/components/Cards/StrategyDashboard.tsx:28-39 | Under Comfortable and Aggressive, a winning day is always followed by a losing day and the other way round. |
| StrategyDashboard.StatsFor | src/components/Cards/StrategyDashboard.tsx:52-69 | Any date other than 2025-05-01 gets the empty record; 2025-05-01 gets a record with both win and loss percentages. |
| StrategyDashboard.StatsForCorrect | src/components/Cards/StrategyDashboard.tsx:52-69 | Only 2025-05-01 has statistics; every other date gets the empty record. That record's win and loss percentages add up to 100. |
| StrategyDashboard.Dashboard.constructor | src/components/Cards/StrategyDashboard.tsx:18-23 | The initial state: Comfortable, 2025-05-01, no data, no stats, loading, no error. |
| StrategyDashboard.Dashboard.SelectStrategy | src/components/Cards/StrategyDashboard.tsx:26-43 | Choosing a strategy replaces the data with exactly that strategy's series, and nothing else changes. |
| StrategyDashboard.Dashboard.SelectDate | src/components/Cards/StrategyDashboard.tsx:46-78 | Choosing a date shows that date's statistics (or the empty record), and loading ends without error. The strategy and the data are unchanged. |
| StrategyDashboard.Open | src/components/Cards/StrategyDashboard.tsx:18-78 | After both effects have run: the Comfortable series and the statistics of 2025-05-01, consistent with the choices. |
| StrategyDashboard.SelectionsKeepConsistent | src/components/Cards/StrategyDashboard.tsx:26-78 | Choosing a strategy and a date keeps the chart and the statistics in step with the choices. |

## Left out

- Rendering is not modelled. This covers chart-library configuration, class names, legends, tooltips, the date picker, and the other screens and cards that only lay out data.
- Timers, promises and effect clean-up are not modelled. Every fetch is modelled as having finished. The `catch` branches cannot fire on constant data and are not modelled; the strategy dashboard's error flag is only ever cleared.
- `StatsSummary`'s `lossPct = 100 - winPct` is not part of this model.
- Floating point is not modelled: amounts are exact reals. This leaves out:
  - the `toFixed(2)` rounding of the yearly drawdown (`CumulativePnLChart.YearlyTable` stores the exact value);
  - `toFixed` in the stats (`YearlyOverviewScreen.Show` keeps the number and the digit count);
  - `formatTick`;
  - `toLocaleString`.
- `JsNumber.ParseFloat` does not read exponents or `Infinity`, and it does not tell -0 from 0. No value in the code has these forms.
- `ActivePositionsTable.ExtractProgressParts` reads the digits exactly. `parseInt` would lose precision past 2^53.
- `Text.ToLower` lower-cases ASCII letters only. The labels in the code are ASCII.
- Dates are (year, month, day), compared in that order. JavaScript `Date` construction, time zones and millisecond times are not modelled. A year label becomes January 1 of that year only when it is exactly four ASCII digits; any other label is treated as an invalid date and dropped. The sort compares at day precision.
- The sorted copy is a new value, so the model has nothing to say about the caller's array not being reordered.
- `Math.random()` is replaced by a sequence of draws in [0, 1) passed in.
- `YearlyOverviewScreen.Totals` reads only keys that an earlier metric wrote. In the code `statsMap` is a plain object, so a label whose key is `constructor` or `__proto__` reads an inherited property, and `+` then joins strings. None of the five keys the summary shows is such a name.
- `MonteCarloSimulationChart.GenerateSimulations`: in `simulations[p][idx - 1]?.value || 0`, a NaN previous value would read as 0. Reals have no NaN, and a previous value of 0 reads as 0 anyway.
- `YearlyOverviewScreen.tsx:240` passes `data` to the cumulative chart, whose declared props are `pnlData` and `trades`. The chart is modelled on its declared inputs.
