/** The yearly overview screen's transforms: the date-range filter over the yearly
    records, the projection to (year, pnl) for the bar chart, the per-metric totals
    and last changes summed over the kept years, and the stats shown from them. */
module YearlyOverviewScreen {
  import opened Wrappers
  import opened Decimal
  import opened Text
  import opened JsNumber
  import opened Seqs
  import opened Overview
  import Trades

  type Date = Trades.Date

  // ---------------------------------------------------------------------------
  // `filtered`: the inclusive date-range filter
  // ---------------------------------------------------------------------------

  /** `new Date(`${year}-01-01`)`: January 1 of a four-digit year; any other label
      gives an invalid date. */
  function YearStart(year: string): (start: Option<Date>)
    ensures start.Some? ==> start.value.month == 1 && start.value.day == 1 && start.value.year >= 0
    ensures |year| != 4 ==> start.None?
  {
    if |year| == 4 && AllDigits(year) then Some(Trades.Date(DigitsValue(year), 1, 1)) else None
  }

  /** `yearDate >= start && yearDate <= end`; comparisons with an invalid date are false.
      Only a range whose start is on or before its end can hold a year. */
  predicate InRange(start: Date, end: Date, item: YearOverview)
    ensures InRange(start, end, item) ==> Trades.DateLe(start, end)
  {
    match YearStart(item.year)
    case Some(d) =>
      if Trades.DateLe(start, d) && Trades.DateLe(d, end) then
        Trades.DateLeTransitive(start, d, end);
        true
      else false
    case None => false
  }

  function InRangeTest(start: Date, end: Date): YearOverview -> bool {
    item => InRange(start, end, item)
  }

  /** `filtered`: an entry is kept exactly when January 1 of its year lies in
      [start, end], both ends included, every copy of it; the kept entries keep their
      order. */
  function Filtered(items: seq<YearOverview>, start: Date, end: Date): (kept: seq<YearOverview>)
    ensures forall x :: x in kept <==> x in items && InRange(start, end, x)
    ensures forall x :: multiset(kept)[x] == if InRange(start, end, x) then multiset(items)[x] else 0
    ensures SubsequenceOf(kept, items)
  {
    FilterSpec(items, InRangeTest(start, end));
    Filter(items, InRangeTest(start, end))
  }

  /** A range whose start is after its end keeps nothing. */
  lemma InvertedRangeKeepsNothing(items: seq<YearOverview>, start: Date, end: Date)
    requires !Trades.DateLe(start, end)
    ensures Filtered(items, start, end) == []
  {
    forall i | 0 <= i < |items| ensures !InRangeTest(start, end)(items[i]) {
      if YearStart(items[i].year).Some? {
        var d := YearStart(items[i].year).value;
        if Trades.DateLe(start, d) && Trades.DateLe(d, end) {
          Trades.DateLeTransitive(start, d, end);
        }
      }
    }
    FilterKeepsNone(items, InRangeTest(start, end));
  }

  /** Filtering the kept entries again with the same range changes nothing. */
  lemma FilteredIdempotent(items: seq<YearOverview>, start: Date, end: Date)
    ensures Filtered(Filtered(items, start, end), start, end) == Filtered(items, start, end)
  {
    FilterIdempotent(items, InRangeTest(start, end));
  }

  // ---------------------------------------------------------------------------
  // `yearlyData`: the projection for the bar chart
  // ---------------------------------------------------------------------------

  datatype YearPnl = YearPnl(year: string, pnl: real)

  /** `yearlyData`: one (year, pnl) pair per kept entry, in the same order; the metrics
      are dropped. */
  function YearlyData(filtered: seq<YearOverview>): (data: seq<YearPnl>)
    ensures |data| == |filtered|
    ensures forall i :: 0 <= i < |data| ==> data[i].year == filtered[i].year && data[i].pnl == filtered[i].pnl
  {
    seq(|filtered|, i requires 0 <= i < |filtered| => YearPnl(filtered[i].year, filtered[i].pnl))
  }

  // ---------------------------------------------------------------------------
  // `statsMap` / `changeMap`: the per-metric aggregation
  // ---------------------------------------------------------------------------

  /** `m.label.toLowerCase().replace(/\s+/g, '')`: a key has no white space and no
      upper-case letter. */
  function MetricKey(name: string): (key: string)
    ensures forall i :: 0 <= i < |key| ==> !IsSpace(key[i]) && !IsUpperAscii(key[i])
  {
    var lower := ToLower(name);
    var key := RemoveSpaces(lower);
    assert forall i :: 0 <= i < |key| ==> key[i] in lower;
    key
  }

  /** A key is the lower-cased label with every white-space character deleted and every
      other character kept, in order. */
  lemma MetricKeyIsFilter(name: string)
    ensures MetricKey(name) == Filter(ToLower(name), c => !IsSpace(c))
  {
    RemoveSpacesIsFilter(ToLower(name));
  }

  /** Normalising a key again gives the same key. */
  lemma MetricKeyIdempotent(name: string)
    ensures MetricKey(MetricKey(name)) == MetricKey(name)
  {
    var key := MetricKey(name);
    ToLowerOfLower(key);
    RemoveSpacesOfSpaceless(key);
  }

  lemma RemoveSpacesOfTwoWords(a: string, b: string)
    requires forall i :: 0 <= i < |a| ==> !IsSpace(a[i])
    requires forall i :: 0 <= i < |b| ==> !IsSpace(b[i])
    ensures RemoveSpaces(a + " " + b) == a + b
  {
    var space: string := " ";
    assert IsSpace(space[0]) && space[1..] == [];
    assert RemoveSpaces(space) == [];
    RemoveSpacesAppend(a, space);
    RemoveSpacesOfSpaceless(a);
    assert RemoveSpaces(a + space) == a;
    RemoveSpacesAppend(a + space, b);
    RemoveSpacesOfSpaceless(b);
  }

  lemma ToLowerAppend(a: string, b: string)
    ensures ToLower(a + b) == ToLower(a) + ToLower(b)
  {
  }

  /** Two words separated by one space have as key their lower cases run together. */
  lemma KeyOfTwoWords(a: string, b: string)
    requires forall i :: 0 <= i < |a| ==> !IsSpace(a[i])
    requires forall i :: 0 <= i < |b| ==> !IsSpace(b[i])
    ensures MetricKey(a + " " + b) == ToLower(a) + ToLower(b)
  {
    ToLowerAppend(a + " ", b);
    ToLowerAppend(a, " ");
    var space: string := " ";
    assert ToLower(space) == space;
    RemoveSpacesOfTwoWords(ToLower(a), ToLower(b));
  }

  /** The label 'Total PnL' has the key of the `totalpnl` stat. */
  lemma TotalPnlKey()
    ensures MetricKey("Total PnL") == "totalpnl"
  {
    assert "Total PnL" == "Total" + " " + "PnL";
    assert ToLower("Total") + ToLower("PnL") == "totalpnl";
    KeyOfTwoWords("Total", "PnL");
  }

  /** The label 'Win %' has the key of the `win%` stat. */
  lemma WinKey()
    ensures MetricKey("Win %") == "win%"
  {
    assert "Win %" == "Win" + " " + "%";
    assert ToLower("Win") + ToLower("%") == "win%";
    KeyOfTwoWords("Win", "%");
  }

  /** `value.replace(/\s|,/g, '')`: every white-space character and comma removed. */
  function RemoveSpacesAndCommas(s: string): (t: string)
    ensures forall i :: 0 <= i < |t| ==> !IsSpace(t[i]) && t[i] != ','
  {
    if s == [] then []
    else if IsSpace(s[0]) || s[0] == ',' then RemoveSpacesAndCommas(s[1..])
    else [s[0]] + RemoveSpacesAndCommas(s[1..])
  }

  /** Every character that is neither white space nor a comma is kept, each copy of it,
      in order: the cleaning is `filter` with that test. */
  lemma {:induction false} RemoveSpacesAndCommasIsFilter(s: string)
    ensures RemoveSpacesAndCommas(s) == Filter(s, c => !IsSpace(c) && c != ',')
  {
    if s != [] {
      RemoveSpacesAndCommasIsFilter(s[1..]);
    }
  }

  /** `s.replace(from, to)` with a one-character string pattern: the first occurrence only. */
  function ReplaceFirst(s: string, from: char, to: char): string {
    if s == [] then []
    else if s[0] == from then [to] + s[1..]
    else [s[0]] + ReplaceFirst(s[1..], from, to)
  }

  lemma {:induction false} ReplaceFirstAbsent(s: string, from: char, to: char)
    requires from !in s
    ensures ReplaceFirst(s, from, to) == s
  {
    if s != [] {
      ReplaceFirstAbsent(s[1..], from, to);
      assert s == [s[0]] + s[1..];
    }
  }

  /** The cleaned metric value. The trailing `.replace(',', '.')` never finds a comma:
      the first replacement removed them all. */
  function CleanValue(value: string): (clean: string)
    ensures clean == RemoveSpacesAndCommas(value)
  {
    var stripped := RemoveSpacesAndCommas(value);
    ReplaceFirstAbsent(stripped, ',', '.');
    ReplaceFirst(stripped, ',', '.')
  }

  /** What one metric contributes to the two dictionaries: its normalised key, its
      parsed value and its change. */
  datatype Contribution = Contribution(key: string, value: JsNum, change: string)

  function ContributionOf(m: Metric): (c: Contribution)
    ensures c.key == MetricKey(m.name) && c.change == m.change
    ensures c.value == ParseFloat(RemoveSpacesAndCommas(m.value))
  {
    Contribution(MetricKey(m.name), ParseFloat(CleanValue(m.value)), m.change)
  }

  /** The metrics of all the entries, entry after entry. */
  function AllMetrics(entries: seq<YearOverview>): (ms: seq<Metric>)
    ensures entries == [] ==> ms == []
  {
    if entries == [] then [] else AllMetrics(entries[..|entries| - 1]) + entries[|entries| - 1].metrics
  }

  /** What the metrics `ms` contribute, in order. */
  function Contributions(ms: seq<Metric>): (cs: seq<Contribution>)
    ensures |cs| == |ms|
  {
    if ms == [] then [] else Contributions(ms[..|ms| - 1]) + [ContributionOf(ms[|ms| - 1])]
  }

  function Get<V>(m: map<string, V>, key: string): Option<V> {
    if key in m then Some(m[key]) else None
  }

  /** `statsMap[key] = (statsMap[key] || 0) + value`. */
  function Accumulate(statsMap: map<string, JsNum>, key: string, value: JsNum): map<string, JsNum> {
    statsMap[key := Add(OrZero(Get(statsMap, key)), value)]
  }

  /** `statsMap` after the contributions `cs`: each adds its value under its key. It has
      the same keys as `changeMap`. */
  function Totals(cs: seq<Contribution>): (totals: map<string, JsNum>)
    ensures totals.Keys == Changes(cs).Keys
  {
    if cs == [] then map[]
    else
      var c := cs[|cs| - 1];
      Accumulate(Totals(cs[..|cs| - 1]), c.key, c.value)
  }

  /** `changeMap` after the contributions `cs`: each writes its change under its key, so
      every recorded change is the change of some contribution with that key. */
  function Changes(cs: seq<Contribution>): (changes: map<string, string>)
    ensures forall k :: k in changes ==>
              exists i :: 0 <= i < |cs| && cs[i].key == k && cs[i].change == changes[k]
  {
    if cs == [] then map[]
    else
      var init, c := cs[..|cs| - 1], cs[|cs| - 1];
      var changes := Changes(init)[c.key := c.change];
      assert forall i :: 0 <= i < |init| ==> init[i] == cs[i];
      changes
  }

  lemma AllMetricsStep(entries: seq<YearOverview>, i: nat)
    requires i < |entries|
    ensures AllMetrics(entries[..i + 1]) == AllMetrics(entries[..i]) + entries[i].metrics
  {
    assert entries[..i + 1][..i] == entries[..i];
  }

  lemma ContributionsStep(ms: seq<Metric>, m: Metric)
    ensures Contributions(ms + [m]) == Contributions(ms) + [ContributionOf(m)]
  {
    assert (ms + [m])[..|ms|] == ms;
  }

  lemma TotalsStep(cs: seq<Contribution>, c: Contribution)
    ensures Totals(cs + [c]) == Accumulate(Totals(cs), c.key, c.value)
    ensures Changes(cs + [c]) == Changes(cs)[c.key := c.change]
  {
    assert (cs + [c])[..|cs|] == cs;
  }

  /** One metric's update of the two dictionaries, as the loop writes it. */
  lemma AggregateStep(ms: seq<Metric>, m: Metric)
    ensures Totals(Contributions(ms + [m]))
            == Totals(Contributions(ms))[MetricKey(m.name) := Add(OrZero(Get(Totals(Contributions(ms)), MetricKey(m.name))), ParseFloat(CleanValue(m.value)))]
    ensures Changes(Contributions(ms + [m])) == Changes(Contributions(ms))[MetricKey(m.name) := m.change]
  {
    ContributionsStep(ms, m);
    TotalsStep(Contributions(ms), ContributionOf(m));
  }

  /** The nested `forEach` over the kept years and their metrics, updating both
      dictionaries in place. */
  method Aggregate(filtered: seq<YearOverview>) returns (statsMap: map<string, JsNum>, changeMap: map<string, string>)
    ensures statsMap == Totals(Contributions(AllMetrics(filtered)))
    ensures changeMap == Changes(Contributions(AllMetrics(filtered)))
  {
    statsMap := map[];
    changeMap := map[];
    ghost var seen: seq<Metric> := [];
    for i := 0 to |filtered|
      invariant seen == AllMetrics(filtered[..i])
      invariant statsMap == Totals(Contributions(seen))
      invariant changeMap == Changes(Contributions(seen))
    {
      var entry := filtered[i];
      ghost var done := seen;
      for j := 0 to |entry.metrics|
        invariant seen == done + entry.metrics[..j]
        invariant statsMap == Totals(Contributions(seen))
        invariant changeMap == Changes(Contributions(seen))
      {
        var m := entry.metrics[j];
        var key := MetricKey(m.name);
        AggregateStep(seen, m);
        AppendSlice(done, entry.metrics, j);
        statsMap := statsMap[key := Add(OrZero(Get(statsMap, key)), ParseFloat(CleanValue(m.value)))];
        changeMap := changeMap[key := m.change];
        seen := seen + [m];
      }
      AllMetricsStep(filtered, i);
      AppendAll(done, entry.metrics);
    }
    assert filtered[..|filtered|] == filtered;
  }

  lemma AppendSlice<T>(a: seq<T>, b: seq<T>, j: nat)
    requires j < |b|
    ensures a + b[..j + 1] == (a + b[..j]) + [b[j]]
  {
    assert b[..j + 1] == b[..j] + [b[j]];
  }

  lemma AppendAll<T>(a: seq<T>, b: seq<T>)
    ensures a + b[..|b|] == a + b
  {
    assert b[..|b|] == b;
  }

  /** Some contribution among `cs` has the key `key`. */
  predicate HasKey(cs: seq<Contribution>, key: string) {
    exists i :: 0 <= i < |cs| && cs[i].key == key
  }

  lemma HasKeyStep(cs: seq<Contribution>, key: string)
    requires cs != []
    ensures HasKey(cs, key) <==> HasKey(cs[..|cs| - 1], key) || cs[|cs| - 1].key == key
  {
    var init := cs[..|cs| - 1];
    if HasKey(cs, key) {
      var i :| 0 <= i < |cs| && cs[i].key == key;
      if i < |init| {
        assert init[i] == cs[i];
      }
    }
    if HasKey(init, key) {
      var i :| 0 <= i < |init| && init[i].key == key;
      assert cs[i] == init[i];
    }
  }

  /** A key has a total, and a change, exactly when some metric of the kept years has
      that key. */
  lemma {:induction false} FoldKeys(cs: seq<Contribution>, key: string)
    ensures key in Totals(cs) <==> HasKey(cs, key)
    ensures key in Changes(cs) <==> HasKey(cs, key)
  {
    if cs != [] {
      FoldKeys(cs[..|cs| - 1], key);
      HasKeyStep(cs, key);
    }
  }

  /** The sum of the values under `key` (a value that does not parse counts as 0
      here; the lemma below excludes it). */
  function KeySum(cs: seq<Contribution>, key: string): real {
    if cs == [] then 0.0
    else
      var c := cs[|cs| - 1];
      KeySum(cs[..|cs| - 1], key) + (if c.key == key && c.value.Num? then c.value.value else 0.0)
  }

  predicate AllParse(cs: seq<Contribution>) {
    forall i :: 0 <= i < |cs| ==> cs[i].value.Num?
  }

  /** When every value parses, the total of a key is the sum of its values across the
      kept years: percentages, too, are summed rather than averaged. */
  lemma {:induction false} TotalIsSum(cs: seq<Contribution>, key: string)
    requires AllParse(cs)
    requires key in Totals(cs)
    ensures Totals(cs)[key] == Num(KeySum(cs, key))
  {
    var init, c := cs[..|cs| - 1], cs[|cs| - 1];
    assert AllParse(init) by {
      assert forall i :: 0 <= i < |init| ==> init[i] == cs[i];
    }
    var prev := Totals(init);
    assert c.value.Num?;
    if c.key == key {
      if key in prev {
        TotalIsSum(init, key);
      } else {
        FoldKeys(init, key);
        KeySumAbsent(init, key);
      }
    } else {
      TotalIsSum(init, key);
    }
  }

  lemma {:induction false} KeySumAbsent(cs: seq<Contribution>, key: string)
    requires !HasKey(cs, key)
    ensures KeySum(cs, key) == 0.0
  {
    if cs != [] {
      HasKeyStep(cs, key);
      KeySumAbsent(cs[..|cs| - 1], key);
    }
  }

  /** The change kept for a key is that of the last contribution with that key. */
  lemma {:induction false} ChangeIsLast(cs: seq<Contribution>, i: nat)
    requires i < |cs|
    requires forall j :: i < j < |cs| ==> cs[j].key != cs[i].key
    ensures cs[i].key in Changes(cs)
    ensures Changes(cs)[cs[i].key] == cs[i].change
  {
    var n := |cs|;
    if i < n - 1 {
      var init := cs[..n - 1];
      assert init[i] == cs[i];
      assert forall j :: i < j < |init| ==> init[j] == cs[j];
      ChangeIsLast(init, i);
    }
  }

  // ---------------------------------------------------------------------------
  // `stats`: what the summary shows
  // ---------------------------------------------------------------------------

  /** `statsMap[key]?.toFixed(digits) || '0'`: the formatted total, or '0' for a key that
      never occurred (a formatted number is never the empty string). */
  datatype Shown = Zero | Fixed(amount: JsNum, digits: nat)

  datatype Stats = Stats(totalPL: Shown, totalTrades: Shown, profit: Shown, loss: Shown, winPercentage: Shown)

  function Show(statsMap: map<string, JsNum>, key: string, digits: nat): (shown: Shown)
    ensures shown == Zero <==> key !in statsMap
    ensures key in statsMap ==> shown == Fixed(statsMap[key], digits)
  {
    if key in statsMap then Fixed(statsMap[key], digits) else Zero
  }

  /** `stats`: each field shows '0' exactly when its key never occurred. */
  function StatsOf(statsMap: map<string, JsNum>): (stats: Stats)
    ensures stats.totalPL == Zero <==> "totalpnl" !in statsMap
    ensures stats.totalTrades == Zero <==> "totaltrades" !in statsMap
    ensures stats.profit == Zero <==> "totalprofit" !in statsMap
    ensures stats.loss == Zero <==> "totalloss" !in statsMap
    ensures stats.winPercentage == Zero <==> "win%" !in statsMap
  {
    Stats(Show(statsMap, "totalpnl", 2), Show(statsMap, "totaltrades", 0), Show(statsMap, "totalprofit", 2),
          Show(statsMap, "totalloss", 2), Show(statsMap, "win%", 0))
  }

  /** A range that keeps no year shows '0' in every field. */
  lemma NothingKeptShowsZeros(items: seq<YearOverview>, start: Date, end: Date)
    requires Filtered(items, start, end) == []
    ensures StatsOf(Totals(Contributions(AllMetrics(Filtered(items, start, end))))) == Stats(Zero, Zero, Zero, Zero, Zero)
  {
    assert Contributions([]) == [];
  }

  /** Two kept years whose 'Win %' values (or those of any name with the key `win%`)
      are plain digit strings show the sum of the two percentages, which exceeds 100 as
      soon as they add up to more. */
  lemma WinPercentageIsSummed(name: string, v1: string, v2: string, c1: string, c2: string)
    requires MetricKey(name) == "win%"
    requires v1 != [] && AllDigits(v1) && v2 != [] && AllDigits(v2)
    ensures var ms := [Metric(name, v1, c1), Metric(name, v2, c2)];
            StatsOf(Totals(Contributions(ms))).winPercentage == Fixed(Num((DigitsValue(v1) + DigitsValue(v2)) as real), 0)
  {
    var m1, m2 := Metric(name, v1, c1), Metric(name, v2, c2);
    ValueOfDigits(m1);
    ValueOfDigits(m2);
    ContributionsOfTwo(m1, m2);
    var x1, x2 := DigitsValue(v1) as real, DigitsValue(v2) as real;
    WinTotalOfTwo(ContributionOf(m1), ContributionOf(m2), x1, x2);
    assert x1 + x2 == (DigitsValue(v1) + DigitsValue(v2)) as real;
  }

  lemma WinTotalOfTwo(k1: Contribution, k2: Contribution, x1: real, x2: real)
    requires k1.key == "win%" && k2.key == "win%"
    requires k1.value == Num(x1) && k2.value == Num(x2)
    ensures StatsOf(Totals([k1, k2])).winPercentage == Fixed(Num(x1 + x2), 0)
  {
    TotalsOfTwo(k1, k2);
  }

  lemma ContributionsOfTwo(m1: Metric, m2: Metric)
    ensures Contributions([m1, m2]) == [ContributionOf(m1), ContributionOf(m2)]
  {
    ContributionsStep([], m1);
    ContributionsStep([m1], m2);
    assert [] + [m1] == [m1];
    assert [m1] + [m2] == [m1, m2];
  }

  /** Two contributions under the same key: the total is the sum of both values. */
  lemma TotalsOfTwo(c1: Contribution, c2: Contribution)
    requires c1.key == c2.key && c1.value.Num? && c2.value.Num?
    ensures Totals([c1, c2]) == map[c1.key := Num(c1.value.value + c2.value.value)]
  {
    assert [c1, c2][..1] == [c1];
    assert [c1][..0] == [];
    assert Totals([c1]) == map[c1.key := c1.value];
    assert Get(map[c1.key := c1.value], c1.key) == Some(c1.value);
  }

  /** A value made of digits only contributes its decimal value. */
  lemma ValueOfDigits(m: Metric)
    requires m.value != [] && AllDigits(m.value)
    ensures ContributionOf(m).value == Num(DigitsValue(m.value) as real)
  {
    RemoveSpacesAndCommasOfDigits(m.value);
    ParseFloatOfDigits(m.value);
  }

  lemma {:induction false} RemoveSpacesAndCommasOfDigits(s: string)
    requires AllDigits(s)
    ensures RemoveSpacesAndCommas(s) == s
  {
    if s != [] {
      RemoveSpacesAndCommasOfDigits(s[1..]);
      assert s == [s[0]] + s[1..];
    }
  }

  // ---------------------------------------------------------------------------
  // The mock years and the default range
  // ---------------------------------------------------------------------------

  /** `unifiedMockData`. */
  function MockOverview(): seq<YearOverview> {
    [ YearOverview("2020", 80.0, [Metric("Total PnL", "18 200", "+2.0%"), Metric("Total Trades", "1 000", "+1.2%"),
        Metric("Total Profit", "15 000", "+2.5%"), Metric("Total Loss", "3 200", "-1.0%"),
        Metric("Win %", "58", "+1.0%"), Metric("Loss %", "42", "-1.0%")]),
      YearOverview("2021", 130.0, [Metric("Total PnL", "20 500", "+3.1%"), Metric("Total Trades", "1 300", "+2.0%"),
        Metric("Total Profit", "17 100", "+3.0%"), Metric("Total Loss", "3 400", "-0.5%"),
        Metric("Win %", "60", "+1.5%"), Metric("Loss %", "40", "-1.5%")]),
      YearOverview("2022", 110.0, [Metric("Total PnL", "19 800", "+2.8%"), Metric("Total Trades", "1 200", "+1.8%"),
        Metric("Total Profit", "16 500", "+2.7%"), Metric("Total Loss", "3 300", "-0.8%"),
        Metric("Win %", "61", "+1.0%"), Metric("Loss %", "39", "-1.0%")]),
      YearOverview("2023", 200.0, [Metric("Total PnL", "22 000", "+4.5%"), Metric("Total Trades", "1 500", "+2.5%"),
        Metric("Total Profit", "18 200", "+4.0%"), Metric("Total Loss", "3 800", "-1.2%"),
        Metric("Win %", "62", "+1.8%"), Metric("Loss %", "38", "-1.8%")]),
      YearOverview("2024", 140.0, [Metric("Total PnL", "21 300", "+3.6%"), Metric("Total Trades", "1 400", "+2.3%"),
        Metric("Total Profit", "17 900", "+3.5%"), Metric("Total Loss", "3 400", "-1.1%"),
        Metric("Win %", "63", "+1.9%"), Metric("Loss %", "37", "-1.9%")]),
      YearOverview("2025", 190.0, [Metric("Total PnL", "23 300", "+4.8%"), Metric("Total Trades", "1 600", "+3.0%"),
        Metric("Total Profit", "20 000", "+5.0%"), Metric("Total Loss", "3 300", "-1.3%"),
        Metric("Win %", "64", "+2.0%"), Metric("Loss %", "36", "-2.0%")]) ]
  }

  /** The initial range: 2020-01-01 to 2025-12-31. */
  const DefaultStart: Date := Trades.Date(2020, 1, 1)
  const DefaultEnd: Date := Trades.Date(2025, 12, 31)

  lemma FourDigitYear(year: string)
    requires |year| == 4 && AllDigits(year)
    ensures YearStart(year) == Some(Trades.Date(
              ((DigitValue(year[0]) * 10 + DigitValue(year[1])) * 10 + DigitValue(year[2])) * 10 + DigitValue(year[3]), 1, 1))
  {
    assert year[..1][..0] == [];
    assert DigitsValue(year[..1]) == DigitValue(year[0]);
    assert year[..2][..1] == year[..1];
    assert DigitsValue(year[..2]) == DigitValue(year[0]) * 10 + DigitValue(year[1]);
    assert year[..3][..2] == year[..2];
    assert DigitsValue(year[..3]) == (DigitValue(year[0]) * 10 + DigitValue(year[1])) * 10 + DigitValue(year[2]);
    assert year[..4][..3] == year[..3];
    assert year[..4] == year;
  }

  /** Every year from 2020 to 2025 lies in the default range. */
  lemma InDefaultRange(item: YearOverview)
    requires |item.year| == 4 && item.year[..3] == "202" && '0' <= item.year[3] <= '5'
    ensures InRange(DefaultStart, DefaultEnd, item)
  {
    var year := item.year;
    assert year[0] == '2' && year[1] == '0' && year[2] == '2';
    FourDigitYear(year);
  }

  /** The default range keeps all six mock years. */
  lemma DefaultRangeKeepsAll()
    ensures Filtered(MockOverview(), DefaultStart, DefaultEnd) == MockOverview()
  {
    var items := MockOverview();
    forall i | 0 <= i < |items| ensures InRangeTest(DefaultStart, DefaultEnd)(items[i]) {
      InDefaultRange(items[i]);
    }
    FilterKeepsAll(items, InRangeTest(DefaultStart, DefaultEnd));
  }
}
