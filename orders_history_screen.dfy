/** The order history screen: the loaded orders, the period buttons (`Today`,
    `Yesterday`, `Week`, `Month`, `Quarter`, `Year`) and the orders they show. Only
    `Today` and `Yesterday` narrow the list, each to one fixed date; every other label
    shows all orders. */
module OrdersHistoryScreen {
  import opened Text
  import opened JsNumber
  import opened Seqs

  datatype Direction = Buy | Sell

  /** `pnl` is a display string such as `'0.48%'` or `'-0.12%'`. */
  datatype Order = Order(date: string, time: string, symbol: string, open: real, close: real,
                         change: real, direction: Direction, pnl: string)

  const Today: string := "2025.05.21"
  const Yesterday: string := "2025.05.20"

  predicate OnDate(day: string, order: Order) {
    order.date == day
  }

  /** The orders a period label shows: the orders of one date for `Today` and
      `Yesterday`, all of them otherwise. */
  function SelectOrders(orders: seq<Order>, period: string): (shown: seq<Order>)
    ensures SubsequenceOf(shown, orders)
    ensures period != "Today" && period != "Yesterday" ==> shown == orders
  {
    FilterIsSubsequence(orders, o => OnDate(Today, o));
    FilterIsSubsequence(orders, o => OnDate(Yesterday, o));
    SubsequenceOfSelf(orders);
    if period == "Today" then Filter(orders, o => OnDate(Today, o))
    else if period == "Yesterday" then Filter(orders, o => OnDate(Yesterday, o))
    else orders
  }

  /** `Today` shows exactly the orders dated 2025.05.21, `Yesterday` exactly those dated
      2025.05.20, each as many times as it occurs and in the original order, and any
      other label shows every order. */
  lemma SelectOrdersCorrect(orders: seq<Order>, period: string)
    ensures period == "Today" ==>
              SubsequenceOf(SelectOrders(orders, period), orders)
              && (forall o :: o in SelectOrders(orders, period) <==> o in orders && o.date == Today)
              && forall o :: multiset(SelectOrders(orders, period))[o]
                               == if o.date == Today then multiset(orders)[o] else 0
    ensures period == "Yesterday" ==>
              SubsequenceOf(SelectOrders(orders, period), orders)
              && (forall o :: o in SelectOrders(orders, period) <==> o in orders && o.date == Yesterday)
              && forall o :: multiset(SelectOrders(orders, period))[o]
                               == if o.date == Yesterday then multiset(orders)[o] else 0
    ensures period != "Today" && period != "Yesterday" ==> SelectOrders(orders, period) == orders
  {
    FilterSpec(orders, o => OnDate(Today, o));
    FilterSpec(orders, o => OnDate(Yesterday, o));
  }

  /** What a label shows never depends on what was shown before: clicking a label twice,
      or after any other label, shows the same orders. */
  lemma SelectOrdersIdempotent(orders: seq<Order>, period: string)
    ensures SelectOrders(SelectOrders(orders, period), period) == SelectOrders(orders, period)
  {
    FilterIdempotent(orders, o => OnDate(Today, o));
    FilterIdempotent(orders, o => OnDate(Yesterday, o));
  }

  /** Today's and yesterday's orders never overlap. */
  lemma TodayAndYesterdayDisjoint(orders: seq<Order>)
    ensures forall o :: o in SelectOrders(orders, "Today") ==> o !in SelectOrders(orders, "Yesterday")
  {
    SelectOrdersCorrect(orders, "Today");
    SelectOrdersCorrect(orders, "Yesterday");
  }

  /** The screen's state: the loaded orders, the orders on show, the loading flag and the
      highlighted period label. */
  class OrderHistory {
    var orders: seq<Order>
    var filteredOrders: seq<Order>
    var loading: bool
    var selectedFilter: string

    /** The orders on show are always some of the loaded orders, in their order. */
    predicate Consistent()
      reads this
    {
      SubsequenceOf(filteredOrders, orders)
    }

    /** What consistency promises: the screen shows only loaded orders, each at most as
        often as it was loaded, so it never shows more orders than it loaded. */
    lemma ShowsOnlyLoaded()
      requires Consistent()
      ensures multiset(filteredOrders) <= multiset(orders)
      ensures forall o :: o in filteredOrders ==> o in orders
      ensures |filteredOrders| <= |orders|
    {
      SubsequenceCount(filteredOrders, orders);
      forall o | o in filteredOrders ensures o in orders {
        assert multiset(filteredOrders)[o] > 0;
      }
    }

    /** Before loading: no orders, loading, and `Year` highlighted. */
    constructor()
      ensures orders == [] && filteredOrders == [] && loading && selectedFilter == "Year"
      ensures Consistent()
    {
      orders := [];
      filteredOrders := [];
      loading := true;
      selectedFilter := "Year";
    }

    /** The end of the fetch: every order is loaded and shown, and loading stops; the
        highlighted label is left as it is. */
    method Load(response: seq<Order>)
      modifies this
      ensures orders == response && filteredOrders == response && !loading
      ensures selectedFilter == old(selectedFilter)
      ensures Consistent()
    {
      orders := response;
      filteredOrders := response;
      loading := false;
      SubsequenceOfSelf(response);
    }

    /** `handleFilterClick(label)`: the label becomes the highlighted one and the orders
        on show are selected afresh from all loaded orders. */
    method HandleFilterClick(period: string)
      modifies this
      ensures selectedFilter == period
      ensures filteredOrders == SelectOrders(orders, period)
      ensures orders == old(orders) && loading == old(loading)
      ensures Consistent()
    {
      selectedFilter := period;
      if period == "Today" {
        var today := Today;
        filteredOrders := Filter(orders, o => OnDate(today, o));
      } else if period == "Yesterday" {
        var yesterday := Yesterday;
        filteredOrders := Filter(orders, o => OnDate(yesterday, o));
      } else {
        filteredOrders := orders;
      }
      SelectOrdersCorrect(orders, period);
      SubsequenceOfSelf(orders);
    }
  }

  /** The orders the screen loads. */
  function MockOrders(): (orders: seq<Order>)
    ensures |orders| == 9
  {
    [ Order("2025.05.21", "20:45", "SP500", 5895.5, 5895.5, -28.0, Sell, "0.48%"),
      Order("2025.05.21", "20:30", "SP500", 5895.5, 5895.5, -15.0, Sell, "0.72%"),
      Order("2025.05.21", "20:25", "SP500", 5895.5, 5895.5, -15.0, Sell, "0.13%"),
      Order("2025.05.21", "20:15", "NDX", 5795.5, 5892.0, 0.0, Sell, "0.13%"),
      Order("2025.05.21", "20:00", "SP500", 5892.0, 5892.0, 0.0, Buy, "-0.12%"),
      Order("2025.05.20", "19:55", "NDX", 5890.0, 5892.0, 0.0, Buy, "-0.12%"),
      Order("2025.05.20", "19:50", "NDX", 5890.0, 5890.0, 27.5, Buy, "-0.12%"),
      Order("2025.05.20", "19:45", "NDX", 5795.3, 5890.0, 27.5, Buy, "-0.12%"),
      Order("2025.05.20", "19:40", "SP500", 5795.3, 5890.0, 0.0, Buy, "-0.12%") ]
  }

  /** Opening the screen: the initial state, then the fetch of the mock orders. Once it
      has finished every order is shown and `Year` is highlighted. */
  method Open() returns (screen: OrderHistory)
    ensures fresh(screen)
    ensures screen.orders == MockOrders() && screen.filteredOrders == screen.orders
    ensures !screen.loading && screen.selectedFilter == "Year"
  {
    screen := new OrderHistory();
    screen.Load(MockOrders());
  }

  /** The first five mock orders are today's and the last four yesterday's. */
  lemma MockDates()
    ensures forall i :: 0 <= i < 5 ==> MockOrders()[i].date == Today
    ensures forall i :: 5 <= i < 9 ==> MockOrders()[i].date == Yesterday
  {
  }

  /** On the mock orders, `Today` shows the first five. */
  lemma MockToday(all: seq<Order>)
    requires all == MockOrders()
    ensures SelectOrders(all, "Today") == all[..5]
  {
    MockDates();
    assert all == all[..5] + all[5..];
    var today := (o: Order) => OnDate(Today, o);
    FilterAppend(all[..5], all[5..], today);
    FilterKeepsAll(all[..5], today);
    FilterKeepsNone(all[5..], today);
  }

  /** On the mock orders, `Yesterday` shows the last four. */
  lemma MockYesterday(all: seq<Order>)
    requires all == MockOrders()
    ensures SelectOrders(all, "Yesterday") == all[5..]
  {
    MockDates();
    assert all == all[..5] + all[5..];
    var yesterday := (o: Order) => OnDate(Yesterday, o);
    FilterAppend(all[..5], all[5..], yesterday);
    FilterKeepsNone(all[..5], yesterday);
    FilterKeepsAll(all[5..], yesterday);
  }

  datatype TextColor = Red | Green

  /** The PnL cell is red when the string starts with `-`, green otherwise. */
  function PnlColor(pnl: string): (c: TextColor)
    ensures c == Red <==> pnl != [] && pnl[0] == '-'
  {
    if StartsWith(pnl, "-") then Red else Green
  }

  /** A PnL string that reads as a negative number (and has no leading white space) is
      shown red. */
  lemma NegativePnlIsRed(pnl: string)
    requires pnl != [] && !IsSpace(pnl[0])
    requires ParseFloat(pnl).Num? && ParseFloat(pnl).value < 0.0
    ensures PnlColor(pnl) == Red
  {
    NegativeParseStartsWithMinus(pnl);
    assert pnl[..1] == "-";
  }

  /** A red PnL string never reads as a positive number. */
  lemma RedPnlIsNotPositive(pnl: string)
    requires PnlColor(pnl) == Red
    ensures !(ParseFloat(pnl).Num? && ParseFloat(pnl).value > 0.0)
  {
    assert pnl[0] == '-';
    assert !IsSpace(pnl[0]);
  }
}
