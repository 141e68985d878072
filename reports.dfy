/** The administrator's read-only views: the dashboard (daily figures, top-selling dishes,
    monthly figures) and the filtered order listing with its summary. */
module Reports {
  import opened Wrappers
  import opened Schema
  import opened Store
  import opened Query

  function IsPaid(o: Order): bool { o.paymentStatus }

  function TotalOf(o: Order): int { o.totalAmount }

  /** What an order contributes to revenue: its total when paid, nothing otherwise. */
  function PaidAmount(o: Order): int { if o.paymentStatus then o.totalAmount else 0 }

  /** The sum of the totals of the paid orders. */
  function PaidRevenue(orders: seq<Order>): int
  {
    Sum(Filter(orders, IsPaid), TotalOf)
  }

  /** Revenue counts paid orders only: it is the sum of every order's paid amount. */
  lemma {:induction false} PaidRevenueMasked(orders: seq<Order>)
    ensures PaidRevenue(orders) == Sum(orders, PaidAmount)
    decreases |orders|
  {
    if orders != [] {
      var init, x := orders[..|orders| - 1], orders[|orders| - 1];
      PaidRevenueMasked(init);
      SumAppend(Filter(init, IsPaid), if IsPaid(x) then [x] else [], TotalOf);
      assert Sum([x], TotalOf) == TotalOf(x) by {
        assert [x][..0] == [];
      }
    }
  }

  // ---------------------------------------------------------------------------
  // Daily figures

  function OnDay(day: Day): Order -> bool
  {
    (o: Order) => o.orderDate == day
  }

  /** The orders placed for `day`, in store order. */
  function DailyOrders(orders: seq<Order>, day: Day): (r: seq<Order>)
    ensures forall o :: o in r <==> o in orders && o.orderDate == day
  {
    FilterMembers(orders, OnDay(day));
    Filter(orders, OnDay(day))
  }

  datatype DailyFigures = DailyFigures(day: Day, orderCount: nat, paidOrders: nat, totalRevenue: int)

  /** The day's figures: every order of the day, the paid ones among them, and the
      revenue of the paid ones only. */
  function Daily(orders: seq<Order>, day: Day): (d: DailyFigures)
    ensures d.day == day && d.orderCount == |DailyOrders(orders, day)|
    ensures d.paidOrders <= d.orderCount
    ensures d.paidOrders == |Positions(DailyOrders(orders, day), IsPaid)|
    ensures d.totalRevenue == Sum(DailyOrders(orders, day), PaidAmount)
  {
    var daily := DailyOrders(orders, day);
    PaidRevenueMasked(daily);
    CountPositions(daily, IsPaid);
    DailyFigures(day, |daily|, |Filter(daily, IsPaid)|, PaidRevenue(daily))
  }

  /** An order placed for another day leaves the day's figures as they were. */
  lemma DailyIgnoresOtherDays(orders: seq<Order>, o: Order, day: Day)
    requires o.orderDate != day
    ensures DailyOrders(orders + [o], day) == DailyOrders(orders, day)
  {
    FilterAppend(orders, [o], OnDay(day));
    assert [o][..0] == [];
  }

  /** Changing an order of another day, to one still of another day, leaves the day's
      orders, and so its figures, as they were. */
  lemma DailyIgnoresOtherDayUpdate(orders: seq<Order>, i: nat, o: Order, day: Day)
    requires i < |orders| && orders[i].orderDate != day && o.orderDate != day
    ensures DailyOrders(orders[i := o], day) == DailyOrders(orders, day)
    ensures Daily(orders[i := o], day) == Daily(orders, day)
  {
    var a, b := orders[..i], orders[i + 1..];
    assert orders == a + [orders[i]] + b;
    assert orders[i := o] == a + [o] + b;
    FilterAppend(a + [orders[i]], b, OnDay(day));
    FilterAppend(a, [orders[i]], OnDay(day));
    FilterAppend(a + [o], b, OnDay(day));
    FilterAppend(a, [o], OnDay(day));
    assert [o][..0] == [] && [orders[i]][..0] == [];
  }

  lemma PaidRevenueNonNegative(orders: seq<Order>)
    requires forall o :: o in orders ==> o.totalAmount >= 0
    ensures PaidRevenue(orders) >= 0
  {
    FilterMembers(orders, IsPaid);
    SumNonNegative(Filter(orders, IsPaid), TotalOf);
  }

  // ---------------------------------------------------------------------------
  // Top-selling dishes

  /** One dish's tally of the day: its name, the quantity sold over all orders, and the
      revenue from paid orders. */
  datatype DishStat = DishStat(itemId: nat, name: string, count: int, revenue: int)

  function StatId(d: DishStat): nat { d.itemId }

  /** One order line as the tally sees it: the line and whether its order was paid. */
  datatype Sale = Sale(line: OrderItem, paid: bool)

  /** The lines of one order, in order. */
  function OrderSales(o: Order): (r: seq<Sale>)
    ensures |r| == |o.items|
    ensures forall j :: 0 <= j < |o.items| ==> r[j] == Sale(o.items[j], o.paymentStatus)
  {
    seq(|o.items|, j requires 0 <= j < |o.items| => Sale(o.items[j], o.paymentStatus))
  }

  /** Every line of every order, order by order. */
  function Sales(orders: seq<Order>): seq<Sale>
  {
    if orders == [] then [] else Sales(orders[..|orders| - 1]) + OrderSales(orders[|orders| - 1])
  }

  /** What a line contributes to its dish's revenue: price times quantity when paid. */
  function SaleRevenue(s: Sale): int
  {
    if s.paid then s.line.price * s.line.quantity else 0
  }

  /** The position of the tally entry for a dish. */
  function FindStat(stats: seq<DishStat>, id: nat): (r: Option<nat>)
    ensures r.Some? ==> r.value < |stats| && stats[r.value].itemId == id
    ensures r.None? ==> forall k :: 0 <= k < |stats| ==> stats[k].itemId != id
  {
    if stats == [] then None
    else if stats[|stats| - 1].itemId == id then Some(|stats| - 1)
    else FindStat(stats[..|stats| - 1], id)
  }

  /** The tally after one more line: the dish's entry gains the quantity and the paid
      revenue, or a new entry named after the line is appended. */
  function Record(stats: seq<DishStat>, s: Sale): (r: seq<DishStat>)
    ensures |stats| <= |r| <= |stats| + 1
    ensures DistinctKeys(stats, StatId) ==> DistinctKeys(r, StatId)
  {
    RecordKeys(stats, s);
    match FindStat(stats, s.line.itemId)
    case None => stats + [DishStat(s.line.itemId, s.line.name, s.line.quantity, SaleRevenue(s))]
    case Some(k) =>
      stats[k := stats[k].(count := stats[k].count + s.line.quantity,
                           revenue := stats[k].revenue + SaleRevenue(s))]
  }

  /** Recording a line keeps one entry per dish: an entry is appended only for a dish
      without one. */
  lemma RecordKeys(stats: seq<DishStat>, s: Sale)
    ensures DistinctKeys(stats, StatId) ==>
      match FindStat(stats, s.line.itemId)
      case None => DistinctKeys(stats + [DishStat(s.line.itemId, s.line.name, s.line.quantity, SaleRevenue(s))], StatId)
      case Some(k) => true
  {
    if DistinctKeys(stats, StatId) && FindStat(stats, s.line.itemId).None? {
      DistinctKeysSnoc(stats, DishStat(s.line.itemId, s.line.name, s.line.quantity, SaleRevenue(s)), StatId);
    }
  }

  /** The tally of a sequence of lines, entries in the order their dishes first appear:
      one entry per dish, so never more entries than lines. */
  function Tally(sales: seq<Sale>): (r: seq<DishStat>)
    ensures |r| <= |sales|
    ensures DistinctKeys(r, StatId)
  {
    if sales == [] then [] else Record(Tally(sales[..|sales| - 1]), sales[|sales| - 1])
  }

  /** The reference figures for one dish: quantity sold, revenue from paid lines, whether
      it was sold at all, and the name on its first line. */
  function QtyOf(sales: seq<Sale>, id: nat): int
  {
    if sales == [] then 0
    else QtyOf(sales[..|sales| - 1], id)
         + (if sales[|sales| - 1].line.itemId == id then sales[|sales| - 1].line.quantity else 0)
  }

  function RevenueOf(sales: seq<Sale>, id: nat): int
  {
    if sales == [] then 0
    else RevenueOf(sales[..|sales| - 1], id)
         + (if sales[|sales| - 1].line.itemId == id then SaleRevenue(sales[|sales| - 1]) else 0)
  }

  predicate Sold(sales: seq<Sale>, id: nat)
  {
    sales != [] && (Sold(sales[..|sales| - 1], id) || sales[|sales| - 1].line.itemId == id)
  }

  lemma {:induction false} SoldSomewhere(sales: seq<Sale>, id: nat)
    ensures Sold(sales, id) <==> exists j :: 0 <= j < |sales| && sales[j].line.itemId == id
    decreases |sales|
  {
    if sales != [] {
      var init := sales[..|sales| - 1];
      SoldSomewhere(init, id);
      if exists j :: 0 <= j < |sales| && sales[j].line.itemId == id {
        var j :| 0 <= j < |sales| && sales[j].line.itemId == id;
        if j < |init| {
          assert init[j].line.itemId == id;
        }
      }
      if Sold(init, id) {
        var j :| 0 <= j < |init| && init[j].line.itemId == id;
        assert sales[j].line.itemId == id;
      }
    }
  }

  function FirstName(sales: seq<Sale>, id: nat): string
    requires Sold(sales, id)
  {
    var init := sales[..|sales| - 1];
    if Sold(init, id) then FirstName(init, id) else sales[|sales| - 1].line.name
  }

  /** The tally has an entry for exactly the dishes sold. */
  ghost predicate TallyKeys(t: seq<DishStat>, sales: seq<Sale>)
  {
    forall id: nat :: FindStat(t, id).Some? <==> Sold(sales, id)
  }

  /** Each entry's count is the total quantity of its dish, its revenue the paid revenue of
      its dish, and its name the name on the dish's first line. */
  ghost predicate TallyFigures(t: seq<DishStat>, sales: seq<Sale>)
  {
    forall k :: 0 <= k < |t| ==>
      && Sold(sales, t[k].itemId)
      && t[k].count == QtyOf(sales, t[k].itemId)
      && t[k].revenue == RevenueOf(sales, t[k].itemId)
      && t[k].name == FirstName(sales, t[k].itemId)
  }

  /** What the tally promises: one entry per dish sold, with that dish's figures. */
  ghost predicate TallyOf(t: seq<DishStat>, sales: seq<Sale>)
  {
    DistinctKeys(t, StatId) && TallyKeys(t, sales) && TallyFigures(t, sales)
  }

  lemma {:induction false} UnsoldFigures(sales: seq<Sale>, id: nat)
    requires !Sold(sales, id)
    ensures QtyOf(sales, id) == 0 && RevenueOf(sales, id) == 0
    decreases |sales|
  {
    if sales != [] {
      UnsoldFigures(sales[..|sales| - 1], id);
    }
  }

  /** Recording a line of a dish not yet in the tally appends its entry. */
  lemma RecordNew(t: seq<DishStat>, sales: seq<Sale>)
    requires sales != [] && TallyOf(t, sales[..|sales| - 1])
    requires FindStat(t, sales[|sales| - 1].line.itemId).None?
    ensures TallyOf(Record(t, sales[|sales| - 1]), sales)
  {
    var init, x := sales[..|sales| - 1], sales[|sales| - 1];
    var e := DishStat(x.line.itemId, x.line.name, x.line.quantity, SaleRevenue(x));
    assert Record(t, x) == t + [e];
    DistinctKeysSnoc(t, e, StatId);
    RecordNewKeys(t, init, x, e);
    RecordNewFigures(t, init, x, e);
    assert init + [x] == sales;
  }

  lemma RecordNewKeys(t: seq<DishStat>, init: seq<Sale>, x: Sale, e: DishStat)
    requires TallyKeys(t, init) && e.itemId == x.line.itemId
    ensures TallyKeys(t + [e], init + [x])
  {
    var t' := t + [e];
    assert (init + [x])[..|init + [x]| - 1] == init;
    forall i: nat ensures FindStat(t', i).Some? <==> Sold(init + [x], i) {
      if FindStat(t', i).Some? && i != e.itemId {
        var k := FindStat(t', i).value;
        assert t[k].itemId == i;
      }
      if Sold(init, i) {
        var k := FindStat(t, i).value;
        assert t'[k].itemId == i;
      }
    }
  }

  lemma RecordNewFigures(t: seq<DishStat>, init: seq<Sale>, x: Sale, e: DishStat)
    requires TallyKeys(t, init) && TallyFigures(t, init)
    requires FindStat(t, x.line.itemId).None?
    requires e == DishStat(x.line.itemId, x.line.name, x.line.quantity, SaleRevenue(x))
    ensures TallyFigures(t + [e], init + [x])
  {
    var t', sales := t + [e], init + [x];
    assert sales[..|sales| - 1] == init;
    assert !Sold(init, e.itemId);
    UnsoldFigures(init, e.itemId);
    forall k | 0 <= k < |t'|
      ensures && Sold(sales, t'[k].itemId)
              && t'[k].count == QtyOf(sales, t'[k].itemId)
              && t'[k].revenue == RevenueOf(sales, t'[k].itemId)
              && t'[k].name == FirstName(sales, t'[k].itemId)
    {
      if k < |t| {
        assert t'[k] == t[k] && t[k].itemId != e.itemId;
      }
    }
  }

  /** Recording a line of a dish already in the tally updates that entry alone. */
  lemma RecordExisting(t: seq<DishStat>, sales: seq<Sale>)
    requires sales != [] && TallyOf(t, sales[..|sales| - 1])
    requires FindStat(t, sales[|sales| - 1].line.itemId).Some?
    ensures TallyOf(Record(t, sales[|sales| - 1]), sales)
  {
    var init, x := sales[..|sales| - 1], sales[|sales| - 1];
    var m := FindStat(t, x.line.itemId).value;
    var t' := Record(t, x);
    assert |t'| == |t| && forall k :: 0 <= k < |t| ==> t'[k].itemId == t[k].itemId;
    assert DistinctKeys(t', StatId) by {
      forall i, j | 0 <= i < j < |t'| ensures StatId(t'[i]) != StatId(t'[j]) {
        assert StatId(t[i]) != StatId(t[j]);
      }
    }
    RecordExistingKeys(t, t', sales);
    forall k | 0 <= k < |t'|
      ensures && Sold(sales, t'[k].itemId)
              && t'[k].count == QtyOf(sales, t'[k].itemId)
              && t'[k].revenue == RevenueOf(sales, t'[k].itemId)
              && t'[k].name == FirstName(sales, t'[k].itemId)
    {
      if k != m {
        assert t'[k] == t[k] && t[k].itemId != x.line.itemId;
      }
    }
  }

  lemma RecordExistingKeys(t: seq<DishStat>, t': seq<DishStat>, sales: seq<Sale>)
    requires sales != [] && TallyKeys(t, sales[..|sales| - 1])
    requires Sold(sales[..|sales| - 1], sales[|sales| - 1].line.itemId)
    requires |t'| == |t| && forall k :: 0 <= k < |t| ==> t'[k].itemId == t[k].itemId
    ensures TallyKeys(t', sales)
  {
    var init := sales[..|sales| - 1];
    forall i: nat ensures FindStat(t', i).Some? <==> Sold(sales, i) {
      if FindStat(t', i).Some? {
        assert t[FindStat(t', i).value].itemId == i;
      }
      if Sold(init, i) {
        var k := FindStat(t, i).value;
        assert t'[k].itemId == i;
      }
    }
  }

  lemma {:induction false} TallyCorrect(sales: seq<Sale>)
    ensures TallyOf(Tally(sales), sales)
    decreases |sales|
  {
    if sales != [] {
      TallyCorrect(sales[..|sales| - 1]);
      var t := Tally(sales[..|sales| - 1]);
      if FindStat(t, sales[|sales| - 1].line.itemId).None? {
        RecordNew(t, sales);
      } else {
        RecordExisting(t, sales);
      }
    }
  }

  lemma TallySnoc(a: seq<Sale>, x: Sale)
    ensures Tally(a + [x]) == Record(Tally(a), x)
  {
    assert (a + [x])[..|a + [x]| - 1] == a;
  }

  lemma TallyStep(done: seq<Sale>, sales: seq<Sale>, j: nat)
    requires j < |sales|
    ensures Tally(done + sales[..j + 1]) == Record(Tally(done + sales[..j]), sales[j])
  {
    assert done + sales[..j + 1] == (done + sales[..j]) + [sales[j]];
    TallySnoc(done + sales[..j], sales[j]);
  }

  lemma SalesSnoc(orders: seq<Order>, i: nat)
    requires i < |orders|
    ensures Sales(orders[..i + 1]) == Sales(orders[..i]) + OrderSales(orders[i])
  {
    assert orders[..i + 1][..i] == orders[..i];
  }

  /** One step of the tally loop: the line's dish entry is created at zero when missing,
      then gains the quantity, and the revenue when the order is paid. */
  method CountLine(stats: seq<DishStat>, item: OrderItem, paid: bool) returns (r: seq<DishStat>)
    ensures r == Record(stats, Sale(item, paid))
  {
    r := stats;
    var k := FindStat(r, item.itemId);
    if k.None? {
      r := r + [DishStat(item.itemId, item.name, 0, 0)];
      k := Some(|r| - 1);
    }
    r := r[k.value := r[k.value].(count := r[k.value].count + item.quantity)];
    if paid {
      r := r[k.value := r[k.value].(revenue := r[k.value].revenue + item.price * item.quantity)];
    }
  }

  /** The tally loop: for each order of the day and each of its lines, the dish's entry
      is created at zero when missing, then gains the quantity, and the paid revenue
      when the order is paid. */
  method TallyDishes(orders: seq<Order>) returns (stats: seq<DishStat>)
    ensures stats == Tally(Sales(orders))
    ensures TallyOf(stats, Sales(orders))
  {
    stats := [];
    for i := 0 to |orders|
      invariant stats == Tally(Sales(orders[..i]))
    {
      var order := orders[i];
      var sales := OrderSales(order);
      ghost var done := Sales(orders[..i]);
      assert done + sales[..0] == done;
      for j := 0 to |order.items|
        invariant stats == Tally(done + sales[..j])
      {
        TallyStep(done, sales, j);
        stats := CountLine(stats, order.items[j], order.paymentStatus);
      }
      assert sales[..|order.items|] == sales;
      SalesSnoc(orders, i);
    }
    assert orders[..|orders|] == orders;
    TallyCorrect(Sales(orders));
  }

  const TopDishLimit: nat := 10

  function CountGe(a: DishStat, b: DishStat): bool { a.count >= b.count }

  /** The dishes by quantity sold, largest first, at most ten, each an entry of the tally. */
  function TopDishes(stats: seq<DishStat>): (r: seq<DishStat>)
    ensures |r| <= TopDishLimit
    ensures forall x :: x in r ==> x in stats
    ensures forall i, j :: 0 <= i < j < |r| ==> r[i].count >= r[j].count
  {
    var sorted := Sort(stats, CountGe);
    CountGeTotalPreorder();
    SortSorted(stats, CountGe);
    TopEntries(stats, sorted, TopDishLimit);
    assert forall i, j :: 0 <= i < j < |Take(sorted, TopDishLimit)| ==> CountGe(sorted[i], sorted[j]);
    Take(sorted, TopDishLimit)
  }

  lemma CountGeTotalPreorder()
    ensures TotalPreorder(CountGe)
  {
  }

  /** The first entries of a rearrangement sorted by count are entries of the tally, and
      an entry is left out only when the page is full of entries that sold at least as much. */
  lemma TopEntries(stats: seq<DishStat>, sorted: seq<DishStat>, n: nat)
    requires multiset(sorted) == multiset(stats) && SortedBy(sorted, CountGe) && n > 0
    ensures var r := Take(sorted, n);
      && (forall x :: x in r ==> x in stats)
      && (forall x :: x in stats && x !in r ==> |r| == n && x.count <= r[n - 1].count)
  {
    var r := Take(sorted, n);
    forall x | x in r ensures x in stats {
      assert x in multiset(sorted);
    }
    forall x | x in stats && x !in r ensures |r| == n && x.count <= r[n - 1].count {
      assert x in multiset(sorted);
      var k :| 0 <= k < |sorted| && sorted[k] == x;
      assert k >= |r|;
      assert CountGe(sorted[n - 1], sorted[k]);
    }
  }

  /** With one tally entry per dish, the top dishes hold one entry per dish, and an
      entry is left out only when ten entries sold at least as much. */
  lemma TopDishesProperties(stats: seq<DishStat>)
    requires DistinctKeys(stats, StatId)
    ensures var r := TopDishes(stats);
      && DistinctKeys(r, StatId)
      && (forall x :: x in stats && x !in r ==> |r| == TopDishLimit && x.count <= r[TopDishLimit - 1].count)
  {
    var sorted := Sort(stats, CountGe);
    CountGeTotalPreorder();
    SortSorted(stats, CountGe);
    DistinctKeysPermutation(sorted, stats, StatId);
    TopEntries(stats, sorted, TopDishLimit);
  }

  // ---------------------------------------------------------------------------
  // Monthly figures

  /** The paid orders placed for a day of `day`'s calendar month, first to last day. */
  function MonthlyOrders(orders: seq<Order>, day: Day): (r: seq<Order>)
    ensures forall o :: o in r <==> o in orders && o.paymentStatus && MonthOf(o.orderDate) == MonthOf(day)
  {
    var inMonth := (o: Order) => o.paymentStatus && MonthOf(o.orderDate) == MonthOf(day);
    FilterMembers(orders, inMonth);
    Filter(orders, inMonth)
  }

  datatype MonthlyFigures = MonthlyFigures(month: YearMonth, totalRevenue: int, orderCount: nat)

  function Monthly(orders: seq<Order>, day: Day): (m: MonthlyFigures)
    ensures m.month == MonthOf(day) && m.orderCount == |MonthlyOrders(orders, day)|
    ensures m.totalRevenue == Sum(MonthlyOrders(orders, day), TotalOf)
  {
    var monthly := MonthlyOrders(orders, day);
    MonthlyFigures(MonthOf(day), Sum(monthly, TotalOf), |monthly|)
  }

  /** The day's paid orders and revenue are part of its month's. */
  lemma DailyWithinMonth(orders: seq<Order>, day: Day)
    requires forall o :: o in orders ==> o.totalAmount >= 0
    ensures Daily(orders, day).paidOrders <= Monthly(orders, day).orderCount
    ensures Daily(orders, day).totalRevenue <= Monthly(orders, day).totalRevenue
  {
    var onDay := OnDay(day);
    var paidOnDay := (o: Order) => o.orderDate == day && o.paymentStatus;
    var inMonth := (o: Order) => o.paymentStatus && MonthOf(o.orderDate) == MonthOf(day);
    FilterFilter(orders, onDay, IsPaid, paidOnDay);
    FilterMonotone(orders, paidOnDay, inMonth, TotalOf);
    PaidRevenueMasked(DailyOrders(orders, day));
  }

  /** The month runs to its last day: an order paid for 1970-01-31 (day 30) counts in
      the figures for January 1970. */
  lemma MonthIncludesLastDay(o: Order)
    requires o.paymentStatus && o.orderDate == 30
    ensures o in MonthlyOrders([o], 0)
  {
    MonthOfJanuaryEnd();
    assert MonthOf(0) == YearMonth(1970, 1) by {
      assert 719468 / 146097 == 4;
      assert (135080 - 135080 / 1460 + 135080 / 36524 - 135080 / 146096) / 365 == 369;
      assert 135080 - (365 * 369 + 369 / 4 - 369 / 100) == 306;
      assert (5 * 306 + 2) / 153 == 10;
    }
  }

  // ---------------------------------------------------------------------------
  // The dashboard

  datatype DashboardView = DashboardView(daily: DailyFigures, topDishes: seq<DishStat>, monthly: MonthlyFigures)

  /** The dashboard for the day of `date`, or of now when no date is given. */
  method Dashboard(db: Db, date: Option<Instant>, now: Instant) returns (v: DashboardView)
    ensures var day := DayOf(if date.Some? then date.value else now);
      && v.daily == Daily(db.orders, day)
      && v.topDishes == TopDishes(Tally(Sales(DailyOrders(db.orders, day))))
      && v.monthly == Monthly(db.orders, day)
  {
    var day := DayOf(if date.Some? then date.value else now);
    var daily := DailyOrders(db.orders, day);
    var stats := TallyDishes(daily);
    v := DashboardView(Daily(db.orders, day), TopDishes(stats), Monthly(db.orders, day));
  }

  // ---------------------------------------------------------------------------
  // The order listing

  const ListingLimit: nat := 100

  /** The listing filters: the order day, meal type name, location and status name, each
      only when supplied (an empty string means not supplied). */
  predicate Listed(o: Order, date: Option<Day>, mealType: string, location: string, status: string)
  {
    && (date.Some? ==> o.orderDate == date.value)
    && (mealType != "" ==> MealTypeName(o.mealType) == mealType)
    && (location != "" ==> o.location == location)
    && (status != "" ==> StatusName(o.status) == status)
  }

  /** The order has a line whose veg flag is `veg`. */
  predicate HasLineOfKind(o: Order, veg: bool)
  {
    exists j :: 0 <= j < |o.items| && o.items[j].isVeg == veg
  }

  /** The veg filter: any supplied value keeps the orders with a line whose veg flag is
      whether the value was "true". */
  predicate VegKept(o: Order, isVeg: Option<string>)
  {
    isVeg.None? || HasLineOfKind(o, isVeg.value == "true")
  }

  /** The 100 newest orders passing the store-side filters. */
  function ListingPage(orders: seq<Order>, date: Option<Day>, mealType: string, location: string, status: string): (r: seq<Order>)
    requires OrdersIndexed(orders)
    ensures |r| <= ListingLimit
    ensures forall o :: o in r ==> o in orders && Listed(o, date, mealType, location, status)
    ensures Descending(r, OrderId)
    ensures forall o :: o in orders && Listed(o, date, mealType, location, status) && o !in r ==>
      |r| == ListingLimit && o.id < r[ListingLimit - 1].id
  {
    var p := (o: Order) => Listed(o, date, mealType, location, status);
    assert Ascending(orders, OrderId);
    NewestPage(orders, p, OrderId, ListingLimit);
    Take(NewestFirst(orders, p), ListingLimit)
  }

  /** The listing: the page, then the veg filter applied to the page. */
  function ListOrders(orders: seq<Order>, date: Option<Day>, mealType: string, location: string,
                      isVeg: Option<string>, status: string): (r: seq<Order>)
    requires OrdersIndexed(orders)
    ensures |r| <= ListingLimit
    ensures forall o :: o in r <==> o in ListingPage(orders, date, mealType, location, status) && VegKept(o, isVeg)
    ensures Descending(r, OrderId)
  {
    var page := ListingPage(orders, date, mealType, location, status);
    if isVeg.None? then page
    else
      var p := (o: Order) => HasLineOfKind(o, isVeg.value == "true");
      FilterDescending(page, p, OrderId);
      FilterMembers(page, p);
      Filter(page, p)
  }

  datatype ListingSummary = ListingSummary(totalOrders: nat, totalRevenue: int, packed: nat, paid: nat, delivered: nat)

  function IsPacked(o: Order): bool { o.packed }

  function IsDelivered(o: Order): bool { o.delivered }

  /** The listing's summary: its length, the revenue of its paid orders only, and how
      many of its orders are packed, paid and delivered. */
  function Summarize(orders: seq<Order>): (s: ListingSummary)
    ensures s.totalOrders == |orders|
    ensures s.packed <= s.totalOrders && s.paid <= s.totalOrders && s.delivered <= s.totalOrders
    ensures s.packed == |Positions(orders, IsPacked)|
    ensures s.paid == |Positions(orders, IsPaid)|
    ensures s.delivered == |Positions(orders, IsDelivered)|
    ensures s.totalRevenue == Sum(orders, PaidAmount)
  {
    PaidRevenueMasked(orders);
    CountPositions(orders, IsPacked);
    CountPositions(orders, IsPaid);
    CountPositions(orders, IsDelivered);
    ListingSummary(|orders|, PaidRevenue(orders), Count(orders, IsPacked), Count(orders, IsPaid), Count(orders, IsDelivered))
  }

  function IsUnpaid(o: Order): bool { !o.paymentStatus }

  /** The summary's paid orders and the listing's unpaid orders together make up the listing. */
  lemma SummaryPaidSplit(orders: seq<Order>)
    ensures Summarize(orders).paid + Count(orders, IsUnpaid) == |orders|
  {
    CountPositions(orders, IsPaid);
    FilterSplit(orders, IsPaid, IsUnpaid);
    assert |multiset(Filter(orders, IsPaid))| + |multiset(Filter(orders, IsUnpaid))|
        == |multiset(orders)|;
  }
}
