/** The document shapes of the store: menu items, meal deadlines, meal counters, orders,
    locations and users, with the enumerations, defaults and minimums their schemas declare,
    and the calendar the order pipeline runs on. */
module Schema {
  import opened Wrappers

  /** An instant, in milliseconds since the epoch. */
  type Instant = int

  /** A calendar day, counted from the epoch day (1970-01-01 is day 0). */
  type Day = int

  const MillisPerDay: int := 86400000

  /** The day an instant falls on, that is, the instant truncated to midnight. */
  function DayOf(t: Instant): (d: Day)
    ensures MillisPerDay * d <= t < MillisPerDay * (d + 1)
  {
    t / MillisPerDay
  }

  datatype YearMonth = YearMonth(year: int, month: int)

  /** The year of era of a day of a 400-year era: the day count with the leap days taken
      out, in whole 365-day years. */
  function YearOfEra(doe: int): int
  {
    (doe - doe / 1460 + doe / 36524 - doe / 146096) / 365
  }

  /** The day of the year, counted from 1 March. */
  function DayOfYear(doe: int): int
  {
    var yoe := YearOfEra(doe);
    doe - (365 * yoe + yoe / 4 - yoe / 100)
  }

  /** The proleptic Gregorian year and month of a day, by the civil-from-days conversion
      of era, day of era, year of era and day of year; the month is always 1 to 12. */
  function MonthOf(d: Day): (r: YearMonth)
    ensures 1 <= r.month <= 12
  {
    var z := d + 719468;
    var era := z / 146097;
    var doe := z - era * 146097;
    var yoe := YearOfEra(doe);
    var doy := DayOfYear(doe);
    DayOfYearBounds(doe);
    var mp := (5 * doy + 2) / 153;
    var m := if mp < 10 then mp + 3 else mp - 9;
    YearMonth(yoe + era * 400 + (if m <= 2 then 1 else 0), m)
  }

  /** Every day of an era falls on day 0 to 365 of its year: a century holds 36524 days
      (the last of an era one more), a four-year cycle 1461, a year 365. */
  lemma DayOfYearBounds(doe: int)
    requires 0 <= doe < 146097
    ensures 0 <= DayOfYear(doe) <= 365
  {
    if doe == 146096 {
      assert YearOfEra(doe) == 399;
    } else {
      var k, rest := doe / 36524, doe % 36524;
      var q, t := rest / 1461, rest % 1461;
      assert 0 <= k <= 3 && 0 <= q <= 24 && 0 <= t <= 1460;
      var delta := (24 * k + q + t) / 1460;
      assert 0 <= delta <= 1 && (t == 0 ==> delta == 0) && (t == 1460 ==> delta == 1);
      assert doe == 1460 * (25 * k + q) + (24 * k + q + t);
      assert doe / 1460 == 25 * k + q + delta;
      assert doe / 36524 == k && doe / 146096 == 0;
      var y := (t - delta) / 365;
      assert 0 <= y <= 3;
      assert doe - doe / 1460 + doe / 36524 - doe / 146096 == 365 * (100 * k + 4 * q + y) + (t - delta) % 365;
      assert YearOfEra(doe) == 100 * k + 4 * q + y;
      assert YearOfEra(doe) / 4 == 25 * k + q && YearOfEra(doe) / 100 == k;
      assert DayOfYear(doe) == t - 365 * y;
    }
  }

  /** The calendar repeats every 400 years, which hold exactly 146097 days. */
  lemma MonthOfEraShift(d: Day)
    ensures MonthOf(d + 146097) == YearMonth(MonthOf(d).year + 400, MonthOf(d).month)
  {
    var z := d + 719468;
    var era := z / 146097;
    assert (z + 146097) / 146097 == era + 1;
    assert (z + 146097) - (era + 1) * 146097 == z - era * 146097;
  }

  /** The last day of a month lies in that month and the next day does not: day 30 is
      1970-01-31 and day 31 is 1970-02-01. */
  lemma MonthOfJanuaryEnd()
    ensures MonthOf(30) == YearMonth(1970, 1) && MonthOf(31) == YearMonth(1970, 2)
  {
    assert 719498 / 146097 == 4 && 719499 / 146097 == 4;
    assert (135110 - 135110 / 1460 + 135110 / 36524 - 135110 / 146096) / 365 == 369;
    assert (135111 - 135111 / 1460 + 135111 / 36524 - 135111 / 146096) / 365 == 369;
    assert 135110 - (365 * 369 + 369 / 4 - 369 / 100) == 336;
    assert 135111 - (365 * 369 + 369 / 4 - 369 / 100) == 337;
    assert (5 * 336 + 2) / 153 == 10 && (5 * 337 + 2) / 153 == 11;
  }

  /** A leap day belongs to February: day 19782 is 2024-02-29 and day 19783 is 2024-03-01. */
  lemma MonthOfLeapDay()
    ensures MonthOf(19782) == YearMonth(2024, 2) && MonthOf(19783) == YearMonth(2024, 3)
  {
    assert 739250 / 146097 == 5 && 739251 / 146097 == 5;
    assert (8765 - 8765 / 1460 + 8765 / 36524 - 8765 / 146096) / 365 == 23;
    assert (8766 - 8766 / 1460 + 8766 / 36524 - 8766 / 146096) / 365 == 24;
    assert 8765 - (365 * 23 + 23 / 4 - 23 / 100) == 365;
    assert 8766 - (365 * 24 + 24 / 4 - 24 / 100) == 0;
    assert (5 * 365 + 2) / 153 == 11 && (5 * 0 + 2) / 153 == 0;
  }

  // ---------------------------------------------------------------------------
  // Meal types and order statuses

  /** The three meal categories: "lunch", "dinner" and "dinner-meals". */
  datatype MealType = Lunch | Dinner | DinnerMeals

  function MealTypeName(m: MealType): string
  {
    match m
    case Lunch => "lunch"
    case Dinner => "dinner"
    case DinnerMeals => "dinner-meals"
  }

  /** The enumeration check for a meal type: succeeds exactly on the three names. */
  function ParseMealType(s: string): (r: Option<MealType>)
    ensures r.Some? ==> MealTypeName(r.value) == s
    ensures r.None? ==> forall m :: MealTypeName(m) != s
  {
    if s == "lunch" then Some(Lunch)
    else if s == "dinner" then Some(Dinner)
    else if s == "dinner-meals" then Some(DinnerMeals)
    else None
  }

  lemma ParseMealTypeOfName(m: MealType)
    ensures ParseMealType(MealTypeName(m)) == Some(m)
  {
  }

  /** The order lifecycle states. */
  datatype Status = Pending | Accepted | Packed | InTransit | Delivered | Cancelled

  const DefaultStatus: Status := Pending

  function StatusName(s: Status): string
  {
    match s
    case Pending => "pending"
    case Accepted => "accepted"
    case Packed => "packed"
    case InTransit => "in-transit"
    case Delivered => "delivered"
    case Cancelled => "cancelled"
  }

  /** The enumeration check for a status: succeeds exactly on the six names. */
  function ParseStatus(s: string): (r: Option<Status>)
    ensures r.Some? ==> StatusName(r.value) == s
    ensures r.None? ==> forall st :: StatusName(st) != s
  {
    if s == "pending" then Some(Pending)
    else if s == "accepted" then Some(Accepted)
    else if s == "packed" then Some(Packed)
    else if s == "in-transit" then Some(InTransit)
    else if s == "delivered" then Some(Delivered)
    else if s == "cancelled" then Some(Cancelled)
    else None
  }

  lemma ParseStatusOfName(s: Status)
    ensures ParseStatus(StatusName(s)) == Some(s)
  {
  }

  // ---------------------------------------------------------------------------
  // Prices of order lines

  /** An extra chosen with an item; its price comes from the client as it is. */
  datatype AddOn = AddOn(name: string, price: int)

  /** Every add-on price is at least zero. */
  predicate AddOnsNonNegative(a: seq<AddOn>)
  {
    forall i :: 0 <= i < |a| ==> a[i].price >= 0
  }

  /** The sum of the add-on prices, added left to right; never negative when no price is. */
  function AddOnsTotal(a: seq<AddOn>): (t: int)
    ensures AddOnsNonNegative(a) ==> t >= 0
  {
    if a == [] then 0 else AddOnsTotal(a[..|a| - 1]) + a[|a| - 1].price
  }

  lemma {:induction false} AddOnsTotalAppend(a: seq<AddOn>, b: seq<AddOn>)
    ensures AddOnsTotal(a + b) == AddOnsTotal(a) + AddOnsTotal(b)
    decreases |b|
  {
    if b == [] {
      assert a + b == a;
    } else {
      assert (a + b)[..|a + b| - 1] == a + b[..|b| - 1];
      AddOnsTotalAppend(a, b[..|b| - 1]);
    }
  }

  /** The amount of one line: the unit price times the quantity, plus each add-on price
      once (add-ons are not multiplied by the quantity). */
  function LineAmount(price: int, quantity: int, addOns: seq<AddOn>): (r: int)
    ensures price >= 0 && quantity >= 0 && AddOnsNonNegative(addOns) ==> r >= 0
  {
    price * quantity + AddOnsTotal(addOns)
  }

  // ---------------------------------------------------------------------------
  // Orders

  /** One stored order line: a snapshot of the menu item taken when the order was placed. */
  datatype OrderItem = OrderItem(
    itemId: nat, name: string, quantity: int, price: int, isVeg: bool, addOns: seq<AddOn>)

  /** The amount of the stored lines, summed left to right. */
  function ItemsAmount(items: seq<OrderItem>): int
  {
    if items == [] then 0
    else
      var last := items[|items| - 1];
      ItemsAmount(items[..|items| - 1]) + LineAmount(last.price, last.quantity, last.addOns)
  }

  /** An order. `id` is its position in the store, which is also its creation order;
      `orderDate` is the day it was placed for, distinct from its creation instant. */
  datatype Order = Order(
    id: nat,
    user: int,
    userName: string,
    userPhone: string,
    location: string,
    items: seq<OrderItem>,
    mealType: MealType,
    orderDate: Day,
    totalAmount: int,
    paymentStatus: bool,
    paymentId: Option<string>,
    packed: bool,
    delivered: bool,
    status: Status)

  /** The schema minimums: every line has quantity at least 1 and the total is not negative. */
  predicate OrderWithinSchema(items: seq<OrderItem>, totalAmount: int)
  {
    (forall i :: 0 <= i < |items| ==> items[i].quantity >= 1) && totalAmount >= 0
  }

  // ---------------------------------------------------------------------------
  // Meal counters

  /** A counter is identified by its category and day; the document store keeps at most
      one counter per pair (a unique compound index). */
  type CounterKey = (string, Day)

  /** The per-category, per-day order count with an optional cap. */
  datatype MealCounter = MealCounter(category: string, date: Day, orderCount: int, maxOrders: Option<int>)

  /** The schema minimums: the count is not negative, and a cap, when set, is at least 1. */
  predicate CounterWithinSchema(c: MealCounter)
  {
    c.orderCount >= 0 && (c.maxOrders.Some? ==> c.maxOrders.value >= 1)
  }

  // ---------------------------------------------------------------------------
  // Menu items and deadlines

  /** A dish. `id` is its position in the store, which is also its creation order. */
  datatype MenuItem = MenuItem(
    id: nat,
    name: string,
    description: string,
    image: string,
    category: MealType,
    isVeg: bool,
    price: int,
    subItems: seq<string>,
    isEnabled: bool)

  /** The single deadline slot of a category: the cutoff instant, the instant it was set
      and whether the meal is live. */
  datatype MealDeadline = MealDeadline(category: string, deadline: Instant, date: Instant, isLive: bool)

  // ---------------------------------------------------------------------------
  // Locations and users

  datatype Location = Location(id: nat, name: string, address: Option<string>, isActive: bool)

  /** The two roles: an ordinary customer ("user") and an administrator ("admin"). */
  datatype Role = Customer | Admin

  /** A user, identified by phone; `otp` and `otpExpires` hold the pending one-time code. */
  datatype User = User(
    id: nat,
    phone: string,
    name: Option<string>,
    location: Option<string>,
    role: Role,
    isVerified: bool,
    otp: Option<string>,
    otpExpires: Option<Instant>)
}
