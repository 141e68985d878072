/** The customer side of the order pipeline: placing an order through its fixed sequence
    of gates, recording a payment, and the current-order and history queries. */
module Ledger {
  import opened Wrappers
  import opened Schema
  import opened Store
  import Query

  /** One requested line as the client sends it. `price` is whatever the client claims;
      the handler never reads it. A missing add-on list arrives as []. */
  datatype RequestLine = RequestLine(itemId: int, name: string, quantity: int, price: int, addOns: seq<AddOn>)

  /** The body of an order request; a missing field arrives as [] or "". */
  datatype OrderRequest = OrderRequest(items: seq<RequestLine>, mealType: string, location: string)

  datatype OrderError =
    | ItemsRequired
    | MealTypeRequired
    | LocationRequired
    | DeadlinePassed
    | MealCapReached
    | ItemUnavailable(name: string)
    | UserNotFound
    | SchemaViolation
    | OrderNotFound

  /** A menu item exists under that identity and is enabled. */
  predicate Available(menu: seq<MenuItem>, id: int)
  {
    0 <= id < |menu| && menu[id].isEnabled
  }

  predicate AllAvailable(menu: seq<MenuItem>, lines: seq<RequestLine>)
  {
    forall j :: 0 <= j < |lines| ==> Available(menu, lines[j].itemId)
  }

  /** The position of the first requested line whose item is missing or disabled. */
  function FirstUnavailable(menu: seq<MenuItem>, lines: seq<RequestLine>): (r: Option<nat>)
    ensures r.Some? ==>
      && r.value < |lines| && !Available(menu, lines[r.value].itemId)
      && forall j :: 0 <= j < r.value ==> Available(menu, lines[j].itemId)
    ensures r.None? <==> AllAvailable(menu, lines)
  {
    if lines == [] then None
    else if !Available(menu, lines[0].itemId) then Some(0)
    else match FirstUnavailable(menu, lines[1..])
      case None => None
      case Some(k) => Some(k + 1)
  }

  /** The stored line for a requested one: identity, name, unit price and veg flag are
      taken from the menu item, quantity and add-ons from the request. */
  function Snapshot(menu: seq<MenuItem>, l: RequestLine): (o: OrderItem)
    requires Available(menu, l.itemId)
  {
    var m := menu[l.itemId];
    OrderItem(m.id, m.name, l.quantity, m.price, m.isVeg, l.addOns)
  }

  /** The stored lines, in request order. */
  function Snapshots(menu: seq<MenuItem>, lines: seq<RequestLine>): (r: seq<OrderItem>)
    requires AllAvailable(menu, lines)
    ensures |r| == |lines|
    ensures forall j :: 0 <= j < |lines| ==>
      && r[j].itemId == menu[lines[j].itemId].id && r[j].name == menu[lines[j].itemId].name
      && r[j].price == menu[lines[j].itemId].price && r[j].isVeg == menu[lines[j].itemId].isVeg
      && r[j].quantity == lines[j].quantity && r[j].addOns == lines[j].addOns
  {
    seq(|lines|, j requires 0 <= j < |lines| => Snapshot(menu, lines[j]))
  }

  /** No requested quantity, add-on price or referenced menu price is negative. */
  predicate NonNegativeRequest(menu: seq<MenuItem>, lines: seq<RequestLine>)
  {
    forall j :: 0 <= j < |lines| ==>
      && lines[j].quantity >= 0 && AddOnsNonNegative(lines[j].addOns)
      && (0 <= lines[j].itemId < |menu| ==> menu[lines[j].itemId].price >= 0)
  }

  /** The server-side price of the requested lines, accumulated line by line: the stored
      unit price times the requested quantity, plus the add-on prices once. It is never
      negative unless the request carries a negative quantity or add-on price. */
  function Price(menu: seq<MenuItem>, lines: seq<RequestLine>): (r: int)
    requires AllAvailable(menu, lines)
    ensures NonNegativeRequest(menu, lines) ==> r >= 0
  {
    if lines == [] then 0
    else
      var last := lines[|lines| - 1];
      Price(menu, lines[..|lines| - 1]) + LineAmount(menu[last.itemId].price, last.quantity, last.addOns)
  }

  /** The total charged is the amount of the stored snapshot lines. */
  lemma {:induction false} PriceIsSnapshotAmount(menu: seq<MenuItem>, lines: seq<RequestLine>)
    requires AllAvailable(menu, lines)
    ensures Price(menu, lines) == ItemsAmount(Snapshots(menu, lines))
    decreases |lines|
  {
    if lines != [] {
      var init := lines[..|lines| - 1];
      PriceIsSnapshotAmount(menu, init);
      assert Snapshots(menu, lines)[..|lines| - 1] == Snapshots(menu, init);
    }
  }

  /** Two requests that differ only in the prices the client claims are priced and
      snapshotted alike. */
  lemma {:induction false} ClientPriceIgnored(menu: seq<MenuItem>, a: seq<RequestLine>, b: seq<RequestLine>)
    requires AllAvailable(menu, a) && |a| == |b|
    requires forall j :: 0 <= j < |a| ==> b[j] == a[j].(price := b[j].price)
    ensures AllAvailable(menu, b)
    ensures Price(menu, a) == Price(menu, b) && Snapshots(menu, a) == Snapshots(menu, b)
    decreases |a|
  {
    if a != [] {
      ClientPriceIgnored(menu, a[..|a| - 1], b[..|b| - 1]);
    }
  }

  /** The category's deadline record exists and its cutoff lies strictly before now. */
  predicate PastDeadline(deadlines: map<string, MealDeadline>, category: string, now: Instant)
  {
    category in deadlines && deadlines[category].deadline < now
  }

  /** Today's counter exists, has a cap that is set and non-zero, and has reached it. */
  predicate CapReached(counters: map<CounterKey, MealCounter>, key: CounterKey)
  {
    && key in counters && counters[key].maxOrders.Some?
    && counters[key].maxOrders.value != 0
    && counters[key].orderCount >= counters[key].maxOrders.value
  }

  /** The name an order is filed under: the user's name, or the phone when the name is unset or empty. */
  function DisplayName(u: User): (n: string)
    ensures u.name.Some? && u.name.value != "" ==> n == u.name.value
    ensures u.name.None? || u.name.value == "" ==> n == u.phone
  {
    if u.name.Some? && u.name.value != "" then u.name.value else u.phone
  }

  /** The request carries items, one of the three meal type names and a location. */
  predicate FieldsPresent(req: OrderRequest)
  {
    req.items != [] && ParseMealType(req.mealType).Some? && req.location != ""
  }

  /** The request passes every gate the handler checks before looking at the menu. */
  predicate GatesPass(deadlines: map<string, MealDeadline>, counters: map<CounterKey, MealCounter>,
                      req: OrderRequest, now: Instant)
  {
    && FieldsPresent(req) && !PastDeadline(deadlines, req.mealType, now)
    && !CapReached(counters, (req.mealType, DayOf(now)))
  }

  /** The first of the later checks an order fails: item availability, the user, and
      the schema minimums of the order about to be stored. */
  function LineRejection(menu: seq<MenuItem>, users: seq<User>, userId: int, lines: seq<RequestLine>): Option<OrderError>
  {
    match FirstUnavailable(menu, lines)
    case Some(k) => Some(ItemUnavailable(lines[k].name))
    case None =>
      if !(0 <= userId < |users|) then Some(UserNotFound)
      else if !OrderWithinSchema(Snapshots(menu, lines), Price(menu, lines)) then Some(SchemaViolation)
      else None
  }

  /** The first check an order request fails, in the handler's order: items, meal type,
      location, deadline, daily cap, item availability (the first unavailable line names
      the error), the user, and the schema minimums of the order about to be stored.
      None means the request passes them all. */
  function Rejection(menu: seq<MenuItem>, deadlines: map<string, MealDeadline>,
                     counters: map<CounterKey, MealCounter>, users: seq<User>,
                     userId: int, req: OrderRequest, now: Instant): (e: Option<OrderError>)
    ensures e == Some(ItemsRequired) <==> req.items == []
    ensures e == Some(MealTypeRequired) <==> req.items != [] && ParseMealType(req.mealType).None?
    ensures e == Some(LocationRequired) <==>
      req.items != [] && ParseMealType(req.mealType).Some? && req.location == ""
    ensures e == Some(DeadlinePassed) <==> FieldsPresent(req) && PastDeadline(deadlines, req.mealType, now)
    ensures e == Some(MealCapReached) <==>
      && FieldsPresent(req) && !PastDeadline(deadlines, req.mealType, now)
      && CapReached(counters, (req.mealType, DayOf(now)))
    ensures e.Some? && e.value.ItemUnavailable? <==>
      GatesPass(deadlines, counters, req, now) && !AllAvailable(menu, req.items)
    ensures GatesPass(deadlines, counters, req, now) && !AllAvailable(menu, req.items) ==>
      e == Some(ItemUnavailable(req.items[FirstUnavailable(menu, req.items).value].name))
    ensures e == Some(UserNotFound) <==>
      GatesPass(deadlines, counters, req, now) && AllAvailable(menu, req.items) && !(0 <= userId < |users|)
    ensures e == Some(SchemaViolation) <==>
      && GatesPass(deadlines, counters, req, now) && AllAvailable(menu, req.items) && 0 <= userId < |users|
      && !OrderWithinSchema(Snapshots(menu, req.items), Price(menu, req.items))
    ensures e.None? <==>
      && GatesPass(deadlines, counters, req, now) && AllAvailable(menu, req.items) && 0 <= userId < |users|
      && OrderWithinSchema(Snapshots(menu, req.items), Price(menu, req.items))
  {
    if |req.items| == 0 then Some(ItemsRequired)
    else if ParseMealType(req.mealType).None? then Some(MealTypeRequired)
    else if req.location == "" then Some(LocationRequired)
    else if PastDeadline(deadlines, req.mealType, now) then Some(DeadlinePassed)
    else if CapReached(counters, (req.mealType, DayOf(now))) then Some(MealCapReached)
    else LineRejection(menu, users, userId, req.items)
  }

  /** The counters after one more order under `key`: a fresh counter at 1 when there was
      none, otherwise the same counter one higher; every other counter is untouched. */
  function Increment(counters: map<CounterKey, MealCounter>, key: CounterKey): (r: map<CounterKey, MealCounter>)
    ensures r.Keys == counters.Keys + {key}
    ensures forall k :: k in counters && k != key ==> r[k] == counters[k]
    ensures key !in counters ==> r[key] == MealCounter(key.0, key.1, 1, None)
    ensures key in counters ==>
      r[key] == counters[key].(orderCount := counters[key].orderCount + 1)
  {
    if key in counters then
      counters[key := counters[key].(orderCount := counters[key].orderCount + 1)]
    else
      counters[key := MealCounter(key.0, key.1, 1, None)]
  }

  /** Counting an order under a real meal category keeps the counters well formed. */
  lemma IncrementWellFormed(counters: map<CounterKey, MealCounter>, key: CounterKey)
    requires CountersWellFormed(counters) && ParseMealType(key.0).Some?
    ensures CountersWellFormed(Increment(counters, key))
  {
  }

  /** Pricing one more requested line extends the total and the snapshot lines. */
  lemma PriceStep(menu: seq<MenuItem>, lines: seq<RequestLine>, i: nat)
    requires i < |lines| && AllAvailable(menu, lines[..i]) && Available(menu, lines[i].itemId)
    ensures AllAvailable(menu, lines[..i + 1])
    ensures Price(menu, lines[..i + 1])
         == Price(menu, lines[..i]) + LineAmount(menu[lines[i].itemId].price, lines[i].quantity, lines[i].addOns)
    ensures Snapshots(menu, lines[..i + 1]) == Snapshots(menu, lines[..i]) + [Snapshot(menu, lines[i])]
  {
    assert lines[..i + 1][..i] == lines[..i];
  }

  /** The first unavailable line is the first line found unavailable after available ones. */
  lemma FirstUnavailableAt(menu: seq<MenuItem>, lines: seq<RequestLine>, i: nat)
    requires i < |lines| && AllAvailable(menu, lines[..i]) && !Available(menu, lines[i].itemId)
    ensures FirstUnavailable(menu, lines) == Some(i)
  {
    assert forall j :: 0 <= j < i ==> lines[..i][j] == lines[j];
    assert !AllAvailable(menu, lines);
  }

  /** The pricing loop: walks the requested lines in order, stopping at the first one
      whose item is missing or disabled; otherwise yields the snapshot lines and the
      accumulated total. */
  method PriceLines(menu: seq<MenuItem>, lines: seq<RequestLine>)
    returns (items: seq<OrderItem>, total: int, missing: Option<nat>)
    ensures missing == FirstUnavailable(menu, lines)
    ensures missing.None? ==> items == Snapshots(menu, lines) && total == Price(menu, lines)
  {
    total, items := 0, [];
    for i := 0 to |lines|
      invariant AllAvailable(menu, lines[..i])
      invariant total == Price(menu, lines[..i])
      invariant items == Snapshots(menu, lines[..i])
    {
      var line := lines[i];
      if !(0 <= line.itemId < |menu|) || !menu[line.itemId].isEnabled {
        FirstUnavailableAt(menu, lines, i);
        return items, total, Some(i);
      }
      var m := menu[line.itemId];
      PriceStep(menu, lines, i);
      total := total + m.price * line.quantity + AddOnsTotal(line.addOns);
      items := items + [OrderItem(m.id, m.name, line.quantity, m.price, m.isVeg, line.addOns)];
    }
    assert lines[..|lines|] == lines;
    missing := None;
  }

  /** Persists an accepted order and counts it: the order is appended, and the counter
      for its meal and day is created at 1 or incremented by exactly 1. */
  method Record(db: Db, order: Order, key: CounterKey)
    requires db.Valid() && order.id == |db.orders| && OrderWellFormed(order) && ParseMealType(key.0).Some?
    modifies db`orders, db`counters
    ensures db.Valid()
    ensures db.orders == old(db.orders) + [order]
    ensures db.counters == Increment(old(db.counters), key)
  {
    OrdersSnoc(db.orders, order);
    db.orders := db.orders + [order];
    if key !in db.counters {
      db.counters := db.counters[key := MealCounter(key.0, key.1, 1, None)];
    } else {
      var c := db.counters[key];
      db.counters := db.counters[key := c.(orderCount := c.orderCount + 1)];
    }
    IncrementWellFormed(old(db.counters), key);
  }

  /** The request gates, checked in order against the stored deadline and today's counter:
      each gate refuses exactly when every earlier gate passed and its own test fails. */
  method CheckGates(db: Db, req: OrderRequest, now: Instant) returns (e: Option<OrderError>)
    ensures e == Some(ItemsRequired) <==> req.items == []
    ensures e == Some(MealTypeRequired) <==> req.items != [] && ParseMealType(req.mealType).None?
    ensures e == Some(LocationRequired) <==>
      req.items != [] && ParseMealType(req.mealType).Some? && req.location == ""
    ensures e == Some(DeadlinePassed) <==> FieldsPresent(req) && PastDeadline(db.deadlines, req.mealType, now)
    ensures e == Some(MealCapReached) <==>
      && FieldsPresent(req) && !PastDeadline(db.deadlines, req.mealType, now)
      && CapReached(db.counters, (req.mealType, DayOf(now)))
    ensures e.None? <==> GatesPass(db.deadlines, db.counters, req, now)
  {
    if |req.items| == 0 {
      return Some(ItemsRequired);
    }
    var meal := ParseMealType(req.mealType);
    if meal.None? {
      return Some(MealTypeRequired);
    }
    if req.location == "" {
      return Some(LocationRequired);
    }
    var deadline := if req.mealType in db.deadlines then Some(db.deadlines[req.mealType]) else None;
    if deadline.Some? && deadline.value.deadline < now {
      return Some(DeadlinePassed);
    }
    var key := (req.mealType, DayOf(now));
    var counter := if key in db.counters then Some(db.counters[key]) else None;
    if counter.Some? && counter.value.maxOrders.Some? && counter.value.maxOrders.value != 0
       && counter.value.orderCount >= counter.value.maxOrders.value {
      return Some(MealCapReached);
    }
    return None;
  }

  /** Places an order: every rejection is the first failing check and leaves the orders
      and the counters as they were; an accepted order is appended as pending for today,
      priced and snapshotted from the menu, and exactly today's counter for its meal
      type goes up by one. */
  method CreateOrder(db: Db, userId: int, req: OrderRequest, now: Instant) returns (r: Result<Order, OrderError>)
    requires db.Valid()
    modifies db`orders, db`counters
    ensures db.Valid()
    ensures r.Err? <==> Rejection(db.menu, db.deadlines, old(db.counters), db.users, userId, req, now).Some?
    ensures r.Err? ==>
      && r.error == Rejection(db.menu, db.deadlines, old(db.counters), db.users, userId, req, now).value
      && db.orders == old(db.orders) && db.counters == old(db.counters)
    ensures r.Ok? ==>
      && AllAvailable(db.menu, req.items) && 0 <= userId < |db.users|
      && r.value == Order(|old(db.orders)|, userId, DisplayName(db.users[userId]), db.users[userId].phone,
                          req.location, Snapshots(db.menu, req.items), ParseMealType(req.mealType).value,
                          DayOf(now), Price(db.menu, req.items), false, None, false, false, DefaultStatus)
      && db.orders == old(db.orders) + [r.value]
      && db.counters == Increment(old(db.counters), (req.mealType, DayOf(now)))
  {
    var gate := CheckGates(db, req, now);
    if gate.Some? {
      return Err(gate.value);
    }
    var items, total, missing := PriceLines(db.menu, req.items);
    if missing.Some? {
      return Err(ItemUnavailable(req.items[missing.value].name));
    }
    if !(0 <= userId < |db.users|) {
      return Err(UserNotFound);
    }
    var user := db.users[userId];
    if !OrderWithinSchema(items, total) {
      return Err(SchemaViolation);
    }
    PriceIsSnapshotAmount(db.menu, req.items);
    var order := Order(|db.orders|, userId, DisplayName(user), user.phone, req.location, items,
                       ParseMealType(req.mealType).value, DayOf(now), total, false, None, false, false, DefaultStatus);
    Record(db, order, (req.mealType, DayOf(now)));
    r := Ok(order);
  }

  // ---------------------------------------------------------------------------
  // Payment

  /** An order after a payment report. The payment flag is the reported one, true when
      none is reported; the payment id is replaced only by a non-empty one; a paid order
      becomes accepted whatever its status was, and an unpaid one keeps its status.
      Nothing else changes. */
  function Pay(o: Order, paymentId: Option<string>, paymentStatus: Option<bool>): (r: Order)
    ensures r.paymentStatus <==> paymentStatus != Some(false)
    ensures paymentId.Some? && paymentId.value != "" ==> r.paymentId == paymentId
    ensures paymentId.None? || paymentId.value == "" ==> r.paymentId == o.paymentId
    ensures r.paymentStatus ==> r.status == Accepted
    ensures !r.paymentStatus ==> r.status == o.status
    ensures r.(paymentStatus := o.paymentStatus, paymentId := o.paymentId, status := o.status) == o
  {
    var paid := if paymentStatus.Some? then paymentStatus.value else true;
    o.(paymentStatus := paid,
       paymentId := if paymentId.Some? && paymentId.value != "" then paymentId else o.paymentId,
       status := if paid then Accepted else o.status)
  }

  /** Reporting the same payment twice has the effect of reporting it once. */
  lemma PayIdempotent(o: Order, paymentId: Option<string>, paymentStatus: Option<bool>)
    ensures Pay(Pay(o, paymentId, paymentStatus), paymentId, paymentStatus) == Pay(o, paymentId, paymentStatus)
  {
  }

  /** A payment keeps an order well formed. */
  lemma PayWellFormed(o: Order, paymentId: Option<string>, paymentStatus: Option<bool>)
    requires OrderWellFormed(o)
    ensures OrderWellFormed(Pay(o, paymentId, paymentStatus)) && Pay(o, paymentId, paymentStatus).id == o.id
  {
  }

  /** The receipt sent to the customer after a successful payment. */
  datatype ReceiptLine = ReceiptLine(name: string, quantity: int, price: int)
  datatype Receipt = Receipt(phone: string, orderId: nat, items: seq<ReceiptLine>, totalAmount: int, orderDate: Day)

  function ReceiptOf(o: Order): (r: Receipt)
    ensures r.phone == o.userPhone && r.orderId == o.id && r.totalAmount == o.totalAmount
    ensures r.orderDate == o.orderDate
    ensures |r.items| == |o.items|
    ensures forall j :: 0 <= j < |o.items| ==>
      r.items[j] == ReceiptLine(o.items[j].name, o.items[j].quantity, o.items[j].price)
  {
    Receipt(o.userPhone, o.id,
            seq(|o.items|, j requires 0 <= j < |o.items| =>
              ReceiptLine(o.items[j].name, o.items[j].quantity, o.items[j].price)),
            o.totalAmount, o.orderDate)
  }

  /** The order exists and belongs to the caller. */
  predicate OwnedBy(orders: seq<Order>, orderId: int, userId: int)
  {
    0 <= orderId < |orders| && orders[orderId].user == userId
  }

  /** Records a payment on one of the caller's orders and yields the receipt to send
      when the order ends up paid; an order that does not exist or belongs to another
      user is reported as not found and nothing changes. */
  method UpdatePayment(db: Db, orderId: int, userId: int, paymentId: Option<string>, paymentStatus: Option<bool>)
    returns (r: Result<Order, OrderError>, receipt: Option<Receipt>)
    requires db.Valid()
    modifies db`orders
    ensures db.Valid()
    ensures !OwnedBy(old(db.orders), orderId, userId) ==>
      r == Err(OrderNotFound) && receipt == None && db.orders == old(db.orders)
    ensures OwnedBy(old(db.orders), orderId, userId) ==>
      && r == Ok(Pay(old(db.orders)[orderId], paymentId, paymentStatus))
      && db.orders == old(db.orders)[orderId := r.value]
      && receipt == (if r.value.paymentStatus then Some(ReceiptOf(r.value)) else None)
  {
    if !(0 <= orderId < |db.orders|) || db.orders[orderId].user != userId {
      return Err(OrderNotFound), None;
    }
    var order := db.orders[orderId];
    order := order.(paymentStatus := if paymentStatus.Some? then paymentStatus.value else true);
    if paymentId.Some? && paymentId.value != "" {
      order := order.(paymentId := paymentId);
    }
    if order.paymentStatus {
      order := order.(status := Accepted);
    }
    PayWellFormed(db.orders[orderId], paymentId, paymentStatus);
    OrdersReplace(db.orders, orderId, order);
    db.orders := db.orders[orderId := order];
    r := Ok(order);
    receipt := if order.paymentStatus then Some(ReceiptOf(order)) else None;
  }

  // ---------------------------------------------------------------------------
  // Queries

  /** Orders kept in creation order have increasing identities. */
  lemma IndexedAscending(orders: seq<Order>)
    requires OrdersIndexed(orders)
    ensures Query.Ascending(orders, OrderId)
  {
  }

  /** An order of the user placed for today or later that is not delivered; a cancelled
      order still qualifies. */
  predicate IsCurrent(o: Order, userId: int, today: Day)
  {
    o.user == userId && o.orderDate >= today && o.status != Delivered
  }

  /** The newest current order of the user, or None when there is none. */
  function CurrentOrder(orders: seq<Order>, userId: int, today: Day): (r: Option<Order>)
    requires OrdersIndexed(orders)
    ensures r.Some? ==> r.value in orders && IsCurrent(r.value, userId, today)
    ensures r.Some? ==> forall o :: o in orders && IsCurrent(o, userId, today) ==> o.id <= r.value.id
    ensures r.None? ==> forall o :: o in orders ==> !IsCurrent(o, userId, today)
  {
    var p := (o: Order) => IsCurrent(o, userId, today);
    var m := Query.NewestFirst(orders, p);
    IndexedAscending(orders);
    Query.NewestFirstDescends(orders, p, OrderId);
    if m == [] then None
    else
      assert forall o :: o in m ==> o.id <= m[0].id by {
        forall o | o in m ensures o.id <= m[0].id {
          var k :| 0 <= k < |m| && m[k] == o;
          assert k == 0 || OrderId(m[0]) > OrderId(m[k]);
        }
      }
      Some(m[0])
  }

  const HistoryLimit: nat := 50

  /** The history filters: the user always; the order day, the meal type name and the
      status name only when supplied (an empty string means not supplied). */
  predicate InHistory(o: Order, userId: int, date: Option<Day>, mealType: string, status: string)
  {
    && o.user == userId
    && (date.Some? ==> o.orderDate == date.value)
    && (mealType != "" ==> MealTypeName(o.mealType) == mealType)
    && (status != "" ==> StatusName(o.status) == status)
  }

  /** At most 50 of the user's matching orders, newest first; a match is missing only
      when the page is full and it is older than the whole page. */
  function History(orders: seq<Order>, userId: int, date: Option<Day>, mealType: string, status: string): (r: seq<Order>)
    requires OrdersIndexed(orders)
    ensures |r| <= HistoryLimit
    ensures forall o :: o in r ==> o in orders && InHistory(o, userId, date, mealType, status)
    ensures Query.Descending(r, OrderId)
    ensures forall o :: o in orders && InHistory(o, userId, date, mealType, status) && o !in r ==>
      |r| == HistoryLimit && o.id < r[HistoryLimit - 1].id
  {
    var p := (o: Order) => InHistory(o, userId, date, mealType, status);
    IndexedAscending(orders);
    Query.NewestPage(orders, p, OrderId, HistoryLimit);
    Query.Take(Query.NewestFirst(orders, p), HistoryLimit)
  }

  /** A filter left out never narrows the history: without date, meal type or status,
      every order of the user qualifies. */
  lemma HistoryUnfiltered(o: Order, userId: int)
    ensures InHistory(o, userId, None, "", "") <==> o.user == userId
  {
  }
}
