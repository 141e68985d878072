/** The administrator's mutations: creating and toggling menu items, setting a meal's
    deadline, updating an order's fulfilment fields, and capping a meal's daily orders. */
module Admin {
  import opened Wrappers
  import opened Schema
  import opened Store
  import Text
  import Ledger

  datatype AdminError =
    | FieldsRequired   // a required request field is missing or falsy
    | ValidationFailed // the document store's schema refuses the document
    | NotFound

  // ---------------------------------------------------------------------------
  // Menu items

  /** The body of a create-menu-item request; a missing text field arrives as "". */
  datatype MenuForm = MenuForm(
    name: string,
    description: string,
    image: string,
    category: string,
    isVeg: Option<bool>,
    price: Option<int>,
    subItems: Option<seq<string>>)

  /** The handler's own check: every text field non-empty, isVeg present, price present
      and non-zero. A price of 0 is refused like a missing one. */
  predicate FormComplete(f: MenuForm)
  {
    && f.name != "" && f.description != "" && f.image != "" && f.category != ""
    && f.isVeg.Some? && f.price.Some? && f.price.value != 0
  }

  /** The schema's checks on the document built from a complete form: a known category,
      a non-negative price, and a name that is not empty once trimmed. */
  predicate FormValid(f: MenuForm)
  {
    ParseMealType(f.category).Some? && f.price.Some? && f.price.value >= 0 && Text.Trim(f.name) != ""
  }

  /** The menu item a create request yields under identity `id`, or the error it is refused with. */
  function NewMenuItem(id: nat, f: MenuForm): (r: Result<MenuItem, AdminError>)
    ensures r == Err(FieldsRequired) <==> !FormComplete(f)
    ensures r == Err(ValidationFailed) <==> FormComplete(f) && !FormValid(f)
    ensures r.Ok? ==>
      && r.value.id == id && r.value.price > 0
      && r.value.name == Text.Trim(f.name) && r.value.name != ""
      && MealTypeName(r.value.category) == f.category
      && r.value.description == f.description && r.value.image == f.image
      && Some(r.value.isVeg) == f.isVeg && Some(r.value.price) == f.price
      && r.value.subItems == (if f.subItems.Some? then f.subItems.value else [])
      && r.value.isEnabled
  {
    if !FormComplete(f) then Err(FieldsRequired)
    else if !FormValid(f) then Err(ValidationFailed)
    else
      Ok(MenuItem(id, Text.Trim(f.name), f.description, f.image, ParseMealType(f.category).value,
                  f.isVeg.value, f.price.value,
                  if f.subItems.Some? then f.subItems.value else [], true))
  }

  /** A form without sub-items stores an empty sub-item list. */
  lemma SubItemsDefault(id: nat, f: MenuForm)
    requires FormComplete(f) && FormValid(f) && f.subItems.None?
    ensures NewMenuItem(id, f).Ok? && NewMenuItem(id, f).value.subItems == []
  {
  }

  /** Creates a menu item: a refused form changes nothing, an accepted one is appended. */
  method CreateMenuItem(db: Db, f: MenuForm) returns (r: Result<MenuItem, AdminError>)
    requires db.Valid()
    modifies db`menu
    ensures db.Valid()
    ensures r == NewMenuItem(|old(db.menu)|, f)
    ensures r.Err? ==> db.menu == old(db.menu)
    ensures r.Ok? ==> db.menu == old(db.menu) + [r.value]
  {
    if f.name == "" || f.description == "" || f.image == "" || f.category == ""
       || f.isVeg.None? || f.price.None? || f.price.value == 0 {
      return Err(FieldsRequired);
    }
    var category := ParseMealType(f.category);
    var name := Text.Trim(f.name);
    if category.None? || f.price.value < 0 || name == "" {
      return Err(ValidationFailed);
    }
    var item := MenuItem(|db.menu|, name, f.description, f.image, category.value, f.isVeg.value,
                         f.price.value, if f.subItems.Some? then f.subItems.value else [], true);
    db.menu := db.menu + [item];
    r := Ok(item);
  }

  /** A menu item with its enabled flag flipped and nothing else changed. */
  function ToggleEnabled(m: MenuItem): (r: MenuItem)
    ensures r.isEnabled == !m.isEnabled
    ensures r.(isEnabled := m.isEnabled) == m
  {
    m.(isEnabled := !m.isEnabled)
  }

  lemma ToggleEnabledTwice(m: MenuItem)
    ensures ToggleEnabled(ToggleEnabled(m)) == m
  {
  }

  /** Toggles one menu item: an unknown identity is not found and changes nothing;
      otherwise exactly that item's flag flips. */
  method ToggleMenuItem(db: Db, id: int) returns (r: Result<MenuItem, AdminError>)
    requires db.Valid()
    modifies db`menu
    ensures db.Valid()
    ensures !(0 <= id < |old(db.menu)|) ==> r == Err(NotFound) && db.menu == old(db.menu)
    ensures 0 <= id < |old(db.menu)| ==>
      && r == Ok(ToggleEnabled(old(db.menu)[id]))
      && db.menu == old(db.menu)[id := r.value]
  {
    if !(0 <= id < |db.menu|) {
      return Err(NotFound);
    }
    var item := db.menu[id];
    item := item.(isEnabled := !item.isEnabled);
    db.menu := db.menu[id := item];
    r := Ok(item);
  }

  // ---------------------------------------------------------------------------
  // Deadlines

  /** The deadline record a set-deadline request writes: the cutoff, the instant it was
      set, and the live flag, false when omitted. Refused when the category or the
      cutoff is missing. */
  function NewDeadline(category: string, deadline: Option<Instant>, isLive: Option<bool>, now: Instant): (r: Result<MealDeadline, AdminError>)
    ensures r.Err? <==> category == "" || deadline.None?
    ensures r.Err? ==> r.error == FieldsRequired
    ensures r.Ok? ==>
      && r.value.category == category && Some(r.value.deadline) == deadline && r.value.date == now
      && r.value.isLive == (isLive == Some(true))
  {
    if category == "" || deadline.None? then Err(FieldsRequired)
    else Ok(MealDeadline(category, deadline.value, now, if isLive.Some? then isLive.value else false))
  }

  /** Sets a category's deadline: the single record of that category is overwritten or
      created, and every other category's record is untouched. */
  method SetDeadline(db: Db, category: string, deadline: Option<Instant>, isLive: Option<bool>, now: Instant)
    returns (r: Result<MealDeadline, AdminError>)
    requires db.Valid()
    modifies db`deadlines
    ensures db.Valid()
    ensures r == NewDeadline(category, deadline, isLive, now)
    ensures r.Err? ==> db.deadlines == old(db.deadlines)
    ensures r.Ok? ==> db.deadlines == old(db.deadlines)[category := r.value]
  {
    if category == "" || deadline.None? {
      return Err(FieldsRequired);
    }
    var record := MealDeadline(category, deadline.value, now, if isLive.Some? then isLive.value else false);
    db.deadlines := db.deadlines[category := record];
    r := Ok(record);
  }

  // ---------------------------------------------------------------------------
  // Order fulfilment

  /** An order after an administrator's update: each of packed, paymentStatus and
      delivered changes only when supplied; the status changes only when a non-empty
      name is supplied, and an unknown name is refused by the schema. No field is
      checked against another. */
  function UpdatedOrder(o: Order, packed: Option<bool>, paymentStatus: Option<bool>,
                        delivered: Option<bool>, status: string): (r: Result<Order, AdminError>)
    ensures r.Err? <==> status != "" && ParseStatus(status).None?
    ensures r.Err? ==> r.error == ValidationFailed
    ensures r.Ok? ==>
      && r.value.packed == (if packed.Some? then packed.value else o.packed)
      && r.value.paymentStatus == (if paymentStatus.Some? then paymentStatus.value else o.paymentStatus)
      && r.value.delivered == (if delivered.Some? then delivered.value else o.delivered)
      && (status == "" ==> r.value.status == o.status)
      && (status != "" ==> StatusName(r.value.status) == status)
      && r.value.(packed := o.packed, paymentStatus := o.paymentStatus,
                  delivered := o.delivered, status := o.status) == o
  {
    if status != "" && ParseStatus(status).None? then Err(ValidationFailed)
    else
      Ok(o.(packed := if packed.Some? then packed.value else o.packed,
            paymentStatus := if paymentStatus.Some? then paymentStatus.value else o.paymentStatus,
            delivered := if delivered.Some? then delivered.value else o.delivered,
            status := if status != "" then ParseStatus(status).value else o.status))
  }

  /** Applying the same update twice has the effect of applying it once. */
  lemma UpdatedOrderIdempotent(o: Order, packed: Option<bool>, paymentStatus: Option<bool>,
                               delivered: Option<bool>, status: string)
    requires UpdatedOrder(o, packed, paymentStatus, delivered, status).Ok?
    ensures var o' := UpdatedOrder(o, packed, paymentStatus, delivered, status).value;
      UpdatedOrder(o', packed, paymentStatus, delivered, status) == Ok(o')
  {
  }

  /** No cross-field check: an unpaid order can be marked delivered. */
  lemma DeliveredWhileUnpaid(o: Order)
    ensures var r := UpdatedOrder(o, None, Some(false), Some(true), "delivered");
      r.Ok? && r.value.delivered && !r.value.paymentStatus && r.value.status == Delivered
  {
    assert ParseStatus("delivered") == Some(Delivered);
  }

  /** Updates one order's fulfilment fields: an unknown identity is not found and a refused
      status changes nothing; otherwise exactly that order is replaced by its update. */
  method UpdateOrder(db: Db, orderId: int, packed: Option<bool>, paymentStatus: Option<bool>,
                     delivered: Option<bool>, status: string) returns (r: Result<Order, AdminError>)
    requires db.Valid()
    modifies db`orders
    ensures db.Valid()
    ensures !(0 <= orderId < |old(db.orders)|) ==> r == Err(NotFound) && db.orders == old(db.orders)
    ensures 0 <= orderId < |old(db.orders)| ==>
      r == UpdatedOrder(old(db.orders)[orderId], packed, paymentStatus, delivered, status)
    ensures r.Err? ==> db.orders == old(db.orders)
    ensures r.Ok? ==> 0 <= orderId < |old(db.orders)| && db.orders == old(db.orders)[orderId := r.value]
  {
    if !(0 <= orderId < |db.orders|) {
      return Err(NotFound);
    }
    var updated := UpdatedOrder(db.orders[orderId], packed, paymentStatus, delivered, status);
    if updated.Err? {
      return updated;
    }
    var order := updated.value;
    OrdersReplace(db.orders, orderId, order);
    db.orders := db.orders[orderId := order];
    r := Ok(order);
  }

  // ---------------------------------------------------------------------------
  // Daily caps

  /** The cap check as the handler writes it: any cap that is present and non-zero. */
  predicate CapAcceptedAsWritten(maxOrders: Option<int>)
  {
    maxOrders.Some? && maxOrders.value != 0
  }

  /** A negative cap passes the handler's check, violates the counter schema's minimum
      of 1 (the upsert does not run the schema's validators), and once stored blocks
      every order of that meal and day, even the first. */
  lemma NegativeCapAcceptedAsWritten()
    ensures CapAcceptedAsWritten(Some(-1))
    ensures !CounterWithinSchema(MealCounter("lunch", 0, 0, Some(-1)))
    ensures Ledger.CapReached(Capped(map[], ("lunch", 0), -1), ("lunch", 0))
  {
  }

  /** The corrected check: a cap is accepted exactly when it meets the schema's minimum. */
  predicate CapAccepted(maxOrders: Option<int>)
  {
    maxOrders.Some? && maxOrders.value >= 1
  }

  /** Every cap the corrected check accepts passes the handler's own check, and is one
      the counter schema admits. */
  lemma CapAcceptedWithinSchema(maxOrders: Option<int>, c: MealCounter)
    requires CapAccepted(maxOrders) && c.orderCount >= 0
    ensures CapAcceptedAsWritten(maxOrders)
    ensures CounterWithinSchema(c.(maxOrders := maxOrders))
  {
  }

  /** The counters after capping `key`: an existing counter keeps its count and takes the
      new cap, a missing one is created at count 0; every other counter is untouched. */
  function Capped(counters: map<CounterKey, MealCounter>, key: CounterKey, cap: int): (r: map<CounterKey, MealCounter>)
    ensures r.Keys == counters.Keys + {key}
    ensures forall k :: k in counters && k != key ==> r[k] == counters[k]
    ensures key in counters ==> r[key] == counters[key].(maxOrders := Some(cap))
    ensures key !in counters ==> r[key] == MealCounter(key.0, key.1, 0, Some(cap))
  {
    var current := if key in counters then counters[key] else MealCounter(key.0, key.1, 0, None);
    counters[key := current.(maxOrders := Some(cap))]
  }

  /** Under an accepted cap the daily gate blocks exactly when the count has reached the
      cap, so a freshly capped counter never blocks the first order. */
  lemma CappedGate(counters: map<CounterKey, MealCounter>, key: CounterKey, maxOrders: Option<int>)
    requires CapAccepted(maxOrders)
    ensures Ledger.CapReached(Capped(counters, key, maxOrders.value), key)
        <==> (key in counters && counters[key].orderCount >= maxOrders.value)
  {
  }

  /** Caps a meal's orders for the day of `date`, or of now when no date is given: a
      missing category or a cap below 1 is refused and nothing changes; otherwise only
      that counter's cap is set, its count left as it was. */
  method SetCounterCap(db: Db, category: string, maxOrders: Option<int>, date: Option<Instant>, now: Instant)
    returns (r: Result<MealCounter, AdminError>)
    requires db.Valid()
    modifies db`counters
    ensures db.Valid()
    ensures r.Err? <==> category == "" || !CapAccepted(maxOrders)
    ensures r.Err? ==> r.error == FieldsRequired && db.counters == old(db.counters)
    ensures r.Ok? ==>
      var key := (category, DayOf(if date.Some? then date.value else now));
      && db.counters == Capped(old(db.counters), key, maxOrders.value)
      && r.value == db.counters[key]
  {
    if category == "" || !CapAccepted(maxOrders) {
      return Err(FieldsRequired);
    }
    var target := DayOf(if date.Some? then date.value else now);
    var key := (category, target);
    var counter := if key in db.counters then db.counters[key] else MealCounter(category, target, 0, None);
    counter := counter.(maxOrders := maxOrders);
    db.counters := db.counters[key := counter];
    r := Ok(counter);
  }
}
