/** The document store shared by every handler: one collection per model. Collections
    whose documents have identities are kept in creation order, and a document's identity
    is its position. */
module Store {
  import opened Wrappers
  import opened Schema

  function OrderId(o: Order): int { o.id }

  function MenuItemId(m: MenuItem): int { m.id }

  predicate MenuIndexed(menu: seq<MenuItem>)
  {
    forall i :: 0 <= i < |menu| ==> menu[i].id == i
  }

  predicate OrdersIndexed(orders: seq<Order>)
  {
    forall i :: 0 <= i < |orders| ==> orders[i].id == i
  }

  predicate LocationsIndexed(locations: seq<Location>)
  {
    forall i :: 0 <= i < |locations| ==> locations[i].id == i
  }

  /** Users are indexed by position and no two share a phone. */
  predicate UsersIndexed(users: seq<User>)
  {
    && (forall i :: 0 <= i < |users| ==> users[i].id == i)
    && (forall i, j :: 0 <= i < j < |users| ==> users[i].phone != users[j].phone)
  }

  /** A stored order respects the schema minimums and its total is the amount of its lines. */
  predicate OrderWellFormed(o: Order)
  {
    OrderWithinSchema(o.items, o.totalAmount) && o.totalAmount == ItemsAmount(o.items)
  }

  predicate OrdersWellFormed(orders: seq<Order>)
  {
    OrdersIndexed(orders) && forall i :: 0 <= i < |orders| ==> OrderWellFormed(orders[i])
  }

  /** Appending a well-formed order under the next identity keeps the orders well formed. */
  lemma OrdersSnoc(orders: seq<Order>, o: Order)
    requires OrdersWellFormed(orders) && o.id == |orders| && OrderWellFormed(o)
    ensures OrdersWellFormed(orders + [o])
  {
  }

  /** Replacing an order by a well-formed one with the same identity keeps the orders well formed. */
  lemma OrdersReplace(orders: seq<Order>, k: nat, o: Order)
    requires OrdersWellFormed(orders) && k < |orders| && o.id == k && OrderWellFormed(o)
    ensures OrdersWellFormed(orders[k := o])
  {
  }

  /** A menu item respects the schema minimum on its price. */
  predicate MenuItemWellFormed(m: MenuItem)
  {
    m.price >= 0
  }

  /** Counters are keyed by their own (category, day) pair, so there is at most one per
      pair; they respect the schema minimums; and only a real meal category is ever
      counted. */
  predicate CountersWellFormed(counters: map<CounterKey, MealCounter>)
  {
    forall k :: k in counters ==>
      && counters[k].category == k.0 && counters[k].date == k.1
      && CounterWithinSchema(counters[k])
      && (ParseMealType(k.0).None? ==> counters[k].orderCount == 0)
  }

  /** Deadlines are keyed by their own category: one slot per category. */
  predicate DeadlinesKeyed(deadlines: map<string, MealDeadline>)
  {
    forall c :: c in deadlines ==> deadlines[c].category == c
  }

  class Db {
    var menu: seq<MenuItem>
    var deadlines: map<string, MealDeadline>
    var counters: map<CounterKey, MealCounter>
    var orders: seq<Order>
    var users: seq<User>
    var locations: seq<Location>

    ghost predicate Valid()
      reads this
    {
      && MenuIndexed(menu) && (forall i :: 0 <= i < |menu| ==> MenuItemWellFormed(menu[i]))
      && DeadlinesKeyed(deadlines)
      && CountersWellFormed(counters)
      && OrdersWellFormed(orders)
      && UsersIndexed(users)
      && LocationsIndexed(locations)
    }

    /** An empty store. */
    constructor ()
      ensures Valid()
      ensures menu == [] && deadlines == map[] && counters == map[]
      ensures orders == [] && users == [] && locations == []
    {
      menu, deadlines, counters := [], map[], map[];
      orders, users, locations := [], [], [];
    }
  }
}
