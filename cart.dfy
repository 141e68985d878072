/** The shopper's cart, kept on the client: a list of dishes with quantities and add-ons,
    and the meal the order is for. Every action replaces the list with a new one. */
module Cart {
  import opened Wrappers
  import opened Schema
  import opened Query
  import Ledger

  /** A cart line; `itemId` is the identity of the dish in the menu. */
  datatype CartItem = CartItem(
    itemId: int, name: string, description: string, image: string,
    price: int, isVeg: bool, quantity: int, addOns: seq<AddOn>)

  /** What the menu hands to the cart: a dish without a quantity. */
  datatype Product = Product(
    itemId: int, name: string, description: string, image: string,
    price: int, isVeg: bool, addOns: seq<AddOn>)

  datatype CartState = CartState(items: seq<CartItem>, mealType: Option<MealType>)

  const EmptyCart: CartState := CartState([], None)

  function ItemIdOf(i: CartItem): int { i.itemId }

  /** The cart invariant: one line per dish, each with a quantity of at least one. */
  predicate CartValid(items: seq<CartItem>)
  {
    DistinctKeys(items, ItemIdOf) && forall k :: 0 <= k < |items| ==> items[k].quantity >= 1
  }

  /** The first line for a dish. */
  function FindItem(items: seq<CartItem>, id: int): (r: Option<nat>)
    ensures r.Some? ==>
      && r.value < |items| && items[r.value].itemId == id
      && forall j :: 0 <= j < r.value ==> items[j].itemId != id
    ensures r.None? ==> forall j :: 0 <= j < |items| ==> items[j].itemId != id
  {
    if items == [] then None
    else if items[0].itemId == id then Some(0)
    else match FindItem(items[1..], id)
      case None => None
      case Some(k) => Some(k + 1)
  }

  /** Every line for dish `id` transformed by `f`, the others as they were. */
  function Update(items: seq<CartItem>, id: int, f: CartItem -> CartItem): (r: seq<CartItem>)
    ensures |r| == |items|
    ensures forall k :: 0 <= k < |items| ==> r[k] == if items[k].itemId == id then f(items[k]) else items[k]
  {
    seq(|items|, k requires 0 <= k < |items| => if items[k].itemId == id then f(items[k]) else items[k])
  }

  /** With one line per dish, transforming the lines of a dish transforms exactly its line. */
  lemma UpdateAt(items: seq<CartItem>, id: int, f: CartItem -> CartItem)
    requires DistinctKeys(items, ItemIdOf) && FindItem(items, id).Some?
    ensures var k := FindItem(items, id).value;
      Update(items, id, f) == items[k := f(items[k])]
  {
    var k := FindItem(items, id).value;
    forall j | 0 <= j < |items| && j != k ensures items[j].itemId != id {
      assert ItemIdOf(items[j]) != ItemIdOf(items[k]);
    }
  }

  /** A transformation that keeps a line's dish and a positive quantity keeps the cart valid. */
  lemma UpdateValid(items: seq<CartItem>, id: int, f: CartItem -> CartItem)
    requires forall i :: f(i).itemId == i.itemId && (i.quantity >= 1 ==> f(i).quantity >= 1)
    ensures CartValid(items) ==> CartValid(Update(items, id, f))
  {
    if CartValid(items) {
      var r := Update(items, id, f);
      assert forall k :: 0 <= k < |r| ==> r[k].itemId == items[k].itemId;
      assert forall i, j :: 0 <= i < j < |r| ==> ItemIdOf(r[i]) != ItemIdOf(r[j]) by {
        assert forall i, j :: 0 <= i < j < |items| ==> ItemIdOf(items[i]) != ItemIdOf(items[j]);
      }
    }
  }

  /** Appending a line for a dish not yet in the cart keeps the cart valid. */
  lemma AppendValid(items: seq<CartItem>, x: CartItem)
    requires FindItem(items, x.itemId).None? && x.quantity >= 1
    ensures CartValid(items) ==> CartValid(items + [x])
  {
    if CartValid(items) {
      DistinctKeysSnoc(items, x, ItemIdOf);
    }
  }

  // ---------------------------------------------------------------------------
  // Actions

  function Bumped(i: CartItem): CartItem { i.(quantity := i.quantity + 1) }

  function NewLine(p: Product): CartItem
  {
    CartItem(p.itemId, p.name, p.description, p.image, p.price, p.isVeg, 1, p.addOns)
  }

  /** Adds a dish: a dish already in the cart gets one more, anything else is appended
      with a quantity of one. The cart stays valid. */
  function AddItem(c: CartState, p: Product): (r: CartState)
    ensures r.mealType == c.mealType
    ensures FindItem(c.items, p.itemId).Some? ==>
      && |r.items| == |c.items|
      && forall k :: 0 <= k < |c.items| ==>
           r.items[k] == if c.items[k].itemId == p.itemId then c.items[k].(quantity := c.items[k].quantity + 1) else c.items[k]
    ensures FindItem(c.items, p.itemId).None? ==>
      r.items == c.items + [CartItem(p.itemId, p.name, p.description, p.image, p.price, p.isVeg, 1, p.addOns)]
    ensures CartValid(c.items) ==> CartValid(r.items)
  {
    if FindItem(c.items, p.itemId).Some? then
      UpdateValid(c.items, p.itemId, Bumped);
      c.(items := Update(c.items, p.itemId, Bumped))
    else
      AppendValid(c.items, NewLine(p));
      c.(items := c.items + [NewLine(p)])
  }

  /** Keeps the lines of every dish but `id`. */
  function OtherThan(id: int): CartItem -> bool
  {
    (i: CartItem) => i.itemId != id
  }

  /** Removes a dish: exactly the lines of other dishes remain. */
  function RemoveItem(c: CartState, id: int): (r: CartState)
    ensures r.mealType == c.mealType && |r.items| <= |c.items|
    ensures forall i :: i in r.items <==> i in c.items && i.itemId != id
  {
    FilterMembers(c.items, OtherThan(id));
    c.(items := Filter(c.items, OtherThan(id)))
  }

  /** Removing a dish takes out its one line and keeps the rest in their order; removing a
      dish that is not in the cart changes nothing. The cart stays valid. */
  lemma RemoveItemKeepsOrder(c: CartState, id: int)
    requires CartValid(c.items)
    ensures FindItem(c.items, id).None? ==> RemoveItem(c, id) == c
    ensures FindItem(c.items, id).Some? ==>
      var k := FindItem(c.items, id).value;
      RemoveItem(c, id).items == c.items[..k] + c.items[k + 1..]
    ensures CartValid(RemoveItem(c, id).items)
  {
    var items := c.items;
    match FindItem(items, id)
    case None =>
      FilterAll(items, OtherThan(id));
    case Some(k) =>
      forall j | 0 <= j < |items| && j != k ensures OtherThan(id)(items[j]) {
        assert ItemIdOf(items[j]) != ItemIdOf(items[k]);
      }
      FilterDropsOne(items, k, OtherThan(id));
      RemoveAtValid(items, k);
  }

  /** Taking one line out of a valid cart leaves a valid cart. */
  lemma RemoveAtValid(items: seq<CartItem>, k: nat)
    requires k < |items| && CartValid(items)
    ensures CartValid(items[..k] + items[k + 1..])
  {
    var rest := items[..k] + items[k + 1..];
    DistinctKeysRemoveAt(items, k, ItemIdOf);
    forall i | 0 <= i < |rest| ensures rest[i].quantity >= 1 {
      assert rest[i] == items[if i < k then i else i + 1];
    }
  }

  lemma RemoveItemValid(c: CartState, id: int)
    ensures CartValid(c.items) ==> CartValid(RemoveItem(c, id).items)
  {
    if CartValid(c.items) {
      RemoveItemKeepsOrder(c, id);
    }
  }

  function WithQuantity(q: int): CartItem -> CartItem
  {
    (i: CartItem) => i.(quantity := q)
  }

  /** Sets a dish's quantity; a quantity of zero or less removes the dish instead. The cart
      stays valid. */
  function UpdateQuantity(c: CartState, id: int, q: int): (r: CartState)
    ensures q <= 0 ==> r == RemoveItem(c, id)
    ensures q > 0 ==>
      && r.mealType == c.mealType && |r.items| == |c.items|
      && forall k :: 0 <= k < |c.items| ==>
           r.items[k] == if c.items[k].itemId == id then c.items[k].(quantity := q) else c.items[k]
    ensures CartValid(c.items) ==> CartValid(r.items)
  {
    if q <= 0 then
      RemoveItemValid(c, id);
      RemoveItem(c, id)
    else
      UpdateValid(c.items, id, WithQuantity(q));
      c.(items := Update(c.items, id, WithQuantity(q)))
  }

  function WithAddOn(a: AddOn): CartItem -> CartItem
  {
    (i: CartItem) => i.(addOns := i.addOns + [a])
  }

  /** Adds an add-on to the end of a dish's add-ons, touching no other dish. The cart stays valid. */
  function AddAddOn(c: CartState, id: int, a: AddOn): (r: CartState)
    ensures r.mealType == c.mealType && |r.items| == |c.items|
    ensures forall k :: 0 <= k < |c.items| ==>
      r.items[k] == if c.items[k].itemId == id then c.items[k].(addOns := c.items[k].addOns + [a]) else c.items[k]
    ensures CartValid(c.items) ==> CartValid(r.items)
  {
    UpdateValid(c.items, id, WithAddOn(a));
    c.(items := Update(c.items, id, WithAddOn(a)))
  }

  function NotNamed(name: string): AddOn -> bool
  {
    (a: AddOn) => a.name != name
  }

  function Named(name: string): AddOn -> bool
  {
    (a: AddOn) => a.name == name
  }

  function WithoutAddOn(name: string): CartItem -> CartItem
  {
    (i: CartItem) => i.(addOns := Filter(i.addOns, NotNamed(name)))
  }

  /** Removes every add-on of that name, duplicates included, from a dish, touching no other
      dish and no other add-on. The cart stays valid. */
  function RemoveAddOn(c: CartState, id: int, name: string): (r: CartState)
    ensures r.mealType == c.mealType && |r.items| == |c.items|
    ensures forall k :: 0 <= k < |c.items| && c.items[k].itemId != id ==> r.items[k] == c.items[k]
    ensures forall k :: 0 <= k < |c.items| && c.items[k].itemId == id ==>
      && r.items[k] == c.items[k].(addOns := r.items[k].addOns)
      && (forall a :: a in r.items[k].addOns <==> a in c.items[k].addOns && a.name != name)
      && multiset(r.items[k].addOns) + multiset(Filter(c.items[k].addOns, Named(name)))
         == multiset(c.items[k].addOns)
    ensures CartValid(c.items) ==> CartValid(r.items)
  {
    UpdateValid(c.items, id, WithoutAddOn(name));
    forall k | 0 <= k < |c.items|
      ensures forall a :: a in Filter(c.items[k].addOns, NotNamed(name)) <==> a in c.items[k].addOns && a.name != name
      ensures multiset(Filter(c.items[k].addOns, NotNamed(name))) + multiset(Filter(c.items[k].addOns, Named(name)))
              == multiset(c.items[k].addOns)
    {
      FilterMembers(c.items[k].addOns, NotNamed(name));
      FilterSplit(c.items[k].addOns, NotNamed(name), Named(name));
    }
    c.(items := Update(c.items, id, WithoutAddOn(name)))
  }

  /** Removing an add-on the dish does not carry changes nothing. */
  lemma RemoveAbsentAddOn(c: CartState, id: int, name: string)
    requires forall k :: 0 <= k < |c.items| ==> forall a :: a in c.items[k].addOns ==> a.name != name
    ensures RemoveAddOn(c, id, name) == c
  {
    var r := RemoveAddOn(c, id, name);
    forall k | 0 <= k < |c.items| ensures r.items[k] == c.items[k] {
      if c.items[k].itemId == id {
        var a := c.items[k].addOns;
        assert forall i :: 0 <= i < |a| ==> a[i] in a;
        FilterAll(a, NotNamed(name));
      }
    }
  }

  function SetMealType(c: CartState, m: Option<MealType>): (r: CartState)
    ensures r.items == c.items && r.mealType == m
  {
    c.(mealType := m)
  }

  /** Empties the cart and forgets the meal; the empty cart totals zero. */
  function ClearCart(c: CartState): (r: CartState)
    ensures r.items == [] && r.mealType.None? && Total(r.items) == 0
  {
    EmptyCart
  }

  // ---------------------------------------------------------------------------
  // Total

  /** A line's amount: unit price times quantity, plus the add-ons once. */
  function LineTotal(i: CartItem): int
  {
    LineAmount(i.price, i.quantity, i.addOns)
  }

  /** No line carries a negative unit price, quantity or add-on price. */
  predicate NonNegativeCart(items: seq<CartItem>)
  {
    forall k :: 0 <= k < |items| ==>
      items[k].price >= 0 && items[k].quantity >= 0 && AddOnsNonNegative(items[k].addOns)
  }

  /** The cart total, summed over the lines in order; never negative unless a line
      carries a negative price. */
  function Total(items: seq<CartItem>): (t: int)
    ensures NonNegativeCart(items) ==> t >= 0
  {
    LinesNonNegative(items);
    Sum(items, LineTotal)
  }

  lemma LinesNonNegative(items: seq<CartItem>)
    ensures NonNegativeCart(items) ==> Sum(items, LineTotal) >= 0
  {
    if NonNegativeCart(items) {
      forall i | i in items ensures LineTotal(i) >= 0 {
        var k :| 0 <= k < |items| && items[k] == i;
      }
      SumNonNegative(items, LineTotal);
    }
  }

  /** One more of a dish adds its unit price to its line. */
  lemma BumpedTotal(i: CartItem)
    ensures LineTotal(Bumped(i)) == LineTotal(i) + i.price
  {
    assert i.price * (i.quantity + 1) == i.price * i.quantity + i.price;
  }

  /** Adding a dish adds its unit price when it is already in the cart, and its whole new
      line otherwise. */
  lemma TotalAfterAddItem(c: CartState, p: Product)
    requires CartValid(c.items)
    ensures FindItem(c.items, p.itemId).Some? ==>
      Total(AddItem(c, p).items) == Total(c.items) + c.items[FindItem(c.items, p.itemId).value].price
    ensures FindItem(c.items, p.itemId).None? ==>
      Total(AddItem(c, p).items) == Total(c.items) + p.price + AddOnsTotal(p.addOns)
  {
    match FindItem(c.items, p.itemId)
    case Some(k) =>
      UpdateAt(c.items, p.itemId, Bumped);
      SumUpdate(c.items, k, Bumped(c.items[k]), LineTotal);
      BumpedTotal(c.items[k]);
    case None =>
      assert (c.items + [NewLine(p)])[..|c.items|] == c.items;
  }

  /** Removing a dish takes its whole line off the total. */
  lemma TotalAfterRemoveItem(c: CartState, id: int)
    requires CartValid(c.items) && FindItem(c.items, id).Some?
    ensures Total(RemoveItem(c, id).items) == Total(c.items) - LineTotal(c.items[FindItem(c.items, id).value])
  {
    var k := FindItem(c.items, id).value;
    RemoveItemKeepsOrder(c, id);
    SumRemoveAt(c.items, k, LineTotal);
  }

  /** Adding an add-on to a dish in the cart adds its price once, whatever the quantity. */
  lemma TotalAfterAddAddOn(c: CartState, id: int, a: AddOn)
    requires CartValid(c.items) && FindItem(c.items, id).Some?
    ensures Total(AddAddOn(c, id, a).items) == Total(c.items) + a.price
  {
    var k := FindItem(c.items, id).value;
    var i := c.items[k];
    UpdateAt(c.items, id, WithAddOn(a));
    SumUpdate(c.items, k, WithAddOn(a)(i), LineTotal);
    AddOnsTotalAppend(i.addOns, [a]);
    assert AddOnsTotal([a]) == a.price by {
      assert [a][..0] == [];
    }
  }

  /** The add-ons split by name: those kept and those removed add up to the whole list. */
  lemma {:induction false} AddOnsSplit(a: seq<AddOn>, name: string)
    ensures AddOnsTotal(Filter(a, NotNamed(name))) + AddOnsTotal(Filter(a, Named(name))) == AddOnsTotal(a)
    decreases |a|
  {
    if a != [] {
      var init, x := a[..|a| - 1], a[|a| - 1];
      AddOnsSplit(init, name);
      AddOnsTotalAppend(Filter(init, NotNamed(name)), if NotNamed(name)(x) then [x] else []);
      AddOnsTotalAppend(Filter(init, Named(name)), if Named(name)(x) then [x] else []);
      assert AddOnsTotal([x]) == x.price by {
        assert [x][..0] == [];
      }
    }
  }

  /** Removing an add-on from a dish in the cart takes off the price of every add-on of
      that name it carried, once each, whatever the quantity. */
  lemma TotalAfterRemoveAddOn(c: CartState, id: int, name: string)
    requires CartValid(c.items) && FindItem(c.items, id).Some?
    ensures var i := c.items[FindItem(c.items, id).value];
      Total(RemoveAddOn(c, id, name).items) == Total(c.items) - AddOnsTotal(Filter(i.addOns, Named(name)))
  {
    var k := FindItem(c.items, id).value;
    var i := c.items[k];
    UpdateAt(c.items, id, WithoutAddOn(name));
    SumUpdate(c.items, k, WithoutAddOn(name)(i), LineTotal);
    AddOnsSplit(i.addOns, name);
  }

  // ---------------------------------------------------------------------------
  // Checkout

  /** The request lines a checkout sends: each cart line as it stands. */
  function Lines(items: seq<CartItem>): (r: seq<Ledger.RequestLine>)
    ensures |r| == |items|
    ensures forall k :: 0 <= k < |items| ==>
      r[k] == Ledger.RequestLine(items[k].itemId, items[k].name, items[k].quantity, items[k].price, items[k].addOns)
  {
    seq(|items|, k requires 0 <= k < |items| =>
      Ledger.RequestLine(items[k].itemId, items[k].name, items[k].quantity, items[k].price, items[k].addOns))
  }

  /** The cart total is what the server charges for the checkout, as long as every cart
      line still carries the menu's current price. */
  lemma {:induction false} CheckoutCharge(menu: seq<MenuItem>, items: seq<CartItem>)
    requires Ledger.AllAvailable(menu, Lines(items))
    requires forall k :: 0 <= k < |items| ==> 0 <= items[k].itemId < |menu| && items[k].price == menu[items[k].itemId].price
    ensures Ledger.Price(menu, Lines(items)) == Total(items)
    decreases |items|
  {
    if items != [] {
      var init := items[..|items| - 1];
      assert Lines(items)[..|items| - 1] == Lines(init);
      CheckoutCharge(menu, init);
    }
  }
}
