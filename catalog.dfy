/** The public menu reads: one category's enabled dishes with its ordering deadline, and
    the whole menu for the administrator. */
module Catalog {
  import opened Wrappers
  import opened Schema
  import opened Store
  import opened Text
  import opened Query

  /** Whether a dish is offered under the requested category name. */
  predicate Offered(category: string, m: MenuItem)
  {
    m.isEnabled && MealTypeName(m.category) == category
  }

  /** What a category's menu shows of its deadline record. */
  datatype DeadlineView = DeadlineView(time: Instant, isLive: bool)

  datatype CategoryMenu = CategoryMenu(category: string, items: seq<MenuItem>, deadline: Option<DeadlineView>)

  /** The menu of one category: exactly the enabled dishes of that category, newest first,
      with the category's deadline time and live flag when a deadline record exists. */
  function MenuFor(menu: seq<MenuItem>, deadlines: map<string, MealDeadline>, category: string): (r: CategoryMenu)
    ensures r.category == category && |r.items| <= |menu|
    ensures forall m :: m in r.items <==> m in menu && Offered(category, m)
    ensures category !in deadlines <==> r.deadline.None?
    ensures category in deadlines ==>
      r.deadline == Some(DeadlineView(deadlines[category].deadline, deadlines[category].isLive))
  {
    CategoryMenu(
      category,
      NewestFirst(menu, (m: MenuItem) => Offered(category, m)),
      if category in deadlines then Some(DeadlineView(deadlines[category].deadline, deadlines[category].isLive)) else None)
  }

  /** In a store whose identities follow creation order, a category's dishes come newest first. */
  lemma MenuForNewestFirst(menu: seq<MenuItem>, deadlines: map<string, MealDeadline>, category: string)
    requires MenuIndexed(menu)
    ensures Descending(MenuFor(menu, deadlines, category).items, MenuItemId)
  {
    NewestFirstDescends(menu, (m: MenuItem) => Offered(category, m), MenuItemId);
  }

  /** A category name that is not one of the three meal types offers nothing. */
  lemma UnknownCategoryEmpty(menu: seq<MenuItem>, deadlines: map<string, MealDeadline>, category: string)
    requires ParseMealType(category).None?
    ensures MenuFor(menu, deadlines, category).items == []
  {
    forall m | m in menu ensures !Offered(category, m) {
      ParseMealTypeOfName(m.category);
    }
    NewestFirstNone(menu, (m: MenuItem) => Offered(category, m));
  }

  // ---------------------------------------------------------------------------
  // The whole menu

  /** The position of a category in ascending order of its name. */
  function CategoryRank(m: MealType): (n: nat)
    ensures n < 3
  {
    match m
    case Dinner => 0
    case DinnerMeals => 1
    case Lunch => 2
  }

  /** "dinner" is a proper prefix of "dinner-meals", so it comes first. */
  lemma DinnerBeforeDinnerMeals()
    ensures LexLe("dinner", "dinner-meals") && !LexLe("dinner-meals", "dinner")
  {
    var d, dm := "dinner", "dinner-meals";
    assert d[1..] == "inner" && dm[1..] == "inner-meals";
    assert d[2..] == "nner" && dm[2..] == "nner-meals";
    assert d[3..] == "ner" && dm[3..] == "ner-meals";
    assert d[4..] == "er" && dm[4..] == "er-meals";
    assert d[5..] == "r" && dm[5..] == "r-meals";
    assert d[6..] == "" && dm[6..] == "-meals";
  }

  /** The rank order is the order of the category names: "dinner" < "dinner-meals" < "lunch". */
  lemma CategoryRankIsNameOrder(a: MealType, b: MealType)
    ensures CategoryRank(a) <= CategoryRank(b) <==> LexLe(MealTypeName(a), MealTypeName(b))
  {
    DinnerBeforeDinnerMeals();
    LexLeReflexive(MealTypeName(a));
  }

  /** The order of the full listing: category name ascending, then newest first. */
  predicate ListedBefore(a: MenuItem, b: MenuItem)
  {
    CategoryRank(a.category) < CategoryRank(b.category)
    || (a.category == b.category && a.id >= b.id)
  }

  lemma ListedBeforeTotalPreorder()
    ensures TotalPreorder(ListedBefore)
  {
  }

  /** Every dish, enabled or not, by category name and then newest first. */
  function ListAll(menu: seq<MenuItem>): (r: seq<MenuItem>)
    ensures multiset(r) == multiset(menu)
    ensures SortedBy(r, ListedBefore)
  {
    ListedBeforeTotalPreorder();
    SortSorted(menu, ListedBefore);
    Sort(menu, ListedBefore)
  }

  /** The full listing holds each dish once, category names ascend, and within a category
      the newer dish comes first. */
  lemma ListAllOrder(menu: seq<MenuItem>)
    requires MenuIndexed(menu)
    ensures var r := ListAll(menu);
      && |r| == |menu|
      && DistinctKeys(r, MenuItemId)
      && (forall m :: m in r <==> m in menu)
      && (forall i, j :: 0 <= i < j < |r| ==>
            && LexLe(MealTypeName(r[i].category), MealTypeName(r[j].category))
            && (r[i].category == r[j].category ==> r[i].id > r[j].id))
  {
    var r := ListAll(menu);
    assert |r| == |multiset(r)| == |multiset(menu)| == |menu|;
    assert DistinctKeys(menu, MenuItemId);
    DistinctKeysPermutation(r, menu, MenuItemId);
    forall m ensures m in r <==> m in menu {
      assert m in r <==> m in multiset(r);
      assert m in menu <==> m in multiset(menu);
    }
    forall i, j | 0 <= i < j < |r|
      ensures LexLe(MealTypeName(r[i].category), MealTypeName(r[j].category))
      ensures r[i].category == r[j].category ==> r[i].id > r[j].id
    {
      assert ListedBefore(r[i], r[j]);
      assert MenuItemId(r[i]) != MenuItemId(r[j]);
      CategoryRankIsNameOrder(r[i].category, r[j].category);
    }
  }
}
