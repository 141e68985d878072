/** The query vocabulary the handlers use over a collection: filtering, sorting on
    descending creation order, limiting, counting, summing and sorting on a field. */
module Query {

  /** The elements that satisfy `p`, in their original order. */
  function Filter<T(!new)>(s: seq<T>, p: T -> bool): (r: seq<T>)
    ensures |r| <= |s|
  {
    if s == [] then []
    else Filter(s[..|s| - 1], p) + (if p(s[|s| - 1]) then [s[|s| - 1]] else [])
  }

  /** The filtered collection holds exactly the elements that satisfy `p`. */
  lemma {:induction false} FilterMembers<T(!new)>(s: seq<T>, p: T -> bool)
    ensures forall x :: x in Filter(s, p) <==> x in s && p(x)
    decreases |s|
  {
    if s != [] {
      FilterMembers(s[..|s| - 1], p);
      assert s == s[..|s| - 1] + [s[|s| - 1]];
    }
  }

  lemma {:induction false} FilterAppend<T(!new)>(a: seq<T>, b: seq<T>, p: T -> bool)
    ensures Filter(a + b, p) == Filter(a, p) + Filter(b, p)
    decreases |b|
  {
    if b == [] {
      assert a + b == a;
    } else {
      assert (a + b)[..|a + b| - 1] == a + b[..|b| - 1];
      FilterAppend(a, b[..|b| - 1], p);
    }
  }

  /** Splitting a collection by a condition loses and duplicates nothing. */
  lemma {:induction false} FilterSplit<T(!new)>(s: seq<T>, p: T -> bool, q: T -> bool)
    requires forall x :: q(x) == !p(x)
    ensures multiset(Filter(s, p)) + multiset(Filter(s, q)) == multiset(s)
    decreases |s|
  {
    if s != [] {
      var init, x := s[..|s| - 1], s[|s| - 1];
      FilterSplit(init, p, q);
      assert s == init + [x];
      assert multiset(Filter(s, p)) + multiset(Filter(s, q))
          == multiset(Filter(init, p)) + multiset(Filter(init, q)) + multiset{x};
    }
  }

  /** Filtering twice keeps what satisfies both conditions. */
  lemma {:induction false} FilterFilter<T(!new)>(s: seq<T>, p: T -> bool, q: T -> bool, both: T -> bool)
    requires forall x :: both(x) == (p(x) && q(x))
    ensures Filter(Filter(s, p), q) == Filter(s, both)
    decreases |s|
  {
    if s != [] {
      var init, x := s[..|s| - 1], s[|s| - 1];
      FilterFilter(init, p, q, both);
      FilterAppend(Filter(init, p), if p(x) then [x] else [], q);
      if p(x) {
        assert Filter([x], q) == Filter([], q) + (if q(x) then [x] else []);
      }
    }
  }

  /** A weaker condition keeps at least as many elements, and at least as large a sum of
      a non-negative measure. */
  lemma {:induction false} FilterMonotone<T(!new)>(s: seq<T>, p: T -> bool, q: T -> bool, f: T -> int)
    requires forall x :: p(x) ==> q(x)
    requires forall x :: x in s ==> f(x) >= 0
    ensures |Filter(s, p)| <= |Filter(s, q)|
    ensures Sum(Filter(s, p), f) <= Sum(Filter(s, q), f)
    decreases |s|
  {
    if s != [] {
      var init, x := s[..|s| - 1], s[|s| - 1];
      assert forall y :: y in init ==> y in s;
      FilterMonotone(init, p, q, f);
      SumAppend(Filter(init, p), if p(x) then [x] else [], f);
      SumAppend(Filter(init, q), if q(x) then [x] else [], f);
      assert Sum([x], f) == f(x) by {
        assert [x][..0] == [];
      }
    }
  }

  /** The number of elements that satisfy `p`. */
  function Count<T(!new)>(s: seq<T>, p: T -> bool): (n: nat)
    ensures n <= |s|
  {
    |Filter(s, p)|
  }

  /** The positions whose elements satisfy `p`. */
  function Positions<T>(s: seq<T>, p: T -> bool): set<int>
  {
    set i | 0 <= i < |s| && p(s[i])
  }

  /** The count is the number of positions whose elements satisfy `p`. */
  lemma {:induction false} CountPositions<T(!new)>(s: seq<T>, p: T -> bool)
    ensures Count(s, p) == |Positions(s, p)|
    decreases |s|
  {
    if s != [] {
      var init, x := s[..|s| - 1], s[|s| - 1];
      CountPositions(init, p);
      var extra: set<int> := if p(x) then {|s| - 1} else {};
      assert Positions(s, p) == Positions(init, p) + extra by {
        forall i ensures i in Positions(s, p) <==> i in Positions(init, p) + extra {
          if 0 <= i < |init| {
            assert s[i] == init[i];
          }
        }
      }
      assert |s| - 1 !in Positions(init, p);
    }
  }

  /** The sum of `f` over the collection, added left to right as a `reduce` from 0 does. */
  function Sum<T>(s: seq<T>, f: T -> int): int
  {
    if s == [] then 0 else Sum(s[..|s| - 1], f) + f(s[|s| - 1])
  }

  lemma {:induction false} SumAppend<T>(a: seq<T>, b: seq<T>, f: T -> int)
    ensures Sum(a + b, f) == Sum(a, f) + Sum(b, f)
    decreases |b|
  {
    if b == [] {
      assert a + b == a;
    } else {
      assert (a + b)[..|a + b| - 1] == a + b[..|b| - 1];
      SumAppend(a, b[..|b| - 1], f);
    }
  }

  lemma {:induction false} SumNonNegative<T>(s: seq<T>, f: T -> int)
    requires forall x :: x in s ==> f(x) >= 0
    ensures Sum(s, f) >= 0
    decreases |s|
  {
    if s != [] {
      assert forall x :: x in s[..|s| - 1] ==> x in s;
      SumNonNegative(s[..|s| - 1], f);
    }
  }

  /** The elements that satisfy `p`, last-inserted first: a query sorted on descending
      creation order when the collection is kept in creation order. */
  function NewestFirst<T(!new)>(s: seq<T>, p: T -> bool): (r: seq<T>)
    ensures |r| <= |s|
    ensures forall x :: x in r <==> x in s && p(x)
  {
    if s == [] then []
    else (if p(s[|s| - 1]) then [s[|s| - 1]] else []) + NewestFirst(s[..|s| - 1], p)
  }

  /** Nothing is selected when no element satisfies `p`. */
  lemma {:induction false} NewestFirstNone<T(!new)>(s: seq<T>, p: T -> bool)
    requires forall x :: x in s ==> !p(x)
    ensures NewestFirst(s, p) == []
  {
    if s != [] {
      assert s[|s| - 1] in s;
      assert forall x :: x in s[..|s| - 1] ==> x in s;
      NewestFirstNone(s[..|s| - 1], p);
    }
  }

  /** Replacing one element changes the sum by the difference of the two values. */
  lemma {:induction false} SumUpdate<T>(s: seq<T>, k: nat, x: T, f: T -> int)
    requires k < |s|
    ensures Sum(s[k := x], f) == Sum(s, f) - f(s[k]) + f(x)
    decreases |s|
  {
    var t := s[k := x];
    if k == |s| - 1 {
      assert t[..|t| - 1] == s[..|s| - 1];
    } else {
      assert t[..|t| - 1] == s[..|s| - 1][k := x];
      SumUpdate(s[..|s| - 1], k, x, f);
    }
  }

  /** Taking one element out lowers the sum by its value. */
  lemma {:induction false} SumRemoveAt<T>(s: seq<T>, k: nat, f: T -> int)
    requires k < |s|
    ensures Sum(s[..k] + s[k + 1..], f) == Sum(s, f) - f(s[k])
  {
    var before, after := s[..k], s[k + 1..];
    var upto := before + [s[k]];
    assert s == upto + after;
    SumAppend(upto, after, f);
    SumAppend(before, [s[k]], f);
    SumAppend(before, after, f);
    assert Sum([s[k]], f) == f(s[k]) by {
      assert [s[k]][..0] == [];
    }
  }

  /** Keeping every element keeps the collection. */
  lemma {:induction false} FilterAll<T(!new)>(s: seq<T>, p: T -> bool)
    requires forall i :: 0 <= i < |s| ==> p(s[i])
    ensures Filter(s, p) == s
  {
    if s != [] {
      var init, last := s[..|s| - 1], s[|s| - 1];
      assert p(last);
      assert forall i :: 0 <= i < |init| ==> init[i] == s[i];
      FilterAll(init, p);
      assert Filter(s, p) == init + [last];
      assert s == init + [last];
    }
  }

  /** Dropping exactly one element keeps the others in their order. */
  lemma {:induction false} FilterDropsOne<T(!new)>(s: seq<T>, k: nat, p: T -> bool)
    requires k < |s| && !p(s[k])
    requires forall i :: 0 <= i < |s| && i != k ==> p(s[i])
    ensures Filter(s, p) == s[..k] + s[k + 1..]
  {
    var before, after := s[..k], s[k + 1..];
    var upto := before + [s[k]];
    assert s == upto + after;
    assert forall i :: 0 <= i < |before| ==> before[i] == s[i];
    assert forall i :: 0 <= i < |after| ==> after[i] == s[k + 1 + i];
    FilterAll(before, p);
    FilterAll(after, p);
    FilterAppend(upto, after, p);
    assert upto[..|upto| - 1] == before;
    assert Filter(upto, p) == before;
  }

  /** Keys that increase along the collection (creation order). */
  predicate Ascending<T>(s: seq<T>, key: T -> int)
  {
    forall i, j :: 0 <= i < j < |s| ==> key(s[i]) < key(s[j])
  }

  /** Keys that decrease along the collection (newest first). */
  predicate Descending<T>(s: seq<T>, key: T -> int)
  {
    forall i, j :: 0 <= i < j < |s| ==> key(s[i]) > key(s[j])
  }

  lemma {:induction false} NewestFirstDescends<T(!new)>(s: seq<T>, p: T -> bool, key: T -> int)
    requires Ascending(s, key)
    ensures Descending(NewestFirst(s, p), key)
    decreases |s|
  {
    if s != [] {
      var init, last := s[..|s| - 1], s[|s| - 1];
      assert Ascending(init, key) by {
        assert forall i :: 0 <= i < |init| ==> init[i] == s[i];
      }
      NewestFirstDescends(init, p, key);
      var rest := NewestFirst(init, p);
      forall x | x in rest ensures key(x) < key(last) {
        var k :| 0 <= k < |init| && init[k] == x;
        assert s[k] == x;
      }
      if p(last) {
        DescendingCons(last, rest, key);
      }
    }
  }

  /** Putting an element with a larger key in front keeps a descending order. */
  lemma DescendingCons<T>(x: T, rest: seq<T>, key: T -> int)
    requires Descending(rest, key) && forall y :: y in rest ==> key(y) < key(x)
    ensures Descending([x] + rest, key)
  {
    var s := [x] + rest;
    forall i, j | 0 <= i < j < |s| ensures key(s[i]) > key(s[j]) {
      assert s[j] == rest[j - 1];
      if i > 0 {
        assert s[i] == rest[i - 1];
      }
    }
  }

  /** Filtering keeps a descending order. */
  lemma {:induction false} FilterDescending<T(!new)>(s: seq<T>, p: T -> bool, key: T -> int)
    requires Descending(s, key)
    ensures Descending(Filter(s, p), key)
    decreases |s|
  {
    if s != [] {
      var init, x := s[..|s| - 1], s[|s| - 1];
      FilterDescending(init, p, key);
      var r := Filter(init, p);
      FilterMembers(init, p);
      forall y | y in r ensures key(y) > key(x) {
        var k :| 0 <= k < |init| && init[k] == y;
        assert s[k] == y;
      }
    }
  }

  /** The first `n` elements, or all of them when there are fewer (a query `limit`). */
  function Take<T>(s: seq<T>, n: nat): (r: seq<T>)
    ensures |r| == if |s| <= n then |s| else n
    ensures r == s[..|r|]
  {
    if |s| <= n then s else s[..n]
  }

  /** A page of at most `n` matches, newest first: every element matches, the page is in
      descending creation order, and a match is left out only when the page is full and
      the match is older than everything on it. */
  lemma NewestPage<T(!new)>(s: seq<T>, p: T -> bool, key: T -> int, n: nat)
    requires Ascending(s, key)
    ensures var r := Take(NewestFirst(s, p), n);
      && |r| <= n
      && (forall x :: x in r ==> x in s && p(x))
      && Descending(r, key)
      && (forall x :: x in s && p(x) && x !in r ==>
            |r| == n && (n > 0 ==> key(x) < key(r[n - 1])))
  {
    var m := NewestFirst(s, p);
    var r := Take(m, n);
    NewestFirstDescends(s, p, key);
    forall x | x in s && p(x) && x !in r
      ensures |r| == n && (n > 0 ==> key(x) < key(r[n - 1]))
    {
      var k :| 0 <= k < |m| && m[k] == x;
      assert k >= |r|;
    }
  }

  // ---------------------------------------------------------------------------
  // Sorting on a field

  ghost predicate TotalPreorder<T(!new)>(le: (T, T) -> bool)
  {
    (forall a, b :: le(a, b) || le(b, a))
    && (forall a, b, c :: le(a, b) && le(b, c) ==> le(a, c))
  }

  predicate SortedBy<T>(s: seq<T>, le: (T, T) -> bool)
  {
    forall i, j :: 0 <= i < j < |s| ==> le(s[i], s[j])
  }

  /** Inserts `x` into a sorted sequence after every element that does not follow it,
      so that equal elements keep their relative order. */
  function Insert<T>(t: seq<T>, x: T, le: (T, T) -> bool): (r: seq<T>)
    ensures multiset(r) == multiset(t) + multiset{x}
    ensures |r| == |t| + 1
  {
    if t == [] || le(t[|t| - 1], x) then t + [x]
    else
      assert t == t[..|t| - 1] + [t[|t| - 1]];
      Insert(t[..|t| - 1], x, le) + [t[|t| - 1]]
  }

  lemma {:induction false} InsertSorted<T(!new)>(t: seq<T>, x: T, le: (T, T) -> bool)
    requires TotalPreorder(le) && SortedBy(t, le)
    ensures SortedBy(Insert(t, x, le), le)
    decreases |t|
  {
    if t != [] && !le(t[|t| - 1], x) {
      var init, last := t[..|t| - 1], t[|t| - 1];
      InsertSorted(init, x, le);
      var r := Insert(init, x, le);
      assert le(x, last);
      forall y | y in multiset(r) ensures le(y, last) {
        if y != x {
          assert y in multiset(init);
          var k :| 0 <= k < |init| && init[k] == y;
          assert t[k] == y;
        }
      }
    }
  }

  /** A stable insertion sort, the order of an ascending sort on a field. */
  function Sort<T>(s: seq<T>, le: (T, T) -> bool): (r: seq<T>)
    ensures multiset(r) == multiset(s)
    ensures |r| == |s|
  {
    if s == [] then []
    else
      assert s == s[..|s| - 1] + [s[|s| - 1]];
      Insert(Sort(s[..|s| - 1], le), s[|s| - 1], le)
  }

  lemma {:induction false} SortSorted<T(!new)>(s: seq<T>, le: (T, T) -> bool)
    requires TotalPreorder(le)
    ensures SortedBy(Sort(s, le), le)
    decreases |s|
  {
    if s != [] {
      SortSorted(s[..|s| - 1], le);
      InsertSorted(Sort(s[..|s| - 1], le), s[|s| - 1], le);
    }
  }

  // ---------------------------------------------------------------------------
  // Distinct keys

  predicate DistinctKeys<T, K(==)>(s: seq<T>, key: T -> K)
  {
    forall i, j :: 0 <= i < j < |s| ==> key(s[i]) != key(s[j])
  }

  lemma MultisetRemoveAt<T>(b: seq<T>, k: nat)
    requires k < |b|
    ensures multiset(b[..k] + b[k + 1..]) == multiset(b) - multiset{b[k]}
  {
    assert b == b[..k] + [b[k]] + b[k + 1..];
  }

  lemma DistinctKeysRemoveAt<T, K>(b: seq<T>, k: nat, key: T -> K)
    requires k < |b| && DistinctKeys(b, key)
    ensures DistinctKeys(b[..k] + b[k + 1..], key)
  {
    var b' := b[..k] + b[k + 1..];
    forall i, j | 0 <= i < j < |b'| ensures key(b'[i]) != key(b'[j]) {
      var i' := if i < k then i else i + 1;
      var j' := if j < k then j else j + 1;
      assert b'[i] == b[i'] && b'[j] == b[j'];
    }
  }

  /** A key equal to that of an element of `b` other than `b[k]` is not the key of `b[k]`. */
  lemma KeyOutsideRemoved<T, K>(b: seq<T>, k: nat, key: T -> K, y: T)
    requires k < |b| && DistinctKeys(b, key) && y in b[..k] + b[k + 1..]
    ensures key(y) != key(b[k])
  {
    var b' := b[..k] + b[k + 1..];
    var m :| 0 <= m < |b'| && b'[m] == y;
    var m' := if m < k then m else m + 1;
    assert b[m'] == y && m' != k;
  }

  lemma DistinctKeysSnoc<T, K>(s: seq<T>, x: T, key: T -> K)
    requires DistinctKeys(s, key)
    requires forall i :: 0 <= i < |s| ==> key(s[i]) != key(x)
    ensures DistinctKeys(s + [x], key)
  {
    var t := s + [x];
    forall i, j | 0 <= i < j < |t| ensures key(t[i]) != key(t[j]) {
      assert t[i] == s[i];
      if j < |s| {
        assert t[j] == s[j];
      }
    }
  }

  /** Matching the last element of `a` with `b[k]` leaves two rearrangements of each other. */
  lemma RemoveMatched<T>(a: seq<T>, b: seq<T>, k: nat)
    requires multiset(a) == multiset(b) && a != [] && k < |b| && b[k] == a[|a| - 1]
    ensures multiset(a[..|a| - 1]) == multiset(b[..k] + b[k + 1..])
  {
    MultisetRemoveAt(a, |a| - 1);
    assert a[..|a| - 1] + a[|a|..] == a[..|a| - 1];
    MultisetRemoveAt(b, k);
  }

  /** No element of a rearrangement of `b` without `b[k]` shares the key of `b[k]`. */
  lemma RemovedKeyFresh<T, K>(init: seq<T>, b: seq<T>, k: nat, key: T -> K)
    requires k < |b| && DistinctKeys(b, key) && multiset(init) == multiset(b[..k] + b[k + 1..])
    ensures forall i :: 0 <= i < |init| ==> key(init[i]) != key(b[k])
  {
    forall i | 0 <= i < |init| ensures key(init[i]) != key(b[k]) {
      assert init[i] in multiset(b[..k] + b[k + 1..]);
      KeyOutsideRemoved(b, k, key, init[i]);
    }
  }

  /** A rearrangement of a collection with distinct keys has distinct keys. */
  lemma {:induction false} DistinctKeysPermutation<T, K>(a: seq<T>, b: seq<T>, key: T -> K)
    requires multiset(a) == multiset(b) && DistinctKeys(b, key)
    ensures DistinctKeys(a, key)
    decreases |a|
  {
    if a != [] {
      var init, x := a[..|a| - 1], a[|a| - 1];
      assert x in b by {
        assert x in multiset(a);
      }
      var k :| 0 <= k < |b| && b[k] == x;
      var b' := b[..k] + b[k + 1..];
      RemoveMatched(a, b, k);
      DistinctKeysRemoveAt(b, k, key);
      DistinctKeysPermutation(init, b', key);
      RemovedKeyFresh(init, b, k, key);
      DistinctKeysSnoc(init, x, key);
      assert init + [x] == a;
    }
  }
}
