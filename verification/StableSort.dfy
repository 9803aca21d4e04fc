/** A stable sort of what is collected from an unordered map, and when the map's order shows through. */
module StableSort {
  import opened Results

  /** A strict weak order: what a comparison function for sorting must be. */
  ghost predicate StrictWeak<T(!new)>(less: (T, T) -> bool) {
    && (forall x :: !less(x, x))
    && (forall x, y, z :: less(x, y) && less(y, z) ==> less(x, z))
    && (forall x, y, z :: less(x, z) ==> less(x, y) || less(y, z))
  }

  predicate Same<T>(less: (T, T) -> bool, x: T, y: T) {
    !less(x, y) && !less(y, x)
  }

  function Insert<T>(x: T, s: seq<T>, less: (T, T) -> bool): seq<T> {
    if s != [] && less(x, s[|s| - 1]) then Insert(x, s[..|s| - 1], less) + [s[|s| - 1]] else s + [x]
  }

  /** The stable sort. */
  function Sort<T>(s: seq<T>, less: (T, T) -> bool): seq<T> {
    if s == [] then [] else Insert(s[|s| - 1], Sort(s[..|s| - 1], less), less)
  }

  ghost predicate Sorted<T>(s: seq<T>, less: (T, T) -> bool) {
    forall i, j | 0 <= i < j < |s| :: !less(s[j], s[i])
  }

  /** The elements equivalent to `x`, in their order. */
  function Class<T>(s: seq<T>, x: T, less: (T, T) -> bool): seq<T> {
    if s == [] then []
    else
      var init := Class(s[..|s| - 1], x, less);
      if Same(less, x, s[|s| - 1]) then init + [s[|s| - 1]] else init
  }

  /** Sorted, and equivalent elements keep their order: this leaves exactly one result. */
  ghost predicate IsStableSort<T(!new)>(t: seq<T>, s: seq<T>, less: (T, T) -> bool) {
    Sorted(t, less) && forall x :: Class(t, x, less) == Class(s, x, less)
  }

  lemma {:induction false} ClassSnoc<T>(s: seq<T>, y: T, x: T, less: (T, T) -> bool)
    ensures Class(s + [y], x, less) == if Same(less, x, y) then Class(s, x, less) + [y] else Class(s, x, less)
  {
    assert (s + [y])[..|s + [y]| - 1] == s;
  }

  lemma {:induction false} InsertClass<T(!new)>(y: T, s: seq<T>, x: T, less: (T, T) -> bool)
    requires StrictWeak(less)
    ensures Class(Insert(y, s, less), x, less) == Class(s + [y], x, less)
  {
    if s != [] && less(y, s[|s| - 1]) {
      var init, last := s[..|s| - 1], s[|s| - 1];
      InsertClass(y, init, x, less);
      ClassSnoc(Insert(y, init, less), last, x, less);
      ClassSnoc(init, y, x, less);
      ClassSnoc(s, y, x, less);
    }
  }

  lemma {:induction false} InsertSorted<T(!new)>(y: T, s: seq<T>, less: (T, T) -> bool)
    requires StrictWeak(less) && Sorted(s, less)
    ensures Sorted(Insert(y, s, less), less)
    ensures forall e | e in Insert(y, s, less) :: e in s || e == y
  {
    if s != [] && less(y, s[|s| - 1]) {
      var init, last := s[..|s| - 1], s[|s| - 1];
      InsertSorted(y, init, less);
      var r := Insert(y, init, less);
      forall e | e in r
        ensures !less(last, e)
      {
        if e in init {
          var i :| 0 <= i < |init| && init[i] == e;
          assert s[i] == e;
        }
      }
      forall i, j | 0 <= i < j < |r + [last]|
        ensures !less((r + [last])[j], (r + [last])[i])
      {
        if j == |r| {
          assert r[i] in r;
        }
      }
    } else {
      var r := s + [y];
      forall i, j | 0 <= i < j < |r|
        ensures !less(r[j], r[i])
      {
        if j == |s| && i < |s| - 1 {
          assert !less(s[|s| - 1], s[i]);
        }
      }
    }
  }

  lemma {:induction false} SortSorted<T(!new)>(s: seq<T>, less: (T, T) -> bool)
    requires StrictWeak(less)
    ensures Sorted(Sort(s, less), less)
  {
    if s != [] {
      SortSorted(s[..|s| - 1], less);
      InsertSorted(s[|s| - 1], Sort(s[..|s| - 1], less), less);
    }
  }

  ghost predicate Distinct<T>(s: seq<T>) {
    forall i, j | 0 <= i < j < |s| :: s[i] != s[j]
  }

  lemma {:induction false} InsertAdds<T>(y: T, s: seq<T>, less: (T, T) -> bool)
    ensures |Insert(y, s, less)| == |s| + 1
    ensures forall e :: e in Insert(y, s, less) <==> e in s || e == y
    ensures Distinct(s) && y !in s ==> Distinct(Insert(y, s, less))
  {
    if s != [] && less(y, s[|s| - 1]) {
      var init, last := s[..|s| - 1], s[|s| - 1];
      InsertAdds(y, init, less);
      assert s == init + [last];
      if Distinct(s) && y !in s {
        assert last !in init && last !in Insert(y, init, less);
      }
    }
  }

  /** Sorting neither loses nor invents elements. */
  lemma {:induction false} SortKeeps<T>(s: seq<T>, less: (T, T) -> bool)
    ensures |Sort(s, less)| == |s| && forall e :: e in Sort(s, less) <==> e in s
    ensures Distinct(s) ==> Distinct(Sort(s, less))
  {
    if s != [] {
      SortKeeps(s[..|s| - 1], less);
      InsertAdds(s[|s| - 1], Sort(s[..|s| - 1], less), less);
      assert s == s[..|s| - 1] + [s[|s| - 1]];
    }
  }

  lemma SortNothing<T>(less: (T, T) -> bool)
    ensures Sort([], less) == []
  {
  }

  lemma SortSnoc<T>(s: seq<T>, less: (T, T) -> bool)
    requires s != []
    ensures Sort(s, less) == Insert(s[|s| - 1], Sort(s[..|s| - 1], less), less)
  {
  }

  lemma {:induction false} SortKeepsClass<T(!new)>(s: seq<T>, x: T, less: (T, T) -> bool)
    requires StrictWeak(less)
    ensures Class(Sort(s, less), x, less) == Class(s, x, less)
  {
    hide StrictWeak, Insert, Class, Sort;
    if s == [] {
      SortNothing(less);
    } else {
      var init, last := s[..|s| - 1], s[|s| - 1];
      SortSnoc(s, less);
      SortKeepsClass(init, x, less);
      InsertClass(last, Sort(init, less), x, less);
      ClassSnoc(Sort(init, less), last, x, less);
      ClassSnoc(init, last, x, less);
      assert s == init + [last];
    }
  }

  /** Insertion gives the stable sort. */
  lemma SortIsStable<T(!new)>(s: seq<T>, less: (T, T) -> bool)
    requires StrictWeak(less)
    ensures IsStableSort(Sort(s, less), s, less)
  {
    hide StrictWeak, Sorted, Sort, Class;
    SortSorted(s, less);
    forall x
      ensures Class(Sort(s, less), x, less) == Class(s, x, less)
    {
      SortKeepsClass(s, x, less);
    }
  }

  lemma {:induction false} ClassMembers<T>(s: seq<T>, x: T, less: (T, T) -> bool)
    ensures forall i | 0 <= i < |Class(s, x, less)| :: Class(s, x, less)[i] in s && Same(less, x, Class(s, x, less)[i])
    ensures forall e | e in s && Same(less, x, e) :: e in Class(s, x, less)
  {
    if s != [] {
      ClassMembers(s[..|s| - 1], x, less);
      assert s == s[..|s| - 1] + [s[|s| - 1]];
    }
  }

  lemma {:induction false} OwnClass<T(!new)>(s: seq<T>, less: (T, T) -> bool)
    requires StrictWeak(less) && s != []
    ensures Class(s, s[|s| - 1], less) != []
  {
  }

  /** There is only one stable sort. */
  lemma {:induction false} StableSortUnique<T(!new)>(a: seq<T>, b: seq<T>, less: (T, T) -> bool)
    requires StrictWeak(less) && Sorted(a, less) && Sorted(b, less)
    requires forall x :: Class(a, x, less) == Class(b, x, less)
    ensures a == b
    decreases |a|
  {
    if a == [] {
      if b != [] {
        OwnClass(b, less);
        assert false;
      }
    } else {
      var x := a[|a| - 1];
      ClassMembers(a, x, less);
      ClassMembers(b, x, less);
      assert x in Class(a, x, less);
      assert b != [];
      var y := b[|b| - 1];
      ClassMembers(a, y, less);
      ClassMembers(b, y, less);
      LastsMeet(a, b, less);
      assert Class(a, x, less)[|Class(a, x, less)| - 1] == x;
      assert Class(b, x, less)[|Class(b, x, less)| - 1] == y;
      var a', b' := a[..|a| - 1], b[..|b| - 1];
      forall z
        ensures Class(a', z, less) == Class(b', z, less)
      {
        assert a == a' + [x] && b == b' + [x];
        ClassSnoc(a', x, z, less);
        ClassSnoc(b', x, z, less);
        assert Class(a, z, less) == Class(b, z, less);
        if Same(less, z, x) {
          assert Class(a', z, less) == Class(a, z, less)[..|Class(a, z, less)| - 1];
          assert Class(b', z, less) == Class(b, z, less)[..|Class(b, z, less)| - 1];
        }
      }
      StableSortUnique(a', b', less);
      assert a == a' + [x] && b == b' + [x];
    }
  }

  /** The last elements of two sorted sequences with the same classes are equivalent. */
  lemma LastsMeet<T(!new)>(a: seq<T>, b: seq<T>, less: (T, T) -> bool)
    requires StrictWeak(less) && Sorted(a, less) && Sorted(b, less) && a != [] && b != []
    requires forall x :: Class(a, x, less) == Class(b, x, less)
    ensures Same(less, a[|a| - 1], b[|b| - 1])
  {
    var x, y := a[|a| - 1], b[|b| - 1];
    ClassMembers(a, x, less);
    ClassMembers(b, x, less);
    ClassMembers(a, y, less);
    ClassMembers(b, y, less);
    assert x in Class(b, x, less) && y in Class(a, y, less);
    var i :| 0 <= i < |b| && b[i] == x;
    var j :| 0 <= j < |a| && a[j] == y;
    assert i < |b| - 1 ==> !less(b[|b| - 1], b[i]);
    assert j < |a| - 1 ==> !less(a[|a| - 1], a[j]);
  }

  // ---- Collecting from an unordered map

  /** One way a hash map may be iterated: every key once. */
  ghost predicate IsOrder<K(!new)>(order: seq<K>, keys: set<K>) {
    && (forall k :: k in order <==> k in keys)
    && (forall i, j | 0 <= i < j < |order| :: order[i] != order[j])
  }

  function Collect<K, T>(order: seq<K>, accept: K -> Option<T>): seq<T> {
    if order == [] then []
    else
      var init := Collect(order[..|order| - 1], accept);
      match accept(order[|order| - 1])
      case None => init
      case Some(v) => init + [v]
  }

  /** Keys that yield an element equivalent to `x`. */
  ghost function Yielding<K(!new), T>(keys: set<K>, accept: K -> Option<T>, x: T, less: (T, T) -> bool): set<K> {
    set k | k in keys && accept(k).Some? && Same(less, x, accept(k).value)
  }

  lemma {:induction false} ClassSize<K(!new), T(!new)>(order: seq<K>, keys: set<K>, accept: K -> Option<T>, x: T, less: (T, T) -> bool)
    requires IsOrder(order, keys)
    ensures |Class(Collect(order, accept), x, less)|
         == |Yielding(keys, accept, x, less)|
  {
    if order == [] {
      assert keys == {};
      assert Yielding(keys, accept, x, less) == {};
    } else {
      var init, last := order[..|order| - 1], order[|order| - 1];
      var rest := keys - {last};
      assert order == init + [last];
      assert last !in init;
      assert forall k :: k in init <==> k in rest;
      ClassSize(init, rest, accept, x, less);
      var few, all := Yielding(rest, accept, x, less), Yielding(keys, accept, x, less);
      if accept(last).Some? {
        ClassSnoc(Collect(init, accept), accept(last).value, x, less);
        if Same(less, x, accept(last).value) {
          assert all == few + {last};
        } else {
          assert all == few;
        }
      } else {
        assert all == few;
      }
    }
  }

  lemma {:induction false} CollectMembers<K, T>(order: seq<K>, accept: K -> Option<T>)
    ensures forall v | v in Collect(order, accept) :: exists k | k in order :: accept(k) == Some(v)
    ensures forall k | k in order && accept(k).Some? :: accept(k).value in Collect(order, accept)
  {
    if order != [] {
      CollectMembers(order[..|order| - 1], accept);
      assert order == order[..|order| - 1] + [order[|order| - 1]];
    }
  }

  ghost function Accepted<K(!new), T>(keys: set<K>, accept: K -> Option<T>): set<K> {
    set k | k in keys && accept(k).Some?
  }

  lemma OrderMinus<K(!new)>(order: seq<K>, keys: set<K>)
    requires IsOrder(order, keys) && order != []
    ensures order[|order| - 1] in keys && IsOrder(order[..|order| - 1], keys - {order[|order| - 1]})
  {
    var init, last := order[..|order| - 1], order[|order| - 1];
    assert order == init + [last] && last !in init;
  }

  lemma {:induction false} CollectSize<K(!new), T(!new)>(order: seq<K>, keys: set<K>, accept: K -> Option<T>)
    requires IsOrder(order, keys)
    ensures |Collect(order, accept)| == |Accepted(keys, accept)|
  {
    if order == [] {
      assert Accepted(keys, accept) == {};
    } else {
      var init, last := order[..|order| - 1], order[|order| - 1];
      OrderMinus(order, keys);
      hide IsOrder;
      CollectSize(init, keys - {last}, accept);
      var few := Accepted(keys - {last}, accept);
      assert Accepted(keys, accept) == if accept(last).Some? then few + {last} else few;
    }
  }

  lemma {:induction false} CollectDistinct<K, T(!new)>(order: seq<K>, accept: K -> Option<T>)
    requires Distinct(order) && forall j, k | j in order && k in order && accept(j).Some? && accept(j) == accept(k) :: j == k
    ensures Distinct(Collect(order, accept))
  {
    if order != [] {
      var init, last := order[..|order| - 1], order[|order| - 1];
      assert order == init + [last] && last !in init;
      CollectDistinct(init, accept);
      CollectMembers(init, accept);
    }
  }

  /** Two keys whose elements are equivalent yet different. */
  ghost predicate Clash<K(!new), T>(keys: set<K>, accept: K -> Option<T>, less: (T, T) -> bool) {
    exists j, k | j in keys && k in keys ::
      accept(j).Some? && accept(k).Some? && Same(less, accept(j).value, accept(k).value) && accept(j) != accept(k)
  }

  lemma NoClashClass<K(!new), T(!new)>(order: seq<K>, keys: set<K>, accept: K -> Option<T>, less: (T, T) -> bool, x: T, i: nat, v: T)
    requires StrictWeak(less) && IsOrder(order, keys) && !Clash(keys, accept, less)
    requires i < |Class(Collect(order, accept), x, less)|
    requires exists k | k in keys :: accept(k) == Some(v)
    requires Same(less, x, v)
    ensures Class(Collect(order, accept), x, less)[i] == v
  {
    var s := Collect(order, accept);
    ClassMembers(s, x, less);
    CollectMembers(order, accept);
    var w := Class(s, x, less)[i];
    assert w in s && Same(less, x, w);
    var j :| j in order && accept(j) == Some(w);
    var k :| k in keys && accept(k) == Some(v);
    assert Same(less, w, v);
    assert j in keys;
  }

  /** Without a clash every iteration order sorts to the same list. */
  lemma OrderIndependent<K(!new), T(!new)>(a: seq<K>, b: seq<K>, keys: set<K>, accept: K -> Option<T>, less: (T, T) -> bool)
    requires StrictWeak(less) && IsOrder(a, keys) && IsOrder(b, keys) && !Clash(keys, accept, less)
    ensures Sort(Collect(a, accept), less)
         == Sort(Collect(b, accept), less)
  {
    var s, t := Collect(a, accept), Collect(b, accept);
    SortIsStable(s, less);
    SortIsStable(t, less);
    forall x
      ensures Class(Sort(s, less), x, less) == Class(Sort(t, less), x, less)
    {
      ClassSize(a, keys, accept, x, less);
      ClassSize(b, keys, accept, x, less);
      SameClasses(a, b, keys, accept, less, x);
    }
    StableSortUnique(Sort(s, less), Sort(t, less), less);
  }

  lemma SameClasses<K(!new), T(!new)>(a: seq<K>, b: seq<K>, keys: set<K>, accept: K -> Option<T>, less: (T, T) -> bool, x: T)
    requires StrictWeak(less) && IsOrder(a, keys) && IsOrder(b, keys) && !Clash(keys, accept, less)
    requires |Class(Collect(a, accept), x, less)| == |Class(Collect(b, accept), x, less)|
    ensures Class(Collect(a, accept), x, less)
         == Class(Collect(b, accept), x, less)
  {
    var p, q := Class(Collect(a, accept), x, less), Class(Collect(b, accept), x, less);
    forall i | 0 <= i < |p|
      ensures p[i] == q[i]
    {
      ClassMembers(Collect(b, accept), x, less);
      CollectMembers(b, accept);
      var k :| k in b && accept(k) == Some(q[i]);
      assert k in keys;
      NoClashClass(a, keys, accept, less, x, i, q[i]);
    }
  }

  lemma {:induction false} OrderExists<K(!new)>(keys: set<K>)
    ensures exists order :: IsOrder(order, keys)
    decreases |keys|
  {
    if keys == {} {
      assert IsOrder([], keys);
    } else {
      var k :| k in keys;
      OrderExists(keys - {k});
      var rest :| IsOrder(rest, keys - {k});
      assert IsOrder(rest + [k], keys);
    }
  }

  /** Two iteration orders that sort to different lists. */
  ghost predicate OrderShows<K(!new), T(!new)>(a: seq<K>, b: seq<K>, keys: set<K>, accept: K -> Option<T>, less: (T, T) -> bool) {
    IsOrder(a, keys) && IsOrder(b, keys) && Sort(Collect(a, accept), less) != Sort(Collect(b, accept), less)
  }

  /** With a clash two orders sort to different lists. */
  lemma ClashShows<K(!new), T(!new)>(keys: set<K>, accept: K -> Option<T>, less: (T, T) -> bool)
    requires StrictWeak(less) && Clash(keys, accept, less)
    ensures exists a, b :: OrderShows(a, b, keys, accept, less)
  {
    hide StrictWeak, Sort, Collect, IsOrder, Same;
    var j, k :| j in keys && k in keys
      && accept(j).Some? && accept(k).Some? && Same(less, accept(j).value, accept(k).value) && accept(j) != accept(k);
    OrderExists(keys - {j, k});
    var rest :| IsOrder(rest, keys - {j, k});
    SwappedOrders(rest, keys, j, k);
    SwapShows(rest, j, k, accept, less);
    assert OrderShows(rest + [j] + [k], rest + [k] + [j], keys, accept, less);
  }

  lemma SwappedOrders<K(!new)>(rest: seq<K>, keys: set<K>, j: K, k: K)
    requires j in keys && k in keys && j != k && IsOrder(rest, keys - {j, k})
    ensures IsOrder(rest + [j] + [k], keys) && IsOrder(rest + [k] + [j], keys)
  {
    hide IsOrder;
    var others := keys - {j, k};
    OrderPlus(rest, others, j);
    OrderPlus(rest + [j], others + {j}, k);
    OrderPlus(rest, others, k);
    OrderPlus(rest + [k], others + {k}, j);
    assert others + {j} + {k} == keys && others + {k} + {j} == keys;
  }

  lemma OrderPlus<K(!new)>(order: seq<K>, keys: set<K>, k: K)
    requires IsOrder(order, keys) && k !in keys
    ensures IsOrder(order + [k], keys + {k})
  {
  }

  lemma SwapShows<K(!new), T(!new)>(rest: seq<K>, j: K, k: K, accept: K -> Option<T>, less: (T, T) -> bool)
    requires StrictWeak(less) && accept(j).Some? && accept(k).Some?
    requires Same(less, accept(j).value, accept(k).value) && accept(j) != accept(k)
    ensures Sort(Collect(rest + [j] + [k], accept), less) != Sort(Collect(rest + [k] + [j], accept), less)
  {
    hide Sort, Sorted, Class, Collect;
    var u, v := accept(j).value, accept(k).value;
    CollectSnoc(rest + [j], k, accept);
    CollectSnoc(rest + [k], j, accept);
    var s, t := Collect(rest + [j] + [k], accept), Collect(rest + [k] + [j], accept);
    ClassSnoc(Collect(rest + [j], accept), v, u, less);
    ClassSnoc(Collect(rest + [k], accept), u, u, less);
    var p, q := Class(s, u, less), Class(t, u, less);
    assert p[|p| - 1] == v && q[|q| - 1] == u;
    SortIsStable(s, less);
    SortIsStable(t, less);
    assert Class(Sort(s, less), u, less) == p && Class(Sort(t, less), u, less) == q;
  }

  lemma CollectSnoc<K, T>(order: seq<K>, k: K, accept: K -> Option<T>)
    ensures Collect(order + [k], accept)
         == if accept(k).Some? then Collect(order, accept) + [accept(k).value] else Collect(order, accept)
  {
    assert (order + [k])[..|order + [k]| - 1] == order;
  }
}
