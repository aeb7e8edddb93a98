/** The latest-per-key cache, and its agreement with the history of everything it was ever given. */
module Cache {
  import opened GatewayWire
  import opened DateOrder

  /** What the cache needs to know of a sample, an event or a setting. */
  datatype Item<K, D> = Item(key: K, date: Date, data: D)

  type Bulk<K, D> = map<K, Item<K, D>>

  function Absorb<K, D>(m: Bulk<K, D>, item: Item<K, D>): Bulk<K, D> {
    if item.key !in m || Greater(item.date, m[item.key].date) then m[item.key := item] else m
  }

  /** The cache after one call of update. */
  function Updated<K, D>(m: Bulk<K, D>, items: seq<Item<K, D>>): Bulk<K, D> {
    if items == [] then m else Absorb(Updated(m, items[..|items| - 1]), items[|items| - 1])
  }

  /** The values of the requested keys that are present, in the order of the request. */
  function Lookup<K, D>(m: Bulk<K, D>, keys: seq<K>): seq<Item<K, D>> {
    if keys == [] then []
    else Lookup(m, keys[..|keys| - 1]) + var k := keys[|keys| - 1]; if k in m then [m[k]] else []
  }

  class Cache<K(==), D> {
    var bulk: Bulk<K, D>

    constructor ()
      ensures bulk == map[]
    {
      bulk := map[];
    }

    method Get(keys: seq<K>) returns (items: seq<Item<K, D>>)
      ensures items == Lookup(bulk, keys)
    {
      items := [];
      assert keys[..|keys|] == keys;
      for i := 0 to |keys|
        invariant items == Lookup(bulk, keys[..i])
      {
        assert keys[..i + 1][..i] == keys[..i];
        if keys[i] in bulk {
          items := items + [bulk[keys[i]]];
        }
      }
    }

    method Update(items: seq<Item<K, D>>)
      modifies this
      ensures bulk == Updated(old(bulk), items)
    {
      assert items[..|items|] == items;
      for i := 0 to |items|
        invariant bulk == Updated(old(bulk), items[..i])
      {
        assert items[..i + 1][..i] == items[..i];
        var item := items[i];
        if item.key !in bulk || Greater(item.date, bulk[item.key].date) {
          bulk := bulk[item.key := item];
        }
      }
    }
  }

  // ----- what the cache holds, in terms of the history

  /** The cache a whole history leaves behind. */
  function View<K, D>(history: seq<Item<K, D>>): Bulk<K, D> {
    Updated(map[], history)
  }

  lemma {:induction false} UpdatedConcat<K, D>(m: Bulk<K, D>, a: seq<Item<K, D>>, b: seq<Item<K, D>>)
    ensures Updated(Updated(m, a), b) == Updated(m, a + b)
  {
    if b == [] {
      assert a + b == a;
    } else {
      var init := b[..|b| - 1];
      assert (a + b)[..|a + b| - 1] == a + init;
      UpdatedConcat(m, a, init);
    }
  }

  function Flatten<T>(batches: seq<seq<T>>): seq<T> {
    if batches == [] then [] else Flatten(batches[..|batches| - 1]) + batches[|batches| - 1]
  }

  function UpdatedByAll<K, D>(m: Bulk<K, D>, batches: seq<seq<Item<K, D>>>): Bulk<K, D> {
    if batches == [] then m else Updated(UpdatedByAll(m, batches[..|batches| - 1]), batches[|batches| - 1])
  }

  /** However the items are cut into batches, the cache is the same. */
  lemma {:induction false} BatchesDoNotMatter<K, D>(batches: seq<seq<Item<K, D>>>)
    ensures UpdatedByAll(map[], batches) == View(Flatten(batches))
  {
    if batches != [] {
      var init := batches[..|batches| - 1];
      BatchesDoNotMatter(init);
      UpdatedConcat(map[], Flatten(init), batches[|batches| - 1]);
    }
  }

  /** No item of the same key has a greater date. */
  ghost predicate Greatest<K(!new), D(!new)>(h: seq<Item<K, D>>, x: Item<K, D>) {
    x in h && forall y :: y in h && y.key == x.key ==> !Greater(y.date, x.date)
  }

  /** The first to arrive of the greatest date of its key. */
  ghost predicate Winner<K(!new), D(!new)>(h: seq<Item<K, D>>, i: int) {
    && 0 <= i < |h|
    && Greatest(h, h[i])
    && forall j :: 0 <= j < i && h[j].key == h[i].key ==> h[j].date != h[i].date
  }

  /** What m holds for k is the winner of the key, and nothing if the key never occurred. */
  ghost predicate HoldsWinner<K(!new), D(!new)>(m: Bulk<K, D>, h: seq<Item<K, D>>, k: K) {
    if k in m then exists i :: Winner(h, i) && h[i].key == k && h[i] == m[k]
    else forall i :: 0 <= i < |h| ==> h[i].key != k
  }

  /** The cache holds the winner of every key that occurred, and nothing else. */
  lemma {:induction false} CacheHoldsWinner<K(!new), D(!new)>(h: seq<Item<K, D>>, k: K)
    ensures HoldsWinner(View(h), h, k)
  {
    if h != [] {
      var init, last := h[..|h| - 1], h[|h| - 1];
      assert init + [last] == h;
      CacheHoldsWinner(init, k);
      if last.key == k {
        WinnerAfter(View(init), init, last);
      } else if k in View(init) {
        var i :| Winner(init, i) && init[i].key == k && init[i] == View(init)[k];
        StillWinner(init, last, i);
      }
    }
  }

  lemma {:induction false} StillWinner<K(!new), D(!new)>(init: seq<Item<K, D>>, last: Item<K, D>, i: int)
    requires Winner(init, i) && (last.key == init[i].key ==> !Greater(last.date, init[i].date))
    ensures Winner(init + [last], i) && (init + [last])[i] == init[i]
  {
  }

  lemma {:induction false} NewWinner<K(!new), D(!new)>(init: seq<Item<K, D>>, last: Item<K, D>)
    requires forall y :: y in init && y.key == last.key ==> Greater(last.date, y.date)
    ensures Winner(init + [last], |init|)
  {
    var h := init + [last];
    forall y | y in h && y.key == last.key ensures !Greater(y.date, last.date) && (y in init ==> y.date != last.date) {
      GreaterTotal(last.date, y.date);
    }
    assert h[|init|] == last;
  }

  lemma {:induction false} WinnerAfter<K(!new), D(!new)>(m: Bulk<K, D>, init: seq<Item<K, D>>, last: Item<K, D>)
    requires HoldsWinner(m, init, last.key)
    ensures HoldsWinner(Absorb(m, last), init + [last], last.key)
  {
    if last.key !in m {
      NewWinner(init, last);
    } else {
      var i :| Winner(init, i) && init[i].key == last.key && init[i] == m[last.key];
      if Greater(last.date, init[i].date) {
        forall y | y in init && y.key == last.key ensures Greater(last.date, y.date) {
          GreaterTotal(y.date, init[i].date);
          if y.date != init[i].date {
            GreaterTransitive(last.date, init[i].date, y.date);
          }
        }
        NewWinner(init, last);
      } else {
        StillWinner(init, last, i);
      }
    }
  }

  lemma {:induction false} WinnerUnique<K(!new), D(!new)>(h: seq<Item<K, D>>, i: int, j: int)
    requires Winner(h, i) && Winner(h, j) && h[i].key == h[j].key
    ensures i == j
  {
    GreaterTotal(h[i].date, h[j].date);
  }

  // ----- order of arrival

  /** No two different items of a key share its greatest date. */
  ghost predicate Settled<K(!new), D(!new)>(h: seq<Item<K, D>>) {
    forall x, y :: Greatest(h, x) && Greatest(h, y) && x.key == y.key ==> x == y
  }

  /** The order of arrival does not matter exactly when no two different items of a key share its greatest date. */
  lemma {:induction false} OrderIndependentExactly<K(!new), D(!new)>(h: seq<Item<K, D>>)
    ensures (forall g: seq<Item<K, D>> :: multiset(g) == multiset(h) ==> View(g) == View(h)) <==> Settled(h)
  {
    if Settled(h) {
      forall g: seq<Item<K, D>> | multiset(g) == multiset(h) ensures View(g) == View(h) {
        SettledByContents(g, h);
      }
    } else {
      var x, y :| Greatest(h, x) && Greatest(h, y) && x.key == y.key && x != y;
      var g1 := FirstComes(h, x);
      var g2 := FirstComes(h, y);
      assert View(g1) != View(g2);
    }
  }

  /** Only what arrived counts, once no greatest date is shared. */
  lemma {:induction false} SettledByContents<K(!new), D(!new)>(g: seq<Item<K, D>>, h: seq<Item<K, D>>)
    requires multiset(g) == multiset(h) && Settled(h)
    ensures View(g) == View(h)
  {
    forall x ensures x in g <==> x in h {
      assert x in multiset(g) <==> x in multiset(h);
    }
    forall k: K ensures (k in View(g) <==> k in View(h)) && (k in View(h) ==> View(g)[k] == View(h)[k]) {
      SettledKey(g, h, k);
    }
  }

  lemma {:induction false} SettledKey<K(!new), D(!new)>(g: seq<Item<K, D>>, h: seq<Item<K, D>>, k: K)
    requires (forall x :: x in g <==> x in h) && Settled(h)
    ensures (k in View(g) <==> k in View(h)) && (k in View(h) ==> View(g)[k] == View(h)[k])
  {
    CacheHoldsWinner(g, k);
    CacheHoldsWinner(h, k);
    if k in View(g) {
      var i :| Winner(g, i) && g[i].key == k && g[i] == View(g)[k];
      assert Greatest(h, g[i]);
    }
    if k in View(h) {
      var j :| Winner(h, j) && h[j].key == k && h[j] == View(h)[k];
      assert h[j] in g;
    }
  }

  lemma {:induction false} InFront<T>(h: seq<T>, i: nat)
    requires i < |h|
    ensures multiset([h[i]] + h[..i] + h[i + 1..]) == multiset(h)
  {
    assert h == h[..i] + [h[i]] + h[i + 1..];
  }

  /** The same items with x in front: x wins if nothing has a greater date. */
  lemma {:induction false} FirstComes<K(!new), D(!new)>(h: seq<Item<K, D>>, x: Item<K, D>) returns (g: seq<Item<K, D>>)
    requires Greatest(h, x)
    ensures multiset(g) == multiset(h) && x.key in View(g) && View(g)[x.key] == x
  {
    var i :| 0 <= i < |h| && h[i] == x;
    g := [x] + h[..i] + h[i + 1..];
    InFront(h, i);
    assert Winner(g, 0) by {
      assert forall y :: y in g ==> y in h;
      assert g[0] == x;
    }
    CacheHoldsWinner(g, x.key);
    if x.key in View(g) {
      var j :| Winner(g, j) && g[j].key == x.key && g[j] == View(g)[x.key];
      WinnerUnique(g, 0, j);
    }
  }

  // ----- reading

  /** Keys that are not there leave no trace in the answer, the others their value, in the order of the request. */
  lemma {:induction false} LookupInOrder<K, D>(m: Bulk<K, D>, a: seq<K>, b: seq<K>)
    ensures Lookup(m, a + b) == Lookup(m, a) + Lookup(m, b)
    ensures forall k :: Lookup(m, [k]) == if k in m then [m[k]] else []
  {
    forall k ensures Lookup(m, [k]) == if k in m then [m[k]] else [] {
      assert [k][..0] == [];
    }
    if b == [] {
      assert a + b == a;
    } else {
      var init := b[..|b| - 1];
      assert (a + b)[..|a + b| - 1] == a + init;
      LookupInOrder(m, a, init);
    }
  }

  /** An update never takes a key away nor replaces an item by one of an earlier date. */
  lemma {:induction false} DatesGrow<K, D>(m: Bulk<K, D>, items: seq<Item<K, D>>, k: K)
    requires k in m
    ensures k in Updated(m, items) && !Greater(m[k].date, Updated(m, items)[k].date)
  {
    GreaterTotal(m[k].date, m[k].date);
    if items != [] {
      var init, last := items[..|items| - 1], items[|items| - 1];
      DatesGrow(m, init, k);
      var before := Updated(m, init)[k];
      if last.key == k && Greater(last.date, before.date) {
        GreaterTotal(m[k].date, before.date);
        if m[k].date != before.date {
          GreaterTransitive(last.date, before.date, m[k].date);
        }
        GreaterTotal(m[k].date, last.date);
      }
    }
  }
}
