/** The shared queue with its cache: one step per region that a lock protects, in any interleaving of threads. */
module CachedQueue {
  import opened Bits
  import opened DateOrder
  import opened Cache

  // ----- the objects

  class Queue<T> {
    var bulk: seq<T>

    constructor ()
      ensures bulk == []
    {
      bulk := [];
    }

    method PushBack(item: T)
      modifies this
      ensures bulk == old(bulk) + [item]
    {
      bulk := bulk + [item];
    }

    method PushBackAll(items: seq<T>)
      modifies this
      ensures bulk == old(bulk) + items
    {
      assert items[..|items|] == items;
      for i := 0 to |items|
        invariant bulk == old(bulk) + items[..i]
      {
        bulk := bulk + [items[i]];
      }
    }

    method Grab() returns (result: seq<T>)
      modifies this
      ensures result == old(bulk) && bulk == []
    {
      result, bulk := bulk, [];
    }
  }

  class CachedQueue<K(==), D> {
    const queue: Queue<Item<K, D>>
    const cache: Cache<K, D>

    constructor (cache: Cache<K, D>)
      ensures queue.bulk == [] && fresh(queue) && this.cache == cache
    {
      queue := new Queue();
      this.cache := cache;
    }

    /** The objects are as the abstract state says. */
    ghost predicate Shows(s: State<K, D>)
      reads queue, cache
    {
      queue.bulk == s.bulk && cache.bulk == s.cache
    }

    /** Both steps of a push, under one lock of the queue. */
    method PushBackAll(items: seq<Item<K, D>>, ghost s: State<K, D>)
      requires Shows(s) && s.pushing == []
      modifies queue, cache
      ensures Shows(Perform(Perform(s, Append(items)), Commit))
    {
      queue.PushBackAll(items);
      cache.Update(items);
    }

    /** A single item reaches the cache as a vector of one. */
    method PushBack(item: Item<K, D>, ghost s: State<K, D>)
      requires Shows(s) && s.pushing == []
      modifies queue, cache
      ensures Shows(Perform(Perform(s, Append([item])), Commit))
    {
      queue.PushBack(item);
      cache.Update([item]);
    }
  }

  // ----- the steps

  /**
   * Besides the queue and the cache: all batches in both, the batch (none or one) in the queue but not yet in
   * the cache, and all items grabbed so far.
   */
  datatype State<K, D> = State(bulk: seq<Item<K, D>>, cache: Bulk<K, D>, committed: seq<seq<Item<K, D>>>,
                               pushing: seq<seq<Item<K, D>>>, grabbed: seq<Item<K, D>>)
  {
    /** Everything pushed, in the order of the queue's lock. */
    function History(): seq<seq<Item<K, D>>> {
      committed + pushing
    }
  }

  datatype Action<K, D> =
    | Append(items: seq<Item<K, D>>)  // take the queue's lock, append
    | Commit                          // update the cache, let the queue's lock go
    | Grab                            // under the queue's lock
    | Get(keys: seq<K>)               // under the cache's lock alone

  predicate Enabled<K, D>(s: State<K, D>, a: Action<K, D>) {
    match a
    case Append(_) => s.pushing == []
    case Commit => |s.pushing| == 1
    case Grab => s.pushing == []
    case Get(_) => true
  }

  function Perform<K, D>(s: State<K, D>, a: Action<K, D>): State<K, D>
    requires Enabled(s, a)
  {
    match a
    case Append(items) => s.(bulk := s.bulk + items, pushing := [items])
    case Commit => s.(cache := Updated(s.cache, s.pushing[0]), committed := s.committed + s.pushing, pushing := [])
    case Grab => s.(bulk := [], grabbed := s.grabbed + s.bulk)
    case Get(_) => s
  }

  /** A run of any number of threads. */
  ghost predicate Run<K(!new), D(!new)>(states: seq<State<K, D>>, actions: seq<Action<K, D>>) {
    && |states| == |actions| + 1
    && states[0] == State([], map[], [], [], [])
    && forall i :: 0 <= i < |actions| ==>
         Enabled(states[i], actions[i]) && states[i + 1] == Perform(states[i], actions[i])
  }

  // ----- what every run keeps

  ghost predicate Inv<K(!new), D(!new)>(s: State<K, D>) {
    && |s.pushing| <= 1
    && s.grabbed + s.bulk == Flatten(s.History())
    && s.cache == View(Flatten(s.committed))
  }

  lemma {:induction false} FlattenSnoc<T>(batches: seq<seq<T>>, batch: seq<T>)
    ensures Flatten(batches + [batch]) == Flatten(batches) + batch
  {
  }

  lemma {:induction false} StepKeepsInv<K(!new), D(!new)>(s: State<K, D>, a: Action<K, D>)
    requires Inv(s) && Enabled(s, a)
    ensures Inv(Perform(s, a))
  {
    match a {
      case Append(items) =>
        assert s.History() == s.committed;
        FlattenSnoc(s.committed, items);
        assert s.grabbed + (s.bulk + items) == s.grabbed + s.bulk + items;
      case Commit =>
        assert s.pushing == [s.pushing[0]] && s.committed + s.pushing + [] == s.committed + s.pushing;
        FlattenSnoc(s.committed, s.pushing[0]);
        UpdatedConcat(map[], Flatten(s.committed), s.pushing[0]);
      case Grab =>
        assert s.grabbed + s.bulk + [] == s.grabbed + s.bulk;
      case Get(_) =>
    }
  }

  /**
   * In every reachable state the items grabbed and those still queued are the pushed history in lock order, and the
   * cache is the view of that history, without the batch still being pushed if there is one.
   */
  lemma {:induction false} RunKeepsInv<K(!new), D(!new)>(states: seq<State<K, D>>, actions: seq<Action<K, D>>, i: nat)
    requires Run(states, actions) && i < |states|
    ensures Inv(states[i])
  {
    if i > 0 {
      RunKeepsInv(states, actions, i - 1);
      StepKeepsInv(states[i - 1], actions[i - 1]);
    }
  }

  lemma {:induction false} FreeQueueAgreesWithCache<K(!new), D(!new)>(states: seq<State<K, D>>,
          actions: seq<Action<K, D>>, i: nat)
    requires Run(states, actions) && i < |states| && states[i].pushing == []
    ensures states[i].cache == View(states[i].grabbed + states[i].bulk)
  {
    RunKeepsInv(states, actions, i);
    assert states[i].History() == states[i].committed;
  }

  /** From step to step the history only grows, at its end, and the cache never goes back in time. */
  lemma {:induction false} RunGrows<K(!new), D(!new)>(states: seq<State<K, D>>, actions: seq<Action<K, D>>,
          i: nat, j: nat)
    requires Run(states, actions) && i <= j < |states|
    ensures states[i].committed <= states[j].committed && states[i].History() <= states[j].History()
    ensures states[i].grabbed <= states[j].grabbed
    ensures forall k :: k in states[i].cache ==>
              k in states[j].cache && !Greater(states[i].cache[k].date, states[j].cache[k].date)
    decreases j - i
  {
    if i == j {
      forall k | k in states[i].cache ensures !Greater(states[i].cache[k].date, states[i].cache[k].date) {
        GreaterTotal(states[i].cache[k].date, states[i].cache[k].date);
      }
    } else {
      RunGrows(states, actions, i, j - 1);
      var before, a := states[j - 1], actions[j - 1];
      forall k | k in states[i].cache
        ensures k in states[j].cache && !Greater(states[i].cache[k].date, states[j].cache[k].date)
      {
        if a.Commit? {
          DatesGrow(before.cache, before.pushing[0], k);
          NotGreaterTransitive(states[i].cache[k].date, before.cache[k].date, states[j].cache[k].date);
        }
      }
    }
  }

  lemma {:induction false} NotGreaterTransitive(x: seq<byte>, y: seq<byte>, z: seq<byte>)
    requires |x| == |y| == |z| && !Greater(x, y) && !Greater(y, z)
    ensures !Greater(x, z)
  {
    GreaterTotal(x, y);
    GreaterTotal(y, z);
    GreaterTotal(x, z);
    if Greater(x, z) && x != y {
      GreaterTransitive(y, x, z);
    }
  }

  /** Every answer is the view of a prefix of whole batches of the final history: those committed when it was given. */
  lemma {:induction false} EveryGetSeesWholeBatches<K(!new), D(!new)>(states: seq<State<K, D>>,
          actions: seq<Action<K, D>>, i: nat)
    requires Run(states, actions) && i < |actions| && actions[i].Get?
    ensures var n, last := |states[i].committed|, states[|actions|];
            && n <= |last.History()|
            && Lookup(states[i].cache, actions[i].keys) == Lookup(View(Flatten(last.History()[..n])), actions[i].keys)
  {
    RunKeepsInv(states, actions, i);
    RunGrows(states, actions, i, |actions|);
    assert states[i].committed == states[|actions|].History()[..|states[i].committed|];
  }
}
