/**
 * The memoising wrapper of `cache_results` in project/task3/cache.py: an
 * insertion-ordered table from call keys to results, consulted before the
 * wrapped function is called and trimmed oldest-first when it grows past
 * `max_size`.
 *
 * A call key stands for the pair `(args, frozenset(kwargs.items()))`; the
 * wrapped function is a pure function from keys to results.
 */
module Caching {

  /** The key order after a call with `key`: a hit changes nothing (an entry's
      position is never refreshed), a miss appends the key and, when
      `maxSize > 0` and the table then holds more than `maxSize` entries, drops
      the oldest one. */
  function Admit<K(==)>(order: seq<K>, maxSize: int, key: K): seq<K>
  {
    if key in order then order
    else if maxSize > 0 && |order| + 1 > maxSize then (order + [key])[1..]
    else order + [key]
  }

  /** No key occurs twice. */
  predicate Distinct<K(==)>(order: seq<K>)
  {
    forall i, j :: 0 <= i < j < |order| ==> order[i] != order[j]
  }

  /** After a call the key is cached, no key occurs twice, and a bounded table
      stays within its bound. */
  lemma AdmitKeeps<K>(order: seq<K>, maxSize: int, key: K)
    requires Distinct(order) && (maxSize > 0 ==> |order| <= maxSize)
    ensures var o := Admit(order, maxSize, key);
      && key in o && Distinct(o)
      && (maxSize > 0 ==> |o| <= maxSize)
  {
    var o := Admit(order, maxSize, key);
    if key !in order && maxSize > 0 && |order| + 1 > maxSize {
      assert o[|o| - 1] == key;
    }
  }

  /** A miss keeps every other cached key except possibly the oldest one, and
      keeps them in order; without a positive bound nothing is ever dropped. */
  lemma AdmitEvicts<K>(order: seq<K>, maxSize: int, key: K)
    requires key !in order
    ensures var o := Admit(order, maxSize, key);
      && (maxSize <= 0 || |order| < maxSize ==> o == order + [key])
      && (maxSize > 0 && |order| >= maxSize ==> o == order[1..] + [key])
  {
    if maxSize > 0 && |order| >= maxSize {
      assert (order + [key])[1..] == order[1..] + [key];
    }
  }

  /** The key orders after a sequence of calls. */
  function Run<K(==)>(order: seq<K>, maxSize: int, keys: seq<K>): seq<K>
    decreases |keys|
  {
    if keys == [] then order else Run(Admit(order, maxSize, keys[0]), maxSize, keys[1..])
  }

  /** Which of the calls `keys[from..]`, made on the table `order`, compute the
      result: exactly those whose key is not cached at that moment. */
  function Misses<K(==)>(order: seq<K>, maxSize: int, keys: seq<K>, from: nat): seq<bool>
    decreases |keys| - from
  {
    if from >= |keys| then []
    else [keys[from] !in order] + Misses(Admit(order, maxSize, keys[from]), maxSize, keys, from + 1)
  }

  /** Unbounded caching: with `max_size` 0 every key ever looked up stays
      cached, so each distinct key is computed once. */
  lemma {:induction false} UnboundedKeepsAll<K>(order: seq<K>, keys: seq<K>, k: K)
    requires k in order || k in keys
    ensures k in Run(order, 0, keys)
    decreases |keys|
  {
    if keys != [] {
      assert k in Admit(order, 0, keys[0]) || k in keys[1..] by {
        if k != keys[0] && k !in order {
          assert k in keys[1..];
        }
      }
      UnboundedKeepsAll(Admit(order, 0, keys[0]), keys[1..], k);
    }
  }

  /** The last four calls of the worked case below, from the table the first
      three leave. */
  lemma FifoTail()
    ensures Misses([(1, 2), (2, 3)], 3, [(1, 2), (1, 2), (2, 3), (3, 4), (1, 2), (4, 5), (1, 2)], 3)
         == [true, false, true, true]
  {
    assert Admit([(1, 2), (2, 3), (3, 4)], 3, (4, 5)) == [(2, 3), (3, 4), (4, 5)];
  }

  /** The worked case of the tests: with `max_size` 3, the calls (1,2) (1,2)
      (2,3) (3,4) (1,2) (4,5) (1,2) compute on the first, third, fourth, sixth
      and seventh call: the hit on (1,2) does not refresh it, so (4,5) evicts
      it. */
  lemma FifoExample()
    ensures Misses([], 3, [(1, 2), (1, 2), (2, 3), (3, 4), (1, 2), (4, 5), (1, 2)], 0)
         == [true, false, true, true, false, true, true]
  {
    FifoTail();
  }

  class Cache<K(==, !new), V> {
    /** `max_size`. */
    const maxSize: int
    /** The wrapped function. */
    const func: K -> V
    /** The cached keys, oldest first. */
    var order: seq<K>
    /** The cached results. */
    var results: map<K, V>
    /** The keys the wrapped function has been called with, in call order. */
    ghost var calls: seq<K>

    /** The table holds each cached key once, in `order`, with the function's
        result for it, and never more than a positive `maxSize` entries. */
    ghost predicate Valid()
      reads this
    {
      && Distinct(order)
      && (forall k :: k in order <==> k in results)
      && (forall k :: k in results ==> results[k] == func(k))
      && (maxSize > 0 ==> |order| <= maxSize)
    }

    /** `cache_results(max_size)(func)`: an empty table. */
    constructor (maxSize: int, func: K -> V)
      ensures Valid() && this.maxSize == maxSize && this.func == func
      ensures order == [] && results == map[] && calls == []
    {
      this.maxSize := maxSize;
      this.func := func;
      order := [];
      results := map[];
      calls := [];
    }

    /** `wrapper(*args, **kwargs)`: the function's result for `key`, computed
        (once) only when it is not cached. */
    method Call(key: K) returns (r: V)
      requires Valid()
      modifies this
      ensures Valid() && r == func(key)
      ensures order == Admit(old(order), maxSize, key)
      ensures key in old(results) ==> results == old(results) && calls == old(calls)
      ensures key !in old(results) ==> calls == old(calls) + [key]
    {
      if key in results {
        return results[key];
      }
      r := func(key);
      calls := calls + [key];
      AdmitKeeps(order, maxSize, key);
      if maxSize > 0 && |order| + 1 > maxSize {
        var oldest := order[0];
        results := results[key := r] - {oldest};
        order := (order + [key])[1..];
        forall k | true
          ensures k in order <==> k in results
        {
          assert k in order <==> k in old(order) + [key] && k != oldest by {
            assert old(order) + [key] == [oldest] + order;
          }
        }
      } else {
        results := results[key := r];
        order := order + [key];
      }
    }
  }
}
