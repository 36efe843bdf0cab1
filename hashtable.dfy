/**
 * The separate-chaining hash table of project/task5/main.py.
 *
 * The table keeps a list of buckets; bucket `i` is a list of `(key, value)`
 * pairs whose keys hash to `i`. The first half of this module gives the
 * abstract meaning of a bucket list (the map it stands for) and the facts the
 * table operations rely on; the class `HashTable` below models the Python
 * object field by field.
 */
module HashTables {
  import opened Wrappers

  // ---------------------------------------------------------------------------
  // Buckets and what they mean
  // ---------------------------------------------------------------------------

  /** The bucket index of `key` in a table of `n` buckets: Python's `hash(key) % n`,
      which is never negative for a positive `n`, exactly like Dafny's `%`. */
  function Slot<K>(hash: K -> int, n: nat, key: K): (i: nat)
    requires n >= 1
    ensures i < n
  {
    hash(key) % n
  }

  /** The map a single chain stands for; a later pair for the same key wins. */
  function BucketMap<K(==), V>(b: seq<(K, V)>): map<K, V>
  {
    if b == [] then map[] else BucketMap(b[..|b| - 1])[b[|b| - 1].0 := b[|b| - 1].1]
  }

  /** No key occurs twice in one chain. */
  ghost predicate NoDupKeys<K, V>(b: seq<(K, V)>)
  {
    forall s, t :: 0 <= s < t < |b| ==> b[s].0 != b[t].0
  }

  /** Every pair of chain `b` belongs in bucket `i` of a table of `n` buckets. */
  ghost predicate InSlot<K, V>(b: seq<(K, V)>, hash: K -> int, n: nat, i: nat)
  {
    n >= 1 && forall t :: 0 <= t < |b| ==> Slot(hash, n, b[t].0) == i
  }

  /** Every pair sits in the bucket its key hashes to. */
  ghost predicate Placed<K, V>(bs: seq<seq<(K, V)>>, hash: K -> int, n: nat)
  {
    n >= 1 && forall i :: 0 <= i < |bs| ==> InSlot(bs[i], hash, n, i)
  }

  /** The structural invariant of a bucket list of `n` buckets. */
  ghost predicate WellFormed<K, V>(bs: seq<seq<(K, V)>>, hash: K -> int, n: nat)
  {
    |bs| == n && Placed(bs, hash, n) && forall i :: 0 <= i < |bs| ==> NoDupKeys(bs[i])
  }

  /** The map a whole bucket list stands for. */
  function TableMap<K(==), V>(bs: seq<seq<(K, V)>>): map<K, V>
  {
    if bs == [] then map[] else TableMap(bs[..|bs| - 1]) + BucketMap(bs[|bs| - 1])
  }

  /** The number of pairs stored in all buckets. */
  function TotalLen<K, V>(bs: seq<seq<(K, V)>>): nat
  {
    if bs == [] then 0 else TotalLen(bs[..|bs| - 1]) + |bs[|bs| - 1]|
  }

  /** All pairs in bucket traversal order, as the Python iterators yield them. */
  function Flatten<K, V>(bs: seq<seq<(K, V)>>): seq<(K, V)>
  {
    if bs == [] then [] else Flatten(bs[..|bs| - 1]) + bs[|bs| - 1]
  }

  /** `after` is `before` with the pair at some position `i` of bucket `index`,
      a pair holding `key`, overwritten by `(key, value)`: `bucket[i] = (key, value)`. */
  ghost predicate Overwritten<K, V>(before: seq<seq<(K, V)>>, after: seq<seq<(K, V)>>, index: nat, key: K, value: V)
  {
    && index < |before|
    && exists i :: 0 <= i < |before[index]| && before[index][i].0 == key
         && after == before[index := before[index][i := (key, value)]]
  }

  /** `after` is what `__setitem__` leaves of `before` for a new key: `(key, value)`
      is appended to bucket `index`; then, when the table now has `n` buckets
      instead of `|before|`, every bucket `s` is the chain of slot `s` in the
      traversal of the grown table. */
  ghost predicate Inserted<K, V>(before: seq<seq<(K, V)>>, after: seq<seq<(K, V)>>, index: nat, key: K, value: V, hash: K -> int, n: nat)
  {
    && index < |before|
    && var grown := before[index := before[index] + [(key, value)]];
       && (n == |before| ==> after == grown)
       && (n != |before| ==>
             && n >= 1 && |after| == n
             && forall s :: 0 <= s < n ==> after[s] == Chain(Flatten(grown), hash, n, s))
  }

  /** `after` is what `__delitem__` leaves of `before`: the pair at some position
      `i` of bucket `index`, a pair holding `key`, is removed (`del bucket[i]`);
      then, when the table now has `n` buckets instead of `|before|`, every bucket
      `s` is the chain of slot `s` in the traversal of the table after the removal. */
  ghost predicate Deleted<K, V>(before: seq<seq<(K, V)>>, after: seq<seq<(K, V)>>, index: nat, key: K, hash: K -> int, n: nat)
  {
    && index < |before|
    && exists i :: 0 <= i < |before[index]| && before[index][i].0 == key
         && var removed := before[index := before[index][..i] + before[index][i + 1..]];
            && (n == |before| ==> after == removed)
            && (n != |before| ==>
                  && n >= 1 && |after| == n
                  && forall s :: 0 <= s < n ==> after[s] == Chain(Flatten(removed), hash, n, s))
  }

  /** The pairs of `ps` whose key hashes to slot `s` of `n`, in their order in
      `ps`: the chain a rehash into `n` buckets gives slot `s`. */
  function Chain<K, V>(ps: seq<(K, V)>, hash: K -> int, n: nat, s: nat): (c: seq<(K, V)>)
    requires n >= 1
    ensures |c| <= |ps|
  {
    if ps == [] then []
    else
      var last := ps[|ps| - 1];
      Chain(ps[..|ps| - 1], hash, n, s) + (if Slot(hash, n, last.0) == s then [last] else [])
  }

  /** Rehashing pairs that follow other pairs appends their chain to the chain
      of the earlier ones. */
  lemma {:induction false} ChainAppend<K, V>(a: seq<(K, V)>, b: seq<(K, V)>, hash: K -> int, n: nat, s: nat)
    requires n >= 1
    ensures Chain(a + b, hash, n, s) == Chain(a, hash, n, s) + Chain(b, hash, n, s)
    decreases |b|
  {
    if b == [] {
      assert a + b == a;
    } else {
      var init := b[..|b| - 1];
      ChainAppend(a, init, hash, n, s);
      assert (a + b)[..|a + b| - 1] == a + init;
    }
  }

  /** One more pair: its chain grows by it, every other chain stays. */
  lemma ChainSnoc<K, V>(ps: seq<(K, V)>, p: (K, V), hash: K -> int, n: nat, s: nat)
    requires n >= 1
    ensures Chain(ps + [p], hash, n, s) ==
      Chain(ps, hash, n, s) + (if Slot(hash, n, p.0) == s then [p] else [])
  {
    assert (ps + [p])[..|ps|] == ps;
  }

  /** Buckets `o` with the pairs `ps` appended one by one, in order, each to
      the bucket of its slot, as re-insertion by `_resize` appends them. */
  function Rehashed<K, V>(o: seq<seq<(K, V)>>, ps: seq<(K, V)>, hash: K -> int, n: nat): (r: seq<seq<(K, V)>>)
    requires n >= 1 && |o| == n
    ensures |r| == n
  {
    if ps == [] then o
    else
      var b, last := Rehashed(o, ps[..|ps| - 1], hash, n), ps[|ps| - 1];
      var i := Slot(hash, n, last.0);
      b[i := b[i] + [last]]
  }

  /** One more pair is appended to the bucket of its slot. */
  lemma RehashedSnoc<K, V>(o: seq<seq<(K, V)>>, ps: seq<(K, V)>, ps2: seq<(K, V)>, k: K, v: V, hash: K -> int, n: nat)
    requires n >= 1 && |o| == n && ps2 == ps + [(k, v)]
    ensures var b := Rehashed(o, ps, hash, n);
      b[Slot(hash, n, k) := b[Slot(hash, n, k)] + [(k, v)]] == Rehashed(o, ps2, hash, n)
  {
    assert ps2[..|ps2| - 1] == ps;
  }

  /** Each bucket of the result is the old bucket followed by the chain of its
      slot: the pairs of `ps` that hash there, in their order in `ps`. */
  lemma {:induction false} RehashedChains<K, V>(o: seq<seq<(K, V)>>, ps: seq<(K, V)>, hash: K -> int, n: nat)
    requires n >= 1 && |o| == n
    ensures forall s :: 0 <= s < n ==> Rehashed(o, ps, hash, n)[s] == o[s] + Chain(ps, hash, n, s)
    decreases |ps|
  {
    if ps == [] {
      forall s | 0 <= s < n
        ensures Rehashed(o, ps, hash, n)[s] == o[s] + Chain(ps, hash, n, s)
      {
        assert o[s] + [] == o[s];
      }
    } else {
      RehashedChains(o, ps[..|ps| - 1], hash, n);
    }
  }

  /** Extending by `a` and then by `b` is extending by `a + b`. */
  lemma {:induction false} RehashedAppend<K, V>(o: seq<seq<(K, V)>>, a: seq<(K, V)>, b: seq<(K, V)>, hash: K -> int, n: nat)
    requires n >= 1 && |o| == n
    ensures Rehashed(Rehashed(o, a, hash, n), b, hash, n) == Rehashed(o, a + b, hash, n)
    decreases |b|
  {
    if b == [] {
      assert a + b == a;
    } else {
      RehashedAppend(o, a, b[..|b| - 1], hash, n);
      assert (a + b)[..|a + b| - 1] == a + b[..|b| - 1];
    }
  }

  /** The index of the first non-empty bucket, or `|bs|` when all are empty. */
  function FirstNonEmpty<K, V>(bs: seq<seq<(K, V)>>): (i: nat)
    ensures i <= |bs|
    ensures forall t :: 0 <= t < i ==> bs[t] == []
    ensures i < |bs| ==> bs[i] != []
  {
    if bs == [] then 0
    else if bs[0] != [] then 0
    else 1 + FirstNonEmpty(bs[1..])
  }

  // ---------------------------------------------------------------------------
  // Facts about a single chain
  // ---------------------------------------------------------------------------

  /** A key of a chain's map comes from some pair of the chain, whose value it has. */
  lemma {:induction false} BucketKeyAt<K, V>(b: seq<(K, V)>, key: K) returns (t: nat)
    requires key in BucketMap(b)
    ensures t < |b| && b[t].0 == key && BucketMap(b)[key] == b[t].1
  {
    var m := |b| - 1;
    if b[m].0 == key {
      t := m;
    } else {
      t := BucketKeyAt(b[..m], key);
    }
  }

  /** A key that no pair of the chain carries is not in its map. */
  lemma {:induction false} BucketMissing<K, V>(b: seq<(K, V)>, key: K)
    requires forall t :: 0 <= t < |b| ==> b[t].0 != key
    ensures key !in BucketMap(b)
  {
    if b != [] {
      BucketMissing(b[..|b| - 1], key);
    }
  }

  /** In a chain without duplicate keys, every pair is what the map says. */
  lemma {:induction false} BucketHasAt<K, V>(b: seq<(K, V)>, t: nat)
    requires NoDupKeys(b) && t < |b|
    ensures b[t].0 in BucketMap(b) && BucketMap(b)[b[t].0] == b[t].1
  {
    var m := |b| - 1;
    if t < m {
      assert NoDupKeys(b[..m]);
      BucketHasAt(b[..m], t);
      assert b[m].0 != b[t].0;
    }
  }

  /** Pairs of a chain placed in bucket `i` have keys that hash to `i`. */
  lemma BucketSlot<K, V>(b: seq<(K, V)>, hash: K -> int, n: nat, i: nat, key: K)
    requires InSlot(b, hash, n, i)
    ensures key in BucketMap(b) ==> Slot(hash, n, key) == i
  {
    if key in BucketMap(b) {
      var t := BucketKeyAt(b, key);
    }
  }

  /** Overwriting the value of pair `j` in place, as `bucket[i] = (key, value)` does. */
  lemma {:induction false} BucketUpdate<K, V>(b: seq<(K, V)>, j: nat, value: V)
    requires NoDupKeys(b) && j < |b|
    ensures NoDupKeys(b[j := (b[j].0, value)])
    ensures BucketMap(b[j := (b[j].0, value)]) == BucketMap(b)[b[j].0 := value]
  {
    var m := |b| - 1;
    var b' := b[j := (b[j].0, value)];
    if j == m {
      assert b'[..m] == b[..m];
    } else {
      assert b'[..m] == b[..m][j := (b[j].0, value)];
      assert NoDupKeys(b[..m]);
      BucketUpdate(b[..m], j, value);
      assert b[m].0 != b[j].0;
      var before := BucketMap(b[..m]);
      assert before[b[j].0 := value][b[m].0 := b[m].1] == before[b[m].0 := b[m].1][b[j].0 := value];
    }
  }

  /** Appending a pair whose key is new, as `bucket.append((key, value))` does. */
  lemma BucketAppend<K, V>(b: seq<(K, V)>, key: K, value: V)
    requires NoDupKeys(b) && forall t :: 0 <= t < |b| ==> b[t].0 != key
    ensures NoDupKeys(b + [(key, value)])
    ensures BucketMap(b + [(key, value)]) == BucketMap(b)[key := value]
  {
    assert (b + [(key, value)])[..|b|] == b;
  }

  /** Adding the map of a chain one more pair long to a map `m`. */
  lemma BucketMapSnoc<K, V>(m: map<K, V>, b: seq<(K, V)>, key: K, value: V)
    ensures m + BucketMap(b + [(key, value)]) == (m + BucketMap(b))[key := value]
  {
    assert (b + [(key, value)])[..|b|] == b;
  }

  /** Deleting pair `j`, as `del bucket[i]` does, removes exactly its key. */
  lemma {:induction false} BucketRemove<K, V>(b: seq<(K, V)>, j: nat)
    requires NoDupKeys(b) && j < |b|
    ensures NoDupKeys(b[..j] + b[j + 1..])
    ensures BucketMap(b[..j] + b[j + 1..]) == BucketMap(b) - {b[j].0}
  {
    var m := |b| - 1;
    var r := b[..j] + b[j + 1..];
    RemoveKeepsDistinct(b, j);
    assert NoDupKeys(b[..m]);
    if j == m {
      assert r == b[..m];
      BucketMissing(b[..m], b[m].0);
      MapPutRemove(BucketMap(b[..m]), b[m].0, b[m].1);
    } else {
      var init := b[..m];
      assert r[..|r| - 1] == init[..j] + init[j + 1..];
      assert r[|r| - 1] == b[m];
      BucketRemove(init, j);
      MapRemovePut(BucketMap(init), b[j].0, b[m].0, b[m].1);
    }
  }

  /** Deleting a pair keeps the keys of a chain distinct. */
  lemma RemoveKeepsDistinct<K, V>(b: seq<(K, V)>, j: nat)
    requires NoDupKeys(b) && j < |b|
    ensures NoDupKeys(b[..j] + b[j + 1..])
  {
    var r := b[..j] + b[j + 1..];
    assert forall t :: 0 <= t < |r| ==> r[t] == if t < j then b[t] else b[t + 1];
  }

  /** Putting a new key and removing it again gives the map back. */
  lemma MapPutRemove<K, V>(m: map<K, V>, key: K, value: V)
    requires key !in m
    ensures m[key := value] - {key} == m
  {
  }

  /** Removing one key and putting another commute. */
  lemma MapRemovePut<K, V>(m: map<K, V>, gone: K, key: K, value: V)
    requires gone != key
    ensures (m - {gone})[key := value] == m[key := value] - {gone}
  {
  }

  /** A chain without duplicate keys has as many keys as pairs. */
  lemma {:induction false} BucketCard<K, V>(b: seq<(K, V)>)
    requires NoDupKeys(b)
    ensures |BucketMap(b)| == |b|
  {
    if b != [] {
      var m := |b| - 1;
      assert NoDupKeys(b[..m]);
      BucketCard(b[..m]);
      BucketMissing(b[..m], b[m].0);
      assert BucketMap(b).Keys == BucketMap(b[..m]).Keys + {b[m].0};
    }
  }

  // ---------------------------------------------------------------------------
  // Facts about the whole bucket list
  // ---------------------------------------------------------------------------

  lemma PlacedPrefix<K, V>(bs: seq<seq<(K, V)>>, hash: K -> int, n: nat, m: nat)
    requires Placed(bs, hash, n) && m <= |bs|
    ensures Placed(bs[..m], hash, n)
  {
    assert forall i :: 0 <= i < m ==> bs[..m][i] == bs[i];
  }

  /** Lookup only needs the key's own bucket: a key is in the table exactly when
      it is in the chain it hashes to, with that chain's value. */
  lemma {:induction false} TableLookup<K, V>(bs: seq<seq<(K, V)>>, hash: K -> int, n: nat, key: K)
    requires Placed(bs, hash, n)
    ensures var i := Slot(hash, n, key);
      && (key in TableMap(bs) <==> i < |bs| && key in BucketMap(bs[i]))
      && (key in TableMap(bs) ==> TableMap(bs)[key] == BucketMap(bs[i])[key])
  {
    if bs != [] {
      var m := |bs| - 1;
      PlacedPrefix(bs, hash, n, m);
      TableLookup(bs[..m], hash, n, key);
      BucketSlot(bs[m], hash, n, m, key);
    }
  }

  lemma MergeUpdateRight<K, V>(a: map<K, V>, c: map<K, V>, key: K, value: V)
    ensures a + c[key := value] == (a + c)[key := value]
  {
  }

  lemma MergeUpdateLeft<K, V>(a: map<K, V>, c: map<K, V>, key: K, value: V)
    requires key !in c
    ensures a[key := value] + c == (a + c)[key := value]
  {
  }

  lemma MergeRemoveRight<K, V>(a: map<K, V>, c: map<K, V>, key: K)
    requires key !in a
    ensures a + (c - {key}) == (a + c) - {key}
  {
  }

  lemma MergeRemoveLeft<K, V>(a: map<K, V>, c: map<K, V>, key: K)
    requires key !in c
    ensures (a - {key}) + c == (a + c) - {key}
  {
  }

  /** A chain that belongs in bucket `i` can replace that bucket. */
  lemma PlacedReplace<K, V>(bs: seq<seq<(K, V)>>, hash: K -> int, n: nat, i: nat, b: seq<(K, V)>)
    requires Placed(bs, hash, n) && i < |bs| && InSlot(b, hash, n, i)
    ensures Placed(bs[i := b], hash, n)
  {
    assert forall t :: 0 <= t < |bs| ==> bs[i := b][t] == if t == i then b else bs[t];
  }

  /** The map of a bucket list whose last bucket is replaced by `b`. */
  lemma TableReplaceLast<K, V>(bs: seq<seq<(K, V)>>, b: seq<(K, V)>)
    requires bs != []
    ensures var m := |bs| - 1;
      && TableMap(bs) == TableMap(bs[..m]) + BucketMap(bs[m])
      && TableMap(bs[m := b]) == TableMap(bs[..m]) + BucketMap(b)
  {
    var m := |bs| - 1;
    assert bs[m := b][..m] == bs[..m];
  }

  /** The map of a bucket list with an earlier bucket `i` replaced by `b`. */
  lemma TableReplaceInit<K, V>(bs: seq<seq<(K, V)>>, i: nat, b: seq<(K, V)>)
    requires i < |bs| - 1
    ensures var m := |bs| - 1;
      && TableMap(bs) == TableMap(bs[..m]) + BucketMap(bs[m])
      && TableMap(bs[i := b]) == TableMap(bs[..m][i := b]) + BucketMap(bs[m])
  {
    var m := |bs| - 1;
    assert bs[i := b][..m] == bs[..m][i := b];
  }

  /** Replacing the key's bucket by one whose map is the old one updated at `key`
      updates the table's map at `key` and nowhere else. */
  lemma {:induction false} TableSet<K, V>(bs: seq<seq<(K, V)>>, hash: K -> int, n: nat, key: K, value: V, b: seq<(K, V)>)
    requires Placed(bs, hash, n)
    requires var i := Slot(hash, n, key);
      i < |bs| && InSlot(b, hash, n, i) && BucketMap(b) == BucketMap(bs[i])[key := value]
    ensures Placed(bs[Slot(hash, n, key) := b], hash, n)
    ensures TableMap(bs[Slot(hash, n, key) := b]) == TableMap(bs)[key := value]
  {
    var i, m := Slot(hash, n, key), |bs| - 1;
    PlacedReplace(bs, hash, n, i, b);
    if i == m {
      TableReplaceLast(bs, b);
      MergeUpdateRight(TableMap(bs[..m]), BucketMap(bs[m]), key, value);
    } else {
      PlacedPrefix(bs, hash, n, m);
      assert bs[..m][i] == bs[i];
      TableSet(bs[..m], hash, n, key, value, b);
      BucketSlot(bs[m], hash, n, m, key);
      TableReplaceInit(bs, i, b);
      MergeUpdateLeft(TableMap(bs[..m]), BucketMap(bs[m]), key, value);
    }
  }

  /** Replacing the key's bucket by one whose map is the old one without `key`
      removes `key` from the table's map and nothing else. */
  lemma {:induction false} TableRemove<K, V>(bs: seq<seq<(K, V)>>, hash: K -> int, n: nat, key: K, b: seq<(K, V)>)
    requires Placed(bs, hash, n)
    requires var i := Slot(hash, n, key);
      i < |bs| && InSlot(b, hash, n, i) && BucketMap(b) == BucketMap(bs[i]) - {key}
    ensures Placed(bs[Slot(hash, n, key) := b], hash, n)
    ensures TableMap(bs[Slot(hash, n, key) := b]) == TableMap(bs) - {key}
  {
    var i, m := Slot(hash, n, key), |bs| - 1;
    PlacedReplace(bs, hash, n, i, b);
    PlacedPrefix(bs, hash, n, m);
    if i == m {
      TableLookup(bs[..m], hash, n, key);
      TableReplaceLast(bs, b);
      MergeRemoveRight(TableMap(bs[..m]), BucketMap(bs[m]), key);
    } else {
      TableRemove(bs[..m], hash, n, key, b);
      BucketSlot(bs[m], hash, n, m, key);
      TableReplaceInit(bs, i, b);
      MergeRemoveLeft(TableMap(bs[..m]), BucketMap(bs[m]), key);
    }
  }

  /** One more bucket of a prefix adds its map and its pairs. */
  lemma PrefixStep<K, V>(bs: seq<seq<(K, V)>>, i: nat)
    requires i < |bs|
    ensures TableMap(bs[..i + 1]) == TableMap(bs[..i]) + BucketMap(bs[i])
    ensures TotalLen(bs[..i + 1]) == TotalLen(bs[..i]) + |bs[i]|
  {
    assert bs[..i + 1][..i] == bs[..i];
  }

  /** One more old bucket traversed: the traversal so far followed by it. */
  lemma FlattenStep<K, V>(bs: seq<seq<(K, V)>>, i: nat)
    requires i < |bs|
    ensures Flatten(bs[..i + 1]) == Flatten(bs[..i]) + bs[i]
  {
    assert bs[..i + 1][..i] == bs[..i];
  }

  /** The keys of bucket `i` are in none of the buckets before it: those hold
      keys of other slots. */
  lemma FreshBucket<K, V>(bs: seq<seq<(K, V)>>, hash: K -> int, n: nat, i: nat)
    requires Placed(bs, hash, n) && i < |bs|
    ensures forall t :: 0 <= t < |bs[i]| ==> bs[i][t].0 !in TableMap(bs[..i])
  {
    PlacedPrefix(bs, hash, n, i);
    forall t | 0 <= t < |bs[i]|
      ensures bs[i][t].0 !in TableMap(bs[..i])
    {
      TableLookup(bs[..i], hash, n, bs[i][t].0);
      assert InSlot(bs[i], hash, n, i);
    }
  }

  /** Replacing one bucket changes the pair count by the difference in its length. */
  lemma {:induction false} TotalLenReplace<K, V>(bs: seq<seq<(K, V)>>, i: nat, b: seq<(K, V)>)
    requires i < |bs|
    ensures TotalLen(bs[i := b]) == TotalLen(bs) - |bs[i]| + |b|
  {
    var m := |bs| - 1;
    if i == m {
      assert bs[i := b][..m] == bs[..m];
    } else {
      assert bs[i := b][..m] == bs[..m][i := b];
      TotalLenReplace(bs[..m], i, b);
    }
  }

  /** `bucket[i] = (key, value)` on the pair of the key's bucket holding `key`
      keeps the bucket list well formed, updates the map at `key` and keeps
      the pair count. */
  lemma ListUpdate<K, V>(bs: seq<seq<(K, V)>>, hash: K -> int, n: nat, key: K, i: nat, value: V)
    requires WellFormed(bs, hash, n)
    requires Slot(hash, n, key) < n && i < |bs[Slot(hash, n, key)]| && bs[Slot(hash, n, key)][i].0 == key
    ensures var index := Slot(hash, n, key);
      var after := bs[index := bs[index][i := (key, value)]];
      && WellFormed(after, hash, n)
      && key in TableMap(bs) && TableMap(after) == TableMap(bs)[key := value]
      && TotalLen(after) == TotalLen(bs)
  {
    var index := Slot(hash, n, key);
    var bucket := bs[index];
    BucketUpdate(bucket, i, value);
    BucketHasAt(bucket, i);
    TableLookup(bs, hash, n, key);
    assert InSlot(bucket, hash, n, index);
    TableSet(bs, hash, n, key, value, bucket[i := (key, value)]);
    TotalLenReplace(bs, index, bucket[i := (key, value)]);
  }

  /** `bucket.append((key, value))` on the key's bucket, which lacks `key`, keeps
      the bucket list well formed, adds `key` to the map and one pair. */
  lemma ListAppend<K, V>(bs: seq<seq<(K, V)>>, hash: K -> int, n: nat, key: K, value: V)
    requires WellFormed(bs, hash, n) && Slot(hash, n, key) < n
    requires forall t :: 0 <= t < |bs[Slot(hash, n, key)]| ==> bs[Slot(hash, n, key)][t].0 != key
    ensures var index := Slot(hash, n, key);
      var after := bs[index := bs[index] + [(key, value)]];
      && WellFormed(after, hash, n)
      && key !in TableMap(bs) && TableMap(after) == TableMap(bs)[key := value]
      && TotalLen(after) == TotalLen(bs) + 1
  {
    var index := Slot(hash, n, key);
    var bucket := bs[index];
    BucketAppend(bucket, key, value);
    BucketMissing(bucket, key);
    TableLookup(bs, hash, n, key);
    assert InSlot(bucket, hash, n, index);
    TableSet(bs, hash, n, key, value, bucket + [(key, value)]);
    TotalLenReplace(bs, index, bucket + [(key, value)]);
  }

  /** `del bucket[i]` on the pair of the key's bucket holding `key` keeps the
      bucket list well formed, removes exactly `key` from the map and one pair. */
  lemma ListRemove<K, V>(bs: seq<seq<(K, V)>>, hash: K -> int, n: nat, key: K, i: nat)
    requires WellFormed(bs, hash, n)
    requires Slot(hash, n, key) < n && i < |bs[Slot(hash, n, key)]| && bs[Slot(hash, n, key)][i].0 == key
    ensures var index := Slot(hash, n, key);
      var after := bs[index := bs[index][..i] + bs[index][i + 1..]];
      && WellFormed(after, hash, n)
      && key in TableMap(bs) && TableMap(bs)[key] == bs[index][i].1
      && TableMap(after) == TableMap(bs) - {key}
      && TotalLen(after) == TotalLen(bs) - 1
  {
    var index := Slot(hash, n, key);
    var bucket := bs[index];
    var rest := bucket[..i] + bucket[i + 1..];
    BucketRemove(bucket, i);
    BucketHasAt(bucket, i);
    TableLookup(bs, hash, n, key);
    assert InSlot(bucket, hash, n, index);
    assert forall t :: 0 <= t < |rest| ==> rest[t] == if t < i then bucket[t] else bucket[t + 1];
    TableRemove(bs, hash, n, key, rest);
    TotalLenReplace(bs, index, rest);
  }

  /** A list of empty buckets is well formed, holds nothing and stands for the empty map. */
  lemma {:induction false} EmptyBuckets<K, V>(n: nat, hash: K -> int)
    requires n >= 1
    ensures WellFormed(seq<seq<(K, V)>>(n, _ => []), hash, n)
    ensures TotalLen(seq<seq<(K, V)>>(n, _ => [])) == 0
    ensures TableMap(seq<seq<(K, V)>>(n, _ => [])) == map[]
  {
    var bs: seq<seq<(K, V)>> := seq(n, _ => []);
    forall m | 0 <= m <= n
      ensures TotalLen(bs[..m]) == 0 && TableMap(bs[..m]) == map[]
    {
      EmptyPrefix(bs, m);
    }
    assert bs[..n] == bs;
  }

  lemma {:induction false} EmptyPrefix<K, V>(bs: seq<seq<(K, V)>>, m: nat)
    requires m <= |bs| && forall i :: 0 <= i < |bs| ==> bs[i] == []
    ensures TotalLen(bs[..m]) == 0 && TableMap(bs[..m]) == map[]
  {
    if m > 0 {
      assert bs[..m][..m - 1] == bs[..m - 1];
      EmptyPrefix(bs, m - 1);
    }
  }

  /** The number of keys in the table is the number of stored pairs. */
  lemma {:induction false} TableCard<K, V>(bs: seq<seq<(K, V)>>, hash: K -> int, n: nat)
    requires Placed(bs, hash, n) && forall i :: 0 <= i < |bs| ==> NoDupKeys(bs[i])
    ensures |TableMap(bs)| == TotalLen(bs)
  {
    if bs != [] {
      var m := |bs| - 1;
      var init := bs[..m];
      PlacedPrefix(bs, hash, n, m);
      TableCard(init, hash, n);
      BucketCard(bs[m]);
      forall k | k in TableMap(init)
        ensures k !in BucketMap(bs[m])
      {
        TableLookup(init, hash, n, k);
        BucketSlot(bs[m], hash, n, m, k);
      }
      assert TableMap(init).Keys !! BucketMap(bs[m]).Keys;
      assert TableMap(bs).Keys == TableMap(init).Keys + BucketMap(bs[m]).Keys;
    }
  }

  /** The traversal visits as many pairs as the table stores. */
  lemma {:induction false} FlattenLength<K, V>(bs: seq<seq<(K, V)>>)
    ensures |Flatten(bs)| == TotalLen(bs)
  {
    if bs != [] {
      FlattenLength(bs[..|bs| - 1]);
    }
  }

  /** Every pair the traversal visits hashes to one of the buckets visited. */
  lemma {:induction false} FlattenSlots<K, V>(bs: seq<seq<(K, V)>>, hash: K -> int, n: nat)
    requires Placed(bs, hash, n)
    ensures forall t :: 0 <= t < |Flatten(bs)| ==> Slot(hash, n, Flatten(bs)[t].0) < |bs|
  {
    if bs != [] {
      var m := |bs| - 1;
      PlacedPrefix(bs, hash, n, m);
      FlattenSlots(bs[..m], hash, n);
      var f, fi := Flatten(bs), Flatten(bs[..m]);
      assert InSlot(bs[m], hash, n, m);
      forall t | 0 <= t < |f|
        ensures Slot(hash, n, f[t].0) < |bs|
      {
        if t < |fi| {
          assert f[t] == fi[t];
        } else {
          assert f[t] == bs[m][t - |fi|];
        }
      }
    }
  }

  /** Every pair the traversal visits agrees with the table's map. */
  lemma {:induction false} FlattenEntries<K, V>(bs: seq<seq<(K, V)>>, hash: K -> int, n: nat)
    requires Placed(bs, hash, n) && forall i :: 0 <= i < |bs| ==> NoDupKeys(bs[i])
    ensures forall t :: 0 <= t < |Flatten(bs)| ==>
      Flatten(bs)[t].0 in TableMap(bs) && TableMap(bs)[Flatten(bs)[t].0] == Flatten(bs)[t].1
  {
    if bs != [] {
      var m := |bs| - 1;
      var init, last := bs[..m], bs[m];
      PlacedPrefix(bs, hash, n, m);
      FlattenEntries(init, hash, n);
      FlattenSlots(init, hash, n);
      var f, fi := Flatten(bs), Flatten(init);
      forall t | 0 <= t < |f|
        ensures f[t].0 in TableMap(bs) && TableMap(bs)[f[t].0] == f[t].1
      {
        if t < |fi| {
          assert f[t] == fi[t];
          BucketSlot(last, hash, n, m, fi[t].0);
        } else {
          assert f[t] == last[t - |fi|];
          BucketHasAt(last, t - |fi|);
        }
      }
    }
  }

  /** Every key of the table's map is visited by the traversal, at position `t`. */
  lemma {:induction false} FlattenCovers<K, V>(bs: seq<seq<(K, V)>>, k: K) returns (t: nat)
    requires k in TableMap(bs)
    ensures t < |Flatten(bs)| && Flatten(bs)[t].0 == k
  {
    var m := |bs| - 1;
    var init, last := bs[..m], bs[m];
    var fi := Flatten(init);
    assert Flatten(bs) == fi + last;
    if k in BucketMap(last) {
      var u := BucketKeyAt(last, k);
      t := |fi| + u;
    } else {
      t := FlattenCovers(init, k);
    }
  }

  /** The traversal visits no key twice. */
  lemma {:induction false} FlattenDistinct<K, V>(bs: seq<seq<(K, V)>>, hash: K -> int, n: nat)
    requires Placed(bs, hash, n) && forall i :: 0 <= i < |bs| ==> NoDupKeys(bs[i])
    ensures NoDupKeys(Flatten(bs))
  {
    if bs != [] {
      var m := |bs| - 1;
      var init, last := bs[..m], bs[m];
      PlacedPrefix(bs, hash, n, m);
      FlattenDistinct(init, hash, n);
      FlattenSlots(init, hash, n);
      assert InSlot(last, hash, n, m);
      var f, fi := Flatten(bs), Flatten(init);
      forall s, t | 0 <= s < t < |f|
        ensures f[s].0 != f[t].0
      {
        if t < |fi| {
          assert f[s] == fi[s] && f[t] == fi[t];
        } else if s >= |fi| {
          assert f[s] == last[s - |fi|] && f[t] == last[t - |fi|];
        } else {
          assert f[s] == fi[s] && f[t] == last[t - |fi|];
        }
      }
    }
  }

  /** A table holding at least one pair has a non-empty bucket. */
  lemma {:induction false} NonEmptyBucket<K, V>(bs: seq<seq<(K, V)>>)
    requires TotalLen(bs) > 0
    ensures FirstNonEmpty(bs) < |bs|
  {
    var m := |bs| - 1;
    if bs[m] == [] {
      NonEmptyBucket(bs[..m]);
      var i := FirstNonEmpty(bs[..m]);
      assert forall t :: 0 <= t <= i ==> bs[t] == bs[..m][t];
      FirstNonEmptyAt(bs, i);
    } else {
      FirstNonEmptyAt(bs, m);
    }
  }

  /** The first non-empty bucket comes no later than any non-empty one. */
  lemma FirstNonEmptyAt<K, V>(bs: seq<seq<(K, V)>>, i: nat)
    requires i < |bs| && bs[i] != []
    ensures FirstNonEmpty(bs) <= i
  {
  }

  // ---------------------------------------------------------------------------
  // The table object
  // ---------------------------------------------------------------------------

  /** The two `ValueError`s the constructor raises. */
  datatype Error = InitialSizeTooSmall | LoadFactorOutOfRange

  /** The constructor's argument check (`initial_size >= 1`, `0 < load_factor <= 1`). */
  predicate ValidArguments(initialSize: int, loadFactor: real)
  {
    initialSize >= 1 && 0.0 < loadFactor <= 1.0
  }

  /** Comparing a load `n / c` with a bound is comparing `n` with the bound times `c`. */
  lemma LoadAbove(n: real, c: real, bound: real)
    requires c > 0.0
    ensures n / c > bound <==> n > bound * c
  {
    assert n == (n / c) * c;
  }

  /** The same comparison from below. */
  lemma LoadBelow(n: real, c: real, bound: real)
    requires c > 0.0
    ensures n / c < bound <==> n < bound * c
  {
    assert n == (n / c) * c;
  }

  /** `HashTable(initial_size, load_factor)`: the argument checks of the constructor
      in the order the source makes them, then a fresh, empty table. */
  method New<K(==), V(==)>(initialSize: int, loadFactor: real, hash: K -> int)
    returns (r: Result<HashTable<K, V>, Error>)
    ensures r.Err? <==> !ValidArguments(initialSize, loadFactor)
    ensures r.Err? ==> r.error == (if initialSize < 1 then InitialSizeTooSmall else LoadFactorOutOfRange)
    ensures r.Ok? ==> fresh(r.value) && r.value.Valid() && r.value.hash == hash
    ensures r.Ok? ==> r.value.size == 0 && r.value.capacity == initialSize && r.value.loadFactor == loadFactor
    ensures r.Ok? ==> r.value.Contents() == map[] && forall i :: 0 <= i < initialSize ==> r.value.buckets[i] == []
  {
    if initialSize < 1 {
      return Err(InitialSizeTooSmall);
    }
    if !(0.0 < loadFactor <= 1.0) {
      return Err(LoadFactorOutOfRange);
    }
    var t := new HashTable(initialSize, loadFactor, hash);
    return Ok(t);
  }

  class HashTable<K(==), V(==)> {
    /** Python's built-in `hash`, an arbitrary function of the key. */
    const hash: K -> int
    const loadFactor: real
    var buckets: seq<seq<(K, V)>>
    var size: nat
    var capacity: nat

    /** Every pair in the bucket its key hashes to, no key twice in a bucket (hence
        in the table), `size` the number of pairs, the load factor in (0, 1]. */
    ghost predicate Valid()
      reads this
    {
      && capacity >= 1
      && 0.0 < loadFactor <= 1.0
      && WellFormed(buckets, hash, capacity)
      && size == TotalLen(buckets)
    }

    /** The key-value mapping the table stands for. */
    ghost function Contents(): map<K, V>
      reads this
    {
      TableMap(buckets)
    }

    constructor (initialSize: nat, loadFactor: real, hash: K -> int)
      requires ValidArguments(initialSize, loadFactor)
      ensures Valid() && this.hash == hash && this.loadFactor == loadFactor
      ensures size == 0 && capacity == initialSize && buckets == seq(initialSize, _ => [])
      ensures Contents() == map[]
    {
      this.hash := hash;
      this.loadFactor := loadFactor;
      size := 0;
      capacity := initialSize;
      buckets := seq(initialSize, _ => []);
      new;
      EmptyBuckets<K, V>(initialSize, hash);
    }

    /** `_hash`: the bucket a key belongs in. */
    function Hash(key: K): (i: nat)
      reads this
      requires capacity >= 1
      ensures i < capacity && i == Slot(hash, capacity, key)
    {
      hash(key) % capacity
    }

    /** `_should_resize`: the load `size / capacity` exceeds the load factor. */
    predicate ShouldResize()
      reads this
      requires capacity >= 1
      ensures ShouldResize() <==> size as real > loadFactor * capacity as real
    {
      LoadAbove(size as real, capacity as real, loadFactor);
      size as real / capacity as real > loadFactor
    }

    /** `_should_shrink`: more than 8 buckets, not empty, and the load under a
        quarter of the load factor. */
    predicate ShouldShrink()
      reads this
      requires capacity >= 1
      ensures ShouldShrink() <==> capacity > 8 && size > 0 && 4.0 * size as real < loadFactor * capacity as real
      ensures ShouldShrink() && loadFactor > 0.0 ==> !ShouldResize()
    {
      LoadBelow(size as real, capacity as real, loadFactor / 4.0);
      capacity > 8 && size > 0 && size as real / capacity as real < loadFactor / 4.0
    }

    /** `__len__`: the stored count, which is the number of keys in the table. */
    function Len(): (n: nat)
      reads this
      requires Valid()
      ensures n == |Contents()|
    {
      TableCard(buckets, hash, capacity);
      size
    }

    /** `_set_item_without_resize_check`: upsert into the key's bucket, no resize. */
    method SetWithoutResizeCheck(key: K, value: V)
      requires Valid()
      modifies this
      ensures Valid()
      ensures Contents() == old(Contents())[key := value]
      ensures capacity == old(capacity)
      ensures size == old(size) + (if key in old(Contents()) then 0 else 1)
      ensures key !in old(Contents()) ==>
        buckets == old(buckets)[Hash(key) := old(buckets)[Hash(key)] + [(key, value)]]
      ensures key in old(Contents()) ==> Overwritten(old(buckets), buckets, Hash(key), key, value)
    {
      var index := Hash(key);
      var bucket := buckets[index];
      TableLookup(buckets, hash, capacity, key);
      var i := 0;
      while i < |bucket|
        invariant 0 <= i <= |bucket|
        invariant forall t :: 0 <= t < i ==> bucket[t].0 != key
      {
        if bucket[i].0 == key {
          PutExisting(index, i, key, value);
          return;
        }
        i := i + 1;
      }
      PutNew(index, key, value);
    }

    /** `__setitem__`: overwrite in place when the key is present; otherwise
        append, count it, and double the capacity when the load factor is exceeded. */
    method Set(key: K, value: V)
      requires Valid()
      modifies this
      ensures Valid()
      ensures Contents() == old(Contents())[key := value]
      ensures key in old(Contents()) ==> size == old(size) && capacity == old(capacity)
      ensures key !in old(Contents()) ==> size == old(size) + 1
      ensures key !in old(Contents()) ==>
        capacity == if (old(size) + 1) as real / old(capacity) as real > loadFactor
                    then 2 * old(capacity) else old(capacity)
      ensures key !in old(Contents()) ==> Inserted(old(buckets), buckets, old(Hash(key)), key, value, hash, capacity)
      ensures key in old(Contents()) ==> Overwritten(old(buckets), buckets, old(Hash(key)), key, value)
    {
      var index := Hash(key);
      var bucket := buckets[index];
      TableLookup(buckets, hash, capacity, key);
      var keyExists := false;
      var i := 0;
      while i < |bucket|
        invariant 0 <= i <= |bucket|
        invariant forall t :: 0 <= t < i ==> bucket[t].0 != key
      {
        if bucket[i].0 == key {
          PutExisting(index, i, key, value);
          keyExists := true;
          break;
        }
        i := i + 1;
      }
      if !keyExists {
        PutNew(index, key, value);
        if ShouldResize() {
          Resize(capacity * 2);
        }
      }
    }

    /** `bucket[i] = (key, value)` for the pair `i` of bucket `index` holding `key`. */
    method PutExisting(index: nat, i: nat, key: K, value: V)
      requires Valid() && index == Hash(key) && i < |buckets[index]| && buckets[index][i].0 == key
      modifies this
      ensures Valid() && capacity == old(capacity) && size == old(size)
      ensures key in old(Contents()) && Contents() == old(Contents())[key := value]
      ensures buckets == old(buckets)[index := old(buckets)[index][i := (key, value)]]
      ensures Overwritten(old(buckets), buckets, index, key, value)
    {
      ListUpdate(buckets, hash, capacity, key, i, value);
      buckets := buckets[index := buckets[index][i := (key, value)]];
    }

    /** `bucket.append((key, value))` and `_size += 1` for a key bucket `index` lacks. */
    method PutNew(index: nat, key: K, value: V)
      requires Valid() && index == Hash(key)
      requires forall t :: 0 <= t < |buckets[index]| ==> buckets[index][t].0 != key
      modifies this
      ensures Valid() && capacity == old(capacity) && size == old(size) + 1
      ensures key !in old(Contents()) && Contents() == old(Contents())[key := value]
      ensures buckets == old(buckets)[index := old(buckets)[index] + [(key, value)]]
    {
      ListAppend(buckets, hash, capacity, key, value);
      buckets := buckets[index := buckets[index] + [(key, value)]];
      size := size + 1;
    }

    /** `_resize`: fresh empty buckets of the new capacity, then every old pair
        re-inserted in traversal order; the mapping and the count are unchanged,
        and each chain keeps the old traversal order of its pairs. */
    method Resize(newCapacity: nat)
      requires Valid() && newCapacity >= 1
      modifies this
      ensures Valid()
      ensures Contents() == old(Contents())
      ensures size == old(size) && capacity == newCapacity
      ensures |buckets| == newCapacity
      ensures forall s :: 0 <= s < newCapacity ==> buckets[s] == Chain(Flatten(old(buckets)), hash, newCapacity, s)
    {
      var oldBuckets := buckets;
      ghost var oldCapacity := capacity;
      ghost var empty: seq<seq<(K, V)>> := seq(newCapacity, _ => []);
      buckets := seq(newCapacity, _ => []);

      capacity := newCapacity;
      size := 0;
      EmptyBuckets<K, V>(newCapacity, hash);
      var i := 0;
      while i < |oldBuckets|
        invariant 0 <= i <= |oldBuckets|
        invariant Valid() && capacity == newCapacity
        invariant Contents() == TableMap(oldBuckets[..i])
        invariant size == TotalLen(oldBuckets[..i])
        invariant buckets == Rehashed(empty, Flatten(oldBuckets[..i]), hash, newCapacity)
      {
        var bucket := oldBuckets[i];
        FreshBucket(oldBuckets, hash, oldCapacity, i);
        PrefixStep(oldBuckets, i);
        InsertAll(bucket);
        FlattenStep(oldBuckets, i);
        RehashedAppend(empty, Flatten(oldBuckets[..i]), bucket, hash, newCapacity);
        i := i + 1;
      }
      assert oldBuckets[..i] == oldBuckets;
      RehashedChains(empty, Flatten(oldBuckets), hash, newCapacity);
      assert forall s :: 0 <= s < newCapacity ==> empty[s] == [];
    }

    /** The inner loop of `_resize`: re-insert the pairs of one old bucket, none of
        whose keys is in the table yet. */
    method InsertAll(pairs: seq<(K, V)>)
      requires Valid() && NoDupKeys(pairs)
      requires forall t :: 0 <= t < |pairs| ==> pairs[t].0 !in Contents()
      modifies this
      ensures Valid() && capacity == old(capacity)
      ensures Contents() == old(Contents()) + BucketMap(pairs)
      ensures size == old(size) + |pairs|
      ensures buckets == Rehashed(old(buckets), pairs, hash, capacity)
    {
      var j := 0;
      while j < |pairs|
        invariant 0 <= j <= |pairs|
        invariant Valid() && capacity == old(capacity)
        invariant Contents() == old(Contents()) + BucketMap(pairs[..j])
        invariant size == old(size) + j
        invariant buckets == Rehashed(old(buckets), pairs[..j], hash, capacity)
      {
        var (k, v) := pairs[j];
        assert forall t :: 0 <= t < j ==> pairs[..j][t].0 != k;
        BucketMissing(pairs[..j], k);
        RehashedSnoc(old(buckets), pairs[..j], pairs[..j + 1], k, v, hash, capacity);
        SetWithoutResizeCheck(k, v);
        BucketMapSnoc(old(Contents()), pairs[..j], k, v);
        assert pairs[..j + 1] == pairs[..j] + [(k, v)];
        j := j + 1;
      }
      assert pairs[..j] == pairs;
    }

    /** `__getitem__`: the key's value, or `None` where Python raises `KeyError`. */
    method Get(key: K) returns (r: Option<V>)
      requires Valid()
      ensures r == if key in Contents() then Some(Contents()[key]) else None
    {
      var bucket := buckets[Hash(key)];
      TableLookup(buckets, hash, capacity, key);
      var i := 0;
      while i < |bucket|
        invariant 0 <= i <= |bucket|
        invariant forall t :: 0 <= t < i ==> bucket[t].0 != key
      {
        if bucket[i].0 == key {
          BucketHasAt(bucket, i);
          return Some(bucket[i].1);
        }
        i := i + 1;
      }
      BucketMissing(bucket, key);
      return None;
    }

    /** `get(key, default)`: the key's value, or `default` when it is absent. */
    method GetOr(key: K, default: V) returns (r: V)
      requires Valid()
      ensures r == if key in Contents() then Contents()[key] else default
    {
      var found := Get(key);
      r := if found.Some? then found.value else default;
    }

    /** `__contains__`. */
    method Contains(key: K) returns (b: bool)
      requires Valid()
      ensures b <==> key in Contents()
    {
      var bucket := buckets[Hash(key)];
      TableLookup(buckets, hash, capacity, key);
      var i := 0;
      while i < |bucket|
        invariant 0 <= i <= |bucket|
        invariant forall t :: 0 <= t < i ==> bucket[t].0 != key
      {
        if bucket[i].0 == key {
          BucketHasAt(bucket, i);
          return true;
        }
        i := i + 1;
      }
      BucketMissing(bucket, key);
      return false;
    }

    /** `__delitem__`: `false` (Python's `KeyError`) and no change when the key is
        absent; otherwise the key is removed, the count drops by one, and the
        capacity halves (but not below 8) when the table has become sparse. */
    method Delete(key: K) returns (found: bool)
      requires Valid()
      modifies this
      ensures Valid()
      ensures found <==> key in old(Contents())
      ensures !found ==> buckets == old(buckets) && size == old(size) && capacity == old(capacity)
      ensures found ==> Contents() == old(Contents()) - {key} && size == old(size) - 1
      ensures found ==>
        capacity == if old(capacity) > 8 && old(size) - 1 > 0
                       && (old(size) - 1) as real / old(capacity) as real < loadFactor / 4.0
                    then Max(8, old(capacity) / 2) else old(capacity)
      ensures found ==> Deleted(old(buckets), buckets, old(Hash(key)), key, hash, capacity)
    {
      var index := Hash(key);
      var bucket := buckets[index];
      TableLookup(buckets, hash, capacity, key);
      var i := 0;
      while i < |bucket|
        invariant 0 <= i <= |bucket|
        invariant forall t :: 0 <= t < i ==> bucket[t].0 != key
      {
        if bucket[i].0 == key {
          RemoveAt(index, i, key);
          ghost var removed := buckets;
          if ShouldShrink() {
            Resize(Max(8, capacity / 2));
          }
          assert old(buckets)[index][i].0 == key;
          return true;
        }
        i := i + 1;
      }
      BucketMissing(bucket, key);
      return false;
    }

    /** `del bucket[i]` and `_size -= 1` for the pair `i` of bucket `index` holding `key`. */
    method RemoveAt(index: nat, i: nat, key: K)
      requires Valid() && index == Hash(key) && i < |buckets[index]| && buckets[index][i].0 == key
      modifies this
      ensures Valid() && capacity == old(capacity) && size == old(size) - 1
      ensures key in old(Contents()) && old(Contents())[key] == old(buckets)[index][i].1
      ensures Contents() == old(Contents()) - {key}
      ensures buckets == old(buckets)[index := old(buckets)[index][..i] + old(buckets)[index][i + 1..]]
    {
      ListRemove(buckets, hash, capacity, key, i);
      buckets := buckets[index := buckets[index][..i] + buckets[index][i + 1..]];
      size := size - 1;
    }

    /** `clear`: every bucket empty, count 0, capacity kept. */
    method Clear()
      requires Valid()
      modifies this
      ensures Valid()
      ensures Contents() == map[] && size == 0
      ensures capacity == old(capacity) && buckets == seq(capacity, _ => [])
    {
      buckets := seq(capacity, _ => []);
      size := 0;
      EmptyBuckets<K, V>(capacity, hash);
    }

    /** `setdefault`: the present value, changing nothing, or else `default`,
        inserted exactly as `__setitem__` inserts it. */
    method SetDefault(key: K, default: V) returns (r: V)
      requires Valid()
      modifies this
      ensures Valid()
      ensures key in old(Contents()) ==>
        r == old(Contents())[key] && buckets == old(buckets) && size == old(size) && capacity == old(capacity)
      ensures key !in old(Contents()) ==>
        && r == default
        && Contents() == old(Contents())[key := default]
        && size == old(size) + 1
        && capacity == (if (old(size) + 1) as real / old(capacity) as real > loadFactor
                        then 2 * old(capacity) else old(capacity))
        && Inserted(old(buckets), buckets, old(Hash(key)), key, default, hash, capacity)
    {
      var present := Contains(key);
      if present {
        var found := Get(key);
        r := found.value;
      } else {
        Set(key, default);
        r := default;
      }
    }

    /** `pop(key, default)`: the removed value when the key is present; otherwise
        `default`, where `None` stands for a missing or `None` default, for which
        Python raises `KeyError`. */
    method Pop(key: K, default: Option<V>) returns (r: Option<V>)
      requires Valid()
      modifies this
      ensures Valid()
      ensures key in old(Contents()) ==>
        && r == Some(old(Contents())[key])
        && Contents() == old(Contents()) - {key}
        && size == old(size) - 1
        && capacity == (if old(capacity) > 8 && old(size) - 1 > 0
                           && (old(size) - 1) as real / old(capacity) as real < loadFactor / 4.0
                        then Max(8, old(capacity) / 2) else old(capacity))
        && Deleted(old(buckets), buckets, old(Hash(key)), key, hash, capacity)
      ensures key !in old(Contents()) ==>
        r == default && buckets == old(buckets) && size == old(size) && capacity == old(capacity)
    {
      var present := Contains(key);
      if present {
        var value := Get(key);
        var _ := Delete(key);
        r := value;
      } else if default.Some? {
        r := default;
      } else {
        r := None;
      }
    }

    /** `popitem`: `None` (Python's `KeyError`) on an empty table; otherwise the
        last pair of the first non-empty bucket, removed. */
    method PopItem() returns (r: Option<(K, V)>)
      requires Valid()
      modifies this
      ensures Valid()
      ensures r.None? <==> old(size) == 0
      ensures r.None? ==> buckets == old(buckets) && size == old(size)
      ensures r.Some? ==>
        var i := FirstNonEmpty(old(buckets));
        && i < |old(buckets)|
        && r.value == old(buckets)[i][|old(buckets)[i]| - 1]
        && buckets == old(buckets)[i := old(buckets)[i][..|old(buckets)[i]| - 1]]
      ensures r.Some? ==>
        && r.value.0 in old(Contents()) && old(Contents())[r.value.0] == r.value.1
        && Contents() == old(Contents()) - {r.value.0}
        && size == old(size) - 1
      ensures capacity == old(capacity)
    {
      if size == 0 {
        return None;
      }
      NonEmptyBucket(buckets);
      var i := 0;
      while i < |buckets| && buckets[i] == []
        invariant 0 <= i <= FirstNonEmpty(buckets)
      {
        i := i + 1;
      }
      var bucket := buckets[i];
      var last := |bucket| - 1;
      r := Some(bucket[last]);
      assert bucket[..last] == bucket[..last] + bucket[last + 1..];
      RemoveAt(i, last, bucket[last].0);
    }

    /** `_HashTableItemsView.__iter__`: all pairs in bucket traversal order; each
        key of the table exactly once, with its value, `size` pairs in all. */
    method Items() returns (items: seq<(K, V)>)
      requires Valid()
      ensures items == Flatten(buckets)
      ensures |items| == size
      ensures forall t :: 0 <= t < |items| ==> items[t].0 in Contents() && Contents()[items[t].0] == items[t].1
      ensures forall k :: k in Contents() ==> exists t :: 0 <= t < |items| && items[t].0 == k
      ensures forall s, t :: 0 <= s < t < |items| ==> items[s].0 != items[t].0
    {
      items := [];
      var i := 0;
      while i < |buckets|
        invariant 0 <= i <= |buckets|
        invariant items == Flatten(buckets[..i])
      {
        var bucket := buckets[i];
        assert buckets[..i + 1][..i] == buckets[..i];
        var j := 0;
        while j < |bucket|
          invariant 0 <= j <= |bucket|
          invariant items == Flatten(buckets[..i]) + bucket[..j]
        {
          assert bucket[..j + 1] == bucket[..j] + [bucket[j]];
          items := items + [bucket[j]];
          j := j + 1;
        }
        assert bucket[..j] == bucket;
        i := i + 1;
      }
      assert buckets[..i] == buckets;
      FlattenLength(buckets);
      FlattenEntries(buckets, hash, capacity);
      FlattenDistinct(buckets, hash, capacity);
      forall k | k in Contents()
        ensures exists t :: 0 <= t < |items| && items[t].0 == k
      {
        var t := FlattenCovers(buckets, k);
      }
    }

    /** `__iter__`: the keys, in the same traversal order, each exactly once. */
    method Keys() returns (keys: seq<K>)
      requires Valid()
      ensures |keys| == |Flatten(buckets)| == size
      ensures forall t :: 0 <= t < |keys| ==> keys[t] == Flatten(buckets)[t].0
      ensures forall t :: 0 <= t < |keys| ==> keys[t] in Contents()
      ensures forall k :: k in Contents() ==> k in keys
      ensures forall s, t :: 0 <= s < t < |keys| ==> keys[s] != keys[t]
    {
      var items := Items();
      keys := seq(|items|, t requires 0 <= t < |items| => items[t].0);
      forall k | k in Contents()
        ensures k in keys
      {
        var t :| 0 <= t < |items| && items[t].0 == k;
        assert keys[t] == k;
      }
    }

    /** `_HashTableItemsView.__contains__`: the key is present with exactly that value. */
    method HasItem(key: K, value: V) returns (b: bool)
      requires Valid()
      ensures b <==> key in Contents() && Contents()[key] == value
    {
      var found := Get(key);
      b := found.Some? && found.value == value;
    }
  }

  function Max(a: int, b: int): int
  {
    if a >= b then a else b
  }
}
