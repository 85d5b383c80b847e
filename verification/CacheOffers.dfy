/** Offering values to the shared cache: with room for them, each key changes by its own offer only. */
module CacheOffers {
  import opened Core
  import opened WriteOrder
  import opened DependencyGraph
  import opened MemoryCache
  import opened AsyncMemoryCache
  import opened CacheRuns
  import opened Sources

  /** Writing these keys cannot push anything out of the cache. */
  ghost predicate Roomy(maxEntries: Option<nat>, entries: Entries, keys: set<Key>) {
    maxEntries.Some? ==> |entries.Keys + keys| <= maxEntries.value
  }

  lemma {:induction false} WinnerOfDistinct(vs: seq<Value>, i: nat)
    requires NoDuplicates(KeysOf(vs)) && i < |vs|
    ensures Winner(vs, vs[i].key) == Some(vs[i])
  {
    var j := WinnerIsLastMaximum(vs, vs[i].key);
    assert vs[i] in vs;
    assert KeysOf(vs)[i] == vs[i].key && KeysOf(vs)[j] == vs[j].key;
  }

  /** One key of the cache after a batch was offered to it. */
  ghost function Offered(current: Option<Value>, vs: seq<Value>, k: Key): Option<Value> {
    match Winner(vs, k) case None => current case Some(v) => Offer(current, v, false, false)
  }

  /** A roomy write changes each key by its own offer only. */
  lemma RoomyCommit(base: Store, vs: seq<Value>, maxEntries: Option<nat>, keys: set<Key>)
    requires base.Valid() && Roomy(maxEntries, base.entries, keys)
    requires forall v :: v in vs ==> v.key in keys
    ensures var r := Commit(base, Select(vs), false, false, maxEntries).entries;
            && Roomy(maxEntries, r, keys)
            && forall k :: Lookup(r, k) == Offered(Lookup(base.entries, k), vs, k)
  {
    hide Select, Winner, NoDuplicates, WellFiled, PutBatch, WriteStatusOf, Roomy;
    var c := Select(vs);
    var m := CommitKeys(base, c, |c.order|, false, false);
    CommitKeysValid(base, c, |c.order|, false, false);
    CommitWritesBatch(base, c, false, false);
    EvictStep(m, maxEntries);
    RoomyBatch(base.entries, vs, maxEntries, keys);
  }

  lemma RoomyBatch(entries: Entries, vs: seq<Value>, maxEntries: Option<nat>, keys: set<Key>)
    requires Roomy(maxEntries, entries, keys) && forall v :: v in vs ==> v.key in keys
    ensures var r := PutBatch(entries, Select(vs).byKey, false, false);
            && Roomy(maxEntries, r, keys)
            && (maxEntries.None? || |r| <= maxEntries.value)
            && forall k :: Lookup(r, k) == Offered(Lookup(entries, k), vs, k)
  {
    hide Select, Winner, PutBatch, Offered;
    var r := PutBatch(entries, Select(vs).byKey, false, false);
    assert r.Keys <= entries.Keys + keys by { BatchKeys(entries, vs, keys); }
    if maxEntries.Some? {
      SubsetCardinality(r.Keys, entries.Keys + keys);
      SubsetCardinality(r.Keys + keys, entries.Keys + keys);
    }
    forall k ensures Lookup(r, k) == Offered(Lookup(entries, k), vs, k) {
      BatchOffers(entries, vs, k);
    }
  }

  lemma BatchOffers(entries: Entries, vs: seq<Value>, k: Key)
    ensures Lookup(PutBatch(entries, Select(vs).byKey, false, false), k) == Offered(Lookup(entries, k), vs, k)
  {
    hide Select, Winner;
    assert Lookup(Select(vs).byKey, k) == Winner(vs, k);
  }

  lemma BatchKeys(entries: Entries, vs: seq<Value>, keys: set<Key>)
    requires forall v :: v in vs ==> v.key in keys
    ensures PutBatch(entries, Select(vs).byKey, false, false).Keys <= entries.Keys + keys
  {
    hide Select, Winner, WriteStatusOf;
    forall k | k in Select(vs).byKey ensures k in keys {
      var i := WinnerIsLastMaximum(vs, k);
      assert Lookup(Select(vs).byKey, k) == Winner(vs, k);
      assert vs[i] in vs;
    }
  }

  function Undisturbed(i: nat, s: Store): Store {
    s
  }

  lemma {:induction false} UndisturbedDrift(s: Store, n: nat)
    ensures Drift(Undisturbed, s, n) == s
  {
    if n > 0 { UndisturbedDrift(s, n - 1); }
  }

  /** The cache after a batch was offered, if there is anything to offer and it may be offered. */
  ghost function AfterWrite(store: Store, vs: seq<Value>, allowed: bool, maxEntries: Option<nat>): (r: Store)
    requires store.Valid()
    ensures r.Valid()
  {
    if vs != [] && allowed then Commit(store, Select(vs), false, false, maxEntries) else store
  }

  /** What the result of a single write says. */
  ghost predicate Answers(entries: Entries, v: Value, r: WriteResult) {
    && r.status == WriteStatusOf(Lookup(entries, v.key), v, false, false)
    && (r.status != Stored ==> Lookup(entries, v.key) == Some(r.value))
  }

  /** A distinct batch offers each key its own value. */
  lemma OfferedDistinct(current: Option<Value>, vs: seq<Value>, k: Key)
    requires NoDuplicates(KeysOf(vs))
    ensures forall v :: v in vs && v.key == k ==> Offered(current, vs, k) == Offer(current, v, false, false)
    ensures k !in KeysOf(vs) ==> Offered(current, vs, k) == current
  {
    hide Winner, Offer;
    forall v | v in vs && v.key == k ensures Winner(vs, k) == Some(v) {
      var i :| 0 <= i < |vs| && vs[i] == v;
      WinnerOfDistinct(vs, i);
    }
    if Winner(vs, k).Some? {
      var i := WinnerIsLastMaximum(vs, k);
      assert KeysOf(vs)[i] == k;
    }
  }

  /** A steady write changes each key by its own offer only. */
  lemma SteadyWrite(base: Store, vs: seq<Value>, allowed: bool, maxEntries: Option<nat>, keys: set<Key>, k: Key)
    requires base.Valid() && (allowed ==> Roomy(maxEntries, base.entries, keys))
    requires NoDuplicates(KeysOf(vs)) && forall v :: v in vs ==> v.key in keys
    ensures Roomy(maxEntries, base.entries, keys) ==> Roomy(maxEntries,
                                                            AfterWrite(base, vs, allowed, maxEntries).entries, keys)
    ensures !allowed || k !in KeysOf(vs) ==>
      Lookup(AfterWrite(base, vs, allowed, maxEntries).entries, k) == Lookup(base.entries, k)
    ensures forall v :: allowed && v in vs && v.key == k ==>
      Lookup(AfterWrite(base, vs, allowed, maxEntries).entries, k) == Offer(Lookup(base.entries, k), v, false, false)
  {
    hide Offered, Offer, Commit, Select, Winner, NoDuplicates, KeysOf, Roomy, Store.Valid;
    if vs != [] && allowed {
      RoomyCommit(base, vs, maxEntries, keys);
      OfferedDistinct(Lookup(base.entries, k), vs, k);
    }
  }

  // ---- What a write pushes out -------------------------------------------------------------------

  /** The keys touched more recently than a key. */
  function NewerThan(order: seq<Key>, k: Key): set<Key> {
    if order == [] then {}
    else if order[0] == k then Elems(order[1..])
    else NewerThan(order[1..], k)
  }

  lemma {:induction false} NewerAppended(order: seq<Key>, k: Key, x: Key)
    requires k in order
    ensures NewerThan(order + [x], k) == NewerThan(order, k) + {x}
  {
    assert (order + [x])[1..] == order[1..] + [x];
    if order[0] != k { NewerAppended(order[1..], k, x); }
  }

  lemma {:induction false} NewerWithout(order: seq<Key>, k: Key, x: Key)
    requires x != k
    ensures NewerThan(Without(order, x), k) == NewerThan(order, k) - {x}
  {
    if order != [] { NewerWithout(order[1..], k, x); }
  }

  /** A key is among the last ones kept exactly when fewer than that many keys are newer. */
  lemma {:induction false} NewerSuffix(order: seq<Key>, k: Key, m: nat)
    requires NoDuplicates(order) && m <= |order| && k in order
    ensures |NewerThan(order, k)| < |order|
    ensures k in order[m..] <==> |NewerThan(order, k)| < |order| - m
    ensures k in order[m..] ==> NewerThan(order[m..], k) == NewerThan(order, k)
  {
    var rest := order[1..];
    NoDuplicatesCardinality(rest);
    if order[0] == k {
      if m > 0 { assert order[m..] == rest[m - 1..]; }
    } else if m == 0 {
      NewerSuffix(rest, k, 0);
    } else {
      NewerSuffix(rest, k, m - 1);
      assert order[m..] == rest[m - 1..];
    }
  }

  /** The keys among the first candidates that are stored. */
  ghost function StoredKeys(base: Store, c: Candidates, n: nat): set<Key>
    requires c.Indexed() && n <= |c.order|
  {
    set k | k in c.order[..n] && StatusAt(base.entries, c, k, false, false) == Stored
  }

  lemma {:induction false} CommitNewer(base: Store, c: Candidates, n: nat, k: Key)
    requires c.Valid() && n <= |c.order| && k in base.order && k !in c.order[..n]
    ensures var r := CommitKeys(base, c, n, false, false);
            k in r.order && NewerThan(r.order, k) == NewerThan(base.order, k) + StoredKeys(base, c, n)
  {
    hide WriteStatusOf, NewerThan, Without;
    if n > 0 {
      var x, s := c.order[n - 1], CommitKeys(base, c, n - 1, false, false);
      assert c.order[..n] == c.order[..n - 1] + [x];
      CommitNewer(base, c, n - 1, k);
      NewerWithout(s.order, k, x);
      NewerAppended(Without(s.order, x), k, x);
      assert StoredKeys(base, c, n) ==
        StoredKeys(base, c, n - 1) + if StatusAt(base.entries, c, x, false, false) == Stored then {x} else {};
    }
  }

  /** The keys of the offered values that the cache takes. */
  ghost function Written(entries: Entries, vs: seq<Value>): set<Key> {
    set v | v in vs && WriteStatusOf(Lookup(entries, v.key), v, false, false) == Stored :: v.key
  }

  lemma WrittenAreStored(base: Store, vs: seq<Value>)
    requires NoDuplicates(KeysOf(vs))
    ensures var c := Select(vs);
            && StoredKeys(base, c, |c.order|) == Written(base.entries, vs)
            && forall k :: k in c.order <==> k in KeysOf(vs)
  {
    hide Select, Winner, WriteStatusOf, NoDuplicates;
    var c := Select(vs);
    assert c.order[..|c.order|] == c.order;
    forall k ensures k in c.order <==> k in KeysOf(vs) {
      assert k in c.order <==> k in c.byKey;
      assert Lookup(c.byKey, k) == Winner(vs, k);
      SelectedIsOffered(vs, k);
    }
    forall v | v in vs ensures v.key in c.order && c.byKey[v.key] == v {
      var i :| 0 <= i < |vs| && vs[i] == v;
      WinnerOfDistinct(vs, i);
      assert Lookup(c.byKey, v.key) == Some(v);
    }
    forall k | k in StoredKeys(base, c, |c.order|) ensures k in Written(base.entries, vs) {
      SelectedIsOffered(vs, k);
      assert Lookup(c.byKey, k) == Winner(vs, k);
    }
  }

  lemma SelectedIsOffered(vs: seq<Value>, k: Key)
    ensures Winner(vs, k).Some? ==> Winner(vs, k).value in vs && Winner(vs, k).value.key == k
    ensures k in KeysOf(vs) <==> Winner(vs, k).Some?
  {
    var i := WinnerIsLastMaximum(vs, k);
    if k in KeysOf(vs) {
      var j :| 0 <= j < |vs| && KeysOf(vs)[j] == k;
      assert vs[j] in vs;
    }
    if Winner(vs, k).Some? {
      assert KeysOf(vs)[i] == k;
    }
  }

  /** A write leaves the entry of another key as it is, or pushes it out. */
  lemma WriteLeaves(base: Store, vs: seq<Value>, allowed: bool, maxEntries: Option<nat>, k: Key)
    requires base.Valid() && k !in KeysOf(vs)
    ensures var r := AfterWrite(base, vs, allowed, maxEntries).entries;
            Lookup(r, k) == Lookup(base.entries, k) || k !in r
    ensures maxEntries.None? || !allowed ==>
      Lookup(AfterWrite(base, vs, allowed, maxEntries).entries, k) == Lookup(base.entries, k)
  {
    hide Commit, Select, Winner, Store.Valid, KeysOf;
    if vs != [] && allowed {
      CommitMeetsLimit(base, Select(vs), false, false, maxEntries);
      BatchOffers(base.entries, vs, k);
      SelectedIsOffered(vs, k);
    }
  }

  /**
    A write pushes out another key exactly when the limit is used up by the keys newer than it and the keys written.
   */
  lemma PushedOutExactly(base: Store, vs: seq<Value>, max: nat, k: Key)
    requires base.Valid() && vs != [] && NoDuplicates(KeysOf(vs)) && k in base.entries && k !in KeysOf(vs)
    ensures var r, newer := AfterWrite(base, vs, true, Some(max)), NewerThan(base.order, k) + Written(base.entries, vs);
            && (k in r.entries <==> |newer| < max)
            && (k in r.entries ==> r.entries[k] == base.entries[k] && NewerThan(r.order, k) == newer)
  {
    hide Select, Winner, NewerThan, CommitKeys, Evict, WellFiled, StoredKeys, Written, KeysOf, NoDuplicates;
    var c := Select(vs);
    var m := CommitKeys(base, c, |c.order|, false, false);
    CommitKeysValid(base, c, |c.order|, false, false);
    WrittenAreStored(base, vs);
    assert c.order[..|c.order|] == c.order;
    CommitNewer(base, c, |c.order|, k);
    EvictKeepsRecent(m, Some(max));
    NewerSuffix(m.order, k, |m.order| - |Evict(m, Some(max)).order|);
    WriteLeaves(base, vs, true, Some(max), k);
  }

  /** A key stays as long as it and the keys that can be newer than it fit. */
  lemma ShelteredWrite(base: Store, vs: seq<Value>, allowed: bool, maxEntries: Option<nat>, k: Key, newer: set<Key>)
    requires base.Valid() && NoDuplicates(KeysOf(vs)) && k in base.entries && k !in KeysOf(vs)
    requires allowed && maxEntries.Some? ==>
      NewerThan(base.order, k) <= newer && Elems(KeysOf(vs)) <= newer && |newer| < maxEntries.value
    ensures var r := AfterWrite(base, vs, allowed, maxEntries);
            && Lookup(r.entries, k) == Lookup(base.entries, k)
            && (allowed && maxEntries.Some? ==> NewerThan(r.order, k) <= newer)
  {
    hide Commit, Select, NewerThan, Store.Valid, NoDuplicates, KeysOf;
    WriteLeaves(base, vs, allowed, maxEntries, k);
    if vs != [] && allowed && maxEntries.Some? {
      PushedOutExactly(base, vs, maxEntries.value, k);
      WrittenAmong(base.entries, vs);
      SubsetCardinality(NewerThan(base.order, k) + Written(base.entries, vs), newer);
    }
  }

  lemma WrittenAmong(entries: Entries, vs: seq<Value>)
    ensures Written(entries, vs) <= Elems(KeysOf(vs))
  {
    forall v | v in vs ensures v.key in KeysOf(vs) {
      var i :| 0 <= i < |vs| && vs[i] == v;
      assert KeysOf(vs)[i] == v.key;
    }
  }

  lemma {:induction false} NewerAreOthers(order: seq<Key>, k: Key)
    requires NoDuplicates(order)
    ensures NewerThan(order, k) <= Elems(order) - {k}
  {
    if order != [] {
      assert order[0] !in order[1..];
      NewerAreOthers(order[1..], k);
    }
  }
}
