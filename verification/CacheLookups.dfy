/**
  Reading the shared cache for a request: which keys are looked up, and what is served, missed or kept as a last resort.
 */
module CacheLookups {
  import opened Core
  import opened DependencyGraph
  import opened MemoryCache
  import opened CacheRuns
  import opened Sources
  import opened Resolution
  import opened KeyLists

  /** A read of the cache inserts nothing. */
  lemma {:induction false} ReadInsertsNothing(s: Store, keys: seq<Key>, now: real, policies: Policies)
    requires WellFiled(s.entries) && forall k :: k in keys ==> k in policies
    ensures Unwritten(s, ReadAll(s, keys, now, policies))
  {
    if keys != [] {
      ReadInsertsNothing(s, keys[..|keys| - 1], now, policies);
    }
  }

  /** Whether a cached value is served without asking the sources. */
  predicate Serves(lookup: CacheLookup, policy: FreshnessPolicy) {
    lookup.value.Some? && (lookup.isFresh || (lookup.usableStale && policy.refreshMode == StaleWhileRevalidate))
  }

  lemma ServedValue(lookup: CacheLookup, policy: FreshnessPolicy)
    requires Serves(lookup, policy)
    ensures lookup.value.Some?
  {
  }

  function PoliciesFor(r: Rules, keys: seq<Key>): (p: Policies)
    ensures forall k :: k in p <==> k in keys
  {
    map k | k in keys :: r.policy(k)
  }

  /** The cache after it was read for these keys. */
  ghost function AfterReading(r: Rules, s: Store, keys: seq<Key>, now: real): Store
    requires WellFiled(s.entries)
  {
    ReadAll(s, keys, now, PoliciesFor(r, keys))
  }

  /** The keys that are looked up in the shared cache, in order. */
  function LookupOrder(keys: seq<Key>, memo: Entries, force: set<Key>): (r: seq<Key>)
    ensures NoDuplicates(r)
    ensures forall k :: k in r <==> k in keys && k !in memo && k !in force
  {
    Filter(Distinct(keys), k => k !in memo && k !in force)
  }

  /** The keys of a request that are due for refresh, in order. */
  function DueOrder(keys: seq<Key>, force: set<Key>): (r: seq<Key>)
    ensures NoDuplicates(r)
    ensures forall k :: k in r <==> k in keys && k in force
  {
    Filter(Distinct(keys), k => k in force)
  }

  /** What the cache answered for position `i`. */
  ghost function AnswerAt(r: Rules, s: Store, keys: seq<Key>, now: real, i: nat): CacheLookup
    requires WellFiled(s.entries) && i < |keys|
  {
    LookupAt(s, keys, now, PoliciesFor(r, keys), i)
  }

  /** The keys among the first `n` that the cache does not serve, in order. */
  ghost function MissesOf(r: Rules, s: Store, keys: seq<Key>, now: real, n: nat): seq<Key>
    requires WellFiled(s.entries) && n <= |keys|
  {
    if n == 0 then []
    else MissesOf(r, s, keys, now, n - 1) + if Serves(AnswerAt(r, s, keys, now, n - 1),
                                                      r.policy(keys[n - 1])) then [] else [keys[n - 1]]
  }

  /** Key `i` is a hit, with a copy of what the cache answered, or a miss, perhaps with a stale value. */
  ghost predicate LookedAt(r: Rules, s: Store, keys: seq<Key>, now: real, i: nat, hits: Entries, misses: seq<Key>,
                           stale: Entries)
    requires WellFiled(s.entries) && i < |keys|
  {
    var key, lookup := keys[i], AnswerAt(r, s, keys, now, i);
    && (key in hits <==> Serves(lookup, r.policy(key)))
    && (key in hits ==> hits[key] == CachedCopy(lookup.value.value, !lookup.isFresh, now) && hits[key].key == key)
    && (key in stale <==> key in misses && lookup.usableStale && lookup.value.Some?)
    && (key in stale ==>
          Some(stale[key]) == lookup.value && stale[key].key == key && key in s.entries && s.entries[key] == stale[key])
  }

  /** The first `n` keys have been looked at. */
  ghost predicate Looked(r: Rules, s: Store, keys: seq<Key>, now: real, n: nat, hits: Entries, misses: seq<Key>,
                         stale: Entries) {
    && WellFiled(s.entries) && n <= |keys|
    && NoDuplicates(misses)
    && (forall k :: k in keys[..n] <==> k in hits || k in misses)
    && (forall k :: k in hits ==> k !in misses)
    && (forall i :: 0 <= i < n ==> LookedAt(r, s, keys, now, i, hits, misses, stale))
    && (forall k :: k in stale ==> k in misses)
    && misses == MissesOf(r, s, keys, now, n)
  }

  lemma NothingLooked(r: Rules, s: Store, keys: seq<Key>, now: real)
    requires s.Valid()
    ensures Looked(r, s, keys, now, 0, map[], [], map[])
  {
  }

  lemma AnsweredFor(r: Rules, s: Store, keys: seq<Key>, now: real, i: nat)
    requires s.Valid() && i < |keys|
    ensures var lookup := AnswerAt(r, s, keys, now, i);
            lookup.value.Some? ==>
              lookup.value.value.key == keys[i] && keys[i] in s.entries && s.entries[keys[i]] == lookup.value.value
  {
    ReadServesExactly(s, keys, now, PoliciesFor(r, keys), i);
  }

  lemma MissesStep(r: Rules, s: Store, keys: seq<Key>, now: real, n: nat)
    requires WellFiled(s.entries) && n < |keys|
    ensures MissesOf(r, s, keys, now, n + 1) ==
      MissesOf(r, s, keys, now, n) + if Serves(AnswerAt(r, s, keys, now, n), r.policy(keys[n])) then [] else [keys[n]]
  {
  }

  lemma LookedStep(r: Rules, s: Store, keys: seq<Key>, now: real, n: nat, hits: Entries, misses: seq<Key>,
                   stale: Entries)
    requires s.Valid() && NoDuplicates(keys) && n < |keys| && Looked(r, s, keys, now, n, hits, misses, stale)
    ensures var key, lookup := keys[n], AnswerAt(r, s, keys, now, n);
            && key !in hits
            && (lookup.value.Some? ==>
                  lookup.value.value.key == key && key in s.entries && s.entries[key] == lookup.value.value)
            && if Serves(lookup, r.policy(key)) then
                 Looked(r, s, keys, now, n + 1, hits[key := CachedCopy(lookup.value.value, !lookup.isFresh, now)],
                        misses, stale)
               else
                 Looked(r, s, keys, now, n + 1, hits, misses + [key],
                        if lookup.usableStale && lookup.value.Some? then stale[key := lookup.value.value] else stale)
  {
    hide AnswerAt, Serves, WellFiled, NoDuplicates, MissesOf, Store.Valid;
    var key, lookup := keys[n], AnswerAt(r, s, keys, now, n);
    MissesStep(r, s, keys, now, n);
    AnsweredFor(r, s, keys, now, n);
    LastIsNew(keys, n);
    assert key !in misses && key !in hits && key !in stale;
    OneMore(misses, key);
    var hits', misses', stale' := hits, misses, stale;
    if Serves(lookup, r.policy(key)) {
      ServedValue(lookup, r.policy(key));
      hits' := hits[key := CachedCopy(lookup.value.value, !lookup.isFresh, now)];
    } else {
      misses' := misses + [key];
      if lookup.usableStale && lookup.value.Some? { stale' := stale[key := lookup.value.value]; }
    }
    forall i | 0 <= i < n ensures LookedAt(r, s, keys, now, i, hits', misses', stale') {
      assert keys[i] in keys[..n];
      assert LookedAt(r, s, keys, now, i, hits, misses, stale);
    }
    assert LookedAt(r, s, keys, now, n, hits', misses', stale');
  }

  lemma LookedKeys(r: Rules, s: Store, keys: seq<Key>, now: real, hits: Entries, misses: seq<Key>, stale: Entries)
    requires Looked(r, s, keys, now, |keys|, hits, misses, stale)
    ensures NoDuplicates(misses) && WellFiled(s.entries) && misses == MissesOf(r, s, keys, now, |keys|)
    ensures forall k :: k in keys <==> k in hits || k in misses
    ensures forall k :: k in hits ==> k !in misses
    ensures forall k :: k in stale ==> k in misses && stale[k].key == k && k in s.entries && s.entries[k] == stale[k]
  {
    hide AnswerAt, Serves, WellFiled, NoDuplicates;
    assert keys[..|keys|] == keys;
    forall k | k in stale ensures stale[k].key == k && k in s.entries && s.entries[k] == stale[k] {
      var i :| 0 <= i < |keys| && keys[i] == k;
      assert LookedAt(r, s, keys, now, i, hits, misses, stale);
    }
  }

  lemma SoundStore(a: Situation)
    requires a.Sound()
    ensures a.store.Valid()
  {
  }

  lemma SoundMemo(a: Situation)
    requires a.Sound()
    ensures a.force !! a.memo.Keys && WellFiled(a.memo)
  {
  }

  lemma SoundEntries(a: Situation)
    requires a.Sound()
    ensures WellFiled(a.store.entries) && WellFiled(a.memo)
  {
  }

  lemma ReadKeeps(w: World, scope: Scope, a: Situation, b: Situation, keys: seq<Key>, now: real, policies: Policies)
    requires b.Sound() && Progress(w, scope, a, b) && forall k :: k in keys ==> k in policies
    ensures var c := b.(store := ReadAll(b.store, keys, now, policies));
            c.Sound() && Progress(w, scope, a, c)
  {
    hide Progress, ReadAll, Store.Valid, NoDuplicates;
    SoundStore(b);
    ReadAllValid(b.store, keys, now, policies);
    ReadInsertsNothing(b.store, keys, now, policies);
    FewerKeepKind(w, b.store.entries, ReadAll(b.store, keys, now, policies).entries);
    ProgressStore(w, scope, a, b, ReadAll(b.store, keys, now, policies));
  }

  /** Pinning a cached value for a key that was neither pinned nor due at the beginning. */
  lemma PinCached(w: World, scope: Scope, a: Situation, b: Situation, stored: Value, stale: bool, now: real)
    requires b.Sound() && Progress(w, scope, a, b) && stored.key !in a.memo && stored.key !in a.force
    requires StoreDeclared(w, a.store.entries) ==> AsDeclared(w, stored)
    ensures var v := CachedCopy(stored, stale, now);
            var c := b.(memo := b.memo[v.key := v]);
            c.Sound() && Progress(w, scope, a, c)
  {
    hide Progress, AsDeclared, StoreDeclared;
    var v := CachedCopy(stored, stale, now);
    if AsDeclared(w, stored) { CopyDeclared(w, stored, stale, now); }
    ProgressPins(w, scope, a, b);
    ProgressPin(w, scope, a, b, v);
    assert b.force - {v.key} == b.force;
  }

  lemma CopyDeclared(w: World, v: Value, stale: bool, now: real)
    requires AsDeclared(w, v)
    ensures AsDeclared(w, CachedCopy(v, stale, now))
  {
    var s :| s in w.sources && s.name == v.source && w.supports(s.name, v.key) == Supported &&
             v.DepKeys() == DeclaredKeys(w, s, v.key);
    assert CachedCopy(v, stale, now).DepKeys() == v.DepKeys();
  }

  /** What the cache's entries are known for is kept from the beginning on. */
  lemma KindSoFar(w: World, scope: Scope, a: Situation, b: Situation)
    requires Progress(w, scope, a, b)
    ensures KeepsKind(w, a.store.entries, b.store.entries)
  {
    hide Level, StoreDeclared;
  }
}
