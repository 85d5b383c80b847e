/** The cache as an object: its fields are changed step by step inside lock sections. */
module AsyncMemoryCache {
  import opened Core
  import opened WriteOrder
  import opened DependencyGraph
  import opened MemoryCache
  import opened CacheReads

  /** What other tasks make of a state before each of the first `n` lock sections of a write. */
  ghost function Drift(interference: (nat, Store) -> Store, s: Store, n: nat): Store {
    if n == 0 then s else interference(n - 1, Drift(interference, s, n - 1))
  }

  /** The candidates copied so far. */
  ghost predicate Copied(c: Candidates, prepared: Entries) {
    prepared.Keys <= c.byKey.Keys && forall k :: k in prepared ==> prepared[k] == c.byKey[k]
  }

  lemma NothingCopied(c: Candidates)
    ensures Copied(c, map[])
  {
  }

  lemma CopiedBound(c: Candidates, prepared: Entries)
    requires c.Valid() && Copied(c, prepared)
    ensures |prepared| <= |c.order|
  {
    PreparedBound(c, prepared);
  }

  /** Other tasks leave the cache in a valid state. */
  ghost predicate KeepsValid(interference: (nat, Store) -> Store) {
    forall i, s: Store :: s.Valid() ==> interference(i, s).Valid()
  }

  lemma DriftStep(interference: (nat, Store) -> Store, s: Store, n: nat)
    requires KeepsValid(interference)
    ensures Drift(interference, s, 0) == s
    ensures Drift(interference, s, n + 1) == interference(n, Drift(interference, s, n))
    ensures Drift(interference, s, n).Valid() ==> Drift(interference, s, n + 1).Valid()
  {
  }

  class Cache {
    const maxEntries: Option<nat>
    var order: seq<Key>
    var entries: Entries
    var lookups: ReadCounts
    var changes: ChangeCounts

    function State(): Store
      reads this
    {
      Store(order, entries, lookups, changes)
    }

    ghost predicate Valid()
      reads this
    {
      State().Valid()
    }

    constructor (maxEntries: Option<nat>)
      requires maxEntries.Some? ==> maxEntries.value >= 1
      ensures Valid() && State() == EMPTY_STORE && this.maxEntries == maxEntries
    {
      this.maxEntries := maxEntries;
      order, entries, lookups, changes := [], map[], EMPTY_STORE.lookups, EMPTY_STORE.changes;
    }

    /** The lock section of a read; a missing policy is refused before anything is read. */
    method GetMany(keys: seq<Key>, now: real, policies: Policies) returns (r: Option<map<Key, CacheLookup>>)
      requires Valid()
      modifies this
      ensures Valid()
      ensures r.None? <==> exists k :: k in keys && k !in policies
      ensures r.None? ==> State() == old(State())
      ensures r.Some? ==>
        var unique := Distinct(keys);
        && State() == ReadAll(old(State()), unique, now, policies)
        && r.value.Keys == Elems(keys)
        && forall i :: 0 <= i < |unique| ==> r.value[unique[i]] == LookupAt(old(State()), unique, now, policies, i)
      ensures r.Some? ==>
        var unique := Distinct(keys);
        && (forall k :: k in unique ==> k in policies && k in r.value)
        && Leaves(old(entries), entries, unique, now, policies) && Counted(old(State()), State(), unique, now, policies)
        && forall i :: 0 <= i < |unique| ==>
             r.value[unique[i]] ==
               AnswerTo(Lookup(old(entries), unique[i]), now, FateAt(old(entries), entries, unique, now, policies, i))
    {
      hide ReadOne, ReadAll, LookupAt, Distinct, Leaves, Counted, AnswerTo, FateAt;
      var unique := Distinct(keys);
      if k :| k in unique && k !in policies {
        return None;
      }
      var captured: map<Key, CacheLookup> := map[];
      ReadNothing(State(), now, policies);
      assert unique[..0] == [];
      for n := 0 to |unique|
        invariant Valid()
        invariant State() == ReadAll(old(State()), unique[..n], now, policies)
        invariant captured.Keys == Elems(unique[..n])
        invariant forall i :: 0 <= i < n ==> captured[unique[i]] == LookupAt(old(State()), unique, now, policies, i)
      {
        var key := unique[n];
        assert unique[..n + 1] == unique[..n] + [key];
        ReadStep(old(State()), unique, now, policies, n);
        var found := ReadLocked(key, now, policies[key]);
        captured := captured[key := found];
      }
      assert unique[..|unique|] == unique;
      ReadMeans(old(State()), unique, now, policies);
      return Some(captured);
    }

    /** One key of the read loop. */
    method ReadLocked(key: Key, now: real, policy: FreshnessPolicy) returns (found: CacheLookup)
      requires Valid()
      modifies this
      ensures Valid() && (State(), found) == ReadOne(old(State()), key, now, policy)
    {
      hide Without, ToEnd, DependenciesCurrent, NoDuplicates;
      ReadOneValid(State(), key, now, policy);
      if key !in entries {
        lookups := lookups.(misses := lookups.misses + 1);
        return ABSENT;
      }
      var value := entries[key];
      var age := Max0(now - value.observedAt);
      var current := DependenciesCurrent(entries, value, {});
      if !current {
        Pop(key);
        lookups := lookups.(misses := lookups.misses + 1);
        changes := changes.(invalidations := changes.invalidations + 1);
        return Refused(age);
      }
      if policy.maxStale.Exceeded(age) {
        Pop(key);
        lookups := lookups.(misses := lookups.misses + 1);
        changes := changes.(expirations := changes.expirations + 1);
        return Refused(age);
      }
      order := ToEnd(order, key);
      var isFresh := !policy.ttl.Exceeded(age);
      lookups := lookups.(hits := lookups.hits + 1);
      if isFresh {
        lookups := lookups.(freshHits := lookups.freshHits + 1);
      } else {
        lookups := lookups.(staleHits := lookups.staleHits + 1);
      }
      return CacheLookup(Some(value), isFresh, true, Some(age));
    }

    method Pop(key: Key)
      requires Valid()
      modifies this`order, this`entries
      ensures State() == Drop(old(State()), key)
    {
      order, entries := Without(order, key), entries - {key};
    }

    /** The status loop of one lock section: decisions now, and candidates not copied yet. */
    method DecideAll(c: Candidates, prepared: Entries, force: bool, replaceEqual: bool)
      returns (statuses: map<Key, WriteStatus>, missing: seq<Key>)
      requires c.Valid()
      ensures statuses.Keys == c.byKey.Keys
      ensures forall k :: k in c.byKey ==> statuses[k] == StatusAt(entries, c, k, force, replaceEqual)
      ensures forall k :: k in missing <==> k in c.byKey && statuses[k] == Stored && k !in prepared
    {
      hide WriteStatusOf, NoDuplicates, WellFiled;
      statuses, missing := map[], [];
      for n := 0 to |c.order|
        invariant statuses.Keys == Elems(c.order[..n])
        invariant forall k :: k in statuses ==> statuses[k] == StatusAt(entries, c, k, force, replaceEqual)
        invariant forall k :: k in missing <==> k in statuses && statuses[k] == Stored && k !in prepared
      {
        var key := c.order[n];
        assert c.order[..n + 1] == c.order[..n] + [key];
        var status := StatusAt(entries, c, key, force, replaceEqual);
        statuses := statuses[key := status];
        if status == Stored && key !in prepared {
          missing := missing + [key];
        }
      }
      assert c.order[..|c.order|] == c.order;
    }

    method StoreLocked(v: Value)
      requires Valid()
      modifies this
      ensures Valid() && State() == Insert(old(State()), v)
    {
      ElementaryValid(State(), v.key, v);
      entries := entries[v.key := v];
      order := ToEnd(order, v.key);
      changes := changes.(sets := changes.sets + 1);
    }

    /** The commit loop, entered only when every candidate to be stored has been copied. */
    method CommitAll(c: Candidates, prepared: Entries, statuses: map<Key, WriteStatus>, ghost force: bool,
                     ghost replaceEqual: bool)
      returns (results: map<Key, WriteResult>)
      requires Valid() && c.Valid() && statuses.Keys == c.byKey.Keys
      requires forall k :: k in c.byKey ==> statuses[k] == StatusAt(entries, c, k, force, replaceEqual)
      requires forall k :: k in c.byKey && statuses[k] == Stored ==> k in prepared && prepared[k] == c.byKey[k]
      modifies this
      ensures Valid() && State() == CommitKeys(old(State()), c, |c.order|, force, replaceEqual)
      ensures results.Keys == c.byKey.Keys
      ensures forall k :: k in results ==> Reported(old(entries), c, k, force, replaceEqual, results[k])
    {
      hide Insert, CommitKeys, NoDuplicates, WellFiled;
      results := map[];
      ghost var base := State();
      CommitNothing(base, c, force, replaceEqual);
      for n := 0 to |c.order|
        invariant Valid()
        invariant State() == CommitKeys(base, c, n, force, replaceEqual)
        invariant forall i :: 0 <= i < n ==> c.order[i] in results
        invariant forall k :: k in results ==> k in c.byKey && Reported(base.entries, c, k, force, replaceEqual,
                                                                        results[k])
      {
        var key := c.order[n];
        assert key in c.byKey;
        CommitKeysUntouched(base, c, n, force, replaceEqual, n);
        CommitKeysStep(base, c, n, force, replaceEqual);
        var previous := Lookup(entries, key);
        if statuses[key] == Stored {
          StoreLocked(prepared[key]);
          results := results[key := WriteResult(Stored, prepared[key], previous)];
        } else {
          results := results[key := WriteResult(statuses[key], previous.value, previous)];
        }
      }
    }

    method EvictOne()
      requires Valid() && order != []
      modifies this
      ensures State() == EvictOldest(old(State()))
    {
      entries := entries - {order[0]};
      order := order[1..];
      changes := changes.(evictions := changes.evictions + 1);
    }

    /** Evicts the oldest entries until the limit is met. */
    method EnforceLimit()
      requires Valid()
      modifies this
      ensures Valid() && State() == Evict(old(State()), maxEntries)
    {
      if maxEntries.None? {
        return;
      }
      ghost var target := Evict(State(), maxEntries);
      while |entries| > maxEntries.value
        invariant Valid()
        invariant Evict(State(), maxEntries) == target
        decreases |order|
      {
        SizeIsOrderLength(State());
        EvictOne();
      }
    }

    /** One lock section of a write: it either names what is still to be copied or commits the whole batch. */
    method LockSection(c: Candidates, prepared: Entries, force: bool, replaceEqual: bool)
      returns (missing: seq<Key>, results: map<Key, WriteResult>)
      requires Valid() && c.Valid()
      requires Copied(c, prepared)
      modifies this
      ensures Valid()
      ensures forall k :: k in missing ==> k in c.byKey && k !in prepared
      ensures missing != [] ==> State() == old(State())
      ensures missing == [] ==>
        && State() == Commit(old(State()), c, force, replaceEqual, maxEntries)
        && results.Keys == c.byKey.Keys
        && forall k :: k in results ==> Reported(old(entries), c, k, force, replaceEqual, results[k])
    {
      hide CommitKeys, Evict, StatusAt, Reported, WriteStatusOf;
      results := map[];
      var statuses;
      statuses, missing := DecideAll(c, prepared, force, replaceEqual);
      if missing == [] {
        assert forall k :: k in c.byKey && statuses[k] == Stored && k !in prepared ==> k in missing;
        results := CommitAll(c, prepared, statuses, force, replaceEqual);
        EnforceLimit();
      }
    }

    /**
      The optimistic write. Between two lock sections the candidates that currently qualify are copied
      outside the lock, and other tasks may do anything to the cache: `interference` is what they did
      before section `i`. The batch is committed in the one section that finds nothing left to copy.
     */
    method SetManyIfNewer(values: seq<Value>, force: bool, replaceEqual: bool, interference: (nat, Store) -> Store)
      returns (results: map<Key, WriteResult>, sections: nat, ghost instant: Store)
      requires Valid()
      requires KeepsValid(interference)
      modifies this
      ensures Valid() && instant.Valid()
      ensures values == [] ==> sections == 0 && results == map[] && State() == old(State())
      ensures values != [] ==> 1 <= sections <= |Select(values).order| + 1
      ensures values != [] ==> instant == Drift(interference, old(State()), sections)
      ensures values != [] ==> State() == Commit(instant, Select(values), force, replaceEqual, maxEntries)
      ensures results.Keys == Select(values).byKey.Keys
      ensures forall k :: k in results ==> Reported(instant.entries, Select(values), k, force, replaceEqual, results[k])
    {
      hide Commit, Select, Reported, NoDuplicates, WellFiled, Drift;
      var c := SelectCandidates(values);
      SelectsSomething(values);
      if c.order == [] {
        return map[], 0, State();
      }
      results, sections, instant := CommitOptimistically(c, force, replaceEqual, interference);
    }

    /** The loop of the optimistic write over the selected candidates. */
    method CommitOptimistically(c: Candidates, force: bool, replaceEqual: bool, interference: (nat, Store) -> Store)
      returns (results: map<Key, WriteResult>, sections: nat, ghost instant: Store)
      requires Valid() && c.Valid()
      requires KeepsValid(interference)
      modifies this
      ensures Valid() && instant.Valid()
      ensures 1 <= sections <= |c.order| + 1
      ensures instant == Drift(interference, old(State()), sections)
      ensures State() == Commit(instant, c, force, replaceEqual, maxEntries)
      ensures results.Keys == c.byKey.Keys
      ensures forall k :: k in results ==> Reported(instant.entries, c, k, force, replaceEqual, results[k])
    {
      hide Commit, Reported, KeepsValid, Drift, Store.Valid, Candidates.Valid, Copied;
      var prepared: Entries := map[];
      NothingCopied(c);
      sections := 0;
      DriftStep(interference, State(), 0);
      while true
        invariant Valid()
        invariant State() == Drift(interference, old(State()), sections)
        invariant Copied(c, prepared)
        invariant sections <= |prepared|
        decreases c.byKey.Keys - prepared.Keys
      {
        DriftStep(interference, old(State()), sections);
        Resume(interference(sections, State()));
        instant := State();
        sections := sections + 1;
        CopiedBound(c, prepared);
        var missing;
        missing, results := LockSection(c, prepared, force, replaceEqual);
        if missing == [] {
          return;
        }
        prepared := Prepare(c, prepared, missing);
      }
    }

    /** Copying the missing candidates, outside the lock. */
    static method Prepare(c: Candidates, prepared: Entries, missing: seq<Key>) returns (extended: Entries)
      requires missing != [] && forall k :: k in missing ==> k in c.byKey && k !in prepared
      requires Copied(c, prepared)
      ensures Copied(c, extended)
      ensures prepared.Keys < extended.Keys <= c.byKey.Keys && |extended| > |prepared|
    {
      extended := prepared;
      for n := 0 to |missing|
        invariant prepared.Keys <= extended.Keys <= c.byKey.Keys
        invariant n > 0 ==> missing[0] in extended
        invariant forall i :: 0 <= i < n ==> missing[i] in extended
        invariant forall k :: k in extended ==> extended[k] == c.byKey[k]
      {
        extended := extended[missing[n] := c.byKey[missing[n]]];
      }
      assert missing[0] !in prepared;
      SubsetCardinality(prepared.Keys + {missing[0]}, extended.Keys);
    }

    method InvalidateMany(keys: seq<Key>)
      requires Valid()
      modifies this
      ensures Valid() && State() == InvalidateAll(old(State()), Distinct(keys))
      ensures Removes(old(State()), State(), Elems(keys) * old(entries).Keys, false)
    {
      hide Without, Distinct, Removes;
      InvalidateAllMeans(State(), Distinct(keys));
      assert Elems(Distinct(keys)) == Elems(keys);
      var unique := Distinct(keys);
      ghost var base := State();
      for n := 0 to |unique|
        invariant State() == InvalidateAll(base, unique[..n])
        invariant Valid()
      {
        assert unique[..n + 1][..n] == unique[..n];
        InvalidateAllValid(base, unique[..n + 1]);
        if unique[n] in entries {
          Pop(unique[n]);
          changes := changes.(invalidations := changes.invalidations + 1);
        }
      }
      assert unique[..|unique|] == unique;
    }

    /** Pops the listed keys; shared by predicate invalidation and pruning. */
    method PopAll(keys: seq<Key>)
      requires Valid()
      modifies this
      ensures Valid() && State() == DropAll(old(State()), keys)
    {
      ghost var base := State();
      for n := 0 to |keys|
        invariant State() == DropAll(base, keys[..n])
        invariant Valid()
      {
        assert keys[..n + 1][..n] == keys[..n];
        DropAllValid(base, keys[..n + 1]);
        Pop(keys[n]);
      }
      assert keys[..|keys|] == keys;
    }

    method InvalidateMatching(accepts: Key -> bool) returns (removed: seq<Key>)
      requires Valid()
      modifies this
      ensures Valid() && State() == InvalidateWhere(old(State()), accepts)
      ensures forall k :: k in removed <==> k in old(entries) && accepts(k)
      ensures Removes(old(State()), State(), set k | k in old(entries) && accepts(k), false)
    {
      InvalidateWhereMeans(State(), accepts);
      removed := Filter(order, accepts);
      PopAll(removed);
      changes := changes.(invalidations := changes.invalidations + |removed|);
    }

    method Prune(now: real, policy: Key -> FreshnessPolicy) returns (expired: seq<Key>)
      requires Valid()
      modifies this
      ensures Valid() && State() == PruneAll(old(State()), now, policy)
      ensures forall k :: k in expired <==> k in TooOld(old(entries), now, policy)
      ensures Removes(old(State()), State(), TooOld(old(entries), now, policy), true)
    {
      PruneMeans(State(), now, policy);
      expired := Filter(order, IsExpired(entries, now, policy));
      PopAll(expired);
      changes := changes.(expirations := changes.expirations + |expired|);
    }

    method Clear()
      requires Valid()
      modifies this
      ensures Valid() && State() == ClearAll(old(State()))
      ensures Removes(old(State()), State(), old(entries).Keys, false)
    {
      changes := changes.(invalidations := changes.invalidations + |entries|);
      order, entries := [], map[];
    }

    /** The state this task finds when it takes the lock again. */
    method Resume(s: Store)
      requires s.Valid()
      modifies this
      ensures State() == s
    {
      order, entries, lookups, changes := s.order, s.entries, s.lookups, s.changes;
    }
  }
}
