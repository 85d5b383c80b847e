/**
  The dependency filter applied in front of caches that do not validate dependency versions
  themselves: the same recursion, reading the cache key by key, remembering what it read and
  collecting the keys to invalidate.
 */
module CacheAccess {
  import opened Core
  import opened WriteOrder
  import opened DependencyGraph
  import opened MemoryCache

  // ---- Walks ----------------------------------------------------------------------------------

  /** A walk of at least one step from `a` to `b`. */
  ghost predicate Leads(store: Entries, a: Key, b: Key) {
    exists ws :: LeadsBy(store, ws, a, b)
  }

  ghost predicate LeadsBy(store: Entries, ws: seq<Key>, a: Key, b: Key) {
    Walk(store, ws) && |ws| >= 2 && ws[0] == a && ws[|ws| - 1] == b
  }

  lemma JoinWalks(store: Entries, xs: seq<Key>, ys: seq<Key>)
    requires Walk(store, xs) && Walk(store, ys) && xs[|xs| - 1] == ys[0]
    ensures Walk(store, xs + ys[1..])
  {
    var zs := xs + ys[1..];
    forall i | 0 <= i < |zs| - 1 ensures zs[i + 1] in store[zs[i]].DepKeys() {
      if i < |xs| - 1 {
        assert zs[i] == xs[i] && zs[i + 1] == xs[i + 1];
      } else {
        var j := i - (|xs| - 1);
        assert zs[i] == ys[j] && zs[i + 1] == ys[j + 1];
      }
    }
  }

  lemma LeadsStep(store: Entries, a: Key, p: Key, d: Key)
    requires p in store && d in store && d in store[p].DepKeys()
    requires a == p || Leads(store, a, p)
    ensures Leads(store, a, d)
  {
    if a == p {
      assert LeadsBy(store, [p, d], a, d);
    } else {
      var ws :| LeadsBy(store, ws, a, p);
      WalkExtend(store, ws, d);
      assert LeadsBy(store, ws + [d], a, d);
    }
  }

  /** A key that leads back to itself is not current. */
  lemma CycleNotCurrent(store: Entries, k: Key)
    requires Leads(store, k, k)
    ensures k in store && !GraphCurrent(store, k)
  {
    var ws :| LeadsBy(store, ws, k, k);
    assert WalkFrom(store, k, ws) && ws[0] == ws[|ws| - 1];
  }

  /** A dependency refused on a path it was reached by is refused on its own. */
  lemma RefusedOnPathIsRefused(store: Entries, k: Key, visiting: set<Key>)
    requires WellFiled(store) && k in store
    requires forall x :: x in visiting ==> Leads(store, x, k)
    requires !DependenciesCurrent(store, store[k], visiting)
    ensures !GraphCurrent(store, k)
  {
    var ws := RefusedWalk(store, k, visiting);
    var last := ws[|ws| - 1];
    if last in visiting {
      var back :| LeadsBy(store, back, last, k);
      JoinWalks(store, ws, back);
      var loop := ws + back[1..];
      assert loop[|loop| - 1] == k && LeadsBy(store, loop, k, k);
      CycleNotCurrent(store, k);
    }
  }

  // ---- The filter -----------------------------------------------------------------------------

  /** What has been read so far agrees with the cache. */
  ghost predicate Agrees(store: Entries, cached: map<Key, Option<Value>>) {
    forall k :: k in cached ==> cached[k] == Lookup(store, k)
  }

  /** Every key collected for invalidation is stored and not current. */
  ghost predicate OnlyRefused(store: Entries, invalid: set<Key>) {
    forall k :: k in invalid ==> k in store && !GraphCurrent(store, k)
  }

  method ReadUnfiltered(store: Entries, key: Key, cached: map<Key, Option<Value>>)
    returns (value: Option<Value>, remembered: map<Key, Option<Value>>)
    requires Agrees(store, cached)
    ensures value == Lookup(store, key)
    ensures Agrees(store, remembered)
  {
    if key in cached {
      return cached[key], cached;
    }
    value := Lookup(store, key);
    remembered := cached[key := value];
  }

  method DependenciesCurrentVia(store: Entries, value: Value, cached: map<Key, Option<Value>>, visiting: set<Key>,
                                invalid: set<Key>)
    returns (ok: bool, remembered: map<Key, Option<Value>>, collected: set<Key>)
    requires WellFiled(store) && Agrees(store, cached) && OnlyRefused(store, invalid)
    requires Lookup(store, value.key) == Some(value)
    requires forall x :: x in visiting ==> Leads(store, x, value.key)
    ensures ok == DependenciesCurrent(store, value, visiting)
    ensures Agrees(store, remembered)
    ensures invalid <= collected && OnlyRefused(store, collected)
    decreases store.Keys - visiting
  {
    hide Leads, GraphCurrent;
    ok, remembered, collected := true, cached, invalid;
    if value.deps == [] {
      return;
    }
    if value.key in visiting {
      CycleNotCurrent(store, value.key);
      return false, cached, invalid + {value.key};
    }
    var path := visiting + {value.key};
    var n := 0;
    while n < |value.deps|
      invariant n <= |value.deps|
      invariant AllCurrent(store, value, value.deps, visiting) == AllCurrent(store, value, value.deps[n..], visiting)
      invariant ok && Agrees(store, remembered) && invalid <= collected && OnlyRefused(store, collected)
    {
      var d := value.deps[n];
      assert value.deps[n..][0] == d && value.deps[n..][1..] == value.deps[n + 1..];
      var dependency;
      dependency, remembered := ReadUnfiltered(store, d.key, remembered);
      if dependency.None? || dependency.value.version != d.version {
        return false, remembered, collected;
      }
      forall x | x in path ensures Leads(store, x, d.key) {
        assert d in value.deps;
        LeadsStep(store, x, value.key, d.key);
      }
      ok, remembered, collected := DependenciesCurrentVia(store, dependency.value, remembered, path, collected);
      if !ok {
        RefusedOnPathIsRefused(store, d.key, path);
        return false, remembered, collected + {d.key};
      }
      n := n + 1;
    }
  }

  function Emptied(lookup: CacheLookup): CacheLookup {
    CacheLookup(None, false, false, lookup.age)
  }

  /** What the filter lets through: exactly the values whose recorded graph is current. */
  ghost function Filtered(store: Entries, k: Key, lookup: CacheLookup): CacheLookup {
    if lookup.value.Some? && !GraphCurrent(store, k) then Emptied(lookup) else lookup
  }

  lemma LongWalkHasDependency(store: Entries, k: Key, ws: seq<Key>)
    requires WalkFrom(store, k, ws) && |ws| > 1
    ensures k in store && store[k].deps != []
  {
    assert ws[0 + 1] in store[ws[0]].DepKeys();
  }

  lemma PlainValueIsCurrent(store: Entries, k: Key)
    requires k in store && store[k].deps == []
    ensures GraphCurrent(store, k)
  {
    forall ws | WalkFrom(store, k, ws) ensures NoDuplicates(ws) && LocallyCurrent(store, store[ws[|ws| - 1]]) {
      if |ws| > 1 { LongWalkHasDependency(store, k, ws); }
    }
  }

  method FilterInvalidDependencies(store: Entries, order: seq<Key>, lookups: map<Key, CacheLookup>)
    returns (filtered: map<Key, CacheLookup>, remaining: Entries, ghost invalid: set<Key>)
    requires WellFiled(store) && NoDuplicates(order) && lookups.Keys == Elems(order)
    requires forall k :: k in lookups && lookups[k].value.Some? ==> Lookup(store, k) == lookups[k].value
    ensures filtered.Keys == lookups.Keys
    ensures forall k :: k in lookups ==> filtered[k] == Filtered(store, k, lookups[k])
    ensures forall k :: k in lookups && filtered[k] != lookups[k] && lookups[k].value.Some? ==> k in invalid
    ensures OnlyRefused(store, invalid) && remaining == store - invalid
  {
    hide GraphCurrent, DependenciesCurrent;
    var cached: map<Key, Option<Value>>, collected: set<Key> := map[], {};
    filtered := lookups;
    for n := 0 to |order|
      invariant filtered.Keys == lookups.Keys
      invariant forall i :: 0 <= i < n ==> filtered[order[i]] == Filtered(store, order[i], lookups[order[i]])
      invariant forall i :: n <= i < |order| ==> filtered[order[i]] == lookups[order[i]]
      invariant forall i :: 0 <= i < n && filtered[order[i]] != lookups[order[i]] && lookups[order[i]].value.Some? ==>
        order[i] in collected
      invariant Agrees(store, cached) && OnlyRefused(store, collected)
    {
      var key := order[n];
      var value := lookups[key].value;
      if value.Some? && value.value.deps != [] {
        var ok;
        ok, cached, collected := DependenciesCurrentVia(store, value.value, cached, {}, collected);
        CheckDecidesGraph(store, key);
        if !ok {
          collected := collected + {key};
          filtered := filtered[key := Emptied(lookups[key])];
        }
      } else if value.Some? {
        PlainValueIsCurrent(store, key);
      }
    }
    invalid := collected;
    remaining := store - collected;
  }

  /** Every key a current key depends on is current. */
  lemma CurrentIsClosed(store: Entries, ws: seq<Key>)
    requires Walk(store, ws) && GraphCurrent(store, ws[0])
    ensures GraphCurrent(store, ws[|ws| - 1])
  {
    var last := ws[|ws| - 1];
    forall vs | WalkFrom(store, last, vs) ensures NoDuplicates(vs) && LocallyCurrent(store, store[vs[|vs| - 1]]) {
      JoinWalks(store, ws, vs);
      var zs := ws + vs[1..];
      assert WalkFrom(store, ws[0], zs);
      assert zs[|zs| - 1] == vs[|vs| - 1];
      forall i, j | 0 <= i < j < |vs| ensures vs[i] != vs[j] {
        assert zs[|ws| - 1 + i] == vs[i] && zs[|ws| - 1 + j] == vs[j];
      }
    }
  }

  lemma SubWalk(small: Entries, big: Entries, ws: seq<Key>)
    requires SubEntries(small, big) && Walk(small, ws)
    ensures Walk(big, ws)
  {
    forall i | 0 <= i < |ws| - 1 ensures ws[i + 1] in big[ws[i]].DepKeys() {
      assert ws[i + 1] in small[ws[i]].DepKeys();
    }
  }

  /**
    Invalidating refused keys changes no remaining verdict: what was current stays current, nothing else becomes so.
   */
  lemma InvalidationIsSafe(store: Entries, invalid: set<Key>, k: Key)
    requires WellFiled(store) && OnlyRefused(store, invalid) && k in store && k !in invalid
    ensures GraphCurrent(store - invalid, k) <==> GraphCurrent(store, k)
  {
    var rest := store - invalid;
    if GraphCurrent(rest, k) {
      CheckDecidesGraph(rest, k);
      RemovalNeverRevives(rest, store, store[k], {});
      CheckDecidesGraph(store, k);
    }
    if GraphCurrent(store, k) {
      forall ws | WalkFrom(rest, k, ws) ensures NoDuplicates(ws) && LocallyCurrent(rest, rest[ws[|ws| - 1]]) {
        SubWalk(rest, store, ws);
        assert WalkFrom(store, k, ws);
        var last := ws[|ws| - 1];
        forall d | d in store[last].deps ensures d.key !in invalid {
          WalkExtend(store, ws, d.key);
          CurrentIsClosed(store, ws + [d.key]);
        }
      }
    }
  }
}
