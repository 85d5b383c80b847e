/**
  The in-memory cache: least-recently-used order, authority-aware writes, dependency-checked lookups
  and the counters it reports. `Store` is the state one lock section sees; the class in
  `AsyncMemoryCache` performs the operations step by step and is proved against these functions.
 */
module MemoryCache {
  import opened Core
  import opened WriteOrder
  import opened DependencyGraph

  datatype ReadCounts = ReadCounts(hits: nat, misses: nat, freshHits: nat, staleHits: nat)

  datatype ChangeCounts = ChangeCounts(sets: nat, invalidations: nat, evictions: nat, expirations: nat)

  /** `order` lists the keys from least to most recently touched. */
  datatype Store = Store(order: seq<Key>, entries: Entries, lookups: ReadCounts, changes: ChangeCounts) {
    ghost predicate Valid() {
      && NoDuplicates(order)
      && (forall k :: k in order <==> k in entries)
      && WellFiled(entries)
    }
  }

  const EMPTY_STORE := Store([], map[], ReadCounts(0, 0, 0, 0), ChangeCounts(0, 0, 0, 0))

  datatype CacheLookup = CacheLookup(value: Option<Value>, isFresh: bool, usableStale: bool, age: Option<real>)

  type Policies = map<Key, FreshnessPolicy>

  lemma SizeIsOrderLength(s: Store)
    requires s.Valid()
    ensures |s.entries| == |s.order|
  {
    NoDuplicatesCardinality(s.order);
    assert s.entries.Keys == Elems(s.order);
  }

  // ---- Elementary changes -----------------------------------------------------------------

  function Drop(s: Store, k: Key): Store {
    s.(order := Without(s.order, k), entries := s.entries - {k})
  }

  function ToEnd(order: seq<Key>, k: Key): seq<Key> {
    Without(order, k) + [k]
  }

  function Touch(s: Store, k: Key): Store {
    s.(order := ToEnd(s.order, k))
  }

  function Insert(s: Store, v: Value): Store {
    Store(ToEnd(s.order, v.key), s.entries[v.key := v], s.lookups, s.changes.(sets := s.changes.sets + 1))
  }

  lemma ElementaryValid(s: Store, k: Key, v: Value)
    requires s.Valid()
    ensures Drop(s, k).Valid() && Insert(s, v).Valid()
    ensures k in s.entries ==> Touch(s, k).Valid()
  {
  }

  // ---- Reading ----------------------------------------------------------------------------

  const ABSENT := CacheLookup(None, false, false, None)

  function Refused(age: real): CacheLookup {
    CacheLookup(None, false, false, Some(age))
  }

  /** One key of a read: a refused or expired entry is removed, a served one becomes most recent. */
  function ReadOne(s: Store, k: Key, now: real, policy: FreshnessPolicy): (r: (Store, CacheLookup))
    requires WellFiled(s.entries)
    ensures SubEntries(r.0.entries, s.entries)
  {
    var missed, ch := s.lookups.(misses := s.lookups.misses + 1), s.changes;
    if k !in s.entries then (s.(lookups := missed), ABSENT)
    else
      var value := s.entries[k];
      var age := Max0(now - value.observedAt);
      if !DependenciesCurrent(s.entries, value, {}) then
        (Drop(s, k).(lookups := missed, changes := ch.(invalidations := ch.invalidations + 1)), Refused(age))
      else if policy.maxStale.Exceeded(age) then
        (Drop(s, k).(lookups := missed, changes := ch.(expirations := ch.expirations + 1)), Refused(age))
      else
        var isFresh := !policy.ttl.Exceeded(age);
        var hit := s.lookups.(hits := s.lookups.hits + 1);
        var counted := if isFresh then hit.(freshHits := hit.freshHits + 1) else hit.(staleHits := hit.staleHits + 1);
        (Touch(s, k).(lookups := counted), CacheLookup(Some(value), isFresh, true, Some(age)))
  }

  /** The store after reading the first keys of a request. */
  function ReadAll(s: Store, keys: seq<Key>, now: real, policies: Policies): (r: Store)
    requires WellFiled(s.entries) && forall k :: k in keys ==> k in policies
    ensures SubEntries(r.entries, s.entries)
  {
    if keys == [] then s
    else
      var n := |keys| - 1;
      ReadOne(ReadAll(s, keys[..n], now, policies), keys[n], now, policies[keys[n]]).0
  }

  /** What the read of position `i` answered. */
  function LookupAt(s: Store, keys: seq<Key>, now: real, policies: Policies, i: nat): CacheLookup
    requires WellFiled(s.entries) && i < |keys| && forall k :: k in keys ==> k in policies
  {
    ReadOne(ReadAll(s, keys[..i], now, policies), keys[i], now, policies[keys[i]]).1
  }

  lemma ReadNothing(s: Store, now: real, policies: Policies)
    requires WellFiled(s.entries)
    ensures ReadAll(s, [], now, policies) == s
  {
  }

  lemma ReadStep(s: Store, keys: seq<Key>, now: real, policies: Policies, i: nat)
    requires WellFiled(s.entries) && i < |keys| && forall k :: k in keys ==> k in policies
    ensures (ReadAll(s, keys[..i + 1], now, policies), LookupAt(s, keys, now, policies, i))
         == ReadOne(ReadAll(s, keys[..i], now, policies), keys[i], now, policies[keys[i]])
  {
    assert keys[..i + 1][..i] == keys[..i];
  }

  lemma {:induction false} ReadAllValid(s: Store, keys: seq<Key>, now: real, policies: Policies)
    requires s.Valid() && forall k :: k in keys ==> k in policies
    ensures ReadAll(s, keys, now, policies).Valid()
  {
    if keys != [] {
      var n := |keys| - 1;
      ReadAllValid(s, keys[..n], now, policies);
      ReadOneValid(ReadAll(s, keys[..n], now, policies), keys[n], now, policies[keys[n]]);
    }
  }

  lemma ReadOneValid(s: Store, k: Key, now: real, policy: FreshnessPolicy)
    requires s.Valid()
    ensures ReadOne(s, k, now, policy).0.Valid()
  {
    if k in s.entries { ElementaryValid(s, k, s.entries[k]); }
  }

  // ---- Writing ----------------------------------------------------------------------------

  datatype WriteResult = WriteResult(status: WriteStatus, value: Value, previous: Option<Value>)

  function StatusAt(entries: Entries, c: Candidates, k: Key, force: bool, replaceEqual: bool): WriteStatus
    requires k in c.byKey
  {
    WriteStatusOf(Lookup(entries, k), c.byKey[k], force, replaceEqual)
  }

  /** The commit loop over the first candidates, every status taken from `base`. */
  function CommitKeys(base: Store, c: Candidates, n: nat, force: bool, replaceEqual: bool): (r: Store)
    requires c.Indexed() && n <= |c.order|
  {
    if n == 0 then base
    else
      var s, k := CommitKeys(base, c, n - 1, force, replaceEqual), c.order[n - 1];
      if StatusAt(base.entries, c, k, force, replaceEqual) == Stored then Insert(s, c.byKey[k]) else s
  }

  lemma CommitNothing(base: Store, c: Candidates, force: bool, replaceEqual: bool)
    requires c.Indexed()
    ensures CommitKeys(base, c, 0, force, replaceEqual) == base
  {
  }

  lemma CommitKeysStep(base: Store, c: Candidates, n: nat, force: bool, replaceEqual: bool)
    requires c.Indexed() && n < |c.order|
    ensures var s, k := CommitKeys(base, c, n, force, replaceEqual), c.order[n];
            CommitKeys(base, c, n + 1, force, replaceEqual) ==
              if StatusAt(base.entries, c, k, force, replaceEqual) == Stored then Insert(s, c.byKey[k]) else s
  {
  }

  /** Keys whose turn has not come are as they were. */
  lemma {:induction false} CommitKeysUntouched(base: Store, c: Candidates, n: nat, force: bool, replaceEqual: bool,
                                               j: nat)
    requires c.Valid() && n <= j < |c.order|
    ensures Lookup(CommitKeys(base, c, n, force, replaceEqual).entries, c.order[j]) == Lookup(base.entries, c.order[j])
  {
    hide Without, WriteStatusOf;
    if n > 0 {
      CommitKeysUntouched(base, c, n - 1, force, replaceEqual, j);
      assert c.order[n - 1] != c.order[j];
    }
  }

  lemma {:induction false} CommitKeysValid(base: Store, c: Candidates, n: nat, force: bool, replaceEqual: bool)
    requires base.Valid() && c.Valid() && n <= |c.order|
    ensures CommitKeys(base, c, n, force, replaceEqual).Valid()
  {
    if n > 0 {
      CommitKeysValid(base, c, n - 1, force, replaceEqual);
      var k := c.order[n - 1];
      ElementaryValid(CommitKeys(base, c, n - 1, force, replaceEqual), k, c.byKey[k]);
    }
  }

  /** A reported result: the decision at the instant of the commit, and an ignored write has a previous value. */
  ghost predicate Reported(entries: Entries, c: Candidates, k: Key, force: bool, replaceEqual: bool, r: WriteResult)
    requires k in c.byKey
  {
    && r.status == StatusAt(entries, c, k, force, replaceEqual)
    && r.previous == Lookup(entries, k)
    && (r.status == Stored ==> r.value == c.byKey[k])
    && (r.status != Stored ==> r.previous == Some(r.value))
  }

  /** Evicts from the least recently touched end until the limit is met. */
  function Evict(s: Store, maxEntries: Option<nat>): (r: Store)
    requires s.Valid()
    ensures r.Valid()
    decreases |s.order|
  {
    if maxEntries.None? || |s.entries| <= maxEntries.value then s
    else
      SizeIsOrderLength(s);
      Evict(EvictOldest(s), maxEntries)
  }

  function EvictOldest(s: Store): (r: Store)
    requires s.Valid() && s.order != []
    ensures r.Valid() && |r.order| == |s.order| - 1
  {
    Store(s.order[1..], s.entries - {s.order[0]}, s.lookups, s.changes.(evictions := s.changes.evictions + 1))
  }

  /** A whole batch committed at one instant. */
  function Commit(base: Store, c: Candidates, force: bool, replaceEqual: bool, maxEntries: Option<nat>): (r: Store)
    requires base.Valid() && c.Valid()
    ensures r.Valid()
  {
    CommitKeysValid(base, c, |c.order|, force, replaceEqual);
    Evict(CommitKeys(base, c, |c.order|, force, replaceEqual), maxEntries)
  }

  // ---- Invalidation -----------------------------------------------------------------------

  function InvalidateAll(s: Store, keys: seq<Key>): (r: Store)
    ensures r.entries == s.entries - Elems(keys)
  {
    if keys == [] then s
    else
      var m, k := InvalidateAll(s, keys[..|keys| - 1]), keys[|keys| - 1];
      if k in m.entries then Drop(m, k).(changes := m.changes.(invalidations := m.changes.invalidations + 1)) else m
  }

  /** The keys of an ordered dictionary that satisfy a predicate, in order. */
  function Filter(order: seq<Key>, accepts: Key -> bool): (r: seq<Key>)
    ensures forall k :: k in r <==> k in order && accepts(k)
    ensures NoDuplicates(order) ==> NoDuplicates(r)
  {
    if order == [] then []
    else
      var n := |order| - 1;
      var front := Filter(order[..n], accepts);
      assert NoDuplicates(order) ==> order[n] !in order[..n];
      if accepts(order[n]) then front + [order[n]] else front
  }

  lemma FilterMore(order: seq<Key>, k: Key, accepts: Key -> bool)
    ensures Filter(order + [k], accepts) == Filter(order, accepts) + if accepts(k) then [k] else []
  {
    assert (order + [k])[..|order|] == order;
  }

  lemma FilterNothing(accepts: Key -> bool)
    ensures Filter([], accepts) == []
  {
  }

  /** A filtered list is what its parts leave, in their order. */
  lemma {:induction false} FilterInOrder(a: seq<Key>, b: seq<Key>, accepts: Key -> bool)
    ensures Filter(a + b, accepts) == Filter(a, accepts) + Filter(b, accepts)
    ensures forall k :: Filter([k], accepts) == if accepts(k) then [k] else []
  {
    FilterNothing(accepts);
    hide Filter;
    forall k ensures Filter([k], accepts) == if accepts(k) then [k] else [] {
      FilterMore([], k, accepts);
      assert [] + [k] == [k];
    }
    if b == [] {
      assert a + b == a;
    } else {
      var n := |b| - 1;
      FilterInOrder(a, b[..n], accepts);
      assert a + b == (a + b[..n]) + [b[n]] && b == b[..n] + [b[n]];
      FilterMore(a + b[..n], b[n], accepts);
      FilterMore(b[..n], b[n], accepts);
    }
  }

  /** Removing the listed keys one by one. */
  function DropAll(s: Store, keys: seq<Key>): (r: Store)
    ensures r.entries == s.entries - Elems(keys) && r.lookups == s.lookups && r.changes == s.changes
  {
    if keys == [] then s
    else Drop(DropAll(s, keys[..|keys| - 1]), keys[|keys| - 1])
  }

  lemma {:induction false} DropAllValid(s: Store, keys: seq<Key>)
    requires s.Valid()
    ensures DropAll(s, keys).Valid()
  {
    if keys != [] {
      DropAllValid(s, keys[..|keys| - 1]);
    }
  }

  lemma {:induction false} InvalidateAllValid(s: Store, keys: seq<Key>)
    requires s.Valid()
    ensures InvalidateAll(s, keys).Valid()
  {
    if keys != [] {
      InvalidateAllValid(s, keys[..|keys| - 1]);
    }
  }

  function IsExpired(entries: Entries, now: real, policy: Key -> FreshnessPolicy): Key -> bool {
    k => k in entries && policy(k).maxStale.Exceeded(Max0(now - entries[k].observedAt))
  }

  /** Invalidation of every key a predicate accepts. */
  function InvalidateWhere(s: Store, accepts: Key -> bool): Store {
    var removed := Filter(s.order, accepts);
    var r := DropAll(s, removed);
    r.(changes := r.changes.(invalidations := r.changes.invalidations + |removed|))
  }

  function PruneAll(s: Store, now: real, policy: Key -> FreshnessPolicy): Store {
    var removed := Filter(s.order, IsExpired(s.entries, now, policy));
    var r := DropAll(s, removed);
    r.(changes := r.changes.(expirations := r.changes.expirations + |removed|))
  }

  function ClearAll(s: Store): Store {
    Store([], map[], s.lookups, s.changes.(invalidations := s.changes.invalidations + |s.entries|))
  }
}
