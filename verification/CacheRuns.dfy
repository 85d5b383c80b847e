/** What holds over every run of cache operations. */
module CacheRuns {
  import opened Core
  import opened WriteOrder
  import opened DependencyGraph
  import opened MemoryCache

  // ---- Reads --------------------------------------------------------------------------------

  ghost predicate Servable(entries: Entries, k: Key, now: real, policy: FreshnessPolicy) {
    && k in entries
    && GraphCurrent(entries, k)
    && !policy.maxStale.Exceeded(Max0(now - entries[k].observedAt))
  }

  lemma ReadOneServes(at: Store, k: Key, now: real, policy: FreshnessPolicy)
    requires WellFiled(at.entries)
    ensures var found := ReadOne(at, k, now, policy).1;
            && (found.value.Some? <==> Servable(at.entries, k, now, policy))
            && (found.value.Some? ==> found.value.value == at.entries[k])
            && (found.isFresh <==> found.value.Some? && !policy.ttl.Exceeded(Max0(now - found.value.value.observedAt)))
            && (found.usableStale <==> found.value.Some?)
  {
    if k in at.entries {
      CheckDecidesGraph(at.entries, k);
      hide GraphCurrent, DependenciesCurrent;
    }
  }

  /**
    A read serves a key exactly when, at the moment its turn comes, the key is stored, its whole
    recorded dependency graph is acyclic and current, and its age is within the stale limit.
   */
  lemma ReadServesExactly(s: Store, keys: seq<Key>, now: real, policies: Policies, i: nat)
    requires s.Valid() && i < |keys| && forall k :: k in keys ==> k in policies
    ensures var at := ReadAll(s, keys[..i], now, policies);
            var k, found := keys[i], LookupAt(s, keys, now, policies, i);
            && SubEntries(at.entries, s.entries)
            && (found.value.Some? <==> Servable(at.entries, k, now, policies[k]))
            && (found.value.Some? ==> found.value.value == at.entries[k])
            && (found.isFresh <==>
                  found.value.Some? && !policies[k].ttl.Exceeded(Max0(now - found.value.value.observedAt)))
            && (found.usableStale <==> found.value.Some?)
  {
    ReadOneServes(ReadAll(s, keys[..i], now, policies), keys[i], now, policies[keys[i]]);
    hide ReadOne, Servable;
  }

  /** A read of servable keys removes nothing and serves every one of them. */
  lemma {:induction false} ServableAreServed(s: Store, keys: seq<Key>, now: real, policies: Policies)
    requires WellFiled(s.entries) && forall k :: k in keys ==> k in policies && Servable(s.entries, k, now, policies[k])
    ensures ReadAll(s, keys, now, policies).entries == s.entries
    ensures forall i :: 0 <= i < |keys| ==>
      keys[i] in s.entries && LookupAt(s, keys, now, policies, i).value == Some(s.entries[keys[i]])
  {
    hide Servable, WellFiled, ReadOne, ReadAll, LookupAt;
    if keys == [] {
      ReadNothing(s, now, policies);
    } else {
      var n := |keys| - 1;
      ReadStep(s, keys, now, policies, n);
      assert keys[..n + 1] == keys;
      var front, at := keys[..n], ReadAll(s, keys[..n], now, policies);
      ServableAreServed(s, front, now, policies);
      assert keys[n] in keys;
      ReadOneServes(at, keys[n], now, policies[keys[n]]);
      ServableIsStored(s.entries, keys[n], now, policies[keys[n]]);
      ServedKeeps(at, keys[n], now, policies[keys[n]]);
      forall i | 0 <= i < n
        ensures keys[i] in s.entries && LookupAt(s, keys, now, policies, i).value == Some(s.entries[keys[i]])
      {
        LookupBefore(s, keys, now, policies, n, i);
        assert LookupAt(s, front, now, policies, i).value == Some(s.entries[front[i]]);
      }
    }
  }

  lemma LookupBefore(s: Store, keys: seq<Key>, now: real, policies: Policies, n: nat, i: nat)
    requires WellFiled(s.entries) && i < n <= |keys| && forall k :: k in keys ==> k in policies
    ensures LookupAt(s, keys[..n], now, policies, i) == LookupAt(s, keys, now, policies, i)
  {
    assert keys[..n][..i] == keys[..i];
  }

  lemma ServableIsStored(entries: Entries, k: Key, now: real, policy: FreshnessPolicy)
    requires Servable(entries, k, now, policy)
    ensures k in entries
  {
  }

  lemma ServedKeeps(s: Store, k: Key, now: real, policy: FreshnessPolicy)
    requires WellFiled(s.entries)
    ensures ReadOne(s, k, now, policy).1.value.Some? ==> ReadOne(s, k, now, policy).0.entries == s.entries
  {
    hide DependenciesCurrent;
  }

  // ---- Commits ------------------------------------------------------------------------------

  lemma {:induction false} CommitKeysEntries(base: Store, c: Candidates, n: nat, force: bool, replaceEqual: bool,
                                             k: Key)
    requires c.Valid() && n <= |c.order|
    ensures Lookup(CommitKeys(base, c, n, force, replaceEqual).entries, k) ==
              if k in c.order[..n] then Offer(Lookup(base.entries, k), c.byKey[k], force, replaceEqual)
              else Lookup(base.entries, k)
  {
    hide Without, WriteStatusOf;
    if n > 0 {
      assert c.order[..n] == c.order[..n - 1] + [c.order[n - 1]];
      CommitKeysEntries(base, c, n - 1, force, replaceEqual, k);
      assert c.order[n - 1] !in c.order[..n - 1];
    }
  }

  /** Before eviction, a commit writes exactly the atomic batch. */
  lemma CommitWritesBatch(base: Store, c: Candidates, force: bool, replaceEqual: bool)
    requires c.Valid()
    ensures CommitKeys(base, c, |c.order|, force, replaceEqual).entries ==
      PutBatch(base.entries, c.byKey, force, replaceEqual)
  {
    var r := CommitKeys(base, c, |c.order|, force, replaceEqual);
    var batch := PutBatch(base.entries, c.byKey, force, replaceEqual);
    forall k ensures Lookup(r.entries, k) == Lookup(batch, k) {
      CommitKeysEntries(base, c, |c.order|, force, replaceEqual, k);
      assert c.order[..|c.order|] == c.order;
    }
    LookupExtensional(r.entries, batch);
  }

  lemma EvictStep(s: Store, maxEntries: Option<nat>)
    requires s.Valid()
    ensures |s.entries| == |s.order|
    ensures maxEntries.None? || |s.order| <= maxEntries.value ==> Evict(s, maxEntries) == s
    ensures maxEntries.Some? && |s.order| > maxEntries.value ==>
              Evict(s, maxEntries) == Evict(EvictOldest(s), maxEntries)
  {
    SizeIsOrderLength(s);
  }

  /** Eviction keeps the most recently touched entries, as many as the limit allows. */
  lemma {:induction false} EvictKeepsRecent(s: Store, maxEntries: Option<nat>)
    requires s.Valid()
    ensures var r := Evict(s, maxEntries);
            && |r.order| == (if maxEntries.Some? then Min(|s.order|, maxEntries.value) else |s.order|)
            && |r.order| <= |s.order| && r.order == s.order[|s.order| - |r.order|..]
            && r.lookups == s.lookups
            && r.changes == s.changes.(evictions := s.changes.evictions + |s.order| - |r.order|)
    decreases |s.order|
  {
    hide NoDuplicates, WellFiled, Evict;
    EvictStep(s, maxEntries);
    if maxEntries.Some? && |s.order| > maxEntries.value {
      var t := EvictOldest(s);
      EvictKeepsRecent(t, maxEntries);
      var r := Evict(t, maxEntries);
      assert t.order[|t.order| - |r.order|..] == s.order[|s.order| - |r.order|..];
    }
  }

  lemma {:induction false} EvictOnlyRemoves(s: Store, maxEntries: Option<nat>)
    requires s.Valid()
    ensures SubEntries(Evict(s, maxEntries).entries, s.entries)
    decreases |s.order|
  {
    hide NoDuplicates, WellFiled, Evict;
    EvictStep(s, maxEntries);
    if maxEntries.Some? && |s.order| > maxEntries.value {
      EvictOnlyRemoves(EvictOldest(s), maxEntries);
    }
  }

  /** Every write leaves at most the allowed number of entries. */
  lemma CommitMeetsLimit(base: Store, c: Candidates, force: bool, replaceEqual: bool, maxEntries: Option<nat>)
    requires base.Valid() && c.Valid()
    ensures var r := Commit(base, c, force, replaceEqual, maxEntries);
            && (maxEntries.Some? ==> |r.entries| <= maxEntries.value)
            && SubEntries(r.entries, PutBatch(base.entries, c.byKey, force, replaceEqual))
            && (maxEntries.None? ==> r.entries == PutBatch(base.entries, c.byKey, force, replaceEqual))
  {
    CommitKeysValid(base, c, |c.order|, force, replaceEqual);
    CommitWritesBatch(base, c, force, replaceEqual);
    EvictKeepsRecent(CommitKeys(base, c, |c.order|, force, replaceEqual), maxEntries);
    EvictOnlyRemoves(CommitKeys(base, c, |c.order|, force, replaceEqual), maxEntries);
    SizeIsOrderLength(Commit(base, c, force, replaceEqual, maxEntries));
    hide CommitKeys, NoDuplicates, WellFiled, PutBatch;
  }

  // ---- Operations and runs --------------------------------------------------------------------

  datatype Op =
    | Read(keys: seq<Key>, now: real, policies: Policies)
    | Write(values: seq<Value>, force: bool, replaceEqual: bool)
    | Invalidate(keys: seq<Key>)
    | InvalidateMatching(accepts: Key -> bool)
    | Prune(now: real, policy: Key -> FreshnessPolicy)
    | Clear

  ghost predicate Answerable(op: Op)
    requires op.Read?
  {
    forall k :: k in op.keys ==> k in op.policies
  }

  ghost function Step(s: Store, op: Op, maxEntries: Option<nat>): (r: Store)
    requires s.Valid()
  {
    match op
    case Read(keys, now, policies) =>
      if Answerable(op) then ReadAll(s, Distinct(keys), now, policies) else s
    case Write(values, force, replaceEqual) =>
      if values == [] then s else Commit(s, Select(values), force, replaceEqual, maxEntries)
    case Invalidate(keys) => InvalidateAll(s, Distinct(keys))
    case InvalidateMatching(accepts) => InvalidateWhere(s, accepts)
    case Prune(now, policy) => PruneAll(s, now, policy)
    case Clear => ClearAll(s)
  }

  lemma StepValid(s: Store, op: Op, maxEntries: Option<nat>)
    requires s.Valid()
    ensures Step(s, op, maxEntries).Valid()
  {
    match op
    case Read(keys, now, policies) => if Answerable(op) { ReadAllValid(s, Distinct(keys), now, policies); }
    case Write(_, _, _) =>
    case Invalidate(keys) => InvalidateAllValid(s, Distinct(keys));
    case InvalidateMatching(accepts) => DropAllValid(s, Filter(s.order, accepts));
    case Prune(now, policy) => DropAllValid(s, Filter(s.order, IsExpired(s.entries, now, policy)));
    case Clear =>
  }

  /** The store after a run from an empty cache. */
  ghost function Run(ops: seq<Op>, maxEntries: Option<nat>): (r: Store)
    ensures r.Valid()
  {
    if ops == [] then EMPTY_STORE
    else
      var s := Run(ops[..|ops| - 1], maxEntries);
      StepValid(s, ops[|ops| - 1], maxEntries);
      Step(s, ops[|ops| - 1], maxEntries)
  }

  // ---- A batch against single writes ----------------------------------------------------------

  /** Unforced writes of the members of a sequence, one operation each, on an unbounded cache. */
  ghost function WriteSingly(s: Store, vs: seq<Value>, replaceEqual: bool): (r: Store)
    requires s.Valid()
    ensures r.Valid()
  {
    if vs == [] then s
    else
      var m, op := WriteSingly(s, vs[..|vs| - 1], replaceEqual), Write([vs[|vs| - 1]], false, replaceEqual);
      StepValid(m, op, None);
      Step(m, op, None)
  }

  lemma SelectOne(v: Value)
    ensures Select([v]).byKey == map[v.key := v]
  {
    assert [v][..0] == [];
    forall k ensures Lookup(Select([v]).byKey, k) == Lookup(map[v.key := v], k) {
      assert Winner([v], k) == if k == v.key then Some(v) else None;
    }
    LookupExtensional(Select([v]).byKey, map[v.key := v]);
  }

  lemma WriteEntries(s: Store, values: seq<Value>, force: bool, replaceEqual: bool)
    requires s.Valid()
    ensures Step(s, Write(values, force, replaceEqual), None).entries ==
      PutBatch(s.entries, Select(values).byKey, force, replaceEqual)
  {
    hide Commit, Select, NoDuplicates, WellFiled;
    SelectsSomething(values);
    if values != [] { CommitMeetsLimit(s, Select(values), force, replaceEqual, None); }
  }

  lemma {:induction false} SinglesArePuts(s: Store, vs: seq<Value>, replaceEqual: bool)
    requires s.Valid()
    ensures WriteSingly(s, vs, replaceEqual).entries == PutAll(s.entries, vs, false, replaceEqual)
  {
    hide Step, Select, NoDuplicates, WellFiled, PutBatch, Put, Store.Valid;
    if vs != [] {
      var n := |vs| - 1;
      SinglesArePuts(s, vs[..n], replaceEqual);
      var m := WriteSingly(s, vs[..n], replaceEqual);
      WriteEntries(m, [vs[n]], false, replaceEqual);
      SelectOne(vs[n]);
      BatchOfOne(m.entries, vs[n], replaceEqual);
    }
  }

  lemma BatchOfOne(entries: Entries, v: Value, replaceEqual: bool)
    ensures PutBatch(entries, map[v.key := v], false, replaceEqual) == Put(entries, v, false, replaceEqual)
  {
  }

  /**
    On an unbounded cache an unforced batch leaves each key at the precedence that writing its members
    one by one leaves, in any order; with equals replaced and the given order, at the very same value.
   */
  lemma BatchIsSingles(s: Store, vs: seq<Value>, reordered: seq<Value>, replaceEqual: bool, k: Key)
    requires s.Valid() && forall v :: v in vs <==> v in reordered
    ensures var batch := Step(s, Write(vs, false, replaceEqual), None).entries;
            var one := WriteSingly(s, reordered, replaceEqual).entries;
            (k in batch <==> k in one) && (k in batch ==> SamePrecedence(batch[k], one[k]))
    ensures Step(s, Write(vs, false, true), None).entries == WriteSingly(s, vs, true).entries
  {
    hide Step, Select, WriteSingly, PutAll, PutBatch;
    WriteEntries(s, vs, false, replaceEqual);
    WriteEntries(s, vs, false, true);
    SinglesArePuts(s, reordered, replaceEqual);
    SinglesArePuts(s, vs, true);
    BatchMatchesAnyOrder(s.entries, vs, reordered, Select(vs).byKey, replaceEqual, replaceEqual, k);
    BatchEqualsSequential(s.entries, vs, Select(vs).byKey);
  }

  // ---- Conservation -------------------------------------------------------------------------

  function Gone(ch: ChangeCounts): nat {
    ch.invalidations + ch.expirations + ch.evictions
  }

  /** Every entry ever inserted is still stored or counted as gone, and every lookup is a hit or a miss. */
  ghost predicate Balanced(s: Store, inserted: int, lookedUp: int) {
    && |s.entries| + Gone(s.changes) == inserted
    && s.lookups.hits == s.lookups.freshHits + s.lookups.staleHits
    && s.lookups.hits + s.lookups.misses == lookedUp
  }

  lemma ReadOneBalance(s: Store, k: Key, now: real, policy: FreshnessPolicy, inserted: int, lookedUp: int)
    requires WellFiled(s.entries) && Balanced(s, inserted, lookedUp)
    ensures Balanced(ReadOne(s, k, now, policy).0, inserted, lookedUp + 1)
  {
    hide DependenciesCurrent, Without;
    if k in s.entries {
      assert (s.entries - {k}).Keys == s.entries.Keys - {k};
    }
  }

  lemma {:induction false} ReadAllBalance(s: Store, keys: seq<Key>, now: real, policies: Policies, inserted: int,
                                          lookedUp: int)
    requires WellFiled(s.entries) && Balanced(s, inserted, lookedUp)
    requires forall k :: k in keys ==> k in policies
    ensures Balanced(ReadAll(s, keys, now, policies), inserted, lookedUp + |keys|)
  {
    if keys != [] {
      var n := |keys| - 1;
      ReadAllBalance(s, keys[..n], now, policies, inserted, lookedUp);
      ReadOneBalance(ReadAll(s, keys[..n], now, policies), keys[n], now, policies[keys[n]], inserted, lookedUp + n);
      hide ReadOne;
    }
  }

  lemma {:induction false} InvalidateAllBalance(s: Store, keys: seq<Key>, inserted: int, lookedUp: int)
    requires Balanced(s, inserted, lookedUp)
    ensures Balanced(InvalidateAll(s, keys), inserted, lookedUp)
  {
    if keys != [] {
      var n := |keys| - 1;
      InvalidateAllBalance(s, keys[..n], inserted, lookedUp);
      var m := InvalidateAll(s, keys[..n]);
      if keys[n] in m.entries {
        assert (m.entries - {keys[n]}).Keys == m.entries.Keys - {keys[n]};
      }
    }
  }

  lemma {:induction false} DropAllSize(s: Store, keys: seq<Key>)
    requires NoDuplicates(keys) && forall k :: k in keys ==> k in s.entries
    ensures |DropAll(s, keys).entries| + |keys| == |s.entries|
  {
    NoDuplicatesCardinality(keys);
    assert (s.entries - Elems(keys)).Keys == s.entries.Keys - Elems(keys);
    assert s.entries.Keys == (s.entries.Keys - Elems(keys)) + Elems(keys);
  }

  lemma {:induction false} CommitKeysStats(base: Store, c: Candidates, n: nat, force: bool, replaceEqual: bool)
    requires c.Indexed() && n <= |c.order|
    ensures var r := CommitKeys(base, c, n, force, replaceEqual);
            r.lookups == base.lookups && Gone(r.changes) == Gone(base.changes)
  {
    hide WriteStatusOf, Without;
    if n > 0 {
      CommitKeysStats(base, c, n - 1, force, replaceEqual);
    }
  }

  /** The counter of writes grows by the number of candidates that are stored. */
  lemma {:induction false} CommitCountsStored(base: Store, c: Candidates, n: nat, force: bool, replaceEqual: bool)
    requires c.Indexed() && n <= |c.order|
    ensures var stores := (k: Key) => k in c.byKey && StatusAt(base.entries, c, k, force, replaceEqual) == Stored;
            CommitKeys(base, c, n, force, replaceEqual).changes.sets ==
              base.changes.sets + |Filter(c.order[..n], stores)|
  {
    hide WriteStatusOf, Without, CommitKeys;
    if n == 0 {
      CommitNothing(base, c, force, replaceEqual);
    } else {
      CommitKeysStep(base, c, n - 1, force, replaceEqual);
      CommitCountsStored(base, c, n - 1, force, replaceEqual);
      assert c.order[..n] == c.order[..n - 1] + [c.order[n - 1]];
      assert (c.order[..n - 1] + [c.order[n - 1]])[..n - 1] == c.order[..n - 1];
    }
  }

  /** How many keys of a batch are absent. */
  ghost function AbsentKeys(entries: Entries, byKey: Entries): nat {
    |byKey.Keys - entries.Keys|
  }

  lemma BatchSize(entries: Entries, byKey: Entries, force: bool, replaceEqual: bool)
    ensures |PutBatch(entries, byKey, force, replaceEqual)| == |entries| + AbsentKeys(entries, byKey)
  {
    var r := PutBatch(entries, byKey, force, replaceEqual);
    assert r.Keys == entries.Keys + (byKey.Keys - entries.Keys);
  }

  lemma CommitBalance(s: Store, c: Candidates, force: bool, replaceEqual: bool, maxEntries: Option<nat>, inserted: int,
                      lookedUp: int)
    requires s.Valid() && c.Valid() && Balanced(s, inserted, lookedUp)
    ensures Balanced(Commit(s, c, force, replaceEqual, maxEntries), inserted + AbsentKeys(s.entries, c.byKey), lookedUp)
  {
    hide CommitKeys, Evict, NoDuplicates, WellFiled, PutBatch, AbsentKeys;
    var m := CommitKeys(s, c, |c.order|, force, replaceEqual);
    CommitKeysStats(s, c, |c.order|, force, replaceEqual);
    CommitKeysValid(s, c, |c.order|, force, replaceEqual);
    CommitWritesBatch(s, c, force, replaceEqual);
    BatchSize(s.entries, c.byKey, force, replaceEqual);
    SizeIsOrderLength(m);
    assert Balanced(m, inserted + AbsentKeys(s.entries, c.byKey), lookedUp);
    EvictKeepsRecent(m, maxEntries);
    SizeIsOrderLength(Evict(m, maxEntries));
  }

  /** Keys that were absent and are inserted by an operation. */
  ghost function Inserted(s: Store, op: Op): nat {
    if op.Write? then AbsentKeys(s.entries, Select(op.values).byKey) else 0
  }

  /** Distinct keys looked up by an operation. */
  ghost function LookedUp(op: Op): nat {
    if op.Read? && Answerable(op) then |Distinct(op.keys)| else 0
  }

  lemma RemovalArithmetic(s: Store, r: Store, n: nat, inserted: int, lookedUp: int)
    requires |r.entries| + n == |s.entries| && r.lookups == s.lookups && r.changes == s.changes
    requires Balanced(s, inserted, lookedUp)
    ensures Balanced(r.(changes := r.changes.(invalidations := r.changes.invalidations + n)), inserted, lookedUp)
    ensures Balanced(r.(changes := r.changes.(expirations := r.changes.expirations + n)), inserted, lookedUp)
  {
  }

  /** Removing the accepted keys and counting them, as invalidations or as expirations. */
  lemma RemovalBalance(s: Store, accepts: Key -> bool, inserted: int, lookedUp: int)
    requires s.Valid() && Balanced(s, inserted, lookedUp)
    ensures var removed := Filter(s.order, accepts);
            var r := DropAll(s, removed);
            && Balanced(r.(changes := r.changes.(invalidations := r.changes.invalidations + |removed|)), inserted,
                        lookedUp)
            && Balanced(r.(changes := r.changes.(expirations := r.changes.expirations + |removed|)), inserted, lookedUp)
  {
    hide Balanced, NoDuplicates, DropAll, Filter, WellFiled, Without;
    var removed := Filter(s.order, accepts);
    DropAllSize(s, removed);
    RemovalArithmetic(s, DropAll(s, removed), |removed|, inserted, lookedUp);
  }

  lemma InvalidateWhereBalance(s: Store, accepts: Key -> bool, inserted: int, lookedUp: int)
    requires s.Valid() && Balanced(s, inserted, lookedUp)
    ensures Balanced(InvalidateWhere(s, accepts), inserted, lookedUp)
  {
    hide Balanced, NoDuplicates, DropAll, Filter, WellFiled;
    RemovalBalance(s, accepts, inserted, lookedUp);
  }

  lemma PruneBalance(s: Store, now: real, policy: Key -> FreshnessPolicy, inserted: int, lookedUp: int)
    requires s.Valid() && Balanced(s, inserted, lookedUp)
    ensures Balanced(PruneAll(s, now, policy), inserted, lookedUp)
  {
    hide Balanced, NoDuplicates, DropAll, Filter, WellFiled;
    RemovalBalance(s, IsExpired(s.entries, now, policy), inserted, lookedUp);
  }

  lemma ClearBalance(s: Store, inserted: int, lookedUp: int)
    requires Balanced(s, inserted, lookedUp)
    ensures Balanced(ClearAll(s), inserted, lookedUp)
  {
  }

  lemma NothingAbsent(entries: Entries)
    ensures AbsentKeys(entries, map[]) == 0
  {
  }

  lemma EmptyBalance()
    ensures Balanced(EMPTY_STORE, 0, 0)
  {
    hide Run;
  }

  lemma StepBalance(s: Store, op: Op, maxEntries: Option<nat>, inserted: int, lookedUp: int)
    requires s.Valid() && Balanced(s, inserted, lookedUp)
    ensures Balanced(Step(s, op, maxEntries), inserted + Inserted(s, op), lookedUp + LookedUp(op))
  {
    hide AbsentKeys, Without, Distinct, NoDuplicates, WellFiled, Select, Commit, Balanced, InvalidateWhere, PruneAll,
         ClearAll, ReadAll, InvalidateAll;
    match op
    case Read(keys, now, policies) =>
      if Answerable(op) { ReadAllBalance(s, Distinct(keys), now, policies, inserted, lookedUp); }
    case Write(values, force, replaceEqual) =>
      SelectsSomething(values);
      if values != [] {
        CommitBalance(s, Select(values), force, replaceEqual, maxEntries, inserted, lookedUp);
        } else { NothingAbsent(s.entries);
      }
    case Invalidate(keys) => InvalidateAllBalance(s, Distinct(keys), inserted, lookedUp);
    case InvalidateMatching(accepts) => InvalidateWhereBalance(s, accepts, inserted, lookedUp);
    case Prune(now, policy) => PruneBalance(s, now, policy, inserted, lookedUp);
    case Clear => ClearBalance(s, inserted, lookedUp);
  }

  ghost function TotalInserted(ops: seq<Op>, maxEntries: Option<nat>): nat {
    if ops == [] then 0
    else
      var front := ops[..|ops| - 1];
      TotalInserted(front, maxEntries) + Inserted(Run(front, maxEntries), ops[|ops| - 1])
  }

  ghost function TotalLookedUp(ops: seq<Op>): nat {
    if ops == [] then 0 else TotalLookedUp(ops[..|ops| - 1]) + LookedUp(ops[|ops| - 1])
  }

  /** Over every run: size = inserts - invalidations - expirations - evictions, and hits + misses = keys looked up. */
  lemma {:induction false} RunConserves(ops: seq<Op>, maxEntries: Option<nat>)
    ensures Balanced(Run(ops, maxEntries), TotalInserted(ops, maxEntries), TotalLookedUp(ops))
  {
    hide Step, Inserted, LookedUp, Balanced;
    EmptyBalance();
    if ops != [] {
      var front := ops[..|ops| - 1];
      RunConserves(front, maxEntries);
      StepBalance(Run(front, maxEntries), ops[|ops| - 1], maxEntries, TotalInserted(front, maxEntries),
                  TotalLookedUp(front));
    }
  }

  // ---- Precedence over runs -------------------------------------------------------------------

  lemma StepNeverLowers(s: Store, op: Op, maxEntries: Option<nat>, k: Key)
    requires s.Valid() && (op.Write? ==> !op.force)
    requires k in s.entries && k in Step(s, op, maxEntries).entries
    ensures AtLeast(Step(s, op, maxEntries).entries[k], s.entries[k])
  {
    hide Without, Distinct, NoDuplicates, Commit;
    if op.Write? && op.values != [] {
      var c := Select(op.values);
      CommitMeetsLimit(s, c, false, op.replaceEqual, maxEntries);
      BatchNeverLowers(s.entries, c.byKey, op.replaceEqual, k);
      hide PutBatch;
    }
  }

  lemma RunStep(ops: seq<Op>, maxEntries: Option<nat>, n: nat)
    requires n < |ops|
    ensures Run(ops[..n + 1], maxEntries) == Step(Run(ops[..n], maxEntries), ops[n], maxEntries)
  {
    assert ops[..n + 1][..n] == ops[..n];
    hide Step;
  }

  /** Between removals, unforced writes never lower a key's (authority, observation time). */
  lemma {:induction false} RunNeverLowers(ops: seq<Op>, maxEntries: Option<nat>, i: nat, j: nat, k: Key)
    requires i <= j <= |ops|
    requires forall n :: i <= n < j && ops[n].Write? ==> !ops[n].force
    requires forall n :: i <= n <= j ==> k in Run(ops[..n], maxEntries).entries
    ensures AtLeast(Run(ops[..j], maxEntries).entries[k], Run(ops[..i], maxEntries).entries[k])
    decreases j
  {
    hide Run, Step, Store.Valid;
    if i < j {
      RunNeverLowers(ops, maxEntries, i, j - 1, k);
      RunStep(ops, maxEntries, j - 1);
      StepNeverLowers(Run(ops[..j - 1], maxEntries), ops[j - 1], maxEntries, k);
    }
  }

  // ---- Dependency closure over runs -----------------------------------------------------------

  ghost predicate WrittenIn(ops: seq<Op>, v: Value) {
    exists i :: 0 <= i < |ops| && ops[i].Write? && v in ops[i].values
  }

  lemma StepKeepsOrWrites(s: Store, op: Op, maxEntries: Option<nat>, k: Key)
    requires s.Valid() && k in Step(s, op, maxEntries).entries
    ensures var v := Step(s, op, maxEntries).entries[k];
            (k in s.entries && v == s.entries[k]) || (op.Write? && v in op.values)
  {
    hide Without, Distinct, NoDuplicates, Commit, AtLeast;
    if op.Write? && op.values != [] {
      var c := Select(op.values);
      CommitMeetsLimit(s, c, op.force, op.replaceEqual, maxEntries);
      if k in c.byKey {
        var i := WinnerIsLastMaximum(op.values, k);
        assert Lookup(c.byKey, k) == Winner(op.values, k);
      }
    }
  }

  lemma {:induction false} EntriesWereWritten(ops: seq<Op>, maxEntries: Option<nat>, k: Key)
    requires k in Run(ops, maxEntries).entries
    ensures WrittenIn(ops, Run(ops, maxEntries).entries[k])
  {
    if ops != [] {
      var n := |ops| - 1;
      var front := ops[..n];
      StepKeepsOrWrites(Run(front, maxEntries), ops[n], maxEntries, k);
      hide Step;
      var v := Run(ops, maxEntries).entries[k];
      if ops[n].Write? && v in ops[n].values {
      } else {
        EntriesWereWritten(front, maxEntries, k);
        var i :| 0 <= i < |front| && front[i].Write? && v in front[i].values;
        assert ops[i] == front[i];
      }
    }
  }

  /** Versions are minted once: no two written values of a key share a version and differ in what they read. */
  ghost predicate VersionsMintedOnce(ops: seq<Op>) {
    forall v, w :: WrittenIn(ops, v) && WrittenIn(ops, w) && v.key == w.key && v.version == w.version ==>
      v.deps == w.deps
  }

  lemma RunVersionsIdentify(ops: seq<Op>, maxEntries: Option<nat>, i: nat, j: nat)
    requires i <= j <= |ops| && VersionsMintedOnce(ops)
    ensures VersionsIdentify(Run(ops[..i], maxEntries).entries, Run(ops[..j], maxEntries).entries)
  {
    hide Run;
    var before, after := Run(ops[..i], maxEntries).entries, Run(ops[..j], maxEntries).entries;
    forall x | x in before ensures WrittenIn(ops, before[x]) {
      EntriesWereWritten(ops[..i], maxEntries, x);
      var n :| 0 <= n < i && ops[..i][n].Write? && before[x] in ops[..i][n].values;
      assert ops[n] == ops[..i][n];
    }
    forall x | x in after ensures WrittenIn(ops, after[x]) {
      EntriesWereWritten(ops[..j], maxEntries, x);
      var n :| 0 <= n < j && ops[..j][n].Write? && after[x] in ops[..j][n].values;
      assert ops[n] == ops[..j][n];
    }
  }

  /**
    In every run: if a value was current at one moment and a key of its recorded closure is later missing
    or stored at another version, a read of the same version of that value is refused at that later moment.
   */
  lemma RunRefusesReplaced(ops: seq<Op>, maxEntries: Option<nat>, i: nat, j: nat, ws: seq<Key>, now: real,
                           policy: FreshnessPolicy)
    requires i <= j <= |ops| && VersionsMintedOnce(ops)
    requires var before := Run(ops[..i], maxEntries).entries;
      Walk(before, ws) && GraphCurrent(before, ws[0])
    requires var before, after := Run(ops[..i], maxEntries).entries, Run(ops[..j], maxEntries).entries;
      var d := ws[|ws| - 1];
      && ws[0] in after && after[ws[0]].version == before[ws[0]].version
      && (d !in after || after[d].version != before[d].version)
    ensures ReadOne(Run(ops[..j], maxEntries), ws[0], now, policy).1.value.None?
  {
    var before, after := Run(ops[..i], maxEntries), Run(ops[..j], maxEntries);
    hide Run;
    RunVersionsIdentify(ops, maxEntries, i, j);
    CheckDecidesGraph(before.entries, ws[0]);
    ReplacedDependencyRefuses(before.entries, after.entries, ws);
  }

  // ---- Recency --------------------------------------------------------------------------------

  /** Position of the last occurrence of a key, or -1. */
  function Last(log: seq<Key>, k: Key): (r: int)
    ensures -1 <= r < |log|
    ensures k in log <==> r >= 0
  {
    if log == [] then -1
    else if log[|log| - 1] == k then |log| - 1
    else Last(log[..|log| - 1], k)
  }

  /** The dictionary order is the order of last touch. */
  ghost predicate Recency(order: seq<Key>, log: seq<Key>) {
    && (forall i :: 0 <= i < |order| ==> order[i] in log)
    && (forall i, j :: 0 <= i < j < |order| ==> Last(log, order[i]) < Last(log, order[j]))
  }

  lemma {:induction false} RecencyWithout(order: seq<Key>, log: seq<Key>, k: Key)
    requires Recency(order, log)
    ensures Recency(Without(order, k), log)
  {
    if order != [] {
      RecencyWithout(order[1..], log, k);
      var rest := Without(order[1..], k);
      forall x | x in rest ensures Last(log, order[0]) < Last(log, x) {
        var j :| 0 <= j < |order[1..]| && order[1..][j] == x;
        assert order[j + 1] == x;
      }
    }
  }

  lemma RecencyTouch(order: seq<Key>, log: seq<Key>, k: Key)
    requires Recency(order, log)
    ensures Recency(ToEnd(order, k), log + [k])
  {
    RecencyWithout(order, log, k);
    var kept, more := Without(order, k), log + [k];
    assert more[..|log|] == log;
    forall i | 0 <= i < |kept| ensures Last(more, kept[i]) == Last(log, kept[i]) {
      assert kept[i] in kept;
    }
  }

  lemma RecencySuffix(order: seq<Key>, log: seq<Key>, n: nat)
    requires Recency(order, log) && n <= |order|
    ensures Recency(order[n..], log)
  {
  }

  /** The keys a read serves, in the order it serves them. */
  ghost function TouchedByRead(s: Store, keys: seq<Key>, now: real, policies: Policies): seq<Key>
    requires WellFiled(s.entries) && forall k :: k in keys ==> k in policies
  {
    if keys == [] then []
    else
      var n := |keys| - 1;
      var front := TouchedByRead(s, keys[..n], now, policies);
      if ReadOne(ReadAll(s, keys[..n], now, policies), keys[n], now, policies[keys[n]]).1.value.Some?
      then front + [keys[n]] else front
  }

  /** The keys a commit stores, in the order it stores them. */
  ghost function TouchedByCommit(base: Store, c: Candidates, n: nat, force: bool, replaceEqual: bool): seq<Key>
    requires c.Indexed() && n <= |c.order|
  {
    if n == 0 then []
    else
      var front := TouchedByCommit(base, c, n - 1, force, replaceEqual);
      if StatusAt(base.entries, c, c.order[n - 1], force, replaceEqual) == Stored then front + [c.order[n - 1]]
      else front
  }

  ghost function Touched(s: Store, op: Op): seq<Key>
    requires s.Valid()
  {
    if op.Read? && Answerable(op) then TouchedByRead(s, Distinct(op.keys), op.now, op.policies)
    else if op.Write? then
      var c := Select(op.values);
      TouchedByCommit(s, c, |c.order|, op.force, op.replaceEqual)
    else []
  }

  lemma {:induction false} ReadAllRecency(s: Store, keys: seq<Key>, now: real, policies: Policies, log: seq<Key>)
    requires WellFiled(s.entries) && Recency(s.order, log) && forall k :: k in keys ==> k in policies
    ensures Recency(ReadAll(s, keys, now, policies).order, log + TouchedByRead(s, keys, now, policies))
  {
    if keys == [] {
      assert log + [] == log;
    } else {
      var n := |keys| - 1;
      ReadAllRecency(s, keys[..n], now, policies, log);
      var m, touched := ReadAll(s, keys[..n], now, policies), log + TouchedByRead(s, keys[..n], now, policies);
      RecencyWithout(m.order, touched, keys[n]);
      RecencyTouch(m.order, touched, keys[n]);
      assert touched + [keys[n]] == log + (TouchedByRead(s, keys[..n], now, policies) + [keys[n]]);
      hide Recency, DependenciesCurrent;
    }
  }

  lemma {:induction false} CommitKeysRecency(base: Store, c: Candidates, n: nat, force: bool, replaceEqual: bool,
                                             log: seq<Key>)
    requires c.Valid() && n <= |c.order| && Recency(base.order, log)
    ensures Recency(CommitKeys(base, c, n, force, replaceEqual).order,
                    log + TouchedByCommit(base, c, n, force, replaceEqual))
  {
    hide Recency, WriteStatusOf, NoDuplicates, Without;
    if n == 0 {
      assert log + [] == log;
    } else {
      CommitKeysRecency(base, c, n - 1, force, replaceEqual, log);
      var m := CommitKeys(base, c, n - 1, force, replaceEqual);
      var touched := TouchedByCommit(base, c, n - 1, force, replaceEqual);
      var k := c.order[n - 1];
      assert c.byKey[k].key == k;
      RecencyTouch(m.order, log + touched, k);
      assert (log + touched) + [k] == log + (touched + [k]);
    }
  }

  lemma {:induction false} DropAllRecency(s: Store, keys: seq<Key>, log: seq<Key>)
    requires Recency(s.order, log)
    ensures Recency(DropAll(s, keys).order, log)
  {
    if keys != [] {
      DropAllRecency(s, keys[..|keys| - 1], log);
      RecencyWithout(DropAll(s, keys[..|keys| - 1]).order, log, keys[|keys| - 1]);
    }
  }

  lemma {:induction false} InvalidateAllRecency(s: Store, keys: seq<Key>, log: seq<Key>)
    requires Recency(s.order, log)
    ensures Recency(InvalidateAll(s, keys).order, log)
  {
    if keys != [] {
      InvalidateAllRecency(s, keys[..|keys| - 1], log);
      RecencyWithout(InvalidateAll(s, keys[..|keys| - 1]).order, log, keys[|keys| - 1]);
    }
  }

  lemma CommitRecency(s: Store, c: Candidates, force: bool, replaceEqual: bool, maxEntries: Option<nat>, log: seq<Key>)
    requires s.Valid() && c.Valid() && Recency(s.order, log)
    ensures Recency(Commit(s, c, force, replaceEqual, maxEntries).order,
                    log + TouchedByCommit(s, c, |c.order|, force, replaceEqual))
  {
    hide CommitKeys, Evict, NoDuplicates, WellFiled, Recency, TouchedByCommit;
    var m := CommitKeys(s, c, |c.order|, force, replaceEqual);
    var touched := log + TouchedByCommit(s, c, |c.order|, force, replaceEqual);
    CommitKeysRecency(s, c, |c.order|, force, replaceEqual, log);
    CommitKeysValid(s, c, |c.order|, force, replaceEqual);
    EvictKeepsRecent(m, maxEntries);
    RecencySuffix(m.order, touched, |m.order| - |Evict(m, maxEntries).order|);
  }

  lemma NothingTouched(log: seq<Key>)
    ensures log + [] == log
    ensures Recency([], log)
  {
  }

  lemma StepRecency(s: Store, op: Op, maxEntries: Option<nat>, log: seq<Key>)
    requires s.Valid() && Recency(s.order, log)
    ensures Recency(Step(s, op, maxEntries).order, log + Touched(s, op))
  {
    hide Recency, NoDuplicates, WellFiled, Commit, ReadAll, Distinct, InvalidateAll, TouchedByCommit, TouchedByRead;
    NothingTouched(log);
    match op
    case Read(keys, now, policies) =>
      if Answerable(op) { ReadAllRecency(s, Distinct(keys), now, policies, log); }
    case Write(values, force, replaceEqual) =>
      var c := Select(values);
      SelectsSomething(values);
      if values != [] {
        CommitRecency(s, c, force, replaceEqual, maxEntries, log);
        } else { NothingCommitted(s, c, force, replaceEqual);
      }
    case Invalidate(keys) => InvalidateAllRecency(s, Distinct(keys), log);
    case InvalidateMatching(accepts) => DropAllRecency(s, Filter(s.order, accepts), log);
    case Prune(now, policy) => DropAllRecency(s, Filter(s.order, IsExpired(s.entries, now, policy)), log);
    case Clear =>
  }

  lemma NothingCommitted(s: Store, c: Candidates, force: bool, replaceEqual: bool)
    requires c.Indexed()
    ensures TouchedByCommit(s, c, 0, force, replaceEqual) == []
  {
  }

  ghost function TouchLog(ops: seq<Op>, maxEntries: Option<nat>): seq<Key> {
    if ops == [] then []
    else
      var front := ops[..|ops| - 1];
      TouchLog(front, maxEntries) + Touched(Run(front, maxEntries), ops[|ops| - 1])
  }

  /** In every run the eviction order is the order in which keys were last served or stored. */
  lemma {:induction false} RunIsLeastRecentlyUsed(ops: seq<Op>, maxEntries: Option<nat>)
    ensures Recency(Run(ops, maxEntries).order, TouchLog(ops, maxEntries))
  {
    hide Step, Touched;
    if ops != [] {
      var front := ops[..|ops| - 1];
      RunIsLeastRecentlyUsed(front, maxEntries);
      StepRecency(Run(front, maxEntries), ops[|ops| - 1], maxEntries, TouchLog(front, maxEntries));
    }
  }
}
