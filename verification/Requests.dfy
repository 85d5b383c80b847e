/** A whole request: the derived recursion, the results it hands out, and how each key ends. */
module Requests {
  import opened Core
  import opened WriteOrder
  import opened DependencyGraph
  import opened MemoryCache
  import opened CacheRuns
  import opened CacheReads
  import opened Sources
  import opened Resolution
  import opened KeyLists
  import opened CacheOffers
  import opened CacheLookups
  import opened Rounds
  import opened SourceLoop
  import opened Batches

  /** Every distinct key has a value or an error and never both; values are pinned, errors truthful. */
  ghost predicate Partition(w: World, scope: Scope, keys: seq<Key>, values: Entries, errors: map<Key, Unresolved>,
                            memo: Entries) {
    && values.Keys + errors.Keys == Elems(keys)
    && values.Keys !! errors.Keys
    && (forall k :: k in values ==> k in memo && memo[k] == values[k])
    && (forall k :: k in errors ==> errors[k].key == k && Truthful(w, scope, errors[k]))
  }

  /** The pending keys done so far have a value or an error; the ready ones keep theirs. */
  ghost predicate HandedOut(w: World, scope: Scope, done: seq<Key>, ready: Entries, values: Entries,
                            errors: map<Key, Unresolved>, memo: Entries) {
    && values.Keys + errors.Keys == ready.Keys + Elems(done)
    && values.Keys !! errors.Keys
    && (forall k :: k in values ==> k in memo && memo[k] == values[k])
    && (forall k :: k in errors ==> errors[k].key == k && Truthful(w, scope, errors[k]))
  }

  lemma NothingHandedOut(w: World, scope: Scope, ready: Entries, memo: Entries)
    requires forall k :: k in ready ==> k in memo && memo[k] == ready[k]
    ensures HandedOut(w, scope, [], ready, ready, map[], memo)
  {
  }

  lemma HandedOutValue(w: World, scope: Scope, done: seq<Key>, ready: Entries, values: Entries,
                       errors: map<Key, Unresolved>, memo: Entries, key: Key, v: Value)
    requires HandedOut(w, scope, done, ready, values, errors, memo) && key !in done && key !in ready
    ensures HandedOut(w, scope, done + [key], ready, values[key := v], errors, memo[key := v])
  {
    hide Truthful;
    assert key !in values.Keys + errors.Keys;
    assert Elems(done + [key]) == Elems(done) + {key};
  }

  lemma HandedOutError(w: World, scope: Scope, done: seq<Key>, ready: Entries, values: Entries,
                       errors: map<Key, Unresolved>, memo: Entries, key: Key, e: Unresolved)
    requires HandedOut(w, scope, done, ready, values, errors, memo) && key !in done && key !in ready && e.key == key
    requires Truthful(w, scope, e)
    ensures HandedOut(w, scope, done + [key], ready, values, errors[key := e], memo)
  {
    hide Truthful;
    assert key !in values.Keys + errors.Keys;
    assert Elems(done + [key]) == Elems(done) + {key};
  }

  lemma HandedOutAll(w: World, scope: Scope, keys: seq<Key>, pending: seq<Key>, ready: Entries, values: Entries,
                     errors: map<Key, Unresolved>, memo: Entries)
    requires HandedOut(w, scope, pending, ready, values, errors, memo)
    requires forall k :: k in keys <==> k in ready || k in pending
    ensures Partition(w, scope, keys, values, errors, memo)
  {
    hide Truthful;
    assert ready.Keys + Elems(pending) == Elems(keys);
  }

  /** What a pending key is handed: a cached stale value stands in for an error where allowed. */
  function Final(r: Rules, stale: Entries, now: real, k: Key, outcome: Outcome): Outcome {
    if outcome.Missed? && k in stale && r.policy(k).allowStaleOnError then Got(CachedCopy(stale[k], true, now))
    else outcome
  }

  ghost predicate HandedAs(k: Key, outcome: Outcome, values: Entries, errors: map<Key, Unresolved>) {
    match outcome
    case Got(v) => k in values && values[k] == v
    case Missed(e) => k in errors && errors[k] == e
  }

  /** The ready values and the results of the keys done so far are handed out as they are, stale stand-ins aside. */
  ghost predicate Faithful(r: Rules, results: map<Key, Outcome>, stale: Entries, ready: Entries, done: seq<Key>,
                           values: Entries, errors: map<Key, Unresolved>, now: real) {
    && (forall k :: k in ready ==> k in values && values[k] == ready[k])
    && (forall k :: k in done && k in results ==> HandedAs(k, Final(r, stale, now, k, results[k]), values, errors))
  }

  lemma NothingFaithful(r: Rules, results: map<Key, Outcome>, stale: Entries, ready: Entries, now: real)
    ensures Faithful(r, results, stale, ready, [], ready, map[], now)
  {
  }

  lemma FaithfulStep(r: Rules, results: map<Key, Outcome>, stale: Entries, ready: Entries, done: seq<Key>,
                     values: Entries, errors: map<Key, Unresolved>, now: real, key: Key)
    requires Faithful(r, results, stale, ready, done, values, errors, now) && key in results && key !in done
    requires key !in ready
    ensures match Final(r, stale, now, key, results[key])
            case Got(v) => Faithful(r, results, stale, ready, done + [key], values[key := v], errors, now)
            case Missed(e) => Faithful(r, results, stale, ready, done + [key], values, errors[key := e], now)
  {
    hide Final;
  }

  /** The results of two batches, the second resolved after the first. */
  lemma AccountedTogether(w: World, scope: Scope, a: Situation, b: Situation, first: map<Key, Outcome>,
                          second: map<Key, Outcome>)
    requires Progress(w, scope, a, b) && Accounted(w, scope, a.memo, first) && Accounted(w, scope, b.memo, second)
    ensures Accounted(w, scope, b.memo, first + second)
  {
    hide Truthful, FromOpenSource;
  }

  lemma NothingAccounted(w: World, scope: Scope, memo: Entries)
    ensures Accounted(w, scope, memo, map[])
  {
  }

  lemma AccountedStale(w: World, scope: Scope, memo: Entries, results: map<Key, Outcome>, key: Key, v: Value)
    requires Accounted(w, scope, memo, results) && key in results && results[key].Missed?
    ensures Accounted(w, scope, memo[key := v], results)
  {
    hide Truthful;
  }

  lemma AccountedError(w: World, scope: Scope, memo: Entries, results: map<Key, Outcome>, key: Key)
    requires Accounted(w, scope, memo, results) && key in results && results[key].Missed?
    ensures results[key].error.key == key && Truthful(w, scope, results[key].error)
  {
    hide Truthful;
  }

  /** Pinning a reported value again changes nothing. */
  lemma RepinSame(w: World, scope: Scope, here: Situation, results: map<Key, Outcome>, key: Key)
    requires here.Sound() && Accounted(w, scope, here.memo, results) && key in results && results[key].Got?
    ensures here.memo[key := results[key].value] == here.memo && here.force - {key} == here.force
  {
    hide Truthful;
  }

  /** A derived value records exactly its declared dependencies, at the versions pinned at that moment. */
  ghost predicate Recorded(declared: Option<seq<Key>>, memo: Entries, deps: seq<Dependency>) {
    && declared.Some?
    && (forall k :: k in declared.value <==> exists d :: d in deps && d.key == k)
    && (forall d :: d in deps ==> d.key in memo && memo[d.key].version == d.version)
  }

  lemma RecordedVersions(declared: Option<seq<Key>>, keys: seq<Key>, values: Entries, memo: Entries)
    requires declared.Some? && forall k :: k in keys <==> k in declared.value
    requires forall k :: k in keys ==> k in values && k in memo && memo[k] == values[k]
    ensures Recorded(declared, memo, VersionsOf(keys, values))
  {
    var deps := VersionsOf(keys, values);
    forall k | k in declared.value ensures exists d :: d in deps && d.key == k {
      var i :| 0 <= i < |keys| && keys[i] == k;
      assert deps[i] in deps && deps[i].key == k;
    }
  }

  /** A derivation that succeeded is the source's own. */
  lemma DerivedIsSourced(w: World, source: Source, key: Key, memo: Entries, attempt: Attempt, values: Entries,
                         moment: nat)
    requires source.kind == Derived && attempt.Succeeded? && Recorded(w.declared(source.name, key), memo, attempt.deps)
    requires w.derive(source.name, key, values, moment) == Delivered(attempt.delivery)
    requires Inputs(w, source, key, values) && PinnedAs(memo, values)
    ensures Sourced(w, source, key, memo, attempt)
  {
    assert VersionedBy(attempt.deps, values) by {
      forall d | d in attempt.deps ensures d.key in values { assert d.key in DeclaredKeys(w, source, key); }
    }
    var recorded := set d | d in attempt.deps :: d.key;
    forall k ensures k in recorded <==> k in DeclaredKeys(w, source, key) {
      assert k in recorded <==> exists d :: d in attempt.deps && d.key == k;
    }
    assert recorded == DeclaredKeys(w, source, key);
  }

  /** Every one of these keys is cached with a current dependency graph and within its stale limit. */
  ghost predicate AllUsable(r: Rules, entries: Entries, keys: set<Key>, now: real) {
    forall k :: k in keys ==>
      && k in entries && GraphCurrent(entries, k)
      && WithinLimit(r.policy(k).maxStale, AgeAt(now, entries[k].observedAt))
  }

  /** The value is a copy of the cached one as it is now. */
  ghost predicate CopyNow(r: Rules, cached: Value, v: Value, now: real) {
    var age := AgeAt(now, cached.observedAt);
    v == cached.(age := age, stale := !WithinLimit(r.policy(cached.key).ttl, age), fromCache := true)
  }

  /** A cached value within its ttl, or beyond it where stale values are served while they are refreshed. */
  ghost predicate ServedAsIs(r: Rules, cached: Value, now: real) {
    || WithinLimit(r.policy(cached.key).ttl, AgeAt(now, cached.observedAt))
    || r.policy(cached.key).refreshMode == StaleWhileRevalidate
  }

  /** Every one of these keys is cached with a value that may be served as it is. */
  ghost predicate AllAsIs(r: Rules, entries: Entries, keys: set<Key>, now: real) {
    AllUsable(r, entries, keys, now) && forall k :: k in keys ==> ServedAsIs(r, entries[k], now)
  }

  /**
    Whatever the sources are, a request for usable keys that are neither pinned nor due takes the cached values that may
    be served as they are.
   */
  lemma UsableAreServed(r: Rules, start: Situation, keys: seq<Key>, now: real, values: Entries)
    requires ServedFirst(r, start, keys, now, values) && start.store.Valid()
    requires forall k :: k in keys ==> k !in start.memo && k !in start.force
    requires AllUsable(r, start.store.entries, Elems(keys), now)
    ensures forall k :: k in keys && ServedAsIs(r, start.store.entries[k], now) ==>
      k in values && CopyNow(r, start.store.entries[k], values[k], now)
  {
    hide LookupOrder, Servable, GraphCurrent, ServedAsIs, CopyNow, AnswerFor, Serves, WellFiled;
    var looked := LookupOrder(keys, start.memo, start.force);
    forall k | k in looked ensures Servable(start.store.entries, k, now, r.policy(k)) {
      assert k in Elems(keys);
      UsableIsServable(r, start.store.entries, k, now);
    }
    forall k | k in keys && ServedAsIs(r, start.store.entries[k], now)
      ensures k in values && CopyNow(r, start.store.entries[k], values[k], now)
    {
      assert k in Elems(keys);
      UsableIsServed(r, start, keys, now, k);
    }
  }

  /**
    How a request for usable keys ends: a key whose cached value may not be served as it is goes to its sources, and the
    cached value stands in for an error where stale values are allowed then.
   */
  lemma UsableStandIn(w: World, start: Situation, keys: seq<Key>, now: real, k: Key, settled: Outcome)
    requires start.store.Valid() && k in keys && AllUsable(w.rules, start.store.entries, Elems(keys), now)
    requires forall x :: x in keys ==> x !in start.memo && x !in start.force
    ensures k in start.store.entries
    ensures var cached, r := start.store.entries[k], Ending(w, start, keys, now, k, settled);
            if ServedAsIs(w.rules, cached, now) || (settled.Missed? && w.rules.policy(k).allowStaleOnError)
            then r.Got? && CopyNow(w.rules, cached, r.value, now) else r == settled
  {
    hide LookupOrder, Servable, GraphCurrent, AnswerFor, Serves, WellFiled;
    forall x | x in LookupOrder(keys, start.memo, start.force)
      ensures Servable(start.store.entries, x, now, w.rules.policy(x))
    {
      assert x in Elems(keys);
      UsableIsServable(w.rules, start.store.entries, x, now);
    }
    assert k in Elems(keys);
    UsableIsServed(w.rules, start, keys, now, k);
    AnswerForServable(w.rules, start, keys, now, k);
    FiledKey(start.store, k);
  }

  /**
    What is handed out for a key: its outcome, or a stale copy of the cached value in place of an error where allowed.
   */
  lemma FinalMeans(r: Rules, stale: Entries, now: real, k: Key, outcome: Outcome)
    ensures var final, standIn := Final(r, stale, now, k, outcome), k in stale && r.policy(k).allowStaleOnError;
            && (outcome.Got? || !standIn ==> final == outcome)
            && (outcome.Missed? && standIn ==>
                  final == Got(stale[k].(age := AgeAt(now, stale[k].observedAt), stale := true, fromCache := true)))
  {
  }

  lemma UsableIsServed(r: Rules, start: Situation, keys: seq<Key>, now: real, k: Key)
    requires start.store.Valid() && k in LookupOrder(keys, start.memo, start.force) && k in start.store.entries
    requires forall x :: x in LookupOrder(keys, start.memo, start.force) ==>
      Servable(start.store.entries, x, now, r.policy(x))
    ensures var answer, cached := AnswerFor(r, start, keys, now, k), start.store.entries[k];
            && answer.value == Some(cached)
            && (Serves(answer, r.policy(k)) <==> ServedAsIs(r, cached, now))
            && CopyNow(r, cached, CachedCopy(cached, !answer.isFresh, now), now)
  {
    AnswerForServable(r, start, keys, now, k);
    hide LookupOrder, Servable, AnswerFor, Store.Valid;
    var answer, cached := AnswerFor(r, start, keys, now, k), start.store.entries[k];
    assert cached.key == k by { FiledKey(start.store, k); }
  }

  lemma FiledKey(s: Store, k: Key)
    requires s.Valid() && k in s.entries
    ensures s.entries[k].key == k
  {
  }

  lemma AnswerForServable(r: Rules, start: Situation, keys: seq<Key>, now: real, k: Key)
    requires start.store.Valid() && k in LookupOrder(keys, start.memo, start.force) && k in start.store.entries
    requires forall x :: x in LookupOrder(keys, start.memo, start.force) ==>
      Servable(start.store.entries, x, now, r.policy(x))
    ensures var answer, cached := AnswerFor(r, start, keys, now, k), start.store.entries[k];
            && answer.value == Some(cached) && answer.usableStale
            && (answer.isFresh <==> !r.policy(k).ttl.Exceeded(Max0(now - cached.observedAt)))
  {
    hide LookupOrder, Servable, ReadAll, LookupAt, Max0, NoDuplicates, Limit.Exceeded;
    var looked := LookupOrder(keys, start.memo, start.force);
    var policies := PoliciesFor(r, looked);
    ServableAreServed(start.store, looked, now, policies);
    ReadServesExactly(start.store, looked, now, policies, IndexOf(looked, k));
  }

  lemma UsableIsServable(r: Rules, entries: Entries, k: Key, now: real)
    requires k in entries && GraphCurrent(entries, k)
    requires WithinLimit(r.policy(k).maxStale, AgeAt(now, entries[k].observedAt))
    ensures Servable(entries, k, now, r.policy(k))
  {
    hide GraphCurrent;
  }

  /** A key that was pinned beforehand has no error. */
  lemma PinnedDoNotFail(w: World, scope: Scope, start: Situation, keys: seq<Key>, now: real, values: Entries,
                        errors: map<Key, Unresolved>, memo: Entries)
    requires ServedFirst(w.rules, start, keys, now, values) && Partition(w, scope, keys, values, errors, memo)
    ensures errors.Keys !! start.memo.Keys
  {
    hide Truthful, AnswerFor, Serves, LookupOrder;
    forall k | k in errors ensures k !in start.memo {
      assert k in values.Keys + errors.Keys;
    }
  }

  /** The values found for the declared dependencies are what the source is handed. */
  lemma InputsFound(w: World, scope: Scope, source: Source, key: Key, dependencies: seq<Key>, values: Entries,
                    memo: Entries)
    requires source.kind == Derived && w.declared(source.name, key).Some? && WellFiled(memo)
    requires forall d :: d in dependencies <==> d in w.declared(source.name, key).value
    requires Partition(w, scope, dependencies, values, map[], memo)
    ensures Inputs(w, source, key, values) && PinnedAs(memo, values)
  {
    hide Truthful;
    var none: map<Key, Unresolved> := map[];
    assert values.Keys + none.Keys == values.Keys;
    assert Elems(dependencies) == DeclaredKeys(w, source, key);
  }

  /** A derived source that declares nothing, or that the deadline interrupts, has grounds to fail. */
  lemma GroundsToFail(w: World, source: Source, key: Key, memo: Entries)
    requires source.kind == Derived
    ensures w.declared(source.name, key).None? ==> Sourced(w, source, key, memo,
                                                           Failed(Faulted(Raised("dependencies"))))
    ensures !w.Unhurried() ==> Sourced(w, source, key, memo, Failed(Faulted(DeadlineExceeded)))
  {
  }

  lemma CycleIsSourced(w: World, source: Source, key: Key, memo: Entries, cycle: seq<Key>)
    requires source.kind == Derived && w.declared(source.name, key).Some? && cycle != []
    requires cycle[0] in w.declared(source.name, key).value
    ensures Sourced(w, source, key, memo, Failed(CycleFound(cycle)))
  {
  }

  lemma DependenciesAreSourced(w: World, scope: Scope, source: Source, key: Key, dependencies: seq<Key>,
                               values: Entries, errors: map<Key, Unresolved>, memo: Entries)
    requires source.kind == Derived && w.declared(source.name, key).Some? && errors != map[]
    requires (forall d :: d in dependencies ==> d in w.declared(source.name, key).value)
    requires Partition(w, scope, dependencies, values, errors, memo)
    ensures Sourced(w, source, key, memo, Failed(DependenciesFailed(errors)))
  {
    hide Truthful;
    forall d | d in errors ensures d in DeclaredKeys(w, source, key) {
      assert d in values.Keys + errors.Keys;
    }
  }

  lemma DeclinedIsSourced(w: World, source: Source, key: Key, memo: Entries, values: Entries, moment: nat)
    requires source.kind == Derived && w.derive(source.name, key, values, moment).Declined?
    requires Inputs(w, source, key, values) && PinnedAs(memo, values)
    ensures Sourced(w, source, key, memo, Failed(Faulted(w.derive(source.name, key, values, moment).fault)))
  {
  }

  lemma DirectIsSourced(w: World, source: Source, key: Key, memo: Entries)
    requires source.kind == Direct
    ensures Sourced(w, source, key, memo, Asked(w.answer(source.name, key)))
  {
  }

  lemma PlainCauses(w: World, scope: Scope)
    ensures forall f :: TruthfulCause(w, scope, Faulted(f))
  {
  }

  lemma DependencyCause(w: World, scope: Scope, errors: map<Key, Unresolved>)
    requires forall k :: k in errors ==> errors[k].key == k && Truthful(w, scope, errors[k])
    ensures TruthfulCause(w, scope, DependenciesFailed(errors))
  {
  }

  lemma DeclaredBy(w: World, source: Source, key: Key, dependencies: seq<Key>)
    requires source in w.sources && source.kind == Derived && w.declared(source.name, key).Some?
    requires forall d :: d in dependencies ==> d in w.declared(source.name, key).value
    ensures forall d :: d in dependencies ==> Declares(w, key, d)
  {
  }

  lemma CycleBelow(w: World, scope: Scope, universe: set<Key>, ancestry: seq<Key>, key: Key, d: Key, start: nat)
    requires Placed(w, universe, ancestry, [key]) && Declares(w, key, d)
    requires start < |ancestry| + 1 && (ancestry + [key])[start] == d
    ensures TruthfulCause(w, scope, CycleFound((ancestry + [key])[start..] + [d]))
  {
    hide Declares;
    var path := ancestry + [key];
    assert key in [key];
    forall i | 0 <= i < |path| - 1 ensures Declares(w, path[i], path[i + 1]) {
      if i + 1 < |ancestry| { assert Declares(w, ancestry[i], ancestry[i + 1]); }
    }
    CycleOnPath(w, path, d, start);
  }

  /** The situation once the shared cache has been read. */
  ghost function AfterLookups(r: Rules, start: Situation, keys: seq<Key>, now: real): Situation
    requires WellFiled(start.store.entries)
  {
    start.(store := AfterReading(r, start.store, LookupOrder(keys, start.memo, start.force), now))
  }

  /** What the shared cache answered for a key that was looked up. */
  ghost function AnswerFor(r: Rules, start: Situation, keys: seq<Key>, now: real, k: Key): CacheLookup
    requires WellFiled(start.store.entries) && k in LookupOrder(keys, start.memo, start.force)
  {
    var looked := LookupOrder(keys, start.memo, start.force);
    AnswerAt(r, start.store, looked, now, IndexOf(looked, k))
  }

  /**
    How a key of a request ends, given what its sources settle on: its pinned value; else, unless a refresh is due,
    the cached value if it may be served; else what is settled, with a usable stale cached value standing in for an
    error.
   */
  ghost function Ending(w: World, start: Situation, keys: seq<Key>, now: real, k: Key, settled: Outcome): Outcome
    requires WellFiled(start.store.entries)
  {
    if k in start.memo then Got(start.memo[k])
    else if k !in LookupOrder(keys, start.memo, start.force) then settled
    else
      var answer := AnswerFor(w.rules, start, keys, now, k);
      if Serves(answer, w.rules.policy(k)) then Got(CachedCopy(answer.value.value, !answer.isFresh, now))
      else if settled.Missed? && answer.usableStale && answer.value.Some? && w.rules.policy(k).allowStaleOnError
      then Got(CachedCopy(answer.value.value, true, now))
      else settled
  }

  /** How a key ends by its own source chain. */
  ghost function EndsAs(w: World, scope: Scope, start: Situation, keys: seq<Key>, now: real, k: Key): Outcome
    requires WellFiled(start.store.entries)
  {
    Ending(w, start, keys, now, k, SettleAt(w, scope, AfterLookups(w.rules, start, keys, now), k, now))
  }

  ghost predicate AllEndAs(w: World, scope: Scope, start: Situation, keys: seq<Key>, now: real, values: Entries,
                           errors: map<Key, Unresolved>)
    requires WellFiled(start.store.entries)
  {
    forall k :: k in keys ==> HandedAs(k, EndsAs(w, scope, start, keys, now, k), values, errors)
  }

  /** The keys of a request that are resolved: the ones due for refresh, then the ones the cache does not serve. */
  ghost function PendingOrder(r: Rules, start: Situation, keys: seq<Key>, now: real): seq<Key>
    requires WellFiled(start.store.entries)
  {
    var looked := LookupOrder(keys, start.memo, start.force);
    DueOrder(keys, start.force) + MissesOf(r, start.store, looked, now, |looked|)
  }

  /** How a key of a request ends, whatever room the cache has: its sources settle on what its batch leads to. */
  ghost function EndsIn(w: World, scope: Scope, maxEntries: Option<nat>, owned: set<Key>, start: Situation,
                        keys: seq<Key>, now: real, k: Key): Outcome
    requires WellFiled(start.store.entries) && AfterLookups(w.rules, start, keys, now).store.Valid()
  {
    Ending(w, start, keys, now, k,
           PendingSettle(w, scope, maxEntries, owned, AfterLookups(w.rules, start, keys, now),
                         PendingOrder(w.rules, start, keys, now), k, now))
  }

  ghost predicate AllEndIn(w: World, scope: Scope, maxEntries: Option<nat>, owned: set<Key>, start: Situation,
                           keys: seq<Key>, now: real, values: Entries, errors: map<Key, Unresolved>) {
    && WellFiled(start.store.entries) && AfterLookups(w.rules, start, keys, now).store.Valid()
    && forall k :: k in keys ==> HandedAs(k, EndsIn(w, scope, maxEntries, owned, start, keys, now, k), values, errors)
  }

  /** A key that was looked up is a hit or a miss as the cache's answer for it says. */
  lemma LookedFor(r: Rules, start: Situation, keys: seq<Key>, now: real, hits: Entries, misses: seq<Key>,
                  stale: Entries, k: Key)
    requires WellFiled(start.store.entries) && k in LookupOrder(keys, start.memo, start.force)
    requires var looked := LookupOrder(keys, start.memo, start.force);
      Looked(r, start.store, looked, now, |looked|, hits, misses, stale)
    ensures var answer := AnswerFor(r, start, keys, now, k);
            && (k in hits <==> Serves(answer, r.policy(k)))
            && (k in hits ==> hits[k] == CachedCopy(answer.value.value, !answer.isFresh, now))
            && (k in hits <==> k !in misses)
            && (k in stale <==> k in misses && answer.usableStale && answer.value.Some?)
            && (k in stale ==> Some(stale[k]) == answer.value)
  {
    hide LookupOrder, AnswerAt, Serves, CachedCopy, NoDuplicates;
    var looked := LookupOrder(keys, start.memo, start.force);
    assert looked[..|looked|] == looked;
    assert LookedAt(r, start.store, looked, now, IndexOf(looked, k), hits, misses, stale);
  }

  /**
    Whatever the sources are: a pinned key keeps its value and a key the shared cache may serve takes a copy from there.
   */
  ghost predicate ServedFirst(r: Rules, start: Situation, keys: seq<Key>, now: real, values: Entries) {
    && WellFiled(start.store.entries)
    && (forall k :: k in keys && k in start.memo ==> k in values && values[k] == start.memo[k])
    && (forall k :: k in keys && k in LookupOrder(keys, start.memo, start.force) &&
                    Serves(AnswerFor(r, start, keys, now, k), r.policy(k)) ==>
          && k in values
          && var answer := AnswerFor(r, start, keys, now, k);
             values[k] == CachedCopy(answer.value.value, !answer.isFresh, now))
  }

  lemma SamePins(memo: Entries, keys: seq<Key>, hits: Entries, ready: Entries)
    requires forall k :: k in ready <==> k in hits || (k in keys && k in memo)
    requires forall k :: k in ready ==> ready[k] == if k in hits then hits[k] else memo[k]
    ensures memo + hits == memo + ready
  {
  }

  lemma ReadyFirst(r: Rules, start: Situation, keys: seq<Key>, now: real, hits: Entries, misses: seq<Key>,
                   stale: Entries,
                   pending: seq<Key>, results: map<Key, Outcome>, ready: Entries, values: Entries,
                   errors: map<Key, Unresolved>)
    requires WellFiled(start.store.entries)
    requires var looked := LookupOrder(keys, start.memo, start.force);
      Looked(r, start.store, looked, now, |looked|, hits, misses, stale)
    requires forall k :: k in hits ==> k !in start.memo
    requires forall k :: k in ready <==> k in hits || (k in keys && k in start.memo)
    requires forall k :: k in ready ==> ready[k] == if k in hits then hits[k] else start.memo[k]
    requires Faithful(r, results, stale, ready, pending, values, errors, now)
    ensures ServedFirst(r, start, keys, now, values)
  {
    hide LookupOrder, Looked, Serves, CachedCopy, AnswerFor, NoDuplicates, WellFiled, HandedAs;
    forall k | k in keys && k in LookupOrder(keys, start.memo, start.force) &&
               Serves(AnswerFor(r, start, keys, now, k), r.policy(k))
      ensures var answer := AnswerFor(r, start, keys, now, k);
              k in values && answer.value.Some? && values[k] == CachedCopy(answer.value.value, !answer.isFresh, now)
    {
      LookedFor(r, start, keys, now, hits, misses, stale, k);
      ServedValue(AnswerFor(r, start, keys, now, k), r.policy(k));
    }
  }

  /** What the steps of a resolution over direct sources amount to for one key. */
  lemma EndsTogether(w: World, start: Situation, keys: seq<Key>, now: real, hits: Entries, misses: seq<Key>,
                     stale: Entries,
                     pending: seq<Key>, results: map<Key, Outcome>, ready: Entries, values: Entries,
                     errors: map<Key, Unresolved>, k: Key, settled: Outcome)
    requires WellFiled(start.store.entries) && k in keys && start.force !! start.memo.Keys
    requires var looked := LookupOrder(keys, start.memo, start.force);
      Looked(w.rules, start.store, looked, now, |looked|, hits, misses, stale)
    requires forall x :: x in hits ==> x in LookupOrder(keys, start.memo, start.force)
    requires forall x :: x in misses ==> x in LookupOrder(keys, start.memo, start.force)
    requires forall x :: x in pending <==> x in misses || (x in keys && x in start.force)
    requires forall x :: x in stale ==> x in misses
    requires forall x :: x in ready <==> x in hits || (x in keys && x in start.memo)
    requires forall x :: x in ready ==> ready[x] == if x in hits then hits[x] else start.memo[x]
    requires results.Keys == Elems(pending) && (k in pending ==> results[k] == settled)
    requires Faithful(w.rules, results, stale, ready, pending, values, errors, now)
    ensures HandedAs(k, Ending(w, start, keys, now, k, settled), values, errors)
  {
    hide LookupOrder, Looked, Serves, CachedCopy, AnswerFor, NoDuplicates, WellFiled;
    if k in LookupOrder(keys, start.memo, start.force) {
      LookedFor(w.rules, start, keys, now, hits, misses, stale, k);
    }
  }

  /** A pending key is settled alike whether or not the values served meanwhile are pinned. */
  lemma SettledAlike(w: World, scope: Scope, maxEntries: Option<nat>, owned: set<Key>, start: Situation,
                     here: Situation, keys: seq<Key>, now: real, hits: Entries, pending: seq<Key>, k: Key)
    requires WellFiled(start.store.entries) && here.store.Valid() && k in pending
    requires here.memo == start.memo + hits && here.force == start.force
    requires here.store == AfterLookups(w.rules, start, keys, now).store
    requires forall x :: x in pending ==> x !in hits
    ensures PendingSettle(w, scope, maxEntries, owned, here, pending, k, now) ==
      PendingSettle(w, scope, maxEntries, owned, AfterLookups(w.rules, start, keys, now), pending, k, now)
  {
    hide PendingSettle, AfterReading, WellFiled, Store.Valid, LookupOrder;
    var after := AfterLookups(w.rules, start, keys, now);
    assert SameFor(here, after, pending);
    PendingSame(w, scope, maxEntries, owned, here, after, pending, k, now);
  }

  lemma SpaciousAfterReading(w: World, scope: Scope, maxEntries: Option<nat>, start: Situation, keys: seq<Key>,
                             pending: seq<Key>, now: real)
    requires WellFiled(start.store.entries) && Spacious(scope, maxEntries, start.store.entries, Elems(keys))
    requires forall k :: k in pending ==> k in keys
    ensures Spacious(scope, maxEntries, AfterLookups(w.rules, start, keys, now).store.entries, Elems(pending))
  {
    hide ReadAll, LookupOrder, WellFiled;
    var entries := AfterLookups(w.rules, start, keys, now).store.entries;
    assert SubEntries(entries, start.store.entries);
    SubsetCardinality(entries.Keys + Elems(pending), start.store.entries.Keys + Elems(keys));
  }

  /** The pending keys are those due for refresh and those the cache was asked for and does not serve. */
  lemma PendingExactly(r: Rules, start: Situation, keys: seq<Key>, now: real, k: Key)
    requires WellFiled(start.store.entries)
    ensures k in PendingOrder(r, start, keys, now) <==>
      (k in keys && k in start.force) ||
      (k in LookupOrder(keys, start.memo, start.force) && !Serves(AnswerFor(r, start, keys, now, k), r.policy(k)))
  {
    hide LookupOrder, DueOrder, Serves, AnswerAt, MissesOf, NoDuplicates, WellFiled;
    var looked := LookupOrder(keys, start.memo, start.force);
    MissesExactly(r, start.store, looked, now, |looked|, k);
    if k in looked { MissedAt(r, start.store, looked, now, k); }
  }

  lemma {:induction false} MissesExactly(r: Rules, s: Store, keys: seq<Key>, now: real, n: nat, k: Key)
    requires WellFiled(s.entries) && n <= |keys|
    ensures k in MissesOf(r, s, keys, now, n) <==>
      exists i :: 0 <= i < n && keys[i] == k && !Serves(AnswerAt(r, s, keys, now, i), r.policy(k))
  {
    hide Serves, AnswerAt, WellFiled;
    if n > 0 { MissesExactly(r, s, keys, now, n - 1, k); }
  }

  lemma MissedAt(r: Rules, s: Store, keys: seq<Key>, now: real, k: Key)
    requires WellFiled(s.entries) && NoDuplicates(keys) && k in keys
    ensures (exists i :: 0 <= i < |keys| && keys[i] == k && !Serves(AnswerAt(r, s, keys, now, i), r.policy(k))) <==>
      !Serves(AnswerAt(r, s, keys, now, IndexOf(keys, k)), r.policy(k))
  {
    hide Serves, AnswerAt, WellFiled;
  }

  /**
    The exact law of a request: a key ends as by its own chain unless it is pending and its outranking entry is pushed
    out before its turn.
   */
  lemma RequestAloneExactly(w: World, scope: Scope, maxEntries: Option<nat>, owned: set<Key>, start: Situation,
                            keys: seq<Key>, now: real, k: Key)
    requires WellFiled(start.store.entries) && AfterLookups(w.rules, start, keys, now).store.Valid()
    requires start.force !! start.memo.Keys && k in keys
    ensures EndsIn(w, scope, maxEntries, owned, start, keys, now, k) == EndsAs(w, scope, start, keys, now, k) <==>
      !(k in PendingOrder(w.rules, start, keys, now) &&
        PendingOusted(w, scope, maxEntries, owned, AfterLookups(w.rules, start, keys, now),
                      PendingOrder(w.rules, start, keys, now), k, now))
  {
    hide PendingSettle, SettleAt, PendingOusted, PendingOrder, AfterLookups, LookupOrder, Serves, WellFiled,
         Store.Valid;
    PendingExactly(w.rules, start, keys, now, k);
    PendingAloneExactly(w, scope, maxEntries, owned, AfterLookups(w.rules, start, keys, now),
                        PendingOrder(w.rules, start, keys, now), k, now);
  }

  /** With room for its keys every key of a request ends as by its own chain. */
  lemma RequestWithRoom(w: World, scope: Scope, maxEntries: Option<nat>, owned: set<Key>, start: Situation,
                        keys: seq<Key>, now: real,
                        values: Entries, errors: map<Key, Unresolved>)
    requires AllEndIn(w, scope, maxEntries, owned, start, keys, now, values, errors) && start.force !! start.memo.Keys
    requires Spacious(scope, maxEntries, start.store.entries, Elems(keys))
    ensures AllEndAs(w, scope, start, keys, now, values, errors)
  {
    hide EndsIn, EndsAs, HandedAs, PendingOusted, PendingOrder, AfterLookups, LookupOrder, Serves, WellFiled,
         Store.Valid, Roomy, Sheltered, NoDuplicates, AnswerFor;
    var after, pending := AfterLookups(w.rules, start, keys, now), PendingOrder(w.rules, start, keys, now);
    PendingDistinct(w.rules, start, keys, now);
    SpaciousAfterReading(w, scope, maxEntries, start, keys, pending, now);
    forall k | k in keys ensures HandedAs(k, EndsAs(w, scope, start, keys, now, k), values, errors) {
      if k in after.store.entries && scope.cacheSource { RoomyIsSheltered(maxEntries, after.store, Elems(pending), k); }
      ShelteredIsNotPendingOusted(w, scope, maxEntries, owned, after, pending, k, now);
      RequestAloneExactly(w, scope, maxEntries, owned, start, keys, now, k);
    }
  }

  lemma {:induction false} MissesDistinct(r: Rules, s: Store, keys: seq<Key>, now: real, n: nat)
    requires WellFiled(s.entries) && NoDuplicates(keys) && n <= |keys|
    ensures NoDuplicates(MissesOf(r, s, keys, now, n))
    ensures forall k :: k in MissesOf(r, s, keys, now, n) ==> k in keys[..n]
  {
    hide Serves, AnswerAt, WellFiled;
    if n > 0 {
      MissesDistinct(r, s, keys, now, n - 1);
      LastIsNew(keys, n - 1);
    }
  }

  lemma PendingDistinct(r: Rules, start: Situation, keys: seq<Key>, now: real)
    requires WellFiled(start.store.entries)
    ensures NoDuplicates(PendingOrder(r, start, keys, now))
    ensures forall k :: k in PendingOrder(r, start, keys, now) ==> k in keys
  {
    hide LookupOrder, DueOrder, MissesOf, NoDuplicates, WellFiled;
    var looked := LookupOrder(keys, start.memo, start.force);
    MissesDistinct(r, start.store, looked, now, |looked|);
    assert looked[..|looked|] == looked;
    JoinDistinct(DueOrder(keys, start.force), MissesOf(r, start.store, looked, now, |looked|));
  }

  lemma FirstOnPathStep(deps: seq<Key>, path: seq<Key>, n: nat)
    requires n < |deps|
    ensures FirstOnPath(deps[n..], path) == if deps[n] in path then Some(deps[n]) else FirstOnPath(deps[n + 1..], path)
  {
    assert deps[n..][1..] == deps[n + 1..];
  }

  lemma NothingOnPath(path: seq<Key>)
    ensures FirstOnPath([], path).None?
  {
  }

  lemma PartitionCovers(w: World, scope: Scope, declared: Option<seq<Key>>, keys: seq<Key>, found: Resolved,
                        memo: Entries)
    requires declared.Some? && forall k :: k in keys <==> k in declared.value
    requires found.Resolved? ==> Partition(w, scope, keys, found.values, found.errors, memo)
    ensures Covers(declared, found)
  {
    hide Truthful;
    assert Elems(keys) == Elems(declared.value);
  }

  lemma DerivedFrom(w: World, source: Source, key: Key, ancestry: seq<Key>, memo: Entries, found: Resolved, moment: nat)
    requires Covers(w.declared(source.name, key), found) && (w.Unhurried() ==> found.Resolved?)
    requires FirstOnPathOf(w, source, key, ancestry).None? && found.Resolved? ==>
      forall k :: k in found.values ==> k in memo && memo[k] == found.values[k]
    ensures Derivation(w, source, key, ancestry, memo, DerivedAttempt(w, source, key, ancestry, found, moment))
  {
  }

  /** A source that declares nothing, or a dependency on the path, fails however its dependencies would resolve. */
  lemma DerivedEarly(w: World, source: Source, key: Key, ancestry: seq<Key>, memo: Entries)
    ensures var declared := w.declared(source.name, key);
            && (declared.None? ==> Derivation(w, source, key, ancestry, memo, Failed(Faulted(Raised("dependencies")))))
            && (declared.Some? ==>
                  var path := ancestry + [key];
                  var closing := FirstOnPath(Distinct(declared.value), path);
                  closing.Some? ==>
                    Derivation(w, source, key, ancestry, memo,
                               Failed(CycleFound(path[IndexOf(path, closing.value)..] + [closing.value]))))
  {
    hide Distinct, FirstOnPath;
    var declared := w.declared(source.name, key);
    var errors: map<Key, Unresolved> :=
      if declared.None? then map[] else map k | k in declared.value :: Unresolved(k, []);
    var none: Entries := map[];
    assert none.Keys + errors.Keys == errors.Keys;
    DerivedFrom(w, source, key, ancestry, memo, Resolved(none, errors), 0);
  }

  lemma PartitionPinned(w: World, scope: Scope, keys: seq<Key>, found: Resolved, memo: Entries)
    requires found.Resolved? ==> Partition(w, scope, keys, found.values, found.errors, memo)
    ensures found.Resolved? ==> forall k :: k in found.values ==> k in memo && memo[k] == found.values[k]
  {
  }

  lemma EntryDeclared(w: World, entries: Entries, k: Key)
    requires StoreDeclared(w, entries) && k in entries
    ensures AsDeclared(w, entries[k])
  {
  }

  /** Where there is bounty for the keys of a request, nothing fails. */
  lemma BountyLeavesNoErrors(w: World, scope: Scope, inside: set<Key>, keys: seq<Key>, values: Entries,
                             errors: map<Key, Unresolved>, memo: Entries)
    requires Partition(w, scope, keys, values, errors, memo) && Bounty(w, scope, inside) && Elems(keys) <= inside
    ensures errors == map[]
  {
    hide Truthful, Bounty;
    forall k | k in errors ensures false {
      assert k in values.Keys + errors.Keys;
      BountyRefutes(w, scope, inside, errors[k]);
    }
  }
}
