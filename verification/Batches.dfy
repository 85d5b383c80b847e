/**
  A batch over direct sources: where it leads each of its keys and the shared cache, and when that is where the key
  would go alone.
 */
module Batches {
  import opened Core
  import opened WriteOrder
  import opened MemoryCache
  import opened CacheRuns
  import opened Sources
  import opened Resolution
  import opened CacheOffers
  import opened CacheLookups
  import opened Rounds
  import opened SourceLoop

  // ---- A key by itself -----------------------------------------------------------------------------

  /** Where key `k` stands after `i` direct sources. */
  ghost function ChainAt(w: World, scope: Scope, start: Situation, k: Key, now: real, i: nat): Standing
    requires i <= |w.sources|
  {
    Chain(w, k, scope.ExcludedFor(k), Lookup(start.memo, k), Lookup(start.store.entries, k), scope.cacheSource, now, i)
  }

  lemma OpenKeepsStored(st: Standing, pinned: Option<Value>, stored: Option<Value>, writes: bool)
    ensures PickUp(st, pinned).Open? ==> StoredSoFar(st, pinned, stored, writes) == stored
  {
  }

  /** What one verdict makes of the cached value that belongs to a standing. */
  lemma StoredStep(r: Rules, st: Standing, pinned: Option<Value>, verdict: Verdict, stored: Option<Value>, writes: bool,
                   now: real)
    requires verdict.Current? ==> !verdict.value.fromCache
    ensures var picked := PickUp(st, pinned);
            StoredSoFar(Advance(r, picked, verdict, stored, writes, now), pinned, stored, writes) ==
              if picked.Open? && verdict.Current? && writes then Offer(stored, verdict.value, false, false)
              else StoredSoFar(st, pinned, stored, writes)
  {
  }

  /** The outcome of one key by its own chain. */
  ghost function SettleAt(w: World, scope: Scope, start: Situation, k: Key, now: real): Outcome {
    Settle(w, k, scope.ExcludedFor(k), Lookup(start.memo, k), Lookup(start.store.entries, k), scope.cacheSource,
           k in start.force, now)
  }

  /** The cached value of one key by its own chain. */
  ghost function StoredAt(w: World, scope: Scope, start: Situation, k: Key, now: real): Option<Value> {
    StoredAfter(w, k, scope.ExcludedFor(k), Lookup(start.memo, k), Lookup(start.store.entries, k), scope.cacheSource,
                scope.cacheStale, k in start.force, now)
  }

  /** Every key of a batch ends as it would end alone. */
  ghost predicate EachAlone(w: World, scope: Scope, start: Situation, keys: seq<Key>, results: map<Key, Outcome>,
                            now: real) {
    forall k :: k in keys ==> k in results && results[k] == SettleAt(w, scope, start, k, now)
  }

  /** So does its entry in the shared cache, and the entries of other keys stay. */
  ghost predicate EachStoredAlone(w: World, scope: Scope, start: Situation, keys: seq<Key>, entries: Entries,
                                  now: real) {
    forall k :: Lookup(entries, k) == if k in keys then StoredAt(w, scope, start, k,
                                                                 now) else Lookup(start.store.entries, k)
  }

  // ---- A batch over direct sources, whatever room the cache has -----------------------------------

  /** The values that source `i` is the first to have fresh, for the keys that are not pinned, in order. */
  ghost function OfferedAt(w: World, scope: Scope, memo: Entries, keys: seq<Key>, i: nat): seq<Value>
    requires i < |w.sources|
  {
    if keys == [] then []
    else
      var k := keys[|keys| - 1];
      OfferedAt(w, scope, memo, keys[..|keys| - 1], i) +
        if k !in memo && FirstCurrent(w, k, scope.ExcludedFor(k), |w.sources|, i)
        then [VerdictOf(w, w.sources[i], k, scope.ExcludedFor(k)).value] else []
  }

  /** The shared cache after `i` sources of a batch. */
  ghost function BatchStore(w: World, scope: Scope, maxEntries: Option<nat>, start: Situation, keys: seq<Key>,
                            i: nat): (r: Store)
    requires start.store.Valid() && i <= |w.sources|
    ensures r.Valid()
  {
    if i == 0 then start.store
    else AfterWrite(BatchStore(w, scope, maxEntries, start, keys, i - 1), OfferedAt(w, scope, start.memo, keys, i - 1),
                    scope.cacheSource, maxEntries)
  }

  /** Where a key stands after `i` sources of a batch: its chain, over the entries the cache has at each moment. */
  ghost function BatchAt(w: World, scope: Scope, maxEntries: Option<nat>, start: Situation, keys: seq<Key>, k: Key,
                         now: real, i: nat): Standing
    requires start.store.Valid() && i <= |w.sources|
  {
    if i == 0 then Open([], None)
    else
      Advance(w.rules, PickUp(BatchAt(w, scope, maxEntries, start, keys, k, now, i - 1), Lookup(start.memo, k)),
              VerdictOf(w, w.sources[i - 1], k, scope.ExcludedFor(k)),
              Lookup(BatchStore(w, scope, maxEntries, start, keys, i - 1).entries, k), scope.cacheSource, now)
  }

  /** A key is open as long as it is not pinned and no source has had a fresh value. */
  lemma {:induction false} BatchOpen(w: World, scope: Scope, maxEntries: Option<nat>, start: Situation, keys: seq<Key>,
                                     k: Key, now: real, i: nat)
    requires start.store.Valid() && i <= |w.sources|
    ensures BatchAt(w, scope, maxEntries, start, keys, k, now, i).Open? <==>
      (i == 0 || k !in start.memo) && forall j :: 0 <= j < i ==> !VerdictOf(w, w.sources[j], k,
                                                                            scope.ExcludedFor(k)).Current?
  {
    hide VerdictOf, BatchStore, Superseded, BetterStale, Store.Valid;
    if i > 0 { BatchOpen(w, scope, maxEntries, start, keys, k, now, i - 1); }
  }

  ghost predicate BatchKey(w: World, scope: Scope, maxEntries: Option<nat>, start: Situation, here: Situation,
                           keys: seq<Key>, d: Desk, now: real, i: nat, k: Key)
    requires start.store.Valid() && i <= |w.sources|
  {
    && k in d.failures
    && d.At(k) == BatchAt(w, scope, maxEntries, start, keys, k, now, i)
    && (d.At(k).Open? ==> Lookup(here.memo, k) == Lookup(start.memo, k) && (k in here.force <==> k in start.force))
  }

  /** After `i` direct sources cache and keys are where the batch leads them. */
  ghost predicate TracksBatch(w: World, scope: Scope, maxEntries: Option<nat>, start: Situation, here: Situation,
                              keys: seq<Key>, d: Desk, now: real, i: nat) {
    && start.store.Valid() && i <= |w.sources|
    && here.store == BatchStore(w, scope, maxEntries, start, keys, i)
    && forall k :: k in keys ==> BatchKey(w, scope, maxEntries, start, here, keys, d, now, i, k)
  }

  lemma BatchBegin(w: World, scope: Scope, maxEntries: Option<nat>, start: Situation, keys: seq<Key>, d: Desk,
                   now: real)
    requires start.store.Valid() && d.For(keys) && forall k :: k in keys ==> d.At(k) == Open([], None)
    ensures TracksBatch(w, scope, maxEntries, start, start, keys, d, now, 0)
  {
  }

  /** An open, unpinned key with a current verdict is one the source is the first to have fresh. */
  lemma OpenIsFirst(w: World, scope: Scope, maxEntries: Option<nat>, start: Situation, here: Situation, keys: seq<Key>,
                    desk: Desk, now: real, i: nat, k: Key)
    requires start.store.Valid() && i < |w.sources|
    requires BatchKey(w, scope, maxEntries, start, here, keys, desk, now, i, k)
    ensures PickUp(desk.At(k), Lookup(here.memo, k)).Open? &&
            VerdictOf(w, w.sources[i], k, scope.ExcludedFor(k)).Current? <==>
      k !in start.memo && FirstCurrent(w, k, scope.ExcludedFor(k), |w.sources|, i)
  {
    hide VerdictOf, BatchAt, Desk.At, Store.Valid;
    BatchOpen(w, scope, maxEntries, start, keys, k, now, i);
  }

  lemma {:induction false} RoundOffersThese(w: World, scope: Scope, maxEntries: Option<nat>, start: Situation,
                                            here: Situation, keys: seq<Key>, some: seq<Key>, desk: Desk, now: real,
                                            i: nat)
    requires start.store.Valid() && i < |w.sources|
    requires forall k :: k in some ==> BatchKey(w, scope, maxEntries, start, here, keys, desk, now, i, k)
    ensures RoundOffers(w, scope, w.sources[i], some, desk, here.memo) == OfferedAt(w, scope, start.memo, some, i)
  {
    hide VerdictOf, BatchKey, FirstCurrent, Desk.At, Store.Valid, PickUp, Lookup;
    if some != [] {
      var k := some[|some| - 1];
      RoundOffersThese(w, scope, maxEntries, start, here, keys, some[..|some| - 1], desk, now, i);
      assert BatchKey(w, scope, maxEntries, start, here, keys, desk, now, i, k);
      OpenIsFirst(w, scope, maxEntries, start, here, keys, desk, now, i, k);
      BatchKeyKnown(w, scope, maxEntries, start, here, keys, desk, now, i, k);
    }
  }

  lemma BatchKeyKnown(w: World, scope: Scope, maxEntries: Option<nat>, start: Situation, here: Situation,
                      keys: seq<Key>, desk: Desk, now: real, i: nat, k: Key)
    requires start.store.Valid() && i <= |w.sources|
    requires BatchKey(w, scope, maxEntries, start, here, keys, desk, now, i, k)
    ensures k in desk.failures
  {
  }

  lemma BatchStep(w: World, scope: Scope, maxEntries: Option<nat>, start: Situation, a: Situation, b: Situation,
                  keys: seq<Key>, desk: Desk, d: Desk, now: real, i: nat)
    requires i < |w.sources| && TracksBatch(w, scope, maxEntries, start, a, keys, desk, now, i)
    requires RoundDone(w, scope, w.sources[i], keys, desk, d, a, b, now)
    requires RoundWrites(w, scope, maxEntries, w.sources[i], keys, desk, a, b)
    ensures TracksBatch(w, scope, maxEntries, start, b, keys, d, now, i + 1)
  {
    hide RoundDone, BatchKey, AfterWrite, RoundOffers, OfferedAt, Store.Valid;
    RoundOffersThese(w, scope, maxEntries, start, a, keys, keys, desk, now, i);
    var next := i + 1;
    forall k | k in keys ensures BatchKey(w, scope, maxEntries, start, b, keys, d, now, next, k) {
      BatchKeyStep(w, scope, maxEntries, start, a, b, keys, desk, d, now, i, k);
    }
  }

  lemma BatchKeyStep(w: World, scope: Scope, maxEntries: Option<nat>, start: Situation, a: Situation, b: Situation,
                     keys: seq<Key>, desk: Desk, d: Desk, now: real, i: nat, k: Key)
    requires i < |w.sources| && TracksBatch(w, scope, maxEntries, start, a, keys, desk, now, i) && k in keys
    requires RoundDone(w, scope, w.sources[i], keys, desk, d, a, b, now)
    ensures BatchKey(w, scope, maxEntries, start, b, keys, d, now, i + 1, k)
  {
    hide VerdictOf, Superseded, BetterStale, Desk.At, BatchStore, Store.Valid;
    assert BatchKey(w, scope, maxEntries, start, a, keys, desk, now, i, k);
  }

  // ---- The end of a batch ---------------------------------------------------------------------------

  /** What a key of a batch ends with. */
  ghost function BatchSettle(w: World, scope: Scope, maxEntries: Option<nat>, start: Situation, keys: seq<Key>, k: Key,
                             now: real): Outcome
    requires start.store.Valid()
  {
    Conclude(w.rules, k, BatchAt(w, scope, maxEntries, start, keys, k, now, |w.sources|), k in start.force)
  }

  /** The stale values that open keys fall back to, in order. */
  ghost function StaleOf(r: Rules, desk: Desk, force: set<Key>, keys: seq<Key>): seq<Value> {
    if keys == [] then []
    else
      var k := keys[|keys| - 1];
      StaleOf(r, desk, force, keys[..|keys| - 1]) +
        if k in desk.failures && k !in desk.settled && Conclude(r, k, desk.At(k), k in force).Got?
        then [Conclude(r, k, desk.At(k), k in force).value] else []
  }

  ghost function BatchStales(w: World, scope: Scope, maxEntries: Option<nat>, start: Situation, keys: seq<Key>,
                             some: seq<Key>, now: real): seq<Value>
    requires start.store.Valid()
  {
    if some == [] then []
    else
      var k := some[|some| - 1];
      var outcome := BatchSettle(w, scope, maxEntries, start, keys, k, now);
      BatchStales(w, scope, maxEntries, start, keys, some[..|some| - 1], now) +
        if BatchAt(w, scope, maxEntries, start, keys, k, now, |w.sources|).Open? && outcome.Got? then [outcome.value]
        else []
  }

  /** The shared cache when the batch has ended. */
  ghost function BatchFinal(w: World, scope: Scope, maxEntries: Option<nat>, start: Situation, keys: seq<Key>,
                            now: real): (r: Store)
    requires start.store.Valid()
    ensures r.Valid()
  {
    AfterWrite(BatchStore(w, scope, maxEntries, start, keys, |w.sources|),
               BatchStales(w, scope, maxEntries, start, keys, keys, now), scope.cacheStale, maxEntries)
  }

  lemma StaleAppended(r: Rules, desk: Desk, force: set<Key>, keys: seq<Key>, k: Key)
    ensures StaleOf(r, desk, force, keys + [k]) == StaleOf(r, desk, force, keys) + StaleOf(r, desk, force, [k])
    ensures k in desk.settled ==> StaleOf(r, desk, force, [k]) == []
  {
    assert (keys + [k])[..|keys|] == keys && [k][..0] == [];
    assert StaleOf(r, desk, force, []) == [];
  }

  lemma {:induction false} StaleAmongUnsettled(r: Rules, desk: Desk, force: set<Key>, keys: seq<Key>)
    ensures StaleOf(r, desk, force, Unsettled(keys, desk)) == StaleOf(r, desk, force, keys)
  {
    hide StaleOf, Unsettled, NoDuplicates;
    if keys == [] {
      NoneUnsettled(desk);
    } else {
      var n := |keys| - 1;
      StaleAmongUnsettled(r, desk, force, keys[..n]);
      UnsettledStep(keys, desk);
      assert keys == keys[..n] + [keys[n]];
      StaleAppended(r, desk, force, keys[..n], keys[n]);
      StaleAppended(r, desk, force, Unsettled(keys[..n], desk), keys[n]);
      assert StaleOf(r, desk, force, keys[..n]) + [] == StaleOf(r, desk, force, keys[..n]);
      assert Unsettled(keys[..n], desk) + [] == Unsettled(keys[..n], desk);
    }
  }

  lemma StaleOfStep(r: Rules, desk: Desk, force: set<Key>, keys: seq<Key>, n: nat)
    requires n < |keys| && keys[n] in desk.failures && keys[n] !in desk.settled
    ensures var outcome := Conclude(r, keys[n], desk.At(keys[n]), keys[n] in force);
            StaleOf(r, desk, force, keys[..n + 1]) ==
              StaleOf(r, desk, force, keys[..n]) + if outcome.Got? then [outcome.value] else []
    ensures StaleOf(r, desk, force, []) == []
  {
    assert keys[..n + 1][..n] == keys[..n];
  }

  lemma {:induction false} BatchStalesThese(w: World, scope: Scope, maxEntries: Option<nat>, start: Situation,
                                            here: Situation, keys: seq<Key>, some: seq<Key>, d: Desk, now: real)
    requires start.store.Valid()
    requires forall k :: k in some ==> BatchKey(w, scope, maxEntries, start, here, keys, d, now, |w.sources|, k)
    ensures StaleOf(w.rules, d, here.force, some) == BatchStales(w, scope, maxEntries, start, keys, some, now)
  {
    hide BatchAt, Store.Valid;
    if some != [] {
      var k := some[|some| - 1];
      BatchStalesThese(w, scope, maxEntries, start, here, keys, some[..|some| - 1], d, now);
      assert BatchKey(w, scope, maxEntries, start, here, keys, d, now, |w.sources|, k);
      SettledAt(d, k);
    }
  }

  /** The batch law of the source loop: every key, and the cache, end where the batch leads them. */
  ghost predicate EachInBatch(w: World, scope: Scope, maxEntries: Option<nat>, start: Situation, keys: seq<Key>,
                              results: map<Key, Outcome>, now: real) {
    && start.store.Valid()
    && forall k :: k in keys ==> k in results && results[k] == BatchSettle(w, scope, maxEntries, start, keys, k, now)
  }

  lemma BatchEnd(w: World, scope: Scope, maxEntries: Option<nat>, start: Situation, here: Situation, keys: seq<Key>,
                 d: Desk, now: real, results: map<Key, Outcome>)
    requires TracksBatch(w, scope, maxEntries, start, here, keys, d, now, |w.sources|)
    requires results.Keys == Elems(keys) && Concluded(w.rules, d, here.force, results)
    ensures EachInBatch(w, scope, maxEntries, start, keys, results, now)
    ensures AfterWrite(here.store, StaleOf(w.rules, d, here.force, Unsettled(keys, d)), scope.cacheStale, maxEntries) ==
      BatchFinal(w, scope, maxEntries, start, keys, now)
  {
    hide BatchAt, BatchStore, Desk.At, Store.Valid, AfterWrite, StaleOf, BatchStales, Unsettled;
    forall k | k in keys ensures k in results && results[k] == BatchSettle(w, scope, maxEntries, start, keys, k, now) {
      assert k in results;
      assert BatchKey(w, scope, maxEntries, start, here, keys, d, now, |w.sources|, k);
    }
    StaleAmongUnsettled(w.rules, d, here.force, keys);
    BatchStalesThese(w, scope, maxEntries, start, here, keys, keys, d, now);
  }

  lemma NothingStale(r: Rules, desk: Desk, force: set<Key>)
    ensures StaleOf(r, desk, force, []) == []
  {
  }

  // ---- The pending keys of a request: what the call owns first, then the flight --------------------

  function OwnedPart(pending: seq<Key>, owned: set<Key>, due: set<Key>): (r: seq<Key>)
    ensures forall k :: k in r <==> k in pending && (k in owned || k in due)
    ensures NoDuplicates(pending) ==> NoDuplicates(r)
  {
    Filter(pending, k => k in owned || k in due)
  }

  function SharedPart(pending: seq<Key>, owned: set<Key>, due: set<Key>): (r: seq<Key>)
    ensures forall k :: k in r <==> k in pending && !(k in owned || k in due)
    ensures NoDuplicates(pending) ==> NoDuplicates(r)
  {
    Filter(pending, k => !(k in owned || k in due))
  }

  lemma NoParts(owned: set<Key>, due: set<Key>)
    ensures OwnedPart([], owned, due) == [] && SharedPart([], owned, due) == []
  {
  }

  /**
    What a pending key ends with: the keys owned directly form one batch, the others a second one over the cache the
    first leaves.
   */
  ghost function PendingSettle(w: World, scope: Scope, maxEntries: Option<nat>, owned: set<Key>, start: Situation,
                               pending: seq<Key>, k: Key, now: real): Outcome
    requires start.store.Valid()
  {
    var direct, shared := OwnedPart(pending, owned, start.force), SharedPart(pending, owned, start.force);
    if k in direct then BatchSettle(w, scope, maxEntries, start, direct, k, now)
    else BatchSettle(w, scope, maxEntries, start.(store := BatchFinal(w, scope, maxEntries, start, direct, now)),
                     shared, k, now)
  }

  ghost predicate EachPending(w: World, scope: Scope, maxEntries: Option<nat>, owned: set<Key>, start: Situation,
                              pending: seq<Key>, results: map<Key, Outcome>, now: real) {
    && start.store.Valid()
    && forall k :: k in pending ==>
         k in results && results[k] == PendingSettle(w, scope, maxEntries, owned, start, pending, k, now)
  }

  /** Two situations that a batch over these keys cannot tell apart. */
  ghost predicate SameFor(a: Situation, b: Situation, keys: seq<Key>) {
    && a.store == b.store
    && forall k :: k in keys ==> Lookup(a.memo, k) == Lookup(b.memo, k) && (k in a.force <==> k in b.force)
  }

  lemma {:induction false} OfferedSame(w: World, scope: Scope, a: Situation, b: Situation, keys: seq<Key>, i: nat)
    requires i < |w.sources| && forall k :: k in keys ==> Lookup(a.memo, k) == Lookup(b.memo, k)
    ensures OfferedAt(w, scope, a.memo, keys, i) == OfferedAt(w, scope, b.memo, keys, i)
  {
    hide FirstCurrent, VerdictOf;
    if keys != [] {
      var k := keys[|keys| - 1];
      OfferedSame(w, scope, a, b, keys[..|keys| - 1], i);
      assert Lookup(a.memo, k) == Lookup(b.memo, k);
    }
  }

  lemma {:induction false} BatchSame(w: World, scope: Scope, maxEntries: Option<nat>, a: Situation, b: Situation,
                                     keys: seq<Key>, now: real, i: nat)
    requires a.store.Valid() && SameFor(a, b, keys) && i <= |w.sources|
    ensures BatchStore(w, scope, maxEntries, a, keys, i) == BatchStore(w, scope, maxEntries, b, keys, i)
    ensures forall k :: k in keys ==>
      BatchAt(w, scope, maxEntries, a, keys, k, now, i) == BatchAt(w, scope, maxEntries, b, keys, k, now, i)
  {
    hide OfferedAt, AfterWrite, Advance, VerdictOf, Store.Valid, Lookup;
    if i > 0 {
      BatchSame(w, scope, maxEntries, a, b, keys, now, i - 1);
      OfferedSame(w, scope, a, b, keys, i - 1);
    }
  }

  lemma BatchSettleSame(w: World, scope: Scope, maxEntries: Option<nat>, a: Situation, b: Situation, keys: seq<Key>,
                        now: real, results: map<Key, Outcome>)
    requires a.store.Valid() && SameFor(a, b, keys) && EachInBatch(w, scope, maxEntries, a, keys, results, now)
    ensures EachInBatch(w, scope, maxEntries, b, keys, results, now)
  {
    hide BatchAt, BatchStore, Store.Valid, Lookup;
    BatchSame(w, scope, maxEntries, a, b, keys, now, |w.sources|);
  }

  lemma {:induction false} EmptyBatchStore(w: World, scope: Scope, maxEntries: Option<nat>, start: Situation, i: nat)
    requires start.store.Valid() && i <= |w.sources|
    ensures BatchStore(w, scope, maxEntries, start, [], i) == start.store
  {
    hide Store.Valid, Commit;
    if i > 0 { EmptyBatchStore(w, scope, maxEntries, start, i - 1); }
  }

  lemma EmptyBatch(w: World, scope: Scope, maxEntries: Option<nat>, start: Situation, now: real)
    requires start.store.Valid()
    ensures BatchFinal(w, scope, maxEntries, start, [], now) == start.store
    ensures EachInBatch(w, scope, maxEntries, start, [], map[], now)
  {
    hide Store.Valid, Commit, BatchStore;
    EmptyBatchStore(w, scope, maxEntries, start, |w.sources|);
  }

  /** The two batches of a request together. */
  lemma PendingTogether(w: World, scope: Scope, maxEntries: Option<nat>, owned: set<Key>, start: Situation,
                        mid: Situation, pending: seq<Key>,
                        first: map<Key, Outcome>, second: map<Key, Outcome>, now: real)
    requires start.store.Valid()
    requires var direct := OwnedPart(pending, owned, start.force);
      && EachInBatch(w, scope, maxEntries, start, direct, first, now) && first.Keys == Elems(direct)
      && mid.store == BatchFinal(w, scope, maxEntries, start, direct, now) && Aloof(direct, start, mid)
    requires var shared := SharedPart(pending, owned, start.force);
      EachInBatch(w, scope, maxEntries, mid, shared, second, now) && second.Keys == Elems(shared)
    ensures EachPending(w, scope, maxEntries, owned, start, pending, first + second, now)
  {
    hide BatchSettle, BatchFinal, Store.Valid, Lookup, OwnedPart, SharedPart, NoDuplicates;
    var direct, shared := OwnedPart(pending, owned, start.force), SharedPart(pending, owned, start.force);
    var next := start.(store := BatchFinal(w, scope, maxEntries, start, direct, now));
    assert SameFor(mid, next, shared);
    BatchSettleSame(w, scope, maxEntries, mid, next, shared, now, second);
  }

  lemma {:induction false} StalesSame(w: World, scope: Scope, maxEntries: Option<nat>, a: Situation, b: Situation,
                                      keys: seq<Key>, some: seq<Key>, now: real)
    requires a.store.Valid() && SameFor(a, b, keys) && forall k :: k in some ==> k in keys
    ensures BatchStales(w, scope, maxEntries, a, keys, some, now) ==
      BatchStales(w, scope, maxEntries, b, keys, some, now)
  {
    hide BatchAt, BatchStore, Store.Valid, Lookup;
    if some != [] {
      var k := some[|some| - 1];
      assert k in some;
      StalesSame(w, scope, maxEntries, a, b, keys, some[..|some| - 1], now);
      BatchSame(w, scope, maxEntries, a, b, keys, now, |w.sources|);
    }
  }

  lemma BatchFinalSame(w: World, scope: Scope, maxEntries: Option<nat>, a: Situation, b: Situation, keys: seq<Key>,
                       now: real)
    requires a.store.Valid() && SameFor(a, b, keys)
    ensures BatchFinal(w, scope, maxEntries, a, keys, now) == BatchFinal(w, scope, maxEntries, b, keys, now)
  {
    hide BatchAt, BatchStore, BatchStales, AfterWrite, Store.Valid, Lookup, SameFor;
    BatchSame(w, scope, maxEntries, a, b, keys, now, |w.sources|);
    StalesSame(w, scope, maxEntries, a, b, keys, keys, now);
  }

  /** A request's pending keys end alike in situations it cannot tell apart. */
  lemma PendingSame(w: World, scope: Scope, maxEntries: Option<nat>, owned: set<Key>, a: Situation, b: Situation,
                    pending: seq<Key>, k: Key, now: real)
    requires a.store.Valid() && SameFor(a, b, pending) && a.force == b.force && k in pending
    ensures PendingSettle(w, scope, maxEntries, owned, a, pending, k, now) ==
      PendingSettle(w, scope, maxEntries, owned, b, pending, k, now)
  {
    hide BatchAt, BatchStore, BatchFinal, Store.Valid, Lookup, OwnedPart, SharedPart, NoDuplicates;
    var direct, shared := OwnedPart(pending, owned, a.force), SharedPart(pending, owned, a.force);
    assert SameFor(a, b, direct);
    BatchFinalSame(w, scope, maxEntries, a, b, direct, now);
    if k in direct {
      BatchSame(w, scope, maxEntries, a, b, direct, now, |w.sources|);
    } else {
      var a' := a.(store := BatchFinal(w, scope, maxEntries, a, direct, now));
      var b' := b.(store := BatchFinal(w, scope, maxEntries, b, direct, now));
      assert SameFor(a', b', shared);
      BatchSame(w, scope, maxEntries, a', b', shared, now, |w.sources|);
    }
  }

  // ---- When a batch leads a key where it would go alone ---------------------------------------------

  lemma {:induction false} OfferedKeys(w: World, scope: Scope, memo: Entries, keys: seq<Key>, i: nat)
    requires i < |w.sources|
    ensures var vs := OfferedAt(w, scope, memo, keys, i);
            && (forall v :: v in vs ==>
                  v.key in keys && v.key !in memo && FirstCurrent(w, v.key, scope.ExcludedFor(v.key), |w.sources|, i))
            && (forall v :: v in vs ==> VerdictOf(w, w.sources[i], v.key, scope.ExcludedFor(v.key)) == Current(v))
            && (forall k :: k in keys && k !in memo && FirstCurrent(w, k, scope.ExcludedFor(k), |w.sources|, i) ==>
                  VerdictOf(w, w.sources[i], k, scope.ExcludedFor(k)).value in vs)
            && (NoDuplicates(keys) ==> NoDuplicates(KeysOf(vs)))
  {
    hide VerdictBy, NoDuplicates;
    if keys == [] {
      NoKeys();
    } else {
      var n := |keys| - 1;
      OfferedKeys(w, scope, memo, keys[..n], i);
      VerdictNames(w, w.sources[i], keys[n], scope.ExcludedFor(keys[n]));
      if NoDuplicates(keys) {
        FrontDistinct(keys);
        assert OfferedAt(w, scope, memo, keys[..n], i) + [] == OfferedAt(w, scope, memo, keys[..n], i);
        KeysAppended(OfferedAt(w, scope, memo, keys[..n], i),
                     VerdictOf(w, w.sources[i], keys[n], scope.ExcludedFor(keys[n])));
      }
    }
  }

  lemma VerdictNames(w: World, s: Source, k: Key, excluded: set<string>)
    ensures var verdict := VerdictOf(w, s, k, excluded);
      verdict.Current? || verdict.Aged? ==> verdict.value.key == k && !verdict.value.fromCache
  {
  }

  /** The values are offered in the order of their keys. */
  lemma {:induction false} OfferedInOrder(w: World, scope: Scope, memo: Entries, keys: seq<Key>, i: nat, a: nat, b: nat)
    returns (x: nat, y: nat)
    requires i < |w.sources| && a < b < |OfferedAt(w, scope, memo, keys, i)|
    ensures x < y < |keys|
    ensures keys[x] == OfferedAt(w, scope, memo, keys, i)[a].key && keys[y] == OfferedAt(w, scope, memo, keys, i)[b].key
  {
    hide VerdictOf;
    var n := |keys| - 1;
    var front := OfferedAt(w, scope, memo, keys[..n], i);
    VerdictNames(w, w.sources[i], keys[n], scope.ExcludedFor(keys[n]));
    if b < |front| {
      x, y := OfferedInOrder(w, scope, memo, keys[..n], i, a, b);
    } else {
      OfferedKeys(w, scope, memo, keys[..n], i);
      assert front[a] in front;
      x :| 0 <= x < n && keys[..n][x] == front[a].key;
      y := n;
    }
  }

  lemma NoKeys()
    ensures NoDuplicates(KeysOf([]))
  {
  }

  lemma FrontDistinct(keys: seq<Key>)
    requires NoDuplicates(keys) && keys != []
    ensures NoDuplicates(keys[..|keys| - 1]) && keys[|keys| - 1] !in keys[..|keys| - 1]
  {
  }

  lemma KeysAppended(vs: seq<Value>, verdict: Verdict)
    requires NoDuplicates(KeysOf(vs)) && (verdict.Current? ==> forall v :: v in vs ==> v.key != verdict.value.key)
    ensures verdict.Current? ==> NoDuplicates(KeysOf(vs + [verdict.value]))
  {
    if verdict.Current? {
      var v := verdict.value;
      assert KeysOf(vs + [v]) == KeysOf(vs) + [v.key];
      forall i | 0 <= i < |vs| ensures KeysOf(vs)[i] != v.key { assert vs[i] in vs; }
    }
  }

  /** The key is not among the values offered by the first `i` sources. */
  ghost predicate Silent(w: World, scope: Scope, memo: Entries, keys: seq<Key>, k: Key, i: nat)
    requires i <= |w.sources|
  {
    forall j :: 0 <= j < i ==> k !in KeysOf(OfferedAt(w, scope, memo, keys, j))
  }

  lemma SilentBefore(w: World, scope: Scope, memo: Entries, keys: seq<Key>, k: Key, i: nat)
    requires i <= |w.sources|
    requires k !in keys || forall j :: 0 <= j < i ==> !VerdictOf(w, w.sources[j], k, scope.ExcludedFor(k)).Current?
    ensures Silent(w, scope, memo, keys, k, i)
  {
    hide VerdictOf, OfferedAt;
    forall j | 0 <= j < i ensures k !in KeysOf(OfferedAt(w, scope, memo, keys, j)) {
      OfferedKeys(w, scope, memo, keys, j);
      var vs := OfferedAt(w, scope, memo, keys, j);
      forall n | 0 <= n < |vs| ensures KeysOf(vs)[n] != k { assert vs[n] in vs; }
    }
  }

  /** Until its turn comes, the entry of a key is what it was at the beginning, or has been pushed out. */
  lemma {:induction false} EntryUntilTurn(w: World, scope: Scope, maxEntries: Option<nat>, start: Situation,
                                          keys: seq<Key>, k: Key, i: nat)
    requires start.store.Valid() && i <= |w.sources| && Silent(w, scope, start.memo, keys, k, i)
    ensures var entries := BatchStore(w, scope, maxEntries, start, keys, i).entries;
            Lookup(entries, k) == Lookup(start.store.entries, k) || k !in entries
  {
    hide AfterWrite, OfferedAt, Store.Valid, KeysOf;
    if i > 0 {
      EntryUntilTurn(w, scope, maxEntries, start, keys, k, i - 1);
      WriteLeaves(BatchStore(w, scope, maxEntries, start, keys, i - 1), OfferedAt(w, scope, start.memo, keys, i - 1),
                  scope.cacheSource, maxEntries, k);
    }
  }

  /** The key's entry and every key that may become newer than it fit into the cache together. */
  ghost predicate Sheltered(maxEntries: Option<nat>, store: Store, keys: set<Key>, k: Key) {
    maxEntries.Some? ==> |NewerThan(store.order, k) + (keys - {k})| < maxEntries.value
  }

  /** All of these may become newer than the key without pushing it out. */
  ghost predicate Fits(maxEntries: Option<nat>, order: seq<Key>, k: Key, newer: set<Key>) {
    maxEntries.Some? ==> NewerThan(order, k) <= newer && |newer| < maxEntries.value
  }

  lemma {:induction false} StaysUntilTurn(w: World, scope: Scope, maxEntries: Option<nat>, start: Situation,
                                          keys: seq<Key>, k: Key, i: nat, newer: set<Key>)
    requires start.store.Valid() && NoDuplicates(keys) && i <= |w.sources| && Silent(w, scope, start.memo, keys, k, i)
    requires k in start.store.entries && Fits(maxEntries, start.store.order, k, newer) && Elems(keys) - {k} <= newer
    ensures var store := BatchStore(w, scope, maxEntries, start, keys, i);
            Lookup(store.entries, k) == Lookup(start.store.entries, k) && Fits(maxEntries, store.order, k, newer)
  {
    hide AfterWrite, OfferedAt, Store.Valid, KeysOf, NewerThan, NoDuplicates, FirstCurrent, VerdictOf;
    if i > 0 {
      StaysUntilTurn(w, scope, maxEntries, start, keys, k, i - 1, newer);
      var vs := OfferedAt(w, scope, start.memo, keys, i - 1);
      OfferedKeys(w, scope, start.memo, keys, i - 1);
      OnlyOthers(vs, keys, k, newer);
      if scope.cacheSource {
        ShelteredWrite(BatchStore(w, scope, maxEntries, start, keys, i - 1), vs, true, maxEntries, k, newer);
      } else {
        NothingWritten(BatchStore(w, scope, maxEntries, start, keys, i - 1), vs, maxEntries);
      }
    }
  }

  lemma NothingWritten(store: Store, vs: seq<Value>, maxEntries: Option<nat>)
    requires store.Valid()
    ensures AfterWrite(store, vs, false, maxEntries) == store
  {
  }

  lemma OnlyOthers(vs: seq<Value>, keys: seq<Key>, k: Key, newer: set<Key>)
    requires (forall v :: v in vs ==> v.key in keys) && k !in KeysOf(vs) && Elems(keys) - {k} <= newer
    ensures Elems(KeysOf(vs)) <= newer
  {
    forall x | x in KeysOf(vs) ensures x in newer {
      var n :| 0 <= n < |vs| && KeysOf(vs)[n] == x;
      assert vs[n] in vs;
    }
  }

  /**
    The first source with a fresh value decides, by that value and the entry the cache has for the key at that moment.
   */
  lemma {:induction false} BatchTurn(w: World, scope: Scope, maxEntries: Option<nat>, start: Situation, keys: seq<Key>,
                                     k: Key, now: real, i: nat, n: nat)
    requires start.store.Valid() && i < n <= |w.sources| && k !in start.memo
    requires FirstCurrent(w, k, scope.ExcludedFor(k), |w.sources|, i)
    ensures BatchAt(w, scope, maxEntries, start, keys, k, now, n) ==
      Settled(Superseded(Lookup(BatchStore(w, scope, maxEntries, start, keys, i).entries, k),
                         VerdictOf(w, w.sources[i], k, scope.ExcludedFor(k)).value, scope.cacheSource, now))
  {
    hide VerdictOf, Superseded, BatchStore, Store.Valid;
    if n > i + 1 {
      BatchTurn(w, scope, maxEntries, start, keys, k, now, i, n - 1);
    } else {
      BatchOpen(w, scope, maxEntries, start, keys, k, now, i);
    }
  }

  /** A key that is pinned, or that no source has fresh, does not depend on the cache. */
  lemma {:induction false} BatchUndecided(w: World, scope: Scope, maxEntries: Option<nat>, start: Situation,
                                          keys: seq<Key>, k: Key, now: real, stored: Option<Value>, n: nat)
    requires start.store.Valid() && n <= |w.sources|
    requires k in start.memo || forall i :: 0 <= i < n ==> !VerdictOf(w, w.sources[i], k, scope.ExcludedFor(k)).Current?
    ensures BatchAt(w, scope, maxEntries, start, keys, k, now, n) ==
      Chain(w, k, scope.ExcludedFor(k), Lookup(start.memo, k), stored, scope.cacheSource, now, n)
  {
    hide VerdictOf, Superseded, BetterStale, BatchStore, Store.Valid;
    if n > 0 { BatchUndecided(w, scope, maxEntries, start, keys, k, now, stored, n - 1); }
  }

  /** Source `i` is the first to have a fresh value for the key, and the value that was cached for it outranks that. */
  ghost predicate Outranked(w: World, scope: Scope, start: Situation, k: Key, i: int) {
    && scope.cacheSource && k !in start.memo && FirstCurrent(w, k, scope.ExcludedFor(k), |w.sources|, i)
    && k in start.store.entries && VerdictOf(w, w.sources[i], k,
                                             scope.ExcludedFor(k)).value.rank < start.store.entries[k].rank
  }

  /** The key has an outranking entry, and the rest of the batch has pushed it out when the key's turn comes. */
  ghost predicate Ousted(w: World, scope: Scope, maxEntries: Option<nat>, start: Situation, keys: seq<Key>, k: Key)
    requires start.store.Valid()
  {
    exists i :: Outranked(w, scope, start, k, i) && k !in BatchStore(w, scope, maxEntries, start, keys, i).entries
  }

  /**
    The exact law: in a batch a key ends as it would alone unless its outranking entry is pushed out before its turn.
   */
  lemma BatchAloneExactly(w: World, scope: Scope, maxEntries: Option<nat>, start: Situation, keys: seq<Key>, k: Key,
                          now: real)
    requires start.store.Valid()
    ensures BatchSettle(w, scope, maxEntries, start, keys, k, now) == SettleAt(w, scope, start, k, now) <==>
      !Ousted(w, scope, maxEntries, start, keys, k)
  {
    hide VerdictOf, BatchAt, BatchStore, Chain, Store.Valid, Superseded;
    var n, excluded, stored := |w.sources|, scope.ExcludedFor(k), Lookup(start.store.entries, k);
    if k !in start.memo && exists i :: FirstCurrent(w, k, excluded, n, i) {
      var i :| FirstCurrent(w, k, excluded, n, i);
      BatchTurn(w, scope, maxEntries, start, keys, k, now, i, n);
      PriorityLaw(w, k, excluded, stored, scope.cacheSource, k in start.force, now);
      SilentBefore(w, scope, start.memo, keys, k, i);
      EntryUntilTurn(w, scope, maxEntries, start, keys, k, i);
      SupersededDiffers(w, scope, w.sources[i], k, stored,
                        Lookup(BatchStore(w, scope, maxEntries, start, keys, i).entries, k), now);
      OnlyTurn(w, scope, start, k, i);
    } else {
      if k !in start.memo { NeverFirst(w, k, excluded, n); }
      BatchUndecided(w, scope, maxEntries, start, keys, k, now, stored, n);
    }
  }

  lemma OnlyTurn(w: World, scope: Scope, start: Situation, k: Key, i: nat)
    requires FirstCurrent(w, k, scope.ExcludedFor(k), |w.sources|, i)
    ensures forall j :: Outranked(w, scope, start, k, j) ==> j == i
  {
  }

  lemma {:induction false} NeverFirst(w: World, k: Key, excluded: set<string>, n: nat)
    requires n <= |w.sources| && forall i :: !FirstCurrent(w, k, excluded, |w.sources|, i)
    ensures forall i :: 0 <= i < n ==> !VerdictOf(w, w.sources[i], k, excluded).Current?
  {
    hide VerdictOf;
    if n > 0 {
      NeverFirst(w, k, excluded, n - 1);
      assert !FirstCurrent(w, k, excluded, |w.sources|, n - 1);
    }
  }

  /** Losing its entry changes what a fresh value yields to exactly when the entry outranks it. */
  lemma SupersededDiffers(w: World, scope: Scope, s: Source, k: Key, stored: Option<Value>, later: Option<Value>,
                          now: real)
    requires VerdictOf(w, s, k, scope.ExcludedFor(k)).Current? && (later == stored || later.None?)
    ensures var v := VerdictOf(w, s, k, scope.ExcludedFor(k)).value;
            Superseded(later, v, scope.cacheSource, now) != Superseded(stored, v, scope.cacheSource, now) <==>
              scope.cacheSource && stored.Some? && v.rank < stored.value.rank && later.None?
  {
    hide VerdictOf;
    VerdictNames(w, s, k, scope.ExcludedFor(k));
  }

  /** A condition on the beginning that suffices: the entry and what may become newer than it fit together. */
  lemma ShelteredIsNotOusted(w: World, scope: Scope, maxEntries: Option<nat>, start: Situation, keys: seq<Key>, k: Key)
    requires start.store.Valid() && NoDuplicates(keys)
    requires (k in start.store.entries && scope.cacheSource ==> Sheltered(maxEntries, start.store, Elems(keys), k))
    ensures !Ousted(w, scope, maxEntries, start, keys, k)
  {
    hide VerdictOf, BatchStore, Store.Valid, NewerThan, NoDuplicates, Silent;
    forall i | Outranked(w, scope, start, k, i) ensures k in BatchStore(w, scope, maxEntries, start, keys, i).entries {
      SilentBefore(w, scope, start.memo, keys, k, i);
      StaysUntilTurn(w, scope, maxEntries, start, keys, k, i, NewerThan(start.store.order, k) + (Elems(keys) - {k}));
    }
  }

  lemma RoomyIsSheltered(maxEntries: Option<nat>, store: Store, keys: set<Key>, k: Key)
    requires store.Valid() && k in store.entries && Roomy(maxEntries, store.entries, keys)
    ensures Sheltered(maxEntries, store, keys, k)
  {
    if maxEntries.Some? {
      NewerAreOthers(store.order, k);
      var all, newer := store.entries.Keys + keys, NewerThan(store.order, k) + (keys - {k});
      SubsetCardinality(newer, all - {k});
    }
  }

  /** A batch that fits into the cache leads every key where it would go alone. */
  lemma SteadyIsAlone(w: World, scope: Scope, maxEntries: Option<nat>, start: Situation, keys: seq<Key>,
                      results: map<Key, Outcome>, now: real)
    requires EachInBatch(w, scope, maxEntries, start, keys, results, now) && NoDuplicates(keys)
    requires Steady(scope, maxEntries, start.store.entries, Elems(keys))
    ensures EachAlone(w, scope, start, keys, results, now)
  {
    hide BatchSettle, SettleAt, Ousted, Store.Valid, NoDuplicates, Sheltered, Roomy;
    forall k | k in keys ensures k in results && results[k] == SettleAt(w, scope, start, k, now) {
      if k in start.store.entries && scope.cacheSource { RoomyIsSheltered(maxEntries, start.store, Elems(keys), k); }
      ShelteredIsNotOusted(w, scope, maxEntries, start, keys, k);
      BatchAloneExactly(w, scope, maxEntries, start, keys, k, now);
    }
  }

  /** The entry of a key after `i` sources of a batch that fits: what its own chain has made of it. */
  ghost predicate StoredAsAlone(w: World, scope: Scope, start: Situation, keys: seq<Key>, now: real, i: nat,
                                entries: Entries, k: Key)
    requires i <= |w.sources|
  {
    Lookup(entries, k) ==
      if k in keys then StoredSoFar(ChainAt(w, scope, start, k, now, i), Lookup(start.memo, k),
                                    Lookup(start.store.entries, k), scope.cacheSource)
      else Lookup(start.store.entries, k)
  }

  lemma {:induction false} SteadyBatch(w: World, scope: Scope, maxEntries: Option<nat>, start: Situation,
                                       keys: seq<Key>, now: real, i: nat)
    requires start.store.Valid() && NoDuplicates(keys) && i <= |w.sources|
    requires Steady(scope, maxEntries, start.store.entries, Elems(keys))
    ensures var entries := BatchStore(w, scope, maxEntries, start, keys, i).entries;
            && Steady(scope, maxEntries, entries, Elems(keys))
            && (Roomy(maxEntries, start.store.entries, Elems(keys)) ==> Roomy(maxEntries, entries, Elems(keys)))
            && forall k :: StoredAsAlone(w, scope, start, keys, now, i, entries, k)
    ensures forall k :: k in keys ==>
      BatchAt(w, scope, maxEntries, start, keys, k, now, i) == ChainAt(w, scope, start, k, now, i)
  {
    hide AfterWrite, OfferedAt, Store.Valid, NoDuplicates, Roomy, VerdictOf, Advance, StoredSoFar;
    if i == 0 {
      forall k ensures StoredAsAlone(w, scope, start, keys, now, 0, start.store.entries, k) {
        OpenKeepsStored(Open([], None), None, Lookup(start.store.entries, k), scope.cacheSource);
        StoredWhileOpen(start, scope, k);
      }
    } else {
      SteadyBatch(w, scope, maxEntries, start, keys, now, i - 1);
      var base := BatchStore(w, scope, maxEntries, start, keys, i - 1);
      var vs := OfferedAt(w, scope, start.memo, keys, i - 1);
      OfferedKeys(w, scope, start.memo, keys, i - 1);
      var any: Key :| true;
      SteadyWrite(base, vs, scope.cacheSource, maxEntries, Elems(keys), any);
      forall k ensures StoredAsAlone(w, scope, start, keys, now, i,
                                     AfterWrite(base, vs, scope.cacheSource, maxEntries).entries, k) {
        assert StoredAsAlone(w, scope, start, keys, now, i - 1, base.entries, k);
        SteadyBatchStep(w, scope, maxEntries, start, keys, k, now, i - 1);
      }
      forall k | k in keys
        ensures BatchAt(w, scope, maxEntries, start, keys, k, now, i) == ChainAt(w, scope, start, k, now, i)
      {
        assert StoredAsAlone(w, scope, start, keys, now, i - 1, base.entries, k);
        AdvanceAlike(w.rules, ChainAt(w, scope, start, k, now, i - 1), Lookup(start.memo, k),
                     VerdictOf(w, w.sources[i - 1], k, scope.ExcludedFor(k)),
                     Lookup(start.store.entries, k), scope.cacheSource, now);
      }
    }
  }

  lemma StoredWhileOpen(start: Situation, scope: Scope, k: Key)
    ensures StoredSoFar(Open([], None), Lookup(start.memo, k), Lookup(start.store.entries, k), scope.cacheSource) ==
      Lookup(start.store.entries, k)
  {
  }

  lemma AdvanceAlike(r: Rules, st: Standing, pinned: Option<Value>, verdict: Verdict, stored: Option<Value>,
                     writes: bool, now: real)
    ensures Advance(r, PickUp(st, pinned), verdict, StoredSoFar(st, pinned, stored, writes), writes, now) ==
      Advance(r, PickUp(st, pinned), verdict, stored, writes, now)
  {
  }

  lemma SteadyBatchStep(w: World, scope: Scope, maxEntries: Option<nat>, start: Situation, keys: seq<Key>, k: Key,
                        now: real, i: nat)
    requires start.store.Valid() && NoDuplicates(keys) && i < |w.sources|
    requires var base := BatchStore(w, scope, maxEntries, start, keys, i);
      && Steady(scope, maxEntries, base.entries, Elems(keys))
      && StoredAsAlone(w, scope, start, keys, now, i, base.entries, k)
      && (k in keys ==> BatchAt(w, scope, maxEntries, start, keys, k, now, i) == ChainAt(w, scope, start, k, now, i))
    ensures StoredAsAlone(w, scope, start, keys, now, i + 1,
                          BatchStore(w, scope, maxEntries, start, keys, i + 1).entries, k)
  {
    hide AfterWrite, OfferedAt, Store.Valid, NoDuplicates, Roomy, VerdictOf, StoredSoFar, BatchAt, Offer, Advance;
    var base, vs := BatchStore(w, scope, maxEntries, start, keys, i), OfferedAt(w, scope, start.memo, keys, i);
    var verdict := VerdictOf(w, w.sources[i], k, scope.ExcludedFor(k));
    OfferedKeys(w, scope, start.memo, keys, i);
    OfferedMember(w, scope, start.memo, keys, i, k);
    SteadyWrite(base, vs, scope.cacheSource, maxEntries, Elems(keys), k);
    if k in keys {
      var st, pinned, stored := ChainAt(w, scope, start, k, now, i), Lookup(start.memo,
                                                                            k), Lookup(start.store.entries, k);
      VerdictNames(w, w.sources[i], k, scope.ExcludedFor(k));
      StoredStep(w.rules, st, pinned, verdict, stored, scope.cacheSource, now);
      OpenKeepsStored(st, pinned, stored, scope.cacheSource);
      BatchOpen(w, scope, maxEntries, start, keys, k, now, i);
    }
  }

  lemma OfferedMember(w: World, scope: Scope, memo: Entries, keys: seq<Key>, i: nat, k: Key)
    requires i < |w.sources|
    ensures var vs := OfferedAt(w, scope, memo, keys, i);
            && (k in KeysOf(vs) <==>
                  k in keys && k !in memo && FirstCurrent(w, k, scope.ExcludedFor(k), |w.sources|, i))
            && (k in KeysOf(vs) ==>
                  && VerdictOf(w, w.sources[i], k, scope.ExcludedFor(k)).value in vs
                  && VerdictOf(w, w.sources[i], k, scope.ExcludedFor(k)).value.key == k)
  {
    hide VerdictOf, OfferedAt, NoDuplicates;
    var vs := OfferedAt(w, scope, memo, keys, i);
    OfferedKeys(w, scope, memo, keys, i);
    VerdictNames(w, w.sources[i], k, scope.ExcludedFor(k));
    KeyListed(vs, k);
  }

  lemma KeyListed(vs: seq<Value>, k: Key)
    ensures k in KeysOf(vs) <==> exists v :: v in vs && v.key == k
  {
    if k in KeysOf(vs) {
      var n :| 0 <= n < |vs| && KeysOf(vs)[n] == k;
      assert vs[n] in vs;
    }
    if v :| v in vs && v.key == k {
      var n :| 0 <= n < |vs| && vs[n] == v;
      assert KeysOf(vs)[n] == k;
    }
  }

  /** A batch that fits leaves in the cache, too, what its keys would leave alone. */
  lemma SpaciousStoresAlone(w: World, scope: Scope, maxEntries: Option<nat>, start: Situation, keys: seq<Key>,
                            now: real)
    requires start.store.Valid() && NoDuplicates(keys) && Spacious(scope, maxEntries, start.store.entries, Elems(keys))
    ensures EachStoredAlone(w, scope, start, keys, BatchFinal(w, scope, maxEntries, start, keys, now).entries, now)
  {
    hide AfterWrite, BatchStore, BatchStales, BatchAt, Chain, Store.Valid, NoDuplicates, Roomy, StoredSoFar, KeysOf,
         Offer;
    var base := BatchStore(w, scope, maxEntries, start, keys, |w.sources|);
    var vs := BatchStales(w, scope, maxEntries, start, keys, keys, now);
    SteadyBatch(w, scope, maxEntries, start, keys, now, |w.sources|);
    StaleKeysIn(w, scope, maxEntries, start, keys, keys, now);
    forall k ensures Lookup(BatchFinal(w, scope, maxEntries, start, keys, now).entries, k) ==
      if k in keys then StoredAt(w, scope, start, k, now) else Lookup(start.store.entries, k)
    {
      assert StoredAsAlone(w, scope, start, keys, now, |w.sources|, base.entries, k);
      SteadyWrite(base, vs, scope.cacheStale, maxEntries, Elems(keys), k);
      KeyListed(vs, k);
      if k in keys {
        StoredOpenLast(w, scope, start, k, now);
        BestNames(w, scope, maxEntries, start, keys, k, now, |w.sources|);
      }
    }
  }

  /** An open key's entry is still the one it began with. */
  lemma StoredOpenLast(w: World, scope: Scope, start: Situation, k: Key, now: real)
    ensures var st, stored := ChainAt(w, scope, start, k, now, |w.sources|), Lookup(start.store.entries, k);
            st.Open? ==> StoredSoFar(st, Lookup(start.memo, k), stored, scope.cacheSource) == stored
  {
  }

  // ---- The two batches of a request ------------------------------------------------------------------

  /** The situation in which the second batch begins. */
  ghost function Midway(w: World, scope: Scope, maxEntries: Option<nat>, owned: set<Key>, start: Situation,
                        pending: seq<Key>, now: real): (r: Situation)
    requires start.store.Valid()
    ensures r.store.Valid() && r.memo == start.memo && r.force == start.force
  {
    start.(store := BatchFinal(w, scope, maxEntries, start, OwnedPart(pending, owned, start.force), now))
  }

  /** The shared cache when the turn of a pending key comes. */
  ghost function TurnStore(w: World, scope: Scope, maxEntries: Option<nat>, owned: set<Key>, start: Situation,
                           pending: seq<Key>, k: Key, now: real, i: nat): Store
    requires start.store.Valid() && i <= |w.sources|
  {
    var direct, shared := OwnedPart(pending, owned, start.force), SharedPart(pending, owned, start.force);
    if k in direct then BatchStore(w, scope, maxEntries, start, direct, i)
    else BatchStore(w, scope, maxEntries, Midway(w, scope, maxEntries, owned, start, pending, now), shared, i)
  }

  /** The pending key has an outranking entry that is pushed out before its turn. */
  ghost predicate PendingOusted(w: World, scope: Scope, maxEntries: Option<nat>, owned: set<Key>, start: Situation,
                                pending: seq<Key>, k: Key, now: real)
    requires start.store.Valid()
  {
    exists i :: Outranked(w, scope, start, k, i) && k !in TurnStore(w, scope, maxEntries, owned, start, pending, k, now,
                                                                    i).entries
  }

  lemma {:induction false} BestNames(w: World, scope: Scope, maxEntries: Option<nat>, start: Situation, keys: seq<Key>,
                                     k: Key, now: real, i: nat)
    requires start.store.Valid() && i <= |w.sources|
    ensures var st := BatchAt(w, scope, maxEntries, start, keys, k, now, i);
      st.Open? && st.best.Some? ==> st.best.value.key == k
  {
    hide VerdictOf, BatchStore, Superseded, Store.Valid;
    if i > 0 {
      BestNames(w, scope, maxEntries, start, keys, k, now, i - 1);
      VerdictNames(w, w.sources[i - 1], k, scope.ExcludedFor(k));
    }
  }

  /** The stale values of a batch: at most one for each open key. */
  lemma {:induction false} StaleKeysIn(w: World, scope: Scope, maxEntries: Option<nat>, start: Situation,
                                       keys: seq<Key>, some: seq<Key>, now: real)
    requires start.store.Valid()
    ensures var vs := BatchStales(w, scope, maxEntries, start, keys, some, now);
            && (forall v :: v in vs ==> v.key in some && BatchAt(w, scope, maxEntries, start, keys, v.key, now,
                                                                 |w.sources|).Open?)
            && (forall v :: v in vs ==> BatchSettle(w, scope, maxEntries, start, keys, v.key, now) == Got(v))
            && (forall k :: k in some && BatchAt(w, scope, maxEntries, start, keys, k, now, |w.sources|).Open? &&
                            BatchSettle(w, scope, maxEntries, start, keys, k, now).Got? ==>
                  BatchSettle(w, scope, maxEntries, start, keys, k, now).value in vs)
            && (NoDuplicates(some) ==> NoDuplicates(KeysOf(vs)))
  {
    hide BatchAt, NoDuplicates, Store.Valid;
    if some == [] {
      NoKeys();
    } else {
      var n := |some| - 1;
      var front := BatchStales(w, scope, maxEntries, start, keys, some[..n], now);
      var st := BatchAt(w, scope, maxEntries, start, keys, some[n], now, |w.sources|);
      StaleKeysIn(w, scope, maxEntries, start, keys, some[..n], now);
      BestNames(w, scope, maxEntries, start, keys, some[n], now, |w.sources|);
      assert front + [] == front;
      if NoDuplicates(some) {
        FrontDistinct(some);
        var outcome := BatchSettle(w, scope, maxEntries, start, keys, some[n], now);
        KeysAppended(front, if st.Open? && outcome.Got? then Current(outcome.value) else Passed);
      }
    }
  }

  lemma NoneStale(w: World, scope: Scope, maxEntries: Option<nat>, start: Situation, keys: seq<Key>, k: Key, now: real)
    requires start.store.Valid() && k !in keys
    ensures k !in KeysOf(BatchStales(w, scope, maxEntries, start, keys, keys, now))
  {
    hide BatchSettle, BatchAt, BatchStales, Store.Valid, NoDuplicates;
    var vs := BatchStales(w, scope, maxEntries, start, keys, keys, now);
    StaleKeysIn(w, scope, maxEntries, start, keys, keys, now);
    forall n | 0 <= n < |vs| ensures KeysOf(vs)[n] != k { assert vs[n] in vs; }
  }

  /** The first batch leaves the entry of a key of the second as it is, or pushes it out. */
  lemma EntryMidway(w: World, scope: Scope, maxEntries: Option<nat>, start: Situation, keys: seq<Key>, k: Key,
                    now: real)
    requires start.store.Valid() && k !in keys
    ensures var entries := BatchFinal(w, scope, maxEntries, start, keys, now).entries;
            Lookup(entries, k) == Lookup(start.store.entries, k) || k !in entries
  {
    hide AfterWrite, BatchStore, BatchStales, Store.Valid, Silent, KeysOf;
    SilentBefore(w, scope, start.memo, keys, k, |w.sources|);
    EntryUntilTurn(w, scope, maxEntries, start, keys, k, |w.sources|);
    NoneStale(w, scope, maxEntries, start, keys, k, now);
    WriteLeaves(BatchStore(w, scope, maxEntries, start, keys, |w.sources|),
                BatchStales(w, scope, maxEntries, start, keys, keys, now), scope.cacheStale, maxEntries, k);
  }

  /** The entry of a pending key when its turn comes is the one at the beginning, or has been pushed out. */
  lemma EntryAtTurn(w: World, scope: Scope, maxEntries: Option<nat>, owned: set<Key>, start: Situation,
                    pending: seq<Key>, k: Key, now: real, i: nat)
    requires start.store.Valid() && FirstCurrent(w, k, scope.ExcludedFor(k), |w.sources|, i)
    ensures var entries := TurnStore(w, scope, maxEntries, owned, start, pending, k, now, i).entries;
            Lookup(entries, k) == Lookup(start.store.entries, k) || k !in entries
  {
    hide VerdictOf, BatchStore, BatchFinal, Store.Valid, Silent, OwnedPart, SharedPart, NoDuplicates;
    var direct, shared := OwnedPart(pending, owned, start.force), SharedPart(pending, owned, start.force);
    SilentBefore(w, scope, start.memo, direct, k, i);
    SilentBefore(w, scope, start.memo, shared, k, i);
    if k in direct {
      EntryUntilTurn(w, scope, maxEntries, start, direct, k, i);
    } else {
      EntryMidway(w, scope, maxEntries, start, direct, k, now);
      EntryUntilTurn(w, scope, maxEntries, Midway(w, scope, maxEntries, owned, start, pending, now), shared, k, i);
    }
  }

  /** The exact law for the pending keys of a request. */
  lemma PendingAloneExactly(w: World, scope: Scope, maxEntries: Option<nat>, owned: set<Key>, start: Situation,
                            pending: seq<Key>, k: Key, now: real)
    requires start.store.Valid()
    ensures var together, alone := PendingSettle(w, scope, maxEntries, owned, start, pending, k,
                                                 now), SettleAt(w, scope, start, k, now);
            && (together == alone <==> !PendingOusted(w, scope, maxEntries, owned, start, pending, k, now))
            && (together != alone ==> together.Got? && alone.Got?)
  {
    hide VerdictOf, BatchAt, BatchStore, BatchFinal, Chain, Store.Valid, Superseded, OwnedPart, SharedPart,
         NoDuplicates;
    var n, excluded, stored := |w.sources|, scope.ExcludedFor(k), Lookup(start.store.entries, k);
    var direct, shared := OwnedPart(pending, owned, start.force), SharedPart(pending, owned, start.force);
    var mid := Midway(w, scope, maxEntries, owned, start, pending, now);
    if k !in start.memo && exists i :: FirstCurrent(w, k, excluded, n, i) {
      var i :| FirstCurrent(w, k, excluded, n, i);
      BatchTurn(w, scope, maxEntries, start, direct, k, now, i, n);
      BatchTurn(w, scope, maxEntries, mid, shared, k, now, i, n);
      PriorityLaw(w, k, excluded, stored, scope.cacheSource, k in start.force, now);
      EntryAtTurn(w, scope, maxEntries, owned, start, pending, k, now, i);
      SupersededDiffers(w, scope, w.sources[i], k, stored,
                        Lookup(TurnStore(w, scope, maxEntries, owned, start, pending, k, now, i).entries, k), now);
      OnlyTurn(w, scope, start, k, i);
    } else {
      if k !in start.memo { NeverFirst(w, k, excluded, n); }
      BatchUndecided(w, scope, maxEntries, start, direct, k, now, stored, n);
      BatchUndecided(w, scope, maxEntries, mid, shared, k, now, stored, n);
    }
  }

  lemma ShelteredIsNotPendingOusted(w: World, scope: Scope, maxEntries: Option<nat>, owned: set<Key>, start: Situation,
                                    pending: seq<Key>, k: Key, now: real)
    requires start.store.Valid() && NoDuplicates(pending)
    requires k in start.store.entries && scope.cacheSource ==> Sheltered(maxEntries, start.store, Elems(pending), k)
    ensures !PendingOusted(w, scope, maxEntries, owned, start, pending, k, now)
  {
    hide VerdictOf, BatchStore, BatchFinal, Store.Valid, NewerThan, NoDuplicates, Silent, OwnedPart, SharedPart;
    var direct, shared := OwnedPart(pending, owned, start.force), SharedPart(pending, owned, start.force);
    var mid := Midway(w, scope, maxEntries, owned, start, pending, now);
    var newer := NewerThan(start.store.order, k) + (Elems(pending) - {k});
    forall i | Outranked(w, scope, start, k, i)
      ensures k in TurnStore(w, scope, maxEntries, owned, start, pending, k, now, i).entries
    {
      SilentBefore(w, scope, start.memo, direct, k, i);
      SilentBefore(w, scope, start.memo, shared, k, i);
      if k in direct {
        StaysUntilTurn(w, scope, maxEntries, start, direct, k, i, newer);
      } else {
        StaysMidway(w, scope, maxEntries, start, direct, k, now, newer);
        StaysUntilTurn(w, scope, maxEntries, mid, shared, k, i, newer);
      }
    }
  }

  lemma StaysMidway(w: World, scope: Scope, maxEntries: Option<nat>, start: Situation, keys: seq<Key>, k: Key,
                    now: real, newer: set<Key>)
    requires start.store.Valid() && NoDuplicates(keys) && k !in keys
    requires k in start.store.entries && Fits(maxEntries, start.store.order, k, newer) && Elems(keys) <= newer
    ensures var store := BatchFinal(w, scope, maxEntries, start, keys, now);
            Lookup(store.entries, k) == Lookup(start.store.entries, k) && Fits(maxEntries, store.order, k, newer)
  {
    hide AfterWrite, BatchStore, BatchStales, BatchSettle, BatchAt, Store.Valid, Silent, KeysOf, NewerThan,
         NoDuplicates;
    var base := BatchStore(w, scope, maxEntries, start, keys, |w.sources|);
    var vs := BatchStales(w, scope, maxEntries, start, keys, keys, now);
    SilentBefore(w, scope, start.memo, keys, k, |w.sources|);
    StaysUntilTurn(w, scope, maxEntries, start, keys, k, |w.sources|, newer);
    NoneStale(w, scope, maxEntries, start, keys, k, now);
    StaleKeysIn(w, scope, maxEntries, start, keys, keys, now);
    OnlyOthers(vs, keys, k, newer);
    if scope.cacheStale {
      ShelteredWrite(base, vs, true, maxEntries, k, newer);
    } else {
      NothingWritten(base, vs, maxEntries);
    }
  }
}
