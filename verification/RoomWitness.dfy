/**
  A run that separates a batch from its keys alone: a full cache, two sources and a cached value of higher authority.
 */
module RoomWitness {
  import opened Core
  import opened WriteOrder
  import opened MemoryCache
  import opened AsyncMemoryCache
  import opened CacheRuns
  import opened Sources
  import opened Resolution
  import opened RuntimeState
  import opened CacheOffers
  import opened Batches
  import opened Rounds
  import opened SourceLoop
  import opened Resolver

  const COVERED := Key("shop", "price", "a", [])
  const OTHER := Key("shop", "price", "b", [])

  /** The first source knows `OTHER` only, the second `COVERED` only; both rank lowest and nothing expires. */
  function Shop(p: Payload): World {
    World([Source("early", Direct), Source("late", Direct)],
          (s, k) => if (s == "early" && k == OTHER) || (s == "late" && k == COVERED) then Supported else Unsupported,
          (s, k) => Delivered(Delivery(p, None, 0.0, "new")),
          (s, k) => None,
          (s, k, values, n) => Declined(Raised("nothing is derived")),
          n => false,
          Rules(k => FreshnessPolicy(Infinite, Infinite, false, Blocking), (k, s) => 0, 0.0, false))
  }

  /** What the cache holds at the beginning. */
  function Archived(p: Payload): Value {
    Value(COVERED, p, "archive", 0.0, 0.0, false, false, 1, "old", [])
  }

  ghost predicate Archive(p: Payload, s: Store) {
    s.order == [COVERED] && s.entries == map[COVERED := Archived(p)]
  }

  const SCOPE := Scope(map[], true, true)

  lemma ArchiveValid(p: Payload, s: Store)
    requires Archive(p, s)
    ensures s.Valid()
  {
  }

  /** Writing the archived value into an empty cache of one entry. */
  lemma Archiving(p: Payload)
    ensures Archive(p, Commit(EMPTY_STORE, Select([Archived(p)]), false, false, Some(1)))
  {
    hide CommitKeys, Evict, Winner;
    var v := Archived(p);
    var c := Select([v]);
    SelectOne(v);
    assert KeysOf([v]) == [COVERED];
    DistinctFixpoint([COVERED]);
    hide Select;
    CommitNothing(EMPTY_STORE, c, false, false);
    CommitKeysStep(EMPTY_STORE, c, 0, false, false);
    CommitKeysValid(EMPTY_STORE, c, 1, false, false);
    EvictStep(CommitKeys(EMPTY_STORE, c, 1, false, false), Some(1));
  }

  /** The first source has a fresh value for `OTHER` and nothing for `COVERED`; the second the other way round. */
  lemma Verdicts(p: Payload)
    ensures var w := Shop(p);
            && VerdictOf(w, w.sources[0], COVERED, {}) == Passed
            && VerdictOf(w, w.sources[0], OTHER, {}) == Current(Value(OTHER, p, "early", 0.0, 0.0, false, false, 0,
                                                                      "new", []))
            && VerdictOf(w, w.sources[1], COVERED, {}) == Current(Value(COVERED, p, "late", 0.0, 0.0, false, false, 0,
                                                                        "new", []))
  {
  }

  /** In the batch the archived value has been pushed out when the second source answers. */
  lemma PushedOut(p: Payload, start: Situation)
    requires start.memo == map[] && start.force == {} && Archive(p, start.store)
    ensures start.store.Valid() && COVERED !in BatchStore(Shop(p), SCOPE, Some(1), start, [OTHER, COVERED], 1).entries
  {
    hide AfterWrite, OfferedAt, Written, KeysOf;
    ArchiveValid(p, start.store);
    FirstAnswers(p, start);
    var w, keys, v := Shop(p), [OTHER, COVERED], Value(OTHER, p, "early", 0.0, 0.0, false, false, 0, "new", []);
    assert BatchStore(w, SCOPE, Some(1), start, keys, 0) == start.store;
    assert BatchStore(w, SCOPE, Some(1), start, keys, 1) == AfterWrite(start.store, [v], true, Some(1));
    OneWritten(start.store.entries, v);
    PushedOutExactly(start.store, [v], 1, COVERED) by { assert COVERED !in KeysOf([v]); }
    assert NewerThan(start.store.order, COVERED) == {};
  }

  lemma OneWritten(entries: Entries, v: Value)
    requires v.key !in entries
    ensures Written(entries, [v]) == {v.key} && KeysOf([v]) == [v.key]
  {
    assert v in [v];
  }

  lemma SecondDecides(p: Payload, start: Situation)
    requires start.memo == map[] && start.force == {} && Archive(p, start.store)
    ensures FirstCurrent(Shop(p), COVERED, SCOPE.ExcludedFor(COVERED), 2, 1)
    ensures Outranked(Shop(p), SCOPE, start, COVERED, 1)
  {
    hide VerdictOf;
    Verdicts(p);
  }

  /** What `COVERED` ends with in the batch, and by its own chain. */
  lemma Endings(p: Payload, start: Situation)
    requires start.memo == map[] && start.force == {} && Archive(p, start.store)
    ensures start.store.Valid()
    ensures BatchSettle(Shop(p), SCOPE, Some(1), start, [OTHER, COVERED], COVERED, 0.0) ==
      Got(Value(COVERED, p, "late", 0.0, 0.0, false, false, 0, "new", []))
    ensures SettleAt(Shop(p), SCOPE, start, COVERED, 0.0) == Got(CachedCopy(Archived(p), false, 0.0))
    ensures Ousted(Shop(p), SCOPE, Some(1), start, [OTHER, COVERED], COVERED)
    ensures !Ousted(Shop(p), SCOPE, Some(1), start, [COVERED], COVERED)
  {
    hide VerdictOf, BatchStore, BatchAt, Chain;
    var w := Shop(p);
    Verdicts(p);
    PushedOut(p, start);
    SecondDecides(p, start);
    BatchTurn(w, SCOPE, Some(1), start, [OTHER, COVERED], COVERED, 0.0, 1, 2);
    PriorityLaw(w, COVERED, {}, Some(Archived(p)), true, false, 0.0);
    assert NewerThan(start.store.order, COVERED) + (Elems([COVERED]) - {COVERED}) == {};
    ShelteredIsNotOusted(w, SCOPE, Some(1), start, [COVERED], COVERED);
  }

  lemma FirstAnswers(p: Payload, start: Situation)
    requires start.memo == map[]
    ensures OfferedAt(Shop(p), SCOPE, start.memo, [OTHER, COVERED], 0) ==
      [Value(OTHER, p, "early", 0.0, 0.0, false, false, 0, "new", [])]
  {
    hide VerdictOf;
    var w := Shop(p);
    Verdicts(p);
    var keys := [OTHER, COVERED];
    assert keys[..1] == [OTHER] && [OTHER][..0] == [];
    assert FirstCurrent(w, OTHER, {}, 2, 0) && !FirstCurrent(w, COVERED, {}, 2, 0);
    assert SCOPE.ExcludedFor(OTHER) == {} && SCOPE.ExcludedFor(COVERED) == {};
    assert OfferedAt(w, SCOPE, start.memo, [], 0) == [];
    assert OfferedAt(w, SCOPE, start.memo, [OTHER], 0) == [] + [VerdictOf(w, w.sources[0], OTHER, {}).value];
  }

  /** Resolves keys from sources over a cache of one entry that holds the archived value. */
  method ResolveOverArchive(p: Payload, keys: seq<Key>) returns (results: map<Key, Outcome>, ghost start: Situation)
    requires NoDuplicates(keys) && Elems(keys) <= {OTHER, COVERED}
    ensures start.memo == map[] && start.force == {} && Archive(p, start.store)
    ensures EachInBatch(Shop(p), SCOPE, Some(1), start, keys, results, 0.0)
  {
    hide Commit, Select, Archive, Archived, EachInBatch, NoDuplicates, BatchFinal, EachAlone, EachStoredAlone, Progress,
         Accounted, LoggedBy, EachLogged, Aloof, Steady, Spacious;
    var w := Shop(p);
    var cache := new Cache(Some(1));
    var written, sections;
    ghost var instant;
    written, sections, instant := cache.SetManyIfNewer([Archived(p)], false, false, Undisturbed);
    UndisturbedDrift(EMPTY_STORE, sections);
    Archiving(p);
    var rt := new Runtime(map[], true, {}, map[], true);
    var builder := new SnapshotBuilder(w, cache, {OTHER, COVERED});
    start := builder.Here(rt);
    var expired;
    ghost var log;
    expired, results, log := builder.ResolveOwned(keys, 0.0, rt, [], {});
  }

  /**
    The run: resolved together with another key, a key ends with what its source gives; resolved alone from the same
    state it ends with the cached value of higher authority.
   */
  method BatchDiffersFromAlone(p: Payload) returns (together: map<Key, Outcome>, alone: map<Key, Outcome>)
    ensures COVERED in together
    ensures together[COVERED] == Got(Value(COVERED, p, "late", 0.0, 0.0, false, false, 0, "new", []))
    ensures COVERED in alone && alone[COVERED] == Got(CachedCopy(Archived(p), false, 0.0))
  {
    hide BatchSettle, SettleAt, Ousted, Archive, Store.Valid, NoDuplicates;
    ghost var start, later;
    TwoKeys();
    together, start := ResolveOverArchive(p, [OTHER, COVERED]);
    alone, later := ResolveOverArchive(p, [COVERED]);
    Endings(p, start);
    Endings(p, later);
    BatchAloneExactly(Shop(p), SCOPE, Some(1), later, [COVERED], COVERED, 0.0);
    assert COVERED in [OTHER, COVERED] && COVERED in [COVERED];
  }

  lemma TwoKeys()
    ensures NoDuplicates([OTHER, COVERED]) && NoDuplicates([COVERED])
  {
  }
}
