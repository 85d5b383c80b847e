/**
  A session in which a visible value outside the closure of a revalidation is no longer the pinned one after it
  committed.
  The value of `X` was served from the cache and records `Y`, which is not pinned, so that revalidating `O` and `P` does
  not
  affect it. Resolving `P` pins `Y`, which records `O`; `O` is then found too old, and the pass that asks another source
  for
  it unpins everything recorded as derived from `O`: `Y`, `P` and `X`.
 */
module FallbackWitness {
  import opened Core
  import opened WriteOrder
  import opened DependencyGraph
  import opened MemoryCache
  import opened AsyncMemoryCache
  import opened CacheRuns
  import opened Sources
  import opened Resolution
  import opened RuntimeState
  import opened KeyLists
  import opened CacheOffers
  import opened CacheLookups
  import opened Requests
  import opened Resolver
  import opened Dependents
  import opened Consistency
  import opened Fallback
  import opened Session

  const O := Key("shop", "stock", "a", [])
  const P := Key("shop", "page", "a", [])
  const X := Key("shop", "banner", "a", [])
  const Y := Key("shop", "view", "a", [])

  const ALL := {O, P, X, Y}

  /** The settings of a forced revalidation. */
  const FORCED := Scope(map[], true, false)

  /** Two direct sources for `O`, the second one with newer data, and a derived source for the rest. */
  function Shop(p: Payload): World {
    World([Source("first", Direct), Source("second", Direct), Source("views", Derived)],
          (s, k) =>
            if s == "views" then (if k in {P, X, Y} then Supported else Unsupported)
            else if k == O then Supported else Unsupported,
          (s, k) => Delivered(Delivery(p, Some(if s == "first" then 0.0 else 100.0), 100.0, s)),
          (s, k) => if k == Y then Some([O]) else if k == P || k == X then Some([Y]) else None,
          (s, k, values, n) => Delivered(Delivery(p, Some(100.0), 100.0, "derived")),
          n => false,
          Rules(k => FreshnessPolicy(Infinite, Infinite, false, Blocking), (k, s) => 0, 0.0, false))
  }

  // ---- The world -------------------------------------------------------------------------------

  function Depth(k: Key): nat {
    if k == O then 0 else if k == Y then 1 else 2
  }

  lemma DeclaresDown(p: Payload, k: Key, d: Key)
    requires Declares(Shop(p), k, d)
    ensures d in ALL && Depth(d) < Depth(k)
  {
  }

  lemma {:induction false} PathsDescend(p: Payload, path: seq<Key>, n: nat)
    requires DeclaredPath(Shop(p), path) && n < |path|
    ensures Depth(path[n]) + n <= Depth(path[0])
  {
    if n > 0 {
      PathsDescend(p, path, n - 1);
      assert Declares(Shop(p), path[n - 1], path[n - 1 + 1]);
      DeclaresDown(p, path[n - 1], path[n]);
    }
  }

  lemma ShopIsClosed(p: Payload)
    ensures Enclosed(Shop(p), ALL) && Acyclic(Shop(p)) && Shop(p).Unhurried()
  {
    hide Declares;
    forall k, d | k in ALL && Declares(Shop(p), k, d) ensures d in ALL {
      DeclaresDown(p, k, d);
    }
    forall cycle | DeclaredCycle(Shop(p), cycle) ensures false {
      PathsDescend(p, cycle, |cycle| - 1);
    }
  }

  /** Unless the second source is excluded nothing can fail. */
  lemma ShopHasPlenty(p: Payload, scope: Scope)
    requires "second" !in scope.ExcludedFor(O) && forall k :: k in {P, X, Y} ==> "views" !in scope.ExcludedFor(k)
    ensures Bounty(Shop(p), scope, ALL)
  {
    hide Enclosed, DeclaredCycle, World.Unhurried;
    var w := Shop(p);
    ShopIsClosed(p);
    forall k | k in ALL ensures exists s :: s in w.sources && Plenty(w, scope, s, k) {
      if k == O {
        assert w.sources[1] in w.sources && Plenty(w, scope, w.sources[1], k);
      } else {
        assert AlwaysDerives(w, w.sources[2], k);
        assert w.sources[2] in w.sources && Plenty(w, scope, w.sources[2], k);
      }
    }
  }

  /** What an open source can have given. */
  lemma OpenValues(p: Payload, scope: Scope, v: Value)
    requires FromOpenSource(Shop(p), scope, v)
    ensures !v.fromCache
    ensures v.key == O && "first" !in scope.ExcludedFor(O) ==> v.observedAt == 0.0 && v.source == "first"
    ensures v.key == O && "first" in scope.ExcludedFor(O) ==> v.observedAt == 100.0
    ensures v.key == P ==> v.observedAt == 100.0 && v.DepKeys() == {Y}
  {
    var w := Shop(p);
    var i :| ObtainedAt(w, scope, v, i);
    if v.key == O {
      assert w.sources[0].kind == Direct;
      assert "first" !in scope.ExcludedFor(O) ==> VerdictOf(w, w.sources[0], O, scope.ExcludedFor(O)).Current?;
    }
  }

  /** `Y` records `O`, wherever it came from. */
  lemma ViewRecordsStock(p: Payload, v: Value)
    requires AsDeclared(Shop(p), v) && v.key == Y
    ensures v.DepKeys() == {O}
  {
  }

  // ---- The cache at the beginning ----------------------------------------------------------------

  function Cached(p: Payload, k: Key, source: string, deps: seq<Dependency>): Value {
    Value(k, p, source, 0.0, 0.0, false, false, 0, "cached", deps)
  }

  function Initial(p: Payload): seq<Value> {
    [Cached(p, O, "first", []), Cached(p, Y, "views", [Dependency(O, "cached")]),
     Cached(p, P, "views", [Dependency(Y, "cached")]), Cached(p, X, "views", [Dependency(Y, "cached")])]
  }

  ghost predicate Filled(p: Payload, entries: Entries) {
    entries == map[O := Initial(p)[0], Y := Initial(p)[1], P := Initial(p)[2], X := Initial(p)[3]]
  }

  lemma EmptyIsValid()
    ensures EMPTY_STORE.Valid()
  {
  }

  /** An empty cache takes every value of a batch of distinct keys. */
  lemma EmptyTakes(vs: seq<Value>, k: Key)
    requires NoDuplicates(KeysOf(vs)) && EMPTY_STORE.Valid()
    ensures var entries := Commit(EMPTY_STORE, Select(vs), false, false, None).entries;
            && (k in entries ==> k in KeysOf(vs))
            && forall i :: 0 <= i < |vs| && vs[i].key == k ==> Lookup(entries, k) == Some(vs[i])
  {
    hide Commit, Select, Winner, NoDuplicates, KeysOf, Offered, Store.Valid;
    CommitMeetsLimit(EMPTY_STORE, Select(vs), false, false, None);
    BatchOffers(EMPTY_STORE.entries, vs, k);
    OfferedDistinct(None, vs, k);
    forall i | 0 <= i < |vs| && vs[i].key == k ensures Offered(None, vs, k) == Some(vs[i]) {
      assert vs[i] in vs;
    }
  }

  lemma Filling(p: Payload)
    ensures EMPTY_STORE.Valid() && Filled(p, Commit(EMPTY_STORE, Select(Initial(p)), false, false, None).entries)
  {
    EmptyIsValid();
    hide Commit, Select, NoDuplicates, Store.Valid;
    var vs := Initial(p);
    var entries := Commit(EMPTY_STORE, Select(vs), false, false, None).entries;
    assert KeysOf(vs) == [O, Y, P, X];
    FourKeys();
    forall k ensures k in entries <==> k in {O, Y, P, X} {
      EmptyTakes(vs, k);
      FilledAt(vs, entries, k);
    }
    EmptyTakes(vs, O);
    EmptyTakes(vs, Y);
    EmptyTakes(vs, P);
    EmptyTakes(vs, X);
  }

  lemma FilledAt(vs: seq<Value>, entries: Entries, k: Key)
    requires KeysOf(vs) == [O, Y, P, X] && |vs| == 4 && (k in entries ==> k in KeysOf(vs))
    requires forall i :: 0 <= i < |vs| && vs[i].key == k ==> Lookup(entries, k) == Some(vs[i])
    ensures k in entries <==> k in {O, Y, P, X}
  {
    assert KeysOf(vs)[0] == vs[0].key && KeysOf(vs)[1] == vs[1].key;
    assert KeysOf(vs)[2] == vs[2].key && KeysOf(vs)[3] == vs[3].key;
  }

  lemma FourKeys()
    ensures NoDuplicates([O, Y, P, X])
  {
  }

  lemma FilledKinds(p: Payload, entries: Entries)
    requires Filled(p, entries)
    ensures StoreDeclared(Shop(p), entries) && Level(Shop(p), entries)
  {
    var w := Shop(p);
    assert w.sources[0] in w.sources && w.sources[2] in w.sources;
    forall k | k in entries ensures AsDeclared(w, entries[k]) {
      var s := if k == O then w.sources[0] else w.sources[2];
      assert s in w.sources && s.name == entries[k].source && w.supports(s.name, k) == Supported &&
             entries[k].DepKeys() == DeclaredKeys(w, s, k);
    }
  }

  lemma FilledServes(p: Payload, entries: Entries, k: Key, policy: FreshnessPolicy)
    requires Filled(p, entries) && WellFiled(entries) && k in {O, P, X} && policy.maxStale == Infinite
    ensures Servable(entries, k, 0.0, policy)
  {
    hide GraphCurrent;
    var y := entries[Y];
    assert DependenciesCurrent(entries, entries[O], {k, Y});
    assert y.deps[1..] == [] && entries[P].deps[1..] == [] && entries[X].deps[1..] == [];
    if k != O {
      assert AllCurrent(entries, y, y.deps, {k});
      assert DependenciesCurrent(entries, y, {k});
      assert {} + {k} == {k};
      assert AllCurrent(entries, entries[k], entries[k].deps, {});
    }
    assert DependenciesCurrent(entries, entries[k], {});
    CheckDecidesGraph(entries, k);
  }

  // ---- The run -------------------------------------------------------------------------------------

  /** The state in which the revalidation begins. */
  ghost predicate Served(memo: Entries, resources: Entries) {
    && memo == resources && memo.Keys == {O, P, X} && WellFiled(memo)
    && memo[O].DepKeys() == {} && memo[P].DepKeys() == {Y} && memo[X].DepKeys() == {Y} && memo[X].fromCache
  }

  /** A first stage is served from the cache as a whole. */
  lemma AllServed(p: Payload, start: Situation, pending: seq<Key>, found: Resolved, after: Situation)
    requires start.memo == map[] && start.force == {} && start.store.Valid() && Filled(p, start.store.entries)
    requires Elems(pending) == {O, P, X} && found.Resolved? && found.values.Keys <= {O, P, X}
    requires Acquired(Shop(p), start, pending, 0.0, found, after)
    ensures Served(after.memo, found.values)
  {
    hide WellFiled, KeepsKind, Store.Valid, PendingOrder, Filled, ServedFirst, ServedCopy, Served;
    NothingPending(p, start, pending);
    assert map[] + found.values == found.values;
    forall k | k in {O, P, X} ensures k in found.values && ServedCopy(p, found.values[k], k) {
      assert k in Elems(pending);
      CopyServed(p, start, pending, found.values, k);
    }
    CopiesAreServed(p, found.values);
  }

  lemma NothingPending(p: Payload, start: Situation, pending: seq<Key>)
    requires start.memo == map[] && start.force == {} && start.store.Valid() && Filled(p, start.store.entries)
    requires Elems(pending) == {O, P, X}
    ensures PendingOrder(Shop(p).rules, start, pending, 0.0) == []
  {
    assert WellFiled(start.store.entries);
    hide AnswerFor, Serves, WellFiled, Store.Valid, PendingOrder, Filled;
    var rules := Shop(p).rules;
    var rest := PendingOrder(rules, start, pending, 0.0);
    forall k | k in rest ensures false {
      NeverPending(p, start, pending, k);
    }
    if rest != [] { SomePending(rest); }
  }

  lemma NeverPending(p: Payload, start: Situation, pending: seq<Key>, k: Key)
    requires start.memo == map[] && start.force == {} && start.store.Valid() && Filled(p, start.store.entries)
    requires Elems(pending) == {O, P, X}
    ensures k !in PendingOrder(Shop(p).rules, start, pending, 0.0)
  {
    assert WellFiled(start.store.entries);
    hide AnswerFor, Serves, WellFiled, Store.Valid, PendingOrder, Filled;
    PendingExactly(Shop(p).rules, start, pending, 0.0, k);
    if k in pending { ServedFromFilled(p, start, pending, k); }
  }

  lemma SomePending(s: seq<Key>)
    requires s != []
    ensures exists k :: k in s
  {
    assert s[0] in s;
  }

  /** A copy of the value that the cache holds for the key at the beginning. */
  ghost predicate ServedCopy(p: Payload, v: Value, k: Key) {
    v.key == k && v.fromCache && v.DepKeys() == if k == O then {} else {Y}
  }

  lemma CopyServed(p: Payload, start: Situation, pending: seq<Key>, values: Entries, k: Key)
    requires start.memo == map[] && start.force == {} && start.store.Valid() && Filled(p, start.store.entries)
    requires Elems(pending) == {O, P, X} && k in pending && ServedFirst(Shop(p).rules, start, pending, 0.0, values)
    ensures k in values && ServedCopy(p, values[k], k)
  {
    hide AnswerFor, Serves, LookupOrder, WellFiled, Store.Valid;
    ServedFromFilled(p, start, pending, k);
    var answer := AnswerFor(Shop(p).rules, start, pending, 0.0, k);
    var stored := start.store.entries[k];
    assert k in Elems(pending);
    assert values[k] == CachedCopy(stored, !answer.isFresh, 0.0);
    assert values[k].DepKeys() == stored.DepKeys();
  }

  lemma CopiesAreServed(p: Payload, values: Entries)
    requires values.Keys <= {O, P, X} && forall k :: k in {O, P, X} ==> k in values && ServedCopy(p, values[k], k)
    ensures Served(values, values)
  {
    assert values.Keys == {O, P, X};
    assert ServedCopy(p, values[O], O) && ServedCopy(p, values[P], P) && ServedCopy(p, values[X], X);
  }

  lemma ServedFromFilled(p: Payload, start: Situation, pending: seq<Key>, k: Key)
    requires start.memo == map[] && start.force == {} && start.store.Valid() && Filled(p, start.store.entries)
    requires Elems(pending) == {O, P, X} && k in pending
    ensures var rules := Shop(p).rules;
            && k in LookupOrder(pending, start.memo, start.force)
            && Serves(AnswerFor(rules, start, pending, 0.0, k), rules.policy(k))
            && AnswerFor(rules, start, pending, 0.0, k).value == Lookup(start.store.entries, k)
  {
    hide Servable, LookupOrder;
    var rules, looked := Shop(p).rules, LookupOrder(pending, start.memo, start.force);
    var policies := PoliciesFor(rules, looked);
    forall x | x in looked ensures x in policies && Servable(start.store.entries, x, 0.0, policies[x]) {
      assert x in Elems(pending);
      FilledServes(p, start.store.entries, x, policies[x]);
    }
    ServableAreServed(start.store, looked, 0.0, policies);
    ReadServesExactly(start.store, looked, 0.0, policies, IndexOf(looked, k));
  }

  /** The revalidation affects the two requested keys only. */
  lemma OnlyRequested(memo: Entries, resources: Entries, affected: set<Key>)
    requires Served(memo, resources) && LeastClosure(memo, {O, P}, affected)
    ensures affected == {O, P}
  {
    assert ClosedUnderDependents(memo, {O, P});
    assert LeastClosure(memo, {O, P}, {O, P});
    LeastClosureUnique(memo, {O, P}, affected, {O, P});
  }

  /** What the revalidation stages: an old `O`, a newer `P`, and `Y` between `O` and `X`. */
  ghost predicate Skewed(memo: Entries, staged: Entries) {
    && {O, P, X, Y} <= staged.Keys && X in memo && staged[X] == memo[X]
    && staged[O].observedAt == 0.0 && staged[O].source == "first" && staged[P].observedAt == 100.0
    && staged[P].DepKeys() == {Y} && staged[Y].DepKeys() == {O}
  }

  lemma StagedValues(p: Payload, maxEntries: Option<nat>, memo: Entries, resources: Entries, store: Store,
                     r: Revalidation)
    requires Served(memo, resources) && StoreDeclared(Shop(p), store.entries) && Level(Shop(p), store.entries)
    requires Restaged(Shop(p), maxEntries, 100.0, memo, [O, P], true, store, resources.Keys, r)
    ensures r.affected == {O, P} && r.failures == map[] && Skewed(memo, r.staging.memo)
  {
    hide FromOpenSource, AsDeclared, StoreDeclared, Level, Bounty, LeastClosure, Progress, Truthful, World.Unhurried;
    var w, scope := Shop(p), FORCED;
    assert Elems([O, P]) == {O, P};
    OnlyRequested(memo, resources, r.affected);
    ShopIsClosed(p);
    ShopHasPlenty(p, scope);
    forall k | k in r.failures ensures false {
      BountyRefutes(w, scope, ALL, r.failures[k]);
    }
    assert r.failures.Keys == {};
    assert O in Elems([O, P]) && P in Elems([O, P]);
    StagedOrigins(w, scope, Situation(memo - r.affected, r.affected, store), r.staging);
    OpenValues(p, scope, r.staging.memo[O]);
    OpenValues(p, scope, r.staging.memo[P]);
    assert Y in r.staging.memo[P].DepKeys();
    ViewRecordsStock(p, r.staging.memo[Y]);
  }

  lemma StagedOrigins(w: World, scope: Scope, a: Situation, b: Situation)
    requires Progress(w, scope, a, b) && StoreDeclared(w, a.store.entries) && Level(w, a.store.entries)
    requires a.memo.Keys == {X} && a.force == {O, P} && O in b.memo && P in b.memo
    ensures X in b.memo && b.memo[X] == a.memo[X]
    ensures FromOpenSource(w, scope, b.memo[O]) && FromOpenSource(w, scope, b.memo[P])
    ensures b.memo[P].DepKeys() <= b.memo.Keys
    ensures Y in b.memo ==> AsDeclared(w, b.memo[Y])
  {
    hide FromOpenSource, AsDeclared, StoreDeclared, Level;
    assert !b.memo[P].fromCache by { OpenIsDeclared(w, scope, b.memo[P]); }
  }

  /** The oldest of the two requested values is `O`, from the first source. */
  lemma OldestIsStock(memo: Entries, staged: Entries, k: Key)
    requires Skewed(memo, staged) && LeastRecent(staged, [O, P], k)
    ensures k == O && Strip(staged[k].source) == "first"
  {
    assert P in [O, P];
    assert Tight("first");
  }

  lemma StagedTooFarApart(memo: Entries, staged: Entries)
    requires Skewed(memo, staged)
    ensures !WithinSkew(staged, [O, P], 50.0)
  {
    assert O in [O, P] && P in [O, P];
  }

  /** The first pass excludes the first source for `O`, unpins all four values, and settles the difference. */
  lemma FirstPass(p: Payload, memo: Entries, q: Pass)
    requires Skewed(memo, q.before) && X in memo && memo[X].DepKeys() == {Y}
    requires PassDone(Shop(p), [O, P], 50.0, FORCED, q)
    ensures X in q.affected && WithinSkew(q.after, [O, P], 50.0)
    ensures X in q.after ==> !q.after[X].fromCache
  {
    hide FromOpenSource, WithinSkew;
    OldestIsStock(memo, q.before, q.oldest);
    assert O in q.before[Y].DepKeys() * q.affected;
    assert Y in q.before[P].DepKeys() * q.affected;
    assert Y in q.before[X].DepKeys() * q.affected;
    assert O in Elems([O, P]) && P in Elems([O, P]);
    assert "first" in q.scope.ExcludedFor(O);
    OpenValues(p, q.scope, q.after[O]);
    OpenValues(p, q.scope, q.after[P]);
    if X in q.after { OpenValues(p, q.scope, q.after[X]); }
    SameTime(q.after);
  }

  lemma SameTime(memo: Entries)
    requires O in memo && P in memo && memo[O].observedAt == memo[P].observedAt
    ensures WithinSkew(memo, [O, P], 50.0)
  {
  }

  lemma SecondPassNeedsSkew(w: World, requested: seq<Key>, limit: real, start: Entries, scope: Scope, passes: seq<Pass>,
                            last: Entries, scope': Scope)
    requires Chained(w, requested, limit, start, scope, passes, last, scope') && |passes| > 1
    ensures !WithinSkew(passes[0].after, requested, limit)
  {
    hide WithinSkew, LeastClosure, Repinned, LeastRecent, Strip;
    assert Linked(w, requested, limit, start, scope, passes, 1);
  }

  /** There is exactly one pass, after which the values are close enough. */
  lemma OnePass(p: Payload, memo: Entries, r: Revalidation)
    requires Skewed(memo, r.staging.memo) && X in memo && memo[X].DepKeys() == {Y}
    requires Reconciled(Shop(p), [O, P], true, Some(50.0), r)
    ensures r.passes == [] ==>
      r.last == r.staging.memo && r.scope == FORCED && !WithinSkew(r.last, [O, P], 50.0)
    ensures r.passes != [] ==>
      WithinSkew(r.last, [O, P], 50.0) && X in Reached(r.passes) && (X in r.last ==> !r.last[X].fromCache)
  {
    hide WithinSkew, LeastClosure, Repinned, LeastRecent, Strip;
    StagedTooFarApart(memo, r.staging.memo);
    if r.passes != [] {
      var q := r.passes[0];
      assert Linked(Shop(p), [O, P], 50.0, r.staging.memo, FORCED, r.passes, 0);
      FirstPass(p, memo, q);
      if |r.passes| > 1 {
        SecondPassNeedsSkew(Shop(p), [O, P], 50.0, r.staging.memo, FORCED, r.passes, r.last, r.scope);
      }
      assert r.passes[..0] == [];
    }
  }

  /** With no pass made there is one left to make. */
  lemma NotGivenUp(p: Payload, memo: Entries, staged: Entries, targets: set<Key>)
    requires Skewed(memo, staged) && targets <= ALL
    ensures !GivenUp(Shop(p), targets, [O, P], [], staged, FORCED)
  {
    hide Bounty, Strip, FailedPass;
    forall k | LeastRecent(staged, [O, P], k)
      ensures Strip(staged[k].source) == "first"
      ensures !FailedPass(Shop(p), targets, staged, Narrowed(FORCED, k, "first"), k)
    {
      OldestIsStock(memo, staged, k);
      ShopHasPlenty(p, Narrowed(FORCED, k, "first"));
      BountyNeverFails(Shop(p), targets, staged, Narrowed(FORCED, k, "first"), k, ALL);
    }
  }

  /** The session after a first stage, with `O`, `P` and `X` served from the cache. */
  method Begin(p: Payload) returns (session: SnapshotSession)
    ensures fresh(session) && fresh(session.rt) && fresh(session.builder) && fresh(session.builder.cache)
    ensures session.Valid() && !session.closed && session.builder.w == Shop(p) && session.builder.universe == ALL
    ensures Served(session.rt.memo, session.resources)
    ensures StoreDeclared(Shop(p), session.builder.cache.entries) && Level(Shop(p), session.builder.cache.entries)
  {
    hide Commit, Select, Acquired, StageLeaves, Filled, Served, StoreDeclared, Level, Enclosed, World.Unhurried,
         Acyclic;
    var w := Shop(p);
    var cache := new Cache(None);
    var written, sections;
    ghost var instant;
    written, sections, instant := cache.SetManyIfNewer(Initial(p), false, false, Undisturbed);
    UndisturbedDrift(EMPTY_STORE, sections);
    Filling(p);
    FilledKinds(p, cache.entries);
    ShopIsClosed(p);
    var rt := new Runtime(map[], true, {}, map[], true);
    var builder := new SnapshotBuilder(w, cache, ALL);
    session := new SnapshotSession(builder, rt);
    ghost var start := builder.Here(rt);
    var reply;
    ghost var stage;
    reply, stage := session.Resolve([O, P, X], false, false, 0.0);
    StageServed(p, start, stage, session.resources, session.errors, builder.Here(rt));
  }

  lemma StageServed(p: Payload, start: Situation, stage: StageRecord, resources: Entries, errors: map<Key, Unresolved>,
                    after: Situation)
    requires start.memo == map[] && start.force == {} && start.store.Valid() && Filled(p, start.store.entries)
    requires StageLeaves(map[], map[], [O, P, X], false, false, stage, resources, errors) && !stage.late
    requires Acquired(Shop(p), start, stage.pending, 0.0, stage.found, after)
    ensures Served(after.memo, resources) && KeepsKind(Shop(p), start.store.entries, after.store.entries)
  {
    hide Filled, Served, ServedFirst, KeepsKind, Store.Valid, PendingOrder;
    assert Elems(stage.pending) == {O, P, X};
    AllServed(p, start, stage.pending, stage.found, after);
    assert map[] + stage.found.values == stage.found.values;
    SameServed(after.memo, stage.found.values);
  }

  lemma SameServed(memo: Entries, values: Entries)
    requires Served(memo, values)
    ensures memo == values
  {
  }

  /** The run: the revalidation commits, and afterwards the visible value of `X` is not the pinned one. */
  method RetainedCanBeReached(p: Payload) returns (session: SnapshotSession, ghost record: Revalidation)
    ensures fresh(session) && session.Valid() && session.builder.w == Shop(p)
    ensures record.affected == {O, P} && X in Reached(record.passes) && X in session.resources && !session.Agrees()
  {
    hide SnapshotBuilder.Ready, Served, Restaged, Reconciled, Unreconciled, Retaining, Recommitted, WithinSkew,
         StoreDeclared, Level, GivenUp, World.Unhurried;
    session := Begin(p);
    ghost var memo, shown, failed := session.rt.memo, session.resources, session.errors;
    ghost var store := session.builder.cache.State();
    ServedAgrees(memo, shown);
    var reply;
    ghost var committed;
    reply, committed, record := session.Revalidate([O, P], false, true, Some(50.0), None, 100.0);
    assert Elems([O, P]) == {O, P};
    ShopIsClosed(p);
    StagedValues(p, session.builder.cache.maxEntries, memo, shown, store, record);
    if committed || reply.Inconsistent? { CannotGiveUp(p, memo, record); }
    assert committed;
    OnePass(p, memo, record);
    Disagrees(memo, shown, failed, record, session.rt.memo, session.resources, session.errors);
  }

  lemma ServedAgrees(memo: Entries, resources: Entries)
    requires Served(memo, resources)
    ensures memo == resources && memo.Keys == {O, P, X} && memo[X].DepKeys() == {Y} && memo[X].fromCache
  {
  }

  lemma CannotGiveUp(p: Payload, memo: Entries, r: Revalidation)
    requires Skewed(memo, r.staging.memo) && X in memo && memo[X].DepKeys() == {Y}
    requires Reconciled(Shop(p), [O, P], true, Some(50.0), r)
    ensures !Unreconciled(Shop(p), [O, P], true, Some(50.0), {O, P, X}, r)
  {
    hide WithinSkew, GivenUp, Reconciled;
    OnePass(p, memo, r);
    NotGivenUp(p, memo, r.staging.memo, TargetsOf([O, P], {O, P, X}, r.affected));
  }

  lemma Disagrees(memo: Entries, resources: Entries, errors: map<Key, Unresolved>, r: Revalidation, memo': Entries,
                  resources': Entries, errors': map<Key, Unresolved>)
    requires memo == resources && X in memo && memo[X].fromCache && r.affected == {O, P} && memo' == r.last
    requires (X in r.last ==> !r.last[X].fromCache)
    requires Recommitted(memo, resources, errors, {O, P}, r.affected, memo', resources', errors')
    ensures X in resources' && !PinnedAs(memo', resources')
  {
    hide LeastClosure;
  }
}
