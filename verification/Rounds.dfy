/** One round of the source loop: what is asked, taken in and yielded to the cache, and what that means for each key. */
module Rounds {
  import opened Core
  import opened WriteOrder
  import opened DependencyGraph
  import opened MemoryCache
  import opened Sources
  import opened Resolution
  import opened CacheRuns
  import opened CacheOffers
  import opened CacheLookups

  /** The keys of a batch that are not settled yet. */
  function Unsettled(keys: seq<Key>, desk: Desk): (r: seq<Key>)
    ensures forall k :: k in r <==> k in keys && k !in desk.settled
    ensures NoDuplicates(keys) ==> NoDuplicates(r)
  {
    Filter(keys, k => k !in desk.settled)
  }

  /** The keys done so far have advanced by what keeps the source from being asked for them, the others have not. */
  ghost predicate Screened(w: World, scope: Scope, source: Source, done: seq<Key>, keys: seq<Key>, desk: Desk, d: Desk,
                           now: real) {
    forall k :: k in keys ==>
      && k in desk.failures && k in d.failures
      && d.At(k) == if k in done then Advance(w.rules, desk.At(k), Unasked(Screen(w, source, k, scope.ExcludedFor(k))),
                                              None, false, now) else desk.At(k)
  }

  lemma NobodyScreened(w: World, scope: Scope, source: Source, keys: seq<Key>, desk: Desk, now: real)
    requires desk.For(keys)
    ensures Screened(w, scope, source, [], keys, desk, desk, now)
  {
  }

  lemma ScreenedStep(w: World, scope: Scope, source: Source, done: seq<Key>, keys: seq<Key>, desk: Desk, d: Desk,
                     now: real, key: Key)
    requires d.For(keys) && key in keys && key !in done && key !in d.settled
    requires Screened(w, scope, source, done, keys, desk, d, now)
    ensures key in d.failures
    ensures var d' := Record(w.rules, d, key, Unasked(Screen(w, source, key, scope.ExcludedFor(key))));
            d'.For(keys) && d'.settled == d.settled && Screened(w, scope, source, done + [key], keys, desk, d', now)
  {
    hide Advance, Desk.At, WellFiled, Screen;
    RecordAdvances(w.rules, d, keys, key, Unasked(Screen(w, source, key, scope.ExcludedFor(key))), now);
  }

  lemma AllScreened(w: World, scope: Scope, source: Source, keys: seq<Key>, desk: Desk, d: Desk, now: real)
    requires Screened(w, scope, source, Unsettled(keys, desk), keys, desk, d, now)
    ensures forall k :: k in keys ==>
      && k in desk.failures && k in d.failures
      && d.At(k) == Advance(w.rules, desk.At(k), Unasked(Screen(w, source, k, scope.ExcludedFor(k))), None, false, now)
  {
    hide Advance, Screen, Unsettled, Desk.At;
    forall k | k in keys && k in desk.settled
      ensures k in desk.failures
      ensures desk.At(k) == Advance(w.rules, desk.At(k), Unasked(Screen(w, source, k, scope.ExcludedFor(k))), None,
                                    false, now)
    {
      SettledStays(w.rules, desk, k, Unasked(Screen(w, source, k, scope.ExcludedFor(k))), now);
    }
  }

  lemma ScreenTruthful(w: World, scope: Scope, s: Source, k: Key, excluded: set<string>)
    ensures var screening := Screen(w, s, k, excluded);
      screening.Barred? ==> TruthfulCause(w, scope, screening.failure.cause)
  {
  }

  /** What a judged attempt reports is truthful, and its value is from a source that is open for the key. */
  lemma JudgedFaithfully(w: World, scope: Scope, i: nat, k: Key, memo: Entries, attempt: Attempt)
    requires i < |w.sources| && Screen(w, w.sources[i], k, scope.ExcludedFor(k)).Ask?
    requires Sourced(w, w.sources[i], k, memo, attempt) && NoneCurrentBefore(w, k, scope.ExcludedFor(k), i)
    requires attempt.Failed? ==> TruthfulCause(w, scope, attempt.cause)
    ensures var verdict := Judge(w.rules, k, w.sources[i].name, attempt);
            && (verdict.Fails? ==> TruthfulCause(w, scope, verdict.failure.cause))
            && (verdict.Aged? || verdict.Current? ==>
                  && verdict.value.key == k
                  && FromOpenSource(w, scope, verdict.value)
                  && verdict.value.DepKeys() <= memo.Keys)
  {
    hide Screen, NoneCurrentBefore;
    var source := w.sources[i];
    var verdict := Judge(w.rules, k, source.name, attempt);
    if verdict.Aged? || verdict.Current? {
      var v := verdict.value;
      assert v.DepKeys() == DeclaredKeys(w, source, k);
      if source.kind == Derived {
        var values: Entries, n: nat :|
          && Inputs(w, source, k, values) && PinnedAs(memo, values) && VersionedBy(attempt.deps, values)
          && w.derive(source.name, k, values, n) == Delivered(attempt.delivery);
        assert DerivedBy(w, source, v);
      }
      assert ObtainedAt(w, scope, v, i);
    }
  }

  /** Offering values from open sources keeps what the cache's entries are known for. */
  lemma OffersKeepKind(w: World, scope: Scope, base: Store, vs: seq<Value>, maxEntries: Option<nat>)
    requires base.Valid() && forall v :: v in vs ==> FromOpenSource(w, scope, v)
    ensures KeepsKind(w, base.entries, Commit(base, Select(vs), false, false, maxEntries).entries)
  {
    hide Commit, Select, Winner, FromOpenSource, AsDeclared, Store.Valid, NoDuplicates;
    var r := Commit(base, Select(vs), false, false, maxEntries).entries;
    CommitMeetsLimit(base, Select(vs), false, false, maxEntries);
    forall k | k in r ensures (k in base.entries && r[k] == base.entries[k]) || (r[k] in vs && r[k].key == k) {
      BatchOffers(base.entries, vs, k);
      SelectedIsOffered(vs, k);
    }
    forall v | v in vs
      ensures AsDeclared(w, v)
      ensures exists s :: s in w.sources && s.name == v.source && v.rank == w.rules.rank(v.key, s.name)
    {
      OpenIsDeclared(w, scope, v);
    }
  }

  /** Pinned values and refresh marks of keys outside a batch of values are as before. */
  ghost predicate Untouched(vs: seq<Value>, memo: Entries, memo': Entries, force: set<Key>, force': set<Key>) {
    forall k :: k !in KeysOf(vs) ==> Lookup(memo', k) == Lookup(memo, k) && (k in force' <==> k in force)
  }

  /** The fresh values among the attempts for the keys done so far. */
  ghost predicate Gathered(r: Rules, source: Source, attempts: map<Key, Attempt>, done: seq<Key>, taken: seq<Value>) {
    && NoDuplicates(KeysOf(taken))
    && (forall v :: v in taken ==>
          v.key in done && v.key in attempts && Judge(r, v.key, source.name, attempts[v.key]) == Current(v))
    && (forall k :: k in done && k in attempts && Judge(r, k, source.name, attempts[k]).Current? ==>
          Judge(r, k, source.name, attempts[k]).value in taken)
  }

  /** The keys done so far have advanced by their attempts, the others have not. */
  ghost predicate Absorbed(r: Rules, source: Source, attempts: map<Key, Attempt>, done: seq<Key>, keys: seq<Key>,
                           desk: Desk, d: Desk, now: real) {
    forall k :: k in keys ==>
      && k in desk.failures && k in d.failures
      && d.At(k) == if k in done && k in attempts then Advance(r, desk.At(k), Judge(r, k, source.name, attempts[k]),
                                                               None, false, now) else desk.At(k)
  }

  lemma NothingTaken(r: Rules, source: Source, attempts: map<Key, Attempt>, keys: seq<Key>, desk: Desk, now: real,
                     memo: Entries, force: set<Key>)
    requires desk.For(keys)
    ensures Gathered(r, source, attempts, [], []) && Untouched([], memo, memo, force, force)
    ensures FreshOf(r, source, attempts, []) == []
    ensures Absorbed(r, source, attempts, [], keys, desk, desk, now)
  {
  }

  lemma TakenStep(vs: seq<Value>, v: Value, memo: Entries, memo': Entries, force: set<Key>, force': set<Key>)
    requires NoDuplicates(KeysOf(vs)) && (forall x :: x in vs ==> x.key != v.key)
    requires Untouched(vs, memo, memo', force, force')
    ensures NoDuplicates(KeysOf(vs + [v]))
    ensures Untouched(vs + [v], memo, memo'[v.key := v], force, force' - {v.key})
  {
    assert KeysOf(vs + [v]) == KeysOf(vs) + [v.key];
    forall i | 0 <= i < |vs| ensures KeysOf(vs)[i] != v.key { assert vs[i] in vs; }
    forall k | k !in KeysOf(vs + [v])
      ensures Lookup(memo'[v.key := v], k) == Lookup(memo, k) && (k in force' - {v.key} <==> k in force)
    {
      assert k !in KeysOf(vs) + [v.key];
    }
  }

  lemma GatheredStep(r: Rules, source: Source, attempts: map<Key, Attempt>, done: seq<Key>, taken: seq<Value>, key: Key,
                     memo: Entries, memo': Entries, force: set<Key>, force': set<Key>)
    requires key in attempts && key !in done && Gathered(r, source, attempts, done, taken)
    requires Untouched(taken, memo, memo', force, force')
    ensures var verdict := Judge(r, key, source.name, attempts[key]);
            if verdict.Current? then
              && Gathered(r, source, attempts, done + [key], taken + [verdict.value])
              && Untouched(taken + [verdict.value], memo, memo'[key := verdict.value], force, force' - {key})
            else Gathered(r, source, attempts, done + [key], taken)
  {
    hide Judge, NoDuplicates, KeysOf, Untouched;
    var verdict := Judge(r, key, source.name, attempts[key]);
    if verdict.Current? {
      TakenStep(taken, verdict.value, memo, memo', force, force');
    }
  }

  lemma AbsorbedStep(r: Rules, source: Source, attempts: map<Key, Attempt>, done: seq<Key>, keys: seq<Key>, desk: Desk,
                     d: Desk, now: real, key: Key)
    requires desk.For(keys) && d.For(keys) && key in keys && key in attempts && key !in done && key !in d.settled
    requires Absorbed(r, source, attempts, done, keys, desk, d, now)
    ensures var d' := Record(r, d, key, Judge(r, key, source.name, attempts[key]));
            && d'.For(keys) && (forall x :: x in d'.settled ==> x in d.settled || x == key)
            && Absorbed(r, source, attempts, done + [key], keys, desk, d', now)
  {
    hide Judge, Record, Advance, Desk.At, WellFiled;
    RecordAdvances(r, d, keys, key, Judge(r, key, source.name, attempts[key]), now);
    assert d.At(key) == desk.At(key);
  }

  lemma AbsorbedAt(r: Rules, source: Source, attempts: map<Key, Attempt>, done: seq<Key>, keys: seq<Key>, desk: Desk,
                   d: Desk, now: real, k: Key)
    requires Absorbed(r, source, attempts, done, keys, desk, d, now) && k in keys && attempts.Keys == Elems(done)
    ensures k in desk.failures && k in d.failures
    ensures d.At(k) == if k in done then Advance(r, desk.At(k), Judge(r, k, source.name, attempts[k]), None, false,
                                                 now) else desk.At(k)
  {
  }

  lemma TakenAreSettled(r: Rules, source: Source, attempts: map<Key, Attempt>, candidates: seq<Key>, keys: seq<Key>,
                        desk: Desk, d: Desk, taken: seq<Value>, now: real)
    requires Absorbed(r, source, attempts, candidates, keys, desk, d, now)
    requires Gathered(r, source, attempts, candidates, taken)
    requires d.For(keys) && desk.For(keys) && forall k :: k in candidates ==> k in keys && k !in desk.settled
    ensures NoDuplicates(KeysOf(taken))
    ensures forall v :: v in taken ==> v.key in candidates && v.key in d.settled && d.settled[v.key] == v
    ensures forall k :: k in desk.settled ==> k in d.settled
  {
    hide Judge, NoDuplicates, KeysOf, WellFiled;
    forall v | v in taken ensures v.key in d.settled && d.settled[v.key] == v {
      assert d.At(v.key) == Settled(Superseded(None, v, false, now));
    }
    forall k | k in desk.settled ensures k in d.settled {
      assert d.At(k) == desk.At(k);
    }
  }

  /** The first `n` fresh values have yielded to cached values of higher authority; nothing else has moved. */
  ghost predicate Superseding(stored: Entries, writes: bool, taken: seq<Value>, n: nat, desk: Desk, d: Desk,
                              now: real) {
    && d.failures == desk.failures && d.best == desk.best && d.settled.Keys == desk.settled.Keys
    && (forall i :: 0 <= i < |taken| ==>
          && taken[i].key in d.settled
          && d.settled[taken[i].key] ==
               if i < n then Superseded(Lookup(stored, taken[i].key), taken[i], writes, now) else taken[i])
    && (forall k :: k in desk.settled && k !in KeysOf(taken) ==> d.settled[k] == desk.settled[k])
  }

  lemma SupersedingKeys(stored: Entries, writes: bool, taken: seq<Value>, desk: Desk, d: Desk, now: real)
    requires Superseding(stored, writes, taken, |taken|, desk, d, now)
    ensures d.settled.Keys == desk.settled.Keys
  {
  }

  lemma NothingSuperseded(stored: Entries, writes: bool, taken: seq<Value>, desk: Desk, now: real, memo: Entries,
                          force: set<Key>)
    requires forall v :: v in taken ==> v.key in desk.settled && desk.settled[v.key] == v
    ensures Superseding(stored, writes, taken, 0, desk, desk, now)
    ensures !writes || taken == [] ==> Superseding(stored, writes, taken, |taken|, desk, desk, now)
    ensures Untouched(taken, memo, memo, force, force)
  {
    forall i | 0 <= i < |taken| ensures taken[i].key in desk.settled && desk.settled[taken[i].key] == taken[i] {
      assert taken[i] in taken;
    }
  }

  lemma SupersedingStep(w: World, scope: Scope, stored: Entries, taken: seq<Value>, n: nat, keys: seq<Key>, desk: Desk,
                        d: Desk, now: real,
                        result: WriteResult, memo: Entries, memo': Entries, force: set<Key>, force': set<Key>)
    requires n < |taken| && NoDuplicates(KeysOf(taken)) && WellFiled(stored)
    requires d.For(keys) && d.Honest(w, scope, memo') && Superseding(stored, true, taken, n, desk, d, now)
    requires Answers(stored, taken[n], result) && Untouched(taken, memo, memo', force, force')
    ensures result.status != IgnoredLowerAuthority ==> Superseding(stored, true, taken, n + 1, desk, d, now)
    ensures result.status == IgnoredLowerAuthority ==>
      var k, winning := taken[n].key, CachedCopy(result.value, false, now);
      var d' := d.(settled := d.settled[k := winning]);
      && winning.key == k && k in memo'
      && Superseding(stored, true, taken, n + 1, desk, d', now)
      && d'.For(keys) && d'.Honest(w, scope, memo'[k := winning])
      && Untouched(taken, memo, memo'[k := winning], force, force')
  {
    hide FromOpenSource, TruthfulCause, NoDuplicates, Desk.Honest, Superseding;
    DistinctKeys(taken, n);
    SupersedingMoves(stored, taken, n, desk, d, now, result);
    if result.status == IgnoredLowerAuthority {
      HonestSwap(w, scope, d, memo', CachedCopy(result.value, false, now));
    }
  }

  lemma DistinctKeys(taken: seq<Value>, n: nat)
    requires n < |taken| && NoDuplicates(KeysOf(taken))
    ensures taken[n].key in KeysOf(taken)
    ensures forall i :: 0 <= i < |taken| && i != n ==> taken[i].key != taken[n].key
  {
    assert KeysOf(taken)[n] == taken[n].key;
    forall i | 0 <= i < |taken| && i != n ensures taken[i].key != taken[n].key {
      assert KeysOf(taken)[i] == taken[i].key;
    }
  }

  lemma SupersedingMoves(stored: Entries, taken: seq<Value>, n: nat, desk: Desk, d: Desk, now: real,
                         result: WriteResult)
    requires n < |taken| && NoDuplicates(KeysOf(taken))
    requires Superseding(stored, true, taken, n, desk, d, now) && Answers(stored, taken[n], result)
    ensures taken[n].key in d.settled
    ensures result.status != IgnoredLowerAuthority ==> Superseding(stored, true, taken, n + 1, desk, d, now)
    ensures result.status == IgnoredLowerAuthority ==>
      Superseding(stored, true, taken, n + 1, desk,
                  d.(settled := d.settled[taken[n].key := CachedCopy(result.value, false, now)]), now)
  {
    hide NoDuplicates, KeysOf, CachedCopy;
    DistinctKeys(taken, n);
  }

  lemma SupersededAt(stored: Entries, writes: bool, taken: seq<Value>, desk: Desk, d: Desk, now: real, k: Key)
    requires Superseding(stored, writes, taken, |taken|, desk, d, now) && k in desk.failures
    ensures k in d.failures
    ensures k !in KeysOf(taken) ==> d.At(k) == desk.At(k)
    ensures k in KeysOf(taken) ==>
      exists v :: v in taken && v.key == k && d.At(k) == Settled(Superseded(Lookup(stored, k), v, writes, now))
  {
    if k in KeysOf(taken) {
      var i :| 0 <= i < |taken| && KeysOf(taken)[i] == k;
      assert taken[i] in taken;
    }
  }

  lemma HonestSwap(w: World, scope: Scope, d: Desk, memo: Entries, v: Value)
    requires d.Honest(w, scope, memo) && v.key in d.settled
    ensures v.key in memo
    ensures d.(settled := d.settled[v.key := v]).Honest(w, scope, memo[v.key := v])
  {
    hide FromOpenSource, TruthfulCause;
  }

  /** Replacing the value pinned for a key that was not pinned at the beginning, when sources may reach the cache. */
  lemma PinAgain(w: World, scope: Scope, a: Situation, b: Situation, stored: Entries, weaker: Value, now: real)
    requires b.Sound() && Progress(w, scope, a, b) && scope.cacheSource && weaker.key in b.memo && weaker.key !in a.memo
    requires KeepsKind(w, a.store.entries, stored) && FromOpenSource(w, scope, weaker)
    requires weaker.key in stored && stored[weaker.key].key == weaker.key && weaker.rank < stored[weaker.key].rank
    ensures var winning := CachedCopy(stored[weaker.key], false, now);
            var c := b.(memo := b.memo[weaker.key := winning]);
            c.Sound() && Progress(w, scope, a, c)
  {
    hide FromOpenSource, Progress, Situation.Sound;
    var k := weaker.key;
    OpenIsDeclared(w, scope, weaker);
    assert !Level(w, a.store.entries);
    if StoreDeclared(w, a.store.entries) { CopyDeclared(w, stored[k], false, now); }
    ProgressPin(w, scope, a, b, CachedCopy(stored[k], false, now));
    SoundMemo(b);
    assert b.force - {k} == b.force;
  }

  lemma UntouchedTwice(vs: seq<Value>, m0: Entries, m1: Entries, m2: Entries, f0: set<Key>, f1: set<Key>, f2: set<Key>)
    requires Untouched(vs, m0, m1, f0, f1) && Untouched(vs, m1, m2, f1, f2)
    ensures Untouched(vs, m0, m2, f0, f2)
  {
  }

  /** After the pinned values have been picked up, no open key was pinned at the beginning. */
  lemma PinnedAreSettled(w: World, scope: Scope, start: Situation, here: Situation, keys: seq<Key>, desk: Desk,
                         picked: Desk)
    requires Progress(w, scope, start, here) && desk.For(keys) && picked.For(keys)
    requires forall k :: k in keys ==> picked.At(k) == PickUp(desk.At(k), Lookup(here.memo, k))
    ensures forall k :: k in keys && k in start.memo ==> k in picked.settled
  {
    hide FromOpenSource;
    forall k | k in keys && k in start.memo ensures k in picked.settled {
      assert Lookup(here.memo, k).Some?;
      assert picked.At(k).Settled?;
    }
  }

  lemma AskedLater(w: World, scope: Scope, start: Situation, before: Situation, asked: Situation, desk: Desk)
    requires start.Sound() && Progress(w, scope, start, before) && Progress(w, scope, before, asked)
    requires desk.Honest(w, scope, before.memo)
    ensures Progress(w, scope, start, asked) && desk.Honest(w, scope, asked.memo)
  {
    ProgressTransitive(w, scope, start, before, asked);
    HonestLater(w, scope, desk, before.memo, asked.memo);
  }

  lemma SettledAt(desk: Desk, k: Key)
    requires k in desk.failures
    ensures k in desk.settled <==> desk.At(k).Settled?
  {
  }

  /** Results are written to the cache only where they cannot push anything out of it, or not at all. */
  ghost predicate Steady(scope: Scope, maxEntries: Option<nat>, entries: Entries, keys: set<Key>) {
    !scope.cacheSource || Roomy(maxEntries, entries, keys)
  }

  /** Nothing is written, or only where it cannot push anything out of the cache. */
  ghost predicate Spacious(scope: Scope, maxEntries: Option<nat>, entries: Entries, keys: set<Key>) {
    scope.cacheSource || scope.cacheStale ==> Roomy(maxEntries, entries, keys)
  }

  /** Every key has advanced by what the source says about it. */
  ghost predicate RoundDone(w: World, scope: Scope, source: Source, keys: seq<Key>, desk: Desk, d: Desk, a: Situation,
                            b: Situation, now: real) {
    forall k :: k in keys ==>
      && k in desk.failures && k in d.failures
      && d.At(k) == Advance(w.rules, PickUp(desk.At(k), Lookup(a.memo, k)),
                            VerdictOf(w, source, k, scope.ExcludedFor(k)), Lookup(a.store.entries, k),
                            scope.cacheSource, now)
      && (d.At(k).Open? ==> Lookup(b.memo, k) == Lookup(a.memo, k) && (k in b.force <==> k in a.force))
  }

  /** Keys outside the batch keep their pinned values and refresh marks. */
  ghost predicate Aloof(keys: seq<Key>, a: Situation, b: Situation) {
    forall k :: k !in keys ==> Lookup(b.memo, k) == Lookup(a.memo, k) && (k in b.force <==> k in a.force)
  }

  /** Pinned values of other keys are as before. */
  ghost predicate Outside(keys: seq<Key>, before: Entries, after: Entries) {
    forall k :: k !in keys ==> Lookup(after, k) == Lookup(before, k)
  }

  lemma OutsideReflexive(keys: seq<Key>, memo: Entries)
    ensures Outside(keys, memo, memo)
  {
  }

  lemma OutsideStep(keys: seq<Key>, before: Entries, after: Entries, v: Value)
    requires Outside(keys, before, after) && v.key in keys
    ensures Outside(keys, before, after[v.key := v])
  {
  }

  lemma AloofTransitive(keys: seq<Key>, a: Situation, b: Situation, c: Situation)
    requires Aloof(keys, a, b) && Aloof(keys, b, c)
    ensures Aloof(keys, a, c)
  {
  }

  lemma AloofReflexive(keys: seq<Key>, a: Situation)
    ensures Aloof(keys, a, a)
  {
  }

  /** What the steps of a round left behind, and the cache entries at the moment its fresh values were offered. */
  datatype Trace = Trace(picked: Desk, chosen: Desk, candidates: seq<Key>, attempts: map<Key, Attempt>, absorbed: Desk,
                         taken: seq<Value>, stored: Entries)

  /** The keys a source is asked for, in order. */
  ghost function AskedOf(w: World, scope: Scope, source: Source, keys: seq<Key>, settled: set<Key>): seq<Key> {
    if keys == [] then []
    else
      var k := keys[|keys| - 1];
      AskedOf(w, scope, source, keys[..|keys| - 1], settled) +
        if k !in settled && Screen(w, source, k, scope.ExcludedFor(k)).Ask? then [k] else []
  }

  /** The fresh values among the attempts for the candidates, in order. */
  ghost function FreshOf(r: Rules, source: Source, attempts: map<Key, Attempt>, candidates: seq<Key>): seq<Value> {
    if candidates == [] then []
    else
      var k := candidates[|candidates| - 1];
      FreshOf(r, source, attempts, candidates[..|candidates| - 1]) +
        if k in attempts && Judge(r, k, source.name, attempts[k]).Current?
        then [Judge(r, k, source.name, attempts[k]).value] else []
  }

  /** The fresh values of a direct source for the open keys of a batch, in order. */
  ghost function RoundOffers(w: World, scope: Scope, source: Source, keys: seq<Key>, desk: Desk,
                             memo: Entries): seq<Value> {
    if keys == [] then []
    else
      var k := keys[|keys| - 1];
      var verdict := VerdictOf(w, source, k, scope.ExcludedFor(k));
      RoundOffers(w, scope, source, keys[..|keys| - 1], desk, memo) +
        if k in desk.failures && PickUp(desk.At(k), Lookup(memo, k)).Open? && verdict.Current? then [verdict.value]
        else []
  }

  lemma {:induction false} AskedAmongUnsettled(w: World, scope: Scope, source: Source, keys: seq<Key>, desk: Desk)
    ensures AskedOf(w, scope, source, Unsettled(keys, desk), {}) == AskedOf(w, scope, source, keys, desk.settled.Keys)
  {
    hide Screen, Unsettled, NoDuplicates;
    if keys == [] {
      NoneUnsettled(desk);
    } else {
      var n := |keys| - 1;
      AskedAmongUnsettled(w, scope, source, keys[..n], desk);
      UnsettledStep(keys, desk);
      var front := Unsettled(keys[..n], desk);
      assert (front + [keys[n]])[..|front|] == front && front + [] == front;
    }
  }

  lemma NoneUnsettled(desk: Desk)
    ensures Unsettled([], desk) == []
  {
  }

  lemma UnsettledStep(keys: seq<Key>, desk: Desk)
    requires keys != []
    ensures var n := |keys| - 1;
      Unsettled(keys, desk) == Unsettled(keys[..n], desk) + if keys[n] !in desk.settled then [keys[n]] else []
  {
  }

  lemma {:induction false} AskedMembers(w: World, scope: Scope, source: Source, keys: seq<Key>, settled: set<Key>)
    ensures forall k :: k in AskedOf(w, scope, source, keys, settled) <==>
      k in keys && k !in settled && Screen(w, source, k, scope.ExcludedFor(k)).Ask?
    ensures NoDuplicates(keys) ==> NoDuplicates(AskedOf(w, scope, source, keys, settled))
  {
    hide Screen;
    if keys != [] {
      var n := |keys| - 1;
      AskedMembers(w, scope, source, keys[..n], settled);
      assert keys == keys[..n] + [keys[n]];
      if NoDuplicates(keys) { assert keys[n] !in keys[..n]; }
    }
  }

  /** A direct round offers the cache the fresh values of its open keys, in order. */
  lemma {:induction false} FreshAreOffers(w: World, scope: Scope, source: Source, keys: seq<Key>, desk: Desk,
                                          picked: Desk, attempts: map<Key, Attempt>, memo: Entries)
    requires forall k :: k in keys ==>
      k in desk.failures && (k !in picked.settled <==> PickUp(desk.At(k), Lookup(memo, k)).Open?)
    requires DirectAttempts(w, source, attempts)
    requires forall k :: k in keys && k !in picked.settled && Screen(w, source, k, scope.ExcludedFor(k)).Ask? ==>
      k in attempts
    ensures FreshOf(w.rules, source, attempts, AskedOf(w, scope, source, keys, picked.settled.Keys)) ==
      RoundOffers(w, scope, source, keys, desk, memo)
  {
    hide Screen, Judge, PickUp, Desk.At, Lookup;
    if keys != [] {
      var n, k := |keys| - 1, keys[|keys| - 1];
      var front := AskedOf(w, scope, source, keys[..n], picked.settled.Keys);
      FreshAreOffers(w, scope, source, keys[..n], desk, picked, attempts, memo);
      assert k in keys;
      if k !in picked.settled && Screen(w, source, k, scope.ExcludedFor(k)).Ask? {
        assert (front + [k])[..|front|] == front;
      } else {
        assert front + [] == front;
      }
    }
  }

  lemma RoundIsOffered(w: World, scope: Scope, source: Source, keys: seq<Key>, desk: Desk, t: Trace, d: Desk,
                       memo: Entries, now: real)
    requires Traced(w, scope, source, keys, desk, t, d, memo, now) && DirectAttempts(w, source, t.attempts)
    ensures t.taken == RoundOffers(w, scope, source, keys, desk, memo)
  {
    hide Screen, Absorbed, Gathered, Superseding, Advance, WellFiled, AskedOf, FreshOf, RoundOffers, DirectAttempts,
         Lookup, PickUp, Desk.At;
    forall k | k in keys
      ensures k in desk.failures && (k !in t.picked.settled <==> PickUp(desk.At(k), Lookup(memo, k)).Open?)
    {
      TracedPicked(w, scope, source, keys, desk, t, d, memo, now, k);
    }
    FreshAreOffers(w, scope, source, keys, desk, t.picked, t.attempts, memo);
  }

  /** The trace belongs to a round that found `memo` pinned and took the desk from `desk` to `d`. */
  ghost predicate Traced(w: World, scope: Scope, source: Source, keys: seq<Key>, desk: Desk, t: Trace, d: Desk,
                         memo: Entries, now: real) {
    && desk.For(keys) && t.picked.For(keys) && t.chosen.For(keys) && t.absorbed.For(keys) && d.For(keys)
    && (forall k :: k in keys ==> t.picked.At(k) == PickUp(desk.At(k), Lookup(memo, k)))
    && t.chosen.settled == t.picked.settled
    && (forall k :: k in keys ==> t.chosen.At(k) == Advance(w.rules, t.picked.At(k),
                                                            Unasked(Screen(w, source, k, scope.ExcludedFor(k))), None,
                                                            false, now))
    && (forall k :: k in t.candidates <==>
          k in keys && k !in t.picked.settled && Screen(w, source, k, scope.ExcludedFor(k)).Ask?)
    && t.candidates == AskedOf(w, scope, source, keys, t.picked.settled.Keys)
    && t.taken == FreshOf(w.rules, source, t.attempts, t.candidates)
    && t.attempts.Keys == Elems(t.candidates)
    && Absorbed(w.rules, source, t.attempts, t.candidates, keys, t.chosen, t.absorbed, now)
    && Gathered(w.rules, source, t.attempts, t.candidates, t.taken)
    && Superseding(t.stored, scope.cacheSource, t.taken, |t.taken|, t.absorbed, d, now)
  }

  /** The verdict of the source on a key, by the attempts of the round. */
  ghost function VerdictIn(w: World, scope: Scope, source: Source, attempts: map<Key, Attempt>, k: Key): Verdict {
    VerdictBy(w, source, k, scope.ExcludedFor(k), if k in attempts then attempts[k] else Failed(StaleData))
  }

  /** A fresh value was taken for a key exactly when the key was open and its verdict is current. */
  lemma TakenExactly(w: World, scope: Scope, source: Source, keys: seq<Key>, desk: Desk, t: Trace, d: Desk,
                     memo: Entries, now: real, k: Key)
    requires Traced(w, scope, source, keys, desk, t, d, memo, now)
    ensures var verdict := VerdictIn(w, scope, source, t.attempts, k);
            && (k in KeysOf(t.taken) <==> k in keys && k !in t.picked.settled && verdict.Current?)
            && (k in KeysOf(t.taken) ==> verdict.value in t.taken && verdict.value.key == k)
  {
    hide Judge, Screen, Superseding, Absorbed, NoDuplicates, Advance, Desk.At, WellFiled;
    var verdict := VerdictIn(w, scope, source, t.attempts, k);
    if k in KeysOf(t.taken) {
      var i :| 0 <= i < |t.taken| && KeysOf(t.taken)[i] == k;
      assert t.taken[i] in t.taken;
    }
    if k in keys && k !in t.picked.settled && verdict.Current? {
      assert Screen(w, source, k, scope.ExcludedFor(k)).Ask?;
      assert k in t.candidates && k in t.attempts;
      assert verdict.value in t.taken;
      var i :| 0 <= i < |t.taken| && t.taken[i] == verdict.value;
      assert KeysOf(t.taken)[i] == k;
    }
  }

  /** The standings a traced round leads one key through. */
  lemma TracedAt(w: World, scope: Scope, source: Source, keys: seq<Key>, desk: Desk, t: Trace, d: Desk, memo: Entries,
                 now: real, k: Key)
    requires Traced(w, scope, source, keys, desk, t, d, memo, now) && k in keys
    ensures k in desk.failures && k in t.picked.failures && k in d.failures
    ensures t.picked.At(k) == PickUp(desk.At(k), Lookup(memo, k))
    ensures k in t.picked.settled <==> t.picked.At(k).Settled?
    ensures k !in KeysOf(t.taken) ==> d.At(k) == Advance(w.rules, t.picked.At(k),
                                                         VerdictIn(w, scope, source, t.attempts, k), None, false, now)
    ensures k in KeysOf(t.taken) ==>
      exists v ::
        v in t.taken && v.key == k && d.At(k) == Settled(Superseded(Lookup(t.stored, k), v, scope.cacheSource, now))
  {
    hide Judge, Screen, Gathered, Absorbed, NoDuplicates, WellFiled, Superseding, Advance, Desk.At, KeysOf, Lookup;
    TracedAbsorbed(w, scope, source, keys, desk, t, d, memo, now, k);
    SupersededAt(t.stored, scope.cacheSource, t.taken, t.absorbed, d, now, k);
    SettledAt(t.picked, k);
  }

  lemma TracedAbsorbed(w: World, scope: Scope, source: Source, keys: seq<Key>, desk: Desk, t: Trace, d: Desk,
                       memo: Entries, now: real, k: Key)
    requires Traced(w, scope, source, keys, desk, t, d, memo, now) && k in keys
    ensures k in t.absorbed.failures
    ensures t.absorbed.At(k) == Advance(w.rules, t.picked.At(k), VerdictIn(w, scope, source, t.attempts, k), None,
                                        false, now)
  {
    hide Judge, Screen, Gathered, Absorbed, NoDuplicates, WellFiled, Superseding, KeysOf, Desk.At;
    AbsorbedAt(w.rules, source, t.attempts, t.candidates, keys, t.chosen, t.absorbed, now, k);
    SettledAt(t.picked, k);
  }

  lemma TracedTaken(w: World, scope: Scope, source: Source, keys: seq<Key>, desk: Desk, t: Trace, d: Desk,
                    memo: Entries, now: real)
    requires Traced(w, scope, source, keys, desk, t, d, memo, now)
    ensures NoDuplicates(KeysOf(t.taken)) && forall v :: v in t.taken ==> v.key in keys
    ensures forall u, v :: u in t.taken && v in t.taken && u.key == v.key ==> u == v
  {
    hide Judge, NoDuplicates, Absorbed, Superseding, Advance, Desk.At, WellFiled, Screen;
    forall u, v | u in t.taken && v in t.taken && u.key == v.key ensures u == v {
      assert Judge(w.rules, u.key, source.name, t.attempts[u.key]) == Current(u);
    }
  }

  lemma TracedPicked(w: World, scope: Scope, source: Source, keys: seq<Key>, desk: Desk, t: Trace, d: Desk,
                     memo: Entries, now: real, k: Key)
    requires Traced(w, scope, source, keys, desk, t, d, memo, now) && k in keys
    ensures k in desk.failures && (k !in t.picked.settled <==> PickUp(desk.At(k), Lookup(memo, k)).Open?)
  {
    assert t.picked.At(k) == PickUp(desk.At(k), Lookup(memo, k));
  }

  /** A round advances each key by its verdict. */
  lemma RoundAdvances(w: World, scope: Scope, source: Source, keys: seq<Key>, desk: Desk, t: Trace, d: Desk,
                      memo: Entries, now: real, k: Key)
    requires Traced(w, scope, source, keys, desk, t, d, memo, now) && k in keys
    ensures k in desk.failures && k in d.failures
    ensures d.At(k) == Advance(w.rules, PickUp(desk.At(k), Lookup(memo, k)), VerdictIn(w, scope, source, t.attempts, k),
                               Lookup(t.stored, k), scope.cacheSource, now)
    ensures d.At(k).Open? ==> k !in KeysOf(t.taken)
  {
    hide VerdictIn, NoDuplicates, WellFiled, KeysOf, Superseded, BetterStale, Traced, Desk.At, Lookup;
    TakenExactly(w, scope, source, keys, desk, t, d, memo, now, k);
    TracedAt(w, scope, source, keys, desk, t, d, memo, now, k);
    TracedTaken(w, scope, source, keys, desk, t, d, memo, now);
  }

  /**
    What a round found pinned, what was pinned once its source had been asked, what it answered, and what the cache held
    then.
   */
  datatype RoundLog = RoundLog(memo: Entries, asked: Entries, attempts: map<Key, Attempt>, stored: Entries)

  /** Every key has advanced by what the round's log says about it. */
  ghost predicate RoundBy(w: World, scope: Scope, source: Source, keys: seq<Key>, desk: Desk, d: Desk, log: RoundLog,
                          now: real) {
    forall k :: k in keys ==>
      && k in desk.failures && k in d.failures
      && d.At(k) == Advance(w.rules, PickUp(desk.At(k), Lookup(log.memo, k)),
                            VerdictIn(w, scope, source, log.attempts, k), Lookup(log.stored, k), scope.cacheSource, now)
  }

  lemma RoundIsLogged(w: World, scope: Scope, source: Source, keys: seq<Key>, desk: Desk, t: Trace, d: Desk,
                      memo: Entries, now: real)
    requires Traced(w, scope, source, keys, desk, t, d, memo, now)
    ensures forall asked :: RoundBy(w, scope, source, keys, desk, d, RoundLog(memo, asked, t.attempts, t.stored), now)
  {
    hide Traced, Advance, VerdictIn, Desk.At, PickUp, KeysOf, Lookup;
    forall k | k in keys
      ensures k in desk.failures && k in d.failures
      ensures d.At(k) == Advance(w.rules, PickUp(desk.At(k), Lookup(memo, k)),
                                 VerdictIn(w, scope, source, t.attempts, k), Lookup(t.stored, k), scope.cacheSource,
                                 now)
    {
      RoundAdvances(w, scope, source, keys, desk, t, d, memo, now, k);
    }
  }

  /** The attempts of a direct source are its answers. */
  ghost predicate DirectAttempts(w: World, source: Source, attempts: map<Key, Attempt>) {
    forall k :: k in attempts ==> attempts[k] == Asked(w.answer(source.name, k))
  }

  /** For a key that was open, the round's verdict is the direct source's verdict. */
  lemma DirectVerdict(w: World, scope: Scope, source: Source, keys: seq<Key>, desk: Desk, t: Trace, d: Desk,
                      memo: Entries, now: real, k: Key)
    requires Traced(w, scope, source, keys, desk, t, d, memo, now) && DirectAttempts(w, source, t.attempts) && k in keys
    ensures k !in t.picked.settled ==>
      VerdictIn(w, scope, source, t.attempts, k) == VerdictOf(w, source, k, scope.ExcludedFor(k))
  {
    hide Judge, Screen, Gathered, Absorbed, NoDuplicates, Superseding, Advance, Desk.At, WellFiled;
  }

  lemma RoundIsDone(w: World, scope: Scope, source: Source, keys: seq<Key>, desk: Desk, t: Trace, d: Desk, a: Situation,
                    b: Situation, now: real)
    requires Traced(w, scope, source, keys, desk, t, d, a.memo, now) && DirectAttempts(w, source, t.attempts)
    requires t.stored == a.store.entries && Untouched(t.taken, a.memo, b.memo, a.force, b.force)
    ensures RoundDone(w, scope, source, keys, desk, d, a, b, now)
  {
    hide Traced, VerdictOf, VerdictIn, Desk.At, KeysOf, DirectAttempts, Superseded, BetterStale;
    forall k | k in keys
      ensures k in desk.failures && k in d.failures
      ensures d.At(k) ==
        Advance(w.rules, PickUp(desk.At(k), Lookup(a.memo, k)), VerdictOf(w, source, k, scope.ExcludedFor(k)),
                                 Lookup(a.store.entries, k), scope.cacheSource, now)
      ensures d.At(k).Open? ==> Lookup(b.memo, k) == Lookup(a.memo, k) && (k in b.force <==> k in a.force)
    {
      RoundAdvances(w, scope, source, keys, desk, t, d, a.memo, now, k);
      TracedPicked(w, scope, source, keys, desk, t, d, a.memo, now, k);
      DirectVerdict(w, scope, source, keys, desk, t, d, a.memo, now, k);
    }
  }

  lemma RoundIsAloof(w: World, scope: Scope, source: Source, keys: seq<Key>, desk: Desk, t: Trace, d: Desk,
                     a: Situation, b: Situation, now: real)
    requires Traced(w, scope, source, keys, desk, t, d, a.memo, now)
    requires Untouched(t.taken, a.memo, b.memo, a.force, b.force)
    ensures Aloof(keys, a, b)
  {
    hide Traced;
    TracedTaken(w, scope, source, keys, desk, t, d, a.memo, now);
    forall k | k !in keys ensures k !in KeysOf(t.taken) {
      assert forall i :: 0 <= i < |t.taken| ==> t.taken[i] in t.taken;
    }
  }

  lemma FreshDesk(w: World, scope: Scope, keys: seq<Key>, memo: Entries, desk: Desk)
    requires desk == Desk(map k | k in keys :: [], map[], map[])
    ensures desk.For(keys) && desk.Honest(w, scope, memo)
    ensures forall k :: k in keys ==> desk.At(k) == Open([], None)
  {
  }

  lemma DeskKeys(desk: Desk, keys: seq<Key>)
    requires desk.For(keys)
    ensures desk.failures.Keys == Elems(keys)
  {
  }

  /** Direct attempts are the source's answers, derived ones come from resolved dependencies. */
  ghost predicate AttemptedBy(w: World, source: Source, ancestry: seq<Key>, memo: Entries,
                              attempts: map<Key, Attempt>) {
    && (source.kind == Direct ==> DirectAttempts(w, source, attempts))
    && (source.kind == Derived ==> forall k :: k in attempts ==> Derivation(w, source, k, ancestry, memo, attempts[k]))
  }

  /** Every attempt is the source's own, recording pinned values. */
  ghost predicate AllSourced(w: World, source: Source, memo: Entries, attempts: map<Key, Attempt>) {
    forall k :: k in attempts ==> Sourced(w, source, k, memo, attempts[k])
  }

  lemma AttemptsLater(w: World, source: Source, ancestry: seq<Key>, before: Entries, after: Entries,
                      attempts: map<Key, Attempt>)
    requires AttemptedBy(w, source, ancestry, before, attempts) && AllSourced(w, source, before, attempts)
    requires forall k :: k in before ==> k in after && after[k] == before[k]
    ensures AttemptedBy(w, source, ancestry, after, attempts) && AllSourced(w, source, after, attempts)
  {
    hide Derivation, Sourced;
    forall k | k in attempts ensures Sourced(w, source, k, after, attempts[k]) {
      SourcedLater(w, source, k, before, after, attempts[k]);
    }
    forall k | k in attempts && source.kind == Derived ensures Derivation(w, source, k, ancestry, after, attempts[k]) {
      DerivationLater(w, source, k, ancestry, before, after, attempts[k]);
    }
  }

  /** No open key has been given a fresh value by one of the first `i` direct sources. */
  ghost predicate Waiting(w: World, scope: Scope, keys: seq<Key>, desk: Desk, i: nat)
    requires i <= |w.sources|
  {
    forall k :: k in keys && k !in desk.settled ==> NoneCurrentBefore(w, k, scope.ExcludedFor(k), i)
  }

  /** Each of the first `i` sources has been passed over for the resource or is accounted for by a failure. */
  ghost predicate SpokenFor(w: World, scope: Scope, k: Key, failures: seq<Failure>, i: nat)
    requires i <= |w.sources|
  {
    forall j :: 0 <= j < i ==> AccountsFor(w, scope, w.sources[j], k, failures)
  }

  /** The failures of every open key account for the first `i` sources. */
  ghost predicate Spoken(w: World, scope: Scope, keys: seq<Key>, desk: Desk, i: nat)
    requires i <= |w.sources|
  {
    forall k :: k in keys && k !in desk.settled ==> k in desk.failures && SpokenFor(w, scope, k, desk.failures[k], i)
  }

  lemma SpokenBegin(w: World, scope: Scope, keys: seq<Key>, desk: Desk)
    requires desk.For(keys)
    ensures Spoken(w, scope, keys, desk, 0)
  {
  }

  lemma SpokenIsWaiting(w: World, scope: Scope, keys: seq<Key>, desk: Desk, i: nat)
    requires i <= |w.sources| && Spoken(w, scope, keys, desk, i)
    ensures Waiting(w, scope, keys, desk, i)
  {
    hide Judge, DerivedGrounds;
    forall k, j | k in keys && k !in desk.settled && 0 <= j < i && w.sources[j].kind == Direct
      ensures !VerdictOf(w, w.sources[j], k, scope.ExcludedFor(k)).Current?
    {
      assert AccountsFor(w, scope, w.sources[j], k, desk.failures[k]);
    }
  }

  /** What a judged attempt fails with has grounds. */
  lemma JudgedGrounds(w: World, scope: Scope, s: Source, k: Key, memo: Entries, attempt: Attempt, f: Failure)
    requires Screen(w, s, k, scope.ExcludedFor(k)).Ask? && Sourced(w, s, k, memo, attempt)
    requires FailureOf(Judge(w.rules, k, s.name, attempt)) == [f]
    ensures Grounds(w, scope, s, k, f)
  {
    hide Screen;
    if s.kind == Derived && attempt.Succeeded? {
      var values: Entries, n: nat :|
        && Inputs(w, s, k, values) && PinnedAs(memo, values) && VersionedBy(attempt.deps, values)
        && w.derive(s.name, k, values, n) == Delivered(attempt.delivery);
      var verdict := Judge(w.rules, k, s.name, Succeeded(attempt.delivery, []));
      assert DerivesAs(w, s, k, values, n, verdict);
      if verdict.Aged? { assert DerivesAs(w, s, k, values, n, Aged(verdict.value)); }
    }
  }

  /** After a round the failures of a key that is still open account for its source. */
  lemma RoundAccounts(w: World, scope: Scope, s: Source, memo: Entries, attempts: map<Key, Attempt>, k: Key,
                      failures: seq<Failure>)
    requires AllSourced(w, s, memo, attempts) && (Screen(w, s, k, scope.ExcludedFor(k)).Ask? ==> k in attempts)
    requires !VerdictIn(w, scope, s, attempts, k).Current?
    ensures AccountsFor(w, scope, s, k, failures + FailureOf(VerdictIn(w, scope, s, attempts, k)))
  {
    hide Judge, Sourced, DerivedGrounds;
    var verdict := VerdictIn(w, scope, s, attempts, k);
    if !Screen(w, s, k, scope.ExcludedFor(k)).Skipped? {
      var f := FailureOf(verdict)[0];
      assert f in failures + FailureOf(verdict);
      if Screen(w, s, k, scope.ExcludedFor(k)).Ask? { JudgedGrounds(w, scope, s, k, memo, attempts[k], f); }
    }
  }

  lemma SpokenStep(w: World, scope: Scope, keys: seq<Key>, desk: Desk, d: Desk, log: RoundLog, now: real, i: nat)
    requires i < |w.sources| && Spoken(w, scope, keys, desk, i) && desk.For(keys) && d.For(keys)
    requires RoundBy(w, scope, w.sources[i], keys, desk, d, log, now)
    requires AsksAll(w, scope, w.sources[i], keys, desk, log)
    requires AllSourced(w, w.sources[i], log.asked, log.attempts)
    ensures Spoken(w, scope, keys, d, i + 1)
  {
    hide VerdictIn, Superseded, BetterStale, Lookup, WellFiled, AccountsFor, Screen, AllSourced;
    forall k | k in keys && k !in d.settled ensures k in d.failures && SpokenFor(w, scope, k, d.failures[k], i + 1) {
      var verdict := VerdictIn(w, scope, w.sources[i], log.attempts, k);
      assert d.At(k).Open? && desk.At(k).Open? && PickUp(desk.At(k), Lookup(log.memo, k)).Open?;
      assert d.failures[k] == desk.failures[k] + FailureOf(verdict);
      RoundAccounts(w, scope, w.sources[i], log.asked, log.attempts, k, desk.failures[k]);
      MoreFailures(w, scope, k, desk.failures[k], FailureOf(verdict), i);
    }
  }

  lemma MoreFailures(w: World, scope: Scope, k: Key, failures: seq<Failure>, more: seq<Failure>, i: nat)
    requires i <= |w.sources| && SpokenFor(w, scope, k, failures, i)
    ensures SpokenFor(w, scope, k, failures + more, i)
  {
    hide Grounds, Screen;
    forall j | 0 <= j < i ensures AccountsFor(w, scope, w.sources[j], k, failures + more) {
      assert AccountsFor(w, scope, w.sources[j], k, failures);
    }
  }

  lemma AttemptedDirectly(w: World, source: Source, ancestry: seq<Key>, memo: Entries, attempts: map<Key, Attempt>)
    requires AttemptedBy(w, source, ancestry, memo, attempts) && source.kind == Direct
    ensures DirectAttempts(w, source, attempts)
  {
  }

  lemma WaitingFewer(w: World, scope: Scope, keys: seq<Key>, desk: Desk, chosen: Desk, i: nat)
    requires i <= |w.sources| && Waiting(w, scope, keys, desk, i)
    requires forall k :: k in desk.settled ==> k in chosen.settled
    ensures Waiting(w, scope, keys, chosen, i)
  {
    hide NoneCurrentBefore;
  }

  lemma PickedUpMore(desk: Desk, keys: seq<Key>, memo: Entries)
    ensures forall k :: k in desk.settled ==> k in PickedUp(desk, keys, memo).settled
  {
  }

  lemma SameKind(w: World, entries: Entries)
    ensures KeepsKind(w, entries, entries)
  {
  }

  /** A write refused for lower authority met a stored value of higher rank. */
  lemma OutrankedBy(stored: Entries, v: Value, result: WriteResult)
    requires Answers(stored, v, result) && result.status == IgnoredLowerAuthority
    ensures v.key in stored && stored[v.key] == result.value && v.rank < stored[v.key].rank
  {
  }

  /** Every key that was open and could be asked for was asked for. */
  ghost predicate AsksAll(w: World, scope: Scope, source: Source, keys: seq<Key>, desk: Desk, log: RoundLog) {
    forall k :: k in keys && k in desk.failures && PickUp(desk.At(k), Lookup(log.memo, k)).Open? &&
                Screen(w, source, k, scope.ExcludedFor(k)).Ask? ==>
      k in log.attempts
  }

  lemma RoundAsksAll(w: World, scope: Scope, source: Source, keys: seq<Key>, desk: Desk, t: Trace, d: Desk,
                     memo: Entries, now: real, log: RoundLog)
    requires Traced(w, scope, source, keys, desk, t, d, memo, now) && log.memo == memo && log.attempts == t.attempts
    ensures AsksAll(w, scope, source, keys, desk, log)
  {
    hide Screen, Absorbed, Gathered, Superseding, Advance, Desk.At, WellFiled, PickUp, Lookup;
    forall k | k in keys && k in desk.failures && PickUp(desk.At(k), Lookup(memo, k)).Open? &&
               Screen(w, source, k, scope.ExcludedFor(k)).Ask?
      ensures k in t.attempts
    {
      SettledAt(t.picked, k);
    }
  }

  lemma AskedStep(w: World, scope: Scope, source: Source, keys: seq<Key>, n: nat)
    requires n < |keys|
    ensures AskedOf(w, scope, source, keys[..n + 1], {}) ==
      AskedOf(w, scope, source, keys[..n], {}) + if Screen(w, source, keys[n],
                                                           scope.ExcludedFor(keys[n])).Ask? then [keys[n]] else []
  {
    assert keys[..n + 1][..n] == keys[..n];
  }

  lemma NobodyAsked(w: World, scope: Scope, source: Source)
    ensures AskedOf(w, scope, source, [], {}) == []
  {
  }

  lemma FreshStep(r: Rules, source: Source, attempts: map<Key, Attempt>, candidates: seq<Key>, n: nat)
    requires n < |candidates| && candidates[n] in attempts
    ensures var verdict := Judge(r, candidates[n], source.name, attempts[candidates[n]]);
            FreshOf(r, source, attempts, candidates[..n + 1]) ==
              FreshOf(r, source, attempts, candidates[..n]) + if verdict.Current? then [verdict.value] else []
    ensures FreshOf(r, source, attempts, []) == []
  {
    assert candidates[..n + 1][..n] == candidates[..n];
  }

  /** The only writes of a direct round are the offers of its fresh values. */
  ghost predicate RoundWrites(w: World, scope: Scope, maxEntries: Option<nat>, source: Source, keys: seq<Key>,
                              desk: Desk, a: Situation, b: Situation) {
    a.store.Valid() && b.store == AfterWrite(a.store, RoundOffers(w, scope, source, keys, desk, a.memo),
                                             scope.cacheSource, maxEntries)
  }
}
