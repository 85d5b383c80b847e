/** Resolution itself: pinned values, then the shared cache, then the sources, recursing through derived sources. */
module Resolver {
  import opened Core
  import opened WriteOrder
  import opened DependencyGraph
  import opened MemoryCache
  import opened AsyncMemoryCache
  import opened Sources
  import opened Resolution
  import opened RuntimeState
  import opened KeyLists
  import opened CacheOffers
  import opened CacheLookups
  import opened Rounds
  import opened SourceLoop
  import opened Batches
  import opened Requests

  class SnapshotBuilder {
    const w: World
    const cache: Cache
    ghost const universe: set<Key>
    var inFlight: set<Key>
    var serial: nat

    constructor (w: World, cache: Cache, ghost universe: set<Key>)
      requires w.sources != [] && Enclosed(w, universe)
      ensures this.w == w && this.cache == cache && this.universe == universe && inFlight == {}
    {
      this.w, this.cache, this.universe, inFlight, serial := w, cache, universe, {}, 0;
    }

    ghost function Here(rt: Runtime): Situation
      reads this, rt, cache
    {
      Situation(rt.memo, rt.force, cache.State())
    }

    ghost predicate Ready(rt: Runtime)
      reads this, rt, cache
    {
      Here(rt).Sound() && Enclosed(w, universe) && w.sources != []
    }

    /** Whether the deadline has passed at this point. */
    method Expired() returns (r: bool)
      modifies this`serial
      ensures r == w.expires(old(serial)) && serial == old(serial) + 1
      ensures w.Unhurried() ==> !r
    {
      r := w.expires(serial);
      serial := serial + 1;
    }

    /** A batch write; the deadline may pass before it or after it. */
    method WriteCache(values: seq<Value>) returns (expired: bool, results: map<Key, WriteResult>)
      requires cache.Valid() && values != [] && NoDuplicates(KeysOf(values))
      modifies this`serial, cache
      ensures cache.Valid()
      ensures w.Unhurried() ==> !expired
      ensures cache.State() ==
        old(cache.State()) || cache.State() == Commit(old(cache.State()), Select(values), false, false,
                                                      cache.maxEntries)
      ensures !expired ==> cache.State() == Commit(old(cache.State()), Select(values), false, false, cache.maxEntries)
      ensures !expired ==>
        forall v :: v in values ==> v.key in results && Answers(old(cache.entries), v, results[v.key])
    {
      hide Commit, Select, WriteStatusOf, NoDuplicates, Store.Valid, Candidates.Valid;
      expired := Expired();
      if expired {
        return true, map[];
      }
      var sections;
      ghost var instant;
      assert KeepsValid(Undisturbed);
      results, sections, instant := cache.SetManyIfNewer(values, false, false, Undisturbed);
      UndisturbedDrift(old(cache.State()), sections);
      forall v | v in values ensures v.key in results && Answers(old(cache.entries), v, results[v.key]) {
        var i :| 0 <= i < |values| && values[i] == v;
        WinnerOfDistinct(values, i);
        assert Lookup(Select(values).byKey, v.key) == Some(v);
      }
      expired := Expired();
    }

    // ---- One source after another ----------------------------------------------------------

    /** Settles the open keys that have been pinned in the meantime. */
    method PickUpPinned(keys: seq<Key>, rt: Runtime, desk: Desk) returns (d: Desk)
      requires rt.force !! rt.memo.Keys
      ensures d == PickedUp(desk, keys, rt.memo)
    {
      hide NoDuplicates;
      var unresolved := Unsettled(keys, desk);
      var settled := desk.settled;
      for n := 0 to |unresolved|
        invariant forall k :: k in settled <==> k in desk.settled || (k in unresolved[..n] && k in rt.memo)
        invariant forall k :: k in settled ==> settled[k] == if k in desk.settled then desk.settled[k] else rt.memo[k]
      {
        var key := unresolved[n];
        assert unresolved[..n + 1] == unresolved[..n] + [key];
        if !rt.RequiresRefresh(key) && key in rt.memo {
          settled := settled[key := rt.memo[key]];
        }
      }
      assert unresolved[..|unresolved|] == unresolved;
      d := desk.(settled := settled);
    }

    /** The keys this source is asked for. */
    method Choose(source: Source, keys: seq<Key>, rt: Runtime, desk: Desk, now: real)
      returns (candidates: seq<Key>, d: Desk)
      requires desk.For(keys) && NoDuplicates(keys) && desk.Honest(w, rt.Settings(), rt.memo)
      ensures d.For(keys) && d.settled == desk.settled && d.Honest(w, rt.Settings(), rt.memo)
      ensures NoDuplicates(candidates)
      ensures forall k :: k in candidates <==> k in keys && k !in desk.settled && ScreenFor(source, k, rt).Ask?
      ensures forall k :: k in keys ==> d.At(k) == Advance(w.rules, desk.At(k), Unasked(ScreenFor(source, k, rt)), None,
                                                           false, now)
      ensures candidates == AskedOf(w, rt.Settings(), source, keys, desk.settled.Keys)
    {
      hide AskedOf, Desk.At, Desk.Honest, Desk.For, Screen, Screened, Record, Advance, WellFiled, TruthfulCause,
           NoDuplicates;
      DeskKeys(desk, keys);
      var unresolved := Unsettled(keys, desk);
      candidates, d := [], desk;
      AskedAmongUnsettled(w, rt.Settings(), source, keys, desk);
      AskedMembers(w, rt.Settings(), source, keys, desk.settled.Keys);
      NobodyAsked(w, rt.Settings(), source);
      assert unresolved[..0] == [];
      NobodyScreened(w, rt.Settings(), source, keys, desk, now);
      for n := 0 to |unresolved|
        invariant d.For(keys) && d.settled == desk.settled && d.Honest(w, rt.Settings(), rt.memo)
        invariant candidates == AskedOf(w, rt.Settings(), source, unresolved[..n], {})
        invariant Screened(w, rt.Settings(), source, unresolved[..n], keys, desk, d, now)
      {
        var key := unresolved[n];
        LastIsNew(unresolved, n);
        ScreenedStep(w, rt.Settings(), source, unresolved[..n], keys, desk, d, now, key);
        var screening := ScreenFor(source, key, rt);
        AskedStep(w, rt.Settings(), source, unresolved, n);
        ScreenTruthful(w, rt.Settings(), source, key, rt.Settings().ExcludedFor(key));
        RecordHonest(w, rt.Settings(), rt.memo, d, keys, key, Unasked(screening));
        if screening.Ask? {
          candidates := candidates + [key];
        }
        d := Record(w.rules, d, key, Unasked(screening));
      }
      assert unresolved[..|unresolved|] == unresolved;
      AllScreened(w, rt.Settings(), source, keys, desk, d, now);
    }

    function ScreenFor(source: Source, k: Key, rt: Runtime): Screening
      reads rt
    {
      Screen(w, source, k, rt.Settings().ExcludedFor(k))
    }

    // ---- Taking in the answers --------------------------------------------------------------

    /** Takes the attempts of one source in candidate order; fresh values are pinned at once. */
    method Absorb(source: Source, keys: seq<Key>, candidates: seq<Key>, attempts: map<Key, Attempt>, rt: Runtime,
                  desk: Desk, now: real, ghost start: Situation, ghost turn: nat)
      returns (taken: seq<Value>, d: Desk)
      requires Here(rt).Sound() && Progress(w, rt.Settings(), start, Here(rt))
      requires desk.For(keys) && desk.Honest(w, rt.Settings(), rt.memo)
      requires turn < |w.sources| && source == w.sources[turn] && NoDuplicates(candidates)
      requires AllSourced(w, source, rt.memo, attempts) && Waiting(w, rt.Settings(), keys, desk, turn)
      requires forall k :: k in candidates ==>
        k in keys && k !in desk.settled && k !in start.memo && ScreenFor(source, k, rt).Ask?
      requires attempts.Keys == Elems(candidates)
      requires forall k :: k in candidates && attempts[k].Failed? ==> TruthfulCause(w, rt.Settings(), attempts[k].cause)
      modifies rt`memo, rt`force
      ensures Here(rt).Sound() && Progress(w, rt.Settings(), start, Here(rt))
      ensures d.For(keys) && d.Honest(w, rt.Settings(), rt.memo)
      ensures Absorbed(w.rules, source, attempts, candidates, keys, desk, d, now)
      ensures Gathered(w.rules, source, attempts, candidates, taken)
      ensures Untouched(taken, old(rt.memo), rt.memo, old(rt.force), rt.force)
      ensures forall v :: v in taken ==> FromOpenSource(w, rt.Settings(), v)
      ensures taken == FreshOf(w.rules, source, attempts, candidates)
    {
      hide FreshOf, FromOpenSource, Sourced, NoneCurrentBefore, Desk.Honest, Screen, Record, WellFiled, TruthfulCause,
           NoDuplicates, Progress, Situation.Sound, Untouched, Gathered, Absorbed, Judge;
      taken, d := [], desk;
      NothingTaken(w.rules, source, attempts, keys, desk, now, rt.memo, rt.force);
      assert candidates[..0] == [];
      for n := 0 to |candidates|
        invariant Here(rt).Sound() && Progress(w, rt.Settings(), start, Here(rt))
        invariant d.For(keys) && d.Honest(w, rt.Settings(), rt.memo)
        invariant forall i :: n <= i < |candidates| ==> candidates[i] !in d.settled
        invariant Absorbed(w.rules, source, attempts, candidates[..n], keys, desk, d, now)
        invariant Gathered(w.rules, source, attempts, candidates[..n], taken)
        invariant Untouched(taken, old(rt.memo), rt.memo, old(rt.force), rt.force)
        invariant old(rt.memo).Keys <= rt.memo.Keys && forall v :: v in taken ==> FromOpenSource(w, rt.Settings(), v)
        invariant taken == FreshOf(w.rules, source, attempts, candidates[..n])
      {
        FreshStep(w.rules, source, attempts, candidates, n);
        var key := candidates[n];
        LastIsNew(candidates, n);
        RestIsNew(candidates, n);
        var verdict := Judge(w.rules, key, source.name, attempts[key]);
        JudgedFaithfully(w, rt.Settings(), turn, key, old(rt.memo), attempts[key]);
        AbsorbedStep(w.rules, source, attempts, candidates[..n], keys, desk, d, now, key);
        GatheredStep(w.rules, source, attempts, candidates[..n], taken, key, old(rt.memo), rt.memo, old(rt.force),
                     rt.force);
        RecordHonest(w, rt.Settings(), rt.memo, d, keys, key, verdict);
        d := Record(w.rules, d, key, verdict);
        if verdict.Current? {
          OpenIsDeclared(w, rt.Settings(), verdict.value);
          ProgressPin(w, rt.Settings(), start, Here(rt), verdict.value);
          taken := taken + [verdict.value];
          rt.memo := rt.memo[key := verdict.value];
          rt.MarkRefreshed(key);
        }
      }
      assert candidates[..|candidates|] == candidates;
    }

    /** Offers fresh values to the shared cache and yields to the cached value where authority refuses one. */
    method WriteTaken(taken: seq<Value>, keys: seq<Key>, rt: Runtime, desk: Desk, now: real, ghost start: Situation)
      returns (expired: bool, d: Desk)
      requires Here(rt).Sound() && Progress(w, rt.Settings(), start, Here(rt))
      requires desk.For(keys) && desk.Honest(w, rt.Settings(), rt.memo)
      requires NoDuplicates(KeysOf(taken))
      requires forall v :: v in taken ==> v.key !in start.memo && v.key in desk.settled && desk.settled[v.key] == v
      requires forall v :: v in taken ==> FromOpenSource(w, rt.Settings(), v)
      modifies this`serial, rt`memo, cache
      ensures Here(rt).Sound() && Progress(w, rt.Settings(), start, Here(rt))
      ensures !expired ==> d.For(keys) && d.Honest(w, rt.Settings(), rt.memo)
      ensures w.Unhurried() ==> !expired
      ensures !expired ==> Superseding(old(cache.entries), rt.cacheSource, taken, |taken|, desk, d, now)
      ensures !expired ==> cache.State() == AfterWrite(old(cache.State()), taken, rt.cacheSource, cache.maxEntries)
      ensures Untouched(taken, old(rt.memo), rt.memo, old(rt.force), rt.force)
    {
      hide FromOpenSource, KeepsKind, Desk.Honest, Desk.For, NoDuplicates, Progress, Situation.Sound, Untouched,
           Superseding, Commit, Select, Store.Valid, Superseded, Answers;
      SoundStore(Here(rt));
      NothingSuperseded(cache.entries, rt.cacheSource, taken, desk, now, rt.memo, rt.force);
      d := desk;
      if taken == [] || !rt.cacheSource {
        return false, desk;
      }
      ghost var stored := cache.entries;
      ghost var before := Here(rt);
      var results;
      expired, results := WriteCache(taken);
      KindSoFar(w, rt.Settings(), start, before);
      OffersKeepKind(w, rt.Settings(), before.store, taken, cache.maxEntries);
      SameKind(w, stored);
      ProgressStore(w, rt.Settings(), start, before, cache.State());
      if expired {
        return;
      }
      ghost var written := cache.State();
      for n := 0 to |taken|
        invariant cache.State() == written
        invariant Here(rt).Sound() && Progress(w, rt.Settings(), start, Here(rt))
        invariant d.For(keys) && d.Honest(w, rt.Settings(), rt.memo)
        invariant Superseding(stored, true, taken, n, desk, d, now)
        invariant Untouched(taken, old(rt.memo), rt.memo, old(rt.force), rt.force)
      {
        var v := taken[n];
        assert v in taken;
        var result := results[v.key];
        SupersedingStep(w, rt.Settings(), stored, taken, n, keys, desk, d, now, result, old(rt.memo), rt.memo,
                        old(rt.force), rt.force);
        if result.status == IgnoredLowerAuthority {
          expired := Expired();
          if expired {
            return;
          }
          var winning := CachedCopy(result.value, false, now);
          OutrankedBy(stored, v, result);
          PinAgain(w, rt.Settings(), start, Here(rt), stored, v, now);
          rt.memo := rt.memo[v.key := winning];
          d := d.(settled := d.settled[v.key := winning]);
        }
      }
    }

    /** Falls back to the best stale values where allowed and reports the failures of the other keys. */
    method FallBack(keys: seq<Key>, unresolved: seq<Key>, rt: Runtime, desk: Desk, ghost start: Situation)
      returns (results: map<Key, Outcome>, stale: seq<Value>)
      requires Here(rt).Sound() && Progress(w, rt.Settings(), start, Here(rt))
      requires desk.For(keys) && desk.Honest(w, rt.Settings(), rt.memo) && NoDuplicates(unresolved)
      requires forall k :: k in unresolved ==> k in keys && k !in desk.settled && k !in start.memo
      requires Spoken(w, rt.Settings(), keys, desk, |w.sources|)
      modifies rt`memo
      ensures Here(rt).Sound() && Progress(w, rt.Settings(), start, Here(rt))
      ensures results.Keys == desk.settled.Keys + Elems(unresolved)
      ensures Concluded(w.rules, desk, rt.force, results) && Accounted(w, rt.Settings(), rt.memo, results)
      ensures FallenBack(w.rules, desk, rt.force, unresolved, stale)
      ensures Outside(keys, old(rt.memo), rt.memo)
      ensures forall v :: v in stale ==> FromOpenSource(w, rt.Settings(), v)
      ensures stale == StaleOf(w.rules, desk, rt.force, unresolved)
    {
      hide StaleOf, SpokenFor, AnsweredSoFar, Outside, Desk.Honest, Desk.For, NoDuplicates, Progress, Situation.Sound,
           Concluded, FallenBack, Accounted, Conclude, FromOpenSource, WellFiled, Desk.At, KeysOf;
      results := map k | k in desk.settled :: Got(desk.settled[k]);
      stale := [];
      NothingConcluded(w, rt.Settings(), desk, keys, rt.memo, rt.force, results);
      NothingStale(w.rules, desk, rt.force);
      SettledAnswered(desk);
      assert results.Keys == desk.settled.Keys;
      DeskKeys(desk, keys);
      OutsideReflexive(keys, rt.memo);
      assert unresolved[..0] == [];
      for n := 0 to |unresolved|
        invariant Here(rt).Sound() && Progress(w, rt.Settings(), start, Here(rt))
        invariant AnsweredSoFar(desk, unresolved[..n], results.Keys)
        invariant Concluded(w.rules, desk, rt.force, results) && Accounted(w, rt.Settings(), rt.memo, results)
        invariant FallenBack(w.rules, desk, rt.force, unresolved[..n], stale)
        invariant Outside(keys, old(rt.memo), rt.memo)
        invariant old(rt.memo).Keys <= rt.memo.Keys && forall v :: v in stale ==> FromOpenSource(w, rt.Settings(), v)
        invariant stale == StaleOf(w.rules, desk, rt.force, unresolved[..n])
      {
        var key := unresolved[n];
        LastIsNew(unresolved, n);
        ghost var answered := results.Keys + {key};
        AnsweredStep(desk, unresolved[..n], results.Keys, key);
        StaleOfStep(w.rules, desk, rt.force, unresolved, n);
        ConcludedStep(w, rt.Settings(), desk, keys, old(rt.memo), rt.memo, rt.force, results, unresolved[..n], stale,
                      key);
        if key in desk.best && w.rules.policy(key).allowStaleOnError && !rt.RequiresRefresh(key) {
          PinUnforced(w, rt.Settings(), start, Here(rt), desk.best[key]);
          OutsideStep(keys, old(rt.memo), rt.memo, desk.best[key]);
          stale := stale + [desk.best[key]];
          rt.memo := rt.memo[key := desk.best[key]];
          results := results[key := Got(desk.best[key])];
        } else {
          results := results[key := Missed(Unresolved(key, desk.failures[key]))];
        }
        assert results.Keys == answered;
      }
      assert unresolved[..|unresolved|] == unresolved;
      AllAnswered(desk, unresolved, results.Keys);
    }

    /** The end of the source loop: conclusions for every key, and stale values offered to the cache. */
    method Finish(keys: seq<Key>, rt: Runtime, desk: Desk, ghost start: Situation)
      returns (expired: bool, results: map<Key, Outcome>, ghost stales: seq<Value>)
      requires Here(rt).Sound() && Progress(w, rt.Settings(), start, Here(rt))
      requires desk.For(keys) && desk.Honest(w, rt.Settings(), rt.memo) && NoDuplicates(keys)
      requires forall k :: k in keys && k in start.memo ==> k in desk.settled
      requires Spoken(w, rt.Settings(), keys, desk, |w.sources|)
      modifies this`serial, rt`memo, cache
      ensures Here(rt).Sound() && Progress(w, rt.Settings(), start, Here(rt))
      ensures w.Unhurried() ==> !expired
      ensures !expired ==> results.Keys == Elems(keys) && Concluded(w.rules, desk, rt.force, results)
      ensures !expired ==> Accounted(w, rt.Settings(), rt.memo, results)
      ensures FallenBack(w.rules, desk, rt.force, Unsettled(keys, desk), stales)
      ensures stales == StaleOf(w.rules, desk, rt.force, Unsettled(keys, desk))
      ensures !expired ==> cache.State() == AfterWrite(old(cache.State()), stales, rt.cacheStale, cache.maxEntries)
      ensures Aloof(keys, old(Here(rt)), Here(rt))
    {
      hide StaleOf, Spoken, FromOpenSource, Desk.Honest, NoDuplicates, Progress, Situation.Sound, Concluded, FallenBack,
           Accounted, AfterWrite, WellFiled;
      var unresolved := Unsettled(keys, desk);
      var stale;
      results, stale := FallBack(keys, unresolved, rt, desk, start);
      stales := stale;
      StaleKeys(w.rules, desk, rt.force, unresolved, stale);
      expired := WriteStale(stale, rt, start);
    }

    method WriteStale(stale: seq<Value>, rt: Runtime, ghost start: Situation) returns (expired: bool)
      requires Here(rt).Sound() && Progress(w, rt.Settings(), start, Here(rt))
      requires NoDuplicates(KeysOf(stale)) && forall v :: v in stale ==> FromOpenSource(w, rt.Settings(), v)
      modifies this`serial, cache
      ensures Here(rt).Sound() && Progress(w, rt.Settings(), start, Here(rt))
      ensures w.Unhurried() ==> !expired
      ensures !expired ==> cache.State() == AfterWrite(old(cache.State()), stale, rt.cacheStale, cache.maxEntries)
    {
      hide FromOpenSource, KeepsKind, Progress, Situation.Sound, Commit, Select, NoDuplicates, Store.Valid;
      if stale == [] || !rt.cacheStale {
        return false;
      }
      ghost var before := Here(rt);
      SoundStore(before);
      var statuses;
      expired, statuses := WriteCache(stale);
      OffersKeepKind(w, rt.Settings(), before.store, stale, cache.maxEntries);
      SameKind(w, before.store.entries);
      ProgressStore(w, rt.Settings(), start, before, cache.State());
    }

    // ---- The recursion ----------------------------------------------------------------------

    /** One derived value: its dependencies are resolved first, below a path that now ends in its key. */
    method DeriveOne(source: Source, key: Key, now: real, rt: Runtime, ancestry: seq<Key>, localOwned: set<Key>)
      returns (attempt: Attempt)
      requires Ready(rt) && source in w.sources && source.kind == Derived
      requires Placed(w, universe, ancestry, [key]) && inFlight <= localOwned
      modifies this, rt`memo, rt`force, cache
      ensures Ready(rt) && inFlight == old(inFlight)
      ensures Progress(w, rt.Settings(), old(Here(rt)), Here(rt))
      ensures attempt.Failed? ==> TruthfulCause(w, rt.Settings(), attempt.cause)
      ensures attempt.Succeeded? ==> Recorded(w.declared(source.name, key), rt.memo, attempt.deps)
      ensures Derivation(w, source, key, ancestry, rt.memo, attempt) && Sourced(w, source, key, rt.memo, attempt)
      ensures attempt.Failed? && attempt.cause.CycleFound? <==>
        && w.declared(source.name, key).Some?
        && exists d :: d in w.declared(source.name, key).value && d in ancestry + [key]
      ensures attempt.Failed? && attempt.cause.DependenciesFailed? ==> attempt.cause.errors.Keys !! old(rt.memo).Keys
      decreases universe - Elems(ancestry), 0
    {
      hide Progress, Placed, Situation.Sound, Enclosed, DeclaredPath, TruthfulCause, Truthful, DeclaredCycle, Recorded,
           Declares, NoDuplicates, Derivation, FirstOnPath, AllEndAs, Spacious, Distinct, Sourced, Inputs,
           DeclaredKeys, ServedFirst, PendingOrder, AllEndIn, Screen, World.Unhurried;
      ProgressReflexive(w, rt.Settings(), Here(rt));
      PlainCauses(w, rt.Settings());
      var declared := w.declared(source.name, key);
      DerivedEarly(w, source, key, ancestry, rt.memo);
      GroundsToFail(w, source, key, rt.memo);
      if declared.None? {
        return Failed(Faulted(Raised("dependencies")));
      }
      var dependencies := Distinct(declared.value);
      DeclaredBy(w, source, key, dependencies);
      var path := ancestry + [key];
      assert dependencies[0..] == dependencies;
      for n := 0 to |dependencies|
        invariant Ready(rt) && inFlight == old(inFlight) && Here(rt) == old(Here(rt))
        invariant FirstOnPath(dependencies, path) == FirstOnPath(dependencies[n..], path)
      {
        FirstOnPathStep(dependencies, path, n);
        if dependencies[n] in path {
          var start := IndexOf(path, dependencies[n]);
          CycleBelow(w, rt.Settings(), universe, ancestry, key, dependencies[n], start);
          CycleIsSourced(w, source, key, rt.memo, path[start..] + [dependencies[n]]);
          return Failed(CycleFound(path[start..] + [dependencies[n]]));
        }
      }
      NothingOnPath(path);
      assert dependencies[|dependencies|..] == [];
      PlacedBelow(w, universe, ancestry, key, dependencies);
      ghost var beforehand := Here(rt);
      var resolved := ResolveMany(dependencies, now, rt, path, localOwned);
      PartitionCovers(w, rt.Settings(), declared, dependencies, resolved, rt.memo);
      PartitionPinned(w, rt.Settings(), dependencies, resolved, rt.memo);
      DerivedFrom(w, source, key, ancestry, rt.memo, resolved, serial);
      match resolved
      case DeadlinePassed =>
        GroundsToFail(w, source, key, rt.memo);
        attempt := Failed(Faulted(DeadlineExceeded));
      case Resolved(values, errors) =>
        if errors != map[] {
          DependencyCause(w, rt.Settings(), errors);
          DependenciesAreSourced(w, rt.Settings(), source, key, dependencies, values, errors, rt.memo);
          PinnedDoNotFail(w, rt.Settings(), beforehand, dependencies, now, values, errors, rt.memo);
          return Failed(DependenciesFailed(errors));
        }
        SoundMemo(Here(rt));
        InputsFound(w, rt.Settings(), source, key, dependencies, values, rt.memo);
        var answer := w.derive(source.name, key, values, serial);
        serial := serial + 1;
        match answer
        case Declined(fault) =>
          DeclinedIsSourced(w, source, key, rt.memo, values, serial - 1);
          attempt := Failed(Faulted(fault));
        case Delivered(d) =>
          RecordedVersions(declared, dependencies, values, rt.memo);
          attempt := Succeeded(d, VersionsOf(dependencies, values));
          DerivedIsSourced(w, source, key, rt.memo, attempt, values, serial - 1);
    }

    /** Asks one source for its candidates. */
    method AttemptAll(source: Source, candidates: seq<Key>, now: real, rt: Runtime, ancestry: seq<Key>,
                      localOwned: set<Key>)
      returns (attempts: map<Key, Attempt>)
      requires Ready(rt) && source in w.sources
      requires Placed(w, universe, ancestry, candidates) && inFlight <= localOwned
      modifies this, rt`memo, rt`force, cache
      ensures Ready(rt) && inFlight == old(inFlight)
      ensures Progress(w, rt.Settings(), old(Here(rt)), Here(rt))
      ensures attempts.Keys == Elems(candidates)
      ensures forall k :: k in attempts && attempts[k].Failed? ==> TruthfulCause(w, rt.Settings(), attempts[k].cause)
      ensures source.kind == Direct ==> Here(rt) == old(Here(rt))
      ensures AttemptedBy(w, source, ancestry, rt.memo, attempts) && AllSourced(w, source, rt.memo, attempts)
      decreases universe - Elems(ancestry), 1
    {
      hide Progress, Placed, Situation.Sound, Enclosed, TruthfulCause, Recorded, Derivation, Sourced, Judge;
      ProgressReflexive(w, rt.Settings(), Here(rt));
      PlainCauses(w, rt.Settings());
      attempts := map[];
      for n := 0 to |candidates|
        invariant Ready(rt) && inFlight == old(inFlight)
        invariant Progress(w, rt.Settings(), old(Here(rt)), Here(rt))
        invariant attempts.Keys == Elems(candidates[..n])
        invariant forall k :: k in attempts && attempts[k].Failed? ==>
          TruthfulCause(w, rt.Settings(), attempts[k].cause)
        invariant source.kind == Direct ==> Here(rt) == old(Here(rt))
        invariant AttemptedBy(w, source, ancestry, rt.memo, attempts) && AllSourced(w, source, rt.memo, attempts)
      {
        var key := candidates[n];
        assert candidates[..n + 1] == candidates[..n] + [key];
        var attempt;
        if source.kind == Derived {
          ghost var before := Here(rt);
          PlacedSubset(w, universe, ancestry, candidates, [key]);
          attempt := DeriveOne(source, key, now, rt, ancestry, localOwned);
          ProgressTransitive(w, rt.Settings(), old(Here(rt)), before, Here(rt));
          ProgressPins(w, rt.Settings(), before, Here(rt));
          AttemptsLater(w, source, ancestry, before.memo, rt.memo, attempts);
        } else {
          attempt := Asked(w.answer(source.name, key));
          DirectIsSourced(w, source, key, rt.memo);
        }
        attempts := attempts[key := attempt];
      }
      assert candidates[..|candidates|] == candidates;
    }

    /** The first half of a round: pinned keys are settled, the rest are offered to the source. */
    method AskSource(source: Source, keys: seq<Key>, now: real, rt: Runtime, ancestry: seq<Key>, localOwned: set<Key>,
                     desk: Desk, ghost start: Situation)
      returns (ghost picked: Desk, chosen: Desk, candidates: seq<Key>, attempts: map<Key, Attempt>)
      requires Ready(rt) && source in w.sources && NoDuplicates(keys)
      requires Placed(w, universe, ancestry, keys) && inFlight <= localOwned
      requires Progress(w, rt.Settings(), start, Here(rt)) && start.Sound()
      requires desk.For(keys) && desk.Honest(w, rt.Settings(), rt.memo)
      modifies this, rt`memo, rt`force, cache
      ensures Ready(rt) && inFlight == old(inFlight) && Progress(w, rt.Settings(), start, Here(rt))
      ensures picked.For(keys) && chosen.For(keys) && chosen.Honest(w, rt.Settings(), rt.memo)
      ensures chosen.settled == picked.settled
      ensures forall k :: k in keys && k in start.memo ==> k in chosen.settled
      ensures forall k :: k in keys ==>
        && picked.At(k) == PickUp(desk.At(k), Lookup(old(rt.memo), k))
        && chosen.At(k) == Advance(w.rules, picked.At(k), Unasked(ScreenFor(source, k, rt)), None, false, now)
      ensures NoDuplicates(candidates)
      ensures forall k :: k in candidates <==> k in keys && k !in picked.settled && ScreenFor(source, k, rt).Ask?
      ensures attempts.Keys == Elems(candidates)
      ensures forall k :: k in attempts && attempts[k].Failed? ==> TruthfulCause(w, rt.Settings(), attempts[k].cause)
      ensures source.kind == Direct ==> Here(rt) == old(Here(rt))
      ensures AttemptedBy(w, source, ancestry, rt.memo, attempts) && AllSourced(w, source, rt.memo, attempts)
      ensures forall k :: k in desk.settled ==> k in chosen.settled
      ensures candidates == AskedOf(w, rt.Settings(), source, keys, picked.settled.Keys)
      decreases universe - Elems(ancestry), 2
    {
      hide AskedOf, AttemptedBy, AllSourced, Progress, Placed, Situation.Sound, Enclosed, TruthfulCause, Desk.Honest,
           NoDuplicates, Screen, PickedUp, Advance, Desk.At, PickUp;
      var scope := rt.Settings();
      ghost var before := Here(rt);
      SoundMemo(before);
      var settled := PickUpPinned(keys, rt, desk);
      picked := settled;
      PickedUpAt(w, scope, desk, keys, rt.memo);
      PickedUpMore(desk, keys, rt.memo);
      PinnedAreSettled(w, scope, start, before, keys, desk, picked);
      candidates, chosen := Choose(source, keys, rt, settled, now);
      PlacedSubset(w, universe, ancestry, keys, candidates);
      attempts := AttemptAll(source, candidates, now, rt, ancestry, localOwned);
      AskedLater(w, scope, start, before, Here(rt), chosen);
    }

    /** The second half of a round: the answers are taken in and fresh values offered to the cache. */
    method TakeAnswers(source: Source, keys: seq<Key>, candidates: seq<Key>, attempts: map<Key, Attempt>, rt: Runtime,
                       chosen: Desk, now: real, ghost start: Situation, ghost turn: nat)
      returns (expired: bool, d: Desk, ghost absorbed: Desk, ghost taken: seq<Value>)
      requires Here(rt).Sound() && Progress(w, rt.Settings(), start, Here(rt))
      requires chosen.For(keys) && chosen.Honest(w, rt.Settings(), rt.memo)
      requires turn < |w.sources| && source == w.sources[turn] && NoDuplicates(candidates)
      requires AllSourced(w, source, rt.memo, attempts) && Waiting(w, rt.Settings(), keys, chosen, turn)
      requires forall k :: k in candidates ==>
        k in keys && k !in chosen.settled && k !in start.memo && ScreenFor(source, k, rt).Ask?
      requires attempts.Keys == Elems(candidates)
      requires forall k :: k in candidates && attempts[k].Failed? ==> TruthfulCause(w, rt.Settings(), attempts[k].cause)
      modifies this`serial, rt`memo, rt`force, cache
      ensures Here(rt).Sound() && Progress(w, rt.Settings(), start, Here(rt))
      ensures !expired ==> d.For(keys) && d.Honest(w, rt.Settings(), rt.memo) && absorbed.For(keys)
      ensures !expired ==> forall k :: k in chosen.settled ==> k in d.settled
      ensures w.Unhurried() ==> !expired
      ensures !expired ==> Absorbed(w.rules, source, attempts, candidates, keys, chosen, absorbed, now)
      ensures !expired ==> Gathered(w.rules, source, attempts, candidates, taken)
      ensures !expired ==> Superseding(old(cache.entries), rt.cacheSource, taken, |taken|, absorbed, d, now)
      ensures !expired ==> cache.State() == AfterWrite(old(cache.State()), taken, rt.cacheSource, cache.maxEntries)
      ensures !expired ==> Untouched(taken, old(rt.memo), rt.memo, old(rt.force), rt.force)
      ensures !expired ==> taken == FreshOf(w.rules, source, attempts, candidates)
    {
      hide FreshOf, FromOpenSource, AllSourced, Waiting, Progress, Situation.Sound, TruthfulCause, Desk.Honest,
           NoDuplicates, Screen, Gathered, Absorbed, Untouched, Superseding, AfterWrite, WellFiled;
      ghost var before := Here(rt);
      var values, gathered := Absorb(source, keys, candidates, attempts, rt, chosen, now, start, turn);
      taken, absorbed := values, gathered;
      ghost var pinned := Here(rt);
      TakenAreSettled(w.rules, source, attempts, candidates, keys, chosen, gathered, values, now);
      expired, d := WriteTaken(values, keys, rt, gathered, now, start);
      if !expired {
        SupersedingKeys(pinned.store.entries, rt.cacheSource, values, gathered, d, now);
        UntouchedTwice(values, before.memo, pinned.memo, rt.memo, before.force, pinned.force, rt.force);
      }
    }

    /** One round of the source loop. */
    method Round(source: Source, keys: seq<Key>, now: real, rt: Runtime, ancestry: seq<Key>, localOwned: set<Key>,
                 desk: Desk, ghost start: Situation, ghost turn: nat)
      returns (expired: bool, d: Desk, ghost log: RoundLog)
      requires Ready(rt) && turn < |w.sources| && source == w.sources[turn] && NoDuplicates(keys)
      requires Spoken(w, rt.Settings(), keys, desk, turn)
      requires Placed(w, universe, ancestry, keys) && inFlight <= localOwned
      requires Progress(w, rt.Settings(), start, Here(rt)) && start.Sound()
      requires desk.For(keys) && desk.Honest(w, rt.Settings(), rt.memo)
      modifies this, rt`memo, rt`force, cache
      ensures Ready(rt) && inFlight == old(inFlight) && Progress(w, rt.Settings(), start, Here(rt))
      ensures w.Unhurried() ==> !expired
      ensures !expired ==> d.For(keys) && d.Honest(w, rt.Settings(), rt.memo)
      ensures !expired ==> forall k :: k in keys && k in start.memo ==> k in d.settled
      ensures !expired ==> RoundBy(w, rt.Settings(), source, keys, desk, d, log, now)
      ensures !expired ==> log.memo == old(rt.memo) && AttemptedBy(w, source, ancestry, log.asked, log.attempts)
      ensures !expired ==> Spoken(w, rt.Settings(), keys, d, turn + 1)
      ensures !expired && source.kind == Direct ==> RoundDone(w, rt.Settings(), source, keys, desk, d, old(Here(rt)),
                                                              Here(rt), now)
      ensures !expired && source.kind == Direct ==> Aloof(keys, old(Here(rt)), Here(rt))
      ensures !expired && source.kind == Direct ==> RoundWrites(w, rt.Settings(), cache.maxEntries, source, keys, desk,
                                                                old(Here(rt)), Here(rt))
      decreases universe - Elems(ancestry), 3
    {
      hide AskedOf, FreshOf, RoundOffers, Progress, Placed, Situation.Sound, Enclosed, TruthfulCause, Desk.Honest,
           NoDuplicates, Screen, Gathered, Absorbed, Untouched, Superseding, RoundDone, RoundBy, Aloof, AfterWrite,
           Advance, PickUp, Desk.At, Asked, WellFiled, AttemptedBy, AllSourced, Waiting, Spoken, World.Unhurried,
           AsksAll;
      ghost var scope, before := rt.Settings(), Here(rt);
      ghost var picked, absorbed, taken;
      var chosen, candidates, attempts;
      picked, chosen, candidates, attempts := AskSource(source, keys, now, rt, ancestry, localOwned, desk, start);
      log := RoundLog(before.memo, rt.memo, attempts, cache.entries);
      SpokenIsWaiting(w, scope, keys, desk, turn);
      WaitingFewer(w, scope, keys, desk, chosen, turn);
      expired, d, absorbed, taken := TakeAnswers(source, keys, candidates, attempts, rt, chosen, now, start, turn);
      if !expired {
        ghost var trace := Trace(picked, chosen, candidates, attempts, absorbed, taken, log.stored);
        assert Traced(w, scope, source, keys, desk, trace, d, before.memo, now);
        RoundIsLogged(w, scope, source, keys, desk, trace, d, before.memo, now);
        RoundAsksAll(w, scope, source, keys, desk, trace, d, before.memo, now, log);
        if source.kind == Direct {
          hide Traced;
          SoundStore(before);
          AttemptedDirectly(w, source, ancestry, log.asked, attempts);
          RoundIsDone(w, scope, source, keys, desk, trace, d, before, Here(rt), now);
          RoundIsAloof(w, scope, source, keys, desk, trace, d, before, Here(rt), now);
          RoundIsOffered(w, scope, source, keys, desk, trace, d, before.memo, now);
        }
        SpokenStep(w, scope, keys, desk, d, log, now, turn);
      }
    }

    /** The rounds of the source loop, one source after the other in priority order. */
    method AllRounds(keys: seq<Key>, now: real, rt: Runtime, ancestry: seq<Key>, localOwned: set<Key>)
      returns (expired: bool, desk: Desk, ghost log: seq<RoundLog>)
      requires Ready(rt) && NoDuplicates(keys) && Placed(w, universe, ancestry, keys) && inFlight <= localOwned
      modifies this, rt`memo, rt`force, cache
      ensures Ready(rt) && inFlight == old(inFlight)
      ensures Progress(w, rt.Settings(), old(Here(rt)), Here(rt))
      ensures w.Unhurried() ==> !expired
      ensures !expired ==> desk.For(keys) && desk.Honest(w, rt.Settings(), rt.memo)
      ensures !expired ==> forall k :: k in keys && k in old(rt.memo) ==> k in desk.settled
      ensures !expired ==>
        |log| == |w.sources| && LoggedBy(w, ancestry, log) && LoggedAt(w, rt.Settings(), log, keys, desk, now)
      ensures !expired ==> Spoken(w, rt.Settings(), keys, desk, |w.sources|)
      ensures !expired && w.AllDirect() ==> Aloof(keys, old(Here(rt)), Here(rt))
      ensures !expired && w.AllDirect() ==> TracksBatch(w, rt.Settings(), cache.maxEntries, old(Here(rt)), Here(rt),
                                                        keys, desk, now, |w.sources|)
      decreases universe - Elems(ancestry), 4
    {
      hide Progress, Placed, Situation.Sound, Enclosed, Desk.For, Desk.Honest, NoDuplicates, RoundDone, RoundWrites,
           TracksBatch, Desk.At, Aloof, RoundBy, LoggedAt, LoggedBy, AttemptedBy, World.Unhurried, Spoken, Store.Valid;
      ghost var start := Here(rt);
      log, expired := [], false;
      NothingLogged(w, ancestry);
      AloofReflexive(keys, start);
      SoundStore(start);
      ProgressReflexive(w, rt.Settings(), start);
      desk := Desk(map k | k in keys :: [], map[], map[]);
      FreshDesk(w, rt.Settings(), keys, rt.memo, desk);
      SpokenBegin(w, rt.Settings(), keys, desk);
      BatchBegin(w, rt.Settings(), cache.maxEntries, start, keys, desk, now);
      LoggedBegin(w, rt.Settings(), keys, desk, now);
      for i := 0 to |w.sources|
        invariant !expired && Ready(rt) && inFlight == old(inFlight) && Progress(w, rt.Settings(), start, Here(rt))
        invariant desk.For(keys) && desk.Honest(w, rt.Settings(), rt.memo)
        invariant i > 0 ==> forall k :: k in keys && k in start.memo ==> k in desk.settled
        invariant w.AllDirect() ==>
          Aloof(keys, start, Here(rt)) && TracksBatch(w, rt.Settings(), cache.maxEntries, start, Here(rt), keys, desk,
                                                      now, i)
        invariant Spoken(w, rt.Settings(), keys, desk, i)
        invariant |log| == i && LoggedBy(w, ancestry, log) && LoggedAt(w, rt.Settings(), log, keys, desk, now)
      {
        ghost var before, reached := Here(rt), desk;
        ghost var round;
        expired, desk, round := Round(w.sources[i], keys, now, rt, ancestry, localOwned, desk, start, i);
        if expired {
          return;
        }
        LoggedStep(w, rt.Settings(), ancestry, log, round, keys, reached, desk, now);
        log := log + [round];
        if w.AllDirect() {
          AloofTransitive(keys, start, before, Here(rt));
          BatchStep(w, rt.Settings(), cache.maxEntries, start, before, Here(rt), keys, reached, desk, now, i);
        }
      }
    }

    /** The source loop over the keys this call owns. */
    method ResolveOwned(keys: seq<Key>, now: real, rt: Runtime, ancestry: seq<Key>, localOwned: set<Key>)
      returns (expired: bool, results: map<Key, Outcome>, ghost log: seq<RoundLog>)
      requires Ready(rt) && NoDuplicates(keys) && Placed(w, universe, ancestry, keys) && inFlight <= localOwned
      modifies this, rt`memo, rt`force, cache
      ensures Ready(rt) && inFlight == old(inFlight)
      ensures Progress(w, rt.Settings(), old(Here(rt)), Here(rt))
      ensures w.Unhurried() ==> !expired
      ensures !expired ==> results.Keys == Elems(keys) && Accounted(w, rt.Settings(), rt.memo, results)
      ensures !expired ==>
        LoggedBy(w, ancestry, log) && |log| == |w.sources| && EachLogged(w, rt.Settings(), log, keys, rt.force, results,
                                                                         now)
      ensures !expired && w.AllDirect() ==> EachInBatch(w, rt.Settings(), cache.maxEntries, old(Here(rt)), keys,
                                                        results, now)
      ensures !expired && w.AllDirect() ==> cache.State() == BatchFinal(w, rt.Settings(), cache.maxEntries,
                                                                        old(Here(rt)), keys, now)
      ensures !expired && w.AllDirect() && Steady(rt.Settings(), cache.maxEntries, old(cache.entries), Elems(keys)) ==>
        EachAlone(w, rt.Settings(), old(Here(rt)), keys, results, now)
      ensures !expired && w.AllDirect() &&
              Spacious(rt.Settings(), cache.maxEntries, old(cache.entries), Elems(keys)) ==>
        EachStoredAlone(w, rt.Settings(), old(Here(rt)), keys, cache.entries, now)
      ensures !expired && w.AllDirect() ==> Aloof(keys, old(Here(rt)), Here(rt))
      decreases universe - Elems(ancestry), 5
    {
      hide Progress, Placed, Situation.Sound, Enclosed, Desk.Honest, NoDuplicates, FallenBack, Concluded, AfterWrite,
           Accounted, TracksBatch, Roomy, Steady, EachAlone, EachStoredAlone, Unsettled, Desk.At, Aloof, LoggedAt,
           LoggedBy, EachLogged, World.Unhurried, StaleOf, BatchFinal, EachInBatch, Store.Valid;
      ghost var start := Here(rt);
      var desk;
      SoundStore(start);
      expired, desk, log := AllRounds(keys, now, rt, ancestry, localOwned);
      if expired {
        return true, map[], log;
      }
      ghost var stales, last := [], Here(rt);
      SoundStore(last);
      expired, results, stales := Finish(keys, rt, desk, start);
      if w.AllDirect() {
        AloofTransitive(keys, start, last, Here(rt));
      }
      if expired {
        return;
      }
      LoggedEnd(w, rt.Settings(), log, keys, desk, rt.force, results, now);
      if w.AllDirect() {
        BatchEnd(w, rt.Settings(), cache.maxEntries, start, last, keys, desk, now, results);
        if Steady(rt.Settings(), cache.maxEntries, start.store.entries, Elems(keys)) {
          SteadyIsAlone(w, rt.Settings(), cache.maxEntries, start, keys, results, now);
        }
        if Spacious(rt.Settings(), cache.maxEntries, start.store.entries, Elems(keys)) {
          SpaciousStoresAlone(w, rt.Settings(), cache.maxEntries, start, keys, now);
        }
      }
    }

    /** Registers the keys as in flight while they are resolved; none of them may be in flight already. */
    method RunFlight(keys: seq<Key>, now: real, rt: Runtime, ancestry: seq<Key>, localOwned: set<Key>)
      returns (expired: bool, results: map<Key, Outcome>)
      requires Ready(rt) && NoDuplicates(keys) && Placed(w, universe, ancestry, keys) && inFlight <= localOwned
      requires inFlight !! Elems(keys)
      modifies this, rt`memo, rt`force, cache
      ensures Ready(rt) && inFlight == old(inFlight)
      ensures Progress(w, rt.Settings(), old(Here(rt)), Here(rt))
      ensures w.Unhurried() ==> !expired
      ensures !expired ==> results.Keys == Elems(keys) && Accounted(w, rt.Settings(), rt.memo, results)
      ensures !expired && w.AllDirect() ==> EachInBatch(w, rt.Settings(), cache.maxEntries, old(Here(rt)), keys,
                                                        results, now)
      decreases universe - Elems(ancestry), 6
    {
      hide EachInBatch, BatchFinal, Progress, Placed, Situation.Sound, Enclosed, NoDuplicates, Accounted, Roomy,
           EachAlone, EachStoredAlone;
      inFlight := inFlight + Elems(keys);
      ghost var log;
      expired, results, log := ResolveOwned(keys, now, rt, ancestry, localOwned + Elems(keys));
      inFlight := inFlight - Elems(keys);
    }

    /** Sorts the distinct keys of a request into pinned ones, ones due for refresh and ones to look up. */
    method Triage(keys: seq<Key>, rt: Runtime) returns (values: Entries, due: seq<Key>, lookups: seq<Key>)
      requires rt.force !! rt.memo.Keys
      ensures forall k :: k in values <==> k in keys && k in rt.memo
      ensures forall k :: k in values ==> values[k] == rt.memo[k]
      ensures due == DueOrder(keys, rt.force)
      ensures lookups == LookupOrder(keys, rt.memo, rt.force)
    {
      hide NoDuplicates, Distinct;
      var memo, force := rt.memo, rt.force;
      var unique := Distinct(keys);
      values, due, lookups := map[], [], [];
      for n := 0 to |unique|
        invariant forall k :: k in values <==> k in unique[..n] && k in rt.memo
        invariant forall k :: k in values ==> values[k] == rt.memo[k]
        invariant due == Filter(unique[..n], k => k in force)
        invariant lookups == Filter(unique[..n], k => k !in memo && k !in force)
      {
        var key := unique[n];
        LastIsNew(unique, n);
        assert unique[..n + 1][..n] == unique[..n];
        if rt.RequiresRefresh(key) {
          due := due + [key];
        } else if key in rt.memo {
          values := values[key := rt.memo[key]];
        } else {
          lookups := lookups + [key];
        }
      }
      assert unique[..|unique|] == unique;
    }

    /**
      Takes what the cache answered: what it may serve is pinned, what is stale but usable is kept as a last resort.
     */
    method TakeHits(keys: seq<Key>, found: map<Key, CacheLookup>, now: real, rt: Runtime, ghost start: Situation,
                    ghost read: Store)
      returns (expired: bool, hits: Entries, misses: seq<Key>, stale: Entries)
      requires Here(rt).Sound() && Progress(w, rt.Settings(), start, Here(rt)) && NoDuplicates(keys) && read.Valid()
      requires forall k :: k in keys ==> k !in start.memo && k !in start.force && k in found
      requires forall i :: 0 <= i < |keys| ==> found[keys[i]] == AnswerAt(w.rules, read, keys, now, i)
      requires StoreDeclared(w, start.store.entries) ==> StoreDeclared(w, read.entries)
      modifies this`serial, rt`memo
      ensures Here(rt).Sound() && Progress(w, rt.Settings(), start, Here(rt))
      ensures w.Unhurried() ==> !expired
      ensures !expired ==> Looked(w.rules, read, keys, now, |keys|, hits, misses, stale)
      ensures !expired ==> rt.memo == old(rt.memo) + hits
    {
      hide StoreDeclared, AsDeclared, Progress, Situation.Sound, Looked, NoDuplicates, AnswerAt, Store.Valid, WellFiled,
           Serves;
      hits, misses, stale := map[], [], map[];
      NothingLooked(w.rules, read, keys, now);
      for n := 0 to |keys|
        invariant Here(rt).Sound() && Progress(w, rt.Settings(), start, Here(rt))
        invariant Looked(w.rules, read, keys, now, n, hits, misses, stale)
        invariant rt.memo == old(rt.memo) + hits
      {
        var key := keys[n];
        var lookup := found[key];
        LookedStep(w.rules, read, keys, now, n, hits, misses, stale);
        if Serves(lookup, w.rules.policy(key)) {
          expired := Expired();
          if expired {
            return;
          }
          ServedValue(lookup, w.rules.policy(key));
          var cached := CachedCopy(lookup.value.value, !lookup.isFresh, now);
          if StoreDeclared(w, start.store.entries) { EntryDeclared(w, read.entries, key); }
          PinCached(w, rt.Settings(), start, Here(rt), lookup.value.value, !lookup.isFresh, now);
          rt.memo := rt.memo[key := cached];
          hits := hits[key := cached];
        } else {
          if lookup.usableStale && lookup.value.Some? {
            stale := stale[key := lookup.value.value];
          }
          misses := misses + [key];
        }
      }
      expired := false;
    }

    /** Reads the shared cache for keys that are neither pinned nor due for refresh. */
    method ReadCache(keys: seq<Key>, now: real, rt: Runtime, ghost start: Situation)
      returns (expired: bool, hits: Entries, misses: seq<Key>, stale: Entries)
      requires Here(rt).Sound() && Progress(w, rt.Settings(), start, Here(rt)) && NoDuplicates(keys)
      requires forall k :: k in keys ==> k !in start.memo && k !in start.force
      modifies this`serial, rt`memo, cache
      ensures Here(rt).Sound() && Progress(w, rt.Settings(), start, Here(rt))
      ensures w.Unhurried() ==> !expired
      ensures !expired ==> Looked(w.rules, old(cache.State()), keys, now, |keys|, hits, misses, stale)
      ensures !expired ==> rt.memo == old(rt.memo) + hits
      ensures !expired ==> cache.State() == AfterReading(w.rules, old(cache.State()), keys, now)
    {
      hide Progress, Situation.Sound, Looked, NoDuplicates, ReadAll, LookupAt, Store.Valid, Distinct;
      ghost var before := Here(rt);
      SoundStore(before);
      if keys == [] {
        NothingLooked(w.rules, cache.State(), keys, now);
        ReadNothing(cache.State(), now, PoliciesFor(w.rules, keys));
        return false, map[], [], map[];
      }
      expired := Expired();
      if expired {
        return true, map[], [], map[];
      }
      DistinctFixpoint(keys);
      var policies := PoliciesFor(w.rules, keys);
      var found := cache.GetMany(keys, now, policies);
      ReadKeeps(w, rt.Settings(), start, before, keys, now, policies);
      KindSoFar(w, rt.Settings(), start, before);
      expired, hits, misses, stale := TakeHits(keys, found.value, now, rt, start, before.store);
    }

    /** Resolves the keys this call already owns or must refresh, if there are any. */
    method ResolveDirect(direct: seq<Key>, now: real, rt: Runtime, ancestry: seq<Key>, localOwned: set<Key>)
      returns (expired: bool, results: map<Key, Outcome>)
      requires Ready(rt) && NoDuplicates(direct) && Placed(w, universe, ancestry, direct) && inFlight <= localOwned
      modifies this, rt`memo, rt`force, cache
      ensures Ready(rt) && inFlight == old(inFlight)
      ensures Progress(w, rt.Settings(), old(Here(rt)), Here(rt))
      ensures w.Unhurried() ==> !expired
      ensures !expired ==> results.Keys == Elems(direct) && Accounted(w, rt.Settings(), rt.memo, results)
      ensures !expired && w.AllDirect() ==> Aloof(direct, old(Here(rt)), Here(rt))
      ensures !expired && w.AllDirect() ==> EachInBatch(w, rt.Settings(), cache.maxEntries, old(Here(rt)), direct,
                                                        results, now)
      ensures !expired && w.AllDirect() ==> cache.State() == BatchFinal(w, rt.Settings(), cache.maxEntries,
                                                                        old(Here(rt)), direct, now)
      ensures direct == [] ==> Here(rt) == old(Here(rt))
      decreases universe - Elems(ancestry), 6
    {
      hide Progress, Placed, Situation.Sound, Enclosed, NoDuplicates, Accounted, Roomy, EachAlone, EachStoredAlone,
           Aloof, EachInBatch, BatchFinal, Store.Valid;
      ghost var start := Here(rt);
      SoundStore(start);
      if direct == [] {
        ProgressReflexive(w, rt.Settings(), start);
        NothingAccounted(w, rt.Settings(), rt.memo);
        AloofReflexive(direct, start);
        EmptyBatch(w, rt.Settings(), cache.maxEntries, start, now);
        return false, map[];
      }
      ghost var log;
      expired, results, log := ResolveOwned(direct, now, rt, ancestry, localOwned + Elems(direct));
    }

    /** Resolves the keys nobody owns as one flight, if there are any. */
    method ResolveShared(shared: seq<Key>, now: real, rt: Runtime, ancestry: seq<Key>, localOwned: set<Key>)
      returns (expired: bool, results: map<Key, Outcome>)
      requires Ready(rt) && NoDuplicates(shared) && Placed(w, universe, ancestry, shared) && inFlight <= localOwned
      requires inFlight !! Elems(shared)
      modifies this, rt`memo, rt`force, cache
      ensures Ready(rt) && inFlight == old(inFlight)
      ensures Progress(w, rt.Settings(), old(Here(rt)), Here(rt))
      ensures w.Unhurried() ==> !expired
      ensures !expired ==> results.Keys == Elems(shared) && Accounted(w, rt.Settings(), rt.memo, results)
      ensures !expired && w.AllDirect() ==> EachInBatch(w, rt.Settings(), cache.maxEntries, old(Here(rt)), shared,
                                                        results, now)
      ensures shared == [] ==> Here(rt) == old(Here(rt))
      decreases universe - Elems(ancestry), 7
    {
      hide Progress, Placed, Situation.Sound, Enclosed, NoDuplicates, Accounted, Spacious, EachAlone, EachInBatch,
           BatchFinal, Store.Valid;
      ghost var start := Here(rt);
      SoundStore(start);
      if shared == [] {
        ProgressReflexive(w, rt.Settings(), start);
        NothingAccounted(w, rt.Settings(), rt.memo);
        EmptyBatch(w, rt.Settings(), cache.maxEntries, start, now);
        return false, map[];
      }
      expired, results := RunFlight(shared, now, rt, ancestry, localOwned);
    }

    /**
      Resolves what is neither pinned nor cached: keys this call already owns or must refresh directly, the rest as a
      flight.
     */
    method ResolvePending(pending: seq<Key>, now: real, rt: Runtime, ancestry: seq<Key>, localOwned: set<Key>)
      returns (expired: bool, results: map<Key, Outcome>)
      requires Ready(rt) && NoDuplicates(pending) && Placed(w, universe, ancestry, pending) && inFlight <= localOwned
      modifies this, rt`memo, rt`force, cache
      ensures Ready(rt) && inFlight == old(inFlight)
      ensures Progress(w, rt.Settings(), old(Here(rt)), Here(rt))
      ensures w.Unhurried() ==> !expired
      ensures !expired ==> results.Keys == Elems(pending) && Accounted(w, rt.Settings(), rt.memo, results)
      ensures !expired && w.AllDirect() ==> EachPending(w, rt.Settings(), cache.maxEntries, localOwned, old(Here(rt)),
                                                        pending, results, now)
      ensures pending == [] ==> Here(rt) == old(Here(rt))
      decreases universe - Elems(ancestry), 8
    {
      hide OwnedPart, SharedPart, Progress, Placed, Situation.Sound, Enclosed, NoDuplicates, Accounted, Spacious,
           EachAlone, EachStoredAlone, EachInBatch, EachPending, BatchFinal, Aloof, Store.Valid, World.Unhurried;
      ghost var start := Here(rt);
      SoundStore(start);
      var direct, shared := OwnedPart(pending, localOwned, rt.force), SharedPart(pending, localOwned, rt.force);
      NoParts(localOwned, rt.force);
      PlacedSubset(w, universe, ancestry, pending, direct);
      PlacedSubset(w, universe, ancestry, pending, shared);
      var first, second;
      expired, first := ResolveDirect(direct, now, rt, ancestry, localOwned);
      if expired {
        return true, map[];
      }
      ghost var mid := Here(rt);
      expired, second := ResolveShared(shared, now, rt, ancestry, localOwned);
      ProgressTransitive(w, rt.Settings(), start, mid, Here(rt));
      if expired {
        return true, map[];
      }
      results := first + second;
      AccountedTogether(w, rt.Settings(), mid, Here(rt), first, second);
      if w.AllDirect() {
        PendingTogether(w, rt.Settings(), cache.maxEntries, localOwned, start, mid, pending, first, second, now);
      }
    }

    /** Hands out the results of the pending keys; a cached stale value stands in for an error where allowed. */
    method HandOut(pending: seq<Key>, results: map<Key, Outcome>, ready: Entries, stale: Entries, now: real,
                   rt: Runtime, ghost start: Situation)
      returns (resolved: Resolved)
      requires Here(rt).Sound() && Progress(w, rt.Settings(), start, Here(rt)) && NoDuplicates(pending)
      requires results.Keys == Elems(pending) && Accounted(w, rt.Settings(), rt.memo, results)
      requires forall k :: k in pending ==> k !in start.memo && k !in ready
      requires forall k :: k in stale ==>
        k !in start.force && stale[k].key == k && (StoreDeclared(w, start.store.entries) ==> AsDeclared(w, stale[k]))
      requires forall k :: k in ready ==> k in rt.memo && rt.memo[k] == ready[k]
      modifies this`serial, rt`memo, rt`force
      ensures Here(rt).Sound() && Progress(w, rt.Settings(), start, Here(rt))
      ensures w.Unhurried() ==> resolved.Resolved?
      ensures resolved.Resolved? ==> HandedOut(w, rt.Settings(), pending, ready, resolved.values, resolved.errors,
                                               rt.memo)
      ensures resolved.Resolved? ==> Faithful(w.rules, results, stale, ready, pending, resolved.values, resolved.errors,
                                              now)
      ensures pending == [] ==> Here(rt) == old(Here(rt)) && resolved == Resolved(ready, map[])
    {
      hide StoreDeclared, AsDeclared, Progress, Situation.Sound, NoDuplicates, Accounted, HandedOut, Faithful;
      var values, errors: map<Key, Unresolved> := ready, map[];
      NothingHandedOut(w, rt.Settings(), ready, rt.memo);
      NothingFaithful(w.rules, results, stale, ready, now);
      assert pending[..0] == [];
      for n := 0 to |pending|
        invariant Here(rt).Sound() && Progress(w, rt.Settings(), start, Here(rt))
        invariant Accounted(w, rt.Settings(), rt.memo, results)
        invariant HandedOut(w, rt.Settings(), pending[..n], ready, values, errors, rt.memo)
        invariant Faithful(w.rules, results, stale, ready, pending[..n], values, errors, now)
        invariant n == 0 ==> Here(rt) == old(Here(rt)) && values == ready && errors == map[]
      {
        var key := pending[n];
        LastIsNew(pending, n);
        FaithfulStep(w.rules, results, stale, ready, pending[..n], values, errors, now, key);
        ProgressPins(w, rt.Settings(), start, Here(rt));
        match results[key] {
          case Got(value) =>
            RepinSame(w, rt.Settings(), Here(rt), results, key);
            HandedOutValue(w, rt.Settings(), pending[..n], ready, values, errors, rt.memo, key, value);
            rt.memo := rt.memo[key := value];
            rt.MarkRefreshed(key);
            values := values[key := value];
          case Missed(error) =>
            if key in stale && w.rules.policy(key).allowStaleOnError && !rt.RequiresRefresh(key) {
              var expired := Expired();
              if expired {
                return DeadlinePassed;
              }
              var value := CachedCopy(stale[key], true, now);
              PinCached(w, rt.Settings(), start, Here(rt), stale[key], true, now);
              AccountedStale(w, rt.Settings(), rt.memo, results, key, value);
              HandedOutValue(w, rt.Settings(), pending[..n], ready, values, errors, rt.memo, key, value);
              rt.memo := rt.memo[key := value];
              values := values[key := value];
            } else {
              AccountedError(w, rt.Settings(), rt.memo, results, key);
              HandedOutError(w, rt.Settings(), pending[..n], ready, values, errors, rt.memo, key, error);
              errors := errors[key := error];
            }
        }
      }
      assert pending[..|pending|] == pending;
      return Resolved(values, errors);
    }

    /**
      Resolves a batch. Every distinct key ends with a value, which is pinned, or an error; the recursion
      through derived sources stops because its path has no duplicates inside a finite set of keys, and no
      call ever waits for a flight of its own.
     */
    method ResolveMany(keys: seq<Key>, now: real, rt: Runtime, ancestry: seq<Key>, localOwned: set<Key>)
      returns (resolved: Resolved)
      requires Ready(rt) && Placed(w, universe, ancestry, keys) && inFlight <= localOwned
      modifies this, rt`memo, rt`force, cache
      ensures Ready(rt) && inFlight == old(inFlight)
      ensures Progress(w, rt.Settings(), old(Here(rt)), Here(rt))
      ensures w.Unhurried() ==> resolved.Resolved?
      ensures resolved.Resolved? ==> Partition(w, rt.Settings(), keys, resolved.values, resolved.errors, rt.memo)
      ensures resolved.Resolved? && w.AllDirect() &&
              Spacious(rt.Settings(), cache.maxEntries, old(cache.entries), Elems(keys)) ==>
        AllEndAs(w, rt.Settings(), old(Here(rt)), keys, now, resolved.values, resolved.errors)
      ensures resolved.Resolved? && w.AllDirect() ==>
        AllEndIn(w, rt.Settings(), cache.maxEntries, localOwned, old(Here(rt)), keys, now, resolved.values,
                 resolved.errors)
      ensures resolved.Resolved? ==> ServedFirst(w.rules, old(Here(rt)), keys, now, resolved.values)
      ensures resolved.Resolved? && PendingOrder(w.rules, old(Here(rt)), keys, now) == [] ==>
        rt.memo == old(rt.memo) + resolved.values
      decreases universe - Elems(ancestry), 9
    {
      hide World.Unhurried, Progress, Placed, Situation.Sound, Enclosed, NoDuplicates, Accounted, HandedOut, Partition,
           Looked, Truthful, Faithful, LookupOrder, DueOrder, MissesOf, Spacious, AllEndAs, EachPending, EndsAs, EndsIn,
           HandedAs, ServedFirst, AfterReading, WellFiled, Store.Valid;
      ghost var start := Here(rt);
      ProgressReflexive(w, rt.Settings(), start);
      SoundMemo(start);
      SoundEntries(start);
      var values, due, lookups := Triage(keys, rt);
      var expired, hits, misses, stale := ReadCache(lookups, now, rt, start);
      if expired {
        return DeadlinePassed;
      }
      LookedKeys(w.rules, start.store, lookups, now, hits, misses, stale);
      values := values + hits;
      var pending := due + misses;
      JoinDistinct(due, misses);
      PlacedSubset(w, universe, ancestry, keys, pending);
      ghost var before := Here(rt);
      var results;
      expired, results := ResolvePending(pending, now, rt, ancestry, localOwned);
      ProgressTransitive(w, rt.Settings(), start, before, Here(rt));
      if expired {
        return DeadlinePassed;
      }
      ProgressPins(w, rt.Settings(), before, Here(rt));
      resolved := HandOut(pending, results, values, stale, now, rt, start);
      if resolved.Resolved? {
        HandedOutAll(w, rt.Settings(), keys, pending, values, resolved.values, resolved.errors, rt.memo);
        ReadyFirst(w.rules, start, keys, now, hits, misses, stale, pending, results, values, resolved.values,
                   resolved.errors);
        SamePins(start.memo, keys, hits, values);
        if w.AllDirect() {
          SoundStore(before);
          forall k | k in keys
            ensures HandedAs(k, EndsIn(w, rt.Settings(), cache.maxEntries, localOwned, start, keys, now, k),
                             resolved.values, resolved.errors)
          {
            EndOf(keys, now, rt.Settings(), localOwned, start, before, hits, misses, stale, pending, results, values,
                  resolved.values, resolved.errors, k);
          }
          if Spacious(rt.Settings(), cache.maxEntries, start.store.entries, Elems(keys)) {
            RequestWithRoom(w, rt.Settings(), cache.maxEntries, localOwned, start, keys, now, resolved.values,
                            resolved.errors);
          }
        }
      }
    }

    /** How one key of a request ends, from the steps that led there. */
    lemma EndOf(keys: seq<Key>, now: real, scope: Scope, localOwned: set<Key>, start: Situation, before: Situation,
                hits: Entries, misses: seq<Key>, stale: Entries,
                pending: seq<Key>, results: map<Key, Outcome>, ready: Entries, values: Entries,
                errors: map<Key, Unresolved>, k: Key)
      requires WellFiled(start.store.entries) && k in keys && start.force !! start.memo.Keys && before.store.Valid()
      requires var looked := LookupOrder(keys, start.memo, start.force);
        Looked(w.rules, start.store, looked, now, |looked|, hits, misses, stale)
      requires before.memo == start.memo + hits && before.force == start.force
      requires before.store == AfterLookups(w.rules, start, keys, now).store
      requires pending == PendingOrder(w.rules, start, keys, now) == DueOrder(keys, start.force) + misses
      requires forall x :: x in ready <==> x in hits || (x in keys && x in start.memo)
      requires forall x :: x in ready ==> ready[x] == if x in hits then hits[x] else start.memo[x]
      requires results.Keys == Elems(pending)
      requires EachPending(w, scope, cache.maxEntries, localOwned, before, pending, results, now)
      requires Faithful(w.rules, results, stale, ready, pending, values, errors, now)
      ensures HandedAs(k, EndsIn(w, scope, cache.maxEntries, localOwned, start, keys, now, k), values, errors)
    {
      hide LookupOrder, DueOrder, Looked, Ending, HandedAs, PendingSettle, SettleAt, AfterReading, Faithful, WellFiled,
           Store.Valid, NoDuplicates, MissesOf;
      var looked := LookupOrder(keys, start.memo, start.force);
      var after := AfterLookups(w.rules, start, keys, now);
      LookedKeys(w.rules, start.store, looked, now, hits, misses, stale);
      if k in pending {
        SettledAlike(w, scope, cache.maxEntries, localOwned, start, before, keys, now, hits, pending, k);
      }
      EndsTogether(w, start, keys, now, hits, misses, stale, pending, results, ready, values, errors, k,
                   PendingSettle(w, scope, cache.maxEntries, localOwned, after, pending, k, now));
    }
  }
}
