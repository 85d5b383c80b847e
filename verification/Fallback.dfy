/** The consistency fallback: the passes it makes, what each of them unpins and pins, and what they keep. */
module Fallback {
  import opened Core
  import opened DependencyGraph
  import opened MemoryCache
  import opened Sources
  import opened Resolution
  import opened RuntimeState
  import opened Requests
  import opened Dependents
  import opened Consistency

  /** The source names, stripped, that values of the fallback can carry. */
  ghost function KnownNames(w: World, values: Entries): set<string> {
    (set k | k in values :: Strip(values[k].source)) + (set s | s in w.sources :: Strip(s.name))
  }

  /** A value is one of the original ones or from a source not excluded for its key. */
  ghost predicate Replaced(w: World, scope: Scope, original: Entries, values: Entries) {
    && values.Keys == original.Keys
    && forall k :: k in values ==> values[k] == original[k] || FromOpenSource(w, scope, values[k])
  }

  ghost predicate Named(names: set<string>, values: Entries) {
    forall k :: k in values ==> Strip(values[k].source) in names
  }

  lemma PinnedReflexive(m: Entries)
    ensures PinnedAs(m, m)
  {
  }

  lemma PinnedEmpty(m: Entries)
    ensures PinnedAs(m, map[])
  {
  }

  lemma PinnedTransitive(c: Entries, b: Entries, a: Entries)
    requires PinnedAs(c, b)
    ensures PinnedAs(b, a) ==> PinnedAs(c, a)
  {
  }

  lemma PinnedKeys(memo: Entries, values: Entries)
    requires PinnedAs(memo, values)
    ensures values.Keys <= memo.Keys
  {
  }

  lemma PartitionPins(w: World, scope: Scope, keys: seq<Key>, values: Entries, errors: map<Key, Unresolved>,
                      memo: Entries)
    requires Partition(w, scope, keys, values, errors, memo)
    ensures PinnedAs(memo, values)
  {
  }

  // ---- The passes of the fallback ---------------------------------------------------------------

  /**
    One pass of the consistency fallback: the oldest resource and the source it came from, the settings with that source
    excluded, what was pinned before, what was unpinned, what the pass began with and what was pinned after it.
   */
  datatype Pass = Pass(oldest: Key, source: string, scope: Scope, before: Entries, affected: set<Key>, kept: Entries,
                       after: Entries)

  /** A requested key whose pinned value has the least observation time. */
  ghost predicate LeastRecent(memo: Entries, requested: seq<Key>, k: Key) {
    k in requested && k in memo && forall x :: x in requested && x in memo ==> memo[k].observedAt <= memo[x].observedAt
  }

  /** The settings of a pass: one more source is excluded, and nothing reaches the shared cache. */
  function Narrowed(scope: Scope, k: Key, source: string): Scope {
    Scope(scope.excluded[k := scope.ExcludedFor(k) + {source}], false, false)
  }

  /** What was not affected is still pinned; what was is pinned by open sources only, if at all. */
  ghost predicate Repinned(w: World, scope: Scope, kept: Entries, affected: set<Key>, after: Entries) {
    && PinnedAs(after, kept)
    && forall k :: k in affected && k in after ==> after[k].key == k && FromOpenSource(w, scope, after[k])
  }

  ghost predicate PassDone(w: World, requested: seq<Key>, limit: real, scope: Scope, p: Pass) {
    && !WithinSkew(p.before, requested, limit) && LeastRecent(p.before, requested, p.oldest)
    && p.source == Strip(p.before[p.oldest].source) != [] && p.scope == Narrowed(scope, p.oldest, p.source)
    && LeastClosure(p.before, {p.oldest}, p.affected) && p.kept == p.before - p.affected
    && Repinned(w, p.scope, p.kept, p.affected, p.after) && Elems(requested) <= p.after.Keys
  }

  function MemoAt(start: Entries, passes: seq<Pass>, i: nat): Entries
    requires i <= |passes|
  {
    if i == 0 then start else passes[i - 1].after
  }

  function ScopeAt(start: Scope, passes: seq<Pass>, i: nat): Scope
    requires i <= |passes|
  {
    if i == 0 then start else passes[i - 1].scope
  }

  /** Pass `i` begins where the one before it ended. */
  ghost predicate Linked(w: World, requested: seq<Key>, limit: real, start: Entries, scope: Scope, passes: seq<Pass>,
                         i: nat)
    requires i < |passes|
  {
    && passes[i].before == MemoAt(start, passes, i)
    && PassDone(w, requested, limit, ScopeAt(scope, passes, i), passes[i])
  }

  /** The passes lead from the one state to the other. */
  ghost predicate Chained(w: World, requested: seq<Key>, limit: real, start: Entries, scope: Scope, passes: seq<Pass>,
                          last: Entries, scope': Scope) {
    && (forall i :: 0 <= i < |passes| ==> Linked(w, requested, limit, start, scope, passes, i))
    && last == MemoAt(start, passes, |passes|) && scope' == ScopeAt(scope, passes, |passes|)
  }

  /** The keys that some pass unpinned. */
  ghost function Reached(passes: seq<Pass>): set<Key> {
    if passes == [] then {} else Reached(passes[..|passes| - 1]) + passes[|passes| - 1].affected
  }

  /**
    Without the excluded source some target that would be unpinned cannot be resolved, and its error accounts for that.
   */
  ghost predicate FailedPass(w: World, targets: set<Key>, memo: Entries, scope: Scope, k: Key) {
    exists affected: set<Key>, e: Unresolved ::
      LeastClosure(memo, {k}, affected) && e.key in targets * affected && Truthful(w, scope, e)
  }

  /** Nothing is left to try: the oldest has no source, was tried with it before, or a pass without it failed. */
  ghost predicate GivenUp(w: World, targets: set<Key>, requested: seq<Key>, passes: seq<Pass>, last: Entries,
                          scope: Scope) {
    exists k ::
      && LeastRecent(last, requested, k)
      && var source := Strip(last[k].source);
         source == [] || (k, source) in Tried(passes) || FailedPass(w, targets, last, Narrowed(scope, k, source), k)
  }

  /** Where there is bounty for the targets no pass fails. */
  lemma BountyNeverFails(w: World, targets: set<Key>, memo: Entries, scope: Scope, k: Key, inside: set<Key>)
    requires Bounty(w, scope, inside) && targets <= inside
    ensures !FailedPass(w, targets, memo, scope, k)
  {
    hide Bounty, Truthful, LeastClosure;
    forall e: Unresolved | e.key in targets ensures !Truthful(w, scope, e) {
      BountyRefutes(w, scope, inside, e);
    }
  }

  lemma BountyIsUnhurried(w: World, scope: Scope, inside: set<Key>)
    requires Bounty(w, scope, inside)
    ensures w.Unhurried()
  {
  }

  lemma PassFails(w: World, targets: seq<Key>, retryTargets: seq<Key>, memo: Entries, scope: Scope, k: Key,
                  affected: set<Key>, values: Entries, errors: map<Key, Unresolved>, after: Entries)
    requires LeastClosure(memo, {k}, affected) && (forall x :: x in retryTargets <==> x in targets && x in affected)
    requires Partition(w, scope, retryTargets, values, errors, after) && errors != map[]
    ensures FailedPass(w, Elems(targets), memo, scope, k)
  {
    hide Truthful, LeastClosure;
    assert errors.Keys != {};
    var x :| x in errors;
    assert x in values.Keys + errors.Keys;
    assert errors[x].key in Elems(targets) * affected;
  }

  ghost function Tried(passes: seq<Pass>): set<(Key, string)> {
    set p | p in passes :: (p.oldest, p.source)
  }

  lemma NothingPassed(w: World, requested: seq<Key>, limit: real, memo: Entries, scope: Scope)
    ensures Chained(w, requested, limit, memo, scope, [], memo, scope) && Reached([]) == {} && Tried([]) == {}
  {
  }

  lemma LinkedAlike(w: World, requested: seq<Key>, limit: real, start: Entries, scope: Scope, front: seq<Pass>,
                    p: Pass, i: nat)
    requires i < |front|
    ensures Linked(w, requested, limit, start, scope, front, i) <==>
      Linked(w, requested, limit, start, scope, front + [p], i)
  {
    hide PassDone;
  }

  lemma ChainedStep(w: World, requested: seq<Key>, limit: real, start: Entries, scope: Scope, passes: seq<Pass>,
                    p: Pass, scope': Scope)
    requires Chained(w, requested, limit, start, scope, passes, p.before, scope')
    requires PassDone(w, requested, limit, scope', p)
    ensures Chained(w, requested, limit, start, scope, passes + [p], p.after, p.scope)
    ensures Tried(passes + [p]) == Tried(passes) + {(p.oldest, p.source)}
  {
    hide PassDone;
    var all := passes + [p];
    assert Linked(w, requested, limit, start, scope, all, |passes|);
    hide Linked;
    forall i | 0 <= i < |all| ensures Linked(w, requested, limit, start, scope, all, i) {
      if i < |passes| { LinkedAlike(w, requested, limit, start, scope, passes, p, i); }
    }
    assert forall q :: q in all <==> q in passes || q == p;
  }

  lemma ChainedFront(w: World, requested: seq<Key>, limit: real, start: Entries, scope: Scope, passes: seq<Pass>,
                     last: Entries, scope': Scope)
    requires Chained(w, requested, limit, start, scope, passes, last, scope') && passes != []
    ensures var p, front := passes[|passes| - 1], passes[..|passes| - 1];
            && Chained(w, requested, limit, start, scope, front, p.before, ScopeAt(scope, front, |front|))
            && PassDone(w, requested, limit, ScopeAt(scope, front, |front|), p) && last == p.after
  {
    hide PassDone;
    var n := |passes| - 1;
    var front := passes[..n];
    assert passes == front + [passes[n]];
    assert Linked(w, requested, limit, start, scope, passes, n);
    hide Linked;
    forall i | 0 <= i < n ensures Linked(w, requested, limit, start, scope, front, i) {
      LinkedAlike(w, requested, limit, start, scope, front, passes[n], i);
    }
  }

  lemma ChainedNone(w: World, requested: seq<Key>, limit: real, start: Entries, scope: Scope, last: Entries,
                    scope': Scope)
    requires Chained(w, requested, limit, start, scope, [], last, scope')
    ensures last == start && scope' == scope
  {
  }

  lemma PassKeeps(w: World, requested: seq<Key>, limit: real, scope: Scope, p: Pass)
    requires PassDone(w, requested, limit, scope, p)
    ensures p.oldest in requested && LeastClosure(p.before, {p.oldest}, p.affected) && p.kept == p.before - p.affected
    ensures PinnedAs(p.after, p.kept)
  {
    hide LeastClosure, WithinSkew, Strip, FromOpenSource;
  }

  /**
    A pinned value is kept by every pass exactly when its key is not reached, and then it is still pinned at the end.
   */
  lemma {:induction false} KeptExactly(w: World, requested: seq<Key>, limit: real, start: Entries, scope: Scope,
                                       passes: seq<Pass>, last: Entries, scope': Scope, k: Key)
    requires Chained(w, requested, limit, start, scope, passes, last, scope') && k in start
    ensures k !in Reached(passes) <==>
      forall i :: 0 <= i < |passes| ==> k in passes[i].kept && passes[i].kept[k] == start[k]
    ensures k !in Reached(passes) ==> k in last && last[k] == start[k]
    decreases |passes|
  {
    hide Chained, PassDone, LeastClosure;
    if passes == [] {
      ChainedNone(w, requested, limit, start, scope, last, scope');
    } else {
      var n := |passes| - 1;
      var p, front := passes[n], passes[..n];
      ChainedFront(w, requested, limit, start, scope, passes, last, scope');
      PassKeeps(w, requested, limit, ScopeAt(scope, front, n), p);
      KeptExactly(w, requested, limit, start, scope, front, p.before, ScopeAt(scope, front, n), k);
      assert forall i :: 0 <= i < n ==> front[i] == passes[i];
      if k !in Reached(front) && k !in p.affected { assert k in p.kept; }
    }
  }

  /** What a secluded set without requested keys pins is never reached. */
  lemma {:induction false} SecludedIsNeverReached(w: World, requested: seq<Key>, limit: real, start: Entries,
                                                  scope: Scope, passes: seq<Pass>, last: Entries, scope': Scope,
                                                  s: set<Key>)
    requires Chained(w, requested, limit, start, scope, passes, last, scope') && Secluded(start, s)
    requires Elems(requested) !! s
    ensures Reached(passes) !! s && Secluded(last, s)
    decreases |passes|
  {
    hide Chained, PassDone, LeastClosure;
    if passes == [] {
      ChainedNone(w, requested, limit, start, scope, last, scope');
    } else {
      var n := |passes| - 1;
      var p, front := passes[n], passes[..n];
      ChainedFront(w, requested, limit, start, scope, passes, last, scope');
      PassKeeps(w, requested, limit, ScopeAt(scope, front, n), p);
      SecludedIsNeverReached(w, requested, limit, start, scope, front, p.before, ScopeAt(scope, front, n), s);
      assert p.oldest in Elems(requested);
      SecludedIsNotReached(p.before, {p.oldest}, s, p.affected);
      forall k | k in s ensures k in p.after && p.after[k] == p.before[k] {
        assert k in p.kept;
      }
    }
  }

  /** The order in which the keys are requested, and their repetition, make no difference. */
  lemma ChainedSame(w: World, requested: seq<Key>, keys: seq<Key>, limit: real, start: Entries, scope: Scope,
                    passes: seq<Pass>, last: Entries, scope': Scope, targets: set<Key>)
    requires Chained(w, requested, limit, start, scope, passes, last, scope')
    requires forall k :: k in requested <==> k in keys
    ensures Chained(w, keys, limit, start, scope, passes, last, scope')
    ensures GivenUp(w, targets, requested, passes, last, scope') ==> GivenUp(w, targets, keys, passes, last, scope')
  {
    hide PassDone, Strip, FailedPass, Narrowed, LeastRecent;
    forall i | 0 <= i < |passes| ensures Linked(w, keys, limit, start, scope, passes, i) {
      assert Linked(w, requested, limit, start, scope, passes, i);
      PassSame(w, requested, keys, limit, ScopeAt(scope, passes, i), passes[i]);
    }
    forall k | LeastRecent(last, requested, k) ensures LeastRecent(last, keys, k) {
      RecentSame(last, requested, keys, k);
    }
  }

  lemma RecentSame(memo: Entries, requested: seq<Key>, keys: seq<Key>, k: Key)
    requires LeastRecent(memo, requested, k) && forall x :: x in requested <==> x in keys
    ensures LeastRecent(memo, keys, k)
  {
  }

  lemma PassSame(w: World, requested: seq<Key>, keys: seq<Key>, limit: real, scope: Scope, p: Pass)
    requires PassDone(w, requested, limit, scope, p) && forall k :: k in requested <==> k in keys
    ensures PassDone(w, keys, limit, scope, p)
  {
    hide LeastClosure, Strip, Repinned, LeastRecent;
    RecentSame(p.before, requested, keys, p.oldest);
    assert Elems(requested) == Elems(keys);
  }

  // ---- The values of the fallback ---------------------------------------------------------------

  /** The values of the fallback: pinned, original or from open sources, and of known origin. */
  ghost predicate Standby(w: World, scope: Scope, original: Entries, names: set<string>, values: Entries,
                          memo: Entries) {
    && PinnedAs(memo, values)
    && Replaced(w, scope, original, values)
    && Named(names, values)
    && forall s :: s in w.sources ==> Strip(s.name) in names
  }

  lemma ClosureHasRequested(memo: Entries, k: Key, affected: set<Key>)
    requires LeastClosure(memo, {k}, affected)
    ensures k in affected
  {
  }

  /** Pinned values without the affected ones, which are all due for refresh. */
  lemma StagingSound(here: Situation, affected: set<Key>, staged: Situation)
    requires here.Sound() && staged.memo == here.memo - affected && staged.force <= affected
    requires staged.store == here.store
    ensures staged.Sound()
  {
  }

  lemma SoundLater(a: Situation, b: Situation)
    requires a.force !! a.memo.Keys && WellFiled(a.memo) && b.store == a.store && b.Sound()
    ensures a.Sound()
  {
  }

  lemma ProgressUnwritten(w: World, scope: Scope, a: Situation, b: Situation)
    requires Progress(w, scope, a, b) && !scope.cacheSource && !scope.cacheStale
    ensures Unwritten(a.store, b.store)
  {
  }

  lemma FallbackReplaces(w: World, scope: Scope, scope': Scope, original: Entries, names: set<string>, values: Entries,
                         targets: seq<Key>, affected: set<Key>,
                         retryTargets: seq<Key>, found: Entries, memo: Entries, a: Situation, b: Situation, oldest: Key,
                         source: string)
    requires Standby(w, scope, original, names, values, memo)
    requires LeastClosure(memo, {oldest}, affected) && WellFiled(memo) && oldest in targets
    requires values.Keys == Elems(targets)
    requires forall k :: k in retryTargets <==> k in targets && k in affected
    requires a.memo == memo - affected && a.force == affected && Progress(w, scope', a, b) && b.Sound()
    requires !scope'.cacheSource
    requires Partition(w, scope', retryTargets, found, map[], b.memo)
    requires scope' == Narrowed(scope, oldest, source)
    ensures var replaced := values + found;
            && replaced.Keys == values.Keys && Standby(w, scope', original, names, replaced, b.memo)
            && oldest in replaced && FromOpenSource(w, scope', replaced[oldest]) && source in scope'.ExcludedFor(oldest)
  {
    hide FromOpenSource, Strip, LeastClosure, Progress, Standby, Partition, WellFiled;
    var replaced := values + found;
    assert oldest in affected by { ClosureHasRequested(memo, oldest, affected); }
    PartitionKeys(w, scope', retryTargets, found, b.memo);
    assert replaced.Keys == values.Keys;
    forall k | k in replaced ensures StandbyAt(w, scope', original, names, replaced, b.memo, k) {
      if k in found {
        FoundStandby(w, scope, scope', original, names, values, found, retryTargets, memo, a, b, k);
      } else {
        assert k in targets && k !in affected;
        RetainedStandby(w, scope, scope', original, names, values, found, affected, memo, a, b, oldest, source, k);
      }
    }
    StandbyEverywhere(w, scope, scope', original, names, values, memo, replaced, b.memo);
    PartitionPins(w, scope', retryTargets, found, map[], b.memo);
    ForcedAreOpen(w, scope', a, b, oldest) by { PinnedAt(b.memo, found, oldest); }
    PinnedAt(b.memo, found, oldest);
  }

  ghost predicate StandbyAt(w: World, scope: Scope, original: Entries, names: set<string>, values: Entries,
                            memo: Entries, k: Key)
    requires k in values
  {
    && k in memo && memo[k] == values[k]
    && k in original && (values[k] == original[k] || FromOpenSource(w, scope, values[k]))
    && Strip(values[k].source) in names
  }

  lemma PinnedAt(memo: Entries, values: Entries, k: Key)
    requires PinnedAs(memo, values) && k in values
    ensures k in memo && memo[k] == values[k]
  {
  }

  lemma PartitionKeys(w: World, scope: Scope, keys: seq<Key>, values: Entries, memo: Entries)
    requires Partition(w, scope, keys, values, map[], memo)
    ensures values.Keys == Elems(keys)
  {
    hide Truthful;
    var none: map<Key, Unresolved> := map[];
    assert values.Keys + none.Keys == values.Keys;
  }

  lemma FoundStandby(w: World, scope: Scope, scope': Scope, original: Entries, names: set<string>, values: Entries,
                     found: Entries, retryTargets: seq<Key>,
                     memo: Entries, a: Situation, b: Situation, k: Key)
    requires Standby(w, scope, original, names, values, memo) && k in values && k in found && k in a.force
    requires Partition(w, scope', retryTargets, found, map[], b.memo) && Progress(w, scope', a, b)
    requires !scope'.cacheSource
    ensures StandbyAt(w, scope', original, names, values + found, b.memo, k)
  {
    hide FromOpenSource, Strip, Truthful, Progress;
    assert b.memo[k] == found[k];
    ForcedAreOpen(w, scope', a, b, k);
    OpenIsNamed(w, scope', names, found[k]);
  }

  lemma RetainedStandby(w: World, scope: Scope, scope': Scope, original: Entries, names: set<string>, values: Entries,
                        found: Entries, affected: set<Key>,
                        memo: Entries, a: Situation, b: Situation, oldest: Key, source: string, k: Key)
    requires Standby(w, scope, original, names, values, memo) && WellFiled(memo) && k in values && k !in found
    requires k !in affected && k != oldest
    requires a.memo == memo - affected && Progress(w, scope', a, b)
    requires scope'.excluded == scope.excluded[oldest := scope.ExcludedFor(oldest) + {source}]
    ensures StandbyAt(w, scope', original, names, values + found, b.memo, k)
  {
    hide FromOpenSource, Strip, Progress;
    assert memo[k] == values[k];
    ProgressPins(w, scope', a, b);
    assert k in a.memo;
    if values[k] != original[k] {
      OpenElsewhere(w, scope, scope', values[k], oldest, scope.ExcludedFor(oldest) + {source});
    }
  }

  lemma StandbyEverywhere(w: World, scope: Scope, scope': Scope, original: Entries, names: set<string>, values: Entries,
                          memo: Entries, replaced: Entries, memo': Entries)
    requires Standby(w, scope, original, names, values, memo) && replaced.Keys == values.Keys
    requires forall k :: k in replaced ==> StandbyAt(w, scope', original, names, replaced, memo', k)
    ensures Standby(w, scope', original, names, replaced, memo')
  {
    hide FromOpenSource, Strip;
  }

  /** A key that was due for refresh and is pinned now has its value from an open source. */
  lemma ForcedAreOpen(w: World, scope: Scope, a: Situation, b: Situation, k: Key)
    requires Progress(w, scope, a, b) && !scope.cacheSource && k in a.force && k in b.memo
    ensures FromOpenSource(w, scope, b.memo[k])
  {
  }

  lemma OpenIsNamed(w: World, scope: Scope, names: set<string>, v: Value)
    requires FromOpenSource(w, scope, v) && forall s :: s in w.sources ==> Strip(s.name) in names
    ensures Strip(v.source) in names
  {
  }

  lemma OpenElsewhere(w: World, scope: Scope, scope': Scope, v: Value, oldest: Key, barred: set<string>)
    requires FromOpenSource(w, scope, v) && v.key != oldest && scope'.excluded == scope.excluded[oldest := barred]
    ensures FromOpenSource(w, scope', v)
  {
    var i :| ObtainedAt(w, scope, v, i);
    assert scope'.ExcludedFor(v.key) == scope.ExcludedFor(v.key);
    assert ObtainedAt(w, scope', v, i);
  }

  lemma StandbyAtFirst(w: World, scope: Scope, values: Entries, memo: Entries)
    requires PinnedAs(memo, values)
    ensures Standby(w, scope, values, KnownNames(w, values), values, memo)
  {
  }

  lemma StandbyNamed(w: World, scope: Scope, original: Entries, names: set<string>, values: Entries, memo: Entries,
                     k: Key)
    requires Standby(w, scope, original, names, values, memo) && k in values
    ensures Strip(values[k].source) in names
  {
  }

  lemma StandbyGives(w: World, scope: Scope, original: Entries, names: set<string>, values: Entries, memo: Entries)
    requires Standby(w, scope, original, names, values, memo)
    ensures PinnedAs(memo, values) && Replaced(w, scope, original, values)
  {
  }

  lemma StripTwice(s: string)
    ensures Strip(Strip(s)) == Strip(s)
  {
  }

  lemma UnwrittenReflexive(a: Store)
    ensures Unwritten(a, a)
  {
  }

  lemma UnwrittenTransitive(a: Store, b: Store, c: Store)
    requires Unwritten(a, b) && Unwritten(b, c)
    ensures Unwritten(a, c)
  {
  }

  /** What a retry leaves pinned. */
  lemma RetryRepins(w: World, scope: Scope, a: Situation, b: Situation)
    requires Progress(w, scope, a, b) && !scope.cacheSource && b.Sound()
    ensures Repinned(w, scope, a.memo, a.force, b.memo)
  {
    hide FromOpenSource, Level, Store.Valid;
  }

  /** A violation among pinned values, said of what is pinned. */
  lemma SkewPinned(values: Entries, memo: Entries, requested: seq<Key>, limit: real)
    requires PinnedAs(memo, values) && Elems(requested) <= values.Keys && limit >= 0.0
    ensures WithinSkew(values, requested, limit) <==> WithinSkew(memo, requested, limit)
    ensures FindSkew(values, requested, limit).Some? ==>
      var k := FindSkew(values, requested, limit).value.oldestKey;
      k in values && memo[k] == values[k] && LeastRecent(memo, requested, k) && !WithinSkew(memo, requested, limit)
  {
    hide FindSkew;
    SkewDecides(values, requested, limit);
    forall k | k in requested ensures k in values && k in memo && memo[k] == values[k] {
      assert k in Elems(requested);
    }
  }

  lemma GivesUp(w: World, targets: set<Key>, requested: seq<Key>, passes: seq<Pass>, last: Entries, scope: Scope,
                k: Key)
    requires LeastRecent(last, requested, k)
    requires var source := Strip(last[k].source);
      source == [] || (k, source) in Tried(passes) || FailedPass(w, targets, last, Narrowed(scope, k, source), k)
    ensures GivenUp(w, targets, requested, passes, last, scope)
  {
    hide FailedPass, Strip, LeastRecent;
  }
}
