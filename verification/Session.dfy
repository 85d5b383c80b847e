/** A session: values once visible stay as they are unless a revalidation replaces them as a whole. */
module Session {
  import opened Core
  import opened DependencyGraph
  import opened MemoryCache
  import opened AsyncMemoryCache
  import opened Sources
  import opened Resolution
  import opened RuntimeState
  import opened CacheLookups
  import opened CacheReads
  import opened Requests
  import opened Resolver
  import opened Dependents
  import opened Fallback
  import opened Consistency
  import Acceptance

  datatype Reply =
    | Snapshot(resources: Entries, errors: map<Key, Unresolved>)
    | BuildFailed(errors: map<Key, Unresolved>)
    | Inconsistent(violation: SkewViolation)
    | Unacceptable(violations: seq<Acceptance.Violation>)
    | Refused(reason: string)

  const DEADLINE := Failure("snapshot", Faulted(DeadlineExceeded))

  function DeadlineErrors(keys: seq<Key>): (r: map<Key, Unresolved>)
    ensures r.Keys == Elems(keys)
  {
    map k | k in keys :: Unresolved(k, [DEADLINE])
  }

  predicate IncludesDeadline(errors: map<Key, Unresolved>) {
    exists k :: k in errors && exists f :: f in errors[k].failures && f.cause == Faulted(DeadlineExceeded)
  }

  /** The members of a set, in some order. */
  method Listed(s: set<Key>) returns (r: seq<Key>)
    ensures Elems(r) == s && NoDuplicates(r)
  {
    r := [];
    var rest := s;
    while rest != {}
      invariant Elems(r) + rest == s && Elems(r) !! rest && NoDuplicates(r)
      decreases rest
    {
      var k :| k in rest;
      assert k !in Elems(r);
      rest := rest - {k};
      r := r + [k];
    }
  }

  class SnapshotSession {
    const builder: SnapshotBuilder
    const rt: Runtime
    var resources: Entries
    var errors: map<Key, Unresolved>
    var closed: bool

    constructor (builder: SnapshotBuilder, rt: Runtime)
      requires builder.Ready(rt) && builder.inFlight == {} && rt.force == {} && rt.memo == map[]
      ensures this.builder == builder && this.rt == rt && resources == map[] && errors == map[] && !closed
      ensures Valid() && Agrees()
    {
      this.builder, this.rt, resources, errors, closed := builder, rt, map[], map[], false;
    }

    ghost predicate Valid()
      reads this, builder, rt, builder.cache
    {
      builder.Ready(rt) && builder.inFlight == {} && rt.force == {} && resources.Keys <= builder.universe
    }

    /** Every visible value is the pinned one. */
    ghost predicate Agrees()
      reads this, rt
    {
      PinnedAs(rt.memo, resources)
    }

    lemma StoreIsValid()
      requires Valid()
      ensures builder.cache.State().Valid()
    {
    }

    method Close()
      requires Valid()
      modifies this`closed
      ensures Valid() && closed
    {
      closed := true;
    }

    /** Whether the deadline passes while a snapshot is copied out. */
    method Late() returns (late: bool)
      requires Valid()
      modifies builder`serial
      ensures Valid() && (builder.w.Unhurried() ==> !late)
      ensures late == builder.w.expires(old(builder.serial)) && builder.serial == old(builder.serial) + 1
    {
      late := builder.Expired();
    }

    /** Resolves the keys that are neither visible nor failed. */
    method Acquire(pending: seq<Key>, now: real) returns (resolved: Resolved)
      requires Valid() && Elems(pending) <= builder.universe
      modifies builder, rt`memo, rt`force, builder.cache
      ensures Valid() && PinnedAs(rt.memo, old(rt.memo))
      ensures builder.w.Unhurried() ==> resolved.Resolved?
      ensures resolved.Resolved? ==>
        && resolved.values.Keys + resolved.errors.Keys == Elems(pending)
        && PinnedAs(rt.memo, resolved.values)
      ensures Acquired(builder.w, old(builder.Here(rt)), pending, now, resolved, builder.Here(rt))
    {
      hide Progress, Situation.Sound, Enclosed, Truthful, Placed, PinnedAs, World.Unhurried, AllEndAs, AllEndIn,
           ServedFirst, PendingOrder, KeepsKind, WellFiled;
      SoundEntries(builder.Here(rt));
      if pending == [] {
        NothingAcquired(builder.w, builder.Here(rt), now);
        PinnedReflexive(rt.memo);
        PinnedEmpty(rt.memo);
        return Resolved(map[], map[]);
      }
      PlacedAtTop(builder.w, builder.universe, pending);
      ghost var before := builder.Here(rt);
      resolved := builder.ResolveMany(pending, now, rt, [], {});
      ProgressPins(builder.w, rt.Settings(), before, builder.Here(rt));
      KindSoFar(builder.w, rt.Settings(), before, builder.Here(rt));
      if resolved.Resolved? {
        PartitionPins(builder.w, rt.Settings(), pending, resolved.values, resolved.errors, rt.memo);
      }
    }

    /** Resolves another stage: new keys become visible or fail, visible values stay. */
    method Resolve(keys: seq<Key>, strict: bool, retryErrors: bool, now: real)
      returns (reply: Reply, ghost stage: StageRecord)
      requires Valid() && Elems(keys) <= builder.universe
      modifies this, builder, rt`memo, rt`force, builder.cache
      ensures Valid() && (old(Agrees()) ==> Agrees())
      ensures PinnedAs(resources, old(resources)) && PinnedAs(rt.memo, old(rt.memo))
      ensures Accrued(old(resources), old(errors), resources, errors, Elems(keys), retryErrors)
      ensures closed == old(closed)
      ensures !reply.Inconsistent? && !reply.Unacceptable? && (reply.Refused? <==> old(closed) || keys == [])
      ensures reply.Refused? ==> resources == old(resources) && errors == old(errors) && rt.memo == old(rt.memo)
      ensures reply.Snapshot? ==> reply.resources == resources && reply.errors == errors
      ensures reply.Snapshot? ==> Answered(keys, resources, errors)
      ensures reply.Snapshot? && strict ==> Unfailed(keys, errors)
      ensures reply.BuildFailed? ==> strict && reply.errors != map[]
      ensures reply.BuildFailed? ==>
        reply.errors == if stage.late then DeadlineErrors(keys) else FailedAmong(keys, errors)
      ensures !reply.Refused? ==> StageLeaves(old(resources), old(errors), keys, retryErrors, strict, stage, resources,
                                              errors)
      ensures !reply.Refused? && builder.w.Unhurried() ==> !stage.late
      ensures !reply.Refused? ==> StageLate(builder.w, old(errors), keys, retryErrors, stage, builder.serial)
      ensures !reply.Refused? ==> Acquired(builder.w, old(builder.Here(rt)), stage.pending, now, stage.found,
                                           builder.Here(rt))
    {
      hide Acquired, SnapshotBuilder.Ready, Distinct, NoDuplicates, PinnedAs, Accrued, StageLeaves, World.Unhurried;
      stage := StageRecord([], DeadlinePassed, true);
      if closed || keys == [] {
        PinnedReflexive(resources);
        PinnedReflexive(rt.memo);
        NothingAccrued(resources, errors, Elems(keys), retryErrors);
        return Refused(if closed then "session is closed" else "at least one resource key is required"), stage;
      }
      reply, stage := Stage(keys, Distinct(keys), strict, retryErrors, now);
    }

    /** Resolves what is pending and puts together the state the stage would leave. */
    method Gather(ghost keys: seq<Key>, requested: seq<Key>, retryErrors: bool, now: real)
      returns (late: bool, pending: seq<Key>, shown: Entries, failures: map<Key, Unresolved>, ghost found: Resolved)
      requires Valid() && Elems(keys) <= builder.universe && forall k :: k in requested <==> k in keys
      modifies builder, rt`memo, rt`force, builder.cache
      ensures Valid() && PinnedAs(rt.memo, old(rt.memo))
      ensures Proposed(resources, errors, keys, retryErrors, shown, failures, rt.memo, builder.universe)
      ensures Proposed(resources, errors, keys, retryErrors, shown, failures + DeadlineErrors(pending), rt.memo,
                       builder.universe)
      ensures Answered(keys, shown, failures + DeadlineErrors(pending))
      ensures !late ==> Answered(keys, shown, failures)
      ensures Planned(resources, errors, keys, retryErrors, pending, found) && (late <==> found.DeadlinePassed?)
      ensures shown == resources + ValuesIn(found) && failures == Remaining(errors, keys, retryErrors) + ErrorsIn(found)
      ensures builder.w.Unhurried() ==> !late
      ensures Acquired(builder.w, old(builder.Here(rt)), pending, now, found, builder.Here(rt))
    {
      hide Acquired, SnapshotBuilder.Ready, PinnedAs, Accrued, DeadlineErrors, Staged, Answered, Filter,
           World.Unhurried;
      var remaining := if retryErrors then errors - Elems(requested) else errors;
      var visible := resources;
      pending := Filter(requested, k => k !in visible && k !in remaining);
      assert Elems(pending) <= builder.universe;
      StagePlanned(visible, errors, keys, requested, retryErrors, remaining, pending);
      assert remaining == Remaining(errors, keys, retryErrors) by { assert Elems(requested) == Elems(keys); }
      var resolved := Acquire(pending, now);
      PinnedEmpty(rt.memo);
      late, found := resolved.DeadlinePassed?, resolved;
      var values, broken := map[], map[];
      if !late {
        values, broken := resolved.values, resolved.errors;
      }
      StageAccrues(resources, errors, keys, retryErrors, remaining, pending, values, broken, rt.memo, builder.universe);
      shown, failures := resources + values, remaining + broken;
    }

    /** The failures of the request, and whether the deadline has passed. */
    method Tally(requested: seq<Key>, failures: map<Key, Unresolved>, late: bool)
      returns (failed: map<Key, Unresolved>, deadline: bool)
      requires Valid()
      modifies builder`serial
      ensures Valid() && failed == FailedAmong(requested, failures)
      ensures deadline <==> late || (!IncludesDeadline(failed) && builder.w.expires(old(builder.serial)))
      ensures builder.w.Unhurried() ==> deadline == late
      ensures !late && !IncludesDeadline(failed) ==> builder.serial == old(builder.serial) + 1
    {
      hide SnapshotBuilder.Ready, IncludesDeadline, World.Unhurried;
      failed := FailedAmong(requested, failures);
      deadline := late;
      if !late && !IncludesDeadline(failed) {
        deadline := Late();
      }
    }

    /** The stage itself, over the distinct keys of the request. */
    method Stage(ghost keys: seq<Key>, requested: seq<Key>, strict: bool, retryErrors: bool, now: real)
      returns (reply: Reply, ghost stage: StageRecord)
      requires Valid() && Elems(keys) <= builder.universe && keys != [] && forall k :: k in requested <==> k in keys
      modifies this`resources, this`errors, builder, rt`memo, rt`force, builder.cache
      ensures Valid() && (old(Agrees()) ==> Agrees())
      ensures PinnedAs(resources, old(resources)) && PinnedAs(rt.memo, old(rt.memo))
      ensures Accrued(old(resources), old(errors), resources, errors, Elems(keys), retryErrors)
      ensures !reply.Refused? && !reply.Inconsistent? && !reply.Unacceptable?
      ensures reply.Snapshot? ==> reply.resources == resources && reply.errors == errors
      ensures reply.Snapshot? ==> Answered(keys, resources, errors)
      ensures reply.Snapshot? && strict ==> Unfailed(keys, errors)
      ensures reply.BuildFailed? ==> strict && reply.errors != map[]
      ensures reply.BuildFailed? ==>
        reply.errors == if stage.late then DeadlineErrors(keys) else FailedAmong(keys, errors)
      ensures StageLeaves(old(resources), old(errors), keys, retryErrors, strict, stage, resources, errors)
      ensures builder.w.Unhurried() ==> !stage.late
      ensures StageLate(builder.w, old(errors), keys, retryErrors, stage, builder.serial)
      ensures Acquired(builder.w, old(builder.Here(rt)), stage.pending, now, stage.found, builder.Here(rt))
    {
      hide Acquired, Proposed, FailedAmong, IncludesDeadline, SnapshotBuilder.Ready, PinnedAs, Accrued, DeadlineErrors,
           Answered, Unfailed, Planned, Remaining, ValuesIn, ErrorsIn, World.Unhurried, StageLeaves;
      PinnedReflexive(resources);
      NothingAccrued(resources, errors, Elems(keys), retryErrors);
      ghost var found;
      var deadline, pending, shown, failures;
      deadline, pending, shown, failures, found := Gather(keys, requested, retryErrors, now);
      PinnedTransitive(rt.memo, old(rt.memo), resources);
      var failed;
      failed, deadline := Tally(requested, failures, deadline);
      stage := StageRecord(pending, found, deadline);
      StageEnds(resources, errors, keys, retryErrors, strict, stage, shown, failures);
      FailedAlike(keys, requested, failures);
      if deadline && strict {
        return BuildFailed(DeadlineErrors(requested)), stage;
      }
      var remaining := if deadline then failures + DeadlineErrors(pending) else failures;
      ProposedGives(resources, errors, keys, retryErrors, shown, remaining, rt.memo, builder.universe);
      resources, errors := shown, remaining;
      if !deadline && failed != map[] && strict {
        return BuildFailed(failed), stage;
      }
      return Snapshot(resources, errors), stage;
    }

    // ---- The consistency fallback -------------------------------------------------------------

    /** One more attempt for the oldest resource and its dependents, with the source it came from excluded for it. */
    method FallBackOnce(values: Entries, targets: seq<Key>, runtime: Runtime, oldest: Key, source: string, now: real,
                        ghost original: Entries, ghost names: set<string>)
      returns (late: bool, ok: bool, replaced: Entries, retry: Runtime, ghost affected: set<Key>)
      requires builder.Ready(runtime) && builder.inFlight == {}
      requires values.Keys == Elems(targets) <= builder.universe && oldest in targets && source != []
      requires Strip(source) == source
      requires Standby(builder.w, runtime.Settings(), original, names, values, runtime.memo)
      modifies builder, builder.cache
      ensures builder.Ready(runtime) && builder.inFlight == {}
      ensures Unwritten(old(builder.cache.State()), builder.cache.State())
      ensures fresh(retry) && (ok ==> !late && builder.Ready(retry)) && (builder.w.Unhurried() ==> !late)
      ensures retry.Settings() == Narrowed(runtime.Settings(), oldest, source)
      ensures !retry.cacheSource && !retry.cacheStale && forall k, x ::
        x in retry.Settings().ExcludedFor(k) <==>
          x in runtime.Settings().ExcludedFor(k) || (k == oldest && x == source)
      ensures LeastClosure(runtime.memo, {oldest}, affected)
      ensures Repinned(builder.w, retry.Settings(), runtime.memo - affected, affected, retry.memo)
      ensures ok ==> replaced.Keys == values.Keys && Standby(builder.w, retry.Settings(), original, names, replaced,
                                                             retry.memo)
      ensures ok ==>
        FromOpenSource(builder.w, retry.Settings(), replaced[oldest]) && source in retry.Settings().ExcludedFor(oldest)
      ensures !ok && !late ==> FailedPass(builder.w, Elems(targets), runtime.memo, retry.Settings(), oldest)
      ensures forall inside :: Elems(targets) <= inside && Bounty(builder.w, retry.Settings(), inside) ==> ok
    {
      hide Situation.Sound, Enclosed, Progress, Placed, Partition, Standby, Repinned, LeastClosure, FromOpenSource,
           Unwritten, Strip, WellFiled, World.Unhurried, AllEndAs, AllEndIn, ServedFirst, PendingOrder, Bounty,
           FailedPass;
      SoundMemo(builder.Here(runtime));
      affected := {};
      var reached := AffectedKeys({oldest}, runtime.memo);
      affected := reached;
      ClosureHasRequested(runtime.memo, oldest, reached);
      var retryTargets := Filter(targets, k => k in reached);
      retry := new Runtime(runtime.memo - reached, false, reached, runtime.excluded, false);
      var excluded := retry.ExcludeSource(oldest, source);
      ghost var before := builder.Here(retry);
      StagingSound(builder.Here(runtime), reached, before);
      PlacedAtTop(builder.w, builder.universe, retryTargets);
      var resolved := builder.ResolveMany(retryTargets, now, retry, [], {});
      ProgressUnwritten(builder.w, retry.Settings(), before, builder.Here(retry));
      RetryRepins(builder.w, retry.Settings(), before, builder.Here(retry));
      SoundLater(builder.Here(runtime), builder.Here(retry));
      late, ok, replaced := resolved.DeadlinePassed?, false, values;
      if !late && resolved.errors == map[] {
        ok, replaced := true, values + resolved.values;
        FallbackReplaces(builder.w, runtime.Settings(), retry.Settings(), original, names, values, targets, reached,
                         retryTargets, resolved.values, runtime.memo, before,
                         builder.Here(retry), oldest, source);
      } else if !late {
        PassFails(builder.w, targets, retryTargets, runtime.memo, retry.Settings(), oldest, reached, resolved.values,
                  resolved.errors, retry.memo);
      }
      forall inside | Elems(targets) <= inside && Bounty(builder.w, retry.Settings(), inside) ensures ok {
        BountyNeverFails(builder.w, Elems(targets), runtime.memo, retry.Settings(), oldest, inside);
        BountyIsUnhurried(builder.w, retry.Settings(), inside);
      }
    }

    /**
      Retries the oldest of the requested resources through other sources until the observations are close
      enough or nothing is left to try. Each pass tries a resource and source it has not tried before, of
      which there are finitely many; the shared cache is never written.
     */
    method RetryInconsistent(values: Entries, requested: seq<Key>, targets: seq<Key>, runtime: Runtime, limit: real,
                             initial: SkewViolation, now: real)
      returns (late: bool, settled: Entries, last: Runtime, violation: Option<SkewViolation>, ghost passes: seq<Pass>)
      requires builder.Ready(runtime) && builder.inFlight == {} && limit >= 0.0
      requires values.Keys == Elems(targets) <= builder.universe && Elems(requested) <= Elems(targets)
      requires PinnedAs(runtime.memo, values) && FindSkew(values, requested, limit) == Some(initial)
      modifies builder, builder.cache
      ensures builder.Ready(last) && builder.inFlight == {} && (last == runtime || fresh(last))
      ensures Unwritten(old(builder.cache.State()), builder.cache.State())
      ensures settled.Keys == values.Keys && PinnedAs(last.memo, settled)
      ensures Replaced(builder.w, last.Settings(), values, settled)
      ensures !late ==> violation == FindSkew(settled, requested, limit)
      ensures !late && violation.None? ==> WithinSkew(settled, requested, limit)
      ensures Chained(builder.w, requested, limit, runtime.memo, runtime.Settings(), passes, last.memo, last.Settings())
      ensures !late && violation.Some? ==> GivenUp(builder.w, Elems(targets), requested, passes, last.memo,
                                                   last.Settings())
      ensures builder.w.Unhurried() ==> !late
    {
      hide World.Unhurried, SnapshotBuilder.Ready, Standby, Chained, Repinned, LeastClosure, LeastRecent, Reached,
           Tried, GivenUp, FailedPass, Bounty, FromOpenSource, Unwritten, Strip, FindSkew, WithinSkew, KnownNames,
           Replaced, PinnedAs;
      violation := Some(initial);
      ghost var names := KnownNames(builder.w, values);
      ghost var pairs := set k, n | k in Elems(requested) && n in names :: (k, n);
      var attempted: set<(Key, string)> := {};
      settled, last, late, passes := values, runtime, false, [];
      StandbyAtFirst(builder.w, runtime.Settings(), values, runtime.memo);
      NothingPassed(builder.w, requested, limit, runtime.memo, runtime.Settings());
      UnwrittenReflexive(builder.cache.State());
      while violation.Some?
        invariant builder.Ready(last) && builder.inFlight == {} && (last == runtime || fresh(last)) && !late
        invariant Unwritten(old(builder.cache.State()), builder.cache.State())
        invariant settled.Keys == values.Keys && Standby(builder.w, last.Settings(), values, names, settled, last.memo)
        invariant violation == FindSkew(settled, requested, limit)
        invariant Chained(builder.w, requested, limit, runtime.memo, runtime.Settings(), passes, last.memo,
                          last.Settings())
        invariant attempted == Tried(passes) <= pairs
        decreases pairs - attempted
      {
        SkewDecides(settled, requested, limit);
        StandbyGives(builder.w, last.Settings(), values, names, settled, last.memo);
        SkewPinned(settled, last.memo, requested, limit);
        var oldest := violation.value.oldestKey;
        var source := Strip(settled[oldest].source);
        if source == [] || (oldest, source) in attempted {
          GivesUp(builder.w, Elems(targets), requested, passes, last.memo, last.Settings(), oldest);
          break;
        }
        StandbyNamed(builder.w, last.Settings(), values, names, settled, last.memo, oldest);
        assert (oldest, source) in pairs - attempted;
        attempted := attempted + {(oldest, source)};
        StripTwice(settled[oldest].source);
        ghost var before := builder.cache.State();
        ghost var affected;
        var passed, ok, replaced, retry;
        passed, ok, replaced, retry, affected := FallBackOnce(settled, targets, last, oldest, source, now, values,
                                                              names);
        UnwrittenTransitive(old(builder.cache.State()), before, builder.cache.State());
        if passed {
          late := true;
          break;
        }
        if !ok {
          GivesUp(builder.w, Elems(targets), requested, passes, last.memo, last.Settings(), oldest);
          break;
        }
        ghost var pass := Pass(oldest, source, retry.Settings(), last.memo, affected, last.memo - affected, retry.memo);
        StandbyGives(builder.w, retry.Settings(), values, names, replaced, retry.memo);
        PinnedKeys(retry.memo, replaced);
        ChainedStep(builder.w, requested, limit, runtime.memo, runtime.Settings(), passes, pass, last.Settings());
        settled, last, passes := replaced, retry, passes + [pass];
        violation := FindSkew(settled, requested, limit);
      }
      StandbyGives(builder.w, last.Settings(), values, names, settled, last.memo);
      SkewDecides(settled, requested, limit);
    }

    // ---- Revalidation -------------------------------------------------------------------------

    /**
      Resolves the requested keys and their visible dependents apart from the session, with everything affected
      unpinned.
     */
    method Restage(requested: seq<Key>, forceRefresh: bool, now: real)
      returns (affected: set<Key>, targets: seq<Key>, staging: Runtime, resolved: Resolved)
      requires Valid() && Elems(requested) <= builder.universe
      modifies builder, builder.cache
      ensures Valid() && fresh(staging) && builder.Ready(staging)
      ensures LeastClosure(rt.memo, Elems(requested), affected)
      ensures requested <= targets
      ensures Elems(targets) == Elems(requested) + resources.Keys * affected
      ensures WellFiled(staging.memo) && PinnedAs(staging.memo, rt.memo - affected)
      ensures staging.Settings() == Scope(map[], true, !forceRefresh)
      ensures Progress(builder.w, staging.Settings(),
                       Situation(rt.memo - affected, if forceRefresh then affected else {}, old(builder.cache.State())),
                       builder.Here(staging))
      ensures builder.w.Unhurried() ==> resolved.Resolved?
      ensures resolved.Resolved? ==> Partition(builder.w, staging.Settings(), targets, resolved.values, resolved.errors,
                                               staging.memo)
      ensures resolved.Resolved? && !forceRefresh ==>
        ServedFirst(builder.w.rules, Situation(rt.memo - affected, {}, old(builder.cache.State())), targets, now,
                    resolved.values)
      ensures resolved.Resolved? && builder.w.AllDirect() ==>
        AllEndIn(builder.w, Scope(map[], true, !forceRefresh), builder.cache.maxEntries, {},
                 Situation(rt.memo - affected, if forceRefresh then affected else {}, old(builder.cache.State())),
                 targets, now, resolved.values, resolved.errors)
    {
      hide Situation.Sound, Enclosed, Progress, Placed, Partition, LeastClosure, PinnedAs, WellFiled, World.Unhurried,
           AllEndAs, AllEndIn, ServedFirst, PendingOrder;
      SoundMemo(builder.Here(rt));
      affected := AffectedKeys(Elems(requested), rt.memo);
      var dependents := Listed(resources.Keys * affected - Elems(requested));
      targets := requested + dependents;
      assert Elems(targets) == Elems(requested) + Elems(dependents);
      assert Elems(requested) <= affected by { ClosureHasAll(rt.memo, Elems(requested), affected); }
      staging := new Runtime(rt.memo - affected, !forceRefresh, if forceRefresh then affected else {}, map[], true);
      ghost var before := builder.Here(staging);
      StagingSound(builder.Here(rt), affected, before);
      PlacedAtTop(builder.w, builder.universe, targets);
      resolved := builder.ResolveMany(targets, now, staging, [], {});
      ProgressPins(builder.w, staging.Settings(), before, builder.Here(staging));
      SoundLater(builder.Here(rt), builder.Here(staging));
      SoundMemo(builder.Here(staging));
    }

    /** The staged situation of a revalidation, and the record of it. */
    method Prepare(ghost keys: seq<Key>, requested: seq<Key>, forceRefresh: bool, now: real)
      returns (targets: seq<Key>, staging: Runtime, resolved: Resolved, ghost record: Revalidation)
      requires Valid() && Elems(requested) <= builder.universe && forall k :: k in requested <==> k in keys
      modifies builder, builder.cache
      ensures Valid() && fresh(staging) && builder.Ready(staging)
      ensures staging.Settings() == Scope(map[], true, !forceRefresh)
      ensures record.passes == [] && record.last == record.staging.memo == staging.memo
      ensures record.scope == staging.Settings()
      ensures record.targets == targets && record.found == resolved
      ensures (resolved.Resolved? ==> record.failures == resolved.errors)
      ensures LeastClosure(rt.memo, Elems(requested), record.affected)
      ensures Elems(targets) == Elems(requested) + resources.Keys * record.affected
      ensures resolved.Resolved? && resolved.errors == map[] ==>
        resolved.values.Keys == Elems(targets) && PinnedAs(staging.memo, resolved.values)
      ensures Restaged(builder.w, builder.cache.maxEntries, now, rt.memo, keys, forceRefresh,
                       old(builder.cache.State()), resources.Keys, record)
      ensures builder.w.Unhurried() ==> resolved.Resolved?
      ensures !forceRefresh && resolved.Resolved? &&
              AllAsIs(builder.w.rules, old(builder.cache.entries), TargetsOf(keys, resources.Keys, record.affected),
                      now) ==>
        resolved.errors == map[]
    {
      hide SnapshotBuilder.Ready, LeastClosure, PinnedAs, Restaged, Progress, Partition, ServedFirst, AllEndIn, AllAsIs,
           CopyNow, World.Unhurried;
      StoreIsValid();
      ghost var before := builder.cache.State();
      var affected;
      affected, targets, staging, resolved := Restage(requested, forceRefresh, now);
      record := Revalidation(affected, targets, resolved, if resolved.Resolved? then resolved.errors else map[],
                             builder.Here(staging), [], staging.memo, staging.Settings());
      RestagedFor(builder.w, builder.cache.maxEntries, now, rt.memo, keys, requested, forceRefresh, before,
                  resources.Keys, record);
      CachedDoNotFail(builder.w, builder.cache.maxEntries, now, rt.memo, keys, forceRefresh, before, resources.Keys,
                      record);
      if resolved.Resolved? && resolved.errors == map[] {
        PartitionKeys(builder.w, staging.Settings(), targets, resolved.values, staging.memo);
        PartitionPins(builder.w, staging.Settings(), targets, resolved.values, map[], staging.memo);
      }
    }

    /** The visible state with the targets replaced. */
    method Propose(targets: seq<Key>, values: Entries) returns (shown: Entries, remaining: map<Key, Unresolved>)
      requires Elems(targets) <= values.Keys
      ensures Overlaid(resources, Elems(targets), values, shown)
      ensures remaining == errors - Elems(targets)
    {
      shown, remaining := resources, errors;
      for n := 0 to |targets|
        invariant Overlaid(resources, Elems(targets[..n]), values, shown)
        invariant remaining == errors - Elems(targets[..n])
      {
        var key := targets[n];
        assert targets[..n + 1] == targets[..n] + [key];
        if key in shown {
          shown := shown[key := values[key]];
        }
        remaining := remaining - {key};
      }
      assert targets[..|targets|] == targets;
    }

    /** Checks the observation skew and, when sources are being asked anyway, tries other sources. */
    method Reconcile(values: Entries, requested: seq<Key>, targets: seq<Key>, staging: Runtime, limit: real,
                     forceRefresh: bool, now: real)
      returns (late: bool, settled: Entries, last: Runtime, violation: Option<SkewViolation>, ghost passes: seq<Pass>)
      requires Valid() && builder.Ready(staging) && limit >= 0.0
      requires values.Keys == Elems(targets) <= builder.universe && Elems(requested) <= Elems(targets)
      requires PinnedAs(staging.memo, values)
      modifies builder, builder.cache
      ensures Valid() && builder.Ready(last)
      ensures Unwritten(old(builder.cache.State()), builder.cache.State())
      ensures settled.Keys == values.Keys && PinnedAs(last.memo, settled)
      ensures Replaced(builder.w, last.Settings(), values, settled)
      ensures !late ==> violation == FindSkew(settled, requested, limit)
      ensures !late ==> (violation.None? <==> WithinSkew(last.memo, requested, limit))
      ensures Chained(builder.w, requested, limit, staging.memo, staging.Settings(), passes, last.memo, last.Settings())
      ensures !forceRefresh || WithinSkew(staging.memo, requested, limit) ==> passes == []
      ensures !late && violation.Some? && forceRefresh ==> GivenUp(builder.w, Elems(targets), requested, passes,
                                                                   last.memo, last.Settings())
      ensures builder.w.Unhurried() ==> !late
    {
      hide World.Unhurried, Situation.Sound, Enclosed, Chained, GivenUp, FromOpenSource, Unwritten, FindSkew,
           WithinSkew, PinnedAs, WellFiled;
      SoundMemo(builder.Here(rt));
      SkewDecides(values, requested, limit);
      SkewPinned(values, staging.memo, requested, limit);
      UnwrittenReflexive(builder.cache.State());
      NothingPassed(builder.w, requested, limit, staging.memo, staging.Settings());
      late, settled, last, violation, passes := false, values, staging, FindSkew(values, requested, limit), [];
      if violation.Some? && forceRefresh {
        late, settled, last, violation, passes := RetryInconsistent(values, requested, targets, staging, limit,
                                                                    violation.value, now);
        SoundLater(builder.Here(rt), builder.Here(last));
        SkewDecides(settled, requested, limit);
        SkewPinned(settled, last.memo, requested, limit);
      }
    }

    /**
      The reply when something could not be refreshed: an error, or the state as it was with the failures beside it.
     */
    method Unrefreshed(requested: seq<Key>, failures: map<Key, Unresolved>, strict: bool) returns (reply: Reply)
      requires Valid()
      modifies builder`serial
      ensures Valid() && (reply.BuildFailed? || (!strict && reply == Snapshot(resources, errors + failures)))
      ensures reply == if !IncludesDeadline(failures) && builder.w.expires(old(builder.serial))
                       then BuildFailed(DeadlineErrors(requested))
                       else if strict then BuildFailed(failures) else Snapshot(resources, errors + failures)
      ensures builder.w.Unhurried() ==>
        reply == if strict then BuildFailed(failures) else Snapshot(resources, errors + failures)
    {
      hide SnapshotBuilder.Ready, IncludesDeadline, DeadlineErrors, World.Unhurried;
      if !IncludesDeadline(failures) {
        var late := Late();
        if late {
          return BuildFailed(DeadlineErrors(requested));
        }
      }
      return if strict then BuildFailed(failures) else Snapshot(resources, errors + failures);
    }

    /** Commits the proposed state as a whole, unless acceptance or the deadline forbids it. */
    method Commit(requested: seq<Key>, targets: seq<Key>, values: Entries, last: Runtime,
                  acceptance: Option<Acceptance.Policy>, now: real)
      returns (reply: Reply, ghost committed: bool)
      requires Valid() && builder.Ready(last) && Elems(targets) <= values.Keys
      requires acceptance.Some? ==> acceptance.value.Valid()
      modifies this`resources, this`errors, rt`memo, builder`serial
      ensures Valid()
      ensures !committed ==>
        && resources == old(resources)
        && errors == old(errors)
        && rt.memo == old(rt.memo)
        && !reply.Snapshot?
        && !reply.Refused?
      ensures committed ==>
        && Overlaid(old(resources), Elems(targets), values, resources)
        && errors == old(errors) - Elems(targets)
        && rt.memo == old(last.memo)
        && reply == Snapshot(resources, errors)
      ensures committed && acceptance.Some? ==>
        Acceptance.Accepted(resources, requested, [], acceptance.value, builder.w.rules.policy, now)
      ensures !committed && builder.w.Unhurried() ==> reply.Unacceptable?
      ensures !committed && reply.BuildFailed? ==> reply.errors == DeadlineErrors(requested)
      ensures reply.Unacceptable? ==> !committed && acceptance.Some? && reply.violations != []
      ensures reply.Unacceptable? ==> exists proposed ::
        Overlaid(old(resources), Elems(targets), values, proposed) &&
        Acceptance.RejectedWith(proposed, requested, [], acceptance.value, builder.w.rules.policy, now,
                                reply.violations)
      ensures !reply.Inconsistent?
    {
      hide World.Unhurried, Situation.Sound, Enclosed, Overlaid, Acceptance.Accepted, Acceptance.Enforced,
           Acceptance.Satisfied, Acceptance.Faults, Acceptance.ReportedFor, WellFiled;
      committed := false;
      SoundMemo(builder.Here(last));
      var shown, remaining := Propose(targets, values);
      assert shown.Keys == resources.Keys by { OverlaidKeys(resources, Elems(targets), values, shown); }
      if acceptance.Some? {
        var violations := Acceptance.FindViolations(shown, requested, [], acceptance.value, builder.w.rules.policy,
                                                    now);
        if violations != [] {
          assert Acceptance.RejectedWith(shown, requested, [], acceptance.value, builder.w.rules.policy, now,
                                         violations);
          return Unacceptable(violations), false;
        }
      }
      var late := Late();
      if late {
        return BuildFailed(DeadlineErrors(requested)), false;
      }
      MemoSound(builder.Here(rt), last.memo);
      rt.memo := last.memo;
      resources, errors := shown, remaining;
      return Snapshot(resources, errors), true;
    }

    /**
      Refreshes visible resources and what is derived from them, all or nothing. Only visible keys inside
      the closure of the request are replaced, by values pinned together; a declared consistency limit and
      acceptance policy hold of what is committed. Other pinned values stay, except those that a pass of the
      consistency fallback reaches.
     */
    method Revalidate(keys: seq<Key>, strict: bool, forceRefresh: bool, consistency: Option<real>,
                      acceptance: Option<Acceptance.Policy>, now: real)
      returns (reply: Reply, ghost committed: bool, ghost record: Revalidation)
      requires Valid() && Elems(keys) <= builder.universe
      requires consistency.Some? ==> consistency.value >= 0.0
      requires acceptance.Some? ==> acceptance.value.Valid()
      modifies this`resources, this`errors, rt`memo, builder, builder.cache
      ensures Valid()
      ensures reply.Refused? <==> closed || keys == [] || exists k :: k in keys && k !in old(rt.memo)
      ensures !committed ==> resources == old(resources) && errors == old(errors) && rt.memo == old(rt.memo)
      ensures !committed && reply.Snapshot? ==>
        !strict && record.failures != map[] && reply == Snapshot(resources, errors + record.failures)
      ensures !committed && builder.w.Unhurried() && reply.BuildFailed? ==>
        strict && record.failures != map[] && reply.errors == record.failures
      ensures reply.BuildFailed? ==>
        reply.errors == DeadlineErrors(keys) ||
        (strict && record.failures != map[] && reply.errors == record.failures)
      ensures reply.Inconsistent? ==>
        consistency.Some? && reply.violation.skew > consistency.value && reply.violation.limit == consistency.value
      ensures reply.Inconsistent? ==> NamesSkew(reply.violation, keys, record.last)
      ensures reply.Unacceptable? ==> acceptance.Some? && reply.violations != []
      ensures reply.Unacceptable? ==>
        Rejected(old(rt.memo), old(resources), old(errors), keys, record, acceptance.value, builder.w.rules.policy, now,
                 reply.violations)
      ensures committed ==> reply == Snapshot(resources, errors)
      ensures !reply.Refused? ==>
        Restaged(builder.w, builder.cache.maxEntries, now, old(rt.memo), keys, forceRefresh, old(builder.cache.State()),
                                           old(resources).Keys, record)
      ensures committed ==> Recommitted(old(rt.memo), old(resources), old(errors), Elems(keys), record.affected,
                                        rt.memo, resources, errors)
      ensures committed || reply.Inconsistent? || reply.Unacceptable? ==>
        Reconciled(builder.w, keys, forceRefresh, consistency, record)
      ensures reply.Inconsistent? ==> Unreconciled(builder.w, keys, forceRefresh, consistency, old(resources).Keys,
                                                   record)
      ensures committed ==> rt.memo == record.last && Retaining(old(rt.memo), record, rt.memo, old(Agrees()), resources)
      ensures committed && consistency.Some? ==> WithinSkew(rt.memo, keys, consistency.value)
      ensures committed && acceptance.Some? ==>
        Acceptance.Accepted(resources, keys, [], acceptance.value, builder.w.rules.policy, now)
      ensures !reply.Refused? && !forceRefresh && consistency.None? && acceptance.None? && builder.w.Unhurried() ==>
        AllAsIs(builder.w.rules, old(builder.cache.entries), TargetsOf(keys, old(resources).Keys, record.affected),
                now) ==>
          committed && Recopied(builder.w.rules, old(builder.cache.entries), record.affected, resources, now)
    {
      hide SnapshotBuilder.Ready, DeadlineErrors, Distinct, NoDuplicates, LeastClosure, AllAsIs, Recopied,
           PinnedAs, WithinSkew, FindSkew, Overlaid, Recommitted, Restaged, Reconciled, Unreconciled, Retaining,
           GivenUp, Chained, Progress, Bounty, Partition, IncludesDeadline, Replaced, Unwritten, Acceptance.Accepted,
           World.Unhurried, Rejected, NamesSkew;
      ghost var memo, shown, failed, before := rt.memo, resources, errors, builder.cache.State();
      committed, record := false, NOTHING_STAGED;
      StoreIsValid();
      if closed || keys == [] {
        return Refused("session is closed or nothing was requested"), false, record;
      }
      var requested := Distinct(keys);
      FailedAlike(keys, requested, map[]);
      if k :| k in requested && k !in rt.memo {
        return Refused("revalidation requires resources already resolved in this session"), false, record;
      }
      var targets, staging, resolved;
      targets, staging, resolved, record := Prepare(keys, requested, forceRefresh, now);
      if resolved.DeadlinePassed? {
        return BuildFailed(DeadlineErrors(requested)), false, record;
      }
      var failures := resolved.errors;
      if failures != map[] {
        reply := Unrefreshed(requested, failures, strict);
        return reply, false, record;
      }
      ghost var staged := record;
      reply, committed, record := Adopt(keys, requested, targets, resolved.values, staging, forceRefresh, consistency,
                                        acceptance, now, staged);
      RestagedStill(builder.w, builder.cache.maxEntries, now, memo, keys, forceRefresh, old(builder.cache.State()),
                    shown.Keys, staged, record);
      if committed {
        RecopiedFrom(builder.w, builder.cache.maxEntries, now, memo, shown, failed, keys, forceRefresh, consistency,
                     old(builder.cache.State()), record, resources, errors);
        RetainedStay(builder.w, builder.cache.maxEntries, now, memo, shown, failed, keys, forceRefresh, consistency,
                     old(builder.cache.State()),
                     old(resources).Keys, record, resources, errors);
      }
    }

    /** Reconciles what was staged and commits it, or says why not. */
    method Adopt(ghost keys: seq<Key>, requested: seq<Key>, targets: seq<Key>, staged: Entries, staging: Runtime,
                 forceRefresh: bool,
                 consistency: Option<real>, acceptance: Option<Acceptance.Policy>, now: real,
                 ghost before: Revalidation)
      returns (reply: Reply, ghost committed: bool, ghost record: Revalidation)
      requires Valid() && builder.Ready(staging) && (forall k :: k in requested <==> k in keys)
      requires consistency.Some? ==> consistency.value >= 0.0
      requires acceptance.Some? ==> acceptance.value.Valid()
      requires staged.Keys == Elems(targets) <= builder.universe && PinnedAs(staging.memo, staged)
      requires staging.Settings() == Scope(map[], true, !forceRefresh)
      requires LeastClosure(rt.memo, Elems(requested), before.affected)
      requires Elems(targets) == Elems(requested) + resources.Keys * before.affected
      requires before.passes == [] && before.last == before.staging.memo == staging.memo
      requires before.scope == staging.Settings()
      modifies this`resources, this`errors, rt`memo, builder, builder.cache
      ensures Valid() && record == before.(passes := record.passes, last := record.last, scope := record.scope)
      ensures !committed ==>
        && resources == old(resources)
        && errors == old(errors)
        && rt.memo == old(rt.memo)
        && !reply.Snapshot?
        && !reply.Refused?
      ensures !committed && builder.w.Unhurried() ==> !reply.BuildFailed?
      ensures reply.BuildFailed? ==> reply.errors == DeadlineErrors(requested)
      ensures reply.Inconsistent? ==>
        && !committed
        && consistency.Some?
        && reply.violation.skew > consistency.value
        && reply.violation.limit == consistency.value
      ensures reply.Inconsistent? ==> NamesSkew(reply.violation, keys, record.last)
      ensures reply.Unacceptable? ==> acceptance.Some? && reply.violations != []
      ensures reply.Unacceptable? ==>
        Rejected(old(rt.memo), old(resources), old(errors), keys, record, acceptance.value, builder.w.rules.policy, now,
                 reply.violations)
      ensures committed || reply.Inconsistent? || reply.Unacceptable? ==>
        Reconciled(builder.w, keys, forceRefresh, consistency, record)
      ensures reply.Inconsistent? ==> Unreconciled(builder.w, keys, forceRefresh, consistency, old(resources).Keys,
                                                   record)
      ensures committed ==> reply == Snapshot(resources, errors) && rt.memo == record.last
      ensures committed ==> Recommitted(old(rt.memo), old(resources), old(errors), Elems(keys), record.affected,
                                        rt.memo, resources, errors)
      ensures committed && consistency.Some? ==> WithinSkew(rt.memo, keys, consistency.value)
      ensures committed && acceptance.Some? ==> Acceptance.Accepted(resources, keys, [], acceptance.value,
                                                                    builder.w.rules.policy, now)
    {
      hide SnapshotBuilder.Ready, DeadlineErrors, LeastClosure, PinnedAs, WithinSkew, FindSkew, Overlaid, Recommitted,
           Reconciled, Unreconciled, GivenUp, Chained, Replaced, Unwritten, Acceptance.Accepted, World.Unhurried,
           Acceptance.RejectedWith, Rejected, NamesSkew;
      ghost var memo, shown, failed := rt.memo, resources, errors;
      committed, record := false, before;
      var values, last := staged, staging;
      ReconciledAtOnce(builder.w, keys, forceRefresh, record);
      if consistency.Some? {
        var late, settled, latest, violation;
        ghost var passes;
        late, settled, latest, violation, passes := Reconcile(values, requested, targets, staging, consistency.value,
                                                              forceRefresh, now);
        record := before.(passes := passes, last := latest.memo, scope := latest.Settings());
        ReconciledBy(builder.w, keys, requested, forceRefresh, consistency.value, shown.Keys, Elems(targets), record,
                     violation.Some?, late);
        if late {
          return BuildFailed(DeadlineErrors(requested)), false, record;
        }
        if violation.Some? {
          late := Late();
          if late {
            return BuildFailed(DeadlineErrors(requested)), false, record;
          }
          SkewReported(settled, requested, keys, latest.memo, consistency.value);
          return Inconsistent(violation.value), false, record;
        }
        values, last := settled, latest;
      }
      reply, committed := Commit(requested, targets, values, last, acceptance, now);
      if reply.Unacceptable? {
        ghost var proposed :| Overlaid(shown, Elems(targets), values, proposed) &&
          Acceptance.RejectedWith(proposed, requested, [], acceptance.value, builder.w.rules.policy, now,
                                  reply.violations);
        RejectionMeans(memo, shown, failed, keys, requested, record, targets, values, proposed, acceptance.value,
                       builder.w.rules.policy, now, reply.violations);
      }
      if committed {
        CommitIsRecommit(memo, shown, failed, keys, requested, record.affected, targets, values, rt.memo, resources,
                         errors);
        if acceptance.Some? {
          AcceptedDistinct(resources, requested, keys, acceptance.value, builder.w.rules.policy, now);
        }
      }
    }

    /** What a session shows and what it has pinned. */
    ghost function Shown(): View
      reads this, rt
    {
      View(rt.memo, resources, errors)
    }

    /** Any run of a session, operation by operation. */
    method Drive(ops: seq<Operation>) returns (ghost trace: seq<Event>)
      requires Valid() && forall i :: 0 <= i < |ops| ==> ops[i].Proper(builder.universe)
      modifies this, builder, rt`memo, rt`force, builder.cache
      ensures Valid()
      ensures |trace| == |ops| && forall i :: 0 <= i < |ops| ==> trace[i].op == ops[i]
      ensures Recounts(builder.w, trace, old(Shown()), Shown())
      ensures Unchanged(old(resources), resources, ReplacedIn(trace))
      ensures old(Agrees()) && Undisturbing(trace) ==> Agrees()
      ensures old(Agrees()) && (forall i :: 0 <= i < |ops| ==> ops[i].Plain()) ==> Agrees()
    {
      hide SnapshotBuilder.Ready, Lawful, Recounts, Unchanged, ReplacedIn, SelfContained;
      trace := [];
      NothingHappened(builder.w, Shown());
      for n := 0 to |ops|
        invariant Valid()
        invariant |trace| == n && forall i :: 0 <= i < n ==> trace[i].op == ops[i]
        invariant Recounts(builder.w, trace, old(Shown()), Shown())
      {
        ghost var event := Perform(ops[n]);
        RecountsStep(builder.w, trace, event, old(Shown()));
        trace := trace + [event];
      }
      VisibleStays(builder.w, trace, old(Shown()), Shown());
      if old(Agrees()) {
        if forall i :: 0 <= i < |ops| ==> ops[i].Plain() { assert Undisturbing(trace); }
        if Undisturbing(trace) { UndisturbingAgrees(builder.w, trace, old(Shown()), Shown()); }
      }
    }

    /** One operation of a run. */
    method Perform(op: Operation) returns (ghost event: Event)
      requires Valid() && op.Proper(builder.universe)
      modifies this, builder, rt`memo, rt`force, builder.cache
      ensures Valid()
      ensures event.op == op && event.before == old(Shown()) && event.after == Shown() && Lawful(builder.w, event)
    {
      hide SnapshotBuilder.Ready, Acquired, PinnedAs, Accrued, StageLeaves, Answered, Unfailed, Recommitted, Restaged,
           Reconciled, Unreconciled, WithinSkew, Acceptance.Accepted, World.Unhurried, LeastClosure;
      ghost var before := Shown();
      match op {
        case ResolveOp(keys, strict, retry, now) =>
          var reply;
          ghost var stage;
          reply, stage := Resolve(keys, strict, retry, now);
          event := Event(op, before, Shown(), false, NOTHING_STAGED);
        case RevalidateOp(keys, strict, force, consistency, acceptance, now) =>
          var reply;
          ghost var committed, record;
          reply, committed, record := Revalidate(keys, strict, force, consistency, acceptance, now);
          event := Event(op, before, Shown(), committed, record);
          if committed {
            RestagedPins(builder.w, builder.cache.maxEntries, now, before.memo, keys, force, old(builder.cache.State()),
                         before.resources.Keys,
                         record);
          }
      }
    }
  }

  datatype Operation =
    | ResolveOp(keys: seq<Key>, strict: bool, retry: bool, now: real)
    | RevalidateOp(keys: seq<Key>, strict: bool, force: bool, consistency: Option<real>,
                   acceptance: Option<Acceptance.Policy>, now: real)
  {
    /** The keys are known and the policies are well formed. */
    ghost predicate Proper(universe: set<Key>) {
      && Elems(keys) <= universe
      && (RevalidateOp? && consistency.Some? ==> consistency.value >= 0.0)
      && (RevalidateOp? && acceptance.Some? ==> acceptance.value.Valid())
    }

    /** No consistency fallback can take place. */
    predicate Plain() {
      RevalidateOp? ==> consistency.None? || !force
    }
  }

  // ---- Runs ------------------------------------------------------------------------------------

  datatype View = View(memo: Entries, resources: Entries, errors: map<Key, Unresolved>) {
    /** Every visible value is the pinned one. */
    ghost predicate Agrees() {
      PinnedAs(memo, resources)
    }
  }

  /** One operation of a run: the state before and after it, and what a revalidation did and whether it committed. */
  datatype Event = Event(op: Operation, before: View, after: View, committed: bool, record: Revalidation)

  /**
    A stage keeps what is visible and pinned; a revalidation replaces the visible values in the closure of its request
    by
    values pinned together if it commits, and changes nothing if it does not. What a committed one leaves pinned is
    where
    the passes of its fallback lead from what it staged.
   */
  ghost predicate Lawful(w: World, e: Event) {
    && (e.op.ResolveOp? ==>
          && !e.committed && PinnedAs(e.after.resources, e.before.resources) && PinnedAs(e.after.memo, e.before.memo)
          && Accrued(e.before.resources, e.before.errors, e.after.resources, e.after.errors, Elems(e.op.keys),
                     e.op.retry)
          && (e.before.Agrees() ==> e.after.Agrees()))
    && (e.op.RevalidateOp? && !e.committed ==> e.after == e.before)
    && (e.op.RevalidateOp? && e.committed ==> Committed(w, e))
  }

  ghost predicate Committed(w: World, e: Event)
    requires e.op.RevalidateOp?
  {
    && Recommitted(e.before.memo, e.before.resources, e.before.errors, Elems(e.op.keys), e.record.affected,
                   e.after.memo, e.after.resources, e.after.errors)
    && PinnedAs(e.record.staging.memo, e.before.memo - e.record.affected)
    && Reconciled(w, e.op.keys, e.op.force, e.op.consistency, e.record) && e.after.memo == e.record.last
    && Retaining(e.before.memo, e.record, e.after.memo, e.before.Agrees(), e.after.resources)
  }

  function ViewAt(first: View, trace: seq<Event>, i: nat): View
    requires i <= |trace|
  {
    if i == 0 then first else trace[i - 1].after
  }

  /** Event `i` begins where the one before it ended. */
  ghost predicate Follows(w: World, trace: seq<Event>, first: View, i: nat)
    requires i < |trace|
  {
    Lawful(w, trace[i]) && trace[i].before == ViewAt(first, trace, i)
  }

  /** The events follow one another from the first state to the last. */
  ghost predicate Recounts(w: World, trace: seq<Event>, first: View, last: View) {
    (forall i :: 0 <= i < |trace| ==> Follows(w, trace, first, i)) && last == ViewAt(first, trace, |trace|)
  }

  /** The closures of the revalidations that committed. */
  ghost function ReplacedIn(trace: seq<Event>): set<Key> {
    if trace == [] then {}
    else
      var last := trace[|trace| - 1];
      ReplacedIn(trace[..|trace| - 1]) + if last.committed then last.record.affected else {}
  }

  /** Visible values outside a set are as before. */
  ghost predicate Unchanged(before: Entries, after: Entries, replaced: set<Key>) {
    forall k :: k in before ==> k in after && (k in replaced || after[k] == before[k])
  }

  lemma NothingHappened(w: World, v: View)
    ensures Recounts(w, [], v, v)
  {
  }

  lemma FollowsAlike(w: World, front: seq<Event>, e: Event, first: View, i: nat)
    requires i < |front|
    ensures Follows(w, front, first, i) <==> Follows(w, front + [e], first, i)
  {
    hide Lawful;
  }

  lemma RecountsStep(w: World, trace: seq<Event>, e: Event, first: View)
    requires Recounts(w, trace, first, e.before) && Lawful(w, e)
    ensures Recounts(w, trace + [e], first, e.after)
  {
    hide Lawful;
    var all := trace + [e];
    assert Follows(w, all, first, |trace|);
    hide Follows;
    forall i | 0 <= i < |all| ensures Follows(w, all, first, i) {
      if i < |trace| { FollowsAlike(w, trace, e, first, i); }
    }
  }

  lemma RecountsFront(w: World, trace: seq<Event>, first: View, last: View)
    requires Recounts(w, trace, first, last) && trace != []
    ensures var front, e := trace[..|trace| - 1], trace[|trace| - 1];
            Recounts(w, front, first, e.before) && Lawful(w, e) && last == e.after
  {
    hide Lawful;
    var n := |trace| - 1;
    var front := trace[..n];
    assert trace == front + [trace[n]];
    assert Follows(w, trace, first, n);
    hide Follows;
    forall i | 0 <= i < n ensures Follows(w, front, first, i) {
      FollowsAlike(w, front, trace[n], first, i);
    }
  }

  /**
    Over any run visible keys stay visible, and a value changes only inside the closure of a revalidation that
    committed.
   */
  lemma {:induction false} VisibleStays(w: World, trace: seq<Event>, first: View, last: View)
    requires Recounts(w, trace, first, last)
    ensures Unchanged(first.resources, last.resources, ReplacedIn(trace))
    decreases |trace|
  {
    hide Recounts, Accrued, LeastClosure;
    if trace == [] {
      NoEvents(w, first, last);
    } else {
      RecountsFront(w, trace, first, last);
      VisibleStays(w, trace[..|trace| - 1], first, trace[|trace| - 1].before);
    }
  }

  lemma NoEvents(w: World, first: View, last: View)
    requires Recounts(w, [], first, last)
    ensures first == last
  {
  }

  /**
    Over any run whose fallbacks reached no visible key outside the closures of their requests, visible values are the
    pinned ones.
   */
  lemma {:induction false} AgreementLasts(w: World, trace: seq<Event>, first: View, last: View)
    requires Recounts(w, trace, first, last) && first.Agrees()
    requires forall i :: 0 <= i < |trace| && trace[i].committed ==>
      Reached(trace[i].record.passes) !! trace[i].before.resources.Keys - trace[i].record.affected
    ensures last.Agrees()
    decreases |trace|
  {
    hide Recounts, Accrued, LeastClosure, Reconciled, Reached, SelfContained, Secluded;
    if trace == [] {
      NoEvents(w, first, last);
    } else {
      var e := trace[|trace| - 1];
      RecountsFront(w, trace, first, last);
      AgreementLasts(w, trace[..|trace| - 1], first, e.before);
      if e.committed {
        assert e.after.resources.Keys == e.before.resources.Keys;
        assert e.after.resources - (Reached(e.record.passes) - e.record.affected) == e.after.resources;
      }
    }
  }

  /** Every revalidation is without a fallback, or begins with pinned values that record nothing but pinned values. */
  ghost predicate Undisturbing(trace: seq<Event>) {
    forall i :: 0 <= i < |trace| ==> trace[i].op.Plain() || SelfContained(trace[i].before.memo)
  }

  /** Over any such run visible values are the pinned ones. */
  lemma {:induction false} UndisturbingAgrees(w: World, trace: seq<Event>, first: View, last: View)
    requires Recounts(w, trace, first, last) && first.Agrees() && Undisturbing(trace)
    ensures last.Agrees()
    decreases |trace|
  {
    hide Recounts, Accrued, LeastClosure, Chained, SelfContained, Secluded, WithinSkew;
    if trace == [] {
      NoEvents(w, first, last);
    } else {
      var e := trace[|trace| - 1];
      RecountsFront(w, trace, first, last);
      UndisturbingAgrees(w, trace[..|trace| - 1], first, e.before);
      if e.committed && e.op.Plain() { assert Reached(e.record.passes) == {}; }
    }
  }

  /** A state that a stage may leave. */
  ghost predicate Proposed(resources: Entries, errors: map<Key, Unresolved>, keys: seq<Key>, retry: bool,
                           resources': Entries, errors': map<Key, Unresolved>,
                           memo: Entries, universe: set<Key>) {
    && resources'.Keys <= universe
    && PinnedAs(resources', resources)
    && (PinnedAs(memo, resources) ==> PinnedAs(memo, resources'))
    && Accrued(resources, errors, resources', errors', Elems(keys), retry)
  }

  lemma ProposedGives(resources: Entries, errors: map<Key, Unresolved>, keys: seq<Key>, retry: bool,
                      resources': Entries, errors': map<Key, Unresolved>,
                      memo: Entries, universe: set<Key>)
    requires Proposed(resources, errors, keys, retry, resources', errors', memo, universe)
    ensures resources'.Keys <= universe && PinnedAs(resources', resources)
    ensures (PinnedAs(memo, resources) ==> PinnedAs(memo, resources'))
    ensures Accrued(resources, errors, resources', errors', Elems(keys), retry)
  {
    hide PinnedAs, Accrued;
  }

  /** What a stage tried to resolve, how that ended and whether the deadline passed. */
  datatype StageRecord = StageRecord(pending: seq<Key>, found: Resolved, late: bool)

  /**
    What resolving pending keys does whatever the sources are: keys the cache may serve come from there, and when all of
    them do, nothing else is pinned.
   */
  ghost predicate Acquired(w: World, start: Situation, pending: seq<Key>, now: real, found: Resolved,
                           after: Situation) {
    && (found.Resolved? ==>
          && ServedFirst(w.rules, start, pending, now, found.values)
          && (PendingOrder(w.rules, start, pending, now) == [] ==> after.memo == start.memo + found.values))
    && KeepsKind(w, start.store.entries, after.store.entries)
  }

  lemma NothingAcquired(w: World, here: Situation, now: real)
    requires WellFiled(here.store.entries)
    ensures Acquired(w, here, [], now, Resolved(map[], map[]), here)
  {
    assert here.memo + map[] == here.memo;
  }

  function ValuesIn(found: Resolved): Entries {
    if found.Resolved? then found.values else map[]
  }

  function ErrorsIn(found: Resolved): map<Key, Unresolved> {
    if found.Resolved? then found.errors else map[]
  }

  /** The earlier errors that a stage does not retry. */
  function Remaining(errors: map<Key, Unresolved>, keys: seq<Key>, retry: bool): map<Key, Unresolved> {
    if retry then errors - Elems(keys) else errors
  }

  /** What is pending are the requested keys that are neither visible nor failed for good, and they were resolved. */
  ghost predicate Planned(resources: Entries, errors: map<Key, Unresolved>, keys: seq<Key>, retry: bool,
                          pending: seq<Key>, found: Resolved) {
    && Staged(resources, errors, keys, retry, Remaining(errors, keys, retry), pending)
    && (found.Resolved? ==> found.values.Keys + found.errors.Keys == Elems(pending))
  }

  /** The state a stage leaves: what it found is added, unless it was strict and late. */
  ghost predicate StageLeaves(resources: Entries, errors: map<Key, Unresolved>, keys: seq<Key>, retry: bool,
                              strict: bool, stage: StageRecord,
                              resources': Entries, errors': map<Key, Unresolved>) {
    && Planned(resources, errors, keys, retry, stage.pending, stage.found)
    && (stage.found.DeadlinePassed? ==> stage.late)
    && if stage.late && strict then resources' == resources && errors' == errors
       else
         var failures := Remaining(errors, keys, retry) + ErrorsIn(stage.found);
         && resources' == resources + ValuesIn(stage.found)
         && errors' == if stage.late then failures + DeadlineErrors(stage.pending) else failures
  }

  /**
    A stage is late exactly when resolving met the deadline or, unless an error of the request already names the
    deadline, the last look at the clock found that it had passed.
   */
  ghost predicate StageLate(w: World, errors: map<Key, Unresolved>, keys: seq<Key>, retry: bool, stage: StageRecord,
                            serial: nat) {
    var failed := FailedAmong(keys, Remaining(errors, keys, retry) + ErrorsIn(stage.found));
    stage.late <==>
      stage.found.DeadlinePassed? || (!IncludesDeadline(failed) && serial > 0 && w.expires(serial - 1))
  }

  lemma StageEnds(resources: Entries, errors: map<Key, Unresolved>, keys: seq<Key>, retry: bool, strict: bool,
                  stage: StageRecord,
                  shown: Entries, failures: map<Key, Unresolved>)
    requires Planned(resources, errors, keys, retry, stage.pending, stage.found)
    requires (stage.found.DeadlinePassed? ==> stage.late)
    requires shown == resources + ValuesIn(stage.found)
    requires failures == Remaining(errors, keys, retry) + ErrorsIn(stage.found)
    ensures if stage.late && strict then StageLeaves(resources, errors, keys, retry, strict, stage, resources, errors)
            else StageLeaves(resources, errors, keys, retry, strict, stage, shown,
                             if stage.late then failures + DeadlineErrors(stage.pending) else failures)
  {
  }

  /** What a stage may add: only requested keys, and earlier errors stay unless their retry was asked for. */
  ghost predicate Accrued(resources: Entries, errors: map<Key, Unresolved>, resources': Entries,
                          errors': map<Key, Unresolved>, keys: set<Key>, retry: bool) {
    && resources'.Keys <= resources.Keys + keys
    && errors'.Keys <= errors.Keys + keys
    && forall k :: k in errors && !(retry && k in keys) ==> k in errors' && errors'[k] == errors[k]
  }

  lemma NothingAccrued(resources: Entries, errors: map<Key, Unresolved>, keys: set<Key>, retry: bool)
    ensures Accrued(resources, errors, resources, errors, keys, retry)
  {
  }

  /** Every requested key is visible or failed. */
  ghost predicate Answered(keys: seq<Key>, resources: Entries, errors: map<Key, Unresolved>) {
    forall k :: k in keys ==> k in resources || k in errors
  }

  ghost predicate Unfailed(keys: seq<Key>, errors: map<Key, Unresolved>) {
    forall k :: k in keys ==> k !in errors
  }

  /** The errors of the requested keys. */
  function FailedAmong(keys: seq<Key>, errors: map<Key, Unresolved>): map<Key, Unresolved> {
    map k | k in keys && k in errors :: errors[k]
  }

  /** A strict stage replies with the errors of the requested keys, or with the deadline for each of them. */
  lemma RepliesMean(keys: seq<Key>, errors: map<Key, Unresolved>)
    ensures var failed, late := FailedAmong(keys, errors), DeadlineErrors(keys);
            && (forall k :: k in failed <==> k in keys && k in errors)
            && (forall k :: k in failed ==> failed[k] == errors[k])
            && (forall k :: k in late <==> k in keys)
            && (forall k :: k in keys ==> late[k].key == k && late[k].failures == [DEADLINE])
            && (keys != [] ==> IncludesDeadline(late))
  {
    if keys != [] {
      assert keys[0] in DeadlineErrors(keys) && DEADLINE in DeadlineErrors(keys)[keys[0]].failures;
    }
  }

  lemma FailedAlike(keys: seq<Key>, requested: seq<Key>, errors: map<Key, Unresolved>)
    requires keys != [] && forall k :: k in requested <==> k in keys
    ensures FailedAmong(requested, errors) == FailedAmong(keys, errors)
    ensures DeadlineErrors(requested) == DeadlineErrors(keys) != map[]
    ensures FailedAmong(requested, errors) == map[] ==> Unfailed(keys, errors)
  {
    assert keys[0] in DeadlineErrors(keys);
    forall k | k in keys && k in errors ensures FailedAmong(keys, errors) != map[] {
      assert k in FailedAmong(keys, errors);
    }
  }

  /** The errors that remain and the keys that are pending when a stage begins. */
  ghost predicate Staged(resources: Entries, errors: map<Key, Unresolved>, keys: seq<Key>, retry: bool,
                         remaining: map<Key, Unresolved>, pending: seq<Key>) {
    && remaining == (if retry then errors - Elems(keys) else errors)
    && forall k :: k in pending <==> k in keys && k !in resources && k !in remaining
  }

  lemma StagePlanned(resources: Entries, errors: map<Key, Unresolved>, keys: seq<Key>, requested: seq<Key>, retry: bool,
                     remaining: map<Key, Unresolved>, pending: seq<Key>)
    requires forall k :: k in requested <==> k in keys
    requires remaining == if retry then errors - Elems(requested) else errors
    requires forall k :: k in pending <==> k in requested && k !in resources && k !in remaining
    ensures Staged(resources, errors, keys, retry, remaining, pending)
  {
    assert Elems(requested) == Elems(keys);
  }

  /** A stage adds values and errors for pending keys only, with or without a deadline error for each of them. */
  lemma StageAccrues(resources: Entries, errors: map<Key, Unresolved>, keys: seq<Key>, retry: bool,
                     remaining: map<Key, Unresolved>, pending: seq<Key>,
                     values: Entries, failures: map<Key, Unresolved>, memo: Entries, universe: set<Key>)
    requires Staged(resources, errors, keys, retry, remaining, pending) && resources.Keys + Elems(keys) <= universe
    requires values.Keys + failures.Keys <= Elems(pending) && PinnedAs(memo, values)
    ensures (resources + values).Keys <= universe
    ensures PinnedAs(resources + values, resources)
    ensures PinnedAs(memo, resources) ==> PinnedAs(memo, resources + values)
    ensures Accrued(resources, errors, resources + values, remaining + failures, Elems(keys), retry)
    ensures Accrued(resources, errors, resources + values, remaining + failures + DeadlineErrors(pending), Elems(keys),
                    retry)
    ensures values.Keys + failures.Keys == Elems(pending) ==> Answered(keys, resources + values, remaining + failures)
    ensures Answered(keys, resources + values, remaining + failures + DeadlineErrors(pending))
  {
    forall k | k in errors && !(retry && k in keys)
      ensures k in remaining && k !in pending && remaining[k] == errors[k]
    {
    }
  }

  /** The resources with those among the targets replaced. */
  ghost predicate Overlaid(resources: Entries, targets: set<Key>, values: Entries, shown: Entries) {
    && shown.Keys == resources.Keys
    && forall k :: k in shown ==>
      if k in targets then k in values && shown[k] == values[k] else shown[k] == resources[k]
  }

  lemma ClosureHasAll(memo: Entries, requested: set<Key>, affected: set<Key>)
    requires LeastClosure(memo, requested, affected)
    ensures requested <= affected
  {
  }

  lemma OverlaidKeys(resources: Entries, targets: set<Key>, values: Entries, shown: Entries)
    requires Overlaid(resources, targets, values, shown)
    ensures shown.Keys == resources.Keys
  {
  }

  lemma MemoSound(here: Situation, memo: Entries)
    requires here.Sound() && here.force == {} && WellFiled(memo)
    ensures here.(memo := memo).Sound()
  {
  }

  /** What a committed revalidation did: only visible keys of the closure changed, to the values pinned for them. */
  ghost predicate Recommitted(memo: Entries, resources: Entries, errors: map<Key, Unresolved>, requested: set<Key>,
                              affected: set<Key>,
                              memo': Entries, resources': Entries, errors': map<Key, Unresolved>) {
    && LeastClosure(memo, requested, affected)
    && resources'.Keys == resources.Keys
    && (forall k :: k in resources' && k !in affected ==> resources'[k] == resources[k])
    && (forall k :: k in resources' && k in affected ==> k in memo' && resources'[k] == memo'[k])
    && errors' == errors - (requested + resources.Keys * affected)
  }

  lemma CommitIsRecommit(memo: Entries, resources: Entries, errors: map<Key, Unresolved>, keys: seq<Key>,
                         requested: seq<Key>, affected: set<Key>, targets: seq<Key>,
                         values: Entries, memo': Entries, resources': Entries, errors': map<Key, Unresolved>)
    requires forall k :: k in requested <==> k in keys
    requires LeastClosure(memo, Elems(requested), affected)
    requires Elems(targets) == Elems(requested) + resources.Keys * affected
    requires Overlaid(resources, Elems(targets), values, resources') && errors' == errors - Elems(targets)
    requires PinnedAs(memo', values)
    ensures Recommitted(memo, resources, errors, Elems(keys), affected, memo', resources', errors')
  {
    assert Elems(requested) == Elems(keys);
    ClosureHasAll(memo, Elems(requested), affected);
    hide LeastClosure;
  }

  /**
    What a revalidation did: what it affected and failed to resolve, the situation it staged, the passes of the fallback
    and where they led.
   */
  datatype Revalidation = Revalidation(affected: set<Key>, targets: seq<Key>, found: Resolved,
                                       failures: map<Key, Unresolved>, staging: Situation, passes: seq<Pass>,
                                       last: Entries, scope: Scope)

  /** The record of an operation that revalidates nothing. */
  ghost const NOTHING_STAGED :=
    Revalidation({}, [], DeadlinePassed, map[], Situation(map[], {}, EMPTY_STORE), [], map[], Scope(map[], true, true))

  /** What a revalidation resolves: the requested keys and the visible ones among the affected. */
  ghost function TargetsOf(keys: seq<Key>, shown: set<Key>, affected: set<Key>): set<Key> {
    Elems(keys) + shown * affected
  }

  /**
    The closure of the request was unpinned and its targets resolved anew: due for refresh if the refresh is forced, and
    otherwise from the cache where it may serve them. Every failure is truthful, and without one and in time the request
    is pinned.
   */
  ghost predicate Restaged(w: World, maxEntries: Option<nat>, now: real, memo: Entries, keys: seq<Key>,
                           forceRefresh: bool, store: Store, shown: set<Key>, r: Revalidation) {
    && LeastClosure(memo, Elems(keys), r.affected) && WellFiled(r.staging.memo)
    && Elems(r.targets) == Elems(keys) + shown * r.affected
    && Progress(w, Scope(map[], true, !forceRefresh),
                Situation(memo - r.affected, if forceRefresh then r.affected else {}, store), r.staging)
    && (r.found.Resolved? ==>
          && r.failures == r.found.errors && PinnedAs(r.staging.memo, r.found.values)
          && r.found.values.Keys + r.found.errors.Keys == Elems(r.targets)
          && r.found.values.Keys !! r.found.errors.Keys)
    && (r.found.Resolved? && !forceRefresh ==>
          ServedFirst(w.rules, Situation(memo - r.affected, {}, store), r.targets, now, r.found.values))
    && (r.found.Resolved? && w.AllDirect() ==>
          AllEndIn(w, Scope(map[], true, !forceRefresh), maxEntries, {},
                   Situation(memo - r.affected, if forceRefresh then r.affected else {}, store), r.targets, now,
                   r.found.values, r.found.errors))
    && r.failures.Keys <= Elems(r.targets)
    && (forall k :: k in r.failures ==>
          r.failures[k].key == k && Truthful(w, Scope(map[], true, !forceRefresh), r.failures[k]))
    && (w.Unhurried() ==> r.found.Resolved?)
    && (r.found.Resolved? && r.failures == map[] ==> Elems(keys) <= r.staging.memo.Keys)
  }

  function LimitOf(consistency: Option<real>): real {
    if consistency.Some? then consistency.value else 0.0
  }

  /**
    The passes lead from the staged values to the last ones; there are none unless a forced refresh found the staged
    values too far apart.
   */
  ghost predicate Reconciled(w: World, keys: seq<Key>, forceRefresh: bool, consistency: Option<real>, r: Revalidation) {
    && Chained(w, keys, LimitOf(consistency), r.staging.memo, Scope(map[], true, !forceRefresh), r.passes, r.last,
               r.scope)
    && (consistency.None? || !forceRefresh || WithinSkew(r.staging.memo, keys, consistency.value) ==> r.passes == [])
  }

  /** The last values are too far apart, and with a forced refresh nothing is left to try. */
  ghost predicate Unreconciled(w: World, keys: seq<Key>, forceRefresh: bool, consistency: Option<real>, shown: set<Key>,
                               r: Revalidation) {
    && consistency.Some? && !WithinSkew(r.last, keys, consistency.value)
    && (forceRefresh ==> GivenUp(w, TargetsOf(keys, shown, r.affected), keys, r.passes, r.last, r.scope))
  }

  /**
    What stays pinned: everything outside the closure that no pass reached, so that visible values outside the closure
    agree with what is pinned unless they were reached. Pinned values outside the closure that record nothing outside
    themselves are not reached; if all pinned values record nothing but pinned values, none outside the closure is.
   */
  ghost predicate Retaining(memo: Entries, r: Revalidation, memo': Entries, agreed: bool, resources': Entries) {
    && PinnedAs(memo', memo - r.affected - Reached(r.passes))
    && (agreed ==> PinnedAs(memo', resources' - (Reached(r.passes) - r.affected)))
    && (forall s :: Secluded(memo, s) && s !! r.affected ==> Reached(r.passes) !! s)
    && (SelfContained(memo) ==> Reached(r.passes) !! memo.Keys - r.affected)
    && (Reached(r.passes) !! memo.Keys - r.affected ==>
          PinnedAs(memo', memo - r.affected) && (agreed ==> PinnedAs(memo', resources')))
  }

  lemma RestagedFor(w: World, maxEntries: Option<nat>, now: real, memo: Entries, keys: seq<Key>, requested: seq<Key>,
                    forceRefresh: bool, store: Store, shown: set<Key>, r: Revalidation)
    requires (forall k :: k in requested <==> k in keys) && LeastClosure(memo, Elems(requested), r.affected)
    requires WellFiled(r.staging.memo)
    requires Progress(w, Scope(map[], true, !forceRefresh),
                      Situation(memo - r.affected, if forceRefresh then r.affected else {}, store), r.staging)
    requires r.found.Resolved? ==> Partition(w, Scope(map[], true, !forceRefresh), r.targets, r.found.values,
                                             r.found.errors, r.staging.memo)
    requires r.found.Resolved? && !forceRefresh ==>
      ServedFirst(w.rules, Situation(memo - r.affected, {}, store), r.targets, now, r.found.values)
    requires r.found.Resolved? && w.AllDirect() ==>
      AllEndIn(w, Scope(map[], true, !forceRefresh), maxEntries, {},
               Situation(memo - r.affected, if forceRefresh then r.affected else {}, store), r.targets, now,
               r.found.values, r.found.errors)
    requires r.failures == if r.found.Resolved? then r.found.errors else map[]
    requires (w.Unhurried() ==> r.found.Resolved?) && Elems(r.targets) == Elems(requested) + shown * r.affected
    ensures Restaged(w, maxEntries, now, memo, keys, forceRefresh, store, shown, r)
  {
    hide LeastClosure, Progress, Truthful, World.Unhurried, AllEndIn, ServedFirst;
    assert Elems(requested) == Elems(keys);
    if r.found.Resolved? {
      assert r.failures.Keys <= r.found.values.Keys + r.found.errors.Keys;
      PartitionPins(w, Scope(map[], true, !forceRefresh), r.targets, r.found.values, r.found.errors, r.staging.memo);
      if r.failures == map[] {
        PartitionKeys(w, Scope(map[], true, !forceRefresh), r.targets, r.found.values, r.staging.memo);
        assert r.found.values.Keys <= r.staging.memo.Keys;
      }
    }
  }

  /** The visible values of these keys are copies of what the cache held. */
  ghost predicate Recopied(r: Rules, entries: Entries, keys: set<Key>, resources: Entries, now: real) {
    forall k :: k in resources && k in keys ==> k in entries && CopyNow(r, entries[k], resources[k], now)
  }

  /**
    When an unforced revalidation finds all its targets cached and servable, nothing fails and it takes copies of them.
   */
  lemma CachedDoNotFail(w: World, maxEntries: Option<nat>, now: real, memo: Entries, keys: seq<Key>, forceRefresh: bool,
                        store: Store, shown: set<Key>, r: Revalidation)
    requires Restaged(w, maxEntries, now, memo, keys, forceRefresh, store, shown, r) && store.Valid()
    ensures !forceRefresh && r.found.Resolved? &&
            AllAsIs(w.rules, store.entries, TargetsOf(keys, shown, r.affected), now) ==>
      r.failures == map[] && forall k :: k in r.targets ==>
        k in r.found.values && k in store.entries && CopyNow(w.rules, store.entries[k], r.found.values[k], now)
  {
    hide Progress, Truthful, AllEndIn, ServedFirst, ServedAsIs, CopyNow, Store.Valid;
    if !forceRefresh && r.found.Resolved? &&
       AllAsIs(w.rules, store.entries, TargetsOf(keys, shown, r.affected), now) {
      ClosureHasAll(memo, Elems(keys), r.affected);
      hide LeastClosure;
      forall k | k in r.targets ensures k !in memo - r.affected && k in store.entries {
        assert k in Elems(r.targets);
      }
      UsableAreServed(w.rules, Situation(memo - r.affected, {}, store), r.targets, now, r.found.values);
      forall k ensures k !in r.failures {
        assert k in r.failures ==> k in Elems(r.targets);
      }
      assert r.failures.Keys == {};
    }
  }

  lemma RecopiedFrom(w: World, maxEntries: Option<nat>, now: real, memo: Entries, resources: Entries,
                     errors: map<Key, Unresolved>, keys: seq<Key>, forceRefresh: bool, consistency: Option<real>,
                     store: Store, r: Revalidation, resources': Entries, errors': map<Key, Unresolved>)
    requires Restaged(w, maxEntries, now, memo, keys, forceRefresh, store, resources.Keys, r) && store.Valid()
    requires r.found.Resolved? && Reconciled(w, keys, forceRefresh, consistency, r)
    requires Recommitted(memo, resources, errors, Elems(keys), r.affected, r.last, resources', errors')
    ensures !forceRefresh && AllAsIs(w.rules, store.entries, Elems(keys) + resources.Keys * r.affected, now) ==>
      Recopied(w.rules, store.entries, r.affected, resources', now)
  {
    hide Progress, Truthful, AllEndIn, ServedFirst, AllAsIs, CopyNow, Store.Valid, LeastClosure, PassDone;
    CachedDoNotFail(w, maxEntries, now, memo, keys, forceRefresh, store, resources.Keys, r);
    if !forceRefresh && AllAsIs(w.rules, store.entries, Elems(keys) + resources.Keys * r.affected, now) {
      forall k | k in resources' && k in r.affected
        ensures k in store.entries && CopyNow(w.rules, store.entries[k], resources'[k], now)
      {
        assert k in Elems(r.targets);
      }
    }
  }

  lemma RestagedStill(w: World, maxEntries: Option<nat>, now: real, memo: Entries, keys: seq<Key>, forceRefresh: bool,
                      store: Store, shown: set<Key>,
                      r: Revalidation, r': Revalidation)
    requires Restaged(w, maxEntries, now, memo, keys, forceRefresh, store, shown, r)
    requires r' == r.(passes := r'.passes, last := r'.last, scope := r'.scope)
    ensures Restaged(w, maxEntries, now, memo, keys, forceRefresh, store, shown, r')
  {
    hide LeastClosure, Progress, Truthful, AllEndIn, ServedFirst;
  }

  lemma ReconciledAtOnce(w: World, keys: seq<Key>, forceRefresh: bool, r: Revalidation)
    requires r.passes == [] && r.last == r.staging.memo && r.scope == Scope(map[], true, !forceRefresh)
    ensures Reconciled(w, keys, forceRefresh, None, r)
  {
  }

  lemma ReconciledBy(w: World, keys: seq<Key>, requested: seq<Key>, forceRefresh: bool, limit: real, shown: set<Key>,
                     targets: set<Key>, r: Revalidation, violated: bool, late: bool)
    requires Chained(w, requested, limit, r.staging.memo, Scope(map[], true, !forceRefresh), r.passes, r.last, r.scope)
    requires forall k :: k in requested <==> k in keys
    requires !forceRefresh || WithinSkew(r.staging.memo, requested, limit) ==> r.passes == []
    requires !late ==> (!violated <==> WithinSkew(r.last, requested, limit))
    requires !late && violated && forceRefresh ==> GivenUp(w, targets, requested, r.passes, r.last, r.scope)
    requires targets == TargetsOf(keys, shown, r.affected)
    ensures Reconciled(w, keys, forceRefresh, Some(limit), r)
    ensures !late && violated ==> Unreconciled(w, keys, forceRefresh, Some(limit), shown, r)
    ensures !late && !violated ==> WithinSkew(r.last, keys, limit)
  {
    hide Chained, GivenUp;
    ChainedSame(w, requested, keys, limit, r.staging.memo, Scope(map[], true, !forceRefresh), r.passes, r.last, r.scope,
                targets);
  }

  lemma RetainedStay(w: World, maxEntries: Option<nat>, now: real, memo: Entries, resources: Entries,
                     errors: map<Key, Unresolved>, keys: seq<Key>,
                     forceRefresh: bool, consistency: Option<real>, store: Store, shown: set<Key>,
                     r: Revalidation, resources': Entries, errors': map<Key, Unresolved>)
    requires Restaged(w, maxEntries, now, memo, keys, forceRefresh, store, shown, r)
    requires Reconciled(w, keys, forceRefresh, consistency, r)
    requires Recommitted(memo, resources, errors, Elems(keys), r.affected, r.last, resources', errors')
    ensures Retaining(memo, r, r.last, PinnedAs(memo, resources), resources')
  {
    hide SelfContained, Secluded, LeastClosure, Progress, Chained, Restaged, WithinSkew;
    RestagedPins(w, maxEntries, now, memo, keys, forceRefresh, store, shown, r);
    forall k | k in memo && k !in r.affected && k !in Reached(r.passes) ensures k in r.last && r.last[k] == memo[k] {
      assert k in memo - r.affected;
      KeptExactly(w, keys, LimitOf(consistency), r.staging.memo, Scope(map[], true, !forceRefresh), r.passes, r.last,
                  r.scope,
                  k);
    }
    forall s | Secluded(memo, s) && s !! r.affected ensures Reached(r.passes) !! s {
      SecludedIsStaged(memo, Elems(keys), r.affected, r.staging.memo, s);
      SecludedIsNeverReached(w, keys, LimitOf(consistency), r.staging.memo, Scope(map[], true, !forceRefresh), r.passes,
                             r.last, r.scope, s);
    }
    if SelfContained(memo) { RetainedAreSecluded(memo, Elems(keys), r.affected); }
  }

  lemma RestagedPins(w: World, maxEntries: Option<nat>, now: real, memo: Entries, keys: seq<Key>, forceRefresh: bool,
                     store: Store, shown: set<Key>,
                     r: Revalidation)
    requires Restaged(w, maxEntries, now, memo, keys, forceRefresh, store, shown, r)
    ensures PinnedAs(r.staging.memo, memo - r.affected) && LeastClosure(memo, Elems(keys), r.affected)
  {
    hide LeastClosure, Truthful, Progress, AllEndIn, ServedFirst;
    ProgressPins(w, Scope(map[], true, !forceRefresh),
                 Situation(memo - r.affected, if forceRefresh then r.affected else {}, store), r.staging);
  }

  lemma SecludedIsStaged(memo: Entries, requested: set<Key>, affected: set<Key>, staged: Entries, s: set<Key>)
    requires LeastClosure(memo, requested, affected) && PinnedAs(staged, memo - affected) && Secluded(memo, s)
    requires s !! affected
    ensures Secluded(staged, s) && requested !! s
  {
    ClosureHasAll(memo, requested, affected);
    hide LeastClosure;
    assert forall k :: k in s ==> k in memo - affected && staged[k] == memo[k];
  }

  /** The violation names two of the keys whose pinned values are that far apart. */
  ghost predicate NamesSkew(v: SkewViolation, keys: seq<Key>, memo: Entries) {
    && v.oldestKey in keys && v.newestKey in keys && v.oldestKey in memo && v.newestKey in memo
    && v.oldestAt == memo[v.oldestKey].observedAt && v.newestAt == memo[v.newestKey].observedAt
    && v.skew == v.newestAt - v.oldestAt
  }

  lemma SkewReported(values: Entries, requested: seq<Key>, keys: seq<Key>, memo: Entries, limit: real)
    requires PinnedAs(memo, values) && forall k :: k in requested <==> k in keys
    ensures var v := FindSkew(values, requested, limit);
            v.Some? ==> v.value.skew > limit && v.value.limit == limit && NamesSkew(v.value, keys, memo)
  {
  }

  /** What would have been committed does not meet the policy, and the violations say where. */
  ghost predicate Rejected(memo: Entries, resources: Entries, errors: map<Key, Unresolved>, keys: seq<Key>,
                           r: Revalidation, policy: Acceptance.Policy, freshness: Acceptance.Freshness, now: real,
                           violations: seq<Acceptance.Violation>) {
    exists proposed ::
      && Recommitted(memo, resources, errors, Elems(keys), r.affected, r.last, proposed,
                     errors - TargetsOf(keys, resources.Keys, r.affected))
      && Acceptance.RejectedWith(proposed, keys, [], policy, freshness, now, violations)
  }

  lemma RejectionMeans(memo: Entries, resources: Entries, errors: map<Key, Unresolved>, keys: seq<Key>,
                       requested: seq<Key>, r: Revalidation, targets: seq<Key>, values: Entries, proposed: Entries,
                       policy: Acceptance.Policy, freshness: Acceptance.Freshness, now: real,
                       violations: seq<Acceptance.Violation>)
    requires forall k :: k in requested <==> k in keys
    requires LeastClosure(memo, Elems(requested), r.affected)
    requires Elems(targets) == Elems(requested) + resources.Keys * r.affected
    requires Overlaid(resources, Elems(targets), values, proposed) && PinnedAs(r.last, values)
    requires Acceptance.RejectedWith(proposed, requested, [], policy, freshness, now, violations)
    ensures Rejected(memo, resources, errors, keys, r, policy, freshness, now, violations)
  {
    hide LeastClosure, Overlaid, Recommitted, PinnedAs, Acceptance.RejectedWith;
    assert Elems(requested) == Elems(keys);
    CommitIsRecommit(memo, resources, errors, keys, requested, r.affected, targets, values, r.last, proposed,
                     errors - Elems(targets));
    Acceptance.RejectedAlike(proposed, requested, keys, policy, freshness, now, violations);
  }

  lemma AcceptedDistinct(resources: Entries, requested: seq<Key>, keys: seq<Key>, policy: Acceptance.Policy,
                         freshness: Acceptance.Freshness, now: real)
    requires Acceptance.Accepted(resources, requested, [], policy, freshness, now)
    requires forall k :: k in requested <==> k in keys
    ensures Acceptance.Accepted(resources, keys, [], policy, freshness, now)
  {
    hide Acceptance.Acceptable, Acceptance.Satisfied;
    forall k | Acceptance.Enforced(policy, keys, [], k) ensures Acceptance.Enforced(policy, requested, [], k) {
    }
  }

  lemma PlacedAtTop(w: World, universe: set<Key>, keys: seq<Key>)
    requires forall k :: k in keys ==> k in universe
    ensures Placed(w, universe, [], keys)
  {
  }

}
