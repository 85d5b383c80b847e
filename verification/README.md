# Coalestra: a verified model

Coalestra is a read orchestrator: it resolves resources from prioritised sources, keeps them in an authority-aware
cache, derives values from other values, coalesces concurrent work and lets sessions build consistent snapshots step by
step. This project models its core in Dafny and proves what it keeps:

* **The versioned dependency cache** (`DependencyGraph`, `WriteOrder`, `MemoryCache`, `CacheReads`, `AsyncMemoryCache`,
  `CacheRuns`, `CacheAccess`, `Publisher`). The cache is a class whose methods change an ordered dictionary and counters inside lock
  sections; each method is proved against a function on `Store`, and the laws are proved of every run of those functions.
* **Resolution and sessions** (`Sources`, `Resolution`, `RuntimeState`, `KeyLists`, `CacheOffers`, `CacheLookups`,
  `Rounds`, `SourceLoop`, `Batches`, `Requests`, `Resolver`, `Dependents`, `Consistency`, `Acceptance`, `Fallback`,
  `Session`). The recursion through derived sources, the source loop and the session are classes with loops. `Sources`
  states the priority chain of one resource by itself; `Batches` states where a batch over direct sources leads each of its
  keys and the shared cache, whatever room the cache has, and when that is where the key's own chain leads.
* **Concurrency protocols** (`SingleFlight`, `Capacity`, `CopyPool`, `BufferedDispatcher`, `Dispatch`, `BatchCalls`,
  `CircuitBreaker`). Each protocol is a state machine whose step is the code between two suspension points; a run is any
  sequence of events, an event that is not enabled does nothing, and the invariants hold after every run.

Conventions. Payloads are an opaque type and copies are the identity. Times are reals. The clock, deadlines, sources and
what other tasks do between two lock sections are parameters: a source's answer carries the instant it was received, a
deadline may pass wherever the code checks for it, and interference is an arbitrary function on cache states. Versions are
opaque strings that are compared for equality. An error is called truthful when it accounts for every source that was not
passed over: for a direct source by exactly what it answered, for a derived one by grounds its declarations, its answers or
the truthful errors of its dependencies give, at any depth of nesting (`Resolution.Truthful`).

Findings about the code, each with an input that shows it and the exact condition:

* Without `replace_equal`, a batch keeps the last of equally ranked members while single writes keep the first
  (`WriteOrder.UnreplacedDisagreement`). They agree on a key exactly when the first and the last greatest member hold the
  same value or the stored value is at least as strong (`WriteOrder.UnreplacedAgreement`).
* A source is excluded by its stripped name but compared by its raw name. Excluding a source takes effect exactly when its
  name is not empty and neither begins nor ends with whitespace (`RuntimeState.ExclusionTakesEffect`); one that ends with
  whitespace is still asked (`RuntimeState.PaddedSourceIsStillAsked`).
* A batch need not resolve as its keys would alone: the write of one key can push out the cached value of higher authority
  that another key would have yielded to. `RoomWitness.BatchDiffersFromAlone` is such a run, with two sources, two keys and
  a cache of one entry. A key of a batch ends as it would alone exactly when it has no cached value that outranks what its
  first fresh source gives, or that entry is still there when the source answers (`Batches.BatchAloneExactly`, for whole
  requests `Requests.RequestAloneExactly`). One write pushes out an entry exactly when the keys touched since and the keys
  written use up the limit (`CacheOffers.PushedOutExactly`); so it suffices that the outranking entry, the keys newer than
  it and the keys of the batch fit into the cache together (`Batches.ShelteredIsNotOusted`).
* The consistency fallback recomputes the affected keys from the pinned values of the attempt. A value pinned from the
  cache can record a dependency that is not pinned; once the attempt pins that dependency, a pass of the fallback can reach,
  and unpin, the value of a visible resource outside the closure of the request. `FallbackWitness.RetainedCanBeReached` is
  such a run: the revalidation commits and afterwards a visible value is not the pinned one. A pinned value outside the
  closure is kept by the passes exactly when no pass reaches it (`Fallback.KeptExactly`); there are no passes unless a
  forced refresh finds the staged values further apart than the limit; and if every recorded dependency of a pinned value is
  pinned, none outside the closure is reached (`Session.SnapshotSession.Revalidate`).

## Model

| member | source | states |
|---|---|---|
| DependencyGraph.CheckDecidesGraph | src/coalestra/cache/memory.py:461-479 | the path-based check answers true exactly when every walk along recorded dependencies from the value is duplicate-free and meets only recorded versions; it terminates because the path uses up the cached keys |
| DependencyGraph.RemovalNeverRevives | src/coalestra/cache/memory.py:461-479 | removing entries never makes a value current that was not |
| DependencyGraph.AcceptanceFixesClosure | src/coalestra/cache/memory.py:461-479 | where versions identify values, two caches that accept the same value agree on its whole dependency closure |
| DependencyGraph.ReplacedDependencyRefuses | src/coalestra/cache/memory.py:461-479 | a value is refused while any transitive recorded dependency is stored at another version |
| WriteOrder.StatusMeaning | src/coalestra/cache/memory.py:347-365 | the write status by rank and observation time, in both directions; a forced write and one of an absent key are stored |
| WriteOrder.WinnerIsLastMaximum | src/coalestra/cache/memory.py:336-346 | the member of a batch that is kept for a key is the last one with the greatest precedence |
| WriteOrder.LastMaximumUnique | src/coalestra/cache/memory.py:336-346 | there is only one such member |
| WriteOrder.SelectCandidates | src/coalestra/cache/memory.py:336-346 | the selection loop keeps exactly the winners, in order of first mention |
| WriteOrder.BatchMatchesAnyOrder | src/coalestra/cache/memory.py:336-374 | an unforced batch ends with the precedence per key that writing its members one by one in any order gives |
| WriteOrder.BatchEqualsSequential | src/coalestra/cache/memory.py:336-374 | with replacement of equals it ends with the very values that its members written in order give |
| WriteOrder.UnreplacedAgreement | src/coalestra/cache/memory.py:347-374 | without replacement of equals, batch and single writes agree on a key exactly when the first and the last greatest member hold the same value or the stored value is at least as strong as every member |
| WriteOrder.FirstWinnerIsFirstMaximum | src/coalestra/cache/memory.py:347-374 | single writes without replacement of equals keep, for a key not stored, the first member with the greatest precedence |
| WriteOrder.UnreplacedDisagreement | src/coalestra/cache/memory.py:347-374 | two equally ranked members of one batch tell them apart |
| WriteOrder.BatchNeverLowers | src/coalestra/cache/memory.py:347-365 | an unforced batch never lowers a stored key's precedence |
| AsyncMemoryCache.Cache.GetMany | src/coalestra/cache/memory.py:123-187 | the read loop: a missing policy is refused before anything changes; every distinct key is answered; a key answered without a value is not stored afterwards and one answered with a value still is; invalidations grow by the stored keys whose graph was not current at their turn, expirations by the current ones beyond their stale window, hits split by ttl, and nothing else is counted |
| AsyncMemoryCache.Cache.ReadLocked | src/coalestra/cache/memory.py:138-187 | one key: refused and expired entries are removed and counted, a served one becomes most recent |
| CacheReads.ReadMeans | src/coalestra/cache/memory.py:136-187 | what a read does by the fates of its keys, each taken in the store as its predecessors left it: which entries remain, every counter and every answer |
| AsyncMemoryCache.Cache.SetManyIfNewer | src/coalestra/cache/memory.py:237-303 | under arbitrary interference the write ends within one lock section per candidate plus one, and commits the whole batch in one of them with every status decided against that instant |
| AsyncMemoryCache.Cache.CommitOptimistically | src/coalestra/cache/memory.py:250-303 | the copy-then-recheck loop; an ignored write reports the value stored at that instant |
| AsyncMemoryCache.Cache.LockSection | src/coalestra/cache/memory.py:254-289 | one lock section names what is still to be copied and changes nothing, or commits everything |
| AsyncMemoryCache.Cache.CommitAll | src/coalestra/cache/memory.py:269-287 | the commit loop stores exactly the candidates whose status is stored |
| AsyncMemoryCache.Cache.EnforceLimit | src/coalestra/cache/memory.py:481-486 | eviction from the least recent end until the limit is met |
| AsyncMemoryCache.Cache.InvalidateMany | src/coalestra/cache/memory.py:379-384 | removes exactly the stored ones of the keys and adds their number to the invalidations; entries that remain, their order and the other counters do not change |
| AsyncMemoryCache.Cache.InvalidateMatching | src/coalestra/cache/memory.py:386-397 | returns and removes exactly the stored keys that the predicate accepts, and counts them as invalidations |
| AsyncMemoryCache.Cache.Prune | src/coalestra/cache/memory.py:416-434 | returns and removes exactly the stored keys older than their stale window, and counts them as expirations |
| AsyncMemoryCache.Cache.Clear | src/coalestra/cache/memory.py:436-440 | empties the cache and counts what was removed |
| CacheReads.PruneMeans | src/coalestra/cache/memory.py:416-434 | pruning removes the stored keys whose age exceeds the stale window and no other, whether their graph is current or not |
| MemoryCache.FilterInOrder | src/coalestra/cache/memory.py:391-394 | keys removed by a predicate are listed in the order of the dictionary |
| CacheRuns.ReadServesExactly | src/coalestra/cache/memory.py:136-187 | a read serves a value exactly when its dependency graph is current and its age allowed at that moment |
| CacheRuns.ServableAreServed | src/coalestra/cache/memory.py:136-187 | a read of keys that may all be served serves every one and removes nothing |
| CacheRuns.CommitMeetsLimit | src/coalestra/cache/memory.py:269-290 | a write leaves at most the allowed number of entries, all of them from the batch write |
| CacheRuns.CommitCountsStored | src/coalestra/cache/memory.py:269-282 | the counter of writes grows by the number of candidates whose status is stored |
| CacheRuns.EvictKeepsRecent | src/coalestra/cache/memory.py:481-486 | eviction keeps exactly the most recent entries and counts the others |
| CacheRuns.BatchIsSingles | src/coalestra/cache/memory.py:237-303 | on an unbounded cache a batch write of any valid state equals its members written singly, in precedence or in value |
| CacheRuns.RunConserves | src/coalestra/cache/memory.py:379-440 | over every run, size is inserts of absent keys minus invalidations, expirations and evictions; hits are fresh plus stale hits; hits plus misses are the distinct keys looked up |
| CacheRuns.RunNeverLowers | src/coalestra/cache/memory.py:347-365 | over every run of unforced writes, a key that is not removed never loses precedence |
| CacheRuns.EntriesWereWritten | src/coalestra/cache/memory.py:269-282 | every stored value was offered by an earlier write |
| CacheRuns.RunRefusesReplaced | src/coalestra/cache/memory.py:137-187 | over every run, a value whose transitive dependency is stored at another version is not served |
| CacheRuns.RunIsLeastRecentlyUsed | src/coalestra/cache/memory.py:164-187 | over every run, the dictionary order is the order of last touch |
| CacheAccess.DependenciesCurrentVia | src/coalestra/orchestration/cache_access.py:237-273 | the memoising re-implementation gives the cache's verdict, and every key it collects is not current |
| CacheAccess.FilterInvalidDependencies | src/coalestra/orchestration/cache_access.py:202-235 | exactly the current values pass, and only keys that are not current are invalidated |
| CacheAccess.InvalidationIsSafe | src/coalestra/orchestration/cache_access.py:231-233 | invalidating the collected keys changes no verdict about the keys that remain |
| Publisher.ChooseWinners | src/coalestra/cache/publisher.py:222-238 | the publisher's selection is the cache's, and a batch with an observation too far in the future is rejected, naming the first one |
| Publisher.UpdateMeans | src/coalestra/cache/publisher.py:229-270 | an update is observed at its own timestamp or now; it is rejected exactly when that is further ahead than tolerated, and its value carries that time, its age and whether that exceeds the ttl |
| Publisher.SelectionIdempotent | src/coalestra/cache/publisher.py:226-238 | selecting again from the winners selects the same |
| Publisher.StatusesAgree | src/coalestra/cache/publisher.py:527-545 | publisher and cache decide every write alike |
| Publisher.PublishMany | src/coalestra/cache/publisher.py:214-338 | after the preliminary read the cache ends as if it had been given every update, each result reporting the instant of the commit; a rejected batch neither reads nor writes |
| Sources.ChainDecides | src/coalestra/orchestration/builder.py:1099-1258 | the fold over the sources is the choice: first fresh value, else the newest admissible stale one and all failures in source order |
| Sources.PriorityLaw | src/coalestra/orchestration/builder.py:1085-1286 | what one resource ends with over any table of source outcomes: its pinned value, else the first fresh one unless a cached one outranks it, else the newest admissible stale one where allowed, else every failure in order |
| Sources.DeliveryDecides | src/coalestra/orchestration/source_calls.py:440-463 | what becomes of a delivery, by its own fields: refused exactly for a timestamp too far in the future, else current exactly when it was received within its ttl, else stale; the value carries its time, age, rank, payload and version |
| Sources.FailureMeans | src/coalestra/orchestration/builder.py:1110-1180 | what a source leaves as a failure, by its own answer: a failing support check, its fault, a future timestamp or stale data |
| Sources.DeliveriesDecide | src/coalestra/orchestration/builder.py:1085-1286 | the priority law by deliveries: the first source that delivers within the ttl decides, unless the cache holds a value of higher authority; without one the latest delivery within the stale limit is used where that is allowed, else every failure is reported |
| Sources.DeliveriesStored | src/coalestra/orchestration/cache_access.py:106-134 | what the cache then holds for the resource: the delivery that decided if it ranks higher or is newer, else what it held |
| Resolution.AcyclicReportsNoCycle | src/coalestra/orchestration/source_executor.py:489-503 | acyclic declarations never lead to a reported cycle, however deeply errors are nested |
| Resolution.BountyRefutes | src/coalestra/orchestration/builder.py:1147-1286 | where the deadline never passes and each key of a set that declarations neither leave nor cycle through has a source that is always fresh, no error about one of them is truthful, at any depth of nesting |
| Rounds.SpokenStep | src/coalestra/orchestration/builder.py:1147-1234 | after each source the failures of a key that is still open account for it |
| Resolution.CycleOnPath | src/coalestra/orchestration/source_executor.py:496-503 | the reported cycle is a declared cycle |
| Resolution.PlacedBelow | src/coalestra/orchestration/source_executor.py:493-511 | the ancestry stays a duplicate-free declared chain and uses up the key set |
| RuntimeState.Runtime.ExcludeSource | src/coalestra/orchestration/runtime.py:67-73 | adds the stripped name to one resource's exclusions, refuses a blank one, and excludes the name as given exactly when it was excluded or is tight |
| RuntimeState.StripTakesBlanks | src/coalestra/orchestration/runtime.py:67-73 | stripping takes whitespace off both ends and nothing else |
| RuntimeState.ExclusionTakesEffect | src/coalestra/orchestration/runtime.py:67-78 | after excluding a source for a resource the screening skips it exactly when it was excluded before or its name is not empty and has no whitespace at either end |
| RuntimeState.PaddedSourceIsStillAsked | src/coalestra/orchestration/builder.py:1110-1133 | a supported source whose name ends in whitespace is still asked after it was excluded |
| CacheOffers.RoomyCommit | src/coalestra/orchestration/cache_access.py:106-134 | with room in the cache a batch write changes each key by its own offer only |
| CacheOffers.PushedOutExactly | src/coalestra/cache/memory.py:269-290 | a write pushes out another key exactly when the keys newer than it and the keys it stores use up the limit |
| Batches.BatchStep | src/coalestra/orchestration/builder.py:1099-1260 | after any number of direct sources, in a cache of any size, cache and keys are where the batch leads them |
| Batches.OfferedInOrder | src/coalestra/orchestration/builder.py:1236-1242 | the fresh values of a round are offered to the cache in the order of the request |
| Batches.BatchEnd | src/coalestra/orchestration/builder.py:1085-1286 | every key, and the cache with the stale values offered to it, ends where the batch leads |
| Batches.BatchAloneExactly | src/coalestra/orchestration/builder.py:1236-1256 | a key of a batch ends as it would alone exactly when it has no outranking cached value that was pushed out before its turn |
| Batches.ShelteredIsNotOusted | src/coalestra/orchestration/builder.py:1236-1256 | the entry is not pushed out if it, the keys newer than it and the keys of the batch fit together |
| Batches.PendingAloneExactly | src/coalestra/orchestration/builder.py:994-1027 | the same law for the pending keys of a request, whose directly owned keys form a batch before the others |
| Batches.SpaciousStoresAlone | src/coalestra/orchestration/builder.py:1236-1286 | a batch that fits leaves in the cache what its keys would leave alone |
| RoomWitness.BatchDiffersFromAlone | src/coalestra/orchestration/builder.py:1236-1256 | a run over two sources and a cache of one entry in which a key ends with another value than alone |
| Resolver.SnapshotBuilder.DeriveOne | src/coalestra/orchestration/source_executor.py:489-578 | a derived attempt terminates; a delivery or a refusal is what its source made of exactly the declared keys and the values pinned for them, and records these at their versions; it reports a cycle exactly when a declared key is on its path, names no dependency that was pinned before among the failed ones, and fails only on grounds: nothing declared, a declared cycle, truthful errors of its dependencies, the deadline or the source itself |
| Resolver.SnapshotBuilder.AttemptAll | src/coalestra/orchestration/source_executor.py:60-77 | one attempt per candidate: a direct source's answer, which changes nothing, or a derivation |
| Resolver.SnapshotBuilder.PickUpPinned | src/coalestra/orchestration/builder.py:1100-1106 | open keys that have been pinned meanwhile are settled on their pinned value |
| Resolver.SnapshotBuilder.Choose | src/coalestra/orchestration/builder.py:1110-1133 | exactly the open, not excluded, supported keys are asked for; a failing support check is a failure |
| Resolver.SnapshotBuilder.Absorb | src/coalestra/orchestration/builder.py:1147-1234 | each candidate advances by its attempt; fresh values are pinned and no longer due |
| Resolver.SnapshotBuilder.WriteTaken | src/coalestra/orchestration/builder.py:1236-1256 | fresh values are offered to the cache, and exactly the ones refused for lower authority yield to the cached value |
| Resolver.SnapshotBuilder.FallBack | src/coalestra/orchestration/builder.py:1262-1279 | each open key is concluded by its best stale value where allowed and not forced, else by its failures |
| Resolver.SnapshotBuilder.Round | src/coalestra/orchestration/builder.py:1099-1260 | a round advances every key by what it found pinned and what its source answered; a direct source's only writes are the offers of its fresh values, and other keys stay |
| Resolver.SnapshotBuilder.AllRounds | src/coalestra/orchestration/builder.py:1099-1260 | the rounds are logged in priority order; the failures of a key that is still open account for every source; over direct sources cache and keys follow the batch |
| Resolver.SnapshotBuilder.ResolveOwned | src/coalestra/orchestration/builder.py:1085-1286 | results for exactly the owned keys, values pinned, errors truthful, each concluded from what the sources answered in priority order; over direct sources, in a cache of any size, every key and the cache end where the batch leads, which with room is where each key would end alone |
| Resolver.SnapshotBuilder.RunFlight | src/coalestra/orchestration/builder.py:1016-1027 | a sequential resolution never joins a flight of its own |
| Resolver.SnapshotBuilder.ReadCache | src/coalestra/orchestration/builder.py:913-992 | hits and misses are exactly what the cache's answers and the refresh mode say |
| Resolver.SnapshotBuilder.HandOut | src/coalestra/orchestration/builder.py:1029-1083 | results are handed out as they are, a usable stale cached value standing in for an error where allowed |
| Resolver.SnapshotBuilder.ResolvePending | src/coalestra/orchestration/builder.py:994-1027 | keys owned or due are resolved first and the others as a flight; over direct sources each ends as the two batches lead it |
| Resolver.SnapshotBuilder.ResolveMany | src/coalestra/orchestration/builder.py:875-1083 | terminates; every distinct key has a value, which is pinned, or a truthful error, never both; pinned keys and keys the cache may serve take those values whatever the sources are; over direct sources each other key ends as its batch leads it |
| Requests.BountyLeavesNoErrors | src/coalestra/orchestration/builder.py:875-1083 | a request whose keys lie in a set as described for BountyRefutes has no errors |
| Requests.EndsTogether | src/coalestra/orchestration/builder.py:884-1083 | the steps of a request amount, key by key, to pinned value, served cached value, or what the sources settle on with a stale stand-in |
| Requests.RequestAloneExactly | src/coalestra/orchestration/builder.py:875-1083 | a key of a request ends as by its own chain exactly unless it is pending and its outranking entry is pushed out before its turn |
| Requests.RequestWithRoom | src/coalestra/orchestration/builder.py:875-1083 | with room for its keys every key of a request ends as by its own chain |
| Requests.UsableAreServed | src/coalestra/orchestration/builder.py:913-992 | keys that are cached with a current graph, within their stale window, and fresh or refreshed in the background are answered with copies of the cached values, whatever the sources answer |
| Requests.UsableStandIn | src/coalestra/orchestration/builder.py:1029-1083 | a key whose cached value is usable but not served ends with what the sources settle on, or with a copy of the cached value where they fail and stale data is allowed |
| Requests.FinalMeans | src/coalestra/orchestration/builder.py:1046-1075 | the copy that stands in for an error carries its age now and is marked as stale and as cached |
| SourceLoop.FirstRoundDecides | src/coalestra/orchestration/builder.py:1099-1258 | over any sources, derived ones included, the first round that finds a key pinned or its source fresh decides it, subject to a cached value of higher authority |
| SourceLoop.NoRoundDecides | src/coalestra/orchestration/builder.py:1147-1260 | a key that no round decides keeps every failure, in source order |
| Consistency.SkewDecides | src/coalestra/core/consistency.py:46-72 | the check is silent exactly when all pairs of resolved observations are within the limit; otherwise it names two that are furthest apart |
| Consistency.FirstIsNamed | src/coalestra/core/consistency.py:57-58 | of equally old keys the first one requested is named as the oldest, and likewise the newest |
| Acceptance.FindViolations | src/coalestra/core/acceptance.py:208-326 | nothing is reported exactly when every resolved, directly enforced key meets its rule and every group has enough acceptable keys; what is reported is exactly the faults and shortfalls |
| Acceptance.FaultsMean | src/coalestra/core/acceptance.py:244-300 | the faults of a value by its fields: its age is the greatest of zero, its age at resolution and the time since it was observed; stale, too old and too low in authority are each reported exactly when they hold |
| Acceptance.RejectionLasts | src/coalestra/core/acceptance.py:244-266 | a rejected snapshot stays rejected as time passes |
| Dependents.AffectedKeys | src/coalestra/orchestration/session.py:457-472 | the fixpoint loop computes the least set with the requested keys closed under recorded dependents, in any order of the pinned values |
| Dependents.LeastClosureUnique | src/coalestra/orchestration/session.py:457-472 | the least closure is unique, whatever the order of the pinned values |
| Dependents.RetainedAreIndependent | src/coalestra/orchestration/session.py:240-254 | a retained value records no dependency on an affected key |
| Dependents.SecludedIsNotReached | src/coalestra/orchestration/session.py:512-531 | a fallback does not reach retained values that only record dependencies among themselves |
| Fallback.KeptExactly | src/coalestra/orchestration/session.py:474-591 | a pinned value is kept by every pass of the fallback exactly when no pass reaches its key, and then it is still pinned at the end |
| Fallback.BountyNeverFails | src/coalestra/orchestration/session.py:540-560 | a pass does not fail where nothing can fail for its targets |
| Fallback.SecludedIsNeverReached | src/coalestra/orchestration/session.py:512-531 | no pass reaches a set of pinned values that records nothing outside itself and holds no requested key |
| FallbackWitness.RetainedCanBeReached | src/coalestra/orchestration/session.py:204-414 | a run of a session in which a revalidation commits and a visible value outside its closure is no longer the pinned one |
| Session.SnapshotSession.Resolve | src/coalestra/orchestration/session.py:74-157 | exactly the keys neither visible nor failed for good are resolved, visible and pinned values stay, earlier errors stay unless retried, every requested key is answered, keys the cache may serve come from there, and a strict stage reports its errors and, if late, shows nothing; it is late exactly when resolving met the deadline or the last look at the clock did |
| Session.RepliesMean | src/coalestra/orchestration/session.py:110-157 | the errors a strict stage replies with are those of the requested keys, or the deadline for each of them |
| Session.SnapshotSession.FallBackOnce | src/coalestra/orchestration/session.py:512-571 | one pass excludes the source for the oldest resource, unpins exactly the least closure of it, pins these keys from open sources only and writes nothing to the cache; if it fails in time, a target in that closure has a truthful error under the narrowed settings |
| Session.SnapshotSession.RetryInconsistent | src/coalestra/orchestration/session.py:474-591 | the fallback terminates; its passes, each for the oldest value of a group too far apart, lead from the first state to the last; it reports no violation only within the limit and gives up only when the oldest names no source, was tried with that source before, or a pass without it failed with a truthful error |
| Session.SnapshotSession.Restage | src/coalestra/orchestration/session.py:238-262 | a revalidation resolves its targets from the pinned values outside the closure; unforced, no key is due and keys the shared cache may serve come from there; forced, the whole closure is due and the cache is not read for it |
| Session.SnapshotSession.Revalidate | src/coalestra/orchestration/session.py:204-414 | a revalidation that does not commit changes nothing and says why: truthful errors, the deadline, two requested keys whose newly pinned values are too far apart, or exactly the violations of what would have been committed; one that commits replaces only visible keys of the least closure, by values pinned together, within the declared limits; unforced, without limits or a deadline, it commits copies of the cached values whenever these are current and within their ttl, whatever the sources answer; other pinned values stay unless a pass reached them, which it does not if they record nothing outside themselves, and there is no pass unless a forced refresh staged values too far apart |
| Session.SnapshotSession.Perform | src/coalestra/orchestration/session.py:74-414 | one operation is lawful: a stage keeps what is visible and pinned; a revalidation commits the replacement of its least closure, leaving pinned what the passes of its fallback lead to, or changes nothing |
| Session.SnapshotSession.Drive | src/coalestra/orchestration/session.py:74-414 | any run of stages and revalidations is a chain of lawful events, one for each operation, from the first state to the last; a visible value changes only inside the closures of those that committed; a run without consistency fallbacks, or whose pinned values record only pinned values, keeps visible and pinned values in agreement |
| Session.VisibleStays | src/coalestra/orchestration/session.py:74-414 | over any chain of lawful events visible keys stay visible and a value changes only inside the closures of the committed revalidations |
| Session.AgreementLasts | src/coalestra/orchestration/session.py:204-414 | over any run whose fallback passes reach no visible key outside the closures, visible values stay the pinned ones |
| Session.UndisturbingAgrees | src/coalestra/orchestration/session.py:204-414 | so they do over any run in which each revalidation is unforced, without a limit, or begins with pinned values that record only pinned values |
| SingleFlight.RunKeeps | src/coalestra/orchestration/singleflight.py:40-104 | the registry, producers, futures and claims stay consistent in every interleaving |
| SingleFlight.OneProducer | src/coalestra/orchestration/singleflight.py:43-58 | a registered key has exactly one live producer and a pending future |
| SingleFlight.OneOwner | src/coalestra/orchestration/singleflight.py:44-53 | exactly one claim on a future is not joined |
| SingleFlight.CompletesExactlyOne | src/coalestra/orchestration/singleflight.py:89-104 | a completion gives exactly one pending future its outcome and nothing else does |
| SingleFlight.CompletionFindsPending | src/coalestra/orchestration/singleflight.py:96-100 | the guard against a missing or finished future never applies |
| SingleFlight.OutcomesAreFinal | src/coalestra/orchestration/singleflight.py:60-66 | an outcome never changes, so all callers of a future see the same one |
| SingleFlight.OutcomeIsReturned | src/coalestra/orchestration/singleflight.py:77-87 | over any run, a completed future holds what its factory returned for its key if the factory returned every owned key, and the error otherwise |
| SingleFlight.OutcomeFollowsReturn | src/coalestra/orchestration/singleflight.py:77-87 | a producer completes only after its factory returned |
| SingleFlight.CompletedMeans | src/coalestra/orchestration/singleflight.py:89-104 | one completion, field by field: which future gets which outcome and what leaves the registry |
| SingleFlight.NobodyIsStuck | src/coalestra/orchestration/singleflight.py:60-87 | whoever awaits a pending future awaits a producer that still owes it and can go on |
| SingleFlight.QuietWhenFinished | src/coalestra/orchestration/singleflight.py:72-87 | once all producers have finished the registry is empty and every future is completed |
| SingleFlight.Coordinator.RunMany | src/coalestra/orchestration/singleflight.py:31-58 | the lock section of a caller owns exactly the keys that were not registered, in order; it claims every key, on the registered future or on a new pending one of a producer that owns those keys |
| SingleFlight.Coordinator.FactoryReturned | src/coalestra/orchestration/singleflight.py:77-84 | a factory's return, complete or not, is kept by its producer and changes nothing else |
| SingleFlight.Coordinator.CompleteNext | src/coalestra/orchestration/singleflight.py:89-104 | completing a key takes its future from the registry and sets the value returned for it if every owned key was returned, else the error |
| Capacity.WithinLimits | src/coalestra/concurrency/capacity.py:37-59 | in every interleaving, cancellation included, a limiter's count is its number of live holders and within its limit |
| Capacity.NextKeeps | src/coalestra/concurrency/capacity.py:181-204 | no step loses or makes up a permit; waiters and holders are counted exactly |
| Capacity.HolderCounted | src/coalestra/concurrency/capacity.py:52-59 | releasing a held slot never fails |
| Capacity.NoDeadlock | src/coalestra/concurrency/capacity.py:181-204 | if a task waits, some wait can end or some full holder can release |
| Capacity.WaitsForItsSource | src/coalestra/concurrency/capacity.py:181-204 | over every run a task waits for, and then holds, the slot of the very source it began with, if that one is limited, before the global one |
| Capacity.Acquire | src/coalestra/concurrency/capacity.py:170-204 | while other tasks act during each wait, every limiter ends with one slot more than they hold of it, or after a cancelled wait with none more; either way nobody is left counted as waiting |
| Capacity.CapacityLease.Release | src/coalestra/concurrency/capacity.py:98-112 | releases each limiter once however often it is called |
| CopyPool.PoolConserved | src/coalestra/core/isolation.py:208-327 | permits plus running workers plus unclaimed grants are the limit; started is completed plus failed plus active; while closing the pool is closed exactly when no worker remains |
| CopyPool.CountersSuffice | src/coalestra/core/health.py:246-273 | no counter ever has to go below zero |
| CopyPool.SlotReleasedOnce | src/coalestra/core/isolation.py:278-327 | a slot is released only after its thread has ended and never twice |
| CopyPool.SlotHeldUntilEnd | src/coalestra/core/isolation.py:278-327 | a started worker keeps its slot until its thread ends, through every continuation of a run |
| CopyPool.LeavingFreesNothing | src/coalestra/core/isolation.py:294-312 | a caller that times out or is cancelled frees nothing: until the thread ends, however the run goes on, its slot stays taken |
| CopyPool.ClosingIsFinal | src/coalestra/core/isolation.py:183-206 | once closing has begun no worker is added and closing is not undone |
| CopyPool.OutcomesCounted | src/coalestra/core/health.py:246-273 | completed counts the workers whose threads ended well, failures the others and the threads that did not start |
| CopyPool.EndStays | src/coalestra/core/isolation.py:278-327 | how a thread ended is never changed afterwards |
| CopyPool.NobodyIsStuck | src/coalestra/core/isolation.py:208-327 | a waiting caller can be granted a slot, or one can be claimed or a worker can end; an incomplete shutdown waits for a worker that can end |
| BufferedDispatcher.RecordsConserved | src/coalestra/observability/buffered.py:84-112 | accepted and rejected records are delivered, failed, dropped or pending in every state; pending stays within the bound plus one |
| BufferedDispatcher.ClampsNeverAct | src/coalestra/observability/buffered.py:178-235 | wherever pending is decremented it is positive |
| BufferedDispatcher.MarkerNeverTaken | src/coalestra/observability/buffered.py:99-107 | neither a submitter nor the closer ever takes the end marker, and a submitter that made room finds it |
| BufferedDispatcher.DeliveryOrder | src/coalestra/observability/buffered.py:217-235 | records are handled in the order of acceptance |
| BufferedDispatcher.StoppedIsEmpty | src/coalestra/observability/buffered.py:131-155 | when the worker has stopped nothing is pending and every record is accounted for |
| BufferedDispatcher.SubmitWithRoom | src/coalestra/observability/buffered.py:84-112 | a record submitted while there is room is queued last and counted as enqueued and pending |
| BufferedDispatcher.SubmitWhenFull | src/coalestra/observability/buffered.py:88-110 | a record submitted to a full queue is refused and counted, refused without a trace, or takes the place of the oldest, which is counted as dropped, as the policy says |
| BufferedDispatcher.OutcomesCounted | src/coalestra/observability/buffered.py:217-235 | delivered and failed count the handled records by their outcomes |
| BufferedDispatcher.DiscardsAll | src/coalestra/observability/buffered.py:131-215 | a close that could not flush goes on to the end marker only from an empty queue, one that could flush from nothing pending |
| BufferedDispatcher.MarkerIsThere | src/coalestra/observability/buffered.py:131-235 | once the closer has finished, the end marker is last in the queue until the worker takes it |
| BufferedDispatcher.NobodyIsStuck | src/coalestra/observability/buffered.py:84-235 | a submitter and a closer can always go on, and after the closer the worker can until it stops |
| Dispatch.ClaimedOnce | src/coalestra/concurrency/dispatch.py:35-60 | in every interleaving, failures and cancellation included, items are claimed in order and each once, none that is done or lost is worked on again, and at most the smaller of limit and item count are active |
| Dispatch.OrderedResults | src/coalestra/concurrency/dispatch.py:54-62 | normal completion gives one result per item, in input order |
| Dispatch.NobodyIsStuck | src/coalestra/concurrency/dispatch.py:35-62 | a dispatch that has neither failed nor returned has a worker that can go on |
| BatchCalls.Chunks | src/coalestra/orchestration/source_executor.py:93-96 | the chunks concatenate to the request and none exceeds the size |
| BatchCalls.CircuitGroups | src/coalestra/orchestration/source_catalog.py:128-142 | every key is in the group of its circuit identity and in no other |
| BatchCalls.AttemptBatch | src/coalestra/orchestration/source_executor.py:251-476 | the source is asked once, in request order, for the keys of admitted circuits; refused keys fail without being asked for, omitted ones fail, a timestamp too far ahead fails, a failed call fails every asked key, and every other key succeeds with its own payload |
| BatchCalls.AttemptChunked | src/coalestra/orchestration/source_executor.py:81-128 | in any interleaving of the bounded dispatch that returns, every requested key has exactly one outcome, from a call within the size limit; there is one call if the request fits, else all but the last are full |
| CircuitBreaker.ClosedExactly | src/coalestra/resilience/circuit_breaker.py:154-186 | after any history the circuit is closed exactly when fewer failures than the threshold were recorded since the last success or reset, and a probe runs only half open |
| CircuitBreaker.ProbesSeparated | src/coalestra/resilience/circuit_breaker.py:121-136 | between two admitted probes there is a recorded outcome or a reset |
| CircuitBreaker.OpenRefuses | src/coalestra/resilience/circuit_breaker.py:121-136 | an open circuit admits nothing before its recovery time unless a success or reset intervenes |
| CircuitBreaker.RecoveryAdmits | src/coalestra/resilience/circuit_breaker.py:121-136 | while an open circuit sees only refused calls and abandoned or skipped ones it stays as it is, and a call is admitted exactly from its recovery time on |
| CircuitBreaker.ProbeEnds | src/coalestra/resilience/circuit_breaker.py:138-240 | the first outcome after an admitted probe: success or reset closes the circuit, failure or abandonment reopens it from that moment, a skipped call lets the next one through |
| CircuitBreaker.AdmitsMeans | src/coalestra/resilience/circuit_breaker.py:121-136 | a closed circuit admits every call, a half open one only without a running probe |
| CircuitBreaker.Breaker.BeforeCall | src/coalestra/resilience/circuit_breaker.py:105-136 | admits as the circuit's state and clock say and moves no other circuit |
| CircuitBreaker.Breaker.RecordSuccess | src/coalestra/resilience/circuit_breaker.py:138-159 | a success closes the circuit and clears its failures and probe |
| CircuitBreaker.Breaker.RecordSkipped | src/coalestra/resilience/circuit_breaker.py:217-240 | a call without an outcome only clears the probe mark |
| CircuitBreaker.Breaker.ResetOne | src/coalestra/resilience/circuit_breaker.py:275-293 | a reset forgets one circuit and no other |
| CircuitBreaker.Breaker.ResetAll | src/coalestra/resilience/circuit_breaker.py:275-286 | a full reset forgets every circuit |
| CircuitBreaker.Breaker.RecordFailure | src/coalestra/resilience/circuit_breaker.py:161-186 | counts the failure and opens the circuit at the threshold or from half open |
| CircuitBreaker.Breaker.RecordAbandoned | src/coalestra/resilience/circuit_breaker.py:188-215 | a cancelled probe reopens the circuit |

## Left out

- Payload copying, metadata, metrics, events, diagnostics text and health reports: payloads are opaque and copies are the identity.
- Adapters, the synchronous facade, lifecycle closing, constructor validation, protocols, capabilities and error rendering: plumbing and flat branching.
- Background refresh: a stale value served while revalidating schedules a refresh in the source; the model serves the value and schedules nothing.
- Retries, timeouts and capacity inside one source call: a source's answer is one outcome; the circuit breaker, capacity and dispatch are modelled as protocols of their own.
- Resolver.SnapshotBuilder.ResolveMany: execution is sequential, so it never waits for another caller's flight; concurrent callers are covered by SingleFlight, and progress across overlapping flights is not claimed.
- Resolver.SnapshotBuilder.ResolveMany: the universe of keys is finite and closed under declared dependencies; over an infinite declaration the recursion need not end.
- Resolver.SnapshotBuilder.ResolveMany: what a key that is neither pinned nor served ends with is stated as a function of its inputs for direct sources; with derived sources Resolver.SnapshotBuilder.ResolveOwned ties every result to the logged answers, and the batch law is not claimed, because deriving one key can pin another.
- Resolver.SnapshotBuilder.ReadCache: one reading of the clock serves a whole request; values from sources carry their own instants.
- Session.SnapshotSession.Resolve: resources and errors are not claimed to be disjoint, because a deadline in a non-strict stage can leave a key in both.
- Session.SnapshotSession.Revalidate: pinned values that a pass of the fallback reached outside the closure are not claimed to stay, because FallbackWitness.RetainedCanBeReached shows that they need not.
- Batches.BatchAloneExactly: whether the entry is still there is computed from the writes of the earlier sources; a closed formula over the first state is given as a sufficient condition only, because an entry pushed out earlier can turn an ignored write into a stored one.
- Publisher.PublishMany: the write path for caches without atomic batch writes is not modelled.
- CacheAccess.FilterInvalidDependencies: the cache does not change between its reads; the write paths for caches without atomic batch writes are not modelled.
- CacheRuns.ReadServesExactly: the answers of one read depend on the order of its keys, because refused entries are removed as they are met.
- CircuitBreaker.ProbesSeparated: at most one running probe is not claimed, because outcomes of calls admitted earlier clear the probe mark.
- CopyPool: copying inline, without threads, uses no slots and is not modelled; cancellation of a worker task itself is assumed not to happen.
- SingleFlight: cancellation of a producer in the middle of completing is assumed not to happen.
- Resource keys are compared by their fields; their string rendering, which is not injective, appears only as a circuit identity that the caller supplies.
- Floating-point rounding, jitter and the generation of unique versions.
