/** What a resolution declares, reports, keeps and changes, apart from the order in which it does so. */
module Resolution {
  import opened Core
  import opened WriteOrder
  import opened DependencyGraph
  import opened MemoryCache
  import opened Sources
  import opened KeyLists

  // ---- Declared dependencies and truthful errors -------------------------------------------

  /** Some derived source declares that `k` is derived from `d`. */
  ghost predicate Declares(w: World, k: Key, d: Key) {
    exists s :: s in w.sources && s.kind == Derived && w.declared(s.name, k).Some? && d in w.declared(s.name, k).value
  }

  /** Each key of the path is declared as derived from the next one. */
  ghost predicate DeclaredPath(w: World, path: seq<Key>) {
    forall i :: 0 <= i < |path| - 1 ==> Declares(w, path[i], path[i + 1])
  }

  ghost predicate DeclaredCycle(w: World, cycle: seq<Key>) {
    |cycle| >= 2 && cycle[0] == cycle[|cycle| - 1] && DeclaredPath(w, cycle)
  }

  /** The settings of one resolution: excluded sources and whether results reach the shared cache. */
  datatype Scope = Scope(excluded: map<Key, set<string>>, cacheSource: bool, cacheStale: bool) {
    function ExcludedFor(k: Key): set<string> {
      if k in excluded then excluded[k] else {}
    }
  }

  /** The keys a source declares a resource to be derived from; a direct source declares none. */
  ghost function DeclaredKeys(w: World, s: Source, k: Key): set<Key> {
    if s.kind == Derived && w.declared(s.name, k).Some? then Elems(w.declared(s.name, k).value) else {}
  }

  /** Values of exactly the resources that the source declares, each under its own key. */
  ghost predicate Inputs(w: World, s: Source, k: Key, values: Entries) {
    values.Keys == DeclaredKeys(w, s, k) && WellFiled(values)
  }

  /** Every recorded version is that of a value. */
  ghost predicate VersionedBy(deps: seq<Dependency>, values: Entries) {
    forall d :: d in deps ==> d.key in values && values[d.key].version == d.version
  }

  /** Why a derived source failed for a resource. */
  ghost predicate DerivedGrounds(w: World, s: Source, k: Key, cause: Cause) {
    match cause
    case Faulted(fault) =>
      || (w.declared(s.name, k).None? && fault == Raised("dependencies"))
      || (!w.Unhurried() && fault == DeadlineExceeded)
      || exists values: Entries, n: nat ::
           Inputs(w, s, k, values) && w.derive(s.name, k, values, n) == Declined(fault)
    case CycleFound(cycle) => cycle != [] && cycle[0] in DeclaredKeys(w, s, k)
    case DependenciesFailed(errors) => errors != map[] && errors.Keys <= DeclaredKeys(w, s, k)
    case FutureTimestamp =>
      exists values: Entries, n: nat :: DerivesAs(w, s, k, values, n, Fails(Failure(s.name, FutureTimestamp)))
    case StaleData => exists values: Entries, n: nat, v: Value :: DerivesAs(w, s, k, values, n, Aged(v))
  }

  /** What the source makes of these dependencies is judged like this, apart from the versions it records. */
  ghost predicate DerivesAs(w: World, s: Source, k: Key, values: Entries, n: nat, verdict: Verdict) {
    var answer := w.derive(s.name, k, values, n);
    && Inputs(w, s, k, values) && answer.Delivered?
    && Judge(w.rules, k, s.name, Succeeded(answer.delivery, [])) == verdict
  }

  /** The failure is what the source has to say about the resource. */
  ghost predicate Grounds(w: World, scope: Scope, s: Source, k: Key, f: Failure) {
    var screening := Screen(w, s, k, scope.ExcludedFor(k));
    && f.source == s.name
    && (screening.Barred? ==> f == screening.failure)
    && (screening.Ask? && s.kind == Direct ==> FailureOf(VerdictOf(w, s, k, scope.ExcludedFor(k))) == [f])
    && (screening.Ask? && s.kind == Derived ==> DerivedGrounds(w, s, k, f.cause))
  }

  /** The source was passed over for the resource, or one of the failures is what it had to say. */
  ghost predicate AccountsFor(w: World, scope: Scope, s: Source, k: Key, failures: seq<Failure>) {
    Screen(w, s, k, scope.ExcludedFor(k)).Skipped? || exists f :: f in failures && Grounds(w, scope, s, k, f)
  }

  /**
    The error of a resource accounts for every source that was not passed over, and so do the errors of dependencies
    nested in it, however deeply; every cycle it speaks of is declared.
   */
  ghost predicate Truthful(w: World, scope: Scope, e: Unresolved)
    decreases e
  {
    && (forall s :: s in w.sources ==> AccountsFor(w, scope, s, e.key, e.failures))
    && forall f :: f in e.failures ==> TruthfulCause(w, scope, f.cause)
  }

  ghost predicate TruthfulCause(w: World, scope: Scope, cause: Cause)
    decreases cause
  {
    && (cause.CycleFound? ==> DeclaredCycle(w, cause.cycle))
    && (cause.DependenciesFailed? ==>
          forall k :: k in cause.errors ==> cause.errors[k].key == k && Truthful(w, scope, cause.errors[k]))
  }

  ghost predicate CycleFree(e: Unresolved)
    decreases e
  {
    forall f :: f in e.failures ==> CycleFreeCause(f.cause)
  }

  ghost predicate CycleFreeCause(cause: Cause)
    decreases cause
  {
    && !cause.CycleFound?
    && (cause.DependenciesFailed? ==> forall k :: k in cause.errors ==> CycleFree(cause.errors[k]))
  }

  ghost predicate Acyclic(w: World) {
    forall cycle :: !DeclaredCycle(w, cycle)
  }

  /** Acyclic declarations never lead to a reported cycle. */
  lemma {:induction false} AcyclicReportsNoCycle(w: World, scope: Scope, e: Unresolved)
    requires Acyclic(w) && Truthful(w, scope, e)
    ensures CycleFree(e)
    decreases e
  {
    forall f | f in e.failures ensures CycleFreeCause(f.cause) {
      if f.cause.DependenciesFailed? {
        forall k | k in f.cause.errors ensures CycleFree(f.cause.errors[k]) {
          AcyclicReportsNoCycle(w, scope, f.cause.errors[k]);
        }
      }
    }
  }

  /** The cycle reported when a declared dependency is already on the path. */
  lemma CycleOnPath(w: World, path: seq<Key>, d: Key, start: nat)
    requires DeclaredPath(w, path) && start < |path| && path[start] == d
    requires Declares(w, path[|path| - 1], d)
    ensures DeclaredCycle(w, path[start..] + [d])
  {
    var cycle := path[start..] + [d];
    forall i | 0 <= i < |cycle| - 1 ensures Declares(w, cycle[i], cycle[i + 1]) {
      if start + i + 1 < |path| {
        assert Declares(w, path[start + i], path[start + i + 1]);
      }
    }
  }

  /**
    Keys to be resolved below a path: inside a finite set that declarations do not leave, not on the
    path, and derived from by its last key.
   */
  ghost predicate Placed(w: World, universe: set<Key>, path: seq<Key>, keys: seq<Key>) {
    && NoDuplicates(path)
    && DeclaredPath(w, path)
    && Elems(path) <= universe
    && forall k :: k in keys ==> k in universe && k !in path && (path != [] ==> Declares(w, path[|path| - 1], k))
  }

  ghost predicate Enclosed(w: World, universe: set<Key>) {
    forall k, d :: k in universe && Declares(w, k, d) ==> d in universe
  }

  /** The dependencies of a placed key are placed below it, unless one of them closes a cycle. */
  lemma PlacedBelow(w: World, universe: set<Key>, path: seq<Key>, k: Key, deps: seq<Key>)
    requires Placed(w, universe, path, [k]) && Enclosed(w, universe)
    requires forall d :: d in deps ==> Declares(w, k, d) && d !in path + [k]
    ensures Placed(w, universe, path + [k], deps)
    ensures universe - Elems(path + [k]) < universe - Elems(path)
  {
    assert k in [k];
    var longer := path + [k];
    forall i | 0 <= i < |longer| - 1 ensures Declares(w, longer[i], longer[i + 1]) {
      if i + 1 < |path| { assert Declares(w, path[i], path[i + 1]); }
    }
    forall x | x in Elems(longer) ensures x in universe {
      if x != k { assert x in Elems(path); }
    }
    assert k in universe - Elems(path) && k !in universe - Elems(longer);
  }

  lemma PlacedSubset(w: World, universe: set<Key>, path: seq<Key>, keys: seq<Key>, fewer: seq<Key>)
    requires Placed(w, universe, path, keys) && forall k :: k in fewer ==> k in keys
    ensures Placed(w, universe, path, fewer)
  {
  }

  // ---- What a resolution keeps -------------------------------------------------------------

  /** Everything a resolution may change: the pinned values, the keys still to be refreshed and the cache. */
  datatype Situation = Situation(memo: Entries, force: set<Key>, store: Store) {
    /** A key still to be refreshed has no pinned value. */
    ghost predicate Sound() {
      force !! memo.Keys && WellFiled(memo) && store.Valid()
    }
  }

  /** The value is what the direct source `i` answers, and if it is fresh no direct source before it has a fresh one. */
  ghost predicate AnsweredBy(w: World, v: Value, excluded: set<string>, i: nat)
    requires i < |w.sources|
  {
    var verdict := VerdictOf(w, w.sources[i], v.key, excluded);
    verdict == Aged(v) || (verdict == Current(v) && NoneCurrentBefore(w, v.key, excluded, i))
  }

  ghost predicate NoneCurrentBefore(w: World, k: Key, excluded: set<string>, i: nat)
    requires i <= |w.sources|
  {
    forall j :: 0 <= j < i && w.sources[j].kind == Direct ==> !VerdictOf(w, w.sources[j], k, excluded).Current?
  }

  /** The value is what the derived source makes of values of its dependencies, whose versions it records. */
  ghost predicate DerivedBy(w: World, s: Source, v: Value) {
    exists values: Entries, n: nat ::
      && Inputs(w, s, v.key, values) && VersionedBy(v.deps, values)
      && w.derive(s.name, v.key, values, n).Delivered?
      && Receive(w.rules, v.key, s.name, w.derive(s.name, v.key, values, n).delivery, v.deps) == Some(v)
  }

  ghost predicate ObtainedAt(w: World, scope: Scope, v: Value, i: int) {
    && 0 <= i < |w.sources|
    && var s, excluded := w.sources[i], scope.ExcludedFor(v.key);
    && s.name == v.source && Screen(w, s, v.key, excluded).Ask? && !v.fromCache
    && v.rank == w.rules.rank(v.key, s.name) && v.DepKeys() == DeclaredKeys(w, s, v.key)
    && (s.kind == Direct ==> AnsweredBy(w, v, excluded, i))
    && (s.kind == Derived ==> DerivedBy(w, s, v))
  }

  /** The value was obtained from a source that is open for its key: supported and not excluded. */
  ghost predicate FromOpenSource(w: World, scope: Scope, v: Value) {
    exists i :: ObtainedAt(w, scope, v, i)
  }

  /** The value records exactly what a source that supports its key declares. */
  ghost predicate AsDeclared(w: World, v: Value) {
    exists s ::
      && s in w.sources
      && s.name == v.source
      && w.supports(s.name, v.key) == Supported
      && v.DepKeys() == DeclaredKeys(w, s, v.key)
  }

  ghost predicate StoreDeclared(w: World, entries: Entries) {
    forall k :: k in entries ==> AsDeclared(w, entries[k])
  }

  /** No cached value outranks what a source gives, and all sources rank alike. */
  ghost predicate Level(w: World, entries: Entries) {
    && (forall k, s :: k in entries && s in w.sources ==> entries[k].rank <= w.rules.rank(k, s.name))
    && (forall k, s, t :: s in w.sources && t in w.sources ==> w.rules.rank(k, s.name) == w.rules.rank(k, t.name))
  }

  lemma OpenIsDeclared(w: World, scope: Scope, v: Value)
    requires FromOpenSource(w, scope, v)
    ensures AsDeclared(w, v)
    ensures exists s ::
      && s in w.sources && s.name == v.source
      && v.rank == w.rules.rank(v.key, s.name) && s.name !in scope.ExcludedFor(v.key)
    ensures !v.fromCache
  {
    hide AnsweredBy, DerivedBy;
    var i :| ObtainedAt(w, scope, v, i);
    assert w.sources[i] in w.sources;
  }

  ghost predicate Unwritten(a: Store, b: Store) {
    SubEntries(b.entries, a.entries) && b.changes.sets == a.changes.sets
  }

  /**
    What holds between the beginning of a resolution and any later moment of it: pinned values stay, a key
    stops being due for refresh only by getting a value, and when sources may not reach the cache that
    value is from a source not excluded for it and, if stale results may not either, nothing is written.
   */
  ghost predicate Progress(w: World, scope: Scope, a: Situation, b: Situation) {
    && (forall k :: k in a.memo ==> k in b.memo && b.memo[k] == a.memo[k])
    && b.force <= a.force
    && (forall k :: k in a.force && k !in b.force ==> k in b.memo)
    && (!scope.cacheSource || Level(w, a.store.entries) ==>
          forall k :: k in a.force && k in b.memo ==> FromOpenSource(w, scope, b.memo[k]))
    && (!scope.cacheSource && !scope.cacheStale ==> Unwritten(a.store, b.store))
    && Origins(w, a, b)
  }

  /**
    Where pinned values come from: what was pinned meanwhile records pinned values only, unless it was served from
    the cache; and if every cached value records what is declared, so does everything that is pinned or cached.
   */
  ghost predicate Origins(w: World, a: Situation, b: Situation) {
    && (forall k :: k in b.memo && k !in a.memo ==> b.memo[k].fromCache || b.memo[k].DepKeys() <= b.memo.Keys)
    && (StoreDeclared(w, a.store.entries) ==>
          StoreDeclared(w, b.store.entries) && forall k :: k in b.memo && k !in a.memo ==> AsDeclared(w, b.memo[k]))
    && (Level(w, a.store.entries) ==> Level(w, b.store.entries))
  }

  /** These values are pinned. */
  ghost predicate PinnedAs(memo: Entries, values: Entries) {
    forall k :: k in values ==> k in memo && memo[k] == values[k]
  }

  /** Pinned values stay, and nothing becomes due for refresh. */
  lemma ProgressPins(w: World, scope: Scope, a: Situation, b: Situation)
    requires Progress(w, scope, a, b)
    ensures PinnedAs(b.memo, a.memo) && b.force <= a.force
  {
  }

  lemma ProgressReflexive(w: World, scope: Scope, a: Situation)
    requires a.Sound()
    ensures Progress(w, scope, a, a)
  {
  }

  lemma ProgressTransitive(w: World, scope: Scope, a: Situation, b: Situation, c: Situation)
    requires a.Sound() && Progress(w, scope, a, b) && Progress(w, scope, b, c)
    ensures Progress(w, scope, a, c)
  {
    hide FromOpenSource, Store.Valid, WellFiled, Origins, Level;
    assert Level(w, a.store.entries) ==> Level(w, b.store.entries) by { OriginsLevel(w, a, b); }
    OriginsTransitive(w, a, b, c);
  }

  lemma OriginsLevel(w: World, a: Situation, b: Situation)
    requires Origins(w, a, b)
    ensures Level(w, a.store.entries) ==> Level(w, b.store.entries)
    ensures StoreDeclared(w, a.store.entries) ==> StoreDeclared(w, b.store.entries)
  {
  }

  lemma OriginsTransitive(w: World, a: Situation, b: Situation, c: Situation)
    requires Origins(w, a, b) && Origins(w, b, c) && forall k :: k in b.memo ==> k in c.memo && c.memo[k] == b.memo[k]
    ensures Origins(w, a, c)
  {
    hide AsDeclared, StoreDeclared, Level;
  }

  /**
    The value may be pinned: it is cached or records pinned values, and it records what is declared if the cache does.
   */
  ghost predicate Rooted(w: World, a: Situation, memo: Entries, v: Value) {
    && (v.fromCache || v.DepKeys() <= memo.Keys)
    && (StoreDeclared(w, a.store.entries) ==> AsDeclared(w, v))
  }

  /** Pinning a value for a key that was not pinned at the beginning. */
  lemma ProgressPin(w: World, scope: Scope, a: Situation, b: Situation, v: Value)
    requires b.Sound() && Progress(w, scope, a, b) && v.key !in a.memo && Rooted(w, a, b.memo, v)
    requires (!scope.cacheSource || Level(w, a.store.entries)) && v.key in a.force ==> FromOpenSource(w, scope, v)
    ensures var c := b.(memo := b.memo[v.key := v], force := b.force - {v.key});
            c.Sound() && Progress(w, scope, a, c)
  {
    hide FromOpenSource, Store.Valid, Level, AsDeclared, StoreDeclared;
    var c := b.(memo := b.memo[v.key := v], force := b.force - {v.key});
    forall k | k in c.memo && k !in a.memo ensures c.memo[k].fromCache || c.memo[k].DepKeys() <= c.memo.Keys {
      assert b.memo.Keys <= c.memo.Keys;
    }
  }

  /** A change of the cache that keeps what its entries are known for. */
  ghost predicate KeepsKind(w: World, before: Entries, after: Entries) {
    && (StoreDeclared(w, before) ==> StoreDeclared(w, after))
    && (Level(w, before) ==> Level(w, after))
  }

  lemma FewerKeepKind(w: World, before: Entries, after: Entries)
    requires SubEntries(after, before)
    ensures KeepsKind(w, before, after)
  {
    hide AsDeclared;
  }

  /** Any change of the cache, when results are allowed to reach it. */
  lemma ProgressStore(w: World, scope: Scope, a: Situation, b: Situation, store: Store)
    requires b.Sound() && Progress(w, scope, a, b) && store.Valid()
    requires scope.cacheSource || scope.cacheStale || Unwritten(b.store, store)
    requires KeepsKind(w, b.store.entries, store.entries)
    ensures var c := b.(store := store);
            c.Sound() && Progress(w, scope, a, c)
  {
    hide FromOpenSource, Store.Valid, Level, AsDeclared, StoreDeclared;
  }

  // ---- The desk: what the source loop has gathered for its keys -----------------------------

  datatype Desk = Desk(failures: map<Key, seq<Failure>>, best: Entries, settled: Entries) {
    function At(k: Key): Standing
      requires k in failures
    {
      if k in settled then Settled(settled[k]) else Open(failures[k], Lookup(best, k))
    }

    ghost predicate For(keys: seq<Key>) {
      && failures.Keys == Elems(keys)
      && settled.Keys <= failures.Keys
      && WellFiled(settled) && WellFiled(best)
    }

    /** A key is settled on the value pinned for it, failures are truthful, stale values are admissible. */
    ghost predicate Honest(w: World, scope: Scope, memo: Entries) {
      && (forall k :: k in settled ==> k in memo && memo[k] == settled[k])
      && (forall k, f :: k in failures && f in failures[k] ==> TruthfulCause(w, scope, f.cause))
      && (forall k :: k in best ==> FromOpenSource(w, scope, best[k]) && best[k].DepKeys() <= memo.Keys)
    }
  }

  /** The desk after one key's verdict. */
  function Record(r: Rules, desk: Desk, k: Key, verdict: Verdict): Desk
    requires k in desk.failures
  {
    match verdict
    case Passed => desk
    case Fails(f) => desk.(failures := desk.failures[k := desk.failures[k] + [f]])
    case Aged(v) =>
      var best := BetterStale(r, Lookup(desk.best, k), v);
      desk.(failures := desk.failures[k := desk.failures[k] + [Failure(v.source, StaleData)]],
            best := if best.Some? then desk.best[k := best.value] else desk.best)
    case Current(v) => desk.(settled := desk.settled[k := v])
  }

  /** Recording advances the standing of its key and of no other. */
  lemma RecordAdvances(r: Rules, desk: Desk, keys: seq<Key>, k: Key, verdict: Verdict, now: real)
    requires desk.For(keys) && k in keys && k !in desk.settled
    requires verdict.Aged? || verdict.Current? ==> verdict.value.key == k
    ensures var d := Record(r, desk, k, verdict);
            && d.For(keys)
            && (!verdict.Current? ==> d.settled == desk.settled)
            && (forall x :: x in d.settled ==> x in desk.settled || x == k)
            && d.At(k) == Advance(r, desk.At(k), verdict, None, false, now)
            && forall x :: x in keys && x != k ==> d.At(x) == desk.At(x)
  {
  }

  lemma SettledStays(r: Rules, desk: Desk, k: Key, verdict: Verdict, now: real)
    requires k in desk.failures && k in desk.settled
    ensures Advance(r, desk.At(k), verdict, None, false, now) == desk.At(k)
  {
  }

  lemma RecordHonest(w: World, scope: Scope, memo: Entries, desk: Desk, keys: seq<Key>, k: Key, verdict: Verdict)
    requires desk.For(keys) && k in keys && k !in desk.settled && desk.Honest(w, scope, memo)
    requires verdict.Fails? ==> TruthfulCause(w, scope, verdict.failure.cause)
    requires verdict.Aged? || verdict.Current? ==> FromOpenSource(w, scope, verdict.value)
    requires verdict.Aged? ==> verdict.value.DepKeys() <= memo.Keys
    ensures var d := Record(w.rules, desk, k, verdict);
            d.Honest(w, scope, if verdict.Current? then memo[k := verdict.value] else memo)
  {
    hide FromOpenSource;
    if verdict.Aged? {
      assert TruthfulCause(w, scope, StaleData);
    }
  }

  /** Honesty only depends on pinned values that stay. */
  lemma HonestLater(w: World, scope: Scope, desk: Desk, before: Entries, after: Entries)
    requires desk.Honest(w, scope, before)
    requires forall k :: k in before ==> k in after && after[k] == before[k]
    ensures desk.Honest(w, scope, after)
  {
    hide FromOpenSource, TruthfulCause;
    assert before.Keys <= after.Keys;
  }

  /** The desk with the open keys settled that have a pinned value. */
  ghost function PickedUp(desk: Desk, keys: seq<Key>, memo: Entries): Desk {
    desk.(settled := desk.settled + map k | k in keys && k !in desk.settled && k in memo :: memo[k])
  }

  lemma PickedUpAt(w: World, scope: Scope, desk: Desk, keys: seq<Key>, memo: Entries)
    requires desk.For(keys) && WellFiled(memo) && desk.Honest(w, scope, memo)
    ensures var d := PickedUp(desk, keys, memo);
            && d.For(keys) && d.Honest(w, scope, memo)
            && forall k :: k in keys ==> d.At(k) == PickUp(desk.At(k), Lookup(memo, k))
  {
    hide FromOpenSource, TruthfulCause;
  }

  // ---- Derived attempts ---------------------------------------------------------------------

  /** The outcome of resolving a batch: the deadline passed, or every key has a value or an error. */
  datatype Resolved = DeadlinePassed | Resolved(values: Entries, errors: map<Key, Unresolved>)

  /** The versions of the values a derivation is given. */
  function VersionsOf(keys: seq<Key>, values: Entries): (deps: seq<Dependency>)
    requires forall k :: k in keys ==> k in values
    ensures |deps| == |keys| && forall i :: 0 <= i < |keys| ==> deps[i] == Dependency(keys[i], values[keys[i]].version)
  {
    seq(|keys|, i requires 0 <= i < |keys| => Dependency(keys[i], values[keys[i]].version))
  }

  /** The first declared dependency that is already on the path. */
  function FirstOnPath(deps: seq<Key>, path: seq<Key>): (r: Option<Key>)
    ensures r.Some? ==> r.value in deps && r.value in path
    ensures r.None? ==> forall d :: d in deps ==> d !in path
  {
    if deps == [] then None
    else if deps[0] in path then Some(deps[0])
    else FirstOnPath(deps[1..], path)
  }

  ghost predicate Covers(declared: Option<seq<Key>>, found: Resolved) {
    declared.Some? && found.Resolved? ==> found.values.Keys + found.errors.Keys == Elems(declared.value)
  }

  /**
    What a derived source's attempt comes to, given how its dependencies were resolved and when it was asked to derive.
   */
  function DerivedAttempt(w: World, source: Source, key: Key, ancestry: seq<Key>, found: Resolved, moment: nat): Attempt
    requires Covers(w.declared(source.name, key), found)
  {
    var declared := w.declared(source.name, key);
    if declared.None? then Failed(Faulted(Raised("dependencies")))
    else
      var deps, path := Distinct(declared.value), ancestry + [key];
      var closing := FirstOnPath(deps, path);
      if closing.Some? then Failed(CycleFound(path[IndexOf(path, closing.value)..] + [closing.value]))
      else match found
        case DeadlinePassed => Failed(Faulted(DeadlineExceeded))
        case Resolved(values, errors) =>
          if errors != map[] then Failed(DependenciesFailed(errors))
          else
            assert errors.Keys == {};
            match w.derive(source.name, key, values, moment)
            case Declined(fault) => Failed(Faulted(fault))
            case Delivered(d) => Succeeded(d, VersionsOf(deps, values))
  }

  /**
    The attempt is what the source made of the resolution of its dependencies, whose values are the pinned ones;
    without a deadline they were resolved. A refusal of the source's circuit is one of the answers it may give.
   */
  ghost predicate Derivation(w: World, source: Source, key: Key, ancestry: seq<Key>, memo: Entries, attempt: Attempt) {
    exists found, moment ::
      && Covers(w.declared(source.name, key), found)
      && (w.Unhurried() ==> found.Resolved?)
      && (FirstOnPathOf(w, source, key, ancestry).None? && found.Resolved? ==>
            forall k :: k in found.values ==> k in memo && memo[k] == found.values[k])
      && attempt == DerivedAttempt(w, source, key, ancestry, found, moment)
  }

  /** The first declared dependency of a key that closes a cycle with the path to it. */
  function FirstOnPathOf(w: World, source: Source, key: Key, ancestry: seq<Key>): Option<Key> {
    var declared := w.declared(source.name, key);
    if declared.None? then None else FirstOnPath(Distinct(declared.value), ancestry + [key])
  }

  lemma DerivationLater(w: World, source: Source, key: Key, ancestry: seq<Key>, before: Entries, after: Entries,
                        attempt: Attempt)
    requires Derivation(w, source, key, ancestry, before, attempt)
    requires forall k :: k in before ==> k in after && after[k] == before[k]
    ensures Derivation(w, source, key, ancestry, after, attempt)
  {
    hide DerivedAttempt, FirstOnPath, Covers;
  }

  /**
    The attempt is the source's own. A direct source was asked. A derived one was handed the pinned values of exactly
    the
    resources it declares, unless it failed before: its delivery is what it made of these, the deps are their versions,
    and a fault is its answer to them.
   */
  ghost predicate Sourced(w: World, s: Source, k: Key, memo: Entries, attempt: Attempt) {
    && (s.kind == Direct ==> attempt == Asked(w.answer(s.name, k)))
    && (s.kind == Derived && attempt.Failed? ==> DerivedGrounds(w, s, k, attempt.cause))
    && (s.kind == Derived && attempt.Failed? && attempt.cause.Faulted? ==> Declines(w, s, k, memo, attempt.cause.fault))
    && (s.kind == Derived && attempt.Succeeded? ==> Delivers(w, s, k, memo, attempt.delivery, attempt.deps))
    && (attempt.Succeeded? ==> (set d | d in attempt.deps :: d.key) == DeclaredKeys(w, s, k) <= memo.Keys)
  }

  /** The derived source delivers, handed the pinned values of its dependencies. */
  ghost predicate Delivers(w: World, s: Source, k: Key, memo: Entries, delivery: Delivery, deps: seq<Dependency>) {
    exists values: Entries, n: nat ::
      && Inputs(w, s, k, values) && PinnedAs(memo, values) && VersionedBy(deps, values)
      && w.derive(s.name, k, values, n) == Delivered(delivery)
  }

  /**
    The fault is that nothing is declared, the deadline, or the source's answer to the pinned values of its
    dependencies.
   */
  ghost predicate Declines(w: World, s: Source, k: Key, memo: Entries, fault: Fault) {
    || (w.declared(s.name, k).None? && fault == Raised("dependencies"))
    || (!w.Unhurried() && fault == DeadlineExceeded)
    || exists values: Entries, n: nat ::
         Inputs(w, s, k, values) && PinnedAs(memo, values) && w.derive(s.name, k, values, n) == Declined(fault)
  }

  lemma SourcedLater(w: World, s: Source, k: Key, before: Entries, after: Entries, attempt: Attempt)
    requires Sourced(w, s, k, before, attempt) && PinnedAs(after, before)
    ensures Sourced(w, s, k, after, attempt)
  {
    hide DerivedGrounds, Inputs, VersionedBy;
    assert before.Keys <= after.Keys;
    if s.kind == Derived && attempt.Succeeded? {
      var values: Entries, n: nat :|
        && Inputs(w, s, k, values) && PinnedAs(before, values) && VersionedBy(attempt.deps, values)
        && w.derive(s.name, k, values, n) == Delivered(attempt.delivery);
      assert PinnedAs(after, values);
    }
    if s.kind == Derived && attempt.Failed? && attempt.cause.Faulted? {
      DeclinesLater(w, s, k, before, after, attempt.cause.fault);
    }
  }

  lemma DeclinesLater(w: World, s: Source, k: Key, before: Entries, after: Entries, fault: Fault)
    requires Declines(w, s, k, before, fault) && PinnedAs(after, before)
    ensures Declines(w, s, k, after, fault)
  {
    hide Inputs, World.Unhurried;
    if values: Entries, n: nat :|
      Inputs(w, s, k, values) && PinnedAs(before, values) && w.derive(s.name, k, values, n) == Declined(fault)
    {
      assert PinnedAs(after, values);
    }
  }

  // ---- Plenty: when nothing can fail ----------------------------------------------------------

  /** The source is open for the key and always has a fresh value for it. */
  ghost predicate Plenty(w: World, scope: Scope, s: Source, k: Key) {
    && Screen(w, s, k, scope.ExcludedFor(k)).Ask?
    && (s.kind == Direct ==> Judge(w.rules, k, s.name, Asked(w.answer(s.name, k))).Current?)
    && (s.kind == Derived ==> w.declared(s.name, k).Some? && AlwaysDerives(w, s, k))
  }

  ghost predicate AlwaysDerives(w: World, s: Source, k: Key) {
    forall values: Entries, n: nat ::
      w.derive(s.name, k, values, n).Delivered? && Judge(w.rules, k, s.name,
                                                         Succeeded(w.derive(s.name, k, values, n).delivery,
                                                                   [])).Current?
  }

  /**
    The deadline never passes, and a set that declarations neither leave nor cycle through has plenty for each of its
    keys.
   */
  ghost predicate Bounty(w: World, scope: Scope, keys: set<Key>) {
    && w.Unhurried() && Enclosed(w, keys)
    && (forall cycle :: DeclaredCycle(w, cycle) ==> cycle[0] !in keys)
    && forall k :: k in keys ==> exists s :: s in w.sources && Plenty(w, scope, s, k)
  }

  /** A source with plenty can only fail because its dependencies do or because they close a cycle. */
  lemma PlentyLeaves(w: World, scope: Scope, s: Source, k: Key, f: Failure)
    requires Plenty(w, scope, s, k) && Grounds(w, scope, s, k, f) && w.Unhurried()
    ensures s.kind == Derived && (f.cause.CycleFound? || f.cause.DependenciesFailed?)
    ensures DerivedGrounds(w, s, k, f.cause)
  {
    if s.kind == Derived {
      assert AlwaysDerives(w, s, k);
    }
  }

  lemma DeclaredInside(w: World, keys: set<Key>, s: Source, k: Key)
    requires Enclosed(w, keys) && k in keys && s in w.sources
    ensures DeclaredKeys(w, s, k) <= keys
  {
    forall d | d in DeclaredKeys(w, s, k) ensures d in keys {
      assert Declares(w, k, d);
    }
  }

  /** Where there is bounty no error is truthful. */
  lemma {:induction false} BountyRefutes(w: World, scope: Scope, keys: set<Key>, e: Unresolved)
    requires Bounty(w, scope, keys) && e.key in keys
    ensures !Truthful(w, scope, e)
    decreases e
  {
    hide World.Unhurried, DeclaredCycle, Plenty, Grounds, Enclosed, DeclaredKeys, Screen;
    if Truthful(w, scope, e) {
      var s :| s in w.sources && Plenty(w, scope, s, e.key);
      PlentyIsOpen(w, scope, s, e.key);
      assert AccountsFor(w, scope, s, e.key, e.failures);
      var f :| f in e.failures && Grounds(w, scope, s, e.key, f);
      PlentyLeaves(w, scope, s, e.key, f);
      DeclaredInside(w, keys, s, e.key);
      assert TruthfulCause(w, scope, f.cause);
      if f.cause.DependenciesFailed? {
        assert f.cause.errors.Keys != {};
        var d :| d in f.cause.errors;
        BountyRefutes(w, scope, keys, f.cause.errors[d]);
      }
    }
  }

  lemma PlentyIsOpen(w: World, scope: Scope, s: Source, k: Key)
    requires Plenty(w, scope, s, k)
    ensures Screen(w, s, k, scope.ExcludedFor(k)).Ask?
  {
  }
}
