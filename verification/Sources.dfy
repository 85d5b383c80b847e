/**
  Sources as resolution sees them, and the priority chain of one resource: what a resource ends up
  with when its sources are asked in order, stated once as a fold and once as a choice.
 */
module Sources {
  import opened Core
  import opened WriteOrder

  // ---- Failures ---------------------------------------------------------------------------

  /** What a call into a source can end with instead of a payload. */
  datatype Fault = Raised(message: string) | DeadlineExceeded

  datatype Cause =
    | Faulted(fault: Fault)
    | FutureTimestamp
    | StaleData
    | CycleFound(cycle: seq<Key>)
    | DependenciesFailed(errors: map<Key, Unresolved>)

  datatype Failure = Failure(source: string, cause: Cause)

  /** The error of one resource: the failures of its sources in the order they were asked. */
  datatype Unresolved = Unresolved(key: Key, failures: seq<Failure>)

  // ---- Sources ----------------------------------------------------------------------------

  datatype Kind = Direct | Derived

  datatype Source = Source(name: string, kind: Kind)

  datatype Support = Supported | Unsupported | SupportRaised(message: string)

  /** A payload, the source's own timestamp if any, and the instant and version it was given on receipt. */
  datatype Delivery = Delivery(payload: Payload, observedAt: Option<real>, receivedAt: real, version: Version)

  datatype Answer = Delivered(delivery: Delivery) | Declined(fault: Fault)

  datatype Attempt = Succeeded(delivery: Delivery, deps: seq<Dependency>) | Failed(cause: Cause)

  /**
    Everything resolution asks of its surroundings. Sources are in priority order and are asked by name.
    `derive` and `expires` also see how often the surroundings were consulted before, so they may answer
    differently each time.
   */
  datatype World = World(
    sources: seq<Source>,
    supports: (string, Key) -> Support,
    answer: (string, Key) -> Answer,
    declared: (string, Key) -> Option<seq<Key>>,
    derive: (string, Key, Entries, nat) -> Answer,
    expires: nat -> bool,
    rules: Rules)
  {
    predicate AllDirect() {
      forall s :: s in sources ==> s.kind == Direct
    }

    /** The deadline never passes. */
    ghost predicate Unhurried() {
      forall n :: !expires(n)
    }
  }

  datatype Rules = Rules(
    policy: Key -> FreshnessPolicy,
    rank: (Key, string) -> int,
    futureTolerance: real,
    rejectFuture: bool)

  /** The value made of a delivery; a timestamp too far in the future is refused. */
  function Receive(r: Rules, k: Key, source: string, d: Delivery, deps: seq<Dependency>): (v: Option<Value>)
    ensures v.Some? ==> v.value.key == k && v.value.source == source && !v.value.fromCache
  {
    var observed := if d.observedAt.Some? then d.observedAt.value else d.receivedAt;
    if d.observedAt.Some? && r.rejectFuture && observed - d.receivedAt > r.futureTolerance then None
    else
      var age := Max0(d.receivedAt - observed);
      Some(Value(k, d.payload, source, observed, age, r.policy(k).ttl.Exceeded(age), false, r.rank(k, source),
                 d.version, deps))
  }

  /** A stored value as a caller receives it. */
  function CachedCopy(v: Value, stale: bool, now: real): (r: Value)
    ensures r.key == v.key && r.version == v.version && r.deps == v.deps && r.source == v.source
    ensures r.observedAt == v.observedAt
  {
    v.(age := Max0(now - v.observedAt), stale := stale, fromCache := true)
  }

  // ---- What one source contributes to one resource ------------------------------------------

  datatype Verdict = Passed | Fails(failure: Failure) | Aged(value: Value) | Current(value: Value)

  /** How an attempt's outcome is taken. */
  function Judge(r: Rules, k: Key, source: string, attempt: Attempt): (v: Verdict)
    ensures v.Current? || v.Aged? ==> v.value.key == k && v.value.source == source && !v.value.fromCache
    ensures !v.Passed?
  {
    match attempt
    case Failed(cause) => Fails(Failure(source, cause))
    case Succeeded(d, deps) =>
      var received := Receive(r, k, source, d, deps);
      if received.None? then Fails(Failure(source, FutureTimestamp))
      else if received.value.stale then Aged(received.value)
      else Current(received.value)
  }

  function Asked(answer: Answer): Attempt {
    match answer
    case Delivered(d) => Succeeded(d, [])
    case Declined(fault) => Failed(Faulted(fault))
  }

  /** Whether a source is asked for a resource at all; a failing support check is a failure of the source. */
  datatype Screening = Skipped | Barred(failure: Failure) | Ask

  function Screen(w: World, s: Source, k: Key, excluded: set<string>): Screening {
    if s.name in excluded then Skipped
    else match w.supports(s.name, k)
      case Unsupported => Skipped
      case SupportRaised(m) => Barred(Failure(s.name, Faulted(Raised(m))))
      case Supported => Ask
  }

  /** The verdict of a source that is not asked. */
  function Unasked(screening: Screening): Verdict {
    if screening.Barred? then Fails(screening.failure) else Passed
  }

  /** What a source has to say about a resource, given the attempt that is made if it is asked. */
  function VerdictBy(w: World, s: Source, k: Key, excluded: set<string>, attempt: Attempt): Verdict {
    var screening := Screen(w, s, k, excluded);
    if screening.Ask? then Judge(w.rules, k, s.name, attempt) else Unasked(screening)
  }

  /** What a direct source has to say about a resource. */
  function VerdictOf(w: World, s: Source, k: Key, excluded: set<string>): Verdict {
    VerdictBy(w, s, k, excluded, Asked(w.answer(s.name, k)))
  }

  // ---- What a source has to say, by its own answer -----------------------------------------------

  /**
    What becomes of a delivery. It is refused exactly when its own timestamp is further in the future than tolerated;
    otherwise it is current exactly when it was received within its ttl, and its value carries what was delivered.
   */
  lemma DeliveryDecides(r: Rules, k: Key, source: string, d: Delivery, deps: seq<Dependency>)
    ensures var verdict, ttl := Judge(r, k, source, Succeeded(d, deps)), r.policy(k).ttl;
            var observed := if d.observedAt.Some? then d.observedAt.value else d.receivedAt;
            && (verdict.Fails? <==>
                  r.rejectFuture && d.observedAt.Some? && observed - d.receivedAt > r.futureTolerance)
            && (verdict.Fails? ==> verdict == Fails(Failure(source, FutureTimestamp)))
            && (verdict.Current? <==>
                  !verdict.Fails? &&
                  (ttl.Infinite? || (d.receivedAt - observed <= ttl.seconds && 0.0 <= ttl.seconds)))
            && (verdict.Aged? <==> !verdict.Fails? && !verdict.Current?)
            && (!verdict.Fails? ==>
                  var age := if d.receivedAt > observed then d.receivedAt - observed else 0.0;
                  verdict.value ==
                    Value(k, d.payload, source, observed, age, verdict.Aged?, false, r.rank(k, source), d.version,
                          deps))
  {
  }

  /** The source is asked for the resource and delivers something that is not from too far in the future. */
  ghost predicate Delivering(w: World, s: Source, k: Key, excluded: set<string>) {
    && s.name !in excluded && w.supports(s.name, k) == Supported && w.answer(s.name, k).Delivered?
    && var d := w.answer(s.name, k).delivery;
       w.rules.rejectFuture && d.observedAt.Some? ==> d.observedAt.value - d.receivedAt <= w.rules.futureTolerance
  }

  /** When delivered data was observed. */
  ghost function Observed(d: Delivery): real {
    if d.observedAt.Some? then d.observedAt.value else d.receivedAt
  }

  /** The data was observed no longer than the limit before it was received. */
  ghost predicate Within(limit: Limit, d: Delivery) {
    limit.Infinite? || (d.receivedAt - Observed(d) <= limit.seconds && 0.0 <= limit.seconds)
  }

  /** The value made of what the source delivers. */
  ghost function DeliveredValue(w: World, s: Source, k: Key): Value
    requires w.answer(s.name, k).Delivered?
  {
    var d := w.answer(s.name, k).delivery;
    Value(k, d.payload, s.name, Observed(d), if d.receivedAt > Observed(d) then d.receivedAt - Observed(d) else 0.0,
          !Within(w.rules.policy(k).ttl, d), false, w.rules.rank(k, s.name), d.version, [])
  }

  /** The source delivers within the ttl. */
  ghost predicate DeliversFresh(w: World, s: Source, k: Key, excluded: set<string>) {
    Delivering(w, s, k, excluded) && Within(w.rules.policy(k).ttl, w.answer(s.name, k).delivery)
  }

  /** The source delivers beyond the ttl but within the stale limit. */
  ghost predicate DeliversStale(w: World, s: Source, k: Key, excluded: set<string>) {
    && Delivering(w, s, k, excluded) && !Within(w.rules.policy(k).ttl, w.answer(s.name, k).delivery)
    && Within(w.rules.policy(k).maxStale, w.answer(s.name, k).delivery)
  }

  /** The failure of a source, by its own answer. */
  lemma FailureMeans(w: World, s: Source, k: Key, excluded: set<string>)
    ensures var failures, asked := FailureOf(VerdictOf(w, s, k, excluded)), s.name !in excluded;
            && (!asked || w.supports(s.name, k) == Unsupported ==> failures == [])
            && (asked && w.supports(s.name, k).SupportRaised? ==>
                  failures == [Failure(s.name, Faulted(Raised(w.supports(s.name, k).message)))])
            && (asked && w.supports(s.name, k) == Supported && w.answer(s.name, k).Declined? ==>
                  failures == [Failure(s.name, Faulted(w.answer(s.name, k).fault))])
            && (asked && w.supports(s.name, k) == Supported && w.answer(s.name, k).Delivered? ==>
                  failures == if !Delivering(w, s, k, excluded) then [Failure(s.name, FutureTimestamp)]
                              else if DeliversFresh(w, s, k, excluded) then []
                              else [Failure(s.name, StaleData)])
  {
    if w.answer(s.name, k).Delivered? { DeliveryDecides(w.rules, k, s.name, w.answer(s.name, k).delivery, []); }
  }

  lemma VerdictByDelivery(w: World, s: Source, k: Key, excluded: set<string>)
    ensures var verdict := VerdictOf(w, s, k, excluded);
            && (verdict.Current? <==> DeliversFresh(w, s, k, excluded))
            && (verdict.Aged? && Admissible(w.rules, verdict.value) <==> DeliversStale(w, s, k, excluded))
            && (DeliversFresh(w, s, k, excluded) || DeliversStale(w, s, k, excluded) ==>
                  verdict.value == DeliveredValue(w, s, k))
  {
    if w.answer(s.name, k).Delivered? { DeliveryDecides(w.rules, k, s.name, w.answer(s.name, k).delivery, []); }
  }

  // ---- The chain as the loop computes it ---------------------------------------------------

  /** How far one resource has come. */
  datatype Standing = Open(failures: seq<Failure>, best: Option<Value>) | Settled(value: Value)

  predicate Admissible(r: Rules, v: Value) {
    !r.policy(v.key).maxStale.Exceeded(v.age)
  }

  /** The newer of the stale values seen so far; the earlier source keeps a tie. */
  function BetterStale(r: Rules, best: Option<Value>, v: Value): Option<Value> {
    if Admissible(r, v) && (best.None? || v.observedAt > best.value.observedAt) then Some(v) else best
  }

  /** The value a fresh result settles on: the shared cache may hold one of higher authority. */
  function Superseded(stored: Option<Value>, v: Value, writes: bool, now: real): Value {
    if writes && stored.Some? && v.rank < stored.value.rank then CachedCopy(stored.value, false, now) else v
  }

  function Advance(r: Rules, st: Standing, verdict: Verdict, stored: Option<Value>, writes: bool, now: real): Standing {
    if st.Settled? then st
    else match verdict
      case Passed => st
      case Fails(f) => Open(st.failures + [f], st.best)
      case Aged(v) => Open(st.failures + [Failure(v.source, StaleData)], BetterStale(r, st.best, v))
      case Current(v) => Settled(Superseded(stored, v, writes, now))
  }

  /** A resource's standing after its first `n` sources; it starts settled if it was pinned already. */
  function Chain(w: World, k: Key, excluded: set<string>, pinned: Option<Value>, stored: Option<Value>, writes: bool,
                 now: real, n: nat): Standing
    requires n <= |w.sources|
  {
    if n == 0 then Open([], None)
    else
      var st := PickUp(Chain(w, k, excluded, pinned, stored, writes, now, n - 1), pinned);
      Advance(w.rules, st, VerdictOf(w, w.sources[n - 1], k, excluded), stored, writes, now)
  }

  /** The check at the head of every round: a pinned value settles an open resource. */
  function PickUp(st: Standing, pinned: Option<Value>): Standing {
    if st.Open? && pinned.Some? then Settled(pinned.value) else st
  }

  datatype Outcome = Got(value: Value) | Missed(error: Unresolved)

  /** What is left when the sources are exhausted. */
  function Conclude(r: Rules, k: Key, st: Standing, forced: bool): Outcome {
    match st
    case Settled(v) => Got(v)
    case Open(failures, best) =>
      if best.Some? && r.policy(k).allowStaleOnError && !forced then Got(best.value)
      else Missed(Unresolved(k, failures))
  }

  // ---- The chain as a choice ----------------------------------------------------------------

  ghost predicate FirstCurrent(w: World, k: Key, excluded: set<string>, n: nat, i: int) {
    && 0 <= i < n <= |w.sources|
    && VerdictOf(w, w.sources[i], k, excluded).Current?
    && forall j :: 0 <= j < i ==> !VerdictOf(w, w.sources[j], k, excluded).Current?
  }

  /** Source `i` has the newest admissible stale value, and no earlier source has one as new. */
  ghost predicate NewestStale(w: World, k: Key, excluded: set<string>, n: nat, i: int) {
    && 0 <= i < n <= |w.sources|
    && StaleAt(w, k, excluded, i)
    && forall j :: 0 <= j < n && j != i && StaleAt(w, k, excluded, j) ==>
         var mine := VerdictOf(w, w.sources[i], k, excluded).value;
         var other := VerdictOf(w, w.sources[j], k, excluded).value;
         other.observedAt <= mine.observedAt && (j < i ==> other.observedAt < mine.observedAt)
  }

  ghost predicate StaleAt(w: World, k: Key, excluded: set<string>, i: nat)
    requires i < |w.sources|
  {
    var verdict := VerdictOf(w, w.sources[i], k, excluded);
    verdict.Aged? && Admissible(w.rules, verdict.value)
  }

  function FailureOf(verdict: Verdict): seq<Failure> {
    match verdict
    case Fails(f) => [f]
    case Aged(v) => [Failure(v.source, StaleData)]
    case _ => []
  }

  /** The failures of the first `n` sources, in source order. */
  function FailuresOf(w: World, k: Key, excluded: set<string>, n: nat): seq<Failure>
    requires n <= |w.sources|
  {
    if n == 0 then [] else FailuresOf(w, k, excluded, n - 1) + FailureOf(VerdictOf(w, w.sources[n - 1], k, excluded))
  }

  /** The standing says exactly which source decided, which stale value is best and what failed. */
  ghost predicate Decided(w: World, k: Key, excluded: set<string>, stored: Option<Value>, writes: bool, now: real,
                          n: nat, st: Standing)
    requires n <= |w.sources|
  {
    match st
    case Settled(v) =>
      exists i :: FirstCurrent(w, k, excluded, n, i) && v == Superseded(stored,
                                                                        VerdictOf(w, w.sources[i], k, excluded).value,
                                                                        writes, now)
    case Open(failures, best) =>
      && (forall i :: 0 <= i < n ==> !VerdictOf(w, w.sources[i], k, excluded).Current?)
      && failures == FailuresOf(w, k, excluded, n)
      && BestIs(w, k, excluded, n, best)
  }

  lemma FirstCurrentGrows(w: World, k: Key, excluded: set<string>, n: nat, i: int)
    requires FirstCurrent(w, k, excluded, n, i) && n < |w.sources|
    ensures FirstCurrent(w, k, excluded, n + 1, i)
  {
  }

  lemma NewestStaleStep(w: World, k: Key, excluded: set<string>, n: nat, i: int) returns (i': int)
    requires n < |w.sources| && NewestStale(w, k, excluded, n, i)
    ensures NewestStale(w, k, excluded, n + 1, i')
    ensures var verdict := VerdictOf(w, w.sources[n], k, excluded);
            var best := Some(VerdictOf(w, w.sources[i], k, excluded).value);
            Some(VerdictOf(w, w.sources[i'], k, excluded).value) ==
              if verdict.Aged? then BetterStale(w.rules, best, verdict.value) else best
  {
    hide VerdictOf;
    var verdict, mine := VerdictOf(w, w.sources[n], k, excluded), VerdictOf(w, w.sources[i], k, excluded).value;
    i' :=
      if verdict.Aged? && Admissible(w.rules, verdict.value) && verdict.value.observedAt > mine.observedAt then n
      else i;
  }

  /** The loop's standing is the choice: first current source, else newest stale value and all failures. */
  lemma {:induction false} ChainDecides(w: World, k: Key, excluded: set<string>, stored: Option<Value>, writes: bool,
                                        now: real, n: nat)
    requires n <= |w.sources|
    ensures Decided(w, k, excluded, stored, writes, now, n, Chain(w, k, excluded, None, stored, writes, now, n))
  {
    hide VerdictOf, Decided, Advance;
    if n == 0 {
      NothingDecided(w, k, excluded, stored, writes, now);
    } else {
      ChainDecides(w, k, excluded, stored, writes, now, n - 1);
      DecidedStep(w, k, excluded, stored, writes, now, n - 1, Chain(w, k, excluded, None, stored, writes, now, n - 1));
    }
  }

  lemma NothingDecided(w: World, k: Key, excluded: set<string>, stored: Option<Value>, writes: bool, now: real)
    ensures Decided(w, k, excluded, stored, writes, now, 0, Open([], None))
  {
  }

  lemma DecidedStep(w: World, k: Key, excluded: set<string>, stored: Option<Value>, writes: bool, now: real, m: nat,
                    st: Standing)
    requires m < |w.sources| && Decided(w, k, excluded, stored, writes, now, m, st)
    ensures Decided(w, k, excluded, stored, writes, now, m + 1,
                    Advance(w.rules, st, VerdictOf(w, w.sources[m], k, excluded), stored, writes, now))
  {
    hide VerdictOf, Superseded;
    var verdict := VerdictOf(w, w.sources[m], k, excluded);
    match st
    case Settled(v) =>
      var i :| FirstCurrent(w, k, excluded, m, i) && v == Superseded(stored,
                                                                     VerdictOf(w, w.sources[i], k, excluded).value,
                                                                     writes, now);
      FirstCurrentGrows(w, k, excluded, m, i);
    case Open(_, best) =>
      if verdict.Current? {
        FirstCurrentHere(w, k, excluded, m);
      } else {
        StaleStep(w, k, excluded, m, best);
      }
  }

  /** The best stale value stays the newest one. */
  ghost predicate BestIs(w: World, k: Key, excluded: set<string>, n: nat, best: Option<Value>)
    requires n <= |w.sources|
  {
    && (best.Some? ==>
          exists i :: NewestStale(w, k, excluded, n, i) && best == Some(VerdictOf(w, w.sources[i], k, excluded).value))
    && (best.None? ==> forall i :: 0 <= i < n ==> !StaleAt(w, k, excluded, i))
  }

  lemma StaleStep(w: World, k: Key, excluded: set<string>, m: nat, best: Option<Value>)
    requires m < |w.sources| && BestIs(w, k, excluded, m, best)
    ensures var verdict := VerdictOf(w, w.sources[m], k, excluded);
            BestIs(w, k, excluded, m + 1, if verdict.Aged? then BetterStale(w.rules, best, verdict.value) else best)
  {
    hide VerdictOf;
    var verdict := VerdictOf(w, w.sources[m], k, excluded);
    if best.Some? {
      var i :| NewestStale(w, k, excluded, m, i) && best == Some(VerdictOf(w, w.sources[i], k, excluded).value);
      var i' := NewestStaleStep(w, k, excluded, m, i);
    } else if verdict.Aged? && Admissible(w.rules, verdict.value) {
      NewestStaleHere(w, k, excluded, m);
    }
  }

  lemma FirstCurrentHere(w: World, k: Key, excluded: set<string>, m: nat)
    requires m < |w.sources| && VerdictOf(w, w.sources[m], k, excluded).Current?
    requires forall j :: 0 <= j < m ==> !VerdictOf(w, w.sources[j], k, excluded).Current?
    ensures FirstCurrent(w, k, excluded, m + 1, m)
  {
  }

  lemma NewestStaleHere(w: World, k: Key, excluded: set<string>, m: nat)
    requires m < |w.sources| && StaleAt(w, k, excluded, m)
    requires forall j :: 0 <= j < m ==> !StaleAt(w, k, excluded, j)
    ensures NewestStale(w, k, excluded, m + 1, m)
  {
  }

  /** A pinned resource takes its pinned value, as long as there is a source to ask. */
  lemma {:induction false} ChainPinned(w: World, k: Key, excluded: set<string>, pinned: Value, stored: Option<Value>,
                                       writes: bool, now: real, n: nat)
    requires 0 < n <= |w.sources|
    ensures Chain(w, k, excluded, Some(pinned), stored, writes, now, n) == Settled(pinned)
  {
    if n > 1 { ChainPinned(w, k, excluded, pinned, stored, writes, now, n - 1); }
  }

  // ---- The resource by itself ---------------------------------------------------------------

  /** The outcome of the whole chain for one resource: a function of that resource alone. */
  function Settle(w: World, k: Key, excluded: set<string>, pinned: Option<Value>, stored: Option<Value>, writes: bool,
                  forced: bool, now: real): Outcome {
    Conclude(w.rules, k, Chain(w, k, excluded, pinned, stored, writes, now, |w.sources|), forced)
  }

  /**
    The priority law. A pinned resource takes its pinned value. For a resource that is not pinned, the first source with
    a fresh value decides, unless
    the shared cache holds a value of higher authority and would refuse it; without one, the newest
    admissible stale value is used where staleness is allowed and no refresh was forced; otherwise the
    resource fails with every failure in source order.
   */
  lemma PriorityLaw(w: World, k: Key, excluded: set<string>, stored: Option<Value>, writes: bool, forced: bool,
                    now: real)
    ensures var n, r := |w.sources|, Settle(w, k, excluded, None, stored, writes, forced, now);
            && (forall i :: FirstCurrent(w, k, excluded, n, i) ==>
                  r == Got(Superseded(stored, VerdictOf(w, w.sources[i], k, excluded).value, writes, now)))
            && ((forall i :: 0 <= i < n ==> !VerdictOf(w, w.sources[i], k, excluded).Current?) ==>
                  var allowed := w.rules.policy(k).allowStaleOnError && !forced;
                  && (forall i :: allowed && NewestStale(w, k, excluded, n, i) ==>
                        r == Got(VerdictOf(w, w.sources[i], k, excluded).value))
                  && (!allowed || (forall i :: 0 <= i < n ==> !StaleAt(w, k, excluded, i)) ==>
                        r == Missed(Unresolved(k, FailuresOf(w, k, excluded, n)))))
    ensures w.sources != [] ==> forall v :: Settle(w, k, excluded, Some(v), stored, writes, forced, now) == Got(v)
  {
    hide VerdictOf, Chain, FailuresOf;
    var n := |w.sources|;
    ChainDecides(w, k, excluded, stored, writes, now, n);
    if w.sources != [] {
      forall v ensures Settle(w, k, excluded, Some(v), stored, writes, forced, now) == Got(v) {
        ChainPinned(w, k, excluded, v, stored, writes, now, n);
      }
    }
    forall i, j | FirstCurrent(w, k, excluded, n, i) && FirstCurrent(w, k, excluded, n, j) ensures i == j {
    }
    forall i, j | NewestStale(w, k, excluded, n, i) && NewestStale(w, k, excluded, n, j) ensures i == j {
    }
  }

  /** Source `i` delivers fresh data and none before it does. */
  ghost predicate FirstFresh(w: World, k: Key, excluded: set<string>, i: int) {
    && 0 <= i < |w.sources| && DeliversFresh(w, w.sources[i], k, excluded)
    && forall j :: 0 <= j < i ==> !DeliversFresh(w, w.sources[j], k, excluded)
  }

  /** Source `i` delivers the latest of the usable stale data, the earlier source keeping a tie. */
  ghost predicate LatestStale(w: World, k: Key, excluded: set<string>, i: int) {
    && 0 <= i < |w.sources| && DeliversStale(w, w.sources[i], k, excluded)
    && forall j :: 0 <= j < |w.sources| && j != i && DeliversStale(w, w.sources[j], k, excluded) ==>
         var mine := Observed(w.answer(w.sources[i].name, k).delivery);
         var other := Observed(w.answer(w.sources[j].name, k).delivery);
         other <= mine && (j < i ==> other < mine)
  }

  /**
    The priority law by what the sources deliver: the first supported source whose delivery is within its ttl decides,
    unless the cache holds a value of higher authority that may be used; without one, the latest delivery within the
    stale limit is used where that is allowed and no refresh is due; otherwise the resource fails.
   */
  lemma DeliveriesDecide(w: World, k: Key, excluded: set<string>, stored: Option<Value>, writes: bool, forced: bool,
                         now: real)
    ensures var r := Settle(w, k, excluded, None, stored, writes, forced, now);
            && (forall i :: FirstFresh(w, k, excluded, i) ==>
                  if writes && stored.Some? && w.rules.rank(k, w.sources[i].name) < stored.value.rank then
                    var age := if now > stored.value.observedAt then now - stored.value.observedAt else 0.0;
                    r == Got(stored.value.(age := age, stale := false, fromCache := true))
                  else r == Got(DeliveredValue(w, w.sources[i], k)))
            && ((forall i :: !FirstFresh(w, k, excluded, i)) ==>
                  var allowed := w.rules.policy(k).allowStaleOnError && !forced;
                  && (forall i :: allowed && LatestStale(w, k, excluded, i) ==>
                        r == Got(DeliveredValue(w, w.sources[i], k)))
                  && (!allowed
                      || (forall i :: 0 <= i < |w.sources| ==> !DeliversStale(w, w.sources[i], k, excluded)) ==>
                        r == Missed(Unresolved(k, FailuresOf(w, k, excluded, |w.sources|)))))
  {
    hide Settle, FirstFresh, LatestStale, FirstCurrent, NewestStale, StaleAt, DeliversStale, DeliveredValue, VerdictOf,
         FailuresOf;
    var n := |w.sources|;
    PriorityLaw(w, k, excluded, stored, writes, forced, now);
    forall i | 0 <= i < n ensures VerdictAgrees(w, k, excluded, i) {
      VerdictByDelivery(w, w.sources[i], k, excluded);
    }
    forall i ensures FirstFresh(w, k, excluded, i) <==> FirstCurrent(w, k, excluded, n, i) {
      FirstFreshIsCurrent(w, k, excluded, i);
    }
    forall i ensures LatestStale(w, k, excluded, i) <==> NewestStale(w, k, excluded, n, i) {
      LatestIsNewest(w, k, excluded, i);
    }
    forall i | 0 <= i < n ensures StaleAt(w, k, excluded, i) <==> DeliversStale(w, w.sources[i], k, excluded) {
      StaleAgrees(w, k, excluded, i);
    }
    if forall i :: !FirstFresh(w, k, excluded, i) { NoneFresh(w, k, excluded, n); }
    forall i | FirstFresh(w, k, excluded, i)
      ensures 0 <= i < n && Gives(w, w.sources[i], k, excluded)
    {
      FirstFreshValue(w, k, excluded, i);
    }
    forall i | LatestStale(w, k, excluded, i)
      ensures 0 <= i < n && Gives(w, w.sources[i], k, excluded)
    {
      LatestStaleValue(w, k, excluded, i);
    }
  }

  lemma FirstFreshIsCurrent(w: World, k: Key, excluded: set<string>, i: int)
    requires forall j :: 0 <= j < |w.sources| ==> VerdictAgrees(w, k, excluded, j)
    ensures FirstFresh(w, k, excluded, i) <==> FirstCurrent(w, k, excluded, |w.sources|, i)
  {
    hide VerdictOf, DeliversFresh, DeliversStale;
    assert forall j :: 0 <= j < |w.sources| && VerdictAgrees(w, k, excluded, j) ==>
      (VerdictOf(w, w.sources[j], k, excluded).Current? <==> DeliversFresh(w, w.sources[j], k, excluded));
  }

  lemma StaleAgrees(w: World, k: Key, excluded: set<string>, i: nat)
    requires i < |w.sources| && VerdictAgrees(w, k, excluded, i)
    ensures StaleAt(w, k, excluded, i) <==> DeliversStale(w, w.sources[i], k, excluded)
    ensures DeliversStale(w, w.sources[i], k, excluded) ==>
      && Gives(w, w.sources[i], k, excluded)
      && VerdictOf(w, w.sources[i], k, excluded).value.observedAt == Observed(w.answer(w.sources[i].name, k).delivery)
  {
    hide VerdictOf;
  }

  lemma LatestIsNewest(w: World, k: Key, excluded: set<string>, i: int)
    requires forall j :: 0 <= j < |w.sources| ==> VerdictAgrees(w, k, excluded, j)
    ensures LatestStale(w, k, excluded, i) <==> NewestStale(w, k, excluded, |w.sources|, i)
  {
    hide VerdictOf, DeliversStale, StaleAt, VerdictAgrees, Observed;
    forall j | 0 <= j < |w.sources|
      ensures StaleAt(w, k, excluded, j) <==> DeliversStale(w, w.sources[j], k, excluded)
      ensures DeliversStale(w, w.sources[j], k, excluded) ==>
        && Gives(w, w.sources[j], k, excluded)
        && VerdictOf(w, w.sources[j], k, excluded).value.observedAt == Observed(w.answer(w.sources[j].name, k).delivery)
    {
      StaleAgrees(w, k, excluded, j);
    }
  }

  lemma {:induction false} NoneFresh(w: World, k: Key, excluded: set<string>, n: nat)
    requires n <= |w.sources| && forall i :: !FirstFresh(w, k, excluded, i)
    requires forall j :: 0 <= j < |w.sources| ==> VerdictAgrees(w, k, excluded, j)
    ensures forall i :: 0 <= i < n ==> !VerdictOf(w, w.sources[i], k, excluded).Current?
  {
    hide VerdictOf, DeliversFresh, DeliversStale;
    if n > 0 {
      NoneFresh(w, k, excluded, n - 1);
      FirstFreshIsCurrent(w, k, excluded, n - 1);
      assert !FirstFresh(w, k, excluded, n - 1);
    }
  }

  lemma FirstFreshValue(w: World, k: Key, excluded: set<string>, i: int)
    requires FirstFresh(w, k, excluded, i)
    ensures 0 <= i < |w.sources| && Gives(w, w.sources[i], k, excluded)
  {
    VerdictByDelivery(w, w.sources[i], k, excluded);
    hide VerdictOf;
  }

  lemma LatestStaleValue(w: World, k: Key, excluded: set<string>, i: int)
    requires LatestStale(w, k, excluded, i)
    ensures 0 <= i < |w.sources| && Gives(w, w.sources[i], k, excluded)
  {
    VerdictByDelivery(w, w.sources[i], k, excluded);
    hide VerdictOf;
  }

  /** The verdict carries the value of what the source delivers. */
  ghost predicate Gives(w: World, s: Source, k: Key, excluded: set<string>) {
    var verdict := VerdictOf(w, s, k, excluded);
    && w.answer(s.name, k).Delivered? && (verdict.Current? || verdict.Aged?)
    && verdict.value == DeliveredValue(w, s, k) && verdict.value.rank == w.rules.rank(k, s.name)
  }

  ghost predicate VerdictAgrees(w: World, k: Key, excluded: set<string>, i: nat)
    requires i < |w.sources|
  {
    var verdict, s := VerdictOf(w, w.sources[i], k, excluded), w.sources[i];
    && (verdict.Current? <==> DeliversFresh(w, s, k, excluded))
    && (verdict.Aged? && Admissible(w.rules, verdict.value) <==> DeliversStale(w, s, k, excluded))
    && (DeliversFresh(w, s, k, excluded) || DeliversStale(w, s, k, excluded) ==>
          verdict.value == DeliveredValue(w, s, k))
  }

  /** What the shared cache holds for a resource at a given standing, when nothing is evicted. */
  function StoredSoFar(st: Standing, pinned: Option<Value>, stored: Option<Value>, writes: bool): Option<Value> {
    if st.Open? || pinned.Some? || !writes then stored else AfterSettling(stored, st.value)
  }

  /** What it holds after the whole chain. */
  function StoredAfter(w: World, k: Key, excluded: set<string>, pinned: Option<Value>, stored: Option<Value>,
                       writes: bool, writesStale: bool, forced: bool, now: real): Option<Value> {
    var st := Chain(w, k, excluded, pinned, stored, writes, now, |w.sources|);
    var outcome := Conclude(w.rules, k, st, forced);
    if st.Open? && outcome.Got? && writesStale then Offer(stored, outcome.value, false, false)
    else StoredSoFar(st, pinned, stored, writes)
  }

  /** A settled value that came from the cache leaves the cache as it is. */
  function AfterSettling(stored: Option<Value>, v: Value): Option<Value> {
    if v.fromCache then stored else Offer(stored, v, false, false)
  }

  /**
    The value is written over the stored one: nothing is stored, or the value ranks higher or, ranking alike, is newer.
   */
  ghost predicate Overwrites(v: Value, stored: Option<Value>) {
    stored.None? || v.rank > stored.value.rank ||
    (v.rank == stored.value.rank && v.observedAt > stored.value.observedAt)
  }

  /** What the cache holds for a resource after its chain, by what the sources deliver. */
  lemma DeliveriesStored(w: World, k: Key, excluded: set<string>, stored: Option<Value>, writes: bool,
                         writesStale: bool,
                         forced: bool, now: real)
    ensures var r := StoredAfter(w, k, excluded, None, stored, writes, writesStale, forced, now);
            && (forall i :: FirstFresh(w, k, excluded, i) ==>
                  var v := DeliveredValue(w, w.sources[i], k);
                  r == if writes && Overwrites(v, stored) then Some(v) else stored)
            && ((forall i :: !FirstFresh(w, k, excluded, i)) ==>
                  var allowed := w.rules.policy(k).allowStaleOnError && !forced;
                  && (forall i :: allowed && LatestStale(w, k, excluded, i) ==>
                        var v := DeliveredValue(w, w.sources[i], k);
                        r == if writesStale && Overwrites(v, stored) then Some(v) else stored)
                  && (!allowed
                      || (forall i :: 0 <= i < |w.sources| ==> !DeliversStale(w, w.sources[i], k, excluded)) ==>
                        r == stored))
  {
    hide FirstFresh, LatestStale, DeliversStale, DeliveredValue, StoredAfter, Settle;
    DeliveriesDecide(w, k, excluded, stored, writes, forced, now);
    forall i | FirstFresh(w, k, excluded, i)
      ensures 0 <= i < |w.sources| && w.answer(w.sources[i].name, k).Delivered?
      ensures var v := DeliveredValue(w, w.sources[i], k);
              StoredAfter(w, k, excluded, None, stored, writes, writesStale, forced, now) ==
                if writes && Overwrites(v, stored) then Some(v) else stored
    {
      StoredWhenFresh(w, k, excluded, stored, writes, writesStale, forced, now, i);
    }
    if forall i :: !FirstFresh(w, k, excluded, i) {
      StoredWhenNoneFresh(w, k, excluded, stored, writes, writesStale, forced, now);
    }
    forall i | LatestStale(w, k, excluded, i) ensures 0 <= i < |w.sources| && Gives(w, w.sources[i], k, excluded) {
      LatestStaleValue(w, k, excluded, i);
    }
  }

  lemma StoredWhenFresh(w: World, k: Key, excluded: set<string>, stored: Option<Value>, writes: bool, writesStale: bool,
                        forced: bool, now: real, i: int)
    requires FirstFresh(w, k, excluded, i)
    ensures 0 <= i < |w.sources| && w.answer(w.sources[i].name, k).Delivered?
    ensures var v := DeliveredValue(w, w.sources[i], k);
            StoredAfter(w, k, excluded, None, stored, writes, writesStale, forced, now) ==
              if writes && Overwrites(v, stored) then Some(v) else stored
  {
    FirstFreshValue(w, k, excluded, i);
    FirstFreshAgrees(w, k, excluded, i);
    hide FirstFresh, Chain, VerdictOf, DeliveredValue;
    ChainDecides(w, k, excluded, stored, writes, now, |w.sources|);
    VerdictIsOwn(w, w.sources[i], k, excluded);
  }

  lemma VerdictIsOwn(w: World, s: Source, k: Key, excluded: set<string>)
    ensures var verdict := VerdictOf(w, s, k, excluded); verdict.Current? ==> !verdict.value.fromCache
  {
  }

  /** Without fresh data the chain stays open, and only a stale value that is used may be written. */
  lemma StoredWhenNoneFresh(w: World, k: Key, excluded: set<string>, stored: Option<Value>, writes: bool,
                            writesStale: bool, forced: bool, now: real)
    requires forall i :: !FirstFresh(w, k, excluded, i)
    ensures var r := Settle(w, k, excluded, None, stored, writes, forced, now);
            StoredAfter(w, k, excluded, None, stored, writes, writesStale, forced, now) ==
              if r.Got? && writesStale && Overwrites(r.value, stored) then Some(r.value) else stored
  {
    forall i ensures !FirstCurrent(w, k, excluded, |w.sources|, i) {
      FirstFreshAgrees(w, k, excluded, i);
    }
    hide FirstFresh, FirstCurrent, Chain, VerdictOf;
    ChainDecides(w, k, excluded, stored, writes, now, |w.sources|);
  }

  lemma FirstFreshAgrees(w: World, k: Key, excluded: set<string>, i: int)
    ensures FirstFresh(w, k, excluded, i) <==> FirstCurrent(w, k, excluded, |w.sources|, i)
  {
    hide VerdictOf, FirstFresh, FirstCurrent;
    forall j | 0 <= j < |w.sources| ensures VerdictAgrees(w, k, excluded, j) {
      VerdictByDelivery(w, w.sources[j], k, excluded);
    }
    FirstFreshIsCurrent(w, k, excluded, i);
  }
}
