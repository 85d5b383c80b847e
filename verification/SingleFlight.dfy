/**
  Single-flight coalescing. One step is what runs between two suspension points: a caller's lock section
  together with the start of its producer, the return of a producer's factory, or the completion of one key.
 */
module SingleFlight {
  import opened Core

  datatype Outcome<T> = Produced(value: T) | Error

  /** A shared future, the producer that must complete it and the claim that created it. */
  datatype Future<K, T> = Future(key: K, producer: nat, owner: nat, outcome: Option<Outcome<T>>)

  /** One caller's hold on a future; `joined` says that another caller had created it. */
  datatype Claim<K> = Claim(caller: nat, key: K, future: nat, joined: bool)

  /** A producer has completed its first `done` keys; it has no result while its factory runs. */
  datatype Producer<K, T> = Producer(owned: seq<K>, done: nat, result: Option<Option<map<K, T>>>) {
    predicate Live() {
      done < |owned|
    }
  }

  datatype State<K, T> = State(registry: map<K, nat>, futures: seq<Future<K, T>>, producers: seq<Producer<K, T>>,
                               claims: seq<Claim<K>>)

  datatype Event<K, T> =
    | Enter(caller: nat, keys: seq<K>)
    | Return(producer: nat, produced: Option<map<K, T>>)
    | Complete(producer: nat)

  function Start<K, T>(): State<K, T> {
    State(map[], [], [], [])
  }

  /** What a factory's result means for one key: a value, or an error if it raised or left an owned key out. */
  function ResultFor<K(==), T>(owned: seq<K>, result: Option<map<K, T>>, k: K): Outcome<T> {
    if result.Some? && k in result.value && (forall x :: x in owned ==> x in result.value)
    then Produced(result.value[k]) else Error
  }

  // ---- Steps ------------------------------------------------------------------------------------

  /** One key of a caller's lock section: join the registered future or register a new one. */
  function Claimed<K, T>(s: State<K, T>, caller: nat, k: K): State<K, T> {
    var n := |s.claims|;
    if k in s.registry then s.(claims := s.claims + [Claim(caller, k, s.registry[k], true)])
    else
      State(s.registry[k := |s.futures|], s.futures + [Future(k, |s.producers|, n, None)], s.producers,
            s.claims + [Claim(caller, k, |s.futures|, false)])
  }

  /** The lock section over the first keys, and the keys that the caller owns. */
  function Reserve<K, T>(s: State<K, T>, caller: nat, keys: seq<K>): (State<K, T>, seq<K>) {
    if keys == [] then (s, [])
    else
      var (m, owned) := Reserve(s, caller, keys[..|keys| - 1]);
      var k := keys[|keys| - 1];
      (Claimed(m, caller, k), if k in m.registry then owned else owned + [k])
  }

  function Launched<K, T>(s: State<K, T>, owned: seq<K>): State<K, T> {
    if owned == [] then s else s.(producers := s.producers + [Producer(owned, 0, None)])
  }

  function Completed<K, T>(s: State<K, T>, p: nat): State<K, T>
    requires p < |s.producers|
  {
    var producer := s.producers[p];
    if !producer.Live() || producer.result.None? then s
    else
      var k := producer.owned[producer.done];
      var moved := s.(producers := s.producers[p := producer.(done := producer.done + 1)],
                      registry := s.registry - {k});
      if k !in s.registry || s.registry[k] >= |s.futures| || s.futures[s.registry[k]].outcome.Some? then moved
      else
        var f := s.registry[k];
        var result := ResultFor(producer.owned, producer.result.value, k);
        moved.(futures := s.futures[f := s.futures[f].(outcome := Some(result))])
  }

  predicate Enabled<K, T>(s: State<K, T>, e: Event<K, T>) {
    match e
    case Enter(_, _) => true
    case Return(p, _) => p < |s.producers| && s.producers[p].result.None?
    case Complete(p) => p < |s.producers| && s.producers[p].Live() && s.producers[p].result.Some?
  }

  /** The state after an event; an event that is not enabled does not happen. */
  function Next<K(!new), T>(s: State<K, T>, e: Event<K, T>): State<K, T> {
    if !Enabled(s, e) then s
    else match e
    case Enter(caller, keys) =>
      var (m, owned) := Reserve(s, caller, Distinct(keys));
      Launched(m, owned)
    case Return(p, produced) => s.(producers := s.producers[p := s.producers[p].(result := Some(produced))])
    case Complete(p) => Completed(s, p)
  }

  // ---- The invariant ------------------------------------------------------------------------------

  /** The key waits for this producer, or for the one being formed in the current lock section. */
  ghost predicate Owed<K, T>(s: State<K, T>, forming: seq<K>, p: int, k: K) {
    if 0 <= p < |s.producers|
    then s.producers[p].done <= |s.producers[p].owned| && k in s.producers[p].owned[s.producers[p].done..]
    else p == |s.producers| && k in forming
  }

  /** Registered futures are pending, and pending futures are registered and owed. */
  ghost predicate RegistryOk<K(!new), T(!new)>(s: State<K, T>, forming: seq<K>) {
    && (forall k :: k in s.registry ==>
          s.registry[k] < |s.futures| && s.futures[s.registry[k]].key == k && s.futures[s.registry[k]].outcome.None?)
    && (forall f :: 0 <= f < |s.futures| && s.futures[f].outcome.None? ==>
          && s.futures[f].key in s.registry && s.registry[s.futures[f].key] == f
          && Owed(s, forming, s.futures[f].producer, s.futures[f].key))
  }

  /** What a producer still owes is registered for it. */
  ghost predicate ProducersOk<K(!new), T(!new)>(s: State<K, T>, forming: seq<K>) {
    && (forall p :: 0 <= p < |s.producers| ==>
          && s.producers[p].done <= |s.producers[p].owned| && NoDuplicates(s.producers[p].owned)
          && (s.producers[p].done > 0 ==> s.producers[p].result.Some?))
    && NoDuplicates(forming)
    && (forall p, k :: Owed(s, forming, p, k) ==>
          k in s.registry && s.registry[k] < |s.futures| && s.futures[s.registry[k]].producer == p)
  }

  /** Every future has exactly one claim that did not join it. */
  ghost predicate ClaimsOk<K, T>(s: State<K, T>) {
    && (forall f :: 0 <= f < |s.futures| ==>
          && s.futures[f].owner < |s.claims|
          && s.claims[s.futures[f].owner].future == f
          && !s.claims[s.futures[f].owner].joined)
    && (forall c :: 0 <= c < |s.claims| ==>
          && s.claims[c].future < |s.futures| && s.futures[s.claims[c].future].key == s.claims[c].key
          && (!s.claims[c].joined ==> s.futures[s.claims[c].future].owner == c))
  }

  /** A completed future holds what its producer's factory gave for its key. */
  ghost predicate OutcomesOk<K(!new), T(!new)>(s: State<K, T>) {
    forall f :: 0 <= f < |s.futures| && s.futures[f].outcome.Some? ==>
      && s.futures[f].producer < |s.producers|
      && s.producers[s.futures[f].producer].result.Some?
      && s.futures[f].outcome.value == ResultFor(s.producers[s.futures[f].producer].owned,
                                                 s.producers[s.futures[f].producer].result.value, s.futures[f].key)
  }

  ghost predicate Invariant<K(!new), T(!new)>(s: State<K, T>, forming: seq<K>) {
    RegistryOk(s, forming) && ProducersOk(s, forming) && ClaimsOk(s) && OutcomesOk(s)
  }

  /** A newly registered key is owed by the producer being formed, and nothing else changes hands. */
  lemma ClaimedOwes<K(!new), T(!new)>(s: State<K, T>, forming: seq<K>, caller: nat, k: K)
    requires Invariant(s, forming)
    ensures k in s.registry ==> forall p, x :: Owed(Claimed(s, caller, k), forming, p, x) <==> Owed(s, forming, p, x)
    ensures k !in s.registry ==> k !in forming && forall p, x :: Owed(Claimed(s, caller, k), forming + [k], p, x) <==>
      Owed(s, forming, p, x) || (p == |s.producers| && x == k)
  {
    assert Owed(s, forming, |s.producers|, k) <==> k in forming;
  }

  lemma ClaimedKeeps<K(!new), T(!new)>(s: State<K, T>, forming: seq<K>, caller: nat, k: K)
    requires Invariant(s, forming)
    ensures Invariant(Claimed(s, caller, k), if k in s.registry then forming else forming + [k])
  {
    hide Owed, NoDuplicates, ResultFor;
    ClaimedOwes(s, forming, caller, k);
    if k !in s.registry { Appended(forming, k); }
  }

  lemma Appended<K>(forming: seq<K>, k: K)
    requires NoDuplicates(forming) && k !in forming
    ensures NoDuplicates(forming + [k])
  {
  }

  lemma {:induction false} ReserveKeeps<K(!new), T(!new)>(s: State<K, T>, caller: nat, keys: seq<K>)
    requires Invariant(s, [])
    ensures Invariant(Reserve(s, caller, keys).0, Reserve(s, caller, keys).1)
  {
    if keys != [] {
      var front := keys[..|keys| - 1];
      ReserveKeeps(s, caller, front);
      ClaimedKeeps(Reserve(s, caller, front).0, Reserve(s, caller, front).1, caller, keys[|keys| - 1]);
    }
  }

  lemma LaunchKeeps<K(!new), T(!new)>(s: State<K, T>, owned: seq<K>)
    requires Invariant(s, owned)
    ensures Invariant(Launched(s, owned), [])
  {
    var t := Launched(s, owned);
    if owned != [] { assert t.producers[|s.producers|].owned[0..] == owned; }
    forall p, k ensures Owed(t, [], p, k) <==> Owed(s, owned, p, k) {
    }
  }

  lemma ReturnKeeps<K(!new), T(!new)>(s: State<K, T>, p: nat, produced: Option<map<K, T>>)
    requires Invariant(s, []) && p < |s.producers| && s.producers[p].result.None?
    ensures Invariant(s.(producers := s.producers[p := s.producers[p].(result := Some(produced))]), [])
  {
    var t := s.(producers := s.producers[p := s.producers[p].(result := Some(produced))]);
    forall q, k ensures Owed(t, [], q, k) <==> Owed(s, [], q, k) {
    }
  }

  /** Completion always finds a registered, pending future: the guard against a finished one never applies. */
  lemma CompletionFindsPending<K(!new), T(!new)>(s: State<K, T>, p: nat)
    requires Invariant(s, []) && p < |s.producers| && s.producers[p].Live()
    ensures var k := s.producers[p].owned[s.producers[p].done];
            && k in s.registry && s.registry[k] < |s.futures|
            && s.futures[s.registry[k]].outcome.None? && s.futures[s.registry[k]].producer == p
  {
    var producer := s.producers[p];
    var k := producer.owned[producer.done];
    assert producer.owned[producer.done..][0] == k;
    assert Owed(s, [], p, k);
  }

  lemma CompletedOwes<K(!new), T(!new)>(s: State<K, T>, p: nat)
    requires Invariant(s, []) && p < |s.producers| && s.producers[p].Live() && s.producers[p].result.Some?
    ensures var k := s.producers[p].owned[s.producers[p].done];
            forall q, x :: Owed(Completed(s, p), [], q, x) <==> Owed(s, [], q, x) && x != k
  {
    var producer, t := s.producers[p], Completed(s, p);
    var k := producer.owned[producer.done];
    CompletionFindsPending(s, p);
    assert producer.owned[producer.done..] == [k] + producer.owned[producer.done + 1..];
    assert k !in producer.owned[producer.done + 1..];
    assert Owed(s, [], p, k);
    forall q, x ensures Owed(t, [], q, x) <==> Owed(s, [], q, x) && x != k {
    }
  }

  lemma CompleteKeeps<K(!new), T(!new)>(s: State<K, T>, p: nat)
    requires Invariant(s, []) && p < |s.producers| && s.producers[p].Live() && s.producers[p].result.Some?
    ensures Invariant(Completed(s, p), [])
  {
    hide Owed, RegistryOk, ProducersOk, ClaimsOk, OutcomesOk;
    CompletionFindsPending(s, p);
    CompletedOwes(s, p);
    CompletedParts(s, p);
    CompleteRegistry(s, p);
    CompleteProducers(s, p);
    CompleteClaims(s, p);
    CompleteOutcomes(s, p);
  }

  /** What a completion changes, part by part. */
  lemma CompletedParts<K(!new), T(!new)>(s: State<K, T>, p: nat)
    requires Invariant(s, []) && p < |s.producers| && s.producers[p].Live() && s.producers[p].result.Some?
    ensures var k, t := s.producers[p].owned[s.producers[p].done], Completed(s, p);
            && k in s.registry && s.registry[k] < |s.futures|
            && t.registry == s.registry - {k} && t.claims == s.claims
            && (var f, result := s.registry[k], ResultFor(s.producers[p].owned, s.producers[p].result.value, k);
                t.futures == s.futures[f := s.futures[f].(outcome := Some(result))])
            && t.producers == s.producers[p := s.producers[p].(done := s.producers[p].done + 1)]
  {
    CompletionFindsPending(s, p);
  }

  lemma CompleteRegistry<K(!new), T(!new)>(s: State<K, T>, p: nat)
    requires Invariant(s, []) && p < |s.producers| && s.producers[p].Live() && s.producers[p].result.Some?
    ensures RegistryOk(Completed(s, p), [])
  {
    hide Owed, ProducersOk, ClaimsOk, OutcomesOk, Completed;
    CompletionFindsPending(s, p);
    CompletedOwes(s, p);
    CompletedParts(s, p);
  }

  lemma CompleteProducers<K(!new), T(!new)>(s: State<K, T>, p: nat)
    requires Invariant(s, []) && p < |s.producers| && s.producers[p].Live() && s.producers[p].result.Some?
    ensures ProducersOk(Completed(s, p), [])
  {
    hide Owed, RegistryOk, ClaimsOk, OutcomesOk, Completed, NoDuplicates;
    CompletionFindsPending(s, p);
    CompletedOwes(s, p);
    CompletedParts(s, p);
  }

  lemma CompleteClaims<K(!new), T(!new)>(s: State<K, T>, p: nat)
    requires Invariant(s, []) && p < |s.producers| && s.producers[p].Live() && s.producers[p].result.Some?
    ensures ClaimsOk(Completed(s, p))
  {
    hide Owed, RegistryOk, ProducersOk, OutcomesOk, Completed;
    CompletedParts(s, p);
    var t := Completed(s, p);
    assert forall f :: 0 <= f < |s.futures| ==>
      t.futures[f].owner == s.futures[f].owner && t.futures[f].key == s.futures[f].key;
  }

  lemma CompleteOutcomes<K(!new), T(!new)>(s: State<K, T>, p: nat)
    requires Invariant(s, []) && p < |s.producers| && s.producers[p].Live() && s.producers[p].result.Some?
    ensures OutcomesOk(Completed(s, p))
  {
    hide Owed, RegistryOk, ProducersOk, ClaimsOk, Completed, ResultFor;
    CompletionFindsPending(s, p);
    CompletedParts(s, p);
    var k := s.producers[p].owned[s.producers[p].done];
    assert s.futures[s.registry[k]].key == k by { RegisteredKey(s, k); }
  }

  lemma RegisteredKey<K(!new), T(!new)>(s: State<K, T>, k: K)
    requires RegistryOk(s, []) && k in s.registry
    ensures s.registry[k] < |s.futures| && s.futures[s.registry[k]].key == k
  {
  }

  lemma NextKeeps<K(!new), T(!new)>(s: State<K, T>, e: Event<K, T>)
    requires Invariant(s, [])
    ensures Invariant(Next(s, e), [])
  {
    hide RegistryOk, ProducersOk, ClaimsOk, OutcomesOk, Reserve, Launched, Completed, Distinct;
    if !Enabled(s, e) { return; }
    match e
    case Enter(caller, keys) =>
      ReserveKeeps(s, caller, Distinct(keys));
      LaunchKeeps(Reserve(s, caller, Distinct(keys)).0, Reserve(s, caller, Distinct(keys)).1);
    case Return(p, produced) => ReturnKeeps(s, p, produced);
    case Complete(p) => CompleteKeeps(s, p);
  }

  // ---- Runs -----------------------------------------------------------------------------------------

  function Run<K(!new), T>(es: seq<Event<K, T>>): State<K, T> {
    if es == [] then Start() else Next(Run(es[..|es| - 1]), es[|es| - 1])
  }

  lemma {:induction false} RunKeeps<K(!new), T(!new)>(es: seq<Event<K, T>>)
    ensures Invariant(Run(es), [])
  {
    if es != [] {
      RunKeeps(es[..|es| - 1]);
      NextKeeps(Run(es[..|es| - 1]), es[|es| - 1]);
    }
  }

  /** In every run a registered key has exactly one live producer, and its future is pending. */
  lemma OneProducer<K(!new), T(!new)>(es: seq<Event<K, T>>, k: K)
    requires k in Run(es).registry
    ensures var s := Run(es);
            && s.registry[k] < |s.futures| && s.futures[s.registry[k]].outcome.None?
            && (exists p :: 0 <= p < |s.producers| && s.producers[p].Live() && Owed(s, [], p, k))
            && (forall p, q :: Owed(s, [], p, k) && Owed(s, [], q, k) ==> p == q)
  {
    RunKeeps(es);
    var s := Run(es);
    var p := s.futures[s.registry[k]].producer;
    assert Owed(s, [], p, k);
    assert s.producers[p].Live();
  }

  ghost predicate Owns<K, T>(s: State<K, T>, c: nat, f: nat) {
    c < |s.claims| && s.claims[c].future == f && !s.claims[c].joined
  }

  /** Exactly one claim on a future is not joined. */
  lemma OneOwner<K(!new), T(!new)>(es: seq<Event<K, T>>, f: nat)
    requires f < |Run(es).futures|
    ensures exists c :: Owns(Run(es), c, f)
    ensures forall c, d :: Owns(Run(es), c, f) && Owns(Run(es), d, f) ==> c == d
  {
    RunKeeps(es);
    var s := Run(es);
    assert Owns(s, s.futures[f].owner, f);
  }

  /** Once every producer has finished, nothing is registered and every future has its producer's outcome. */
  lemma QuietWhenFinished<K(!new), T(!new)>(es: seq<Event<K, T>>)
    requires forall p :: 0 <= p < |Run(es).producers| ==> !Run(es).producers[p].Live()
    ensures Run(es).registry == map[]
    ensures forall f :: 0 <= f < |Run(es).futures| ==> Run(es).futures[f].outcome.Some?
  {
    RunKeeps(es);
    var s := Run(es);
    NothingOwed(s);
  }

  /** A pending future has a live producer. */
  lemma PendingIsOwed<K(!new), T(!new)>(s: State<K, T>, f: nat)
    requires Invariant(s, []) && f < |s.futures| && s.futures[f].outcome.None?
    ensures exists p :: 0 <= p < |s.producers| && s.producers[p].Live()
  {
    assert Owed(s, [], s.futures[f].producer, s.futures[f].key);
    var p := s.futures[f].producer;
    assert s.producers[p].Live();
  }

  lemma NothingOwed<K(!new), T(!new)>(s: State<K, T>)
    requires Invariant(s, []) && forall p :: 0 <= p < |s.producers| ==> !s.producers[p].Live()
    ensures s.registry == map[] && forall f :: 0 <= f < |s.futures| ==> s.futures[f].outcome.Some?
  {
    hide Producer.Live;
    forall f | 0 <= f < |s.futures| ensures s.futures[f].outcome.Some? {
      if s.futures[f].outcome.None? { PendingIsOwed(s, f); }
    }
    forall k | k in s.registry ensures false {
      RegisteredIsPending(s, k);
    }
  }

  lemma RegisteredIsPending<K(!new), T(!new)>(s: State<K, T>, k: K)
    requires Invariant(s, []) && k in s.registry
    ensures s.registry[k] < |s.futures| && s.futures[s.registry[k]].outcome.None?
  {
  }

  // ---- Completion happens once ----------------------------------------------------------------------

  /** A later state has the same futures and more: keys, owners and outcomes never change once set. */
  ghost predicate Grown<K, T>(s: State<K, T>, t: State<K, T>) {
    && |s.futures| <= |t.futures|
    && forall f :: 0 <= f < |s.futures| ==>
         && t.futures[f].(outcome := None) == s.futures[f].(outcome := None)
         && (s.futures[f].outcome.Some? ==> t.futures[f].outcome == s.futures[f].outcome)
  }

  lemma {:induction false} ReserveGrows<K(!new), T(!new)>(s: State<K, T>, caller: nat, keys: seq<K>)
    ensures Grown(s, Reserve(s, caller, keys).0)
  {
    if keys != [] { ReserveGrows(s, caller, keys[..|keys| - 1]); }
  }

  lemma NextGrows<K(!new), T(!new)>(s: State<K, T>, e: Event<K, T>)
    ensures Grown(s, Next(s, e))
  {
    hide Reserve;
    if e.Enter? { ReserveGrows(s, e.caller, Distinct(e.keys)); }
  }

  /** Whatever happens later, a completed future keeps its outcome, so all its callers see the same one. */
  lemma {:induction false} OutcomesAreFinal<K(!new), T(!new)>(es: seq<Event<K, T>>, i: nat)
    requires i <= |es|
    ensures Grown(Run(es[..i]), Run(es))
    decreases |es|
  {
    if i < |es| {
      var front := es[..|es| - 1];
      OutcomesAreFinal(front, i);
      assert front[..i] == es[..i];
      NextGrows(Run(front), es[|es| - 1]);
    } else {
      assert es[..i] == es;
    }
  }

  // ---- What a caller gets ---------------------------------------------------------------------------

  lemma {:induction false} ReserveKeepsProducers<K(!new), T(!new)>(s: State<K, T>, caller: nat, keys: seq<K>)
    ensures Reserve(s, caller, keys).0.producers == s.producers
  {
    if keys != [] { ReserveKeepsProducers(s, caller, keys[..|keys| - 1]); }
  }

  /** What a producer owns does not change, nor what its factory returned. */
  ghost predicate SameProducer<K, T>(s: State<K, T>, t: State<K, T>, p: nat) {
    && p < |s.producers| <= |t.producers| && t.producers[p].owned == s.producers[p].owned
    && (s.producers[p].result.Some? ==> t.producers[p].result == s.producers[p].result)
  }

  lemma NextKeepsProducer<K(!new), T(!new)>(s: State<K, T>, e: Event<K, T>, p: nat)
    requires p < |s.producers|
    ensures SameProducer(s, Next(s, e), p)
  {
    hide Reserve, ResultFor;
    if e.Enter? { ReserveKeepsProducers(s, e.caller, Distinct(e.keys)); }
  }

  lemma {:induction false} RunKeepsProducer<K(!new), T(!new)>(es: seq<Event<K, T>>, i: nat, p: nat)
    requires i <= |es| && p < |Run(es[..i]).producers|
    ensures SameProducer(Run(es[..i]), Run(es), p)
    decreases |es|
  {
    hide Next;
    if i < |es| {
      var front := es[..|es| - 1];
      assert front[..i] == es[..i];
      RunKeepsProducer(front, i, p);
      NextKeepsProducer(Run(front), es[|es| - 1], p);
    } else {
      assert es[..i] == es;
    }
  }

  /**
    What the callers of a future get, by what the factory of its producer returned: the value for its key if every key
    the producer owns has one, and an error if the factory failed or left one of them out.
   */
  lemma OutcomeIsReturned<K(!new), T(!new)>(es: seq<Event<K, T>>, i: nat, f: nat)
    requires i < |es| && es[i].Return? && Enabled(Run(es[..i]), es[i])
    requires f < |Run(es).futures| && Run(es).futures[f].producer == es[i].producer && Run(es).futures[f].outcome.Some?
    ensures var s, produced := Run(es), es[i].produced;
            && es[i].producer < |s.producers|
            && var future, owned := s.futures[f], s.producers[es[i].producer].owned;
               if produced.Some? && forall x :: x in owned ==> x in produced.value
               then future.key in owned && future.outcome == Some(Produced(produced.value[future.key]))
               else future.outcome == Some(Error)
  {
    var p, next := es[i].producer, es[..i + 1];
    assert next[..i] == es[..i];
    assert Run(next).producers[p].result == Some(es[i].produced);
    RunKeepsProducer(es, i + 1, p);
    RunKeeps(es);
    CompletedIsOwned(es, f);
  }

  lemma {:induction false} ReservedArePending<K(!new), T(!new)>(s: State<K, T>, caller: nat, keys: seq<K>, f: nat)
    ensures var t := Reserve(s, caller, keys).0; |s.futures| <= f < |t.futures| ==> t.futures[f].outcome.None?
  {
    if keys != [] { ReservedArePending(s, caller, keys[..|keys| - 1], f); }
  }

  /** A future that a step creates is pending. */
  lemma NewArePending<K(!new), T(!new)>(s: State<K, T>, e: Event<K, T>, f: nat)
    ensures |s.futures| <= f < |Next(s, e).futures| ==> Next(s, e).futures[f].outcome.None?
  {
    hide Reserve, ResultFor;
    if e.Enter? { ReservedArePending(s, e.caller, Distinct(e.keys), f); }
  }

  /** The key of a completed future is one that its producer owns. */
  lemma {:induction false} CompletedIsOwned<K(!new), T(!new)>(es: seq<Event<K, T>>, f: nat)
    requires f < |Run(es).futures| && Run(es).futures[f].outcome.Some?
    ensures var future := Run(es).futures[f];
            future.producer < |Run(es).producers| && future.key in Run(es).producers[future.producer].owned
    decreases |es|
  {
    hide Next, ResultFor, Invariant;
    var n := |es| - 1;
    var front := es[..n];
    NewArePending(Run(front), es[n], f);
    RunKeeps(front);
    if f < |Run(front).futures| && Run(front).futures[f].outcome.Some? {
      CompletedIsOwned(front, f);
      NextGrows(Run(front), es[n]);
      NextKeepsProducer(Run(front), es[n], Run(front).futures[f].producer);
    } else {
      CompletesExactlyOne(front, es[n], f);
      NextGrows(Run(front), es[n]);
      NextKeepsProducer(Run(front), es[n], Run(front).futures[f].producer);
    }
  }

  /** Every outcome was preceded by the return of the factory. */
  lemma {:induction false} OutcomeFollowsReturn<K(!new), T(!new)>(es: seq<Event<K, T>>, p: nat) returns (i: nat)
    requires p < |Run(es).producers| && Run(es).producers[p].result.Some?
    ensures i < |es| && es[i].Return? && es[i].producer == p && Enabled(Run(es[..i]), es[i])
    decreases |es|
  {
    hide Next;
    var n := |es| - 1;
    var front := es[..n];
    if p < |Run(front).producers| && Run(front).producers[p].result.Some? {
      i := OutcomeFollowsReturn(front, p);
      assert front[..i] == es[..i];
    } else {
      ReturnedNow(Run(front), es[n], p);
      i := n;
    }
  }

  lemma ReturnedNow<K(!new), T(!new)>(s: State<K, T>, e: Event<K, T>, p: nat)
    requires p < |Next(s, e).producers| && Next(s, e).producers[p].result.Some?
    requires p < |s.producers| ==> s.producers[p].result.None?
    ensures e.Return? && e.producer == p && Enabled(s, e)
  {
    hide Reserve, ResultFor;
    if e.Enter? { ReserveKeepsProducers(s, e.caller, Distinct(e.keys)); }
  }

  /**
    The next key of the producer leaves the registry, and its future gets the value the factory returned for it if there
    is one for every key the producer owns, and an error otherwise.
   */
  ghost predicate CompletesWith<K(!new), T(!new)>(s: State<K, T>, t: State<K, T>, p: nat) {
    && p < |s.producers| && s.producers[p].done < |s.producers[p].owned| && s.producers[p].result.Some?
    && var owned, produced := s.producers[p].owned, s.producers[p].result.value;
    var key := owned[s.producers[p].done];
    && key in s.registry && t.registry == s.registry - {key} && t.claims == s.claims
    && t.producers == s.producers[p := Producer(owned, s.producers[p].done + 1, Some(produced))]
    && s.registry[key] < |s.futures| == |t.futures|
    && (forall f :: 0 <= f < |s.futures| && f != s.registry[key] ==> t.futures[f] == s.futures[f])
    && var future := s.futures[s.registry[key]];
    && future.key == key && future.outcome.None?
    && t.futures[s.registry[key]] ==
         Future(key, future.producer, future.owner,
                Some(if produced.Some? && forall x :: x in owned ==> x in produced.value
                     then Produced(produced.value[key]) else Error))
  }

  lemma CompletedMeans<K(!new), T(!new)>(s: State<K, T>, p: nat)
    requires Invariant(s, []) && p < |s.producers| && s.producers[p].Live() && s.producers[p].result.Some?
    ensures CompletesWith(s, Next(s, Complete(p)), p)
  {
    hide Owed, ProducersOk, ClaimsOk, OutcomesOk, Completed;
    CompletionFindsPending(s, p);
    CompletedParts(s, p);
    RegisteredKey(s, s.producers[p].owned[s.producers[p].done]);
  }

  /**
    The caller has a claim for each of its keys, in order: on the registered future, or on a new pending one of a
    producer that starts with exactly the keys that were not registered.
   */
  ghost predicate Entered<K(!new), T(!new)>(s: State<K, T>, t: State<K, T>, caller: nat, keys: seq<K>, owned: seq<K>) {
    && OwnsNew(s, keys, owned)
    && t.producers == s.producers + (if owned == [] then [] else [Producer(owned, 0, None)])
    && Reserved(s, t, caller, keys, owned)
  }

  ghost predicate Reserved<K(!new), T(!new)>(s: State<K, T>, t: State<K, T>, caller: nat, keys: seq<K>, owned: seq<K>) {
    Registered(s, t, keys) && Created(s, t, owned) && Held(s, t, caller, keys)
  }

  ghost predicate Registered<K(!new), T(!new)>(s: State<K, T>, t: State<K, T>, keys: seq<K>) {
    && (forall k :: k in t.registry <==> k in s.registry || k in keys)
    && forall k :: k in s.registry ==> t.registry[k] == s.registry[k]
  }

  /** There is one new pending future for each owned key. */
  ghost predicate Created<K(!new), T(!new)>(s: State<K, T>, t: State<K, T>, owned: seq<K>) {
    && |t.futures| == |s.futures| + |owned| && t.futures[..|s.futures|] == s.futures
    && forall j :: 0 <= j < |owned| ==>
         && owned[j] in t.registry && t.registry[owned[j]] == |s.futures| + j
         && t.futures[|s.futures| + j] == Future(owned[j], |s.producers|, t.futures[|s.futures| + j].owner, None)
  }

  /** There is one new claim for each key. */
  ghost predicate Held<K(!new), T(!new)>(s: State<K, T>, t: State<K, T>, caller: nat, keys: seq<K>) {
    && |t.claims| == |s.claims| + |keys| && t.claims[..|s.claims|] == s.claims
    && forall j :: 0 <= j < |keys| ==>
         keys[j] in t.registry &&
         t.claims[|s.claims| + j] == Claim(caller, keys[j], t.registry[keys[j]], keys[j] in s.registry)
  }

  lemma {:induction false} ReserveMeans<K(!new), T(!new)>(s: State<K, T>, caller: nat, keys: seq<K>)
    requires NoDuplicates(keys)
    ensures var (t, owned) := Reserve(s, caller, keys); Reserved(s, t, caller, keys, owned) && OwnsNew(s, keys, owned)
  {
    hide Reserve, Registered, Created, Held, Claimed, OwnsNew, NoDuplicates;
    if keys == [] {
      NothingReserved(s, caller);
    } else {
      var n := |keys| - 1;
      var front, k := keys[..n], keys[n];
      var (m, owned) := Reserve(s, caller, front);
      FrontKeys(keys);
      ReserveMeans(s, caller, front);
      ReserveKeepsProducers(s, caller, front);
      ReserveLast(s, caller, keys);
      RegisteredStep(s, m, caller, front, owned, k);
      CreatedStep(s, m, caller, front, owned, k);
      HeldStep(s, m, caller, front, k);
    }
  }

  ghost predicate OwnsNew<K(!new), T(!new)>(s: State<K, T>, keys: seq<K>, owned: seq<K>) {
    forall k :: k in owned <==> k in keys && k !in s.registry
  }

  lemma FrontKeys<K>(keys: seq<K>)
    requires NoDuplicates(keys) && keys != []
    ensures var n := |keys| - 1; NoDuplicates(keys[..n]) && keys[n] !in keys[..n] && keys == keys[..n] + [keys[n]]
  {
  }

  lemma NothingReserved<K(!new), T(!new)>(s: State<K, T>, caller: nat)
    ensures Reserve(s, caller, []) == (s, []) && Reserved(s, s, caller, [], []) && OwnsNew(s, [], [])
  {
  }

  lemma ReserveLast<K(!new), T(!new)>(s: State<K, T>, caller: nat, keys: seq<K>)
    requires keys != []
    ensures var (m, owned) := Reserve(s, caller, keys[..|keys| - 1]);
            var k := keys[|keys| - 1];
            Reserve(s, caller, keys) == (Claimed(m, caller, k), if k in m.registry then owned else owned + [k])
  {
  }

  lemma RegisteredStep<K(!new), T(!new)>(s: State<K, T>, m: State<K, T>, caller: nat, keys: seq<K>, owned: seq<K>, k: K)
    requires Registered(s, m, keys) && OwnsNew(s, keys, owned) && k !in keys
    ensures Registered(s, Claimed(m, caller, k), keys + [k])
    ensures OwnsNew(s, keys + [k], if k in m.registry then owned else owned + [k])
  {
  }

  lemma CreatedStep<K(!new), T(!new)>(s: State<K, T>, m: State<K, T>, caller: nat, keys: seq<K>, owned: seq<K>, k: K)
    requires Registered(s, m, keys) && Created(s, m, owned) && m.producers == s.producers
    ensures Created(s, Claimed(m, caller, k), if k in m.registry then owned else owned + [k])
  {
    if k !in m.registry {
      var t, more := Claimed(m, caller, k), owned + [k];
      assert t.futures[..|s.futures|] == m.futures[..|s.futures|];
      forall j | 0 <= j < |more|
        ensures more[j] in t.registry && t.registry[more[j]] == |s.futures| + j
        ensures t.futures[|s.futures| + j] == Future(more[j], |s.producers|, t.futures[|s.futures| + j].owner, None)
      {
        if j < |owned| {
          assert more[j] == owned[j] && owned[j] in m.registry;
          assert t.futures[|s.futures| + j] == m.futures[|s.futures| + j];
        }
      }
    }
  }

  lemma HeldStep<K(!new), T(!new)>(s: State<K, T>, m: State<K, T>, caller: nat, keys: seq<K>, k: K)
    requires Registered(s, m, keys) && Held(s, m, caller, keys) && k !in keys
    ensures Held(s, Claimed(m, caller, k), caller, keys + [k])
  {
    var t, more := Claimed(m, caller, k), keys + [k];
    forall j | 0 <= j < |more|
      ensures more[j] in t.registry
      ensures t.claims[|s.claims| + j] == Claim(caller, more[j], t.registry[more[j]], more[j] in s.registry)
    {
      if j < |keys| {
        assert keys[j] in m.registry && keys[j] != k;
        assert t.claims[|s.claims| + j] == m.claims[|s.claims| + j];
      }
    }
  }

  lemma EnteredMeans<K(!new), T(!new)>(s: State<K, T>, caller: nat, keys: seq<K>)
    requires NoDuplicates(keys)
    ensures var (t, owned) := Reserve(s, caller, keys); Entered(s, Launched(t, owned), caller, keys, owned)
  {
    hide Reserve, NoDuplicates;
    ReserveMeans(s, caller, keys);
    ReserveKeepsProducers(s, caller, keys);
  }

  /** A completion step gives exactly one future its outcome, and nothing else does. */
  lemma CompletesExactlyOne<K(!new), T(!new)>(es: seq<Event<K, T>>, e: Event<K, T>, f: nat)
    requires f < |Run(es).futures|
    ensures var s, t := Run(es), Next(Run(es), e);
            (f < |t.futures| && s.futures[f].outcome != t.futures[f].outcome) <==>
              (e.Complete? && Enabled(s, e) && s.futures[f].producer == e.producer && s.futures[f].outcome.None?
               && s.futures[f].key == s.producers[e.producer].owned[s.producers[e.producer].done])
  {
    RunKeeps(es);
    var s := Run(es);
    if e.Complete? {
      if Enabled(s, e) { CompletionFindsPending(s, e.producer); }
    } else if e.Enter? {
      ReserveKeepsOutcomes(s, e.caller, Distinct(e.keys), f);
    }
  }

  lemma {:induction false} ReserveKeepsOutcomes<K(!new), T(!new)>(s: State<K, T>, caller: nat, keys: seq<K>, f: nat)
    requires f < |s.futures|
    ensures var t := Reserve(s, caller, keys).0; f < |t.futures| && t.futures[f] == s.futures[f]
  {
    if keys != [] { ReserveKeepsOutcomes(s, caller, keys[..|keys| - 1], f); }
  }

  // ---- The coordinator as an object -----------------------------------------------------------------

  class Coordinator<K(==, !new), T(!new)> {
    var registry: map<K, nat>
    var futures: seq<Future<K, T>>
    var producers: seq<Producer<K, T>>
    var claims: seq<Claim<K>>

    function Now(): State<K, T>
      reads this
    {
      State(registry, futures, producers, claims)
    }

    ghost predicate Valid()
      reads this
    {
      Invariant(Now(), [])
    }

    constructor ()
      ensures Now() == Start() && Valid()
    {
      registry, futures, producers, claims := map[], [], [], [];
    }

    /** A caller's lock section, key by key, and the start of a producer for the keys it owns. */
    method RunMany(caller: nat, keys: seq<K>) returns (owned: seq<K>)
      requires Valid()
      modifies this
      ensures Valid() && Now() == Next(old(Now()), Enter(caller, keys))
      ensures forall k :: k in owned <==> k in keys && k !in old(registry)
      ensures Entered(old(Now()), Now(), caller, Distinct(keys), owned)
    {
      hide Invariant, Distinct, NoDuplicates, Entered;
      EnteredMeans(Now(), caller, Distinct(keys));
      var unique := Distinct(keys);
      owned := [];
      ghost var start := Now();
      NextKeeps(start, Enter(caller, keys));
      assert unique[..0] == [];
      for n := 0 to |unique|
        invariant (Now(), owned) == Reserve(start, caller, unique[..n])
        invariant producers == start.producers
        invariant forall k :: k in owned <==> k in unique[..n] && k !in start.registry
        invariant forall k :: k in registry <==> k in start.registry || k in unique[..n]
      {
        var key := unique[n];
        assert unique[..n + 1][..n] == unique[..n] && unique[..n + 1] == unique[..n] + [key];
        NotYet(unique, n);
        if key in registry {
          claims := claims + [Claim(caller, key, registry[key], true)];
        } else {
          registry := registry[key := |futures|];
          futures := futures + [Future(key, |producers|, |claims|, None)];
          owned := owned + [key];
          claims := claims + [Claim(caller, key, |futures| - 1, false)];
        }
      }
      assert unique[..|unique|] == unique;
      if owned != [] {
        producers := producers + [Producer(owned, 0, None)];
      }
    }

    method FactoryReturned(p: nat, produced: Option<map<K, T>>)
      requires Valid() && p < |producers| && producers[p].result.None?
      modifies this
      ensures Valid() && Now() == Next(old(Now()), Return(p, produced))
      ensures registry == old(registry) && futures == old(futures) && claims == old(claims)
      ensures producers == old(producers)[p := Producer(old(producers[p].owned), old(producers[p].done),
                                                        Some(produced))]
    {
      NextKeeps(Now(), Return(p, produced));
      producers := producers[p := producers[p].(result := Some(produced))];
    }

    /** Completes the next key of a producer: its future leaves the registry and gets its only outcome. */
    method CompleteNext(p: nat)
      requires Valid() && p < |producers| && producers[p].Live() && producers[p].result.Some?
      modifies this
      ensures Valid() && Now() == Next(old(Now()), Complete(p))
      ensures CompletesWith(old(Now()), Now(), p)
    {
      CompletedMeans(Now(), p);
      hide Invariant, Completed, ResultFor, CompletesWith;
      NextKeeps(Now(), Complete(p));
      CompletionFindsPending(Now(), p);
      CompletedParts(Now(), p);
      var producer := producers[p];
      var key := producer.owned[producer.done];
      var f := registry[key];
      registry := registry - {key};
      futures := futures[f := futures[f].(outcome := Some(ResultFor(producer.owned, producer.result.value, key)))];
      producers := producers[p := producer.(done := producer.done + 1)];
    }
  }

  lemma NotYet<K>(s: seq<K>, n: nat)
    requires NoDuplicates(s) && n < |s|
    ensures s[n] !in s[..n]
  {
  }

  /** Whoever awaits a pending future awaits a producer that can go on. */
  lemma NobodyIsStuck<K(!new), T(!new)>(es: seq<Event<K, T>>, f: nat, produced: Option<map<K, T>>)
    requires f < |Run(es).futures| && Run(es).futures[f].outcome.None?
    ensures var s, p := Run(es), Run(es).futures[f].producer;
            && 0 <= p < |s.producers| && Owed(s, [], p, s.futures[f].key)
            && (Enabled(s, Return(p, produced)) || Enabled(s, Complete(p)))
  {
    RunKeeps(es);
  }
}
