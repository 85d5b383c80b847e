/** Publishing updates: the publisher picks one winner per key itself before the cache decides. */
module Publisher {
  import opened Core
  import opened WriteOrder
  import opened MemoryCache
  import opened AsyncMemoryCache
  import opened Sources
  import opened CacheOffers

  datatype Update = Update(key: Key, payload: Payload, source: string, observedAt: Option<real>, version: Version)

  function ObservedAt(u: Update, now: real): real {
    if u.observedAt.Some? then u.observedAt.value else now
  }

  /** The value an update would be stored as. */
  function ValueOf(u: Update, r: Rules, now: real): (v: Value)
    ensures v.key == u.key
  {
    var observed := ObservedAt(u, now);
    var age := Max0(now - observed);
    Value(u.key, u.payload, u.source, observed, age, r.policy(u.key).ttl.Exceeded(age), false, r.rank(u.key, u.source),
          u.version, [])
  }

  predicate TooFarAhead(u: Update, r: Rules, now: real) {
    r.rejectFuture && ObservedAt(u, now) - now > r.futureTolerance
  }

  /** An update is observed at its own timestamp or now; what it is stored as carries it, judged by its ttl. */
  lemma UpdateMeans(u: Update, r: Rules, now: real)
    ensures var observed := if u.observedAt.Some? then u.observedAt.value else now;
            var age, ttl := if now > observed then now - observed else 0.0, r.policy(u.key).ttl;
            && (TooFarAhead(u, r, now) <==> r.rejectFuture && observed > now + r.futureTolerance)
            && ValueOf(u, r, now) ==
                 Value(u.key, u.payload, u.source, observed, age, ttl.Finite? && age > ttl.seconds, false,
                       r.rank(u.key, u.source), u.version, [])
  {
  }

  ghost function ValuesOf(us: seq<Update>, r: Rules, now: real): (vs: seq<Value>)
    ensures |vs| == |us| && forall i :: 0 <= i < |us| ==> vs[i] == ValueOf(us[i], r, now)
  {
    seq(|us|, i requires 0 <= i < |us| => ValueOf(us[i], r, now))
  }

  /** The order on (authority, observation time) pairs. */
  predicate PairAtLeast(a: (int, real), b: (int, real)) {
    a.0 > b.0 || (a.0 == b.0 && a.1 >= b.1)
  }

  /** The publisher's own status check; none means the update is written. */
  function IgnoredStatus(previous: Option<Value>, candidate: Value, force: bool,
                         replaceEqual: bool): Option<WriteStatus> {
    if force || previous.None? then None
    else if candidate.rank < previous.value.rank then Some(IgnoredLowerAuthority)
    else if candidate.rank > previous.value.rank then None
    else if previous.value.observedAt > candidate.observedAt then Some(IgnoredOlder)
    else if previous.value.observedAt == candidate.observedAt && !replaceEqual then Some(IgnoredDuplicate)
    else None
  }

  /** The publisher and the cache decide every write alike. */
  lemma StatusesAgree(previous: Option<Value>, candidate: Value, force: bool, replaceEqual: bool)
    ensures var status := WriteStatusOf(previous, candidate, force, replaceEqual);
            IgnoredStatus(previous, candidate, force, replaceEqual) == if status == Stored then None else Some(status)
  {
  }

  ghost function Prepared(chosen: map<Key, Update>, r: Rules, now: real): Entries {
    map k | k in chosen :: ValueOf(chosen[k], r, now)
  }

  /** The order and the members chosen from the first updates are the ones the cache would choose. */
  ghost predicate Chosen(us: seq<Update>, n: nat, r: Rules, now: real, order: seq<Key>, chosen: map<Key, Update>,
                         precedence: map<Key, (int, real)>) {
    && n <= |us|
    && order == Distinct(KeysOf(ValuesOf(us, r, now)[..n]))
    && Selects(ValuesOf(us, r, now)[..n], Prepared(chosen, r, now))
    && precedence.Keys == chosen.Keys
    && (forall k :: k in chosen ==> chosen[k].key == k && precedence[k] == (r.rank(k, chosen[k].source),
                                                                            ObservedAt(chosen[k], now)))
  }

  lemma NothingChosen(us: seq<Update>, r: Rules, now: real)
    ensures Chosen(us, 0, r, now, [], map[], map[])
  {
    assert ValuesOf(us, r, now)[..0] == [] && KeysOf([]) == [];
  }

  lemma ChosenStep(us: seq<Update>, n: nat, r: Rules, now: real, order: seq<Key>, chosen: map<Key, Update>,
                   precedence: map<Key, (int, real)>)
    requires n < |us| && Chosen(us, n, r, now, order, chosen, precedence)
    ensures var u := us[n];
            var pair := (r.rank(u.key, u.source), ObservedAt(u, now));
            var order' := if u.key in chosen then order else order + [u.key];
            if u.key !in precedence || PairAtLeast(pair, precedence[u.key]) then
              Chosen(us, n + 1, r, now, order', chosen[u.key := u], precedence[u.key := pair])
            else Chosen(us, n + 1, r, now, order', chosen, precedence)
  {
    hide Distinct, KeysOf, Selects, NoDuplicates;
    var vs, u := ValuesOf(us, r, now), us[n];
    var before := Prepared(chosen, r, now);
    var taken := u.key !in precedence || PairAtLeast((r.rank(u.key, u.source), ObservedAt(u, now)), precedence[u.key]);
    var after := if taken then chosen[u.key := u] else chosen;
    assert Prepared(after, r, now) == if taken then before[u.key := vs[n]] else before;
    SelectionStep(vs, n, before, Prepared(after, r, now));
  }

  /** Update `i` is the first that was observed too far in the future. */
  ghost predicate FirstTooFar(us: seq<Update>, r: Rules, now: real, i: int) {
    0 <= i < |us| && TooFarAhead(us[i], r, now) && forall j :: 0 <= j < i ==> !TooFarAhead(us[j], r, now)
  }

  /** The selection loop over the updates; it stops at the first observation too far in the future. */
  method ChooseWinners(us: seq<Update>, r: Rules, now: real)
    returns (rejected: Option<Key>, order: seq<Key>, chosen: map<Key, Update>)
    ensures rejected.Some? <==> exists i :: 0 <= i < |us| && TooFarAhead(us[i], r, now)
    ensures rejected.Some? ==> exists i :: FirstTooFar(us, r, now, i) && us[i].key == rejected.value
    ensures rejected.None? ==>
      && order == Select(ValuesOf(us, r, now)).order
      && Prepared(chosen, r, now) == Select(ValuesOf(us, r, now)).byKey
  {
    hide Chosen, Prepared, ValueOf;
    var precedence: map<Key, (int, real)> := map[];
    order, chosen := [], map[];
    NothingChosen(us, r, now);
    for n := 0 to |us|
      invariant Chosen(us, n, r, now, order, chosen, precedence)
      invariant precedence.Keys == chosen.Keys
      invariant forall i :: 0 <= i < n ==> !TooFarAhead(us[i], r, now)
    {
      var u := us[n];
      if TooFarAhead(u, r, now) {
        assert FirstTooFar(us, r, now, n);
        return Some(u.key), [], map[];
      }
      var pair := (r.rank(u.key, u.source), ObservedAt(u, now));
      ChosenStep(us, n, r, now, order, chosen, precedence);
      if u.key !in chosen {
        order := order + [u.key];
      }
      if u.key !in precedence || PairAtLeast(pair, precedence[u.key]) {
        chosen := chosen[u.key := u];
        precedence := precedence[u.key := pair];
      }
    }
    ChosenIsSelected(us, r, now, order, chosen, precedence);
    rejected := None;
  }

  lemma ChosenIsSelected(us: seq<Update>, r: Rules, now: real, order: seq<Key>, chosen: map<Key, Update>,
                         precedence: map<Key, (int, real)>)
    requires Chosen(us, |us|, r, now, order, chosen, precedence)
    ensures order == Select(ValuesOf(us, r, now)).order
    ensures Prepared(chosen, r, now) == Select(ValuesOf(us, r, now)).byKey
  {
    var vs := ValuesOf(us, r, now);
    assert vs[..|us|] == vs;
    SelectionUnique(vs, Prepared(chosen, r, now));
  }

  // ---- Handing the winners to the cache -------------------------------------------------------

  function InOrder(c: Candidates): (vs: seq<Value>)
    requires c.Indexed()
    ensures |vs| == |c.order| && forall i :: 0 <= i < |vs| ==> vs[i] == c.byKey[c.order[i]]
  {
    seq(|c.order|, i requires 0 <= i < |c.order| => c.byKey[c.order[i]])
  }

  /** Selecting again from the winners selects the same: the cache's own selection finds nothing left to do. */
  lemma SelectionIdempotent(c: Candidates)
    requires c.Valid()
    ensures Select(InOrder(c)) == c
  {
    var vs := InOrder(c);
    assert KeysOf(vs) == c.order by {
      forall i | 0 <= i < |vs| ensures KeysOf(vs)[i] == c.order[i] { assert c.order[i] in c.byKey; }
    }
    DistinctFixpoint(c.order);
    forall k ensures Lookup(c.byKey, k) == Winner(vs, k) {
      WinnerInOrder(c, k);
    }
    SelectionUnique(vs, c.byKey);
  }

  lemma WinnerInOrder(c: Candidates, k: Key)
    requires c.Valid() && KeysOf(InOrder(c)) == c.order
    ensures Winner(InOrder(c), k) == Lookup(c.byKey, k)
  {
    hide Winner;
    var vs := InOrder(c);
    if Winner(vs, k).Some? {
      var i := WinnerIsLastMaximum(vs, k);
      assert KeysOf(vs)[i] == k;
    }
    if k in c.byKey {
      var i :| 0 <= i < |c.order| && c.order[i] == k;
      WinnerOfDistinct(vs, i);
    }
  }

  /** Builds the values of the chosen updates, in order. */
  method Prepare(order: seq<Key>, chosen: map<Key, Update>, r: Rules, now: real) returns (vs: seq<Value>)
    requires forall k :: k in order ==> k in chosen
    ensures |vs| == |order| && forall i :: 0 <= i < |order| ==> vs[i] == ValueOf(chosen[order[i]], r, now)
  {
    vs := [];
    for n := 0 to |order|
      invariant |vs| == n && forall i :: 0 <= i < n ==> vs[i] == ValueOf(chosen[order[i]], r, now)
    {
      assert order[n] in order;
      vs := vs + [ValueOf(chosen[order[n]], r, now)];
    }
  }

  datatype Publication = NothingPublished | FutureRejected(key: Key) | Published(results: map<Key, WriteResult>)

  const ALL_VALUES := FreshnessPolicy(Infinite, Infinite, true, Blocking)

  function AllValues(keys: seq<Key>): (p: Policies)
    ensures forall k :: k in p <==> k in keys
    ensures forall k :: k in p ==> p[k].maxStale.Infinite?
  {
    map k | k in keys :: ALL_VALUES
  }

  /** The preliminary read of what is stored under the keys of a batch. */
  method ReadExisting(cache: Cache, order: seq<Key>, now: real)
    requires cache.Valid() && NoDuplicates(order)
    modifies cache
    ensures cache.Valid() && cache.State() == ReadAll(old(cache.State()), order, now, AllValues(order))
  {
    hide ReadAll, LookupAt, Distinct, NoDuplicates;
    DistinctFixpoint(order);
    var lookups := cache.GetMany(order, now, AllValues(order));
  }

  /**
    Publishes a batch. After the preliminary read of the stored values the cache ends as if it had been given
    every update and had selected by itself; an observation too far in the future rejects the batch before
    anything is read or written.
   */
  method PublishMany(cache: Cache, us: seq<Update>, r: Rules, now: real, force: bool, replaceEqual: bool,
                     interference: (nat, Store) -> Store)
    returns (p: Publication, ghost instant: Store, ghost sections: nat)
    requires cache.Valid() && KeepsValid(interference)
    modifies cache
    ensures cache.Valid() && instant.Valid()
    ensures p.NothingPublished? <==> us == []
    ensures p.FutureRejected? <==> exists i :: 0 <= i < |us| && TooFarAhead(us[i], r, now)
    ensures p.FutureRejected? ==> exists i :: FirstTooFar(us, r, now, i) && us[i].key == p.key
    ensures !p.Published? ==> cache.State() == old(cache.State())
    ensures p.Published? ==>
      var c := Select(ValuesOf(us, r, now));
      && instant == Drift(interference, ReadAll(old(cache.State()), c.order, now, AllValues(c.order)), sections)
      && sections <= |c.order| + 1
      && cache.State() == Commit(instant, c, force, replaceEqual, cache.maxEntries)
      && p.results.Keys == c.byKey.Keys
      && forall k :: k in p.results ==> Reported(instant.entries, c, k, force, replaceEqual, p.results[k])
  {
    hide Commit, Select, Reported, Store.Valid, KeepsValid, Drift, Winner, NoDuplicates, ReadAll;
    instant := cache.State();
    if us == [] {
      return NothingPublished, instant, 0;
    }
    var rejected, order, chosen := ChooseWinners(us, r, now);
    if rejected.Some? {
      return FutureRejected(rejected.value), instant, 0;
    }
    ghost var c := Select(ValuesOf(us, r, now));
    assert forall k :: k in order ==> k in Prepared(chosen, r, now);
    var candidates := Prepare(order, chosen, r, now);
    assert candidates == InOrder(c) by {
      assert forall i :: 0 <= i < |order| ==>
        order[i] in order && c.byKey[order[i]] == ValueOf(chosen[order[i]], r, now);
    }
    SelectionIdempotent(c);
    SelectsSomething(ValuesOf(us, r, now));
    ReadExisting(cache, order, now);
    var results, locked;
    results, locked, instant := cache.SetManyIfNewer(candidates, force, replaceEqual, interference);
    p, sections := Published(results), locked;
  }
}
