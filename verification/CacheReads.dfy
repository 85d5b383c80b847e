/** What reading and removing mean, key by key: which entries leave, what is answered and what is counted. */
module CacheReads {
  import opened Core
  import opened WriteOrder
  import opened DependencyGraph
  import opened MemoryCache
  import opened CacheRuns

  /** What becomes of a requested key when its turn comes. */
  datatype Fate = Missing | Outdated | Expired | Fresh | Stale

  function AgeAt(now: real, observedAt: real): real {
    if now > observedAt then now - observedAt else 0.0
  }

  predicate WithinLimit(limit: Limit, age: real) {
    limit.Infinite? || age <= limit.seconds
  }

  /** The entries when the turn of key `i` comes: the original ones without the keys asked for earlier that are gone. */
  ghost function AtTurn(before: Entries, after: Entries, keys: seq<Key>, i: nat): Entries
    requires i <= |keys|
  {
    map k | k in before && (k in keys[..i] ==> k in after) :: before[k]
  }

  /**
    A key is outdated when something it depends on is not current, and else expired when older than the stale limit.
   */
  ghost function FateOf(entries: Entries, k: Key, now: real, policy: FreshnessPolicy): Fate {
    if k !in entries then Missing
    else if !GraphCurrent(entries, k) then Outdated
    else
      var age := AgeAt(now, entries[k].observedAt);
      if !WithinLimit(policy.maxStale, age) then Expired
      else if WithinLimit(policy.ttl, age) then Fresh
      else Stale
  }

  ghost function FateAt(before: Entries, after: Entries, keys: seq<Key>, now: real, policies: Policies, i: nat): Fate
    requires i < |keys| && keys[i] in policies
  {
    FateOf(AtTurn(before, after, keys, i), keys[i], now, policies[keys[i]])
  }

  /** What is answered about a key with this fate. */
  ghost function AnswerTo(stored: Option<Value>, now: real, fate: Fate): CacheLookup {
    var age := if stored.Some? then Some(AgeAt(now, stored.value.observedAt)) else None;
    CacheLookup(if fate.Fresh? || fate.Stale? then stored else None, fate.Fresh?, fate.Fresh? || fate.Stale?, age)
  }

  /** The turns with a certain fate. */
  ghost function Turns(before: Entries, after: Entries, keys: seq<Key>, now: real, policies: Policies,
                       fate: Fate): set<nat>
    requires forall k :: k in keys ==> k in policies
  {
    set i | 0 <= i < |keys| && FateAt(before, after, keys, now, policies, i) == fate
  }

  /** Exactly the entries that were outdated or expired when asked for have left. */
  ghost predicate Leaves(before: Entries, after: Entries, keys: seq<Key>, now: real, policies: Policies)
    requires forall k :: k in keys ==> k in policies
  {
    && (forall k :: k in after ==> k in before && after[k] == before[k])
    && (forall k :: k in before && k !in keys ==> k in after)
    && forall i :: 0 <= i < |keys| ==>
         var fate := FateAt(before, after, keys, now, policies, i);
         keys[i] in after <==> fate.Fresh? || fate.Stale?
  }

  /** Every turn is counted once, by its fate. */
  ghost predicate Counted(before: Store, after: Store, keys: seq<Key>, now: real, policies: Policies)
    requires forall k :: k in keys ==> k in policies
  {
    var missing := |Turns(before.entries, after.entries, keys, now, policies, Missing)|;
    var outdated := |Turns(before.entries, after.entries, keys, now, policies, Outdated)|;
    var expired := |Turns(before.entries, after.entries, keys, now, policies, Expired)|;
    var servedFresh := |Turns(before.entries, after.entries, keys, now, policies, Fresh)|;
    var servedStale := |Turns(before.entries, after.entries, keys, now, policies, Stale)|;
    && after.changes.sets == before.changes.sets && after.changes.evictions == before.changes.evictions
    && after.changes.invalidations == before.changes.invalidations + outdated
    && after.changes.expirations == before.changes.expirations + expired
    && after.lookups.misses == before.lookups.misses + missing + outdated + expired
    && after.lookups.hits == before.lookups.hits + servedFresh + servedStale
    && after.lookups.freshHits == before.lookups.freshHits + servedFresh
    && after.lookups.staleHits == before.lookups.staleHits + servedStale
  }

  /** A read step by its fate. */
  lemma ReadOneByFate(at: Store, k: Key, now: real, policy: FreshnessPolicy)
    requires WellFiled(at.entries)
    ensures var (r, answer) := ReadOne(at, k, now, policy);
            var fate := FateOf(at.entries, k, now, policy);
            answer == AnswerTo(Lookup(at.entries, k), now, fate) && OneCounted(at, r, fate)
            && r.entries == (if fate.Outdated? || fate.Expired? then at.entries - {k} else at.entries)
  {
    hide GraphCurrent, DependenciesCurrent, Without;
    if k in at.entries {
      CheckDecidesGraph(at.entries, k);
    }
  }

  ghost predicate OneCounted(at: Store, r: Store, fate: Fate) {
    && r.changes == at.changes.(invalidations := at.changes.invalidations + Bit(fate.Outdated?),
                                expirations := at.changes.expirations + Bit(fate.Expired?))
    && r.lookups == ReadCounts(at.lookups.hits + Bit(fate.Fresh? || fate.Stale?),
                               at.lookups.misses + Bit(!fate.Fresh? && !fate.Stale?),
                               at.lookups.freshHits + Bit(fate.Fresh?), at.lookups.staleHits + Bit(fate.Stale?))
  }

  /** Each key is answered according to its fate. */
  ghost predicate AnswersBy(s: Store, after: Entries, keys: seq<Key>, now: real, policies: Policies)
    requires WellFiled(s.entries) && forall k :: k in keys ==> k in policies
  {
    forall i :: 0 <= i < |keys| ==>
      LookupAt(s, keys, now, policies, i) ==
        AnswerTo(Lookup(s.entries, keys[i]), now, FateAt(s.entries, after, keys, now, policies, i))
  }

  /** The whole read: what leaves, what is answered and what is counted. */
  lemma {:induction false} ReadMeans(s: Store, keys: seq<Key>, now: real, policies: Policies)
    requires WellFiled(s.entries) && NoDuplicates(keys) && forall k :: k in keys ==> k in policies
    ensures var r := ReadAll(s, keys, now, policies);
            && Leaves(s.entries, r.entries, keys, now, policies) && Counted(s, r, keys, now, policies)
            && AnswersBy(s, r.entries, keys, now, policies)
  {
    hide ReadOne, ReadAll, LookupAt, FateAt, FateOf, WellFiled, Counted, OneCounted, AnswersBy, Leaves;
    if keys == [] {
      ReadNothing(s, now, policies);
      NothingRead(s, now, policies);
    } else {
      var n := |keys| - 1;
      var front, k := keys[..n], keys[n];
      var at := ReadAll(s, front, now, policies);
      assert k in keys;
      ReadStep(s, keys, now, policies, n);
      assert keys[..n + 1] == keys;
      ReadMeans(s, front, now, policies);
      FewerFiled(s.entries, at.entries);
      var r := ReadOne(at, k, now, policies[k]).0;
      ReadOneByFate(at, k, now, policies[k]);
      ReadMeansStep(s, at, r, keys, now, policies);
    }
  }

  lemma FewerFiled(before: Entries, after: Entries)
    requires WellFiled(before) && SubEntries(after, before)
    ensures WellFiled(after)
  {
  }

  lemma ReadMeansStep(s: Store, at: Store, r: Store, keys: seq<Key>, now: real, policies: Policies)
    requires WellFiled(s.entries) && NoDuplicates(keys) && keys != [] && forall k :: k in keys ==> k in policies
    requires var front := keys[..|keys| - 1];
      && Leaves(s.entries, at.entries, front, now, policies) && Counted(s, at, front, now, policies)
      && AnswersBy(s, at.entries, front, now, policies)
    requires var k := keys[|keys| - 1];
      var fate := FateOf(at.entries, k, now, policies[k]);
      && OneCounted(at, r, fate)
      && r.entries == (if fate.Outdated? || fate.Expired? then at.entries - {k} else at.entries)
      && LookupAt(s, keys, now, policies, |keys| - 1) == AnswerTo(Lookup(at.entries, k), now, fate)
    ensures Leaves(s.entries, r.entries, keys, now, policies) && Counted(s, r, keys, now, policies)
    ensures AnswersBy(s, r.entries, keys, now, policies)
  {
    hide LookupAt, FateAt, WellFiled, Counted, OneCounted, GraphCurrent, AnswerTo;
    var n := |keys| - 1;
    var front, k := keys[..n], keys[n];
    FateLast(s.entries, at.entries, r.entries, keys, now, policies);
    hide FateOf;
    forall i | 0 <= i < n
      ensures FateAt(s.entries, r.entries, keys, now, policies, i) ==
        FateAt(s.entries, at.entries, front, now, policies, i)
      ensures LookupAt(s, keys, now, policies, i) == LookupAt(s, front, now, policies, i)
      ensures front[i] == keys[i] != k
    {
      FateStays(s.entries, at.entries, r.entries, keys, now, policies, i);
      LookupBefore(s, keys, now, policies, n, i);
    }
    CountedStep(s, at, r, keys, now, policies);
  }

  lemma NothingRead(s: Store, now: real, policies: Policies)
    requires WellFiled(s.entries)
    ensures Leaves(s.entries, s.entries, [], now, policies) && Counted(s, s, [], now, policies)
    ensures AnswersBy(s, s.entries, [], now, policies)
  {
    assert forall fate :: Turns(s.entries, s.entries, [], now, policies, fate) == {};
  }

  /** The fate of an earlier key does not change. */
  lemma FateStays(before: Entries, at: Entries, after: Entries, keys: seq<Key>, now: real, policies: Policies, i: nat)
    requires NoDuplicates(keys) && (forall k :: k in keys ==> k in policies) && i < |keys| - 1
    requires after == at || after == at - {keys[|keys| - 1]}
    ensures FateAt(before, after, keys, now, policies, i) == FateAt(before, at, keys[..|keys| - 1], now, policies, i)
  {
    hide FateOf;
    var n := |keys| - 1;
    assert keys[..n][..i] == keys[..i];
    assert AtTurn(before, after, keys, i) == AtTurn(before, at, keys[..n], i);
  }

  /** The last key meets the entries that are left then. */
  lemma FateLast(before: Entries, at: Entries, after: Entries, keys: seq<Key>, now: real, policies: Policies)
    requires NoDuplicates(keys) && keys != [] && forall k :: k in keys ==> k in policies
    requires after == at || after == at - {keys[|keys| - 1]}
    requires forall k :: k in at ==> k in before && at[k] == before[k]
    requires forall k :: k in before && k !in keys[..|keys| - 1] ==> k in at
    ensures var n, k := |keys| - 1, keys[|keys| - 1];
            && FateAt(before, after, keys, now, policies, n) == FateOf(at, k, now, policies[k])
            && Lookup(at, k) == Lookup(before, k)
  {
    hide FateOf;
    var n, k := |keys| - 1, keys[|keys| - 1];
    assert k !in keys[..n];
    forall x | x in before ensures (x in keys[..n] ==> x in after) <==> x in at {
    }
    assert AtTurn(before, after, keys, n) == at;
  }

  /** One more turn is counted. */
  lemma TurnsStep(before: Entries, at: Entries, after: Entries, keys: seq<Key>, now: real, policies: Policies,
                  fate: Fate)
    requires keys != [] && forall k :: k in keys ==> k in policies
    requires FatesAgree(before, at, after, keys, now, policies)
    ensures |Turns(before, after, keys, now, policies, fate)| ==
      |Turns(before, at, keys[..|keys| - 1], now, policies, fate)| +
      Bit(FateAt(before, after, keys, now, policies, |keys| - 1) == fate)
  {
    hide FateAt;
    var n := |keys| - 1;
    var front := keys[..n];
    var less, more := Turns(before, at, front, now, policies, fate), Turns(before, after, keys, now, policies, fate);
    forall i: nat
      ensures i in more <==> i in less || (i == n && FateAt(before, after, keys, now, policies, n) == fate)
    {
      if i < n { assert front[i] == keys[i]; }
    }
    assert n !in less;
    if FateAt(before, after, keys, now, policies, n) == fate {
      assert more == less + {n};
    } else {
      assert more == less;
    }
  }

  /** The fates of all keys but the last are those of the read without it. */
  ghost predicate FatesAgree(before: Entries, at: Entries, after: Entries, keys: seq<Key>, now: real,
                             policies: Policies)
    requires keys != [] && forall k :: k in keys ==> k in policies
  {
    forall i :: 0 <= i < |keys| - 1 ==>
      FateAt(before, after, keys, now, policies, i) == FateAt(before, at, keys[..|keys| - 1], now, policies, i)
  }

  lemma CountedStep(s: Store, at: Store, r: Store, keys: seq<Key>, now: real, policies: Policies)
    requires keys != [] && forall k :: k in keys ==> k in policies
    requires Counted(s, at, keys[..|keys| - 1], now, policies)
    requires FatesAgree(s.entries, at.entries, r.entries, keys, now, policies)
    requires OneCounted(at, r, FateAt(s.entries, r.entries, keys, now, policies, |keys| - 1))
    ensures Counted(s, r, keys, now, policies)
  {
    hide FateAt, Turns, FatesAgree;
    TurnsStep(s.entries, at.entries, r.entries, keys, now, policies, Missing);
    TurnsStep(s.entries, at.entries, r.entries, keys, now, policies, Outdated);
    TurnsStep(s.entries, at.entries, r.entries, keys, now, policies, Expired);
    TurnsStep(s.entries, at.entries, r.entries, keys, now, policies, Fresh);
    TurnsStep(s.entries, at.entries, r.entries, keys, now, policies, Stale);
  }

  // ---- Removal --------------------------------------------------------------------------------------

  /** Exactly these entries leave, and so many removals are counted as invalidations or as expirations. */
  ghost predicate Removes(before: Store, after: Store, gone: set<Key>, expired: bool) {
    && gone <= before.entries.Keys
    && (forall k :: k in after.entries <==> k in before.entries && k !in gone)
    && (forall k :: k in after.entries ==> after.entries[k] == before.entries[k])
    && after.lookups == before.lookups
    && after.changes.sets == before.changes.sets && after.changes.evictions == before.changes.evictions
    && after.changes.invalidations == before.changes.invalidations + (if expired then 0 else |gone|)
    && after.changes.expirations == before.changes.expirations + (if expired then |gone| else 0)
  }

  lemma {:induction false} InvalidateAllMeans(s: Store, keys: seq<Key>)
    requires NoDuplicates(keys)
    ensures Removes(s, InvalidateAll(s, keys), Elems(keys) * s.entries.Keys, false)
  {
    hide Removes, NoDuplicates, Drop;
    if keys == [] {
      NothingRemoved(s);
      assert Elems<Key>([]) * s.entries.Keys == {};
    } else {
      var n := |keys| - 1;
      assert keys == keys[..n] + [keys[n]];
      FrontIsDistinct(keys);
      InvalidateAllMeans(s, keys[..n]);
      var gone := Elems(keys[..n]) * s.entries.Keys;
      RemovesOne(s, InvalidateAll(s, keys[..n]), gone, keys[n]);
      if keys[n] in s.entries {
        assert Elems(keys) * s.entries.Keys == gone + {keys[n]};
      } else {
        assert Elems(keys) * s.entries.Keys == gone;
      }
    }
  }

  lemma NothingRemoved(s: Store)
    ensures Removes(s, s, {}, false)
  {
  }

  lemma RemovesOne(s: Store, m: Store, gone: set<Key>, k: Key)
    requires Removes(s, m, gone, false) && k !in gone
    ensures k in m.entries <==> k in s.entries
    ensures k in m.entries ==>
      Removes(s, Drop(m, k).(changes := m.changes.(invalidations := m.changes.invalidations + 1)), gone + {k}, false)
  {
    hide Without;
  }

  lemma FrontIsDistinct(keys: seq<Key>)
    requires NoDuplicates(keys) && keys != []
    ensures NoDuplicates(keys[..|keys| - 1]) && keys[|keys| - 1] !in keys[..|keys| - 1]
  {
  }

  lemma InvalidateWhereMeans(s: Store, accepts: Key -> bool)
    requires s.Valid()
    ensures Removes(s, InvalidateWhere(s, accepts), set k | k in s.entries && accepts(k), false)
    ensures |Filter(s.order, accepts)| == |set k | k in s.entries && accepts(k)|
  {
    var removed := Filter(s.order, accepts);
    NoDuplicatesCardinality(removed);
    assert Elems(removed) == set k | k in s.entries && accepts(k);
  }

  /** Pruning removes exactly the entries that are older than their stale limit. */
  lemma PruneMeans(s: Store, now: real, policy: Key -> FreshnessPolicy)
    requires s.Valid()
    ensures Removes(s, PruneAll(s, now, policy), TooOld(s.entries, now, policy), true)
    ensures forall k :: k in Filter(s.order, IsExpired(s.entries, now, policy)) <==> k in TooOld(s.entries, now, policy)
  {
    var removed := Filter(s.order, IsExpired(s.entries, now, policy));
    NoDuplicatesCardinality(removed);
    assert Elems(removed) == TooOld(s.entries, now, policy);
  }

  ghost function TooOld(entries: Entries, now: real, policy: Key -> FreshnessPolicy): set<Key> {
    set k | k in entries && !WithinLimit(policy(k).maxStale, AgeAt(now, entries[k].observedAt))
  }
}
