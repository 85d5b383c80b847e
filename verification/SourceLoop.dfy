/** The whole source loop: its conclusions, and what its rounds, whatever the sources, decide for each key. */
module SourceLoop {
  import opened Core
  import opened WriteOrder
  import opened MemoryCache
  import opened Sources
  import opened Resolution
  import opened CacheOffers
  import opened CacheLookups
  import opened Rounds

  /** Every result is the conclusion from its key's standing. */
  ghost predicate Concluded(r: Rules, desk: Desk, force: set<Key>, results: map<Key, Outcome>) {
    forall k :: k in results ==> k in desk.failures && results[k] == Conclude(r, k, desk.At(k), k in force)
  }

  /** A value that is reported is pinned; an error that is reported is about its key and truthful. */
  ghost predicate Accounted(w: World, scope: Scope, memo: Entries, results: map<Key, Outcome>) {
    forall k :: k in results ==>
      match results[k]
      case Got(v) => k in memo && memo[k] == v
      case Missed(e) => e.key == k && Truthful(w, scope, e)
  }

  /** The stale values used for the open keys done so far. */
  ghost predicate FallenBack(r: Rules, desk: Desk, force: set<Key>, done: seq<Key>, stale: seq<Value>) {
    && NoDuplicates(KeysOf(stale))
    && (forall v :: v in stale ==>
          v.key in done && v.key in desk.failures && Conclude(r, v.key, desk.At(v.key), v.key in force) == Got(v))
    && (forall k :: k in done && k in desk.failures && Conclude(r, k, desk.At(k), k in force).Got? ==>
          Conclude(r, k, desk.At(k), k in force).value in stale)
  }

  /** The settled keys and the open ones done so far have a result. */
  ghost predicate AnsweredSoFar(desk: Desk, done: seq<Key>, answered: set<Key>) {
    forall k :: k in answered <==> k in desk.settled || k in done
  }

  lemma SettledAnswered(desk: Desk)
    ensures AnsweredSoFar(desk, [], desk.settled.Keys)
  {
  }

  lemma AnsweredStep(desk: Desk, done: seq<Key>, answered: set<Key>, key: Key)
    requires AnsweredSoFar(desk, done, answered)
    ensures key in answered <==> key in desk.settled || key in done
    ensures AnsweredSoFar(desk, done + [key], answered + {key})
  {
  }

  lemma AllAnswered(desk: Desk, done: seq<Key>, answered: set<Key>)
    requires AnsweredSoFar(desk, done, answered)
    ensures answered == desk.settled.Keys + Elems(done)
  {
  }

  lemma NothingConcluded(w: World, scope: Scope, desk: Desk, keys: seq<Key>, memo: Entries, force: set<Key>,
                         results: map<Key, Outcome>)
    requires desk.For(keys) && desk.Honest(w, scope, memo)
    requires results == map k | k in desk.settled :: Got(desk.settled[k])
    ensures Concluded(w.rules, desk, force, results) && Accounted(w, scope, memo, results)
    ensures FallenBack(w.rules, desk, force, [], [])
  {
  }

  lemma StaleKeys(r: Rules, desk: Desk, force: set<Key>, done: seq<Key>, stale: seq<Value>)
    requires FallenBack(r, desk, force, done, stale)
    ensures NoDuplicates(KeysOf(stale)) && forall v :: v in stale ==> v.key in done
  {
  }

  /** Failures that account for every source make a truthful error. */
  lemma SpokenIsTruthful(w: World, scope: Scope, k: Key, failures: seq<Failure>)
    requires SpokenFor(w, scope, k, failures, |w.sources|)
    requires forall f :: f in failures ==> TruthfulCause(w, scope, f.cause)
    ensures Truthful(w, scope, Unresolved(k, failures))
  {
    hide TruthfulCause, AccountsFor;
    forall s | s in w.sources ensures AccountsFor(w, scope, s, k, failures) {
      var j :| 0 <= j < |w.sources| && w.sources[j] == s;
      assert AccountsFor(w, scope, w.sources[j], k, failures);
    }
  }

  lemma ConcludedStep(w: World, scope: Scope, desk: Desk, keys: seq<Key>, start: Entries, memo: Entries,
                      force: set<Key>,
                      results: map<Key, Outcome>, done: seq<Key>, stale: seq<Value>, key: Key)
    requires desk.For(keys) && key in keys && key !in desk.settled && desk.Honest(w, scope, start) && key !in results
    requires key !in done
    requires Concluded(w.rules, desk, force, results) && Accounted(w, scope, memo, results)
    requires FallenBack(w.rules, desk, force, done, stale) && SpokenFor(w, scope, key, desk.failures[key], |w.sources|)
    ensures
      if key in desk.best && w.rules.policy(key).allowStaleOnError && key !in force then
        var v := desk.best[key];
        && v.key == key && FromOpenSource(w, scope, v) && v.DepKeys() <= start.Keys
        && Conclude(w.rules, key, desk.At(key), key in force) == Got(v)
        && Concluded(w.rules, desk, force, results[key := Got(v)])
        && Accounted(w, scope, memo[key := v], results[key := Got(v)])
        && FallenBack(w.rules, desk, force, done + [key], stale + [v])
      else
        var missed := Missed(Unresolved(key, desk.failures[key]));
        && Conclude(w.rules, key, desk.At(key), key in force) == missed
        && Concluded(w.rules, desk, force, results[key := missed]) && Accounted(w, scope, memo, results[key := missed])
        && FallenBack(w.rules, desk, force, done + [key], stale)
  {
    hide FromOpenSource, TruthfulCause, Truthful, AccountsFor, NoDuplicates, KeysOf, FallenBack;
    var outcome := Conclude(w.rules, key, desk.At(key), key in force);
    SpokenIsTruthful(w, scope, key, desk.failures[key]);
    FallenBackStep(w.rules, desk, force, done, stale, key);
  }

  lemma FallenBackStep(r: Rules, desk: Desk, force: set<Key>, done: seq<Key>, stale: seq<Value>, key: Key)
    requires key in desk.failures && key !in done && FallenBack(r, desk, force, done, stale)
    requires var outcome := Conclude(r, key, desk.At(key), key in force); outcome.Got? ==> outcome.value.key == key
    ensures var outcome := Conclude(r, key, desk.At(key), key in force);
            FallenBack(r, desk, force, done + [key], if outcome.Got? then stale + [outcome.value] else stale)
  {
    hide Conclude, Desk.At, NoDuplicates, KeysOf;
    var outcome := Conclude(r, key, desk.At(key), key in force);
    if outcome.Got? {
      TakenStep(stale, outcome.value, map[], map[], {}, {}) by { assert Untouched(stale, map[], map[], {}, {}); }
    }
  }

  /** Pinning a value for an unforced key. */
  lemma PinUnforced(w: World, scope: Scope, a: Situation, b: Situation, v: Value)
    requires b.Sound() && Progress(w, scope, a, b) && v.key !in a.memo && v.key !in b.force
    requires FromOpenSource(w, scope, v) && v.DepKeys() <= b.memo.Keys
    ensures var c := b.(memo := b.memo[v.key := v]);
            c.Sound() && Progress(w, scope, a, c)
  {
    hide FromOpenSource, Progress;
    OpenIsDeclared(w, scope, v);
    ProgressPin(w, scope, a, b, v);
    assert b.force - {v.key} == b.force;
  }

  // ---- The source loop over any sources --------------------------------------------------------

  /**
    Where a key stands after the logged rounds: every round advances it by what it found pinned and what its source
    answered.
   */
  ghost function Logged(w: World, scope: Scope, log: seq<RoundLog>, k: Key, now: real): Standing
    requires |log| <= |w.sources|
  {
    if log == [] then Open([], None)
    else
      var n := |log| - 1;
      var round, st := log[n], Logged(w, scope, log[..n], k, now);
      Advance(w.rules, PickUp(st, Lookup(round.memo, k)), VerdictIn(w, scope, w.sources[n], round.attempts, k),
              Lookup(round.stored, k), scope.cacheSource, now)
  }

  ghost predicate LoggedAt(w: World, scope: Scope, log: seq<RoundLog>, keys: seq<Key>, desk: Desk, now: real) {
    |log| <= |w.sources| && forall k :: k in keys ==> k in desk.failures && desk.At(k) == Logged(w, scope, log, k, now)
  }

  /** Round by round, the logged attempts are those of the sources in priority order. */
  ghost predicate LoggedBy(w: World, ancestry: seq<Key>, log: seq<RoundLog>) {
    |log| <= |w.sources| && forall i :: 0 <= i < |log| ==> AttemptedBy(w, w.sources[i], ancestry, log[i].asked,
                                                                       log[i].attempts)
  }

  /** Every result is concluded from what the sources answered, in priority order. */
  ghost predicate EachLogged(w: World, scope: Scope, log: seq<RoundLog>, keys: seq<Key>, force: set<Key>,
                             results: map<Key, Outcome>, now: real) {
    && |log| <= |w.sources|
    && forall k :: k in keys ==> k in results && results[k] == Conclude(w.rules, k, Logged(w, scope, log, k, now),
                                                                        k in force)
  }

  lemma NothingLogged(w: World, ancestry: seq<Key>)
    ensures LoggedBy(w, ancestry, [])
  {
  }

  lemma LoggedBegin(w: World, scope: Scope, keys: seq<Key>, desk: Desk, now: real)
    requires desk.For(keys) && forall k :: k in keys ==> desk.At(k) == Open([], None)
    ensures LoggedAt(w, scope, [], keys, desk, now)
  {
  }

  lemma LoggedStep(w: World, scope: Scope, ancestry: seq<Key>, log: seq<RoundLog>, round: RoundLog, keys: seq<Key>,
                   desk: Desk, d: Desk, now: real)
    requires |log| < |w.sources| && LoggedAt(w, scope, log, keys, desk, now) && LoggedBy(w, ancestry, log)
    requires RoundBy(w, scope, w.sources[|log|], keys, desk, d, round, now)
    requires AttemptedBy(w, w.sources[|log|], ancestry, round.asked, round.attempts)
    ensures LoggedAt(w, scope, log + [round], keys, d, now) && LoggedBy(w, ancestry, log + [round])
  {
    hide Advance, VerdictIn, Desk.At, Lookup, PickUp, AttemptedBy;
    assert (log + [round])[..|log|] == log;
  }

  lemma LoggedEnd(w: World, scope: Scope, log: seq<RoundLog>, keys: seq<Key>, desk: Desk, force: set<Key>,
                  results: map<Key, Outcome>, now: real)
    requires LoggedAt(w, scope, log, keys, desk, now) && results.Keys == Elems(keys)
    requires Concluded(w.rules, desk, force, results)
    ensures EachLogged(w, scope, log, keys, force, results, now)
  {
    hide Logged, Conclude, Desk.At;
    forall k | k in keys
      ensures k in results && results[k] == Conclude(w.rules, k, Logged(w, scope, log, k, now), k in force)
    {
      assert k in results;
    }
  }

  ghost function LogVerdict(w: World, scope: Scope, log: seq<RoundLog>, k: Key, i: nat): Verdict
    requires i < |log| <= |w.sources|
  {
    VerdictIn(w, scope, w.sources[i], log[i].attempts, k)
  }

  /** The round settles an open key: it found the key pinned, or its source answered with a current value. */
  ghost predicate Decides(w: World, scope: Scope, log: seq<RoundLog>, k: Key, i: nat)
    requires i < |log| <= |w.sources|
  {
    k in log[i].memo || LogVerdict(w, scope, log, k, i).Current?
  }

  /** The failures of the sources, in source order. */
  ghost function LogFailures(w: World, scope: Scope, log: seq<RoundLog>, k: Key): seq<Failure>
    requires |log| <= |w.sources|
  {
    if log == [] then []
    else LogFailures(w, scope, log[..|log| - 1], k) + FailureOf(LogVerdict(w, scope, log, k, |log| - 1))
  }

  lemma LogPrefix(w: World, scope: Scope, log: seq<RoundLog>, front: seq<RoundLog>, k: Key)
    requires 0 < |log| <= |w.sources| && front == log[..|log| - 1]
    ensures forall i :: 0 <= i < |front| ==> LogVerdict(w, scope, front, k, i) == LogVerdict(w, scope, log, k, i)
    ensures forall i :: 0 <= i < |front| ==> (Decides(w, scope, front, k, i) <==> Decides(w, scope, log, k, i))
  {
  }

  /**
    Over any sources, derived ones included: the first round that finds the key pinned or its source current decides,
    by the pinned value or by the answer, which may yield to a cached value of higher authority.
   */
  lemma {:induction false} FirstRoundDecides(w: World, scope: Scope, log: seq<RoundLog>, k: Key, now: real, i: nat)
    requires i < |log| <= |w.sources| && Decides(w, scope, log, k, i)
    requires forall j :: 0 <= j < i ==> !Decides(w, scope, log, k, j)
    ensures Logged(w, scope, log, k, now) ==
      if k in log[i].memo then Settled(log[i].memo[k])
      else Settled(Superseded(Lookup(log[i].stored, k), LogVerdict(w, scope, log, k, i).value, scope.cacheSource, now))
    decreases |log|
  {
    hide VerdictIn, Superseded;
    var front := log[..|log| - 1];
    LogPrefix(w, scope, log, front, k);
    hide Decides, LogVerdict;
    if i < |front| {
      FirstRoundDecides(w, scope, front, k, now, i);
      assert front[i] == log[i];
    } else {
      NoRoundDecides(w, scope, front, k, now);
    }
    LoggedLast(w, scope, log, front, k, now);
  }

  /** A key that no round decides stays open with every failure in source order. */
  lemma {:induction false} NoRoundDecides(w: World, scope: Scope, log: seq<RoundLog>, k: Key, now: real)
    requires |log| <= |w.sources| && forall i :: 0 <= i < |log| ==> !Decides(w, scope, log, k, i)
    ensures Logged(w, scope, log, k, now).Open?
    ensures Logged(w, scope, log, k, now).failures == LogFailures(w, scope, log, k)
    decreases |log|
  {
    hide VerdictIn, BetterStale;
    if log != [] {
      var front := log[..|log| - 1];
      LogPrefix(w, scope, log, front, k);
      assert !Decides(w, scope, log, k, |log| - 1);
      NoRoundDecides(w, scope, front, k, now);
    }
  }

  /** What the last round makes of a key. */
  lemma LoggedLast(w: World, scope: Scope, log: seq<RoundLog>, front: seq<RoundLog>, k: Key, now: real)
    requires 0 < |log| <= |w.sources| && front == log[..|log| - 1]
    ensures var n, st := |front|, Logged(w, scope, front, k, now);
            && (st.Settled? ==> Logged(w, scope, log, k, now) == st)
            && (st.Open? && k in log[n].memo ==> Logged(w, scope, log, k, now) == Settled(log[n].memo[k]))
            && (st.Open? && k !in log[n].memo && LogVerdict(w, scope, log, k, n).Current? ==>
                  Logged(w, scope, log, k, now) == Settled(Superseded(Lookup(log[n].stored, k),
                                                                      LogVerdict(w, scope, log, k, n).value,
                                                                      scope.cacheSource, now)))
            && (Decides(w, scope, log, k, n) <==> k in log[n].memo || LogVerdict(w, scope, log, k, n).Current?)
  {
  }
}
