/** Batch source calls: circuit groups, chunks of limited size, and one attempt per requested key. */
module BatchCalls {
  import opened Core
  import opened Sources
  import opened KeyLists
  import Dispatch

  // ---- Chunks -------------------------------------------------------------------------------------

  function Concat<T>(chunks: seq<seq<T>>): seq<T> {
    if chunks == [] then [] else Concat(chunks[..|chunks| - 1]) + chunks[|chunks| - 1]
  }

  /** Slices of the given size; only the last may be shorter. */
  method Chunks<T>(requested: seq<T>, size: nat) returns (chunks: seq<seq<T>>)
    requires size >= 1
    ensures Concat(chunks) == requested
    ensures forall i :: 0 <= i < |chunks| ==> 1 <= |chunks[i]| <= size && (i < |chunks| - 1 ==> |chunks[i]| == size)
  {
    chunks := [];
    var index := 0;
    while index < |requested|
      invariant 0 <= index <= |requested|
      invariant Concat(chunks) == requested[..index]
      invariant forall i :: 0 <= i < |chunks| ==>
        1 <= |chunks[i]| <= size && (i < |chunks| - 1 || index < |requested| ==> |chunks[i]| == size)
      decreases |requested| - index
    {
      var end := if index + size <= |requested| then index + size else |requested|;
      ghost var before := chunks;
      chunks := chunks + [requested[index..end]];
      assert chunks[..|chunks| - 1] == before;
      assert requested[..end] == requested[..index] + requested[index..end];
      index := end;
    }
    assert requested[..|requested|] == requested;
  }

  lemma {:induction false} ConcatMember<T>(chunks: seq<seq<T>>, x: T)
    ensures x in Concat(chunks) <==> exists i :: 0 <= i < |chunks| && x in chunks[i]
  {
    if chunks != [] {
      var n := |chunks| - 1;
      ConcatMember(chunks[..n], x);
      if x in Concat(chunks[..n]) {
        var i :| 0 <= i < n && x in chunks[..n][i];
        assert x in chunks[i];
      }
      if i :| 0 <= i < |chunks| && x in chunks[i] {
        if i < n { assert chunks[..n][i] == chunks[i]; }
      }
    }
  }

  // ---- Circuit groups -----------------------------------------------------------------------------

  /** Keys of one failure domain, called together; the first represents them. */
  type Groups<I> = map<I, seq<Key>>

  /** Groups the keys by their circuit identity, in order of first mention. */
  method CircuitGroups<I(==, !new)>(keys: seq<Key>, identity: Key -> I) returns (order: seq<I>, groups: Groups<I>)
    ensures NoDuplicates(order) && groups.Keys == Elems(order)
    ensures forall i :: i in order ==> groups[i] != []
    ensures forall i, k :: i in order ==> (k in groups[i] <==> k in keys && identity(k) == i)
    ensures forall k :: k in keys ==> identity(k) in order
  {
    order, groups := [], map[];
    for n := 0 to |keys|
      invariant NoDuplicates(order) && groups.Keys == Elems(order)
      invariant forall i :: i in order ==> groups[i] != []
      invariant forall i, k :: i in order ==> (k in groups[i] <==> k in keys[..n] && identity(k) == i)
      invariant forall k :: k in keys[..n] ==> identity(k) in order
    {
      var key := keys[n];
      var id := identity(key);
      assert keys[..n + 1] == keys[..n] + [key];
      if id in groups {
        groups := groups[id := groups[id] + [key]];
      } else {
        order := order + [id];
        groups := groups[id := [key]];
      }
    }
    assert keys[..|keys|] == keys;
  }

  // ---- One batch call -----------------------------------------------------------------------------

  datatype Fetch = Fetched(payloads: map<Key, Delivery>) | FetchFailed(fault: Fault)

  const CIRCUIT_OPEN := Failed(Faulted(Raised("circuit is open")))
  const OMITTED := Failed(Faulted(Raised("batch source omitted resource")))

  predicate InFuture(r: Rules, d: Delivery) {
    d.observedAt.Some? && r.rejectFuture && d.observedAt.value - d.receivedAt > r.futureTolerance
  }

  /** What a batch call that was made means for one of its keys. */
  function OutcomeOf(r: Rules, fetch: Fetch, k: Key): Attempt {
    match fetch
    case FetchFailed(fault) => Failed(Faulted(fault))
    case Fetched(payloads) =>
      if k !in payloads then OMITTED
      else if InFuture(r, payloads[k]) then Failed(FutureTimestamp)
      else Succeeded(payloads[k], [])
  }

  /** Asks the circuit of every group; refused groups fail at once. */
  method AdmitGroups<I(==, !new)>(unique: seq<Key>, identity: Key -> I, admits: I -> bool)
    returns (allowed: set<Key>, refused: map<Key, Attempt>)
    ensures forall k :: k in allowed <==> k in unique && admits(identity(k))
    ensures forall k :: k in refused <==> k in unique && !admits(identity(k))
    ensures forall k :: k in refused ==> refused[k] == CIRCUIT_OPEN
  {
    hide NoDuplicates;
    var order, groups := CircuitGroups(unique, identity);
    allowed, refused := {}, map[];
    for n := 0 to |order|
      invariant forall k :: k in allowed <==> k in unique && identity(k) in order[..n] && admits(identity(k))
      invariant forall k :: k in refused <==> k in unique && identity(k) in order[..n] && !admits(identity(k))
      invariant forall k :: k in refused ==> refused[k] == CIRCUIT_OPEN
    {
      var id := order[n];
      assert order[..n + 1] == order[..n] + [id] && id in order;
      if admits(id) {
        allowed := allowed + Elems(groups[id]);
      } else {
        refused := refused + map k | k in groups[id] :: CIRCUIT_OPEN;
      }
    }
    assert order[..|order|] == order;
  }

  /** Gives every active key its outcome of the one call that was made. */
  method Deal(active: seq<Key>, fetch: Fetch, r: Rules, refused: map<Key, Attempt>) returns (results: map<Key, Attempt>)
    ensures forall k :: k in results <==> k in refused || k in active
    ensures forall k :: k in active ==> results[k] == OutcomeOf(r, fetch, k)
    ensures forall k :: k in refused && k !in active ==> results[k] == refused[k]
  {
    hide OutcomeOf;
    results := refused;
    for n := 0 to |active|
      invariant forall k :: k in results <==> k in refused || k in active[..n]
      invariant forall k :: k in active[..n] ==> results[k] == OutcomeOf(r, fetch, k)
      invariant forall k :: k in refused && k !in active[..n] ==> results[k] == refused[k]
    {
      var key := active[n];
      assert active[..n + 1] == active[..n] + [key];
      results := results[key := OutcomeOf(r, fetch, key)];
    }
    assert active[..|active|] == active;
  }

  /**
    One batch call. Keys of refused circuits fail without being asked for; the source is asked once for the
    others, in request order, and each of them gets exactly one outcome even if the source leaves it out.
   */
  method AttemptBatch<I(==, !new)>(requested: seq<Key>, identity: Key -> I, admits: I -> bool, call: seq<Key> -> Fetch,
                                   r: Rules)
    returns (results: map<Key, Attempt>, ghost asked: seq<Key>)
    ensures results.Keys == Elems(requested)
    ensures forall k :: k in asked <==> k in requested && admits(identity(k))
    ensures forall i, j :: 0 <= i < j < |asked| ==> IndexOf(requested, asked[i]) < IndexOf(requested, asked[j])
    ensures forall k :: k in requested ==>
      results[k] == if admits(identity(k)) then OutcomeOf(r, call(asked), k) else CIRCUIT_OPEN
    ensures forall k :: k in requested && !admits(identity(k)) ==>
      results[k] == Failed(Faulted(Raised("circuit is open")))
    ensures forall k :: k in requested && admits(identity(k)) && call(asked).FetchFailed? ==>
      results[k] == Failed(Faulted(call(asked).fault))
    ensures forall k :: k in requested && admits(identity(k)) && call(asked).Fetched? && k !in call(asked).payloads ==>
      results[k] == Failed(Faulted(Raised("batch source omitted resource")))
    ensures forall k :: k in requested && admits(identity(k)) && call(asked).Fetched? && k in call(asked).payloads ==>
      var d := call(asked).payloads[k];
      results[k] == if r.rejectFuture && d.observedAt.Some? && d.observedAt.value - d.receivedAt > r.futureTolerance
                    then Failed(FutureTimestamp) else Succeeded(d, [])
  {
    hide Distinct, NoDuplicates;
    var unique := Distinct(requested);
    var allowed, refused := AdmitGroups(unique, identity, admits);
    var active := Kept(unique, allowed);
    asked := active;
    forall i, j | 0 <= i < j < |active| ensures IndexOf(requested, active[i]) < IndexOf(requested, active[j]) {
      KeptInOrder(unique, allowed, i, j);
      DistinctInOrder(requested, IndexOf(unique, active[i]), IndexOf(unique, active[j]));
    }
    if active == [] {
      assert forall k :: k in requested ==> k in unique && k !in active;
      return refused, asked;
    }
    results := Deal(active, call(active), r, refused);
  }

  /** The members of a sequence that are in a set, in order. */
  function Kept(s: seq<Key>, keep: set<Key>): (r: seq<Key>)
    ensures forall k :: k in r <==> k in s && k in keep
  {
    if s == [] then []
    else
      var n := |s| - 1;
      assert s == s[..n] + [s[n]];
      Kept(s[..n], keep) + if s[n] in keep then [s[n]] else []
  }

  lemma {:induction false} KeptInOrder(s: seq<Key>, keep: set<Key>, i: nat, j: nat)
    requires NoDuplicates(s) && i < j < |Kept(s, keep)|
    ensures Kept(s, keep)[i] in s && Kept(s, keep)[j] in s
    ensures IndexOf(s, Kept(s, keep)[i]) < IndexOf(s, Kept(s, keep)[j])
  {
    var n := |s| - 1;
    var front, r := Kept(s[..n], keep), Kept(s, keep);
    assert s == s[..n] + [s[n]];
    assert r[i] == front[i] && front[i] in front;
    IndexAppended(s[..n], s[n], r[i]);
    if j < |front| {
      KeptInOrder(s[..n], keep, i, j);
      IndexAppended(s[..n], s[n], r[j]);
    }
  }

  // ---- Chunked dispatch ---------------------------------------------------------------------------

  /** Merges the attempts of the chunks. */
  method Merge(chunks: seq<seq<Key>>, completed: seq<map<Key, Attempt>>) returns (merged: map<Key, Attempt>)
    requires |completed| == |chunks| && forall i :: 0 <= i < |chunks| ==> completed[i].Keys == Elems(chunks[i])
    requires forall i, j, k :: 0 <= i < j < |chunks| && k in chunks[i] ==> k !in chunks[j]
    ensures merged.Keys == Elems(Concat(chunks))
    ensures forall i, k :: 0 <= i < |chunks| && k in chunks[i] ==>
      k in completed[i] && k in merged && merged[k] == completed[i][k]
  {
    merged := map[];
    for n := 0 to |completed|
      invariant forall k :: k in merged <==> exists i :: 0 <= i < n && k in chunks[i]
      invariant forall i, k :: 0 <= i < n && k in chunks[i] ==>
        k in completed[i] && k in merged && merged[k] == completed[i][k]
    {
      merged := merged + completed[n];
    }
    forall k ensures k in merged <==> k in Concat(chunks) {
      ConcatMember(chunks, k);
    }
  }

  lemma {:induction false} DistinctChunks(chunks: seq<seq<Key>>, i: nat, j: nat, k: Key)
    requires NoDuplicates(Concat(chunks)) && i < j < |chunks| && k in chunks[i]
    ensures k !in chunks[j]
    decreases |chunks|
  {
    var n := |chunks| - 1;
    var front, last := Concat(chunks[..n]), chunks[n];
    assert Concat(chunks) == front + last;
    assert chunks[..n][i] == chunks[i];
    if j < n {
      assert NoDuplicates(front) by { assert forall a :: 0 <= a < |front| ==> front[a] == Concat(chunks)[a]; }
      assert chunks[..n][j] == chunks[j];
      DistinctChunks(chunks[..n], i, j, k);
    } else {
      ConcatMember(chunks[..n], k);
      var a :| 0 <= a < |front| && front[a] == k;
      forall b | 0 <= b < |last| ensures last[b] != k {
        assert (front + last)[a] == k && (front + last)[|front| + b] == last[b];
      }
    }
  }

  lemma ChunksAreDisjoint(chunks: seq<seq<Key>>)
    requires NoDuplicates(Concat(chunks))
    ensures forall i, j, k :: 0 <= i < j < |chunks| && k in chunks[i] ==> k !in chunks[j]
  {
    forall i, j, k | 0 <= i < j < |chunks| && k in chunks[i] ensures k !in chunks[j] {
      DistinctChunks(chunks, i, j, k);
    }
  }

  /** Every call answers for exactly the keys it was given. */
  ghost predicate Complete(attempt: seq<Key> -> map<Key, Attempt>) {
    forall c: seq<Key> :: attempt(c).Keys == Elems(c)
  }

  /** Every call's attempts are in the merged result. */
  ghost predicate FromCalls(calls: seq<seq<Key>>, attempt: seq<Key> -> map<Key, Attempt>, merged: map<Key, Attempt>) {
    forall i, k :: 0 <= i < |calls| && k in calls[i] ==>
      k in attempt(calls[i]) && k in merged && merged[k] == attempt(calls[i])[k]
  }

  /** The request is too large for one call. */
  predicate Oversized(requested: seq<Key>, maxBatchSize: Option<nat>) {
    maxBatchSize.Some? && |Distinct(requested)| > maxBatchSize.value
  }

  /**
    A batch source with a size limit: in any interleaving of the bounded dispatch that returns, every requested key
    gets exactly one outcome, from a call that asked for at most the allowed number of keys.
   */
  method AttemptChunked(requested: seq<Key>, maxBatchSize: Option<nat>, attempt: seq<Key> -> map<Key, Attempt>,
                        maxTasks: nat, events: seq<Dispatch.Event>)
    returns (merged: Option<map<Key, Attempt>>, ghost calls: seq<seq<Key>>)
    requires maxTasks >= 1 && (maxBatchSize.Some? ==> maxBatchSize.value >= 1)
    requires Complete(attempt)
    ensures merged.None? <==>
      Oversized(requested, maxBatchSize) && !Dispatch.Returned(Dispatch.Run(calls, attempt, maxTasks, events))
    ensures merged.Some? ==> merged.value.Keys == Elems(requested)
    ensures merged.Some? ==> FromCalls(calls, attempt, merged.value)
    ensures maxBatchSize.Some? ==> forall i :: 0 <= i < |calls| ==> |calls[i]| <= maxBatchSize.value
    ensures Concat(calls) == Distinct(requested)
    ensures !Oversized(requested, maxBatchSize) ==> calls == [Distinct(requested)]
    ensures Oversized(requested, maxBatchSize) ==> forall i :: 0 <= i < |calls| - 1 ==> |calls[i]| == maxBatchSize.value
  {
    hide Distinct, NoDuplicates, Dispatch.Run;
    var unique := Distinct(requested);
    if maxBatchSize.None? || |unique| <= maxBatchSize.value {
      calls := [unique];
      assert calls[..0] == [] && Concat(calls[..0]) == [];
      return Some(attempt(unique)), calls;
    }
    var chunks := Chunks(unique, maxBatchSize.value);
    calls := chunks;
    ChunksAreDisjoint(chunks);
    hide Concat;
    var ended := Dispatch.Run(chunks, attempt, maxTasks, events);
    if !Dispatch.Returned(ended) {
      return None, calls;
    }
    Dispatch.OrderedResults(chunks, attempt, maxTasks, events);
    var completed := Dispatch.Output(ended, |chunks|);
    var all := Merge(chunks, completed);
    return Some(all), calls;
  }
}
