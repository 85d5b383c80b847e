/**
  The copy-worker pool. Callers wait for a slot, a worker thread does the copy, and the slot comes back only
  when the thread has ended, whatever became of its caller. One step is what runs between two suspension points.
 */
module CopyPool {
  import opened Core

  /** A caller waiting for a slot, granted one it has not noticed yet, cancelled by shutdown, or awaiting its worker. */
  datatype Phase = Waiting | Granted | Revoked | Copying(worker: nat)

  /** A worker thread's outcome, once it has ended, and whether its slot has been released. */
  datatype Worker = Worker(failed: bool, ended: bool, released: bool)

  datatype Counts = Counts(started: nat, completed: nat, failures: nat, active: nat)

  datatype State = State(limit: nat, permits: nat, callers: map<nat, Phase>, workers: map<nat, Worker>, counts: Counts,
                         waiting: nat, closing: bool, closed: bool)

  datatype Event =
    | Request(caller: nat)
    | Grant(caller: nat)
    | Claim(caller: nat, created: bool)
    | Abandon(caller: nat)
    | Leave(caller: nat)
    | End(worker: nat, failed: bool)
    | Callback(worker: nat)
    | Resume(caller: nat)
    | Close

  function Start(limit: nat): State {
    State(limit, limit, map[], map[], Counts(0, 0, 0, 0), 0, false, false)
  }

  /** Shutdown is complete when it has begun and no worker holds a slot. */
  function Drained(s: State): State {
    if s.closing && (forall w :: w in s.workers ==> s.workers[w].released) then s.(closed := true) else s
  }

  /** Gives a worker's slot back, unless that has happened already. */
  function ReleaseSlot(s: State, w: nat): State
    requires w in s.workers
  {
    var worker := s.workers[w];
    if worker.released || s.counts.active == 0 then s
    else
      var counts := s.counts.(active := s.counts.active - 1);
      var counted :=
        if worker.failed then counts.(failures := counts.failures + 1) else counts.(completed := counts.completed + 1);
      Drained(s.(workers := s.workers[w := worker.(released := true)], permits := s.permits + 1, counts := counted))
  }

  predicate Enabled(s: State, e: Event) {
    match e
    case Request(c) => c !in s.callers && !s.closing
    case Grant(c) => c in s.callers && s.callers[c].Waiting? && s.permits > 0
    case Claim(c, _) => c in s.callers && (s.callers[c].Granted? || s.callers[c].Revoked?) && s.waiting > 0
    case Abandon(c) => c in s.callers && !s.callers[c].Copying? && s.waiting > 0
    case Leave(c) => c in s.callers && s.callers[c].Copying?
    case End(w, _) => w in s.workers && !s.workers[w].ended
    case Callback(w) => w in s.workers && s.workers[w].ended
    case Resume(c) =>
      && c in s.callers && s.callers[c].Copying? && s.callers[c].worker in s.workers
      && s.workers[s.callers[c].worker].ended
    case Close => !s.closing
  }

  function Without(s: State, c: nat): State {
    s.(callers := s.callers - {c})
  }

  /**
    A caller that finds its slot granted: it starts a worker, unless shutdown has begun or the thread cannot be started.
   */
  function Claimed(s: State, c: nat, created: bool): State
    requires c in s.callers && s.waiting > 0
  {
    var r := s.(waiting := s.waiting - 1);
    if s.callers[c].Revoked? then Without(r, c)
    else if s.closing then Without(r, c).(permits := s.permits + 1)
    else if !created then
      Drained(Without(r, c).(permits := s.permits + 1,
                             counts := s.counts.(started := s.counts.started + 1, failures := s.counts.failures + 1)))
    else
      var w := s.counts.started;
      r.(callers := s.callers[c := Copying(w)], workers := s.workers[w := Worker(false, false, false)],
         counts := s.counts.(started := s.counts.started + 1, active := s.counts.active + 1))
  }

  /** The state after an event; an event that is not enabled does not happen. */
  function Next(s: State, e: Event): State {
    if !Enabled(s, e) then s
    else match e
      case Request(c) => s.(callers := s.callers[c := Waiting], waiting := s.waiting + 1)
      case Grant(c) => s.(callers := s.callers[c := Granted], permits := s.permits - 1)
      case Claim(c, created) => Claimed(s, c, created)
      case Abandon(c) =>
        var r := Without(s, c).(waiting := s.waiting - 1);
        if s.callers[c].Granted? then r.(permits := s.permits + 1) else r
      case Leave(c) => Without(s, c)
      case End(w, failed) => s.(workers := s.workers[w := s.workers[w].(ended := true, failed := failed)])
      case Callback(w) => ReleaseSlot(s, w)
      case Resume(c) => ReleaseSlot(Without(s, c), s.callers[c].worker)
      case Close =>
        var revoked := map c | c in s.callers :: if s.callers[c].Waiting? then Revoked else s.callers[c];
        Drained(s.(closing := true, callers := revoked))
  }

  // ---- The invariant ------------------------------------------------------------------------------

  ghost function Unreleased(s: State): set<nat> {
    set w | w in s.workers && !s.workers[w].released
  }

  ghost function GrantedTo(s: State): set<nat> {
    set c | c in s.callers && s.callers[c].Granted?
  }

  ghost function Queued(s: State): set<nat> {
    set c | c in s.callers && !s.callers[c].Copying?
  }

  /** Every slot is free, held by a worker or granted to a caller that has not noticed; every copy is accounted for. */
  ghost predicate Conserved(s: State) {
    && s.permits + |Unreleased(s)| + |GrantedTo(s)| == s.limit
    && s.counts.started == s.counts.completed + s.counts.failures + s.counts.active
    && s.counts.active == |Unreleased(s)|
    && s.waiting == |Queued(s)|
  }

  ghost predicate Orderly(s: State) {
    && (forall w :: w in s.workers ==> w < s.counts.started && (s.workers[w].released ==> s.workers[w].ended))
    && (forall c :: c in s.callers && s.callers[c].Copying? ==> s.callers[c].worker in s.workers)
    && (s.closing ==> forall c :: c in s.callers ==> !s.callers[c].Waiting?)
    && (s.closed ==> s.closing)
    && (s.closing ==> (s.closed <==> Unreleased(s) == {}))
  }

  ghost predicate Invariant(s: State) {
    Conserved(s) && Orderly(s)
  }

  /** The callers' groups after one caller has moved. */
  lemma CallerMoved(s: State, r: State, c: nat)
    requires r.callers == s.callers - {c} || (c in r.callers && r.callers == s.callers[c := r.callers[c]])
    ensures |GrantedTo(r)| ==
      |GrantedTo(s)| - Bit(c in s.callers && s.callers[c].Granted?) + Bit(c in r.callers && r.callers[c].Granted?)
    ensures |Queued(r)| ==
      |Queued(s)| - Bit(c in s.callers && !s.callers[c].Copying?) + Bit(c in r.callers && !r.callers[c].Copying?)
  {
    GrantedMoved(s, r, c);
    QueuedMoved(s, r, c);
    hide GrantedTo, Queued;
    MovedSize(GrantedTo(s), GrantedTo(r), c);
    MovedSize(Queued(s), Queued(r), c);
  }

  lemma GrantedMoved(s: State, r: State, c: nat)
    requires r.callers == s.callers - {c} || (c in r.callers && r.callers == s.callers[c := r.callers[c]])
    ensures GrantedTo(r) == GrantedTo(s) + {c} || GrantedTo(r) == GrantedTo(s) - {c}
    ensures c in GrantedTo(s) <==> c in s.callers && s.callers[c].Granted?
    ensures c in GrantedTo(r) <==> c in r.callers && r.callers[c].Granted?
  {
    if c in r.callers && r.callers[c].Granted? {
      assert GrantedTo(r) == GrantedTo(s) + {c};
      } else { assert GrantedTo(r) == GrantedTo(s) - {c};
    }
  }

  lemma QueuedMoved(s: State, r: State, c: nat)
    requires r.callers == s.callers - {c} || (c in r.callers && r.callers == s.callers[c := r.callers[c]])
    ensures Queued(r) == Queued(s) + {c} || Queued(r) == Queued(s) - {c}
    ensures c in Queued(s) <==> c in s.callers && !s.callers[c].Copying?
    ensures c in Queued(r) <==> c in r.callers && !r.callers[c].Copying?
  {
    if c in r.callers && !r.callers[c].Copying? {
      assert Queued(r) == Queued(s) + {c};
      } else { assert Queued(r) == Queued(s) - {c};
    }
  }

  lemma WorkerMoved(s: State, r: State, w: nat)
    requires w in r.workers && r.workers == s.workers[w := r.workers[w]]
    ensures |Unreleased(r)| ==
      |Unreleased(s)| - Bit(w in s.workers && !s.workers[w].released) + Bit(!r.workers[w].released)
  {
    assert Unreleased(r) == if !r.workers[w].released then Unreleased(s) + {w} else Unreleased(s) - {w};
    MovedSize(Unreleased(s), Unreleased(r), w);
  }

  lemma SameCallers(s: State, r: State)
    requires r.callers == s.callers
    ensures GrantedTo(r) == GrantedTo(s) && Queued(r) == Queued(s)
  {
  }

  lemma SameWorkers(s: State, r: State)
    requires r.workers == s.workers
    ensures Unreleased(r) == Unreleased(s)
  {
  }

  /** Marking the pool closed changes nothing else. */
  lemma DrainedConserves(s: State)
    requires Conserved(s)
    ensures Conserved(Drained(s))
  {
    SameCallers(s, Drained(s));
    SameWorkers(s, Drained(s));
  }

  lemma ReleaseConserves(s: State, w: nat)
    requires Conserved(s) && w in s.workers
    ensures Conserved(ReleaseSlot(s, w))
  {
    hide GrantedTo, Queued, Drained;
    if !s.workers[w].released && s.counts.active > 0 {
      var worker := s.workers[w];
      var counts := s.counts.(active := s.counts.active - 1);
      var counted :=
        if worker.failed then counts.(failures := counts.failures + 1) else counts.(completed := counts.completed + 1);
      var r := s.(workers := s.workers[w := worker.(released := true)], permits := s.permits + 1, counts := counted);
      WorkerMoved(s, r, w);
      SameCallers(s, r);
      DrainedConserves(r);
    }
  }

  lemma ClaimConserves(s: State, c: nat, created: bool)
    requires Conserved(s) && Orderly(s) && Enabled(s, Claim(c, created))
    ensures Conserved(Claimed(s, c, created))
  {
    var r := Claimed(s, c, created);
    CallerMoved(s, r, c);
    if s.callers[c].Revoked? || s.closing || !created {
      SameWorkers(s, r);
    } else {
      WorkerMoved(s, r, s.counts.started);
    }
    hide GrantedTo, Queued, Unreleased;
  }

  lemma CloseConserves(s: State)
    requires Conserved(s)
    ensures Conserved(Next(s, Close))
  {
    var r := Next(s, Close);
    assert GrantedTo(r) == GrantedTo(s) && Queued(r) == Queued(s) && Unreleased(r) == Unreleased(s);
  }

  lemma CallerConserves(s: State, e: Event)
    requires Conserved(s) && Enabled(s, e) && (e.Request? || e.Grant? || e.Abandon? || e.Leave?)
    ensures Conserved(Next(s, e))
  {
    CallerMoved(s, Next(s, e), e.caller);
    SameWorkers(s, Next(s, e));
    hide GrantedTo, Queued, Unreleased;
  }

  lemma LeaveConserves(s: State, c: nat)
    requires Conserved(s) && c in s.callers && s.callers[c].Copying?
    ensures Conserved(Without(s, c))
  {
    CallerMoved(s, Without(s, c), c);
    SameWorkers(s, Without(s, c));
    hide GrantedTo, Queued, Unreleased;
  }

  lemma NextConserves(s: State, e: Event)
    requires Invariant(s)
    ensures Conserved(Next(s, e))
  {
    hide Conserved, Orderly, Claimed, ReleaseSlot;
    if !Enabled(s, e) { return; }
    match e
    case Request(_) => CallerConserves(s, e);
    case Grant(_) => CallerConserves(s, e);
    case Claim(c, created) => ClaimConserves(s, c, created);
    case Abandon(_) => CallerConserves(s, e);
    case Leave(c) => CallerConserves(s, e);
    case End(w, _) => EndConserves(s, e);
    case Callback(w) => ReleaseConserves(s, w);
    case Resume(c) =>
      LeaveConserves(s, c);
      ReleaseConserves(Without(s, c), s.callers[c].worker);
    case Close => CloseConserves(s);
  }

  lemma EndConserves(s: State, e: Event)
    requires Conserved(s) && Enabled(s, e) && e.End?
    ensures Conserved(Next(s, e))
  {
    WorkerMoved(s, Next(s, e), e.worker);
    SameCallers(s, Next(s, e));
    hide GrantedTo, Queued, Unreleased;
  }

  lemma ReleaseOrderly(s: State, w: nat)
    requires Conserved(s) && Orderly(s) && w in s.workers && s.workers[w].ended
    ensures Orderly(ReleaseSlot(s, w))
  {
    hide GrantedTo, Queued;
    if !s.workers[w].released {
      assert w in Unreleased(s);
      assert Unreleased(ReleaseSlot(s, w)) == Unreleased(s) - {w};
      assert forall v :: v in ReleaseSlot(s, w).workers ==>
        (ReleaseSlot(s, w).workers[v].released <==> v !in Unreleased(ReleaseSlot(s, w)));
    }
  }

  lemma NoneUnreleased(s: State)
    ensures Unreleased(s) == {} <==> forall w :: w in s.workers ==> s.workers[w].released
  {
    assert forall w :: w in Unreleased(s) <==> w in s.workers && !s.workers[w].released;
  }

  lemma NextOrderly(s: State, e: Event)
    requires Invariant(s)
    ensures Orderly(Next(s, e))
  {
    hide GrantedTo, Queued;
    if !Enabled(s, e) { return; }
    match e
    case Callback(w) => ReleaseOrderly(s, w);
    case Resume(c) =>
      LeaveConserves(s, c);
      SameWorkers(s, Without(s, c));
      ReleaseOrderly(Without(s, c), s.callers[c].worker);
    case Close =>
      assert Unreleased(Next(s, e)) == Unreleased(s);
      NoneUnreleased(s);
    case End(w, _) =>
      assert Unreleased(Next(s, e)) == Unreleased(s) by {
        assert !s.workers[w].ended ==> !s.workers[w].released;
      }
    case Claim(c, created) =>
      if s.closing { SameWorkers(s, Next(s, e)); }
    case _ => SameWorkers(s, Next(s, e));
  }

  lemma NextKeeps(s: State, e: Event)
    requires Invariant(s)
    ensures Invariant(Next(s, e))
  {
    hide Conserved, Orderly, Next;
    NextConserves(s, e);
    NextOrderly(s, e);
  }

  // ---- Runs -----------------------------------------------------------------------------------------

  function Run(limit: nat, es: seq<Event>): State {
    if es == [] then Start(limit) else Next(Run(limit, es[..|es| - 1]), es[|es| - 1])
  }

  lemma {:induction false} RunKeeps(limit: nat, es: seq<Event>)
    ensures Invariant(Run(limit, es))
  {
    hide Next, Invariant;
    if es == [] {
      StartInvariant(limit);
    } else {
      RunKeeps(limit, es[..|es| - 1]);
      NextKeeps(Run(limit, es[..|es| - 1]), es[|es| - 1]);
    }
  }

  lemma StartInvariant(limit: nat)
    ensures Invariant(Start(limit))
  {
    assert Unreleased(Start(limit)) == {} && GrantedTo(Start(limit)) == {} && Queued(Start(limit)) == {};
  }

  lemma LimitFixed(s: State, e: Event)
    ensures Next(s, e).limit == s.limit
  {
  }

  lemma ClosingStays(s: State, e: Event)
    requires s.closing
    ensures Next(s, e).closing && Next(s, e).workers.Keys == s.workers.Keys && (s.closed ==> Next(s, e).closed)
  {
  }

  /**
    In every interleaving slots and copies are conserved, and while closing the pool is closed exactly when no worker
    remains.
   */
  lemma {:induction false} PoolConserved(limit: nat, es: seq<Event>)
    ensures var s := Run(limit, es);
            && s.limit == limit
            && s.permits + |Unreleased(s)| + |GrantedTo(s)| == limit
            && s.counts.started == s.counts.completed + s.counts.failures + s.counts.active
            && s.counts.active == |Unreleased(s)|
            && s.waiting == |Queued(s)|
            && (s.closing ==> (s.closed <==> Unreleased(s) == {}))
  {
    RunKeeps(limit, es);
    hide GrantedTo, Queued, Unreleased, Next;
    if es != [] {
      PoolConserved(limit, es[..|es| - 1]);
      LimitFixed(Run(limit, es[..|es| - 1]), es[|es| - 1]);
    }
  }

  /**
    The counters never have to go below zero: a slot to release is counted active, a queued caller is counted waiting.
   */
  lemma CountersSuffice(limit: nat, es: seq<Event>)
    ensures var s := Run(limit, es);
            && (forall w :: w in s.workers && !s.workers[w].released ==> s.counts.active > 0)
            && (forall c :: c in s.callers && !s.callers[c].Copying? ==> s.waiting > 0)
  {
    RunKeeps(limit, es);
    var s := Run(limit, es);
    assert Conserved(s);
    forall w | w in s.workers && !s.workers[w].released ensures s.counts.active > 0 { assert w in Unreleased(s); }
    forall c | c in s.callers && !s.callers[c].Copying? ensures s.waiting > 0 { assert c in Queued(s); }
  }

  /** A worker's slot is released only after its thread has ended, and never a second time. */
  lemma SlotReleasedOnce(limit: nat, es: seq<Event>, e: Event, w: nat)
    requires w in Run(limit, es).workers
    ensures var s, r := Run(limit, es), Next(Run(limit, es), e);
            && w in r.workers
            && (s.workers[w].released ==> r.workers[w].released)
            && (!s.workers[w].released && r.workers[w].released ==>
                  && s.workers[w].ended
                  && (e == Callback(w) || (e.Resume? && s.callers[e.caller] == Copying(w)))
                  && r.permits == s.permits + 1)
            && ((e.Callback? || e.Resume?) && s.workers[w].released && (e.Callback? ==> e.worker == w) &&
                (e.Resume? && Enabled(s, e) ==> s.callers[e.caller] == Copying(w)) ==>
                  r.permits == s.permits)
  {
    hide GrantedTo, Queued;
    RunKeeps(limit, es);
    var s := Run(limit, es);
    assert Orderly(s) && Conserved(s);
    if !s.workers[w].released { assert w in Unreleased(s); }
  }

  lemma UnendedStays(s: State, e: Event, w: nat)
    requires Invariant(s) && w in s.workers && !s.workers[w].ended && !(e.End? && e.worker == w)
    ensures w in Next(s, e).workers && !Next(s, e).workers[w].ended
  {
    hide Conserved, GrantedTo, Queued, Unreleased;
  }

  /** Until its thread ends, a worker that has been started keeps its slot, whatever else happens. */
  lemma {:induction false} SlotHeldUntilEnd(limit: nat, es: seq<Event>, i: nat, w: nat)
    requires i <= |es| && w in Run(limit, es[..i]).workers && !Run(limit, es[..i]).workers[w].ended
    requires forall j :: i <= j < |es| ==> !(es[j].End? && es[j].worker == w)
    ensures w in Unreleased(Run(limit, es)) && !Run(limit, es).workers[w].ended
    decreases |es|
  {
    hide Next, Conserved, GrantedTo, Queued;
    RunKeeps(limit, es);
    if i < |es| {
      var front := es[..|es| - 1];
      assert front[..i] == es[..i];
      SlotHeldUntilEnd(limit, front, i, w);
      RunKeeps(limit, front);
      UnendedStays(Run(limit, front), es[|es| - 1], w);
    } else {
      assert es[..i] == es;
    }
  }

  // ---- Outcomes -------------------------------------------------------------------------------------

  /** The workers whose slot is back and whose copy failed, or did not. */
  ghost function Returned(s: State, failed: bool): set<nat> {
    set w | w in s.workers && s.workers[w].released && s.workers[w].failed == failed
  }

  /** The event finds a granted caller whose thread cannot be started. */
  predicate FailsToStart(s: State, e: Event) {
    e.Claim? && Enabled(s, e) && s.callers[e.caller].Granted? && !s.closing && !e.created
  }

  function FailedStarts(limit: nat, es: seq<Event>): nat {
    if es == [] then 0
    else
      var front := es[..|es| - 1];
      FailedStarts(limit, front) + if FailsToStart(Run(limit, front), es[|es| - 1]) then 1 else 0
  }

  lemma ReturnedNow(s: State, r: State, w: nat, failed: bool)
    requires w in s.workers && !s.workers[w].released && r.workers == s.workers[w := s.workers[w].(released := true)]
    ensures w !in Returned(s, failed)
    ensures Returned(r, failed) ==
      if s.workers[w].failed == failed then Returned(s, failed) + {w} else Returned(s, failed)
  {
    assert forall x :: x in Returned(r, failed) <==>
                         x in Returned(s, failed) || (x == w && s.workers[w].failed == failed);
  }

  lemma OneMoreReturned(s: State, r: State, w: nat)
    requires w in s.workers && !s.workers[w].released && r.workers == s.workers[w := s.workers[w].(released := true)]
    ensures forall failed :: |Returned(r, failed)| == |Returned(s, failed)| + Bit(s.workers[w].failed == failed)
  {
    forall failed ensures |Returned(r, failed)| == |Returned(s, failed)| + Bit(s.workers[w].failed == failed) {
      ReturnedNow(s, r, w, failed);
      hide Returned;
      if s.workers[w].failed == failed {
        assert |Returned(s, failed) + {w}| == |Returned(s, failed)| + 1;
      }
    }
  }

  lemma SameReturned(s: State, r: State)
    requires forall w :: w in s.workers ==> w in r.workers && r.workers[w].released == s.workers[w].released
    requires forall w :: w in s.workers && s.workers[w].released ==> r.workers[w].failed == s.workers[w].failed
    requires forall w :: w in r.workers && w !in s.workers ==> !r.workers[w].released
    ensures forall failed :: Returned(r, failed) == Returned(s, failed)
  {
  }

  lemma ReleaseCounts(s: State, w: nat)
    requires w in s.workers
    ensures var r := ReleaseSlot(s, w);
            && r.counts.completed - |Returned(r, false)| == s.counts.completed - |Returned(s, false)|
            && r.counts.failures - |Returned(r, true)| == s.counts.failures - |Returned(s, true)|
  {
    var r := ReleaseSlot(s, w);
    if s.workers[w].released || s.counts.active == 0 {
      assert r == s;
    } else {
      OneMoreReturned(s, r, w);
    }
  }

  lemma NextCounts(s: State, e: Event)
    requires Invariant(s)
    ensures var r := Next(s, e);
            && r.counts.completed - |Returned(r, false)| == s.counts.completed - |Returned(s, false)|
            && r.counts.failures - |Returned(r, true)| ==
                 s.counts.failures - |Returned(s, true)| + Bit(FailsToStart(s, e))
  {
    hide ReleaseSlot, Returned, Conserved;
    if Enabled(s, e) {
      match e
      case Callback(w) => ReleaseCounts(s, w);
      case Resume(c) =>
        SameReturned(s, Without(s, c));
        ReleaseCounts(Without(s, c), s.callers[c].worker);
      case _ => SameReturned(s, Next(s, e));
    }
  }

  /** Over every run the pool counts a copy as completed or failed by how its thread ended; a start that fails, too. */
  lemma {:induction false} OutcomesCounted(limit: nat, es: seq<Event>)
    ensures var s := Run(limit, es);
            && s.counts.completed == |Returned(s, false)|
            && s.counts.failures == |Returned(s, true)| + FailedStarts(limit, es)
  {
    hide Next, Returned, Invariant;
    if es == [] {
      NothingReturned(limit);
    } else {
      var front := es[..|es| - 1];
      OutcomesCounted(limit, front);
      RunKeeps(limit, front);
      NextCounts(Run(limit, front), es[|es| - 1]);
    }
  }

  lemma NothingReturned(limit: nat)
    ensures forall failed :: Returned(Start(limit), failed) == {}
  {
  }

  /** A thread is ended once, and how it ended stays. */
  lemma {:induction false} EndStays(limit: nat, es: seq<Event>, i: nat)
    requires i < |es| && es[i].End? && Enabled(Run(limit, es[..i]), es[i])
    ensures var s := Run(limit, es);
            es[i].worker in s.workers && s.workers[es[i].worker].ended && s.workers[es[i].worker].failed == es[i].failed
    decreases |es|
  {
    hide Next, Invariant;
    var n := |es| - 1;
    var front := es[..n];
    RunKeeps(limit, front);
    if i < n {
      assert front[..i] == es[..i];
      EndStays(limit, front, i);
      EndedStays(Run(limit, front), es[n], es[i].worker);
    } else {
      EndsNow(Run(limit, front), es[n]);
    }
  }

  lemma EndsNow(s: State, e: Event)
    requires e.End? && Enabled(s, e)
    ensures var r := Next(s, e);
            e.worker in r.workers && r.workers[e.worker].ended && r.workers[e.worker].failed == e.failed
  {
  }

  lemma EndedStays(s: State, e: Event, w: nat)
    requires Invariant(s) && w in s.workers && s.workers[w].ended
    ensures var r := Next(s, e); w in r.workers && r.workers[w].ended && r.workers[w].failed == s.workers[w].failed
  {
    hide Conserved;
  }

  /**
    A caller that times out or is cancelled while its worker runs frees nothing: through every continuation of the
    run until the worker's thread ends, the slot stays taken and one permit stays away.
   */
  lemma LeavingFreesNothing(limit: nat, es: seq<Event>, i: nat, c: nat, w: nat)
    requires i < |es| && es[i] == Leave(c) && c in Run(limit, es[..i]).callers
    requires Run(limit, es[..i]).callers[c] == Copying(w)
    requires w in Run(limit, es[..i]).workers ==> !Run(limit, es[..i]).workers[w].ended
    requires forall j :: i < j < |es| ==> !(es[j].End? && es[j].worker == w)
    ensures w in Unreleased(Run(limit, es)) && Run(limit, es).permits < limit
  {
    RunKeeps(limit, es[..i]);
    SlotHeldUntilEnd(limit, es, i, w);
    PoolConserved(limit, es);
  }

  /** Once closing has begun it is never undone and no worker is added. */
  lemma {:induction false} ClosingIsFinal(limit: nat, es: seq<Event>, i: nat)
    requires i <= |es| && Run(limit, es[..i]).closing
    ensures Run(limit, es).closing && Run(limit, es).workers.Keys == Run(limit, es[..i]).workers.Keys
    ensures Run(limit, es[..i]).closed ==> Run(limit, es).closed
    decreases |es|
  {
    hide Conserved, Orderly, Next;
    if i < |es| {
      var front := es[..|es| - 1];
      assert front[..i] == es[..i];
      ClosingIsFinal(limit, front, i);
      ClosingStays(Run(limit, front), es[|es| - 1]);
    } else {
      assert es[..i] == es;
    }
  }

  /** Some worker has not given its slot back: its thread can end, or it has and the slot can be given back. */
  lemma UnreleasedCanEnd(s: State, w: nat)
    requires w in Unreleased(s)
    ensures Enabled(s, End(w, false)) || Enabled(s, Callback(w))
  {
  }

  /**
    No caller is stuck: one that waits can be granted a slot, or a slot can be claimed or a worker can end; and a
    shutdown that is not complete waits for a worker that can end.
   */
  lemma NobodyIsStuck(limit: nat, es: seq<Event>)
    requires limit >= 1
    ensures var s := Run(limit, es);
            && (forall c :: c in s.callers && s.callers[c].Waiting? ==>
                  Enabled(s, Grant(c)) || (exists x :: Enabled(s, Claim(x, true))) ||
                  (exists w :: Enabled(s, End(w, false)) || Enabled(s, Callback(w))))
            && (forall c :: c in s.callers && !s.callers[c].Waiting? && !s.callers[c].Copying? ==>
                  Enabled(s, Claim(c, true)))
            && (s.closing && !s.closed ==> exists w :: Enabled(s, End(w, false)) || Enabled(s, Callback(w)))
  {
    var s := Run(limit, es);
    PoolConserved(limit, es);
    hide Run;
    forall c | c in s.callers && !s.callers[c].Copying? ensures s.waiting > 0 {
      assert c in Queued(s);
    }
    if w :| w in Unreleased(s) {
      UnreleasedCanEnd(s, w);
    } else if c :| c in GrantedTo(s) {
      assert Enabled(s, Claim(c, true));
    }
  }
}
