/**
  The buffered dispatcher: submitters under the condition lock, one worker thread and one closer, all sharing a
  bounded queue that the worker and the closer use without the lock. One step is one queue operation or one
  update of the counters under the lock; `submit` holds the lock from its first queue operation to its last.
 */
module BufferedDispatcher {
  import opened Core

  datatype Overflow = DropOldest | DropNewest | Raise

  /** A record, numbered in the order of acceptance, or the end marker. */
  datatype Item = Rec(id: nat) | Sentinel

  /** Where the submitter that holds the lock is: it found the queue full, made room, or has put its record. */
  datatype Submitter = NoSubmit | FoundFull | MadeRoom | HasPut

  /** The worker waits, handles a record, or has counted its outcome but not yet the end of its pending. */
  datatype Worker = Waiting | Handling | Counted | Stopped

  /** The closer flushes, discards, places the marker, or has taken a record that it has not counted yet. */
  datatype Closer = NotClosing | Flushing | Discarding | Marking | MarkingFull | Took(discarding: bool) | Done

  datatype Counts = Counts(enqueued: nat, delivered: nat, failures: nat, dropped: nat)

  /**
    `accepted` numbers the records put so far, `rejected` counts refused ones, `handled` lists what the worker took.
   */
  datatype Ledger = Ledger(accepted: nat, rejected: nat, handled: seq<nat>)

  datatype State = State(queue: seq<Item>, counts: Counts, pending: nat, submitter: Submitter, worker: Worker,
                         closer: Closer, ledger: Ledger)

  datatype Config = Config(maxPending: nat, overflow: Overflow)

  datatype Event =
    | Submit
    | SubmitTake
    | SubmitPut
    | SubmitCount
    | WorkerGet
    | WorkerOutcome(ok: bool)
    | WorkerDone
    | Close
    | FlushEnds(drained: bool)
    | DiscardNext
    | MarkTry
    | MarkTake
    | CloserCount

  function Start(): State {
    State([], Counts(0, 0, 0, 0), 0, NoSubmit, Waiting, NotClosing, Ledger(0, 0, []))
  }

  predicate LockFree(s: State) {
    s.submitter == NoSubmit
  }

  /** The clamped decrement of the pending count. */
  function Decremented(pending: nat): nat {
    if pending >= 1 then pending - 1 else 0
  }

  predicate Enabled(c: Config, s: State, e: Event) {
    match e
    case Submit => LockFree(s) && s.closer == NotClosing
    case SubmitTake => s.submitter == FoundFull
    case SubmitPut => s.submitter == MadeRoom && |s.queue| < c.maxPending
    case SubmitCount => s.submitter == HasPut
    case WorkerGet => s.worker == Waiting && s.queue != []
    case WorkerOutcome(_) => s.worker == Handling && LockFree(s)
    case WorkerDone => s.worker == Counted && LockFree(s)
    case Close => LockFree(s) && s.closer == NotClosing
    case FlushEnds(drained) => s.closer == Flushing && LockFree(s) && (drained ==> s.pending == 0)
    case DiscardNext => s.closer == Discarding
    case MarkTry => s.closer == Marking
    case MarkTake => s.closer == MarkingFull
    case CloserCount => s.closer.Took? && LockFree(s)
  }

  function Put(s: State): State {
    s.(queue := s.queue + [Rec(s.ledger.accepted)], ledger := s.ledger.(accepted := s.ledger.accepted + 1),
       submitter := HasPut)
  }

  function Reject(s: State): State {
    s.(counts := s.counts.(dropped := s.counts.dropped + 1), ledger := s.ledger.(rejected := s.ledger.rejected + 1),
       submitter := NoSubmit)
  }

  function DropCounted(s: State): State {
    s.(counts := s.counts.(dropped := s.counts.dropped + 1), pending := Decremented(s.pending))
  }

  /** The state after an event; an event that is not enabled does not happen. */
  function Next(c: Config, s: State, e: Event): State {
    if !Enabled(c, s, e) then s
    else match e
      case Submit =>
        if |s.queue| < c.maxPending then Put(s)
        else match c.overflow {
          case DropNewest => Reject(s)
          case Raise => s
          case DropOldest => s.(submitter := FoundFull)
        }
      case SubmitTake =>
        if s.queue == [] then Reject(s)
        else if s.queue[0] == Sentinel then Reject(s.(queue := s.queue[1..] + [Sentinel]))
        else DropCounted(s).(queue := s.queue[1..], submitter := MadeRoom)
      case SubmitPut => Put(s)
      case SubmitCount => s.(counts := s.counts.(enqueued := s.counts.enqueued + 1), pending := s.pending + 1,
                             submitter := NoSubmit)
      case WorkerGet =>
        if s.queue[0] == Sentinel then s.(queue := s.queue[1..], worker := Stopped)
        else s.(queue := s.queue[1..], worker := Handling,
                ledger := s.ledger.(handled := s.ledger.handled + [s.queue[0].id]))
      case WorkerOutcome(ok) =>
        s.(worker := Counted,
           counts :=
             if ok then s.counts.(delivered := s.counts.delivered + 1)
             else s.counts.(failures := s.counts.failures + 1))
      case WorkerDone => s.(worker := Waiting, pending := Decremented(s.pending))
      case Close => s.(closer := Flushing)
      case FlushEnds(drained) => s.(closer := if drained then Marking else Discarding)
      case DiscardNext =>
        if s.queue == [] then s.(closer := Marking)
        else if s.queue[0] == Sentinel then s.(queue := s.queue[1..] + [Sentinel], closer := Marking)
        else s.(queue := s.queue[1..], closer := Took(true))
      case MarkTry =>
        if |s.queue| < c.maxPending then s.(queue := s.queue + [Sentinel],
                                            closer := Done) else s.(closer := MarkingFull)
      case MarkTake =>
        if s.queue == [] then s.(closer := Marking)
        else if s.queue[0] == Sentinel then s.(queue := s.queue[1..] + [Sentinel], closer := Done)
        else s.(queue := s.queue[1..], closer := Took(false))
      case CloserCount => DropCounted(s).(closer := if s.closer.discarding then Discarding else Marking)
  }

  // ---- The invariant ------------------------------------------------------------------------------

  /** The numbers of the records in the queue. */
  function Ids(q: seq<Item>): (r: seq<nat>)
    ensures |r| <= |q|
  {
    if q == [] then [] else (if q[0].Rec? then [q[0].id] else []) + Ids(q[1..])
  }

  lemma {:induction false} IdsAppend(q: seq<Item>, x: Item)
    ensures Ids(q + [x]) == Ids(q) + if x.Rec? then [x.id] else []
  {
    if q == [] {
      assert q + [x] == [x] && [x][1..] == [];
    } else {
      IdsAppend(q[1..], x);
      assert (q + [x])[1..] == q[1..] + [x];
    }
  }

  /** The end marker is in the queue only at its end, and only after the closer has finished. */
  ghost predicate Marked(s: State) {
    && (forall i :: 0 <= i < |s.queue| && s.queue[i] == Sentinel ==> i == |s.queue| - 1 && s.closer == Done)
    && (s.worker == Stopped ==> s.closer == Done && s.queue == [])
    && (s.closer != NotClosing ==> s.submitter == NoSubmit)
  }

  /** Pending counts what is queued, with the worker or in the closer's hands, except a record put this instant. */
  ghost predicate PendingIs(s: State) {
    s.pending + Bit(s.submitter == HasPut) ==
      |Ids(s.queue)| + Bit(s.worker == Handling || s.worker == Counted) + Bit(s.closer.Took?)
  }

  ghost predicate Bounded(c: Config, s: State) {
    && |s.queue| <= c.maxPending
    && |Ids(s.queue)| + Bit(s.closer.Took?) <= c.maxPending
    && (s.submitter == MadeRoom ==> |s.queue| < c.maxPending)
  }

  /** Accepted and rejected records are delivered, failed, dropped or pending. */
  ghost predicate Balanced(s: State) {
    s.counts.enqueued + s.ledger.rejected ==
      s.counts.delivered + s.counts.failures + s.counts.dropped + s.pending - Bit(s.worker == Counted)
  }

  ghost predicate Increasing(ids: seq<nat>, bound: nat) {
    && (forall i :: 0 <= i < |ids| ==> ids[i] < bound)
    && (forall i, j :: 0 <= i < j < |ids| ==> ids[i] < ids[j])
  }

  /** What was handled and what is still queued are in order of acceptance. */
  ghost predicate Ordered(s: State) {
    Increasing(s.ledger.handled + Ids(s.queue), s.ledger.accepted)
  }

  ghost predicate Invariant(c: Config, s: State) {
    Marked(s) && PendingIs(s) && Bounded(c, s) && Balanced(s) && Ordered(s)
  }

  lemma NextMarked(c: Config, s: State, e: Event)
    requires Invariant(c, s)
    ensures Marked(Next(c, s, e))
  {
    hide Ids, Increasing, PendingIs, Bounded, Balanced, Ordered;
  }

  lemma HeadIsRecord(s: State)
    requires Marked(s) && s.queue != [] && s.closer != Done
    ensures s.queue[0].Rec? && Ids(s.queue) == [s.queue[0].id] + Ids(s.queue[1..])
  {
  }

  lemma HeadIds(q: seq<Item>)
    requires q != []
    ensures Ids(q) == (if q[0].Rec? then [q[0].id] else []) + Ids(q[1..])
  {
  }

  lemma NextPending(c: Config, s: State, e: Event)
    requires Invariant(c, s)
    ensures PendingIs(Next(c, s, e))
  {
    hide Ids, Increasing, Bounded, Ordered, Balanced;
    if s.queue != [] { HeadIds(s.queue); }
    IdsAppend(s.queue, Rec(s.ledger.accepted));
    IdsAppend(s.queue, Sentinel);
    if s.queue != [] && s.queue[0] == Sentinel { assert s.queue == [Sentinel]; }
  }

  lemma NextBounded(c: Config, s: State, e: Event)
    requires Invariant(c, s)
    ensures Bounded(c, Next(c, s, e))
  {
    hide Ids, Increasing, PendingIs, Ordered, Balanced;
    if s.queue != [] { HeadIds(s.queue); }
    IdsAppend(s.queue, Rec(s.ledger.accepted));
    IdsAppend(s.queue, Sentinel);
  }

  lemma NextBalanced(c: Config, s: State, e: Event)
    requires Invariant(c, s)
    ensures Balanced(Next(c, s, e))
  {
    hide Ids, Increasing, Bounded, Ordered;
    if s.queue != [] { HeadIds(s.queue); }
  }

  lemma IncreasingDrop(front: seq<nat>, x: nat, rest: seq<nat>, bound: nat)
    requires Increasing(front + ([x] + rest), bound)
    ensures Increasing(front + rest, bound) && front + ([x] + rest) == (front + [x]) + rest
  {
    var all, r := front + ([x] + rest), front + rest;
    forall i | 0 <= i < |r| ensures r[i] < bound {
      assert r[i] == if i < |front| then all[i] else all[i + 1];
    }
    forall i, j | 0 <= i < j < |r| ensures r[i] < r[j] {
      var i', j' := if i < |front| then i else i + 1, if j < |front| then j else j + 1;
      assert r[i] == all[i'] && r[j] == all[j'];
    }
  }

  lemma IncreasingAppend(ids: seq<nat>, bound: nat)
    requires Increasing(ids, bound)
    ensures Increasing(ids + [bound], bound + 1)
  {
  }

  lemma NextOrdered(c: Config, s: State, e: Event)
    requires Invariant(c, s)
    ensures Ordered(Next(c, s, e))
  {
    hide Ids, Increasing, PendingIs, Bounded, Balanced;
    var handled, ids := s.ledger.handled, Ids(s.queue);
    if s.queue != [] {
      HeadIds(s.queue);
      if s.queue[0].Rec? {
        IncreasingDrop(handled, s.queue[0].id, Ids(s.queue[1..]), s.ledger.accepted);
      } else {
        assert s.queue == [Sentinel] && s.queue[1..] + [Sentinel] == s.queue;
      }
    }
    IdsAppend(s.queue, Rec(s.ledger.accepted));
    IdsAppend(s.queue, Sentinel);
    assert ids + [] == ids;
    IncreasingAppend(handled + ids, s.ledger.accepted);
    assert handled + (ids + [s.ledger.accepted]) == (handled + ids) + [s.ledger.accepted];
  }

  lemma NextKeeps(c: Config, s: State, e: Event)
    requires Invariant(c, s)
    ensures Invariant(c, Next(c, s, e))
  {
    hide Marked, PendingIs, Bounded, Balanced, Ordered, Next;
    NextMarked(c, s, e);
    NextPending(c, s, e);
    NextBounded(c, s, e);
    NextBalanced(c, s, e);
    NextOrdered(c, s, e);
  }

  // ---- Runs -----------------------------------------------------------------------------------------

  function Run(c: Config, es: seq<Event>): State {
    if es == [] then Start() else Next(c, Run(c, es[..|es| - 1]), es[|es| - 1])
  }

  lemma {:induction false} RunKeeps(c: Config, es: seq<Event>)
    requires c.maxPending >= 1
    ensures Invariant(c, Run(c, es))
  {
    hide Next, Invariant;
    if es == [] {
      StartInvariant(c);
    } else {
      RunKeeps(c, es[..|es| - 1]);
      NextKeeps(c, Run(c, es[..|es| - 1]), es[|es| - 1]);
    }
  }

  lemma StartInvariant(c: Config)
    ensures Invariant(c, Start())
  {
  }

  /** In every interleaving records are conserved and pending stays within the bound plus the one being handled. */
  lemma RecordsConserved(c: Config, es: seq<Event>)
    requires c.maxPending >= 1
    ensures var s := Run(c, es);
            && s.counts.enqueued + s.ledger.rejected ==
                 s.counts.delivered + s.counts.failures + s.counts.dropped + s.pending - Bit(s.worker == Counted)
            && s.pending <= c.maxPending + 1
            && (s.submitter == NoSubmit && s.worker == Waiting && !s.closer.Took? ==> s.pending == |Ids(s.queue)|)
  {
    RunKeeps(c, es);
    var s := Run(c, es);
    assert Balanced(s) && PendingIs(s) && Bounded(c, s);
  }

  /** Wherever the pending count is decremented it is positive: the clamps never take effect. */
  lemma ClampsNeverAct(c: Config, es: seq<Event>, e: Event)
    requires c.maxPending >= 1 && Enabled(c, Run(c, es), e)
    ensures var s := Run(c, es);
            e.WorkerDone? || e.CloserCount? || (e.SubmitTake? && s.queue != []) ==> s.pending >= 1
  {
    RunKeeps(c, es);
    var s := Run(c, es);
    assert PendingIs(s) && Marked(s);
    if s.queue != [] && s.closer != Done { HeadIsRecord(s); }
  }

  /** Neither a submitter nor the closer ever takes the end marker, and a submitter that made room finds it. */
  lemma MarkerNeverTaken(c: Config, es: seq<Event>)
    requires c.maxPending >= 1
    ensures var s := Run(c, es);
            && (s.submitter == FoundFull || s.closer == Discarding || s.closer == MarkingFull ==>
                  s.queue != [] ==> s.queue[0] != Sentinel)
            && (s.submitter == MadeRoom ==> Enabled(c, s, SubmitPut))
  {
    RunKeeps(c, es);
    var s := Run(c, es);
    assert Marked(s) && Bounded(c, s);
  }

  /** The worker handles records in the order in which they were accepted. */
  lemma DeliveryOrder(c: Config, es: seq<Event>, i: nat, j: nat)
    requires c.maxPending >= 1 && i < j < |Run(c, es).ledger.handled|
    ensures Run(c, es).ledger.handled[i] < Run(c, es).ledger.handled[j] < Run(c, es).ledger.accepted
  {
    RunKeeps(c, es);
    var s := Run(c, es);
    var all := s.ledger.handled + Ids(s.queue);
    assert Increasing(all, s.ledger.accepted);
    assert all[i] == s.ledger.handled[i] && all[j] == s.ledger.handled[j];
  }

  /** When the worker has stopped and the closer counted everything, nothing is pending. */
  lemma StoppedIsEmpty(c: Config, es: seq<Event>)
    requires c.maxPending >= 1 && Run(c, es).worker == Stopped
    ensures var s := Run(c, es);
            s.queue == [] && s.pending == 0
            && s.counts.enqueued + s.ledger.rejected == s.counts.delivered + s.counts.failures + s.counts.dropped
  {
    RunKeeps(c, es);
    var s := Run(c, es);
    assert Marked(s) && PendingIs(s) && Balanced(s);
  }

  // ---- Submitting to a full queue -----------------------------------------------------------------------

  /** With room a record is put at the end and counted. */
  lemma SubmitWithRoom(c: Config, es: seq<Event>)
    requires c.maxPending >= 1 && Run(c, es).submitter == NoSubmit && Run(c, es).closer == NotClosing
    requires |Run(c, es).queue| < c.maxPending
    ensures var s := Run(c, es);
            Next(c, Next(c, s, Submit), SubmitCount) ==
              s.(queue := s.queue + [Rec(s.ledger.accepted)], pending := s.pending + 1,
                 counts := s.counts.(enqueued := s.counts.enqueued + 1),
                 ledger := s.ledger.(accepted := s.ledger.accepted + 1))
  {
  }

  /**
    A full queue: the newest record is refused and counted as dropped, or refused with an error and nothing is counted,
    or the oldest queued record is dropped and counted and the new one put at the end, with as much pending as before.
   */
  lemma SubmitWhenFull(c: Config, es: seq<Event>)
    requires c.maxPending >= 1 && Run(c, es).submitter == NoSubmit && Run(c, es).closer == NotClosing
    requires |Run(c, es).queue| == c.maxPending
    ensures var s := Run(c, es);
            && (c.overflow == DropNewest ==>
                  Next(c, s, Submit) ==
                    s.(counts := s.counts.(dropped := s.counts.dropped + 1),
                       ledger := s.ledger.(rejected := s.ledger.rejected + 1)))
            && (c.overflow == Raise ==> Next(c, s, Submit) == s)
            && (c.overflow == DropOldest ==>
                  Next(c, Next(c, Next(c, Next(c, s, Submit), SubmitTake), SubmitPut), SubmitCount) ==
                    s.(queue := s.queue[1..] + [Rec(s.ledger.accepted)],
                       counts := s.counts.(dropped := s.counts.dropped + 1, enqueued := s.counts.enqueued + 1),
                       ledger := s.ledger.(accepted := s.ledger.accepted + 1)))
  {
    RunKeeps(c, es);
    var s := Run(c, es);
    assert Marked(s) && PendingIs(s);
    HeadIsRecord(s);
  }

  /** How often the handler has returned normally, or failed. */
  function Outcomes(c: Config, es: seq<Event>, ok: bool): nat {
    if es == [] then 0
    else
      var n := |es| - 1;
      Outcomes(c, es[..n], ok) + if Enabled(c, Run(c, es[..n]), es[n]) && es[n] == WorkerOutcome(ok) then 1 else 0
  }

  /** Over every run a record is counted as delivered when its handler returned, and as failed when it did not. */
  lemma {:induction false} OutcomesCounted(c: Config, es: seq<Event>)
    ensures Run(c, es).counts.delivered == Outcomes(c, es, true) && Run(c, es).counts.failures == Outcomes(c, es, false)
  {
    if es != [] { OutcomesCounted(c, es[..|es| - 1]); }
  }

  // ---- Closing ------------------------------------------------------------------------------------

  /** Once the closer has finished, the end marker waits at the end of the queue until the worker takes it. */
  lemma {:induction false} MarkerIsThere(c: Config, es: seq<Event>)
    requires c.maxPending >= 1 && Run(c, es).closer == Done && Run(c, es).worker != Stopped
    ensures MarkerLast(Run(c, es))
  {
    hide Next, Invariant;
    if es != [] {
      var n := |es| - 1;
      RunKeeps(c, es[..n]);
      if Run(c, es[..n]).closer == Done && Run(c, es[..n]).worker != Stopped { MarkerIsThere(c, es[..n]); }
      MarkerStep(c, Run(c, es[..n]), es[n]);
    }
  }

  ghost predicate MarkerLast(s: State) {
    s.queue != [] && s.queue[|s.queue| - 1] == Sentinel
  }

  lemma MarkerStep(c: Config, s: State, e: Event)
    requires Invariant(c, s) && (s.closer == Done && s.worker != Stopped ==> MarkerLast(s))
    ensures var r := Next(c, s, e); r.closer == Done && r.worker != Stopped ==> MarkerLast(r)
  {
    hide Ids, PendingIs, Bounded, Balanced, Ordered, Decremented;
  }

  /** A submitter can go on, a closer can go on, and after the closer the worker can until it stops. */
  ghost predicate Unstuck(c: Config, s: State) {
    && (s.submitter != NoSubmit ==>
          Enabled(c, s, SubmitTake) || Enabled(c, s, SubmitPut) || Enabled(c, s, SubmitCount))
    && (s.closer != NotClosing && s.closer != Done ==>
          || Enabled(c, s, FlushEnds(false)) || Enabled(c, s, DiscardNext) || Enabled(c, s, MarkTry)
          || Enabled(c, s, MarkTake) || Enabled(c, s, CloserCount))
    && (s.closer == Done && s.worker != Stopped ==>
          Enabled(c, s, WorkerGet) || Enabled(c, s, WorkerOutcome(true)) || Enabled(c, s, WorkerDone))
  }

  lemma CanGoOn(c: Config, s: State)
    requires s.closer != NotClosing ==> s.submitter == NoSubmit
    requires s.submitter == MadeRoom ==> |s.queue| < c.maxPending
    requires s.closer == Done && s.worker != Stopped ==> s.queue != []
    ensures Unstuck(c, s)
  {
  }

  /** Nobody is ever stuck. */
  lemma NobodyIsStuck(c: Config, es: seq<Event>)
    requires c.maxPending >= 1
    ensures Unstuck(c, Run(c, es))
  {
    RunKeeps(c, es);
    if Run(c, es).closer == Done && Run(c, es).worker != Stopped { MarkerIsThere(c, es); }
    hide Run, Ids, PendingIs, Balanced, Ordered, Enabled, Unstuck;
    CanGoOn(c, Run(c, es));
  }

  /**
    A close that could not flush takes every record that is still queued: it goes on to the marker only from an empty
    queue. One that could flush begins with nothing pending.
   */
  lemma DiscardsAll(c: Config, es: seq<Event>, e: Event)
    requires c.maxPending >= 1
    ensures var s, r := Run(c, es), Next(c, Run(c, es), e);
            && ((s.closer == Discarding || s.closer == Took(true)) && r.closer != s.closer ==>
                  if r.closer == Marking then s.closer == Discarding && s.queue == []
                  else r.closer == Discarding || r.closer == Took(true))
            && (s.closer == Flushing && r.closer != s.closer ==>
                  if r.closer == Marking then s.pending == 0 else r.closer == Discarding)
  {
    RunKeeps(c, es);
    hide Run, Ids, PendingIs, Balanced, Ordered, Decremented;
  }
}
