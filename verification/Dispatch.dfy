/**
  Bounded dispatch: a fixed set of workers share the index of the next item. One step is what a worker or the
  caller does between two suspension points.
 */
module Dispatch {
  import opened Core

  /**
    A worker is about to look for work, runs the operation for an item, has found no more items, or has been broken off.
   */
  datatype Worker = Ready | Running(index: nat) | Finished | Broken

  /** `lost` are the items whose operation failed or was cancelled; `aborted` says that the caller raises. */
  datatype State<R> = State(workers: seq<Worker>, next: nat, results: map<nat, R>, lost: set<nat>, aborted: bool)

  datatype Event =
    | Look(worker: nat)
    | Complete(worker: nat)
    | Fail(worker: nat)
    | Interrupt
    | CancelWorkers

  /** The number of workers: no more than allowed, no more than items. */
  function Start<R>(items: nat, maxTasks: nat): State<R> {
    State(seq(Min(maxTasks, items), i => Ready), 0, map[], {}, false)
  }

  /**
    The caller may be cancelled at any time; it cancels its workers once an operation failed or it was cancelled itself.
   */
  predicate Enabled<R>(s: State<R>, e: Event) {
    match e
    case Look(w) => w < |s.workers| && s.workers[w] == Ready
    case Complete(w) => w < |s.workers| && s.workers[w].Running?
    case Fail(w) => w < |s.workers| && s.workers[w].Running?
    case Interrupt => true
    case CancelWorkers => s.aborted
  }

  function CancelAll(workers: seq<Worker>): (r: seq<Worker>)
    ensures |r| == |workers| && forall i :: 0 <= i < |r| ==> r[i] == if workers[i] == Finished then Finished else Broken
  {
    seq(|workers|, i requires 0 <= i < |workers| => if workers[i] == Finished then Finished else Broken)
  }

  /** The items that are being worked on. */
  function InWork(workers: seq<Worker>): (r: set<nat>)
    ensures forall i :: i in r <==> exists w :: 0 <= w < |workers| && workers[w] == Running(i)
  {
    set w | 0 <= w < |workers| && workers[w].Running? :: workers[w].index
  }

  /** Between a failure and the cancellation that follows it the other workers go on. */
  function Next<T, R>(items: seq<T>, operation: T -> R, s: State<R>, e: Event): State<R> {
    if !Enabled(s, e) then s
    else match e
      case Look(w) =>
        if s.next < |items| then s.(workers := s.workers[w := Running(s.next)], next := s.next + 1)
        else s.(workers := s.workers[w := Finished])
      case Complete(w) =>
        var i := s.workers[w].index;
        s.(workers := s.workers[w := Ready],
           results := if i < |items| then s.results[i := operation(items[i])] else s.results)
      case Fail(w) => s.(workers := s.workers[w := Broken], lost := s.lost + {s.workers[w].index}, aborted := true)
      case Interrupt => s.(aborted := true)
      case CancelWorkers => s.(workers := CancelAll(s.workers), lost := s.lost + InWork(s.workers))
  }

  /** Exactly one worker runs the item. */
  ghost predicate RunsOnce<R>(s: State<R>, i: nat) {
    && (exists w :: 0 <= w < |s.workers| && s.workers[w] == Running(i))
    && (forall v, w ::
          0 <= v < |s.workers| && 0 <= w < |s.workers| && s.workers[v] == Running(i) && s.workers[w] == Running(i) ==>
            v == w)
  }

  ghost predicate Idle<R>(s: State<R>, i: nat) {
    forall w :: 0 <= w < |s.workers| ==> s.workers[w] != Running(i)
  }

  /** A claimed item is done, lost or running once, and only one of these. */
  ghost predicate Placed<R>(s: State<R>, i: nat) {
    if i in s.results then Idle(s, i) && i !in s.lost
    else if i in s.lost then Idle(s, i)
    else RunsOnce(s, i)
  }

  /** Claimed items are placed, unclaimed ones are untouched, and results are the operation's. */
  ghost predicate Invariant<T, R>(items: seq<T>, operation: T -> R, maxTasks: nat, s: State<R>) {
    && |s.workers| == Min(maxTasks, |items|)
    && s.next <= |items|
    && (forall i :: i in s.results ==> i < s.next && s.results[i] == operation(items[i]))
    && (forall i :: 0 <= i < s.next ==> Placed(s, i))
    && (forall i :: i in s.lost ==> i < s.next && s.aborted)
    && (forall w :: 0 <= w < |s.workers| && s.workers[w].Running? ==> s.workers[w].index < s.next)
    && (forall w :: 0 <= w < |s.workers| && s.workers[w] == Finished ==> s.next == |items|)
    && (forall w :: 0 <= w < |s.workers| && s.workers[w] == Broken ==> s.aborted)
  }

  lemma LookKeeps<T, R>(items: seq<T>, operation: T -> R, maxTasks: nat, s: State<R>, w: nat)
    requires Invariant(items, operation, maxTasks, s) && Enabled(s, Look(w))
    ensures Invariant(items, operation, maxTasks, Next(items, operation, s, Look(w)))
  {
    var r := Next(items, operation, s, Look(w));
    forall i | 0 <= i < r.next ensures Placed(r, i) {
      if i == s.next {
        assert r.workers[w] == Running(i);
      } else {
        assert Placed(s, i);
        if i !in s.results && i !in s.lost {
          var v :| 0 <= v < |s.workers| && s.workers[v] == Running(i);
          assert r.workers[v] == Running(i);
        }
      }
    }
  }

  /** A worker leaves its item, which is then done or lost. */
  lemma LeaveKeeps<T, R>(items: seq<T>, operation: T -> R, maxTasks: nat, s: State<R>, e: Event)
    requires Invariant(items, operation, maxTasks, s) && (e.Complete? || e.Fail?) && Enabled(s, e)
    ensures Invariant(items, operation, maxTasks, Next(items, operation, s, e))
  {
    var r, left := Next(items, operation, s, e), s.workers[e.worker].index;
    assert Placed(s, left);
    forall i | 0 <= i < r.next ensures Placed(r, i) {
      assert Placed(s, i);
      if i != left && i !in s.results && i !in s.lost {
        var v :| 0 <= v < |s.workers| && s.workers[v] == Running(i);
        assert r.workers[v] == Running(i);
      }
    }
  }

  lemma CancelKeeps<T, R>(items: seq<T>, operation: T -> R, maxTasks: nat, s: State<R>)
    requires Invariant(items, operation, maxTasks, s) && s.aborted
    ensures Invariant(items, operation, maxTasks, Next(items, operation, s, CancelWorkers))
  {
    var r := Next(items, operation, s, CancelWorkers);
    forall i | 0 <= i < r.next ensures Placed(r, i) {
      assert Placed(s, i);
    }
  }

  lemma NextKeeps<T, R>(items: seq<T>, operation: T -> R, maxTasks: nat, s: State<R>, e: Event)
    requires Invariant(items, operation, maxTasks, s)
    ensures Invariant(items, operation, maxTasks, Next(items, operation, s, e))
  {
    if !Enabled(s, e) { return; }
    match e
    case Look(w) => LookKeeps(items, operation, maxTasks, s, w);
    case Complete(_) => LeaveKeeps(items, operation, maxTasks, s, e);
    case Fail(_) => LeaveKeeps(items, operation, maxTasks, s, e);
    case Interrupt =>
      forall i | 0 <= i < s.next ensures Placed(Next(items, operation, s, e), i) { assert Placed(s, i); }
    case CancelWorkers => CancelKeeps(items, operation, maxTasks, s);
  }

  function Run<T, R>(items: seq<T>, operation: T -> R, maxTasks: nat, es: seq<Event>): State<R> {
    if es == [] then Start(|items|, maxTasks) else Next(items, operation,
                                                        Run(items, operation, maxTasks, es[..|es| - 1]), es[|es| - 1])
  }

  lemma {:induction false} RunKeeps<T, R>(items: seq<T>, operation: T -> R, maxTasks: nat, es: seq<Event>)
    ensures Invariant(items, operation, maxTasks, Run(items, operation, maxTasks, es))
  {
    hide Next, Invariant;
    if es == [] {
      StartInvariant(items, operation, maxTasks);
    } else {
      RunKeeps(items, operation, maxTasks, es[..|es| - 1]);
      NextKeeps(items, operation, maxTasks, Run(items, operation, maxTasks, es[..|es| - 1]), es[|es| - 1]);
    }
  }

  lemma StartInvariant<T, R>(items: seq<T>, operation: T -> R, maxTasks: nat)
    ensures Invariant(items, operation, maxTasks, Start(|items|, maxTasks))
  {
  }

  /** The items claimed during a run, in the order in which they were claimed. */
  function Claims<T, R>(items: seq<T>, operation: T -> R, maxTasks: nat, es: seq<Event>): seq<nat> {
    if es == [] then []
    else
      var front, e := es[..|es| - 1], es[|es| - 1];
      var s := Run(items, operation, maxTasks, front);
      var before := Claims(items, operation, maxTasks, front);
      if e.Look? && Enabled(s, e) && Next(items, operation, s, e).workers[e.worker].Running?
      then before + [Next(items, operation, s, e).workers[e.worker].index] else before
  }

  function UpTo(n: nat): seq<nat> {
    seq(n, i => i)
  }

  /** The items are claimed in order, each of them once. */
  lemma {:induction false} ClaimsInOrder<T, R>(items: seq<T>, operation: T -> R, maxTasks: nat, es: seq<Event>)
    ensures Claims(items, operation, maxTasks, es) == UpTo(Run(items, operation, maxTasks, es).next)
  {
    if es != [] {
      var front := es[..|es| - 1];
      ClaimsInOrder(items, operation, maxTasks, front);
      var n := Run(items, operation, maxTasks, front).next;
      assert UpTo(n + 1) == UpTo(n) + [n];
    }
  }

  ghost function Active<R>(s: State<R>): set<nat> {
    set w: nat | w < |s.workers| && s.workers[w].Running?
  }

  /**
    In every interleaving, failures and cancellation included: the items are claimed in order and each once, an
    item that is done or lost is not worked on any more, no two workers share one, and few operations are active.
   */
  lemma ClaimedOnce<T, R>(items: seq<T>, operation: T -> R, maxTasks: nat, es: seq<Event>)
    ensures var s := Run(items, operation, maxTasks, es);
            && Claims(items, operation, maxTasks, es) == UpTo(s.next) && s.next <= |items|
            && (forall v, w :: 0 <= v < w < |s.workers| && s.workers[v].Running? && s.workers[w].Running? ==>
                  s.workers[v].index != s.workers[w].index)
            && (forall w :: 0 <= w < |s.workers| && s.workers[w].Running? ==>
                  s.workers[w].index < s.next && s.workers[w].index !in s.results && s.workers[w].index !in s.lost)
            && |Active(s)| <= Min(maxTasks, |items|)
  {
    RunKeeps(items, operation, maxTasks, es);
    ClaimsInOrder(items, operation, maxTasks, es);
    var s := Run(items, operation, maxTasks, es);
    forall w | 0 <= w < |s.workers| && s.workers[w].Running?
      ensures s.workers[w].index !in s.results && s.workers[w].index !in s.lost && RunsOnce(s, s.workers[w].index)
    {
      assert Placed(s, s.workers[w].index);
    }
    SubsetCardinality(Active(s), Indices(|s.workers|));
  }

  function Indices(n: nat): (r: set<nat>)
    ensures |r| == n && forall i :: i in r <==> 0 <= i < n
  {
    if n == 0 then {} else Indices(n - 1) + {n - 1}
  }

  function Output<R>(s: State<R>, n: nat): seq<R>
    requires forall i :: 0 <= i < n ==> i in s.results
  {
    seq(n, i requires 0 <= i < n => s.results[i])
  }

  /** Every worker has finished and the caller raises nothing. */
  predicate Returned<R>(s: State<R>) {
    !s.aborted && forall w :: 0 <= w < |s.workers| ==> s.workers[w] == Finished
  }

  /** When the dispatch returns there is one result per item, in input order. */
  lemma OrderedResults<T, R>(items: seq<T>, operation: T -> R, maxTasks: nat, es: seq<Event>)
    requires maxTasks >= 1 && Returned(Run(items, operation, maxTasks, es))
    ensures var s := Run(items, operation, maxTasks, es);
            && (forall i :: 0 <= i < |items| ==> i in s.results)
            && s.results.Keys == Indices(|items|)
            && Output(s, |items|) == seq(|items|, i requires 0 <= i < |items| => operation(items[i]))
  {
    RunKeeps(items, operation, maxTasks, es);
    var s := Run(items, operation, maxTasks, es);
    if items != [] {
      assert s.workers[0] == Finished;
      assert s.next == |items|;
    }
    assert forall i :: 0 <= i < |items| && i !in s.results && i !in s.lost ==> Placed(s, i) && RunsOnce(s, i);
  }

  /** Unless the caller raises, a dispatch that has not returned has a worker that can go on. */
  lemma NobodyIsStuck<T, R>(items: seq<T>, operation: T -> R, maxTasks: nat, es: seq<Event>)
    ensures var s := Run(items, operation, maxTasks, es);
            !s.aborted && !Returned(s) ==> exists w: nat :: Enabled(s, Look(w)) || Enabled(s, Complete(w))
  {
    RunKeeps(items, operation, maxTasks, es);
    var s := Run(items, operation, maxTasks, es);
    if !s.aborted && !Returned(s) {
      var w :| 0 <= w < |s.workers| && s.workers[w] != Finished;
      assert Enabled(s, Look(w)) || Enabled(s, Complete(w));
    }
  }
}
