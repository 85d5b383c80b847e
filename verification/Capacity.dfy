/**
  Two-level capacity. A task waits for its source's limiter first and for the global one second, and may be
  cancelled at either wait. One step is what runs between two suspension points.
 */
module Capacity {
  import opened Core

  /** A limiter's semaphore permits and its two counters. */
  datatype Limiter = Limiter(limit: nat, permits: nat, inUse: nat, waiting: nat)

  function Fresh(limit: nat): Limiter {
    Limiter(limit, limit, 0, 0)
  }

  function Queue(l: Limiter): Limiter {
    l.(waiting := l.waiting + 1)
  }

  function Leave(l: Limiter): Limiter
    requires l.waiting > 0
  {
    l.(waiting := l.waiting - 1)
  }

  function Grant(l: Limiter): Limiter
    requires l.waiting > 0 && l.permits > 0
  {
    Limiter(l.limit, l.permits - 1, l.inUse + 1, l.waiting - 1)
  }

  function Free(l: Limiter): Limiter
    requires l.inUse > 0
  {
    Limiter(l.limit, l.permits + 1, l.inUse - 1, l.waiting)
  }

  /** Where a task is; it holds its source's slot from the grant until it leaves. */
  datatype Phase = WaitSource(source: string) | WaitGlobal(held: Option<string>) | Holding(held: Option<string>)

  datatype State = State(global: Limiter, sources: map<string, Limiter>, tasks: map<nat, Phase>)

  datatype Event =
    | Begin(task: nat, source: string)
    | GrantSource(task: nat)
    | GrantGlobal(task: nat)
    | Cancel(task: nat)
    | Release(task: nat)

  function Start(globalLimit: nat, limits: map<string, nat>): State {
    State(Fresh(globalLimit), map s | s in limits :: Fresh(limits[s]), map[])
  }

  /** The wait for a permit can end only when there is one; a lease is released by its holder. */
  predicate Enabled(s: State, e: Event) {
    match e
    case Begin(t, _) => t !in s.tasks
    case GrantSource(t) =>
      && t in s.tasks && s.tasks[t].WaitSource? && s.tasks[t].source in s.sources
      && s.sources[s.tasks[t].source].permits > 0
    case GrantGlobal(t) => t in s.tasks && s.tasks[t].WaitGlobal? && s.global.permits > 0
    case Cancel(t) => t in s.tasks && !s.tasks[t].Holding?
    case Release(t) => t in s.tasks && s.tasks[t].Holding?
  }

  ghost predicate Holds(s: State, t: nat, source: string) {
    t in s.tasks && (s.tasks[t].WaitGlobal? || s.tasks[t].Holding?) && s.tasks[t].held == Some(source)
  }

  ghost function HoldersOf(s: State, source: string): set<nat> {
    set t | t in s.tasks && Holds(s, t, source)
  }

  ghost function WaitersOf(s: State, source: string): set<nat> {
    set t | t in s.tasks && s.tasks[t] == WaitSource(source)
  }

  ghost function FullHolders(s: State): set<nat> {
    set t | t in s.tasks && s.tasks[t].Holding?
  }

  ghost function GlobalWaiters(s: State): set<nat> {
    set t | t in s.tasks && s.tasks[t].WaitGlobal?
  }

  /** The counters are the numbers of live holders and waiters, and no permit is lost or made up. */
  ghost predicate Accounts(l: Limiter, holders: nat, waiters: nat) {
    l.limit >= 1 && l.permits + l.inUse == l.limit && l.inUse == holders && l.waiting == waiters
  }

  ghost predicate Invariant(s: State) {
    && Accounts(s.global, |FullHolders(s)|, |GlobalWaiters(s)|)
    && (forall x :: x in s.sources ==> Accounts(s.sources[x], |HoldersOf(s, x)|, |WaitersOf(s, x)|))
    && Placed(s)
  }

  /** Tasks wait for and hold slots of limiters that exist. */
  ghost predicate Placed(s: State) {
    forall t :: t in s.tasks ==>
      match s.tasks[t]
      case WaitSource(x) => x in s.sources
      case WaitGlobal(h) => h.Some? ==> h.value in s.sources
      case Holding(h) => h.Some? ==> h.value in s.sources
  }

  function FreeSource(s: State, held: Option<string>): map<string, Limiter> {
    if held.Some? && held.value in s.sources && s.sources[held.value].inUse > 0
    then s.sources[held.value := Free(s.sources[held.value])] else s.sources
  }

  function Next(s: State, e: Event): State
    requires Invariant(s)
  {
    if !Enabled(s, e) then s
    else match e
      case Begin(t, x) =>
        if x in s.sources then s.(sources := s.sources[x := Queue(s.sources[x])], tasks := s.tasks[t := WaitSource(x)])
        else s.(global := Queue(s.global), tasks := s.tasks[t := WaitGlobal(None)])
      case GrantSource(t) =>
        var x := s.tasks[t].source;
        WaiterCounted(WaitersOf(s, x), t);
        State(Queue(s.global), s.sources[x := Grant(s.sources[x])], s.tasks[t := WaitGlobal(Some(x))])
      case GrantGlobal(t) =>
        WaiterCounted(GlobalWaiters(s), t);
        s.(global := Grant(s.global), tasks := s.tasks[t := Holding(s.tasks[t].held)])
      case Cancel(t) =>
        match s.tasks[t] {
          case WaitSource(x) =>
            WaiterCounted(WaitersOf(s, x), t);
            s.(sources := s.sources[x := Leave(s.sources[x])], tasks := s.tasks - {t})
          case WaitGlobal(h) =>
            WaiterCounted(GlobalWaiters(s), t);
            State(Leave(s.global), FreeSource(s, h), s.tasks - {t})
          case Holding(_) => s
        }
      case Release(t) =>
        WaiterCounted(FullHolders(s), t);
        State(Free(s.global), FreeSource(s, s.tasks[t].held), s.tasks - {t})
  }

  lemma WaiterCounted(group: set<nat>, t: nat)
    requires t in group
    ensures |group| > 0
  {
  }

  /** A holder of a source slot is counted, so releasing it never fails. */
  lemma HolderCounted(s: State, t: nat, x: string)
    requires Invariant(s) && Holds(s, t, x)
    ensures x in s.sources && s.sources[x].inUse > 0
  {
    assert t in HoldersOf(s, x);
  }

  /** The four groups of tasks after a task moves to another phase or leaves. */
  lemma GroupsAfter(s: State, r: State, t: nat, x: string)
    requires r.tasks == s.tasks - {t} || (t in r.tasks && r.tasks == s.tasks[t := r.tasks[t]])
    ensures HoldersOf(r, x) == if Holds(r, t, x) then HoldersOf(s, x) + {t} else HoldersOf(s, x) - {t}
    ensures WaitersOf(r, x) ==
      if t in r.tasks && r.tasks[t] == WaitSource(x) then WaitersOf(s, x) + {t} else WaitersOf(s, x) - {t}
    ensures FullHolders(r) == if t in r.tasks && r.tasks[t].Holding? then FullHolders(s) + {t} else FullHolders(s) - {t}
    ensures GlobalWaiters(r) ==
      if t in r.tasks && r.tasks[t].WaitGlobal? then GlobalWaiters(s) + {t} else GlobalWaiters(s) - {t}
  {
  }

  /** The sizes of the groups after one task has moved. */
  lemma GroupSizes(s: State, r: State, t: nat, x: string)
    requires r.tasks == s.tasks - {t} || (t in r.tasks && r.tasks == s.tasks[t := r.tasks[t]])
    ensures |HoldersOf(r, x)| == |HoldersOf(s, x)| - Bit(Holds(s, t, x)) + Bit(Holds(r, t, x))
    ensures |WaitersOf(r, x)| ==
      |WaitersOf(s, x)| - Bit(t in s.tasks && s.tasks[t] == WaitSource(x)) +
        Bit(t in r.tasks && r.tasks[t] == WaitSource(x))
    ensures |FullHolders(r)| ==
      |FullHolders(s)| - Bit(t in s.tasks && s.tasks[t].Holding?) + Bit(t in r.tasks && r.tasks[t].Holding?)
    ensures |GlobalWaiters(r)| ==
      |GlobalWaiters(s)| - Bit(t in s.tasks && s.tasks[t].WaitGlobal?) + Bit(t in r.tasks && r.tasks[t].WaitGlobal?)
  {
    hide HoldersOf, WaitersOf, FullHolders, GlobalWaiters, Holds;
    GroupsAfter(s, r, t, x);
    Membership(s, t);
    Membership(r, t);
    MovedSize(HoldersOf(s, x), HoldersOf(r, x), t);
    MovedSize(WaitersOf(s, x), WaitersOf(r, x), t);
    MovedSize(FullHolders(s), FullHolders(r), t);
    MovedSize(GlobalWaiters(s), GlobalWaiters(r), t);
  }

  lemma NextGlobal(s: State, e: Event)
    requires Invariant(s)
    ensures var r := Next(s, e); Accounts(r.global, |FullHolders(r)|, |GlobalWaiters(r)|)
  {
    hide Invariant, HoldersOf, WaitersOf, FullHolders, GlobalWaiters, FreeSource;
    GlobalAccounts(s);
    if Enabled(s, e) { GroupSizes(s, Next(s, e), e.task, ""); }
  }

  lemma GlobalAccounts(s: State)
    requires Invariant(s)
    ensures Accounts(s.global, |FullHolders(s)|, |GlobalWaiters(s)|)
  {
  }

  lemma SourceAccounts(s: State, x: string)
    requires Invariant(s) && x in s.sources
    ensures Accounts(s.sources[x], |HoldersOf(s, x)|, |WaitersOf(s, x)|)
  {
  }

  lemma Membership(s: State, t: nat)
    ensures t in FullHolders(s) <==> t in s.tasks && s.tasks[t].Holding?
    ensures t in GlobalWaiters(s) <==> t in s.tasks && s.tasks[t].WaitGlobal?
    ensures forall x :: t in WaitersOf(s, x) <==> t in s.tasks && s.tasks[t] == WaitSource(x)
    ensures forall x :: t in HoldersOf(s, x) <==> Holds(s, t, x)
  {
  }

  lemma NextSource(s: State, e: Event, x: string)
    requires Invariant(s) && x in s.sources
    ensures var r := Next(s, e); x in r.sources && Accounts(r.sources[x], |HoldersOf(r, x)|, |WaitersOf(r, x)|)
  {
    hide Invariant, HoldersOf, WaitersOf, FullHolders, GlobalWaiters;
    SourceAccounts(s, x);
    if Enabled(s, e) {
      GroupSizes(s, Next(s, e), e.task, x);
      if Holds(s, e.task, x) { HolderCounted(s, e.task, x); }
    }
  }

  lemma NextPlaces(s: State, e: Event)
    requires Invariant(s)
    ensures Placed(Next(s, e)) && Next(s, e).sources.Keys == s.sources.Keys
  {
    hide HoldersOf, WaitersOf, FullHolders, GlobalWaiters, Accounts;
  }

  lemma NextKeeps(s: State, e: Event)
    requires Invariant(s)
    ensures Invariant(Next(s, e))
  {
    hide HoldersOf, WaitersOf, FullHolders, GlobalWaiters, Accounts, Next, Placed;
    NextGlobal(s, e);
    NextPlaces(s, e);
    forall x | x in Next(s, e).sources
      ensures Accounts(Next(s, e).sources[x], |HoldersOf(Next(s, e), x)|, |WaitersOf(Next(s, e), x)|)
    {
      NextSource(s, e, x);
    }
  }

  // ---- Runs -----------------------------------------------------------------------------------------

  lemma StartInvariant(globalLimit: nat, limits: map<string, nat>)
    requires globalLimit >= 1 && forall s :: s in limits ==> limits[s] >= 1
    ensures Invariant(Start(globalLimit, limits))
  {
    var s := Start(globalLimit, limits);
    assert FullHolders(s) == {} && GlobalWaiters(s) == {};
    forall x ensures HoldersOf(s, x) == {} && WaitersOf(s, x) == {} {
    }
  }

  ghost function Run(globalLimit: nat, limits: map<string, nat>, es: seq<Event>): (r: State)
    requires globalLimit >= 1 && forall s :: s in limits ==> limits[s] >= 1
    ensures Invariant(r)
    decreases |es|
  {
    StartInvariant(globalLimit, limits);
    if es == [] then Start(globalLimit, limits)
    else
      var s := Run(globalLimit, limits, es[..|es| - 1]);
      NextKeeps(s, es[|es| - 1]);
      Next(s, es[|es| - 1])
  }

  /** In every interleaving a limiter's count is its number of live holders and stays within its limit. */
  lemma {:induction false} WithinLimits(globalLimit: nat, limits: map<string, nat>, es: seq<Event>)
    requires globalLimit >= 1 && forall s :: s in limits ==> limits[s] >= 1
    ensures var r := Run(globalLimit, limits, es);
            && r.global.limit == globalLimit && r.global.inUse == |FullHolders(r)| <= globalLimit
            && r.sources.Keys == limits.Keys
            && forall x :: x in limits ==>
                 r.sources[x].limit == limits[x] && r.sources[x].inUse == |HoldersOf(r, x)| <= limits[x]
  {
    hide HoldersOf, WaitersOf, FullHolders, GlobalWaiters;
    if es != [] {
      WithinLimits(globalLimit, limits, es[..|es| - 1]);
      LimitsFixed(Run(globalLimit, limits, es[..|es| - 1]), es[|es| - 1]);
    }
  }

  lemma LimitsFixed(s: State, e: Event)
    requires Invariant(s)
    ensures var r := Next(s, e);
            && r.global.limit == s.global.limit
            && r.sources.Keys == s.sources.Keys
            && forall x :: x in s.sources ==> r.sources[x].limit == s.sources[x].limit
  {
    hide HoldersOf, WaitersOf, FullHolders, GlobalWaiters;
  }

  /** Nobody waits in vain: if a task waits, some wait can end or some holder can release. */
  // ---- Which slot a task waits for ---------------------------------------------------------------

  /** The phases of a task that began with the source: a limited source's slot comes first and is kept. */
  ghost predicate KeepsTo(limits: map<string, nat>, phase: Phase, source: string) {
    match phase
    case WaitSource(x) => x == source && source in limits
    case WaitGlobal(held) => held == if source in limits then Some(source) else None
    case Holding(held) => held == if source in limits then Some(source) else None
  }

  /** Event `i` is the one with which the task began what it is still doing. */
  ghost predicate BegunAt(globalLimit: nat, limits: map<string, nat>, es: seq<Event>, t: nat, i: nat)
    requires globalLimit >= 1 && forall s :: s in limits ==> limits[s] >= 1
  {
    && i < |es| && es[i].Begin? && es[i].task == t && t !in Run(globalLimit, limits, es[..i]).tasks
    && forall j :: i < j <= |es| ==> t in Run(globalLimit, limits, es[..j]).tasks
  }

  lemma PhaseStep(limits: map<string, nat>, s: State, e: Event, t: nat, source: string)
    requires Invariant(s) && s.sources.Keys == limits.Keys && t in s.tasks && t in Next(s, e).tasks
    requires KeepsTo(limits, s.tasks[t], source)
    ensures KeepsTo(limits, Next(s, e).tasks[t], source)
  {
    hide HoldersOf, WaitersOf, FullHolders, GlobalWaiters, Accounts;
  }

  lemma BeginStep(limits: map<string, nat>, s: State, e: Event, t: nat)
    requires Invariant(s) && s.sources.Keys == limits.Keys && t !in s.tasks && t in Next(s, e).tasks
    ensures e.Begin? && e.task == t && KeepsTo(limits, Next(s, e).tasks[t], e.source)
  {
    hide HoldersOf, WaitersOf, FullHolders, GlobalWaiters, Accounts;
  }

  /** In every run a task waits for, or holds, the slot of the very source it began with if that one is limited. */
  lemma {:induction false} WaitsForItsSource(globalLimit: nat, limits: map<string, nat>, es: seq<Event>, t: nat)
    requires globalLimit >= 1 && forall s :: s in limits ==> limits[s] >= 1
    requires t in Run(globalLimit, limits, es).tasks
    ensures exists i: nat :: BegunAt(globalLimit, limits, es, t, i) &&
              KeepsTo(limits, Run(globalLimit, limits, es).tasks[t], es[i].source)
  {
    hide Next, Invariant, KeepsTo;
    if es == [] {
      assert false;
    } else {
      var n := |es| - 1;
      var s := Run(globalLimit, limits, es[..n]);
      WithinLimits(globalLimit, limits, es[..n]);
      assert es[..n + 1] == es;
      if t !in s.tasks {
        BeginStep(limits, s, es[n], t);
        assert BegunAt(globalLimit, limits, es, t, n);
      } else {
        WaitsForItsSource(globalLimit, limits, es[..n], t);
        var i: nat :| BegunAt(globalLimit, limits, es[..n], t, i) && KeepsTo(limits, s.tasks[t], es[..n][i].source);
        PhaseStep(limits, s, es[n], t, es[i].source);
        assert forall j :: 0 <= j <= n ==> es[..n][..j] == es[..j];
        assert BegunAt(globalLimit, limits, es, t, i);
      }
    }
  }

  lemma NoDeadlock(s: State, t: nat)
    requires Invariant(s) && t in s.tasks && !s.tasks[t].Holding?
    ensures exists u: nat :: Enabled(s, GrantSource(u)) || Enabled(s, GrantGlobal(u)) || Enabled(s, Release(u))
  {
    match s.tasks[t]
    case WaitGlobal(_) => GlobalMoves(s, t);
    case WaitSource(x) =>
      if s.sources[x].permits > 0 {
        assert Enabled(s, GrantSource(t));
      } else {
        SourceAccounts(s, x);
        var u := SomeMember(HoldersOf(s, x));
        if s.tasks[u].WaitGlobal? { GlobalMoves(s, u); } else { assert Enabled(s, Release(u)); }
      }
  }

  lemma GlobalMoves(s: State, t: nat)
    requires Invariant(s) && t in s.tasks && s.tasks[t].WaitGlobal?
    ensures exists u: nat :: Enabled(s, GrantGlobal(u)) || Enabled(s, Release(u))
  {
    if s.global.permits > 0 {
      assert Enabled(s, GrantGlobal(t));
    } else {
      var u := SomeMember(FullHolders(s));
      assert Enabled(s, Release(u));
    }
  }

  lemma SomeMember(group: set<nat>) returns (u: nat)
    requires |group| > 0
    ensures u in group
  {
    u :| u in group;
  }

  // ---- The lease as an object -------------------------------------------------------------------------

  class CapacityLimiter {
    const limit: nat
    var permits: nat
    var inUse: nat
    var waiting: nat

    constructor (limit: nat)
      requires limit >= 1
      ensures this.limit == limit && permits == limit && inUse == 0 && waiting == 0
    {
      this.limit, permits, inUse, waiting := limit, limit, 0, 0;
    }

    /** A task begins to wait and is counted while it does. */
    method BeginWait()
      modifies this`waiting
      ensures waiting == old(waiting) + 1
    {
      waiting := waiting + 1;
    }

    /** The wait ends, with a permit or cancelled. */
    method EndWait(granted: bool)
      requires waiting > 0 && (granted ==> permits > 0)
      modifies this
      ensures waiting == old(waiting) - 1
      ensures inUse == old(inUse) + Bit(granted) && permits == old(permits) - Bit(granted)
    {
      waiting := waiting - 1;
      if granted {
        permits, inUse := permits - 1, inUse + 1;
      }
    }

    /** Refuses a release without a matching acquire. */
    method Release() returns (ok: bool)
      modifies this
      ensures ok <==> old(inUse) > 0
      ensures ok ==> inUse == old(inUse) - 1 && permits == old(permits) + 1
      ensures !ok ==> inUse == old(inUse) && permits == old(permits)
      ensures waiting == old(waiting)
    {
      if inUse <= 0 {
        return false;
      }
      inUse, permits := inUse - 1, permits + 1;
      return true;
    }
  }

  /** What other tasks hold of each limiter, and how many of them wait for it, when a wait of this task ends. */
  datatype Elsewhere = Elsewhere(holdings: nat -> nat, waits: nat -> nat)

  /** The limiter is as other tasks have left it, apart from what this task holds and waits for. */
  ghost predicate Shared(l: CapacityLimiter, e: Elsewhere, i: nat, held: bool, waits: bool)
    reads l
  {
    && l.inUse == e.holdings(i) + Bit(held) && l.permits == l.limit - l.inUse
    && l.waiting == e.waits(i) + Bit(waits)
  }

  /** The limits leave room for what is held elsewhere and by this task. */
  ghost predicate Room(limiters: seq<CapacityLimiter>, e: Elsewhere, own: nat) {
    forall i :: 0 <= i < |limiters| ==> e.holdings(i) + Bit(i < own) <= limiters[i].limit
  }

  /** While this task waits, other tasks change what they hold and how they wait, but nothing that is its own. */
  method Suspend(limiters: seq<CapacityLimiter>, own: nat, e: Elsewhere)
    requires NoDuplicates(limiters) && own < |limiters| && Room(limiters, e, own)
    modifies set l | l in limiters
    ensures forall i :: 0 <= i < |limiters| ==> Shared(limiters[i], e, i, i < own, i == own)
  {
    for n := 0 to |limiters|
      invariant forall i :: 0 <= i < n ==> Shared(limiters[i], e, i, i < own, i == own)
    {
      var l := limiters[n];
      l.inUse := e.holdings(n) + Bit(n < own);
      l.permits := l.limit - l.inUse;
      l.waiting := e.waits(n) + Bit(n == own);
    }
  }

  /** Every limiter is as other tasks have left it, apart from one slot of each of the first `own`. */
  ghost predicate HoldsFirst(limiters: seq<CapacityLimiter>, e: Elsewhere, own: nat)
    reads set l | l in limiters
  {
    forall i :: 0 <= i < |limiters| ==> Shared(limiters[i], e, i, i < own, false)
  }

  /** One wait of this task, for the limiter after those it holds. */
  method WaitFor(limiters: seq<CapacityLimiter>, own: nat, e: Elsewhere, granted: bool)
    requires NoDuplicates(limiters) && own < |limiters| && Room(limiters, e, own + Bit(granted))
    modifies set l | l in limiters
    ensures HoldsFirst(limiters, e, own + Bit(granted))
  {
    var l := limiters[own];
    assert l in limiters;
    l.BeginWait();
    Suspend(limiters, own, e);
    l.EndWait(granted);
  }

  /** Releases what was acquired, in reverse order. */
  method GiveBack(limiters: seq<CapacityLimiter>, own: nat, e: Elsewhere)
    requires NoDuplicates(limiters) && own <= |limiters| && HoldsFirst(limiters, e, own)
    modifies set l | l in limiters
    ensures HoldsFirst(limiters, e, 0)
  {
    var acquired := own;
    while acquired > 0
      invariant 0 <= acquired <= own && HoldsFirst(limiters, e, acquired)
    {
      acquired := acquired - 1;
      assert limiters[acquired] in limiters;
      var ok := limiters[acquired].Release();
    }
  }

  /**
    Acquires the limiters in order, while other tasks act during each wait. The waits of the first `granted` ones
    succeed; a later one is cancelled, and then everything acquired so far is released again. Every limiter ends with
    one slot more than others hold of it, or none with any.
   */
  method Acquire(limiters: seq<CapacityLimiter>, granted: nat, elsewhere: nat -> Elsewhere)
    returns (lease: CapacityLease?)
    requires NoDuplicates(limiters)
    requires forall n :: 0 <= n < |limiters| && n <= granted ==> Room(limiters, elsewhere(n), n + Bit(n < granted))
    modifies set l | l in limiters
    ensures lease != null <==> granted >= |limiters|
    ensures lease != null ==> fresh(lease) && lease.limiters == limiters && !lease.released
    ensures lease != null && limiters != [] ==> HoldsFirst(limiters, elsewhere(|limiters| - 1), |limiters|)
    ensures lease == null ==> HoldsFirst(limiters, elsewhere(granted), 0)
  {
    hide HoldsFirst, Room, NoDuplicates;
    var acquired := 0;
    while acquired < |limiters| && acquired < granted
      invariant 0 <= acquired <= |limiters| && acquired <= granted
      invariant acquired > 0 ==> HoldsFirst(limiters, elsewhere(acquired - 1), acquired)
    {
      WaitFor(limiters, acquired, elsewhere(acquired), true);
      acquired := acquired + 1;
    }
    if acquired < |limiters| {
      WaitFor(limiters, acquired, elsewhere(acquired), false);
      GiveBack(limiters, acquired, elsewhere(acquired));
      return null;
    }
    lease := new CapacityLease(limiters);
  }

  class CapacityLease {
    const limiters: seq<CapacityLimiter>
    var released: bool

    constructor (limiters: seq<CapacityLimiter>)
      ensures this.limiters == limiters && !released
    {
      this.limiters, released := limiters, false;
    }

    /** Releases every limiter once, in reverse order, however often it is called. */
    method Release()
      requires NoDuplicates(limiters) && (!released ==> forall l :: l in limiters ==> l.inUse > 0)
      modifies this, set l | l in limiters
      ensures released
      ensures forall l :: l in limiters ==>
        if old(released) then l.inUse == old(l.inUse) && l.permits == old(l.permits)
        else l.inUse == old(l.inUse) - 1 && l.permits == old(l.permits) + 1
    {
      if released {
        return;
      }
      released := true;
      var n := |limiters|;
      while n > 0
        invariant 0 <= n <= |limiters| && released
        invariant forall i :: 0 <= i < n ==>
          limiters[i].inUse == old(limiters[i].inUse) && limiters[i].permits == old(limiters[i].permits)
        invariant forall i :: n <= i < |limiters| ==>
          limiters[i].inUse == old(limiters[i].inUse) - 1 && limiters[i].permits == old(limiters[i].permits) + 1
      {
        n := n - 1;
        assert limiters[n] in limiters;
        var ok := limiters[n].Release();
      }
    }
  }
}
