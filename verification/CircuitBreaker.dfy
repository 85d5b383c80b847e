/** The circuit breaker: per failure domain, when calls are admitted and what every history guarantees. */
module CircuitBreaker {

  datatype State = Closed | Open | HalfOpen

  datatype Circuit = Circuit(state: State, failures: nat, openedAt: real, probe: bool)

  datatype Policy = Policy(threshold: nat, recovery: real, enabled: bool) {
    ghost predicate Valid() {
      threshold >= 1 && recovery >= 0.0
    }
  }

  const INITIAL := Circuit(Closed, 0, 0.0, false)

  /** What happens to one circuit; the clock is read by the events that need it. */
  datatype Event =
    | Before(now: real)
    | Success
    | Failure(now: real)
    | Abandoned(now: real)
    | Skipped
    | Reset

  /** Whether a call is let through. */
  predicate Admits(p: Policy, c: Circuit, now: real) {
    match c.state
    case Closed => true
    case Open => now - c.openedAt >= p.recovery && !c.probe
    case HalfOpen => !c.probe
  }

  function Step(p: Policy, c: Circuit, e: Event): Circuit {
    match e
    case Before(now) =>
      if c.state == Closed then c
      else if c.state == Open && now - c.openedAt < p.recovery then c
      else c.(state := HalfOpen, probe := true)
    case Success => INITIAL
    case Failure(now) =>
      var counted := c.(failures := c.failures + 1, probe := false);
      if counted.failures >= p.threshold || c.state == HalfOpen then counted.(state := Open, openedAt := now)
      else counted
    case Abandoned(now) =>
      if c.state == HalfOpen && c.probe then c.(state := Open, openedAt := now, probe := false) else c.(probe := false)
    case Skipped => c.(probe := false)
    case Reset => INITIAL
  }

  /** The circuit after a history. */
  function After(p: Policy, h: seq<Event>): Circuit {
    if h == [] then INITIAL else Step(p, After(p, h[..|h| - 1]), h[|h| - 1])
  }

  lemma AfterStep(p: Policy, h: seq<Event>, i: nat)
    requires i < |h|
    ensures After(p, h[..i + 1]) == Step(p, After(p, h[..i]), h[i])
  {
    assert h[..i + 1][..i] == h[..i];
  }

  lemma AfterOneMore(p: Policy, h: seq<Event>, e: Event)
    ensures After(p, h + [e]) == Step(p, After(p, h), e)
  {
    assert (h + [e])[..|h|] == h;
  }

  lemma AfterReset(p: Policy, h: seq<Event>)
    ensures After(p, []) == INITIAL && After(p, h + [Reset]) == INITIAL
  {
    AfterOneMore(p, h, Reset);
  }

  predicate Clears(e: Event) {
    e.Success? || e.Reset?
  }

  /** Failures recorded since the last success or reset. */
  function FailuresSince(h: seq<Event>): nat {
    if h == [] then 0
    else
      var e := h[|h| - 1];
      if Clears(e) then 0 else FailuresSince(h[..|h| - 1]) + if e.Failure? then 1 else 0
  }

  /** The circuit is closed exactly while too few failures were recorded, and a probe is running only half open. */
  lemma {:induction false} ClosedExactly(p: Policy, h: seq<Event>)
    requires p.Valid()
    ensures After(p, h).failures == FailuresSince(h)
    ensures After(p, h).state == Closed <==> FailuresSince(h) < p.threshold
    ensures After(p, h).probe ==> After(p, h).state == HalfOpen
  {
    if h != [] { ClosedExactly(p, h[..|h| - 1]); }
  }

  // ---- Probes -----------------------------------------------------------------------------------

  /** Event `i` admits a call through a circuit that is not closed. */
  ghost predicate IsProbe(p: Policy, h: seq<Event>, i: nat)
    requires i < |h|
  {
    h[i].Before? && After(p, h[..i]).state != Closed && Admits(p, After(p, h[..i]), h[i].now)
  }

  lemma {:induction false} ProbeHeld(p: Policy, h: seq<Event>, i: nat, m: nat)
    requires p.Valid() && i < m <= |h| && IsProbe(p, h, i)
    requires forall q :: i < q < m ==> h[q].Before?
    ensures After(p, h[..m]).probe && After(p, h[..m]).state == HalfOpen
    decreases m
  {
    AfterStep(p, h, m - 1);
    if m > i + 1 { ProbeHeld(p, h, i, m - 1); }
  }

  /** Between two probes there is a recorded outcome or a reset. */
  lemma ProbesSeparated(p: Policy, h: seq<Event>, i: nat, j: nat)
    requires p.Valid() && i < j < |h| && IsProbe(p, h, i) && IsProbe(p, h, j)
    ensures exists q :: i < q < j && !h[q].Before?
  {
    if forall q :: i < q < j ==> h[q].Before? { ProbeHeld(p, h, i, j); }
  }

  // ---- Recovery time ------------------------------------------------------------------------------

  predicate Timed(e: Event) {
    e.Before? || e.Failure? || e.Abandoned?
  }

  /** The clock does not run backwards. */
  ghost predicate Timely(h: seq<Event>) {
    forall i, j :: 0 <= i < j < |h| && Timed(h[i]) && Timed(h[j]) ==> h[i].now <= h[j].now
  }

  /** A circuit that is not closed was opened by a recorded event. */
  lemma {:induction false} OpenedBy(p: Policy, h: seq<Event>, m: nat) returns (q: nat)
    requires p.Valid() && m <= |h| && After(p, h[..m]).state != Closed
    ensures q < m && Timed(h[q]) && h[q].now == After(p, h[..m]).openedAt
    decreases m
  {
    AfterStep(p, h, m - 1);
    if After(p, h[..m]).openedAt == After(p, h[..m - 1]).openedAt && After(p, h[..m - 1]).state != Closed {
      q := OpenedBy(p, h, m - 1);
    } else {
      q := m - 1;
    }
  }

  /** An event that does not clear an unclosed circuit leaves it unclosed; it opens it anew or half opens it in time. */
  lemma UnclosedStep(p: Policy, c: Circuit, e: Event)
    requires c.state != Closed && c.failures >= p.threshold && !Clears(e)
    ensures var r := Step(p, c, e);
            && r.state != Closed
            && (r.openedAt == c.openedAt || (Timed(e) && r.openedAt == e.now))
            && (r.state == HalfOpen ==> c.state == HalfOpen || (e.Before? && e.now - c.openedAt >= p.recovery))
  {
  }

  /** From an open moment on the circuit stays unclosed, and it is half open only after a call late enough. */
  lemma {:induction false} StaysOpen(p: Policy, h: seq<Event>, i: nat, m: nat)
    requires p.Valid() && Timely(h) && i <= m <= |h| && After(p, h[..i]).state == Open
    requires forall q :: i <= q < m ==> !Clears(h[q])
    ensures After(p, h[..m]).state != Closed
    ensures After(p, h[..m]).openedAt >= After(p, h[..i]).openedAt
    ensures After(p, h[..m]).state == HalfOpen ==>
      exists q :: i <= q < m && h[q].Before? && h[q].now >= After(p, h[..i]).openedAt + p.recovery
    decreases m
  {
    hide After, Step, FailuresSince;
    if m > i {
      StaysOpen(p, h, i, m - 1);
      AfterStep(p, h, m - 1);
      var opener := OpenedBy(p, h, i);
      ClosedExactly(p, h[..m - 1]);
      UnclosedStep(p, After(p, h[..m - 1]), h[m - 1]);
    }
  }

  /** An open circuit admits nothing before its recovery time has passed, unless a success or reset intervenes. */
  lemma OpenRefuses(p: Policy, h: seq<Event>, i: nat, j: nat)
    requires p.Valid() && Timely(h) && i <= j < |h| && After(p, h[..i]).state == Open
    requires h[j].Before? && h[j].now < After(p, h[..i]).openedAt + p.recovery
    requires forall q :: i <= q < j ==> !Clears(h[q])
    ensures !Admits(p, After(p, h[..j]), h[j].now)
  {
    StaysOpen(p, h, i, j);
  }

  /** Once the recovery time of an open circuit has passed, the first call is admitted. */
  lemma {:induction false} RecoveryAdmits(p: Policy, h: seq<Event>, i: nat, j: nat, now: real)
    requires p.Valid() && i <= j <= |h| && After(p, h[..i]).state == Open
    requires forall q :: i <= q < j ==>
      h[q].Skipped? || h[q].Abandoned? || (h[q].Before? && h[q].now < After(p, h[..i]).openedAt + p.recovery)
    ensures After(p, h[..j]) == After(p, h[..i])
    ensures Admits(p, After(p, h[..j]), now) <==> now >= After(p, h[..i]).openedAt + p.recovery
    decreases j
  {
    ClosedExactly(p, h[..i]);
    if j > i {
      RecoveryAdmits(p, h, i, j - 1, now);
      AfterStep(p, h, j - 1);
    }
  }

  /**
    What ends a probe: a success or a reset closes the circuit, a failure or a cancellation opens it at that moment, and
    a call without an outcome lets the next one try at once.
   */
  lemma ProbeEnds(p: Policy, h: seq<Event>, i: nat, q: nat)
    requires p.Valid() && i < q < |h| && IsProbe(p, h, i) && !h[q].Before?
    requires forall m :: i < m < q ==> h[m].Before?
    ensures var after := After(p, h[..q + 1]);
            && (h[q].Success? || h[q].Reset? ==> after.state == Closed && after.failures == 0)
            && (h[q].Failure? || h[q].Abandoned? ==> after.state == Open && after.openedAt == h[q].now)
            && (h[q].Skipped? ==> forall now :: Admits(p, after, now))
  {
    ProbeHeld(p, h, i, q);
    AfterStep(p, h, q);
  }

  /** A closed circuit admits every call, one that is half open only while no probe runs. */
  lemma AdmitsMeans(p: Policy, c: Circuit, now: real)
    ensures c.state == Closed ==> Admits(p, c, now)
    ensures c.state == HalfOpen ==> (Admits(p, c, now) <==> !c.probe)
    ensures c.state == Open && !c.probe ==> (Admits(p, c, now) <==> now >= c.openedAt + p.recovery)
  {
  }

  // ---- The breaker as an object -------------------------------------------------------------------

  class Breaker<Identity(==, !new)> {
    const policy: Identity -> Policy
    var circuits: map<Identity, Circuit>
    ghost var history: map<Identity, seq<Event>>

    function CircuitOf(id: Identity): Circuit
      reads this
    {
      if id in circuits then circuits[id] else INITIAL
    }

    ghost function HistoryOf(id: Identity): seq<Event>
      reads this
    {
      if id in history then history[id] else []
    }

    /** Every circuit is what its history makes of it. */
    ghost predicate Valid()
      reads this
    {
      forall id :: policy(id).Valid() && CircuitOf(id) == After(policy(id), HistoryOf(id))
    }

    constructor (policy: Identity -> Policy)
      requires forall id :: policy(id).Valid()
      ensures Valid() && this.policy == policy && forall id :: HistoryOf(id) == []
    {
      this.policy, circuits, history := policy, map[], map[];
    }

    /** Only the named circuit moves, by the event. */
    twostate predicate Recorded(id: Identity, e: Event)
      reads this
    {
      && HistoryOf(id) == old(HistoryOf(id)) + [e]
      && forall x :: x != id ==> HistoryOf(x) == old(HistoryOf(x)) && CircuitOf(x) == old(CircuitOf(x))
    }

    /** Admits or refuses a call. */
    method BeforeCall(id: Identity, now: real) returns (admitted: bool)
      requires Valid()
      modifies this
      ensures Valid()
      ensures !policy(id).enabled ==> admitted && circuits == old(circuits) && history == old(history)
      ensures policy(id).enabled ==> Recorded(id, Before(now))
      ensures policy(id).enabled ==> admitted == Admits(policy(id), old(CircuitOf(id)), now)
      ensures policy(id).enabled ==>
        var c, late := old(CircuitOf(id)), now >= old(CircuitOf(id)).openedAt + policy(id).recovery;
        && (admitted <==> c.state == Closed || (!c.probe && (c.state == HalfOpen || late)))
        && CircuitOf(id) == if c.state == Closed || (c.state == Open && !late) then c
                            else Circuit(HalfOpen, c.failures, c.openedAt, true)
    {
      ClosedExactly(policy(id), HistoryOf(id));
      hide After;
      var p := policy(id);
      if !p.enabled {
        return true;
      }
      AfterOneMore(p, HistoryOf(id), Before(now));
      Remember(id, Before(now));
      var circuit := CircuitOf(id);
      circuits := circuits[id := circuit];
      if circuit.state == Closed {
        return true;
      }
      if circuit.state == Open {
        if now - circuit.openedAt < p.recovery {
          return false;
        }
        circuits := circuits[id := circuits[id].(state := HalfOpen)];
      }
      if circuit.probe {
        return false;
      }
      circuits := circuits[id := circuits[id].(probe := true)];
      return true;
    }

    method RecordSuccess(id: Identity)
      requires Valid()
      modifies this
      ensures Valid()
      ensures !policy(id).enabled ==> circuits == old(circuits) && history == old(history)
      ensures policy(id).enabled ==> Recorded(id, Success) && CircuitOf(id) == Circuit(Closed, 0, 0.0, false)
    {
      hide After;
      if policy(id).enabled {
        AfterOneMore(policy(id), HistoryOf(id), Success);
        Remember(id, Success);
        circuits := circuits[id := Circuit(Closed, 0, 0.0, false)];
      }
    }

    method RecordFailure(id: Identity, now: real)
      requires Valid()
      modifies this
      ensures Valid()
      ensures !policy(id).enabled ==> circuits == old(circuits) && history == old(history)
      ensures policy(id).enabled ==> Recorded(id, Failure(now))
      ensures policy(id).enabled ==>
        var c := old(CircuitOf(id));
        CircuitOf(id) == if c.failures + 1 >= policy(id).threshold || c.state == HalfOpen
                         then Circuit(Open, c.failures + 1, now, false)
                         else Circuit(c.state, c.failures + 1, c.openedAt, false)
    {
      hide After;
      var p := policy(id);
      if p.enabled {
        AfterOneMore(policy(id), HistoryOf(id), Failure(now));
        Remember(id, Failure(now));
        var circuit := CircuitOf(id);
        var counted := circuit.(probe := false, failures := circuit.failures + 1);
        if counted.failures >= p.threshold || counted.state == HalfOpen {
          counted := counted.(state := Open, openedAt := now);
        }
        circuits := circuits[id := counted];
      }
    }

    /** A probe that was cancelled before an outcome reopens the circuit. */
    method RecordAbandoned(id: Identity, now: real)
      requires Valid()
      modifies this
      ensures Valid()
      ensures !policy(id).enabled ==> circuits == old(circuits) && history == old(history)
      ensures policy(id).enabled ==> Recorded(id, Abandoned(now))
      ensures policy(id).enabled ==>
        var c := old(CircuitOf(id));
        CircuitOf(id) == if c.state == HalfOpen && c.probe then Circuit(Open, c.failures, now, false)
                         else Circuit(c.state, c.failures, c.openedAt, false)
    {
      hide After;
      if policy(id).enabled {
        AfterOneMore(policy(id), HistoryOf(id), Abandoned(now));
        Remember(id, Abandoned(now));
        if id in circuits {
          if circuits[id].state == HalfOpen && circuits[id].probe {
            circuits := circuits[id := circuits[id].(state := Open, openedAt := now)];
          }
          circuits := circuits[id := circuits[id].(probe := false)];
        }
      }
    }

    method RecordSkipped(id: Identity)
      requires Valid()
      modifies this
      ensures Valid()
      ensures !policy(id).enabled ==> circuits == old(circuits) && history == old(history)
      ensures policy(id).enabled ==> Recorded(id, Skipped)
      ensures policy(id).enabled ==>
        var c := old(CircuitOf(id)); CircuitOf(id) == Circuit(c.state, c.failures, c.openedAt, false)
    {
      hide After;
      if policy(id).enabled {
        AfterOneMore(policy(id), HistoryOf(id), Skipped);
        Remember(id, Skipped);
        if id in circuits {
          circuits := circuits[id := circuits[id].(probe := false)];
        }
      }
    }

    method ResetOne(id: Identity)
      requires Valid()
      modifies this
      ensures Valid() && Recorded(id, Reset) && CircuitOf(id) == Circuit(Closed, 0, 0.0, false)
    {
      hide After;
      AfterOneMore(policy(id), HistoryOf(id), Reset);
      Remember(id, Reset);
      circuits := circuits - {id};
    }

    method ResetAll()
      requires Valid()
      modifies this
      ensures Valid() && circuits == map[]
      ensures forall id :: old(HistoryOf(id)) != [] ==> HistoryOf(id) == old(HistoryOf(id)) + [Reset]
    {
      hide After, Step;
      forall id ensures After(policy(id), []) == INITIAL && After(policy(id), HistoryOf(id) + [Reset]) == INITIAL {
        AfterReset(policy(id), HistoryOf(id));
      }
      circuits := map[];
      history := map id | id in history :: history[id] + [Reset];
    }

    /** Extends the history of one circuit. */
    ghost method Remember(id: Identity, e: Event)
      modifies this`history
      ensures HistoryOf(id) == old(HistoryOf(id)) + [e]
      ensures forall x :: x != id ==> HistoryOf(x) == old(HistoryOf(x))
    {
      history := history[id := HistoryOf(id) + [e]];
    }
  }
}
