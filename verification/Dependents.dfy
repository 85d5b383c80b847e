/** The pinned values that a revalidation reaches: everything recorded as derived from what is revalidated. */
module Dependents {
  import opened Core
  import opened DependencyGraph

  /** With a key the set contains every pinned value that records it as a dependency. */
  ghost predicate ClosedUnderDependents(memo: Entries, s: set<Key>) {
    forall k :: k in memo && memo[k].DepKeys() * s != {} ==> k in s
  }

  /** The least set with the requested keys that is closed under recorded dependents. */
  ghost predicate LeastClosure(memo: Entries, requested: set<Key>, s: set<Key>) {
    && requested <= s
    && ClosedUnderDependents(memo, s)
    && forall t :: requested <= t && ClosedUnderDependents(memo, t) ==> s <= t
  }

  /** There is only one such set, so the order of the pinned values cannot matter. */
  lemma LeastClosureUnique(memo: Entries, requested: set<Key>, s: set<Key>, t: set<Key>)
    requires LeastClosure(memo, requested, s) && LeastClosure(memo, requested, t)
    ensures s == t
  {
  }

  /** A pinned value outside the closure records no dependency on anything inside it. */
  lemma RetainedAreIndependent(memo: Entries, requested: set<Key>, s: set<Key>, k: Key)
    requires LeastClosure(memo, requested, s) && k in memo && k !in s
    ensures memo[k].DepKeys() !! s
  {
    var shared := memo[k].DepKeys() * s;
    assert shared == {};
    assert forall d :: d in memo[k].DepKeys() && d in s <==> d in shared;
  }

  /** One pass over the pinned values, in whatever order they come. */
  method AffectedPass(memo: Entries, ghost requested: set<Key>, affected: set<Key>)
    returns (grown: set<Key>, changed: bool)
    requires requested <= affected
    requires forall t :: requested <= t && ClosedUnderDependents(memo, t) ==> affected <= t
    ensures affected <= grown
    ensures forall t :: requested <= t && ClosedUnderDependents(memo, t) ==> grown <= t
    ensures changed ==> memo.Keys - grown < memo.Keys - affected
    ensures !changed ==> grown == affected && ClosedUnderDependents(memo, grown)
  {
    grown, changed := affected, false;
    var rest := memo.Keys;
    while rest != {}
      invariant rest <= memo.Keys && affected <= grown
      invariant forall t :: requested <= t && ClosedUnderDependents(memo, t) ==> grown <= t
      invariant changed ==> memo.Keys - grown < memo.Keys - affected
      invariant !changed ==> grown == affected
      invariant !changed ==> forall k :: k in memo && k !in rest && memo[k].DepKeys() * grown != {} ==> k in grown
      decreases rest
    {
      var key :| key in rest;
      rest := rest - {key};
      if key in grown {
        continue;
      }
      if memo[key].DepKeys() * grown != {} {
        forall t | requested <= t && ClosedUnderDependents(memo, t) ensures grown + {key} <= t {
          assert memo[key].DepKeys() * grown <= memo[key].DepKeys() * t;
        }
        assert key in memo.Keys - grown && key in memo.Keys - affected && key !in memo.Keys - (grown + {key});
        grown := grown + {key};
        changed := true;
      }
    }
  }

  /** The fixpoint loop computes the least closure exactly. */
  method AffectedKeys(requested: set<Key>, memo: Entries) returns (affected: set<Key>)
    ensures LeastClosure(memo, requested, affected)
  {
    affected := requested;
    var changed := true;
    while changed
      invariant requested <= affected
      invariant forall t :: requested <= t && ClosedUnderDependents(memo, t) ==> affected <= t
      invariant !changed ==> ClosedUnderDependents(memo, affected)
      decreases memo.Keys - affected, if changed then 1 else 0
    {
      affected, changed := AffectedPass(memo, requested, affected);
    }
  }

  /** Every recorded dependency of a pinned value is pinned too. */
  ghost predicate SelfContained(memo: Entries) {
    forall k :: k in memo ==> memo[k].DepKeys() <= memo.Keys
  }

  /** A set of pinned values that only records dependencies inside itself. */
  ghost predicate Secluded(memo: Entries, s: set<Key>) {
    s <= memo.Keys && forall k :: k in s ==> memo[k].DepKeys() <= s
  }

  /** What a revalidation of self-contained values retains is secluded. */
  lemma RetainedAreSecluded(memo: Entries, requested: set<Key>, affected: set<Key>)
    requires LeastClosure(memo, requested, affected) && SelfContained(memo)
    ensures Secluded(memo, memo.Keys - affected)
  {
    forall k | k in memo.Keys - affected ensures memo[k].DepKeys() <= memo.Keys - affected {
      RetainedAreIndependent(memo, requested, affected, k);
    }
  }

  /** Revalidating a key outside a secluded set does not reach into it, whatever else has been pinned. */
  lemma SecludedIsNotReached(memo: Entries, requested: set<Key>, s: set<Key>, affected: set<Key>)
    requires Secluded(memo, s) && requested !! s && LeastClosure(memo, requested, affected)
    ensures affected !! s
  {
    var t := affected - s;
    forall k | k in memo && memo[k].DepKeys() * t != {} ensures k in t {
      var d :| d in memo[k].DepKeys() && d in t;
      assert d in memo[k].DepKeys() * affected;
    }
    assert ClosedUnderDependents(memo, t);
  }
}
