/** Acceptance of a snapshot: quality rules for single resources and presence requirements for groups. */
module Acceptance {
  import opened Core

  datatype Rule = Rule(maxAge: Option<real>, allowStale: bool, minimumRank: Option<int>)

  datatype Requirement = Requirement(keys: seq<Key>, minimumCount: nat, name: string)

  /** `ruled` lists the keys of `rules` in declaration order. */
  datatype Policy = Policy(defaultRule: Rule, ruled: seq<Key>, rules: map<Key, Rule>, requirements: seq<Requirement>,
                           includeOptional: bool) {
    ghost predicate Valid() {
      && Elems(ruled) == rules.Keys
      && forall r :: r in requirements ==> NoDuplicates(r.keys)
    }

    function RuleFor(k: Key): Rule {
      if k in rules then rules[k] else defaultRule
    }
  }

  datatype Violation =
    | Stale(key: Key, age: real)
    | TooOld(key: Key, age: real, maxAge: real)
    | InsufficientAuthority(key: Key, rank: int, minimumRank: int)
    | Unsatisfied(requirement: Requirement, accepted: nat)

  type Freshness = Key -> FreshnessPolicy

  function AgeAt(v: Value, now: real): real {
    var age := Max0(v.age);
    if age < now - v.observedAt then now - v.observedAt else age
  }

  predicate StaleAt(v: Value, now: real, freshness: FreshnessPolicy) {
    v.stale || freshness.ttl.Exceeded(AgeAt(v, now))
  }

  /** What is wrong with one resolved resource. */
  function KeyViolations(k: Key, v: Value, rule: Rule, freshness: FreshnessPolicy, now: real): seq<Violation> {
    var age := AgeAt(v, now);
    (if !rule.allowStale && StaleAt(v, now, freshness) then [Stale(k, age)] else [])
    + (if rule.maxAge.Some? && age > rule.maxAge.value then [TooOld(k, age, rule.maxAge.value)] else [])
    + (if rule.minimumRank.Some? && v.rank < rule.minimumRank.value
       then [InsufficientAuthority(k, v.rank, rule.minimumRank.value)] else [])
  }

  // ---- What acceptance means ------------------------------------------------------------------

  ghost predicate Meets(v: Value, rule: Rule, freshness: FreshnessPolicy, now: real) {
    && (rule.allowStale || !StaleAt(v, now, freshness))
    && (rule.maxAge.Some? ==> AgeAt(v, now) <= rule.maxAge.value)
    && (rule.minimumRank.Some? ==> v.rank >= rule.minimumRank.value)
  }

  /**
    What is wrong with a resource, by its own fields: its age is the greatest of zero, its recorded age and the time
    since
    it was observed, and each fault is reported exactly when its bound is broken.
   */
  lemma FaultsMean(k: Key, v: Value, rule: Rule, freshness: FreshnessPolicy, now: real)
    ensures var age, faults := AgeAt(v, now), KeyViolations(k, v, rule, freshness, now);
            var stale := v.stale || (freshness.ttl.Finite? && age > freshness.ttl.seconds);
            && age >= 0.0 && age >= v.age && age >= now - v.observedAt
            && (age == 0.0 || age == v.age || age == now - v.observedAt)
            && (Stale(k, age) in faults <==> !rule.allowStale && stale)
            && (rule.maxAge.Some? ==> (TooOld(k, age, rule.maxAge.value) in faults <==> age > rule.maxAge.value))
            && (rule.minimumRank.Some? ==>
                  (InsufficientAuthority(k, v.rank, rule.minimumRank.value) in faults <==>
                     v.rank < rule.minimumRank.value))
            && (forall x :: x in faults ==>
                  || x == Stale(k, age)
                  || (rule.maxAge.Some? && x == TooOld(k, age, rule.maxAge.value))
                  || (rule.minimumRank.Some? && x == InsufficientAuthority(k, v.rank, rule.minimumRank.value)))
            && (Meets(v, rule, freshness, now) <==> faults == [])
  {
  }

  /** The resource is present and meets its rule. */
  ghost predicate Acceptable(resources: Entries, policy: Policy, freshness: Freshness, now: real, k: Key) {
    k in resources && Meets(resources[k], policy.RuleFor(k), freshness(k), now)
  }

  ghost function AcceptableKeys(resources: Entries, policy: Policy, freshness: Freshness, now: real,
                                keys: seq<Key>): set<Key> {
    set k | k in keys && Acceptable(resources, policy, freshness, now, k)
  }

  ghost predicate Satisfied(resources: Entries, policy: Policy, freshness: Freshness, now: real, r: Requirement) {
    |AcceptableKeys(resources, policy, freshness, now, r.keys)| >= r.minimumCount
  }

  ghost predicate Enforced(policy: Policy, required: seq<Key>, optional: seq<Key>, k: Key) {
    k in required || (policy.includeOptional && k in optional) || k in policy.rules
  }

  ghost predicate Accepted(resources: Entries, required: seq<Key>, optional: seq<Key>, policy: Policy,
                           freshness: Freshness, now: real) {
    && (forall k :: Enforced(policy, required, optional, k) && k in resources ==>
          Acceptable(resources, policy, freshness, now, k))
    && (forall r :: r in policy.requirements ==> Satisfied(resources, policy, freshness, now, r))
  }

  /** The policy is not met, and the violations are the faults of enforced keys and the groups that fall short. */
  ghost predicate RejectedWith(resources: Entries, required: seq<Key>, optional: seq<Key>, policy: Policy,
                               freshness: Freshness, now: real, violations: seq<Violation>) {
    && !Accepted(resources, required, optional, policy, freshness, now)
    && forall v :: v in violations <==>
         || (exists k :: Enforced(policy, required, optional, k) && v in Faults(resources, policy, freshness, now, k))
         || (exists r ::
              && r in policy.requirements
              && !Satisfied(resources, policy, freshness, now, r)
              && ReportedFor(resources, required, optional, policy, freshness, now, r, v))
  }

  /** Only which keys are required matters, not how they are listed. */
  lemma RejectedAlike(resources: Entries, required: seq<Key>, listed: seq<Key>, policy: Policy, freshness: Freshness,
                      now: real, violations: seq<Violation>)
    requires forall k :: k in required <==> k in listed
    requires RejectedWith(resources, required, [], policy, freshness, now, violations)
    ensures RejectedWith(resources, listed, [], policy, freshness, now, violations)
  {
    hide Acceptable, Satisfied, Faults;
    assert forall k :: Enforced(policy, required, [], k) <==> Enforced(policy, listed, [], k);
    assert forall r, v :: ReportedFor(resources, required, [], policy, freshness, now, r, v) <==>
                            ReportedFor(resources, listed, [], policy, freshness, now, r, v);
  }

  // ---- The evaluation -------------------------------------------------------------------------

  function Faults(resources: Entries, policy: Policy, freshness: Freshness, now: real, k: Key): (r: seq<Violation>)
    ensures forall v :: v in r ==> !v.Unsatisfied?
  {
    if k in resources then KeyViolations(k, resources[k], policy.RuleFor(k), freshness(k), now) else []
  }

  lemma FaultlessMeans(resources: Entries, policy: Policy, freshness: Freshness, now: real, k: Key)
    requires k in resources
    ensures Faults(resources, policy, freshness, now, k) == [] <==> Acceptable(resources, policy, freshness, now, k)
  {
  }

  function AcceptedAmong(keys: seq<Key>, acceptable: map<Key, bool>): set<Key> {
    set k | k in keys && k in acceptable && acceptable[k]
  }

  lemma AcceptedStep(keys: seq<Key>, acceptable: map<Key, bool>, n: nat)
    requires NoDuplicates(keys) && n < |keys|
    ensures var before, after := AcceptedAmong(keys[..n], acceptable), AcceptedAmong(keys[..n + 1], acceptable);
            if keys[n] in acceptable && acceptable[keys[n]] then keys[n] !in before && after == before + {keys[n]}
            else after == before
  {
    assert keys[..n + 1] == keys[..n] + [keys[n]];
  }

  /** Counts the acceptable members of a group. */
  method CountAcceptable(keys: seq<Key>, acceptable: map<Key, bool>) returns (count: nat)
    requires NoDuplicates(keys)
    ensures count == |AcceptedAmong(keys, acceptable)|
  {
    hide AcceptedAmong, NoDuplicates;
    count := 0;
    assert keys[..0] == [];
    NoneAccepted(acceptable);
    for n := 0 to |keys|
      invariant count == |AcceptedAmong(keys[..n], acceptable)|
    {
      AcceptedStep(keys, acceptable, n);
      if keys[n] in acceptable && acceptable[keys[n]] {
        count := count + 1;
      }
    }
    assert keys[..|keys|] == keys;
  }

  lemma NoneAccepted(acceptable: map<Key, bool>)
    ensures AcceptedAmong([], acceptable) == {}
  {
  }

  /** An unsatisfied group reports itself and the faults of its members that are not reported anyway. */
  ghost predicate BlamedOn(resources: Entries, policy: Policy, freshness: Freshness, now: real, enforced: set<Key>,
                           r: Requirement, v: Violation) {
    || v == Unsatisfied(r, |AcceptableKeys(resources, policy, freshness, now, r.keys)|)
    || exists k :: k in r.keys && k !in enforced && v in Faults(resources, policy, freshness, now, k)
  }

  /** The faults of the group members that are not enforced directly. */
  method MemberFaults(keys: seq<Key>, enforced: set<Key>, faults: map<Key, seq<Violation>>, ghost resources: Entries,
                      ghost policy: Policy, ghost freshness: Freshness, ghost now: real)
    returns (violations: seq<Violation>)
    requires forall k :: k in keys ==>
      (if k in faults then faults[k] else []) == Faults(resources, policy, freshness, now, k)
    ensures forall v :: v in violations <==>
      exists k :: k in keys && k !in enforced && v in Faults(resources, policy, freshness, now, k)
  {
    hide Faults;
    violations := [];
    for n := 0 to |keys|
      invariant forall v :: v in violations <==>
        exists k :: k in keys[..n] && k !in enforced && v in Faults(resources, policy, freshness, now, k)
    {
      var key := keys[n];
      assert keys[..n + 1] == keys[..n] + [key];
      if key !in enforced {
        violations := violations + if key in faults then faults[key] else [];
      }
    }
    assert keys[..|keys|] == keys;
  }

  function GroupKeys(requirements: seq<Requirement>): (r: seq<Key>)
    ensures forall k :: k in r <==> exists q :: q in requirements && k in q.keys
  {
    if requirements == [] then []
    else
      var n := |requirements| - 1;
      assert requirements == requirements[..n] + [requirements[n]];
      GroupKeys(requirements[..n]) + requirements[n].keys
  }

  /** The loop over single resources. */
  method ExamineKeys(resources: Entries, keys: seq<Key>, enforced: set<Key>, policy: Policy, freshness: Freshness,
                     now: real)
    returns (violations: seq<Violation>, faults: map<Key, seq<Violation>>, acceptable: map<Key, bool>)
    ensures acceptable.Keys == Elems(keys)
    ensures forall k :: k in keys ==> acceptable[k] == Acceptable(resources, policy, freshness, now, k)
    ensures forall k :: k in keys ==>
      (if k in faults then faults[k] else []) == Faults(resources, policy, freshness, now, k)
    ensures forall v :: v in violations <==>
      exists k :: k in keys && k in enforced && v in Faults(resources, policy, freshness, now, k)
  {
    hide Acceptable, Faults;
    violations, faults, acceptable := [], map[], map[];
    for n := 0 to |keys|
      invariant acceptable.Keys == Elems(keys[..n]) && faults.Keys <= acceptable.Keys
      invariant forall k :: k in keys[..n] ==> acceptable[k] == Acceptable(resources, policy, freshness, now, k)
      invariant forall k :: k in keys[..n] ==>
        (if k in faults then faults[k] else []) == Faults(resources, policy, freshness, now, k)
      invariant forall v :: v in violations <==>
        exists k :: k in keys[..n] && k in enforced && v in Faults(resources, policy, freshness, now, k)
    {
      var key := keys[n];
      assert keys[..n + 1] == keys[..n] + [key];
      if key !in resources {
        AbsentHasNoFaults(resources, policy, freshness, now, key);
        acceptable := acceptable[key := false];
      } else {
        FaultlessMeans(resources, policy, freshness, now, key);
        var found := Faults(resources, policy, freshness, now, key);
        faults := faults[key := found];
        acceptable := acceptable[key := found == []];
        if key in enforced {
          violations := violations + found;
        }
      }
    }
    assert keys[..|keys|] == keys;
  }

  lemma AbsentHasNoFaults(resources: Entries, policy: Policy, freshness: Freshness, now: real, k: Key)
    requires k !in resources
    ensures Faults(resources, policy, freshness, now, k) == [] && !Acceptable(resources, policy, freshness, now, k)
  {
  }

  /** The loop over requirement groups. */
  method ExamineGroups(requirements: seq<Requirement>, enforced: set<Key>, faults: map<Key, seq<Violation>>,
                       acceptable: map<Key, bool>,
                       ghost resources: Entries, ghost policy: Policy, ghost freshness: Freshness, ghost now: real)
    returns (violations: seq<Violation>)
    requires forall r :: r in requirements ==> NoDuplicates(r.keys)
    requires forall r, k :: r in requirements && k in r.keys ==>
      && k in acceptable && acceptable[k] == Acceptable(resources, policy, freshness, now, k)
      && (if k in faults then faults[k] else []) == Faults(resources, policy, freshness, now, k)
    ensures forall v :: v in violations <==>
      exists r ::
        && r in requirements
        && !Satisfied(resources, policy, freshness, now, r)
        && BlamedOn(resources, policy, freshness, now, enforced, r, v)
  {
    hide Acceptable, Faults, NoDuplicates;
    violations := [];
    for n := 0 to |requirements|
      invariant forall v :: v in violations <==>
        exists r ::
          && r in requirements[..n]
          && !Satisfied(resources, policy, freshness, now, r)
          && BlamedOn(resources, policy, freshness, now, enforced, r, v)
    {
      var r := requirements[n];
      assert requirements[..n + 1] == requirements[..n] + [r] && r in requirements;
      var count := CountAcceptable(r.keys, acceptable);
      assert AcceptableKeys(resources, policy, freshness, now, r.keys) == AcceptedAmong(r.keys, acceptable);
      ghost var before := violations;
      if count < r.minimumCount {
        var members := MemberFaults(r.keys, enforced, faults, resources, policy, freshness, now);
        violations := violations + members + [Unsatisfied(r, count)];
        assert forall v :: v in violations <==> v in before || BlamedOn(resources, policy, freshness, now, enforced, r,
                                                                        v);
      }
    }
    assert requirements[..|requirements|] == requirements;
  }

  /**
    Evaluates a snapshot. It is accepted exactly when nothing is reported; what is reported are the faults
    of the resources enforced directly, the groups that fall short and the faults of their other members.
   */
  method FindViolations(resources: Entries, required: seq<Key>, optional: seq<Key>, policy: Policy,
                        freshness: Freshness, now: real)
    returns (violations: seq<Violation>)
    requires policy.Valid()
    ensures violations == [] <==> Accepted(resources, required, optional, policy, freshness, now)
    ensures forall v :: v in violations <==>
      || (exists k :: Enforced(policy, required, optional, k) && v in Faults(resources, policy, freshness, now, k))
      || (exists r ::
           && r in policy.requirements
           && !Satisfied(resources, policy, freshness, now, r)
           && ReportedFor(resources, required, optional, policy, freshness, now, r, v))
  {
    hide Acceptable, Faults, NoDuplicates, Satisfied, Distinct;
    var direct := Distinct(required) + (if policy.includeOptional then Distinct(optional) else []) + policy.ruled;
    var enforced := Elems(direct);
    var participating := Distinct(direct + GroupKeys(policy.requirements));
    assert forall k :: k in enforced <==> Enforced(policy, required, optional, k) by {
      assert forall k :: k in policy.ruled <==> k in Elems(policy.ruled);
    }
    var single, faults, acceptable := ExamineKeys(resources, participating, enforced, policy, freshness, now);
    forall r, k | r in policy.requirements && k in r.keys ensures k in participating {
      assert k in GroupKeys(policy.requirements);
    }
    var groups := ExamineGroups(policy.requirements, enforced, faults, acceptable, resources, policy, freshness, now);
    violations := single + groups;
    forall v ensures v in violations <==>
      || (exists k :: Enforced(policy, required, optional, k) && v in Faults(resources, policy, freshness, now, k))
      || (exists r ::
           && r in policy.requirements
           && !Satisfied(resources, policy, freshness, now, r)
           && ReportedFor(resources, required, optional, policy, freshness, now, r, v))
    {
      ReportedForIsBlame(resources, required, optional, policy, freshness, now, enforced, v);
    }
    SilenceMeansAcceptance(resources, required, optional, policy, freshness, now, violations);
  }

  ghost predicate ReportedFor(resources: Entries, required: seq<Key>, optional: seq<Key>, policy: Policy,
                              freshness: Freshness, now: real, r: Requirement, v: Violation) {
    || v == Unsatisfied(r, |AcceptableKeys(resources, policy, freshness, now, r.keys)|)
    || exists k ::
         k in r.keys && !Enforced(policy, required, optional, k) && v in Faults(resources, policy, freshness, now, k)
  }

  lemma ReportedForIsBlame(resources: Entries, required: seq<Key>, optional: seq<Key>, policy: Policy,
                           freshness: Freshness, now: real, enforced: set<Key>, v: Violation)
    requires forall k :: k in enforced <==> Enforced(policy, required, optional, k)
    ensures forall r :: ReportedFor(resources, required, optional, policy, freshness, now, r, v) <==>
      BlamedOn(resources, policy, freshness, now, enforced, r, v)
  {
    hide Faults, Enforced, AcceptableKeys;
  }

  lemma SilenceMeansAcceptance(resources: Entries, required: seq<Key>, optional: seq<Key>, policy: Policy,
                               freshness: Freshness, now: real, violations: seq<Violation>)
    requires forall v :: v in violations <==>
      || (exists k :: Enforced(policy, required, optional, k) && v in Faults(resources, policy, freshness, now, k))
      || (exists r ::
           && r in policy.requirements
           && !Satisfied(resources, policy, freshness, now, r)
           && ReportedFor(resources, required, optional, policy, freshness, now, r, v))
    ensures violations == [] <==> Accepted(resources, required, optional, policy, freshness, now)
  {
    hide Faults, Enforced, AcceptableKeys, Satisfied, Acceptable;
    forall k | Enforced(policy, required, optional, k) && Faults(resources, policy, freshness, now, k) != []
      ensures violations != []
    {
      var v := Faults(resources, policy, freshness, now, k)[0];
      assert v in Faults(resources, policy, freshness, now, k);
      assert v in violations;
    }
    if violations == [] {
      forall k | Enforced(policy, required, optional, k) && k in resources
        ensures Acceptable(resources, policy, freshness, now, k)
      {
        FaultlessMeans(resources, policy, freshness, now, k);
      }
      forall r | r in policy.requirements ensures Satisfied(resources, policy, freshness, now, r) {
        var v := Unsatisfied(r, |AcceptableKeys(resources, policy, freshness, now, r.keys)|);
        assert ReportedFor(resources, required, optional, policy, freshness, now, r, v);
        assert v !in violations;
      }
    } else {
      var v := violations[0];
      assert v in violations;
      if k :| Enforced(policy, required, optional, k) && v in Faults(resources, policy, freshness, now, k) {
        if k in resources {
          FaultlessMeans(resources, policy, freshness, now, k);
          } else { AbsentHasNoFaults(resources, policy, freshness, now, k);
        }
      }
    }
  }

  // ---- Time only makes it worse --------------------------------------------------------------

  lemma MeetsEarlier(v: Value, rule: Rule, freshness: FreshnessPolicy, now: real, later: real)
    requires now <= later && Meets(v, rule, freshness, later)
    ensures Meets(v, rule, freshness, now)
  {
  }

  /** A rejected snapshot stays rejected. */
  lemma RejectionLasts(resources: Entries, required: seq<Key>, optional: seq<Key>, policy: Policy, freshness: Freshness,
                       now: real, later: real)
    requires now <= later && !Accepted(resources, required, optional, policy, freshness, now)
    ensures !Accepted(resources, required, optional, policy, freshness, later)
  {
    if Accepted(resources, required, optional, policy, freshness, later) {
      forall k | Acceptable(resources, policy, freshness, later, k)
        ensures Acceptable(resources, policy, freshness, now, k)
      {
        MeetsEarlier(resources[k], policy.RuleFor(k), freshness(k), now, later);
      }
      forall r | r in policy.requirements ensures Satisfied(resources, policy, freshness, now, r) {
        SubsetCardinality(AcceptableKeys(resources, policy, freshness, later, r.keys),
                          AcceptableKeys(resources, policy, freshness, now, r.keys));
      }
    }
  }
}
