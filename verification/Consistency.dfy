/** Temporal consistency of a group of resources: their observation times lie within a limit of each other. */
module Consistency {
  import opened Core
  import opened MemoryCache
  import opened KeyLists

  datatype SkewViolation = SkewViolation(
    keys: seq<Key>,
    oldestKey: Key,
    oldestAt: real,
    newestKey: Key,
    newestAt: real,
    skew: real,
    limit: real)

  /** The distinct requested keys that are resolved, in request order. */
  function ResolvedKeys(resources: Entries, keys: seq<Key>): (r: seq<Key>)
    ensures forall k :: k in r <==> k in keys && k in resources
    ensures NoDuplicates(r)
  {
    Filter(Distinct(keys), k => k in resources)
  }

  /** The first key with the least observation time. */
  function Oldest(resources: Entries, keys: seq<Key>): (k: Key)
    requires keys != [] && forall x :: x in keys ==> x in resources
    ensures k in keys && forall x :: x in keys ==> resources[k].observedAt <= resources[x].observedAt
  {
    var last := keys[|keys| - 1];
    if |keys| == 1 then last
    else
      var front := keys[..|keys| - 1];
      var best := Oldest(resources, front);
      assert keys == front + [last];
      if resources[last].observedAt < resources[best].observedAt then last else best
  }

  /** The first key with the greatest observation time. */
  function Newest(resources: Entries, keys: seq<Key>): (k: Key)
    requires keys != [] && forall x :: x in keys ==> x in resources
    ensures k in keys && forall x :: x in keys ==> resources[x].observedAt <= resources[k].observedAt
  {
    var last := keys[|keys| - 1];
    if |keys| == 1 then last
    else
      var front := keys[..|keys| - 1];
      var best := Newest(resources, front);
      assert keys == front + [last];
      if resources[last].observedAt > resources[best].observedAt then last else best
  }

  /** Of equally old keys the first one is named, and so of equally new ones. */
  lemma {:induction false} FirstIsNamed(resources: Entries, keys: seq<Key>, x: Key)
    requires x in keys && forall y :: y in keys ==> y in resources
    ensures resources[x].observedAt == resources[Oldest(resources, keys)].observedAt ==>
              IndexOf(keys, Oldest(resources, keys)) <= IndexOf(keys, x)
    ensures resources[x].observedAt == resources[Newest(resources, keys)].observedAt ==>
              IndexOf(keys, Newest(resources, keys)) <= IndexOf(keys, x)
  {
    var n := |keys| - 1;
    if n > 0 {
      var front, last := keys[..n], keys[n];
      assert keys == front + [last];
      var oldest, newest := Oldest(resources, front), Newest(resources, front);
      IndexAppended(front, last, oldest);
      IndexAppended(front, last, newest);
      if x in front {
        FirstIsNamed(resources, front, x);
        IndexAppended(front, last, x);
      }
    }
  }

  function FindSkew(resources: Entries, keys: seq<Key>, limit: real): Option<SkewViolation> {
    var resolved := ResolvedKeys(resources, keys);
    if |resolved| < 2 then None
    else
      var oldest, newest := Oldest(resources, resolved), Newest(resources, resolved);
      var skew := Max0(resources[newest].observedAt - resources[oldest].observedAt);
      if skew <= limit then None
      else Some(SkewViolation(resolved, oldest, resources[oldest].observedAt, newest, resources[newest].observedAt,
                              skew, limit))
  }

  /** Any two resolved observations of the group are within the limit of each other. */
  ghost predicate WithinSkew(resources: Entries, keys: seq<Key>, limit: real) {
    forall a, b :: a in keys && b in keys && a in resources && b in resources ==>
      resources[a].observedAt - resources[b].observedAt <= limit
  }

  lemma SingletonKeys(ks: seq<Key>, a: Key, b: Key)
    requires |ks| < 2 && a in ks && b in ks
    ensures a == b
  {
  }

  /**
    The check is silent exactly when all pairs are within the limit; otherwise it names two requested
    resources that are furthest apart, and their distance.
   */
  lemma SkewDecides(resources: Entries, keys: seq<Key>, limit: real)
    requires limit >= 0.0
    ensures FindSkew(resources, keys, limit).None? <==> WithinSkew(resources, keys, limit)
    ensures FindSkew(resources, keys, limit).Some? ==>
      var v := FindSkew(resources, keys, limit).value;
      && v.oldestKey in keys && v.oldestKey in resources && v.newestKey in keys && v.newestKey in resources
      && v.skew == resources[v.newestKey].observedAt - resources[v.oldestKey].observedAt > limit
      && forall k :: k in keys && k in resources ==>
           resources[v.oldestKey].observedAt <= resources[k].observedAt <= resources[v.newestKey].observedAt
  {
    hide Distinct, NoDuplicates, Filter;
    var resolved := ResolvedKeys(resources, keys);
    if |resolved| < 2 {
      forall a, b | a in keys && b in keys && a in resources && b in resources ensures a == b {
        SingletonKeys(resolved, a, b);
      }
    } else {
      var oldest, newest := Oldest(resources, resolved), Newest(resources, resolved);
      forall k | k in keys && k in resources
        ensures resources[oldest].observedAt <= resources[k].observedAt <= resources[newest].observedAt
      {
        assert k in resolved;
      }
    }
  }
}
