/** Values, policies and ordered-collection helpers shared by every part of the model. */
module Core {

  datatype Option<+T> = None | Some(value: T)

  /** A resource identity; two keys are the same resource exactly when every field agrees. */
  datatype Key = Key(namespace: string, name: string, subject: string, qualifiers: seq<(string, string)>)

  type Version = string

  /** Payloads are opaque: copies are the identity. */
  type Payload(==, !new)

  /** One recorded dependency: the key that was read and the version that was read. */
  datatype Dependency = Dependency(key: Key, version: Version)

  /** A resolved resource with the fields that caching and resolution decide on. */
  datatype Value = Value(
    key: Key,
    payload: Payload,
    source: string,
    observedAt: real,
    age: real,
    stale: bool,
    fromCache: bool,
    rank: int,
    version: Version,
    deps: seq<Dependency>)
  {
    /** The keys this value was derived from. */
    function DepKeys(): set<Key> {
      set d | d in deps :: d.key
    }
  }

  type Entries = map<Key, Value>

  /** A duration bound that may be infinite. */
  datatype Limit = Finite(seconds: real) | Infinite {
    predicate Exceeded(age: real) {
      Finite? && age > seconds
    }
  }

  datatype RefreshMode = Blocking | StaleWhileRevalidate | RefreshAhead

  datatype FreshnessPolicy = FreshnessPolicy(
    ttl: Limit,
    maxStale: Limit,
    allowStaleOnError: bool,
    refreshMode: RefreshMode)

  function Max0(x: real): (r: real)
    ensures r >= 0.0 && r >= x && (r == x || r == 0.0)
  {
    if x > 0.0 then x else 0.0
  }

  function Min(a: nat, b: nat): nat {
    if a < b then a else b
  }

  function Bit(b: bool): int {
    if b then 1 else 0
  }

  lemma MovedSize(before: set<nat>, after: set<nat>, x: nat)
    requires after == before + {x} || after == before - {x}
    ensures |after| == |before| - Bit(x in before) + Bit(x in after)
  {
  }

  predicate NoDuplicates<T(==)>(s: seq<T>) {
    forall i, j :: 0 <= i < j < |s| ==> s[i] != s[j]
  }

  function Elems<T(!new)>(s: seq<T>): (r: set<T>)
    ensures forall x :: x in r <==> x in s
  {
    set x | x in s
  }

  /** The distinct elements of a sequence in order of first occurrence. */
  function Distinct<T(==, !new)>(s: seq<T>): (r: seq<T>)
    ensures NoDuplicates(r)
    ensures forall x :: x in r <==> x in s
    ensures |r| <= |s|
  {
    if s == [] then []
    else
      var front := Distinct(s[..|s| - 1]);
      if s[|s| - 1] in front then front else front + [s[|s| - 1]]
  }

  lemma {:induction false} DistinctFixpoint<T(!new)>(s: seq<T>)
    requires NoDuplicates(s)
    ensures Distinct(s) == s
  {
    if s != [] {
      DistinctFixpoint(s[..|s| - 1]);
      assert s == s[..|s| - 1] + [s[|s| - 1]];
    }
  }

  lemma {:induction false} NoDuplicatesCardinality<T(!new)>(s: seq<T>)
    requires NoDuplicates(s)
    ensures |Elems(s)| == |s|
  {
    if s == [] {
      assert Elems(s) == {};
    } else {
      var front, last := s[..|s| - 1], s[|s| - 1];
      NoDuplicatesCardinality(front);
      assert Elems(s) == Elems(front) + {last};
    }
  }

  /** The sequence without its occurrences of one element. */
  function Without<T(==, !new)>(s: seq<T>, x: T): (r: seq<T>)
    ensures forall y :: y in r <==> y in s && y != x
    ensures NoDuplicates(s) ==> NoDuplicates(r)
    ensures x !in s ==> r == s
  {
    if s == [] then []
    else if s[0] == x then Without(s[1..], x)
    else
      var rest := Without(s[1..], x);
      assert NoDuplicates(s) ==> s[0] !in s[1..] && NoDuplicates(s[1..]);
      [s[0]] + rest
  }

  lemma SubsetCardinality<T>(a: set<T>, b: set<T>)
    requires a <= b
    ensures |a| <= |b|
  {
    assert b == a + (b - a);
  }
}
