/** Facts about lists of distinct keys. */
module KeyLists {
  import opened Core

  lemma LastIsNew(s: seq<Key>, n: nat)
    requires NoDuplicates(s) && n < |s|
    ensures s[n] !in s[..n] && s[..n + 1] == s[..n] + [s[n]]
  {
  }

  lemma OneMore(s: seq<Key>, k: Key)
    requires NoDuplicates(s) && k !in s
    ensures NoDuplicates(s + [k])
  {
  }

  lemma RestIsNew(s: seq<Key>, n: nat)
    requires NoDuplicates(s) && n < |s|
    ensures forall i :: n < i < |s| ==> s[i] != s[n]
  {
  }

  lemma JoinDistinct(a: seq<Key>, b: seq<Key>)
    requires NoDuplicates(a) && NoDuplicates(b) && forall k :: k in a ==> k !in b
    ensures NoDuplicates(a + b)
  {
    forall i, j | 0 <= i < j < |a + b| ensures (a + b)[i] != (a + b)[j] {
      if i < |a| <= j { assert a[i] in a && b[j - |a|] in b; }
    }
  }

  function IndexOf(s: seq<Key>, k: Key): (i: nat)
    requires k in s
    ensures i < |s| && s[i] == k && k !in s[..i]
  {
    if s[0] == k then 0 else 1 + IndexOf(s[1..], k)
  }

  lemma {:induction false} IndexAppended(s: seq<Key>, x: Key, k: Key)
    requires k in s
    ensures IndexOf(s + [x], k) == IndexOf(s, k)
  {
    assert (s + [x])[1..] == s[1..] + [x];
    if s[0] != k { IndexAppended(s[1..], x, k); }
  }

  /** Distinct keys are listed in the order of their first mention. */
  lemma {:induction false} DistinctInOrder(s: seq<Key>, i: nat, j: nat)
    requires i < j < |Distinct(s)|
    ensures IndexOf(s, Distinct(s)[i]) < IndexOf(s, Distinct(s)[j])
  {
    var n := |s| - 1;
    var front, x := Distinct(s[..n]), s[n];
    assert s == s[..n] + [x];
    assert Distinct(s)[i] in s[..n] by { assert front[i] in front; }
    IndexAppended(s[..n], x, Distinct(s)[i]);
    if j < |front| {
      DistinctInOrder(s[..n], i, j);
      assert front[j] in front;
      IndexAppended(s[..n], x, Distinct(s)[j]);
    }
  }
}
