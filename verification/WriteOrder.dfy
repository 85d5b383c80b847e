/** The authority-then-time order that decides cache writes, and what it makes of a whole batch. */
module WriteOrder {
  import opened Core

  datatype WriteStatus = Stored | IgnoredLowerAuthority | IgnoredOlder | IgnoredDuplicate

  /** The decision for one write against the value currently stored. */
  function WriteStatusOf(previous: Option<Value>, value: Value, force: bool, replaceEqual: bool): WriteStatus {
    if force || previous.None? then Stored
    else if value.rank < previous.value.rank then IgnoredLowerAuthority
    else if value.rank > previous.value.rank then Stored
    else if value.observedAt < previous.value.observedAt then IgnoredOlder
    else if value.observedAt == previous.value.observedAt && !replaceEqual then IgnoredDuplicate
    else Stored
  }

  /** Whether a later member of a batch displaces the one selected so far. */
  predicate CandidatePrecedes(current: Value, candidate: Value) {
    if candidate.rank != current.rank then candidate.rank > current.rank
    else candidate.observedAt >= current.observedAt
  }

  /** The lexicographic order on (authority rank, observation time). */
  predicate AtLeast(a: Value, b: Value) {
    a.rank > b.rank || (a.rank == b.rank && a.observedAt >= b.observedAt)
  }

  predicate SamePrecedence(a: Value, b: Value) {
    a.rank == b.rank && a.observedAt == b.observedAt
  }

  /** What a status says about the two precedences; a forced write and one without a predecessor are stored. */
  lemma StatusMeaning(previous: Value, value: Value, replaceEqual: bool)
    ensures var s := WriteStatusOf(Some(previous), value, false, replaceEqual);
            && (s == Stored <==> AtLeast(value, previous) && (replaceEqual || !SamePrecedence(value, previous)))
            && (s == IgnoredDuplicate <==> !replaceEqual && SamePrecedence(value, previous))
            && (s == IgnoredLowerAuthority <==> value.rank < previous.rank)
            && (s == IgnoredOlder <==> value.rank == previous.rank && value.observedAt < previous.observedAt)
    ensures WriteStatusOf(Some(previous), value, true, replaceEqual) == Stored
    ensures forall force :: WriteStatusOf(None, value, force, replaceEqual) == Stored
  {
  }

  function Lookup(entries: Entries, k: Key): Option<Value> {
    if k in entries then Some(entries[k]) else None
  }

  // ---- Single and sequential writes -------------------------------------------------------

  /** One key's stored value after one write is offered to it. */
  function Offer(current: Option<Value>, v: Value, force: bool, replaceEqual: bool): Option<Value> {
    if WriteStatusOf(current, v, force, replaceEqual) == Stored then Some(v) else current
  }

  function Put(entries: Entries, v: Value, force: bool, replaceEqual: bool): Entries {
    if WriteStatusOf(Lookup(entries, v.key), v, force, replaceEqual) == Stored then entries[v.key := v] else entries
  }

  /** Writing the members of a sequence one by one. */
  function PutAll(entries: Entries, vs: seq<Value>, force: bool, replaceEqual: bool): Entries {
    if vs == [] then entries
    else Put(PutAll(entries, vs[..|vs| - 1], force, replaceEqual), vs[|vs| - 1], force, replaceEqual)
  }

  /** The same, seen from one key. */
  function Offers(current: Option<Value>, k: Key, vs: seq<Value>, force: bool, replaceEqual: bool): Option<Value> {
    if vs == [] then current
    else
      var mid := Offers(current, k, vs[..|vs| - 1], force, replaceEqual);
      if vs[|vs| - 1].key == k then Offer(mid, vs[|vs| - 1], force, replaceEqual) else mid
  }

  lemma {:induction false} PutAllAt(entries: Entries, vs: seq<Value>, force: bool, replaceEqual: bool, k: Key)
    ensures Lookup(PutAll(entries, vs, force, replaceEqual), k) == Offers(Lookup(entries, k), k, vs, force,
                                                                          replaceEqual)
  {
    if vs != [] {
      PutAllAt(entries, vs[..|vs| - 1], force, replaceEqual, k);
    }
  }

  // ---- Batch selection --------------------------------------------------------------------

  /** The member of a batch that is kept for a key. */
  function Winner(vs: seq<Value>, k: Key): Option<Value> {
    if vs == [] then None
    else
      var w, v := Winner(vs[..|vs| - 1], k), vs[|vs| - 1];
      if v.key == k && (w.None? || CandidatePrecedes(w.value, v)) then Some(v) else w
  }

  /** Position `i` holds the last of the members of its key with the greatest precedence. */
  ghost predicate IsLastMaximum(vs: seq<Value>, i: int) {
    && 0 <= i < |vs|
    && (forall j :: 0 <= j < i && vs[j].key == vs[i].key ==> AtLeast(vs[i], vs[j]))
    && (forall j :: i < j < |vs| && vs[j].key == vs[i].key ==> !AtLeast(vs[j], vs[i]))
  }

  /** The kept member is the last one with the greatest precedence; none is kept only when none was offered. */
  lemma {:induction false} WinnerIsLastMaximum(vs: seq<Value>, k: Key) returns (i: int)
    ensures Winner(vs, k).None? ==> forall v :: v in vs ==> v.key != k
    ensures Winner(vs, k).Some? ==> IsLastMaximum(vs, i) && vs[i].key == k && Winner(vs, k) == Some(vs[i])
  {
    i := -1;
    if vs != [] {
      var n := |vs| - 1;
      var front := vs[..n];
      var f := WinnerIsLastMaximum(front, k);
      i :=
        if Winner(vs, k) == Winner(front, k) && (vs[n].key != k || !CandidatePrecedes(front[f], vs[n])) then f else n;
      if Winner(vs, k).Some? && i == n {
        forall j | 0 <= j < n && vs[j].key == k ensures AtLeast(vs[n], vs[j]) {
          assert vs[j] == front[j] && front[j] in front;
          if j > f { assert !AtLeast(front[j], front[f]); }
        }
      }
      forall v | v in vs && Winner(vs, k).None? ensures v.key != k {
        if v != vs[n] { assert v in front; }
      }
    }
  }

  lemma LastMaximumUnique(vs: seq<Value>, i: int, j: int)
    requires IsLastMaximum(vs, i) && IsLastMaximum(vs, j) && vs[i].key == vs[j].key
    ensures i == j
  {
  }

  /** The members a batch write keeps: one per key, in order of first mention of the key. */
  datatype Candidates = Candidates(order: seq<Key>, byKey: Entries) {
    ghost predicate Valid() {
      && NoDuplicates(order)
      && Indexed()
      && (forall k :: k in byKey ==> k in order && byKey[k].key == k)
    }

    ghost predicate Indexed() {
      forall i :: 0 <= i < |order| ==> order[i] in byKey
    }
  }

  lemma PreparedBound(c: Candidates, prepared: Entries)
    requires c.Valid() && prepared.Keys <= c.byKey.Keys
    ensures |prepared| <= |c.order|
  {
    NoDuplicatesCardinality(c.order);
    assert c.byKey.Keys == Elems(c.order);
    SubsetCardinality(prepared.Keys, c.byKey.Keys);
  }

  ghost predicate Selects(vs: seq<Value>, byKey: Entries) {
    forall k :: Lookup(byKey, k) == Winner(vs, k)
  }

  function KeysOf(vs: seq<Value>): (ks: seq<Key>)
    ensures |ks| == |vs| && forall i :: 0 <= i < |vs| ==> ks[i] == vs[i].key
  {
    seq(|vs|, i requires 0 <= i < |vs| => vs[i].key)
  }

  /** The candidates of a batch. */
  ghost function Select(values: seq<Value>): (c: Candidates)
    ensures c.Valid() && Selects(values, c.byKey)
  {
    var order := Distinct(KeysOf(values));
    KeptKeys(values);
    Candidates(order, map k | k in order :: Winner(values, k).value)
  }

  lemma KeptKeys(values: seq<Value>)
    ensures forall k :: k in Distinct(KeysOf(values)) <==> Winner(values, k).Some?
    ensures forall k :: Winner(values, k).Some? ==> Winner(values, k).value.key == k
  {
    forall k ensures k in KeysOf(values) <==> Winner(values, k).Some?
             ensures Winner(values, k).Some? ==> Winner(values, k).value.key == k
    {
      var i := WinnerIsLastMaximum(values, k);
      if k in KeysOf(values) {
        var j :| 0 <= j < |values| && KeysOf(values)[j] == k;
        assert values[j] in values;
      }
      if Winner(values, k).Some? { assert KeysOf(values)[i] == k; }
    }
  }

  lemma SelectsSomething(values: seq<Value>)
    ensures Select(values).order == [] <==> values == []
    ensures values == [] ==> Select(values).byKey == map[]
  {
    if values != [] {
      assert KeysOf(values)[0] in KeysOf(values);
    }
  }

  /** What one more member does to the key order and to the selection. */
  lemma SelectionStep(values: seq<Value>, n: nat, byKey: Entries, next: Entries)
    requires n < |values| && Selects(values[..n], byKey)
    requires var v := values[n];
      next == if v.key !in byKey || CandidatePrecedes(byKey[v.key], v) then byKey[v.key := v] else byKey
    ensures Selects(values[..n + 1], next)
    ensures var order, k := Distinct(KeysOf(values[..n])), values[n].key;
            && (k in order <==> k in byKey)
            && Distinct(KeysOf(values[..n + 1])) == if k in byKey then order else order + [k]
  {
    var k := values[n].key;
    assert (k in Distinct(KeysOf(values[..n])) <==> k in byKey) by {
      KeptKeys(values[..n]);
      assert Lookup(byKey, k) == Winner(values[..n], k);
    }
    assert KeysOf(values[..n + 1])[..n] == KeysOf(values[..n]);
    assert values[..n + 1][..n] == values[..n];
    forall x ensures Lookup(next, x) == Winner(values[..n + 1], x) {
      assert Lookup(byKey, x) == Winner(values[..n], x);
    }
  }

  lemma SelectionUnique(values: seq<Value>, byKey: Entries)
    requires Selects(values, byKey)
    ensures byKey == Select(values).byKey
  {
    hide Select, Winner;
    forall k ensures Lookup(byKey, k) == Lookup(Select(values).byKey, k) {
      assert Lookup(byKey, k) == Winner(values, k) == Lookup(Select(values).byKey, k);
    }
    LookupExtensional(byKey, Select(values).byKey);
  }

  /** The selection loop of a batch write. */
  method SelectCandidates(values: seq<Value>) returns (c: Candidates)
    ensures c == Select(values)
  {
    var order: seq<Key>, byKey: Entries := [], map[];
    assert values[..0] == [] && KeysOf([]) == [];
    for n := 0 to |values|
      invariant order == Distinct(KeysOf(values[..n]))
      invariant Selects(values[..n], byKey)
    {
      hide Distinct, KeysOf, Selects, Winner, NoDuplicates;
      var value := values[n];
      ghost var before := byKey;
      if value.key !in byKey {
        order := order + [value.key];
      }
      if value.key !in byKey || CandidatePrecedes(byKey[value.key], value) {
        byKey := byKey[value.key := value];
      }
      SelectionStep(values, n, before, byKey);
    }
    assert values[..|values|] == values;
    SelectionUnique(values, byKey);
    c := Candidates(order, byKey);
  }

  // ---- Batch against sequential writes ----------------------------------------------------

  /** The atomic batch write: every key is decided against the entries at one instant. */
  function PutBatch(entries: Entries, byKey: Entries, force: bool, replaceEqual: bool): (r: Entries) {
    map k | k in entries.Keys + byKey.Keys ::
      if k in byKey && WriteStatusOf(Lookup(entries, k), byKey[k], force, replaceEqual) == Stored
      then byKey[k] else entries[k]
  }

  /** A key stands at the greatest precedence among its stored value and everything offered for it. */
  ghost predicate IsTop(r: Option<Value>, current: Option<Value>, k: Key, vs: seq<Value>) {
    && (r.None? <==> current.None? && forall v :: v in vs ==> v.key != k)
    && (r.Some? ==>
          && (r == current || (r.value in vs && r.value.key == k))
          && (current.Some? ==> AtLeast(r.value, current.value))
          && forall v :: v in vs && v.key == k ==> AtLeast(r.value, v))
  }

  lemma {:induction false} OffersReachTop(current: Option<Value>, k: Key, vs: seq<Value>, replaceEqual: bool)
    ensures IsTop(Offers(current, k, vs, false, replaceEqual), current, k, vs)
  {
    if vs != [] {
      var n := |vs| - 1;
      var front := vs[..n];
      OffersReachTop(current, k, front, replaceEqual);
      assert forall v :: v in vs <==> v in front || v == vs[n] by {
        assert vs == front + [vs[n]];
      }
    }
  }

  lemma BatchReachesTop(entries: Entries, vs: seq<Value>, byKey: Entries, replaceEqual: bool, k: Key)
    requires Selects(vs, byKey)
    ensures IsTop(Lookup(PutBatch(entries, byKey, false, replaceEqual), k), Lookup(entries, k), k, vs)
  {
    var i := WinnerIsLastMaximum(vs, k);
    assert Lookup(byKey, k) == Winner(vs, k);
    if k in byKey {
      forall v | v in vs && v.key == k ensures AtLeast(byKey[k], v) {
        var j :| 0 <= j < |vs| && vs[j] == v;
        if j > i { assert !AtLeast(vs[j], vs[i]); }
      }
    }
  }

  lemma TopsAgree(a: Option<Value>, b: Option<Value>, current: Option<Value>, k: Key, vs: seq<Value>, ws: seq<Value>)
    requires IsTop(a, current, k, vs) && IsTop(b, current, k, ws)
    requires forall v :: v in vs <==> v in ws
    ensures a.Some? <==> b.Some?
    ensures a.Some? ==> SamePrecedence(a.value, b.value)
  {
  }

  /**
    A batch ends, key by key, with the precedence that writing its members one by one produces,
    in whatever order and however often they are written.
   */
  lemma BatchMatchesAnyOrder(entries: Entries, vs: seq<Value>, reordered: seq<Value>, byKey: Entries,
                             batchEqual: bool, sequentialEqual: bool, k: Key)
    requires Selects(vs, byKey)
    requires forall v :: v in vs <==> v in reordered
    ensures var batch := PutBatch(entries, byKey, false, batchEqual);
            var one := PutAll(entries, reordered, false, sequentialEqual);
            (k in batch <==> k in one) && (k in batch ==> SamePrecedence(batch[k], one[k]))
  {
    BatchReachesTop(entries, vs, byKey, batchEqual, k);
    OffersReachTop(Lookup(entries, k), k, reordered, sequentialEqual);
    PutAllAt(entries, reordered, false, sequentialEqual, k);
    TopsAgree(Lookup(PutBatch(entries, byKey, false, batchEqual), k),
              Lookup(PutAll(entries, reordered, false, sequentialEqual), k),
              Lookup(entries, k), k, vs, reordered);
  }

  /** Offering a key everything in order is offering it the winner, when equals are replaced. */
  lemma {:induction false} OffersAreWinnerOffer(current: Option<Value>, k: Key, vs: seq<Value>)
    ensures Offers(current, k, vs, false, true) ==
            match Winner(vs, k) case None => current case Some(w) => Offer(current, w, false, true)
  {
    if vs != [] {
      OffersAreWinnerOffer(current, k, vs[..|vs| - 1]);
    }
  }

  /** With replacement of equals, a batch stores the very values that its members written in order would. */
  lemma BatchEqualsSequential(entries: Entries, vs: seq<Value>, byKey: Entries)
    requires Selects(vs, byKey)
    ensures PutBatch(entries, byKey, false, true) == PutAll(entries, vs, false, true)
  {
    var batch, one := PutBatch(entries, byKey, false, true), PutAll(entries, vs, false, true);
    forall k ensures Lookup(batch, k) == Lookup(one, k) {
      PutAllAt(entries, vs, false, true, k);
      OffersAreWinnerOffer(Lookup(entries, k), k, vs);
      assert Lookup(byKey, k) == Winner(vs, k);
    }
    LookupExtensional(batch, one);
  }

  lemma LookupExtensional(a: Entries, b: Entries)
    requires forall k :: Lookup(a, k) == Lookup(b, k)
    ensures a == b
  {
    forall k | k in a || k in b ensures k in a && k in b && a[k] == b[k] {
      assert Lookup(a, k) == Lookup(b, k);
    }
    assert a.Keys == b.Keys;
  }

  /** What single writes leave of a batch in an absent key. */
  function FirstWinner(vs: seq<Value>, k: Key): Option<Value> {
    Offers(None, k, vs, false, false)
  }

  lemma {:induction false} OffersAreFirstOffer(current: Option<Value>, k: Key, vs: seq<Value>)
    ensures Offers(current, k, vs, false, false) ==
            match FirstWinner(vs, k) case None => current case Some(w) => Offer(current, w, false, false)
    ensures FirstWinner(vs, k).Some? <==> Winner(vs, k).Some?
    ensures Winner(vs, k).Some? ==> SamePrecedence(FirstWinner(vs, k).value, Winner(vs, k).value)
  {
    if vs != [] {
      OffersAreFirstOffer(current, k, vs[..|vs| - 1]);
    }
  }

  /** Position `i` holds the first of the members of its key with the greatest precedence. */
  ghost predicate IsFirstMaximum(vs: seq<Value>, i: int) {
    && 0 <= i < |vs|
    && (forall j :: 0 <= j < i && vs[j].key == vs[i].key ==> !AtLeast(vs[j], vs[i]))
    && (forall j :: i < j < |vs| && vs[j].key == vs[i].key ==> AtLeast(vs[i], vs[j]))
  }

  /** Single writes without replacement of equals, into an absent key, keep the first greatest member. */
  lemma {:induction false} FirstWinnerIsFirstMaximum(vs: seq<Value>, k: Key) returns (i: int)
    ensures FirstWinner(vs, k).None? ==> forall v :: v in vs ==> v.key != k
    ensures FirstWinner(vs, k).Some? ==> IsFirstMaximum(vs, i) && vs[i].key == k && FirstWinner(vs, k) == Some(vs[i])
  {
    i := -1;
    if vs != [] {
      var n := |vs| - 1;
      var front := vs[..n];
      var f := FirstWinnerIsFirstMaximum(front, k);
      var w := FirstWinner(front, k);
      if vs[n].key == k && (w.None? || !AtLeast(front[f], vs[n])) {
        i := n;
        forall j | 0 <= j < n && vs[j].key == k ensures !AtLeast(vs[j], vs[n]) {
          assert vs[j] == front[j] && front[j] in front;
          if j < f { assert !AtLeast(front[j], front[f]); }
        }
      } else {
        i := f;
        forall v | v in vs && w.None? ensures v.key != k {
          if v != vs[n] { assert v in front; }
        }
      }
    }
  }

  lemma FirstMaximumUnique(vs: seq<Value>, i: int, j: int)
    requires IsFirstMaximum(vs, i) && IsFirstMaximum(vs, j) && vs[i].key == vs[j].key
    ensures i == j
  {
  }

  /** The first and the last of the greatest members of a key hold the same value. */
  ghost predicate GreatestCoincide(vs: seq<Value>, k: Key) {
    forall i, j :: IsFirstMaximum(vs, i) && IsLastMaximum(vs, j) && vs[i].key == k && vs[j].key == k ==> vs[i] == vs[j]
  }

  /** The stored value is at least as strong as every member of its key. */
  ghost predicate StoredIsStrongest(entries: Entries, vs: seq<Value>, k: Key) {
    k in entries && forall v :: v in vs && v.key == k ==> AtLeast(entries[k], v)
  }

  lemma CoincidenceByWinners(vs: seq<Value>, k: Key)
    ensures GreatestCoincide(vs, k) <==> FirstWinner(vs, k) == Winner(vs, k)
  {
    hide FirstWinner, Winner, GreatestCoincide;
    var i := FirstWinnerIsFirstMaximum(vs, k);
    var j := WinnerIsLastMaximum(vs, k);
    OffersAreFirstOffer(None, k, vs);
    if Winner(vs, k).Some? {
      CoincidenceAt(vs, k, i, j);
    } else {
      NothingCoincides(vs, k);
    }
  }

  lemma NothingCoincides(vs: seq<Value>, k: Key)
    requires forall v :: v in vs ==> v.key != k
    ensures GreatestCoincide(vs, k)
  {
    forall a | IsFirstMaximum(vs, a) ensures vs[a].key != k {
      assert vs[a] in vs;
    }
  }

  lemma CoincidenceAt(vs: seq<Value>, k: Key, i: int, j: int)
    requires IsFirstMaximum(vs, i) && IsLastMaximum(vs, j) && vs[i].key == k && vs[j].key == k
    ensures GreatestCoincide(vs, k) <==> vs[i] == vs[j]
  {
    if vs[i] == vs[j] {
      forall a, b | IsFirstMaximum(vs, a) && IsLastMaximum(vs, b) && vs[a].key == k && vs[b].key == k
        ensures vs[a] == vs[b]
      {
        FirstMaximumUnique(vs, a, i);
        LastMaximumUnique(vs, b, j);
      }
    }
  }

  lemma StrongestByWinner(entries: Entries, vs: seq<Value>, byKey: Entries, k: Key)
    requires Selects(vs, byKey) && k in byKey
    ensures StoredIsStrongest(entries, vs, k) <==> k in entries && AtLeast(entries[k], byKey[k])
  {
    var i := WinnerIsLastMaximum(vs, k);
    assert Lookup(byKey, k) == Winner(vs, k);
    assert vs[i] in vs;
    forall v | v in vs && v.key == k ensures AtLeast(byKey[k], v) {
      var j :| 0 <= j < |vs| && vs[j] == v;
      if j > i { assert !AtLeast(vs[j], vs[i]); }
    }
  }

  /**
    Without replacement of equals, a batch keeps the last of its greatest members and single writes keep
    the first: they agree on a key exactly when these hold the same value or the stored value is at least
    as strong as every member.
   */
  lemma UnreplacedAgreement(entries: Entries, vs: seq<Value>, byKey: Entries, k: Key)
    requires Selects(vs, byKey)
    ensures Lookup(PutBatch(entries, byKey, false, false), k) == Lookup(PutAll(entries, vs, false, false), k)
       <==> GreatestCoincide(vs, k) || StoredIsStrongest(entries, vs, k)
  {
    hide GreatestCoincide, StoredIsStrongest;
    PutAllAt(entries, vs, false, false, k);
    OffersAreFirstOffer(Lookup(entries, k), k, vs);
    CoincidenceByWinners(vs, k);
    assert Lookup(byKey, k) == Winner(vs, k);
    if k in byKey { StrongestByWinner(entries, vs, byKey, k); }
  }

  /** Two equals in one batch do tell the two apart. */
  lemma UnreplacedDisagreement(first: Value, second: Value)
    requires first.key == second.key && SamePrecedence(first, second)
    ensures Winner([first, second], first.key) == Some(second)
    ensures FirstWinner([first, second], first.key) == Some(first)
  {
    var k, vs := first.key, [first, second];
    assert vs[..1] == [first] && [first][..0] == [];
    assert Winner([first], k) == Some(first) && Offers(None, k, [first], false, false) == Some(first);
  }

  /** An unforced batch never lowers the precedence of a stored key. */
  lemma BatchNeverLowers(entries: Entries, byKey: Entries, replaceEqual: bool, k: Key)
    requires k in entries
    ensures var r := PutBatch(entries, byKey, false, replaceEqual);
            k in r && AtLeast(r[k], entries[k])
  {
  }
}
