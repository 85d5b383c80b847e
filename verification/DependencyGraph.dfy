/**
  The dependency check of the cache: a value is served only while everything it was derived
  from, directly or through other cached values, is still stored at the recorded version.
 */
module DependencyGraph {
  import opened Core

  /** Every stored value is filed under its own key. */
  ghost predicate WellFiled(entries: Entries) {
    forall k :: k in entries ==> entries[k].key == k
  }

  /** The cached recursion: walks recorded dependencies and refuses a key that is already on the path. */
  predicate DependenciesCurrent(entries: Entries, value: Value, visiting: set<Key>)
    requires WellFiled(entries)
    decreases entries.Keys + {value.key} - visiting, |value.deps| + 1
  {
    if value.deps == [] then true
    else if value.key in visiting then false
    else AllCurrent(entries, value, value.deps, visiting)
  }

  /** The loop of the check over the dependencies still to be examined. */
  predicate AllCurrent(entries: Entries, value: Value, deps: seq<Dependency>, visiting: set<Key>)
    requires WellFiled(entries)
    requires value.key !in visiting
    decreases entries.Keys + {value.key} - visiting, |deps|
  {
    if deps == [] then true
    else
      var d := deps[0];
      && d.key in entries
      && entries[d.key].version == d.version
      && DependenciesCurrent(entries, entries[d.key], visiting + {value.key})
      && AllCurrent(entries, value, deps[1..], visiting)
  }

  // ---- Reference definition -------------------------------------------------------------

  /** Every recorded dependency of a value is stored at the recorded version. */
  ghost predicate LocallyCurrent(entries: Entries, value: Value) {
    forall d :: d in value.deps ==> d.key in entries && entries[d.key].version == d.version
  }

  /** A walk through stored values along recorded dependencies. */
  ghost predicate Walk(entries: Entries, ws: seq<Key>) {
    && |ws| > 0
    && (forall i :: 0 <= i < |ws| ==> ws[i] in entries)
    && (forall i :: 0 <= i < |ws| - 1 ==> ws[i + 1] in entries[ws[i]].DepKeys())
  }

  ghost predicate WalkFrom(entries: Entries, k: Key, ws: seq<Key>) {
    Walk(entries, ws) && ws[0] == k
  }

  /** The recorded dependency graph below a key is acyclic and every recorded version is the stored one. */
  ghost predicate GraphCurrent(entries: Entries, k: Key) {
    forall ws :: WalkFrom(entries, k, ws) ==>
      NoDuplicates(ws) && LocallyCurrent(entries, entries[ws[|ws| - 1]])
  }

  // ---- The check decides the reference definition -----------------------------------------

  lemma {:induction false} AllCurrentElement(entries: Entries, value: Value, deps: seq<Dependency>, visiting: set<Key>,
                                             d: Dependency)
    requires WellFiled(entries) && value.key !in visiting
    requires AllCurrent(entries, value, deps, visiting) && d in deps
    ensures d.key in entries && entries[d.key].version == d.version
    ensures DependenciesCurrent(entries, entries[d.key], visiting + {value.key})
    decreases |deps|
  {
    if deps[0] != d {
      AllCurrentElement(entries, value, deps[1..], visiting, d);
    }
  }

  /** What acceptance says about every walk below the accepted value. */
  lemma {:induction false} AcceptedWalk(entries: Entries, ws: seq<Key>, visiting: set<Key>)
    requires WellFiled(entries) && Walk(entries, ws)
    requires DependenciesCurrent(entries, entries[ws[0]], visiting)
    ensures NoDuplicates(ws)
    ensures LocallyCurrent(entries, entries[ws[|ws| - 1]])
    ensures forall i :: 0 <= i < |ws| && entries[ws[i]].deps != [] ==> ws[i] !in visiting
    decreases |ws|
  {
    var value := entries[ws[0]];
    forall d | d in value.deps
      ensures d.key in entries && entries[d.key].version == d.version
      ensures DependenciesCurrent(entries, entries[d.key], visiting + {value.key})
    {
      AllCurrentElement(entries, value, value.deps, visiting, d);
    }
    if |ws| > 1 {
      var rest := ws[1..];
      assert ws[1] in value.DepKeys();
      forall i | 0 <= i < |rest| - 1 ensures rest[i + 1] in entries[rest[i]].DepKeys() {
        assert rest[i] == ws[i + 1] && rest[i + 1] == ws[i + 1 + 1];
      }
      AcceptedWalk(entries, rest, visiting + {value.key});
      assert forall i :: 0 <= i < |rest| && entries[rest[i]].deps != [] ==> rest[i] != ws[0];
      forall i | 1 <= i < |ws| ensures ws[i] != ws[0] {
        assert rest[i - 1] == ws[i];
      }
      forall i, j | 0 <= i < j < |ws| ensures ws[i] != ws[j] {
        if i > 0 { assert rest[i - 1] != rest[j - 1]; }
      }
      forall i | 0 <= i < |ws| && entries[ws[i]].deps != [] ensures ws[i] !in visiting {
        if i > 0 { assert rest[i - 1] == ws[i]; }
      }
    }
  }

  /** The first dependency that makes the loop fail. */
  lemma {:induction false} FailingDependency(entries: Entries, value: Value, deps: seq<Dependency>,
                                             visiting: set<Key>) returns (d: Dependency)
    requires WellFiled(entries) && value.key !in visiting
    requires !AllCurrent(entries, value, deps, visiting)
    ensures d in deps
    ensures d.key in entries && entries[d.key].version == d.version ==>
              !DependenciesCurrent(entries, entries[d.key], visiting + {value.key})
    decreases |deps|
  {
    d := deps[0];
    if d.key in entries && entries[d.key].version == d.version
       && DependenciesCurrent(entries, entries[d.key], visiting + {value.key}) {
      d := FailingDependency(entries, value, deps[1..], visiting);
    }
  }

  /** A refusal has a witness: a walk to a value with a missing or replaced dependency, or back onto the path. */
  lemma {:induction false} RefusedWalk(entries: Entries, k: Key, visiting: set<Key>) returns (ws: seq<Key>)
    requires WellFiled(entries) && k in entries
    requires !DependenciesCurrent(entries, entries[k], visiting)
    ensures WalkFrom(entries, k, ws)
    ensures var last := ws[|ws| - 1];
            || !LocallyCurrent(entries, entries[last])
            || last in visiting
            || !NoDuplicates(ws)
    decreases entries.Keys - visiting
  {
    ws := [k];
    if k !in visiting {
      var d := FailingDependency(entries, entries[k], entries[k].deps, visiting);
      if d.key in entries && entries[d.key].version == d.version {
        var rest := RefusedWalk(entries, d.key, visiting + {k});
        ws := [k] + rest;
        assert d.key in entries[k].DepKeys();
        var last := rest[|rest| - 1];
        if last == k { assert ws[0] == ws[|ws| - 1]; }
        if !NoDuplicates(rest) {
          var i, j :| 0 <= i < j < |rest| && rest[i] == rest[j];
          assert ws[i + 1] == ws[j + 1];
        }
      }
    }
  }

  /** The path-based check answers true exactly when the recorded graph is acyclic and current. */
  lemma CheckDecidesGraph(entries: Entries, k: Key)
    requires WellFiled(entries) && k in entries
    ensures DependenciesCurrent(entries, entries[k], {}) <==> GraphCurrent(entries, k)
  {
    if DependenciesCurrent(entries, entries[k], {}) {
      forall ws | WalkFrom(entries, k, ws)
        ensures NoDuplicates(ws) && LocallyCurrent(entries, entries[ws[|ws| - 1]])
      {
        AcceptedWalk(entries, ws, {});
      }
    } else {
      var ws := RefusedWalk(entries, k, {});
    }
  }

  // ---- What replacing and removing entries does -------------------------------------------

  ghost predicate SubEntries(small: Entries, big: Entries) {
    forall k :: k in small ==> k in big && small[k] == big[k]
  }

  /** Removing entries never makes a value current that was not. */
  lemma {:induction false} RemovalNeverRevives(small: Entries, big: Entries, value: Value, visiting: set<Key>)
    requires WellFiled(big) && WellFiled(small) && SubEntries(small, big)
    requires DependenciesCurrent(small, value, visiting)
    ensures DependenciesCurrent(big, value, visiting)
    decreases big.Keys + {value.key} - visiting, |value.deps| + 1
  {
    if value.deps != [] {
      RemovalNeverRevivesAll(small, big, value, value.deps, visiting);
    }
  }

  lemma {:induction false} RemovalNeverRevivesAll(small: Entries, big: Entries, value: Value, deps: seq<Dependency>,
                                                  visiting: set<Key>)
    requires WellFiled(big) && WellFiled(small) && SubEntries(small, big)
    requires value.key !in visiting && AllCurrent(small, value, deps, visiting)
    ensures AllCurrent(big, value, deps, visiting)
    decreases big.Keys + {value.key} - visiting, |deps|
  {
    if deps != [] {
      RemovalNeverRevives(small, big, small[deps[0].key], visiting + {value.key});
      RemovalNeverRevivesAll(small, big, value, deps[1..], visiting);
    }
  }

  /** A version names one value: equal key and version mean equal recorded dependencies. */
  ghost predicate VersionsIdentify(a: Entries, b: Entries) {
    forall x, y :: x in a && y in b && x == y && a[x].version == b[y].version ==> a[x].deps == b[y].deps
  }

  lemma WalkFront(entries: Entries, ws: seq<Key>)
    requires Walk(entries, ws) && |ws| > 1
    ensures Walk(entries, ws[..|ws| - 1])
    ensures ws[|ws| - 1] in entries[ws[|ws| - 2]].DepKeys()
  {
    var front := ws[..|ws| - 1];
    forall i | 0 <= i < |front| - 1 ensures front[i + 1] in entries[front[i]].DepKeys() {
      assert front[i] == ws[i] && front[i + 1] == ws[i + 1];
    }
    var p := |ws| - 2;
    assert ws[p + 1] in entries[ws[p]].DepKeys();
  }

  lemma WalkExtend(entries: Entries, front: seq<Key>, last: Key)
    requires Walk(entries, front) && last in entries
    requires last in entries[front[|front| - 1]].DepKeys()
    ensures Walk(entries, front + [last])
  {
  }

  /** One edge of a walk: the recorded version of its target is the stored one in both states. */
  lemma EdgeFixed(before: Entries, after: Entries, p: Key, d: Key)
    requires p in before && p in after && before[p].deps == after[p].deps
    requires LocallyCurrent(before, before[p]) && LocallyCurrent(after, after[p])
    requires d in before[p].DepKeys()
    ensures d in before && d in after && after[d].version == before[d].version
    ensures d in after[p].DepKeys()
  {
  }

  /**
    Acceptance fixes the whole transitive closure: if the same version of `k` is accepted in a later
    state, every key of its earlier recorded closure is stored there at the version it had before.
   */
  lemma {:induction false} AcceptanceFixesClosure(before: Entries, after: Entries, ws: seq<Key>)
    requires VersionsIdentify(before, after)
    requires Walk(before, ws) && GraphCurrent(before, ws[0])
    requires ws[0] in after && after[ws[0]].version == before[ws[0]].version
    requires GraphCurrent(after, ws[0])
    ensures Walk(after, ws)
    ensures forall i :: 0 <= i < |ws| ==> after[ws[i]].version == before[ws[i]].version
    decreases |ws|
  {
    if |ws| > 1 {
      var front, p, last := ws[..|ws| - 1], ws[|ws| - 2], ws[|ws| - 1];
      WalkFront(before, ws);
      AcceptanceFixesClosure(before, after, front);
      assert p == front[|front| - 1];
      assert WalkFrom(before, ws[0], front) && WalkFrom(after, ws[0], front);
      EdgeFixed(before, after, p, last);
      WalkExtend(after, front, last);
      assert ws == front + [last];
    }
  }

  /**
    Once a key of the recorded closure is gone or replaced by another version, the dependent is
    refused, whatever else has happened to the cache, until that version is stored again.
   */
  lemma ReplacedDependencyRefuses(before: Entries, after: Entries, ws: seq<Key>)
    requires WellFiled(before) && WellFiled(after) && VersionsIdentify(before, after)
    requires Walk(before, ws) && DependenciesCurrent(before, before[ws[0]], {})
    requires ws[0] in after && after[ws[0]].version == before[ws[0]].version
    requires var d := ws[|ws| - 1]; d !in after || after[d].version != before[d].version
    ensures !DependenciesCurrent(after, after[ws[0]], {})
  {
    if DependenciesCurrent(after, after[ws[0]], {}) {
      CheckDecidesGraph(before, ws[0]);
      CheckDecidesGraph(after, ws[0]);
      AcceptanceFixesClosure(before, after, ws);
      assert false;
    }
  }
}
