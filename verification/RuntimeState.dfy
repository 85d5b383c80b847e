/** The mutable state of one resolution: pinned values, keys due for refresh and excluded sources. */
module RuntimeState {
  import opened Core
  import opened MemoryCache
  import opened Sources
  import opened Resolution

  /** The characters that Python counts as whitespace. */
  predicate Blank(c: char) {
    var n := c as int;
    || 0x09 <= n <= 0x0d || 0x1c <= n <= 0x20 || n == 0x85 || n == 0xa0 || n == 0x1680
    || 0x2000 <= n <= 0x200a || n == 0x2028 || n == 0x2029 || n == 0x202f || n == 0x205f || n == 0x3000
  }

  /** The name is not empty and whitespace neither begins nor ends it. */
  predicate Tight(s: string) {
    s != [] && !Blank(s[0]) && !Blank(s[|s| - 1])
  }

  /** The text without surrounding whitespace. */
  function Strip(s: string): (r: string)
    ensures r == [] || Tight(r)
    ensures Tight(s) ==> r == s
    decreases |s|
  {
    if s == [] then []
    else if Blank(s[0]) then Strip(s[1..])
    else if Blank(s[|s| - 1]) then Strip(s[..|s| - 1])
    else s
  }

  ghost predicate AllBlank(s: string) {
    forall i :: 0 <= i < |s| ==> Blank(s[i])
  }

  /** The text is the stripped one with blanks around it. */
  ghost predicate BlankAround(s: string, r: string) {
    exists front, back :: s == front + r + back && AllBlank(front) && AllBlank(back)
  }

  lemma OneMoreBlank(s: string, c: char)
    requires Blank(c)
    ensures AllBlank([c] + s) == AllBlank(s) == AllBlank(s + [c])
  {
    hide Blank;
    assert forall i :: 0 <= i < |s| ==> s[i] == ([c] + s)[i + 1] && s[i] == (s + [c])[i];
  }

  lemma MoreBlanks(s: string, r: string, c: char)
    requires BlankAround(s, r) && Blank(c)
    ensures BlankAround([c] + s, r) && BlankAround(s + [c], r)
  {
    var front, back :| s == front + r + back && AllBlank(front) && AllBlank(back);
    OneMoreBlank(front, c);
    OneMoreBlank(back, c);
    hide Blank, AllBlank;
    assert [c] + s == ([c] + front) + r + back;
    assert s + [c] == front + r + (back + [c]);
  }

  lemma NoBlanks(s: string)
    ensures BlankAround(s, s)
  {
    assert s == [] + s + [] && AllBlank([]);
  }

  lemma StripStep(s: string)
    requires s != []
    ensures Strip(s) == if Blank(s[0]) then Strip(s[1..]) else if Blank(s[|s| - 1]) then Strip(s[..|s| - 1]) else s
  {
  }

  /** Stripping takes off blanks only, and nothing is left exactly when there is nothing else. */
  lemma {:induction false} StripTakesBlanks(s: string)
    ensures BlankAround(s, Strip(s))
    ensures Strip(s) == [] <==> AllBlank(s)
    decreases |s|
  {
    if s == [] {
      NoBlanks(s);
      return;
    }
    hide Blank, BlankAround, Strip;
    StripStep(s);
    var n := |s| - 1;
    if Blank(s[0]) {
      StripTakesBlanks(s[1..]);
      MoreBlanks(s[1..], Strip(s[1..]), s[0]);
      OneMoreBlank(s[1..], s[0]);
      assert s == [s[0]] + s[1..];
    } else if Blank(s[n]) {
      StripTakesBlanks(s[..n]);
      MoreBlanks(s[..n], Strip(s[..n]), s[n]);
      OneMoreBlank(s[..n], s[n]);
      assert s == s[..n] + [s[n]];
    } else {
      NoBlanks(s);
    }
  }

  /** The settings with one more source excluded for a resource; a blank name is refused. */
  function Excluding(scope: Scope, k: Key, source: string): Scope {
    if Strip(source) == [] then scope
    else scope.(excluded := scope.excluded[k := scope.ExcludedFor(k) + {Strip(source)}])
  }

  class Runtime {
    var memo: Entries
    var force: set<Key>
    var excluded: map<Key, set<string>>
    const cacheStale: bool
    const cacheSource: bool

    constructor (memo: Entries, cacheStale: bool, force: set<Key>, excluded: map<Key, set<string>>, cacheSource: bool)
      ensures this.memo == memo && this.force == force && this.excluded == excluded
      ensures this.cacheStale == cacheStale && this.cacheSource == cacheSource
    {
      this.memo, this.force, this.excluded := memo, force, excluded;
      this.cacheStale, this.cacheSource := cacheStale, cacheSource;
    }

    function Settings(): Scope
      reads this
    {
      Scope(excluded, cacheSource, cacheStale)
    }

    predicate RequiresRefresh(k: Key)
      reads this
    {
      k in force
    }

    method MarkRefreshed(k: Key)
      modifies this`force
      ensures force == old(force) - {k}
    {
      force := force - {k};
    }

    /** Refuses a blank name; otherwise adds the stripped name to the resource's exclusions and to no other's. */
    method ExcludeSource(k: Key, source: string) returns (ok: bool)
      modifies this`excluded
      ensures ok <==> Strip(source) != []
      ensures Settings() == Excluding(old(Settings()), k, source)
      ensures source in Settings().ExcludedFor(k) <==> source in old(Settings().ExcludedFor(k)) || Tight(source)
      ensures forall x :: x != k ==> Settings().ExcludedFor(x) == old(Settings().ExcludedFor(x))
    {
      var normalized := Strip(source);
      ok := normalized != [];
      if ok {
        excluded := excluded[k := Settings().ExcludedFor(k) + {normalized}];
      }
    }
  }

  /**
    Excluding a source takes effect exactly when it was excluded before or its name is tight: the name is
    stripped when it is excluded but compared as it is when sources are screened.
   */
  lemma ExclusionTakesEffect(w: World, scope: Scope, s: Source, k: Key)
    ensures var after := Excluding(scope, k, s.name);
            && (s.name in after.ExcludedFor(k) <==> s.name in scope.ExcludedFor(k) || Tight(s.name))
            && (w.supports(s.name, k) == Supported ==>
                  (Screen(w, s, k, after.ExcludedFor(k)).Skipped? <==> s.name in scope.ExcludedFor(k) || Tight(s.name)))
  {
  }

  /** A supported source whose name ends in a blank is still asked after it was excluded. */
  lemma PaddedSourceIsStillAsked(w: World, k: Key, kind: Kind, c: char)
    requires Blank(c) && w.supports(['a', c], k) == Supported
    ensures var s := Source(['a', c], kind);
            Screen(w, s, k, Excluding(Scope(map[], true, true), k, s.name).ExcludedFor(k)) == Ask
  {
    ExclusionTakesEffect(w, Scope(map[], true, true), Source(['a', c], kind), k);
  }
}
