/** The content script's selector engine: for each kind of page element an ordered list
    of selector patterns, and a cache of the pattern that last found it. Whether a
    pattern finds an element is the page's business: `present(a, s)` says whether the
    page shows an element for selector `s` during pass `a` (the cache is consulted
    during pass 0). */
module Selectors {
  import opened Opt

  /** The patterns of one kind, `[]` when the kind has none. */
  function PatternsFor(patterns: map<string, seq<string>>, kind: string): seq<string> {
    if kind in patterns then patterns[kind] else []
  }

  /** The first pattern the page shows during pass `a`. */
  function FirstMatch(ps: seq<string>, present: (nat, string) -> bool, a: nat): (r: Option<nat>)
    ensures r.Some? ==> (r.value < |ps| && present(a, ps[r.value])
      && forall j :: 0 <= j < r.value ==> !present(a, ps[j]))
    ensures r.None? ==> forall j :: 0 <= j < |ps| ==> !present(a, ps[j])
  {
    if |ps| == 0 then None
    else if present(a, ps[0]) then Some(0)
    else match FirstMatch(ps[1..], present, a)
      case Some(j) => Some(j + 1)
      case None => None
  }

  /** The first pattern is characterised by its two properties. */
  lemma FirstMatchIs(ps: seq<string>, present: (nat, string) -> bool, a: nat, k: nat)
    requires k < |ps| && present(a, ps[k])
    requires forall j :: 0 <= j < k ==> !present(a, ps[j])
    ensures FirstMatch(ps, present, a) == Some(k)
  {
  }

  /** The passes from `a` on: the pass and the position of the first pattern found. */
  function Search(ps: seq<string>, retries: int, present: (nat, string) -> bool, a: nat): (r: Option<(nat, nat)>)
    ensures r.Some? ==> r.value.1 < |ps|
    decreases retries - a
  {
    if a >= retries then None
    else match FirstMatch(ps, present, a)
      case Some(j) => Some((a, j))
      case None => Search(ps, retries, present, a + 1)
  }

  /** A search finds the first pattern, in list order, of the first pass that shows any
      pattern at all; it finds nothing only when no pass shows any pattern. */
  lemma {:induction false} SearchSpec(ps: seq<string>, retries: int, present: (nat, string) -> bool, a: nat)
    ensures match Search(ps, retries, present, a)
      case Some((b, j)) =>
        a <= b < retries && j < |ps| && present(b, ps[j])
        && (forall k :: 0 <= k < j ==> !present(b, ps[k]))
        && (forall c, k :: a <= c < b && 0 <= k < |ps| ==> !present(c, ps[k]))
      case None => forall c, k :: a <= c < retries && 0 <= k < |ps| ==> !present(c, ps[k])
    decreases retries - a
  {
    if a < retries && FirstMatch(ps, present, a).None? {
      SearchSpec(ps, retries, present, a + 1);
    }
  }

  /** What `find` returns (the selector that found the element) and the cache after it. */
  datatype Found = Found(selector: Option<string>, cache: map<string, string>)

  function FindSpec(cache: map<string, string>, patterns: map<string, seq<string>>, kind: string,
                    retries: int, present: (nat, string) -> bool): Found
  {
    if kind in cache && present(0, cache[kind]) then Found(Some(cache[kind]), cache)
    else
      var ps := PatternsFor(patterns, kind);
      match Search(ps, retries, present, 0)
      case Some((_, j)) => Found(Some(ps[j]), cache[kind := ps[j]])
      case None => Found(None, cache - {kind})
  }

  /** `find`: a cached selector the page still shows is returned as is; a stale one is
      evicted. Otherwise the result is the first pattern of the kind's list in the first
      of `retries` passes that shows one, and it becomes the cached selector; when no
      pass shows any, nothing is found and nothing is cached for the kind. The cache
      entries of other kinds are untouched. */
  lemma FindCorrect(cache: map<string, string>, patterns: map<string, seq<string>>, kind: string,
                    retries: int, present: (nat, string) -> bool)
    ensures var r := FindSpec(cache, patterns, kind, retries, present);
      var ps := PatternsFor(patterns, kind);
      var hit := kind in cache && present(0, cache[kind]);
      (hit ==> r == Found(Some(cache[kind]), cache))
      && (!hit && r.selector.Some? ==>
            r.cache == cache[kind := r.selector.value]
            && exists b, j :: 0 <= b < retries && 0 <= j < |ps| && ps[j] == r.selector.value && present(b, ps[j])
                 && (forall k :: 0 <= k < j ==> !present(b, ps[k]))
                 && (forall c, k :: 0 <= c < b && 0 <= k < |ps| ==> !present(c, ps[k])))
      && (r.selector.None? ==>
            r.cache == cache - {kind}
            && forall c, k :: 0 <= c < retries && 0 <= k < |ps| ==> !present(c, ps[k]))
      && (forall other :: other != kind ==> (other in r.cache <==> other in cache))
      && (forall other :: other != kind && other in cache ==> r.cache[other] == cache[other])
  {
    SearchSpec(PatternsFor(patterns, kind), retries, present, 0);
  }

  /** Once found, a selector is served from the cache for as long as the page shows it. */
  lemma CachedAfterFind(cache: map<string, string>, patterns: map<string, seq<string>>, kind: string,
                        retries: int, present: (nat, string) -> bool, later: (nat, string) -> bool, laterRetries: int)
    requires FindSpec(cache, patterns, kind, retries, present).selector.Some?
    requires later(0, FindSpec(cache, patterns, kind, retries, present).selector.value)
    ensures var r := FindSpec(cache, patterns, kind, retries, present);
      FindSpec(r.cache, patterns, kind, laterRetries, later) == Found(r.selector, r.cache)
  {
  }

  /** The stored patterns of the kinds that hold a list (`None` for a stored value that
      is not an array), put in front of the kind's current patterns. */
  function Loaded(patterns: map<string, seq<string>>, stored: map<string, Option<seq<string>>>): map<string, seq<string>> {
    map kind | kind in patterns.Keys + stored.Keys && (kind in patterns || stored[kind].Some?) ::
      (if kind in stored && stored[kind].Some? then stored[kind].value else []) + PatternsFor(patterns, kind)
  }

  /** Stored patterns take priority over the kind's earlier ones, which follow in their
      order; a kind without a stored list keeps its patterns. Loading is not idempotent:
      loading the same stored lists twice puts them in front twice. */
  lemma LoadedSpec(patterns: map<string, seq<string>>, stored: map<string, Option<seq<string>>>, kind: string)
    ensures PatternsFor(Loaded(patterns, stored), kind)
         == (if kind in stored && stored[kind].Some? then stored[kind].value else []) + PatternsFor(patterns, kind)
    ensures kind in stored && stored[kind].Some? ==>
      PatternsFor(Loaded(Loaded(patterns, stored), stored), kind)
        == stored[kind].value + stored[kind].value + PatternsFor(patterns, kind)
  {
    LoadedAt(patterns, stored, kind);
    LoadedAt(Loaded(patterns, stored), stored, kind);
  }

  lemma LoadedAt(patterns: map<string, seq<string>>, stored: map<string, Option<seq<string>>>, kind: string)
    ensures PatternsFor(Loaded(patterns, stored), kind)
         == (if kind in stored && stored[kind].Some? then stored[kind].value else []) + PatternsFor(patterns, kind)
  {
  }

  /** The part of `stored` whose kinds are no longer to do. */
  function Visited(stored: map<string, Option<seq<string>>>, todo: set<string>): map<string, Option<seq<string>>> {
    map kind | kind in stored && kind !in todo :: stored[kind]
  }

  lemma VisitedStep(stored: map<string, Option<seq<string>>>, todo: set<string>, kind: string)
    requires kind in todo && kind in stored
    ensures Visited(stored, todo - {kind}) == Visited(stored, todo)[kind := stored[kind]]
  {
    var v := Visited(stored, todo);
    assert Visited(stored, todo - {kind}).Keys == v.Keys + {kind};
  }

  lemma LoadedAdd(patterns: map<string, seq<string>>, v: map<string, Option<seq<string>>>, kind: string, x: Option<seq<string>>)
    requires kind !in v
    ensures Loaded(patterns, v[kind := x])
         == if x.Some? then Loaded(patterns, v)[kind := x.value + PatternsFor(patterns, kind)] else Loaded(patterns, v)
  {
    if x.Some? {
      LoadedAddList(patterns, v, kind, x.value);
    } else {
      LoadedAddNone(patterns, v, kind);
    }
  }

  lemma LoadedAddList(patterns: map<string, seq<string>>, v: map<string, Option<seq<string>>>, kind: string, l: seq<string>)
    requires kind !in v
    ensures Loaded(patterns, v[kind := Some(l)]) == Loaded(patterns, v)[kind := l + PatternsFor(patterns, kind)]
  {
    var before := Loaded(patterns, v);
    var after := Loaded(patterns, v[kind := Some(l)]);
    LoadedKeysList(patterns, v, kind, l);
    forall k | k in after ensures after[k] == before[kind := l + PatternsFor(patterns, kind)][k] {
    }
  }

  lemma LoadedKeysList(patterns: map<string, seq<string>>, v: map<string, Option<seq<string>>>, kind: string, l: seq<string>)
    ensures Loaded(patterns, v[kind := Some(l)]).Keys == Loaded(patterns, v).Keys + {kind}
  {
  }

  lemma LoadedAddNone(patterns: map<string, seq<string>>, v: map<string, Option<seq<string>>>, kind: string)
    requires kind !in v
    ensures Loaded(patterns, v[kind := None]) == Loaded(patterns, v)
  {
    var before := Loaded(patterns, v);
    var after := Loaded(patterns, v[kind := None]);
    LoadedKeysNone(patterns, v, kind);
    forall k | k in after ensures after[k] == before[k] {
    }
  }

  lemma LoadedKeysNone(patterns: map<string, seq<string>>, v: map<string, Option<seq<string>>>, kind: string)
    requires kind !in v
    ensures Loaded(patterns, v[kind := None]).Keys == Loaded(patterns, v).Keys
  {
  }

  /** Loading one more stored kind updates that kind's list alone. */
  lemma LoadedStep(patterns: map<string, seq<string>>, stored: map<string, Option<seq<string>>>, todo: set<string>, kind: string)
    requires kind in todo && kind in stored
    ensures var before := Loaded(patterns, Visited(stored, todo));
      Loaded(patterns, Visited(stored, todo - {kind}))
        == if stored[kind].Some? then before[kind := stored[kind].value + PatternsFor(before, kind)] else before
  {
    var v := Visited(stored, todo);
    VisitedStep(stored, todo, kind);
    LoadedAdd(patterns, v, kind, stored[kind]);
    assert PatternsFor(Loaded(patterns, v), kind) == PatternsFor(patterns, kind);
  }

  /** Before any stored kind is visited nothing has changed. */
  lemma LoadedNothing(patterns: map<string, seq<string>>, stored: map<string, Option<seq<string>>>)
    ensures Loaded(patterns, Visited(stored, stored.Keys)) == patterns
  {
    var none := Visited(stored, stored.Keys);
    assert none == map[];
    var l := Loaded(patterns, none);
    assert l.Keys == patterns.Keys;
    forall kind | kind in l
      ensures l[kind] == patterns[kind]
    {
      assert kind !in none;
      assert l[kind] == [] + patterns[kind];
    }
  }

  /** The engine's two tables. */
  class SelectorEngine {
    var cache: map<string, string>
    var patterns: map<string, seq<string>>

    /** An engine with the built-in pattern lists and an empty cache. */
    constructor(builtIn: map<string, seq<string>>)
      ensures cache == map[] && patterns == builtIn
    {
      cache := map[];
      patterns := builtIn;
    }

    /** `find`: the cache check, then up to `retries` passes over the kind's patterns. */
    method Find(kind: string, retries: int, present: (nat, string) -> bool) returns (found: Option<string>)
      modifies this
      ensures Found(found, cache) == FindSpec(old(cache), old(patterns), kind, retries, present)
      ensures patterns == old(patterns)
    {
      if kind in cache {
        var cachedSelector := cache[kind];
        if present(0, cachedSelector) {
          return Some(cachedSelector);
        }
        cache := cache - {kind};
      }
      var ps := if kind in patterns then patterns[kind] else [];
      var attempt: nat := 0;
      while attempt < retries
        invariant cache == old(cache) - {kind}
        invariant Search(ps, retries, present, attempt) == Search(ps, retries, present, 0)
        decreases retries - attempt
      {
        var j := 0;
        while j < |ps|
          invariant j <= |ps|
          invariant forall k :: 0 <= k < j ==> !present(attempt, ps[k])
        {
          if present(attempt, ps[j]) {
            FirstMatchIs(ps, present, attempt, j);
            assert Search(ps, retries, present, attempt) == Some((attempt, j));
            cache := cache[kind := ps[j]];
            assert cache == old(cache)[kind := ps[j]];
            return Some(ps[j]);
          }
          j := j + 1;
        }
        assert FirstMatch(ps, present, attempt).None?;
        attempt := attempt + 1;
      }
      found := None;
    }

    /** `learn`: the new selector goes to the front of its kind's list (the copy saved to
        extension storage is not modelled). */
    method Learn(kind: string, selector: string)
      modifies this
      ensures patterns == old(patterns)[kind := [selector] + PatternsFor(old(patterns), kind)]
      ensures cache == old(cache)
    {
      if kind !in patterns {
        patterns := patterns[kind := []];
      }
      patterns := patterns[kind := [selector] + patterns[kind]];
    }

    /** `loadPatterns`: every stored array is put in front of its kind's list; nothing
        happens when storage holds no patterns. */
    method LoadPatterns(stored: Option<map<string, Option<seq<string>>>>)
      modifies this
      ensures patterns == if stored.Some? then Loaded(old(patterns), stored.value) else old(patterns)
      ensures cache == old(cache)
    {
      if stored.Some? {
        var todo := stored.value.Keys;
        LoadedNothing(patterns, stored.value);
        while todo != {}
          invariant todo <= stored.value.Keys
          invariant patterns == Loaded(old(patterns), Visited(stored.value, todo))
          invariant cache == old(cache)
          decreases |todo|
        {
          var kind :| kind in todo;
          LoadedStep(old(patterns), stored.value, todo, kind);
          var value := stored.value[kind];
          if value.Some? {
            patterns := patterns[kind := value.value + PatternsFor(patterns, kind)];
          }
          todo := todo - {kind};
        }
        assert Visited(stored.value, {}) == stored.value;
      }
    }
  }

  /** A learned selector wins the next search whenever the page shows it, ahead of every
      pattern the kind had before, unless a cached selector is still shown. */
  lemma LearnedFirst(cache: map<string, string>, patterns: map<string, seq<string>>, kind: string, selector: string,
                     retries: int, present: (nat, string) -> bool)
    requires retries >= 1 && present(0, selector)
    requires !(kind in cache && present(0, cache[kind]))
    ensures FindSpec(cache, patterns[kind := [selector] + PatternsFor(patterns, kind)], kind, retries, present)
         == Found(Some(selector), cache[kind := selector])
  {
    var ps := [selector] + PatternsFor(patterns, kind);
    FirstMatchIs(ps, present, 0, 0);
  }
}
