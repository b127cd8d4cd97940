/**
 * The search orchestrator (src/services/searchOrchestrator.js): a canonical
 * cache key for a request, the FindAPhD URL of a request, and `prepare`,
 * which fills in the request's tokens from its structured filters.
 */
module SearchOrchestrator {
  import opened Wrappers
  import opened Text
  import FindaphdUrl
  import FilterMapper
  import Seqs

  /**
   * Lexicographic order on strings by Unicode scalar value. `Array.prototype.sort`
   * compares UTF-16 code units; the two orders agree except between characters
   * above U+FFFF and those from U+E000 to U+FFFF.
   */
  predicate LessEq(a: string, b: string)
    decreases |a|
  {
    a == [] || (b != [] && (a[0] < b[0] || (a[0] == b[0] && LessEq(a[1..], b[1..]))))
  }

  lemma {:induction false} LessEqTotal(a: string, b: string)
    ensures LessEq(a, b) || LessEq(b, a)
    decreases |a|
  {
    if a != [] && b != [] && a[0] == b[0] {
      LessEqTotal(a[1..], b[1..]);
    }
  }

  lemma {:induction false} LessEqAntisymmetric(a: string, b: string)
    requires LessEq(a, b) && LessEq(b, a)
    ensures a == b
    decreases |a|
  {
    if a != [] {
      LessEqAntisymmetric(a[1..], b[1..]);
      assert a == [a[0]] + a[1..] && b == [b[0]] + b[1..];
    }
  }

  lemma {:induction false} LessEqTransitive(a: string, b: string, c: string)
    requires LessEq(a, b) && LessEq(b, c)
    ensures LessEq(a, c)
    decreases |a|
  {
    if a != [] && a[0] == b[0] && b[0] == c[0] {
      LessEqTransitive(a[1..], b[1..], c[1..]);
    }
  }

  predicate Sorted(s: seq<string>)
  {
    forall i, j :: 0 <= i < j < |s| ==> LessEq(s[i], s[j])
  }

  /** Inserts `x` into a sorted sequence before the first element it does not follow. */
  function Insert(x: string, s: seq<string>): (r: seq<string>)
    requires Sorted(s)
    ensures Sorted(r)
    ensures multiset(r) == multiset(s) + multiset{x}
  {
    if s == [] then [x]
    else if LessEq(x, s[0]) then
      assert forall j :: 0 < j < |s| ==> LessEq(x, s[j]) by {
        forall j | 0 < j < |s| { LessEqTransitive(x, s[0], s[j]); }
      }
      [x] + s
    else
      LessEqTotal(x, s[0]);
      var t := Insert(x, s[1..]);
      assert s == [s[0]] + s[1..];
      assert forall k :: 0 <= k < |t| ==> LessEq(s[0], t[k]) by {
        forall k | 0 <= k < |t|
          ensures LessEq(s[0], t[k])
        {
          assert t[k] in multiset(s[1..]) + multiset{x};
          if t[k] != x {
            assert t[k] in s[1..];
          }
        }
      }
      [s[0]] + t
  }

  /** `[...tokens].sort()`: a sorted permutation of its argument. */
  function Sort(s: seq<string>): (r: seq<string>)
    ensures Sorted(r)
    ensures multiset(r) == multiset(s)
  {
    if s == [] then []
    else
      assert s == [s[0]] + s[1..];
      Insert(s[0], Sort(s[1..]))
  }

  /** Two sorted sequences with the same elements are equal. */
  lemma {:induction false} SortedUnique(a: seq<string>, b: seq<string>)
    requires Sorted(a) && Sorted(b) && multiset(a) == multiset(b)
    ensures a == b
    decreases |a|
  {
    if a != [] {
      assert |b| == |multiset(b)| == |a|;
      assert a[0] in multiset(b) && b[0] in multiset(a);
      SortedHeadFirst(b, a[0]);
      SortedHeadFirst(a, b[0]);
      LessEqAntisymmetric(a[0], b[0]);
      SameTails(a, b);
      SortedUnique(a[1..], b[1..]);
      assert a == [a[0]] + a[1..] && b == [b[0]] + b[1..];
    }
  }

  /** The head of a sorted sequence comes before each of its elements. */
  lemma SortedHeadFirst(s: seq<string>, x: string)
    requires Sorted(s) && x in s
    ensures LessEq(s[0], x)
  {
    var k :| 0 <= k < |s| && s[k] == x;
    if k == 0 {
      LessEqTotal(x, x);
    }
  }

  /** Removing equal heads from two permutations of each other leaves permutations. */
  lemma SameTails(a: seq<string>, b: seq<string>)
    requires a != [] && b != [] && a[0] == b[0] && multiset(a) == multiset(b)
    ensures multiset(a[1..]) == multiset(b[1..])
  {
    assert a == [a[0]] + a[1..] && b == [b[0]] + b[1..];
    assert multiset(a) == multiset{a[0]} + multiset(a[1..]);
    assert multiset(b) == multiset{b[0]} + multiset(b[1..]);
    assert multiset(a[1..]) == multiset(a) - multiset{a[0]};
    assert multiset(b[1..]) == multiset(b) - multiset{b[0]};
  }

  /** The fields of the object `canonicalKey` serialises with `JSON.stringify`. */
  datatype Key = Key(k: string, t: seq<string>, p: int)

  /** `canonicalKey(req)`: keywords or `''`, the sorted tokens (default `[]`), the page (default 1). */
  function CanonicalKey(keywords: Option<string>, tokens: Option<seq<string>>, page: Option<int>): Key
  {
    Key(if Truthy(keywords) then keywords.value else "", Sort(tokens.GetOr([])), page.GetOr(1))
  }

  /**
   * Two requests share a key exactly when their keywords agree up to
   * falsiness, their tokens agree up to order, and their pages agree
   * with a missing page read as 1.
   */
  lemma CanonicalKeyIff(k1: Option<string>, t1: Option<seq<string>>, p1: Option<int>,
                        k2: Option<string>, t2: Option<seq<string>>, p2: Option<int>)
    ensures CanonicalKey(k1, t1, p1) == CanonicalKey(k2, t2, p2) <==>
            (Truthy(k1) == Truthy(k2) && (Truthy(k1) ==> k1.value == k2.value))
            && multiset(t1.GetOr([])) == multiset(t2.GetOr([]))
            && p1.GetOr(1) == p2.GetOr(1)
  {
    if multiset(t1.GetOr([])) == multiset(t2.GetOr([])) {
      SortedUnique(Sort(t1.GetOr([])), Sort(t2.GetOr([])));
    }
  }

  /** The token order does not matter to the key. */
  lemma CanonicalKeyOrderFree(k: Option<string>, t1: seq<string>, t2: seq<string>, p: Option<int>)
    requires multiset(t1) == multiset(t2)
    ensures CanonicalKey(k, Some(t1), p) == CanonicalKey(k, Some(t2), p)
  {
    CanonicalKeyIff(k, Some(t1), p, k, Some(t2), p);
  }

  /** Missing keywords read as `''`, missing tokens as `[]` and a missing page as 1. */
  lemma CanonicalKeyDefaults(k: Option<string>)
    requires !Truthy(k)
    ensures CanonicalKey(k, None, None) == CanonicalKey(Some(""), Some([]), Some(1))
    ensures CanonicalKey(k, None, None).k == ""
  {
  }

  /** The request object `prepare` reads and updates. */
  datatype Request = Request(keywords: Option<string>, tokens: Option<seq<string>>, page: Option<int>,
                             pathSegments: Option<seq<string>>, filters: Option<FilterMapper.Filters>,
                             warnings: Option<seq<string>>)

  /** The arguments `buildSearchUrl` passes to `build`. */
  function SearchArgs(r: Request): FindaphdUrl.BuildArgs
  {
    FindaphdUrl.BuildArgs(Some(FindaphdUrl.DefaultBase), r.pathSegments.GetOr([]), r.keywords, r.page,
                          r.tokens.GetOr([]))
  }

  /** `buildSearchUrl(request)`. */
  function BuildSearchUrl(r: Request): (url: string)
    ensures IsPrefix(FindaphdUrl.DefaultBase, url)
  {
    var a := SearchArgs(r);
    FindaphdUrl.BuildOnBase(a);
    FindaphdUrl.Build(a)
  }

  /** The object `prepare` returns. */
  datatype Prepared = Prepared(url: string, key: Key, tokens: seq<string>, warnings: seq<string>)

  /** The request after `prepare`'s mutation: tokens are derived only when filters are given and tokens are not. */
  function Filled(r: Request): Request
  {
    if r.filters.Some? && r.tokens.None? then
      var m := FilterMapper.Mapping(r.filters.value);
      r.(tokens := Some(m.tokens), warnings := Some(m.warnings))
    else r
  }

  /** What `prepare(request)` returns, computed on the request after its mutation. */
  function PrepareResult(r: Request): Prepared
  {
    var q := Filled(r);
    Prepared(BuildSearchUrl(q), CanonicalKey(q.keywords, q.tokens, q.page), q.tokens.GetOr([]), q.warnings.GetOr([]))
  }

  /** A request whose tokens are already set keeps them, and its warnings; filters are ignored. */
  lemma PrepareKeepsTokens(r: Request)
    requires r.tokens.Some?
    ensures Filled(r) == r
    ensures PrepareResult(r).tokens == r.tokens.value
    ensures PrepareResult(r).warnings == r.warnings.GetOr([])
  {
  }

  /** Absent tokens with filters present: the tokens and warnings are `mapFilters`' result. */
  lemma PrepareMapsFilters(r: Request)
    requires r.filters.Some? && r.tokens.None?
    ensures Filled(r).tokens == Some(FilterMapper.Mapping(r.filters.value).tokens)
    ensures PrepareResult(r).tokens == FilterMapper.Mapping(r.filters.value).tokens
    ensures PrepareResult(r).warnings == FilterMapper.Mapping(r.filters.value).warnings
    ensures Filled(r).(tokens := None, warnings := r.warnings) == r
  {
  }

  /** Neither tokens nor filters: no tokens and no warnings. */
  lemma PrepareNothing(r: Request)
    requires r.filters.None? && r.tokens.None?
    ensures PrepareResult(r).tokens == [] && PrepareResult(r).warnings == r.warnings.GetOr([])
  {
  }

  /**
   * The URL `prepare` returns parses back to the request's keywords (when
   * truthy), its page (when non-zero) and its non-empty tokens.
   */
  lemma PrepareUrlParses(r: Request)
    ensures FindaphdUrl.Parse(PrepareResult(r).url) == Ok(FindaphdUrl.Parsed(
              FindaphdUrl.BuildPath(SearchArgs(Filled(r))),
              if Truthy(r.keywords) then r.keywords else None,
              if r.page.Some? && r.page.value != 0 then FindaphdUrl.PageNumber(r.page.value) else FindaphdUrl.NoPage,
              FindaphdUrl.NonEmpty(PrepareResult(r).tokens),
              FindaphdUrl.Classify(FindaphdUrl.NonEmpty(PrepareResult(r).tokens))))
  {
    var q := Filled(r);
    var a := SearchArgs(q);
    FilledKeeps(r);
    assert PrepareResult(r).url == FindaphdUrl.Build(a);
    assert PrepareResult(r).tokens == a.tokens;
    assert a.keywords == r.keywords && a.page == r.page;
    DefaultBaseParses(a);
  }

  /** The tokens and warnings `prepare` returns are those of the updated request. */
  lemma PreparedTokens(r: Request, p: Prepared)
    requires p == PrepareResult(r)
    ensures p.tokens == Filled(r).tokens.GetOr([]) && p.warnings == Filled(r).warnings.GetOr([])
  {
  }

  /** The keywords, page and tokens `parse` reads from the URL `prepare` returns. */
  lemma PrepareUrlFields(r: Request, p: Prepared)
    requires p == PrepareResult(r)
    ensures FindaphdUrl.Parse(p.url).Ok?
    ensures FindaphdUrl.Parse(p.url).value.keywords == if Truthy(r.keywords) then r.keywords else None
    ensures FindaphdUrl.Parse(p.url).value.page ==
            if r.page.Some? && r.page.value != 0 then FindaphdUrl.PageNumber(r.page.value) else FindaphdUrl.NoPage
    ensures FindaphdUrl.Parse(p.url).value.tokens == FindaphdUrl.NonEmpty(p.tokens)
  {
    PrepareUrlParses(r);
  }

  /** Every URL built on the fixed base parses back. */
  lemma DefaultBaseParses(a: FindaphdUrl.BuildArgs)
    requires a.base == Some(FindaphdUrl.DefaultBase)
    ensures FindaphdUrl.Parse(FindaphdUrl.Build(a)) == Ok(FindaphdUrl.Parsed(
              FindaphdUrl.BuildPath(a),
              if Truthy(a.keywords) then a.keywords else None,
              if a.page.Some? && a.page.value != 0 then FindaphdUrl.PageNumber(a.page.value) else FindaphdUrl.NoPage,
              FindaphdUrl.NonEmpty(a.tokens),
              FindaphdUrl.Classify(FindaphdUrl.NonEmpty(a.tokens))))
  {
    FindaphdUrl.BuildThenParse(a);
  }

  lemma FilledMapped(r: Request, m: FilterMapper.Mapped)
    requires r.filters.Some? && r.tokens.None? && m == FilterMapper.Mapping(r.filters.value)
    ensures Filled(r) == r.(tokens := Some(m.tokens), warnings := Some(m.warnings))
  {
  }

  lemma FilledUnchanged(r: Request)
    requires !(r.filters.Some? && r.tokens.None?)
    ensures Filled(r) == r
  {
  }

  /** `prepare` writes only the tokens and the warnings. */
  lemma FilledKeeps(r: Request)
    ensures Filled(r).keywords == r.keywords && Filled(r).page == r.page
    ensures Filled(r).pathSegments == r.pathSegments && Filled(r).filters == r.filters
  {
  }

  /** A request whose value `prepare` reads and whose tokens and warnings it writes back. */
  class SearchRequest {
    var keywords: Option<string>
    var tokens: Option<seq<string>>
    var page: Option<int>
    var pathSegments: Option<seq<string>>
    var filters: Option<FilterMapper.Filters>
    var warnings: Option<seq<string>>

    constructor (r: Request)
      ensures Value() == r
    {
      keywords, tokens, page := r.keywords, r.tokens, r.page;
      pathSegments, filters, warnings := r.pathSegments, r.filters, r.warnings;
    }

    function Value(): Request
      reads this
    {
      Request(keywords, tokens, page, pathSegments, filters, warnings)
    }

    /** `prepare(request)`. */
    method Prepare() returns (p: Prepared)
      modifies this
      ensures Value() == Filled(old(Value()))
      ensures p == PrepareResult(old(Value()))
    {
      ghost var v := Value();
      if filters.Some? && tokens.None? {
        var mapped := FilterMapper.MapFilters(filters.value);
        FilledMapped(v, mapped);
        tokens := Some(mapped.tokens);
        warnings := Some(mapped.warnings);
        assert Value() == v.(tokens := Some(mapped.tokens), warnings := Some(mapped.warnings));
      } else {
        FilledUnchanged(v);
      }
      var url := BuildSearchUrl(Value());
      p := Prepared(url, CanonicalKey(keywords, tokens, page), tokens.GetOr([]), warnings.GetOr([]));
    }
  }

  /** A discipline token and a different geo token map to themselves, with no warning. */
  lemma TwoTokenMapping(d: string, g: string)
    requires IsPrefix("10", d) && g != "" && !IsPrefix("10", g)
    ensures FilterMapper.Mapping(FilterMapper.NoFilters.(disciplineToken := Some(d), geoTokens := Some([g])))
            == FilterMapper.Mapped([d, g], [])
  {
    var f := FilterMapper.NoFilters.(disciplineToken := Some(d), geoTokens := Some([g]));
    var s := [d, g];
    assert FilterMapper.Supplied(f) == s;
    assert s[0] != s[1];
    Seqs.DedupeDistinct(s);
    assert s[..1] == [d];
    assert FilterMapper.DisciplineCount(s) == 1;
  }

  /**
   * A request with truthy keywords, no tokens, a discipline filter, a
   * non-discipline geo filter and a non-zero page (the orchestrator example
   * has `test`, `10M7g0`, `g0w900` and 2): no warning is raised, and its URL
   * parses back to the keywords, that page and both tokens, in order.
   */
  lemma PrepareWithFilters(r: Request, k: string, d: string, g: string, page: int, p: Prepared)
    requires r.keywords == Some(k) && k != "" && r.tokens.None? && r.page == Some(page) && page != 0
    requires r.filters == Some(FilterMapper.NoFilters.(disciplineToken := Some(d), geoTokens := Some([g])))
    requires IsPrefix("10", d) && g != "" && !IsPrefix("10", g)
    requires p == PrepareResult(r)
    ensures p.tokens == [d, g] && p.warnings == []
    ensures FindaphdUrl.Parse(p.url).Ok?
    ensures FindaphdUrl.Parse(p.url).value.keywords == Some(k)
    ensures FindaphdUrl.Parse(p.url).value.page == FindaphdUrl.PageNumber(page)
    ensures FindaphdUrl.Parse(p.url).value.tokens == [d, g]
  {
    FilledFilters(r, d, g);
    PreparedTokens(r, p);
    PrepareUrlFields(r, p);
  }

  /** The request after `prepare` holds the two filter tokens and no warning. */
  lemma FilledFilters(r: Request, d: string, g: string)
    requires r.tokens.None? && r.filters == Some(FilterMapper.NoFilters.(disciplineToken := Some(d), geoTokens := Some([g])))
    requires IsPrefix("10", d) && g != "" && !IsPrefix("10", g)
    ensures Filled(r).tokens == Some([d, g]) && Filled(r).warnings == Some([])
    ensures FindaphdUrl.NonEmpty([d, g]) == [d, g]
  {
    TwoTokenMapping(d, g);
    FindaphdUrl.NonEmptyKeepsAll([d, g]);
  }
}
