/**
 * The version 2 Playwright crawler (src/workers/playwrightCrawler.js): the
 * search URL it navigates to, and what one `crawlSearchPage` call returns,
 * and the calls it makes on the pool and the browser on the way. The
 * browser-side steps (navigation, cookie consent, DOM extraction) are
 * given as their outcomes.
 */
module PlaywrightCrawler {
  import opened Wrappers
  import opened Text
  import opened SearchParams
  import Seqs

  const BaseUrl := "https://www.findaphd.com"
  const SearchPath := "/phds/?"

  /** The filters object; a field that is absent is `None`. */
  datatype Filters = Filters(
    discipline: Option<string>, country: Option<string>, location: Option<string>,
    institution: Option<string>, fundingType: Option<string>, studyType: Option<string>)

  /** The `PG` value: the page number, for a page after the first only. */
  function PageValue(page: int): (r: Option<string>)
    ensures Truthy(r) <==> page > 1
    ensures r.Some? ==> r.value == IntToString(page)
  {
    if page > 1 then Some(IntToString(page)) else None
  }

  /** The order in which `_buildSearchUrl` appends its parameters. */
  const V2Names: seq<string> := ["Keywords", "discipline", "country", "location", "institution", "funding", "studyType", "PG"]

  /** The parameters `_buildSearchUrl` appends, each with the value it is appended with when that value is truthy. */
  function V2Candidates(keywords: Option<string>, f: Filters, page: int): seq<Candidate>
  {
    [("Keywords", keywords), ("discipline", f.discipline), ("country", f.country), ("location", f.location),
     ("institution", f.institution), ("funding", f.fundingType), ("studyType", f.studyType), ("PG", PageValue(page))]
  }

  function V2Params(keywords: Option<string>, f: Filters, page: int): seq<Param>
  {
    AppendTruthy(V2Candidates(keywords, f, page))
  }

  /** `${baseUrl}/phds/?${params}`: the `?` is there even when there are no parameters. */
  function SearchUrl(params: seq<Param>): string
  {
    BaseUrl + SearchPath + Serialize(params)
  }

  /** Appending one more candidate appends its pair, if it is truthy, at the end. */
  lemma AppendTruthySnoc(es: seq<Candidate>, e: Candidate)
    ensures AppendTruthy(es + [e]) == AppendTruthy(es) + (if Truthy(e.1) then [Param(e.0, e.1.value)] else [])
    decreases |es|
  {
    if es != [] {
      assert (es + [e])[1..] == es[1..] + [e];
      AppendTruthySnoc(es[1..], e);
    }
  }

  /** `if (value) params.append(name, value)`. */
  method AppendIfTruthy(params: seq<Param>, ghost done: seq<Candidate>, name: string, value: Option<string>)
    returns (next: seq<Param>)
    requires params == AppendTruthy(done)
    ensures next == AppendTruthy(done + [(name, value)])
  {
    AppendTruthySnoc(done, (name, value));
    next := params;
    if Truthy(value) {
      next := next + [Param(name, value.value)];
    }
  }

  /** `_buildSearchUrl(keywords, filters, page)`: the conditional appends, then the URL. */
  method BuildSearchUrl(keywords: Option<string>, f: Filters, page: int) returns (url: string)
    ensures url == SearchUrl(V2Params(keywords, f, page))
  {
    var params: seq<Param> := [];
    params := AppendIfTruthy(params, [], "Keywords", keywords);
    params := AppendIfTruthy(params, [("Keywords", keywords)], "discipline", f.discipline);
    ghost var done := [("Keywords", keywords), ("discipline", f.discipline)];
    params := AppendIfTruthy(params, done, "country", f.country);
    done := done + [("country", f.country)];
    params := AppendIfTruthy(params, done, "location", f.location);
    done := done + [("location", f.location)];
    params := AppendIfTruthy(params, done, "institution", f.institution);
    done := done + [("institution", f.institution)];
    params := AppendIfTruthy(params, done, "funding", f.fundingType);
    done := done + [("funding", f.fundingType)];
    params := AppendIfTruthy(params, done, "studyType", f.studyType);
    done := done + [("studyType", f.studyType)];
    AppendTruthySnoc(done, ("PG", PageValue(page)));
    if page > 1 {
      params := params + [Param("PG", IntToString(page))];
    }
    done := done + [("PG", PageValue(page))];
    assert done == V2Candidates(keywords, f, page);
    assert params == V2Params(keywords, f, page);
    url := SearchUrl(params);
  }

  lemma V2Distinct(keywords: Option<string>, f: Filters, page: int)
    ensures DistinctNames(V2Candidates(keywords, f, page))
    ensures Names(V2Candidates(keywords, f, page)) == V2Names
  {
    DistinctByInitial(V2Candidates(keywords, f, page));
  }

  /**
   * Each parameter is present iff its value is truthy, with that value:
   * `Keywords` from the keywords, `funding` from `fundingType`, the other
   * filters under their own names, and `PG` iff the page is after the first.
   */
  lemma V2Get(keywords: Option<string>, f: Filters, page: int)
    ensures var ps := V2Params(keywords, f, page);
            Get(ps, "Keywords") == OrNull(keywords) && Get(ps, "discipline") == OrNull(f.discipline)
            && Get(ps, "country") == OrNull(f.country) && Get(ps, "location") == OrNull(f.location)
            && Get(ps, "institution") == OrNull(f.institution) && Get(ps, "funding") == OrNull(f.fundingType)
            && Get(ps, "studyType") == OrNull(f.studyType) && Get(ps, "PG") == PageValue(page)
  {
    var es := V2Candidates(keywords, f, page);
    V2Distinct(keywords, f, page);
    AppendedGet(es, 0);
    AppendedGet(es, 1);
    AppendedGet(es, 2);
    AppendedGet(es, 3);
    AppendedGet(es, 4);
    AppendedGet(es, 5);
    AppendedGet(es, 6);
    AppendedGet(es, 7);
  }

  /** No other name is ever appended (`fundingType` itself, say). */
  lemma V2Only(keywords: Option<string>, f: Filters, page: int, name: string)
    requires name !in V2Names
    ensures Get(V2Params(keywords, f, page), name) == None
  {
    V2Distinct(keywords, f, page);
    AppendedAbsent(V2Candidates(keywords, f, page), name);
  }

  /** The parameters appear in the fixed order, each at most once. */
  lemma V2Order(keywords: Option<string>, f: Filters, page: int, i: nat, j: nat)
    requires i < j < |V2Params(keywords, f, page)|
    ensures var es := V2Candidates(keywords, f, page);
            Origin(es, i) < Origin(es, j)
            && V2Params(keywords, f, page)[i].name == V2Names[Origin(es, i)]
            && V2Params(keywords, f, page)[j].name == V2Names[Origin(es, j)]
  {
    V2Distinct(keywords, f, page);
    OriginIncreasing(V2Candidates(keywords, f, page), i, j);
  }

  /** For a page after the first, `PG` is the last parameter. */
  lemma V2PageLast(keywords: Option<string>, f: Filters, page: int)
    requires page > 1
    ensures var ps := V2Params(keywords, f, page);
            |ps| > 0 && ps[|ps| - 1] == Param("PG", IntToString(page))
  {
    var es := V2Candidates(keywords, f, page);
    assert es == es[..7] + [("PG", PageValue(page))];
    AppendTruthySnoc(es[..7], ("PG", PageValue(page)));
  }

  /** The URL is the search path followed by a query that parses back to exactly the appended parameters. */
  lemma V2UrlQuery(keywords: Option<string>, f: Filters, page: int)
    ensures var u := SearchUrl(V2Params(keywords, f, page));
            IsPrefix(BaseUrl + SearchPath, u) && Parse(u[|BaseUrl + SearchPath|..]) == Some(V2Params(keywords, f, page))
  {
    var ps := V2Params(keywords, f, page);
    var u := SearchUrl(ps);
    assert u[..|BaseUrl + SearchPath|] == BaseUrl + SearchPath;
    assert u[|BaseUrl + SearchPath|..] == Serialize(ps);
    QueryRoundTrip(ps);
  }

  /** Candidates that are all falsy append nothing. */
  lemma {:induction false} NothingTruthy(es: seq<Candidate>)
    requires forall i :: 0 <= i < |es| ==> !Truthy(es[i].1)
    ensures AppendTruthy(es) == []
    decreases |es|
  {
    if es != [] {
      assert forall i :: 0 <= i < |es| - 1 ==> es[1..][i] == es[i + 1];
      NothingTruthy(es[1..]);
    }
  }

  /** Without keywords, filters or a later page the URL still ends in `?`. */
  lemma V2BareUrl(page: int)
    requires page <= 1
    ensures SearchUrl(V2Params(None, Filters(None, None, None, None, None, None), page)) == "https://www.findaphd.com/phds/?"
  {
    var es := V2Candidates(None, Filters(None, None, None, None, None, None), page);
    assert forall i :: 0 <= i < |es| ==> es[i].1 == None;
    NothingTruthy(es);
    assert Serialize([]) == "";
  }

  /** What the page gave: the extracted results, and the pagination information read from it. */
  datatype Extraction<R> = Extraction(results: seq<R>, totalPages: int, totalResults: int)

  /** The record `crawlSearchPage` resolves to; it has no pagination field. */
  datatype PageRecord<R> = PageRecord(results: seq<R>, currentPage: int, totalPages: int, totalResults: int)

  /** The calls the crawler makes on its pool and its browser. */
  datatype Call = Acquire | Release | NewContext | CloseContext

  /** A call's outcome, and the calls it made in order. */
  datatype Run<T> = Run(outcome: Result<T>, calls: seq<Call>)

  /**
   * What the awaited steps of one call give: the pool's `acquire`,
   * `newContext`, the steps from `newPage` to reading the pagination (their
   * first error, or what they extracted), and `context.close`.
   */
  datatype Steps<R> = Steps(acquire: Result<()>, newContext: Result<()>, work: Result<Extraction<R>>, closeContext: Result<()>)

  /** The `try` block: open a context, extract, close the context, build the record; any error is rethrown. */
  function TryBlock<R>(s: Steps<R>, page: int): (r: (Result<PageRecord<R>>, seq<Call>))
    ensures r.0.Ok? <==> s.newContext.Ok? && s.work.Ok? && s.closeContext.Ok?
    ensures r.0.Ok? ==> r.0.value.currentPage == page && r.0.value.results == s.work.value.results
                        && r.0.value.totalPages == s.work.value.totalPages
                        && r.0.value.totalResults == s.work.value.totalResults
    ensures Acquire !in r.1 && Release !in r.1
    ensures CloseContext in r.1 <==> s.newContext.Ok? && s.work.Ok?
  {
    match s.newContext
    case Err(m) => (Err(m), [])
    case Ok(_) =>
      match s.work
      case Err(m) => (Err(m), [NewContext])
      case Ok(x) =>
        match s.closeContext
        case Err(m) => (Err(m), [NewContext, CloseContext])
        case Ok(_) => (Ok(PageRecord(x.results, page, x.totalPages, x.totalResults)), [NewContext, CloseContext])
  }

  /** Calls bracketed by `acquire` and `release` hold each of them once. */
  lemma Bracketed(inner: seq<Call>)
    requires Acquire !in inner && Release !in inner
    ensures Seqs.Count([Acquire] + inner + [Release], Acquire) == 1
    ensures Seqs.Count([Acquire] + inner + [Release], Release) == 1
  {
    Seqs.CountAppend([Acquire] + inner, [Release], Acquire);
    Seqs.CountAppend([Acquire], inner, Acquire);
    Seqs.CountAppend([Acquire] + inner, [Release], Release);
    Seqs.CountAppend([Acquire], inner, Release);
    Seqs.CountZero(inner, Acquire);
    Seqs.CountZero(inner, Release);
    assert Seqs.Count([Acquire], Release) == 0;
  }

  /** `crawlSearchPage(keywords, filters, page)`: `acquire`, then the `try` block, then `release` in `finally`. */
  function CrawlSearchPage<R>(s: Steps<R>, page: int): (r: Run<PageRecord<R>>)
    ensures s.acquire.Err? ==> r == Run(Err(s.acquire.message), [])
    ensures s.acquire.Ok? ==> |r.calls| >= 2 && r.calls[0] == Acquire && r.calls[|r.calls| - 1] == Release
                              && Seqs.Count(r.calls, Acquire) == 1 && Seqs.Count(r.calls, Release) == 1
    ensures r.outcome.Ok? <==> s.acquire.Ok? && s.newContext.Ok? && s.work.Ok? && s.closeContext.Ok?
    ensures r.outcome.Ok? ==> r.outcome.value.currentPage == page && r.outcome.value.results == s.work.value.results
                              && r.outcome.value.totalPages == s.work.value.totalPages
                              && r.outcome.value.totalResults == s.work.value.totalResults
    ensures CloseContext in r.calls <==> s.acquire.Ok? && s.newContext.Ok? && s.work.Ok?
  {
    match s.acquire
    case Err(m) => Run(Err(m), [])
    case Ok(_) =>
      var t := TryBlock(s, page);
      Bracketed(t.1);
      Run(t.0, [Acquire] + t.1 + [Release])
  }

  /** A context whose extraction fails is never closed: only the pool's browser is released. */
  lemma ContextLeak<R>(s: Steps<R>, page: int)
    requires s.acquire.Ok? && s.newContext.Ok? && s.work.Err?
    ensures CrawlSearchPage(s, page) == Run(Err(s.work.message), [Acquire, NewContext, Release])
  {
  }
}
