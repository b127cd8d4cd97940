/**
 * The version 3 Playwright crawler (src/workers/playwrightCrawler-v3.js):
 * it owns one browser that it launches on first use and closes on
 * request. Its search URL carries the keywords, the discipline and the
 * page only. Its `crawlSearchPage` record adds a pagination object, and
 * it closes the page and the context in `finally`. Launching, closing and
 * the browser-side steps are given as their outcomes; a browser is known
 * by a number.
 */
module PlaywrightCrawlerV3 {
  import opened Wrappers
  import opened Text
  import opened SearchParams
  import PlaywrightCrawler

  /** The order in which this `_buildSearchUrl` appends its parameters. */
  const V3Names: seq<string> := ["Keywords", "discipline", "PG"]

  function V3Candidates(keywords: Option<string>, f: PlaywrightCrawler.Filters, page: int): seq<Candidate>
  {
    [("Keywords", keywords), ("discipline", f.discipline), ("PG", PlaywrightCrawler.PageValue(page))]
  }

  function V3Params(keywords: Option<string>, f: PlaywrightCrawler.Filters, page: int): seq<Param>
  {
    AppendTruthy(V3Candidates(keywords, f, page))
  }

  /** `_buildSearchUrl(keywords, filters, page)`. */
  method BuildSearchUrl(keywords: Option<string>, f: PlaywrightCrawler.Filters, page: int) returns (url: string)
    ensures url == PlaywrightCrawler.SearchUrl(V3Params(keywords, f, page))
  {
    var params: seq<Param> := [];
    params := PlaywrightCrawler.AppendIfTruthy(params, [], "Keywords", keywords);
    params := PlaywrightCrawler.AppendIfTruthy(params, [("Keywords", keywords)], "discipline", f.discipline);
    ghost var done := [("Keywords", keywords), ("discipline", f.discipline)];
    PlaywrightCrawler.AppendTruthySnoc(done, ("PG", PlaywrightCrawler.PageValue(page)));
    if page > 1 {
      params := params + [Param("PG", IntToString(page))];
    }
    done := done + [("PG", PlaywrightCrawler.PageValue(page))];
    assert done == V3Candidates(keywords, f, page);
    assert params == V3Params(keywords, f, page);
    url := PlaywrightCrawler.SearchUrl(params);
  }

  lemma V3Distinct(keywords: Option<string>, f: PlaywrightCrawler.Filters, page: int)
    ensures DistinctNames(V3Candidates(keywords, f, page))
    ensures Names(V3Candidates(keywords, f, page)) == V3Names
  {
    DistinctByInitial(V3Candidates(keywords, f, page));
  }

  /**
   * `Keywords` iff the keywords are truthy, `discipline` iff that filter is,
   * `PG` iff the page is after the first, and no other parameter: every
   * other filter is ignored.
   */
  lemma V3Get(keywords: Option<string>, f: PlaywrightCrawler.Filters, page: int)
    ensures var ps := V3Params(keywords, f, page);
            Get(ps, "Keywords") == OrNull(keywords) && Get(ps, "discipline") == OrNull(f.discipline)
            && Get(ps, "PG") == PlaywrightCrawler.PageValue(page)
    ensures forall name :: name !in V3Names ==> Get(V3Params(keywords, f, page), name) == None
  {
    var es := V3Candidates(keywords, f, page);
    V3Distinct(keywords, f, page);
    AppendedGet(es, 0);
    AppendedGet(es, 1);
    AppendedGet(es, 2);
    forall name | name !in V3Names
      ensures Get(V3Params(keywords, f, page), name) == None
    {
      AppendedAbsent(es, name);
    }
  }

  /** Two filter objects with the same discipline give the same URL. */
  lemma V3IgnoresOtherFilters(keywords: Option<string>, f: PlaywrightCrawler.Filters, g: PlaywrightCrawler.Filters, page: int)
    requires f.discipline == g.discipline
    ensures PlaywrightCrawler.SearchUrl(V3Params(keywords, f, page)) == PlaywrightCrawler.SearchUrl(V3Params(keywords, g, page))
  {
    assert V3Candidates(keywords, f, page) == V3Candidates(keywords, g, page);
  }

  /** The pagination object of the record. */
  datatype Pagination = Pagination(currentPage: int, totalPages: int, totalResults: int, hasNextPage: bool)

  datatype PageRecord<R> = PageRecord(results: seq<R>, currentPage: int, totalPages: int, totalResults: int, pagination: Pagination)

  /** The record built from what the page gave, for the requested page. */
  function Record<R>(x: PlaywrightCrawler.Extraction<R>, page: int): (r: PageRecord<R>)
    ensures r.currentPage == page && r.pagination.currentPage == page
    ensures r.pagination.hasNextPage <==> page < x.totalPages
    ensures r.results == x.results
    ensures r.totalPages == r.pagination.totalPages == x.totalPages
    ensures r.totalResults == r.pagination.totalResults == x.totalResults
  {
    PageRecord(x.results, page, x.totalPages, x.totalResults,
               Pagination(page, x.totalPages, x.totalResults, page < x.totalPages))
  }

  /** The last page reports no next page. */
  lemma LastPage<R>(x: PlaywrightCrawler.Extraction<R>, page: int)
    requires page >= x.totalPages
    ensures !Record(x, page).pagination.hasNextPage
  {
  }

  /** The calls one crawl makes on its browser. */
  datatype Call = Launch | NewContext | NewPage | ClosePage | CloseContext

  /**
   * What the steps of one crawl give: `newContext`, `newPage`, the steps
   * from navigation to reading the pagination (their first error, or what
   * they extracted), and `pageInstance.close`. An error of `context.close`,
   * the last call, changes nothing.
   */
  datatype Steps<R> = Steps(
    newContext: Result<()>, newPage: Result<()>, work: Result<PlaywrightCrawler.Extraction<R>>,
    closePage: Result<()>)

  /** The calls of the `finally` block: close the page if there is one, then the context if there is one; an error ends the block and is swallowed. */
  function Cleanup(hasContext: bool, hasPage: bool, closePage: Result<()>): (calls: seq<Call>)
    ensures ClosePage in calls <==> hasPage
    ensures CloseContext in calls <==> hasContext && (!hasPage || closePage.Ok?)
    ensures NewContext !in calls && NewPage !in calls && Launch !in calls
  {
    if hasPage && closePage.Err? then [ClosePage]
    else (if hasPage then [ClosePage] else []) + (if hasContext then [CloseContext] else [])
  }

  /** The `try`/`catch`/`finally` of `crawlSearchPage` once the browser is there. */
  function Attempt<R>(s: Steps<R>, page: int): (r: (Result<PageRecord<R>>, seq<Call>))
    ensures r.0.Ok? <==> s.newContext.Ok? && s.newPage.Ok? && s.work.Ok?
    ensures r.0.Ok? ==> r.0.value == Record(s.work.value, page)
    ensures s.newContext.Ok? && s.newPage.Ok? && s.work.Err? ==> r.0 == Err(s.work.message)
    ensures ClosePage in r.1 <==> NewPage in r.1
    ensures CloseContext in r.1 <==> NewContext in r.1 && (NewPage !in r.1 || s.closePage.Ok?)
    ensures Launch !in r.1
  {
    match s.newContext
    case Err(m) => (Err(m), Cleanup(false, false, s.closePage))
    case Ok(_) =>
      match s.newPage
      case Err(m) => (Err(m), [NewContext] + Cleanup(true, false, s.closePage))
      case Ok(_) =>
        var outcome := match s.work
          case Err(m) => Err(m)
          case Ok(x) => Ok(Record(x, page));
        (outcome, [NewContext, NewPage] + Cleanup(true, true, s.closePage))
  }

  /** Close errors never change the outcome: they are only logged. */
  lemma CloseErrorsSwallowed<R>(s: Steps<R>, t: Steps<R>, page: int)
    requires s.newContext == t.newContext && s.newPage == t.newPage && s.work == t.work
    ensures Attempt(s, page).0 == Attempt(t, page).0
  {
  }

  /** A failing page close leaves the context open. */
  lemma PageCloseFailureLeaksContext<R>(s: Steps<R>, page: int)
    requires s.newContext.Ok? && s.newPage.Ok? && s.closePage.Err?
    ensures Attempt(s, page).1 == [NewContext, NewPage, ClosePage]
  {
  }

  class Crawler {
    /** The browser this crawler launched, if it holds one. */
    var browser: Option<nat>

    constructor ()
      ensures browser == None
    {
      browser := None;
    }

    /** `_ensureBrowser()`, given what launching a browser would give. */
    method EnsureBrowser(launch: Result<nat>) returns (b: Result<nat>)
      modifies this
      ensures old(browser).Some? ==> b == Ok(old(browser).value) && browser == old(browser)
      ensures old(browser).None? ==> b == launch && browser == (if launch.Ok? then Some(launch.value) else None)
    {
      if browser.None? {
        match launch
        case Err(m) =>
          return Err(m);
        case Ok(id) =>
          browser := Some(id);
      }
      return Ok(browser.value);
    }

    /** `closeBrowser()`, given what closing the browser would give; a failed close leaves the field set. */
    method CloseBrowser(close: Result<()>) returns (r: Result<()>)
      modifies this
      ensures old(browser).None? ==> browser == None && r == Ok(())
      ensures old(browser).Some? ==> r == close && browser == (if close.Ok? then None else old(browser))
    {
      if browser.None? {
        return Ok(());
      }
      if close.Ok? {
        browser := None;
      }
      return close;
    }

    /** `crawlSearchPage(keywords, filters, page)`: the browser, then the attempt. */
    method CrawlSearchPage<R>(launch: Result<nat>, s: Steps<R>, page: int) returns (outcome: Result<PageRecord<R>>, calls: seq<Call>)
      modifies this
      ensures old(browser).Some? ==> browser == old(browser) && (outcome, calls) == Attempt(s, page)
      ensures old(browser).None? && launch.Err? ==> browser == None && outcome == Err(launch.message) && calls == [Launch]
      ensures old(browser).None? && launch.Ok? ==>
                browser == Some(launch.value) && outcome == Attempt(s, page).0 && calls == [Launch] + Attempt(s, page).1
    {
      calls := if browser.None? then [Launch] else [];
      var b := EnsureBrowser(launch);
      if b.Err? {
        return Err(b.message), calls;
      }
      var t := Attempt(s, page);
      outcome := t.0;
      assert calls + t.1 == if old(browser).None? then [Launch] + t.1 else t.1;
      calls := calls + t.1;
    }
  }
}
