/**
 * The search service (src/api/services/searchService.js): it normalises the
 * filters a client sends, once for the URL builder of the orchestrator and
 * once for the version 2 crawler, and `performSearch` records the search in
 * the session, answers it from the result cache when it can, and otherwise
 * crawls the page and caches what it found. Time is the `now` argument
 * (one value for the whole call), the fresh search id is an argument, and
 * the crawler's steps are given as their outcomes.
 */
module SearchService {
  import opened Wrappers
  import opened Text
  import OrderedMaps
  import SearchParams
  import FilterMapper
  import SearchOrchestrator
  import SessionManager
  import PlaywrightCrawler
  import SearchCache

  /** A field of the client's filters object that may hold a string or an array. */
  datatype Value = Absent | Str(s: string) | Arr(items: seq<string>)

  /** JavaScript truthiness: a non-empty string or any array. */
  predicate ValueTruthy(v: Value)
  {
    (v.Str? && v.s != "") || v.Arr?
  }

  /** The filters object as the client sends it; an absent field is `None` or `Absent`. */
  datatype RawFilters = RawFilters(
    discipline: Option<string>, disciplineToken: Option<string>,
    subject: Option<string>, subjectToken: Option<string>,
    geography: Value, geoTokens: Value, funding: Value, fundingTokens: Value,
    institution: Option<string>, institutionToken: Option<string>,
    phdType: Option<string>, phdTypeToken: Option<string>,
    studyMode: Option<string>, studyModeToken: Option<string>,
    country: Option<string>, location: Option<string>,
    fundingType: Option<string>, studyType: Option<string>)

  /**
   * The list `_normalizeFilters` builds from a field and its `*Tokens`
   * variant: an array as it is (the plain field first), otherwise a truthy
   * string as a one-element list, otherwise the empty list.
   */
  function ListOf(plain: Value, tokens: Value): (r: seq<string>)
    ensures plain.Arr? ==> r == plain.items
    ensures !plain.Arr? && tokens.Arr? ==> r == tokens.items
    ensures !plain.Arr? && !tokens.Arr? && ValueTruthy(plain) ==> r == [plain.s]
    ensures !plain.Arr? && !tokens.Arr? && !ValueTruthy(plain) && ValueTruthy(tokens) ==> r == [tokens.s]
    ensures !ValueTruthy(plain) && !ValueTruthy(tokens) ==> r == []
  {
    if plain.Arr? then plain.items
    else if tokens.Arr? then tokens.items
    else if ValueTruthy(plain) then [plain.s]
    else if ValueTruthy(tokens) then [tokens.s]
    else []
  }

  /** The empty filters object `{}`. */
  const NoFilters := FilterMapper.Filters(None, None, None, None, None, None, None)

  /** `_normalizeFilters(filters)`: the input of the orchestrator. */
  function Normalize(f: Option<RawFilters>): (r: FilterMapper.Filters)
    ensures f.None? ==> r == NoFilters
    ensures f.Some? ==> r.geoTokens.Some? && r.fundingTokens.Some?
  {
    match f
    case None => NoFilters
    case Some(g) =>
      FilterMapper.Filters(
        Or(g.discipline, g.disciplineToken), Or(g.subject, g.subjectToken),
        Some(ListOf(g.geography, g.geoTokens)), Some(ListOf(g.funding, g.fundingTokens)),
        Or(g.institution, g.institutionToken), Or(g.phdType, g.phdTypeToken), Or(g.studyMode, g.studyModeToken))
  }

  /** A plain key that is truthy wins over its `*Token` variant; otherwise the token key is taken as it is. */
  lemma PlainKeysWin(g: RawFilters)
    ensures var r := Normalize(Some(g));
            (Truthy(g.discipline) ==> r.disciplineToken == g.discipline)
            && (!Truthy(g.discipline) ==> r.disciplineToken == g.disciplineToken)
            && (Truthy(g.subject) ==> r.subjectToken == g.subject)
            && (!Truthy(g.subject) ==> r.subjectToken == g.subjectToken)
            && (Truthy(g.institution) ==> r.institutionToken == g.institution)
            && (!Truthy(g.institution) ==> r.institutionToken == g.institutionToken)
            && (Truthy(g.phdType) ==> r.phdTypeToken == g.phdType)
            && (!Truthy(g.phdType) ==> r.phdTypeToken == g.phdTypeToken)
            && (Truthy(g.studyMode) ==> r.studyModeToken == g.studyMode)
            && (!Truthy(g.studyMode) ==> r.studyModeToken == g.studyModeToken)
  {
  }

  /** Every string the filters object carries, in the fields `_normalizeFilters` reads. */
  function Mentioned(g: RawFilters): seq<string>
  {
    AsList(g.discipline) + AsList(g.disciplineToken) + AsList(g.subject) + AsList(g.subjectToken)
    + Strings(g.geography) + Strings(g.geoTokens) + Strings(g.funding) + Strings(g.fundingTokens)
    + AsList(g.institution) + AsList(g.institutionToken) + AsList(g.phdType) + AsList(g.phdTypeToken)
    + AsList(g.studyMode) + AsList(g.studyModeToken)
  }

  function AsList(x: Option<string>): seq<string>
  {
    if x.Some? then [x.value] else []
  }

  function Strings(v: Value): seq<string>
  {
    match v
    case Absent => []
    case Str(s) => [s]
    case Arr(items) => items
  }

  /**
   * The tokens the orchestrator derives from normalised filters come from
   * the client's filters: normalising invents no token. Null filters give
   * no token at all.
   */
  lemma NormalizedTokensMentioned(f: Option<RawFilters>)
    ensures f.None? ==> FilterMapper.Mapping(Normalize(f)).tokens == []
    ensures f.Some? ==> forall t :: t in FilterMapper.Mapping(Normalize(f)).tokens ==> t in Mentioned(f.value)
  {
    if f.None? {
      var m := FilterMapper.Mapping(Normalize(f));
      assert FilterMapper.Supplied(NoFilters) == [];
    } else {
      var g := f.value;
      var r := Normalize(f);
      forall t | t in FilterMapper.Supplied(r)
        ensures t in Mentioned(g)
      {
        assert forall x :: x in FilterMapper.Scalar(Or(g.discipline, g.disciplineToken)) ==> x in AsList(g.discipline) + AsList(g.disciplineToken);
      }
    }
  }

  /** `String(value)`: an array joins its items with commas. */
  function AsText(v: Value): (r: Option<string>)
    ensures v.Absent? <==> r.None?
  {
    match v
    case Absent => None
    case Str(s) => Some(s)
    case Arr(items) => Some(Join(items, ','))
  }

  /** `a || b` where `b` may be an array, as the crawler then sees it. */
  function OrValue(a: Option<string>, b: Value): (r: Option<string>)
    ensures Truthy(a) ==> r == a
    ensures !Truthy(a) ==> r == AsText(b)
  {
    if Truthy(a) then a else AsText(b)
  }

  /** `_normalizeFiltersForCrawler(filters)`. */
  function ForCrawler(f: Option<RawFilters>): (r: PlaywrightCrawler.Filters)
    ensures f.None? ==> r == PlaywrightCrawler.Filters(None, None, None, None, None, None)
  {
    match f
    case None => PlaywrightCrawler.Filters(None, None, None, None, None, None)
    case Some(g) =>
      PlaywrightCrawler.Filters(g.discipline, OrValue(g.country, g.geography), g.location, g.institution,
                                OrValue(g.fundingType, g.funding), Or(g.studyType, g.studyMode))
  }

  /**
   * In the URL the crawler then builds, `country` falls back to
   * `geography`, `funding` comes from `fundingType` or else `funding`, and
   * `studyType` falls back to `studyMode`.
   */
  lemma CrawlerUrlFallbacks(keywords: Option<string>, g: RawFilters, page: int)
    ensures var ps := PlaywrightCrawler.V2Params(keywords, ForCrawler(Some(g)), page);
            SearchParams.Get(ps, "country") == OrNull(OrValue(g.country, g.geography))
            && SearchParams.Get(ps, "funding") == OrNull(OrValue(g.fundingType, g.funding))
            && SearchParams.Get(ps, "studyType") == OrNull(Or(g.studyType, g.studyMode))
            && SearchParams.Get(ps, "discipline") == OrNull(g.discipline)
  {
    PlaywrightCrawler.V2Get(keywords, ForCrawler(Some(g)), page);
  }

  /** Null filters leave only the keywords and the page in the crawler's URL. */
  lemma CrawlerUrlNoFilters(keywords: Option<string>, page: int, name: string)
    requires name != "Keywords" && name != "PG"
    ensures SearchParams.Get(PlaywrightCrawler.V2Params(keywords, ForCrawler(None), page), name) == None
  {
    var es := PlaywrightCrawler.V2Candidates(keywords, ForCrawler(None), page);
    if name in PlaywrightCrawler.V2Names {
      PlaywrightCrawler.V2Distinct(keywords, ForCrawler(None), page);
      var i :| 0 <= i < |PlaywrightCrawler.V2Names| && PlaywrightCrawler.V2Names[i] == name;
      assert es[i].0 == name && es[i].1 == None;
      SearchParams.AppendedGet(es, i);
    } else {
      PlaywrightCrawler.V2Only(keywords, ForCrawler(None), page, name);
    }
  }

  /** What the cache stores for one key. */
  datatype CachedPage<R> = CachedPage(results: seq<R>, totalPages: int)

  type StoredSearch<R> = SessionManager.Search<Option<RawFilters>, R>
  type Sessions<R> = SessionManager.Registry<Option<RawFilters>, R>
  type PageCache<R> = SearchCache.Cache<SearchOrchestrator.Key, CachedPage<R>>

  /** The request `performSearch` hands to `prepare`. */
  function Request(keywords: Option<string>, f: Option<RawFilters>, page: int): SearchOrchestrator.Request
  {
    SearchOrchestrator.Request(keywords, None, Some(page), None, Some(Normalize(f)), None)
  }

  /** `preparedSearch.key`, the cache key. */
  function CacheKey(keywords: Option<string>, f: Option<RawFilters>, page: int): SearchOrchestrator.Key
  {
    SearchOrchestrator.PrepareResult(Request(keywords, f, page)).key
  }

  /** The search data `performSearch` passes to `saveSearchState`. */
  function Pending<R>(keywords: Option<string>, f: Option<RawFilters>, page: int): SessionManager.SearchData<Option<RawFilters>, R>
  {
    SessionManager.SearchData(keywords, f, Some(page), None, None, Some("pending"))
  }

  function HitUpdate<R>(d: CachedPage<R>): SessionManager.SearchUpdate<R>
  {
    SessionManager.SearchUpdate(Some("completed"), Some(d.results), Some(d.totalPages), None, None, Some(true), None)
  }

  function InProgress<R>(): SessionManager.SearchUpdate<R>
  {
    SessionManager.SearchUpdate(Some("in-progress"), None, None, None, None, None, None)
  }

  function DoneUpdate<R>(p: PlaywrightCrawler.PageRecord<R>): SessionManager.SearchUpdate<R>
  {
    SessionManager.SearchUpdate(Some("completed"), Some(p.results), Some(p.totalPages), Some(p.currentPage),
                                Some(p.totalResults), Some(false), None)
  }

  function FailedUpdate<R>(message: string): SessionManager.SearchUpdate<R>
  {
    SessionManager.SearchUpdate(Some("error"), None, None, None, None, None, Some(message))
  }

  /** `sessionManager.getSession(sessionId).searches.find(s => s.id === searchId)`; `undefined` is `None`. */
  function Returned<R>(reg: Sessions<R>, sessionId: string, searchId: string, now: int): (r: (Option<StoredSearch<R>>, Sessions<R>))
    requires SessionManager.Consistent(reg)
    ensures SessionManager.Consistent(r.1)
  {
    var (got, reg1) := SessionManager.GetSession(reg, sessionId, now);
    match got
    case None => (None, reg1)
    case Some(s) =>
      match SessionManager.FindSearch(s.searches, searchId)
      case None => (None, reg1)
      case Some(k) => (Some(s.searches[k]), reg1)
  }

  /** The outcome of `performSearch` and the state it leaves. */
  datatype Performed<R> = Performed(result: Result<Option<StoredSearch<R>>>, reg: Sessions<R>, cache: PageCache<R>)

  /** The `try` block after a cache miss, on the session state `reg` that already holds the pending search. */
  function CrawlOutcome<R>(reg: Sessions<R>, cache: PageCache<R>, sessionId: string, searchId: string, key: SearchOrchestrator.Key,
                    steps: PlaywrightCrawler.Steps<R>, page: int, now: int): (r: Performed<R>)
    requires SessionManager.Consistent(reg) && OrderedMaps.Valid(cache)
    ensures SessionManager.Consistent(r.reg) && OrderedMaps.Valid(r.cache)
  {
    var (u1, reg1) := SessionManager.UpdateSearch(reg, sessionId, searchId, InProgress(), now);
    if u1.Err? then Performed(Err(u1.message), reg1, cache)
    else
      match PlaywrightCrawler.CrawlSearchPage(steps, page).outcome
      case Ok(p) =>
        var cache1 := SearchCache.Save(cache, key, CachedPage(p.results, p.totalPages), now);
        var (u2, reg2) := SessionManager.UpdateSearch(reg1, sessionId, searchId, DoneUpdate(p), now);
        if u2.Err? then Performed(Err(u2.message), reg2, cache1)
        else
          var (found, reg3) := Returned(reg2, sessionId, searchId, now);
          Performed(Ok(found), reg3, cache1)
      case Err(e) =>
        var (_, reg2) := SessionManager.UpdateSearch(reg1, sessionId, searchId, FailedUpdate(e), now);
        Performed(Err(e), reg2, cache)
  }

  /** The cache-hit branch of `performSearch`: the search is completed from the stored page and returned. */
  function HitOutcome<R>(reg: Sessions<R>, cache: PageCache<R>, sessionId: string, searchId: string,
                         hit: CachedPage<R>, now: int): (r: Performed<R>)
    requires SessionManager.Consistent(reg) && OrderedMaps.Valid(cache)
    ensures SessionManager.Consistent(r.reg) && r.cache == cache
  {
    var (u, reg2) := SessionManager.UpdateSearch(reg, sessionId, searchId, HitUpdate(hit), now);
    if u.Err? then Performed(Err(u.message), reg2, cache)
    else
      var (found, reg3) := Returned(reg2, sessionId, searchId, now);
      Performed(Ok(found), reg3, cache)
  }

  /** `performSearch` once the pending search state is saved: the cache is asked, then the crawler on a miss. */
  function SavedOutcome<R>(reg: Sessions<R>, cache: PageCache<R>, sessionId: string, searchId: string, key: SearchOrchestrator.Key,
                           steps: PlaywrightCrawler.Steps<R>, page: int, now: int): (r: Performed<R>)
    requires SessionManager.Consistent(reg) && OrderedMaps.Valid(cache)
    ensures SessionManager.Consistent(r.reg) && OrderedMaps.Valid(r.cache)
  {
    var (hit, cache1) := SearchCache.Lookup(cache, key, now);
    if hit.Some? then HitOutcome(reg, cache1, sessionId, searchId, hit.value, now)
    else CrawlOutcome(reg, cache1, sessionId, searchId, key, steps, page, now)
  }

  /**
   * `performSearch({sessionId, keywords, filters, page})`, `key` being the
   * cache key of the prepared request (`CacheKey(keywords, f, page)`) and
   * `searchId` the fresh id of the new search state.
   */
  function SearchOutcome<R>(reg: Sessions<R>, cache: PageCache<R>, sessionId: string, keywords: Option<string>,
                            f: Option<RawFilters>, page: int, key: SearchOrchestrator.Key, searchId: string, now: int,
                            steps: PlaywrightCrawler.Steps<R>): (r: Performed<R>)
    requires SessionManager.Consistent(reg) && OrderedMaps.Valid(cache)
    ensures SessionManager.Consistent(r.reg) && OrderedMaps.Valid(r.cache)
    ensures sessionId !in reg.sessions.values ==> r == Performed(Err(SessionManager.SessionNotFound), reg, cache)
  {
    match SessionManager.SaveSearch(reg, sessionId, Pending(keywords, f, page), searchId, now)
    case Err(m) => Performed(Err(m), reg, cache)
    case Ok((_, reg1)) => SavedOutcome(reg1, cache, sessionId, searchId, key, steps, page, now)
  }

  /** An update of a search that is found keeps it found at the same place, as the updated search. */
  lemma UpdateFound<R>(reg: Sessions<R>, sessionId: string, searchId: string, u: SessionManager.SearchUpdate<R>, now: int, n: nat)
    requires SessionManager.Consistent(reg) && sessionId in reg.sessions.values
    requires SessionManager.FindSearch(reg.sessions.values[sessionId].searches, searchId) == Some(n)
    ensures var (res, next) := SessionManager.UpdateSearch(reg, sessionId, searchId, u, now);
            res == Ok(SessionManager.Assign(reg.sessions.values[sessionId].searches[n], u, now))
            && sessionId in next.sessions.values
            && SessionManager.FindSearch(next.sessions.values[sessionId].searches, searchId) == Some(n)
            && next.sessions.values[sessionId].searches[n] == res.value
  {
    SessionManager.UpdateTouchesOneSearch(reg, sessionId, searchId, u, now);
    var res := SessionManager.UpdateSearch(reg, sessionId, searchId, u, now).0;
    SessionManager.FindReplaced(reg.sessions.values[sessionId].searches, searchId, res.value);
  }

  /** The search `performSearch` returns is the one found under its id. */
  lemma ReturnedFound<R>(reg: Sessions<R>, sessionId: string, searchId: string, now: int, n: nat)
    requires SessionManager.Consistent(reg) && sessionId in reg.sessions.values
    requires SessionManager.FindSearch(reg.sessions.values[sessionId].searches, searchId) == Some(n)
    ensures Returned(reg, sessionId, searchId, now).0 == Some(reg.sessions.values[sessionId].searches[n])
  {
  }

  /** Saving the pending search with a fresh id makes it findable at the end of the session's searches. */
  lemma SavedFound<R>(reg: Sessions<R>, sessionId: string, keywords: Option<string>, f: Option<RawFilters>, page: int,
                      searchId: string, now: int)
    requires SessionManager.Consistent(reg) && sessionId in reg.sessions.values
    requires forall j :: 0 <= j < |reg.sessions.values[sessionId].searches| ==> reg.sessions.values[sessionId].searches[j].id != searchId
    ensures var next := SessionManager.SaveSearch(reg, sessionId, Pending(keywords, f, page), searchId, now).value.1;
            sessionId in next.sessions.values
            && SessionManager.FindSearch(next.sessions.values[sessionId].searches, searchId) == Some(|reg.sessions.values[sessionId].searches|)
            && next.sessions.values[sessionId].searches[|reg.sessions.values[sessionId].searches|]
               == SessionManager.NewSearch(sessionId, searchId, Pending(keywords, f, page), now)
  {
    SessionManager.SavedIsCurrent(reg, sessionId, Pending(keywords, f, page), searchId, now);
  }

  /**
   * A cache hit answers from the cache without the crawler: the outcome is
   * the same whatever the crawl would give, the returned search is completed
   * with the cached results and page count and `fromCache` set, and the
   * cache is as it was.
   */
  lemma CacheHitSkipsCrawler<R>(reg: Sessions<R>, cache: PageCache<R>, sessionId: string, keywords: Option<string>,
                                f: Option<RawFilters>, page: int, key: SearchOrchestrator.Key, searchId: string, now: int,
                                steps: PlaywrightCrawler.Steps<R>, other: PlaywrightCrawler.Steps<R>)
    requires SessionManager.Consistent(reg) && OrderedMaps.Valid(cache) && sessionId in reg.sessions.values
    requires forall j :: 0 <= j < |reg.sessions.values[sessionId].searches| ==> reg.sessions.values[sessionId].searches[j].id != searchId
    requires SearchCache.Lookup(cache, key, now).0.Some?
    ensures var d := SearchCache.Lookup(cache, key, now).0.value;
            var r := SearchOutcome(reg, cache, sessionId, keywords, f, page, key, searchId, now, steps);
            r == SearchOutcome(reg, cache, sessionId, keywords, f, page, key, searchId, now, other)
            && r.cache == cache && r.result.Ok? && r.result.value.Some?
            && r.result.value.value.id == searchId && r.result.value.value.status == "completed"
            && r.result.value.value.fromCache == Some(true) && r.result.value.value.results == d.results
            && r.result.value.value.totalPages == Some(d.totalPages)
  {
    var n := |reg.sessions.values[sessionId].searches|;
    SavedFound(reg, sessionId, keywords, f, page, searchId, now);
    var reg1 := SessionManager.SaveSearch(reg, sessionId, Pending(keywords, f, page), searchId, now).value.1;
    var d := SearchCache.Lookup(cache, key, now).0.value;
    UpdateFound(reg1, sessionId, searchId, HitUpdate(d), now, n);
    var reg2 := SessionManager.UpdateSearch(reg1, sessionId, searchId, HitUpdate(d), now).1;
    ReturnedFound(reg2, sessionId, searchId, now, n);
  }

  /**
   * After a cache miss and a successful crawl, the returned search is
   * completed with the crawled page and `fromCache` false, and the page is
   * cached under the key: a lookup at the same moment finds it (when every
   * entry already cached is older).
   */
  lemma CrawlSucceeded<R>(reg: Sessions<R>, cache: PageCache<R>, sessionId: string, keywords: Option<string>,
                          f: Option<RawFilters>, page: int, key: SearchOrchestrator.Key, searchId: string, now: int, steps: PlaywrightCrawler.Steps<R>)
    requires SessionManager.Consistent(reg) && OrderedMaps.Valid(cache) && sessionId in reg.sessions.values
    requires forall j :: 0 <= j < |reg.sessions.values[sessionId].searches| ==> reg.sessions.values[sessionId].searches[j].id != searchId
    requires SearchCache.Lookup(cache, key, now).0.None?
    requires forall k :: k in cache.values ==> cache.values[k].timestamp < now
    requires PlaywrightCrawler.CrawlSearchPage(steps, page).outcome.Ok?
    ensures var p := PlaywrightCrawler.CrawlSearchPage(steps, page).outcome.value;
            var r := SearchOutcome(reg, cache, sessionId, keywords, f, page, key, searchId, now, steps);
            r.result.Ok? && r.result.value.Some?
            && r.result.value.value.id == searchId && r.result.value.value.status == "completed"
            && r.result.value.value.fromCache == Some(false) && r.result.value.value.results == p.results
            && r.result.value.value.currentPage == page
            && SearchCache.Lookup(r.cache, key, now).0 == Some(CachedPage(p.results, p.totalPages))
  {
    var n := |reg.sessions.values[sessionId].searches|;
    SavedFound(reg, sessionId, keywords, f, page, searchId, now);
    var reg1 := SessionManager.SaveSearch(reg, sessionId, Pending(keywords, f, page), searchId, now).value.1;
    var cache1 := SearchCache.Lookup(cache, key, now).1;
    UpdateFound(reg1, sessionId, searchId, InProgress(), now, n);
    var reg2 := SessionManager.UpdateSearch(reg1, sessionId, searchId, InProgress(), now).1;
    var p := PlaywrightCrawler.CrawlSearchPage(steps, page).outcome.value;
    UpdateFound(reg2, sessionId, searchId, DoneUpdate(p), now, n);
    var reg3 := SessionManager.UpdateSearch(reg2, sessionId, searchId, DoneUpdate(p), now).1;
    ReturnedFound(reg3, sessionId, searchId, now, n);
    SearchCache.SaveThenLookup(cache1, key, CachedPage(p.results, p.totalPages), now);
  }

  /**
   * A failed crawl is rethrown: the search is left with status `error` and
   * the message, and nothing is cached (only a stale entry for the key is
   * gone).
   */
  lemma CrawlFailed<R>(reg: Sessions<R>, cache: PageCache<R>, sessionId: string, keywords: Option<string>,
                       f: Option<RawFilters>, page: int, key: SearchOrchestrator.Key, searchId: string, now: int, steps: PlaywrightCrawler.Steps<R>)
    requires SessionManager.Consistent(reg) && OrderedMaps.Valid(cache) && sessionId in reg.sessions.values
    requires forall j :: 0 <= j < |reg.sessions.values[sessionId].searches| ==> reg.sessions.values[sessionId].searches[j].id != searchId
    requires SearchCache.Lookup(cache, key, now).0.None?
    requires PlaywrightCrawler.CrawlSearchPage(steps, page).outcome.Err?
    ensures var e := PlaywrightCrawler.CrawlSearchPage(steps, page).outcome.message;
            var r := SearchOutcome(reg, cache, sessionId, keywords, f, page, key, searchId, now, steps);
            var n := |reg.sessions.values[sessionId].searches|;
            r.result == Err(e) && r.cache == SearchCache.Lookup(cache, key, now).1
            && sessionId in r.reg.sessions.values && n < |r.reg.sessions.values[sessionId].searches|
            && r.reg.sessions.values[sessionId].searches[n].id == searchId
            && r.reg.sessions.values[sessionId].searches[n].status == "error"
            && r.reg.sessions.values[sessionId].searches[n].error == Some(e)
  {
    var n := |reg.sessions.values[sessionId].searches|;
    SavedFound(reg, sessionId, keywords, f, page, searchId, now);
    var reg1 := SessionManager.SaveSearch(reg, sessionId, Pending(keywords, f, page), searchId, now).value.1;
    UpdateFound(reg1, sessionId, searchId, InProgress(), now, n);
    var reg2 := SessionManager.UpdateSearch(reg1, sessionId, searchId, InProgress(), now).1;
    var e := PlaywrightCrawler.CrawlSearchPage(steps, page).outcome.message;
    UpdateFound(reg2, sessionId, searchId, FailedUpdate(e), now, n);
  }

  /** The service object: its cache, bounded by a thousand entries. */
  class Service<R> {
    var cache: PageCache<R>

    ghost predicate Valid()
      reads this
    {
      OrderedMaps.Valid(cache) && |cache.keys| <= SearchCache.MaxEntries
    }

    constructor ()
      ensures Valid() && cache == OrderedMaps.Empty()
    {
      cache := OrderedMaps.Empty();
    }

    /** `_getFromCache(key)`. */
    method GetFromCache(key: SearchOrchestrator.Key, now: int) returns (r: Option<CachedPage<R>>)
      requires Valid()
      modifies this
      ensures Valid() && (r, cache) == SearchCache.Lookup(old(cache), key, now)
    {
      if key !in cache.values {
        return None;
      }
      if now - cache.values[key].timestamp > SearchCache.CacheTimeout {
        cache := OrderedMaps.Remove(cache, key);
        return None;
      }
      return Some(cache.values[key].data);
    }

    /** `_saveToCache(key, data)`: the put, then the eviction of the oldest fifth when over the bound. */
    method SaveToCache(key: SearchOrchestrator.Key, data: CachedPage<R>, now: int)
      requires Valid()
      modifies this
      ensures Valid() && cache == SearchCache.Save(old(cache), key, data, now)
    {
      SearchCache.SaveBounded(cache, key, data, now);
      cache := OrderedMaps.Put(cache, key, SearchCache.CacheEntry(data, now));
      if |cache.keys| > SearchCache.MaxEntries {
        EvictFifth();
      }
    }

    /** The eviction loop of `_saveToCache`: the entries sorted by time, the first fifth deleted. */
    method EvictFifth()
      requires OrderedMaps.Valid(cache)
      modifies this
      ensures cache == SearchCache.RemoveEntries(old(cache), SearchCache.Evicted(old(cache)))
    {
      ghost var stored := cache;
      var entries := SearchCache.SortByTime(SearchCache.Entries(cache));
      var toDelete := SearchCache.EvictCount(|cache.keys|);
      assert entries[..toDelete] == SearchCache.Evicted(stored);
      for i := 0 to toDelete
        invariant cache == SearchCache.RemoveEntries(stored, entries[..i])
      {
        assert entries[..i + 1][..i] == entries[..i];
        cache := OrderedMaps.Remove(cache, entries[i].0);
      }
    }

    /** `clearCache()`. */
    method ClearCache()
      modifies this
      ensures Valid() && cache == SearchCache.Cleared()
    {
      cache := OrderedMaps.Empty();
    }

    /** `performSearch(...)`, on the session manager `m`. */
    method PerformSearch(m: SessionManager.Manager<Option<RawFilters>, R>, sessionId: string, keywords: Option<string>,
                         f: Option<RawFilters>, page: int, searchId: string, now: int, steps: PlaywrightCrawler.Steps<R>)
      returns (r: Result<Option<StoredSearch<R>>>)
      requires Valid() && m.Valid()
      modifies this, m
      ensures Valid() && m.Valid()
      ensures Performed(r, m.reg, cache)
              == SearchOutcome(old(m.reg), old(cache), sessionId, keywords, f, page, CacheKey(keywords, f, page), searchId, now, steps)
    {
      var key := CacheKey(keywords, f, page);
      r := PerformKeyed(m, sessionId, keywords, f, page, key, searchId, now, steps);
    }

    /** `performSearch` once the request is prepared and its cache key `key` computed. */
    method PerformKeyed(m: SessionManager.Manager<Option<RawFilters>, R>, sessionId: string, keywords: Option<string>,
                        f: Option<RawFilters>, page: int, key: SearchOrchestrator.Key, searchId: string, now: int,
                        steps: PlaywrightCrawler.Steps<R>)
      returns (r: Result<Option<StoredSearch<R>>>)
      requires Valid() && m.Valid()
      modifies this, m
      ensures Valid() && m.Valid()
      ensures Performed(r, m.reg, cache) == SearchOutcome(old(m.reg), old(cache), sessionId, keywords, f, page, key, searchId, now, steps)
    {
      var saved := m.SaveSearchState(sessionId, Pending(keywords, f, page), searchId, now);
      if saved.Err? {
        return Err(saved.message);
      }
      r := AnswerSaved(m, sessionId, searchId, key, steps, page, now);
    }

    /** `performSearch` after the pending search state is saved. */
    method AnswerSaved(m: SessionManager.Manager<Option<RawFilters>, R>, sessionId: string, searchId: string,
                       key: SearchOrchestrator.Key, steps: PlaywrightCrawler.Steps<R>, page: int, now: int)
      returns (r: Result<Option<StoredSearch<R>>>)
      requires Valid() && m.Valid()
      modifies this, m
      ensures Valid() && m.Valid()
      ensures Performed(r, m.reg, cache) == SavedOutcome(old(m.reg), old(cache), sessionId, searchId, key, steps, page, now)
    {
      var cached := GetFromCache(key, now);
      if cached.Some? {
        r := AnswerFromCache(m, sessionId, searchId, cached.value, now);
        return;
      }
      r := CrawlOnMiss(m, sessionId, searchId, key, steps, page, now);
    }

    /** The cache-hit branch of `performSearch`. */
    method AnswerFromCache(m: SessionManager.Manager<Option<RawFilters>, R>, sessionId: string, searchId: string,
                           hit: CachedPage<R>, now: int)
      returns (r: Result<Option<StoredSearch<R>>>)
      requires Valid() && m.Valid()
      modifies m
      ensures m.Valid() && Performed(r, m.reg, cache) == HitOutcome(old(m.reg), cache, sessionId, searchId, hit, now)
    {
      var u := m.UpdateSearchState(sessionId, searchId, HitUpdate(hit), now);
      if u.Err? {
        return Err(u.message);
      }
      var found := ReturnSearch(m, sessionId, searchId, now);
      r := Ok(found);
    }

    /** The `try` block of `performSearch` after a cache miss. */
    method CrawlOnMiss(m: SessionManager.Manager<Option<RawFilters>, R>, sessionId: string, searchId: string,
                       key: SearchOrchestrator.Key, steps: PlaywrightCrawler.Steps<R>, page: int, now: int)
      returns (r: Result<Option<StoredSearch<R>>>)
      requires Valid() && m.Valid()
      modifies this, m
      ensures Valid() && m.Valid()
      ensures Performed(r, m.reg, cache) == CrawlOutcome(old(m.reg), old(cache), sessionId, searchId, key, steps, page, now)
    {
      var u1 := m.UpdateSearchState(sessionId, searchId, InProgress(), now);
      if u1.Err? {
        return Err(u1.message);
      }
      match PlaywrightCrawler.CrawlSearchPage(steps, page).outcome
      case Ok(p) =>
        SaveToCache(key, CachedPage(p.results, p.totalPages), now);
        var u2 := m.UpdateSearchState(sessionId, searchId, DoneUpdate(p), now);
        if u2.Err? {
          return Err(u2.message);
        }
        var found := ReturnSearch(m, sessionId, searchId, now);
        r := Ok(found);
      case Err(e) =>
        var _ := m.UpdateSearchState(sessionId, searchId, FailedUpdate(e), now);
        r := Err(e);
    }

    /** `sessionManager.getSession(sessionId).searches.find(s => s.id === searchId)`. */
    method ReturnSearch(m: SessionManager.Manager<Option<RawFilters>, R>, sessionId: string, searchId: string, now: int)
      returns (found: Option<StoredSearch<R>>)
      requires m.Valid()
      modifies m
      ensures m.Valid() && (found, m.reg) == Returned(old(m.reg), sessionId, searchId, now)
    {
      var s := m.GetSessionOf(sessionId, now);
      if s.None? {
        return None;
      }
      var k := SessionManager.FindSearch(s.value.searches, searchId);
      if k.None? {
        return None;
      }
      return Some(s.value.searches[k.value]);
    }
  }
}
