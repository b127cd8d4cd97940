/**
 * The background sweep (src/crawler/BackgroundCrawler.js): one run at a
 * time walks the listing pages for the keywords a, e, i, o, r, s, t,
 * upserts every listing it can give an external id, counts what happened,
 * reports progress to the crawl log, and finally soft-deletes the active
 * records not seen for an hour.
 *
 * What the program gets from outside is an `Env`: the answer to the n-th
 * page request, the clock, which upserts throw, the URL parser's pathname,
 * and the faults of the log and of the delete phase. A keyword walk that
 * never ends (an error the code neither retries nor gives up on repeats
 * forever) is cut off after `fuel` page attempts.
 */
module BackgroundCrawler {
  import opened Wrappers
  import opened Text
  import Seqs
  import Dates
  import PhdRepository
  import CrawlerLogRepository

  type Table = PhdRepository.Table
  type Log = CrawlerLogRepository.Log
  type Progress = CrawlerLogRepository.Progress
  type Counters = CrawlerLogRepository.Counters

  /** The search keywords, in the order they are walked. */
  const Keywords: seq<string> := ["a", "e", "i", "o", "r", "s", "t"]
  /** No keyword is walked past this page. */
  const MaxPage: int := 200
  /** An hour in milliseconds: a record not seen for longer counts as gone. */
  const HourMs: int := 60 * 60 * 1000

  /** The counters `resetStats` starts a run with. */
  function NoCounters(): (c: Counters)
    ensures c.pages == 0 && c.found == 0 && c.added == 0 && c.updated == 0 && c.deleted == 0 && c.errors == 0
  {
    CrawlerLogRepository.Counters(0, 0, 0, 0, 0, 0)
  }

  /** `this.stats` handed to the log: every counter present. */
  function ToStats(c: Counters): (s: CrawlerLogRepository.Stats)
    ensures CrawlerLogRepository.Written(s) == c
  {
    CrawlerLogRepository.Stats(Some(c.pages), Some(c.found), Some(c.added), Some(c.updated), Some(c.deleted), Some(c.errors))
  }

  /** `Math.round(ms / 1000)`: whole seconds, a half rounded up. */
  function Seconds(ms: int): (r: int)
    ensures r * 1000 - 500 <= ms < r * 1000 + 500
  {
    (ms + 500) / 1000
  }

  /**
   * The crawl log's `datetime('now')` for the millisecond clock value `ms`:
   * whole seconds, the fraction cut off.
   */
  function LogTime(ms: int): (r: int)
    ensures r * 1000 <= ms < r * 1000 + 1000
  {
    ms / 1000
  }

  // ---------------------------------------------------------------------
  // External id, country and deadline of a listing
  // ---------------------------------------------------------------------

  /** `[?&]p\d` starts at position `i`. */
  predicate IdAt(s: string, i: nat)
  {
    i + 2 < |s| && (s[i] == '?' || s[i] == '&') && s[i + 1] == 'p' && IsDigit(s[i + 2])
  }

  /** The end of the run of digits starting at `j`. */
  function DigitsEnd(s: string, j: nat): (e: nat)
    requires j <= |s|
    ensures j <= e <= |s|
    ensures forall k :: j <= k < e ==> IsDigit(s[k])
    ensures e < |s| ==> !IsDigit(s[e])
    decreases |s| - j
  {
    if j < |s| && IsDigit(s[j]) then DigitsEnd(s, j + 1) else j
  }

  /** Where `/[?&]p(\d+)/` first matches at or after `i`. */
  function FirstIdAt(s: string, i: nat): (r: Option<nat>)
    requires i <= |s|
    ensures r.Some? ==> i <= r.value < |s| && IdAt(s, r.value)
    ensures r.Some? ==> forall k :: i <= k < r.value ==> !IdAt(s, k)
    ensures r.None? ==> forall k :: i <= k < |s| ==> !IdAt(s, k)
    decreases |s| - i
  {
    if i == |s| then None
    else if IdAt(s, i) then Some(i)
    else FirstIdAt(s, i + 1)
  }

  /** `pathname.replace(/^\/|\/$/g, '')`: one leading and one trailing `/` dropped. */
  function StripSlashes(p: string): (r: string)
    ensures p == "/" + r + "/" || p == "/" + r || p == r + "/" || p == r || p == "/"
    ensures |p| >= 2 && p[0] == '/' && p[|p| - 1] == '/' ==> p == "/" + r + "/"
    ensures (|p| == 0 || (p[0] != '/' && p[|p| - 1] != '/')) ==> r == p
  {
    var a := if |p| > 0 && p[0] == '/' then p[1..] else p;
    if |a| > 0 && a[|a| - 1] == '/' then a[..|a| - 1] else a
  }

  /**
   * `_extractExternalId(url)`; `pathname(u)` is `new URL(u).pathname`, or
   * `None` when the constructor throws. No url gives `null`; a url with
   * `?p` or `&p` and a digit gives the digits after the first such mark;
   * otherwise the pathname without its outer slashes, or the url itself.
   */
  function ExtractExternalId(url: Option<string>, pathname: string -> Option<string>): Option<string>
  {
    if !Truthy(url) then None
    else
      var s := url.value;
      match FirstIdAt(s, 0)
      case Some(i) => Some(s[i + 2..DigitsEnd(s, i + 2)])
      case None =>
        match pathname(s)
        case None => Some(s)
        case Some(p) => Some(StripSlashes(p))
  }

  /**
   * No url gives no id; otherwise the id is the maximal non-empty run of
   * digits after the first mark, or, without a mark, the pathname without
   * its outer slashes, or the url itself when it has no pathname.
   */
  lemma ExternalIdCases(url: Option<string>, pathname: string -> Option<string>)
    ensures var r := ExtractExternalId(url, pathname);
      (r.None? <==> !Truthy(url))
      && (Truthy(url) && FirstIdAt(url.value, 0).Some? ==>
        var i := FirstIdAt(url.value, 0).value;
        r.Some? && |r.value| >= 1 && AllDigits(r.value) && IsPrefix(r.value, url.value[i + 2..])
        && (i + 2 + |r.value| < |url.value| ==> !IsDigit(url.value[i + 2 + |r.value|])))
      && (Truthy(url) && FirstIdAt(url.value, 0).None? ==>
        r == Some(if pathname(url.value).Some? then StripSlashes(pathname(url.value).value) else url.value))
  {
    if Truthy(url) {
      var s := url.value;
      match FirstIdAt(s, 0)
      case Some(i) =>
        var e := DigitsEnd(s, i + 2);
        var d := s[i + 2..e];
        assert ExtractExternalId(url, pathname) == Some(d);
        assert |d| >= 1 by { assert IdAt(s, i); }
        assert AllDigits(d);
        assert s[i + 2..][..|d|] == d;
      case None =>
        assert ExtractExternalId(url, pathname) == Some(if pathname(s).Some? then StripSlashes(pathname(s).value) else s);
    }
  }

  /** The digits `d` at `j`, with no digit after them, are the run DigitsEnd finds. */
  lemma {:induction false} DigitsEndOf(s: string, j: nat, d: string)
    requires j + |d| <= |s| && s[j..j + |d|] == d && AllDigits(d)
    requires j + |d| < |s| ==> !IsDigit(s[j + |d|])
    ensures DigitsEnd(s, j) == j + |d|
    decreases |d|
  {
    if d != [] {
      assert s[j] == d[0];
      assert s[j + 1..j + 1 + |d[1..]|] == d[1..];
      DigitsEndOf(s, j + 1, d[1..]);
    }
  }

  /** No mark before the end of a prefix free of `?` and `&`. */
  lemma {:induction false} NoIdInPrefix(s: string, base: string, i: nat)
    requires i <= |base| <= |s| && s[..|base|] == base && '?' !in base && '&' !in base
    requires IdAt(s, |base|)
    ensures FirstIdAt(s, i) == Some(|base|)
    decreases |base| - i
  {
    if i < |base| {
      assert s[i] == base[i];
      NoIdInPrefix(s, base, i + 1);
    }
  }

  /**
   * A project link `base?p<n>`, followed by anything that does not start
   * with a digit, has the decimal spelling of `n` as its external id.
   */
  lemma ProjectLinkId(base: string, n: nat, rest: string, pathname: string -> Option<string>)
    requires '?' !in base && '&' !in base
    requires rest == [] || !IsDigit(rest[0])
    ensures ExtractExternalId(Some(base + "?p" + NatToString(n) + rest), pathname) == Some(NatToString(n))
  {
    var d := NatToString(n);
    var s := base + "?p" + d + rest;
    var j := |base| + 2;
    assert s[..|base|] == base;
    assert s[|base|] == '?' && s[|base| + 1] == 'p' && s[j] == d[0];
    NoIdInPrefix(s, base, 0);
    assert s[j..j + |d|] == d;
    if j + |d| < |s| {
      assert s[j + |d|] == rest[0];
    }
    DigitsEndOf(s, j, d);
  }

  /** `_extractCountry(location)`: the last comma-separated part, trimmed, or `null` when that is empty. */
  function ExtractCountry(location: Option<string>): Option<string>
  {
    if !Truthy(location) then None
    else
      var parts := Split(location.value, ',');
      OrNull(Some(Trim(parts[|parts| - 1])))
  }

  /** No location gives no country; a country is non-empty, free of commas and trimmed. */
  lemma CountryShape(location: Option<string>)
    ensures var r := ExtractCountry(location);
      (!Truthy(location) ==> r.None?)
      && (r.Some? ==> r.value != "" && ',' !in r.value && !IsSpace(r.value[0]) && !IsSpace(r.value[|r.value| - 1]))
  {
    if Truthy(location) {
      var parts := Split(location.value, ',');
      var last := Trim(parts[|parts| - 1]);
      assert forall c :: c in last ==> c in parts[|parts| - 1] by {
        TrimSlice(parts[|parts| - 1]);
      }
    }
  }

  /** Trimming keeps a slice of the string. */
  lemma TrimSlice(s: string)
    ensures exists i, j :: 0 <= i <= j <= |s| && Trim(s) == s[i..j]
  {
    var a := TrimStart(s);
    var b := TrimEnd(a);
    assert a == s[|s| - |a|..];
    assert b == a[..|b|];
    assert Trim(s) == s[|s| - |a|..|s| - |a| + |b|];
  }

  /** The last piece of a split is what follows the last separator. */
  lemma {:induction false} LastPiece(x: string, c: string, sep: char)
    requires sep !in c
    ensures var r := Split(x + [sep] + c, sep); |r| >= 2 && r[|r| - 1] == c
    decreases |x|
  {
    if x == [] {
      assert x + [sep] + c == [sep] + c;
      assert ([sep] + c)[1..] == c;
      SplitGlued(c, "", sep);
      assert c + "" == c;
    } else {
      assert (x + [sep] + c)[1..] == x[1..] + [sep] + c;
      assert (x + [sep] + c)[0] == x[0];
      LastPiece(x[1..], c, sep);
    }
  }

  /** The country of `"<place>, <country>"` is the country as written, trimmed. */
  lemma CountryAfterLastComma(place: string, country: string)
    requires ',' !in country && Trim(country) != ""
    ensures ExtractCountry(Some(place + [','] + country)) == Some(Trim(country))
  {
    var s := place + [','] + country;
    LastPiece(place, country, ',');
    var parts := Split(s, ',');
    assert parts[|parts| - 1] == country;
    assert s[|place|] == ',';
    assert Truthy(Some(s));
    assert Truthy(Some(Trim(country)));
  }

  // ---------------------------------------------------------------------
  // Listings and what is stored for them
  // ---------------------------------------------------------------------

  /** A listing as the page crawler returns it; `None` is a field it left out. */
  datatype Listing = Listing(
    externalId: Option<string>,
    url: Option<string>,
    title: Option<string>,
    titleScript: Option<string>,
    description: Option<string>,
    desc: Option<string>,
    university: Option<string>,
    universityScript: Option<string>,
    institution: Option<string>,
    location: Option<string>,
    country: Option<string>,
    discipline: Option<string>,
    subject: Option<string>,
    disciplines: Option<seq<string>>,
    subjects: Option<seq<string>>,
    department: Option<string>,
    supervisor: Option<string>,
    programType: Option<string>,
    fundingType: Option<string>,
    funding: Option<string>,
    fundingAmount: Option<string>,
    deadline: Option<string>,
    deadlineText: Option<string>,
    startDate: Option<string>,
    startDateCamel: Option<string>,
    descriptionScript: Option<string>,
    jsonLdMatched: Option<bool>)

  /** `phd.external_id || this._extractExternalId(phd.url)`. */
  function ExternalIdOf(pathname: string -> Option<string>, phd: Listing): Option<string>
  {
    Or(phd.externalId, ExtractExternalId(phd.url, pathname))
  }

  /**
   * The `phdData` record built for a listing with external id `id`: the
   * title, description, university, funding, deadline and start date fall
   * back to the listing's other spellings, the country to the one read
   * from the location, and the deadline date is the ISO date in the
   * deadline text (`_parseDeadlineDate` is `Dates.ToIsoDate`).
   */
  function ToPhdData(phd: Listing, id: string): (d: PhdRepository.PhdData)
  {
    PhdRepository.PhdData(
      id,
      phd.url,
      Or(phd.title, phd.titleScript),
      Or(phd.description, phd.desc),
      Or(Or(phd.university, phd.universityScript), phd.institution),
      phd.location,
      Or(phd.country, ExtractCountry(phd.location)),
      phd.discipline,
      phd.subject,
      Some(phd.disciplines.GetOr([])),
      Some(phd.subjects.GetOr([])),
      phd.department,
      phd.supervisor,
      phd.programType,
      Or(phd.fundingType, phd.funding),
      None,
      phd.fundingAmount,
      Or(phd.deadline, phd.deadlineText),
      None,
      Dates.ToIsoDate(phd.deadlineText),
      Or(phd.startDate, phd.startDateCamel),
      phd.descriptionScript,
      phd.titleScript,
      phd.universityScript,
      phd.jsonLdMatched.GetOr(false))
  }

  // ---------------------------------------------------------------------
  // The environment and the state
  // ---------------------------------------------------------------------

  /** `crawlSearchPage(keyword, {}, page)`. */
  datatype Request = Request(keyword: string, page: int)

  datatype Pagination = Pagination(totalPages: Option<int>, hasNextPage: Option<bool>)

  /** A resolved page; `None` fields are absent from the result object. */
  datatype Page = Page(results: Option<seq<Listing>>, pagination: Option<Pagination>)

  /** A page request resolves (possibly to nothing) or throws an error whose `message` may be missing. */
  datatype Answer = Answered(page: Option<Page>) | Threw(message: Option<string>)

  datatype Env = Env(
    /** The answer to the n-th page request of the process. */
    crawl: (nat, Request) -> Answer,
    /** The time while the n-th page request is handled. */
    clock: nat -> int,
    /** Whether the n-th upsert throws. */
    saveFails: nat -> bool,
    /** `new URL(u).pathname`, or `None` when the constructor throws. */
    pathname: string -> Option<string>,
    /** Whether `startCrawl` throws. */
    startFails: bool,
    /** Whether reading the active records or marking them deleted throws. */
    markFails: bool,
    /** The time the run starts and the time it ends. */
    start: int,
    finish: int,
    /** The error a missing message raises when the page error is inspected. */
    abortError: CrawlerLogRepository.ErrorInfo)

  /**
   * What `notify(event, data)` hands every subscribed callback: the event
   * name and its data. A callback that throws is caught and the others are
   * still called, so every subscriber sees the same events in this order.
   */
  datatype Event =
    | CrawlStarted(logId: nat, triggerType: string)
    | PageDone(page: int, totalPages: Option<int>, stats: Counters)
    | CrawlCompleted(logId: nat, stats: Counters, duration: int)
    | RunFailed(logId: nat, error: Option<string>, stats: Counters)

  /**
   * The crawler's fields, the two repositories' tables, the events
   * notified so far, and two counters the environment is indexed by: the
   * page requests made so far and the number of upserts tried.
   */
  datatype World = World(
    table: Table,
    logs: seq<Log>,
    progress: seq<Progress>,
    lastFullCrawl: Option<int>,
    running: bool,
    logId: Option<nat>,
    stats: Counters,
    requests: seq<Request>,
    saves: nat,
    events: seq<Event>)

  predicate Sound(w: World)
  {
    PhdRepository.Valid(w.table) && CrawlerLogRepository.Numbered(w.logs)
  }

  /** A `progress` event and the progress row written just before it: the same page and page count. */
  predicate Paired(e: Event, p: Progress)
  {
    e.PageDone? && p.currentPage == Some(e.page) && p.totalPages == e.totalPages
  }

  /**
   * From `a` to `b` events and progress rows were only appended, and the
   * events added are `progress` events, one for each progress row added
   * and paired with it.
   */
  predicate Announced(a: World, b: World)
  {
    |a.events| <= |b.events| && b.events[..|a.events|] == a.events
    && |a.progress| <= |b.progress| && b.progress[..|a.progress|] == a.progress
    && |b.events| - |a.events| == |b.progress| - |a.progress|
    && forall i :: |a.events| <= i < |b.events| ==> Paired(b.events[i], b.progress[i - |a.events| + |a.progress|])
  }

  /** `b` has the rows of `a`, each unchanged but the one whose id is `logId`. */
  predicate RowsKept(a: seq<Log>, b: seq<Log>, logId: nat)
  {
    |b| == |a| && (forall i :: 0 <= i < |a| && i != logId - 1 ==> b[i] == a[i])
    && forall i :: 0 <= i < |a| ==> b[i].startedAt == a[i].startedAt
  }

  /** `added + updated + errors`. */
  function Tally(c: Counters): int
  {
    c.added + c.updated + c.errors
  }

  // ---------------------------------------------------------------------
  // Saving the listings of a page
  // ---------------------------------------------------------------------

  /**
   * What is stored for a listing: its id and url, the country it names or
   * the one read from its location, the ISO date of its deadline text,
   * lists that are never null, and neither `funding` nor `deadlineText`,
   * which the record leaves out.
   */
  lemma StoredFields(phd: Listing, id: string)
    ensures var d := ToPhdData(phd, id);
      d.externalId == id && d.url == phd.url
      && d.country == Or(phd.country, ExtractCountry(phd.location))
      && d.deadlineDate == Dates.ToIsoDate(phd.deadlineText)
      && d.title == Or(phd.title, phd.titleScript)
      && d.university == Or(Or(phd.university, phd.universityScript), phd.institution)
      && d.disciplines.Some? && d.subjects.Some?
      && d.funding.None? && d.deadlineText.None?
  {
  }

  /**
   * The upsert of the record `d` at time `now`: it counts as new exactly
   * when its external id was not stored yet, and as updated otherwise.
   */
  function Upserted(w: World, d: PhdRepository.PhdData, now: int): (r: World)
    requires Sound(w)
    ensures Sound(r)
    ensures r == w.(table := r.table, stats := r.stats, saves := w.saves + 1)
    ensures r.table == PhdRepository.Upsert(w.table, PhdRepository.Find(w.table, d.externalId), d, now).1
    ensures r.stats == if d.externalId in w.table.rows then w.stats.(updated := w.stats.updated + 1)
                       else w.stats.(added := w.stats.added + 1)
  {
    var (u, t) := PhdRepository.Upsert(w.table, PhdRepository.Find(w.table, d.externalId), d, now);
    var stats := if u.Added? then w.stats.(added := w.stats.added + 1) else w.stats.(updated := w.stats.updated + 1);
    w.(table := t, saves := w.saves + 1, stats := stats)
  }

  /** The try block for a listing with an id: an upsert that throws adds one error and leaves the table alone. */
  function Stored(env: Env, w: World, d: PhdRepository.PhdData, now: int): (r: World)
    requires Sound(w)
    ensures Sound(r)
    ensures r == w.(table := r.table, stats := r.stats, saves := w.saves + 1)
    ensures env.saveFails(w.saves) ==> r.table == w.table && r.stats == w.stats.(errors := w.stats.errors + 1)
    ensures !env.saveFails(w.saves) ==> r == Upserted(w, d, now)
  {
    if env.saveFails(w.saves) then w.(saves := w.saves + 1, stats := w.stats.(errors := w.stats.errors + 1))
    else Upserted(w, d, now)
  }

  /**
   * The body of the inner loop for one listing at time `now`: a listing
   * without an id is skipped and changes nothing; otherwise its id is
   * seen and it is stored.
   */
  function Save(env: Env, w: World, seen: set<string>, phd: Listing, now: int): (r: (World, set<string>))
    requires Sound(w)
    ensures Sound(r.0)
    ensures var id := ExternalIdOf(env.pathname, phd);
      (!Truthy(id) ==> r == (w, seen))
      && (Truthy(id) ==> r == (Stored(env, w, ToPhdData(phd, id.value), now), seen + {id.value}))
  {
    var id := ExternalIdOf(env.pathname, phd);
    if !Truthy(id) then (w, seen)
    else (Stored(env, w, ToPhdData(phd, id.value), now), seen + {id.value})
  }

  /** How many of the listings have an external id. */
  function Identified(pathname: string -> Option<string>, rs: seq<Listing>): (n: nat)
    ensures n <= |rs|
  {
    if rs == [] then 0
    else Identified(pathname, rs[..|rs| - 1]) + if Truthy(ExternalIdOf(pathname, rs[|rs| - 1])) then 1 else 0
  }

  /** The external ids of the listings that have one. */
  function IdsOf(pathname: string -> Option<string>, rs: seq<Listing>): (s: set<string>)
  {
    if rs == [] then {}
    else
      var id := ExternalIdOf(pathname, rs[|rs| - 1]);
      IdsOf(pathname, rs[..|rs| - 1]) + if Truthy(id) then {id.value} else {}
  }

  /**
   * The inner loop over a page's listings. Each listing with an id adds
   * exactly one to `added + updated + errors` and is tried once; nothing
   * but the table, those three counters and the upsert count changes.
   */
  function SaveAll(env: Env, w: World, seen: set<string>, rs: seq<Listing>, now: int): (r: (World, set<string>))
    requires Sound(w)
    ensures Sound(r.0)
    ensures r.0.requests == w.requests && r.0.logs == w.logs && r.0.progress == w.progress && r.0.events == w.events
    ensures r.0.lastFullCrawl == w.lastFullCrawl && r.0.running == w.running && r.0.logId == w.logId
  {
    if rs == [] then (w, seen)
    else
      var (w1, seen1) := SaveAll(env, w, seen, rs[..|rs| - 1], now);
      Save(env, w1, seen1, rs[|rs| - 1], now)
  }

  /**
   * Each listing with an id adds exactly one to `added + updated + errors`
   * and is tried once; none of those counters goes down, the page, found
   * and deleted counters stay, and the ids seen grow by the listings' ids.
   */
  lemma {:induction false} SaveAllCounts(env: Env, w: World, seen: set<string>, rs: seq<Listing>, now: int)
    requires Sound(w)
    ensures var r := SaveAll(env, w, seen, rs, now);
      r.0.saves == w.saves + Identified(env.pathname, rs)
      && Tally(r.0.stats) == Tally(w.stats) + Identified(env.pathname, rs)
      && r.0.stats.added >= w.stats.added && r.0.stats.updated >= w.stats.updated && r.0.stats.errors >= w.stats.errors
      && r.0.stats == r.0.stats.(pages := w.stats.pages, found := w.stats.found, deleted := w.stats.deleted)
      && r.1 == seen + IdsOf(env.pathname, rs)
    decreases |rs|
  {
    if rs != [] {
      var init, last := rs[..|rs| - 1], rs[|rs| - 1];
      SaveAllCounts(env, w, seen, init, now);
      var (w1, seen1) := SaveAll(env, w, seen, init, now);
      assert SaveAll(env, w, seen, rs, now) == Save(env, w1, seen1, last, now);
      SaveCounts(env, w1, seen1, last, now);
    }
  }

  /** One listing: what `SaveAllCounts` states, for a single step. */
  lemma SaveCounts(env: Env, w: World, seen: set<string>, phd: Listing, now: int)
    requires Sound(w)
    ensures var r := Save(env, w, seen, phd, now);
      var id := ExternalIdOf(env.pathname, phd);
      var k := if Truthy(id) then 1 else 0;
      r.0.saves == w.saves + k
      && Tally(r.0.stats) == Tally(w.stats) + k
      && r.0.stats.added >= w.stats.added && r.0.stats.updated >= w.stats.updated && r.0.stats.errors >= w.stats.errors
      && r.0.stats == r.0.stats.(pages := w.stats.pages, found := w.stats.found, deleted := w.stats.deleted)
      && r.1 == seen + if Truthy(id) then {id.value} else {}
  {
  }

  // ---------------------------------------------------------------------
  // One pass of the page loop
  // ---------------------------------------------------------------------

  /** `!result || !result.results || result.results.length === 0` is false. */
  predicate HasResults(p: Option<Page>)
  {
    p.Some? && p.value.results.Some? && p.value.results.value != []
  }

  /** `result.pagination && !result.pagination.hasNextPage`. */
  predicate Exhausted(p: Page)
  {
    p.pagination.Some? && p.pagination.value.hasNextPage != Some(true)
  }

  /** The error message names a time-out or a navigation failure. */
  predicate Transient(m: string)
  {
    Contains(m, "timeout") || Contains(m, "navigation")
  }

  /** A page request, recorded. */
  function Fetch(env: Env, w: World, kw: string, page: int): (r: (Answer, World))
    ensures r.1 == w.(requests := w.requests + [Request(kw, page)])
    ensures r.0 == env.crawl(|w.requests|, Request(kw, page))
  {
    var rq := Request(kw, page);
    (env.crawl(|w.requests|, rq), w.(requests := w.requests + [rq]))
  }

  /** `updateProgress`, `logProgress` and `notify('progress', …)` after page `page`. */
  function Report(w: World, logId: nat, page: int, totalPages: Option<int>, now: int): (r: World)
    requires Sound(w)
    ensures Sound(r)
    ensures r == w.(logs := r.logs, progress := r.progress, events := w.events + [PageDone(page, totalPages, w.stats)])
    ensures r.logs == CrawlerLogRepository.AfterProgress(w.logs, logId, ToStats(w.stats))
    ensures r.progress == w.progress + [CrawlerLogRepository.Progress(logId, Some(page), totalPages, Some(w.stats.found),
                                                                       "Completed page " + IntToString(page), LogTime(now))]
  {
    var p := CrawlerLogRepository.Progress(logId, Some(page), totalPages, Some(w.stats.found),
                                           "Completed page " + IntToString(page), LogTime(now));
    w.(logs := CrawlerLogRepository.AfterProgress(w.logs, logId, ToStats(w.stats)), progress := w.progress + [p],
       events := w.events + [PageDone(page, totalPages, w.stats)])
  }

  function TotalPages(p: Page): Option<int>
  {
    if p.pagination.Some? then p.pagination.value.totalPages else None
  }

  /** A page with results: the page counters set, the listings saved, the progress reported. */
  function Harvest(env: Env, logId: nat, w: World, seen: set<string>, page: int, p: Page, now: int): (r: (World, set<string>))
    requires Sound(w) && p.results.Some?
    ensures Sound(r.0)
  {
    var saved := SaveAll(env, Counted(w, page, |p.results.value|), seen, p.results.value, now);
    (Report(saved.0, logId, page, TotalPages(p), now), saved.1)
  }

  /** `Harvest` as the three steps the crawler takes one after the other. */
  lemma HarvestSteps(env: Env, logId: nat, w: World, seen: set<string>, page: int, p: Page, now: int,
                     saved: (World, set<string>))
    requires Sound(w) && p.results.Some?
    requires saved == SaveAll(env, Counted(w, page, |p.results.value|), seen, p.results.value, now)
    ensures Harvest(env, logId, w, seen, page, p, now) == (Report(saved.0, logId, page, TotalPages(p), now), saved.1)
  {
  }

  /** `stats.pagesProcessed = page` and `stats.totalFound += n`. */
  function Counted(w: World, page: int, n: nat): (r: World)
    ensures r == w.(stats := r.stats)
    ensures r.stats == w.stats.(pages := page, found := w.stats.found + n)
  {
    w.(stats := w.stats.(pages := page, found := w.stats.found + n))
  }

  /** What one pass leaves: the state, the page to ask for next and whether to go on, or an error out of the loop. */
  datatype Step = Next(w: World, seen: set<string>, page: int, more: bool) | Abort(w: World, seen: set<string>)

  /** One pass of `while (hasMorePages)` for keyword `kw` on page `page`. */
  function CrawlPage(env: Env, logId: nat, w: World, seen: set<string>, kw: string, page: int): (r: Step)
    requires Sound(w) && 1 <= page <= MaxPage
    ensures Sound(r.w)
    ensures r.w.requests == w.requests + [Request(kw, page)]
         || r.w.requests == w.requests + [Request(kw, page), Request(kw, page)]
    ensures r.Next? && r.more ==> (r.page == page || r.page == page + 1) && 1 <= r.page <= MaxPage
    ensures r.w.running == w.running && r.w.logId == w.logId && r.w.lastFullCrawl == w.lastFullCrawl
    ensures |r.w.logs| == |w.logs| && RowsKept(w.logs, r.w.logs, logId)
  {
    var now := env.clock(|w.requests|);
    var (a, w1) := Fetch(env, w, kw, page);
    match a
    case Answered(p) =>
      if !HasResults(p) then Next(w1, seen, page, false)
      else
        var (w2, seen2) := Harvest(env, logId, w1, seen, page, p.value, now);
        Next(w2, seen2, page + 1, !Exhausted(p.value) && page + 1 <= MaxPage)
    case Threw(m) =>
      var w2 := w1.(stats := w1.stats.(errors := w1.stats.errors + 1));
      if m.None? then Abort(w2, seen)
      else if Transient(m.value) then
        var (b, w3) := Fetch(env, w2, kw, page);
        Next(w3, seen, page, b.Answered? && HasResults(b.page))
      else Next(w2, seen, page, true)
  }

  /**
   * A page with results sets `total_pages` to the page, adds its size to
   * `total_found`, saves its listings and reports once; the walk goes on
   * to the next page unless the pagination says there is none or that
   * page would be past 200. A page without pagination does not stop it.
   */
  lemma PageWithResults(env: Env, logId: nat, w: World, seen: set<string>, kw: string, page: int)
    requires Sound(w) && 1 <= page <= MaxPage
    requires var a := env.crawl(|w.requests|, Request(kw, page)); a.Answered? && HasResults(a.page)
    ensures var p := env.crawl(|w.requests|, Request(kw, page)).page.value;
      var rs := p.results.value;
      var now := env.clock(|w.requests|);
      var w1 := w.(requests := w.requests + [Request(kw, page)], stats := w.stats.(pages := page, found := w.stats.found + |rs|));
      var s := SaveAll(env, w1, seen, rs, now);
      CrawlPage(env, logId, w, seen, kw, page)
        == Next(Report(s.0, logId, page, TotalPages(p), now), s.1, page + 1, !Exhausted(p) && page < MaxPage)
  {
  }

  /** An empty or absent page ends the keyword and saves nothing. */
  lemma EmptyPageEnds(env: Env, logId: nat, w: World, seen: set<string>, kw: string, page: int)
    requires Sound(w) && 1 <= page <= MaxPage
    requires var a := env.crawl(|w.requests|, Request(kw, page)); a.Answered? && !HasResults(a.page)
    ensures CrawlPage(env, logId, w, seen, kw, page) == Next(w.(requests := w.requests + [Request(kw, page)]), seen, page, false)
  {
  }

  /**
   * A page error with a message adds one error and keeps the page. A
   * time-out or navigation error is retried once, and the keyword goes on
   * only if the retry brings results, which are not saved; any other
   * error just goes on.
   */
  lemma PageError(env: Env, logId: nat, w: World, seen: set<string>, kw: string, page: int, m: string)
    requires Sound(w) && 1 <= page <= MaxPage
    requires env.crawl(|w.requests|, Request(kw, page)) == Threw(Some(m))
    ensures var r := CrawlPage(env, logId, w, seen, kw, page);
      var rq := Request(kw, page);
      var w1 := w.(stats := w.stats.(errors := w.stats.errors + 1));
      r.Next? && r.page == page && r.seen == seen
      && (!Transient(m) ==> r == Next(w1.(requests := w.requests + [rq]), seen, page, true))
      && (Transient(m) ==>
        var b := env.crawl(|w.requests| + 1, rq);
        r.w == w1.(requests := w.requests + [rq, rq]) && (r.more <==> b.Answered? && HasResults(b.page)))
  {
    if Transient(m) {
      assert w.requests + [Request(kw, page)] + [Request(kw, page)] == w.requests + [Request(kw, page), Request(kw, page)];
    }
  }

  /** An error without a message breaks out of the sweep after counting itself. */
  lemma MessagelessErrorAborts(env: Env, logId: nat, w: World, seen: set<string>, kw: string, page: int)
    requires Sound(w) && 1 <= page <= MaxPage
    requires env.crawl(|w.requests|, Request(kw, page)) == Threw(None)
    ensures CrawlPage(env, logId, w, seen, kw, page)
      == Abort(w.(requests := w.requests + [Request(kw, page)], stats := w.stats.(errors := w.stats.errors + 1)), seen)
  {
  }

  /** Nothing was announced between two states with the same events and progress rows. */
  lemma Unannounced(a: World, b: World)
    requires b.events == a.events && b.progress == a.progress
    ensures Announced(a, b)
  {
  }

  /** What is announced in two stretches is announced in the whole. */
  lemma AnnouncedChain(a: World, b: World, c: World)
    requires Announced(a, b) && Announced(b, c)
    ensures Announced(a, c)
  {
    assert c.events[..|a.events|] == c.events[..|b.events|][..|a.events|];
    assert c.progress[..|a.progress|] == c.progress[..|b.progress|][..|a.progress|];
    forall i | |a.events| <= i < |c.events|
      ensures Paired(c.events[i], c.progress[i - |a.events| + |a.progress|])
    {
      if i < |b.events| {
        assert c.events[i] == b.events[i];
        assert c.progress[i - |a.events| + |a.progress|] == b.progress[i - |a.events| + |a.progress|];
      }
    }
  }

  /** Reporting a page announces it. */
  lemma ReportAnnounced(w: World, logId: nat, page: int, totalPages: Option<int>, now: int)
    requires Sound(w)
    ensures Announced(w, Report(w, logId, page, totalPages, now))
  {
    var r := Report(w, logId, page, totalPages, now);
    assert r.events[..|w.events|] == w.events;
    assert r.progress[..|w.progress|] == w.progress;
  }

  /** A pass announces the page it reported, if any, and nothing else. */
  lemma CrawlPageAnnounced(env: Env, logId: nat, w: World, seen: set<string>, kw: string, page: int)
    requires Sound(w) && 1 <= page <= MaxPage
    ensures Announced(w, CrawlPage(env, logId, w, seen, kw, page).w)
  {
    var a := env.crawl(|w.requests|, Request(kw, page));
    if a.Answered? && HasResults(a.page) {
      var p := a.page.value;
      var now := env.clock(|w.requests|);
      var w1 := Fetch(env, w, kw, page).1;
      var s := SaveAll(env, Counted(w1, page, |p.results.value|), seen, p.results.value, now);
      var r := Report(s.0, logId, page, TotalPages(p), now);
      assert CrawlPage(env, logId, w, seen, kw, page).w == r;
      Unannounced(w, s.0);
      ReportAnnounced(s.0, logId, page, TotalPages(p), now);
      AnnouncedChain(w, s.0, r);
    } else {
      Unannounced(w, CrawlPage(env, logId, w, seen, kw, page).w);
    }
  }

  // ---------------------------------------------------------------------
  // The walks
  // ---------------------------------------------------------------------

  /** How a loop ends: normally, by an error out of it, or not within the fuel. */
  datatype Outcome = Finished(w: World, seen: set<string>) | Failed(w: World, seen: set<string>) | Unfinished(w: World, seen: set<string>)

  /** The page loop of keyword `kw` from page `page` on, with at most `fuel` passes. */
  function Walk(env: Env, logId: nat, w: World, seen: set<string>, kw: string, page: int, fuel: nat): (r: Outcome)
    requires Sound(w) && 1 <= page <= MaxPage
    ensures Sound(r.w)
    ensures r.w.running == w.running && r.w.logId == w.logId && r.w.lastFullCrawl == w.lastFullCrawl
    ensures |r.w.logs| == |w.logs| && RowsKept(w.logs, r.w.logs, logId)
    decreases fuel
  {
    if fuel == 0 then Unfinished(w, seen)
    else
      match CrawlPage(env, logId, w, seen, kw, page)
      case Abort(w1, seen1) => Failed(w1, seen1)
      case Next(w1, seen1, page1, more) =>
        if more then Walk(env, logId, w1, seen1, kw, page1, fuel - 1) else Finished(w1, seen1)
  }

  /** A walk with fuel left is one pass followed by the rest of the walk. */
  lemma WalkStep(env: Env, logId: nat, w: World, seen: set<string>, kw: string, page: int, fuel: nat, left: nat, st: Step)
    requires Sound(w) && 1 <= page <= MaxPage && fuel == left + 1
    requires st == CrawlPage(env, logId, w, seen, kw, page)
    ensures st.Next? && st.more ==> 1 <= st.page <= MaxPage
    ensures st.Abort? ==> Rest(env, logId, w, seen, kw, page, fuel, true) == Failed(st.w, st.seen)
    ensures st.Next? ==> Rest(env, logId, w, seen, kw, page, fuel, true) == Rest(env, logId, st.w, st.seen, kw, st.page, left, st.more)
  {
  }

  /** What is left of a walk at page `page` with `fuel` passes: all of it while `more`, otherwise nothing. */
  function Rest(env: Env, logId: nat, w: World, seen: set<string>, kw: string, page: int, fuel: nat, more: bool): Outcome
    requires Sound(w) && (more ==> 1 <= page <= MaxPage)
  {
    if more then Walk(env, logId, w, seen, kw, page, fuel) else Finished(w, seen)
  }

  /** The keyword loop from keyword `i` on; an error out of a walk ends it, a cut-off walk too. */
  function Walks(env: Env, logId: nat, w: World, seen: set<string>, i: nat, fuel: nat): (r: Outcome)
    requires Sound(w) && i <= |Keywords|
    ensures Sound(r.w)
    ensures r.w.running == w.running && r.w.logId == w.logId && r.w.lastFullCrawl == w.lastFullCrawl
    ensures |r.w.logs| == |w.logs| && RowsKept(w.logs, r.w.logs, logId)
    decreases |Keywords| - i
  {
    if i == |Keywords| then Finished(w, seen)
    else
      match Walk(env, logId, w, seen, Keywords[i], 1, fuel)
      case Finished(w1, seen1) => Walks(env, logId, w1, seen1, i + 1, fuel)
      case Failed(w1, seen1) => Failed(w1, seen1)
      case Unfinished(w1, seen1) => Unfinished(w1, seen1)
  }

  /** A keyword's walk announces only the pages it reported. */
  lemma {:induction false} WalkAnnounced(env: Env, logId: nat, w: World, seen: set<string>, kw: string, page: int, fuel: nat)
    requires Sound(w) && 1 <= page <= MaxPage
    ensures Announced(w, Walk(env, logId, w, seen, kw, page, fuel).w)
    decreases fuel
  {
    if fuel == 0 {
      Unannounced(w, w);
    } else {
      var st := CrawlPage(env, logId, w, seen, kw, page);
      CrawlPageAnnounced(env, logId, w, seen, kw, page);
      if st.Next? && st.more {
        WalkAnnounced(env, logId, st.w, st.seen, kw, st.page, fuel - 1);
        AnnouncedChain(w, st.w, Walk(env, logId, st.w, st.seen, kw, st.page, fuel - 1).w);
      }
    }
  }

  /** The keyword loop announces only the pages it reported. */
  lemma {:induction false} WalksAnnounced(env: Env, logId: nat, w: World, seen: set<string>, i: nat, fuel: nat)
    requires Sound(w) && i <= |Keywords|
    ensures Announced(w, Walks(env, logId, w, seen, i, fuel).w)
    decreases |Keywords| - i
  {
    if i == |Keywords| {
      Unannounced(w, w);
    } else {
      var o := Walk(env, logId, w, seen, Keywords[i], 1, fuel);
      WalkAnnounced(env, logId, w, seen, Keywords[i], 1, fuel);
      if o.Finished? {
        WalksAnnounced(env, logId, o.w, o.seen, i + 1, fuel);
        AnnouncedChain(w, o.w, Walks(env, logId, o.w, o.seen, i + 1, fuel).w);
      }
    }
  }

  /** `y` comes after `x` in the keyword order. */
  predicate Later(x: string, y: string)
  {
    exists m, n :: 0 <= m < n < |Keywords| && Keywords[m] == x && Keywords[n] == y
  }

  /** Each keyword comes before the next. */
  lemma NextKeywordLater(i: nat)
    requires i + 1 < |Keywords|
    ensures Later(Keywords[i], Keywords[i + 1])
  {
    assert 0 <= i < i + 1 < |Keywords|;
  }

  /** `b` may follow `a`: the same keyword on the same or the next page, or a later keyword on page 1. */
  predicate Follows(a: Request, b: Request)
  {
    (b.keyword == a.keyword && (b.page == a.page || b.page == a.page + 1))
    || (b.page == 1 && Later(a.keyword, b.keyword))
  }

  predicate Chain(rs: seq<Request>)
  {
    forall j :: 1 <= j < |rs| ==> Follows(rs[j - 1], rs[j])
  }

  predicate InRange(rs: seq<Request>)
  {
    forall j :: 0 <= j < |rs| ==> 1 <= rs[j].page <= MaxPage
  }

  lemma ChainAppend(a: seq<Request>, b: seq<Request>)
    requires Chain(a) && Chain(b) && InRange(a) && InRange(b)
    requires a != [] && b != [] ==> Follows(a[|a| - 1], b[0])
    ensures Chain(a + b) && InRange(a + b)
  {
    var c := a + b;
    forall j | 1 <= j < |c|
      ensures Follows(c[j - 1], c[j])
    {
      if j < |a| {
        assert c[j - 1] == a[j - 1] && c[j] == a[j];
      } else if j == |a| {
        assert c[j - 1] == a[|a| - 1] && c[j] == b[0];
      } else {
        assert c[j - 1] == b[j - 1 - |a|] && c[j] == b[j - |a|];
      }
    }
    assert forall j :: 0 <= j < |c| ==> c[j] == if j < |a| then a[j] else b[j - |a|];
  }

  /**
   * A walk of keyword `kw` from page `page` asks only for that keyword,
   * starting with `page`, each time for the same page or the next one,
   * never past page 200.
   */
  lemma {:induction false} WalkRequests(env: Env, logId: nat, w: World, seen: set<string>, kw: string, page: int, fuel: nat)
    returns (d: seq<Request>)
    requires Sound(w) && 1 <= page <= MaxPage
    ensures Walk(env, logId, w, seen, kw, page, fuel).w.requests == w.requests + d
    ensures Chain(d) && InRange(d) && (forall j :: 0 <= j < |d| ==> d[j].keyword == kw)
    ensures fuel > 0 ==> d != [] && d[0] == Request(kw, page)
    decreases fuel
  {
    if fuel == 0 {
      d := [];
      assert w.requests + [] == w.requests;
    } else {
      var left: nat := fuel - 1;
      var r := CrawlPage(env, logId, w, seen, kw, page);
      WalkStep(env, logId, w, seen, kw, page, fuel, left, r);
      var rq := Request(kw, page);
      var s := if r.w.requests == w.requests + [rq] then [rq] else [rq, rq];
      assert Chain(s) && InRange(s);
      if r.Next? && r.more {
        var d1 := WalkRequests(env, logId, r.w, r.seen, kw, r.page, left);
        ChainAppend(s, d1);
        Seqs.AppendAssoc(w.requests, s, d1);
        d := s + d1;
      } else {
        d := s;
      }
    }
  }

  /**
   * The sweep from keyword `i` on asks for the keywords in their order,
   * each from page 1, page by page within a keyword, never past page 200.
   */
  lemma {:induction false} WalksRequests(env: Env, logId: nat, w: World, seen: set<string>, i: nat, fuel: nat)
    returns (d: seq<Request>)
    requires Sound(w) && i <= |Keywords|
    ensures Walks(env, logId, w, seen, i, fuel).w.requests == w.requests + d
    ensures Chain(d) && InRange(d)
    ensures i < |Keywords| && fuel > 0 ==> d != [] && d[0] == Request(Keywords[i], 1)
    decreases |Keywords| - i
  {
    if i == |Keywords| {
      d := [];
      assert w.requests + [] == w.requests;
    } else {
      var d0 := WalkRequests(env, logId, w, seen, Keywords[i], 1, fuel);
      var r := Walk(env, logId, w, seen, Keywords[i], 1, fuel);
      if r.Finished? {
        var d1 := WalksRequests(env, logId, r.w, r.seen, i + 1, fuel);
        assert Walks(env, logId, w, seen, i, fuel) == Walks(env, logId, r.w, r.seen, i + 1, fuel);
        JoinKeywords(i, fuel, d0, d1);
        Seqs.AppendAssoc(w.requests, d0, d1);
        d := d0 + d1;
      } else {
        d := d0;
      }
    }
  }

  /** The requests of keyword `i` followed by those of the later keywords are in order. */
  lemma JoinKeywords(i: nat, fuel: nat, d0: seq<Request>, d1: seq<Request>)
    requires i < |Keywords|
    requires Chain(d0) && InRange(d0) && (forall j :: 0 <= j < |d0| ==> d0[j].keyword == Keywords[i])
    requires Chain(d1) && InRange(d1)
    requires i + 1 < |Keywords| && fuel > 0 ==> d1 != [] && d1[0] == Request(Keywords[i + 1], 1)
    requires i + 1 == |Keywords| || fuel == 0 ==> d1 == []
    ensures Chain(d0 + d1) && InRange(d0 + d1)
  {
    if d0 != [] && d1 != [] {
      NextKeywordLater(i);
      assert Follows(d0[|d0| - 1], d1[0]);
    }
    ChainAppend(d0, d1);
  }

  /**
   * When every request for `kw` throws the same error that is neither a
   * time-out nor a navigation failure, the walk keeps asking for the same
   * page and never ends: it uses up any fuel, counting one error a pass.
   */
  lemma {:induction false} RepeatedErrorNeverEnds(env: Env, logId: nat, w: World, seen: set<string>, kw: string, page: int, fuel: nat, m: string)
    requires Sound(w) && 1 <= page <= MaxPage && !Transient(m)
    requires forall n: nat :: env.crawl(n, Request(kw, page)) == Threw(Some(m))
    ensures var r := Walk(env, logId, w, seen, kw, page, fuel);
      r.Unfinished? && r.w.stats == w.stats.(errors := w.stats.errors + fuel) && r.w.table == w.table
    decreases fuel
  {
    if fuel > 0 {
      PageError(env, logId, w, seen, kw, page, m);
      var r := CrawlPage(env, logId, w, seen, kw, page);
      RepeatedErrorNeverEnds(env, logId, r.w, seen, kw, page, fuel - 1, m);
    }
  }

  // ---------------------------------------------------------------------
  // Marking the records not seen for an hour
  // ---------------------------------------------------------------------

  /** The active, undeleted records last seen more than an hour before `now`. */
  function Expired(t: Table, now: int): (s: set<string>)
    ensures forall k :: k in s <==> k in t.rows && PhdRepository.Live(t.rows[k]) && t.rows[k].lastSeenAt < now - HourMs
  {
    var active := PhdRepository.AllActive(t);
    set k | k in active && active[k] < now - HourMs
  }

  /** `_markDeletedPhDs` at the end of the run. */
  function MarkDeleted(env: Env, w: World): (r: World)
    requires Sound(w)
    ensures Sound(r)
    ensures r == w.(table := r.table, stats := r.stats)
  {
    if env.markFails then w.(stats := w.stats.(errors := w.stats.errors + 1))
    else Deleted(w, Expired(w.table, env.finish))
  }

  /** `markAsDeleted(externalIds)` and `total_deleted = toDelete.length`, skipped when nothing is stale. */
  function Deleted(w: World, gone: set<string>): (r: World)
    requires Sound(w)
    ensures Sound(r)
  {
    if gone == {} then w
    else w.(table := PhdRepository.Deleting(w.table, gone), stats := w.stats.(deleted := |gone|))
  }

  /**
   * Without a fault, exactly the active records last seen more than an
   * hour before the end are soft-deleted and nothing else changes; the
   * deleted counter is set to their number (not added to), and left alone
   * when there are none. A fault adds one error and changes no record.
   */
  lemma MarkDeletedExactly(env: Env, w: World)
    requires Sound(w)
    ensures var r := MarkDeleted(env, w);
      var gone := Expired(w.table, env.finish);
      (env.markFails ==> r == w.(stats := w.stats.(errors := w.stats.errors + 1)))
      && (!env.markFails ==>
        r.table.rows.Keys == w.table.rows.Keys
        && (forall k :: k in w.table.rows ==>
              r.table.rows[k] == if k in gone then w.table.rows[k].(isActive := false, isDeleted := true) else w.table.rows[k])
        && r.stats == if gone == {} then w.stats else w.stats.(deleted := |gone|))
  {
  }

  /**
   * A record seen during this very run, but more than an hour before its
   * end, is marked deleted too: the cut-off is the clock, not the set of
   * ids the walks saw.
   */
  lemma SeenEarlyIsDeleted(env: Env, w: World, k: string)
    requires Sound(w) && !env.markFails
    requires k in w.table.rows && PhdRepository.Live(w.table.rows[k]) && w.table.rows[k].lastSeenAt < env.finish - HourMs
    ensures k in MarkDeleted(env, w).table.rows && MarkDeleted(env, w).table.rows[k].isDeleted
  {
    MarkDeletedExactly(env, w);
  }

  // ---------------------------------------------------------------------
  // A whole run
  // ---------------------------------------------------------------------

  /**
   * `allActivePhDs.filter(phd => phd.last_seen_at < oneHourAgo)` and the
   * external ids of the result: exactly the active ids seen before
   * `cutoff`, with `n` their number.
   */
  method StaleIds(active: map<string, int>, cutoff: int) returns (ids: seq<string>, n: nat)
    ensures forall k :: k in ids <==> k in active && active[k] < cutoff
    ensures n == |set k | k in ids|
  {
    var pending := active.Keys;
    ids, n := [], 0;
    while pending != {}
      invariant pending <= active.Keys
      invariant forall k :: k in ids <==> k in active && k !in pending && active[k] < cutoff
      invariant n == |set k | k in ids|
      decreases |pending|
    {
      var k :| k in pending;
      if active[k] < cutoff {
        assert (set x | x in ids + [k]) == (set x | x in ids) + {k};
        ids := ids + [k];
        n := n + 1;
      }
      pending := pending - {k};
    }
  }

  /** What `startFullCrawl` resolves to; `StartRejected` is its promise rejecting, `Unreturned` a walk still going at the cut-off. */
  datatype Reply =
    | AlreadyRunning
    | Succeeded(stats: Counters, duration: int)
    | CrawlFailed(error: Option<string>, stats: Counters)
    | StartRejected
    | Unreturned

  /** The part of `startFullCrawl` after the log row `id` exists. */
  function Sweep(env: Env, w: World, id: nat, fuel: nat): (r: (Reply, World))
    requires Sound(w)
    ensures Sound(r.1) && RowsKept(w.logs, r.1.logs, id)
  {
    match Walks(env, id, w, {}, 0, fuel)
    case Unfinished(w1, _) => (Unreturned, w1)
    case Failed(w1, _) => Failing(env, w1, id)
    case Finished(w1, _) => Closing(env, MarkDeleted(env, w1), id)
  }

  /** The catch and finally blocks: the log row failed with the run's counters, the flag cleared. */
  function Failing(env: Env, w: World, id: nat): (r: (Reply, World))
    requires Sound(w)
    ensures Sound(r.1)
    ensures r.0 == CrawlFailed(env.abortError.message, w.stats) && !r.1.running
    ensures r.1 == w.(logs := r.1.logs, running := false, events := w.events + [RunFailed(id, env.abortError.message, w.stats)])
    ensures r.1.logs == CrawlerLogRepository.AfterFail(w.logs, id, env.abortError, ToStats(w.stats), LogTime(env.finish))
    ensures 1 <= id <= |w.logs| && w.logs[id - 1].startedAt == LogTime(env.start) ==>
      r.1.logs[id - 1].status == CrawlerLogRepository.Failed
      && r.1.logs[id - 1].durationSeconds == Some(LogTime(env.finish) - LogTime(env.start))
  {
    var logs := CrawlerLogRepository.AfterFail(w.logs, id, env.abortError, ToStats(w.stats), LogTime(env.finish));
    (CrawlFailed(env.abortError.message, w.stats),
     w.(logs := logs, running := false, events := w.events + [RunFailed(id, env.abortError.message, w.stats)]))
  }

  /**
   * `completeCrawl` and the finally block: the log row completed with the
   * run's counters, `last_full_crawl` set to the end, the flag cleared,
   * and the duration in whole seconds.
   */
  function Closing(env: Env, w: World, id: nat): (r: (Reply, World))
    requires Sound(w)
    ensures Sound(r.1)
    ensures r.0 == Succeeded(w.stats, Seconds(env.finish - env.start)) && !r.1.running
    ensures r.1 == w.(logs := r.1.logs, lastFullCrawl := Some(LogTime(env.finish)), running := false,
                      events := w.events + [CrawlCompleted(id, w.stats, Seconds(env.finish - env.start))])
    ensures r.1.logs == CrawlerLogRepository.AfterComplete(w.logs, id, ToStats(w.stats), LogTime(env.finish))
    ensures 1 <= id <= |w.logs| && w.logs[id - 1].startedAt == LogTime(env.start) ==>
      r.1.logs[id - 1].status == CrawlerLogRepository.Completed
      && r.1.logs[id - 1].durationSeconds == Some(LogTime(env.finish) - LogTime(env.start))
  {
    var logs := CrawlerLogRepository.AfterComplete(w.logs, id, ToStats(w.stats), LogTime(env.finish));
    (Succeeded(w.stats, Seconds(env.finish - env.start)),
     w.(logs := logs, lastFullCrawl := Some(LogTime(env.finish)), running := false,
        events := w.events + [CrawlCompleted(id, w.stats, Seconds(env.finish - env.start))]))
  }

  /** `isRunning = true` and `resetStats()`. */
  function Begun(w: World): (r: World)
    ensures r == w.(running := true, stats := NoCounters())
  {
    w.(running := true, stats := NoCounters())
  }

  /**
   * `currentLogId = await startCrawl(triggerType)` and `notify('crawl_started', …)`:
   * the next log row, running from `now`, and its id announced.
   */
  function Opened(w: World, triggerType: string, now: int): (r: World)
    ensures r == w.(logs := r.logs, logId := Some(|w.logs| + 1), events := w.events + [CrawlStarted(|w.logs| + 1, triggerType)])
    ensures r.logs == w.logs + [CrawlerLogRepository.Started(|w.logs| + 1, triggerType, now)]
  {
    var id := |w.logs| + 1;
    w.(logs := w.logs + [CrawlerLogRepository.Started(id, triggerType, now)], logId := Some(id),
       events := w.events + [CrawlStarted(id, triggerType)])
  }

  /** `startFullCrawl(triggerType)`. */
  function Run(env: Env, triggerType: string, w: World, fuel: nat): (r: (Reply, World))
    requires Sound(w)
    ensures Sound(r.1)
  {
    if w.running then (AlreadyRunning, w)
    else if env.startFails then (StartRejected, Begun(w))
    else Sweep(env, Opened(Begun(w), triggerType, LogTime(env.start)), |w.logs| + 1, fuel)
  }

  /** A run asked for while one is going answers so and changes nothing: no counter, no log row. */
  lemma SingleFlight(env: Env, triggerType: string, w: World, fuel: nat)
    requires Sound(w) && w.running
    ensures Run(env, triggerType, w, fuel) == (AlreadyRunning, w)
  {
  }

  /**
   * A run that returns, whether it succeeded or failed, is no longer
   * running; its log row, the one after the rows there were, is completed
   * or failed with the whole seconds between the start and the end as its
   * duration, and no earlier row changed.
   */
  lemma {:induction false} ReturnReleases(env: Env, triggerType: string, w: World, fuel: nat)
    requires Sound(w) && !w.running && !env.startFails
    ensures var r := Run(env, triggerType, w, fuel);
      (r.0.Succeeded? || r.0.CrawlFailed?) ==>
        !r.1.running && |r.1.logs| == |w.logs| + 1
        && r.1.logs[|w.logs|].status == (if r.0.Succeeded? then CrawlerLogRepository.Completed else CrawlerLogRepository.Failed)
        && r.1.logs[..|w.logs|] == w.logs
        && r.1.logs[|w.logs|].durationSeconds == Some(LogTime(env.finish) - LogTime(env.start))
  {
    var id := |w.logs| + 1;
    var w2 := Opened(Begun(w), triggerType, LogTime(env.start));
    SweepReturns(env, w2, id, fuel);
    var r := Sweep(env, w2, id, fuel);
    assert r.1.logs[..|w.logs|] == w.logs by {
      assert forall i :: 0 <= i < |w.logs| ==> r.1.logs[i] == w2.logs[i] == w.logs[i];
    }
  }

  /**
   * `r` is a run that either did not return, or returned clearing the
   * flag with row `id` completed or failed to match its answer; when the
   * row was started at the run's start, its duration is the whole seconds
   * from the start to the end.
   */
  predicate RunEnded(env: Env, r: (Reply, World), id: nat, started: int)
  {
    (r.0.Succeeded? || r.0.CrawlFailed?) ==>
      !r.1.running && 1 <= id <= |r.1.logs|
      && r.1.logs[id - 1].status == (if r.0.Succeeded? then CrawlerLogRepository.Completed else CrawlerLogRepository.Failed)
      && (started == LogTime(env.start) ==>
            r.1.logs[id - 1].durationSeconds == Some(LogTime(env.finish) - LogTime(env.start)))
  }

  lemma FailingRunEnded(env: Env, w: World, id: nat)
    requires Sound(w) && 1 <= id <= |w.logs|
    ensures RunEnded(env, Failing(env, w, id), id, w.logs[id - 1].startedAt)
  {
  }

  lemma ClosingRunEnded(env: Env, w: World, id: nat)
    requires Sound(w) && 1 <= id <= |w.logs|
    ensures RunEnded(env, Closing(env, w, id), id, w.logs[id - 1].startedAt)
  {
  }

  /** The part after the log row: a sweep that returns clears the flag and closes its own row, the last one. */
  lemma SweepReturns(env: Env, w: World, id: nat, fuel: nat)
    requires Sound(w) && id == |w.logs| && id >= 1
    ensures RunEnded(env, Sweep(env, w, id, fuel), id, w.logs[id - 1].startedAt)
  {
    var o := Walks(env, id, w, {}, 0, fuel);
    assert |o.w.logs| == id && o.w.logs[id - 1].startedAt == w.logs[id - 1].startedAt;
    match o
    case Unfinished(_, _) =>
    case Failed(w1, _) =>
      FailingRunEnded(env, w1, id);
    case Finished(w1, _) =>
      var w2 := MarkDeleted(env, w1);
      assert w2.logs == w1.logs;
      ClosingRunEnded(env, w2, id);
  }

  /**
   * What the subscribers of a run that returned were told, after the
   * events there were: `crawl_started` with the run's log id, then one
   * `progress` event per progress row the run wrote, paired with it, then
   * `crawl_completed` or `crawl_failed` with the log id and what the run
   * answered.
   */
  predicate RunAnnounced(w: World, triggerType: string, r: (Reply, World))
  {
    (r.0.Succeeded? || r.0.CrawlFailed?) ==>
      var id, n, k, m := |w.logs| + 1, |w.events|, |r.1.events|, |w.progress|;
      n + 2 <= k && r.1.events[..n] == w.events && r.1.events[n] == CrawlStarted(id, triggerType)
      && m <= |r.1.progress| && r.1.progress[..m] == w.progress
      && k - n - 2 == |r.1.progress| - m
      && (forall i :: n < i < k - 1 ==> Paired(r.1.events[i], r.1.progress[i - n - 1 + m]))
      && r.1.events[k - 1] == (if r.0.Succeeded? then CrawlCompleted(id, r.0.stats, r.0.duration)
                               else RunFailed(id, r.0.error, r.0.stats))
  }

  /** A run whose walks announced only their pages, closed by its last event, announced what `RunAnnounced` says. */
  lemma RunAnnouncedOf(w: World, triggerType: string, a: World, w1: World, r: (Reply, World))
    requires a.events == w.events + [CrawlStarted(|w.logs| + 1, triggerType)] && a.progress == w.progress
    requires Announced(a, w1) && r.1.progress == w1.progress
    requires r.0.Succeeded? ==> r.1.events == w1.events + [CrawlCompleted(|w.logs| + 1, r.0.stats, r.0.duration)]
    requires r.0.CrawlFailed? ==> r.1.events == w1.events + [RunFailed(|w.logs| + 1, r.0.error, r.0.stats)]
    ensures RunAnnounced(w, triggerType, r)
  {
    if r.0.Succeeded? || r.0.CrawlFailed? {
      var n := |w.events|;
      assert r.1.events[..n] == w1.events[..|a.events|][..n];
      assert r.1.events[n] == w1.events[..|a.events|][n];
      forall i | n < i < |r.1.events| - 1
        ensures Paired(r.1.events[i], r.1.progress[i - n - 1 + |w.progress|])
      {
        assert r.1.events[i] == w1.events[i];
      }
    }
  }

  /** The events a run notifies, in order: see `RunAnnounced`. */
  lemma RunEvents(env: Env, triggerType: string, w: World, fuel: nat)
    requires Sound(w) && !w.running && !env.startFails
    ensures RunAnnounced(w, triggerType, Run(env, triggerType, w, fuel))
  {
    var id := |w.logs| + 1;
    var a := Opened(Begun(w), triggerType, LogTime(env.start));
    var o := Walks(env, id, a, {}, 0, fuel);
    WalksAnnounced(env, id, a, {}, 0, fuel);
    match o
    case Unfinished(_, _) =>
    case Failed(w1, _) =>
      RunAnnouncedOf(w, triggerType, a, w1, Failing(env, w1, id));
    case Finished(w1, _) =>
      var w2 := MarkDeleted(env, w1);
      Unannounced(w1, w2);
      AnnouncedChain(a, w1, w2);
      RunAnnouncedOf(w, triggerType, a, w2, Closing(env, w2, id));
  }

  /**
   * When `startCrawl` throws, the flag set before it stays set: the run's
   * promise rejects, and every later call answers that a run is going.
   */
  lemma StartFailureWedges(env: Env, env2: Env, triggerType: string, w: World, fuel: nat, fuel2: nat)
    requires Sound(w) && !w.running && env.startFails
    ensures var r := Run(env, triggerType, w, fuel);
      r.0 == StartRejected && r.1.running && r.1.logs == w.logs && r.1.events == w.events
      && Run(env2, triggerType, r.1, fuel2) == (AlreadyRunning, r.1)
  {
  }

  // ---------------------------------------------------------------------
  // The crawler object
  // ---------------------------------------------------------------------

  /** How a walk method ended. */
  datatype Ending = Done | Broke | Cut

  function Ended(e: Ending, w: World, seen: set<string>): Outcome
  {
    match e
    case Done => Finished(w, seen)
    case Broke => Failed(w, seen)
    case Cut => Unfinished(w, seen)
  }

  class Crawler {
    var isRunning: bool
    var currentLogId: Option<nat>
    var stats: Counters
    /** The page requests made so far. */
    var requests: seq<Request>
    /** The upserts tried so far. */
    var saves: nat
    /** The events notified so far, which every subscriber receives. */
    var events: seq<Event>
    const phdRepo: PhdRepository.Repository
    const logRepo: CrawlerLogRepository.Repository

    function State(): World
      reads this, phdRepo, logRepo
    {
      World(phdRepo.table, logRepo.logs, logRepo.progress, logRepo.lastFullCrawl,
            isRunning, currentLogId, stats, requests, saves, events)
    }

    predicate Valid()
      reads this, phdRepo, logRepo
    {
      phdRepo.Ok() && logRepo.Valid()
    }

    constructor(phds: PhdRepository.Repository, logs: CrawlerLogRepository.Repository)
      requires phds.Ok() && logs.Valid()
      ensures Valid() && phdRepo == phds && logRepo == logs
      ensures !isRunning && currentLogId.None? && stats == NoCounters() && requests == [] && saves == 0 && events == []
    {
      phdRepo := phds;
      logRepo := logs;
      isRunning := false;
      currentLogId := None;
      stats := NoCounters();
      requests := [];
      saves := 0;
      events := [];
    }

    /** `resetStats()`. */
    method ResetStats()
      modifies this
      ensures stats == NoCounters()
      ensures isRunning == old(isRunning) && currentLogId == old(currentLogId)
      ensures requests == old(requests) && saves == old(saves) && events == old(events)
    {
      stats := NoCounters();
    }

    /** `getStatus()`. */
    function Status(): (bool, Option<nat>, Counters)
      reads this
    {
      (isRunning, currentLogId, stats)
    }

    method FetchPage(env: Env, kw: string, page: int) returns (a: Answer)
      modifies this
      ensures (a, State()) == Fetch(env, old(State()), kw, page)
    {
      var rq := Request(kw, page);
      a := env.crawl(|requests|, rq);
      requests := requests + [rq];
    }

    method UpsertListing(d: PhdRepository.PhdData, now: int)
      requires Valid()
      modifies this, phdRepo
      ensures Valid() && State() == Upserted(old(State()), d, now)
    {
      var u := phdRepo.UpsertRow(d, now);
      saves := saves + 1;
      if u.Added? {
        stats := stats.(added := stats.added + 1);
      } else {
        stats := stats.(updated := stats.updated + 1);
      }
    }

    method SaveListing(env: Env, phd: Listing, now: int, seen: set<string>) returns (seen2: set<string>)
      requires Valid()
      modifies this, phdRepo
      ensures Valid() && (State(), seen2) == Save(env, old(State()), seen, phd, now)
    {
      var id := ExternalIdOf(env.pathname, phd);
      if !Truthy(id) {
        return seen;
      }
      seen2 := seen + {id.value};
      StoreListing(env, ToPhdData(phd, id.value), now);
    }

    /** The upsert's try block, whose catch counts an error. */
    method StoreListing(env: Env, d: PhdRepository.PhdData, now: int)
      requires Valid()
      modifies this, phdRepo
      ensures Valid() && State() == Stored(env, old(State()), d, now)
    {
      if env.saveFails(saves) {
        saves := saves + 1;
        stats := stats.(errors := stats.errors + 1);
      } else {
        UpsertListing(d, now);
      }
    }

    /** `for (const phd of result.results)`. */
    method SaveListings(env: Env, rs: seq<Listing>, now: int, seen: set<string>) returns (seen2: set<string>)
      requires Valid()
      modifies this, phdRepo
      ensures Valid() && (State(), seen2) == SaveAll(env, old(State()), seen, rs, now)
    {
      ghost var start := State();
      seen2 := seen;
      for i := 0 to |rs|
        invariant Valid()
        invariant (State(), seen2) == SaveAll(env, start, seen, rs[..i], now)
      {
        assert rs[..i + 1][..i] == rs[..i];
        seen2 := SaveListing(env, rs[i], now, seen2);
      }
      assert rs[..|rs|] == rs;
    }

    method HarvestPage(env: Env, logId: nat, page: int, p: Page, now: int, seen: set<string>) returns (seen2: set<string>)
      requires Valid() && p.results.Some?
      modifies this, phdRepo, logRepo
      ensures Valid() && (State(), seen2) == Harvest(env, logId, old(State()), seen, page, p, now)
    {
      ghost var w0 := State();
      var rs := p.results.value;
      CountPage(page, |rs|);
      seen2 := SaveListings(env, rs, now, seen);
      ghost var saved := (State(), seen2);
      ReportPage(logId, page, TotalPages(p), now);
      HarvestSteps(env, logId, w0, seen, page, p, now, saved);
    }

    /** `stats.pagesProcessed = page; stats.totalFound += n`. */
    method CountPage(page: int, n: nat)
      requires Valid()
      modifies this
      ensures Valid() && State() == Counted(old(State()), page, n)
    {
      stats := stats.(pages := page, found := stats.found + n);
    }

    /** `updateProgress` and `logProgress` after a page. */
    method ReportPage(logId: nat, page: int, totalPages: Option<int>, now: int)
      requires Valid()
      modifies this, logRepo
      ensures Valid() && State() == Report(old(State()), logId, page, totalPages, now)
    {
      logRepo.UpdateProgress(logId, ToStats(stats));
      logRepo.LogProgress(logId, "Completed page " + IntToString(page), Some(page), totalPages, Some(stats.found), LogTime(now));
      events := events + [PageDone(page, totalPages, stats)];
    }

    /** One pass of the page loop. */
    method CrawlOnce(env: Env, logId: nat, kw: string, page: int, seen: set<string>)
      returns (next: int, more: bool, aborted: bool, seen2: set<string>)
      requires Valid() && 1 <= page <= MaxPage
      modifies this, phdRepo, logRepo
      ensures Valid()
      ensures (if aborted then Abort(State(), seen2) else Next(State(), seen2, next, more))
        == CrawlPage(env, logId, old(State()), seen, kw, page)
    {
      var now := env.clock(|requests|);
      var a := FetchPage(env, kw, page);
      next, aborted, seen2 := page, false, seen;
      if a.Answered? {
        if !HasResults(a.page) {
          more := false;
          return;
        }
        seen2 := HarvestPage(env, logId, page, a.page.value, now, seen);
        next := page + 1;
        more := !Exhausted(a.page.value) && next <= MaxPage;
      } else {
        stats := stats.(errors := stats.errors + 1);
        if a.message.None? {
          aborted, more := true, false;
          return;
        }
        if Transient(a.message.value) {
          var b := FetchPage(env, kw, page);
          more := b.Answered? && HasResults(b.page);
        } else {
          more := true;
        }
      }
    }

    /** `while (hasMorePages)` for one keyword, at most `fuel` passes. */
    method WalkKeyword(env: Env, logId: nat, kw: string, fuel: nat, seen: set<string>) returns (e: Ending, seen2: set<string>)
      requires Valid()
      modifies this, phdRepo, logRepo
      ensures Valid() && Ended(e, State(), seen2) == Walk(env, logId, old(State()), seen, kw, 1, fuel)
    {
      ghost var goal := Walk(env, logId, State(), seen, kw, 1, fuel);
      var page, more, f := 1, true, fuel;
      seen2 := seen;
      while more && f > 0
        invariant Valid() && (more ==> 1 <= page <= MaxPage)
        invariant Rest(env, logId, State(), seen2, kw, page, f, more) == goal
        decreases f
      {
        ghost var before := State();
        var left: nat := f - 1;
        var next, m, aborted, s := CrawlOnce(env, logId, kw, page, seen2);
        WalkStep(env, logId, before, seen2, kw, page, f, left, if aborted then Abort(State(), s) else Next(State(), s, next, m));
        if aborted {
          return Broke, s;
        }
        page, more, seen2, f := next, m, s, left;
      }
      e := if more then Cut else Done;
    }

    /** `_crawlAllPages()`: the keywords in order. */
    method CrawlAllPages(env: Env, logId: nat, fuel: nat) returns (e: Ending, seen: set<string>)
      requires Valid()
      modifies this, phdRepo, logRepo
      ensures Valid() && Ended(e, State(), seen) == Walks(env, logId, old(State()), {}, 0, fuel)
    {
      ghost var goal := Walks(env, logId, State(), {}, 0, fuel);
      seen := {};
      for i := 0 to |Keywords|
        invariant Valid() && Walks(env, logId, State(), seen, i, fuel) == goal
      {
        ghost var w0 := State();
        ghost var o := Walk(env, logId, w0, seen, Keywords[i], 1, fuel);
        assert Walks(env, logId, w0, seen, i, fuel) == if o.Finished? then Walks(env, logId, o.w, o.seen, i + 1, fuel) else o;
        var k, s := WalkKeyword(env, logId, Keywords[i], fuel, seen);
        if k != Done {
          return k, s;
        }
        seen := s;
      }
      e := Done;
    }

    /** `_markDeletedPhDs()`. */
    method MarkDeletedPhDs(env: Env)
      requires Valid()
      modifies this, phdRepo
      ensures Valid() && State() == MarkDeleted(env, old(State()))
    {
      if env.markFails {
        stats := stats.(errors := stats.errors + 1);
        return;
      }
      var active := phdRepo.Active();
      var ids, n := StaleIds(active, env.finish - HourMs);
      assert (set k | k in ids) == Expired(phdRepo.table, env.finish);
      DeleteIds(ids, n);
    }

    method DeleteIds(ids: seq<string>, n: nat)
      requires Valid() && n == |set k | k in ids|
      modifies this, phdRepo
      ensures Valid() && State() == Deleted(old(State()), set k | k in ids)
    {
      if n > 0 {
        var _ := phdRepo.MarkDeleted(Some(ids));
        stats := stats.(deleted := n);
      } else {
        assert (set k | k in ids) == {};
      }
    }

    /** `startFullCrawl(triggerType)`. */
    method StartFullCrawl(env: Env, triggerType: string, fuel: nat) returns (r: Reply)
      requires Valid()
      modifies this, phdRepo, logRepo
      ensures Valid() && (r, State()) == Run(env, triggerType, old(State()), fuel)
    {
      if isRunning {
        return AlreadyRunning;
      }
      Begin();
      if env.startFails {
        return StartRejected;
      }
      var id := OpenLog(triggerType, LogTime(env.start));
      r := SweepAll(env, id, fuel);
    }

    method Begin()
      requires Valid()
      modifies this
      ensures Valid() && State() == Begun(old(State()))
    {
      isRunning := true;
      ResetStats();
    }

    method OpenLog(triggerType: string, now: int) returns (id: nat)
      requires Valid()
      modifies this, logRepo
      ensures Valid() && id == |old(State()).logs| + 1 && State() == Opened(old(State()), triggerType, now)
    {
      id := logRepo.StartCrawl(triggerType, now);
      currentLogId := Some(id);
      events := events + [CrawlStarted(id, triggerType)];
    }

    /** The try block of `startFullCrawl` once log row `id` exists, with its catch and finally blocks. */
    method SweepAll(env: Env, id: nat, fuel: nat) returns (r: Reply)
      requires Valid()
      modifies this, phdRepo, logRepo
      ensures Valid() && (r, State()) == Sweep(env, old(State()), id, fuel)
    {
      var e, _ := CrawlAllPages(env, id, fuel);
      if e == Cut {
        return Unreturned;
      }
      if e == Broke {
        r := FailLog(env, id);
      } else {
        MarkDeletedPhDs(env);
        r := CompleteLog(env, id);
      }
    }

    method FailLog(env: Env, id: nat) returns (r: Reply)
      requires Valid()
      modifies this, logRepo
      ensures Valid() && (r, State()) == Failing(env, old(State()), id)
    {
      logRepo.FailCrawl(id, env.abortError, ToStats(stats), LogTime(env.finish));
      events := events + [RunFailed(id, env.abortError.message, stats)];
      r := CrawlFailed(env.abortError.message, stats);
      isRunning := false;
    }

    method CompleteLog(env: Env, id: nat) returns (r: Reply)
      requires Valid()
      modifies this, logRepo
      ensures Valid() && (r, State()) == Closing(env, old(State()), id)
    {
      logRepo.CompleteCrawl(id, ToStats(stats), LogTime(env.finish));
      events := events + [CrawlCompleted(id, stats, Seconds(env.finish - env.start))];
      r := Succeeded(stats, Seconds(env.finish - env.start));
      isRunning := false;
    }
  }
}
