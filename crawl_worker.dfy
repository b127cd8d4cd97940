/**
 * The crawl worker (src/workers/crawlWorker.js): project links are pulled
 * out of a listing page with a global regular expression, kept once each in
 * first-seen order and cut to 50; `handleJob` wraps fetching, parsing and
 * extraction into an ok or error record. The HTTPS fetch is a parameter.
 */
module CrawlWorker {
  import opened Wrappers
  import opened Text
  import Seqs
  import FindaphdUrl

  const ProjectPrefix := "https://www.findaphd.com/phds/project/"
  const MaxProjects: nat := 50

  predicate IsQuote(c: char) { c == '"' || c == '\'' }

  /** The end of the run of non-quote characters starting at `i`. */
  function RunEnd(s: string, i: nat): (e: nat)
    requires i <= |s|
    ensures i <= e <= |s|
    ensures forall k :: i <= k < e ==> !IsQuote(s[k])
    ensures e < |s| ==> IsQuote(s[e])
    decreases |s| - i
  {
    if i == |s| || IsQuote(s[i]) then i else RunEnd(s, i + 1)
  }

  /**
   * Where a match of the literal `p` followed by `[^"']+` starting at `i`
   * ends, if one starts there (the regular expression of `extractProjects`
   * is this pattern with `p` the project prefix).
   */
  function MatchAt(p: string, s: string, i: nat): (r: Option<nat>)
    requires i <= |s|
    ensures r.Some? ==> i + |p| < r.value <= |s|
  {
    if IsPrefix(p, s[i..]) then
      var e := RunEnd(s, i + |p|);
      if e > i + |p| then Some(e) else None
    else None
  }

  /** The leftmost match at or after `i`, as `regex.exec` finds it from `lastIndex = i`. */
  function NextMatch(p: string, s: string, i: nat): (r: Option<(nat, nat)>)
    requires i <= |s|
    ensures r.Some? ==> i <= r.value.0 <= |s| && MatchAt(p, s, r.value.0) == Some(r.value.1)
    ensures r.Some? ==> forall k :: i <= k < r.value.0 ==> MatchAt(p, s, k).None?
    ensures r.None? ==> forall k :: i <= k <= |s| ==> MatchAt(p, s, k).None?
    decreases |s| - i
  {
    match MatchAt(p, s, i)
    case Some(e) => Some((i, e))
    case None => if i == |s| then None else NextMatch(p, s, i + 1)
  }

  /** Every match the global regular expression finds from position `i` on, in order. */
  function Matches(p: string, s: string, i: nat): seq<string>
    requires i <= |s|
    decreases |s| - i
  {
    match NextMatch(p, s, i)
    case None => []
    case Some((st, en)) => [s[st..en]] + Matches(p, s, en)
  }

  /** Unfolding `Matches` once at a match. */
  lemma MatchesStep(p: string, s: string, i: nat, st: nat, en: nat)
    requires i <= |s| && NextMatch(p, s, i) == Some((st, en))
    ensures en <= |s| && Matches(p, s, i) == [s[st..en]] + Matches(p, s, en)
  {
  }

  /** A link of the pattern: the literal `p`, then at least one character, none of them a quote. */
  predicate IsLink(p: string, u: string)
  {
    IsPrefix(p, u) && |u| > |p| && forall k :: |p| <= k < |u| ==> !IsQuote(u[k])
  }

  lemma MatchIsLink(p: string, s: string, st: nat, en: nat)
    requires st <= |s| && MatchAt(p, s, st) == Some(en)
    ensures IsLink(p, s[st..en])
  {
    var u := s[st..en];
    assert u[..|p|] == s[st..][..|p|];
    assert forall k :: |p| <= k < |u| ==> u[k] == s[st + k];
  }

  /** Every match is a link of the pattern. */
  lemma {:induction false} MatchesAreLinks(p: string, s: string, i: nat)
    requires i <= |s|
    ensures forall k :: 0 <= k < |Matches(p, s, i)| ==> IsLink(p, Matches(p, s, i)[k])
    decreases |s| - i
  {
    match NextMatch(p, s, i)
    case None =>
    case Some((st, en)) =>
      MatchIsLink(p, s, st, en);
      MatchesAreLinks(p, s, en);
  }

  /** `Array.from(links).slice(0, 50)` for the set `links` filled from the matches of `p`. */
  function Collected(p: string, html: string): seq<string>
  {
    Seqs.Take(Seqs.Dedupe(Matches(p, html, 0)), MaxProjects)
  }

  /** The project links of a page. */
  function Projects(html: string): seq<string>
  {
    Collected(ProjectPrefix, html)
  }

  /** The collected links are links of the pattern, listed once each, at most 50 of them, and each is a match of the page. */
  lemma CollectedShape(p: string, html: string)
    ensures |Collected(p, html)| <= MaxProjects
    ensures Seqs.Distinct(Collected(p, html))
    ensures forall k :: 0 <= k < |Collected(p, html)| ==> IsLink(p, Collected(p, html)[k]) && Collected(p, html)[k] in Matches(p, html, 0)
  {
    var ms := Matches(p, html, 0);
    var d := Seqs.Dedupe(ms);
    MatchesAreLinks(p, html, 0);
    Seqs.TakeDistinct(d, MaxProjects);
    forall k | 0 <= k < |Collected(p, html)|
      ensures IsLink(p, Collected(p, html)[k]) && Collected(p, html)[k] in ms
    {
      assert Collected(p, html)[k] == d[k];
      assert d[k] in ms;
      var j :| 0 <= j < |ms| && ms[j] == d[k];
    }
  }

  /** The collected links keep the order of their first occurrences on the page. */
  lemma CollectedOrder(p: string, html: string, i: nat, j: nat)
    requires i < j < |Collected(p, html)|
    ensures Collected(p, html)[i] in Matches(p, html, 0) && Collected(p, html)[j] in Matches(p, html, 0)
    ensures Seqs.FirstIndex(Matches(p, html, 0), Collected(p, html)[i]) < Seqs.FirstIndex(Matches(p, html, 0), Collected(p, html)[j])
  {
    var d := Seqs.Dedupe(Matches(p, html, 0));
    assert Collected(p, html)[i] == d[i] && Collected(p, html)[j] == d[j];
    Seqs.DedupeFirstOccurrence(Matches(p, html, 0), i, j);
  }

  /** One `regex.exec` call moves one match from the matches ahead to those seen. */
  lemma CollectStep(p: string, html: string, seen: seq<string>, i: nat, st: nat, en: nat)
    requires i <= |html| && NextMatch(p, html, i) == Some((st, en))
    requires seen + Matches(p, html, i) == Matches(p, html, 0)
    ensures en <= |html| && (seen + [html[st..en]]) + Matches(p, html, en) == Matches(p, html, 0)
  {
    MatchesStep(p, html, i, st, en);
    assert seen + ([html[st..en]] + Matches(p, html, en)) == (seen + [html[st..en]]) + Matches(p, html, en);
  }

  /** The `regex.exec` loop adding each match of `p` to a set, then the first 50. */
  method Collect(p: string, html: string) returns (links: seq<string>)
    ensures links == Collected(p, html)
  {
    links := [];
    ghost var seen: seq<string> := [];
    var lastIndex := 0;
    var m := NextMatch(p, html, lastIndex);
    while m.Some?
      invariant lastIndex <= |html|
      invariant m == NextMatch(p, html, lastIndex)
      invariant seen + Matches(p, html, lastIndex) == Matches(p, html, 0)
      invariant links == Seqs.Dedupe(seen)
      decreases |html| - lastIndex
    {
      var (st, en) := m.value;
      var link := html[st..en];
      Seqs.DedupeSnoc(seen, link);
      if link !in links {
        links := links + [link];
      }
      CollectStep(p, html, seen, lastIndex, st, en);
      seen := seen + [link];
      lastIndex := en;
      m := NextMatch(p, html, lastIndex);
    }
    assert seen == Matches(p, html, 0);
    links := if |links| > MaxProjects then links[..MaxProjects] else links;
  }

  /** `extractProjects(html)`. */
  method ExtractProjects(html: string) returns (projects: seq<string>)
    ensures projects == Projects(html)
  {
    projects := Collect(ProjectPrefix, html);
  }

  /** What the HTTPS fetch gave: the page body, or the message of the error it threw. */
  datatype Fetch = Fetched(html: string) | FetchFailed(message: string)

  /**
   * What one `https.get` request ends in: a response with its status code,
   * its `location` header (empty when absent) and its body, or a request
   * error (a timeout destroys the request with the error "Timeout").
   */
  datatype Response = Response(status: int, location: string, body: string) | RequestError(message: string)

  /** A response `fetchUrl` follows: a 3xx status with a `location` header. */
  predicate IsRedirect(r: Response)
  {
    r.Response? && 300 <= r.status < 400 && r.location != ""
  }

  /**
   * `fetchUrl(url)`, given the responses to the successive requests of its
   * redirect chain; `None` when the chain has not settled within them.
   */
  function FetchUrl(rs: seq<Response>): (r: Option<Fetch>)
    ensures r.Some? <==> exists i :: 0 <= i < |rs| && !IsRedirect(rs[i]) && forall j :: 0 <= j < i ==> IsRedirect(rs[j])
    ensures r.Some? && r.value.Fetched? ==>
              exists i :: 0 <= i < |rs| && rs[i].Response? && rs[i].status == 200 && rs[i].body == r.value.html
                          && forall j :: 0 <= j < i ==> IsRedirect(rs[j])
  {
    if rs == [] then None
    else match rs[0]
      case RequestError(m) => Some(FetchFailed(m))
      case Response(status, location, body) =>
        if IsRedirect(rs[0]) then
          var r := FetchUrl(rs[1..]);
          assert forall i :: 1 <= i < |rs| ==> rs[i] == rs[1..][i - 1];
          r
        else if status != 200 then Some(FetchFailed("Status " + IntToString(status)))
        else Some(Fetched(body))
  }

  /** The first response that is not a redirect decides the outcome: its body for 200, else its error. */
  lemma {:induction false} FetchDecided(rs: seq<Response>, i: nat)
    requires i < |rs| && !IsRedirect(rs[i]) && forall j :: 0 <= j < i ==> IsRedirect(rs[j])
    ensures rs[i].RequestError? ==> FetchUrl(rs) == Some(FetchFailed(rs[i].message))
    ensures rs[i].Response? && rs[i].status == 200 ==> FetchUrl(rs) == Some(Fetched(rs[i].body))
    ensures rs[i].Response? && rs[i].status != 200 ==> FetchUrl(rs) == Some(FetchFailed("Status " + IntToString(rs[i].status)))
    decreases i
  {
    if i > 0 {
      FetchDecided(rs[1..], i - 1);
    }
  }

  datatype JobResult =
    | JobOk(url: string, listing: FindaphdUrl.Parsed, count: nat, projects: seq<string>)
    | JobError(url: string, error: string)

  /** `handleJob({url})`, given what fetching `url` gives: fetch, then parse the url, then extract. */
  function HandleJob(url: string, fetched: Fetch): (r: JobResult)
    ensures r.url == url
    ensures r.JobError? <==> fetched.FetchFailed? || FindaphdUrl.Parse(url).Err?
    ensures fetched.FetchFailed? ==> r == JobError(url, fetched.message)
    ensures r.JobOk? ==> r.count == |r.projects| && r.projects == Projects(fetched.html)
                         && r.listing == FindaphdUrl.Parse(url).value
  {
    match fetched
    case FetchFailed(msg) => JobError(url, msg)
    case Fetched(html) =>
      match FindaphdUrl.Parse(url)
      case Err(msg) => JobError(url, msg)
      case Ok(listing) =>
        var ps := Projects(html);
        JobOk(url, listing, |ps|, ps)
  }
}
