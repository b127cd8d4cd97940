/**
 * FindAPhD search URLs (src/findaphd/url.js): classification of the bare
 * filter tokens by their prefix, `parse` of a listing URL into keywords,
 * page and tokens, and `build` of a URL from those parts.
 */
module FindaphdUrl {
  import opened Wrappers
  import opened Text
  import opened UriCodec
  import SearchParams
  import Seqs

  datatype Family = Discipline | Subject | Geo | Funding | Unknown

  /** The token families, told apart by a case-insensitive prefix. */
  function ClassifyToken(t: string): (f: Family)
    ensures f == Discipline <==> IsPrefix("10", t)
    ensures f == Subject <==> IsPrefix("30", t)
    ensures f == Geo <==> (|t| > 0 && Lower(t[0]) == 'g')
    ensures f == Funding <==> IsPrefix("01", t)
  {
    if IsPrefix("10", t) then Discipline
    else if IsPrefix("30", t) then Subject
    else if |t| > 0 && Lower(t[0]) == 'g' then Geo
    else if IsPrefix("01", t) then Funding
    else Unknown
  }

  datatype Families = Families(discipline: seq<string>, subject: seq<string>, geo: seq<string>,
                               funding: seq<string>, unknown: seq<string>)
  {
    function Of(f: Family): seq<string>
    {
      match f
      case Discipline => discipline
      case Subject => subject
      case Geo => geo
      case Funding => funding
      case Unknown => unknown
    }
  }

  const NoFamilies := Families([], [], [], [], [])

  /** `families[classifyToken(t).family].push(t)`. */
  function AddToFamily(fs: Families, t: string): (r: Families)
    ensures r.Of(ClassifyToken(t)) == fs.Of(ClassifyToken(t)) + [t]
    ensures forall f :: f != ClassifyToken(t) ==> r.Of(f) == fs.Of(f)
  {
    match ClassifyToken(t)
    case Discipline => fs.(discipline := fs.discipline + [t])
    case Subject => fs.(subject := fs.subject + [t])
    case Geo => fs.(geo := fs.geo + [t])
    case Funding => fs.(funding := fs.funding + [t])
    case Unknown => fs.(unknown := fs.unknown + [t])
  }

  /** The tokens of `ts` that fall in family `f`, in order. */
  function OfFamily(ts: seq<string>, f: Family): seq<string>
  {
    if ts == [] then [] else OfFamily(ts[..|ts| - 1], f) + (if ClassifyToken(ts[|ts| - 1]) == f then [ts[|ts| - 1]] else [])
  }

  /** Classifying tokens one by one into `families`. */
  function Classify(ts: seq<string>): (r: Families)
    ensures forall f :: r.Of(f) == OfFamily(ts, f)
  {
    if ts == [] then NoFamilies else AddToFamily(Classify(ts[..|ts| - 1]), ts[|ts| - 1])
  }

  /** What `Number(text)` gives for the `PG` value, where the model computes it. */
  datatype PageValue = NoPage | PageNumber(n: int) | NotAnInteger(text: string)

  /** `Number(s)` for the texts the model reads: optional sign and decimal digits, after trimming. */
  function NumberOf(s: string): (r: PageValue)
    ensures r != NoPage
  {
    var t := Trim(s);
    if t == "" then PageNumber(0)
    else if AllDigits(t) then PageNumber(DigitsValue(t))
    else if (t[0] == '-' || t[0] == '+') && |t| > 1 && AllDigits(t[1..]) then
      PageNumber(if t[0] == '-' then -(DigitsValue(t[1..]) as int) else DigitsValue(t[1..]))
    else NotAnInteger(t)
  }

  /** `Number(String(p))` is `p` again. */
  lemma NumberOfIntToString(p: int)
    ensures NumberOf(IntToString(p)) == PageNumber(p)
  {
    var s := IntToString(p);
    assert !IsSpace(s[0]) && !IsSpace(s[|s| - 1]);
    TrimmedIsFixed(s);
    if p < 0 {
      assert !AllDigits(s);
    }
  }

  datatype Parsed = Parsed(base: string, keywords: Option<string>, page: PageValue,
                           tokens: seq<string>, families: Families)

  /**
   * The parts of an absolute URL that parse reads: the text before the
   * query (origin and path) and the query without its `?`; a fragment is dropped.
   */
  function SplitUrl(url: string): (r: (string, string))
    ensures '?' !in r.0 && '#' !in r.0 && '#' !in r.1
  {
    var noFragment := SearchParams.SplitFirst(url, '#').0;
    var t := SearchParams.SplitFirst(noFragment, '?');
    assert forall k :: 0 <= k < |t.1.GetOr("")| ==> t.1.GetOr("")[k] in noFragment;
    (t.0, t.1.GetOr(""))
  }

  /** The bare (`=`-free) segments of a raw query, each decoded with `decodeURIComponent`. */
  function BareTokens(segs: seq<string>): Result<seq<string>>
  {
    if segs == [] then Ok([])
    else
      var seg := segs[0];
      match BareTokens(segs[1..])
      case Err(m) => Err(m)
      case Ok(ts) =>
        if seg == "" || '=' in seg then Ok(ts)
        else match DecodeComponent(seg)
          case None => Err("URI malformed")
          case Some(t) => Ok([t] + ts)
  }

  /** `parse(url)`. */
  function Parse(url: string): Result<Parsed>
  {
    var (base, raw) := SplitUrl(url);
    match SearchParams.Parse(raw)
    case None => Err("named parameter is not valid UTF-8")
    case Some(ps) =>
      var k := SearchParams.Get(ps, "Keywords");
      var pg := SearchParams.Get(ps, "PG");
      var keywords := if Truthy(k) then k else None;
      var page := if Truthy(pg) then NumberOf(pg.value) else NoPage;
      match (if raw != "" then BareTokens(Split(raw, '&')) else Ok([]))
      case Err(m) => Err(m)
      case Ok(ts) => Ok(Parsed(base, keywords, page, ts, Classify(ts)))
  }

  const DefaultBase := "https://www.findaphd.com/phds/"

  datatype BuildArgs = BuildArgs(base: Option<string>, pathSegments: seq<string>, keywords: Option<string>,
                                 page: Option<int>, tokens: seq<string>)

  function EncodeAll(ss: seq<string>): (r: seq<string>)
    ensures |r| == |ss|
    ensures forall k :: 0 <= k < |r| ==> r[k] == EncodeComponent(ss[k])
  {
    if ss == [] then [] else [EncodeComponent(ss[0])] + EncodeAll(ss[1..])
  }

  /** `base.replace(/\/?$/, '/')`: exactly one slash at the end. */
  function WithTrailingSlash(base: string): (r: string)
    ensures |r| > 0 && r[|r| - 1] == '/'
    ensures r == base || r == base + "/"
  {
    if |base| > 0 && base[|base| - 1] == '/' then base else base + "/"
  }

  function BuildPath(a: BuildArgs): string
  {
    WithTrailingSlash(a.base.GetOr(DefaultBase)) + Join(EncodeAll(a.pathSegments), '/')
      + (if |a.pathSegments| > 0 then "/" else "")
  }

  /** The named parameters, in the order `build` sets them. */
  function NamedParams(a: BuildArgs): seq<SearchParams.Param>
  {
    (if Truthy(a.keywords) then [SearchParams.Param("Keywords", a.keywords.value)] else [])
    + (if a.page.Some? && a.page.value != 0 then [SearchParams.Param("PG", IntToString(a.page.value))] else [])
  }

  function BuildQuery(a: BuildArgs): string
  {
    Query(NamedParams(a), a.tokens)
  }

  /** The serialised named parameters and the joined encoded tokens, glued with `&` when both are non-empty. */
  function Query(named: seq<SearchParams.Param>, ts: seq<string>): string
  {
    var query := SearchParams.Serialize(named);
    var bare := Join(EncodeAll(ts), '&');
    if bare != "" && query != "" then query + "&" + bare
    else if bare != "" then bare
    else query
  }


  /** `build(args)`. */
  function Build(a: BuildArgs): (url: string)
    ensures IsPrefix(BuildPath(a), url)
  {
    var path := BuildPath(a);
    var query := BuildQuery(a);
    PrefixOfConcat(path, "?" + query);
    if query != "" then path + ("?" + query) else path
  }

  /** A URL built on a base ending in `/` starts with that base. */
  lemma BuildOnBase(a: BuildArgs)
    requires var b := a.base.GetOr(DefaultBase); |b| > 0 && b[|b| - 1] == '/'
    ensures IsPrefix(a.base.GetOr(DefaultBase), Build(a))
  {
    var b := a.base.GetOr(DefaultBase);
    PrefixOfConcat(b, Join(EncodeAll(a.pathSegments), '/') + (if |a.pathSegments| > 0 then "/" else ""));
    assert BuildPath(a) == b + (Join(EncodeAll(a.pathSegments), '/') + (if |a.pathSegments| > 0 then "/" else ""));
    PrefixTransitive(b, BuildPath(a), Build(a));
  }

  /** The tokens that are not empty, in order. */
  function NonEmpty(ts: seq<string>): (r: seq<string>)
    ensures forall k :: 0 <= k < |r| ==> r[k] != "" && r[k] in ts
  {
    if ts == [] then [] else (if ts[0] == "" then [] else [ts[0]]) + NonEmpty(ts[1..])
  }

  /** Tokens that are all non-empty are kept as they are. */
  lemma {:induction false} NonEmptyKeepsAll(ts: seq<string>)
    requires forall k :: 0 <= k < |ts| ==> ts[k] != ""
    ensures NonEmpty(ts) == ts
  {
    if ts != [] {
      NonEmptyKeepsAll(ts[1..]);
      assert [ts[0]] + ts[1..] == ts;
    }
  }

  /** How `URLSearchParams` sees the bare tokens: each a name with an empty value. */
  function BareParams(ts: seq<string>): (r: seq<SearchParams.Param>)
    ensures forall k :: 0 <= k < |r| ==> r[k].value == ""
  {
    if ts == [] then [] else (if ts[0] == "" then [] else [SearchParams.Param(ts[0], "")]) + BareParams(ts[1..])
  }

  predicate Avoids(xs: seq<string>, c: char) { forall k :: 0 <= k < |xs| ==> c !in xs[k] }

  lemma {:induction false} JoinAvoids(xs: seq<string>, sep: char, c: char)
    requires Avoids(xs, c) && sep != c
    ensures c !in Join(xs, sep)
    decreases |xs|
  {
    if |xs| > 1 {
      JoinAvoids(xs[1..], sep, c);
    }
  }

  lemma {:induction false} JoinAppend(xs: seq<string>, ys: seq<string>, sep: char)
    requires |xs| > 0 && |ys| > 0
    ensures Join(xs + ys, sep) == Join(xs, sep) + [sep] + Join(ys, sep)
    decreases |xs|
  {
    if |xs| == 1 {
      assert (xs + ys)[1..] == ys;
    } else {
      assert (xs + ys)[1..] == xs[1..] + ys;
      JoinAppend(xs[1..], ys, sep);
    }
  }

  /** Only the empty list and the list of one empty string join to the empty string. */
  lemma JoinEmpty(xs: seq<string>, sep: char)
    requires Join(xs, sep) == ""
    ensures |xs| <= 1 && (|xs| == 1 ==> xs[0] == "")
  {
  }

  lemma EncodedAvoids(ss: seq<string>, c: char)
    requires !UriUnreserved(c) && c != '%'
    ensures Avoids(EncodeAll(ss), c)
  {
    forall k | 0 <= k < |ss| ensures c !in EncodeAll(ss)[k] {
      var e := EncodeComponent(ss[k]);
      assert forall j :: 0 <= j < |e| ==> e[j] != c;
    }
  }

  lemma PiecesAvoid(ps: seq<SearchParams.Param>)
    ensures Avoids(SearchParams.Pieces(ps), '#')
  {
    forall k | 0 <= k < |ps| ensures '#' !in SearchParams.Pieces(ps)[k] {
      assert SearchParams.Pieces(ps)[k] == SearchParams.Piece(ps[k]);
    }
  }

  /** The query segments `build` writes: the named parameters, then the encoded tokens. */
  function QuerySegments(named: seq<SearchParams.Param>, ts: seq<string>): seq<string>
  {
    var bare := Join(EncodeAll(ts), '&');
    SearchParams.Pieces(named) + (if bare != "" then EncodeAll(ts) else [])
  }

  lemma QueryJoins(ps: seq<SearchParams.Param>, ts: seq<string>)
    ensures QuerySegments(ps, ts) == [] ==> Query(ps, ts) == ""
    ensures QuerySegments(ps, ts) != [] ==> Query(ps, ts) == Join(QuerySegments(ps, ts), '&')
    ensures QuerySegments(ps, ts) == [] ==> NonEmpty(ts) == [] && BareParams(ts) == []
  {
    var named := SearchParams.Pieces(ps);
    var enc := EncodeAll(ts);
    var bare := Join(enc, '&');
    if bare != "" && named != [] {
      JoinAppend(named, enc, '&');
    } else if bare != "" {
      assert QuerySegments(ps, ts) == enc;
    } else {
      JoinEmpty(enc, '&');
      assert QuerySegments(ps, ts) == named;
      if |ts| == 1 {
        assert ts[0] == "";
        assert NonEmpty(ts) == [] + NonEmpty(ts[1..]);
        assert BareParams(ts) == [] + BareParams(ts[1..]);
      }
    }
  }

  lemma {:induction false} ParseSegmentsPieces(ps: seq<SearchParams.Param>, rest: seq<string>, r: seq<SearchParams.Param>)
    requires SearchParams.ParseSegments(rest) == Some(r)
    ensures SearchParams.ParseSegments(SearchParams.Pieces(ps) + rest) == Some(ps + r)
    decreases |ps|
  {
    if ps == [] {
      assert SearchParams.Pieces(ps) + rest == rest;
      assert ps + r == r;
    } else {
      SearchParams.PiecesCons(ps, rest);
      ParseSegmentsPieces(ps[1..], rest, r);
      SearchParams.PiecePairRoundTrip(ps[0]);
      SearchParams.ParseSegmentsCons(SearchParams.Piece(ps[0]), ps[0], SearchParams.Pieces(ps[1..]) + rest, ps[1..] + r);
      Seqs.HeadTailAppend(ps, r);
    }
  }

  lemma ParsePairBare(t: string)
    requires t != ""
    ensures SearchParams.ParsePair(EncodeComponent(t)) == Some(SearchParams.Param(t, ""))
  {
    var e := EncodeComponent(t);
    assert forall j :: 0 <= j < |e| ==> e[j] != '=';
    SearchParams.SplitFirstAbsent(e, '=');
    FormDecodeOfComponent(t);
    assert FormDecode("") == Some("");
  }

  lemma {:induction false} ParseSegmentsBare(ts: seq<string>)
    ensures SearchParams.ParseSegments(EncodeAll(ts)) == Some(BareParams(ts))
    decreases |ts|
  {
    if ts != [] {
      var segs := EncodeAll(ts);
      assert segs[1..] == EncodeAll(ts[1..]);
      ParseSegmentsBare(ts[1..]);
      var rest := BareParams(ts[1..]);
      assert SearchParams.ParseSegments(segs[1..]) == Some(rest);
      if ts[0] != "" {
        ParsePairBare(ts[0]);
        assert segs[0] == EncodeComponent(ts[0]) != "";
        assert SearchParams.ParsePair(segs[0]) == Some(SearchParams.Param(ts[0], ""));
        assert SearchParams.ParseSegments(segs) == Some([SearchParams.Param(ts[0], "")] + rest);
      } else {
        assert segs[0] == "";
        assert SearchParams.ParseSegments(segs) == Some(rest);
        assert BareParams(ts) == [] + rest == rest;
      }
    }
  }

  lemma {:induction false} BareTokensPieces(ps: seq<SearchParams.Param>, rest: seq<string>)
    ensures BareTokens(SearchParams.Pieces(ps) + rest) == BareTokens(rest)
    decreases |ps|
  {
    if ps == [] {
      assert SearchParams.Pieces(ps) + rest == rest;
    } else {
      var segs := SearchParams.Pieces(ps) + rest;
      assert segs[0] == SearchParams.Piece(ps[0]);
      assert segs[1..] == SearchParams.Pieces(ps[1..]) + rest;
      BareTokensPieces(ps[1..], rest);
    }
  }

  lemma BareTokenDecodes(t: string)
    requires t != ""
    ensures EncodeComponent(t) != "" && '=' !in EncodeComponent(t)
    ensures DecodeComponent(EncodeComponent(t)) == Some(t)
  {
    var e := EncodeComponent(t);
    assert forall j :: 0 <= j < |e| ==> e[j] != '=';
    DecodeEncodeComponent(t);
  }

  lemma {:induction false} BareTokensEncoded(ts: seq<string>)
    ensures BareTokens(EncodeAll(ts)) == Ok(NonEmpty(ts))
    decreases |ts|
  {
    if ts != [] {
      var segs := EncodeAll(ts);
      assert segs[1..] == EncodeAll(ts[1..]);
      BareTokensEncoded(ts[1..]);
      var rest := NonEmpty(ts[1..]);
      assert BareTokens(segs[1..]) == Ok(rest);
      if ts[0] != "" {
        BareTokenDecodes(ts[0]);
        assert BareTokens(segs) == Ok([ts[0]] + rest);
      } else {
        assert segs[0] == "";
        assert BareTokens(segs) == Ok(rest);
        assert NonEmpty(ts) == [] + rest == rest;
      }
    }
  }

  /** The empty-token cases: tokens that encode to nothing give no segment and no parameter. */
  lemma EmptyBare(ts: seq<string>)
    requires Join(EncodeAll(ts), '&') == ""
    ensures NonEmpty(ts) == [] && BareParams(ts) == []
  {
    JoinEmpty(EncodeAll(ts), '&');
    if |ts| == 1 {
      assert ts[0] == "";
      assert NonEmpty(ts) == [] + NonEmpty(ts[1..]);
      assert BareParams(ts) == [] + BareParams(ts[1..]);
    }
  }

  /** The path holds no `?` or `#`. */
  lemma PathAvoids(a: BuildArgs)
    requires '?' !in a.base.GetOr(DefaultBase) && '#' !in a.base.GetOr(DefaultBase)
    ensures '?' !in BuildPath(a) && '#' !in BuildPath(a)
  {
    EncodedAvoids(a.pathSegments, '?');
    EncodedAvoids(a.pathSegments, '#');
    JoinAvoids(EncodeAll(a.pathSegments), '/', '?');
    JoinAvoids(EncodeAll(a.pathSegments), '/', '#');
  }

  /** No query segment holds `#`, so neither does the query. */
  lemma QueryAvoids(ps: seq<SearchParams.Param>, ts: seq<string>)
    ensures '#' !in Query(ps, ts)
  {
    var segs := QuerySegments(ps, ts);
    EncodedAvoids(ts, '#');
    PiecesAvoid(ps);
    assert Avoids(segs, '#');
    QueryJoins(ps, ts);
    if segs != [] {
      JoinAvoids(segs, '&', '#');
    }
  }

  /** Splitting a built URL gives its path and its query back. */
  lemma SplitBuild(a: BuildArgs)
    requires '?' !in a.base.GetOr(DefaultBase) && '#' !in a.base.GetOr(DefaultBase)
    ensures SplitUrl(Build(a)) == (BuildPath(a), BuildQuery(a))
  {
    PathAvoids(a);
    QueryAvoids(NamedParams(a), a.tokens);
    SplitGlued(BuildPath(a), BuildQuery(a));
  }

  /** A path without `?` or `#`, then `?` and a query without `#` when the query is non-empty, splits back. */
  lemma SplitGlued(path: string, q: string)
    requires '?' !in path && '#' !in path && '#' !in q
    ensures SplitUrl(if q != "" then path + ("?" + q) else path) == (path, q)
  {
    var url := if q != "" then path + ("?" + q) else path;
    assert '#' !in url;
    SearchParams.SplitFirstAbsent(url, '#');
    if q != "" {
      assert url == path + ['?'] + q;
      SearchParams.SplitFirstGlued(path, '?', q);
    } else {
      SearchParams.SplitFirstAbsent(url, '?');
    }
  }

  /** `URLSearchParams` reads the built query as the named parameters, then the tokens with empty values. */
  lemma QueryParams(ps: seq<SearchParams.Param>, ts: seq<string>)
    ensures SearchParams.Parse(Query(ps, ts)) == Some(ps + BareParams(ts))
  {
    var segs := QuerySegments(ps, ts);
    var enc := EncodeAll(ts);
    var tail: seq<string> := if Join(enc, '&') != "" then enc else [];
    EncodedAvoids(ts, '&');
    QueryJoins(ps, ts);
    if segs != [] {
      SplitJoin(segs, '&');
      if tail != [] {
        ParseSegmentsBare(ts);
      } else {
        EmptyBare(ts);
        assert ps + BareParams(ts) == ps + [];
      }
      ParseSegmentsPieces(ps, tail, BareParams(ts));
    } else {
      assert Split("", '&') == [""];
    }
  }

  /** The raw query's bare segments are the built URL's non-empty tokens. */
  lemma QueryTokens(ps: seq<SearchParams.Param>, ts: seq<string>)
    ensures (if Query(ps, ts) != "" then BareTokens(Split(Query(ps, ts), '&')) else Ok([])) == Ok(NonEmpty(ts))
  {
    var segs := QuerySegments(ps, ts);
    var enc := EncodeAll(ts);
    var tail: seq<string> := if Join(enc, '&') != "" then enc else [];
    EncodedAvoids(ts, '&');
    QueryJoins(ps, ts);
    if segs != [] {
      SplitJoin(segs, '&');
      BareTokensPieces(ps, tail);
      if tail != [] {
        BareTokensEncoded(ts);
      } else {
        EmptyBare(ts);
      }
    }
  }

  /** `get('Keywords')` and `get('PG')` on the parsed query see exactly what `build` set. */
  lemma NamedGets(a: BuildArgs)
    ensures Truthy(a.keywords) ==> SearchParams.Get(NamedParams(a) + BareParams(a.tokens), "Keywords") == a.keywords
    ensures !Truthy(a.keywords) ==> !Truthy(SearchParams.Get(NamedParams(a) + BareParams(a.tokens), "Keywords"))
    ensures a.page.Some? && a.page.value != 0 ==>
              SearchParams.Get(NamedParams(a) + BareParams(a.tokens), "PG") == Some(IntToString(a.page.value))
    ensures !(a.page.Some? && a.page.value != 0) ==> !Truthy(SearchParams.Get(NamedParams(a) + BareParams(a.tokens), "PG"))
  {
    var named := NamedParams(a);
    var bareParams := BareParams(a.tokens);
    SearchParams.GetAppend(named, bareParams, "Keywords");
    SearchParams.GetAppend(named, bareParams, "PG");
    assert !Truthy(SearchParams.Get(bareParams, "Keywords"));
    assert !Truthy(SearchParams.Get(bareParams, "PG"));
  }

  /**
   * The round trip of the URL helpers: parsing a built URL recovers its
   * path, its keywords (when truthy), its page (when non-zero), and
   * its non-empty tokens in order, each in its family.
   */
  lemma BuildThenParse(a: BuildArgs)
    requires '?' !in a.base.GetOr(DefaultBase) && '#' !in a.base.GetOr(DefaultBase)
    ensures Parse(Build(a)) == Ok(Parsed(
              BuildPath(a),
              if Truthy(a.keywords) then a.keywords else None,
              if a.page.Some? && a.page.value != 0 then PageNumber(a.page.value) else NoPage,
              NonEmpty(a.tokens),
              Classify(NonEmpty(a.tokens))))
  {
    SplitBuild(a);
    QueryParams(NamedParams(a), a.tokens);
    QueryTokens(NamedParams(a), a.tokens);
    NamedGets(a);
    if a.page.Some? && a.page.value != 0 {
      NumberOfIntToString(a.page.value);
    }
  }
}
