/**
 * `URLSearchParams`: a list of name/value pairs, its `toString()` and its
 * parsing of a query string, and `get(name)`.
 */
module SearchParams {
  import opened Wrappers
  import opened Text
  import opened UriCodec
  import Seqs

  datatype Param = Param(name: string, value: string)

  /** `name=value`, both form-encoded. */
  function Piece(p: Param): (r: string)
    ensures '&' !in r && '#' !in r
    ensures '=' in r
  {
    var n := FormEncode(p.name);
    var v := FormEncode(p.value);
    FormEncodeAvoids(p.name, '&');
    FormEncodeAvoids(p.name, '#');
    FormEncodeAvoids(p.value, '&');
    FormEncodeAvoids(p.value, '#');
    assert (n + "=" + v)[|n|] == '=';
    n + "=" + v
  }

  lemma FormEncodeAvoids(s: string, c: char)
    requires !FormSafe(c) && c != '+' && c != '%'
    ensures c !in FormEncode(s)
  {
    var e := FormEncode(s);
    assert forall k :: 0 <= k < |e| ==> e[k] != c;
  }

  function Pieces(ps: seq<Param>): (r: seq<string>)
    ensures |r| == |ps|
    ensures forall k :: 0 <= k < |r| ==> r[k] == Piece(ps[k])
  {
    if ps == [] then [] else [Piece(ps[0])] + Pieces(ps[1..])
  }

  /** `params.toString()`. */
  function Serialize(ps: seq<Param>): string
  {
    Join(Pieces(ps), '&')
  }

  /** Splits at the first `c`: the text before it, and the text after it if there is one. */
  function SplitFirst(s: string, c: char): (r: (string, Option<string>))
    ensures c !in r.0
    ensures r.1.None? ==> r.0 == s
    ensures r.1.Some? ==> s == r.0 + [c] + r.1.value
    decreases |s|
  {
    if s == [] then ("", None)
    else if s[0] == c then ("", Some(s[1..]))
    else
      var t := SplitFirst(s[1..], c);
      ([s[0]] + t.0, t.1)
  }

  lemma {:induction false} SplitFirstAbsent(s: string, c: char)
    requires c !in s
    ensures SplitFirst(s, c) == (s, None)
    decreases |s|
  {
    if s != [] {
      SplitFirstAbsent(s[1..], c);
      assert [s[0]] + s[1..] == s;
    }
  }

  /** Splitting at the first separator recovers a separator-free head. */
  lemma {:induction false} SplitFirstGlued(a: string, c: char, b: string)
    requires c !in a
    ensures SplitFirst(a + [c] + b, c) == (a, Some(b))
    decreases |a|
  {
    if a == [] {
      assert a + [c] + b == [c] + b;
    } else {
      assert (a + [c] + b)[1..] == a[1..] + [c] + b;
      SplitFirstGlued(a[1..], c, b);
      assert [a[0]] + a[1..] == a;
    }
  }

  /** One `name=value` sequence of the query: a missing `=` gives an empty value. */
  function ParsePair(seg: string): Option<Param>
  {
    var t := SplitFirst(seg, '=');
    match (FormDecode(t.0), FormDecode(t.1.GetOr("")))
    case (Some(n), Some(v)) => Some(Param(n, v))
    case _ => None
  }

  /** The pairs of a query split on `&`; empty sequences are skipped. */
  function ParseSegments(segs: seq<string>): Option<seq<Param>>
  {
    if segs == [] then Some([])
    else
      match ParseSegments(segs[1..])
      case None => None
      case Some(rest) =>
        if segs[0] == "" then Some(rest)
        else match ParsePair(segs[0])
          case None => None
          case Some(p) => Some([p] + rest)
  }

  /** A well-formed non-empty sequence in front adds its pair in front of the rest's pairs. */
  lemma ParseSegmentsCons(seg: string, p: Param, rest: seq<string>, r: seq<Param>)
    requires seg != "" && ParsePair(seg) == Some(p) && ParseSegments(rest) == Some(r)
    ensures ParseSegments([seg] + rest) == Some([p] + r)
  {
    assert ([seg] + rest)[0] == seg;
    assert ([seg] + rest)[1..] == rest;
  }

  lemma PiecesCons(ps: seq<Param>, rest: seq<string>)
    requires |ps| > 0
    ensures Pieces(ps) + rest == [Piece(ps[0])] + (Pieces(ps[1..]) + rest)
  {
  }

  /** `new URLSearchParams(query)` for a query without its `?`. */
  function Parse(query: string): Option<seq<Param>>
  {
    ParseSegments(Split(query, '&'))
  }

  /** `params.get(name)`: the value of the first pair with that name. */
  function Get(ps: seq<Param>, name: string): (r: Option<string>)
    ensures r.Some? <==> exists k :: 0 <= k < |ps| && ps[k].name == name
    ensures r.Some? ==> exists k :: 0 <= k < |ps| && ps[k].name == name && ps[k].value == r.value
                         && forall j :: 0 <= j < k ==> ps[j].name != name
  {
    if ps == [] then None
    else if ps[0].name == name then Some(ps[0].value)
    else
      var r := Get(ps[1..], name);
      assert forall k :: 1 <= k < |ps| ==> ps[k] == ps[1..][k - 1];
      r
  }

  lemma PiecePairRoundTrip(p: Param)
    ensures ParsePair(Piece(p)) == Some(p)
  {
    var n := FormEncode(p.name);
    var v := FormEncode(p.value);
    assert n + "=" + v == n + ['='] + v;
    SplitFirstGlued(n, '=', v);
    FormRoundTrip(p.name);
    FormRoundTrip(p.value);
  }

  lemma {:induction false} SegmentsRoundTrip(ps: seq<Param>)
    ensures ParseSegments(Pieces(ps)) == Some(ps)
    decreases |ps|
  {
    if ps != [] {
      SegmentsRoundTrip(ps[1..]);
      PiecePairRoundTrip(ps[0]);
      assert Piece(ps[0]) != "";
      ParseSegmentsCons(Piece(ps[0]), ps[0], Pieces(ps[1..]), ps[1..]);
      assert Pieces(ps) == [Piece(ps[0])] + Pieces(ps[1..]);
      assert [ps[0]] + ps[1..] == ps;
    }
  }

  /** Parsing a serialized parameter list gives the same list back. */
  lemma QueryRoundTrip(ps: seq<Param>)
    ensures Parse(Serialize(ps)) == Some(ps)
  {
    if ps == [] {
      assert Serialize(ps) == "";
      assert Split("", '&') == [""];
    } else {
      SplitJoin(Pieces(ps), '&');
      SegmentsRoundTrip(ps);
    }
  }

  /** `get` on two lists appended: the first list's pair wins. */
  lemma {:induction false} GetAppend(xs: seq<Param>, ys: seq<Param>, name: string)
    ensures Get(xs + ys, name) == if Get(xs, name).Some? then Get(xs, name) else Get(ys, name)
    decreases |xs|
  {
    if xs == [] {
      assert xs + ys == ys;
    } else {
      assert (xs + ys)[1..] == xs[1..] + ys;
      GetAppend(xs[1..], ys, name);
    }
  }

  /** A parameter to append: its name, and a value that is appended only when it is truthy. */
  type Candidate = (string, Option<string>)

  /** The names of the candidates, in order. */
  function Names(es: seq<Candidate>): (r: seq<string>)
    ensures |r| == |es|
    ensures forall i :: 0 <= i < |es| ==> r[i] == es[i].0
  {
    if es == [] then [] else [es[0].0] + Names(es[1..])
  }

  predicate DistinctNames(es: seq<Candidate>)
  {
    forall i, j :: 0 <= i < j < |es| ==> es[i].0 != es[j].0
  }

  /** Names that start with different characters are different. */
  lemma DistinctByInitial(es: seq<Candidate>)
    requires forall i :: 0 <= i < |es| ==> es[i].0 != ""
    requires forall i, j :: 0 <= i < j < |es| ==> es[i].0[0] != es[j].0[0]
    ensures DistinctNames(es)
  {
  }

  /** `if (value) params.append(name, value)` for each candidate in turn, on empty params. */
  function AppendTruthy(es: seq<Candidate>): seq<Param>
  {
    if es == [] then []
    else (if Truthy(es[0].1) then [Param(es[0].0, es[0].1.value)] else []) + AppendTruthy(es[1..])
  }

  /** The candidate the `k`-th appended pair comes from. */
  function Origin(es: seq<Candidate>, k: nat): (o: nat)
    requires k < |AppendTruthy(es)|
    ensures o < |es| && Truthy(es[o].1)
    ensures AppendTruthy(es)[k] == Param(es[o].0, es[o].1.value)
    decreases |es|
  {
    var t := AppendTruthy(es[1..]);
    if Truthy(es[0].1) then
      if k == 0 then 0
      else
        assert AppendTruthy(es)[k] == t[k - 1];
        1 + Origin(es[1..], k - 1)
    else
      assert AppendTruthy(es) == t;
      1 + Origin(es[1..], k)
  }

  /** The pairs are appended in the order of their candidates. */
  lemma {:induction false} OriginIncreasing(es: seq<Candidate>, i: nat, j: nat)
    requires i < j < |AppendTruthy(es)|
    ensures Origin(es, i) < Origin(es, j)
    decreases |es|
  {
    if !Truthy(es[0].1) {
      OriginIncreasing(es[1..], i, j);
    } else if i > 0 {
      OriginIncreasing(es[1..], i - 1, j - 1);
    }
  }

  /** Every truthy candidate is appended. */
  lemma {:induction false} TruthyAppended(es: seq<Candidate>, o: nat)
    requires o < |es| && Truthy(es[o].1)
    ensures Param(es[o].0, es[o].1.value) in AppendTruthy(es)
    decreases |es|
  {
    if o > 0 {
      assert es[o] == es[1..][o - 1];
      TruthyAppended(es[1..], o - 1);
    }
  }

  /** A name no candidate has is never appended. */
  lemma AppendedAbsent(es: seq<Candidate>, name: string)
    requires name !in Names(es)
    ensures Get(AppendTruthy(es), name) == None
  {
    forall k | 0 <= k < |AppendTruthy(es)|
      ensures AppendTruthy(es)[k].name != name
    {
      var o := Origin(es, k);
      assert Names(es)[o] == es[o].0;
    }
  }

  /** With distinct names the first name occurs nowhere after. */
  lemma FirstNameUnique(es: seq<Candidate>)
    requires DistinctNames(es) && |es| > 0
    ensures es[0].0 !in Names(es[1..]) && DistinctNames(es[1..])
  {
    assert forall i, j :: 0 <= i < j < |es| - 1 ==> es[1..][i] == es[i + 1] && es[1..][j] == es[j + 1];
  }

  /** With distinct names, `get(name)` of the appended params is the candidate's value when truthy, and null otherwise. */
  lemma {:induction false} AppendedGet(es: seq<Candidate>, i: nat)
    requires DistinctNames(es) && i < |es|
    ensures Get(AppendTruthy(es), es[i].0) == OrNull(es[i].1)
    decreases |es|
  {
    var h := if Truthy(es[0].1) then [Param(es[0].0, es[0].1.value)] else [];
    GetAppend(h, AppendTruthy(es[1..]), es[i].0);
    FirstNameUnique(es);
    if i == 0 {
      AppendedAbsent(es[1..], es[0].0);
    } else {
      assert es[i] == es[1..][i - 1];
      AppendedGet(es[1..], i - 1);
    }
  }
}
