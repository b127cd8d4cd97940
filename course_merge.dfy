/**
 * The course records of test-crawler-results.js: white space normalisation
 * of scraped text, the merge of two records describing the same course,
 * and the loop that merges the records sharing a `title::university` key.
 */
module CourseMerge {
  import opened Wrappers
  import opened Text
  import Seqs
  import OrderedMaps
  import Dates

  // ---------------------------------------------------------------------
  // normalizeSpace

  const Nbsp: char := '\U{00A0}'
  const NbspEntity := "&nbsp;"

  /** `.replace(/\u00A0/g, ' ')`. */
  function ReplaceNbsp(s: string): (r: string)
    ensures |r| == |s|
    ensures forall k :: 0 <= k < |s| ==> r[k] == if s[k] == Nbsp then ' ' else s[k]
  {
    if s == [] then [] else [if s[0] == Nbsp then ' ' else s[0]] + ReplaceNbsp(s[1..])
  }

  /** `.replace(/&nbsp;/g, ' ')`: occurrences replaced left to right. */
  function ReplaceEntity(s: string): string
    decreases |s|
  {
    if IsPrefix(NbspEntity, s) then " " + ReplaceEntity(s[|NbspEntity|..])
    else if s == [] then []
    else [s[0]] + ReplaceEntity(s[1..])
  }

  /** The characters of `s` that are not white space, in order. */
  function Visible(s: string): string
  {
    if s == [] then [] else (if IsSpace(s[0]) then [] else [s[0]]) + Visible(s[1..])
  }

  lemma {:induction false} VisibleAppend(a: string, b: string)
    ensures Visible(a + b) == Visible(a) + Visible(b)
    decreases |a|
  {
    if a == [] {
      assert a + b == b;
    } else {
      assert (a + b)[1..] == a[1..] + b;
      VisibleAppend(a[1..], b);
    }
  }

  lemma {:induction false} VisibleOfSpaces(s: string)
    requires forall k :: 0 <= k < |s| ==> IsSpace(s[k])
    ensures Visible(s) == []
    decreases |s|
  {
    if s != [] {
      VisibleOfSpaces(s[1..]);
    }
  }

  /** Only plain spaces, and never two in a row. */
  predicate Collapsed(s: string)
  {
    (forall k :: 0 <= k < |s| && IsSpace(s[k]) ==> s[k] == ' ')
    && (forall k :: 0 <= k < |s| - 1 ==> !(s[k] == ' ' && s[k + 1] == ' '))
  }

  /** A word: a non-empty run of characters none of which is white space. */
  predicate Word(w: string)
  {
    w != [] && forall i :: 0 <= i < |w| ==> !IsSpace(w[i])
  }

  /** The words of `s`: its maximal runs of characters that are not white space, in order. */
  function Words(s: string): (r: seq<string>)
    ensures forall k :: 0 <= k < |r| ==> Word(r[k])
    ensures s != [] && !IsSpace(s[0]) ==> r != [] && r[0] != [] && r[0][0] == s[0]
    ensures r == [] <==> forall k :: 0 <= k < |s| ==> IsSpace(s[k])
    decreases |s|
  {
    if s == [] then []
    else if IsSpace(s[0]) then
      assert forall k :: 0 < k < |s| ==> s[k] == s[1..][k - 1];
      Words(s[1..])
    else
      var w := Words(s[1..]);
      if s[1..] != [] && !IsSpace(s[1]) then
        assert s[1..][0] == s[1];
        [[s[0]] + w[0]] + w[1..]
      else [[s[0]]] + w
  }

  /** Joining words whose first one gains a leading character. */
  lemma JoinGrowFirst(c: char, w: seq<string>)
    requires w != []
    ensures Join([[c] + w[0]] + w[1..], ' ') == [c] + Join(w, ' ')
  {
    var xs := [[c] + w[0]] + w[1..];
    if |w| > 1 {
      assert xs[1..] == w[1..];
    }
  }

  /** Joining a one-character word in front of other words. */
  lemma JoinConsWord(c: char, w: seq<string>)
    ensures Join([[c]] + w, ' ') == if w == [] then [c] else [c] + " " + Join(w, ' ')
  {
    if w != [] {
      assert ([[c]] + w)[1..] == w;
    }
  }

  /** A join of words starts and ends with a character that is not white space. */
  lemma {:induction false} JoinWordsEnds(ws: seq<string>)
    requires forall k :: 0 <= k < |ws| ==> Word(ws[k])
    ensures var j := Join(ws, ' ');
      (j == [] <==> ws == []) && (j != [] ==> !IsSpace(j[0]) && !IsSpace(j[|j| - 1]))
    decreases |ws|
  {
    if |ws| > 1 {
      JoinWordsEnds(ws[1..]);
      assert Word(ws[0]);
      var t := Join(ws[1..], ' ');
      assert Join(ws, ' ') == ws[0] + [' '] + t;
      assert (ws[0] + [' '] + t)[0] == ws[0][0];
    } else if |ws| == 1 {
      assert Word(ws[0]);
    }
  }

  /**
   * The words of `s` joined by single spaces, with one space in front when
   * `s` starts with white space and `afterSpace` is false, and one at the
   * back when `s` ends with white space after a word.
   */
  function Spaced(s: string, afterSpace: bool): string
  {
    (if !afterSpace && s != [] && IsSpace(s[0]) then " " else "")
    + Join(Words(s), ' ')
    + (if Words(s) != [] && IsSpace(s[|s| - 1]) then " " else "")
  }

  /** Leading white space adds at most the one front space. */
  lemma SpacedSpace(s: string, afterSpace: bool)
    requires s != [] && IsSpace(s[0])
    ensures Spaced(s, afterSpace) == (if afterSpace then "" else " ") + Spaced(s[1..], true)
  {
    assert s[1..] != [] ==> s[1..][|s[1..]| - 1] == s[|s| - 1];
  }

  /** A leading character that is not white space starts the first word. */
  lemma SpacedWord(s: string, afterSpace: bool)
    requires s != [] && !IsSpace(s[0])
    ensures Spaced(s, afterSpace) == [s[0]] + Spaced(s[1..], false)
  {
    var w := Words(s[1..]);
    assert s[1..] != [] ==> s[1..][|s[1..]| - 1] == s[|s| - 1] && s[1..][0] == s[1];
    if s[1..] != [] && !IsSpace(s[1]) {
      JoinGrowFirst(s[0], w);
    } else {
      JoinConsWord(s[0], w);
    }
  }

  /**
   * `.replace(/\s+/g, ' ')`, `afterSpace` saying whether the previous
   * character was white space: each maximal run of white space becomes
   * one space at its place, so only the words of `s` remain, separated by
   * single spaces.
   */
  function Collapse(s: string, afterSpace: bool): (r: string)
    ensures Collapsed(r)
    ensures afterSpace ==> r == [] || r[0] != ' '
    ensures Visible(r) == Visible(s)
    ensures r == Spaced(s, afterSpace)
    decreases |s|
  {
    if s == [] then []
    else if IsSpace(s[0]) then
      var rest := Collapse(s[1..], true);
      SpacedSpace(s, afterSpace);
      if afterSpace then rest
      else
        var r := [' '] + rest;
        CollapsedCons(' ', rest);
        assert r[1..] == rest;
        r
    else
      var rest := Collapse(s[1..], false);
      SpacedWord(s, afterSpace);
      var r := [s[0]] + rest;
      CollapsedCons(s[0], rest);
      assert r[1..] == rest;
      r
  }

  /** One character in front of a collapsed string keeps it collapsed unless it makes a second space. */
  lemma CollapsedCons(c: char, r: string)
    requires Collapsed(r) && (IsSpace(c) ==> c == ' ') && (c == ' ' ==> r == [] || r[0] != ' ')
    ensures Collapsed([c] + r)
  {
    var t := [c] + r;
    assert forall k :: 0 < k < |t| ==> t[k] == r[k - 1];
  }

  /** A piece of a collapsed string is collapsed. */
  lemma CollapsedSlice(s: string, i: nat, j: nat)
    requires Collapsed(s) && i <= j <= |s|
    ensures Collapsed(s[i..j])
  {
    assert forall k :: 0 <= k < j - i ==> s[i..j][k] == s[i + k];
  }

  /** Cutting white space off the front keeps the visible characters. */
  lemma VisibleDropFront(s: string, i: nat)
    requires i <= |s| && forall k :: 0 <= k < i ==> IsSpace(s[k])
    ensures Visible(s[i..]) == Visible(s)
  {
    assert s == s[..i] + s[i..];
    VisibleAppend(s[..i], s[i..]);
    VisibleOfSpaces(s[..i]);
  }

  /** Cutting white space off the back keeps the visible characters. */
  lemma VisibleDropBack(s: string, j: nat)
    requires j <= |s| && forall k :: j <= k < |s| ==> IsSpace(s[k])
    ensures Visible(s[..j]) == Visible(s)
  {
    var t := s[j..];
    assert s == s[..j] + t;
    VisibleAppend(s[..j], t);
    forall k | 0 <= k < |t|
      ensures IsSpace(t[k])
    {
      assert t[k] == s[j + k];
    }
    VisibleOfSpaces(t);
  }

  /** Trimming keeps a collapsed string collapsed and drops only white space. */
  lemma TrimCollapsed(s: string)
    requires Collapsed(s)
    ensures Collapsed(Trim(s)) && Visible(Trim(s)) == Visible(s)
  {
    var t := TrimStart(s);
    var r := TrimEnd(t);
    var i := |s| - |t|;
    var j := i + |r|;
    assert r == s[i..j] by {
      assert t == s[i..];
      assert r == t[..|r|];
    }
    CollapsedSlice(s, i, j);
    VisibleDropFront(s, i);
    VisibleDropBack(t, |r|);
  }

  /** One space in front is trimmed away. */
  lemma TrimStartSpace(t: string)
    ensures TrimStart([' '] + t) == TrimStart(t)
  {
    assert ([' '] + t)[1..] == t;
  }

  /** One space at the back is trimmed away. */
  lemma TrimEndSpace(t: string)
    ensures TrimEnd(t + [' ']) == TrimEnd(t)
  {
    assert (t + [' '])[..|t|] == t;
  }

  /** Trimming a join of words with at most one space on either side gives back the join. */
  lemma TrimPadded(m: string, front: bool, back: bool)
    requires m == [] || (!IsSpace(m[0]) && !IsSpace(m[|m| - 1]))
    ensures Trim((if front then " " else "") + m + (if back then " " else "")) == m
  {
    var pre: string := if front then [' '] else [];
    var post: string := if back then [' '] else [];
    assert (if front then " " else "") + m + (if back then " " else "") == pre + m + post;
    if m == [] {
      assert pre + m + post == pre + post;
      TrimSpaces(pre, post);
    } else {
      TrimAround(m, pre, post);
    }
  }

  /** At most one space on either side, and nothing else, trims to nothing. */
  lemma TrimSpaces(pre: string, post: string)
    requires pre == [] || pre == [' ']
    requires post == [] || post == [' ']
    ensures Trim(pre + post) == []
  {
    assert TrimStart(post) == [] by {
      if post == [' '] {
        assert post == [' '] + [];
        TrimStartSpace([]);
      }
    }
    if pre == [' '] {
      TrimStartSpace(post);
    } else {
      assert pre + post == post;
    }
  }

  /** At most one space on either side of a string with visible ends is trimmed away. */
  lemma TrimAround(m: string, pre: string, post: string)
    requires m != [] && !IsSpace(m[0]) && !IsSpace(m[|m| - 1])
    requires pre == [] || pre == [' ']
    requires post == [] || post == [' ']
    ensures Trim(pre + m + post) == m
  {
    assert TrimStart(m + post) == m + post by {
      assert (m + post)[0] == m[0];
    }
    if pre == [' '] {
      assert pre + m + post == [' '] + (m + post);
      TrimStartSpace(m + post);
    } else {
      assert pre + m + post == m + post;
    }
    if post == [' '] {
      TrimEndSpace(m);
    } else {
      assert m + post == m;
    }
  }

  /**
   * `normalizeSpace(s)`: after the no-break spaces and `&nbsp;` entities
   * are replaced, the words of the text joined by single spaces.
   */
  function NormalizeSpace(s: Option<string>): (r: string)
    ensures Collapsed(r)
    ensures r == [] || (r[0] != ' ' && r[|r| - 1] != ' ')
    ensures Visible(r) == Visible(ReplaceEntity(ReplaceNbsp(s.GetOr(""))))
    ensures r == Join(Words(ReplaceEntity(ReplaceNbsp(s.GetOr("")))), ' ')
  {
    var x := ReplaceEntity(ReplaceNbsp(if Truthy(s) then s.value else ""));
    var c := Collapse(x, false);
    TrimCollapsed(c);
    JoinWordsEnds(Words(x));
    TrimPadded(Join(Words(x), ' '), x != [] && IsSpace(x[0]), Words(x) != [] && IsSpace(x[|x| - 1]));
    assert c == Spaced(x, false);
    Trim(c)
  }

  // ---------------------------------------------------------------------
  // mergeCourseInfo

  /** A course record as the script prepares it from the page's JSON-LD. */
  datatype Course = Course(
    title: Option<string>,
    university: Option<string>,
    description: Option<string>,
    supervisors: Option<seq<string>>,
    emails: Option<seq<string>>,
    funding: Option<string>,
    location: Option<string>,
    deadlineText: Option<string>,
    deadlineDate: Option<string>)

  /** `(x || '').length`, counted in characters: JavaScript counts UTF-16 code units. */
  function Length(x: Option<string>): nat
  {
    if x.Some? then |x.value| else 0
  }

  /**
   * `[...new Set([...(a || []), ...(b || [])])].slice(0, 5)`: the first
   * five distinct values of `a`'s list followed by `b`'s, in the order of
   * their first occurrence.
   */
  function MergeList(a: Option<seq<string>>, b: Option<seq<string>>): (r: seq<string>)
    ensures Seqs.Distinct(r) && |r| <= 5
    ensures forall x :: x in r ==> x in a.GetOr([]) || x in b.GetOr([])
    ensures r == Seqs.Take(Seqs.Dedupe(a.GetOr([]) + b.GetOr([])), 5)
  {
    var all := a.GetOr([]) + b.GetOr([]);
    var d := Seqs.Dedupe(all);
    Seqs.TakeDistinct(d, 5);
    var r := Seqs.Take(d, 5);
    assert forall x :: x in r ==> x in d;
    assert forall x :: x in all ==> x in a.GetOr([]) || x in b.GetOr([]);
    r
  }

  /** When the two lists hold at most five different values, all of them are kept. */
  lemma MergeListKeepsAll(a: Option<seq<string>>, b: Option<seq<string>>)
    requires |Seqs.Dedupe(a.GetOr([]) + b.GetOr([]))| <= 5
    ensures forall x :: x in a.GetOr([]) || x in b.GetOr([]) ==> x in MergeList(a, b)
  {
    var all := a.GetOr([]) + b.GetOr([]);
    assert forall x :: x in a.GetOr([]) || x in b.GetOr([]) ==> x in all;
  }

  /**
   * The merged list keeps first-occurrence order, skips no value that
   * occurs before one it keeps, and is five long unless fewer distinct
   * values exist.
   */
  lemma MergeListFirstFive(a: Option<seq<string>>, b: Option<seq<string>>)
    ensures var all := a.GetOr([]) + b.GetOr([]); var r := MergeList(a, b);
      (forall i, j :: 0 <= i < j < |r| ==> Seqs.FirstIndex(all, r[i]) < Seqs.FirstIndex(all, r[j]))
      && (forall x, j :: x in all && 0 <= j < |r| && Seqs.FirstIndex(all, x) < Seqs.FirstIndex(all, r[j]) ==> x in r)
      && |r| == if |Seqs.Dedupe(all)| < 5 then |Seqs.Dedupe(all)| else 5
  {
    var all := a.GetOr([]) + b.GetOr([]);
    var d := Seqs.Dedupe(all);
    var r := MergeList(a, b);
    forall i, j | 0 <= i < j < |r|
      ensures Seqs.FirstIndex(all, r[i]) < Seqs.FirstIndex(all, r[j])
    {
      Seqs.DedupeFirstOccurrence(all, i, j);
    }
    forall x, j | x in all && 0 <= j < |r| && Seqs.FirstIndex(all, x) < Seqs.FirstIndex(all, r[j])
      ensures x in r
    {
      assert x in d;
      var i :| 0 <= i < |d| && d[i] == x;
      if i > j {
        Seqs.DedupeFirstOccurrence(all, j, i);
      }
      assert i < j;
      assert r[i] == x;
    }
  }

  /** `mergeCourseInfo(a, b)`. */
  function MergeCourseInfo(a: Course, b: Course): (r: Course)
    ensures Length(r.description) == if Length(a.description) >= Length(b.description) then Length(a.description) else Length(b.description)
    ensures r.description == a.description || r.description == b.description
    ensures Length(a.description) >= Length(b.description) ==> r.description == a.description
    ensures r.title == Or(a.title, b.title)
    ensures (Truthy(a.university) ==> r.university == a.university)
            && (!Truthy(a.university) && Truthy(b.university) ==> r.university == b.university)
            && (!Truthy(a.university) && !Truthy(b.university) ==> r.university.None?)
    ensures r.funding == OrNull(Or(a.funding, b.funding)) && r.location == OrNull(Or(a.location, b.location))
    ensures r.deadlineText == OrNull(Or(a.deadlineText, b.deadlineText))
    ensures !Truthy(a.deadlineDate) && !Truthy(b.deadlineDate) ==> r.deadlineDate == Dates.ToIsoDate(r.deadlineText)
    ensures Truthy(a.deadlineDate) ==> r.deadlineDate == a.deadlineDate
    ensures !Truthy(a.deadlineDate) && Truthy(b.deadlineDate) ==> r.deadlineDate == b.deadlineDate
    ensures r.supervisors == Some(MergeList(a.supervisors, b.supervisors)) && r.emails == Some(MergeList(a.emails, b.emails))
  {
    var deadlineText := OrNull(Or(a.deadlineText, b.deadlineText));
    Course(
      Or(a.title, b.title),
      OrNull(Or(a.university, b.university)),
      if Length(a.description) >= Length(b.description) then a.description else b.description,
      Some(MergeList(a.supervisors, b.supervisors)),
      Some(MergeList(a.emails, b.emails)),
      OrNull(Or(a.funding, b.funding)),
      OrNull(Or(a.location, b.location)),
      deadlineText,
      OrNull(Or(Or(a.deadlineDate, b.deadlineDate), Dates.ToIsoDate(deadlineText))))
  }

  /** A merged record always has its lists, and never an empty string where a value may be absent. */
  lemma MergedShape(a: Course, b: Course)
    ensures var r := MergeCourseInfo(a, b);
            r.supervisors.Some? && r.emails.Some?
            && (r.university.Some? ==> r.university.value != "")
            && (r.funding.Some? ==> r.funding.value != "")
            && (r.deadlineDate.Some? ==> r.deadlineDate.value != "")
  {
  }

  // ---------------------------------------------------------------------
  // The merge loop

  /** `${title}::${university}`, a missing value printing as `null`. */
  function Key(c: Course): string
  {
    c.title.GetOr("null") + "::" + c.university.GetOr("null")
  }

  type Merged = OrderedMaps.OrderedMap<string, Course>

  /** A way of merging a record into the one already kept for its key. */
  type Merger = (Course, Course) -> Course

  /** `mergedMap` after the records of `cs` went through the `forEach`, merging with `f`. */
  function MergeAll(f: Merger, cs: seq<Course>): (m: Merged)
    ensures OrderedMaps.Valid(m)
  {
    if cs == [] then OrderedMaps.Empty()
    else
      var m := MergeAll(f, cs[..|cs| - 1]);
      var cur := cs[|cs| - 1];
      var k := Key(cur);
      if k !in m.values then OrderedMaps.Put(m, k, cur)
      else OrderedMaps.Put(m, k, f(m.values[k], cur))
  }

  /** The keys of the records, in order. */
  function Keys(cs: seq<Course>): (r: seq<string>)
    ensures |r| == |cs| && forall i :: 0 <= i < |cs| ==> r[i] == Key(cs[i])
  {
    if cs == [] then [] else Keys(cs[..|cs| - 1]) + [Key(cs[|cs| - 1])]
  }

  /** The records with key `k`, in order. */
  function WithKey(cs: seq<Course>, k: string): (r: seq<Course>)
    ensures forall c :: c in r ==> c in cs && Key(c) == k
  {
    if cs == [] then []
    else WithKey(cs[..|cs| - 1], k) + (if Key(cs[|cs| - 1]) == k then [cs[|cs| - 1]] else [])
  }

  /** The first record, merged with `f` with each later one in turn. */
  function MergeGroup(f: Merger, g: seq<Course>): Course
    requires g != []
  {
    if |g| == 1 then g[0] else f(MergeGroup(f, g[..|g| - 1]), g[|g| - 1])
  }

  /** What one more record does to the keys, the groups and the merged map. */
  lemma MergeAllSnoc(f: Merger, cs: seq<Course>, k: string)
    requires cs != []
    ensures var init := cs[..|cs| - 1]; var cur := cs[|cs| - 1];
            Keys(cs) == Keys(init) + [Key(cur)]
            && WithKey(cs, k) == WithKey(init, k) + (if Key(cur) == k then [cur] else [])
            && MergeAll(f, cs) == OrderedMaps.Put(MergeAll(f, init), Key(cur),
                 if Key(cur) !in MergeAll(f, init).values then cur else f(MergeAll(f, init).values[Key(cur)], cur))
  {
  }

  /** The group invariant for one key carries over one more record `cur`. */
  lemma GroupStep(f: Merger, m0: Merged, m1: Merged, g0: seq<Course>, g1: seq<Course>, cur: Course, k: string)
    requires OrderedMaps.Valid(m0)
    requires (k in m0.values <==> g0 != []) && (k in m0.values ==> m0.values[k] == MergeGroup(f, g0))
    requires g1 == g0 + (if Key(cur) == k then [cur] else [])
    requires m1 == OrderedMaps.Put(m0, Key(cur), if Key(cur) !in m0.values then cur else f(m0.values[Key(cur)], cur))
    ensures k in m1.values <==> g1 != []
    ensures k in m1.values ==> m1.values[k] == MergeGroup(f, g1)
  {
    if k == Key(cur) {
      assert g1[..|g1| - 1] == g0 && g1[|g1| - 1] == cur;
      if g0 == [] {
        assert g1 == [cur];
        assert m1.values[k] == cur;
      } else {
        assert m1.values[k] == f(m0.values[k], cur);
        assert MergeGroup(f, g1) == f(MergeGroup(f, g0), cur);
      }
    } else {
      assert g1 == g0;
      assert k in m1.values ==> m1.values[k] == m0.values[k];
    }
  }

  /**
   * One merged record per key, in the order the keys first appear; the
   * record of a key is its first record merged with each later record of
   * that key, in order.
   */
  lemma {:induction false} MergeAllGroups(f: Merger, cs: seq<Course>)
    ensures MergeAll(f, cs).keys == Seqs.Dedupe(Keys(cs))
    ensures forall k :: k in MergeAll(f, cs).values <==> WithKey(cs, k) != []
    ensures forall k :: k in MergeAll(f, cs).values ==> MergeAll(f, cs).values[k] == MergeGroup(f, WithKey(cs, k))
    decreases |cs|
  {
    if cs != [] {
      var init := cs[..|cs| - 1];
      var cur := cs[|cs| - 1];
      MergeAllGroups(f, init);
      MergeAllSnoc(f, cs, Key(cur));
      Seqs.DedupeSnoc(Keys(init), Key(cur));
      forall k
        ensures k in MergeAll(f, cs).values <==> WithKey(cs, k) != []
        ensures k in MergeAll(f, cs).values ==> MergeAll(f, cs).values[k] == MergeGroup(f, WithKey(cs, k))
      {
        MergeAllSnoc(f, cs, k);
        GroupStep(f, MergeAll(f, init), MergeAll(f, cs), WithKey(init, k), WithKey(cs, k), cur, k);
      }
    }
  }

  /** `Array.from(mergedMap.values())` after the `forEach` over `prepared`. */
  method MergeCourses(prepared: seq<Course>) returns (merged: seq<Course>)
    ensures merged == OrderedMaps.Values(MergeAll(MergeCourseInfo, prepared))
  {
    var m: Merged := OrderedMaps.Empty();
    var i := 0;
    while i < |prepared|
      invariant 0 <= i <= |prepared|
      invariant m == MergeAll(MergeCourseInfo, prepared[..i])
    {
      var cur := prepared[i];
      var k := Key(cur);
      assert prepared[..i + 1][..i] == prepared[..i];
      if k !in m.values {
        m := OrderedMaps.Put(m, k, cur);
      } else {
        m := OrderedMaps.Put(m, k, MergeCourseInfo(m.values[k], cur));
      }
      i := i + 1;
    }
    assert prepared[..i] == prepared;
    merged := OrderedMaps.Values(m);
  }

  /** The merged list has one record per distinct key, and a key seen once keeps its record unchanged. */
  lemma MergeCoursesShape(prepared: seq<Course>, k: string, c: Course)
    requires WithKey(prepared, k) == [c]
    ensures |OrderedMaps.Values(MergeAll(MergeCourseInfo, prepared))| == |Seqs.Dedupe(Keys(prepared))|
    ensures k in MergeAll(MergeCourseInfo, prepared).values && MergeAll(MergeCourseInfo, prepared).values[k] == c
  {
    MergeAllGroups(MergeCourseInfo, prepared);
  }
}
