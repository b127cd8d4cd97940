/**
 * Deadline dates: the case-insensitive month table of `monthToNum` and the
 * regular expression `(\d{1,2})(?:st|nd|rd|th)?\s+(January|…|December)\s+(\d{4})`
 * (flag `i`) that `toIsoDate` in test-crawler-results.js and
 * `_parseDeadlineDate` in the background crawler both search a text with.
 */
module Dates {
  import opened Wrappers
  import opened Text

  /** The keys of the month table, in calendar order. */
  const MonthNames: seq<string> := ["january", "february", "march", "april", "may", "june", "july",
                                    "august", "september", "october", "november", "december"]

  /** The ordinal suffixes the day may carry. */
  const Suffixes: seq<string> := ["st", "nd", "rd", "th"]

  /** A number below 100 written with exactly two digits. */
  function TwoDigits(n: nat): (r: string)
    requires n < 100
    ensures |r| == 2 && AllDigits(r) && DigitsValue(r) == n
  {
    var r := [DigitChar(n / 10), DigitChar(n % 10)];
    assert r[..1] == [DigitChar(n / 10)] && r[..1][..0] == [];
    assert DigitValue(DigitChar(n / 10)) == n / 10 && DigitValue(DigitChar(n % 10)) == n % 10;
    assert DigitsValue(r[..1]) == DigitsValue(r[..1][..0]) * 10 + DigitValue(r[0]);
    assert DigitsValue(r) == DigitsValue(r[..1]) * 10 + DigitValue(r[1]);
    r
  }

  /** The position of `x` in `names`, if it is there. */
  function IndexOf(names: seq<string>, x: string): (r: Option<nat>)
    ensures r.Some? ==> r.value < |names| && names[r.value] == x && forall j :: 0 <= j < r.value ==> names[j] != x
    ensures r.None? <==> x !in names
  {
    if names == [] then None
    else if names[0] == x then Some(0)
    else
      match IndexOf(names[1..], x)
      case None => None
      case Some(i) => Some(i + 1)
  }

  /** `monthToNum(m)`: the two-digit number of a month name in any letter case, or null. */
  function MonthToNum(m: string): (r: Option<string>)
    ensures r.None? <==> LowerStr(m) !in MonthNames
    ensures r.Some? ==> |r.value| == 2 && AllDigits(r.value)
    ensures forall i :: 0 <= i < |MonthNames| && MonthNames[i] == LowerStr(m) ==> r == Some(TwoDigits(i + 1))
  {
    match IndexOf(MonthNames, LowerStr(m))
    case None => None
    case Some(i) => MonthNamesDistinct(i); Some(TwoDigits(i + 1))
  }

  /** The month names are twelve different words. */
  lemma MonthNamesDistinct(i: nat)
    requires i < |MonthNames|
    ensures forall j :: 0 <= j < |MonthNames| && j != i ==> MonthNames[j] != MonthNames[i]
  {
  }

  /** The three capture groups of a match: the day digits, the month name as written, the year digits. */
  datatype DateMatch = DateMatch(day: string, month: string, year: string)

  /** The end of the run of white space starting at `j`. */
  function SpacesEnd(s: string, j: nat): (e: nat)
    requires j <= |s|
    ensures j <= e <= |s|
    ensures forall k :: j <= k < e ==> IsSpace(s[k])
    ensures e < |s| ==> !IsSpace(s[e])
    decreases |s| - j
  {
    if j == |s| || !IsSpace(s[j]) then j else SpacesEnd(s, j + 1)
  }

  /** `s` has `w`, in any letter case, at position `j`. */
  predicate WordAt(s: string, j: nat, w: string)
  {
    j + |w| <= |s| && LowerStr(s[j..j + |w|]) == w
  }

  /** The first of the alternatives `names`, in order, found at position `k`. */
  function WordIn(names: seq<string>, s: string, k: nat, from: nat): (r: Option<nat>)
    requires from <= |names|
    ensures r.Some? ==> from <= r.value < |names| && WordAt(s, k, names[r.value])
    ensures r.Some? ==> forall j :: from <= j < r.value ==> !WordAt(s, k, names[j])
    ensures r.None? ==> forall j :: from <= j < |names| ==> !WordAt(s, k, names[j])
    decreases |names| - from
  {
    if from == |names| then None
    else if WordAt(s, k, names[from]) then Some(from)
    else WordIn(names, s, k, from + 1)
  }

  /** The digits of a day starting at `i`: two when there are two, else one. */
  function DayDigits(s: string, i: nat): (d: nat)
    requires i < |s| && IsDigit(s[i])
    ensures i < d <= |s| && d <= i + 2 && AllDigits(s[i..d])
  {
    if i + 1 < |s| && IsDigit(s[i + 1]) then
      assert s[i..i + 2] == [s[i], s[i + 1]];
      i + 2
    else
      assert s[i..i + 1] == [s[i]];
      i + 1
  }

  /**
   * A match of the date expression starting exactly at `i`. The day takes
   * two digits when it can: falling back to one digit leaves a digit where
   * a suffix or a space must follow, so the fallback never succeeds. The
   * white space runs are taken whole, since a month name or a digit must
   * follow them; no month name is a prefix of another, so at most one of
   * them can match.
   */
  function DateAt(names: seq<string>, sfx: seq<string>, s: string, i: nat): (r: Option<DateMatch>)
    requires i <= |s|
    ensures r.Some? ==> 1 <= |r.value.day| <= 2 && AllDigits(r.value.day)
    ensures r.Some? ==> LowerStr(r.value.month) in names
    ensures r.Some? ==> |r.value.year| == 4 && AllDigits(r.value.year)
  {
    if i < |s| && IsDigit(s[i]) then
      var d := DayDigits(s, i);
      var j := if WordIn(sfx, s, d, 0).Some? then d + 2 else d;
      if j < |s| && IsSpace(s[j]) then
        MonthYear(names, s, SpacesEnd(s, j), s[i..d])
      else None
    else None
  }

  /** The rest of a match from the month name on, at position `k`, after the day digits `day`. */
  function MonthYear(names: seq<string>, s: string, k: nat, day: string): (r: Option<DateMatch>)
    requires k <= |s|
    ensures r.Some? ==> r.value.day == day && LowerStr(r.value.month) in names
    ensures r.Some? ==> |r.value.year| == 4 && AllDigits(r.value.year)
  {
    match WordIn(names, s, k, 0)
    case None => None
    case Some(mi) => YearAfter(s, k, k + |names[mi]|, day)
  }

  /** The rest of a match after the month name `s[k..k2]`: white space, then four digits. */
  function YearAfter(s: string, k: nat, k2: nat, day: string): (r: Option<DateMatch>)
    requires k <= k2 <= |s|
    ensures r.Some? ==> r.value.day == day && r.value.month == s[k..k2]
    ensures r.Some? ==> |r.value.year| == 4 && AllDigits(r.value.year)
  {
    if k2 < |s| && IsSpace(s[k2]) then
      var k3 := SpacesEnd(s, k2);
      if k3 + 4 <= |s| && AllDigits(s[k3..k3 + 4]) then
        Some(DateMatch(day, s[k..k2], s[k3..k3 + 4]))
      else None
    else None
  }

  /** The leftmost position `p` with `i <= p <= n` at which `at` finds a match, and that match. */
  function Leftmost<T>(at: nat -> Option<T>, i: nat, n: nat): (r: Option<(nat, T)>)
    requires i <= n
    ensures r.Some? ==> i <= r.value.0 <= n && at(r.value.0) == Some(r.value.1)
    ensures r.Some? ==> forall q :: i <= q < r.value.0 ==> at(q).None?
    ensures r.None? ==> forall q :: i <= q <= n ==> at(q).None?
    decreases n - i
  {
    match at(i)
    case Some(m) => Some((i, m))
    case None => if i == n then None else Leftmost(at, i + 1, n)
  }

  /** The matches starting at each position of `s`. */
  function DatesAt(s: string): nat -> Option<DateMatch>
  {
    (p: nat) => if p <= |s| then DateAt(MonthNames, Suffixes, s, p) else None
  }

  /** `text.match(re)`: the leftmost match, together with where it starts. */
  function FindDate(s: string): (r: Option<(nat, DateMatch)>)
    ensures r.Some? ==> r.value.0 <= |s| && DateAt(MonthNames, Suffixes, s, r.value.0) == Some(r.value.1)
    ensures r.Some? ==> forall q :: 0 <= q < r.value.0 ==> DateAt(MonthNames, Suffixes, s, q).None?
    ensures r.None? ==> forall q :: 0 <= q <= |s| ==> DateAt(MonthNames, Suffixes, s, q).None?
  {
    var r := Leftmost(DatesAt(s), 0, |s|);
    assert forall q :: 0 <= q <= |s| ==> DatesAt(s)(q) == DateAt(MonthNames, Suffixes, s, q);
    r
  }

  /** One or two digits spell a number below 100. */
  lemma SmallDay(day: string)
    requires 1 <= |day| <= 2 && AllDigits(day)
    ensures DigitsValue(day) < 100
  {
    assert day[..|day| - 1][..0] == [];
    if |day| == 2 {
      assert DigitsValue(day[..1]) == DigitValue(day[0]);
    }
  }

  /** `String(parseInt(day, 10)).padStart(2, '0')`. */
  function PadDay(day: string): (r: string)
    requires 1 <= |day| <= 2 && AllDigits(day)
    ensures DigitsValue(day) < 100 && r == TwoDigits(DigitsValue(day))
  {
    var v := DigitsValue(day);
    SmallDay(day);
    PaddedSpelling(v);
    var x := NatToString(v);
    if |x| < 2 then "0" + x else x
  }

  /** The decimal spelling of a number below 100, padded to two characters with `0`. */
  lemma PaddedSpelling(v: nat)
    requires v < 100
    ensures (if |NatToString(v)| < 2 then "0" + NatToString(v) else NatToString(v)) == TwoDigits(v)
  {
    var a, b := v / 10, v % 10;
    assert TwoDigits(v) == [DigitChar(a), DigitChar(b)];
    if v < 10 {
      assert a == 0 && b == v && DigitChar(0) == '0';
      assert NatToString(v) == [DigitChar(b)];
    } else {
      assert 1 <= a < 10;
      assert NatToString(a) == [DigitChar(a)];
      assert NatToString(v) == [DigitChar(a)] + [DigitChar(b)];
    }
  }

  /** `YYYY-MM-DD`: four digits, a dash, two digits, a dash, two digits. */
  predicate IsIsoDate(r: string)
  {
    |r| == 10 && r[4] == '-' && r[7] == '-'
    && AllDigits(r[..4]) && AllDigits(r[5..7]) && AllDigits(r[8..])
  }

  /** The ISO date of a match. */
  function IsoOf(m: DateMatch): (r: Option<string>)
    requires 1 <= |m.day| <= 2 && AllDigits(m.day) && |m.year| == 4 && AllDigits(m.year)
    ensures r.Some? <==> LowerStr(m.month) in MonthNames
    ensures r.Some? ==> IsIsoDate(r.value)
  {
    match MonthToNum(m.month)
    case None => None
    case Some(mm) =>
      var dd := PadDay(m.day);
      IsoShape(m.year, mm, dd);
      Some(m.year + "-" + mm + "-" + dd)
  }

  lemma IsoShape(y: string, mm: string, dd: string)
    requires |y| == 4 && AllDigits(y) && |mm| == 2 && AllDigits(mm) && |dd| == 2 && AllDigits(dd)
    ensures IsIsoDate(y + "-" + mm + "-" + dd)
  {
    var r := y + "-" + mm + "-" + dd;
    assert r[..4] == y && r[5..7] == mm && r[8..] == dd;
  }

  /** `toIsoDate(dateText)`: null for an empty text or no match, else the date of the first match. */
  function ToIsoDate(text: Option<string>): (r: Option<string>)
    ensures r.Some? <==> Truthy(text) && FindDate(text.value).Some?
    ensures r.Some? ==> IsIsoDate(r.value)
  {
    if !Truthy(text) then None
    else match FindDate(text.value)
      case None => None
      case Some((_, m)) => IsoOf(m)
  }

  /** The month of a match is the twelfth-based position of its name, the day is the zero-padded day value, the year is copied. */
  lemma IsoOfParts(m: DateMatch, i: nat)
    requires 1 <= |m.day| <= 2 && AllDigits(m.day) && |m.year| == 4 && AllDigits(m.year)
    requires i < |MonthNames| && LowerStr(m.month) == MonthNames[i]
    ensures DigitsValue(m.day) < 100
    ensures IsoOf(m) == Some(m.year + "-" + TwoDigits(i + 1) + "-" + TwoDigits(DigitsValue(m.day)))
  {
    SmallDay(m.day);
  }

  /** Non-empty words of lower-case ASCII letters. */
  predicate LetterWords(names: seq<string>)
  {
    (forall i :: 0 <= i < |names| ==> |names[i]| > 0)
    && (forall i, c :: 0 <= i < |names| && 0 <= c < |names[i]| ==> 'a' <= names[i][c] <= 'z')
  }

  /** No word of the table is the beginning of another. */
  predicate PrefixFree(names: seq<string>)
  {
    forall a, b :: 0 <= a < |names| && 0 <= b < |names| && a != b ==> !IsPrefix(names[a], names[b])
  }

  /** Two words that differ within their first three letters. */
  predicate Differ3(v: string, w: string)
  {
    |v| >= 3 && |w| >= 3 && (v[0] != w[0] || v[1] != w[1] || v[2] != w[2])
  }

  lemma Differ3NotPrefix(v: string, w: string)
    requires Differ3(v, w)
    ensures !IsPrefix(v, w)
  {
  }

  lemma MonthLetterWords()
    ensures LetterWords(MonthNames)
  {
  }

  lemma SuffixLetterWords()
    ensures LetterWords(Suffixes)
  {
  }

  /** The month names differ within their first three letters, so none begins another. */
  lemma MonthsPrefixFree()
    ensures PrefixFree(MonthNames)
  {
    assert forall a, b :: 0 <= a < |MonthNames| && 0 <= b < |MonthNames| && a != b ==> Differ3(MonthNames[a], MonthNames[b]);
    forall a, b | 0 <= a < |MonthNames| && 0 <= b < |MonthNames| && a != b
      ensures !IsPrefix(MonthNames[a], MonthNames[b])
    {
      Differ3NotPrefix(MonthNames[a], MonthNames[b]);
    }
  }

  /** A character that lower-cases to a letter is neither white space nor a digit. */
  lemma LetterNotSpace(c: char)
    requires 'a' <= Lower(c) <= 'z'
    ensures !IsSpace(c) && !IsDigit(c)
  {
  }

  lemma SpaceNotLetter(c: char)
    requires IsSpace(c)
    ensures !('a' <= Lower(c) <= 'z')
  {
  }

  lemma LowerSlice(t: string, n: nat)
    requires n <= |t|
    ensures LowerStr(t[..n]) == LowerStr(t)[..n]
  {
  }

  /** A shorter word found where `name` is written begins `name`, in lower case. */
  lemma ShortWordBegins(s: string, k: nat, name: string, w: string)
    requires |w| <= |name| && k + |name| <= |s| && s[k..k + |name|] == name && WordAt(s, k, w)
    ensures IsPrefix(w, LowerStr(name))
  {
    assert s[k..k + |w|] == name[..|w|];
    LowerSlice(name, |w|);
  }

  /** A longer word found where `name` is written, followed by white space, has no letter after `name`. */
  lemma LongWordBreaks(s: string, k: nat, name: string, w: string)
    requires |w| > |name| && k + |name| < |s| && IsSpace(s[k + |name|]) && WordAt(s, k, w)
    ensures !('a' <= w[|name|] <= 'z')
  {
    var c := |name|;
    assert s[k..k + |w|][c] == s[k + c];
    assert LowerStr(s[k..k + |w|])[c] == Lower(s[k + c]);
    SpaceNotLetter(s[k + c]);
  }

  /** A word of the table written at `k` and followed by white space is the only alternative found there. */
  lemma OnlyWordThere(names: seq<string>, s: string, k: nat, name: string, i: nat, j: nat)
    requires LetterWords(names) && PrefixFree(names)
    requires i < |names| && LowerStr(name) == names[i]
    requires k + |name| < |s| && s[k..k + |name|] == name && IsSpace(s[k + |name|])
    requires j < |names| && j != i
    ensures !WordAt(s, k, names[j])
  {
    var w := names[j];
    if WordAt(s, k, w) {
      if |w| <= |name| {
        ShortWordBegins(s, k, name, w);
        assert false;
      } else {
        LongWordBreaks(s, k, name, w);
        assert false;
      }
    }
  }

  /** The alternatives find the word written at `k`. */
  lemma WordFound(names: seq<string>, s: string, k: nat, name: string, i: nat)
    requires LetterWords(names) && PrefixFree(names)
    requires i < |names| && LowerStr(name) == names[i]
    requires k + |name| < |s| && s[k..k + |name|] == name && IsSpace(s[k + |name|])
    ensures WordIn(names, s, k, 0) == Some(i)
  {
    forall j | 0 <= j < |names| && j != i
      ensures !WordAt(s, k, names[j])
    {
      OnlyWordThere(names, s, k, name, i, j);
    }
    assert WordAt(s, k, names[i]);
  }

  /** No alternative is found at a space. */
  lemma NoWordAtSpace(names: seq<string>, s: string, d: nat)
    requires LetterWords(names)
    requires d < |s| && IsSpace(s[d])
    ensures WordIn(names, s, d, 0).None?
  {
    forall j | 0 <= j < |names|
      ensures !WordAt(s, d, names[j])
    {
      if d + |names[j]| <= |s| {
        assert LowerStr(s[d..d + |names[j]|])[0] == Lower(s[d]);
        SpaceNotLetter(s[d]);
      }
    }
  }

  /** The day, a space, a word of the table, a space and four digits make a match at the start. */
  lemma DateAtWritten(names: seq<string>, sfx: seq<string>, dd: string, name: string, y: string, i: nat)
    requires LetterWords(names) && PrefixFree(names) && LetterWords(sfx)
    requires 1 <= |dd| <= 2 && AllDigits(dd)
    requires i < |names| && LowerStr(name) == names[i]
    requires |y| == 4 && AllDigits(y)
    ensures DateAt(names, sfx, dd + " " + name + " " + y, 0) == Some(DateMatch(dd, name, y))
  {
    var rest := name + " " + y;
    assert LowerStr(name)[0] == Lower(name[0]);
    LetterNotSpace(name[0]);
    assert dd + " " + name + " " + y == dd + " " + rest;
    var s := dd + " " + rest;
    var k := |dd| + 1;
    DateAtDay(names, sfx, dd, rest);
    assert s[k..] == rest;
    NameAt(names, s, k, name, y, i);
    MonthYearWritten(names, s, k, dd, name, y, i);
  }

  /** The alternatives find `name` at `k` when `name`, a space and `y` are written there. */
  lemma NameAt(names: seq<string>, s: string, k: nat, name: string, y: string, i: nat)
    requires LetterWords(names) && PrefixFree(names)
    requires i < |names| && LowerStr(name) == names[i]
    requires k <= |s| && s[k..] == name + " " + y
    ensures WordIn(names, s, k, 0) == Some(i)
  {
    assert k + |name| < |s| && s[k..k + |name|] == name && IsSpace(s[k + |name|]) by {
      assert s[k..][..|name|] == name && s[k..][|name|] == ' ';
    }
    WordFound(names, s, k, name, i);
  }

  /** After the day digits and white space, the match goes on at the next character. */
  lemma DateAtDay(names: seq<string>, sfx: seq<string>, dd: string, rest: string)
    requires LetterWords(sfx)
    requires 1 <= |dd| <= 2 && AllDigits(dd)
    requires rest != [] && !IsSpace(rest[0])
    ensures DateAt(names, sfx, dd + " " + rest, 0) == MonthYear(names, dd + " " + rest, |dd| + 1, dd)
  {
    var s := dd + " " + rest;
    var d := |dd|;
    assert s[..d] == dd && s[d] == ' ' && s[d + 1] == rest[0];
    assert s[0] == dd[0];
    assert d == 2 ==> s[1] == dd[1];
    assert DayDigits(s, 0) == d;
    NoWordAtSpace(sfx, s, d);
    assert SpacesEnd(s, d) == d + 1;
  }

  /** The first alternative found at `k` being `name`'s, a space and four digits after it complete a match. */
  lemma MonthYearWritten(names: seq<string>, s: string, k: nat, dd: string, name: string, y: string, i: nat)
    requires i < |names| && WordIn(names, s, k, 0) == Some(i) && |names[i]| == |name|
    requires |y| == 4 && AllDigits(y)
    requires k <= |s| && s[k..] == name + " " + y
    ensures MonthYear(names, s, k, dd) == Some(DateMatch(dd, name, y))
  {
    YearAfterWritten(s, k, dd, name, y);
  }

  /** A space and four digits after the month name `s[k..k + |name|]` complete a match. */
  lemma YearAfterWritten(s: string, k: nat, dd: string, name: string, y: string)
    requires |y| == 4 && AllDigits(y)
    requires k <= |s| && s[k..] == name + " " + y
    ensures YearAfter(s, k, k + |name|, dd) == Some(DateMatch(dd, name, y))
  {
    var k2 := k + |name|;
    assert s[k..k2] == name && s[k2] == ' ' && s[k2 + 1..] == y by {
      assert s[k..][..|name|] == name && s[k..][|name|] == ' ' && s[k..][|name| + 1..] == y;
    }
    assert SpacesEnd(s, k2) == k2 + 1 by {
      assert s[k2 + 1] == y[0];
    }
    assert s[k2 + 1..k2 + 5] == y;
  }

  /**
   * A deadline written as "7 January 2026" (a one- or two-digit day, a
   * month name in any letter case, a four-digit year, one space between)
   * becomes "2026-01-07".
   */
  lemma ToIsoDateOfWritten(s: string, dd: string, name: string, y: string, i: nat)
    requires s == dd + " " + name + " " + y
    requires 1 <= |dd| <= 2 && AllDigits(dd)
    requires i < |MonthNames| && LowerStr(name) == MonthNames[i]
    requires |y| == 4 && AllDigits(y)
    ensures DigitsValue(dd) < 100
    ensures ToIsoDate(Some(s)) == Some(y + "-" + TwoDigits(i + 1) + "-" + TwoDigits(DigitsValue(dd)))
  {
    FindDateWritten(dd, name, y, i);
    ToIsoDateOfMatch(s, DateMatch(dd, name, y));
    IsoOfParts(DateMatch(dd, name, y), i);
  }

  lemma FindDateWritten(dd: string, name: string, y: string, i: nat)
    requires 1 <= |dd| <= 2 && AllDigits(dd)
    requires i < |MonthNames| && LowerStr(name) == MonthNames[i]
    requires |y| == 4 && AllDigits(y)
    ensures FindDate(dd + " " + name + " " + y) == Some((0, DateMatch(dd, name, y)))
  {
    MonthLetterWords();
    MonthsPrefixFree();
    SuffixLetterWords();
    DateAtWritten(MonthNames, Suffixes, dd, name, y, i);
  }

  lemma ToIsoDateOfMatch(s: string, m: DateMatch)
    requires s != "" && FindDate(s).Some? && FindDate(s).value.1 == m
    ensures 1 <= |m.day| <= 2 && AllDigits(m.day) && |m.year| == 4 && AllDigits(m.year)
    ensures ToIsoDate(Some(s)) == IsoOf(m)
  {
  }
}
