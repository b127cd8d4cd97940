/**
 * Sequence helpers: JavaScript `Set` insertion semantics (keep the first
 * occurrence of each value), `slice(0, n)`, counting and filtering.
 */
module Seqs {

  predicate Distinct<T(==)>(s: seq<T>)
  {
    forall i, j :: 0 <= i < j < |s| ==> s[i] != s[j]
  }

  /**
   * The values of `s` added one by one to a JavaScript `Set`, read back in
   * insertion order: each value once, at the place of its first occurrence.
   */
  function Dedupe<T(==,!new)>(s: seq<T>): (r: seq<T>)
    ensures Distinct(r)
    ensures forall x :: x in r <==> x in s
    ensures |r| <= |s|
  {
    if s == [] then []
    else
      var p := Dedupe(s[..|s| - 1]);
      assert s == s[..|s| - 1] + [s[|s| - 1]];
      if s[|s| - 1] in p then p else p + [s[|s| - 1]]
  }

  /** A sequence without repeats is its own deduplication. */
  lemma {:induction false} DedupeDistinct<T(!new)>(s: seq<T>)
    requires Distinct(s)
    ensures Dedupe(s) == s
  {
    if s != [] {
      DedupeDistinct(s[..|s| - 1]);
      assert s[|s| - 1] !in s[..|s| - 1];
      assert s == s[..|s| - 1] + [s[|s| - 1]];
    }
  }

  /** Adding one more value to the set: appended only when it is new. */
  lemma DedupeSnoc<T(!new)>(s: seq<T>, x: T)
    ensures Dedupe(s + [x]) == if x in Dedupe(s) then Dedupe(s) else Dedupe(s) + [x]
  {
    assert (s + [x])[..|s + [x]| - 1] == s;
  }

  /** One more element of `xs` added after the first `i`. */
  lemma DedupeNext<T(!new)>(d: seq<T>, xs: seq<T>, i: nat)
    requires i < |xs|
    ensures Dedupe(d + xs[..i + 1]) == if xs[i] in Dedupe(d + xs[..i]) then Dedupe(d + xs[..i]) else Dedupe(d + xs[..i]) + [xs[i]]
  {
    assert d + xs[..i + 1] == (d + xs[..i]) + [xs[i]];
    DedupeSnoc(d + xs[..i], xs[i]);
  }

  /** The position of the first occurrence of `x` in `s`. */
  function FirstIndex<T(==)>(s: seq<T>, x: T): (i: nat)
    requires x in s
    ensures i < |s| && s[i] == x
    ensures forall j :: 0 <= j < i ==> s[j] != x
  {
    if s[0] == x then 0 else 1 + FirstIndex(s[1..], x)
  }

  lemma FirstIndexPrefix<T>(s: seq<T>, n: nat, x: T)
    requires n <= |s| && x in s[..n]
    ensures FirstIndex(s, x) == FirstIndex(s[..n], x)
  {
    var i := FirstIndex(s[..n], x);
    var j := FirstIndex(s, x);
    assert s[..n][i] == x;
    assert forall k :: 0 <= k < n ==> s[..n][k] == s[k];
  }

  /** Deduplication keeps the values in the order of their first occurrences. */
  lemma {:induction false} DedupeFirstOccurrence<T(!new)>(s: seq<T>, i: nat, j: nat)
    requires i < j < |Dedupe(s)|
    ensures Dedupe(s)[i] in s && Dedupe(s)[j] in s
    ensures FirstIndex(s, Dedupe(s)[i]) < FirstIndex(s, Dedupe(s)[j])
    decreases |s|
  {
    var init := s[..|s| - 1];
    var x := s[|s| - 1];
    var p := Dedupe(init);
    var d := Dedupe(s);
    assert d == if x in p then p else p + [x];
    assert d[i] == p[i] && p[i] in init;
    FirstIndexPrefix(s, |s| - 1, p[i]);
    if j < |p| {
      assert d[j] == p[j];
      DedupeFirstOccurrence(init, i, j);
      FirstIndexPrefix(s, |s| - 1, p[j]);
      assert FirstIndex(s, d[j]) == FirstIndex(init, p[j]);
    } else {
      assert d[j] == x && x !in init;
      FirstIndexLast(s);
      assert FirstIndex(s, d[j]) == |s| - 1;
    }
    assert FirstIndex(s, d[i]) == FirstIndex(init, p[i]) < |init|;
  }

  /** A value that occurs only at the end is first found there. */
  lemma FirstIndexLast<T>(s: seq<T>)
    requires |s| > 0 && s[|s| - 1] !in s[..|s| - 1]
    ensures FirstIndex(s, s[|s| - 1]) == |s| - 1
  {
    var i := FirstIndex(s, s[|s| - 1]);
    assert forall k :: 0 <= k < |s| - 1 ==> s[..|s| - 1][k] == s[k];
  }

  /** Putting the head back in front of the tail and a suffix. */
  lemma HeadTailAppend<T>(s: seq<T>, r: seq<T>)
    requires |s| > 0
    ensures [s[0]] + (s[1..] + r) == s + r
  {
    assert s == [s[0]] + s[1..];
  }

  /** Regrouping a concatenation of three sequences. */
  lemma AppendAssoc<T>(a: seq<T>, b: seq<T>, c: seq<T>)
    ensures a + (b + c) == (a + b) + c
  {
  }

  /** `s.slice(0, n)`. */
  function Take<T>(s: seq<T>, n: nat): (r: seq<T>)
    ensures |r| == if n < |s| then n else |s|
    ensures forall k :: 0 <= k < |r| ==> r[k] == s[k]
  {
    if n < |s| then s[..n] else s
  }

  lemma TakeDistinct<T>(s: seq<T>, n: nat)
    requires Distinct(s)
    ensures Distinct(Take(s, n))
  {
  }

  /** How many times `x` occurs in `s`. */
  function Count<T(==)>(s: seq<T>, x: T): nat
  {
    if s == [] then 0 else Count(s[..|s| - 1], x) + (if s[|s| - 1] == x then 1 else 0)
  }

  lemma {:induction false} CountAppend<T>(a: seq<T>, b: seq<T>, x: T)
    ensures Count(a + b, x) == Count(a, x) + Count(b, x)
    decreases |b|
  {
    if b == [] {
      assert a + b == a;
    } else {
      assert (a + b)[..|a + b| - 1] == a + b[..|b| - 1];
      CountAppend(a, b[..|b| - 1], x);
    }
  }

  lemma {:induction false} CountZero<T>(s: seq<T>, x: T)
    ensures Count(s, x) == 0 <==> x !in s
    decreases |s|
  {
    if s != [] {
      CountZero(s[..|s| - 1], x);
      assert s == s[..|s| - 1] + [s[|s| - 1]];
    }
  }
}
