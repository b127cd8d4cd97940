/**
 * Structured search filters to raw FindAPhD tokens (src/services/filterMapper.js):
 * the supplied tokens go into a JavaScript `Set` in a fixed field order, and a
 * warning is raised when more than one discipline-like token results.
 */
module FilterMapper {
  import opened Wrappers
  import opened Text
  import Seqs

  /**
   * The filter object. A scalar field is absent or a string (falsy when
   * empty); a list field is `None` when the value is not an array.
   */
  datatype Filters = Filters(disciplineToken: Option<string>, subjectToken: Option<string>,
                             geoTokens: Option<seq<string>>, fundingTokens: Option<seq<string>>,
                             institutionToken: Option<string>, phdTypeToken: Option<string>,
                             studyModeToken: Option<string>)

  const NoFilters := Filters(None, None, None, None, None, None, None)

  /** A scalar field contributes its value when it is truthy. */
  function Scalar(x: Option<string>): (r: seq<string>)
    ensures r == [] <==> !Truthy(x)
    ensures Truthy(x) ==> r == [x.value]
  {
    if Truthy(x) then [x.value] else []
  }

  /** A list field contributes its elements when it is an array. */
  function Listed(x: Option<seq<string>>): seq<string>
  {
    if x.Some? then x.value else []
  }

  /** The values `mapFilters` adds to its set, in the order it adds them. */
  function Supplied(f: Filters): seq<string>
  {
    Scalar(f.disciplineToken) + Scalar(f.subjectToken) + Listed(f.geoTokens) + Listed(f.fundingTokens)
    + Scalar(f.institutionToken) + Scalar(f.phdTypeToken) + Scalar(f.studyModeToken)
  }

  /** `/^10/i`: a discipline token (digits have no case). */
  predicate IsDisciplineToken(t: string) { IsPrefix("10", t) }

  /** `tokens.filter(t => /^10/i.test(t)).length`. */
  function DisciplineCount(ts: seq<string>): (n: nat)
    ensures n <= |ts|
    ensures n == 0 <==> forall k :: 0 <= k < |ts| ==> !IsDisciplineToken(ts[k])
  {
    if ts == [] then 0
    else
      var n := DisciplineCount(ts[..|ts| - 1]);
      assert forall k :: 0 <= k < |ts| - 1 ==> ts[..|ts| - 1][k] == ts[k];
      n + (if IsDisciplineToken(ts[|ts| - 1]) then 1 else 0)
  }

  const MultipleDisciplines := "Multiple discipline tokens detected"

  datatype Mapped = Mapped(tokens: seq<string>, warnings: seq<string>)

  /** What `mapFilters(filters)` returns. */
  function Mapping(f: Filters): (r: Mapped)
    ensures Seqs.Distinct(r.tokens)
    ensures forall t :: t in r.tokens <==> t in Supplied(f)
    ensures r.warnings == [] || r.warnings == [MultipleDisciplines]
  {
    var tokens := Seqs.Dedupe(Supplied(f));
    Mapped(tokens, if DisciplineCount(tokens) > 1 then [MultipleDisciplines] else [])
  }

  /** `set.add(x)` on a set kept in insertion order. */
  method Add(acc: seq<string>, x: string) returns (r: seq<string>)
    ensures r == if x in acc then acc else acc + [x]
  {
    r := acc;
    if x !in acc {
      r := r + [x];
    }
  }

  /** Adds every element of `xs` in turn (`xs.forEach(t => tokens.add(t))`). */
  method AddAll(acc: seq<string>, xs: seq<string>, ghost done: seq<string>) returns (r: seq<string>)
    requires acc == Seqs.Dedupe(done)
    ensures r == Seqs.Dedupe(done + xs)
  {
    r := acc;
    var i := 0;
    assert done + xs[..0] == done;
    while i < |xs|
      invariant 0 <= i <= |xs|
      invariant r == Seqs.Dedupe(done + xs[..i])
    {
      Seqs.DedupeNext(done, xs, i);
      r := Add(r, xs[i]);
      i := i + 1;
    }
    assert xs[..|xs|] == xs;
  }

  /** Adds a scalar field's value when it is truthy. */
  method AddScalar(acc: seq<string>, x: Option<string>, ghost done: seq<string>) returns (r: seq<string>)
    requires acc == Seqs.Dedupe(done)
    ensures r == Seqs.Dedupe(done + Scalar(x))
  {
    r := acc;
    if Truthy(x) {
      Seqs.DedupeSnoc(done, x.value);
      r := Add(r, x.value);
    } else {
      assert done + Scalar(x) == done;
    }
  }

  /** `mapFilters(filters)`. */
  method MapFilters(f: Filters) returns (r: Mapped)
    ensures r == Mapping(f)
  {
    var tokens: seq<string> := [];
    ghost var done: seq<string> := [];
    tokens := AddScalar(tokens, f.disciplineToken, done);
    done := done + Scalar(f.disciplineToken);
    tokens := AddScalar(tokens, f.subjectToken, done);
    done := done + Scalar(f.subjectToken);
    if f.geoTokens.Some? {
      tokens := AddAll(tokens, f.geoTokens.value, done);
    } else {
      assert done + Listed(f.geoTokens) == done;
    }
    done := done + Listed(f.geoTokens);
    if f.fundingTokens.Some? {
      tokens := AddAll(tokens, f.fundingTokens.value, done);
    } else {
      assert done + Listed(f.fundingTokens) == done;
    }
    done := done + Listed(f.fundingTokens);
    tokens := AddScalar(tokens, f.institutionToken, done);
    done := done + Scalar(f.institutionToken);
    tokens := AddScalar(tokens, f.phdTypeToken, done);
    done := done + Scalar(f.phdTypeToken);
    tokens := AddScalar(tokens, f.studyModeToken, done);
    done := done + Scalar(f.studyModeToken);
    assert done == Supplied(f);

    assert tokens == Seqs.Dedupe(Supplied(f));

    var warnings: seq<string> := [];
    if DisciplineCount(tokens) > 1 {
      warnings := [MultipleDisciplines];
    }
    r := Mapped(tokens, warnings);
  }

  /** The tokens come out in the order in which they were first supplied. */
  lemma MappingOrder(f: Filters, i: nat, j: nat)
    requires i < j < |Mapping(f).tokens|
    ensures Seqs.FirstIndex(Supplied(f), Mapping(f).tokens[i]) < Seqs.FirstIndex(Supplied(f), Mapping(f).tokens[j])
  {
    Seqs.DedupeFirstOccurrence(Supplied(f), i, j);
  }

  /** The warning is raised iff more than one resulting token starts with `10`. */
  lemma WarningIff(f: Filters)
    ensures Mapping(f).warnings != [] <==>
            exists i, j :: 0 <= i < j < |Mapping(f).tokens| && IsDisciplineToken(Mapping(f).tokens[i])
                                                          && IsDisciplineToken(Mapping(f).tokens[j])
  {
    var ts := Mapping(f).tokens;
    if DisciplineCount(ts) > 1 {
      var i, j := TwoDisciplines(ts);
    } else {
      forall i, j | 0 <= i < j < |ts| && IsDisciplineToken(ts[i])
        ensures !IsDisciplineToken(ts[j])
      {
        if IsDisciplineToken(ts[j]) {
          AtLeastTwo(ts, i, j);
        }
      }
    }
  }

  /** Two positions holding discipline tokens, when there are at least two. */
  lemma {:induction false} TwoDisciplines(ts: seq<string>) returns (i: nat, j: nat)
    requires DisciplineCount(ts) > 1
    ensures i < j < |ts| && IsDisciplineToken(ts[i]) && IsDisciplineToken(ts[j])
    decreases |ts|
  {
    var init := ts[..|ts| - 1];
    assert forall k :: 0 <= k < |init| ==> init[k] == ts[k];
    if DisciplineCount(init) > 1 {
      i, j := TwoDisciplines(init);
    } else {
      assert IsDisciplineToken(ts[|ts| - 1]) && DisciplineCount(init) == 1;
      var k :| 0 <= k < |init| && IsDisciplineToken(init[k]);
      i, j := k, |ts| - 1;
    }
  }

  /** Two discipline tokens at two positions make the count at least two. */
  lemma {:induction false} AtLeastTwo(ts: seq<string>, i: nat, j: nat)
    requires i < j < |ts| && IsDisciplineToken(ts[i]) && IsDisciplineToken(ts[j])
    ensures DisciplineCount(ts) > 1
    decreases |ts|
  {
    var init := ts[..|ts| - 1];
    assert init[i] == ts[i];
    if j < |ts| - 1 {
      assert init[j] == ts[j];
      AtLeastTwo(init, i, j);
    } else {
      assert DisciplineCount(init) > 0;
    }
  }

  /** Falsy scalar fields and non-array list fields contribute nothing. */
  lemma FalsyContributesNothing(f: Filters)
    requires !Truthy(f.disciplineToken) && !Truthy(f.subjectToken) && !Truthy(f.institutionToken)
    requires !Truthy(f.phdTypeToken) && !Truthy(f.studyModeToken)
    requires f.geoTokens.None? && f.fundingTokens.None?
    ensures Mapping(f) == Mapped([], [])
  {
    assert Supplied(f) == [];
  }

  /** One discipline, one geo and one funding token: three tokens and no warning. */
  lemma BasicFilters()
    ensures Mapping(NoFilters.(disciplineToken := Some("10M7g0"), geoTokens := Some(["g0w900"]),
                               fundingTokens := Some(["01M0"]))) == Mapped(["10M7g0", "g0w900", "01M0"], [])
  {
    var f := NoFilters.(disciplineToken := Some("10M7g0"), geoTokens := Some(["g0w900"]),
                        fundingTokens := Some(["01M0"]));
    var s := ["10M7g0", "g0w900", "01M0"];
    assert Supplied(f) == s;
    assert s[0] != s[1] && s[0] != s[2] && s[1] != s[2];
    Seqs.DedupeDistinct(s);
    assert s[1][..2] == "g0" && s[2][..2] == "01";
    assert s[..2][..1] == [s[0]];
    assert DisciplineCount(s) == 1;
  }

  /** Two discipline-like tokens raise the warning. */
  lemma TwoDisciplineTokens()
    ensures Mapping(NoFilters.(disciplineToken := Some("10AAA"), subjectToken := Some("10BBB"))).warnings
            == [MultipleDisciplines]
  {
    var f := NoFilters.(disciplineToken := Some("10AAA"), subjectToken := Some("10BBB"));
    var s := ["10AAA", "10BBB"];
    assert Supplied(f) == s;
    assert s[0] != s[1];
    Seqs.DedupeDistinct(s);
    AtLeastTwo(s, 0, 1);
  }
}
