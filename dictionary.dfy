/**
 * The in-memory token dictionary (src/core/dictionary.js): seven maps from
 * token to entry, one per token family, filled by `addOrUpdate` and read by
 * `findByToken` and `resolveDiscipline`. Loading and saving the JSON file
 * are left out.
 */
module TokenDictionary {
  import opened Wrappers
  import opened Text
  import OrderedMaps

  /** The seven maps of `state`, in the order `findByToken` searches them. */
  datatype Table = Disciplines | Subjects | Geos | Funding | Institutions | PhdTypes | StudyModes

  const SearchOrder: seq<Table> := [Disciplines, Subjects, Geos, Funding, Institutions, PhdTypes, StudyModes]

  /** An entry: its token, its type, its id, and whatever else it carries. */
  datatype Entry = Entry(token: Option<string>, kind: Option<string>, id: Option<string>, name: string)

  type Tables = map<Table, OrderedMaps.OrderedMap<string, Entry>>

  /** Every map is present and well formed. */
  predicate ValidTables(t: Tables)
  {
    forall k: Table :: k in t && OrderedMaps.Valid(t[k])
  }

  /** The initial `state`: seven empty maps. */
  function EmptyTables(): (t: Tables)
    ensures ValidTables(t)
  {
    AllTables();
    map k: Table | k in SearchOrder :: OrderedMaps.Empty()
  }

  /** The search order lists every map. */
  lemma AllTables()
    ensures forall k: Table :: k in SearchOrder
  {
    forall k: Table
      ensures k in SearchOrder
    {
      match k
      case Disciplines => assert SearchOrder[0] == k;
      case Subjects => assert SearchOrder[1] == k;
      case Geos => assert SearchOrder[2] == k;
      case Funding => assert SearchOrder[3] == k;
      case Institutions => assert SearchOrder[4] == k;
      case PhdTypes => assert SearchOrder[5] == k;
      case StudyModes => assert SearchOrder[6] == k;
    }
  }

  /** The lookup table from an entry's `type` to the name of its map. */
  function TableOf(kind: string): (r: Option<Table>)
    ensures r == Some(Disciplines) <==> kind == "discipline"
  {
    if kind == "discipline" then Some(Disciplines)
    else if kind == "subject" then Some(Subjects)
    else if kind == "geo" then Some(Geos)
    else if kind == "funding" then Some(Funding)
    else if kind == "institution" then Some(Institutions)
    else if kind == "phdType" then Some(PhdTypes)
    else if kind == "studyMode" then Some(StudyModes)
    else None
  }

  /** The map `addOrUpdate` writes an entry to, if it writes it at all. */
  function Target(entry: Option<Entry>): Option<Table>
  {
    if entry.None? || !Truthy(entry.value.token) || !Truthy(entry.value.kind) then None
    else TableOf(entry.value.kind.value)
  }

  /** `addOrUpdate(entry)` on the maps `t`. */
  function AddOrUpdate(t: Tables, entry: Option<Entry>): (r: Tables)
    requires ValidTables(t)
    ensures ValidTables(r)
  {
    match Target(entry)
    case None => t
    case Some(k) => t[k := OrderedMaps.Put(t[k], entry.value.token.value, entry.value)]
  }

  /** A missing entry, a falsy token or type, or an unknown type leaves the maps as they were. */
  lemma IgnoredEntry(t: Tables, entry: Option<Entry>)
    requires ValidTables(t)
    requires entry.None? || !Truthy(entry.value.token) || !Truthy(entry.value.kind)
             || TableOf(entry.value.kind.value).None?
    ensures AddOrUpdate(t, entry) == t
  {
  }

  /** A valid entry is stored under its token in the one map of its type, replacing any old value; the other maps are untouched. */
  lemma StoredEntry(t: Tables, e: Entry, k: Table)
    requires ValidTables(t) && Truthy(e.token) && Truthy(e.kind) && TableOf(e.kind.value) == Some(k)
    ensures AddOrUpdate(t, Some(e))[k].values == t[k].values[e.token.value := e]
    ensures forall other :: other != k ==> AddOrUpdate(t, Some(e))[other] == t[other]
  {
  }

  /** The first map of `order` that holds `token`, searched in order, and its entry. */
  function FirstHit(t: Tables, order: seq<Table>, token: string): (r: Option<Entry>)
    requires ValidTables(t)
    ensures r.Some? ==> exists i :: 0 <= i < |order| && token in t[order[i]].values && r.value == t[order[i]].values[token]
    ensures r.None? <==> forall i :: 0 <= i < |order| ==> token !in t[order[i]].values
  {
    if order == [] then None
    else if token in t[order[0]].values then Some(t[order[0]].values[token])
    else
      var r := FirstHit(t, order[1..], token);
      assert forall i :: 1 <= i < |order| ==> order[i] == order[1..][i - 1];
      r
  }

  /** A map earlier in the order that holds the token wins over every later one. */
  lemma {:induction false} FirstHitEarliest(t: Tables, order: seq<Table>, token: string, i: nat)
    requires ValidTables(t) && i < |order| && token in t[order[i]].values
    requires forall j :: 0 <= j < i ==> token !in t[order[j]].values
    ensures FirstHit(t, order, token) == Some(t[order[i]].values[token])
    decreases i
  {
    if i > 0 {
      FirstHitEarliest(t, order[1..], token, i - 1);
    }
  }

  /** After a discipline entry is added, `findByToken` of its token finds it, as the disciplines come first. */
  lemma FindAfterAdd(t: Tables, e: Entry)
    requires ValidTables(t) && Truthy(e.token) && e.kind == Some("discipline")
    ensures FirstHit(AddOrUpdate(t, Some(e)), SearchOrder, e.token.value) == Some(e)
  {
    var r := AddOrUpdate(t, Some(e));
    StoredEntry(t, e, Disciplines);
    FirstHitEarliest(r, SearchOrder, e.token.value, 0);
  }

  /** The first value of `vs` whose id or token is `x`. */
  function FindIdOrToken(vs: seq<Entry>, x: string): (r: Option<Entry>)
    ensures r.Some? ==> r.value in vs && (r.value.id == Some(x) || r.value.token == Some(x))
    ensures r.None? <==> forall i :: 0 <= i < |vs| ==> vs[i].id != Some(x) && vs[i].token != Some(x)
  {
    if vs == [] then None
    else if vs[0].id == Some(x) || vs[0].token == Some(x) then Some(vs[0])
    else
      var r := FindIdOrToken(vs[1..], x);
      assert forall i :: 1 <= i < |vs| ==> vs[i] == vs[1..][i - 1];
      r
  }

  /** `resolveDiscipline(x)`: a direct key lookup, then a scan of the values in insertion order. */
  function ResolveDiscipline(t: Tables, x: string): (r: Option<Entry>)
    requires ValidTables(t)
    ensures x in t[Disciplines].values ==> r == Some(t[Disciplines].values[x])
    ensures x !in t[Disciplines].values ==> r == FindIdOrToken(OrderedMaps.Values(t[Disciplines]), x)
  {
    var d := t[Disciplines];
    if x in d.values then Some(d.values[x]) else FindIdOrToken(OrderedMaps.Values(d), x)
  }

  /** A resolved discipline is stored in the disciplines map, and it is keyed by `x` or has `x` as id or token. */
  lemma ResolveFound(t: Tables, x: string)
    requires ValidTables(t) && ResolveDiscipline(t, x).Some?
    ensures var e := ResolveDiscipline(t, x).value;
            (x in t[Disciplines].values && e == t[Disciplines].values[x])
            || (exists k :: k in t[Disciplines].values && t[Disciplines].values[k] == e && (e.id == Some(x) || e.token == Some(x)))
  {
    var d := t[Disciplines];
    if x !in d.values {
      var vs := OrderedMaps.Values(d);
      var e := ResolveDiscipline(t, x).value;
      var i :| 0 <= i < |vs| && vs[i] == e;
      assert d.keys[i] in d.values;
    }
  }

  /** The module-level `state`. */
  class Dictionary {
    var tables: Tables

    ghost predicate Valid()
      reads this
    {
      ValidTables(tables)
    }

    constructor ()
      ensures Valid() && tables == EmptyTables()
    {
      tables := EmptyTables();
    }

    /** `addOrUpdate(entry)`. */
    method Add(entry: Option<Entry>)
      requires Valid()
      modifies this
      ensures Valid() && tables == AddOrUpdate(old(tables), entry)
    {
      if entry.None? || !Truthy(entry.value.token) || !Truthy(entry.value.kind) {
        return;
      }
      var k := TableOf(entry.value.kind.value);
      if k.None? {
        return;
      }
      tables := tables[k.value := OrderedMaps.Put(tables[k.value], entry.value.token.value, entry.value)];
    }

    /** `findByToken(token)`: the maps are tried in the fixed order, and the first hit is returned. */
    method FindByToken(token: string) returns (r: Option<Entry>)
      requires Valid()
      ensures r == FirstHit(tables, SearchOrder, token)
    {
      var i := 0;
      while i < |SearchOrder|
        invariant 0 <= i <= |SearchOrder|
        invariant forall j :: 0 <= j < i ==> token !in tables[SearchOrder[j]].values
      {
        var m := tables[SearchOrder[i]];
        if token in m.values {
          FirstHitEarliest(tables, SearchOrder, token, i);
          return Some(m.values[token]);
        }
        i := i + 1;
      }
      return None;
    }
  }
}
