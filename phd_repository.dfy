/**
 * The PhD store (src/database/repositories/PhDRepository.js): the
 * `phd_positions` table keyed by `external_id`, the column fallbacks the
 * repository applies when it writes a row, the soft delete, and the
 * filter and paging arithmetic of `search`.
 *
 * The table is a map from external id to row; SQLite timestamps
 * (`datetime('now')`) are an integer `now` supplied by the caller.
 */
module PhdRepository {
  import opened Wrappers
  import opened Text

  /** The fields a caller hands to `insert`, `update` and `upsert` (`phdData`). */
  datatype PhdData = PhdData(
    externalId: string,
    url: Option<string>,
    title: Option<string>,
    description: Option<string>,
    university: Option<string>,
    location: Option<string>,
    country: Option<string>,
    discipline: Option<string>,
    subject: Option<string>,
    disciplines: Option<seq<string>>,
    subjects: Option<seq<string>>,
    department: Option<string>,
    supervisor: Option<string>,
    programType: Option<string>,
    fundingType: Option<string>,
    funding: Option<string>,
    fundingAmount: Option<string>,
    deadline: Option<string>,
    deadlineText: Option<string>,
    deadlineDate: Option<string>,
    startDate: Option<string>,
    descriptionScript: Option<string>,
    titleScript: Option<string>,
    universityScript: Option<string>,
    jsonLdMatched: bool)

  /** The columns `insert` and `update` both write; `None` is SQL `NULL`. */
  datatype Columns = Columns(
    title: Option<string>,
    description: Option<string>,
    university: Option<string>,
    location: Option<string>,
    country: Option<string>,
    discipline: Option<string>,
    subject: Option<string>,
    disciplines: Option<seq<string>>,
    subjects: Option<seq<string>>,
    department: Option<string>,
    supervisor: Option<string>,
    programType: Option<string>,
    fundingType: Option<string>,
    fundingAmount: Option<string>,
    deadline: Option<string>,
    deadlineDate: Option<string>,
    startDate: Option<string>,
    descriptionScript: Option<string>,
    titleScript: Option<string>,
    universityScript: Option<string>,
    jsonLdMatched: bool)

  /** One row of `phd_positions`. */
  datatype Row = Row(
    id: nat,
    externalId: string,
    url: Option<string>,
    cols: Columns,
    isActive: bool,
    isDeleted: bool,
    firstSeenAt: int,
    lastSeenAt: int)

  /** The table and the next row id SQLite hands out. */
  datatype Table = Table(rows: map<string, Row>, nextId: nat)

  /** Rows are filed under their own external id and carry distinct ids below `nextId`. */
  predicate Valid(t: Table)
  {
    (forall k :: k in t.rows ==> t.rows[k].externalId == k && t.rows[k].id < t.nextId)
    && (forall k1, k2 :: k1 in t.rows && k2 in t.rows && k1 != k2 ==> t.rows[k1].id != t.rows[k2].id)
  }

  /** The empty table: SQLite hands out row ids from 1. */
  function Empty(): (t: Table)
    ensures Valid(t) && t.rows == map[] && t.nextId == 1
  {
    Table(map[], 1)
  }

  // ---------------------------------------------------------------------
  // What a write stores
  // ---------------------------------------------------------------------

  /** `v || null`: the value when it is a non-empty string, otherwise `NULL`. */
  predicate Kept(stored: Option<string>, v: Option<string>)
  {
    (Truthy(v) ==> stored == v) && (!Truthy(v) ==> stored == None)
  }

  /** `a || b || null`: the first non-empty of the two, otherwise `NULL`. */
  predicate FallsBack(stored: Option<string>, a: Option<string>, b: Option<string>)
  {
    (Truthy(a) ==> stored == a) && (!Truthy(a) ==> Kept(stored, b))
  }

  /** A text column holds `NULL` or a non-empty string. */
  predicate TextColumn(v: Option<string>) { v.None? || v.value != "" }

  /** No text column is ever written as the empty string. */
  predicate NoEmptyText(c: Columns)
  {
    TextColumn(c.title) && TextColumn(c.description) && TextColumn(c.university)
    && TextColumn(c.location) && TextColumn(c.country) && TextColumn(c.discipline)
    && TextColumn(c.subject) && TextColumn(c.department) && TextColumn(c.supervisor)
    && TextColumn(c.programType) && TextColumn(c.fundingType) && TextColumn(c.fundingAmount)
    && TextColumn(c.deadline) && TextColumn(c.deadlineDate) && TextColumn(c.startDate)
    && TextColumn(c.descriptionScript) && TextColumn(c.titleScript) && TextColumn(c.universityScript)
  }

  /** The parameter list of the `INSERT` and of the `UPDATE`. */
  function ToColumns(d: PhdData): (c: Columns)
    ensures FallsBack(c.title, d.title, d.titleScript)
    ensures FallsBack(c.university, d.university, d.universityScript)
    ensures FallsBack(c.fundingType, d.fundingType, d.funding)
    ensures FallsBack(c.deadline, d.deadline, d.deadlineText)
    ensures Kept(c.description, d.description) && Kept(c.location, d.location)
    ensures Kept(c.country, d.country) && Kept(c.discipline, d.discipline)
    ensures Kept(c.subject, d.subject) && Kept(c.department, d.department)
    ensures Kept(c.supervisor, d.supervisor) && Kept(c.programType, d.programType)
    ensures Kept(c.fundingAmount, d.fundingAmount) && Kept(c.deadlineDate, d.deadlineDate)
    ensures Kept(c.startDate, d.startDate) && Kept(c.descriptionScript, d.descriptionScript)
    ensures Kept(c.titleScript, d.titleScript) && Kept(c.universityScript, d.universityScript)
    ensures c.disciplines == d.disciplines && c.subjects == d.subjects
    ensures c.jsonLdMatched == d.jsonLdMatched
    ensures NoEmptyText(c)
  {
    Columns(
      OrNull(Or(d.title, d.titleScript)),
      OrNull(d.description),
      OrNull(Or(d.university, d.universityScript)),
      OrNull(d.location),
      OrNull(d.country),
      OrNull(d.discipline),
      OrNull(d.subject),
      d.disciplines,
      d.subjects,
      OrNull(d.department),
      OrNull(d.supervisor),
      OrNull(d.programType),
      OrNull(Or(d.fundingType, d.funding)),
      OrNull(d.fundingAmount),
      OrNull(Or(d.deadline, d.deadlineText)),
      OrNull(d.deadlineDate),
      OrNull(d.startDate),
      OrNull(d.descriptionScript),
      OrNull(d.titleScript),
      OrNull(d.universityScript),
      d.jsonLdMatched)
  }

  // ---------------------------------------------------------------------
  // Writes
  // ---------------------------------------------------------------------

  /** `findByExternalId`. */
  function Find(t: Table, externalId: string): (r: Option<Row>)
    ensures r.Some? <==> externalId in t.rows
    ensures r.Some? ==> r.value == t.rows[externalId]
  {
    if externalId in t.rows then Some(t.rows[externalId]) else None
  }

  /** What `insert` resolves to: the new row's id, or the duplicate report. */
  datatype InsertResult = Inserted(id: nat) | Duplicate(externalId: string)

  /**
   * `insert(d)` at time `now`: a new active, undeleted row first and last
   * seen now; an external id already in the table violates the unique
   * constraint and the table is left as it was.
   */
  function Insert(t: Table, d: PhdData, now: int): (r: (InsertResult, Table))
    requires Valid(t)
    ensures Valid(r.1)
    ensures r.0.Duplicate? <==> d.externalId in t.rows
    ensures r.0.Duplicate? ==> r.0.externalId == d.externalId && r.1 == t
    ensures r.0.Inserted? ==>
      r.1.rows == t.rows[d.externalId := Row(r.0.id, d.externalId, d.url, ToColumns(d), true, false, now, now)]
      && forall k :: k in t.rows ==> t.rows[k].id != r.0.id
  {
    if d.externalId in t.rows then (Duplicate(d.externalId), t)
    else
      var row := Row(t.nextId, d.externalId, d.url, ToColumns(d), true, false, now, now);
      (Inserted(t.nextId), Table(t.rows[d.externalId := row], t.nextId + 1))
  }

  /**
   * `update(externalId, d)` at time `now`: rewrites the columns, marks the
   * row seen now and active, and keeps its id, url, first sighting and
   * deletion flag; the count is the number of rows the `WHERE` matched.
   */
  function Update(t: Table, externalId: string, d: PhdData, now: int): (r: (nat, Table))
    requires Valid(t)
    ensures Valid(r.1)
    ensures r.0 > 0 <==> externalId in t.rows
    ensures r.0 <= 1
    ensures externalId !in t.rows ==> r.1 == t
    ensures externalId in t.rows ==>
      var old_ := t.rows[externalId];
      r.1 == t.(rows := t.rows[externalId := old_.(cols := ToColumns(d), lastSeenAt := now, isActive := true)])
  {
    if externalId in t.rows then
      var row := t.rows[externalId];
      (1, t.(rows := t.rows[externalId := row.(cols := ToColumns(d), lastSeenAt := now, isActive := true)]))
    else (0, t)
  }

  /** What `upsert` resolves to. */
  datatype UpsertResult = Added(id: nat) | Refreshed(externalId: string)

  /**
   * `upsert(d)`, where `existing` is what its `findByExternalId` returned
   * (another writer may have changed the table since): an existing row is
   * updated; otherwise an insert is tried, and a duplicate is updated too.
   */
  function Upsert(t: Table, existing: Option<Row>, d: PhdData, now: int): (r: (UpsertResult, Table))
    requires Valid(t)
    ensures Valid(r.1)
    ensures r.0.Refreshed? ==> r.0.externalId == d.externalId
    ensures r.0.Added? <==> existing.None? && d.externalId !in t.rows
  {
    if existing.Some? then (Refreshed(d.externalId), Update(t, d.externalId, d, now).1)
    else
      var (ir, t1) := Insert(t, d, now);
      if ir.Inserted? then (Added(ir.id), t1)
      else (Refreshed(d.externalId), Update(t1, d.externalId, d, now).1)
  }

  /**
   * Run on its own, `upsert` reports `updated` exactly when the external id
   * was already stored. Afterwards the row holds the new columns, is active
   * and was seen now; a row that existed keeps its id, first sighting and
   * deletion flag, so a soft-deleted listing seen again stays deleted.
   */
  lemma UpsertAlone(t: Table, d: PhdData, now: int)
    requires Valid(t)
    ensures var r := Upsert(t, Find(t, d.externalId), d, now);
      var k := d.externalId;
      (r.0.Refreshed? <==> k in t.rows)
      && k in r.1.rows && r.1.rows[k].cols == ToColumns(d)
      && r.1.rows[k].isActive && r.1.rows[k].lastSeenAt == now
      && (k in t.rows ==> r.1.rows[k] == t.rows[k].(cols := ToColumns(d), lastSeenAt := now, isActive := true))
      && (k !in t.rows ==> !r.1.rows[k].isDeleted && r.1.rows[k].firstSeenAt == now)
      && (forall j :: j in t.rows && j != k ==> j in r.1.rows && r.1.rows[j] == t.rows[j])
  {
  }

  /**
   * When another writer stored the external id between the lookup and the
   * insert, the duplicate is caught and the row is updated instead.
   */
  lemma UpsertAfterRace(t: Table, d: PhdData, now: int)
    requires Valid(t) && d.externalId in t.rows
    ensures Upsert(t, None, d, now) == (Refreshed(d.externalId), Update(t, d.externalId, d, now).1)
  {
  }

  /** Rows whose external id is in `ids`, as SQL `IN (...)` picks them. */
  function Listed(ids: seq<string>, rows: map<string, Row>): (s: set<string>)
    ensures forall k :: k in s <==> k in ids && k in rows
  {
    set k | k in ids && k in rows
  }

  /**
   * `markAsDeleted(ids)`: `None` is an argument that is no array. No ids
   * is refused and changes nothing; otherwise every listed row becomes
   * inactive and deleted, and the count is the number of rows matched.
   */
  function MarkAsDeleted(t: Table, ids: Option<seq<string>>): (r: (Result<nat>, Table))
    requires Valid(t)
    ensures Valid(r.1)
    ensures r.0.Err? <==> ids.None? || ids.value == []
    ensures r.0.Err? ==> r.0.message == "No IDs provided" && r.1 == t
    ensures r.0.Ok? ==> r.0.value == |Listed(ids.value, t.rows)|
    ensures r.1.nextId == t.nextId && r.1.rows.Keys == t.rows.Keys
    ensures r.0.Ok? ==> forall k :: k in t.rows ==>
      r.1.rows[k] == if k in ids.value then t.rows[k].(isActive := false, isDeleted := true) else t.rows[k]
  {
    if ids.None? || ids.value == [] then (Err("No IDs provided"), t)
    else (Ok(|Listed(ids.value, t.rows)|), Deleting(t, set k | k in ids.value))
  }

  /** The table after the `UPDATE` of `markAsDeleted` for the external ids `gone`. */
  function Deleting(t: Table, gone: set<string>): (r: Table)
    requires Valid(t)
    ensures Valid(r) && r.nextId == t.nextId && r.rows.Keys == t.rows.Keys
    ensures forall k :: k in t.rows ==>
      r.rows[k] == if k in gone then t.rows[k].(isActive := false, isDeleted := true) else t.rows[k]
  {
    var rows := map k | k in t.rows :: if k in gone then t.rows[k].(isActive := false, isDeleted := true) else t.rows[k];
    Table(rows, t.nextId)
  }

  /**
   * `updateLastSeen(ids)` at time `now`: like `markAsDeleted` in what it
   * refuses and counts, it moves the last sighting of the listed rows to
   * now and changes nothing else.
   */
  function UpdateLastSeen(t: Table, ids: Option<seq<string>>, now: int): (r: (Option<nat>, Table))
    requires Valid(t)
    ensures Valid(r.1)
    ensures r.0.None? <==> ids.None? || ids.value == []
    ensures r.0.None? ==> r.1 == t
    ensures r.0.Some? ==> r.0.value == |Listed(ids.value, t.rows)|
    ensures r.1.nextId == t.nextId && r.1.rows.Keys == t.rows.Keys
    ensures r.0.Some? ==> forall k :: k in t.rows ==>
      r.1.rows[k] == if k in ids.value then t.rows[k].(lastSeenAt := now) else t.rows[k]
  {
    if ids.None? || ids.value == [] then (None, t)
    else
      var rows := map k | k in t.rows :: if k in ids.value then t.rows[k].(lastSeenAt := now) else t.rows[k];
      (Some(|Listed(ids.value, t.rows)|), Table(rows, t.nextId))
  }

  /** Deleting one id ends its row's presence in the active listing, and only its row's. */
  lemma MarkedLeaveActive(t: Table, ids: seq<string>, k: string)
    requires Valid(t) && ids != [] && k in t.rows
    ensures var a := AllActive(MarkAsDeleted(t, Some(ids)).1);
      (k in ids ==> k !in a) && (k !in ids ==> (k in a <==> k in AllActive(t)))
  {
  }

  // ---------------------------------------------------------------------
  // Reads
  // ---------------------------------------------------------------------

  predicate Live(r: Row) { r.isActive && !r.isDeleted }

  /** `getAllActive`: the last sighting of every active, undeleted row. */
  function AllActive(t: Table): (a: map<string, int>)
    ensures forall k :: k in a <==> k in t.rows && Live(t.rows[k])
    ensures forall k :: k in a ==> a[k] == t.rows[k].lastSeenAt
  {
    map k | k in t.rows && Live(t.rows[k]) :: t.rows[k].lastSeenAt
  }

  /** The options of `search`; `None` stands for an option left at its `null` default. */
  datatype SearchOptions = SearchOptions(
    keywords: Option<string>,
    discipline: Option<string>,
    subject: Option<string>,
    country: Option<string>,
    university: Option<string>,
    fundingType: Option<string>,
    page: int,
    limit: int)

  /** `column LIKE '%p%'`: SQLite's `LIKE` ignores ASCII case; `NULL` matches nothing; a `%` or `_` inside `p` is read as itself. */
  predicate Like(column: Option<string>, p: string)
  {
    column.Some? && Contains(LowerStr(column.value), LowerStr(p))
  }

  /** `column = v` for a supplied filter value. */
  predicate EqualsFilter(column: Option<string>, v: Option<string>)
  {
    Truthy(v) ==> column == v
  }

  /** The `WHERE` clause of `search`: live, and every supplied filter holds. */
  predicate Matches(r: Row, o: SearchOptions)
  {
    Live(r)
    && (Truthy(o.keywords) ==>
          Like(r.cols.title, o.keywords.value) || Like(r.cols.description, o.keywords.value)
          || Like(r.cols.university, o.keywords.value))
    && EqualsFilter(r.cols.discipline, o.discipline)
    && EqualsFilter(r.cols.subject, o.subject)
    && EqualsFilter(r.cols.country, o.country)
    && (Truthy(o.university) ==> Like(r.cols.university, o.university.value))
    && EqualsFilter(r.cols.fundingType, o.fundingType)
  }

  /** The matching rows of `table`, in its order, each as often as the table holds it. */
  function Filter(table: seq<Row>, o: SearchOptions): (r: seq<Row>)
    ensures |r| <= |table|
    ensures forall x :: x in r <==> x in table && Matches(x, o)
  {
    if table == [] then []
    else (if Matches(table[0], o) then [table[0]] else []) + Filter(table[1..], o)
  }

  /** Each matching row is kept as often as the table holds it, and no other row at all. */
  lemma {:induction false} FilterMultiset(table: seq<Row>, o: SearchOptions, x: Row)
    ensures multiset(Filter(table, o))[x] == if Matches(x, o) then multiset(table)[x] else 0
    decreases |table|
  {
    if table != [] {
      FilterMultiset(table[1..], o, x);
      assert table == [table[0]] + table[1..];
      var head := if Matches(table[0], o) then [table[0]] else [];
      assert Filter(table, o) == head + Filter(table[1..], o);
      assert multiset(Filter(table, o)) == multiset(head) + multiset(Filter(table[1..], o));
      assert multiset(table) == multiset([table[0]]) + multiset(table[1..]);
    }
  }

  /** Filtering a table cut in two filters each part: the matches keep the table's order. */
  lemma {:induction false} FilterAppend(a: seq<Row>, b: seq<Row>, o: SearchOptions)
    ensures Filter(a + b, o) == Filter(a, o) + Filter(b, o)
    decreases |a|
  {
    if a == [] {
      assert a + b == b;
    } else {
      assert (a + b)[0] == a[0] && (a + b)[1..] == a[1..] + b;
      FilterAppend(a[1..], b, o);
      var head := if Matches(a[0], o) then [a[0]] else [];
      assert Filter(a + b, o) == head + Filter(a[1..] + b, o);
      assert Filter(a, o) == head + Filter(a[1..], o);
    }
  }

  /** The filter of one row is that row when it matches, and nothing otherwise. */
  lemma FilterOne(x: Row, o: SearchOptions)
    ensures Filter([x], o) == if Matches(x, o) then [x] else []
  {
    assert [x][1..] == [];
  }

  /** `Math.ceil(total / limit)` for a non-zero limit. */
  function CeilDiv(total: nat, limit: int): (q: int)
    requires limit != 0
    ensures limit > 0 ==> (q - 1) * limit < total <= q * limit
    ensures limit < 0 ==> q <= 0
  {
    if limit > 0 then (total + limit - 1) / limit else -(total / -limit)
  }

  datatype Pagination = Pagination(page: int, limit: int, total: nat, totalPages: int, hasNextPage: bool, hasPrevPage: bool)

  datatype SearchPage = SearchPage(results: seq<Row>, pagination: Pagination)

  /**
   * `LIMIT l OFFSET o` in SQLite: a negative offset counts as none, a
   * negative limit as no limit.
   */
  function Window(xs: seq<Row>, limit: int, offset: int): (r: seq<Row>)
    ensures var start := if offset < 0 then 0 else if offset > |xs| then |xs| else offset;
      limit >= 0 ==> r == xs[start..if start + limit > |xs| then |xs| else start + limit]
    ensures limit < 0 ==> r == xs[if offset < 0 then 0 else if offset > |xs| then |xs| else offset..]
  {
    var start := if offset < 0 then 0 else if offset > |xs| then |xs| else offset;
    if limit < 0 then xs[start..]
    else xs[start..if start + limit > |xs| then |xs| else start + limit]
  }

  /**
   * `search(options)` over `table`, the rows in the `ORDER BY` order the
   * database returns them: the page of matching rows and its pagination.
   */
  function Search(table: seq<Row>, o: SearchOptions): (r: SearchPage)
    requires o.limit != 0
    ensures forall x :: x in r.results ==> x in table && Matches(x, o)
    ensures r.pagination.total == |Filter(table, o)|
    ensures r.pagination.hasNextPage <==> o.page < r.pagination.totalPages
    ensures r.pagination.hasPrevPage <==> o.page > 1
    ensures o.limit > 0 ==> |r.results| <= o.limit
  {
    var matching := Filter(table, o);
    var total := |matching|;
    var pages := CeilDiv(total, o.limit);
    var results := Window(matching, o.limit, (o.page - 1) * o.limit);
    assert forall x :: x in results ==> x in matching;
    SearchPage(results, Pagination(o.page, o.limit, total, pages, o.page < pages, o.page > 1))
  }

  /** For a positive limit, `page < totalPages` says exactly that matching rows follow this page. */
  lemma NextPageMeansMore(total: nat, limit: int, page: int)
    requires limit > 0
    ensures page < CeilDiv(total, limit) <==> page * limit < total
  {
    var q := CeilDiv(total, limit);
    if page < q {
      assert page <= q - 1;
      MulMonotone(page, q - 1, limit);
    } else {
      MulMonotone(q, page, limit);
    }
  }

  lemma MulMonotone(a: int, b: int, c: int)
    requires a <= b && c > 0
    ensures a * c <= b * c
  {
    assert b * c - a * c == (b - a) * c;
  }

  /**
   * Page `p` with a positive limit holds the matching rows from position
   * `(p - 1) * limit` on; it is non-empty exactly for `1 <= p <= totalPages`.
   */
  lemma {:induction false} PageContents(table: seq<Row>, o: SearchOptions)
    requires o.limit > 0 && o.page >= 1
    ensures var r := Search(table, o);
      var m := Filter(table, o);
      var start := (o.page - 1) * o.limit;
      0 <= start
      && (r.results != [] <==> o.page <= r.pagination.totalPages)
      && (r.results != [] ==> start < |m| && r.results == m[start..if start + o.limit > |m| then |m| else start + o.limit])
  {
    var m := Filter(table, o);
    var start := (o.page - 1) * o.limit;
    MulMonotone(0, o.page - 1, o.limit);
    NextPageMeansMore(|m|, o.limit, o.page - 1);
    var r := Search(table, o);
    assert r.results == Window(m, o.limit, start);
  }

  /** A stored row the listing holds is found by a search exactly when it matches. */
  lemma FilterFindsStored(table: seq<Row>, o: SearchOptions, t: Table, k: string)
    requires Valid(t) && k in t.rows && t.rows[k] in table
    ensures t.rows[k] in Filter(table, o) <==> Matches(t.rows[k], o)
  {
  }

  // ---------------------------------------------------------------------
  // The repository object
  // ---------------------------------------------------------------------

  class Repository {
    var table: Table

    predicate Ok()
      reads this
    {
      Valid(table)
    }

    constructor()
      ensures Ok() && table == Empty()
    {
      table := Empty();
    }

    /** `insert(d)`. */
    method InsertRow(d: PhdData, now: int) returns (r: InsertResult)
      requires Ok()
      modifies this
      ensures Ok() && (r, table) == Insert(old(table), d, now)
    {
      var p := Insert(table, d, now);
      r, table := p.0, p.1;
    }

    /** `update(externalId, d)`: `success` is `changes > 0`. */
    method UpdateRow(externalId: string, d: PhdData, now: int) returns (success: bool, changes: nat)
      requires Ok()
      modifies this
      ensures Ok() && (changes, table) == Update(old(table), externalId, d, now)
      ensures success <==> changes > 0
    {
      var p := Update(table, externalId, d, now);
      changes, table := p.0, p.1;
      success := changes > 0;
    }

    /** `upsert(d)`: the lookup, then the update or the insert (and the update after a duplicate). */
    method UpsertRow(d: PhdData, now: int) returns (r: UpsertResult)
      requires Ok()
      modifies this
      ensures Ok() && (r, table) == Upsert(old(table), Find(old(table), d.externalId), d, now)
    {
      var existing := Find(table, d.externalId);
      if existing.Some? {
        var _, _ := UpdateRow(d.externalId, d, now);
        return Refreshed(d.externalId);
      }
      var ir := InsertRow(d, now);
      if ir.Inserted? {
        return Added(ir.id);
      }
      // With the lookup and the insert run back to back the insert cannot
      // meet a duplicate; `Upsert` states the update a concurrent writer forces.
      assert false;
    }

    /** `markAsDeleted(ids)`. */
    method MarkDeleted(ids: Option<seq<string>>) returns (r: Result<nat>)
      requires Ok()
      modifies this
      ensures Ok() && (r, table) == MarkAsDeleted(old(table), ids)
    {
      var p := MarkAsDeleted(table, ids);
      r, table := p.0, p.1;
    }

    /** `updateLastSeen(ids)`. */
    method TouchLastSeen(ids: Option<seq<string>>, now: int) returns (r: Option<nat>)
      requires Ok()
      modifies this
      ensures Ok() && (r, table) == UpdateLastSeen(old(table), ids, now)
    {
      var p := UpdateLastSeen(table, ids, now);
      r, table := p.0, p.1;
    }

    /** `getAllActive()`. */
    function Active(): map<string, int>
      reads this
    {
      AllActive(table)
    }
  }
}
