/**
 * The session registry (src/api/sessionManager.js): sessions by id, and
 * for every user the ids of the user's sessions in creation order. Each
 * session keeps the searches made in it and the current one. The two
 * maps are kept consistent by creation, deletion and cleanup. Ids come
 * from a fresh-id argument (the source draws a uuid) and time is the
 * `now` argument.
 */
module SessionManager {
  import opened Wrappers
  import OrderedMaps
  import Seqs

  /** Sessions idle for longer than this are removed by `cleanup`. */
  const MaxAge: int := 24 * 60 * 60 * 1000
  /** `getStats` counts a session as active when it was used within this window. */
  const ActiveWindow: int := 60 * 60 * 1000

  const SessionNotFound := "Session not found"
  const SearchNotFound := "Search not found"

  /** A search state: the fields `saveSearchState` creates and the ones `updateSearchState` later assigns. */
  datatype Search<F, R> = Search(
    id: string, sessionId: string, query: Option<string>, filters: F,
    currentPage: int, totalPages: Option<int>, results: seq<R>, status: string,
    createdAt: int, updatedAt: int, error: Option<string>,
    totalResults: Option<int>, fromCache: Option<bool>)

  /** A session; `currentSearch` is the id of the search object it refers to. */
  datatype Session<F, R> = Session(
    id: string, userId: string, createdAt: int, lastAccessedAt: int,
    searches: seq<Search<F, R>>, currentSearch: Option<string>)

  /** The `searchData` argument of `saveSearchState`; absent fields are `None`. */
  datatype SearchData<F, R> = SearchData(
    query: Option<string>, filters: F, page: Option<int>, totalPages: Option<int>,
    results: Option<seq<R>>, status: Option<string>)

  /** The `updates` argument of `updateSearchState`: the fields it assigns, the absent ones left alone. */
  datatype SearchUpdate<R> = SearchUpdate(
    status: Option<string>, results: Option<seq<R>>, totalPages: Option<int>, currentPage: Option<int>,
    totalResults: Option<int>, fromCache: Option<bool>, error: Option<string>)

  datatype Registry<F, R> = Registry(
    sessions: OrderedMaps.OrderedMap<string, Session<F, R>>, userSessions: map<string, seq<string>>)

  /** `sessions.get(id)` and `userSessions` agree both ways, no user keeps an empty list, and a list names each session once. */
  ghost predicate Consistent<F, R>(reg: Registry<F, R>)
  {
    var ss := reg.sessions.values;
    OrderedMaps.Valid(reg.sessions)
    && (forall id :: id in ss ==> ss[id].id == id && ss[id].userId in reg.userSessions && id in reg.userSessions[ss[id].userId])
    && (forall u :: u in reg.userSessions ==>
          reg.userSessions[u] != [] && Seqs.Distinct(reg.userSessions[u])
          && forall id :: id in reg.userSessions[u] ==> id in ss && ss[id].userId == u)
  }

  function EmptyRegistry<F, R>(): (reg: Registry<F, R>)
    ensures Consistent(reg)
  {
    Registry(OrderedMaps.Empty(), map[])
  }

  /** `list.splice(list.indexOf(x), 1)` when `x` is in the list. */
  function RemoveFirst(s: seq<string>, x: string): (r: seq<string>)
    ensures x !in s ==> r == s
    ensures forall y :: y in r ==> y in s
  {
    if s == [] then []
    else if s[0] == x then s[1..]
    else [s[0]] + RemoveFirst(s[1..], x)
  }

  /** In a list without repeats, the removal takes out exactly `x` and leaves no repeats. */
  lemma {:induction false} RemoveFirstDistinct(s: seq<string>, x: string)
    requires Seqs.Distinct(s)
    ensures Seqs.Distinct(RemoveFirst(s, x))
    ensures forall y :: y in RemoveFirst(s, x) <==> y in s && y != x
    decreases |s|
  {
    if s != [] {
      var t := s[1..];
      assert forall i :: 0 <= i < |t| ==> t[i] == s[i + 1];
      assert forall y :: y in s <==> y == s[0] || y in t by {
        assert s == [s[0]] + t;
      }
      if s[0] != x {
        RemoveFirstDistinct(t, x);
        ConsDistinct(s[0], RemoveFirst(t, x));
      }
    }
  }

  lemma ConsDistinct(x: string, r: seq<string>)
    requires Seqs.Distinct(r) && x !in r
    ensures Seqs.Distinct([x] + r)
  {
    var c := [x] + r;
    assert forall i :: 0 < i < |c| ==> c[i] == r[i - 1];
  }

  /** `createSession(userId)` with the fresh id `id` at time `now`. */
  function Create<F, R>(reg: Registry<F, R>, userId: string, id: string, now: int): Registry<F, R>
    requires OrderedMaps.Valid(reg.sessions)
  {
    var list := if userId in reg.userSessions then reg.userSessions[userId] else [];
    Registry(OrderedMaps.Put(reg.sessions, id, Session(id, userId, now, now, [], None)),
             reg.userSessions[userId := list + [id]])
  }

  /**
   * A new session starts with no searches and no current search, its id is
   * appended to its user's list, and the maps stay consistent.
   */
  lemma CreateConsistent<F, R>(reg: Registry<F, R>, userId: string, id: string, now: int)
    requires Consistent(reg) && id !in reg.sessions.values
    ensures var r := Create(reg, userId, id, now);
            Consistent(r) && r.sessions.values == reg.sessions.values[id := Session(id, userId, now, now, [], None)]
            && r.userSessions[userId] == (if userId in reg.userSessions then reg.userSessions[userId] else []) + [id]
            && forall u :: u != userId && u in reg.userSessions ==> u in r.userSessions && r.userSessions[u] == reg.userSessions[u]
  {
    CreateSessionsListed(reg, userId, id, now);
    CreateListsHold(reg, userId, id, now);
  }

  /** After `createSession`, every session is listed under its user. */
  lemma CreateSessionsListed<F, R>(reg: Registry<F, R>, userId: string, id: string, now: int)
    requires Consistent(reg) && id !in reg.sessions.values
    ensures var r := Create(reg, userId, id, now);
            forall x :: x in r.sessions.values ==>
              r.sessions.values[x].id == x && r.sessions.values[x].userId in r.userSessions
              && x in r.userSessions[r.sessions.values[x].userId]
  {
    var r := Create(reg, userId, id, now);
    var list := if userId in reg.userSessions then reg.userSessions[userId] else [];
    var ss := r.sessions.values;
    forall x | x in ss
      ensures ss[x].id == x && ss[x].userId in r.userSessions && x in r.userSessions[ss[x].userId]
    {
      if x != id && ss[x].userId == userId {
        assert x in list;
      }
    }
  }

  /** After `createSession`, every user's list is non-empty, without repeats, and names only that user's sessions. */
  lemma CreateListsHold<F, R>(reg: Registry<F, R>, userId: string, id: string, now: int)
    requires Consistent(reg) && id !in reg.sessions.values
    ensures var r := Create(reg, userId, id, now);
            forall u :: u in r.userSessions ==>
              r.userSessions[u] != [] && Seqs.Distinct(r.userSessions[u])
              && forall x :: x in r.userSessions[u] ==> x in r.sessions.values && r.sessions.values[x].userId == u
  {
    var r := Create(reg, userId, id, now);
    var list := if userId in reg.userSessions then reg.userSessions[userId] else [];
    var ss := r.sessions.values;
    assert id !in list;
    assert Seqs.Distinct(list + [id]) by {
      assert forall i :: 0 <= i < |list| ==> (list + [id])[i] == list[i];
    }
    forall u | u in r.userSessions
      ensures r.userSessions[u] != [] && Seqs.Distinct(r.userSessions[u])
      ensures forall x :: x in r.userSessions[u] ==> x in ss && ss[x].userId == u
    {
      if u == userId {
        assert forall x :: x in list + [id] ==> x in list || x == id;
      }
    }
  }

  /** `deleteSession(id)`: whether there was one, and the registry without it. */
  function Delete<F, R>(reg: Registry<F, R>, id: string): (bool, Registry<F, R>)
    requires OrderedMaps.Valid(reg.sessions)
  {
    if id !in reg.sessions.values then (false, reg)
    else
      var u := reg.sessions.values[id].userId;
      var us :=
        if u in reg.userSessions then
          var list := RemoveFirst(reg.userSessions[u], id);
          if list == [] then reg.userSessions - {u} else reg.userSessions[u := list]
        else reg.userSessions;
      (true, Registry(OrderedMaps.Remove(reg.sessions, id), us))
  }

  /** An unknown id changes nothing; a known one leaves both maps without it, and consistent. */
  lemma DeleteConsistent<F, R>(reg: Registry<F, R>, id: string)
    requires Consistent(reg)
    ensures Delete(reg, id).0 <==> id in reg.sessions.values
    ensures !Delete(reg, id).0 ==> Delete(reg, id).1 == reg
    ensures var r := Delete(reg, id).1;
            Consistent(r) && r.sessions.values == reg.sessions.values - {id}
            && forall u :: u in r.userSessions ==> id !in r.userSessions[u]
  {
    if id in reg.sessions.values {
      var r := Delete(reg, id).1;
      var u := reg.sessions.values[id].userId;
      var list := RemoveFirst(reg.userSessions[u], id);
      RemoveFirstDistinct(reg.userSessions[u], id);
      forall v | v in r.userSessions
        ensures id !in r.userSessions[v]
        ensures forall x :: x in r.userSessions[v] ==> x in r.sessions.values && r.sessions.values[x].userId == v
      {
        if v != u {
          assert r.userSessions[v] == reg.userSessions[v];
        }
      }
      forall x | x in r.sessions.values
        ensures r.sessions.values[x].userId in r.userSessions && x in r.userSessions[r.sessions.values[x].userId]
      {
        var w := reg.sessions.values[x].userId;
        if w == u {
          assert x in list;
        }
      }
    }
  }

  /** A session idle for longer than the maximum age. */
  predicate Expired<F, R>(s: Session<F, R>, now: int)
  {
    now - s.lastAccessedAt > MaxAge
  }

  /** One iteration of `cleanup`'s loop, for the entry `id`. */
  function CleanupStep<F, R>(reg: Registry<F, R>, id: string, now: int): Registry<F, R>
    requires OrderedMaps.Valid(reg.sessions)
  {
    if id in reg.sessions.values && Expired(reg.sessions.values[id], now) then Delete(reg, id).1 else reg
  }

  /** `cleanup()`'s loop over the entries `ids`, in order. */
  function CleanupFrom<F, R>(reg: Registry<F, R>, ids: seq<string>, now: int): Registry<F, R>
    requires Consistent(reg)
    decreases |ids|
  {
    if ids == [] then reg
    else
      DeleteConsistent(reg, ids[0]);
      CleanupFrom(CleanupStep(reg, ids[0], now), ids[1..], now)
  }

  /** `cleanup()` at time `now`. */
  function Cleanup<F, R>(reg: Registry<F, R>, now: int): Registry<F, R>
    requires Consistent(reg)
  {
    CleanupFrom(reg, reg.sessions.keys, now)
  }

  /**
   * The loop removes exactly the listed sessions that are expired, leaves
   * the others as they were and keeps the maps consistent.
   */
  lemma {:induction false} CleanupFromExact<F, R>(reg: Registry<F, R>, ids: seq<string>, now: int)
    requires Consistent(reg)
    ensures var r := CleanupFrom(reg, ids, now);
            Consistent(r)
            && (forall id :: id in r.sessions.values <==>
                  id in reg.sessions.values && !(id in ids && Expired(reg.sessions.values[id], now)))
            && (forall id :: id in r.sessions.values ==> r.sessions.values[id] == reg.sessions.values[id])
    decreases |ids|
  {
    if ids != [] {
      DeleteConsistent(reg, ids[0]);
      var next := CleanupStep(reg, ids[0], now);
      CleanupFromExact(next, ids[1..], now);
      assert forall id :: id in ids <==> id == ids[0] || id in ids[1..] by {
        assert ids == [ids[0]] + ids[1..];
      }
    }
  }

  /** `cleanup()` deletes exactly the sessions idle for more than 24 hours. */
  lemma CleanupExact<F, R>(reg: Registry<F, R>, now: int)
    requires Consistent(reg)
    ensures var r := Cleanup(reg, now);
            Consistent(r)
            && (forall id :: id in r.sessions.values <==> id in reg.sessions.values && !Expired(reg.sessions.values[id], now))
            && (forall id :: id in r.sessions.values ==> r.sessions.values[id] == reg.sessions.values[id])
  {
    CleanupFromExact(reg, reg.sessions.keys, now);
  }

  /** The registry with the session `id` replaced by `s`. */
  function SetSession<F, R>(reg: Registry<F, R>, id: string, s: Session<F, R>): Registry<F, R>
    requires OrderedMaps.Valid(reg.sessions)
  {
    Registry(OrderedMaps.Put(reg.sessions, id, s), reg.userSessions)
  }

  /** Replacing a session by one with the same id and user keeps the registry consistent. */
  lemma SetSessionConsistent<F, R>(reg: Registry<F, R>, id: string, s: Session<F, R>)
    requires Consistent(reg) && id in reg.sessions.values
    requires s.id == id && s.userId == reg.sessions.values[id].userId
    ensures Consistent(SetSession(reg, id, s))
    ensures SetSession(reg, id, s).sessions.keys == reg.sessions.keys
  {
  }

  /** `getSession(id)`: the session with its access time refreshed, or null. */
  function GetSession<F, R>(reg: Registry<F, R>, id: string, now: int): (r: (Option<Session<F, R>>, Registry<F, R>))
    requires Consistent(reg)
    ensures r.0.None? <==> id !in reg.sessions.values
    ensures r.0.None? ==> r.1 == reg
    ensures r.0.Some? ==> r.0.value == reg.sessions.values[id].(lastAccessedAt := now)
                          && r.1.sessions.values == reg.sessions.values[id := r.0.value]
    ensures Consistent(r.1) && r.1.userSessions == reg.userSessions
  {
    if id !in reg.sessions.values then (None, reg)
    else
      var s := reg.sessions.values[id].(lastAccessedAt := now);
      SetSessionConsistent(reg, id, s);
      (Some(s), SetSession(reg, id, s))
  }

  /** The search with the given id, first in the list. */
  function FindSearch<F, R>(ss: seq<Search<F, R>>, searchId: string): (r: Option<nat>)
    ensures r.Some? ==> r.value < |ss| && ss[r.value].id == searchId
                        && forall j :: 0 <= j < r.value ==> ss[j].id != searchId
    ensures r.None? ==> forall j :: 0 <= j < |ss| ==> ss[j].id != searchId
  {
    if ss == [] then None
    else if ss[0].id == searchId then Some(0)
    else
      match FindSearch(ss[1..], searchId)
      case None => None
      case Some(k) => Some(k + 1)
  }

  /** The search state `saveSearchState` creates, with its defaults. */
  function NewSearch<F, R>(sessionId: string, searchId: string, d: SearchData<F, R>, now: int): (s: Search<F, R>)
    ensures s.currentPage == (if d.page.Some? && d.page.value != 0 then d.page.value else 1)
    ensures s.totalPages == (if d.totalPages.Some? && d.totalPages.value != 0 then d.totalPages else None)
    ensures s.results == (if d.results.Some? then d.results.value else [])
    ensures s.status == (if d.status.Some? && d.status.value != "" then d.status.value else "pending")
    ensures s.error.None? && s.createdAt == s.updatedAt == now
  {
    Search(searchId, sessionId, d.query, d.filters,
           if d.page.Some? && d.page.value != 0 then d.page.value else 1,
           if d.totalPages.Some? && d.totalPages.value != 0 then d.totalPages else None,
           if d.results.Some? then d.results.value else [],
           if d.status.Some? && d.status.value != "" then d.status.value else "pending",
           now, now, None, None, None)
  }

  /** `saveSearchState(sessionId, data)` with the fresh search id `searchId`. */
  function SaveSearch<F, R>(reg: Registry<F, R>, sessionId: string, d: SearchData<F, R>, searchId: string, now: int)
    : (r: Result<(Search<F, R>, Registry<F, R>)>)
    requires Consistent(reg)
    ensures r.Err? <==> sessionId !in reg.sessions.values
    ensures r.Err? ==> r.message == SessionNotFound
    ensures r.Ok? ==> r.value.0 == NewSearch(sessionId, searchId, d, now) && Consistent(r.value.1)
  {
    if sessionId !in reg.sessions.values then Err(SessionNotFound)
    else
      var session := reg.sessions.values[sessionId];
      var s := NewSearch(sessionId, searchId, d, now);
      var updated := session.(lastAccessedAt := now, searches := session.searches + [s], currentSearch := Some(searchId));
      SetSessionConsistent(reg, sessionId, updated);
      Ok((s, SetSession(reg, sessionId, updated)))
  }

  /** A search appended behind searches with other ids is found at the end. */
  lemma {:induction false} FindAppended<F, R>(ss: seq<Search<F, R>>, s: Search<F, R>)
    requires forall j :: 0 <= j < |ss| ==> ss[j].id != s.id
    ensures FindSearch(ss + [s], s.id) == Some(|ss|)
    decreases |ss|
  {
    if ss != [] {
      assert (ss + [s])[1..] == ss[1..] + [s];
      assert forall j :: 0 <= j < |ss| - 1 ==> ss[1..][j] == ss[j + 1];
      FindAppended(ss[1..], s);
    }
  }

  /**
   * Saving appends the new search to the session's searches, makes it the
   * current one, and a search by its (fresh) id finds it; no other session
   * changes.
   */
  lemma SavedIsCurrent<F, R>(reg: Registry<F, R>, sessionId: string, d: SearchData<F, R>, searchId: string, now: int)
    requires Consistent(reg) && sessionId in reg.sessions.values
    requires forall j :: 0 <= j < |reg.sessions.values[sessionId].searches| ==> reg.sessions.values[sessionId].searches[j].id != searchId
    ensures var (s, next) := SaveSearch(reg, sessionId, d, searchId, now).value;
            var before := reg.sessions.values[sessionId];
            sessionId in next.sessions.values
            && next.sessions.values[sessionId].searches == before.searches + [s]
            && next.sessions.values[sessionId].currentSearch == Some(searchId)
            && next.sessions.values[sessionId].lastAccessedAt == now
            && FindSearch(next.sessions.values[sessionId].searches, searchId) == Some(|before.searches|)
            && forall id :: id in reg.sessions.values && id != sessionId ==> next.sessions.values[id] == reg.sessions.values[id]
  {
    var s := NewSearch(sessionId, searchId, d, now);
    FindAppended(reg.sessions.values[sessionId].searches, s);
  }

  /**
   * `resumeSearch(sessionId, searchId)`: the search becomes the current one.
   * The lookup through `getSession` has already refreshed the access time
   * when the search turns out to be missing, so that error keeps the refresh.
   */
  function ResumeSearch<F, R>(reg: Registry<F, R>, sessionId: string, searchId: string, now: int)
    : (r: (Result<Search<F, R>>, Registry<F, R>))
    requires Consistent(reg)
    ensures Consistent(r.1)
    ensures sessionId !in reg.sessions.values ==> r == (Err(SessionNotFound), reg)
    ensures sessionId in reg.sessions.values && FindSearch(reg.sessions.values[sessionId].searches, searchId).None?
            ==> r == (Err(SearchNotFound), GetSession(reg, sessionId, now).1)
    ensures r.0.Ok? ==> sessionId in reg.sessions.values && r.0.value.id == searchId
                        && r.0.value in reg.sessions.values[sessionId].searches
  {
    if sessionId !in reg.sessions.values then (Err(SessionNotFound), reg)
    else
      var touched := GetSession(reg, sessionId, now).1;
      var session := touched.sessions.values[sessionId];
      match FindSearch(session.searches, searchId)
      case None => (Err(SearchNotFound), touched)
      case Some(k) =>
        var updated := session.(currentSearch := Some(searchId), lastAccessedAt := now);
        SetSessionConsistent(touched, sessionId, updated);
        (Ok(session.searches[k]), SetSession(touched, sessionId, updated))
  }

  /** Resuming changes only the current search and the access time of that session. */
  lemma ResumedIsCurrent<F, R>(reg: Registry<F, R>, sessionId: string, searchId: string, now: int)
    requires Consistent(reg) && ResumeSearch(reg, sessionId, searchId, now).0.Ok?
    ensures var next := ResumeSearch(reg, sessionId, searchId, now).1;
            var before := reg.sessions.values[sessionId];
            sessionId in next.sessions.values
            && next.sessions.values[sessionId] == before.(lastAccessedAt := now, currentSearch := Some(searchId))
            && forall id :: id in reg.sessions.values && id != sessionId ==> next.sessions.values[id] == reg.sessions.values[id]
  {
  }

  /** `Object.assign(search, updates)` followed by `search.updatedAt = now`. */
  function Assign<F, R>(s: Search<F, R>, u: SearchUpdate<R>, now: int): (r: Search<F, R>)
    ensures r.id == s.id && r.sessionId == s.sessionId && r.query == s.query && r.filters == s.filters
    ensures r.createdAt == s.createdAt && r.updatedAt == now
    ensures r.status == (if u.status.Some? then u.status.value else s.status)
    ensures r.results == (if u.results.Some? then u.results.value else s.results)
    ensures r.fromCache == (if u.fromCache.Some? then u.fromCache else s.fromCache)
    ensures r.totalPages == (if u.totalPages.Some? then u.totalPages else s.totalPages)
    ensures r.currentPage == (if u.currentPage.Some? then u.currentPage.value else s.currentPage)
    ensures r.totalResults == (if u.totalResults.Some? then u.totalResults else s.totalResults)
    ensures r.error == (if u.error.Some? then u.error else s.error)
  {
    s.(status := if u.status.Some? then u.status.value else s.status,
       results := if u.results.Some? then u.results.value else s.results,
       totalPages := if u.totalPages.Some? then u.totalPages else s.totalPages,
       currentPage := if u.currentPage.Some? then u.currentPage.value else s.currentPage,
       totalResults := if u.totalResults.Some? then u.totalResults else s.totalResults,
       fromCache := if u.fromCache.Some? then u.fromCache else s.fromCache,
       error := if u.error.Some? then u.error else s.error,
       updatedAt := now)
  }

  /** `updateSearchState(sessionId, searchId, updates)`; a missing search keeps the refresh of `getSession`, as above. */
  function UpdateSearch<F, R>(reg: Registry<F, R>, sessionId: string, searchId: string, u: SearchUpdate<R>, now: int)
    : (r: (Result<Search<F, R>>, Registry<F, R>))
    requires Consistent(reg)
    ensures Consistent(r.1)
    ensures sessionId !in reg.sessions.values ==> r == (Err(SessionNotFound), reg)
    ensures sessionId in reg.sessions.values && FindSearch(reg.sessions.values[sessionId].searches, searchId).None?
            ==> r == (Err(SearchNotFound), GetSession(reg, sessionId, now).1)
    ensures sessionId in reg.sessions.values && FindSearch(reg.sessions.values[sessionId].searches, searchId).Some? ==> r.0.Ok?
    ensures r.0.Ok? ==> sessionId in reg.sessions.values && FindSearch(reg.sessions.values[sessionId].searches, searchId).Some?
                        && r.0.value == Assign(reg.sessions.values[sessionId].searches[FindSearch(reg.sessions.values[sessionId].searches, searchId).value], u, now)
  {
    if sessionId !in reg.sessions.values then (Err(SessionNotFound), reg)
    else
      var touched := GetSession(reg, sessionId, now).1;
      var session := touched.sessions.values[sessionId];
      match FindSearch(session.searches, searchId)
      case None => (Err(SearchNotFound), touched)
      case Some(k) =>
        var s := Assign(session.searches[k], u, now);
        var updated := session.(searches := session.searches[k := s], lastAccessedAt := now);
        SetSessionConsistent(touched, sessionId, updated);
        (Ok(s), SetSession(touched, sessionId, updated))
  }

  /** Only the updated search changes: every other search of the session, and every other session, is as it was. */
  lemma UpdateTouchesOneSearch<F, R>(reg: Registry<F, R>, sessionId: string, searchId: string, u: SearchUpdate<R>, now: int)
    requires Consistent(reg) && UpdateSearch(reg, sessionId, searchId, u, now).0.Ok?
    ensures var (s, next) := (UpdateSearch(reg, sessionId, searchId, u, now).0.value, UpdateSearch(reg, sessionId, searchId, u, now).1);
            var before := reg.sessions.values[sessionId];
            var k := FindSearch(before.searches, searchId).value;
            sessionId in next.sessions.values
            && next.sessions.values[sessionId].searches == before.searches[k := s]
            && next.sessions.values[sessionId].lastAccessedAt == now
            && next.sessions.values[sessionId].currentSearch == before.currentSearch
            && forall id :: id in reg.sessions.values && id != sessionId ==> next.sessions.values[id] == reg.sessions.values[id]
  {
  }

  /** Replacing the search found for an id by one with the same id leaves it found there. */
  lemma FindReplaced<F, R>(ss: seq<Search<F, R>>, searchId: string, x: Search<F, R>)
    requires FindSearch(ss, searchId).Some? && x.id == searchId
    ensures FindSearch(ss[FindSearch(ss, searchId).value := x], searchId) == FindSearch(ss, searchId)
  {
    var k := FindSearch(ss, searchId).value;
    var t := ss[k := x];
    assert forall j :: 0 <= j < k ==> t[j] == ss[j];
    assert t[k].id == searchId;
    var f := FindSearch(t, searchId);
    assert f.Some? && f.value <= k;
    assert f.value >= k by {
      assert forall j :: 0 <= j < k ==> t[j].id != searchId;
    }
  }

  /** `getSearchHistory(sessionId)`. */
  function SearchHistory<F, R>(reg: Registry<F, R>, sessionId: string, now: int)
    : (r: Result<(seq<Search<F, R>>, Registry<F, R>)>)
    requires Consistent(reg)
    ensures r.Err? <==> sessionId !in reg.sessions.values
    ensures r.Ok? ==> r.value.0 == reg.sessions.values[sessionId].searches && Consistent(r.value.1)
  {
    var (got, reg1) := GetSession(reg, sessionId, now);
    match got
    case None => Err(SessionNotFound)
    case Some(session) => Ok((session.searches, reg1))
  }

  /** `ids.map(id => sessions.get(id)).filter(Boolean)`. */
  function Resolve<F, R>(ss: map<string, Session<F, R>>, ids: seq<string>): (r: seq<Session<F, R>>)
    ensures |r| <= |ids|
    ensures (forall id :: id in ids ==> id !in ss) ==> r == []
  {
    if ids == [] then []
    else (if ids[0] in ss then [ss[ids[0]]] else []) + Resolve(ss, ids[1..])
  }

  /** `getUserSessions(userId)`. */
  function UserSessions<F, R>(reg: Registry<F, R>, userId: string): seq<Session<F, R>>
  {
    Resolve(reg.sessions.values, if userId in reg.userSessions then reg.userSessions[userId] else [])
  }

  /** With consistent maps every listed id resolves: the user's sessions, all of them, in creation order. */
  lemma {:induction false} ResolveAll<F, R>(ss: map<string, Session<F, R>>, ids: seq<string>)
    requires forall id :: id in ids ==> id in ss
    ensures |Resolve(ss, ids)| == |ids|
    ensures forall k :: 0 <= k < |ids| ==> Resolve(ss, ids)[k] == ss[ids[k]]
    decreases |ids|
  {
    if ids != [] {
      ResolveAll(ss, ids[1..]);
    }
  }

  lemma UserSessionsInOrder<F, R>(reg: Registry<F, R>, userId: string)
    requires Consistent(reg) && userId in reg.userSessions
    ensures var r := UserSessions(reg, userId);
            |r| == |reg.userSessions[userId]|
            && forall k :: 0 <= k < |r| ==> r[k].id == reg.userSessions[userId][k] && r[k].userId == userId
  {
    ResolveAll(reg.sessions.values, reg.userSessions[userId]);
  }

  datatype Stats = Stats(totalSessions: nat, totalUsers: nat, activeSessions: nat)

  /** How many of the listed sessions were used within the last hour. */
  function CountActive<F, R>(ss: map<string, Session<F, R>>, ids: seq<string>, now: int): (n: nat)
    requires forall id :: id in ids ==> id in ss
    ensures n <= |ids|
  {
    if ids == [] then 0
    else (if now - ss[ids[0]].lastAccessedAt < ActiveWindow then 1 else 0) + CountActive(ss, ids[1..], now)
  }

  /** Every listed session is counted when each was used within the window, and none is when none was. */
  lemma {:induction false} CountActiveBounds<F, R>(ss: map<string, Session<F, R>>, ids: seq<string>, now: int)
    requires forall id :: id in ids ==> id in ss
    ensures (forall id :: id in ids ==> now - ss[id].lastAccessedAt < ActiveWindow) ==> CountActive(ss, ids, now) == |ids|
    ensures (forall id :: id in ids ==> now - ss[id].lastAccessedAt >= ActiveWindow) ==> CountActive(ss, ids, now) == 0
    decreases |ids|
  {
    if ids != [] {
      assert forall id :: id in ids[1..] ==> id in ids;
      CountActiveBounds(ss, ids[1..], now);
    }
  }

  /** `getStats()`. */
  function GetStats<F, R>(reg: Registry<F, R>, now: int): (r: Stats)
    requires Consistent(reg)
    ensures r.totalSessions == |reg.sessions.keys| && r.totalUsers == |reg.userSessions|
    ensures r.activeSessions <= r.totalSessions
  {
    Stats(|reg.sessions.keys|, |reg.userSessions|, CountActive(reg.sessions.values, reg.sessions.keys, now))
  }

  /** The singleton `sessionManager`. */
  class Manager<F, R> {
    var reg: Registry<F, R>

    ghost predicate Valid()
      reads this
    {
      Consistent(reg)
    }

    constructor ()
      ensures Valid() && reg == EmptyRegistry()
    {
      reg := EmptyRegistry();
    }

    /** `createSession(userId)`, with `id` the fresh uuid. */
    method CreateSession(userId: string, id: string, now: int) returns (s: Session<F, R>)
      requires Valid() && id !in reg.sessions.values
      modifies this
      ensures Valid() && reg == Create(old(reg), userId, id, now)
      ensures s == Session(id, userId, now, now, [], None)
    {
      CreateConsistent(reg, userId, id, now);
      s := Session(id, userId, now, now, [], None);
      var list := if userId in reg.userSessions then reg.userSessions[userId] else [];
      reg := Registry(OrderedMaps.Put(reg.sessions, id, s), reg.userSessions[userId := list + [id]]);
    }

    /** `getSession(id)`. */
    method GetSessionOf(id: string, now: int) returns (s: Option<Session<F, R>>)
      requires Valid()
      modifies this
      ensures Valid() && (s, reg) == GetSession(old(reg), id, now)
    {
      var r := GetSession(reg, id, now);
      s, reg := r.0, r.1;
    }

    /** `deleteSession(id)`. */
    method DeleteSession(id: string) returns (deleted: bool)
      requires Valid()
      modifies this
      ensures Valid() && (deleted, reg) == Delete(old(reg), id)
    {
      DeleteConsistent(reg, id);
      if id !in reg.sessions.values {
        return false;
      }
      var u := reg.sessions.values[id].userId;
      if u in reg.userSessions {
        var list := RemoveFirst(reg.userSessions[u], id);
        if list == [] {
          reg := reg.(userSessions := reg.userSessions - {u});
        } else {
          reg := reg.(userSessions := reg.userSessions[u := list]);
        }
      }
      reg := reg.(sessions := OrderedMaps.Remove(reg.sessions, id));
      return true;
    }

    /** `saveSearchState(sessionId, data)`, with `searchId` the fresh uuid. */
    method SaveSearchState(sessionId: string, d: SearchData<F, R>, searchId: string, now: int) returns (r: Result<Search<F, R>>)
      requires Valid()
      modifies this
      ensures Valid()
      ensures var t := SaveSearch(old(reg), sessionId, d, searchId, now);
              if t.Ok? then r == Ok(t.value.0) && reg == t.value.1 else r == Err(t.message) && reg == old(reg)
    {
      var t := SaveSearch(reg, sessionId, d, searchId, now);
      if t.Err? {
        return Err(t.message);
      }
      reg := t.value.1;
      return Ok(t.value.0);
    }

    /** `resumeSearch(sessionId, searchId)`. */
    method Resume(sessionId: string, searchId: string, now: int) returns (r: Result<Search<F, R>>)
      requires Valid()
      modifies this
      ensures Valid() && (r, reg) == ResumeSearch(old(reg), sessionId, searchId, now)
    {
      var t := ResumeSearch(reg, sessionId, searchId, now);
      r, reg := t.0, t.1;
    }

    /** `updateSearchState(sessionId, searchId, updates)`. */
    method UpdateSearchState(sessionId: string, searchId: string, u: SearchUpdate<R>, now: int) returns (r: Result<Search<F, R>>)
      requires Valid()
      modifies this
      ensures Valid() && (r, reg) == UpdateSearch(old(reg), sessionId, searchId, u, now)
    {
      var t := UpdateSearch(reg, sessionId, searchId, u, now);
      r, reg := t.0, t.1;
    }

    /** `getSearchHistory(sessionId)`. */
    method GetSearchHistory(sessionId: string, now: int) returns (r: Result<seq<Search<F, R>>>)
      requires Valid()
      modifies this
      ensures Valid()
      ensures var t := SearchHistory(old(reg), sessionId, now);
              if t.Ok? then r == Ok(t.value.0) && reg == t.value.1 else r == Err(t.message) && reg == old(reg)
    {
      var t := SearchHistory(reg, sessionId, now);
      if t.Err? {
        return Err(t.message);
      }
      reg := t.value.1;
      return Ok(t.value.0);
    }

    /** `getUserSessions(userId)`. */
    method GetUserSessions(userId: string) returns (r: seq<Session<F, R>>)
      requires Valid()
      ensures r == UserSessions(reg, userId)
      ensures userId !in reg.userSessions ==> r == []
      ensures userId in reg.userSessions ==> |r| == |reg.userSessions[userId]|
    {
      if userId in reg.userSessions {
        UserSessionsInOrder(reg, userId);
      }
      r := UserSessions(reg, userId);
    }

    /** `getStats()`. */
    method GetStatsAt(now: int) returns (r: Stats)
      requires Valid()
      ensures r == GetStats(reg, now)
    {
      r := GetStats(reg, now);
    }

    /** `cleanup()`: the loop over the entries, deleting the expired ones as it goes. */
    method CleanupAt(now: int)
      requires Valid()
      modifies this
      ensures Valid() && reg == Cleanup(old(reg), now)
    {
      var ids := reg.sessions.keys;
      var i := 0;
      while i < |ids|
        invariant 0 <= i <= |ids| && Valid()
        invariant CleanupFrom(reg, ids[i..], now) == Cleanup(old(reg), now)
        decreases |ids| - i
      {
        var id := ids[i];
        DeleteConsistent(reg, id);
        assert ids[i..][1..] == ids[i + 1..];
        if id in reg.sessions.values && Expired(reg.sessions.values[id], now) {
          var _ := DeleteSession(id);
        }
        i := i + 1;
      }
    }
  }
}
