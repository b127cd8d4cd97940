/**
 * The tab pool (src/api/browserPool.js): browser contexts per session, a
 * count of open tabs bounded by `maxTabs`, and a first-come first-served
 * queue of requests waiting for a tab.
 *
 * Each asynchronous method is taken as one atomic step: in the source the
 * capacity check and the increment of `activeTabCount` are separated by
 * awaits, so the bound holds only under that reading. Playwright itself
 * is outside the model: what its calls throw is given, as the `Playwright`
 * value of the pool for `newContext` and `newPage`, as the `failing` set
 * of tab ids for a page close, and as an argument for `chromium.launch`
 * and `browser.close`. Fresh tab ids and ticket numbers come from counters.
 */
module BrowserPool {
  import opened Wrappers
  import Seqs
  import Text
  import OrderedMaps

  datatype Tab = Tab(id: string, sessionId: string, createdAt: int, lastUsed: int)

  /** A queued request: the `{ sessionId, resolve, reject }` entry, numbered. */
  datatype Ticket = Ticket(number: nat, sessionId: string)

  /** How `acquireTab` ends: a tab, a place in the queue, or the error it throws. */
  datatype Acquisition = Granted(tab: Tab) | Queued(ticket: Ticket) | Failed(message: string)

  /** A ticket the queue handed to `acquireTab`, with how that call ended. */
  datatype Served = Served(ticket: Ticket, outcome: Acquisition)

  type Contexts = OrderedMaps.OrderedMap<string, seq<Tab>>

  /**
   * The errors Playwright throws while a tab is opened: attempt `n` (the
   * one that would open tab number `n`) fails in `newContext` with
   * `contextErrors[n]` or in `newPage` with `pageErrors[n]`, when listed.
   */
  datatype Playwright = Playwright(contextErrors: map<nat, string>, pageErrors: map<nat, string>)

  datatype Pool = Pool(
    browserOpen: bool,
    initialized: bool,
    contexts: Contexts,
    maxTabs: int,
    active: int,
    queue: seq<Ticket>,
    nextTab: nat,
    nextTicket: nat,
    playwright: Playwright)

  /** What `newContext` on a `null` browser throws. */
  const NullBrowser: string := "Cannot read properties of null (reading 'newContext')"
  /** Ten minutes, in milliseconds. */
  const MaxIdleTime: int := 10 * 60 * 1000

  predicate Valid(p: Pool) { OrderedMaps.Valid(p.contexts) }

  /** The constructor's pool: no browser, nothing open, nothing waiting. */
  function Fresh(maxTabs: int, playwright: Playwright): (p: Pool)
    ensures Valid(p) && p.active == 0 && p.queue == [] && p.contexts.keys == []
    ensures !p.browserOpen && !p.initialized && p.playwright == playwright
  {
    Pool(false, false, OrderedMaps.Empty(), maxTabs, 0, [], 0, 0, playwright)
  }

  // ---------------------------------------------------------------------
  // Counting tabs
  // ---------------------------------------------------------------------

  /** The tabs a session holds; none when it has no context. */
  function Size(m: map<string, seq<Tab>>, k: string): nat
  {
    if k in m then |m[k]| else 0
  }

  function SumOf(keys: seq<string>, m: map<string, seq<Tab>>): nat
  {
    if keys == [] then 0 else Size(m, keys[0]) + SumOf(keys[1..], m)
  }

  /** How many tabs are open across all contexts. */
  function Total(c: Contexts): nat
  {
    SumOf(c.keys, c.values)
  }

  /** How far `activeTabCount` is from the tabs actually held. */
  function Drift(p: Pool): int
  {
    p.active - Total(p.contexts)
  }

  lemma {:induction false} SumFrame(keys: seq<string>, m: map<string, seq<Tab>>, k: string, v: seq<Tab>)
    requires k !in keys
    ensures SumOf(keys, m[k := v]) == SumOf(keys, m)
    ensures SumOf(keys, m - {k}) == SumOf(keys, m)
    decreases |keys|
  {
    if keys != [] {
      assert k !in keys[1..];
      SumFrame(keys[1..], m, k, v);
    }
  }

  lemma {:induction false} SumSet(keys: seq<string>, m: map<string, seq<Tab>>, k: string, v: seq<Tab>)
    requires Seqs.Distinct(keys) && k in keys
    ensures SumOf(keys, m[k := v]) == SumOf(keys, m) - Size(m, k) + |v|
    decreases |keys|
  {
    assert forall i, j :: 0 <= i < j < |keys| - 1 ==> keys[1..][i] == keys[i + 1] && keys[1..][j] == keys[j + 1];
    if keys[0] == k {
      assert k !in keys[1..] by {
        assert forall j :: 0 <= j < |keys| - 1 ==> keys[1..][j] == keys[j + 1];
      }
      SumFrame(keys[1..], m, k, v);
    } else {
      assert k in keys[1..] by {
        assert keys == [keys[0]] + keys[1..];
      }
      SumSet(keys[1..], m, k, v);
    }
  }

  lemma {:induction false} SumSnoc(keys: seq<string>, m: map<string, seq<Tab>>, k: string)
    ensures SumOf(keys + [k], m) == SumOf(keys, m) + Size(m, k)
    decreases |keys|
  {
    if keys == [] {
      assert [] + [k] == [k];
      assert [k][1..] == [];
    } else {
      assert (keys + [k])[1..] == keys[1..] + [k];
      SumSnoc(keys[1..], m, k);
    }
  }

  lemma {:induction false} SumWithout(keys: seq<string>, m: map<string, seq<Tab>>, k: string)
    requires Seqs.Distinct(keys) && k in keys
    ensures SumOf(OrderedMaps.Without(keys, k), m - {k}) == SumOf(keys, m) - Size(m, k)
    decreases |keys|
  {
    assert forall i, j :: 0 <= i < j < |keys| - 1 ==> keys[1..][i] == keys[i + 1] && keys[1..][j] == keys[j + 1];
    if keys[0] == k {
      assert k !in keys[1..] by {
        assert forall j :: 0 <= j < |keys| - 1 ==> keys[1..][j] == keys[j + 1];
      }
      OrderedMaps.WithoutAbsent(keys[1..], k);
      SumFrame(keys[1..], m, k, []);
    } else {
      assert k in keys[1..] by {
        assert keys == [keys[0]] + keys[1..];
      }
      SumWithout(keys[1..], m, k);
      var r := OrderedMaps.Without(keys, k);
      assert r == [keys[0]] + OrderedMaps.Without(keys[1..], k);
      assert r[1..] == OrderedMaps.Without(keys[1..], k);
    }
  }

  /** Setting a session's tabs changes the total by the difference in their number. */
  lemma PutTotal(c: Contexts, k: string, v: seq<Tab>)
    requires OrderedMaps.Valid(c)
    ensures Total(OrderedMaps.Put(c, k, v)) == Total(c) - Size(c.values, k) + |v|
  {
    if k in c.values {
      SumSet(c.keys, c.values, k, v);
    } else {
      SumSnoc(c.keys, c.values[k := v], k);
      SumFrame(c.keys, c.values, k, v);
    }
  }

  /** Deleting a session's context takes its tabs out of the total. */
  lemma RemoveTotal(c: Contexts, k: string)
    requires OrderedMaps.Valid(c)
    ensures Total(OrderedMaps.Remove(c, k)) == Total(c) - Size(c.values, k)
  {
    if k in c.keys {
      SumWithout(c.keys, c.values, k);
    } else {
      OrderedMaps.WithoutAbsent(c.keys, k);
      SumFrame(c.keys, c.values, k, []);
    }
  }

  // ---------------------------------------------------------------------
  // Acquiring and serving the queue
  // ---------------------------------------------------------------------

  function TabsOf(c: Contexts, sessionId: string): seq<Tab>
  {
    if sessionId in c.values then c.values[sessionId] else []
  }

  /** The id a new tab gets: distinct for every tab the pool ever opens. */
  function TabId(n: nat): string
  {
    "tab_" + Text.NatToString(n)
  }

  /**
   * `acquireTab(sessionId)` at time `now`. At capacity the request joins
   * the queue and nothing else changes. Below it, the session's context is
   * reused or, if it has none, created (which needs the browser); a tab is
   * opened in it, appended, and counted. A `newContext` that throws
   * changes nothing; a `newPage` that throws leaves the context created
   * for it stored with no tab. Either rejects, and uses up the attempt's
   * number.
   */
  function Acquire(p: Pool, sessionId: string, now: int): (r: (Acquisition, Pool))
    requires Valid(p)
    ensures Valid(r.1) && r.1.maxTabs == p.maxTabs && r.1.browserOpen == p.browserOpen
    ensures r.1.initialized == p.initialized && r.1.playwright == p.playwright
    ensures p.active >= p.maxTabs ==>
      r.0 == Queued(Ticket(p.nextTicket, sessionId))
      && r.1 == p.(queue := p.queue + [r.0.ticket], nextTicket := p.nextTicket + 1)
    ensures p.active < p.maxTabs && sessionId !in p.contexts.values && !p.browserOpen ==>
      r == (Failed(NullBrowser), p)
    ensures CanOpen(p, sessionId) ==> r.1.queue == p.queue && r.1.nextTab == p.nextTab + 1
    ensures CanOpen(p, sessionId) && ContextThrows(p, sessionId) ==>
      r == (Failed(p.playwright.contextErrors[p.nextTab]), p.(nextTab := p.nextTab + 1))
    ensures CanOpen(p, sessionId) && !ContextThrows(p, sessionId) && PageThrows(p) ==>
      r == (Failed(p.playwright.pageErrors[p.nextTab]), p.(contexts := ContextFor(p.contexts, sessionId), nextTab := p.nextTab + 1))
    ensures CanOpen(p, sessionId) && !ContextThrows(p, sessionId) && !PageThrows(p) ==>
      r.0 == Granted(Tab(TabId(p.nextTab), sessionId, now, now))
      && r.1.active == p.active + 1
      && r.1.contexts.values == p.contexts.values[sessionId := TabsOf(p.contexts, sessionId) + [r.0.tab]]
      && (sessionId in p.contexts.values ==> r.1.contexts.keys == p.contexts.keys)
      && (sessionId !in p.contexts.values ==> r.1.contexts.keys == p.contexts.keys + [sessionId])
  {
    if p.active >= p.maxTabs then
      var t := Ticket(p.nextTicket, sessionId);
      (Queued(t), p.(queue := p.queue + [t], nextTicket := p.nextTicket + 1))
    else if sessionId !in p.contexts.values && !p.browserOpen then
      (Failed(NullBrowser), p)
    else Attempt(p, sessionId, now)
  }

  /** Below capacity, with a context or a browser to make one: Playwright is called. */
  predicate CanOpen(p: Pool, sessionId: string)
  {
    p.active < p.maxTabs && (sessionId in p.contexts.values || p.browserOpen)
  }

  /** The session has no context, and creating one throws. */
  predicate ContextThrows(p: Pool, sessionId: string)
  {
    sessionId !in p.contexts.values && p.nextTab in p.playwright.contextErrors
  }

  /** Opening the page throws. */
  predicate PageThrows(p: Pool)
  {
    p.nextTab in p.playwright.pageErrors
  }

  /** The contexts once the session's one is looked up, or created and set with no tab. */
  function ContextFor(c: Contexts, sessionId: string): (r: Contexts)
    requires OrderedMaps.Valid(c)
    ensures OrderedMaps.Valid(r) && sessionId in r.values && r.values[sessionId] == TabsOf(c, sessionId)
  {
    if sessionId in c.values then c else OrderedMaps.Put(c, sessionId, [])
  }

  /** The rest of `acquireTab` once Playwright is called: `newContext` if needed, then `newPage`. */
  function Attempt(p: Pool, sessionId: string, now: int): (r: (Acquisition, Pool))
    requires Valid(p)
  {
    if ContextThrows(p, sessionId) then
      (Failed(p.playwright.contextErrors[p.nextTab]), p.(nextTab := p.nextTab + 1))
    else if PageThrows(p) then
      (Failed(p.playwright.pageErrors[p.nextTab]), p.(contexts := ContextFor(p.contexts, sessionId), nextTab := p.nextTab + 1))
    else WithTab(p, sessionId, now)
  }

  /** The granting branch of `Acquire`: a new tab in the session's context, created if missing. */
  function WithTab(p: Pool, sessionId: string, now: int): (r: (Acquisition, Pool))
    requires Valid(p)
  {
    var tab := Tab(TabId(p.nextTab), sessionId, now, now);
    var c := OrderedMaps.Put(p.contexts, sessionId, TabsOf(p.contexts, sessionId) + [tab]);
    (Granted(tab), p.(contexts := c, active := p.active + 1, nextTab := p.nextTab + 1))
  }

  /**
   * When `newPage` throws for a session that had no context, the context
   * created for it stays stored with no tab: the count is unchanged, but
   * the session now counts among the active ones.
   */
  lemma PageFailureLeavesContext(p: Pool, sessionId: string, now: int)
    requires Valid(p) && p.active < p.maxTabs && p.browserOpen && sessionId !in p.contexts.values
    requires p.nextTab !in p.playwright.contextErrors && p.nextTab in p.playwright.pageErrors
    ensures var (a, r) := Acquire(p, sessionId, now);
      a.Failed? && r.contexts.values == p.contexts.values[sessionId := []]
      && r.contexts.keys == p.contexts.keys + [sessionId]
      && r.active == p.active && Drift(r) == Drift(p)
      && GetStats(r).activeSessions == GetStats(p).activeSessions + 1
  {
    PutTotal(p.contexts, sessionId, []);
  }

  /** `Acquire` below capacity, seen by the queue: nothing is queued and the queue stays. */
  function Grant(p: Pool, sessionId: string, now: int): (r: (Acquisition, Pool))
    requires Valid(p) && p.active < p.maxTabs
    ensures Valid(r.1) && r.1.maxTabs == p.maxTabs && r.1.browserOpen == p.browserOpen
    ensures r.1.initialized == p.initialized && r.1.queue == p.queue && !r.0.Queued?
  {
    Acquire(p, sessionId, now)
  }

  /** Acquiring keeps the count exactly as far from the tabs held as it was. */
  lemma AcquireDrift(p: Pool, sessionId: string, now: int)
    requires Valid(p)
    ensures Drift(Acquire(p, sessionId, now).1) == Drift(p)
  {
    if CanOpen(p, sessionId) && !ContextThrows(p, sessionId) {
      if PageThrows(p) {
        PutTotal(p.contexts, sessionId, []);
      } else {
        var tab := Tab(TabId(p.nextTab), sessionId, now, now);
        PutTotal(p.contexts, sessionId, TabsOf(p.contexts, sessionId) + [tab]);
      }
    }
  }

  /**
   * `_processQueue` at time `now`: while requests wait and the count is
   * below `maxTabs`, the front request is taken off and acquires.
   */
  function Serve(p: Pool, now: int): (r: (seq<Served>, Pool))
    requires Valid(p)
    ensures Valid(r.1) && r.1.maxTabs == p.maxTabs && r.1.browserOpen == p.browserOpen
    ensures r.1.initialized == p.initialized
    ensures |r.0| <= |p.queue| && r.1.queue == p.queue[|r.0|..]
    ensures forall i :: 0 <= i < |r.0| ==> r.0[i].ticket == p.queue[i] && !r.0[i].outcome.Queued?
    ensures r.1.queue != [] ==> r.1.active >= r.1.maxTabs
    decreases |p.queue|
  {
    if p.queue == [] || p.active >= p.maxTabs then ([], p)
    else
      var t := p.queue[0];
      var a := Grant(p.(queue := p.queue[1..]), t.sessionId, now);
      var rest := Serve(a.1, now);
      assert p.queue[1..][|rest.0|..] == p.queue[|rest.0| + 1..];
      ([Served(t, a.0)] + rest.0, rest.1)
  }

  /** Serving the queue keeps the count's distance from the tabs held. */
  lemma {:induction false} ServeDrift(p: Pool, now: int)
    requires Valid(p)
    ensures Drift(Serve(p, now).1) == Drift(p)
    decreases |p.queue|
  {
    if p.queue != [] && p.active < p.maxTabs {
      var t := p.queue[0];
      var q := p.(queue := p.queue[1..]);
      AcquireDrift(q, t.sessionId, now);
      ServeDrift(Acquire(q, t.sessionId, now).1, now);
    }
  }

  /** Neither acquiring nor serving the queue takes the count above `maxTabs`. */
  lemma {:induction false} ServeWithinCapacity(p: Pool, now: int)
    requires Valid(p) && p.active <= p.maxTabs
    ensures Acquire(p, "", now).1.active <= p.maxTabs
    ensures Serve(p, now).1.active <= p.maxTabs
    decreases |p.queue|
  {
    if p.queue != [] && p.active < p.maxTabs {
      var t := p.queue[0];
      var q := p.(queue := p.queue[1..]);
      ServeWithinCapacity(Acquire(q, t.sessionId, now).1, now);
    }
  }

  // ---------------------------------------------------------------------
  // Releasing
  // ---------------------------------------------------------------------

  /** `tabs.findIndex(t => t.id === tabId)`. */
  function TabIndex(tabs: seq<Tab>, tabId: string): (r: Option<nat>)
    ensures r.Some? ==> r.value < |tabs| && tabs[r.value].id == tabId
    ensures r.Some? ==> forall j :: 0 <= j < r.value ==> tabs[j].id != tabId
    ensures r.None? ==> forall j :: 0 <= j < |tabs| ==> tabs[j].id != tabId
  {
    if tabs == [] then None
    else if tabs[0].id == tabId then Some(0)
    else
      var r := TabIndex(tabs[1..], tabId);
      if r.Some? then Some(r.value + 1) else None
  }

  /** The first session, in the map's order, holding a tab with this id, and the tab's place in it. */
  function Locate(keys: seq<string>, m: map<string, seq<Tab>>, tabId: string): (r: Option<(string, nat)>)
    requires forall k :: k in keys ==> k in m
    ensures r.Some? ==> r.value.0 in keys && TabIndex(m[r.value.0], tabId) == Some(r.value.1)
    ensures r.None? ==> forall k :: k in keys ==> TabIndex(m[k], tabId).None?
  {
    if keys == [] then None
    else
      var i := TabIndex(m[keys[0]], tabId);
      if i.Some? then Some((keys[0], i.value)) else Locate(keys[1..], m, tabId)
  }

  /** The tab at `i` of session `s` is closed and no longer counted. */
  function Detach(p: Pool, s: string, i: nat): (r: Pool)
    requires Valid(p) && s in p.contexts.values && i < |p.contexts.values[s]|
    ensures Valid(r) && r.contexts.keys == p.contexts.keys && r.active == p.active - 1
    ensures var tabs := p.contexts.values[s];
      r.contexts.values == p.contexts.values[s := tabs[..i] + tabs[i + 1..]]
    ensures Drift(r) == Drift(p)
    ensures r == p.(contexts := r.contexts, active := p.active - 1)
  {
    var tabs := p.contexts.values[s];
    PutTotal(p.contexts, s, tabs[..i] + tabs[i + 1..]);
    p.(contexts := OrderedMaps.Put(p.contexts, s, tabs[..i] + tabs[i + 1..]), active := p.active - 1)
  }

  /**
   * `releaseTab(tabId)` at time `now`: an id no context holds gives false
   * and changes nothing; otherwise exactly that tab is removed, the count
   * drops by one and the queue is served.
   */
  function Release(p: Pool, tabId: string, now: int): (r: (bool, seq<Served>, Pool))
    requires Valid(p)
    ensures Valid(r.2)
    ensures var loc := Locate(p.contexts.keys, p.contexts.values, tabId);
      (r.0 <==> loc.Some?)
      && (loc.None? ==> r.1 == [] && r.2 == p)
      && (loc.Some? ==> (r.1, r.2) == Serve(Detach(p, loc.value.0, loc.value.1), now))
    ensures Drift(r.2) == Drift(p)
  {
    var loc := Locate(p.contexts.keys, p.contexts.values, tabId);
    if loc.None? then (false, [], p)
    else
      var d := Detach(p, loc.value.0, loc.value.1);
      ServeDrift(d, now);
      var s := Serve(d, now);
      (true, s.0, s.1)
  }

  /** The tabs of `tabs` whose close does not throw: the only ones `releaseSessionTabs` uncounts. */
  function Closed(tabs: seq<Tab>, failing: set<string>): (n: nat)
    ensures n <= |tabs|
    ensures (forall j :: 0 <= j < |tabs| ==> tabs[j].id !in failing) ==> n == |tabs|
  {
    if tabs == [] then 0
    else Closed(tabs[..|tabs| - 1], failing) + (if tabs[|tabs| - 1].id in failing then 0 else 1)
  }

  /** The session's context is dropped, and the count lowered by the tabs that closed. */
  function Drop(p: Pool, sessionId: string, failing: set<string>): (r: Pool)
    requires Valid(p) && sessionId in p.contexts.values
    ensures Valid(r) && r.contexts.values == p.contexts.values - {sessionId}
    ensures r.active == p.active - Closed(p.contexts.values[sessionId], failing)
    ensures Drift(r) == Drift(p) + |p.contexts.values[sessionId]| - Closed(p.contexts.values[sessionId], failing)
    ensures r == p.(contexts := OrderedMaps.Remove(p.contexts, sessionId), active := r.active)
  {
    RemoveTotal(p.contexts, sessionId);
    p.(contexts := OrderedMaps.Remove(p.contexts, sessionId),
       active := p.active - Closed(p.contexts.values[sessionId], failing))
  }

  /**
   * `releaseSessionTabs(sessionId)` at time `now`: nothing for a session
   * without a context; otherwise the context is dropped whatever its tabs'
   * closes do, and the queue is served.
   */
  function ReleaseSession(p: Pool, sessionId: string, failing: set<string>, now: int): (r: (seq<Served>, Pool))
    requires Valid(p)
    ensures Valid(r.1)
    ensures sessionId !in p.contexts.values ==> r == ([], p)
    ensures sessionId in p.contexts.values ==> r == Serve(Drop(p, sessionId, failing), now)
  {
    if sessionId !in p.contexts.values then ([], p)
    else Serve(Drop(p, sessionId, failing), now)
  }

  /**
   * Releasing a session keeps the count in step with the tabs held only
   * when every close succeeds; each failed close leaves the count one too high.
   */
  lemma ReleaseSessionDrift(p: Pool, sessionId: string, failing: set<string>, now: int)
    requires Valid(p) && sessionId in p.contexts.values
    ensures var tabs := p.contexts.values[sessionId];
      Drift(ReleaseSession(p, sessionId, failing, now).1) == Drift(p) + |tabs| - Closed(tabs, failing)
    ensures (forall j :: 0 <= j < |p.contexts.values[sessionId]| ==> p.contexts.values[sessionId][j].id !in failing)
      ==> Drift(ReleaseSession(p, sessionId, failing, now).1) == Drift(p)
  {
    ServeDrift(Drop(p, sessionId, failing), now);
  }

  /**
   * `closeAll()`, where `closeError` is what `browser.close()` throws, if
   * anything: the contexts are dropped and the count is 0 whatever the
   * tab and context closes do; waiting requests stay queued. A browser
   * close that throws rejects and leaves the browser and `isInitialized`
   * as they were; otherwise there is no browser and the pool is no longer
   * initialized.
   */
  function AllClosed(p: Pool, closeError: Option<string>): (r: (Option<string>, Pool))
    ensures Valid(r.1) && r.1.contexts.keys == [] && r.1.active == 0 && Drift(r.1) == 0
    ensures r.1 == p.(contexts := r.1.contexts, active := 0, browserOpen := r.1.browserOpen, initialized := r.1.initialized)
    ensures p.browserOpen && closeError.Some? ==>
      r.0 == closeError && r.1.browserOpen && r.1.initialized == p.initialized
    ensures !(p.browserOpen && closeError.Some?) ==> r.0.None? && !r.1.browserOpen && !r.1.initialized
  {
    var q := p.(contexts := OrderedMaps.Empty(), active := 0);
    if p.browserOpen && closeError.Some? then (closeError, q)
    else (None, q.(browserOpen := false, initialized := false))
  }

  /**
   * `initialize()`, where `launchError` is what `chromium.launch` throws,
   * if anything: an initialized pool is left alone; otherwise a launch
   * that throws rejects and changes nothing, and one that succeeds opens
   * the browser and marks the pool initialized.
   */
  function Initialize(p: Pool, launchError: Option<string>): (r: (Option<string>, Pool))
    ensures p.initialized ==> r == (None, p)
    ensures !p.initialized && launchError.Some? ==> r == (launchError, p)
    ensures !p.initialized && launchError.None? ==> r == (None, p.(browserOpen := true, initialized := true))
  {
    if p.initialized then (None, p)
    else if launchError.Some? then (launchError, p)
    else (None, p.(browserOpen := true, initialized := true))
  }

  /**
   * After a `closeAll` whose `browser.close()` threw, the pool still counts
   * as initialized: a later `initialize()` launches nothing, and acquiring
   * goes on calling `newContext` on the browser that was being closed.
   */
  lemma FailedCloseBlocksRelaunch(p: Pool, closeError: string, launchError: Option<string>)
    requires p.browserOpen && p.initialized
    ensures var (e, q) := AllClosed(p, Some(closeError));
      e == Some(closeError) && q.browserOpen && Initialize(q, launchError) == (None, q)
  {
  }

  /** The first queued request of `sessionId`, as `findIndex` finds it. */
  function FirstOf(q: seq<Ticket>, sessionId: string): (r: Option<nat>)
    ensures r.Some? ==> r.value < |q| && q[r.value].sessionId == sessionId
    ensures r.Some? ==> forall j :: 0 <= j < r.value ==> q[j].sessionId != sessionId
    ensures r.None? ==> forall j :: 0 <= j < |q| ==> q[j].sessionId != sessionId
  {
    if q == [] then None
    else if q[0].sessionId == sessionId then Some(0)
    else
      var r := FirstOf(q[1..], sessionId);
      if r.Some? then Some(r.value + 1) else None
  }

  /**
   * The timer of a queued request of `sessionId` firing: the first queued
   * request of that session is removed, whichever request the timer
   * belonged to, and the request is rejected.
   */
  function Expire(p: Pool, sessionId: string): (r: Pool)
    ensures r == p.(queue := r.queue)
    ensures FirstOf(p.queue, sessionId).None? ==> r == p
    ensures FirstOf(p.queue, sessionId).Some? ==>
      var j := FirstOf(p.queue, sessionId).value;
      r.queue == p.queue[..j] + p.queue[j + 1..] && |r.queue| == |p.queue| - 1
  {
    var j := FirstOf(p.queue, sessionId);
    if j.None? then p else p.(queue := p.queue[..j.value] + p.queue[j.value + 1..])
  }

  /**
   * A served request's timer is cleared only once its tab is delivered,
   * after the awaits of `acquireTab`. With two requests of one session
   * waiting and one tab free, the first is taken off the queue and served;
   * if its timer fires before the tab arrives, it removes the second
   * request, which was still waiting, and the queue is left empty.
   */
  lemma ServedTimerTakesNext(p: Pool, now: int)
    requires Valid(p) && |p.queue| == 2 && p.queue[0].sessionId == p.queue[1].sessionId
    requires p.active + 1 == p.maxTabs && p.nextTab !in p.playwright.pageErrors
    requires p.queue[0].sessionId in p.contexts.values || (p.browserOpen && p.nextTab !in p.playwright.contextErrors)
    ensures var (served, s) := Serve(p, now);
      |served| == 1 && served[0].outcome.Granted? && s.queue == [p.queue[1]]
      && Expire(s, p.queue[0].sessionId).queue == []
  {
    var t := p.queue[0];
    var q := p.(queue := p.queue[1..]);
    var g := Grant(q, t.sessionId, now);
    assert g.1.active == p.maxTabs;
    assert Serve(g.1, now) == ([], g.1);
    assert g.1.queue == [p.queue[1]];
  }

  /** `getStats()`. */
  datatype Stats = Stats(maxTabs: int, activeTabs: int, activeSessions: nat, queueLength: nat, availableTabs: int)

  function GetStats(p: Pool): (s: Stats)
    ensures s.activeTabs + s.availableTabs == s.maxTabs == p.maxTabs
    ensures s.activeTabs == p.active
    ensures s.activeSessions == |p.contexts.keys| && s.queueLength == |p.queue|
  {
    Stats(p.maxTabs, p.active, |p.contexts.keys|, |p.queue|, p.maxTabs - p.active)
  }

  // ---------------------------------------------------------------------
  // Idle tabs
  // ---------------------------------------------------------------------

  predicate Idle(t: Tab, now: int) { now - t.lastUsed > MaxIdleTime }

  /** `tabs.filter(tab => now - tab.lastUsed > maxIdleTime)`. */
  function IdleTabs(tabs: seq<Tab>, now: int): (r: seq<Tab>)
    ensures |r| <= |tabs|
    ensures forall t :: t in r <==> t in tabs && Idle(t, now)
  {
    if tabs == [] then []
    else (if Idle(tabs[0], now) then [tabs[0]] else []) + IdleTabs(tabs[1..], now)
  }

  /** The idle tabs of every context, in the map's order. */
  function IdleIn(keys: seq<string>, m: map<string, seq<Tab>>, now: int): (r: seq<Tab>)
    requires forall k :: k in keys ==> k in m
    ensures forall t :: t in r ==> Idle(t, now) && exists k :: k in keys && t in m[k]
    ensures forall k, t :: k in keys && t in m[k] && Idle(t, now) ==> t in r
  {
    if keys == [] then []
    else IdleTabs(m[keys[0]], now) + IdleIn(keys[1..], m, now)
  }

  /**
   * `releaseTab` of each id in turn. With unique ids, none of the listed
   * ids is left in the pool, provided each was handed out already (a
   * queued request served on the way gets a new id), and every tab with
   * an unlisted id stays in its session.
   */
  function ReleaseEach(p: Pool, ids: seq<string>, now: int): (r: (seq<Served>, Pool))
    requires Valid(p)
    ensures Valid(r.1) && Drift(r.1) == Drift(p)
    ensures Numbered(p) && AllIssued(ids, p.nextTab) ==>
      Numbered(r.1) && AllGone(r.1, ids) && Kept(p, r.1, ids) && Persists(p, r.1)
    decreases |ids|
  {
    if ids == [] then ([], p)
    else
      var first := Release(p, ids[0], now);
      ReleaseNumbered(p, ids[0], now);
      var rest := ReleaseEach(first.2, ids[1..], now);
      ReleaseEachStep(p, first.2, rest.1, ids);
      (first.1 + rest.0, rest.1)
  }

  function Ids(tabs: seq<Tab>): (r: seq<string>)
    ensures |r| == |tabs| && forall i :: 0 <= i < |tabs| ==> r[i] == tabs[i].id
  {
    if tabs == [] then [] else [tabs[0].id] + Ids(tabs[1..])
  }

  /**
   * What `cleanupIdleTabs` promises of `r`, run on `p` at `now`: the ids
   * stay unique, no session holds the id of a tab of `p` unused for over
   * ten minutes, and every other tab of `p` stays in its session.
   */
  ghost predicate CleanedUp(p: Pool, r: Pool, now: int)
  {
    Numbered(r) && IdleReleased(p, r, now) && BusyStay(p, r, now)
  }

  /** No session of `r` holds the id of a tab of `p` unused for over ten minutes at `now`. */
  predicate IdleReleased(p: Pool, r: Pool, now: int)
  {
    forall s, t :: s in p.contexts.values && t in p.contexts.values[s] && Idle(t, now) ==> Gone(r, t.id)
  }

  /** Every tab of `p` used within the last ten minutes stays in its session in `r`. */
  predicate BusyStay(p: Pool, r: Pool, now: int)
  {
    forall s, t :: s in p.contexts.values && t in p.contexts.values[s] && !Idle(t, now) ==>
      s in r.contexts.values && t in r.contexts.values[s]
  }

  /** `cleanupIdleTabs()` at time `now`: every tab unused for over ten minutes is released. */
  function Cleanup(p: Pool, now: int): (r: (seq<Served>, Pool))
    requires Valid(p)
    ensures Valid(r.1) && Drift(r.1) == Drift(p)
    ensures Numbered(p) ==> CleanedUp(p, r.1, now)
  {
    CleanupEffect(p, now);
    ReleaseEach(p, Ids(IdleIn(p.contexts.keys, p.contexts.values, now)), now)
  }

  /** Every id of `ids` was handed out before tab number `next`. */
  ghost predicate AllIssued(ids: seq<string>, next: nat)
  {
    forall x :: x in ids ==> Issued(x, next)
  }

  /** No session of `r` holds any id of `ids`. */
  predicate AllGone(r: Pool, ids: seq<string>)
  {
    forall x :: x in ids ==> Gone(r, x)
  }

  /** Releasing the ids of the idle tabs releases exactly the idle tabs. */
  lemma CleanupEffect(p: Pool, now: int)
    requires Valid(p)
    ensures Numbered(p) ==> CleanedUp(p, ReleaseEach(p, Ids(IdleIn(p.contexts.keys, p.contexts.values, now)), now).1, now)
  {
    if Numbered(p) {
      var ids := Ids(IdleIn(p.contexts.keys, p.contexts.values, now));
      var r := ReleaseEach(p, ids, now).1;
      IdleIdsIssued(p, now);
      assert Numbered(r) && AllGone(r, ids) && Kept(p, r, ids);
      IdleGone(p, r, ids, now);
      BusyKept(p, r, ids, now);
    }
  }

  /** The idle tabs' ids are released. */
  lemma IdleGone(p: Pool, r: Pool, ids: seq<string>, now: int)
    requires Valid(p) && ids == Ids(IdleIn(p.contexts.keys, p.contexts.values, now))
    requires AllGone(r, ids)
    ensures IdleReleased(p, r, now)
  {
    var idle := IdleIn(p.contexts.keys, p.contexts.values, now);
    forall s: string, t: Tab | s in p.contexts.values && t in p.contexts.values[s] && Idle(t, now)
      ensures Gone(r, t.id)
    {
      assert s in p.contexts.keys;
      IdsHas(idle, t);
    }
  }

  /** The id of a listed tab is among the ids of the list. */
  lemma IdsHas(tabs: seq<Tab>, t: Tab)
    requires t in tabs
    ensures t.id in Ids(tabs)
  {
    var j :| 0 <= j < |tabs| && tabs[j] == t;
    assert Ids(tabs)[j] == t.id;
  }

  /** The other tabs have ids not listed for release, so they stay. */
  lemma BusyKept(p: Pool, r: Pool, ids: seq<string>, now: int)
    requires Valid(p) && Numbered(p) && ids == Ids(IdleIn(p.contexts.keys, p.contexts.values, now))
    requires Kept(p, r, ids)
    ensures BusyStay(p, r, now)
  {
    forall s: string, t: Tab | s in p.contexts.values && t in p.contexts.values[s] && !Idle(t, now)
      ensures s in r.contexts.values && t in r.contexts.values[s]
    {
      BusyNotListed(p, ids, now, s, t);
      KeptUse(p, r, ids, s, t);
    }
  }

  /** With unique ids, a tab that is not idle shares its id with no idle tab. */
  lemma BusyNotListed(p: Pool, ids: seq<string>, now: int, s: string, t: Tab)
    requires Valid(p) && Numbered(p) && ids == Ids(IdleIn(p.contexts.keys, p.contexts.values, now))
    requires s in p.contexts.values && t in p.contexts.values[s] && !Idle(t, now)
    ensures t.id !in ids
  {
    var m: map<string, seq<Tab>> := p.contexts.values;
    var idle := IdleIn(p.contexts.keys, m, now);
    var a :| 0 <= a < |m[s]| && m[s][a] == t;
    forall j | 0 <= j < |ids|
      ensures ids[j] != t.id
    {
      assert idle[j] in idle;
      var s2 :| s2 in p.contexts.keys && idle[j] in m[s2];
      var b :| 0 <= b < |m[s2]| && m[s2][b] == idle[j];
      assert m[s2][b] != m[s][a];
    }
  }

  /** The ids of the idle tabs were all handed out already. */
  lemma IdleIdsIssued(p: Pool, now: int)
    requires Valid(p) && Numbered(p)
    ensures AllIssued(Ids(IdleIn(p.contexts.keys, p.contexts.values, now)), p.nextTab)
  {
    var m: map<string, seq<Tab>> := p.contexts.values;
    var idle := IdleIn(p.contexts.keys, m, now);
    var ids := Ids(idle);
    forall x | x in ids
      ensures Issued(x, p.nextTab)
    {
      var j :| 0 <= j < |ids| && ids[j] == x;
      assert idle[j] in idle;
      var s :| s in p.contexts.keys && idle[j] in m[s];
      var a :| 0 <= a < |m[s]| && m[s][a] == idle[j];
    }
  }

  // ---------------------------------------------------------------------
  // Tab ids
  // ---------------------------------------------------------------------

  /** `TabId` gives every counter value its own id. */
  lemma TabIdInjective(a: nat, b: nat)
    requires TabId(a) == TabId(b)
    ensures a == b
  {
    assert TabId(a)[4..] == Text.NatToString(a);
    assert TabId(b)[4..] == Text.NatToString(b);
    Text.NatToStringInjective(a, b);
  }

  /** No tab opened from counter value `next` on gets `id`. */
  ghost predicate Issued(id: string, next: nat)
  {
    forall k: nat :: next <= k ==> id != TabId(k)
  }

  /** An id handed out before a counter value is handed out before every later one. */
  lemma IssuedLater(id: string, a: nat, b: nat)
    requires Issued(id, a) && a <= b
    ensures Issued(id, b)
  {
    forall k: nat | b <= k
      ensures id != TabId(k)
    {
      assert a <= k;
    }
  }

  /**
   * Every tab of the pool has an id of its own, and all ids were handed
   * out before the counter's current value.
   */
  ghost predicate Numbered(p: Pool)
  {
    var m := p.contexts.values;
    (forall s1, s2, i, j :: s1 in m && s2 in m && 0 <= i < |m[s1]| && 0 <= j < |m[s2]| && m[s1][i].id == m[s2][j].id
       ==> s1 == s2 && i == j)
    && (forall s, i :: s in m && 0 <= i < |m[s]| ==> Issued(m[s][i].id, p.nextTab))
  }

  /** No session of the pool holds a tab with this id. */
  predicate Gone(p: Pool, id: string)
  {
    forall s, i :: s in p.contexts.values && 0 <= i < |p.contexts.values[s]| ==> p.contexts.values[s][i].id != id
  }

  /** Every tab of `p` whose id is not listed is still in its session in `r`. */
  predicate Kept(p: Pool, r: Pool, ids: seq<string>)
  {
    forall s, t :: s in p.contexts.values && t in p.contexts.values[s] && t.id !in ids
      ==> s in r.contexts.values && t in r.contexts.values[s]
  }

  /** An id gone from `p` and handed out before its counter is gone from `r` too. */
  ghost predicate Persists(p: Pool, r: Pool)
  {
    p.nextTab <= r.nextTab && forall y :: Gone(p, y) && Issued(y, p.nextTab) ==> Gone(r, y)
  }

  /** Opening a tab keeps the ids unique and loses no tab. */
  lemma WithTabNumbered(p: Pool, sessionId: string, now: int)
    requires Valid(p) && Numbered(p)
    ensures var r := WithTab(p, sessionId, now).1;
      Numbered(r) && Kept(p, r, []) && Persists(p, r)
  {
    var n := p.nextTab;
    var tab := Tab(TabId(n), sessionId, now, now);
    var held := TabsOf(p.contexts, sessionId);
    var m: map<string, seq<Tab>> := p.contexts.values;
    var r := WithTab(p, sessionId, now).1;
    var m2: map<string, seq<Tab>> := r.contexts.values;
    assert m2 == m[sessionId := held + [tab]];
    assert r.nextTab == n + 1;
    forall s: string, i: int | s in m2 && 0 <= i < |m2[s]|
      ensures m2[s][i].id == TabId(n) <==> s == sessionId && i == |held|
      ensures m2[s][i].id != TabId(n) ==> s in m && i < |m[s]| && m2[s][i] == m[s][i]
    {
      if s == sessionId && i == |held| {
      } else {
        assert s in m && i < |m[s]| && m2[s][i] == m[s][i];
        assert Issued(m[s][i].id, n);
      }
    }
    forall s: string, i: int | s in m2 && 0 <= i < |m2[s]|
      ensures Issued(m2[s][i].id, n + 1)
    {
      if m2[s][i].id == TabId(n) {
        forall k: nat | n + 1 <= k
          ensures TabId(n) != TabId(k)
        {
          if TabId(n) == TabId(k) {
            TabIdInjective(n, k);
          }
        }
      }
    }
    forall s: string, t: Tab | s in m && t in m[s]
      ensures s in m2 && t in m2[s]
    {
      if s == sessionId {
        assert held == m[s];
        assert t in held + [tab];
      }
    }
  }

  /** Acquiring keeps the ids unique and loses no tab. */
  lemma AcquireNumbered(p: Pool, sessionId: string, now: int)
    requires Valid(p) && Numbered(p)
    ensures var r := Acquire(p, sessionId, now).1;
      Numbered(r) && Kept(p, r, []) && Persists(p, r)
  {
    if p.active < p.maxTabs && (sessionId in p.contexts.values || p.browserOpen) {
      var r := Attempt(p, sessionId, now).1;
      assert Acquire(p, sessionId, now).1 == r;
      if ContextThrows(p, sessionId) {
        assert r == p.(nextTab := p.nextTab + 1);
        AttemptFailedNumbered(p, sessionId);
      } else if PageThrows(p) {
        assert r == p.(contexts := ContextFor(p.contexts, sessionId), nextTab := p.nextTab + 1);
        AttemptFailedNumbered(p, sessionId);
      } else {
        assert r == WithTab(p, sessionId, now).1;
        WithTabNumbered(p, sessionId, now);
      }
    }
  }

  /** A failed attempt keeps the ids unique and loses no tab: at most an empty context is added. */
  lemma AttemptFailedNumbered(p: Pool, sessionId: string)
    requires Valid(p) && Numbered(p)
    ensures var r := p.(nextTab := p.nextTab + 1);
      Numbered(r) && Kept(p, r, []) && Persists(p, r)
    ensures var r := p.(contexts := ContextFor(p.contexts, sessionId), nextTab := p.nextTab + 1);
      Numbered(r) && Kept(p, r, []) && Persists(p, r)
  {
    var m: map<string, seq<Tab>> := p.contexts.values;
    forall s: string, i: int | s in m && 0 <= i < |m[s]|
      ensures Issued(m[s][i].id, p.nextTab + 1)
    {
      IssuedLater(m[s][i].id, p.nextTab, p.nextTab + 1);
    }
    var r := p.(contexts := ContextFor(p.contexts, sessionId), nextTab := p.nextTab + 1);
    var m2: map<string, seq<Tab>> := r.contexts.values;
    assert forall s :: s in m2 && s != sessionId ==> s in m && m2[s] == m[s];
    assert sessionId !in m ==> m2[sessionId] == [];
  }

  lemma KeptUse(p: Pool, r: Pool, ids: seq<string>, s: string, t: Tab)
    requires Kept(p, r, ids) && s in p.contexts.values && t in p.contexts.values[s] && t.id !in ids
    ensures s in r.contexts.values && t in r.contexts.values[s]
  {
  }

  /** Two steps that each lose no unlisted tab lose none of either list. */
  lemma KeptChain(p: Pool, q: Pool, r: Pool, a: seq<string>, b: seq<string>, c: seq<string>)
    requires Kept(p, q, a) && Kept(q, r, b)
    requires forall x :: x in a || x in b ==> x in c
    ensures Kept(p, r, c)
  {
  }

  lemma PersistsChain(p: Pool, q: Pool, r: Pool)
    requires Persists(p, q) && Persists(q, r)
    ensures Persists(p, r)
  {
    forall y | Gone(p, y) && Issued(y, p.nextTab)
      ensures Gone(r, y)
    {
      assert Gone(q, y);
      IssuedLater(y, p.nextTab, q.nextTab);
    }
  }

  /** A pool with the same contexts and counter has the same tabs. */
  lemma SameTabs(p: Pool, q: Pool)
    requires q.contexts == p.contexts && q.nextTab == p.nextTab
    ensures Numbered(p) ==> Numbered(q)
    ensures Kept(p, q, []) && Persists(p, q)
  {
  }

  /** Serving the queue keeps the ids unique and loses no tab. */
  lemma {:induction false} ServeNumbered(p: Pool, now: int)
    requires Valid(p) && Numbered(p)
    ensures var r := Serve(p, now).1;
      Numbered(r) && Kept(p, r, []) && Persists(p, r)
    decreases |p.queue|
  {
    if p.queue != [] && p.active < p.maxTabs {
      var t := p.queue[0];
      var q := p.(queue := p.queue[1..]);
      SameTabs(p, q);
      var a := Grant(q, t.sessionId, now).1;
      AcquireNumbered(q, t.sessionId, now);
      ServeNumbered(a, now);
      var r := Serve(a, now).1;
      assert Serve(p, now).1 == r;
      KeptChain(p, q, a, [], [], []);
      KeptChain(p, a, r, [], [], []);
      PersistsChain(p, q, a);
      PersistsChain(p, a, r);
    }
  }

  /** Cutting a tab out keeps the ids unique, and that tab's id is gone. */
  lemma DetachNumbered(p: Pool, s: string, i: nat)
    requires Valid(p) && Numbered(p) && s in p.contexts.values && i < |p.contexts.values[s]|
    ensures var d := Detach(p, s, i); var x := p.contexts.values[s][i].id;
      Numbered(d) && Gone(d, x) && Kept(p, d, [x]) && Persists(p, d)
  {
    DetachOrig(p, s, i);
    DetachUnique(p, s, i);
    DetachKept(p, s, i);
  }

  /** Each tab left after the cut is the tab of `p` at its original place. */
  lemma DetachOrig(p: Pool, s: string, i: nat)
    requires Valid(p) && s in p.contexts.values && i < |p.contexts.values[s]|
    ensures var m: map<string, seq<Tab>> := p.contexts.values; var m2: map<string, seq<Tab>> := Detach(p, s, i).contexts.values;
      (forall u :: u in m2 <==> u in m)
      && forall u: string, j: int :: u in m2 && 0 <= j < |m2[u]| ==>
        u in m && Orig(u, s, i, j) < |m[u]| && m2[u][j] == m[u][Orig(u, s, i, j)]
  {
  }

  /** After the cut the ids are still unique and issued, the cut id appears nowhere, and an id gone stays gone. */
  lemma DetachUnique(p: Pool, s: string, i: nat)
    requires Valid(p) && Numbered(p) && s in p.contexts.values && i < |p.contexts.values[s]|
    requires var m: map<string, seq<Tab>> := p.contexts.values; var m2: map<string, seq<Tab>> := Detach(p, s, i).contexts.values;
      forall u: string, j: int :: u in m2 && 0 <= j < |m2[u]| ==>
        u in m && Orig(u, s, i, j) < |m[u]| && m2[u][j] == m[u][Orig(u, s, i, j)]
    ensures var d := Detach(p, s, i); Numbered(d) && Gone(d, p.contexts.values[s][i].id) && Persists(p, d)
  {
    var m: map<string, seq<Tab>> := p.contexts.values;
    var x := m[s][i].id;
    var d := Detach(p, s, i);
    var m2: map<string, seq<Tab>> := d.contexts.values;
    forall u1: string, u2: string, j1: int, j2: int |
        u1 in m2 && u2 in m2 && 0 <= j1 < |m2[u1]| && 0 <= j2 < |m2[u2]| && m2[u1][j1].id == m2[u2][j2].id
      ensures u1 == u2 && j1 == j2
    {
      assert m[u1][Orig(u1, s, i, j1)].id == m[u2][Orig(u2, s, i, j2)].id;
    }
    forall u: string, j: int | u in m2 && 0 <= j < |m2[u]|
      ensures m2[u][j].id != x && Issued(m2[u][j].id, d.nextTab)
    {
      assert m2[u][j] == m[u][Orig(u, s, i, j)];
      assert Issued(m[u][Orig(u, s, i, j)].id, p.nextTab);
    }
    forall y | Gone(p, y) && Issued(y, p.nextTab)
      ensures Gone(d, y)
    {
      forall u: string, j: int | u in m2 && 0 <= j < |m2[u]|
        ensures m2[u][j].id != y
      {
        assert m2[u][j] == m[u][Orig(u, s, i, j)];
      }
    }
  }

  /** Every other tab stays in its session after the cut. */
  lemma DetachKept(p: Pool, s: string, i: nat)
    requires Valid(p) && s in p.contexts.values && i < |p.contexts.values[s]|
    ensures Kept(p, Detach(p, s, i), [p.contexts.values[s][i].id])
  {
    var m: map<string, seq<Tab>> := p.contexts.values;
    var tabs := m[s];
    var x := tabs[i].id;
    var m2: map<string, seq<Tab>> := Detach(p, s, i).contexts.values;
    forall u: string, t: Tab | u in m && t in m[u] && t.id !in [x]
      ensures u in m2 && t in m2[u]
    {
      if u == s {
        var k :| 0 <= k < |tabs| && tabs[k] == t;
        if k < i {
          assert (tabs[..i] + tabs[i + 1..])[k] == t;
        } else {
          assert k != i;
          assert (tabs[..i] + tabs[i + 1..])[k - 1] == t;
        }
      }
    }
  }

  /** Where the tab at `j` of session `u` was before the tab at `i` of `s` was cut out. */
  function Orig(u: string, s: string, i: nat, j: nat): nat
  {
    if u == s && j >= i then j + 1 else j
  }

  /**
   * Releasing an id keeps the ids unique, leaves no tab with that id, and
   * keeps every other tab.
   */
  lemma ReleaseNumbered(p: Pool, x: string, now: int)
    requires Valid(p)
    ensures var r := Release(p, x, now).2;
      Numbered(p) ==> Numbered(r) && Gone(r, x) && Kept(p, r, [x]) && Persists(p, r)
  {
    if Numbered(p) {
      var loc := Locate(p.contexts.keys, p.contexts.values, x);
      if loc.Some? {
        var (s, i) := loc.value;
        var d := Detach(p, s, i);
        DetachNumbered(p, s, i);
        assert Issued(x, d.nextTab);
        ServeNumbered(d, now);
        var r := Serve(d, now).1;
        KeptChain(p, d, r, [x], [], [x]);
        PersistsChain(p, d, r);
      } else {
        forall u: string, j: int | u in p.contexts.values && 0 <= j < |p.contexts.values[u]|
          ensures p.contexts.values[u][j].id != x
        {
          assert u in p.contexts.keys;
          assert TabIndex(p.contexts.values[u], x).None?;
        }
      }
    }
  }

  /** One release followed by the others releases them all. */
  lemma ReleaseEachStep(p: Pool, q: Pool, r: Pool, ids: seq<string>)
    requires ids != []
    ensures Numbered(p) && AllIssued(ids, p.nextTab)
      && (Numbered(q) && Gone(q, ids[0]) && Kept(p, q, [ids[0]]) && Persists(p, q))
      && (AllIssued(ids[1..], q.nextTab) ==>
            Numbered(r) && AllGone(r, ids[1..]) && Kept(q, r, ids[1..]) && Persists(q, r))
      ==> Numbered(r) && AllGone(r, ids) && Kept(p, r, ids) && Persists(p, r)
  {
    if Numbered(p) && AllIssued(ids, p.nextTab)
      && (Numbered(q) && Gone(q, ids[0]) && Kept(p, q, [ids[0]]) && Persists(p, q))
    {
      assert ids == [ids[0]] + ids[1..];
      assert forall x :: x in ids[1..] ==> x in ids;
      forall x | x in ids
        ensures Issued(x, q.nextTab)
      {
        IssuedLater(x, p.nextTab, q.nextTab);
      }
      if Numbered(r) && Kept(q, r, ids[1..]) && Persists(q, r) {
        KeptChain(p, q, r, [ids[0]], ids[1..], ids);
        PersistsChain(p, q, r);
      }
    }
  }

  /** The constructor's pool has no tab, so its ids are trivially unique. */
  lemma FreshNumbered(maxTabs: int, playwright: Playwright)
    ensures Numbered(Fresh(maxTabs, playwright))
  {
  }

  /**
   * The ids stay unique through every operation of the pool, so every
   * pool the operations reach from the constructor's has unique ids.
   */
  lemma NumberedKept(p: Pool, sessionId: string, tabId: string, failing: set<string>, now: int, e: Option<string>)
    requires Valid(p) && Numbered(p)
    ensures Numbered(Acquire(p, sessionId, now).1) && Numbered(Serve(p, now).1)
    ensures Numbered(Release(p, tabId, now).2)
    ensures Numbered(ReleaseSession(p, sessionId, failing, now).1)
    ensures Numbered(Expire(p, sessionId)) && Numbered(AllClosed(p, e).1) && Numbered(Initialize(p, e).1)
    ensures Numbered(Cleanup(p, now).1)
  {
    AcquireNumbered(p, sessionId, now);
    ServeNumbered(p, now);
    ReleaseNumbered(p, tabId, now);
    DropNumbered(p, sessionId, failing, now);
    SameTabs(p, Expire(p, sessionId));
    SameTabs(p, Initialize(p, e).1);
  }

  /** Releasing a session keeps the ids unique. */
  lemma DropNumbered(p: Pool, sessionId: string, failing: set<string>, now: int)
    requires Valid(p) && Numbered(p)
    ensures Numbered(ReleaseSession(p, sessionId, failing, now).1)
  {
    if sessionId in p.contexts.values {
      var d := Drop(p, sessionId, failing);
      assert d.contexts.values == p.contexts.values - {sessionId};
      assert Numbered(d);
      ServeNumbered(d, now);
    }
  }

  // ---------------------------------------------------------------------
  // The pool object
  // ---------------------------------------------------------------------

  class TabPool {
    var browserOpen: bool
    var initialized: bool
    var contexts: Contexts
    const maxTabs: int
    var activeTabCount: int
    var queue: seq<Ticket>
    var nextTab: nat
    var nextTicket: nat
    const playwright: Playwright

    function State(): Pool
      reads this
    {
      Pool(browserOpen, initialized, contexts, maxTabs, activeTabCount, queue, nextTab, nextTicket, playwright)
    }

    predicate Ready()
      reads this
    {
      Valid(State())
    }

    constructor(maxTabs: int, playwright: Playwright)
      ensures Ready() && State() == Fresh(maxTabs, playwright)
    {
      browserOpen := false;
      initialized := false;
      contexts := OrderedMaps.Empty();
      this.maxTabs := maxTabs;
      activeTabCount := 0;
      queue := [];
      nextTab := 0;
      nextTicket := 0;
      this.playwright := playwright;
    }

    /** `initialize()`; a launch that throws is `launchError`, and the error is returned. */
    method InitializeBrowser(launchError: Option<string>) returns (error: Option<string>)
      modifies this
      ensures (error, State()) == Initialize(old(State()), launchError)
    {
      if initialized {
        return None;
      }
      if launchError.Some? {
        return launchError;
      }
      browserOpen := true;
      initialized := true;
      error := None;
    }

    /** `acquireTab(sessionId)`. */
    method AcquireTab(sessionId: string, now: int) returns (r: Acquisition)
      requires Ready()
      modifies this
      ensures Ready() && (r, State()) == Acquire(old(State()), sessionId, now)
    {
      if activeTabCount >= maxTabs {
        var t := Ticket(nextTicket, sessionId);
        queue := queue + [t];
        nextTicket := nextTicket + 1;
        return Queued(t);
      }
      if sessionId !in contexts.values && !browserOpen {
        return Failed(NullBrowser);
      }
      r := OpenTab(sessionId, now);
    }

    /**
     * The rest of `acquireTab`: the context is looked up or created and
     * set, then a tab is opened in it; either Playwright call may throw.
     */
    method OpenTab(sessionId: string, now: int) returns (r: Acquisition)
      requires Ready() && (sessionId in contexts.values || browserOpen)
      modifies this
      ensures Ready() && (r, State()) == Attempt(old(State()), sessionId, now)
    {
      ghost var p := State();
      var n := nextTab;
      nextTab := nextTab + 1;
      if sessionId !in contexts.values {
        if n in playwright.contextErrors {
          return Failed(playwright.contextErrors[n]);
        }
        contexts := OrderedMaps.Put(contexts, sessionId, []);
      }
      assert contexts == ContextFor(p.contexts, sessionId);
      if n in playwright.pageErrors {
        return Failed(playwright.pageErrors[n]);
      }
      var tab := Tab(TabId(n), sessionId, now, now);
      contexts := OrderedMaps.Put(contexts, sessionId, contexts.values[sessionId] + [tab]);
      activeTabCount := activeTabCount + 1;
      r := Granted(tab);
      assert contexts == WithTab(p, sessionId, now).1.contexts;
    }

    /** One round of `_processQueue`'s loop: the front request is shifted off and acquires. */
    method ServeFront(now: int) returns (s: Served)
      requires Ready() && queue != [] && activeTabCount < maxTabs
      modifies this
      ensures Ready() && |queue| < |old(queue)|
      ensures Serve(old(State()), now) == ([s] + Serve(State(), now).0, Serve(State(), now).1)
    {
      var t := queue[0];
      queue := queue[1..];
      var a := AcquireTab(t.sessionId, now);
      s := Served(t, a);
    }

    /** `_processQueue()`: serves the front request while there is room. */
    method ProcessQueue(now: int) returns (served: seq<Served>)
      requires Ready()
      modifies this
      ensures Ready() && (served, State()) == Serve(old(State()), now)
    {
      served := [];
      ghost var goal := Serve(State(), now);
      while queue != [] && activeTabCount < maxTabs
        invariant Ready()
        invariant served + Serve(State(), now).0 == goal.0 && Serve(State(), now).1 == goal.1
        decreases |queue|
      {
        ghost var cur := Serve(State(), now);
        var s := ServeFront(now);
        ghost var next := Serve(State(), now);
        Seqs.AppendAssoc(served, [s], next.0);
        served := served + [s];
      }
      assert Serve(State(), now) == ([], State());
      assert served + [] == served;
    }

    /** The search of `releaseTab(tabId)`: the sessions are visited in the map's order. */
    method FindTab(tabId: string) returns (loc: Option<(string, nat)>)
      requires Ready()
      ensures loc == Locate(contexts.keys, contexts.values, tabId)
    {
      var keys := contexts.keys;
      var i := 0;
      while i < |keys|
        invariant 0 <= i <= |keys|
        invariant Locate(keys, contexts.values, tabId) == Locate(keys[i..], contexts.values, tabId)
      {
        assert keys[i..][0] == keys[i] && keys[i..][1..] == keys[i + 1..];
        var index := TabIndex(contexts.values[keys[i]], tabId);
        if index.Some? {
          return Some((keys[i], index.value));
        }
        i := i + 1;
      }
      return None;
    }

    /** The found tab is spliced out of its session and no longer counted. */
    method DetachTab(s: string, i: nat)
      requires Ready() && s in contexts.values && i < |contexts.values[s]|
      modifies this
      ensures Ready() && State() == Detach(old(State()), s, i)
    {
      var tabs := contexts.values[s];
      contexts := OrderedMaps.Put(contexts, s, tabs[..i] + tabs[i + 1..]);
      activeTabCount := activeTabCount - 1;
    }

    /** `releaseTab(tabId)`. */
    method ReleaseTab(tabId: string, now: int) returns (released: bool, served: seq<Served>)
      requires Ready()
      modifies this
      ensures Ready() && (released, served, State()) == Release(old(State()), tabId, now)
    {
      var loc := FindTab(tabId);
      if loc.None? {
        return false, [];
      }
      DetachTab(loc.value.0, loc.value.1);
      served := ProcessQueue(now);
      released := true;
    }

    /** The closing loop of `releaseSessionTabs`: only the closes that do not throw lower the count. */
    method CloseTabs(tabs: seq<Tab>, failing: set<string>)
      modifies this
      ensures State() == old(State()).(active := old(activeTabCount) - Closed(tabs, failing))
    {
      for j := 0 to |tabs|
        invariant State() == old(State()).(active := old(activeTabCount) - Closed(tabs[..j], failing))
      {
        assert tabs[..j + 1][..j] == tabs[..j];
        if tabs[j].id !in failing {
          activeTabCount := activeTabCount - 1;
        }
      }
      assert tabs[..|tabs|] == tabs;
    }

    /** `releaseSessionTabs(sessionId)`; the closes that throw are those of the ids in `failing`. */
    method ReleaseSessionTabs(sessionId: string, failing: set<string>, now: int) returns (served: seq<Served>)
      requires Ready()
      modifies this
      ensures Ready() && (served, State()) == ReleaseSession(old(State()), sessionId, failing, now)
    {
      if sessionId !in contexts.values {
        return [];
      }
      ghost var start := State();
      CloseTabs(contexts.values[sessionId], failing);
      contexts := OrderedMaps.Remove(contexts, sessionId);
      assert State() == Drop(start, sessionId, failing);
      served := ProcessQueue(now);
    }

    /** `closeAll()`; a `browser.close()` that throws is `closeError`, and the error is returned. */
    method CloseAll(closeError: Option<string>) returns (error: Option<string>)
      modifies this
      ensures (error, State()) == AllClosed(old(State()), closeError)
    {
      contexts := OrderedMaps.Empty();
      activeTabCount := 0;
      if browserOpen {
        if closeError.Some? {
          return closeError;
        }
        browserOpen := false;
      }
      initialized := false;
      error := None;
    }

    /** The timeout of a queued request of `sessionId`. */
    method TimeOut(sessionId: string)
      modifies this
      ensures State() == Expire(old(State()), sessionId)
    {
      var index := FirstOf(queue, sessionId);
      if index.Some? {
        queue := queue[..index.value] + queue[index.value + 1..];
      }
    }

    /** `cleanupIdleTabs()`: the idle tabs are listed, then released one by one. */
    method CleanupIdleTabs(now: int) returns (served: seq<Served>)
      requires Ready()
      modifies this
      ensures Ready() && (served, State()) == Cleanup(old(State()), now)
    {
      var ids := Ids(IdleIn(contexts.keys, contexts.values, now));
      ghost var goal := ReleaseEach(State(), ids, now);
      served := [];
      var rest := ids;
      while rest != []
        invariant Ready()
        invariant served + ReleaseEach(State(), rest, now).0 == goal.0
        invariant ReleaseEach(State(), rest, now).1 == goal.1
        decreases |rest|
      {
        ghost var before := ReleaseEach(State(), rest, now);
        var s := ReleaseNext(rest, now);
        rest := rest[1..];
        Seqs.AppendAssoc(served, s, ReleaseEach(State(), rest, now).0);
        served := served + s;
      }
      assert served + [] == served;
    }

    /** One round of `cleanupIdleTabs`' loop: the first listed id is released. */
    method ReleaseNext(ids: seq<string>, now: int) returns (served: seq<Served>)
      requires Ready() && ids != []
      modifies this
      ensures Ready()
      ensures ReleaseEach(old(State()), ids, now).0 == served + ReleaseEach(State(), ids[1..], now).0
      ensures ReleaseEach(old(State()), ids, now).1 == ReleaseEach(State(), ids[1..], now).1
    {
      var _, s := ReleaseTab(ids[0], now);
      served := s;
    }

    /** `getStats()`. */
    function GetPoolStats(): Stats
      reads this
      requires Ready()
    {
      GetStats(State())
    }
  }
}
