/**
 * The crawl run log (src/database/repositories/CrawlerLogRepository.js):
 * one `crawler_logs` row per full crawl, its six counters, its end state,
 * and the `crawler_progress` rows written after every page.
 *
 * Row ids are handed out from 1 in insertion order, as SQLite does for a
 * table nobody deletes from; `datetime('now')` is a `now` in seconds
 * supplied by the caller.
 */
module CrawlerLogRepository {
  import opened Wrappers

  datatype Status = Running | Completed | Failed

  /** `total_pages`, `total_found`, `total_new`, `total_updated`, `total_deleted`, `total_errors`. */
  datatype Counters = Counters(pages: int, found: int, added: int, updated: int, deleted: int, errors: int)

  /** A `stats` argument: any counter may be missing. */
  datatype Stats = Stats(
    pages: Option<int>, found: Option<int>, added: Option<int>,
    updated: Option<int>, deleted: Option<int>, errors: Option<int>)

  /** The `stats = {}` default of `failCrawl`. */
  function NoStats(): Stats
  {
    Stats(None, None, None, None, None, None)
  }

  /** `x || 0`: a missing counter, or 0, is written as 0. */
  function OrZero(x: Option<int>): (r: int)
    ensures x.Some? ==> r == x.value
    ensures x.None? ==> r == 0
  {
    if x.Some? then x.value else 0
  }

  /** The six counter parameters of an `UPDATE`. */
  function Written(s: Stats): (c: Counters)
    ensures c.pages == OrZero(s.pages) && c.found == OrZero(s.found) && c.added == OrZero(s.added)
    ensures c.updated == OrZero(s.updated) && c.deleted == OrZero(s.deleted) && c.errors == OrZero(s.errors)
  {
    Counters(OrZero(s.pages), OrZero(s.found), OrZero(s.added),
             OrZero(s.updated), OrZero(s.deleted), OrZero(s.errors))
  }

  /** A thrown error as `failCrawl` reads it. */
  datatype ErrorInfo = ErrorInfo(message: Option<string>, stack: Option<string>)

  datatype Log = Log(
    id: nat,
    startedAt: int,
    status: Status,
    triggerType: string,
    version: string,
    completedAt: Option<int>,
    durationSeconds: Option<int>,
    errorMessage: Option<string>,
    errorStack: Option<string>,
    counters: Option<Counters>)

  datatype Progress = Progress(
    logId: int,
    currentPage: Option<int>,
    totalPages: Option<int>,
    itemsProcessed: Option<int>,
    message: string,
    createdAt: int)

  const Version: string := "2.0.0"
  const UnknownError: string := "Unknown error"

  /** The row `startCrawl` inserts. */
  function Started(id: nat, triggerType: string, now: int): (l: Log)
    ensures l.id == id && l.status == Running && l.triggerType == triggerType
    ensures l.version == Version && l.startedAt == now
    ensures l.completedAt.None? && l.errorMessage.None? && l.counters.None?
  {
    Log(id, now, Running, triggerType, Version, None, None, None, None, None)
  }

  /** `updateProgress`: the counters are overwritten, everything else kept. */
  function WithCounters(l: Log, s: Stats): (r: Log)
    ensures r.counters == Some(Written(s))
    ensures r.status == l.status && r.id == l.id && r.startedAt == l.startedAt
    ensures r == l.(counters := Some(Written(s)))
  {
    l.(counters := Some(Written(s)))
  }

  /** `completeCrawl`'s change to the row, whatever status it had. */
  function Complete(l: Log, s: Stats, now: int): (r: Log)
    ensures r.status == Completed && r.completedAt == Some(now)
    ensures r.durationSeconds == Some(now - l.startedAt) && r.counters == Some(Written(s))
    ensures r.errorMessage == l.errorMessage && r.errorStack == l.errorStack
    ensures r.id == l.id && r.startedAt == l.startedAt && r.triggerType == l.triggerType
  {
    l.(status := Completed, completedAt := Some(now), durationSeconds := Some(now - l.startedAt),
       counters := Some(Written(s)))
  }

  /** `failCrawl`'s change to the row, whatever status it had. */
  function Fail(l: Log, e: ErrorInfo, s: Stats, now: int): (r: Log)
    ensures r.status == Failed && r.completedAt == Some(now)
    ensures r.durationSeconds == Some(now - l.startedAt) && r.counters == Some(Written(s))
    ensures r.errorMessage == Some(if e.message.Some? && e.message.value != "" then e.message.value else UnknownError)
    ensures r.errorStack == Some(if e.stack.Some? then e.stack.value else "")
    ensures r.id == l.id && r.startedAt == l.startedAt && r.triggerType == l.triggerType
  {
    var message := if e.message.Some? && e.message.value != "" then e.message.value else UnknownError;
    var stack := if e.stack.Some? then e.stack.value else "";
    l.(status := Failed, completedAt := Some(now), durationSeconds := Some(now - l.startedAt),
       errorMessage := Some(message), errorStack := Some(stack), counters := Some(Written(s)))
  }

  /** Neither end checks the status it overwrites: the later call decides the row's status and counters. */
  lemma LastEndWins(l: Log, e: ErrorInfo, s1: Stats, s2: Stats, t1: int, t2: int)
    ensures Fail(Complete(l, s1, t1), e, s2, t2).status == Failed
    ensures Complete(Fail(l, e, s1, t1), s2, t2).status == Completed
    ensures Fail(Complete(l, s1, t1), e, s2, t2).counters == Some(Written(s2))
    ensures Complete(Fail(l, e, s1, t1), s2, t2).counters == Some(Written(s2))
    ensures Complete(Fail(l, e, s1, t1), s2, t2).errorMessage == Fail(l, e, s1, t1).errorMessage
  {
  }

  /** A row `WHERE id = ?` picks: ids start at 1 and follow insertion order. */
  predicate Numbered(logs: seq<Log>)
  {
    forall i :: 0 <= i < |logs| ==> logs[i].id == i + 1
  }

  /** The position of the row with id `logId`, if there is one. */
  function Slot(logs: seq<Log>, logId: int): (r: Option<nat>)
    requires Numbered(logs)
    ensures r.Some? <==> 1 <= logId <= |logs|
    ensures r.Some? ==> r.value == logId - 1 && logs[r.value].id == logId
  {
    if 1 <= logId <= |logs| then Some(logId - 1) else None
  }

  /** The rows after `updateProgress(logId, s)`: the row with that id gets the counters, the rest is kept. */
  function AfterProgress(logs: seq<Log>, logId: int, s: Stats): (r: seq<Log>)
    requires Numbered(logs)
    ensures Numbered(r) && |r| == |logs|
    ensures forall i :: 0 <= i < |logs| ==> r[i] == if i == logId - 1 then WithCounters(logs[i], s) else logs[i]
  {
    if 1 <= logId <= |logs| then logs[logId - 1 := WithCounters(logs[logId - 1], s)] else logs
  }

  /** The rows after `completeCrawl(logId, s)` at time `now`. */
  function AfterComplete(logs: seq<Log>, logId: int, s: Stats, now: int): (r: seq<Log>)
    requires Numbered(logs)
    ensures Numbered(r) && |r| == |logs|
    ensures forall i :: 0 <= i < |logs| ==> r[i] == if i == logId - 1 then Complete(logs[i], s, now) else logs[i]
  {
    if 1 <= logId <= |logs| then logs[logId - 1 := Complete(logs[logId - 1], s, now)] else logs
  }

  /** The rows after `failCrawl(logId, e, s)` at time `now`. */
  function AfterFail(logs: seq<Log>, logId: int, e: ErrorInfo, s: Stats, now: int): (r: seq<Log>)
    requires Numbered(logs)
    ensures Numbered(r) && |r| == |logs|
    ensures forall i :: 0 <= i < |logs| ==> r[i] == if i == logId - 1 then Fail(logs[i], e, s, now) else logs[i]
  {
    if 1 <= logId <= |logs| then logs[logId - 1 := Fail(logs[logId - 1], e, s, now)] else logs
  }

  /** Some row still has status `running`. */
  predicate AnyRunning(logs: seq<Log>)
  {
    exists i :: 0 <= i < |logs| && logs[i].status == Running
  }

  /** `isRunning`'s count of running rows. */
  function CountRunning(logs: seq<Log>): (n: nat)
    ensures n <= |logs|
    ensures n > 0 <==> AnyRunning(logs)
  {
    if logs == [] then 0
    else
      var rest := CountRunning(logs[1..]);
      assert AnyRunning(logs[1..]) ==> AnyRunning(logs) by {
        if AnyRunning(logs[1..]) {
          var i :| 0 <= i < |logs[1..]| && logs[1..][i].status == Running;
          assert logs[i + 1].status == Running;
        }
      }
      assert AnyRunning(logs) && logs[0].status != Running ==> AnyRunning(logs[1..]) by {
        if AnyRunning(logs) && logs[0].status != Running {
          var i :| 0 <= i < |logs| && logs[i].status == Running;
          assert logs[1..][i - 1].status == Running;
        }
      }
      (if logs[0].status == Running then 1 else 0) + rest
  }

  /**
   * `getLatest`: a row with the latest start; among rows started at the
   * same time, the one inserted last.
   */
  function Latest(logs: seq<Log>): (r: Option<nat>)
    ensures r.Some? <==> logs != []
    ensures r.Some? ==> r.value < |logs| && forall i :: 0 <= i < |logs| ==> logs[i].startedAt <= logs[r.value].startedAt
  {
    if logs == [] then None
    else
      var init := Latest(logs[..|logs| - 1]);
      if init.Some? && logs[init.value].startedAt > logs[|logs| - 1].startedAt then
        assert logs[..|logs| - 1][init.value] == logs[init.value];
        assert forall i :: 0 <= i < |logs| - 1 ==> logs[..|logs| - 1][i] == logs[i];
        init
      else
        assert init.Some? ==> forall i :: 0 <= i < |logs| - 1 ==> logs[..|logs| - 1][i] == logs[i];
        Some(|logs| - 1)
  }

  /** `getProgress(logId)`: its progress rows, newest first (later inserts count as newer). */
  function ProgressOf(ps: seq<Progress>, logId: int): (r: seq<Progress>)
    ensures |r| <= |ps|
    ensures forall p :: p in r <==> p in ps && p.logId == logId
  {
    if ps == [] then []
    else ProgressOf(ps[1..], logId) + (if ps[0].logId == logId then [ps[0]] else [])
  }

  /** Progress rows come back newest first: appending a row of the log puts it at the front. */
  lemma {:induction false} ProgressNewestFirst(ps: seq<Progress>, p: Progress)
    ensures ProgressOf(ps + [p], p.logId) == [p] + ProgressOf(ps, p.logId)
    decreases |ps|
  {
    if ps == [] {
      assert ([] + [p])[1..] == [];
    } else {
      assert (ps + [p])[0] == ps[0];
      assert (ps + [p])[1..] == ps[1..] + [p];
      ProgressNewestFirst(ps[1..], p);
    }
  }

  class Repository {
    var logs: seq<Log>
    var progress: seq<Progress>
    /** The `last_full_crawl` setting. */
    var lastFullCrawl: Option<int>

    predicate Valid()
      reads this
    {
      Numbered(logs)
    }

    constructor()
      ensures Valid() && logs == [] && progress == [] && lastFullCrawl.None?
    {
      logs := [];
      progress := [];
      lastFullCrawl := None;
    }

    /** `startCrawl(triggerType)`: a new running row; its id is returned. */
    method StartCrawl(triggerType: string, now: int) returns (id: nat)
      requires Valid()
      modifies this
      ensures Valid()
      ensures id == |old(logs)| + 1
      ensures logs == old(logs) + [Started(id, triggerType, now)]
      ensures progress == old(progress) && lastFullCrawl == old(lastFullCrawl)
      ensures IsRunning()
    {
      id := |logs| + 1;
      logs := logs + [Started(id, triggerType, now)];
      assert logs[|logs| - 1].status == Running;
    }

    /** `updateProgress(logId, stats)`: an unknown id changes nothing. */
    method UpdateProgress(logId: int, s: Stats)
      requires Valid()
      modifies this
      ensures Valid() && progress == old(progress) && lastFullCrawl == old(lastFullCrawl)
      ensures logs == AfterProgress(old(logs), logId, s)
    {
      logs := AfterProgress(logs, logId, s);
    }

    /** `completeCrawl(logId, stats)`: the row is completed and `last_full_crawl` set to now. */
    method CompleteCrawl(logId: int, s: Stats, now: int)
      requires Valid()
      modifies this
      ensures Valid() && progress == old(progress) && lastFullCrawl == Some(now)
      ensures logs == AfterComplete(old(logs), logId, s, now)
    {
      logs := AfterComplete(logs, logId, s, now);
      lastFullCrawl := Some(now);
    }

    /** `failCrawl(logId, error, stats)`. */
    method FailCrawl(logId: int, e: ErrorInfo, s: Stats, now: int)
      requires Valid()
      modifies this
      ensures Valid() && progress == old(progress) && lastFullCrawl == old(lastFullCrawl)
      ensures logs == AfterFail(old(logs), logId, e, s, now)
    {
      logs := AfterFail(logs, logId, e, s, now);
    }

    /** `logProgress(logId, message, currentPage, totalPages, itemsProcessed)`: one more progress row. */
    method LogProgress(logId: int, message: string, currentPage: Option<int>, totalPages: Option<int>,
                       itemsProcessed: Option<int>, now: int)
      requires Valid()
      modifies this
      ensures Valid() && logs == old(logs) && lastFullCrawl == old(lastFullCrawl)
      ensures progress == old(progress) + [Progress(logId, currentPage, totalPages, itemsProcessed, message, now)]
      ensures GetProgress(logId) == [progress[|progress| - 1]] + ProgressOf(old(progress), logId)
    {
      var p := Progress(logId, currentPage, totalPages, itemsProcessed, message, now);
      ProgressNewestFirst(progress, p);
      progress := progress + [p];
    }

    /** `getLatest()`. */
    function GetLatest(): Option<Log>
      reads this
    {
      var i := Latest(logs);
      if i.Some? then Some(logs[i.value]) else None
    }

    /** `getProgress(logId)`. */
    function GetProgress(logId: int): seq<Progress>
      reads this
    {
      ProgressOf(progress, logId)
    }

    /** `isRunning()`: some row is still running. */
    function IsRunning(): (r: bool)
      reads this
      ensures r <==> AnyRunning(logs)
    {
      CountRunning(logs) > 0
    }
  }

  /** Ending the one running row leaves no crawl running, whichever way it ends. */
  lemma EndingLastRunStopsRunning(logs: seq<Log>, i: nat, s: Stats, e: ErrorInfo, now: int)
    requires i < |logs| && forall j :: 0 <= j < |logs| && j != i ==> logs[j].status != Running
    ensures !AnyRunning(logs[i := Complete(logs[i], s, now)])
    ensures !AnyRunning(logs[i := Fail(logs[i], e, s, now)])
  {
    var c := logs[i := Complete(logs[i], s, now)];
    var f := logs[i := Fail(logs[i], e, s, now)];
    assert forall j :: 0 <= j < |c| ==> c[j].status != Running;
    assert forall j :: 0 <= j < |f| ==> f[j].status != Running;
  }
}
