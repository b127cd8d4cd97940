/**
 * The crawl scheduler (src/crawler/CrawlerScheduler.js): a cron job that
 * asks the background crawler for a full crawl every `intervalHours`
 * hours, the interval and the on/off switch read from the settings table,
 * and the rules that decide whether a requested crawl actually starts.
 *
 * The database, the crawler's status and `node-cron` are outside the
 * model: each read, write or library call becomes a parameter holding
 * its outcome.
 */
module CrawlerScheduler {
  import opened Wrappers
  import opened Text

  // ---------------------------------------------------------------------
  // `parseInt` without a radix
  // ---------------------------------------------------------------------

  /** A JavaScript number as `parseInt` produces it: an integer, or `NaN`. */
  datatype Hours = Num(n: int) | NaN

  /** The decimal digits at the front of `s`. */
  function DigitPrefix(s: string): (r: string)
    ensures IsPrefix(r, s) && AllDigits(r)
    ensures |r| < |s| ==> !IsDigit(s[|r|])
  {
    if s != [] && IsDigit(s[0]) then [s[0]] + DigitPrefix(s[1..]) else []
  }

  predicate IsHexDigit(c: char) { IsDigit(c) || 'a' <= c <= 'f' || 'A' <= c <= 'F' }

  predicate AllHex(s: string) { forall k :: 0 <= k < |s| ==> IsHexDigit(s[k]) }

  function HexValue(c: char): (d: nat)
    requires IsHexDigit(c)
    ensures d < 16
  {
    if IsDigit(c) then DigitValue(c)
    else if 'a' <= c <= 'f' then c as int - 'a' as int + 10
    else c as int - 'A' as int + 10
  }

  function HexDigitsValue(s: string): nat
    requires AllHex(s)
  {
    if s == [] then 0 else HexDigitsValue(s[..|s| - 1]) * 16 + HexValue(s[|s| - 1])
  }

  /** The hexadecimal digits at the front of `s`. */
  function HexPrefix(s: string): (r: string)
    ensures IsPrefix(r, s) && AllHex(r)
    ensures |r| < |s| ==> !IsHexDigit(s[|r|])
  {
    if s != [] && IsHexDigit(s[0]) then [s[0]] + HexPrefix(s[1..]) else []
  }

  /** The number after the sign: `0x`/`0X` switches to base 16; no digit at all is `NaN`. */
  function Unsigned(s: string): Hours
  {
    if |s| >= 2 && s[0] == '0' && (s[1] == 'x' || s[1] == 'X') then
      var d := HexPrefix(s[2..]);
      if d == [] then NaN else Num(HexDigitsValue(d))
    else
      var d := DigitPrefix(s);
      if d == [] then NaN else Num(DigitsValue(d))
  }

  function Negate(h: Hours): Hours
  {
    if h.Num? then Num(-h.n) else NaN
  }

  /**
   * `parseInt(s)`: leading white space skipped, an optional sign, then the
   * longest run of digits; whatever follows the digits is ignored.
   */
  function ParseInt(s: string): Hours
  {
    var t := TrimStart(s);
    if t != [] && t[0] == '-' then Negate(Unsigned(t[1..]))
    else if t != [] && t[0] == '+' then Unsigned(t[1..])
    else Unsigned(t)
  }

  /** `String(h)` for the numbers `intervalHours` can hold. */
  function HoursToString(h: Hours): string
  {
    if h.Num? then IntToString(h.n) else "NaN"
  }

  lemma DigitPrefixOfDigits(d: string, t: string)
    requires AllDigits(d) && (t == [] || !IsDigit(t[0]))
    ensures DigitPrefix(d + t) == d
    decreases |d|
  {
    if d != [] {
      assert (d + t)[1..] == d[1..] + t;
      DigitPrefixOfDigits(d[1..], t);
    } else {
      assert d + t == t;
    }
  }

  /**
   * `parseInt` reads the leading digits and stops at the first other
   * character: `"24 hours"` and `"1e3"` give 24 and 1, whatever the range.
   */
  lemma {:induction false} ParseIntLeadingDigits(d: string, t: string)
    requires d != [] && AllDigits(d) && !IsSpace(d[0])
    requires t == [] || (!IsDigit(t[0]) && t[0] != 'x' && t[0] != 'X')
    ensures ParseInt(d + t) == Num(DigitsValue(d))
  {
    var s := d + t;
    assert s[0] == d[0];
    assert TrimStart(s) == s;
    DigitPrefixOfDigits(d, t);
    assert |s| >= 2 ==> s[1] != 'x' && s[1] != 'X' by {
      if |d| >= 2 {
        assert s[1] == d[1];
      } else if |s| >= 2 {
        assert s[1] == t[0];
      }
    }
  }

  /** What `String(n)` prints, `parseInt` reads back. */
  lemma ParseIntRoundTrip(i: int)
    ensures ParseInt(IntToString(i)) == Num(i)
  {
    var n := if i < 0 then -i else i;
    var s := IntToString(i);
    UnsignedOfSpelling(n);
    assert s[0] == '-' || s == NatToString(n);
    assert !IsSpace(s[0]);
    assert TrimStart(s) == s;
  }

  /** The digits `String(n)` prints for a natural number are read back by the unsigned part. */
  lemma UnsignedOfSpelling(n: nat)
    ensures var u := NatToString(n);
      u[0] != '-' && u[0] != '+' && Unsigned(u) == Num(n)
  {
    var u := NatToString(n);
    assert IsDigit(u[0]);
    DigitPrefixOfDigits(u, "");
    assert u + "" == u;
    assert !(|u| >= 2 && u[0] == '0');
  }

  // ---------------------------------------------------------------------
  // Settings
  // ---------------------------------------------------------------------

  /**
   * The outcome of reading one row of `system_settings`: the database may
   * throw; otherwise the row's value, `None` when there is no row or no
   * value (both are falsy in the code that reads it).
   */
  type Setting = Result<Option<string>>

  /**
   * `_loadSettings`: a non-empty stored value replaces the interval by its
   * `parseInt`, checked against no range; a missing or empty value, or a
   * failed read, keeps the interval it had.
   */
  function LoadSettings(current: Hours, setting: Setting): (r: Hours)
    ensures setting.Ok? && Truthy(setting.value) ==> r == ParseInt(setting.value.value)
    ensures !(setting.Ok? && Truthy(setting.value)) ==> r == current
  {
    if setting.Ok? && Truthy(setting.value) then ParseInt(setting.value.value) else current
  }

  /** A stored interval of any size is taken as it is. */
  lemma LoadSettingsUnchecked(current: Hours, n: int)
    ensures LoadSettings(current, Ok(Some(IntToString(n)))) == Num(n)
  {
    ParseIntRoundTrip(n);
  }

  /** `_isCrawlerEnabled`: on unless the stored value says otherwise; a failed read counts as on. */
  function IsCrawlerEnabled(setting: Setting): (r: bool)
    ensures setting.Err? ==> r
    ensures setting.Ok? ==> (r <==> setting.value == Some("true"))
    ensures setting == Ok(None) ==> !r
  {
    match setting
    case Err(_) => true
    case Ok(v) => v.Some? && v.value == "true"
  }

  // ---------------------------------------------------------------------
  // The cron expression
  // ---------------------------------------------------------------------

  /** `_getCronExpression`: minute 0 of every `intervalHours`-th hour. */
  function CronExpression(h: Hours): string
  {
    if h == Num(1) then "0 * * * *" else "0 */" + HoursToString(h) + " * * *"
  }

  /** The hour field of the cron expression: a star for every hour, a star, slash and h for every h-th. */
  function HourField(h: Hours): string
  {
    if h == Num(1) then "*" else "*/" + HoursToString(h)
  }

  /**
   * How often, in hours, a five-field cron expression of the form
   * `0 <hours> * * *` fires: every hour for a star, every n-th hour for a
   * star followed by a slash and n.
   */
  function RepeatHours(e: string): Option<nat>
  {
    var fs := Split(e, ' ');
    if |fs| == 5 && fs[0] == "0" && fs[2] == "*" && fs[3] == "*" && fs[4] == "*" then
      var f := fs[1];
      if f == "*" then Some(1)
      else if |f| > 2 && f[..2] == "*/" && AllDigits(f[2..]) then Some(DigitsValue(f[2..]))
      else None
    else None
  }

  /** The expression is five space-separated fields, the hour field in the second place. */
  lemma CronFields(h: Hours)
    ensures Split(CronExpression(h), ' ') == ["0", HourField(h), "*", "*", "*"]
  {
    HourFieldShape(h);
    CronSplit(HourField(h));
  }

  /** The expression is minute 0, the hour field and three stars; the hour field has no space. */
  lemma HourFieldShape(h: Hours)
    ensures CronExpression(h) == "0 " + HourField(h) + " * * *"
    ensures ' ' !in HourField(h)
  {
    if h != Num(1) {
      var t := HoursToString(h);
      assert ' ' !in t by {
        if h.Num? {
          var u := NatToString(if h.n < 0 then -h.n else h.n);
          assert ' ' !in u by {
            assert forall k :: 0 <= k < |u| ==> IsDigit(u[k]);
          }
          assert t == u || t == "-" + u;
        }
      }
      assert HourField(h) == "*/" + t;
    }
  }

  /** Minute 0, an hour field without spaces, and three stars split back into those five fields. */
  lemma CronSplit(f: string)
    requires ' ' !in f
    ensures Split("0 " + f + " * * *", ' ') == ["0", f, "*", "*", "*"]
  {
    var xs := ["0", f, "*", "*", "*"];
    assert Join(xs[4..], ' ') == "*";
    assert Join(xs[3..], ' ') == "* *" by { assert xs[3..][1..] == xs[4..]; }
    assert Join(xs[2..], ' ') == "* * *" by { assert xs[2..][1..] == xs[3..]; }
    assert Join(xs[1..], ' ') == f + " * * *" by { assert xs[1..][1..] == xs[2..]; }
    assert Join(xs, ' ') == "0 " + f + " * * *";
    assert NoneContains(xs, ' ');
    SplitJoin(xs, ' ');
  }

  /** For a positive interval the cron expression fires every `intervalHours` hours. */
  lemma CronEveryInterval(n: int)
    requires n >= 1
    ensures RepeatHours(CronExpression(Num(n))) == Some(n)
  {
    CronFields(Num(n));
    if n != 1 {
      var f := HourField(Num(n));
      assert f[2..] == NatToString(n);
    }
  }

  // ---------------------------------------------------------------------
  // Whether a requested crawl starts
  // ---------------------------------------------------------------------

  /** The `triggerType` of a crawl request. */
  datatype Trigger = Startup | Scheduled | Manual

  /** What `_scheduleCrawl` resolves to: a refusal, the crawler's own result, or the message of what it threw. */
  datatype CrawlReply<T> = Skipped(message: string) | Finished(result: T) | Failed(error: string)

  const AlreadyRunning: string := "Crawler is already running"
  const Disabled: string := "Crawler is disabled"

  /**
   * `_scheduleCrawl(trigger)`, given whether the crawler reports itself
   * running, the `crawler_enabled` setting and how `startFullCrawl` ends.
   */
  function ScheduleCrawl<T>(trigger: Trigger, crawlerRunning: bool, enabled: Setting, crawl: Result<T>): (r: CrawlReply<T>)
    ensures crawlerRunning ==> r == Skipped(AlreadyRunning)
    ensures !crawlerRunning && !IsCrawlerEnabled(enabled) && trigger == Scheduled ==> r == Skipped(Disabled)
    ensures r.Skipped? <==> crawlerRunning || (!IsCrawlerEnabled(enabled) && trigger == Scheduled)
    ensures !r.Skipped? && crawl.Ok? ==> r == Finished(crawl.value)
    ensures !r.Skipped? && crawl.Err? ==> r == Failed(crawl.message)
  {
    if crawlerRunning then Skipped(AlreadyRunning)
    else if !IsCrawlerEnabled(enabled) && trigger == Scheduled then Skipped(Disabled)
    else match crawl
      case Ok(v) => Finished(v)
      case Err(e) => Failed(e)
  }

  /** Only a scheduled crawl looks at the switch: a manual or startup crawl runs whatever it says. */
  lemma SwitchGatesOnlyScheduled<T>(trigger: Trigger, enabled: Setting, crawl: Result<T>)
    requires trigger != Scheduled
    ensures ScheduleCrawl(trigger, false, enabled, crawl) == ScheduleCrawl(trigger, false, Ok(Some("true")), crawl)
    ensures !ScheduleCrawl(trigger, false, enabled, crawl).Skipped?
  {
  }

  // ---------------------------------------------------------------------
  // The scheduler's state and its transitions
  // ---------------------------------------------------------------------

  /** The fields `cronJob` (the expression it was scheduled with), `isSchedulerRunning` and `intervalHours`. */
  datatype State = State(cronJob: Option<string>, running: bool, interval: Hours)

  /** A job is scheduled exactly while the scheduler says it runs. */
  predicate Valid(s: State) { s.running <==> s.cronJob.Some? }

  /** The constructor's state: nothing scheduled, one hour. */
  function Initial(): (s: State)
    ensures Valid(s) && !s.running && s.interval == Num(1)
  {
    State(None, false, Num(1))
  }

  /**
   * `start()`, given the interval setting it reads and whether
   * `cron.schedule` accepts the expression; the flag in the result says a
   * `startup` crawl was requested.
   */
  function Start(s: State, setting: Setting, schedule: Result<()>): (r: (State, Result<()>, bool))
    ensures s.running ==> r == (s, Ok(()), false)
    ensures !s.running ==> r.2 && r.0.interval == LoadSettings(s.interval, setting)
    ensures !s.running && schedule.Ok? ==>
      r.0.running && r.0.cronJob == Some(CronExpression(r.0.interval)) && r.1 == Ok(())
    ensures !s.running && schedule.Err? ==>
      !r.0.running && r.0.cronJob == s.cronJob && r.1 == Err(schedule.message)
  {
    if s.running then (s, Ok(()), false)
    else
      var h := LoadSettings(s.interval, setting);
      match schedule
      case Ok(_) => (State(Some(CronExpression(h)), true, h), Ok(()), true)
      case Err(e) => (s.(interval := h), Err(e), true)
  }

  /** `stop()`. */
  function Stop(s: State): (r: State)
    ensures Valid(r) && !r.running && r.interval == s.interval
  {
    State(None, false, s.interval)
  }

  const IntervalRange: string := "Interval must be between 1 and 24 hours"

  /**
   * `setInterval(hours)`, given the outcome of the settings update and,
   * for the restart, the setting `start` reads back and `cron.schedule`'s
   * outcome; the flag says a `startup` crawl was requested.
   */
  function SetInterval(s: State, hours: int, write: Result<()>, reload: Setting, schedule: Result<()>)
    : (r: (State, Result<()>, bool))
    ensures hours < 1 || hours > 24 ==> r == (s, Err(IntervalRange), false)
    ensures 1 <= hours <= 24 && write.Err? ==> r == (s.(interval := Num(hours)), Err(write.message), false)
    ensures 1 <= hours <= 24 && write.Ok? && !s.running ==> r == (s.(interval := Num(hours)), Ok(()), false)
    ensures 1 <= hours <= 24 && write.Ok? && s.running ==>
      r == Start(Stop(s.(interval := Num(hours))), reload, schedule)
  {
    if hours < 1 || hours > 24 then (s, Err(IntervalRange), false)
    else
      var s1 := s.(interval := Num(hours));
      if write.Err? then (s1, Err(write.message), false)
      else if s1.running then Start(Stop(s1), reload, schedule)
      else (s1, Ok(()), false)
  }

  /** Every transition keeps a job scheduled exactly while the scheduler runs. */
  lemma TransitionsKeepValid(s: State, setting: Setting, schedule: Result<()>, hours: int, write: Result<()>)
    requires Valid(s)
    ensures Valid(Start(s, setting, schedule).0)
    ensures Valid(Stop(s))
    ensures Valid(SetInterval(s, hours, write, setting, schedule).0)
  {
  }

  /** A second `start` changes nothing and requests no crawl. */
  lemma StartIdempotent(s: State, setting: Setting, schedule: Result<()>, setting2: Setting, schedule2: Result<()>)
    requires schedule.Ok?
    ensures var s1 := Start(s, setting, schedule).0;
      s1.running && Start(s1, setting2, schedule2) == (s1, Ok(()), false)
  {
  }

  /**
   * A running scheduler given a new interval in range, with the setting
   * written and read back, ends up running a job that fires every `hours`
   * hours, and requests a startup crawl.
   */
  lemma {:induction false} SetIntervalReschedules(s: State, hours: int, schedule: Result<()>)
    requires s.running && 1 <= hours <= 24 && schedule.Ok?
    ensures var r := SetInterval(s, hours, Ok(()), Ok(Some(IntToString(hours))), schedule);
      r.0.running && r.0.interval == Num(hours) && r.1 == Ok(()) && r.2
      && r.0.cronJob.Some? && RepeatHours(r.0.cronJob.value) == Some(hours)
  {
    LoadSettingsUnchecked(Num(hours), hours);
    CronEveryInterval(hours);
  }

  /**
   * When the settings update throws, the interval already holds the new
   * value while a running scheduler keeps the job of the old expression.
   */
  lemma SetIntervalFailedWrite(s: State, hours: int, e: string, reload: Setting, schedule: Result<()>)
    requires 1 <= hours <= 24
    ensures var r := SetInterval(s, hours, Err(e), reload, schedule);
      r.0.interval == Num(hours) && r.0.cronJob == s.cronJob && r.0.running == s.running && r.1 == Err(e)
  {
  }

  // ---------------------------------------------------------------------
  // The scheduler object
  // ---------------------------------------------------------------------

  class Scheduler {
    var cronJob: Option<string>
    var running: bool
    var intervalHours: Hours

    function Current(): State
      reads this
    {
      State(cronJob, running, intervalHours)
    }

    constructor()
      ensures Current() == Initial()
    {
      cronJob := None;
      running := false;
      intervalHours := Num(1);
    }

    /** `start()`; `startup` says whether the startup crawl was requested. */
    method Begin(setting: Setting, schedule: Result<()>) returns (r: Result<()>, startup: bool)
      modifies this
      ensures (Current(), r, startup) == Start(old(Current()), setting, schedule)
    {
      if running {
        return Ok(()), false;
      }
      intervalHours := LoadSettings(intervalHours, setting);
      startup := true;
      match schedule {
        case Ok(_) =>
          cronJob := Some(CronExpression(intervalHours));
          running := true;
          r := Ok(());
        case Err(e) =>
          r := Err(e);
      }
    }

    /** `stop()`. */
    method Halt()
      modifies this
      ensures Current() == Stop(old(Current()))
    {
      if cronJob.Some? {
        cronJob := None;
      }
      running := false;
    }

    /** `setInterval(hours)`. */
    method ChangeInterval(hours: int, write: Result<()>, reload: Setting, schedule: Result<()>)
      returns (r: Result<()>, startup: bool)
      modifies this
      ensures (Current(), r, startup) == SetInterval(old(Current()), hours, write, reload, schedule)
    {
      if hours < 1 || hours > 24 {
        return Err(IntervalRange), false;
      }
      intervalHours := Num(hours);
      if write.Err? {
        return Err(write.message), false;
      }
      startup := false;
      r := Ok(());
      if running {
        Halt();
        r, startup := Begin(reload, schedule);
      }
    }

    /** `triggerManualCrawl()`. */
    method TriggerManualCrawl<T>(crawlerRunning: bool, enabled: Setting, crawl: Result<T>) returns (r: CrawlReply<T>)
      ensures r == ScheduleCrawl(Manual, crawlerRunning, enabled, crawl)
      ensures crawlerRunning <==> r.Skipped?
    {
      r := ScheduleCrawl(Manual, crawlerRunning, enabled, crawl);
    }
  }
}
