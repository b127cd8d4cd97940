/**
 * The crawler observer (src/crawler/CrawlerObserver.js): a buffer of the
 * last 1000 crawler events in arrival order, read back by slices, the
 * latest event, and per-type counts. The event's timestamp is the `now`
 * argument; the console logging is left out.
 */
module CrawlerObserver {
  import opened Wrappers
  import OrderedMaps
  import Seqs

  datatype Event<D> = Event(timestamp: nat, event: string, data: D)

  const MaxEvents: nat := 1000

  /** `events.push(e)`, then `events.shift()` when the length exceeds the maximum. */
  function Pushed<D>(events: seq<Event<D>>, e: Event<D>): (r: seq<Event<D>>)
    ensures |r| == if |events| < MaxEvents then |events| + 1 else |events|
    ensures r == (events + [e])[|events| + 1 - |r|..]
  {
    var s := events + [e];
    if |s| > MaxEvents then s[1..] else s
  }

  /** The buffer never holds more than the maximum, and the new event is last, after the kept older ones in order. */
  lemma PushedBounded<D>(events: seq<Event<D>>, e: Event<D>)
    requires |events| <= MaxEvents
    ensures |Pushed(events, e)| <= MaxEvents
    ensures Pushed(events, e)[|Pushed(events, e)| - 1] == e
    ensures Pushed(events, e)[..|Pushed(events, e)| - 1] == events[|events| + 1 - |Pushed(events, e)|..]
  {
    var r := Pushed(events, e);
    var s := events + [e];
    assert r == s[|events| + 1 - |r|..];
    assert r[..|r| - 1] == s[|events| + 1 - |r|..|events|];
  }

  /** `s.slice(start)` for one integer argument: a negative start counts from the end. */
  function SliceFrom<T>(s: seq<T>, start: int): seq<T>
  {
    var b := if start < 0 then (if |s| + start < 0 then 0 else |s| + start) else (if start > |s| then |s| else start);
    s[b..]
  }

  /** `getEvents(limit)`: `events.slice(-limit)`. */
  function GetEvents<D>(events: seq<Event<D>>, limit: int): (r: seq<Event<D>>)
    ensures limit > 0 ==> r == events[|events| - (if limit < |events| then limit else |events|)..]
    ensures limit == 0 ==> r == events
    ensures limit < 0 ==> r == events[(if -limit < |events| then -limit else |events|)..]
  {
    SliceFrom(events, -limit)
  }

  /** `getEvents(limit)` gives at most `limit` events, the most recent ones, when the limit is positive. */
  lemma GetEventsRecent<D>(events: seq<Event<D>>, limit: int, k: nat)
    requires limit > 0 && k < |GetEvents(events, limit)|
    ensures |GetEvents(events, limit)| == if limit < |events| then limit else |events|
    ensures GetEvents(events, limit)[k] == events[|events| - |GetEvents(events, limit)| + k]
  {
  }

  /** `getLatestEvent()`: the last event, or null for an empty buffer. */
  function GetLatestEvent<D>(events: seq<Event<D>>): (r: Option<Event<D>>)
    ensures r.None? <==> events == []
    ensures r.Some? ==> r.value == events[|events| - 1]
  {
    if events == [] then None else Some(events[|events| - 1])
  }

  /** How many events of the given type the buffer holds. */
  function CountType<D>(es: seq<Event<D>>, t: string): nat
  {
    if es == [] then 0 else CountType(es[..|es| - 1], t) + (if es[|es| - 1].event == t then 1 else 0)
  }

  /** `byType[t] = (byType[t] || 0) + 1`. */
  function Bump(o: OrderedMaps.OrderedMap<string, nat>, t: string): (r: OrderedMaps.OrderedMap<string, nat>)
    requires OrderedMaps.Valid(o)
    ensures OrderedMaps.Valid(r)
  {
    OrderedMaps.Put(o, t, (if t in o.values then o.values[t] else 0) + 1)
  }

  /** The `byType` object `getStats` builds, in the order the types first occur. */
  function Tally<D>(es: seq<Event<D>>): (r: OrderedMaps.OrderedMap<string, nat>)
    ensures OrderedMaps.Valid(r)
  {
    if es == [] then OrderedMaps.Empty() else Bump(Tally(es[..|es| - 1]), es[|es| - 1].event)
  }

  lemma TallyNext<D>(es: seq<Event<D>>, i: nat)
    requires i < |es|
    ensures Tally(es[..i + 1]) == Bump(Tally(es[..i]), es[i].event)
  {
    assert es[..i + 1][..i] == es[..i];
  }

  /** The sum of the values of the listed keys. */
  function SumOf(keys: seq<string>, m: map<string, nat>): nat
    requires forall k :: k in keys ==> k in m
  {
    if keys == [] then 0 else SumOf(keys[..|keys| - 1], m) + m[keys[|keys| - 1]]
  }

  lemma {:induction false} SumOther(keys: seq<string>, m: map<string, nat>, k: string, v: nat)
    requires forall x :: x in keys ==> x in m
    requires k !in keys
    ensures SumOf(keys, m[k := v]) == SumOf(keys, m)
    decreases |keys|
  {
    if keys != [] {
      assert keys[|keys| - 1] in keys;
      SumOther(keys[..|keys| - 1], m, k, v);
    }
  }

  lemma {:induction false} SumUpdate(keys: seq<string>, m: map<string, nat>, k: string, v: nat)
    requires forall x :: x in keys ==> x in m
    requires k in keys && Seqs.Distinct(keys)
    ensures SumOf(keys, m[k := v]) + m[k] == SumOf(keys, m) + v
    decreases |keys|
  {
    var init := keys[..|keys| - 1];
    var last := keys[|keys| - 1];
    assert keys == init + [last];
    assert forall x :: x in init ==> x in keys;
    if last == k {
      SumOther(init, m, k, v);
    } else {
      assert Seqs.Distinct(init) by {
        assert forall i :: 0 <= i < |init| ==> init[i] == keys[i];
      }
      SumUpdate(init, m, k, v);
    }
  }

  /** Counting one more event adds one to the sum of the counts. */
  lemma SumBump(o: OrderedMaps.OrderedMap<string, nat>, t: string)
    requires OrderedMaps.Valid(o)
    ensures SumOf(Bump(o, t).keys, Bump(o, t).values) == SumOf(o.keys, o.values) + 1
  {
    var r := Bump(o, t);
    if t in o.values {
      SumUpdate(o.keys, o.values, t, o.values[t] + 1);
    } else {
      SumOther(o.keys, o.values, t, 1);
      assert r.keys[..|r.keys| - 1] == o.keys;
    }
  }

  /** The `byType` counts sum to `total`, the length of the buffer. */
  lemma {:induction false} TallySum<D>(es: seq<Event<D>>)
    ensures SumOf(Tally(es).keys, Tally(es).values) == |es|
    decreases |es|
  {
    if es != [] {
      TallySum(es[..|es| - 1]);
      SumBump(Tally(es[..|es| - 1]), es[|es| - 1].event);
    }
  }

  /** A type is listed iff some event has it, and its count is the number of such events. */
  lemma {:induction false} TallyCounts<D>(es: seq<Event<D>>, t: string)
    ensures t in Tally(es).values <==> CountType(es, t) > 0
    ensures t in Tally(es).values ==> Tally(es).values[t] == CountType(es, t)
    decreases |es|
  {
    if es != [] {
      TallyCounts(es[..|es| - 1], t);
    }
  }

  datatype Stats = Stats(total: nat, byType: OrderedMaps.OrderedMap<string, nat>)

  class Observer<D> {
    var events: seq<Event<D>>

    ghost predicate Valid()
      reads this
    {
      |events| <= MaxEvents
    }

    constructor ()
      ensures Valid() && events == []
    {
      events := [];
    }

    /** `handleEvent(event, data)` at time `now`. */
    method HandleEvent(now: nat, event: string, data: D)
      requires Valid()
      modifies this
      ensures Valid()
      ensures events == Pushed(old(events), Event(now, event, data))
    {
      events := events + [Event(now, event, data)];
      if |events| > MaxEvents {
        events := events[1..];
      }
    }

    /** `clearEvents()`. */
    method ClearEvents()
      modifies this
      ensures events == []
    {
      events := [];
    }

    /** `getStats()`: the length and the per-type counts, counted one event at a time. */
    method GetStats() returns (s: Stats)
      ensures s.total == |events| && s.byType == Tally(events)
      ensures SumOf(s.byType.keys, s.byType.values) == s.total
    {
      var byType := OrderedMaps.Empty();
      var i := 0;
      while i < |events|
        invariant 0 <= i <= |events|
        invariant byType == Tally(events[..i])
      {
        TallyNext(events, i);
        byType := Bump(byType, events[i].event);
        i := i + 1;
      }
      assert events[..i] == events;
      TallySum(events);
      s := Stats(|events|, byType);
    }
  }
}
