/**
 * The result cache of the search service (src/api/services/searchService.js):
 * a JavaScript `Map` from a key to the stored data and the time it was
 * stored. A lookup treats an entry older than fifteen minutes as missing
 * and deletes it; a store that takes the map over a thousand entries
 * deletes the fifth of them that was stored longest ago.
 */
module SearchCache {
  import opened Wrappers
  import OrderedMaps
  import Seqs

  /** `cacheTimeout`: fifteen minutes, in milliseconds. */
  const CacheTimeout: int := 15 * 60 * 1000
  /** Above this many entries a store evicts. */
  const MaxEntries: nat := 1000

  datatype CacheEntry<D> = CacheEntry(data: D, timestamp: int)

  type Cache<K(==), D> = OrderedMaps.OrderedMap<K, CacheEntry<D>>

  /** One element of `Array.from(cache.entries())`. */
  type Entry<K, D> = (K, CacheEntry<D>)

  /** `_getFromCache(key)` at time `now`: the stored data while it is fresh; a stale entry is deleted. */
  function Lookup<K(==,!new), D>(c: Cache<K, D>, key: K, now: int): (r: (Option<D>, Cache<K, D>))
    requires OrderedMaps.Valid(c)
    ensures r.0.Some? <==> key in c.values && now - c.values[key].timestamp <= CacheTimeout
    ensures r.0.Some? ==> r.0.value == c.values[key].data && r.1 == c
    ensures r.0.None? ==> r.1.values == c.values - {key} && (key !in c.values ==> r.1 == c)
    ensures OrderedMaps.Valid(r.1)
  {
    if key !in c.values then (None, c)
    else if now - c.values[key].timestamp > CacheTimeout then (None, OrderedMaps.Remove(c, key))
    else (Some(c.values[key].data), c)
  }

  /** `Array.from(cache.entries())`: the entries in key order. */
  function Entries<K(==), D>(c: Cache<K, D>): (r: seq<Entry<K, D>>)
    requires forall k :: k in c.keys ==> k in c.values
    ensures |r| == |c.keys|
    ensures forall i :: 0 <= i < |r| ==> r[i] == (c.keys[i], c.values[c.keys[i]])
    decreases |c.keys|
  {
    if c.keys == [] then []
    else [(c.keys[0], c.values[c.keys[0]])] + Entries(OrderedMaps.OrderedMap(c.keys[1..], c.values))
  }

  /** Every entry is the one its key maps to. */
  lemma EntriesFaithful<K, D>(c: Cache<K, D>, e: Entry<K, D>)
    requires OrderedMaps.Valid(c)
    ensures e in Entries(c) <==> e.0 in c.values && e.1 == c.values[e.0]
  {
    if e.0 in c.values && e.1 == c.values[e.0] {
      var i := Seqs.FirstIndex(c.keys, e.0);
      assert Entries(c)[i] == e;
    }
  }

  predicate OldestFirst<K, D>(es: seq<Entry<K, D>>)
  {
    forall i, j :: 0 <= i < j < |es| ==> es[i].1.timestamp <= es[j].1.timestamp
  }

  /** One step of a stable sort by timestamp: `e` goes before the first entry that is no older. */
  function InsertByTime<K, D>(e: Entry<K, D>, es: seq<Entry<K, D>>): (r: seq<Entry<K, D>>)
    requires OldestFirst(es)
    ensures OldestFirst(r)
    ensures multiset(r) == multiset(es) + multiset{e}
    ensures |r| == |es| + 1
  {
    if es == [] || e.1.timestamp <= es[0].1.timestamp then [e] + es
    else
      var rest := InsertByTime(e, es[1..]);
      assert es == [es[0]] + es[1..];
      HeadFirst(es[0], rest, es[1..] + [e]);
      [es[0]] + rest
  }

  /** An entry no newer than any of a permutation of sorted entries goes first. */
  lemma HeadFirst<K, D>(h: Entry<K, D>, rest: seq<Entry<K, D>>, others: seq<Entry<K, D>>)
    requires OldestFirst(rest) && multiset(rest) == multiset(others)
    requires forall j :: 0 <= j < |others| ==> h.1.timestamp <= others[j].1.timestamp
    ensures OldestFirst([h] + rest)
  {
    forall j | 0 <= j < |rest|
      ensures h.1.timestamp <= rest[j].1.timestamp
    {
      assert rest[j] in multiset(others);
    }
    var r := [h] + rest;
    assert forall j :: 0 < j < |r| ==> r[j] == rest[j - 1];
  }

  /** `entries.sort((a, b) => a[1].timestamp - b[1].timestamp)`: the same entries, oldest first. */
  function SortByTime<K, D>(es: seq<Entry<K, D>>): (r: seq<Entry<K, D>>)
    ensures OldestFirst(r)
    ensures multiset(r) == multiset(es)
    ensures |r| == |es|
  {
    if es == [] then []
    else
      assert es == [es[0]] + es[1..];
      InsertByTime(es[0], SortByTime(es[1..]))
  }

  /** `Math.floor(size * 0.2)`. */
  function EvictCount(n: nat): (d: nat)
    ensures d <= n && d * 5 <= n < d * 5 + 5
  {
    n / 5
  }

  /** The keys of the entries. */
  function KeySet<K, D>(es: seq<Entry<K, D>>): (r: set<K>)
    ensures forall i :: 0 <= i < |es| ==> es[i].0 in r
    decreases |es|
  {
    if es == [] then {}
    else
      assert forall i :: 0 <= i < |es| - 1 ==> es[..|es| - 1][i] == es[i];
      KeySet(es[..|es| - 1]) + {es[|es| - 1].0}
  }

  /** A key of the entries is the key of one of them. */
  lemma {:induction false} KeySetIndex<K, D>(es: seq<Entry<K, D>>, k: K) returns (i: nat)
    requires k in KeySet(es)
    ensures i < |es| && es[i].0 == k
    decreases |es|
  {
    if es[|es| - 1].0 == k {
      i := |es| - 1;
    } else {
      i := KeySetIndex(es[..|es| - 1], k);
    }
  }

  /** The cache after `cache.delete(es[i][0])` for each `i` in turn. */
  function RemoveEntries<K(==,!new), D>(c: Cache<K, D>, es: seq<Entry<K, D>>): (r: Cache<K, D>)
    requires OrderedMaps.Valid(c)
    ensures OrderedMaps.Valid(r)
    ensures r.values == c.values - KeySet(es)
    decreases |es|
  {
    if es == [] then c
    else OrderedMaps.Remove(RemoveEntries(c, es[..|es| - 1]), es[|es| - 1].0)
  }

  /** Deleting keys that are present and pairwise different removes one key each. */
  lemma {:induction false} RemoveEntriesSize<K(!new), D>(c: Cache<K, D>, es: seq<Entry<K, D>>)
    requires OrderedMaps.Valid(c)
    requires forall i :: 0 <= i < |es| ==> es[i].0 in c.values
    requires forall i, j :: 0 <= i < j < |es| ==> es[i].0 != es[j].0
    ensures |RemoveEntries(c, es).keys| == |c.keys| - |es|
    decreases |es|
  {
    if es != [] {
      var init := es[..|es| - 1];
      assert forall i :: 0 <= i < |init| ==> init[i] == es[i];
      RemoveEntriesSize(c, init);
      var prev := RemoveEntries(c, init);
      assert es[|es| - 1].0 !in KeySet(init) by {
        if es[|es| - 1].0 in KeySet(init) {
          var i := KeySetIndex(init, es[|es| - 1].0);
        }
      }
      assert es[|es| - 1].0 in prev.keys;
      OrderedMaps.WithoutLength(prev.keys, es[|es| - 1].0);
    }
  }

  /** In a list without repeats every element occurs once. */
  lemma {:induction false} DistinctOnce<T>(s: seq<T>, x: T)
    requires Seqs.Distinct(s)
    ensures multiset(s)[x] <= 1
    decreases |s|
  {
    if s != [] {
      assert s == [s[0]] + s[1..];
      assert forall i, j :: 0 <= i < j < |s| - 1 ==> s[1..][i] == s[i + 1] && s[1..][j] == s[j + 1];
      DistinctOnce(s[1..], x);
      if s[0] == x {
        assert x !in s[1..];
      }
    }
  }

  /** Two positions holding the same element count it twice. */
  lemma TwiceCounted<T>(s: seq<T>, i: nat, j: nat)
    requires i < j < |s| && s[i] == s[j]
    ensures multiset(s)[s[i]] >= 2
  {
    assert s == s[..i] + [s[i]] + s[i + 1..j] + [s[j]] + s[j + 1..];
  }

  /** A permutation of the entries of a valid cache names every key once. */
  lemma PermutedKeysDistinct<K, D>(c: Cache<K, D>, es: seq<Entry<K, D>>)
    requires OrderedMaps.Valid(c) && multiset(es) == multiset(Entries(c))
    ensures forall i :: 0 <= i < |es| ==> es[i].0 in c.values && es[i].1 == c.values[es[i].0]
    ensures forall i, j :: 0 <= i < j < |es| ==> es[i].0 != es[j].0
  {
    forall i | 0 <= i < |es|
      ensures es[i].0 in c.values && es[i].1 == c.values[es[i].0]
    {
      assert es[i] in multiset(es);
      EntriesFaithful(c, es[i]);
    }
    assert Seqs.Distinct(Entries(c)) by {
      forall i, j | 0 <= i < j < |Entries(c)|
        ensures Entries(c)[i] != Entries(c)[j]
      {
        assert Entries(c)[i].0 == c.keys[i] && Entries(c)[j].0 == c.keys[j];
      }
    }
    forall i, j | 0 <= i < j < |es|
      ensures es[i].0 != es[j].0
    {
      if es[i] == es[j] {
        TwiceCounted(es, i, j);
        DistinctOnce(Entries(c), es[i]);
      }
    }
  }

  /** The entries `_saveToCache` deletes from the cache `c` it has just stored into. */
  function Evicted<K(==), D>(c: Cache<K, D>): (r: seq<Entry<K, D>>)
    requires OrderedMaps.Valid(c)
    ensures |r| == EvictCount(|c.keys|)
  {
    SortByTime(Entries(c))[..EvictCount(|c.keys|)]
  }

  /** `_saveToCache(key, data)` at time `now`. */
  function Save<K(==,!new), D>(c: Cache<K, D>, key: K, data: D, now: int): (r: Cache<K, D>)
    requires OrderedMaps.Valid(c)
    ensures OrderedMaps.Valid(r)
  {
    var c1 := OrderedMaps.Put(c, key, CacheEntry(data, now));
    if |c1.keys| > MaxEntries then RemoveEntries(c1, Evicted(c1)) else c1
  }

  /** The eviction removes exactly `EvictCount` keys. */
  lemma EvictSize<K(!new), D>(c: Cache<K, D>)
    requires OrderedMaps.Valid(c)
    ensures |RemoveEntries(c, Evicted(c)).keys| == |c.keys| - EvictCount(|c.keys|)
  {
    EvictedKeys(c);
    RemoveEntriesSize(c, Evicted(c));
  }

  /** The evicted entries name present keys, each once. */
  lemma EvictedKeys<K(!new), D>(c: Cache<K, D>)
    requires OrderedMaps.Valid(c)
    ensures var ev := Evicted(c);
            (forall i :: 0 <= i < |ev| ==> ev[i].0 in c.values)
            && (forall i, j :: 0 <= i < j < |ev| ==> ev[i].0 != ev[j].0)
  {
    var es := SortByTime(Entries(c));
    PermutedKeysDistinct(c, es);
    var ev := Evicted(c);
    assert ev == es[..EvictCount(|c.keys|)];
    forall i | 0 <= i < |ev|
      ensures ev[i].0 in c.values
    {
      assert ev[i] == es[i];
    }
    forall i, j | 0 <= i < j < |ev|
      ensures ev[i].0 != ev[j].0
    {
      assert ev[i] == es[i] && ev[j] == es[j];
    }
  }

  /** Every evicted entry is no newer than any kept one. */
  lemma EvictOldest<K(!new), D>(c: Cache<K, D>, i: nat, k: K)
    requires OrderedMaps.Valid(c) && i < |Evicted(c)| && k in RemoveEntries(c, Evicted(c)).values
    ensures Evicted(c)[i].0 in c.values && Evicted(c)[i].1.timestamp <= c.values[k].timestamp
  {
    var es := SortByTime(Entries(c));
    var d := EvictCount(|c.keys|);
    var ev := Evicted(c);
    assert ev == es[..d];
    PermutedKeysDistinct(c, es);
    assert ev[i] == es[i];
    KeptIsLater(c, es, d, k);
  }

  /** A key not among the first `d` sorted entries sits after them. */
  lemma KeptIsLater<K, D>(c: Cache<K, D>, es: seq<Entry<K, D>>, d: nat, k: K)
    requires OrderedMaps.Valid(c) && multiset(es) == multiset(Entries(c)) && OldestFirst(es) && d <= |es|
    requires k in c.values && k !in KeySet(es[..d])
    ensures forall i :: 0 <= i < d ==> es[i].1.timestamp <= c.values[k].timestamp
  {
    assert (k, c.values[k]) in multiset(es) by {
      EntriesFaithful(c, (k, c.values[k]));
    }
    var j :| 0 <= j < |es| && es[j] == (k, c.values[k]);
    forall i | 0 <= i < d
      ensures es[i].0 != k
    {
      assert es[..d][i] == es[i];
    }
  }

  /** A store never takes a cache of at most a thousand entries over that bound. */
  lemma SaveBounded<K(!new), D>(c: Cache<K, D>, key: K, data: D, now: int)
    requires OrderedMaps.Valid(c) && |c.keys| <= MaxEntries
    ensures |Save(c, key, data, now).keys| <= MaxEntries
  {
    var c1 := OrderedMaps.Put(c, key, CacheEntry(data, now));
    if |c1.keys| > MaxEntries {
      EvictSize(c1);
    }
  }

  /**
   * The store puts the entry, then, when that takes the map over a thousand
   * entries, deletes exactly a fifth (rounded down) of them, each no newer
   * than any entry kept.
   */
  lemma SaveEvictsOldest<K(!new), D>(c: Cache<K, D>, key: K, data: D, now: int)
    requires OrderedMaps.Valid(c)
    ensures var c1 := OrderedMaps.Put(c, key, CacheEntry(data, now));
            var r := Save(c, key, data, now);
            (|c1.keys| <= MaxEntries ==> r == c1)
            && (|c1.keys| > MaxEntries ==>
                  |r.keys| == |c1.keys| - EvictCount(|c1.keys|)
                  && (forall k :: k in r.values ==> k in c1.values && r.values[k] == c1.values[k])
                  && (forall k, k' :: k in c1.values && k !in r.values && k' in r.values ==>
                        c1.values[k].timestamp <= c1.values[k'].timestamp))
  {
    var c1 := OrderedMaps.Put(c, key, CacheEntry(data, now));
    if |c1.keys| > MaxEntries {
      EvictSize(c1);
      EvictedNoNewer(c1);
    }
  }

  /** No entry the eviction removes is newer than an entry it keeps. */
  lemma EvictedNoNewer<K(!new), D>(c: Cache<K, D>)
    requires OrderedMaps.Valid(c)
    ensures var r := RemoveEntries(c, Evicted(c));
            forall k, k' :: k in c.values && k !in r.values && k' in r.values ==>
              c.values[k].timestamp <= c.values[k'].timestamp
  {
    var ev := Evicted(c);
    var r := RemoveEntries(c, ev);
    forall k, k' | k in c.values && k !in r.values && k' in r.values
      ensures c.values[k].timestamp <= c.values[k'].timestamp
    {
      var i := KeySetIndex(ev, k);
      EvictOldest(c, i, k');
      PermutedKeysDistinct(c, SortByTime(Entries(c)));
      assert ev[i] == SortByTime(Entries(c))[i];
    }
  }

  /**
   * An entry stored later than every other entry survives the store's own
   * eviction, so a lookup at the same moment returns the data just stored.
   */
  lemma SaveThenLookup<K(!new), D>(c: Cache<K, D>, key: K, data: D, now: int)
    requires OrderedMaps.Valid(c)
    requires forall k :: k in c.values && k != key ==> c.values[k].timestamp < now
    ensures key in Save(c, key, data, now).values
    ensures Save(c, key, data, now).values[key] == CacheEntry(data, now)
    ensures Lookup(Save(c, key, data, now), key, now).0 == Some(data)
  {
    var c1 := OrderedMaps.Put(c, key, CacheEntry(data, now));
    if |c1.keys| > MaxEntries {
      NewestKept(c1, key, now);
    }
  }

  /** The one newest entry is not among the evicted ones. */
  lemma NewestKept<K(!new), D>(c: Cache<K, D>, key: K, now: int)
    requires OrderedMaps.Valid(c) && key in c.values && c.values[key].timestamp == now && |c.keys| > 0
    requires forall k :: k in c.values && k != key ==> c.values[k].timestamp < now
    ensures key !in KeySet(Evicted(c))
  {
    var es := SortByTime(Entries(c));
    var ev := Evicted(c);
    assert ev == es[..EvictCount(|c.keys|)];
    PermutedKeysDistinct(c, es);
    var last := |es| - 1;
    forall i | 0 <= i < |ev|
      ensures ev[i].0 != key
    {
      assert ev[i] == es[i] && es[i].1.timestamp <= es[last].1.timestamp;
    }
    if key in KeySet(ev) {
      var i := KeySetIndex(ev, key);
    }
  }

  /** `clearCache()`. */
  function Cleared<K(==), D>(): (r: Cache<K, D>)
    ensures OrderedMaps.Valid(r) && r.values == map[] && |r.keys| == 0
  {
    OrderedMaps.Empty()
  }
}
