/**
 * A JavaScript `Map` (or a plain object with string keys): a finite map
 * that also remembers the order in which its keys were first set.
 * Setting an existing key keeps its place; deleting a key removes it.
 */
module OrderedMaps {
  import Seqs

  datatype OrderedMap<K(==), V> = OrderedMap(keys: seq<K>, values: map<K, V>)

  /** The keys are listed once each, and exactly the mapped keys are listed. */
  predicate Valid<K(==), V>(o: OrderedMap<K, V>)
  {
    Seqs.Distinct(o.keys) && (forall k :: k in o.keys ==> k in o.values) && (forall k :: k in o.values ==> k in o.keys)
  }

  function Empty<K(==), V>(): (r: OrderedMap<K, V>)
    ensures r.keys == [] && r.values == map[]
  {
    OrderedMap([], map[])
  }

  /** `m.set(k, v)`. */
  function Put<K(==), V>(o: OrderedMap<K, V>, k: K, v: V): (r: OrderedMap<K, V>)
    requires Valid(o)
    ensures Valid(r)
    ensures r.values == o.values[k := v]
    ensures k in o.values ==> r.keys == o.keys
    ensures k !in o.values ==> r.keys == o.keys + [k]
  {
    if k in o.values then OrderedMap(o.keys, o.values[k := v])
    else OrderedMap(o.keys + [k], o.values[k := v])
  }

  /** The listed keys without `k`, in their order. */
  function Without<K(==,!new)>(ks: seq<K>, k: K): (r: seq<K>)
    ensures forall x :: x in r <==> x in ks && x != k
    ensures Seqs.Distinct(ks) ==> Seqs.Distinct(r)
    ensures |r| <= |ks|
  {
    if ks == [] then []
    else
      var rest := Without(ks[1..], k);
      assert forall x :: x in ks <==> x == ks[0] || x in ks[1..] by {
        assert ks == [ks[0]] + ks[1..];
      }
      if ks[0] == k then rest
      else
        var r := [ks[0]] + rest;
        assert forall j :: 0 < j < |r| ==> r[j] == rest[j - 1] && r[j] in ks[1..];
        r
  }

  /** Taking a listed key out of a list without repeats shortens it by one. */
  lemma {:induction false} WithoutLength<K(!new)>(ks: seq<K>, k: K)
    requires Seqs.Distinct(ks) && k in ks
    ensures |Without(ks, k)| == |ks| - 1
    decreases |ks|
  {
    if ks[0] != k {
      assert k in ks[1..] by {
        assert ks == [ks[0]] + ks[1..];
      }
      assert forall i, j :: 0 <= i < j < |ks| - 1 ==> ks[1..][i] == ks[i + 1] && ks[1..][j] == ks[j + 1];
      WithoutLength(ks[1..], k);
    } else {
      assert k !in ks[1..] by {
        assert forall j :: 0 <= j < |ks| - 1 ==> ks[1..][j] == ks[j + 1];
      }
      assert Without(ks[1..], k) == ks[1..] by {
        WithoutAbsent(ks[1..], k);
      }
    }
  }

  lemma {:induction false} WithoutAbsent<K(!new)>(ks: seq<K>, k: K)
    requires k !in ks
    ensures Without(ks, k) == ks
    decreases |ks|
  {
    if ks != [] {
      assert k !in ks[1..];
      WithoutAbsent(ks[1..], k);
      assert ks == [ks[0]] + ks[1..];
    }
  }

  /** `m.delete(k)`. */
  function Remove<K(==,!new), V>(o: OrderedMap<K, V>, k: K): (r: OrderedMap<K, V>)
    requires Valid(o)
    ensures Valid(r)
    ensures r.values == o.values - {k}
  {
    OrderedMap(Without(o.keys, k), o.values - {k})
  }

  /** `[...m.values()]`: the values in key order. */
  function Values<K(==), V>(o: OrderedMap<K, V>): (r: seq<V>)
    requires forall k :: k in o.keys ==> k in o.values
    ensures |r| == |o.keys|
    ensures forall i :: 0 <= i < |r| ==> r[i] == o.values[o.keys[i]]
    decreases |o.keys|
  {
    if o.keys == [] then []
    else [o.values[o.keys[0]]] + Values(OrderedMap(o.keys[1..], o.values))
  }
}
