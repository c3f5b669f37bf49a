/**
 * A JavaScript `Map`: a keyed store whose iteration order is the order in
 * which keys were first inserted. `set` on a present key keeps its position,
 * `delete` drops the key from the order.
 */
module OrderedMaps {
  import opened Wrappers

  datatype OrderedMap<K(!new), V> = OrderedMap(keys: seq<K>, entries: map<K, V>) {

    /** Keys are listed once each, and exactly the keys of `entries` are listed. */
    ghost predicate Valid() {
      && Distinct(keys)
      && (forall k :: k in entries <==> k in keys)
    }

    /** `map.get(k)`. */
    function Get(k: K): (r: Option<V>)
      ensures r.Some? <==> k in entries
      ensures r.Some? ==> r.value == entries[k]
    {
      if k in entries then Some(entries[k]) else None
    }

    /** `map.set(k, v)`. */
    function Put(k: K, v: V): (r: OrderedMap<K, V>)
      requires Valid()
      ensures r.Valid()
      ensures r.entries == entries[k := v]
      ensures k in entries ==> r.keys == keys
      ensures k !in entries ==> r.keys == keys + [k]
    {
      if k in entries then OrderedMap(keys, entries[k := v])
      else OrderedMap(keys + [k], entries[k := v])
    }

    /** `map.delete(k)`. */
    function Delete(k: K): (r: OrderedMap<K, V>)
      requires Valid()
      ensures r.Valid()
      ensures r.entries == entries - {k}
      ensures r.keys == Without(keys, k)
    {
      OrderedMap(Without(keys, k), entries - {k})
    }
  }

  /** A second `set` of the same key overwrites the first and keeps its position. */
  lemma PutTwice<K(!new), V>(m: OrderedMap<K, V>, k: K, v: V, w: V)
    requires m.Valid()
    ensures m.Put(k, v).Put(k, w) == m.Put(k, w)
  {
  }

  /** No element is listed twice. */
  ghost predicate Distinct<K>(ks: seq<K>) {
    forall i, j :: 0 <= i < j < |ks| ==> ks[i] != ks[j]
  }

  function Empty<K(!new), V>(): (r: OrderedMap<K, V>)
    ensures r.Valid() && r.entries == map[] && r.keys == []
  {
    OrderedMap([], map[])
  }

  /** The keys of `ks` other than `k`, in their order. */
  function Without<K(==, !new)>(ks: seq<K>, k: K): (r: seq<K>)
    ensures forall x :: x in r <==> x in ks && x != k
    ensures Distinct(ks) ==> Distinct(r)
  {
    if ks == [] then []
    else if ks[0] == k then Without(ks[1..], k)
    else
      var rest := Without(ks[1..], k);
      assert Distinct(ks) ==> ks[0] !in ks[1..] by {
        if Distinct(ks) {
          forall m | 0 <= m < |ks[1..]| ensures ks[1..][m] != ks[0] {
            assert ks[1..][m] == ks[m + 1];
          }
        }
      }
      [ks[0]] + rest
  }
}
