/**
 * An insertion-ordered dictionary, the way a Python `dict` behaves: keys
 * are remembered in the order they were first stored, and storing under a
 * key that is already present replaces the value in place.
 */
module OrderedMaps {
  datatype OrderedMap<K(==), V> = OrderedMap(keys: seq<K>, values: map<K, V>)

  /** The keys are listed once each, and the listed keys are exactly the keys with a value. */
  predicate Valid<K(==), V>(m: OrderedMap<K, V>) {
    && (forall p, q :: 0 <= p < q < |m.keys| ==> m.keys[p] != m.keys[q])
    && m.values.Keys == (set i | 0 <= i < |m.keys| :: m.keys[i])
  }

  /** `{}`. */
  function Empty<K(==), V>(): (m: OrderedMap<K, V>)
    ensures Valid(m) && |m.keys| == 0 && |m.values| == 0
  {
    OrderedMap([], map[])
  }

  /** `d[k] = v`. */
  function Put<K(==), V>(m: OrderedMap<K, V>, k: K, v: V): (r: OrderedMap<K, V>)
    requires Valid(m)
    ensures Valid(r)
    ensures k in r.values && r.values[k] == v
    ensures r.values.Keys == m.values.Keys + {k}
    ensures forall k' :: k' in m.values && k' != k ==> r.values[k'] == m.values[k']
    ensures k in m.values ==> r.keys == m.keys
    ensures k !in m.values ==> r.keys == m.keys + [k]
  {
    var keys := if k in m.values then m.keys else m.keys + [k];
    assert (set i | 0 <= i < |keys| :: keys[i]) == m.values.Keys + {k} by {
      if k !in m.values {
        assert forall i :: 0 <= i < |m.keys| ==> keys[i] == m.keys[i];
        assert keys[|m.keys|] == k;
      }
    }
    OrderedMap(keys, m.values[k := v])
  }
}
