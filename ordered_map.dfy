/**
 * A JavaScript `Map`: a finite map that also remembers the order in which its keys were first
 * inserted, which is the order `values()` and `forEach` visit them in.
 */
module OrderedMaps {
  import opened Seqs

  datatype OrderedMap<K(==,!new), V> = OrderedMap(keys: seq<K>, entries: map<K, V>) {

    /** Every key is listed once, and the listed keys are exactly the keys of the map. */
    ghost predicate Valid() {
      && Distinct(keys)
      && forall k :: k in entries <==> k in keys
    }

    /** `map.has(k)` */
    predicate Has(k: K) {
      k in entries
    }

    /** `map.get(k)` for a present key. */
    function Get(k: K): V
      requires Has(k)
    {
      entries[k]
    }

    /** `map.size` */
    function Size(): nat {
      |entries|
    }

    /**
     * `map.set(k, v)`: a new key goes to the end of the order, an existing key keeps its place
     * and only its value changes.
     */
    function Set(k: K, v: V): (r: OrderedMap<K, V>)
      requires Valid()
      ensures r.Valid()
      ensures r.entries == entries[k := v]
      ensures k !in entries ==> r.keys == keys + [k]
      ensures k in entries ==> r.keys == keys
    {
      if k in entries then OrderedMap(keys, entries[k := v])
      else OrderedMap(keys + [k], entries[k := v])
    }

    /** `map.delete(k)`: the key leaves the map and the order; the other keys keep their order. */
    function Delete(k: K): (r: OrderedMap<K, V>)
      requires Valid()
      ensures r.Valid()
      ensures r.entries == entries - {k}
      ensures r.keys == Remove(keys, k)
    {
      OrderedMap(Remove(keys, k), entries - {k})
    }

    /** `Array.from(map.values())`: the values in key-insertion order. */
    function Values(): (r: seq<V>)
      requires Valid()
      ensures |r| == |keys|
      ensures forall i :: 0 <= i < |keys| ==> r[i] == entries[keys[i]]
    {
      seq(|keys|, i requires 0 <= i < |keys| => entries[keys[i]])
    }
  }

  /** The empty `new Map()`. */
  function Empty<K(==,!new), V>(): (r: OrderedMap<K, V>)
    ensures r.Valid() && r.Size() == 0 && r.keys == []
  {
    OrderedMap([], map[])
  }

  /**
   * Deleting the `k`-th key shifts the later keys down by one: the `i`-th key afterwards is the old
   * `i`-th before `k` and the old `i+1`-th from `k` on, with its value unchanged.
   */
  lemma DeleteAt<K(!new), V>(m: OrderedMap<K, V>, k: nat, i: nat)
    requires m.Valid() && k < |m.keys| && i < |m.keys| - 1
    ensures var d, j := m.Delete(m.keys[k]), if i < k then i else i + 1;
            && i < |d.keys| && d.keys[i] == m.keys[j]
            && d.keys[i] in d.entries && d.entries[d.keys[i]] == m.entries[m.keys[j]]
  {
    var d, j := m.Delete(m.keys[k]), if i < k then i else i + 1;
    RemoveAt(m.keys, k);
    var front, back := m.keys[..k], m.keys[k + 1..];
    assert d.keys == front + back;
    if i < k {
      assert d.keys[i] == front[i];
    } else {
      assert d.keys[i] == back[i - k];
    }
    assert m.keys[j] != m.keys[k];
  }

  /** A valid map lists exactly `size` keys, so `values()` has `size` elements. */
  lemma SizeIsKeyCount<K(!new), V>(m: OrderedMap<K, V>)
    requires m.Valid()
    ensures m.Size() == |m.keys| == |m.Values()|
  {
    DistinctCardinality(m.keys);
    assert m.entries.Keys == set x | x in m.keys;
  }
}
