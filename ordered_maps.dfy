/** JavaScript's `Map`: a dictionary that remembers the order in which its
    keys were first set. Setting an existing key keeps its place; deleting
    a key forgets it, so setting it again puts it at the end. */
module OrderedMaps {
  import opened Common

  datatype OMap<K(!new), V> = OMap(keys: seq<K>, entries: map<K, V>)
  {
    /** The order lists every key exactly once. */
    ghost predicate Valid()
    {
      && Distinct(keys)
      && (forall k :: k in entries <==> k in keys)
    }

    predicate Has(k: K) { k in entries }

    /** `map.get(k)`. */
    function Get(k: K): Option<V>
    {
      if k in entries then Some(entries[k]) else None
    }

    /** `map.set(k, v)`. */
    function Set(k: K, v: V): (m: OMap<K, V>)
      ensures m.entries == entries[k := v]
      ensures k in entries ==> m.keys == keys
      ensures k !in entries ==> m.keys == keys + [k]
      ensures Valid() ==> m.Valid()
    {
      if k in entries then OMap(keys, entries[k := v]) else OMap(keys + [k], entries[k := v])
    }

    /** `map.delete(k)`. */
    function Remove(k: K): (m: OMap<K, V>)
      ensures m.entries == entries - {k}
      ensures k !in m.keys
      ensures forall j :: j in m.keys <==> j in keys && j != k
      ensures Distinct(keys) ==> Distinct(m.keys)
      ensures Valid() ==> m.Valid()
      ensures IsSubsequence(m.keys, keys)
    {
      OMap(Without(keys, k), entries - {k})
    }

    /** `Array.from(map.values())`, in key order. */
    function Values(): (vs: seq<V>)
      requires Valid()
      ensures |vs| == |keys|
      ensures forall i :: 0 <= i < |keys| ==> vs[i] == entries[keys[i]]
    {
      seq(|keys|, i requires 0 <= i < |keys| && Valid() => entries[keys[i]])
    }

    function Size(): nat { |keys| }
  }

  function Empty<K(!new), V>(): (m: OMap<K, V>)
    ensures m.Valid() && m.keys == [] && m.entries == map[]
  {
    OMap([], map[])
  }

  /** `s` with every occurrence of `k` removed, order kept. */
  function Without<K(==, !new)>(s: seq<K>, k: K): (r: seq<K>)
    ensures forall j :: j in r <==> j in s && j != k
    ensures Distinct(s) ==> Distinct(r)
    ensures IsSubsequence(r, s)
    ensures |r| <= |s|
    decreases |s|
  {
    if |s| == 0 then []
    else
      var init := Without(s[..|s| - 1], k);
      var last := s[|s| - 1];
      assert s == s[..|s| - 1] + [last];
      SubsequenceExtend(init, s[..|s| - 1], last, last != k);
      if last == k then init
      else
        assert Distinct(s) ==> last !in s[..|s| - 1];
        init + [last]
  }
}
