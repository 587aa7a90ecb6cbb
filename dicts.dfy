/**
 * Python's insertion-ordered `dict`: the keys in the order they were first
 * assigned, and the mapping itself. Assigning to a key that is already there
 * replaces its value and keeps its position.
 */
module Dicts {
  import opened Seqs

  datatype Dict<K, V> = Dict(keys: seq<K>, entries: map<K, V>)

  ghost predicate Valid<K, V>(d: Dict<K, V>) {
    && NoDuplicates(d.keys)
    && (forall k | k in d.entries :: k in d.keys)
    && (forall i | 0 <= i < |d.keys| :: d.keys[i] in d.entries)
  }

  function Empty<K, V>(): (d: Dict<K, V>)
    ensures Valid(d) && d.keys == []
  {
    Dict([], map[])
  }

  /** `d[k] = v`. */
  function Put<K(==), V>(d: Dict<K, V>, k: K, v: V): (r: Dict<K, V>)
    requires Valid(d)
    ensures Valid(r)
    ensures r.entries == d.entries[k := v]
    ensures r.keys == if k in d.entries then d.keys else d.keys + [k]
  {
    if k in d.entries then Dict(d.keys, d.entries[k := v])
    else Dict(d.keys + [k], d.entries[k := v])
  }
}
