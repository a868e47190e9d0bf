/** A Python `dict`: a finite map that also remembers the order in which its
    keys were first inserted (re-assigning a key keeps its place). */
module Dicts {

  datatype Dict<K, V> = Dict(order: seq<K>, entries: map<K, V>)

  /** The keys in `order` are distinct and are exactly the keys of `entries`. */
  ghost predicate Valid<K, V>(d: Dict<K, V>) {
    && (forall i, j :: 0 <= i < j < |d.order| ==> d.order[i] != d.order[j])
    && d.entries.Keys == (set k | k in d.order)
  }

  /** `{}`. */
  function EmptyDict<K, V>(): (d: Dict<K, V>)
    ensures Valid(d) && d.entries == map[]
  {
    Dict([], map[])
  }

  /** `d[k] = v`: a new key goes to the end, an existing one keeps its place. */
  function Put<K, V>(d: Dict<K, V>, k: K, v: V): (r: Dict<K, V>)
    requires Valid(d)
    ensures Valid(r)
    ensures r.entries == d.entries[k := v]
    ensures k in d.entries ==> r.order == d.order
    ensures k !in d.entries ==> r.order == d.order + [k]
  {
    if k in d.entries then Dict(d.order, d.entries[k := v])
    else Dict(d.order + [k], d.entries[k := v])
  }
}
