/**
 * Python dictionaries. A dict remembers the order in which its keys were first
 * inserted, and assigning to an existing key keeps that key's position; the
 * order matters to every caller that iterates `items()` or `values()`. A dict is
 * therefore modelled as its list of entries, with no key twice.
 */
module Dicts {
  import opened Wrappers

  predicate DistinctKeys<K(==), V>(d: seq<(K, V)>)
  {
    forall i, j :: 0 <= i < j < |d| ==> d[i].0 != d[j].0
  }

  type Dict<K(==), V> = d: seq<(K, V)> | DistinctKeys(d) witness []

  /** The keys in iteration order. */
  function Keys<K(==), V>(d: Dict<K, V>): seq<K>
  {
    if d == [] then [] else [d[0].0] + Keys(d[1..])
  }

  /** `dict.values()`, in iteration order. */
  function Values<K(==), V>(d: Dict<K, V>): seq<V>
  {
    if d == [] then [] else [d[0].1] + Values(d[1..])
  }

  /** `k in d`. */
  function KeySet<K(==), V>(d: Dict<K, V>): set<K>
  {
    set i | 0 <= i < |d| :: d[i].0
  }

  /** `d.get(k)`: the value stored under `k`, if any. */
  function Get<K(==), V>(d: Dict<K, V>, k: K): (r: Option<V>)
    ensures r.None? <==> k !in KeySet(d)
    ensures r.Some? ==> (k, r.value) in d
  {
    if d == [] then None
    else if d[0].0 == k then Some(d[0].1)
    else Get(d[1..], k)
  }

  /**
   * `d[k] = v`: an existing key keeps its place and takes the new value; a new
   * key goes to the end.
   */
  function Put<K(==, !new), V>(d: Dict<K, V>, k: K, v: V): (r: Dict<K, V>)
    ensures Get(r, k) == Some(v)
    ensures forall k' :: k' != k ==> Get(r, k') == Get(d, k')
    ensures KeySet(r) == KeySet(d) + {k}
  {
    if d == [] then [(k, v)]
    else if d[0].0 == k then
      var r: Dict<K, V> := [(k, v)] + d[1..];
      KeySetCons(d);
      KeySetCons(r);
      r
    else
      var rest := Put(d[1..], k, v);
      KeySetCons(d);
      assert d[0].0 !in KeySet(rest);
      var r: Dict<K, V> := [d[0]] + rest;
      assert r[1..] == rest;
      KeySetCons(r);
      r
  }

  lemma KeySetCons<K, V>(d: Dict<K, V>)
    requires d != []
    ensures KeySet(d) == {d[0].0} + KeySet(d[1..])
  {
    assert forall i :: 0 < i < |d| ==> d[i].0 == d[1..][i - 1].0;
  }

  /** Assignment keeps the iteration order of the keys already present and appends a new key at the end. */
  lemma {:induction false} PutKeyOrder<K(!new), V>(d: Dict<K, V>, k: K, v: V)
    ensures Keys(Put(d, k, v)) == if k in KeySet(d) then Keys(d) else Keys(d) + [k]
  {
    if d != [] && d[0].0 != k {
      KeySetCons(d);
      PutKeyOrder(d[1..], k, v);
      assert Put(d, k, v)[1..] == Put(d[1..], k, v);
    }
  }
}
