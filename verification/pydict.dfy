/**
 * Python's insertion-ordered `dict`, as a sequence of (key, value) entries.
 * Iterating a dict visits keys in insertion order; `d[k] = v` on an existing key
 * replaces the value in place, on a new key appends an entry at the end.
 */
module PyDict {
  import opened Common
  import opened Seqs

  type Dict<K, V> = seq<(K, V)>

  /** `list(d)`: the keys in insertion order. */
  function Keys<K, V>(d: Dict<K, V>): (ks: seq<K>)
    ensures |ks| == |d|
    ensures forall i :: 0 <= i < |d| ==> ks[i] == d[i].0
  {
    if |d| == 0 then [] else [d[0].0] + Keys(d[1..])
  }

  /** A Python dict never holds a key twice. */
  predicate UniqueKeys<K(==,!new), V>(d: Dict<K, V>) {
    Distinct(Keys(d))
  }

  /** `d.get(k)`: the value stored under `k`, if any. */
  function Get<K(==,!new), V>(d: Dict<K, V>, k: K): (r: Option<V>)
    ensures r.Some? <==> k in Keys(d)
  {
    if |d| == 0 then None
    else if d[0].0 == k then Some(d[0].1)
    else
      assert Keys(d) == [d[0].0] + Keys(d[1..]);
      Get(d[1..], k)
  }

  /** The value found under an entry's key is that entry's value. */
  lemma {:induction false} GetEntry<K(!new), V>(d: Dict<K, V>, i: nat)
    requires UniqueKeys(d)
    requires i < |d|
    ensures Get(d, d[i].0) == Some(d[i].1)
  {
    if i > 0 {
      assert Keys(d)[0] != Keys(d)[i];
      assert Keys(d[1..]) == Keys(d)[1..];
      GetEntry(d[1..], i - 1);
    }
  }

  /** `d[k] = v`. */
  function Put<K(==,!new), V>(d: Dict<K, V>, k: K, v: V): (r: Dict<K, V>)
    ensures Get(r, k) == Some(v)
    ensures forall k' :: k' != k ==> Get(r, k') == Get(d, k')
    ensures k in Keys(d) ==> Keys(r) == Keys(d)
    ensures k !in Keys(d) ==> Keys(r) == Keys(d) + [k]
    ensures UniqueKeys(d) ==> UniqueKeys(r)
  {
    var r := PutEntry(d, k, v);
    assert k !in Keys(d) && UniqueKeys(d) ==> Distinct(Keys(d) + [k]) by {
      if k !in Keys(d) && UniqueKeys(d) {
        DistinctAppend(Keys(d), k);
      }
    }
    r
  }

  function PutEntry<K(==,!new), V>(d: Dict<K, V>, k: K, v: V): (r: Dict<K, V>)
    ensures Get(r, k) == Some(v)
    ensures forall k' :: k' != k ==> Get(r, k') == Get(d, k')
    ensures k in Keys(d) ==> Keys(r) == Keys(d)
    ensures k !in Keys(d) ==> Keys(r) == Keys(d) + [k]
  {
    if |d| == 0 then [(k, v)]
    else if d[0].0 == k then
      KeysCons((k, v), d[1..]);
      KeysCons(d[0], d[1..]);
      assert d == [d[0]] + d[1..];
      [(k, v)] + d[1..]
    else
      var rest := PutEntry(d[1..], k, v);
      KeysCons(d[0], rest);
      KeysCons(d[0], d[1..]);
      assert d == [d[0]] + d[1..];
      [d[0]] + rest
  }

  lemma KeysCons<K, V>(e: (K, V), d: Dict<K, V>)
    ensures Keys([e] + d) == [e.0] + Keys(d)
    ensures ([e] + d)[1..] == d
  {
  }

  /** `for k in ks: d[k] = v`. */
  function PutAll<K(==,!new), V>(d: Dict<K, V>, ks: seq<K>, v: V): (r: Dict<K, V>)
    ensures forall k :: Get(r, k) == (if k in ks then Some(v) else Get(d, k))
    ensures (forall k :: k in ks ==> k in Keys(d)) ==> Keys(r) == Keys(d)
    ensures UniqueKeys(d) ==> UniqueKeys(r)
    decreases |ks|
  {
    if |ks| == 0 then d
    else
      var r := PutAll(Put(d, ks[0], v), ks[1..], v);
      assert forall k :: k in ks <==> k == ks[0] || k in ks[1..];
      r
  }
}
