/** Python's `dict` as the diff engine uses it: an association list that iterates in
    insertion order, where assigning to an existing key keeps the key's position and
    replaces its value. */
module OrderedMap {
  import opened Wrappers

  function Keys<K, V>(m: seq<(K, V)>): (ks: seq<K>)
    ensures |ks| == |m| && forall i :: 0 <= i < |m| ==> ks[i] == m[i].0
  {
    if |m| == 0 then [] else [m[0].0] + Keys(m[1..])
  }

  /** `list(d.values())`. */
  function Values<K, V>(m: seq<(K, V)>): (vs: seq<V>)
    ensures |vs| == |m| && forall i :: 0 <= i < |m| ==> vs[i] == m[i].1
  {
    if |m| == 0 then [] else [m[0].1] + Values(m[1..])
  }

  lemma ValuesSnoc<K, V>(m: seq<(K, V)>)
    requires |m| > 0
    ensures Values(m) == Values(m[..|m| - 1]) + [m[|m| - 1].1]
  {
    assert |Values(m)| == |Values(m[..|m| - 1]) + [m[|m| - 1].1]|;
    forall i | 0 <= i < |m| ensures Values(m)[i] == (Values(m[..|m| - 1]) + [m[|m| - 1].1])[i] {
      if i < |m| - 1 {
        assert m[..|m| - 1][i] == m[i];
      }
    }
  }

  predicate DistinctKeys<K(==), V>(m: seq<(K, V)>) {
    forall i, j :: 0 <= i < j < |m| ==> m[i].0 != m[j].0
  }

  /** `d.get(k)`. */
  function Lookup<K(==), V>(m: seq<(K, V)>, k: K): (r: Option<V>)
    ensures r.None? <==> k !in Keys(m)
  {
    if |m| == 0 then None
    else if m[0].0 == k then Some(m[0].1)
    else
      assert Keys(m) == [m[0].0] + Keys(m[1..]);
      Lookup(m[1..], k)
  }

  lemma EntryKeyInKeys<K, V>(m: seq<(K, V)>, e: (K, V))
    requires e in m
    ensures e.0 in Keys(m)
  {
    var i :| 0 <= i < |m| && m[i] == e;
    assert Keys(m)[i] == e.0;
  }

  /** With distinct keys, the value found for a key is the one stored with it. */
  lemma {:induction false} LookupEntry<K, V>(m: seq<(K, V)>, i: int)
    requires DistinctKeys(m) && 0 <= i < |m|
    ensures Lookup(m, m[i].0) == Some(m[i].1)
  {
    if i > 0 {
      LookupEntry(m[1..], i - 1);
    }
  }

  /** `d[k] = v`: a new key goes last, an existing key keeps its place and takes the new value. */
  function Put<K(==), V>(m: seq<(K, V)>, k: K, v: V): seq<(K, V)> {
    if |m| == 0 then [(k, v)]
    else if m[0].0 == k then [(k, v)] + m[1..]
    else [m[0]] + Put(m[1..], k, v)
  }

  /** Assignment keeps the key order, adding a new key at the end, and keeps keys distinct. */
  lemma {:induction false} PutKeys<K, V>(m: seq<(K, V)>, k: K, v: V)
    ensures Keys(Put(m, k, v)) == if k in Keys(m) then Keys(m) else Keys(m) + [k]
    ensures DistinctKeys(m) ==> DistinctKeys(Put(m, k, v))
  {
    if |m| > 0 && m[0].0 != k {
      PutKeys(m[1..], k, v);
      assert Keys(m) == [m[0].0] + Keys(m[1..]);
      assert Keys(Put(m, k, v)) == [m[0].0] + Keys(Put(m[1..], k, v));
    }
  }

  /** After `d[k] = v`, `d.get(k)` is `v` and every other lookup is as before. */
  lemma {:induction false} LookupPut<K, V>(m: seq<(K, V)>, k: K, v: V, j: K)
    ensures Lookup(Put(m, k, v), j) == if j == k then Some(v) else Lookup(m, j)
  {
    if |m| > 0 && m[0].0 != k {
      LookupPut(m[1..], k, v, j);
    }
  }
}
