/** Insertion-ordered dictionaries: a key keeps the place of its first insertion, and
    storing it again replaces the value there. */
module Dicts {
  import opened Wrappers

  datatype Entry<+K, +V> = Entry(key: K, value: V)

  type Dict<K, V> = seq<Entry<K, V>>

  function Get<K(==), V>(d: Dict<K, V>, k: K): Option<V> {
    if d == [] then None
    else if d[0].key == k then Some(d[0].value)
    else Get(d[1..], k)
  }

  function GetOr<K(==), V>(d: Dict<K, V>, k: K, default: V): V {
    match Get(d, k)
    case Some(v) => v
    case None => default
  }

  function Put<K(==), V>(d: Dict<K, V>, k: K, v: V): (r: Dict<K, V>)
    ensures r != []
  {
    if d == [] then [Entry(k, v)]
    else if d[0].key == k then [Entry(k, v)] + d[1..]
    else [d[0]] + Put(d[1..], k, v)
  }

  function Keys<K, V>(d: Dict<K, V>): (ks: seq<K>)
    ensures |ks| == |d|
    ensures forall i :: 0 <= i < |d| ==> ks[i] == d[i].key
  {
    seq(|d|, i requires 0 <= i < |d| => d[i].key)
  }

  ghost predicate Distinct<K, V>(d: Dict<K, V>) {
    forall i, j :: 0 <= i < j < |d| ==> d[i].key != d[j].key
  }

  lemma {:induction false} GetPut<K, V>(d: Dict<K, V>, k: K, v: V, j: K)
    ensures Get(Put(d, k, v), j) == if j == k then Some(v) else Get(d, j)
  {
    if d != [] && d[0].key != k {
      GetPut(d[1..], k, v, j);
    }
  }

  lemma KeysCons<K, V>(e: Entry<K, V>, d: Dict<K, V>)
    ensures Keys([e] + d) == [e.key] + Keys(d)
  {}

  lemma {:induction false} GetIsKey<K, V>(d: Dict<K, V>, k: K)
    ensures Get(d, k).Some? <==> k in Keys(d)
  {
    if d != [] {
      GetIsKey(d[1..], k);
      KeysCons(d[0], d[1..]);
      assert d == [d[0]] + d[1..];
    }
  }

  lemma GetMissing<K, V>(d: Dict<K, V>, k: K)
    requires forall i :: 0 <= i < |d| ==> d[i].key != k
    ensures Get(d, k) == None
  {
    GetIsKey(d, k);
  }

  /** Storing a key keeps the order of the keys and adds a new key at the end. */
  lemma {:induction false} KeysPut<K, V>(d: Dict<K, V>, k: K, v: V)
    ensures Keys(Put(d, k, v)) == if k in Keys(d) then Keys(d) else Keys(d) + [k]
  {
    if d != [] {
      var front, rest := d[0], d[1..];
      assert d == [front] + rest;
      KeysCons(front, rest);
      if front.key == k {
        KeysCons(Entry(k, v), rest);
      } else {
        hide Keys;
        KeysPut(rest, k, v);
        KeysCons(front, Put(rest, k, v));
      }
    }
  }

  lemma DistinctPut<K, V>(d: Dict<K, V>, k: K, v: V)
    requires Distinct(d)
    ensures Distinct(Put(d, k, v))
  {
    KeysPut(d, k, v);
    var r := Put(d, k, v);
    forall i, j | 0 <= i < j < |r|
      ensures r[i].key != r[j].key
    {
      assert r[i].key == Keys(r)[i] && r[j].key == Keys(r)[j];
      assert forall n :: 0 <= n < |d| ==> Keys(d)[n] == d[n].key;
    }
  }

  lemma {:induction false} PutFresh<K, V>(d: Dict<K, V>, k: K, v: V)
    requires k !in Keys(d)
    ensures Put(d, k, v) == d + [Entry(k, v)]
  {
    if d != [] {
      assert Keys(d) == [d[0].key] + Keys(d[1..]);
      PutFresh(d[1..], k, v);
      assert d == [d[0]] + d[1..];
    }
  }

  lemma {:induction false} GetAt<K, V>(d: Dict<K, V>, i: nat)
    requires i < |d| && Distinct(d)
    ensures Get(d, d[i].key) == Some(d[i].value)
  {
    if i != 0 {
      assert d[0].key != d[i].key;
      GetAt(d[1..], i - 1);
    }
  }
}
