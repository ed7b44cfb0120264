/**
 Python dictionaries with their insertion order: assigning an existing key keeps its place,
 a new key goes last, `pop` removes.
 */
module Dicts {
  import opened Options

  datatype Entry<K, V> = Entry(key: K, value: V)
  type Dict<K, V> = seq<Entry<K, V>>

  function Find<K(==), V>(d: Dict<K, V>, k: K): (i: nat)
    ensures i <= |d|
    ensures i < |d| ==> d[i].key == k
    ensures forall j :: 0 <= j < i ==> d[j].key != k
  {
    if d == [] then 0 else if d[0].key == k then 0 else 1 + Find(d[1..], k)
  }

  predicate Has<K(==), V>(d: Dict<K, V>, k: K) {
    exists i :: 0 <= i < |d| && d[i].key == k
  }

  function Get<K(==), V>(d: Dict<K, V>, k: K): Option<V> {
    var i := Find(d, k);
    if i < |d| then Some(d[i].value) else None
  }

  function Put<K(==), V>(d: Dict<K, V>, k: K, v: V): (r: Dict<K, V>)
    ensures |r| == if Has(d, k) then |d| else |d| + 1
  {
    var i := Find(d, k);
    if i < |d| then d[i := Entry(k, v)] else d + [Entry(k, v)]
  }

  function Pop<K(==), V>(d: Dict<K, V>, k: K): (r: Dict<K, V>)
    ensures |r| == if Has(d, k) then |d| - 1 else |d|
  {
    var i := Find(d, k);
    if i < |d| then d[..i] + d[i + 1..] else d
  }

  predicate Unique<K(==), V>(d: Dict<K, V>) {
    forall i, j :: 0 <= i < j < |d| ==> d[i].key != d[j].key
  }

  lemma UniqueKept<K, V>(d: Dict<K, V>, k: K, v: V)
    requires Unique(d)
    ensures Unique(Put(d, k, v)) && Unique(Pop(d, k))
  {
  }

  lemma GetPut<K, V>(d: Dict<K, V>, k: K, v: V, x: K)
    ensures Get(Put(d, k, v), x) == if x == k then Some(v) else Get(d, x)
  {
    var r, at := Put(d, k, v), Find(d, k);
    var i, j := Find(d, x), Find(r, x);
    if x == k {
      assert r[at] == Entry(k, v);
    } else {
      assert forall m :: 0 <= m < |d| && m != at ==> r[m] == d[m];
      if i < |d| {
        assert r[i].key == x;
      }
    }
  }

  lemma GetPop<K, V>(d: Dict<K, V>, k: K, x: K)
    requires Unique(d)
    ensures Get(Pop(d, k), x) == if x == k then None else Get(d, x)
  {
    var r, at := Pop(d, k), Find(d, k);
    if at < |d| {
      assert forall j :: 0 <= j < |r| ==> r[j] == d[if j < at then j else j + 1];
      var i, j := Find(d, x), Find(r, x);
      if x != k && i < |d| {
        assert r[if i < at then i else i - 1] == d[i];
      }
    }
  }
}
