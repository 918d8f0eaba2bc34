/** An insertion-ordered dictionary, as Python's `dict` behaves: a sequence
    of key/value items in which each key occurs at most once. Assigning to a
    key that is present replaces its value in place; assigning to a new key
    appends it at the end. */
module OrderedDict {
  import opened Wrappers

  datatype Item<K, V> = Item(key: K, value: V)

  /** The keys of `d`, in order. */
  function Keys<K, V>(d: seq<Item<K, V>>): (ks: seq<K>)
    ensures |ks| == |d|
    ensures forall i :: 0 <= i < |d| ==> ks[i] == d[i].key
  {
    if d == [] then [] else [d[0].key] + Keys(d[1..])
  }

  predicate Distinct<K(==)>(ks: seq<K>) {
    forall i, j :: 0 <= i < j < |ks| ==> ks[i] != ks[j]
  }

  /** `d[k]`, or None when `k` is not a key of `d`. */
  function Get<K(==), V>(d: seq<Item<K, V>>, k: K): (r: Option<V>)
    ensures r.Some? <==> k in Keys(d)
  {
    if d == [] then None
    else if d[0].key == k then Some(d[0].value)
    else Get(d[1..], k)
  }

  /** `d[k] = v`. */
  function Put<K(==,!new), V>(d: seq<Item<K, V>>, k: K, v: V): (r: seq<Item<K, V>>)
    ensures Keys(r) == if k in Keys(d) then Keys(d) else Keys(d) + [k]
    ensures Get(r, k) == Some(v)
    ensures forall k' :: k' != k ==> Get(r, k') == Get(d, k')
  {
    if d == [] then [Item(k, v)]
    else if d[0].key == k then
      var r := [Item(k, v)] + d[1..];
      assert r[1..] == d[1..];
      r
    else
      var rest := Put(d[1..], k, v);
      var r := [d[0]] + rest;
      assert r[0] == d[0] && r[1..] == rest;
      r
  }

  /** Assignment never creates a second copy of a key. */
  lemma PutKeepsDistinct<K(!new), V>(d: seq<Item<K, V>>, k: K, v: V)
    requires Distinct(Keys(d))
    ensures Distinct(Keys(Put(d, k, v)))
  {
  }

  /** Writing the same value to the same key twice is writing it once. */
  lemma {:induction false} PutTwice<K(!new), V>(d: seq<Item<K, V>>, k: K, v: V)
    ensures Put(Put(d, k, v), k, v) == Put(d, k, v)
  {
    if d != [] && d[0].key != k {
      var once := Put(d, k, v);
      assert once == [d[0]] + Put(d[1..], k, v);
      assert once[0] == d[0] && once[1..] == Put(d[1..], k, v);
      PutTwice(d[1..], k, v);
    }
  }

  /** A new key is appended at the end. */
  lemma {:induction false} PutAbsent<K(!new), V>(d: seq<Item<K, V>>, k: K, v: V)
    requires k !in Keys(d)
    ensures Put(d, k, v) == d + [Item(k, v)]
  {
    if d != [] {
      assert d[0].key != k;
      assert Keys(d) == [d[0].key] + Keys(d[1..]);
      PutAbsent(d[1..], k, v);
      assert d == [d[0]] + d[1..];
    }
  }
}
