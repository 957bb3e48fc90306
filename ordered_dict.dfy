/**
 * Python's insertion-ordered `dict`, as a sequence of key/value pairs with
 * distinct keys. Assigning to a present key keeps its position; assigning a
 * new key appends it; deleting closes the gap.
 */
module OrderedDict {
  import opened Wrappers

  ghost predicate DistinctKeys<K, V>(d: seq<(K, V)>) {
    forall i, j :: 0 <= i < j < |d| ==> d[i].0 != d[j].0
  }

  /** `list(d.keys())`. */
  function Keys<K, V>(d: seq<(K, V)>): (ks: seq<K>)
    ensures |ks| == |d| && forall i :: 0 <= i < |d| ==> ks[i] == d[i].0
  {
    seq(|d|, i requires 0 <= i < |d| => d[i].0)
  }

  /** `list(d.values())`. */
  function Values<K, V>(d: seq<(K, V)>): (vs: seq<V>)
    ensures |vs| == |d| && forall i :: 0 <= i < |d| ==> vs[i] == d[i].1
  {
    seq(|d|, i requires 0 <= i < |d| => d[i].1)
  }

  /** Position of `k`, if present. */
  function IndexOf<K(==), V>(d: seq<(K, V)>, k: K): (r: Option<nat>)
    ensures r.Some? ==> r.value < |d| && d[r.value].0 == k
    ensures r.None? <==> k !in Keys(d)
  {
    if d == [] then None
    else if d[|d| - 1].0 == k then Some(|d| - 1)
    else IndexOf(d[..|d| - 1], k)
  }

  /** `d.get(k)`. */
  function Get<K(==), V>(d: seq<(K, V)>, k: K): (r: Option<V>)
    ensures r.Some? <==> k in Keys(d)
    ensures r.Some? ==> exists i :: 0 <= i < |d| && d[i] == (k, r.value)
  {
    match IndexOf(d, k)
    case None => None
    case Some(i) => Some(d[i].1)
  }

  /** With distinct keys, `Get` finds the value stored at any position of `k`. */
  lemma GetAt<K, V>(d: seq<(K, V)>, i: nat)
    requires DistinctKeys(d) && i < |d|
    ensures Get(d, d[i].0) == Some(d[i].1)
  {
  }

  /** `d[k] = v`. */
  function Put<K(==,!new), V>(d: seq<(K, V)>, k: K, v: V): (r: seq<(K, V)>)
    ensures k in Keys(d) ==> Keys(r) == Keys(d)
    ensures k !in Keys(d) ==> Keys(r) == Keys(d) + [k]
    ensures DistinctKeys(d) ==> DistinctKeys(r) && Get(r, k) == Some(v)
    ensures DistinctKeys(d) ==> forall k' :: k' != k ==> Get(r, k') == Get(d, k')
    ensures k !in Keys(d) ==> r == d + [(k, v)]
    ensures |r| == |Keys(r)|
  {
    match IndexOf(d, k)
    case Some(i) =>
      var r := d[i := (k, v)];
      assert Keys(r) == Keys(d);
      r
    case None =>
      var r := d + [(k, v)];
      assert Keys(r) == Keys(d) + [k];
      assert DistinctKeys(d) ==> Get(r, k) == Some(v) by {
        if DistinctKeys(d) { GetAt(r, |d|); }
      }
      r
  }

  /** Assigning a key twice leaves only the second value, at the same place. */
  lemma PutTwice<K(!new), V>(d: seq<(K, V)>, k: K, v1: V, v2: V)
    requires DistinctKeys(d)
    ensures Put(Put(d, k, v1), k, v2) == Put(d, k, v2)
  {
    var d1 := Put(d, k, v1);
    match IndexOf(d, k)
    case Some(i) =>
      assert d1 == d[i := (k, v1)];
      var j := IndexOf(d1, k).value;
      assert d1[j].0 == k && d[j].0 == k;
      assert j == i;
      assert d1[i := (k, v2)] == d[i := (k, v2)];
    case None =>
      assert d1 == d + [(k, v1)];
      assert d1[..|d|] == d;
      assert IndexOf(d1, k) == Some(|d|);
      assert d1[|d| := (k, v2)] == d + [(k, v2)];
  }

  /** Appending a new key appends its value to `list(d.values())`. */
  lemma ValuesAppend<K, V>(d: seq<(K, V)>, k: K, v: V)
    ensures Values(d + [(k, v)]) == Values(d) + [v]
  {
  }

  /** `del d[list(d.keys())[i]]`. */
  function DeleteAt<K, V>(d: seq<(K, V)>, i: nat): (r: seq<(K, V)>)
    requires i < |d|
    ensures |r| == |d| - 1
    ensures Keys(r) == Keys(d)[..i] + Keys(d)[i + 1..]
    ensures Values(r) == Values(d)[..i] + Values(d)[i + 1..]
    ensures DistinctKeys(d) ==> DistinctKeys(r) && d[i].0 !in Keys(r)
  {
    d[..i] + d[i + 1..]
  }
}
