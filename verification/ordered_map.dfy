/**
 Python's `dict` keyed by strings: a mapping that remembers the order in which
 its keys were first inserted. Assigning to a key that is already present
 replaces the value in place and leaves the order alone.
 */
module OrderedMap {

  type Dict<V> = seq<(string, V)>

  function Keys<V>(d: Dict<V>): (ks: seq<string>)
    ensures |ks| == |d|
    ensures forall i :: 0 <= i < |d| ==> ks[i] == d[i].0
  {
    if |d| == 0 then [] else [d[0].0] + Keys(d[1..])
  }

  predicate DistinctKeys<V>(d: Dict<V>) {
    forall i, j :: 0 <= i < j < |d| ==> d[i].0 != d[j].0
  }

  predicate HasKey<V>(d: Dict<V>, k: string) {
    exists i :: 0 <= i < |d| && d[i].0 == k
  }

  /** The listed keys are exactly the keys present. */
  lemma KeysAreHasKey<V>(d: Dict<V>)
    ensures forall k :: k in Keys(d) <==> HasKey(d, k)
  {
    forall k ensures k in Keys(d) <==> HasKey(d, k) {
      if k in Keys(d) {
        var i :| 0 <= i < |d| && Keys(d)[i] == k;
      }
    }
  }

  /** Position of key `k`, which must be present. */
  function IndexOfKey<V>(d: Dict<V>, k: string): (i: nat)
    requires HasKey(d, k)
    ensures i < |d| && d[i].0 == k
    ensures forall j :: 0 <= j < i ==> d[j].0 != k
  {
    if d[0].0 == k then 0
    else
      assert HasKey(d[1..], k) by {
        var j :| 0 <= j < |d| && d[j].0 == k;
        assert d[1..][j - 1].0 == k;
      }
      1 + IndexOfKey(d[1..], k)
  }

  /** `d[k]`, for a present key. */
  function Get<V>(d: Dict<V>, k: string): V
    requires HasKey(d, k)
  {
    d[IndexOfKey(d, k)].1
  }

  /** `d[k] = v`. */
  function Put<V>(d: Dict<V>, k: string, v: V): (r: Dict<V>)
    requires DistinctKeys(d)
    ensures DistinctKeys(r)
    ensures HasKey(r, k) && Get(r, k) == v
    ensures HasKey(d, k) ==> Keys(r) == Keys(d)
    ensures !HasKey(d, k) ==> Keys(r) == Keys(d) + [k]
    ensures forall i :: 0 <= i < |d| && d[i].0 != k ==> r[i] == d[i]
  {
    if HasKey(d, k) then
      var i := IndexOfKey(d, k);
      var r := d[i := (k, v)];
      assert Keys(r) == Keys(d);
      assert IndexOfKey(r, k) == i;
      r
    else
      var r := d + [(k, v)];
      assert r[|d|].0 == k;
      assert Keys(r) == Keys(d) + [k];
      assert IndexOfKey(r, k) == |d|;
      r
  }

  /** Assigning a key removes no key. */
  lemma PutKeepsKeys<V>(d: Dict<V>, k: string, v: V)
    requires DistinctKeys(d)
    ensures forall k2 :: HasKey(d, k2) ==> HasKey(Put(d, k, v), k2)
  {
    var r := Put(d, k, v);
    forall k2 | HasKey(d, k2) ensures HasKey(r, k2) {
      var i :| 0 <= i < |d| && d[i].0 == k2;
      assert Keys(r)[i] == k2;
    }
  }

  /** Assigning a key adds no key but that one. */
  lemma PutAddsOnly<V>(d: Dict<V>, k: string, v: V)
    requires DistinctKeys(d)
    ensures forall j :: HasKey(Put(d, k, v), j) ==> HasKey(d, j) || j == k
  {
    var r := Put(d, k, v);
    forall j | HasKey(r, j) && j != k ensures HasKey(d, j) {
      var i :| 0 <= i < |r| && r[i].0 == j;
      assert Keys(r)[i] == j;
      assert i < |d|;
      assert Keys(d)[i] == j;
    }
  }

  /** Assigning one key leaves the presence and value of every other key
      alone. */
  lemma PutKeepsOthers<V>(d: Dict<V>, k: string, v: V, k2: string)
    requires DistinctKeys(d) && k2 != k
    ensures HasKey(Put(d, k, v), k2) <==> HasKey(d, k2)
    ensures HasKey(d, k2) ==> Get(Put(d, k, v), k2) == Get(d, k2)
  {
    var r := Put(d, k, v);
    assert Keys(r) == Keys(d) || Keys(r) == Keys(d) + [k];
    if HasKey(r, k2) {
      var j := IndexOfKey(r, k2);
      assert Keys(r)[j] == k2;
      assert j < |d| && d[j].0 == k2;
    }
    if HasKey(d, k2) {
      var i := IndexOfKey(d, k2);
      assert r[i] == d[i];
      var j := IndexOfKey(r, k2);
      assert Keys(r)[j] == k2;
      assert j < |d| && d[j].0 == k2;
      assert j == i;
    }
  }
}
