/**
  Python dictionaries with string keys, as insertion-ordered sequences of pairs: assigning to a
  present key keeps its position, a new key goes to the end, iteration follows that order.
 */
module Dicts {
  import opened Maybe

  type Dict<V> = seq<(string, V)>

  function Keys<V>(d: Dict<V>): (ks: seq<string>)
    ensures |ks| == |d|
    ensures forall i :: 0 <= i < |d| ==> ks[i] == d[i].0
  {
    if |d| == 0 then [] else Keys(d[..|d| - 1]) + [d[|d| - 1].0]
  }

  predicate KeysDistinct<V>(d: Dict<V>) {
    forall i, j :: 0 <= i < j < |d| ==> d[i].0 != d[j].0
  }

  /** `d.get(k)`: the value stored under `k`, if any. */
  function Get<V>(d: Dict<V>, k: string): (r: Option<V>)
    ensures r.None? <==> forall i :: 0 <= i < |d| ==> d[i].0 != k
    ensures KeysDistinct(d) ==> forall i :: 0 <= i < |d| && d[i].0 == k ==> r == Some(d[i].1)
  {
    if |d| == 0 then None
    else if d[|d| - 1].0 == k then Some(d[|d| - 1].1)
    else
      var r := Get(d[..|d| - 1], k);
      assert forall i :: 0 <= i < |d| - 1 ==> d[i] == d[..|d| - 1][i];
      r
  }

  /** `d[k] = v`: a present key is overwritten in place, a new one is appended. */
  function Put<V>(d: Dict<V>, k: string, v: V): (r: Dict<V>)
    ensures k in Keys(d) ==> Keys(r) == Keys(d)
    ensures k !in Keys(d) ==> r == d + [(k, v)]
  {
    if k in Keys(d) then seq(|d|, (i: int) requires 0 <= i < |d| => if d[i].0 == k then (k, v) else d[i])
    else d + [(k, v)]
  }

  /** Assignment keeps keys distinct, stores the value, and leaves every other key alone. */
  lemma PutGet<V>(d: Dict<V>, k: string, v: V, k': string)
    requires KeysDistinct(d)
    ensures KeysDistinct(Put(d, k, v))
    ensures Get(Put(d, k, v), k') == if k' == k then Some(v) else Get(d, k')
  {
    var r := Put(d, k, v);
    if k in Keys(d) {
      var i :| 0 <= i < |d| && Keys(d)[i] == k;
      assert r[i] == (k, v);
      if k' != k && Get(d, k').Some? {
        var j :| 0 <= j < |d| && d[j].0 == k';
        assert r[j] == d[j];
      }
    } else {
      assert r[|d|] == (k, v);
      if Get(d, k').Some? {
        var j :| 0 <= j < |d| && d[j].0 == k';
        assert r[j] == d[j];
      }
    }
  }
}
