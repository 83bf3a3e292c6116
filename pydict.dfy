/**
 * Python's insertion-ordered `dict` as a sequence of (key, value) pairs.
 * Assigning to an existing key updates its value in place; assigning to a
 * new key appends it at the end, as CPython does.
 */
module PyDict {
  import opened Wrappers

  type Dict<K, V> = seq<(K, V)>

  function Keys<K, V>(d: Dict<K, V>): (r: seq<K>)
    ensures |r| == |d|
    ensures forall i :: 0 <= i < |d| ==> r[i] == d[i].0
  {
    seq(|d|, i requires 0 <= i < |d| => d[i].0)
  }

  ghost predicate DistinctKeys<K, V>(d: Dict<K, V>) {
    forall i, j :: 0 <= i < j < |d| ==> d[i].0 != d[j].0
  }

  /** Position of the binding of `k`. */
  function IndexOf<K(==), V>(d: Dict<K, V>, k: K): (i: nat)
    requires k in Keys(d)
    ensures i < |d| && d[i].0 == k
    ensures forall j :: 0 <= j < i ==> d[j].0 != k
  {
    if d[0].0 == k then 0
    else
      assert Keys(d) == [d[0].0] + Keys(d[1..]);
      1 + IndexOf(d[1..], k)
  }

  /** `d.get(k)`: the value bound to `k`, if any. */
  function Get<K(==), V>(d: Dict<K, V>, k: K): (r: Option<V>)
    ensures r.Some? <==> k in Keys(d)
    ensures r.Some? ==> exists i :: 0 <= i < |d| && d[i] == (k, r.value)
  {
    if k in Keys(d) then Some(d[IndexOf(d, k)].1) else None
  }

  /** `d[k] = v`. */
  function Put<K(==), V>(d: Dict<K, V>, k: K, v: V): (r: Dict<K, V>)
    ensures k in Keys(d) ==> |r| == |d| && Keys(r) == Keys(d)
    ensures k !in Keys(d) ==> r == d + [(k, v)]
  {
    if k in Keys(d) then d[IndexOf(d, k) := (k, v)] else d + [(k, v)]
  }

  lemma PutGet<K, V>(d: Dict<K, V>, k: K, v: V, k': K)
    ensures Get(Put(d, k, v), k') == if k' == k then Some(v) else Get(d, k')
  {
    var r := Put(d, k, v);
    if k in Keys(d) {
      var i := IndexOf(d, k);
      assert k' in Keys(r) <==> k' in Keys(d);
      if k' in Keys(d) {
        var j, j' := IndexOf(d, k'), IndexOf(r, k');
        assert j == j';
      }
    } else {
      assert Keys(r) == Keys(d) + [k];
      assert forall t :: 0 <= t < |d| ==> r[t] == d[t];
      if k' in Keys(d) {
        var j, j' := IndexOf(d, k'), IndexOf(r, k');
        assert j == j';
      } else if k' == k {
        assert r[|d|].0 == k;
        assert IndexOf(r, k) == |d|;
      }
    }
  }

  lemma PutDistinct<K, V>(d: Dict<K, V>, k: K, v: V)
    requires DistinctKeys(d)
    ensures DistinctKeys(Put(d, k, v))
  {
    if k !in Keys(d) {
      var r := Put(d, k, v);
      forall i, j | 0 <= i < j < |r| ensures r[i].0 != r[j].0 {
        if j == |d| { assert Keys(d)[i] == d[i].0; }
      }
    }
  }

  /** `d[k].append(x)` on a `defaultdict(list)`, whose keys are distinct. */
  function Append<K(==), X>(d: Dict<K, seq<X>>, k: K, x: X): (r: Dict<K, seq<X>>)
    requires DistinctKeys(d)
    ensures DistinctKeys(r)
    ensures Keys(r) == if k in Keys(d) then Keys(d) else Keys(d) + [k]
    ensures forall i :: 0 <= i < |d| ==> r[i] == (if d[i].0 == k then (k, d[i].1 + [x]) else d[i])
    ensures k !in Keys(d) ==> r[|d|] == (k, [x])
  {
    PutDistinct(d, k, Get(d, k).GetOr([]) + [x]);
    if k in Keys(d) then
      var i := IndexOf(d, k);
      assert forall j :: 0 <= j < |d| && d[j].0 == k ==> j == i;
      Put(d, k, d[i].1 + [x])
    else
      assert Keys(d + [(k, [x])]) == Keys(d) + [k];
      Put(d, k, [x])
  }
}
