/** A Python `dict`: an insertion-ordered association list. Assigning to a key
    that is present keeps its position and replaces its value; a new key is
    appended. `dict(items)`, `dict(zip(ks, vs))` and a dict comprehension all
    insert their items left to right, so a later item for a key wins. */
module PyDict {
  import opened Wrappers

  type Dict<K, V> = seq<(K, V)>

  function Keys<K, V>(d: Dict<K, V>): (ks: seq<K>)
    ensures |ks| == |d|
  {
    seq(|d|, i requires 0 <= i < |d| => d[i].0)
  }

  /** Python's invariant: no key occurs twice. */
  predicate KeysUnique<K(==), V>(d: Dict<K, V>) {
    forall i, j :: 0 <= i < j < |d| ==> d[i].0 != d[j].0
  }

  /** `d.get(k)` */
  function Get<K(==), V>(d: Dict<K, V>, k: K): (r: Option<V>)
    ensures r.Some? <==> k in Keys(d)
    ensures r.Some? ==> (k, r.value) in d
    decreases |d|
  {
    if d == [] then None
    else
      assert Keys(d) == [d[0].0] + Keys(d[1..]);
      if d[0].0 == k then Some(d[0].1) else Get(d[1..], k)
  }

  /** A lookup in a dict with a first entry: that entry, or the rest. */
  lemma GetCons<K, V>(e: (K, V), t: Dict<K, V>)
    ensures forall k' :: Get([e] + t, k') == if e.0 == k' then Some(e.1) else Get(t, k')
    ensures Keys([e] + t) == [e.0] + Keys(t)
  {
    assert ([e] + t)[0] == e && ([e] + t)[1..] == t;
  }

  /** `d[k] = v` */
  function Put<K(==,!new), V>(d: Dict<K, V>, k: K, v: V): (r: Dict<K, V>)
    ensures Get(r, k) == Some(v)
    ensures forall k' :: k' != k ==> Get(r, k') == Get(d, k')
    ensures k in Keys(d) ==> Keys(r) == Keys(d)
    ensures k !in Keys(d) ==> Keys(r) == Keys(d) + [k]
    decreases |d|
  {
    if d == [] then [(k, v)]
    else
      assert d == [d[0]] + d[1..];
      GetCons(d[0], d[1..]);
      if d[0].0 == k then
        GetCons((k, v), d[1..]);
        [(k, v)] + d[1..]
      else
        var rest := Put(d[1..], k, v);
        GetCons(d[0], rest);
        [d[0]] + rest
  }

  /** Assignment keeps the dictionary free of repeated keys. */
  lemma PutKeepsUnique<K(!new), V>(d: Dict<K, V>, k: K, v: V)
    requires KeysUnique(d)
    ensures KeysUnique(Put(d, k, v))
  {
    var r := Put(d, k, v);
    forall i, j | 0 <= i < j < |r|
      ensures r[i].0 != r[j].0
    {
      assert r[i].0 == Keys(r)[i] && r[j].0 == Keys(r)[j];
      if j < |d| {
        assert Keys(r)[i] == Keys(d)[i] == d[i].0;
        assert Keys(r)[j] == Keys(d)[j] == d[j].0;
      } else {
        assert k !in Keys(d) && Keys(r)[j] == k;
        assert Keys(r)[i] == Keys(d)[i];
      }
    }
  }

  /** `dict(items)`: the items inserted left to right. */
  function FromItems<K(==,!new), V>(items: seq<(K, V)>): Dict<K, V>
    decreases |items|
  {
    if items == [] then []
    else
      var n := |items| - 1;
      Put(FromItems(items[..n]), items[n].0, items[n].1)
  }

  /** Reference definition: the value of the last item carrying key `k`. */
  function LastValue<K(==), V>(items: seq<(K, V)>, k: K): Option<V>
    decreases |items|
  {
    if items == [] then None
    else if items[|items| - 1].0 == k then Some(items[|items| - 1].1)
    else LastValue(items[..|items| - 1], k)
  }

  /** A later item for a key replaces an earlier one. */
  lemma {:induction false} FromItemsGet<K(!new), V>(items: seq<(K, V)>, k: K)
    ensures Get(FromItems(items), k) == LastValue(items, k)
    decreases |items|
  {
    if items != [] {
      FromItemsGet(items[..|items| - 1], k);
    }
  }

  /** The keys of `dict(items)` are distinct. */
  lemma {:induction false} FromItemsUnique<K(!new), V>(items: seq<(K, V)>)
    ensures KeysUnique(FromItems(items))
    decreases |items|
  {
    if items != [] {
      var n := |items| - 1;
      FromItemsUnique(items[..n]);
      PutKeepsUnique(FromItems(items[..n]), items[n].0, items[n].1);
    }
  }

  /** `LastValue` picks the item at the last index carrying the key. */
  predicate IsLastWithKey<K(==), V>(items: seq<(K, V)>, k: K, i: int) {
    0 <= i < |items| && items[i].0 == k
    && forall j :: i < j < |items| ==> items[j].0 != k
  }

  lemma {:induction false} LastValueAt<K, V>(items: seq<(K, V)>, k: K, i: int)
    requires IsLastWithKey(items, k, i)
    ensures LastValue(items, k) == Some(items[i].1)
    decreases |items|
  {
    var n := |items| - 1;
    if i < n {
      assert IsLastWithKey(items[..n], k, i);
      LastValueAt(items[..n], k, i);
    }
  }

  lemma {:induction false} LastValueNone<K, V>(items: seq<(K, V)>, k: K)
    ensures LastValue(items, k) == None <==> forall j :: 0 <= j < |items| ==> items[j].0 != k
    decreases |items|
  {
    if items != [] {
      var n := |items| - 1;
      LastValueNone(items[..n], k);
      assert forall j :: 0 <= j < n ==> items[..n][j] == items[j];
    }
  }

  /** `zip(ks, vs)`: pairs up to the shorter length. */
  function Zip<K, V>(ks: seq<K>, vs: seq<V>): (r: seq<(K, V)>)
    ensures |r| == if |ks| <= |vs| then |ks| else |vs|
    ensures forall i :: 0 <= i < |r| ==> r[i] == (ks[i], vs[i])
  {
    var n := if |ks| <= |vs| then |ks| else |vs|;
    seq(n, i requires 0 <= i < n => (ks[i], vs[i]))
  }

  /** `dict(zip(ks, vs))`: a repeated key keeps the value paired with its last
      occurrence, and a key occurs exactly when it is among the paired keys. */
  lemma DictZipGet<K(!new), V>(ks: seq<K>, vs: seq<V>, k: K, i: int)
    requires i < |vs| && 0 <= i < |ks| && ks[i] == k
    requires forall j :: i < j < |ks| && j < |vs| ==> ks[j] != k
    ensures Get(FromItems(Zip(ks, vs)), k) == Some(vs[i])
  {
    FromItemsGet(Zip(ks, vs), k);
    LastValueAt(Zip(ks, vs), k, i);
  }

  lemma DictZipMissing<K(!new), V>(ks: seq<K>, vs: seq<V>, k: K)
    ensures Get(FromItems(Zip(ks, vs)), k) == None
        <==> forall j :: 0 <= j < |ks| && j < |vs| ==> ks[j] != k
  {
    FromItemsGet(Zip(ks, vs), k);
    LastValueNone(Zip(ks, vs), k);
  }
}
