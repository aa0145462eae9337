/**
  Python dicts whose order is observable (the `stocks` object of the news file and the
  co-mention counts): the keys in insertion order, and the value of each key.
*/
module Dicts {
  import opened Wrappers

  datatype Dict<V> = Dict(keys: seq<string>, values: map<string, V>)

  /** No key twice, and exactly the listed keys have a value. */
  predicate Valid<V>(d: Dict<V>) {
    && (forall i, j :: 0 <= i < j < |d.keys| ==> d.keys[i] != d.keys[j])
    && (forall k :: k in d.values ==> k in d.keys)
    && (forall i :: 0 <= i < |d.keys| ==> d.keys[i] in d.values)
  }

  const Empty: Dict<int> := Dict([], map[])

  /** `d.get(k)`. */
  function Get<V>(d: Dict<V>, k: string): Option<V> {
    if k in d.values then Some(d.values[k]) else None
  }

  /**
    `d[k] = v`: an existing key keeps its place in the order and takes the new value;
    a new key goes to the end.
  */
  function Put<V>(d: Dict<V>, k: string, v: V): (r: Dict<V>)
    ensures Valid(d) ==> Valid(r)
    ensures Get(r, k) == Some(v)
    ensures forall k' :: k' != k ==> Get(r, k') == Get(d, k')
    ensures Valid(d) ==> r.keys == if k in d.keys then d.keys else d.keys + [k]
  {
    Dict(if k in d.values then d.keys else d.keys + [k], d.values[k := v])
  }

  /** `d.items()`, in the dict's order. */
  function Items<V>(d: Dict<V>): (r: seq<(string, V)>)
    requires Valid(d)
    ensures |r| == |d.keys|
    ensures forall i :: 0 <= i < |r| ==> r[i].0 == d.keys[i] && Get(d, r[i].0) == Some(r[i].1)
    ensures forall i, j :: 0 <= i < j < |r| ==> r[i].0 != r[j].0
  {
    seq(|d.keys|, i requires 0 <= i < |d.keys| => (d.keys[i], d.values[d.keys[i]]))
  }

  /** The items are exactly the bindings. */
  lemma ItemsBindings<V>(d: Dict<V>, k: string, v: V)
    requires Valid(d)
    ensures (k, v) in Items(d) <==> Get(d, k) == Some(v)
  {
    if Get(d, k) == Some(v) {
      var i :| 0 <= i < |d.keys| && d.keys[i] == k;
      assert Items(d)[i] == (k, v);
    }
  }
}
