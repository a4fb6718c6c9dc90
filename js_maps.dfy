/** JavaScript's built-in `Map` with numeric keys, as the record store uses it:
    a dictionary that remembers the order in which keys were first inserted.
    `set` on a key already present replaces its value and keeps its position;
    `values()` enumerates the values in key-insertion order. */
module JsMaps {
  import opened Wrappers

  datatype OrderedMap<V> = OrderedMap(keys: seq<int>, entries: map<int, V>)

  /** The keys are listed once each, and exactly the keys that have an entry. */
  ghost predicate WellFormed<V>(m: OrderedMap<V>) {
    && (forall i, j :: 0 <= i < j < |m.keys| ==> m.keys[i] != m.keys[j])
    && (forall i :: 0 <= i < |m.keys| ==> m.keys[i] in m.entries)
    && (forall k :: k in m.entries ==> k in m.keys)
  }

  /** `new Map()` */
  function Empty<V>(): (m: OrderedMap<V>)
    ensures WellFormed(m)
    ensures m.keys == [] && forall k :: Get(m, k) == None
  {
    OrderedMap([], map[])
  }

  /** `m.get(k)`, with `undefined` as `None` */
  function Get<V>(m: OrderedMap<V>, k: int): Option<V> {
    if k in m.entries then Some(m.entries[k]) else None
  }

  /** `m.set(k, v)` */
  function Set<V>(m: OrderedMap<V>, k: int, v: V): (r: OrderedMap<V>)
    requires WellFormed(m)
    ensures WellFormed(r)
    ensures Get(r, k) == Some(v)
    ensures forall k' :: k' != k ==> Get(r, k') == Get(m, k')
    // an existing key keeps its place; a new key goes last
    ensures Get(m, k).Some? ==> r.keys == m.keys
    ensures Get(m, k).None? ==> r.keys == m.keys + [k]
  {
    if k in m.entries then
      OrderedMap(m.keys, m.entries[k := v])
    else
      OrderedMap(m.keys + [k], m.entries[k := v])
  }

  /** `Array.from(m.values())`: the values in key-insertion order. */
  function Values<V>(m: OrderedMap<V>): (vs: seq<V>)
    requires forall i :: 0 <= i < |m.keys| ==> m.keys[i] in m.entries
    ensures |vs| == |m.keys|
    ensures forall i :: 0 <= i < |vs| ==> vs[i] == m.entries[m.keys[i]]
    decreases |m.keys|
  {
    if m.keys == [] then []
    else [m.entries[m.keys[0]]] + Values(m.(keys := m.keys[1..]))
  }

  /** Setting an existing key replaces its value where it stands in `values()`. */
  lemma ValuesAfterSetExisting<V>(m: OrderedMap<V>, k: int, v: V, i: nat)
    requires WellFormed(m) && i < |m.keys| && m.keys[i] == k
    ensures Values(Set(m, k, v)) == Values(m)[i := v]
  {
    var r := Set(m, k, v);
    forall j | 0 <= j < |m.keys|
      ensures Values(r)[j] == Values(m)[i := v][j]
    {
      if j != i {
        assert m.keys[j] != k;
        assert Get(r, m.keys[j]) == Get(m, m.keys[j]);
      }
    }
  }

  /** Setting a new key appends its value to `values()`. */
  lemma ValuesAfterSetNew<V>(m: OrderedMap<V>, k: int, v: V)
    requires WellFormed(m) && k !in m.entries
    ensures Values(Set(m, k, v)) == Values(m) + [v]
  {
    var r := Set(m, k, v);
    assert r.keys == m.keys + [k];
    var before, after := Values(m), Values(r);
    assert |after| == |before| + 1;
    forall j | 0 <= j < |after|
      ensures after[j] == (before + [v])[j]
    {
      if j < |m.keys| {
        assert r.keys[j] == m.keys[j] != k;
        assert Get(r, m.keys[j]) == Get(m, m.keys[j]);
      }
    }
  }
}
