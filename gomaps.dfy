/**
  Go's `for key, value := range m` over a map, as the bundler uses it to list
  a map's values: every key is visited once, in an order Go leaves
  unspecified, modelled here as whatever order the keys are drawn in.
 */
module GoMaps {

  /**
    The values of a map, one per key, in whatever order the keys are drawn,
    with the keys they were drawn from.
   */
  method Values<K, V>(m: map<K, V>) returns (values: seq<V>, ghost keys: seq<K>)
    ensures |values| == |m|
    ensures forall k :: k in m ==> m[k] in values
    ensures forall v :: v in values ==> exists k :: k in m && m[k] == v
    ensures |keys| == |m|
    ensures forall i :: 0 <= i < |keys| ==> keys[i] in m && values[i] == m[keys[i]]
    ensures forall k :: k in m ==> k in keys
    ensures forall i, j :: 0 <= i < j < |keys| ==> keys[i] != keys[j]
  {
    values, keys := [], [];
    var rest := m.Keys;
    ghost var done: set<K> := {};
    while rest != {}
      invariant rest !! done && rest + done == m.Keys
      invariant |values| == |keys| == |done|
      invariant forall i :: 0 <= i < |keys| ==> keys[i] in done && values[i] == m[keys[i]]
      invariant forall k :: k in done ==> k in keys
      invariant forall i, j :: 0 <= i < j < |keys| ==> keys[i] != keys[j]
      decreases |rest|
    {
      var k :| k in rest;
      values := values + [m[k]];
      keys := keys + [k];
      rest := rest - {k};
      done := done + {k};
    }
    DrawnValues(m, values, keys);
  }

  /** Values drawn key by key, over every key, are exactly the map's values. */
  lemma DrawnValues<K, V>(m: map<K, V>, values: seq<V>, keys: seq<K>)
    requires |values| == |keys|
    requires forall i :: 0 <= i < |keys| ==> keys[i] in m && values[i] == m[keys[i]]
    requires forall k :: k in m ==> k in keys
    ensures forall k :: k in m ==> m[k] in values
    ensures forall v :: v in values ==> exists k :: k in m && m[k] == v
  {
    forall k | k in m
      ensures m[k] in values
    {
      var i :| 0 <= i < |keys| && keys[i] == k;
      assert values[i] == m[k];
    }
    forall v | v in values
      ensures exists k :: k in m && m[k] == v
    {
      var i :| 0 <= i < |values| && values[i] == v;
      assert keys[i] in m;
    }
  }
}
