/** The two map queries the read handlers are made of: a lookup that reports
    NotFound, and collecting a map's values in the map's own iteration order. */
module MapQueries {

  /** What a read handler answers, without the HTTP status codes. */
  datatype Response<T> = Ok(value: T) | NotFound

  /** `map.get(&key)` turned into Ok or NotFound. */
  function Get<K, V>(m: map<K, V>, key: K): (r: Response<V>)
    ensures r.Ok? <==> key in m
    ensures r.Ok? ==> r.value == m[key]
  {
    if key in m then Ok(m[key]) else NotFound
  }

  /** `map.clone().into_values().collect()`: the order of the keys is the
      map's and is not promised; `keys` records it. Each key is visited once. */
  method CollectValues<K, V(==)>(m: map<K, V>) returns (values: seq<V>, ghost keys: seq<K>)
    ensures |values| == |m|
    ensures forall v :: v in values <==> v in m.Values
    ensures |keys| == |m|
    ensures forall i :: 0 <= i < |keys| ==> keys[i] in m && values[i] == m[keys[i]]
    ensures forall k :: k in m ==> k in keys
    ensures forall i, j :: 0 <= i < j < |keys| ==> keys[i] != keys[j]
  {
    values, keys := [], [];
    var rest := m.Keys;
    while rest != {}
      invariant rest <= m.Keys
      invariant |values| == |keys| && |keys| + |rest| == |m|
      invariant forall i :: 0 <= i < |keys| ==> keys[i] in m && keys[i] !in rest && values[i] == m[keys[i]]
      invariant forall k :: k in m ==> k in keys || k in rest
      invariant forall i, j :: 0 <= i < j < |keys| ==> keys[i] != keys[j]
      decreases rest
    {
      var k :| k in rest;
      values, keys := values + [m[k]], keys + [k];
      rest := rest - {k};
    }
    forall v | v in m.Values ensures v in values {
      var k :| k in m && m[k] == v;
      var i :| 0 <= i < |keys| && keys[i] == k;
      assert values[i] == v;
    }
  }
}
