/** Key and value extraction from a map (maps.go). Go visits the entries of a
    map in an unspecified order; the loops below pick the next key with `:|`,
    so every property is proved for whatever order the choices produce. */
module Maps {
  import opened Arrays

  /** Some element of a non-empty set. */
  ghost function AnyOf<K>(keys: set<K>): (k: K)
    requires keys != {}
    ensures k in keys
  {
    var k :| k in keys; k
  }

  /** The values `m` stores under `keys`, counted once per key. */
  ghost function ValuesOn<K, V>(m: map<K, V>, keys: set<K>): (r: multiset<V>)
    requires keys <= m.Keys
    ensures |r| == |keys|
    decreases keys
  {
    if keys == {} then multiset{}
    else
      var k := AnyOf(keys);
      ValuesOn(m, keys - {k}) + multiset{m[k]}
  }

  /** The values stored in `m`, counted once per key. */
  ghost function ValuesOf<K, V>(m: map<K, V>): multiset<V>
  {
    ValuesOn(m, m.Keys)
  }

  /** Removing two elements from a set in either order gives the same set. */
  lemma RemoveBoth<K>(keys: set<K>, j: K, k: K)
    ensures keys - {k} - {j} == keys - {j} - {k}
  {}

  /** The last two terms of a multiset sum may be swapped. */
  lemma SwapLast<V>(a: multiset<V>, b: multiset<V>, c: multiset<V>)
    ensures a + b + c == a + c + b
  {}

  /** Removing any key removes exactly that key's value, whichever key the
      definition happened to pick first. */
  lemma {:induction false} ValuesOnRemove<K, V>(m: map<K, V>, keys: set<K>, k: K)
    requires keys <= m.Keys && k in keys
    ensures ValuesOn(m, keys) == ValuesOn(m, keys - {k}) + multiset{m[k]}
    decreases keys
  {
    var j := AnyOf(keys);
    if j != k {
      ValuesOnRemove(m, keys - {j}, k);
      ValuesOnRemove(m, keys - {k}, j);
      RemoveBoth(keys, j, k);
      SwapLast(ValuesOn(m, keys - {j} - {k}), multiset{m[k]}, multiset{m[j]});
    }
  }

  /** A value is among the values on `keys` exactly when one of those keys maps to it. */
  lemma {:induction false} ValuesOnMembers<K, V>(m: map<K, V>, keys: set<K>, v: V)
    requires keys <= m.Keys
    ensures v in ValuesOn(m, keys) <==> exists k :: k in keys && m[k] == v
    decreases keys
  {
    if keys != {} {
      var k := AnyOf(keys);
      ValuesOnMembers(m, keys - {k}, v);
      if exists k' :: k' in keys && m[k'] == v {
        var k' :| k' in keys && m[k'] == v;
        if k' != k {
          assert k' in keys - {k};
        }
      }
    }
  }

  /** A value is among ValuesOf(m) exactly when some key maps to it, and
      there are as many values as keys. */
  lemma ValuesOfMembers<K, V>(m: map<K, V>, v: V)
    ensures v in ValuesOf(m) <==> exists k :: k in m && m[k] == v
    ensures |ValuesOf(m)| == |m|
  {
    ValuesOnMembers(m, m.Keys, v);
  }

  /** Every key of the map, each exactly once, in some order. */
  method MapKeys<K(==), V>(obj: map<K, V>) returns (result: seq<K>)
    ensures NoDuplicates(result)
    ensures forall i :: 0 <= i < |result| ==> result[i] in obj
    ensures forall k :: k in obj ==> k in result
    ensures |result| == |obj|
  {
    result := [];
    var remaining := obj.Keys;
    while remaining != {}
      invariant remaining <= obj.Keys
      invariant forall i :: 0 <= i < |result| ==> result[i] in obj && result[i] !in remaining
      invariant forall k :: k in obj ==> k in result || k in remaining
      invariant NoDuplicates(result)
      invariant |result| + |remaining| == |obj|
      decreases remaining
    {
      var key :| key in remaining;
      result := result + [key];
      remaining := remaining - {key};
    }
  }

  /** Every value of the map, once per key, in some order. */
  method MapValues<K(==), V>(obj: map<K, V>) returns (result: seq<V>)
    ensures multiset(result) == ValuesOf(obj)
    ensures |result| == |obj|
  {
    result := [];
    var remaining := obj.Keys;
    while remaining != {}
      invariant remaining <= obj.Keys
      invariant multiset(result) + ValuesOn(obj, remaining) == ValuesOf(obj)
      decreases remaining
    {
      var key :| key in remaining;
      ValuesOnRemove(obj, remaining, key);
      result := result + [obj[key]];
      remaining := remaining - {key};
    }
  }
}
