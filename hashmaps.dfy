/** Iteration over a `java.util.HashMap`: every entry exactly once, in an
    order that depends on hashing. The model leaves that order open. */
module HashMaps {
  /** `xs` lists the values of `m` in the order of `keys`, some order of all
      of `m`'s keys: one admissible `HashMap.values()` iteration. */
  ghost predicate EnumeratesBy<E>(m: map<string, E>, keys: seq<string>, xs: seq<E>) {
    |keys| == |xs| == |m|
    && (forall i, j :: 0 <= i < j < |keys| ==> keys[i] != keys[j])
    && (forall i :: 0 <= i < |keys| ==> keys[i] in m && xs[i] == m[keys[i]])
  }

  ghost predicate Enumerates<E>(m: map<string, E>, xs: seq<E>) {
    exists keys :: EnumeratesBy(m, keys, xs)
  }

  /** `entrySet().iterator()` (or `values()`), run to the end: the keys and
      the values of `m`, paired up, in an order the model leaves open. */
  method EnumerateMap<E>(m: map<string, E>) returns (keys: seq<string>, xs: seq<E>)
    ensures EnumeratesBy(m, keys, xs)
  {
    keys := [];
    xs := [];
    var rest := m.Keys;
    ghost var seen: set<string> := {};
    while rest != {}
      invariant rest !! seen && rest + seen == m.Keys
      invariant |keys| == |xs| == |seen|
      invariant forall i :: 0 <= i < |keys| ==> keys[i] in seen
      invariant forall i, j :: 0 <= i < j < |keys| ==> keys[i] != keys[j]
      invariant forall i :: 0 <= i < |keys| ==> keys[i] in m && xs[i] == m[keys[i]]
      decreases |rest|
    {
      var k :| k in rest;
      keys := keys + [k];
      xs := xs + [m[k]];
      rest := rest - {k};
      seen := seen + {k};
    }
    assert seen == m.Keys;
  }

  lemma DistinctKeysCount(keys: seq<string>, all: set<string>)
    requires (set k | k in keys) == all
    requires forall i, j :: 0 <= i < j < |keys| ==> keys[i] != keys[j]
    ensures |keys| == |all|
  {
    if keys != [] {
      var rest := keys[1..];
      assert keys == [keys[0]] + rest;
      assert keys[0] !in rest by {
        forall j | 0 <= j < |rest| ensures rest[j] != keys[0] {
          assert rest[j] == keys[j + 1];
        }
      }
      assert (set k | k in rest) == all - {keys[0]};
      DistinctKeysCount(rest, all - {keys[0]});
    }
  }

  /** Distinct keys, one per entry of the map, cover all of its keys. */
  lemma DistinctKeysCover<E>(m: map<string, E>, keys: seq<string>)
    requires |keys| == |m|
    requires forall i, j :: 0 <= i < j < |keys| ==> keys[i] != keys[j]
    requires forall i :: 0 <= i < |keys| ==> keys[i] in m
    ensures (set k | k in keys) == m.Keys
  {
    var ks := set k | k in keys;
    assert ks <= m.Keys;
    DistinctKeysCount(keys, ks);
    assert m.Keys == ks + (m.Keys - ks);
    assert |m.Keys - ks| == 0;
  }

}
