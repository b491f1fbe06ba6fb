/** Maps that remember the order in which their keys were first set, like the host language's maps. */
module OrderedMaps {
  import opened Sequences

  datatype OrderedMap<!K, V> = OrderedMap(keys: seq<K>, at: map<K, V>)

  ghost predicate Valid<K(!new), V>(m: OrderedMap<K, V>) {
    Distinct(m.keys) && forall k :: k in m.keys <==> k in m.at
  }

  function Empty<K, V>(): OrderedMap<K, V> {
    OrderedMap([], map[])
  }

  /** A key that is already present keeps its place. */
  function Put<K(==), V>(m: OrderedMap<K, V>, k: K, v: V): OrderedMap<K, V> {
    OrderedMap(if k in m.at then m.keys else m.keys + [k], m.at[k := v])
  }

  function Delete<K(==), V>(m: OrderedMap<K, V>, k: K): OrderedMap<K, V> {
    OrderedMap(Without(m.keys, k), m.at - {k})
  }

  /** The keys outside `gone`, in order. */
  function Outside<K(==)>(keys: seq<K>, gone: set<K>): seq<K> {
    if keys == [] then []
    else
      var last := keys[|keys| - 1];
      Outside(keys[..|keys| - 1], gone) + if last in gone then [] else [last]
  }

  function DeleteAll<K(==), V>(m: OrderedMap<K, V>, gone: set<K>): OrderedMap<K, V> {
    OrderedMap(Outside(m.keys, gone), m.at - gone)
  }

  lemma PutKeepsValid<K(!new), V>(m: OrderedMap<K, V>, k: K, v: V)
    requires Valid(m)
    ensures Valid(Put(m, k, v))
  {
    if k !in m.at {
      DistinctAppend(m.keys, k);
    }
  }

  lemma {:induction false} OutsideIsExact<K(!new)>(keys: seq<K>, gone: set<K>)
    requires Distinct(keys)
    ensures Distinct(Outside(keys, gone))
    ensures forall k :: k in Outside(keys, gone) <==> k in keys && k !in gone
  {
    if keys != [] {
      var init, last := keys[..|keys| - 1], keys[|keys| - 1];
      OutsideIsExact(init, gone);
      LastApart(keys);
      assert last !in init;
      if last !in gone {
        DistinctAppend(Outside(init, gone), last);
      }
    }
  }

  lemma DeleteAllKeepsValid<K(!new), V>(m: OrderedMap<K, V>, gone: set<K>)
    requires Valid(m)
    ensures Valid(DeleteAll(m, gone))
  {
    OutsideIsExact(m.keys, gone);
  }

  lemma {:induction false} WithoutAfterOutside<K(!new)>(keys: seq<K>, gone: set<K>, k: K)
    ensures Without(Outside(keys, gone), k) == Outside(keys, gone + {k})
  {
    if keys != [] {
      var init, last := keys[..|keys| - 1], keys[|keys| - 1];
      WithoutAfterOutside(init, gone, k);
      var kept := Outside(init, gone);
      if last in gone {
        assert Outside(keys, gone) == kept;
      } else {
        assert (kept + [last])[..|kept|] == kept;
      }
    }
  }

  /** Deleting one more key at a time deletes them all. */
  lemma DeleteOneMore<K(!new), V>(m: OrderedMap<K, V>, gone: set<K>, k: K)
    ensures Delete(DeleteAll(m, gone), k) == DeleteAll(m, gone + {k})
  {
    WithoutAfterOutside(m.keys, gone, k);
    assert (m.at - gone) - {k} == m.at - (gone + {k});
  }

  lemma {:induction false} OutsideNothing<K>(keys: seq<K>)
    ensures Outside(keys, {}) == keys
  {
    if keys != [] {
      OutsideNothing(keys[..|keys| - 1]);
      LastApart(keys);
    }
  }

  lemma DeleteNothing<K(!new), V>(m: OrderedMap<K, V>)
    ensures DeleteAll(m, {}) == m
  {
    OutsideNothing(m.keys);
    assert m.at - {} == m.at;
  }
}
