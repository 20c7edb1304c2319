/**
 The map-reduce engine: mappers emit key-value pairs, the engine groups the values by key in the
 order of emission, and a reducer turns each group into results.  A mapper or reducer is given to
 `Execute` as the list of what it emits.
 */
module MapReduce {
  import opened Flattening

  // The values emitted for one key, in order.
  function PickKey<K(==), V>(k: K): ((K, V)) -> seq<V> {
    (e: (K, V)) => if e.0 == k then [e.1] else []
  }

  function ValuesOf<K(==), V>(emitted: seq<(K, V)>, k: K): seq<V> {
    Flat(emitted, PickKey(k))
  }

  ghost predicate Grouping<K(!new), V>(m: map<K, seq<V>>, emitted: seq<(K, V)>) {
    && (forall k :: k in m <==> Emits(emitted, k))
    && (forall k | k in m :: m[k] == ValuesOf(emitted, k))
  }

  ghost predicate Emits<K, V>(emitted: seq<(K, V)>, k: K) {
    exists i :: 0 <= i < |emitted| && emitted[i].0 == k
  }

  // What the reducer emits for the groups, in the order in which the dictionary lists its keys.
  function Group<K(==), V, R>(emitted: seq<(K, V)>, reducer: (K, seq<V>) -> seq<R>): K -> seq<R> {
    k => reducer(k, ValuesOf(emitted, k))
  }

  ghost predicate ListsKeys<K(!new), V>(keys: seq<K>, emitted: seq<(K, V)>) {
    NoRepeats(keys) && forall k :: k in keys <==> Emits(emitted, k)
  }

  // One more pair goes to the end of its group, which is created if there is none.
  lemma GroupOneMore<K(!new), V>(m: map<K, seq<V>>, emitted: seq<(K, V)>, key: K, value: V)
    requires Grouping(m, emitted)
    ensures Grouping(m[key := (if key in m then m[key] else []) + [value]], emitted + [(key, value)])
  {
    var m' := m[key := (if key in m then m[key] else []) + [value]];
    var emitted' := emitted + [(key, value)];
    forall k
      ensures k in m' <==> Emits(emitted', k)
    {
      if k == key {
        assert emitted'[|emitted|].0 == k;
      } else if k in m {
        assert Emits(emitted, k);
        var i :| 0 <= i < |emitted| && emitted[i].0 == k;
        assert emitted'[i].0 == k;
      }
    }
    forall k | k in m'
      ensures m'[k] == ValuesOf(emitted', k)
    {
      FlatSnoc(emitted, (key, value), PickKey<K, V>(k));
      if k !in m {
        FlatNothing(emitted, PickKey<K, V>(k));
      }
    }
  }

  class Engine<K(!new, ==), V(!new), R(!new)> {
    var intermediate: map<K, seq<V>>
    var result: seq<R>
    // everything emitted to the dictionary so far
    ghost var emitted: seq<(K, V)>

    ghost predicate Valid()
      reads this
    {
      Grouping(intermediate, emitted)
    }

    constructor ()
      ensures Valid() && emitted == [] && result == []
    {
      intermediate, result, emitted := map[], [], [];
    }

    method EmitIntermediate(key: K, value: V)
      requires Valid()
      modifies this
      ensures Valid() && emitted == old(emitted) + [(key, value)] && result == old(result)
      ensures intermediate ==
                old(intermediate)[key := (if key in old(intermediate) then old(intermediate)[key] else []) + [value]]
    {
      hide Flat, ValuesOf, Grouping;
      if key !in intermediate {
        intermediate := intermediate[key := []];
      }
      intermediate := intermediate[key := intermediate[key] + [value]];
      assert intermediate ==
             old(intermediate)[key := (if key in old(intermediate) then old(intermediate)[key] else []) + [value]];
      emitted := emitted + [(key, value)];
      GroupOneMore(old(intermediate), old(emitted), key, value);
    }

    method Emit(value: R)
      requires Valid()
      modifies this
      ensures Valid() && emitted == old(emitted) && intermediate == old(intermediate)
      ensures result == old(result) + [value]
    {
      result := result + [value];
    }

    method Execute<D>(data: seq<D>, mapper: D -> seq<(K, V)>, reducer: (K, seq<V>) -> seq<R>)
        returns (ghost keys: seq<K>)
      requires Valid()
      modifies this
      ensures Valid() && emitted == old(emitted) + Flat(data, mapper)
      ensures ListsKeys(keys, emitted)
      ensures result == old(result) + Flat(keys, Group(emitted, reducer))
    {
      MapAll(data, mapper);
      keys := ReduceAll(reducer);
    }

    // The first loop of execute: every record goes through the mapper.
    method MapAll<D>(data: seq<D>, mapper: D -> seq<(K, V)>)
      requires Valid()
      modifies this
      ensures Valid() && emitted == old(emitted) + Flat(data, mapper) && result == old(result)
    {
      for i := 0 to |data|
        invariant Valid() && result == old(result)
        invariant emitted == old(emitted) + Flat(data[..i], mapper)
      {
        var pairs := mapper(data[i]);
        assert data[..i + 1] == data[..i] + [data[i]];
        FlatSnoc(data[..i], data[i], mapper);
        ghost var before := emitted;
        for j := 0 to |pairs|
          invariant Valid() && result == old(result) && emitted == before + pairs[..j]
        {
          EmitIntermediate(pairs[j].0, pairs[j].1);
        }
        assert pairs[..|pairs|] == pairs;
      }
      assert data[..|data|] == data;
    }

    // The second loop: every group goes through the reducer, in an order that is not specified.
    method ReduceAll(reducer: (K, seq<V>) -> seq<R>) returns (ghost keys: seq<K>)
      requires Valid()
      modifies this
      ensures Valid() && emitted == old(emitted) && intermediate == old(intermediate)
      ensures ListsKeys(keys, emitted)
      ensures result == old(result) + Flat(keys, Group(emitted, reducer))
    {
      hide Flat;
      keys := [];
      assert Flat(keys, Group(emitted, reducer)) == [] by { FlatNothing(keys, Group(emitted, reducer)); }
      var left := intermediate.Keys;
      while left != {}
        invariant Valid() && emitted == old(emitted) && intermediate == old(intermediate)
        invariant left <= intermediate.Keys && NoRepeats(keys)
        invariant forall k :: k in keys <==> k in intermediate && k !in left
        invariant result == old(result) + Flat(keys, Group(emitted, reducer))
      {
        var key :| key in left;
        left := left - {key};
        var out := reducer(key, intermediate[key]);
        ghost var before := result;
        for j := 0 to |out|
          invariant Valid() && emitted == old(emitted) && intermediate == old(intermediate)
          invariant result == before + out[..j]
        {
          Emit(out[j]);
        }
        assert out[..|out|] == out == Group(emitted, reducer)(key);
        FlatSnoc(keys, key, Group(emitted, reducer));
        keys := keys + [key];
      }
    }
  }

  // ---------- the output does not depend on the order of the input ----------

  // What a run over `data` may leave in the result list.
  ghost predicate IsOutput<D, K(!new), V, R>(data: seq<D>, mapper: D -> seq<(K, V)>,
                                             reducer: (K, seq<V>) -> seq<R>, result: seq<R>) {
    exists keys ::
      ListsKeys(keys, Flat(data, mapper)) && result == Flat(keys, Group(Flat(data, mapper), reducer))
  }

  // A run on a fresh engine.
  lemma FreshOutput<D, K(!new), V, R>(data: seq<D>, mapper: D -> seq<(K, V)>, reducer: (K, seq<V>) -> seq<R>,
                                      keys: seq<K>, emitted: seq<(K, V)>, result: seq<R>)
    requires emitted == [] + Flat(data, mapper) && ListsKeys(keys, emitted)
    requires result == [] + Flat(keys, Group(emitted, reducer))
    ensures IsOutput(data, mapper, reducer, result)
  {
    hide Flat, ListsKeys, Group;
    assert emitted == Flat(data, mapper);
  }

  lemma {:induction false} KeysExist<K(!new), V>(emitted: seq<(K, V)>) returns (keys: seq<K>)
    ensures ListsKeys(keys, emitted)
  {
    keys := [];
    if emitted != [] {
      var front, last := emitted[..|emitted| - 1], emitted[|emitted| - 1];
      keys := KeysExist(front);
      ListOneMore(keys, front, last);
      assert emitted == front + [last];
      if last.0 !in keys {
        keys := keys + [last.0];
      }
    }
  }

  lemma ListOneMore<K(!new), V>(keys: seq<K>, emitted: seq<(K, V)>, x: (K, V))
    requires ListsKeys(keys, emitted)
    ensures ListsKeys(if x.0 in keys then keys else keys + [x.0], emitted + [x])
  {
    var all := emitted + [x];
    forall k
      ensures Emits(all, k) <==> Emits(emitted, k) || k == x.0
    {
      if Emits(emitted, k) {
        var i :| 0 <= i < |emitted| && emitted[i].0 == k;
        assert all[i].0 == k;
      }
      assert all[|emitted|].0 == x.0;
    }
  }

  // Every input has an output.
  lemma OutputExists<D, K(!new), V, R>(data: seq<D>, mapper: D -> seq<(K, V)>, reducer: (K, seq<V>) -> seq<R>)
    returns (result: seq<R>)
    ensures IsOutput(data, mapper, reducer, result)
  {
    hide Flat, ListsKeys;
    var keys := KeysExist(Flat(data, mapper));
    result := Flat(keys, Group(Flat(data, mapper), reducer));
  }

  // A reducer that looks only at which values a group has.
  ghost predicate IgnoresOrder<K(!new), V(!new), R>(reducer: (K, seq<V>) -> seq<R>) {
    forall k, v, w | multiset(v) == multiset(w) :: multiset(reducer(k, v)) == multiset(reducer(k, w))
  }

  lemma SameKeysSameLists<K(!new), V>(keys: seq<K>, keys': seq<K>, e: seq<(K, V)>, e': seq<(K, V)>)
    requires ListsKeys(keys, e) && ListsKeys(keys', e') && multiset(e) == multiset(e')
    ensures multiset(keys) == multiset(keys')
  {
    forall k
      ensures k in keys <==> k in keys'
    {
      if Emits(e, k) {
        var i :| 0 <= i < |e| && e[i].0 == k;
        assert e[i] in multiset(e');
        var j :| 0 <= j < |e'| && e'[j] == e[i];
        assert Emits(e', k);
      }
      if Emits(e', k) {
        var i :| 0 <= i < |e'| && e'[i].0 == k;
        assert e'[i] in multiset(e);
        var j :| 0 <= j < |e| && e[j] == e'[i];
        assert Emits(e, k);
      }
    }
    forall k
      ensures multiset(keys)[k] == multiset(keys')[k]
    {
      OnceEach(keys, k);
      OnceEach(keys', k);
    }
  }

  lemma SameGroups<K(!new), V(!new), R>(keys: seq<K>, e: seq<(K, V)>, e': seq<(K, V)>, reducer: (K, seq<V>) -> seq<R>)
    requires multiset(e) == multiset(e') && IgnoresOrder(reducer)
    ensures multiset(Flat(keys, Group(e, reducer))) == multiset(Flat(keys, Group(e', reducer)))
  {
    hide Flat;
    forall i | 0 <= i < |keys|
      ensures multiset(Group(e, reducer)(keys[i])) == multiset(Group(e', reducer)(keys[i]))
    {
      var k := keys[i];
      var v, w := ValuesOf(e, k), ValuesOf(e', k);
      FlatPermuted(e, e', PickKey<K, V>(k));
      assert multiset(v) == multiset(w);
      assert Group(e, reducer)(k) == reducer(k, v) && Group(e', reducer)(k) == reducer(k, w);
    }
    FlatSame(keys, Group(e, reducer), Group(e', reducer));
  }

  // Two runs over the same records, in any order of records and of dictionary keys, give the same
  // results as multisets.
  lemma OutputIgnoresOrder<D, K(!new), V(!new), R>(
      data: seq<D>, data': seq<D>, mapper: D -> seq<(K, V)>, reducer: (K, seq<V>) -> seq<R>,
      result: seq<R>, result': seq<R>)
    requires multiset(data) == multiset(data') && IgnoresOrder(reducer)
    requires IsOutput(data, mapper, reducer, result) && IsOutput(data', mapper, reducer, result')
    ensures multiset(result) == multiset(result')
  {
    hide Flat, IgnoresOrder, ListsKeys, Group;
    var e, e' := Flat(data, mapper), Flat(data', mapper);
    var keys :| ListsKeys(keys, e) && result == Flat(keys, Group(e, reducer));
    var keys' :| ListsKeys(keys', e') && result' == Flat(keys', Group(e', reducer));
    FlatPermuted(data, data', mapper);
    SameKeysSameLists(keys, keys', e, e');
    FlatPermuted(keys, keys', Group(e, reducer));
    SameGroups(keys', e, e', reducer);
  }
}
