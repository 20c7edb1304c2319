/** Concatenating the lists that a function makes of the elements of a list. */
module Flattening {

  function Flat<A, B>(x: seq<A>, f: A -> seq<B>): seq<B> {
    if x == [] then [] else Flat(x[..|x| - 1], f) + f(x[|x| - 1])
  }

  lemma FlatSnoc<A, B>(x: seq<A>, a: A, f: A -> seq<B>)
    ensures Flat(x + [a], f) == Flat(x, f) + f(a)
  {
    assert (x + [a])[..|x + [a]| - 1] == x;
  }

  lemma {:induction false} FlatNothing<A, B>(x: seq<A>, f: A -> seq<B>)
    requires forall k | 0 <= k < |x| :: f(x[k]) == []
    ensures Flat(x, f) == []
  {
    if x != [] {
      FlatNothing(x[..|x| - 1], f);
    }
  }

  lemma {:induction false} FlatConcat<A, B>(x: seq<A>, y: seq<A>, f: A -> seq<B>)
    ensures Flat(x + y, f) == Flat(x, f) + Flat(y, f)
  {
    hide Flat;
    if y == [] {
      assert x + y == x;
      FlatNothing(y, f);
    } else {
      var y0, b := y[..|y| - 1], y[|y| - 1];
      assert x + y == (x + y0) + [b] && y == y0 + [b];
      FlatConcat(x, y0, f);
      FlatSnoc(x + y0, b, f);
      FlatSnoc(y0, b, f);
    }
  }

  lemma {:induction false} FlatMember<A, B>(x: seq<A>, f: A -> seq<B>, b: B)
    ensures b in Flat(x, f) <==> exists k :: 0 <= k < |x| && b in f(x[k])
  {
    if x != [] {
      var x0 := x[..|x| - 1];
      FlatMember(x0, f, b);
      if b in Flat(x0, f) {
        var k :| 0 <= k < |x0| && b in f(x0[k]);
        assert b in f(x[k]);
      }
    }
  }

  function Then<A, B, C>(f: A -> seq<B>, g: B -> seq<C>): A -> seq<C> {
    a => Flat(f(a), g)
  }

  lemma {:induction false} FlatFlat<A, B, C>(x: seq<A>, f: A -> seq<B>, g: B -> seq<C>)
    ensures Flat(Flat(x, f), g) == Flat(x, Then(f, g))
  {
    if x != [] {
      var x0 := x[..|x| - 1];
      FlatFlat(x0, f, g);
      FlatConcat(Flat(x0, f), f(x[|x| - 1]), g);
    }
  }

  // Two functions that give the same elements, in whatever order, on every element of the list.
  lemma {:induction false} FlatSame<A, B>(x: seq<A>, f: A -> seq<B>, g: A -> seq<B>)
    requires forall k | 0 <= k < |x| :: multiset(f(x[k])) == multiset(g(x[k]))
    ensures multiset(Flat(x, f)) == multiset(Flat(x, g))
  {
    if x != [] {
      FlatSame(x[..|x| - 1], f, g);
    }
  }

  lemma {:induction false} FlatEqual<A, B>(x: seq<A>, f: A -> seq<B>, g: A -> seq<B>)
    requires forall k | 0 <= k < |x| :: f(x[k]) == g(x[k])
    ensures Flat(x, f) == Flat(x, g)
  {
    if x != [] {
      FlatEqual(x[..|x| - 1], f, g);
    }
  }

  lemma TakeOut<A>(x0: seq<A>, a: A, y: seq<A>) returns (l: seq<A>, r: seq<A>)
    requires multiset(x0 + [a]) == multiset(y)
    ensures y == l + [a] + r && multiset(l + r) == multiset(x0)
  {
    assert a in multiset(y);
    var p :| 0 <= p < |y| && y[p] == a;
    l, r := y[..p], y[p + 1..];
    assert y == l + [a] + r;
    assert multiset(l + r) == multiset(y) - multiset{a};
  }

  lemma {:induction false} FlatPairwise<A, B, C>(x: seq<A>, f: A -> seq<C>, y: seq<B>, g: B -> seq<C>)
    requires |x| == |y| && forall k | 0 <= k < |x| :: f(x[k]) == g(y[k])
    ensures Flat(x, f) == Flat(y, g)
  {
    if x != [] {
      FlatPairwise(x[..|x| - 1], f, y[..|y| - 1], g);
    }
  }

  // The order of the list does not matter for what is in the result.
  lemma {:induction false} FlatPermuted<A, B>(x: seq<A>, y: seq<A>, f: A -> seq<B>)
    requires multiset(x) == multiset(y)
    ensures multiset(Flat(x, f)) == multiset(Flat(y, f))
  {
    hide Flat;
    assert |x| == |multiset(x)| == |multiset(y)| == |y|;
    if x == [] {
      assert x == y;
    } else {
      var x0, a := x[..|x| - 1], x[|x| - 1];
      assert x == x0 + [a];
      var l, r := TakeOut(x0, a, y);
      FlatPermuted(x0, l + r, f);
      FlatSnoc(x0, a, f);
      FlatConcat(l, r, f);
      FlatConcat(l + [a], r, f);
      FlatSnoc(l, a, f);
    }
  }

  lemma {:induction false} FlatSum<A, B>(x: seq<A>, f: A -> seq<B>, g: A -> seq<B>, h: A -> seq<B>)
    requires forall k | 0 <= k < |x| :: multiset(h(x[k])) == multiset(f(x[k])) + multiset(g(x[k]))
    ensures multiset(Flat(x, h)) == multiset(Flat(x, f)) + multiset(Flat(x, g))
  {
    if x != [] {
      FlatSum(x[..|x| - 1], f, g, h);
    }
  }

  // Replacing one element.
  lemma FlatUpdate<A, B>(x: seq<A>, i: nat, a: A, f: A -> seq<B>)
    requires i < |x|
    ensures multiset(Flat(x[i := a], f)) + multiset(f(x[i])) == multiset(Flat(x, f)) + multiset(f(a))
  {
    hide Flat;
    var l, r := x[..i], x[i + 1..];
    assert x == l + [x[i]] + r && x[i := a] == l + [a] + r;
    FlatConcat(l + [x[i]], r, f);
    FlatConcat(l + [a], r, f);
    FlatSnoc(l, x[i], f);
    FlatSnoc(l, a, f);
  }

  lemma FlatUpdateCount<A, B>(x: seq<A>, i: nat, a: A, f: A -> seq<B>, b: B)
    requires i < |x|
    ensures multiset(Flat(x[i := a], f))[b] + multiset(f(x[i]))[b] == multiset(Flat(x, f))[b] + multiset(f(a))[b]
  {
    hide Flat;
    FlatUpdate(x, i, a, f);
    assert (multiset(Flat(x[i := a], f)) + multiset(f(x[i])))[b] == (multiset(Flat(x, f)) + multiset(f(a)))[b];
  }

  lemma FlatSnocCount<A, B>(x: seq<A>, a: A, f: A -> seq<B>, b: B)
    ensures multiset(Flat(x + [a], f))[b] == multiset(Flat(x, f))[b] + multiset(f(a))[b]
  {
    hide Flat;
    FlatSnoc(x, a, f);
  }

  ghost predicate NoRepeats<A>(x: seq<A>) {
    forall i, j | 0 <= i < j < |x| :: x[i] != x[j]
  }

  // A function that gives something for one element only.
  lemma FlatOnly<A, B>(x: seq<A>, a: A, f: A -> seq<B>)
    requires NoRepeats(x) && a in x
    requires forall b | b in x && b != a :: f(b) == []
    ensures Flat(x, f) == f(a)
  {
    hide Flat;
    var p :| 0 <= p < |x| && x[p] == a;
    assert x == x[..p] + [a] + x[p + 1..];
    FlatConcat(x[..p] + [a], x[p + 1..], f);
    FlatSnoc(x[..p], a, f);
    FlatNothing(x[..p], f);
    FlatNothing(x[p + 1..], f);
  }

  lemma {:induction false} OnceEach<K>(keys: seq<K>, k: K)
    requires NoRepeats(keys)
    ensures multiset(keys)[k] == if k in keys then 1 else 0
  {
    if keys != [] {
      var front := keys[..|keys| - 1];
      assert keys == front + [keys[|keys| - 1]];
      OnceEach(front, k);
    }
  }

  // Only one element of the list contributes b.
  lemma {:induction false} FlatCount<A, B>(x: seq<A>, a: A, f: A -> seq<B>, b: B)
    requires NoRepeats(x) && forall k | k in x && k != a :: b !in f(k)
    ensures multiset(Flat(x, f))[b] == if a in x then multiset(f(a))[b] else 0
  {
    if x != [] {
      var front, last := x[..|x| - 1], x[|x| - 1];
      assert x == front + [last];
      FlatCount(front, a, f, b);
      if last != a {
        assert b !in multiset(f(last));
      }
    }
  }

  // ---------- cutting a list up by key ----------

  function OfKey<A, K(==), B>(key: A -> K, k: K, f: A -> seq<B>): A -> seq<B> {
    a => if key(a) == k then f(a) else []
  }

  function ByKey<A, K(==), B>(data: seq<A>, key: A -> K, f: A -> seq<B>): K -> seq<B> {
    k => Flat(data, OfKey(key, k, f))
  }

  // Every element turns up under its key, if it is listed or the element gives nothing, and under
  // no other.
  lemma {:induction false} PartitionByKey<A, K, B>(keys: seq<K>, data: seq<A>, key: A -> K, f: A -> seq<B>)
    requires NoRepeats(keys) && forall k | 0 <= k < |data| :: key(data[k]) in keys || f(data[k]) == []
    ensures multiset(Flat(keys, ByKey(data, key, f))) == multiset(Flat(data, f))
  {
    if data == [] {
      FlatNothing(keys, ByKey(data, key, f));
    } else {
      var front, a := data[..|data| - 1], data[|data| - 1];
      PartitionByKey(keys, front, key, f);
      var last := k => OfKey(key, k, f)(a);
      if key(a) in keys {
        FlatOnly(keys, key(a), last);
      } else {
        FlatNothing(keys, last);
      }
      FlatSum(keys, ByKey(front, key, f), last, ByKey(data, key, f));
    }
  }
}
