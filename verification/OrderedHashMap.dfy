/**
 The batch form of the report: a map from ids to numbers is turned into a tree from numbers to ids,
 from which the top or the bottom entries are taken out one number at a time.
 */
module OrderedHashMap {
  import opened Common
  import opened Flattening
  import opened Reports
  import opened Sorting

  type Tree = map<int, seq<string>>

  // ---------- numbers in order ----------

  predicate Before(desc: bool, x: int, y: int) { if desc then x > y else x < y }

  ghost predicate Ranks(keys: seq<int>, s: set<int>, desc: bool) {
    && (forall i, j | 0 <= i < j < |keys| :: Before(desc, keys[i], keys[j]))
    && (forall k :: k in keys <==> k in s)
  }

  predicate IsFirst(s: set<int>, desc: bool, x: int) {
    x in s && forall y | y in s && y != x :: Before(desc, x, y)
  }

  lemma {:induction false} FirstExists(s: set<int>, desc: bool)
    requires s != {}
    ensures exists x :: IsFirst(s, desc, x)
  {
    var y := AnyOf(s);
    var rest := s - {y};
    if rest == {} {
      assert s == {y};
      assert IsFirst(s, desc, y);
    } else {
      FirstExists(rest, desc);
      var x :| IsFirst(rest, desc, x);
      assert s == rest + {y};
      assert IsFirst(s, desc, if Before(desc, x, y) then x else y);
    }
  }

  // The numbers of a set, from the largest down or from the smallest up.
  ghost function Order(s: set<int>, desc: bool): (keys: seq<int>)
    ensures Ranks(keys, s, desc) && |keys| == |s|
  {
    if s == {} then []
    else
      FirstExists(s, desc);
      var x :| IsFirst(s, desc, x);
      [x] + Order(s - {x}, desc)
  }

  // Taking the first number off.
  lemma OrderStep(s: set<int>, desc: bool, x: int)
    requires IsFirst(s, desc, x)
    ensures Order(s, desc) == [x] + Order(s - {x}, desc)
  {
  }

  lemma {:induction false} RanksUnique(a: seq<int>, s: set<int>, desc: bool)
    requires Ranks(a, s, desc)
    ensures a == Order(s, desc)
  {
    if a == [] {
      assert s == {} by {
        assert forall k :: k !in s;
      }
    } else {
      assert a[0] in a;
      forall y | y in s && y != a[0]
        ensures Before(desc, a[0], y)
      {
        var j :| 0 <= j < |a| && a[j] == y;
      }
      OrderStep(s, desc, a[0]);
      RanksTail(a, s, desc);
      RanksUnique(a[1..], s - {a[0]}, desc);
    }
  }

  lemma RanksTail(a: seq<int>, s: set<int>, desc: bool)
    requires Ranks(a, s, desc) && a != []
    ensures Ranks(a[1..], s - {a[0]}, desc)
  {
    forall k
      ensures k in a[1..] <==> k in s - {a[0]}
    {
      assert a == [a[0]] + a[1..];
      if k in a[1..] {
        var j :| 0 <= j < |a[1..]| && a[1..][j] == k;
        assert Before(desc, a[0], a[j + 1]);
      }
    }
  }

  // ---------- what is reported ----------

  function RowOf(m: Tree): int -> seq<Record> {
    StrLeOrders();
    (k: int) => if k in m then Rows(Sort(m[k], StrLe), k) else []
  }

  function Limit(n: int, size: nat): (l: nat)
    ensures l <= size
  {
    if n <= 0 then 0 else if n < size then n else size
  }

  // The first n numbers of the tree, all if there are fewer and none if n is negative.
  ghost function Taken(m: Tree, desc: bool, n: int): seq<int> {
    Order(m.Keys, desc)[..Limit(n, |m|)]
  }

  ghost function Out(m: Tree, desc: bool, n: int): seq<Record> {
    Flat(Taken(m, desc, n), RowOf(m))
  }

  ghost function Rest(m: Tree, desc: bool, n: int): Tree {
    m - Elems(Taken(m, desc, n))
  }

  ghost function Elems(keys: seq<int>): set<int> { set k | k in keys }

  // ---------- turning the map round ----------

  // Every number has exactly the ids that the map sends to it, each once.
  ghost predicate Inverts(original: map<string, int>, m: Tree) {
    && (forall id | id in original :: original[id] in m)
    && (forall v | v in m :: m[v] != [] && NoRepeats(m[v]))
    && (forall v, id | v in m :: id in m[v] <==> id in original && original[id] == v)
  }

  lemma InvertOneMore(original: map<string, int>, id: string, val: int, m: Tree)
    requires Inverts(original, m) && id !in original
    ensures Inverts(original[id := val], m[val := (if val in m then m[val] else []) + [id]])
  {
    var l := if val in m then m[val] else [];
    assert id !in l;
    assert forall x :: x in l + [id] <==> x in l || x == id;
  }

  // ---------- one round of taking out ----------

  // `done` are the numbers taken out of m0 so far, and m is what is left.
  ghost predicate PartOut(m0: Tree, desc: bool, done: seq<int>, m: Tree) {
    Order(m0.Keys, desc) == done + Order(m.Keys, desc) && m == m0 - Elems(done)
  }

  lemma TakeStep(m0: Tree, desc: bool, done: seq<int>, m: Tree, key: int)
    requires PartOut(m0, desc, done, m) && IsFirst(m.Keys, desc, key)
    ensures PartOut(m0, desc, done + [key], m - {key})
    ensures key in m0 && m[key] == m0[key]
    ensures Flat(done + [key], RowOf(m0)) == Flat(done, RowOf(m0)) + RowOf(m0)(key)
  {
    hide Order, Flat, RowOf, Elems, IsFirst;
    OrderStep(m.Keys, desc, key);
    FirstIsKey(m, desc, key);
    var rest := Order(m.Keys - {key}, desc);
    assert (m - {key}).Keys == m.Keys - {key};
    assert done + ([key] + rest) == done + [key] + rest;
    LeavesOut(m0, done, key);
    FlatSnoc(done, key, RowOf(m0));
  }

  lemma LeavesOut(m0: Tree, done: seq<int>, key: int)
    ensures m0 - Elems(done) - {key} == m0 - Elems(done + [key])
  {
    assert Elems(done + [key]) == Elems(done) + {key};
  }

  lemma TakeDone(m0: Tree, desc: bool, done: seq<int>, m: Tree, n: int)
    requires PartOut(m0, desc, done, m)
    requires |done| >= n || |m| == 0
    requires |done| <= n || |done| == 0
    ensures done == Taken(m0, desc, n) && m == Rest(m0, desc, n)
  {
    var all, rest := Order(m0.Keys, desc), Order(m.Keys, desc);
    hide Order, Elems;
    assert |all| == |m0| && |rest| == |m| && all == done + rest;
    assert all[..|done|] == done;
  }

  // TreeMap.lastKey and firstKey
  method FirstKey(m: Tree, desc: bool) returns (key: int)
    requires |m| > 0
    ensures IsFirst(m.Keys, desc, key)
  {
    assert m.Keys != {};
    FirstExists(m.Keys, desc);
    key :| key in m && IsFirst(m.Keys, desc, key);
  }

  class OrderedMap {
    var sorted: Tree

    constructor (original: map<string, int>)
      ensures Inverts(original, sorted)
    {
      sorted := map[];
      new;
      var left := original.Keys;
      while left != {}
        invariant left <= original.Keys
        invariant Inverts(original - left, sorted)
        decreases |left|
      {
        var id :| id in left;
        var val := original[id];
        InvertOneMore(original - left, id, val, sorted);
        sorted := sorted[val := (if val in sorted then sorted[val] else []) + [id]];
        assert (original - left)[id := val] == original - (left - {id});
        left := left - {id};
      }
      assert original - left == original;
    }

    method GetTop(n: int) returns (out: seq<Record>)
      modifies this
      ensures out == Out(old(sorted), true, n)
      ensures sorted == Rest(old(sorted), true, n)
    {
      hide Order, PartOut, Flat, IsFirst, TotalOrder, StrLe, Sort;
      out := [];
      var num := 0;
      ghost var done := [];
      NothingOut(sorted, true);
      while num < n && |sorted| > 0
        invariant num == |done| && (num <= n || num == 0)
        invariant PartOut(old(sorted), true, done, sorted)
        invariant out == Flat(done, RowOf(old(sorted)))
        decreases |sorted|
      {
        var key := FirstKey(sorted, true);
        StrLeOrders();
        FirstIsKey(sorted, true, key);
        TakeStep(old(sorted), true, done, sorted, key);
        var vals := Sort(sorted[key], StrLe);
        out := AppendRows(out, vals, key);
        num := num + 1;
        sorted := sorted - {key};
        done := done + [key];
      }
      TakeDone(old(sorted), true, done, sorted, n);
    }

    method GetBottom(n: int) returns (out: seq<Record>)
      modifies this
      ensures out == Out(old(sorted), false, n)
      ensures sorted == Rest(old(sorted), false, n)
    {
      hide Order, PartOut, Flat, IsFirst, TotalOrder, StrLe, Sort;
      out := [];
      var num := 0;
      ghost var done := [];
      NothingOut(sorted, false);
      while num < n && |sorted| > 0
        invariant num == |done| && (num <= n || num == 0)
        invariant PartOut(old(sorted), false, done, sorted)
        invariant out == Flat(done, RowOf(old(sorted)))
        decreases |sorted|
      {
        var key := FirstKey(sorted, false);
        StrLeOrders();
        FirstIsKey(sorted, false, key);
        TakeStep(old(sorted), false, done, sorted, key);
        var vals := Sort(sorted[key], StrLe);
        out := AppendRows(out, vals, key);
        num := num + 1;
        sorted := sorted - {key};
        done := done + [key];
      }
      TakeDone(old(sorted), false, done, sorted, n);
    }
  }

  // ---------- which numbers, in which order ----------

  // getTop takes the n highest numbers, or as many as there are; their records come highest number
  // first and ids in order, each id as often as it is listed, and the rest of the tree stays.
  lemma TopPlainly(m: Tree, n: int)
    ensures var out, rest := Out(m, true, n), Rest(m, true, n);
            && (forall k | k in rest :: k in m && rest[k] == m[k])
            && |rest| == (if n <= 0 then |m| else if n < |m| then |m| - n else 0)
            && (forall k, l | k in m && k !in rest && l in rest :: k > l)
            && (forall i, j | 0 <= i < j < |out| ::
                  out[i].1 > out[j].1 || (out[i].1 == out[j].1 && StrLe(out[i].0, out[j].0)))
            && (forall id, v :: multiset(out)[(id, v)] == if v in m && v !in rest then multiset(m[v])[id] else 0)
  {
    hide Out, Rest, StrLe;
    SplitsOrder(m, true, n);
    OutInOrder(m, true, n);
    OutCounts(m, true, n);
  }

  // getBottom does the same from the lowest number.
  lemma BottomPlainly(m: Tree, n: int)
    ensures var out, rest := Out(m, false, n), Rest(m, false, n);
            && (forall k | k in rest :: k in m && rest[k] == m[k])
            && |rest| == (if n <= 0 then |m| else if n < |m| then |m| - n else 0)
            && (forall k, l | k in m && k !in rest && l in rest :: k < l)
            && (forall i, j | 0 <= i < j < |out| ::
                  out[i].1 < out[j].1 || (out[i].1 == out[j].1 && StrLe(out[i].0, out[j].0)))
            && (forall id, v :: multiset(out)[(id, v)] == if v in m && v !in rest then multiset(m[v])[id] else 0)
  {
    hide Out, Rest, StrLe;
    SplitsOrder(m, false, n);
    OutInOrder(m, false, n);
    OutCounts(m, false, n);
  }

  lemma OutInOrder(m: Tree, desc: bool, n: int)
    ensures var out := Out(m, desc, n);
            forall i, j | 0 <= i < j < |out| ::
              Before(desc, out[i].1, out[j].1) || (out[i].1 == out[j].1 && StrLe(out[i].0, out[j].0))
  {
    hide Order, StrLe, RowOf, Flat;
    SplitsOrder(m, desc, n);
    assert Out(m, desc, n) == Flat(Taken(m, desc, n), RowOf(m));
    RowsInOrder(Taken(m, desc, n), m, desc);
  }

  lemma OutCounts(m: Tree, desc: bool, n: int)
    ensures forall id, v :: multiset(Out(m, desc, n))[(id, v)] ==
              if v in m && v !in Rest(m, desc, n) then multiset(m[v])[id] else 0
  {
    hide Flat, Order, StrLe, RowOf, Elems, Before, Rest, Taken;
    SplitsOrder(m, desc, n);
    forall id, v
      ensures multiset(Out(m, desc, n))[(id, v)] == if v in m && v !in Rest(m, desc, n) then multiset(m[v])[id] else 0
    {
      RowsOfKeys(Taken(m, desc, n), m, id, v);
    }
  }

  lemma FirstOnesSplit(all: seq<int>, l: nat, desc: bool)
    requires l <= |all| && forall i, j | 0 <= i < j < |all| :: Before(desc, all[i], all[j])
    ensures NoRepeats(all[..l]) && forall i, j | 0 <= i < j < l :: Before(desc, all[..l][i], all[..l][j])
    ensures forall k, x | k in all[..l] && x in all && x !in all[..l] :: Before(desc, k, x)
  {
    var keys := all[..l];
    assert all == keys + all[l..];
    forall i, j | 0 <= i < j < l
      ensures Before(desc, keys[i], keys[j])
    {
      assert Before(desc, all[i], all[j]);
    }
    forall k, x | k in keys && x in all && x !in keys
      ensures Before(desc, k, x)
    {
      var i :| 0 <= i < l && all[i] == k;
      assert x in all[l..];
      var j :| 0 <= j < |all[l..]| && all[l..][j] == x;
      assert all[l + j] == x;
    }
  }

  lemma SplitsOrder(m: Tree, desc: bool, n: int)
    ensures var keys, rest := Taken(m, desc, n), Rest(m, desc, n);
            && NoRepeats(keys) && (forall k :: k in keys <==> k in m && k !in rest)
            && (forall i, j | 0 <= i < j < |keys| :: Before(desc, keys[i], keys[j]))
            && (forall k | k in rest :: k in m && rest[k] == m[k])
            && |rest| == |m| - Limit(n, |m|)
            && (forall k, l | k in m && k !in rest && l in rest :: Before(desc, k, l))
  {
    var all := Order(m.Keys, desc);
    hide Order, Before;
    assert |all| == |m.Keys| == |m|;
    FirstOnesSplit(all, Limit(n, |m|), desc);
    SplitSize(m, Taken(m, desc, n));
  }

  lemma SplitSize(m: Tree, keys: seq<int>)
    requires NoRepeats(keys) && forall k | k in keys :: k in m
    ensures |m - Elems(keys)| == |m| - |keys|
  {
    SizeOfElems(keys);
    var rest := m - Elems(keys);
    assert rest.Keys == m.Keys - Elems(keys) && Elems(keys) <= m.Keys;
    assert |rest| == |rest.Keys| && |m| == |m.Keys|;
  }

  lemma {:induction false} SizeOfElems(keys: seq<int>)
    requires NoRepeats(keys)
    ensures |Elems(keys)| == |keys|
  {
    if keys != [] {
      var front, last := keys[..|keys| - 1], keys[|keys| - 1];
      SizeOfElems(front);
      assert keys == front + [last];
      assert Elems(keys) == Elems(front) + {last} && last !in Elems(front);
    }
  }

  lemma {:induction false} RowsInOrder(keys: seq<int>, m: Tree, desc: bool)
    requires forall i, j | 0 <= i < j < |keys| :: Before(desc, keys[i], keys[j])
    ensures var out := Flat(keys, RowOf(m));
            forall i, j | 0 <= i < j < |out| ::
              Before(desc, out[i].1, out[j].1) || (out[i].1 == out[j].1 && StrLe(out[i].0, out[j].0))
  {
    hide StrLe, Before, RowOf;
    if keys != [] {
      var front, last := keys[..|keys| - 1], keys[|keys| - 1];
      RowsInOrder(front, m, desc);
      var out, row := Flat(front, RowOf(m)), RowOf(m)(last);
      RowIs(m, last);
      forall i | 0 <= i < |out|
        ensures Before(desc, out[i].1, last)
      {
        FlatMember(front, RowOf(m), out[i]);
        var k :| 0 <= k < |front| && out[i] in RowOf(m)(front[k]);
        RowIs(m, front[k]);
      }
      assert Flat(keys, RowOf(m)) == out + row;
    }
  }

  lemma RowIs(m: Tree, k: int)
    ensures forall r | r in RowOf(m)(k) :: r.1 == k && k in m
    ensures forall i, j | 0 <= i < j < |RowOf(m)(k)| :: StrLe(RowOf(m)(k)[i].0, RowOf(m)(k)[j].0)
  {
    hide StrLe, TotalOrder;
    StrLeOrders();
  }

  lemma RowsOfKeys(keys: seq<int>, m: Tree, id: string, v: int)
    requires NoRepeats(keys)
    ensures multiset(Flat(keys, RowOf(m)))[(id, v)] == if v in keys && v in m then multiset(m[v])[id] else 0
  {
    hide Flat, StrLe, TotalOrder, Sort;
    forall k | k in keys && k != v
      ensures (id, v) !in RowOf(m)(k)
    {
      RowIs(m, k);
    }
    FlatCount(keys, v, RowOf(m), (id, v));
    if v in m {
      StrLeOrders();
      RowsCount(Sort(m[v], StrLe), v, id);
    }
  }

  lemma NothingOut(m: Tree, desc: bool)
    ensures PartOut(m, desc, [], m) && Flat([], RowOf(m)) == []
  {
    assert [] + Order(m.Keys, desc) == Order(m.Keys, desc);
    assert m - Elems([]) == m;
  }

  lemma FirstIsKey(m: Tree, desc: bool, key: int)
    requires IsFirst(m.Keys, desc, key)
    ensures key in m && |m - {key}| < |m|
  {
    assert (m - {key}).Keys == m.Keys - {key};
    assert |m - {key}| == |(m - {key}).Keys| && |m| == |m.Keys|;
  }

  // ---------- calls in a row ----------

  // The first l numbers are a part taken out.
  lemma {:induction false} PrefixIsPart(m: Tree, desc: bool, l: nat)
    requires l <= |m|
    ensures PartOut(m, desc, Order(m.Keys, desc)[..l], m - Elems(Order(m.Keys, desc)[..l]))
  {
    hide Order, Elems, IsFirst;
    var keys := Order(m.Keys, desc);
    if l == 0 {
      NothingOut(m, desc);
      assert keys[..0] == [];
    } else {
      PrefixIsPart(m, desc, l - 1);
      var rest := m - Elems(keys[..l - 1]);
      assert keys == keys[..l - 1] + Order(rest.Keys, desc);
      var key := keys[l - 1];
      assert Order(rest.Keys, desc)[0] == key;
      FirstOfOrder(rest.Keys, desc);
      TakeStep(m, desc, keys[..l - 1], rest, key);
      assert keys[..l - 1] + [key] == keys[..l];
    }
  }

  lemma FirstOfOrder(s: set<int>, desc: bool)
    requires s != {}
    ensures Order(s, desc) != [] && IsFirst(s, desc, Order(s, desc)[0])
  {
  }

  lemma RestIsPart(m: Tree, desc: bool, n: int)
    ensures PartOut(m, desc, Taken(m, desc, n), Rest(m, desc, n))
  {
    PrefixIsPart(m, desc, Limit(n, |m|));
  }

  // Numbers that are left keep their rows.
  lemma SameRows(m: Tree, desc: bool, n: int, keys: seq<int>)
    requires forall k | k in keys :: k in Rest(m, desc, n)
    ensures Flat(keys, RowOf(Rest(m, desc, n))) == Flat(keys, RowOf(m))
  {
    hide Flat, Order, Sort, StrLe, TotalOrder;
    forall i | 0 <= i < |keys|
      ensures RowOf(Rest(m, desc, n))(keys[i]) == RowOf(m)(keys[i])
    {
      assert keys[i] in keys;
    }
    FlatEqual(keys, RowOf(Rest(m, desc, n)), RowOf(m));
  }

  lemma TakenTwice(m: Tree, desc: bool, a: nat, b: nat)
    ensures Taken(m, desc, a) + Taken(Rest(m, desc, a), desc, b) == Taken(m, desc, a + b)
  {
    hide Order, Elems;
    RestIsPart(m, desc, a);
    var keys, rest := Order(m.Keys, desc), Rest(m, desc, a);
    assert |m| == |m.Keys| && |rest| == |rest.Keys|;
    PrefixOfParts(keys, Taken(m, desc, a), Order(rest.Keys, desc), a, b);
  }

  lemma PrefixOfParts(keys: seq<int>, first: seq<int>, second: seq<int>, a: nat, b: nat)
    requires keys == first + second && |first| == Limit(a, |keys|)
    ensures first + second[..Limit(b, |second|)] == keys[..Limit(a + b, |keys|)]
  {
  }

  // Reporting a and then b numbers from the same end is reporting a + b numbers.
  lemma CallsCompose(m: Tree, desc: bool, a: nat, b: nat)
    ensures Out(m, desc, a) + Out(Rest(m, desc, a), desc, b) == Out(m, desc, a + b)
    ensures Rest(Rest(m, desc, a), desc, b) == Rest(m, desc, a + b)
  {
    hide Flat, Order, RowOf, Taken;
    var rest := Rest(m, desc, a);
    var first, second := Taken(m, desc, a), Taken(rest, desc, b);
    TakenTwice(m, desc, a, b);
    TakenMembers(rest, desc, b);
    SameRows(m, desc, a, second);
    FlatConcat(first, second, RowOf(m));
    assert Elems(first + second) == Elems(first) + Elems(second);
  }

  lemma TakenMembers(m: Tree, desc: bool, n: int)
    ensures forall k | k in Taken(m, desc, n) :: k in m
  {
    forall k | k in Taken(m, desc, n)
      ensures k in m
    {
      assert k in Order(m.Keys, desc);
    }
  }

  // ---------- nothing is lost and nothing is reported twice ----------

  // All the records of a tree.
  ghost function All(m: Tree): seq<Record> {
    Flat(Order(m.Keys, true), RowOf(m))
  }

  lemma SameKeys(a: seq<int>, b: seq<int>, s: set<int>, desc: bool)
    requires Ranks(a, s, desc) && Ranks(b, s, true)
    ensures multiset(a) == multiset(b)
  {
    forall k
      ensures multiset(a)[k] == multiset(b)[k]
    {
      RanksHasOnce(a, s, desc, k);
      RanksHasOnce(b, s, true, k);
    }
  }

  lemma RanksHasOnce(a: seq<int>, s: set<int>, desc: bool, k: int)
    requires Ranks(a, s, desc)
    ensures multiset(a)[k] == if k in s then 1 else 0
  {
    OnceEach(a, k);
  }

  lemma OutConserves(m: Tree, desc: bool, n: int)
    ensures multiset(Out(m, desc, n)) + multiset(All(Rest(m, desc, n))) == multiset(All(m))
  {
    hide Flat, RowOf, Order;
    var taken, rest := Taken(m, desc, n), Rest(m, desc, n);
    RestIsPart(m, desc, n);
    OrderMembers(rest);
    SameRows(m, desc, n, Order(rest.Keys, true));
    SameRows(m, desc, n, Order(rest.Keys, desc));
    SameKeys(Order(rest.Keys, desc), Order(rest.Keys, true), rest.Keys, desc);
    SameKeys(Order(m.Keys, desc), Order(m.Keys, true), m.Keys, desc);
    FlatPermuted(Order(rest.Keys, desc), Order(rest.Keys, true), RowOf(m));
    FlatPermuted(Order(m.Keys, desc), Order(m.Keys, true), RowOf(m));
    FlatConcat(taken, Order(rest.Keys, desc), RowOf(m));
  }

  lemma OrderMembers(m: Tree)
    ensures forall desc, k | k in Order(m.Keys, desc) :: k in m
  {
  }

  datatype Call = Top(n: int) | Bottom(n: int)

  // A sequence of calls: all their records and the tree that is left.
  ghost function Calls(m: Tree, calls: seq<Call>): (r: (seq<Record>, Tree)) {
    if calls == [] then ([], m)
    else
      var (out, left) := Calls(m, calls[..|calls| - 1]);
      var c := calls[|calls| - 1];
      (out + Out(left, c.Top?, c.n), Rest(left, c.Top?, c.n))
  }

  lemma {:induction false} CallsConserve(m: Tree, calls: seq<Call>)
    ensures multiset(Calls(m, calls).0) + multiset(All(Calls(m, calls).1)) == multiset(All(m))
  {
    hide Out, Rest, All;
    if calls != [] {
      CallsConserve(m, calls[..|calls| - 1]);
      var c := calls[|calls| - 1];
      OutConserves(Calls(m, calls[..|calls| - 1]).1, c.Top?, c.n);
    }
  }

  // Every entry of the original map is one record of its tree.
  lemma RecordCount(original: map<string, int>, m: Tree, id: string, value: int)
    requires Inverts(original, m)
    ensures multiset(All(m))[(id, value)] == if id in original && original[id] == value then 1 else 0
  {
    hide Flat, Order, Sort, StrLe, TotalOrder;
    OrderMembers(m);
    OrderNoRepeats(m);
    forall k | k in Order(m.Keys, true) && k != value
      ensures (id, value) !in RowOf(m)(k)
    {
    }
    FlatCount(Order(m.Keys, true), value, RowOf(m), (id, value));
    if value in m {
      RowCount(m, value, id);
    }
  }

  lemma OrderNoRepeats(m: Tree)
    ensures NoRepeats(Order(m.Keys, true))
    ensures forall k :: k in Order(m.Keys, true) <==> k in m
  {
  }

  lemma RowCount(m: Tree, value: int, id: string)
    requires value in m && NoRepeats(m[value])
    ensures multiset(RowOf(m)(value))[(id, value)] == if id in m[value] then 1 else 0
  {
    hide Sort, StrLe, TotalOrder;
    StrLeOrders();
    var ids := Sort(m[value], StrLe);
    RowsCount(ids, value, id);
    OnceEach(m[value], id);
  }

  lemma {:induction false} RowsCount(ids: seq<string>, value: int, id: string)
    ensures multiset(Rows(ids, value))[(id, value)] == multiset(ids)[id]
  {
    if ids != [] {
      var front, last := ids[..|ids| - 1], ids[|ids| - 1];
      assert ids == front + [last];
      RowsSnoc(front, last, value);
      RowsCount(front, value, id);
    }
  }

  // Calls in any order and from either end that exhaust the tree report every entry of the
  // original map exactly once and nothing else.
  lemma ExhaustingReportsEachOnce(original: map<string, int>, m: Tree, calls: seq<Call>, id: string, value: int)
    requires Inverts(original, m) && |Calls(m, calls).1| == 0
    ensures multiset(Calls(m, calls).0)[(id, value)] == if id in original && original[id] == value then 1 else 0
  {
    hide Calls, Inverts;
    CallsConserve(m, calls);
    RecordCount(original, m, id, value);
    NoRecords(Calls(m, calls).1);
  }

  lemma NoRecords(m: Tree)
    requires |m| == 0
    ensures All(m) == []
  {
    assert |m.Keys| == 0;
  }
}
