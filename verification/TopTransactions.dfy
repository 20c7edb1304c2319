/**
 The streaming tracker of the N largest transaction amounts: a map from amount to customers and a
 heap of the same amounts.  The heap is a bag that can give its least element; amounts are exact.
 */
module TopTransactions {
  import opened Common
  import opened Flattening
  import opened Reports
  import opened Sorting

  type Addition = (string, real)

  // ---------- what the tracker should hold ----------

  function Amounts(seen: seq<Addition>): set<real> {
    set a | a in seen :: a.1
  }

  function OfAmount(amount: real): Addition -> seq<string> {
    (a: Addition) => if a.1 == amount then [a.0] else []
  }

  // Everyone who was added with this amount, in order.
  function CustomersOf(seen: seq<Addition>, amount: real): seq<string> {
    Flat(seen, OfAmount(amount))
  }

  // The n largest elements of s, or all of them if there are fewer.
  ghost predicate IsTop(n: nat, s: set<real>, top: set<real>) {
    && top <= s
    && |top| == (if |s| < n then |s| else n)
    && forall k, x | k in top && x in s && x !in top :: x < k
  }

  lemma SubsetSize<T>(a: set<T>, b: set<T>)
    requires a <= b
    ensures |a| <= |b| && (|a| == |b| ==> a == b)
  {
    assert b == a + (b - a);
    assert |b| == |a| + |b - a|;
  }

  lemma TopIsUnique(n: nat, s: set<real>, top: set<real>, other: set<real>)
    requires IsTop(n, s, top) && IsTop(n, s, other)
    ensures top == other
  {
    if exists x :: x in top && x !in other {
      var x :| x in top && x !in other;
      forall y | y in other
        ensures y in top
      {
        assert x < y;
      }
      SubsetSize(other, top);
    } else {
      SubsetSize(top, other);
    }
  }

  // An amount that is seen and not among the top can never come back, whatever is added later.
  lemma EvictedForEver(n: nat, seen: seq<Addition>, later: seq<Addition>, top: set<real>, top': set<real>, x: real)
    requires IsTop(n, Amounts(seen), top) && IsTop(n, Amounts(seen + later), top')
    requires x in Amounts(seen) && x !in top
    ensures x !in top'
  {
    var s, s' := Amounts(seen), Amounts(seen + later);
    assert s <= s' by {
      forall a | a in seen
        ensures a in seen + later
      {
      }
    }
    if x in top' {
      forall k | k in top
        ensures k in top'
      {
        assert x < k;
      }
      SubsetSize(top + {x}, top');
      SubsetSize(top + {x}, s);
    }
  }

  // ---------- what get reports ----------

  predicate RealGe(x: real, y: real) { x >= y }

  lemma RealGeOrders()
    ensures TotalOrder(RealGe)
  {
  }

  // The keys from the largest down.
  ghost predicate Ranks(keys: seq<real>, s: set<real>) {
    && (forall i, j | 0 <= i < j < |keys| :: keys[i] > keys[j])
    && (forall k :: k in keys <==> k in s)
  }

  // (int) d: towards zero, and to the nearest int when out of range.
  function IntCast(d: real): int {
    var t := if d >= 0.0 then d.Floor else -((-d).Floor);
    if t < -0x8000_0000 then -0x8000_0000 else if t > 0x7fff_ffff then 0x7fff_ffff else t
  }

  lemma IntCastTruncates(d: real)
    ensures 0.0 <= d < 2147483648.0 ==> IntCast(d) as real <= d < IntCast(d) as real + 1.0
    ensures -2147483649.0 < d <= 0.0 ==> IntCast(d) as real - 1.0 < d <= IntCast(d) as real
    ensures d >= 2147483648.0 ==> IntCast(d) == 2147483647
    ensures d <= -2147483649.0 ==> IntCast(d) == -2147483648
  {
    assert d.Floor as real <= d < d.Floor as real + 1.0;
    assert (-d).Floor as real <= -d < (-d).Floor as real + 1.0;
  }

  lemma IntCastKeepsOrder(c: real, d: real)
    requires c <= d
    ensures IntCast(c) <= IntCast(d)
  {
    FloorKeepsOrder(c, d);
    FloorKeepsOrder(-d, -c);
    assert c >= 0.0 ==> c.Floor >= 0;
    assert d < 0.0 ==> (-d).Floor >= 0;
    assert d >= 0.0 ==> d.Floor >= 0;
    assert c < 0.0 ==> (-c).Floor >= 0;
  }

  lemma FloorKeepsOrder(c: real, d: real)
    requires c <= d
    ensures c.Floor <= d.Floor
  {
    assert c.Floor as real <= c && d < (d.Floor + 1) as real;
  }

  // What get reports for one amount.
  function RecordsOf(seen: seq<Addition>): real -> seq<Record> {
    StrLeOrders();
    (d: real) => Rows(Sort(CustomersOf(seen, d), StrLe), IntCast(d))
  }

  method Pick<T>(q: multiset<T>) returns (x: T)
    requires |q| > 0
    ensures x in q
  {
    x :| x in q;
  }

  lemma RanksOnce(keys: seq<real>, s: set<real>)
    requires Sorted(keys, RealGe) && multiset(keys) == multiset(s)
    ensures Ranks(keys, s)
  {
    forall i, j | 0 <= i < j < |keys|
      ensures keys[i] > keys[j]
    {
      if keys[i] == keys[j] {
        TwiceIn(keys, i, j);
      }
    }
    forall k
      ensures k in keys <==> k in s
    {
      assert k in keys <==> k in multiset(keys);
    }
  }

  lemma RanksMembers(keys: seq<real>, s: set<real>)
    requires Ranks(keys, s)
    ensures forall j | 0 <= j < |keys| :: keys[j] in s
  {
    forall j | 0 <= j < |keys|
      ensures keys[j] in s
    {
      assert keys[j] in keys;
    }
  }

  lemma TwiceIn<T>(x: seq<T>, i: nat, j: nat)
    requires i < j < |x| && x[i] == x[j]
    ensures multiset(x)[x[i]] >= 2
  {
    assert x == x[..i] + [x[i]] + x[i + 1..j] + [x[j]] + x[j + 1..];
  }

  // ---------- how one more addition changes it ----------

  // The list kept for an amount: what had come before the last get, sorted, and then the rest.
  function ListOf(seen: seq<Addition>, gotAt: nat, k: real): seq<string>
    requires gotAt <= |seen|
  {
    StrLeOrders();
    Sort(CustomersOf(seen[..gotAt], k), StrLe) + CustomersOf(seen[gotAt..], k)
  }

  lemma ListOfUnseen(seen: seq<Addition>, gotAt: nat, k: real)
    requires gotAt <= |seen| && k !in Amounts(seen)
    ensures ListOf(seen, gotAt, k) == []
  {
    FlatNothing(seen[..gotAt], OfAmount(k));
    FlatNothing(seen[gotAt..], OfAmount(k));
    StrLeOrders();
  }

  lemma AmountsOneMore(seen: seq<Addition>, a: Addition)
    ensures Amounts(seen + [a]) == Amounts(seen) + {a.1}
  {
    assert forall b :: b in seen + [a] <==> b in seen || b == a;
    assert a in seen + [a];
  }

  lemma ListOneMore(seen: seq<Addition>, a: Addition, gotAt: nat, k: real)
    requires gotAt <= |seen|
    ensures ListOf(seen + [a], gotAt, k) == ListOf(seen, gotAt, k) + if k == a.1 then [a.0] else []
  {
    hide Sort, Flat;
    assert (seen + [a])[..gotAt] == seen[..gotAt] && (seen + [a])[gotAt..] == seen[gotAt..] + [a];
    FlatSnoc(seen[gotAt..], a, OfAmount(k));
  }

  lemma OneMore(seen: seq<Addition>, custId: string, amount: real, gotAt: nat)
    requires gotAt <= |seen|
    ensures Amounts(seen + [(custId, amount)]) == Amounts(seen) + {amount}
    ensures forall k :: ListOf(seen + [(custId, amount)], gotAt, k) ==
                          ListOf(seen, gotAt, k) + if k == amount then [custId] else []
  {
    hide ListOf, Amounts;
    AmountsOneMore(seen, (custId, amount));
    forall k
      ensures ListOf(seen + [(custId, amount)], gotAt, k) ==
                ListOf(seen, gotAt, k) + if k == amount then [custId] else []
    {
      ListOneMore(seen, (custId, amount), gotAt, k);
    }
  }

  ghost predicate HasLists(m: map<real, seq<string>>, seen: seq<Addition>, gotAt: nat)
    requires gotAt <= |seen|
  {
    forall k | k in m :: m[k] == ListOf(seen, gotAt, k)
  }

  // The lists after an addition: the amount's own list grows or is new, the others stay.
  lemma ListsAfter(m: map<real, seq<string>>, m': map<real, seq<string>>, seen: seq<Addition>, gotAt: nat,
                   custId: string, amount: real)
    requires gotAt <= |seen| && HasLists(m, seen, gotAt) && amount in m'
    requires forall k | k in m' && k != amount :: k in m && m'[k] == m[k]
    requires if amount in m then m'[amount] == m[amount] + [custId]
             else m'[amount] == [custId] && amount !in Amounts(seen)
    ensures HasLists(m', seen + [(custId, amount)], gotAt)
  {
    hide ListOf, Amounts;
    OneMore(seen, custId, amount, gotAt);
    if amount !in m {
      ListOfUnseen(seen, gotAt, amount);
    }
  }

  lemma ListsUnchanged(m: map<real, seq<string>>, seen: seq<Addition>, gotAt: nat, custId: string, amount: real)
    requires gotAt <= |seen| && HasLists(m, seen, gotAt) && amount !in m
    ensures HasLists(m, seen + [(custId, amount)], gotAt)
  {
    hide ListOf;
    OneMore(seen, custId, amount, gotAt);
  }

  lemma TopKept(n: nat, s: set<real>, top: set<real>, a: real)
    requires IsTop(n, s, top) && a in top
    ensures IsTop(n, s + {a}, top)
  {
    assert s + {a} == s;
  }

  lemma TopRejects(n: nat, s: set<real>, top: set<real>, a: real)
    requires IsTop(n, s, top) && |top| == n && a !in top
    requires forall k | k in top :: a < k
    ensures IsTop(n, s + {a}, top)
  {
    SubsetSize(top, s + {a});
    SubsetSize(s, s + {a});
  }

  lemma TopReplaces(n: nat, s: set<real>, top: set<real>, a: real, least: real)
    requires IsTop(n, s, top) && |top| == n && a !in top
    requires least in top && (forall k | k in top :: least <= k) && least <= a
    ensures a !in s && IsTop(n, s + {a}, top - {least} + {a})
  {
    assert a in s ==> a < least;
    assert |top - {least} + {a}| == n;
    SubsetSize(top, s);
    assert |s + {a}| == |s| + 1;
  }

  lemma TopGrows(n: nat, s: set<real>, top: set<real>, a: real)
    requires IsTop(n, s, top) && |top| < n && a !in top
    ensures a !in s && IsTop(n, s + {a}, top + {a})
  {
    SubsetSize(top, s);
    assert top == s;
  }

  lemma {:induction false} LeastOfSet(keys: set<real>) returns (m: real)
    requires keys != {}
    ensures m in keys && forall k | k in keys :: m <= k
  {
    m := AnyOf(keys);
    var rest := keys - {m};
    if rest != {} {
      var r := LeastOfSet(rest);
      assert keys == rest + {m};
      m := if r <= m then r else m;
    } else {
      assert keys == {m};
    }
  }

  // The map and the heap when an amount takes the place of the amounts in `gone`.
  lemma BagFollows(keys: set<real>, gone: set<real>, a: real)
    requires gone <= keys && a !in keys
    ensures multiset(keys) - multiset(gone) + multiset{a} == multiset(keys - gone + {a})
  {
  }

  lemma KeysFollow(m: map<real, seq<string>>, gone: set<real>, a: real, l: seq<string>)
    requires a !in m
    ensures (m - gone)[a := l].Keys == m.Keys - gone + {a}
    ensures forall k | k in (m - gone)[a := l] && k != a :: k in m && (m - gone)[a := l][k] == m[k]
  {
  }

  // PriorityQueue.peek
  method Peek(q: multiset<real>, ghost keys: set<real>) returns (least: real)
    requires q == multiset(keys) && keys != {}
    ensures IsLeast(least, q)
  {
    assert exists m :: IsLeast(m, q) by {
      var m := LeastOfSet(keys);
      assert IsLeast(m, q);
    }
    least :| least in q && IsLeast(least, q);
  }

  predicate IsLeast(m: real, q: multiset<real>) {
    m in q && forall x | x in q :: m <= x
  }

  lemma LeastOfKeys(keys: set<real>, q: multiset<real>, m: real)
    requires q == multiset(keys) && IsLeast(m, q)
    ensures m in keys && |keys| == |q| && forall k | k in keys :: m <= k
  {
    forall k | k in keys
      ensures m <= k
    {
      assert k in q;
    }
  }

  // The state of a tracker as values.
  datatype Contents = Contents(topN: map<real, seq<string>>, pq: multiset<real>)

  ghost predicate Holds(n: nat, c: Contents, seen: seq<Addition>, gotAt: nat)
    requires gotAt <= |seen|
  {
    && IsTop(n, Amounts(seen), c.topN.Keys)
    && c.pq == multiset(c.topN.Keys)
    && HasLists(c.topN, seen, gotAt)
  }

  lemma AddsToList(n: nat, c: Contents, seen: seq<Addition>, gotAt: nat, custId: string, amount: real)
    requires gotAt <= |seen| && Holds(n, c, seen, gotAt) && amount in c.topN
    ensures Holds(n, c.(topN := c.topN[amount := c.topN[amount] + [custId]]), seen + [(custId, amount)], gotAt)
  {
    hide IsTop, HasLists, Amounts;
    OneMore(seen, custId, amount, gotAt);
    TopKept(n, Amounts(seen), c.topN.Keys, amount);
    var m' := c.topN[amount := c.topN[amount] + [custId]];
    assert m'.Keys == c.topN.Keys;
    ListsAfter(c.topN, m', seen, gotAt, custId, amount);
  }

  lemma Rejects(n: nat, c: Contents, seen: seq<Addition>, gotAt: nat, custId: string, amount: real, least: real)
    requires gotAt <= |seen| && Holds(n, c, seen, gotAt) && amount !in c.topN
    requires |c.pq| == n && IsLeast(least, c.pq) && amount < least
    ensures Holds(n, c, seen + [(custId, amount)], gotAt)
  {
    hide IsTop, HasLists, Amounts, IsLeast;
    OneMore(seen, custId, amount, gotAt);
    LeastOfKeys(c.topN.Keys, c.pq, least);
    TopRejects(n, Amounts(seen), c.topN.Keys, amount);
    ListsUnchanged(c.topN, seen, gotAt, custId, amount);
  }

  lemma TakesIn(n: nat, c: Contents, seen: seq<Addition>, gotAt: nat, custId: string, amount: real, gone: set<real>)
    requires gotAt <= |seen| && Holds(n, c, seen, gotAt) && amount !in c.topN && n >= 1
    requires if |c.pq| == n then exists least :: gone == {least} && IsLeast(least, c.pq) && least <= amount
             else gone == {}
    ensures Holds(n, Contents((c.topN - gone)[amount := [custId]], c.pq - multiset(gone) + multiset{amount}),
                  seen + [(custId, amount)], gotAt)
  {
    hide IsTop, HasLists, Amounts, IsLeast;
    var top := c.topN.Keys;
    OneMore(seen, custId, amount, gotAt);
    TopSize(n, Amounts(seen), top);
    if |c.pq| == n {
      var least :| gone == {least} && IsLeast(least, c.pq) && least <= amount;
      LeastOfKeys(top, c.pq, least);
      TopReplaces(n, Amounts(seen), top, amount, least);
    } else {
      TopGrows(n, Amounts(seen), top, amount);
      assert top - gone == top;
    }
    KeysFollow(c.topN, gone, amount, [custId]);
    BagFollows(top, gone, amount);
    ListsAfter(c.topN, (c.topN - gone)[amount := [custId]], seen, gotAt, custId, amount);
  }

  lemma {:induction false} CustomerCount(seen: seq<Addition>, k: real, id: string)
    ensures multiset(CustomersOf(seen, k))[id] == multiset(seen)[(id, k)]
  {
    if seen != [] {
      var front, a := seen[..|seen| - 1], seen[|seen| - 1];
      assert seen == front + [a];
      CustomerCount(front, k, id);
      FlatSnoc(front, a, OfAmount(k));
    }
  }

  lemma ListCount(seen: seq<Addition>, gotAt: nat, k: real, id: string)
    requires gotAt <= |seen|
    ensures multiset(ListOf(seen, gotAt, k))[id] == multiset(seen)[(id, k)]
  {
    hide Sort, CustomersOf, TotalOrder, StrLe;
    CustomerCount(seen[..gotAt], k, id);
    CustomerCount(seen[gotAt..], k, id);
    StrLeOrders();
    assert seen == seen[..gotAt] + seen[gotAt..];
    assert multiset(ListOf(seen, gotAt, k)) ==
      multiset(Sort(CustomersOf(seen[..gotAt], k), StrLe)) + multiset(CustomersOf(seen[gotAt..], k));
  }

  // What a tracker holds, in terms of what was added: only amounts that were added, at most n, all of
  // them higher than every amount left out, and none left out unless there are n; and for each amount
  // every customer as often as they were added with it.
  lemma HeldPlainly(n: nat, c: Contents, seen: seq<Addition>, gotAt: nat)
    requires gotAt <= |seen| && Holds(n, c, seen, gotAt)
    ensures forall k | k in c.topN :: exists i :: 0 <= i < |seen| && seen[i].1 == k
    ensures |c.topN| <= n
    ensures forall i | 0 <= i < |seen| && seen[i].1 !in c.topN ::
              |c.topN| == n && forall k | k in c.topN :: seen[i].1 < k
    ensures forall k, id | k in c.topN :: multiset(c.topN[k])[id] == multiset(seen)[(id, k)]
    ensures c.pq == multiset(c.topN.Keys)
  {
    hide ListOf;
    var s := Amounts(seen);
    assert |c.topN| == |c.topN.Keys|;
    forall i | 0 <= i < |seen| && seen[i].1 !in c.topN
      ensures |c.topN| == n && forall k | k in c.topN :: seen[i].1 < k
    {
      assert seen[i] in seen && seen[i].1 in s;
      SubsetSize(c.topN.Keys, s);
    }
    forall k, id | k in c.topN
      ensures multiset(c.topN[k])[id] == multiset(seen)[(id, k)]
    {
      ListCount(seen, gotAt, k, id);
    }
  }

  // After get, which leaves gotAt at the end, every stored list is in order.
  lemma SortedInPlace(n: nat, c: Contents, seen: seq<Addition>)
    requires Holds(n, c, seen, |seen|)
    ensures forall k | k in c.topN :: Sorted(c.topN[k], StrLe)
  {
    hide Sorted, StrLe, TotalOrder, IsTop;
    StrLeOrders();
    assert seen[..|seen|] == seen && seen[|seen|..] == [];
    forall k | k in c.topN
      ensures Sorted(c.topN[k], StrLe)
    {
      assert c.topN[k] == ListOf(seen, |seen|, k);
      assert CustomersOf([], k) == [];
      assert c.topN[k] == Sort(CustomersOf(seen, k), StrLe);
    }
  }

  // What get reports, in terms of what was added: the record of every addition with one of the
  // amounts, as often as it was added, the numbers never rising.  If no two of the amounts are cast
  // to the same number, customers with the same number are in order.
  lemma ReportedPlainly(keys: seq<real>, top: set<real>, seen: seq<Addition>)
    requires Ranks(keys, top)
    ensures var out := Flat(keys, RecordsOf(seen));
            && multiset(out) ==
               multiset(Flat(seen, (a: Addition) => if a.1 in top then [(a.0, IntCast(a.1))] else []))
            && (forall i, j | 0 <= i < j < |out| :: out[i].1 >= out[j].1)
            && ((forall x, y | x in top && y in top && IntCast(x) == IntCast(y) :: x == y) ==>
                forall i, j | 0 <= i < j < |out| && out[i].1 == out[j].1 :: StrLe(out[i].0, out[j].0))
  {
    hide Flat, IntCast, StrLe, Sort, TotalOrder, RecordsOf, CustomersOf;
    var f := (a: Addition) => if a.1 in top then [(a.0, IntCast(a.1))] else [];
    forall i | 0 <= i < |keys|
      ensures multiset(RecordsOf(seen)(keys[i])) == multiset(ByKey(seen, (a: Addition) => a.1, f)(keys[i]))
    {
      assert keys[i] in keys;
      RecordsOfAmount(seen, top, keys[i]);
    }
    FlatSame(keys, RecordsOf(seen), ByKey(seen, (a: Addition) => a.1, f));
    PartitionByKey(keys, seen, (a: Addition) => a.1, f);
    RecordsInOrder(keys, top, seen);
  }

  // The records of one amount are those of the additions with it.
  lemma {:induction false} RecordsOfAmount(seen: seq<Addition>, top: set<real>, k: real)
    requires k in top
    ensures multiset(RecordsOf(seen)(k)) ==
      multiset(ByKey(seen, (a: Addition) => a.1, (a: Addition) => if a.1 in top then [(a.0, IntCast(a.1))] else [])(k))
  {
    hide StrLe, TotalOrder, Sort, IntCast;
    StrLeOrders();
    RowsPermuted(Sort(CustomersOf(seen, k), StrLe), CustomersOf(seen, k), IntCast(k));
    RowsOfCustomers(seen, top, k);
  }

  lemma {:induction false} RowsOfCustomers(seen: seq<Addition>, top: set<real>, k: real)
    requires k in top
    ensures Rows(CustomersOf(seen, k), IntCast(k)) ==
      ByKey(seen, (a: Addition) => a.1, (a: Addition) => if a.1 in top then [(a.0, IntCast(a.1))] else [])(k)
  {
    hide IntCast;
    if seen != [] {
      RowsOfCustomers(seen[..|seen| - 1], top, k);
    }
  }

  function RowFor(value: int): string -> seq<Record> {
    (id: string) => [(id, value)]
  }

  lemma {:induction false} RowsAreFlat(ids: seq<string>, value: int)
    ensures Rows(ids, value) == Flat(ids, RowFor(value))
  {
    if ids != [] {
      RowsAreFlat(ids[..|ids| - 1], value);
      RowsSnoc(ids[..|ids| - 1], ids[|ids| - 1], value);
      assert ids == ids[..|ids| - 1] + [ids[|ids| - 1]];
    }
  }

  lemma RowsPermuted(a: seq<string>, b: seq<string>, value: int)
    requires multiset(a) == multiset(b)
    ensures multiset(Rows(a, value)) == multiset(Rows(b, value))
  {
    hide Flat, Rows;
    RowsAreFlat(a, value);
    RowsAreFlat(b, value);
    FlatPermuted(a, b, RowFor(value));
  }

  lemma RecordsAre(seen: seq<Addition>, k: real)
    ensures forall r | r in RecordsOf(seen)(k) :: r.1 == IntCast(k)
    ensures forall i, j | 0 <= i < j < |RecordsOf(seen)(k)| :: StrLe(RecordsOf(seen)(k)[i].0, RecordsOf(seen)(k)[j].0)
  {
    hide StrLe, TotalOrder, IntCast;
    StrLeOrders();
  }

  lemma {:induction false} RecordsInOrder(keys: seq<real>, top: set<real>, seen: seq<Addition>)
    requires (forall i, j | 0 <= i < j < |keys| :: keys[i] > keys[j]) && forall k | k in keys :: k in top
    ensures var out := Flat(keys, RecordsOf(seen));
            && (forall i, j | 0 <= i < j < |out| :: out[i].1 >= out[j].1)
            && ((forall x, y | x in top && y in top && IntCast(x) == IntCast(y) :: x == y) ==>
                forall i, j | 0 <= i < j < |out| && out[i].1 == out[j].1 :: StrLe(out[i].0, out[j].0))
  {
    hide StrLe, IntCast, RecordsOf;
    if keys != [] {
      var front, last := keys[..|keys| - 1], keys[|keys| - 1];
      assert keys == front + [last];
      RecordsInOrder(front, top, seen);
      var out, row := Flat(front, RecordsOf(seen)), RecordsOf(seen)(last);
      RecordsAre(seen, last);
      assert last in keys;
      forall i | 0 <= i < |out|
        ensures out[i].1 >= IntCast(last)
        ensures (forall x, y | x in top && y in top && IntCast(x) == IntCast(y) :: x == y) ==> out[i].1 != IntCast(last)
      {
        FlatMember(front, RecordsOf(seen), out[i]);
        var k :| 0 <= k < |front| && out[i] in RecordsOf(seen)(front[k]);
        RecordsAre(seen, front[k]);
        assert front[k] in keys && keys[k] > keys[|keys| - 1];
        IntCastKeepsOrder(last, front[k]);
      }
      assert Flat(keys, RecordsOf(seen)) == out + row;
    }
  }

  lemma TopSize(n: nat, s: set<real>, top: set<real>)
    requires IsTop(n, s, top)
    ensures |top| <= n
  {
  }

  lemma NewOnly(m: map<real, seq<string>>, gone: set<real>, amount: real, list: seq<string>)
    ensures var m' := (m - gone)[amount := list];
            m'[amount] == list && forall k | k in m' && k != amount :: k in m && m'[k] == m[k]
  {
  }

  class Tracker {
    const n: nat
    var topN: map<real, seq<string>>
    var pq: multiset<real>
    // every call of add, and how many there had been at the last call of get
    ghost var seen: seq<Addition>
    ghost var gotAt: nat

    // The map has exactly the n largest amounts, each with all its customers: those added before
    // the last get in sorted order, because get sorts the lists in place, and then the others as
    // they came.  The heap has the same amounts as the map.
    ghost predicate Valid()
      reads this
    {
      && n >= 1 && gotAt <= |seen|
      && Holds(n, Contents(topN, pq), seen, gotAt)
    }

    constructor (n: nat)
      requires n >= 1
      ensures Valid() && this.n == n && seen == [] && gotAt == 0
    {
      this.n := n;
      topN, pq, seen, gotAt := map[], multiset{}, [], 0;
    }

    method Add(custId: string, amount: real) returns (kept: bool)
      requires Valid()
      modifies this
      ensures Valid() && seen == old(seen) + [(custId, amount)] && gotAt == old(gotAt)
      ensures kept <==> amount in topN
      ensures kept ==> topN[amount] == (if amount in old(topN) then old(topN)[amount] else []) + [custId]
      ensures forall k | k in topN && k != amount :: k in old(topN) && topN[k] == old(topN)[k]
    {
      hide Holds, IsLeast;
      ghost var before := Contents(topN, pq);
      seen := seen + [(custId, amount)];
      InBoth(n, before, old(seen), gotAt);
      if amount in topN {
        AddsToList(n, before, old(seen), gotAt, custId, amount);
        topN := topN[amount := topN[amount] + [custId]];
        return true;
      }
      ghost var gone: set<real> := {};
      ghost var prior := topN;
      if |pq| == n {
        var minKey := Peek(pq, topN.Keys);
        if amount < minKey {
          Rejects(n, before, old(seen), gotAt, custId, amount, minKey);
          return false;
        }
        gone := {minKey};
        assert multiset(gone) == multiset{minKey};
        pq := pq - multiset{minKey};
        topN := topN - {minKey};
      }
      assert topN == prior - gone && pq == before.pq - multiset(gone);
      TakesIn(n, before, old(seen), gotAt, custId, amount, gone);
      NewOnly(prior, gone, amount, [custId]);
      topN := topN[amount := [custId]];
      pq := pq + multiset{amount};
      kept := true;
    }

    // The amounts in descending order; the heap gives them in an order of its own.
    method GetSortedKeys() returns (keys: seq<real>)
      requires Valid()
      ensures Ranks(keys, topN.Keys)
    {
      keys := [];
      var rest := pq;
      while |rest| > 0
        invariant multiset(keys) + rest == pq
        decreases |rest|
      {
        var k := Pick(rest);
        rest := rest - multiset{k};
        keys := keys + [k];
      }
      assert multiset(keys) == multiset(topN.Keys);
      RealGeOrders();
      keys := Sort(keys, RealGe);
      RanksOnce(keys, topN.Keys);
    }

    // One record for each customer of each kept amount: amounts from the largest down, and the
    // customers of one amount in order.
    method Get() returns (out: seq<Record>, ghost keys: seq<real>)
      requires Valid()
      modifies this
      ensures Valid() && seen == old(seen) && gotAt == |seen| && topN.Keys == old(topN.Keys)
      ensures Ranks(keys, topN.Keys) && out == Flat(keys, RecordsOf(seen))
    {
      hide Holds, Sort, CustomersOf, TotalOrder, StrLe, Flat;
      StrLeOrders();
      var sortedKeys := GetSortedKeys();
      keys := sortedKeys;
      out := [];
      FlatNothing([], RecordsOf(seen));
      ghost var before := topN;
      RanksMembers(keys, topN.Keys);
      for i := 0 to |sortedKeys|
        invariant pq == old(pq) && seen == old(seen) && gotAt == old(gotAt) && topN.Keys == before.Keys
        invariant forall j | 0 <= j < |keys| :: keys[j] in topN
        invariant forall j | 0 <= j < i :: topN[keys[j]] == Sort(CustomersOf(seen, keys[j]), StrLe)
        invariant forall j | i <= j < |keys| :: topN[keys[j]] == before[keys[j]]
        invariant out == Flat(keys[..i], RecordsOf(seen))
      {
        var d := sortedKeys[i];
        assert d in topN.Keys;
        SortOfList(n, Contents(before, pq), seen, gotAt, d);
        var custIds := Sort(topN[d], StrLe);
        topN := topN[d := custIds];
        out := AppendRows(out, custIds, IntCast(d));
        assert keys[..i + 1] == keys[..i] + [d];
        FlatSnoc(keys[..i], d, RecordsOf(seen));
      }
      assert keys[..|keys|] == keys;
      gotAt := |seen|;
      AllSorted(n, Contents(before, pq), topN, seen, old(gotAt), keys);
    }
  }

  lemma SortOfList(n: nat, c: Contents, seen: seq<Addition>, gotAt: nat, d: real)
    requires gotAt <= |seen| && Holds(n, c, seen, gotAt) && d in c.topN
    ensures TotalOrder(StrLe) && Sort(c.topN[d], StrLe) == Sort(CustomersOf(seen, d), StrLe)
  {
    hide IsTop, Sort, StrLe, TotalOrder;
    StrLeOrders();
    assert seen == seen[..gotAt] + seen[gotAt..];
    FlatConcat(seen[..gotAt], seen[gotAt..], OfAmount(d));
    SortIgnoresOrder(c.topN[d], CustomersOf(seen, d), StrLe);
  }

  lemma AllSorted(n: nat, c: Contents, m: map<real, seq<string>>, seen: seq<Addition>, gotAt: nat, keys: seq<real>)
    requires TotalOrder(StrLe) && gotAt <= |seen| && Holds(n, c, seen, gotAt)
    requires m.Keys == c.topN.Keys && Ranks(keys, m.Keys)
    requires forall j | 0 <= j < |keys| :: keys[j] in m && m[keys[j]] == Sort(CustomersOf(seen, keys[j]), StrLe)
    ensures Holds(n, Contents(m, c.pq), seen, |seen|)
  {
    hide IsTop, Sort, StrLe, TotalOrder;
    assert seen[..|seen|] == seen && seen[|seen|..] == [];
    forall k | k in m
      ensures m[k] == ListOf(seen, |seen|, k)
    {
      assert k in keys;
    }
  }

  lemma InBoth(n: nat, c: Contents, seen: seq<Addition>, gotAt: nat)
    requires gotAt <= |seen| && Holds(n, c, seen, gotAt)
    ensures c.pq == multiset(c.topN.Keys) && |c.pq| == |c.topN.Keys|
  {
  }
}
