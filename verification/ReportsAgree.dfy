/**
 The streaming tracker and the batch tree give the same report: when every customer has one integer
 amount, the N largest amounts with their customers come out as the same sequence of records.
 */
module ReportsAgree {
  import opened Flattening
  import opened Reports
  import opened Sorting
  import Batch = OrderedHashMap
  import Streaming = TopTransactions

  type Entry = (string, int)

  // The entries of a map, in any order.
  ghost predicate Lists(entries: seq<Entry>, original: map<string, int>) {
    && NoRepeats(entries)
    && forall id, v :: (id, v) in entries <==> id in original && original[id] == v
  }

  // The amounts as the tracker gets them.
  function Additions(entries: seq<Entry>): seq<Streaming.Addition> {
    seq(|entries|, i requires 0 <= i < |entries| => (entries[i].0, entries[i].1 as real))
  }

  ghost predicate IntRange(v: int) { -0x8000_0000 <= v <= 0x7fff_ffff }

  lemma IntCastExact(v: int)
    requires IntRange(v)
    ensures Streaming.IntCast(v as real) == v
  {
    var d := v as real;
    assert d.Floor == v && (-d).Floor == -v;
  }

  // ---------- the customers of one amount ----------

  lemma {:induction false} CustomerCount(entries: seq<Entry>, v: int, id: string)
    ensures multiset(Streaming.CustomersOf(Additions(entries), v as real))[id] == multiset(entries)[(id, v)]
  {
    hide Flat;
    var f := Streaming.OfAmount(v as real);
    if entries == [] {
      FlatNothing(Additions(entries), f);
    } else {
      var front, last := entries[..|entries| - 1], entries[|entries| - 1];
      var a := (last.0, last.1 as real);
      CustomerCount(front, v, id);
      assert entries == front + [last];
      assert Additions(entries) == Additions(front) + [a];
      FlatSnoc(Additions(front), a, f);
      assert f(a) == if last.1 == v then [last.0] else [];
    }
  }

  lemma SameCustomers(original: map<string, int>, entries: seq<Entry>, m: Batch.Tree, v: int)
    requires Lists(entries, original) && Batch.Inverts(original, m) && v in m
    ensures multiset(Streaming.CustomersOf(Additions(entries), v as real)) == multiset(m[v])
  {
    hide Streaming.CustomersOf;
    forall id
      ensures multiset(Streaming.CustomersOf(Additions(entries), v as real))[id] == multiset(m[v])[id]
    {
      CustomerCount(entries, v, id);
      OnceEach(entries, (id, v));
      OnceEach(m[v], id);
    }
  }

  lemma SameRow(original: map<string, int>, entries: seq<Entry>, m: Batch.Tree, v: int)
    requires Lists(entries, original) && Batch.Inverts(original, m) && v in m && IntRange(v)
    ensures Streaming.RecordsOf(Additions(entries))(v as real) == Batch.RowOf(m)(v)
  {
    hide Streaming.CustomersOf, Sort, StrLe, TotalOrder, Lists, Streaming.IntCast;
    StrLeOrders();
    SameCustomers(original, entries, m, v);
    SortIgnoresOrder(Streaming.CustomersOf(Additions(entries), v as real), m[v], StrLe);
    IntCastExact(v);
  }

  // ---------- the amounts ----------

  function Reals(keys: seq<int>): seq<real> {
    seq(|keys|, i requires 0 <= i < |keys| => keys[i] as real)
  }

  ghost function SetOf<T>(x: seq<T>): set<T> { set k | k in x }

  lemma {:induction false} SizeOfSet<T>(x: seq<T>)
    requires NoRepeats(x)
    ensures |SetOf(x)| == |x|
  {
    if x != [] {
      var front, last := x[..|x| - 1], x[|x| - 1];
      assert x == front + [last];
      SizeOfSet(front);
      assert SetOf(x) == SetOf(front) + {last};
      assert last !in front;
    } else {
      assert SetOf(x) == {};
    }
  }

  lemma RealsRank(keys: seq<int>, s: set<int>)
    requires Batch.Ranks(keys, s, true)
    ensures Streaming.Ranks(Reals(keys), SetOf(Reals(keys)))
    ensures |SetOf(Reals(keys))| == |keys|
  {
    assert forall i, j | 0 <= i < j < |keys| :: Batch.Before(true, keys[i], keys[j]);
    SizeOfSet(Reals(keys));
  }

  // The amounts seen are the numbers of the tree.
  lemma AmountListed(original: map<string, int>, entries: seq<Entry>, m: Batch.Tree, keys: seq<int>, b: Streaming.Addition)
    requires Lists(entries, original) && Batch.Inverts(original, m) && Batch.Ranks(keys, m.Keys, true)
    requires b in Additions(entries)
    ensures b.1 in SetOf(Reals(keys))
  {
    var i :| 0 <= i < |entries| && Additions(entries)[i] == b;
    assert entries[i] in entries;
    assert (entries[i].0, entries[i].1) in entries;
    assert entries[i].1 in keys;
    var j :| 0 <= j < |keys| && keys[j] == entries[i].1;
    assert Reals(keys)[j] == b.1;
  }

  lemma AmountsAreKeys(original: map<string, int>, entries: seq<Entry>, m: Batch.Tree)
    requires Lists(entries, original) && Batch.Inverts(original, m)
    ensures Streaming.Amounts(Additions(entries)) == SetOf(Reals(Batch.Order(m.Keys, true)))
  {
    var keys := Batch.Order(m.Keys, true);
    forall a | a in Streaming.Amounts(Additions(entries))
      ensures a in SetOf(Reals(keys))
    {
      var b :| b in Additions(entries) && b.1 == a;
      AmountListed(original, entries, m, keys, b);
    }
    forall a | a in SetOf(Reals(keys))
      ensures a in Streaming.Amounts(Additions(entries))
    {
      var j :| 0 <= j < |keys| && Reals(keys)[j] == a;
      var v := keys[j];
      assert v in keys;
      assert m[v][0] in m[v];
      assert (m[v][0], v) in entries;
      var i :| 0 <= i < |entries| && entries[i] == (m[v][0], v);
      assert Additions(entries)[i] in Additions(entries);
    }
  }

  // The first n numbers of the tree are the n largest amounts.
  lemma FirstAreTop(m: Batch.Tree, n: nat)
    ensures Streaming.IsTop(n, SetOf(Reals(Batch.Order(m.Keys, true))), SetOf(Reals(Batch.Taken(m, true, n))))
  {
    var keys, taken := Batch.Order(m.Keys, true), Batch.Taken(m, true, n);
    assert |keys| == |m.Keys| == |m|;
    RealsRank(keys, m.Keys);
    TakenRanks(m, n);
    RealsRank(taken, SetOf(taken));
    var all, top := SetOf(Reals(keys)), SetOf(Reals(taken));
    forall k | k in top
      ensures k in all
    {
      var i :| 0 <= i < |taken| && Reals(taken)[i] == k;
      assert Reals(keys)[i] == k;
    }
    forall j | 0 <= j < |taken|
      ensures Reals(keys)[j] in top
    {
      assert Reals(taken)[j] == Reals(keys)[j];
    }
    forall k, x | k in top && x in all && x !in top
      ensures x < k
    {
      var i :| 0 <= i < |taken| && Reals(taken)[i] == k;
      var j :| 0 <= j < |keys| && Reals(keys)[j] == x;
      assert j >= |taken|;
      assert Batch.Before(true, keys[i], keys[j]);
    }
  }

  lemma TakenRanks(m: Batch.Tree, n: nat)
    ensures Batch.Ranks(Batch.Taken(m, true, n), SetOf(Batch.Taken(m, true, n)), true)
  {
  }

  lemma RankingUnique(a: seq<real>, b: seq<real>, s: set<real>)
    requires Streaming.Ranks(a, s) && Streaming.Ranks(b, s)
    ensures a == b
  {
    forall k
      ensures multiset(a)[k] == multiset(b)[k]
    {
      OnceEach(a, k);
      OnceEach(b, k);
    }
    Streaming.RealGeOrders();
    SortedUnique(a, b, Streaming.RealGe);
  }

  // ---------- the reports ----------

  lemma ReportsSame(original: map<string, int>, entries: seq<Entry>, m: Batch.Tree, n: nat, top: set<real>, keys: seq<real>)
    requires Lists(entries, original) && Batch.Inverts(original, m)
    requires forall id | id in original :: IntRange(original[id])
    requires Streaming.IsTop(n, Streaming.Amounts(Additions(entries)), top) && Streaming.Ranks(keys, top)
    ensures Flat(keys, Streaming.RecordsOf(Additions(entries))) == Batch.Out(m, true, n)
  {
    hide Flat, Streaming.RecordsOf, Batch.RowOf, Batch.Order, Streaming.IsTop, Streaming.Ranks;
    var taken := Batch.Taken(m, true, n);
    AmountsAreKeys(original, entries, m);
    FirstAreTop(m, n);
    Streaming.TopIsUnique(n, Streaming.Amounts(Additions(entries)), top, SetOf(Reals(taken)));
    TakenRanks(m, n);
    RealsRank(taken, SetOf(taken));
    RankingUnique(keys, Reals(taken), top);
    Batch.TakenMembers(m, true, n);
    forall i | 0 <= i < |taken|
      ensures Streaming.RecordsOf(Additions(entries))(keys[i]) == Batch.RowOf(m)(taken[i])
    {
      assert taken[i] in taken;
      NumberInRange(original, m, taken[i]);
      SameRow(original, entries, m, taken[i]);
    }
    FlatPairwise(keys, Streaming.RecordsOf(Additions(entries)), taken, Batch.RowOf(m));
  }

  lemma NumberInRange(original: map<string, int>, m: Batch.Tree, v: int)
    requires Batch.Inverts(original, m) && v in m
    requires forall id | id in original :: IntRange(original[id])
    ensures IntRange(v)
  {
    assert m[v][0] in m[v];
    assert original[m[v][0]] == v;
  }

  // Every entry goes to the tracker, in an order that is not specified.
  method Feed(original: map<string, int>, n: nat) returns (tracker: Streaming.Tracker, ghost entries: seq<Entry>)
    requires n >= 1
    ensures fresh(tracker) && tracker.Valid() && tracker.n == n
    ensures tracker.seen == Additions(entries) && Lists(entries, original)
  {
    hide Lists, Streaming.Holds;
    tracker := new Streaming.Tracker(n);
    var left := original.Keys;
    entries := [];
    ListsNothing(original);
    while left != {}
      invariant tracker.Valid() && fresh(tracker) && tracker.n == n && tracker.seen == Additions(entries)
      invariant left <= original.Keys && Lists(entries, original - left)
    {
      var id :| id in left;
      var _ := tracker.Add(id, original[id] as real);
      ListsOneMore(entries, original, left, id);
      entries := entries + [(id, original[id])];
      left := left - {id};
    }
    assert original - left == original;
  }

  lemma ListsNothing(original: map<string, int>)
    ensures Lists([], original - original.Keys)
  {
  }

  // Feeding every entry to a tracker and reporting is building the tree and taking its top.
  method BothReports(original: map<string, int>, n: nat) returns (streaming: seq<Record>, batch: seq<Record>)
    requires n >= 1
    requires forall id | id in original :: IntRange(original[id])
    ensures streaming == batch
  {
    hide Lists, Streaming.Holds, Batch.Inverts, Batch.Out, Batch.Rest;
    var tree := new Batch.OrderedMap(original);
    ghost var m := tree.sorted;
    batch := tree.GetTop(n);
    ghost var entries, keys;
    var tracker;
    tracker, entries := Feed(original, n);
    streaming, keys := tracker.Get();
    TrackerTop(n, tracker.topN, tracker.pq, tracker.seen, tracker.gotAt);
    ReportsSame(original, entries, m, n, tracker.topN.Keys, keys);
  }

  lemma TrackerTop(n: nat, topN: map<real, seq<string>>, pq: multiset<real>, seen: seq<Streaming.Addition>, gotAt: nat)
    requires gotAt <= |seen| && Streaming.Holds(n, Streaming.Contents(topN, pq), seen, gotAt)
    ensures Streaming.IsTop(n, Streaming.Amounts(seen), topN.Keys)
  {
  }

  lemma NoRepeatsSnoc<T>(x: seq<T>, a: T)
    requires NoRepeats(x) && a !in x
    ensures NoRepeats(x + [a])
  {
  }

  lemma ListsOneMore(entries: seq<Entry>, original: map<string, int>, left: set<string>, id: string)
    requires Lists(entries, original - left) && id in left && left <= original.Keys
    ensures Lists(entries + [(id, original[id])], original - (left - {id}))
    ensures Additions(entries + [(id, original[id])]) == Additions(entries) + [(id, original[id] as real)]
  {
    assert forall e :: e in entries + [(id, original[id])] <==> e in entries || e == (id, original[id]);
    var v := original[id];
    assert id !in original - left;
    assert (id, v) in entries ==> id in original - left;
    NoRepeatsSnoc(entries, (id, original[id]));
  }
}
