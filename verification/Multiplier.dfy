/**
 Sparse matrix multiplication on the map-reduce engine: entries are sent to every cell of the
 product that they can touch, and the reducer sorts a cell's values and multiplies neighbours.
 The dimension, 5 in the program, is a parameter.
 */
module Multiplier {
  import opened Flattening
  import opened Sorting
  import opened MapReduce

  datatype Entry = Entry(matrix: string, row: int, col: int, value: int)

  type Cell = (int, int)
  // inner index and value
  type Factor = (int, int)
  type Product = (int, int, int)

  // ---------- the job ----------

  function MapEntry(dim: nat): Entry -> seq<(Cell, Factor)> {
    (x: Entry) =>
      if x.matrix == "a" then seq(dim, i => ((x.row, i), (x.col, x.value)))
      else if x.matrix == "b" then seq(dim, i => ((i, x.col), (x.row, x.value)))
      else []
  }

  method Mapper(mr: Engine<Cell, Factor, Product>, dim: nat, record: Entry)
    requires mr.Valid()
    modifies mr
    ensures mr.Valid() && mr.result == old(mr.result)
    ensures mr.emitted == old(mr.emitted) + MapEntry(dim)(record)
  {
    if record.matrix == "a" {
      for i := 0 to dim
        invariant mr.Valid() && mr.result == old(mr.result)
        invariant mr.emitted == old(mr.emitted) + MapEntry(dim)(record)[..i]
      {
        mr.EmitIntermediate((record.row, i), (record.col, record.value));
      }
    } else if record.matrix == "b" {
      for i := 0 to dim
        invariant mr.Valid() && mr.result == old(mr.result)
        invariant mr.emitted == old(mr.emitted) + MapEntry(dim)(record)[..i]
      {
        mr.EmitIntermediate((i, record.col), (record.row, record.value));
      }
    }
  }

  // Pairs are sorted by index and then by value.
  predicate PairLe(x: Factor, y: Factor) { x.0 < y.0 || (x.0 == y.0 && x.1 <= y.1) }

  lemma PairLeOrders()
    ensures TotalOrder(PairLe)
  {
  }

  // The products of neighbours with the same index.
  function AdjacentSum(s: seq<Factor>): int {
    if |s| <= 1 then 0
    else
      var t, last := s[|s| - 1], s[|s| - 2];
      AdjacentSum(s[..|s| - 1]) + if t.0 == last.0 then last.1 * t.1 else 0
  }

  function Total(values: seq<Factor>): int {
    PairLeOrders();
    AdjacentSum(Sort(values, PairLe))
  }

  function ReduceCell(): (Cell, seq<Factor>) -> seq<Product> {
    (key: Cell, values: seq<Factor>) => [(key.0, key.1, Total(values))]
  }

  method Reducer(mr: Engine<Cell, Factor, Product>, key: Cell, values: seq<Factor>)
    requires mr.Valid()
    modifies mr
    ensures mr.Valid() && mr.emitted == old(mr.emitted)
    ensures mr.result == old(mr.result) + ReduceCell()(key, values)
  {
    hide TotalOrder, Sorted, PairLe;
    PairLeOrders();
    var sorted := Sort(values, PairLe);
    var last, total := (-1, 0), 0;
    for i := 0 to |sorted|
      invariant last == if i == 0 then (-1, 0) else sorted[i - 1]
      invariant total == AdjacentSum(sorted[..i])
    {
      var t := sorted[i];
      assert sorted[..i + 1][..i] == sorted[..i];
      if t.0 == last.0 {
        total := total + last.1 * t.1;
      }
      last := t;
    }
    assert sorted[..|sorted|] == sorted;
    mr.Emit((key.0, key.1, total));
  }

  // ---------- what it should compute ----------

  function AtCell(matrix: string, row: int, col: int): Entry -> seq<int> {
    (x: Entry) => if x.matrix == matrix && x.row == row && x.col == col then [x.value] else []
  }

  // The values given for one position of a matrix.
  function Given(data: seq<Entry>, matrix: string, row: int, col: int): seq<int> {
    Flat(data, AtCell(matrix, row, col))
  }

  // An element of a sparse matrix: positions that are not given are zero.
  function At(data: seq<Entry>, matrix: string, row: int, col: int): int {
    var g := Given(data, matrix, row, col);
    if g == [] then 0 else g[0]
  }

  // An entry that is the only one at its position is the element there, and the element at a
  // position without an entry is 0.
  lemma AtPlainly(data: seq<Entry>, matrix: string, row: int, col: int)
    ensures forall n | 0 <= n < |data| && data[n].matrix == matrix && data[n].row == row && data[n].col == col &&
              (forall m | 0 <= m < |data| && m != n ::
                 data[m].matrix != matrix || data[m].row != row || data[m].col != col) ::
              At(data, matrix, row, col) == data[n].value
    ensures (forall n | 0 <= n < |data| :: data[n].matrix != matrix || data[n].row != row || data[n].col != col) ==>
              At(data, matrix, row, col) == 0
  {
    hide Flat;
    var at := AtCell(matrix, row, col);
    if forall n | 0 <= n < |data| :: data[n].matrix != matrix || data[n].row != row || data[n].col != col {
      FlatNothing(data, at);
    }
    forall n | 0 <= n < |data| && data[n].matrix == matrix && data[n].row == row && data[n].col == col &&
        (forall m | 0 <= m < |data| && m != n ::
           data[m].matrix != matrix || data[m].row != row || data[m].col != col)
      ensures At(data, matrix, row, col) == data[n].value
    {
      assert data == data[..n] + [data[n]] + data[n + 1..];
      FlatConcat(data[..n] + [data[n]], data[n + 1..], at);
      FlatSnoc(data[..n], data[n], at);
      FlatNothing(data[..n], at);
      FlatNothing(data[n + 1..], at);
    }
  }

  // The sum over k from lo to hi - 1 of a[i, k] * b[k, j].
  function Dot(data: seq<Entry>, i: int, j: int, lo: int, hi: int): int
    requires lo <= hi
    decreases hi - lo
  {
    if lo == hi then 0
    else Dot(data, i, j, lo, hi - 1) + At(data, "a", i, hi - 1) * At(data, "b", hi - 1, j)
  }

  // Every position of the two matrices is given at most once.
  ghost predicate Distinct(data: seq<Entry>) {
    forall r, c :: |Given(data, "a", r, c)| <= 1 && |Given(data, "b", r, c)| <= 1
  }

  // All inner indexes lie between lo and hi.
  ghost predicate Covers(data: seq<Entry>, lo: int, hi: int) {
    && lo <= hi
    && forall x | x in data ::
         (x.matrix == "a" ==> lo <= x.col < hi) && (x.matrix == "b" ==> lo <= x.row < hi)
  }

  // ---------- neighbours in a sorted list ----------

  function WithIndex(k: int): Factor -> seq<int> {
    (t: Factor) => if t.0 == k then [t.1] else []
  }

  // The sum of the products of consecutive values.
  function Chain(v: seq<int>): int {
    if |v| <= 1 then 0 else Chain(v[..|v| - 1]) + v[|v| - 2] * v[|v| - 1]
  }

  lemma ChainSnoc(v: seq<int>, x: int)
    ensures Chain(v + [x]) == Chain(v) + if v == [] then 0 else v[|v| - 1] * x
  {
    assert (v + [x])[..|v|] == v;
  }

  // The sum over k of the chains of the values with index k.
  function ChainSum(s: seq<Factor>, lo: int, hi: int): int
    requires lo <= hi
    decreases hi - lo
  {
    if lo == hi then 0 else ChainSum(s, lo, hi - 1) + Chain(Flat(s, WithIndex(hi - 1)))
  }

  lemma ChainSumStep(s: seq<Factor>, lo: int, hi: int)
    requires lo < hi
    ensures ChainSum(s, lo, hi) == ChainSum(s, lo, hi - 1) + Chain(Flat(s, WithIndex(hi - 1)))
  {
  }

  lemma WithIndexSnoc(s: seq<Factor>, t: Factor, k: int)
    ensures Flat(s + [t], WithIndex(k)) ==
              if t.0 == k then Flat(s, WithIndex(k)) + [t.1] else Flat(s, WithIndex(k))
  {
    FlatSnoc(s, t, WithIndex(k));
  }

  lemma {:induction false} ChainSumSnoc(s: seq<Factor>, t: Factor, lo: int, hi: int)
    requires lo <= hi
    ensures ChainSum(s + [t], lo, hi) == ChainSum(s, lo, hi) +
              if lo <= t.0 < hi
              then Chain(Flat(s, WithIndex(t.0)) + [t.1]) - Chain(Flat(s, WithIndex(t.0)))
              else 0
    decreases hi - lo
  {
    if lo < hi {
      hide Flat, Chain, ChainSum, WithIndex;
      ChainSumSnoc(s, t, lo, hi - 1);
      ChainSumStep(s, lo, hi);
      ChainSumStep(s + [t], lo, hi);
      WithIndexSnoc(s, t, hi - 1);
    }
  }

  lemma AdjacentSnoc(s: seq<Factor>, t: Factor)
    ensures AdjacentSum(s + [t]) == AdjacentSum(s) +
              if s != [] && t.0 == s[|s| - 1].0 then s[|s| - 1].1 * t.1 else 0
  {
    assert (s + [t])[..|s|] == s;
  }

  // What one more factor adds at the end of a sorted list.
  lemma NextInChain(s: seq<Factor>, t: Factor)
    requires Sorted(s + [t], PairLe)
    ensures var v := Flat(s, WithIndex(t.0));
            AdjacentSum(s + [t]) - AdjacentSum(s) == Chain(v + [t.1]) - Chain(v)
  {
    hide Flat, Chain, WithIndex, AdjacentSum, PairLe, Sorted;
    NotAbove(s, t);
    AdjacentSnoc(s, t);
    LastWithIndex(s, t.0);
    ChainSnoc(Flat(s, WithIndex(t.0)), t.1);
  }

  // In a sorted list the equal neighbours make up, index by index, the chains of the values.
  lemma {:induction false} NeighboursAreChains(s: seq<Factor>, lo: int, hi: int)
    requires lo <= hi && Sorted(s, PairLe)
    requires forall i | 0 <= i < |s| :: lo <= s[i].0 < hi
    ensures AdjacentSum(s) == ChainSum(s, lo, hi)
  {
    if s == [] {
      NoChains(lo, hi);
    } else {
      hide Flat, Chain, ChainSum, WithIndex, AdjacentSum, PairLe, Sorted;
      var s0, t := s[..|s| - 1], s[|s| - 1];
      assert s == s0 + [t];
      NotAbove(s0, t);
      NeighboursAreChains(s0, lo, hi);
      ChainSumSnoc(s0, t, lo, hi);
      NextInChain(s0, t);
    }
  }

  lemma NotAbove(s: seq<Factor>, t: Factor)
    requires Sorted(s + [t], PairLe)
    ensures Sorted(s, PairLe) && forall i | 0 <= i < |s| :: PairLe(s[i], t) && s[i].0 <= t.0
  {
    var all := s + [t];
    forall i | 0 <= i < |s|
      ensures PairLe(s[i], t)
    {
      assert PairLe(all[i], all[|s|]);
    }
    forall i, j | 0 <= i < j < |s|
      ensures PairLe(s[i], s[j])
    {
      assert PairLe(all[i], all[j]);
    }
  }

  lemma {:induction false} NoChains(lo: int, hi: int)
    requires lo <= hi
    ensures ChainSum([], lo, hi) == 0
    decreases hi - lo
  {
    if lo < hi {
      NoChains(lo, hi - 1);
    }
  }

  predicate IntLe(x: int, y: int) { x <= y }

  lemma IntLeOrders()
    ensures TotalOrder(IntLe)
  {
  }

  // The values with one index are sorted too.
  lemma {:induction false} WithIndexSorted(s: seq<Factor>, k: int)
    requires Sorted(s, PairLe)
    ensures Sorted(Flat(s, WithIndex(k)), IntLe)
  {
    if s != [] {
      var s0, t := s[..|s| - 1], s[|s| - 1];
      assert s == s0 + [t];
      NotAbove(s0, t);
      WithIndexSorted(s0, k);
      var v := Flat(s0, WithIndex(k));
      forall i | 0 <= i < |v|
        ensures t.0 == k ==> v[i] <= t.1
      {
        FlatMember(s0, WithIndex(k), v[i]);
      }
    }
  }

  // When k is not below any index of a sorted list, its values are at the end.
  lemma {:induction false} LastWithIndex(s: seq<Factor>, k: int)
    requires Sorted(s, PairLe) && forall i | 0 <= i < |s| :: s[i].0 <= k
    ensures var v := Flat(s, WithIndex(k));
            if s != [] && s[|s| - 1].0 == k then v != [] && v[|v| - 1] == s[|s| - 1].1 else v == []
  {
    if s != [] && s[|s| - 1].0 != k {
      forall i | 0 <= i < |s|
        ensures s[i].0 != k
      {
        assert i < |s| - 1 ==> PairLe(s[i], s[|s| - 1]);
      }
      FlatNothing(s, WithIndex(k));
    }
  }

  // ---------- what reaches a cell ----------

  // The factors that one entry sends to cell (i, j).
  function SentTo(dim: nat, i: int, j: int): Entry -> seq<Factor> {
    (x: Entry) =>
      if x.matrix == "a" && x.row == i && 0 <= j < dim then [(x.col, x.value)]
      else if x.matrix == "b" && x.col == j && 0 <= i < dim then [(x.row, x.value)]
      else []
  }

  lemma MapEntrySends(dim: nat, i: int, j: int, x: Entry)
    ensures Flat(MapEntry(dim)(x), PickKey<Cell, Factor>((i, j))) == SentTo(dim, i, j)(x)
  {
    var out := MapEntry(dim)(x);
    var pick := PickKey<Cell, Factor>((i, j));
    var hit := ((i, j), if x.matrix == "a" then (x.col, x.value) else (x.row, x.value));
    if SentTo(dim, i, j)(x) == [] {
      FlatNothing(out, pick);
    } else {
      assert out[if x.matrix == "a" then j else i] == hit;
      FlatOnly(out, hit, pick);
    }
  }

  lemma CellFactors(data: seq<Entry>, dim: nat, i: int, j: int)
    ensures ValuesOf(Flat(data, MapEntry(dim)), (i, j)) == Flat(data, SentTo(dim, i, j))
  {
    hide Flat;
    var pick := PickKey<Cell, Factor>((i, j));
    FlatFlat(data, MapEntry(dim), pick);
    forall k | 0 <= k < |data|
      ensures Then(MapEntry(dim), pick)(data[k]) == SentTo(dim, i, j)(data[k])
    {
      MapEntrySends(dim, i, j, data[k]);
    }
    FlatEqual(data, Then(MapEntry(dim), pick), SentTo(dim, i, j));
  }

  function Nothing(): Entry -> seq<int> { (x: Entry) => [] }

  lemma PairSent(dim: nat, i: int, j: int, k: int, x: Entry)
    ensures Flat(SentTo(dim, i, j)(x), WithIndex(k)) ==
              (if 0 <= j < dim then AtCell("a", i, k)(x) else []) + if 0 <= i < dim then AtCell("b", k, j)(x) else []
  {
    assert "a" != "b" by {
      assert "a"[0] != "b"[0];
    }
    OneOrNone(SentTo(dim, i, j)(x), WithIndex(k));
  }

  // What reaches a cell with inner index k: the values given for a[i, k] and for b[k, j].
  function Met(data: seq<Entry>, dim: nat, i: int, j: int, k: int): seq<int> {
    (if 0 <= j < dim then Given(data, "a", i, k) else []) + if 0 <= i < dim then Given(data, "b", k, j) else []
  }

  lemma CellPair(data: seq<Entry>, dim: nat, i: int, j: int, k: int)
    ensures multiset(Flat(Flat(data, SentTo(dim, i, j)), WithIndex(k))) == multiset(Met(data, dim, i, j, k))
  {
    hide Flat;
    var f := if 0 <= j < dim then AtCell("a", i, k) else Nothing();
    var g := if 0 <= i < dim then AtCell("b", k, j) else Nothing();
    var h := Then(SentTo(dim, i, j), WithIndex(k));
    FlatFlat(data, SentTo(dim, i, j), WithIndex(k));
    forall n | 0 <= n < |data|
      ensures h(data[n]) == f(data[n]) + g(data[n])
    {
      PairSent(dim, i, j, k, data[n]);
    }
    FlatSum(data, f, g, h);
    FlatNothing(data, Nothing());
  }

  lemma OneOrNone(v: seq<Factor>, f: Factor -> seq<int>)
    ensures v == [] ==> Flat(v, f) == []
    ensures |v| == 1 ==> Flat(v, f) == f(v[0])
  {
    if |v| == 1 {
      FlatSnoc([], v[0], f);
      assert v == [] + [v[0]];
    }
  }

  // ---------- what every cell gets ----------

  // The values that meet at a cell under inner index k, in the order of the sort.
  function MetSorted(data: seq<Entry>, dim: nat, i: int, j: int, k: int): seq<int> {
    IntLeOrders();
    Sort(Met(data, dim, i, j, k), IntLe)
  }

  // The sum over k of the chains of the values that meet under k.
  function ChainsMet(data: seq<Entry>, dim: nat, i: int, j: int, lo: int, hi: int): int
    requires lo <= hi
    decreases hi - lo
  {
    if lo == hi then 0 else ChainsMet(data, dim, i, j, lo, hi - 1) + Chain(MetSorted(data, dim, i, j, hi - 1))
  }

  // For every input a cell gets, for each inner index, the chain of the values that meet there.
  lemma CellTotalAlways(data: seq<Entry>, dim: nat, i: int, j: int, lo: int, hi: int)
    requires Covers(data, lo, hi)
    ensures Total(ValuesOf(Flat(data, MapEntry(dim)), (i, j))) == ChainsMet(data, dim, i, j, lo, hi)
  {
    hide Flat, Covers, Met, Sorted, PairLe, ChainSum;
    PairLeOrders();
    var factors := Flat(data, SentTo(dim, i, j));
    var s := Sort(factors, PairLe);
    CellFactors(data, dim, i, j);
    forall n | 0 <= n < |s|
      ensures lo <= s[n].0 < hi
    {
      assert s[n] in multiset(factors);
      FactorCovered(data, dim, i, j, lo, hi, s[n]);
    }
    forall k
      ensures Flat(s, WithIndex(k)) == MetSorted(data, dim, i, j, k)
    {
      FlatPermuted(s, factors, WithIndex(k));
      CellPair(data, dim, i, j, k);
      WithIndexSorted(s, k);
      SortedMet(Flat(s, WithIndex(k)), data, dim, i, j, k);
    }
    CoversOrdered(data, lo, hi);
    NeighboursAreChains(s, lo, hi);
    SameChains(s, data, dim, i, j, lo, hi);
  }

  lemma SortedMet(v: seq<int>, data: seq<Entry>, dim: nat, i: int, j: int, k: int)
    requires Sorted(v, IntLe) && multiset(v) == multiset(Met(data, dim, i, j, k))
    ensures v == MetSorted(data, dim, i, j, k)
  {
    hide Met, Sort;
    IntLeOrders();
    SortedUnique(v, MetSorted(data, dim, i, j, k), IntLe);
  }

  lemma {:induction false} SameChains(s: seq<Factor>, data: seq<Entry>, dim: nat, i: int, j: int, lo: int, hi: int)
    requires lo <= hi && forall k :: Flat(s, WithIndex(k)) == MetSorted(data, dim, i, j, k)
    ensures ChainSum(s, lo, hi) == ChainsMet(data, dim, i, j, lo, hi)
    decreases hi - lo
  {
    hide Flat, MetSorted, Chain;
    if lo < hi {
      SameChains(s, data, dim, i, j, lo, hi - 1);
    }
  }

  lemma CoversOrdered(data: seq<Entry>, lo: int, hi: int)
    requires Covers(data, lo, hi)
    ensures lo <= hi
  {
  }

  lemma FactorCovered(data: seq<Entry>, dim: nat, i: int, j: int, lo: int, hi: int, t: Factor)
    requires Covers(data, lo, hi) && t in Flat(data, SentTo(dim, i, j))
    ensures lo <= t.0 < hi
  {
    hide Flat;
    FlatMember(data, SentTo(dim, i, j), t);
    var n :| 0 <= n < |data| && t in SentTo(dim, i, j)(data[n]);
    assert data[n] in data;
  }

  // ---------- the product ----------

  ghost predicate InRange(dim: nat, i: int, j: int) { 0 <= i < dim && 0 <= j < dim }

  // Inside the dimension a cell gets its element of the matrix product, outside it gets 0.
  lemma {:induction false} ChainsAreDot(data: seq<Entry>, dim: nat, i: int, j: int, lo: int, hi: int)
    requires Distinct(data) && lo <= hi
    ensures ChainsMet(data, dim, i, j, lo, hi) == if InRange(dim, i, j) then Dot(data, i, j, lo, hi) else 0
    decreases hi - lo
  {
    hide Flat, Given, Chain, MetSorted, Distinct;
    if lo < hi {
      ChainsAreDot(data, dim, i, j, lo, hi - 1);
      ChainIsProduct(data, dim, i, j, hi - 1);
    }
  }

  lemma ChainIsProduct(data: seq<Entry>, dim: nat, i: int, j: int, k: int)
    requires Distinct(data)
    ensures Chain(MetSorted(data, dim, i, j, k)) ==
              if InRange(dim, i, j) then At(data, "a", i, k) * At(data, "b", k, j) else 0
  {
    hide Given, Sort;
    var a, b, v := Given(data, "a", i, k), Given(data, "b", k, j), MetSorted(data, dim, i, j, k);
    assert |v| == |multiset(v)| == |Met(data, dim, i, j, k)|;
    if InRange(dim, i, j) && |a| == |b| == 1 {
      assert a + b == [a[0], b[0]];
      TwoOf(v, a[0], b[0]);
    }
  }

  lemma TwoOf(v: seq<int>, x: int, y: int)
    requires multiset(v) == multiset([x, y])
    ensures Chain(v) == x * y
  {
    assert |v| == |multiset(v)| == 2;
    assert v == [v[0], v[1]] && v[..1] == [v[0]];
    assert v[0] in multiset(v) && v[1] in multiset(v);
    assert v == [x, y] || v == [y, x];
  }

  // ---------- the whole job ----------

  method Run(dim: nat, data: seq<Entry>) returns (mr: Engine<Cell, Factor, Product>)
    ensures IsOutput(data, MapEntry(dim), ReduceCell(), mr.result)
  {
    hide Flat, IsOutput, Total;
    mr := new Engine<Cell, Factor, Product>();
    ghost var keys := mr.Execute(data, MapEntry(dim), ReduceCell());
    FreshOutput(data, MapEntry(dim), ReduceCell(), keys, mr.emitted, mr.result);
  }

  lemma {:induction false} OnePerCell(keys: seq<Cell>, e: seq<(Cell, Factor)>)
    ensures var r := Flat(keys, Group(e, ReduceCell()));
            && |r| == |keys|
            && forall p | 0 <= p < |r| :: r[p] == (keys[p].0, keys[p].1, Total(ValuesOf(e, keys[p])))
  {
    hide Total, ValuesOf;
    if keys != [] {
      OnePerCell(keys[..|keys| - 1], e);
    }
  }

  // The result is the matrix product: every emitted cell carries its element of the product, no
  // cell is emitted twice, and every cell of the dimension that is not emitted is zero.
  ghost predicate IsProduct(dim: nat, data: seq<Entry>, result: seq<Product>, lo: int, hi: int)
    requires lo <= hi
  {
    && (forall t | t in result :: t.2 == if InRange(dim, t.0, t.1) then Dot(data, t.0, t.1, lo, hi) else 0)
    && (forall p, q | 0 <= p < q < |result| :: (result[p].0, result[p].1) != (result[q].0, result[q].1))
    && (forall i, j | InRange(dim, i, j) && (forall t | t in result :: (t.0, t.1) != (i, j)) ::
          Dot(data, i, j, lo, hi) == 0)
  }

  // For every input: no cell is emitted twice, every emitted cell has the chains that meet there,
  // and no chain meets at a cell that is not emitted.
  lemma ComputesChains(dim: nat, data: seq<Entry>, result: seq<Product>, lo: int, hi: int)
    requires IsOutput(data, MapEntry(dim), ReduceCell(), result) && Covers(data, lo, hi)
    ensures forall t | t in result :: t.2 == ChainsMet(data, dim, t.0, t.1, lo, hi)
    ensures forall p, q | 0 <= p < q < |result| :: (result[p].0, result[p].1) != (result[q].0, result[q].1)
    ensures forall i, j | (forall t | t in result :: (t.0, t.1) != (i, j)) :: ChainsMet(data, dim, i, j, lo, hi) == 0
  {
    hide Flat, Total, ChainsMet, Covers;
    var e := Flat(data, MapEntry(dim));
    var keys :| ListsKeys(keys, e) && result == Flat(keys, Group(e, ReduceCell()));
    OnePerCell(keys, e);
    CoversOrdered(data, lo, hi);
    forall t | t in result
      ensures t.2 == ChainsMet(data, dim, t.0, t.1, lo, hi)
    {
      CellTotalAlways(data, dim, t.0, t.1, lo, hi);
    }
    forall i, j | forall t | t in result :: (t.0, t.1) != (i, j)
      ensures ChainsMet(data, dim, i, j, lo, hi) == 0
    {
      ListedIsEmitted(keys, result, (i, j));
      NothingSent(e, (i, j));
      CellTotalAlways(data, dim, i, j, lo, hi);
    }
  }

  // The job multiplies matrices that give every position at most once.
  lemma ComputesProduct(dim: nat, data: seq<Entry>, result: seq<Product>, lo: int, hi: int)
    requires IsOutput(data, MapEntry(dim), ReduceCell(), result)
    requires Distinct(data) && Covers(data, lo, hi)
    ensures IsProduct(dim, data, result, lo, hi)
  {
    hide IsOutput, Dot, Distinct, Covers, ChainsMet;
    CoversOrdered(data, lo, hi);
    ComputesChains(dim, data, result, lo, hi);
    forall i, j
      ensures ChainsMet(data, dim, i, j, lo, hi) == if InRange(dim, i, j) then Dot(data, i, j, lo, hi) else 0
    {
      ChainsAreDot(data, dim, i, j, lo, hi);
    }
  }

  lemma ListedIsEmitted(keys: seq<Cell>, result: seq<Product>, c: Cell)
    requires |result| == |keys|
    requires forall p | 0 <= p < |result| :: result[p].0 == keys[p].0 && result[p].1 == keys[p].1
    ensures c in keys ==> exists t :: t in result && (t.0, t.1) == c
  {
    if c in keys {
      var p :| 0 <= p < |keys| && keys[p] == c;
      assert result[p] in result;
    }
  }

  lemma NothingSent(e: seq<(Cell, Factor)>, c: Cell)
    requires !Emits(e, c)
    ensures Total(ValuesOf(e, c)) == 0
  {
    FlatNothing(e, PickKey<Cell, Factor>(c));
    PairLeOrders();
  }

  lemma TotalIgnoresOrder(v: seq<Factor>, w: seq<Factor>)
    requires multiset(v) == multiset(w)
    ensures Total(v) == Total(w)
  {
    PairLeOrders();
    SortIgnoresOrder(v, w, PairLe);
  }

  // The product does not depend on the order of the input, nor on that of the dictionary.
  lemma ProductIgnoresOrder(dim: nat, data: seq<Entry>, data': seq<Entry>, result: seq<Product>, result': seq<Product>)
    requires multiset(data) == multiset(data')
    requires IsOutput(data, MapEntry(dim), ReduceCell(), result)
    requires IsOutput(data', MapEntry(dim), ReduceCell(), result')
    ensures multiset(result) == multiset(result')
  {
    hide IsOutput, Total;
    forall k: Cell, v: seq<Factor>, w: seq<Factor> | multiset(v) == multiset(w)
      ensures multiset(ReduceCell()(k, v)) == multiset(ReduceCell()(k, w))
    {
      TotalIgnoresOrder(v, w);
      assert ReduceCell()(k, v) == ReduceCell()(k, w);
    }
    OutputIgnoresOrder(data, data', MapEntry(dim), ReduceCell(), result, result');
  }

  // ---------- when the job is right ----------

  datatype Position = Position(matrix: string, row: int, col: int)

  function WithValues(ps: seq<Position>, vals: seq<int>): seq<Entry>
    requires |ps| == |vals|
  {
    seq(|ps|, n requires 0 <= n < |ps| => Entry(ps[n].matrix, ps[n].row, ps[n].col, vals[n]))
  }

  predicate OfMatrix(p: Position) { p.matrix == "a" || p.matrix == "b" }

  // Some position of one of the two matrices is listed twice.
  ghost predicate ListedTwice(ps: seq<Position>) {
    exists m, n :: 0 <= m < n < |ps| && ps[m] == ps[n] && OfMatrix(ps[m])
  }

  // Whatever values stand at these positions, every output of the job is the product.
  ghost predicate AlwaysRight(dim: nat, ps: seq<Position>) {
    forall vals, result, lo, hi ::
      |vals| == |ps| && IsOutput(WithValues(ps, vals), MapEntry(dim), ReduceCell(), result) &&
      Covers(WithValues(ps, vals), lo, hi) && lo <= hi ==>
      IsProduct(dim, WithValues(ps, vals), result, lo, hi)
  }

  lemma {:induction false} GivenTwice(data: seq<Entry>, matrix: string, row: int, col: int)
    requires |Given(data, matrix, row, col)| >= 2
    ensures exists m, n :: 0 <= m < n < |data| &&
              AtCell(matrix, row, col)(data[m]) != [] && AtCell(matrix, row, col)(data[n]) != []
  {
    var at := AtCell(matrix, row, col);
    var front, last := data[..|data| - 1], data[|data| - 1];
    if at(last) == [] || |Given(front, matrix, row, col)| >= 2 {
      GivenTwice(front, matrix, row, col);
      var m, n :| 0 <= m < n < |front| && at(front[m]) != [] && at(front[n]) != [];
      assert data[m] == front[m] && data[n] == front[n];
    } else {
      var v := Flat(front, at)[0];
      FlatMember(front, at, v);
      var m :| 0 <= m < |front| && v in at(front[m]);
      assert data[m] == front[m];
    }
  }

  lemma GivenTwiceIsListedTwice(ps: seq<Position>, vals: seq<int>, p: Position)
    requires |ps| == |vals| && OfMatrix(p) && |Given(WithValues(ps, vals), p.matrix, p.row, p.col)| >= 2
    ensures ListedTwice(ps)
  {
    var data, at := WithValues(ps, vals), AtCell(p.matrix, p.row, p.col);
    GivenTwice(data, p.matrix, p.row, p.col);
    var m, n :| 0 <= m < n < |data| && at(data[m]) != [] && at(data[n]) != [];
    assert ps[m] == p == ps[n];
  }

  lemma OnceListedIsDistinct(ps: seq<Position>, vals: seq<int>)
    requires |ps| == |vals| && !ListedTwice(ps)
    ensures Distinct(WithValues(ps, vals))
  {
    hide Given, ListedTwice, WithValues;
    forall matrix, r, c | matrix == "a" || matrix == "b"
      ensures |Given(WithValues(ps, vals), matrix, r, c)| <= 1
    {
      if |Given(WithValues(ps, vals), matrix, r, c)| >= 2 {
        GivenTwiceIsListedTwice(ps, vals, Position(matrix, r, c));
      }
    }
  }

  lemma FirstIsEmitted(keys: seq<Cell>, e: seq<(Cell, Factor)>)
    requires ListsKeys(keys, e) && keys != []
    ensures e != []
  {
    assert keys[0] in keys;
  }

  lemma NoCells(data: seq<Entry>, result: seq<Product>, lo: int, hi: int)
    requires IsOutput(data, MapEntry(0), ReduceCell(), result) && lo <= hi
    ensures IsProduct(0, data, result, lo, hi)
  {
    hide Flat, Total;
    var e := Flat(data, MapEntry(0));
    FlatNothing(data, MapEntry(0));
    var keys :| ListsKeys(keys, e) && result == Flat(keys, Group(e, ReduceCell()));
    if keys != [] {
      FirstIsEmitted(keys, e);
    }
    FlatNothing(keys, Group(e, ReduceCell()));
  }

  // The value 1 at one position and 0 everywhere else.
  function OnesAt(ps: seq<Position>, p: Position): (vals: seq<int>)
    ensures |vals| == |ps|
  {
    seq(|ps|, n requires 0 <= n < |ps| => if ps[n] == p then 1 else 0)
  }

  lemma GivenOnes(ps: seq<Position>, p: Position, matrix: string, row: int, col: int)
    ensures forall x | x in Given(WithValues(ps, OnesAt(ps, p)), matrix, row, col) ::
              x == if Position(matrix, row, col) == p then 1 else 0
  {
    var data := WithValues(ps, OnesAt(ps, p));
    forall x | x in Given(data, matrix, row, col)
      ensures x == if Position(matrix, row, col) == p then 1 else 0
    {
      FlatMember(data, AtCell(matrix, row, col), x);
    }
  }

  lemma {:induction false} GivenAtLeastTwo(data: seq<Entry>, matrix: string, row: int, col: int, m: nat, n: nat)
    requires m < n < |data|
    requires AtCell(matrix, row, col)(data[m]) != [] && AtCell(matrix, row, col)(data[n]) != []
    ensures |Given(data, matrix, row, col)| >= 2
  {
    var at := AtCell(matrix, row, col);
    assert data == data[..n] + [data[n]] + data[n + 1..] && data[..n][m] == data[m];
    FlatMember(data[..n], at, data[m].value);
    FlatSnoc(data[..n], data[n], at);
    FlatConcat(data[..n] + [data[n]], data[n + 1..], at);
  }

  predicate ZeroOrOne(v: seq<int>) {
    forall i | 0 <= i < |v| :: v[i] == 0 || v[i] == 1
  }

  lemma {:induction false} ChainOfBits(v: seq<int>)
    requires ZeroOrOne(v)
    ensures Chain(v) >= 0
  {
    if |v| >= 2 {
      ChainOfBits(v[..|v| - 1]);
    }
  }

  lemma OnesAtEnd(v: seq<int>)
    requires Sorted(v, IntLe) && ZeroOrOne(v) && 1 in v
    ensures v[|v| - 1] == 1
  {
    var i :| 0 <= i < |v| && v[i] == 1;
    assert i < |v| - 1 ==> IntLe(v[i], v[|v| - 1]);
  }

  lemma FrontOf(front: seq<int>, y: int)
    requires Sorted(front + [y], IntLe) && ZeroOrOne(front + [y])
    ensures Sorted(front, IntLe) && ZeroOrOne(front)
  {
    var v := front + [y];
    forall i, j | 0 <= i < j < |front|
      ensures IntLe(front[i], front[j])
    {
      assert IntLe(v[i], v[j]);
    }
    forall i | 0 <= i < |front|
      ensures front[i] == v[i]
    {
    }
  }

  lemma ChainOfOnes(front: seq<int>, y: int)
    requires Sorted(front + [y], IntLe) && ZeroOrOne(front + [y]) && multiset(front + [y])[1] >= 2
    ensures Chain(front + [y]) >= 1
  {
    FrontOf(front, y);
    hide Sorted, ZeroOrOne, IntLe, Chain;
    assert 1 in multiset(front + [y]) && 1 in multiset(front);
    OnesAtEnd(front);
    OnesAtEnd(front + [y]);
    ChainOfBits(front);
    ChainSnoc(front, y);
  }

  lemma {:induction false} ChainsPositive(data: seq<Entry>, dim: nat, i: int, j: int, lo: int, hi: int, k0: int)
    requires lo <= k0 < hi && Chain(MetSorted(data, dim, i, j, k0)) >= 1
    requires forall k :: Chain(MetSorted(data, dim, i, j, k)) >= 0
    ensures ChainsMet(data, dim, i, j, lo, hi) >= 1
    decreases hi - lo
  {
    hide Chain, MetSorted;
    if k0 < hi - 1 {
      ChainsPositive(data, dim, i, j, lo, hi - 1, k0);
    } else {
      ChainsNotNegative(data, dim, i, j, lo, hi - 1);
    }
  }

  lemma {:induction false} ChainsNotNegative(data: seq<Entry>, dim: nat, i: int, j: int, lo: int, hi: int)
    requires lo <= hi && forall k :: Chain(MetSorted(data, dim, i, j, k)) >= 0
    ensures ChainsMet(data, dim, i, j, lo, hi) >= 0
    decreases hi - lo
  {
    hide Chain, MetSorted;
    if lo < hi {
      ChainsNotNegative(data, dim, i, j, lo, hi - 1);
    }
  }

  lemma FirstIsIn(v: seq<int>)
    ensures v != [] ==> v[0] in v
  {
  }

  // One matrix is zero, so the product is, whichever of several values is taken for a position.
  lemma {:induction false} ProductIsZero(ps: seq<Position>, p: Position, i: int, j: int, lo: int, hi: int)
    requires lo <= hi && OfMatrix(p)
    ensures Dot(WithValues(ps, OnesAt(ps, p)), i, j, lo, hi) == 0
    decreases hi - lo
  {
    if lo < hi {
      hide Given;
      var data := WithValues(ps, OnesAt(ps, p));
      ProductIsZero(ps, p, i, j, lo, hi - 1);
      assert "a"[0] != "b"[0];
      GivenOnes(ps, p, "a", i, hi - 1);
      GivenOnes(ps, p, "b", hi - 1, j);
      FirstIsIn(Given(data, "a", i, hi - 1));
      FirstIsIn(Given(data, "b", hi - 1, j));
    }
  }

  // The cell that a position listed twice spoils, and the inner index under which it does.
  function SpoiltCell(p: Position): Cell {
    if p.matrix == "a" then (p.row, 0) else (0, p.col)
  }

  function InnerIndex(p: Position): int {
    if p.matrix == "a" then p.col else p.row
  }

  lemma TwoOnes(v: seq<int>)
    requires |v| >= 2 && v[0] == v[1] == 1
    ensures multiset(v)[1] >= 2
  {
    assert v == [1, 1] + v[2..];
    assert multiset([1, 1])[1] == 2;
  }

  lemma MetBits(dim: nat, ps: seq<Position>, p: Position, i: int, j: int, k: int)
    ensures ZeroOrOne(Met(WithValues(ps, OnesAt(ps, p)), dim, i, j, k))
  {
    hide Given;
    var data := WithValues(ps, OnesAt(ps, p));
    GivenOnes(ps, p, "a", i, k);
    GivenOnes(ps, p, "b", k, j);
    var v := Met(data, dim, i, j, k);
    forall n | 0 <= n < |v|
      ensures v[n] == 0 || v[n] == 1
    {
      assert v[n] in Given(data, "a", i, k) || v[n] in Given(data, "b", k, j);
    }
  }

  lemma MetOnes(dim: nat, ps: seq<Position>, p: Position)
    requires dim >= 1 && OfMatrix(p)
    requires |Given(WithValues(ps, OnesAt(ps, p)), p.matrix, p.row, p.col)| >= 2
    ensures multiset(Met(WithValues(ps, OnesAt(ps, p)), dim, SpoiltCell(p).0, SpoiltCell(p).1, InnerIndex(p)))[1] >= 2
  {
    hide Given;
    var data, c, k := WithValues(ps, OnesAt(ps, p)), SpoiltCell(p), InnerIndex(p);
    var g := Given(data, p.matrix, p.row, p.col);
    GivenOnes(ps, p, p.matrix, p.row, p.col);
    assert g[0] in g && g[1] in g && p == Position(p.matrix, p.row, p.col);
    TwoOnes(g);
    var l := if 0 <= c.1 < dim then Given(data, "a", c.0, k) else [];
    var r := if 0 <= c.0 < dim then Given(data, "b", k, c.1) else [];
    assert Met(data, dim, c.0, c.1, k) == l + r;
    CountJoins(l, r);
    if p.matrix == "a" {
      assert g == l;
    } else {
      assert "a"[0] != p.matrix[0];
      assert g == r;
    }
  }

  lemma CountJoins(x: seq<int>, y: seq<int>)
    ensures multiset(x + y)[1] == multiset(x)[1] + multiset(y)[1]
  {
  }

  lemma TwoInFront(v: seq<int>)
    requires multiset(v)[1] >= 2
    ensures v != [] && v == v[..|v| - 1] + [v[|v| - 1]]
  {
    assert 1 in multiset(v);
  }

  lemma SameBits(v: seq<int>, w: seq<int>)
    requires multiset(v) == multiset(w) && ZeroOrOne(w)
    ensures ZeroOrOne(v)
  {
    forall i | 0 <= i < |v|
      ensures v[i] in w
    {
      assert v[i] in multiset(v);
    }
  }

  lemma SpoiltChains(dim: nat, ps: seq<Position>, p: Position, lo: int, hi: int)
    requires dim >= 1 && OfMatrix(p) && lo <= InnerIndex(p) < hi
    requires |Given(WithValues(ps, OnesAt(ps, p)), p.matrix, p.row, p.col)| >= 2
    ensures ChainsMet(WithValues(ps, OnesAt(ps, p)), dim, SpoiltCell(p).0, SpoiltCell(p).1, lo, hi) >= 1
  {
    hide Given, Met, Chain, Sort;
    var data, c := WithValues(ps, OnesAt(ps, p)), SpoiltCell(p);
    forall k
      ensures Chain(MetSorted(data, dim, c.0, c.1, k)) >= if k == InnerIndex(p) then 1 else 0
    {
      MetBits(dim, ps, p, c.0, c.1, k);
      var v := MetSorted(data, dim, c.0, c.1, k);
      SameBits(v, Met(data, dim, c.0, c.1, k));
      ChainOfBits(v);
      if k == InnerIndex(p) {
        MetOnes(dim, ps, p);
        TwoInFront(v);
        ChainOfOnes(v[..|v| - 1], v[|v| - 1]);
      }
    }
    ChainsPositive(data, dim, c.0, c.1, lo, hi, InnerIndex(p));
  }

  lemma {:induction false} CoversExist(data: seq<Entry>) returns (lo: int, hi: int)
    ensures Covers(data, lo, hi)
  {
    lo, hi := 0, 0;
    if data != [] {
      var front, x := data[..|data| - 1], data[|data| - 1];
      assert data == front + [x];
      lo, hi := CoversExist(front);
      var least, most := if x.row < x.col then x.row else x.col, if x.row < x.col then x.col else x.row;
      lo, hi := if least < lo then least else lo, if most >= hi then most + 1 else hi;
    }
  }

  // A position listed twice spoils every output, with 1 at that position and 0 everywhere else.
  lemma RepeatedSpoils(dim: nat, ps: seq<Position>, p: Position, m: nat, n: nat, result: seq<Product>, lo: int, hi: int)
    requires dim >= 1 && m < n < |ps| && ps[m] == ps[n] == p && OfMatrix(p)
    requires IsOutput(WithValues(ps, OnesAt(ps, p)), MapEntry(dim), ReduceCell(), result)
    requires Covers(WithValues(ps, OnesAt(ps, p)), lo, hi) && lo <= hi
    ensures !IsProduct(dim, WithValues(ps, OnesAt(ps, p)), result, lo, hi)
  {
    hide IsOutput, ChainsMet, Dot, Given;
    var data, c := WithValues(ps, OnesAt(ps, p)), SpoiltCell(p);
    GivenAtLeastTwo(data, p.matrix, p.row, p.col, m, n);
    assert data[m] in data;
    SpoiltChains(dim, ps, p, lo, hi);
    ComputesChains(dim, data, result, lo, hi);
    ProductIsZero(ps, p, c.0, c.1, lo, hi);
    var t :| t in result && (t.0, t.1) == c;
  }

  // The job is right for all values at these positions exactly when it computes no cell at all, or
  // no position of the two matrices is listed twice.
  lemma RightExactly(dim: nat, ps: seq<Position>)
    ensures AlwaysRight(dim, ps) <==> dim == 0 || !ListedTwice(ps)
  {
    hide IsOutput, IsProduct, Covers, Distinct, WithValues;
    if dim == 0 || !ListedTwice(ps) {
      forall vals, result, lo, hi |
        |vals| == |ps| && IsOutput(WithValues(ps, vals), MapEntry(dim), ReduceCell(), result) &&
        Covers(WithValues(ps, vals), lo, hi) && lo <= hi
        ensures IsProduct(dim, WithValues(ps, vals), result, lo, hi)
      {
        if dim == 0 {
          NoCells(WithValues(ps, vals), result, lo, hi);
        } else {
          OnceListedIsDistinct(ps, vals);
          ComputesProduct(dim, WithValues(ps, vals), result, lo, hi);
        }
      }
    } else {
      var m, n :| 0 <= m < n < |ps| && ps[m] == ps[n] && OfMatrix(ps[m]);
      var data := WithValues(ps, OnesAt(ps, ps[m]));
      var result := OutputExists(data, MapEntry(dim), ReduceCell());
      var lo, hi := CoversExist(data);
      CoversOrdered(data, lo, hi);
      RepeatedSpoils(dim, ps, ps[m], m, n, result, lo, hi);
    }
  }

  // A position that is given twice spoils its cells: 2 and 3 for a[0, 0] with 5 for b[0, 0] come
  // out as 2 * 3 + 3 * 5, which is neither 10 nor 15 nor 25.
  lemma RepeatedEntries()
    ensures var data := [Entry("a", 0, 0, 2), Entry("a", 0, 0, 3), Entry("b", 0, 0, 5)];
            |Given(data, "a", 0, 0)| == 2 && Total(ValuesOf(Flat(data, MapEntry(1)), (0, 0))) == 21
  {
    var x, y, z := Entry("a", 0, 0, 2), Entry("a", 0, 0, 3), Entry("b", 0, 0, 5);
    var data := [x, y, z];
    hide Total, Flat;
    FlatThree(x, y, z, AtCell("a", 0, 0));
    FlatThree(x, y, z, SentTo(1, 0, 0));
    CellFactors(data, 1, 0, 0);
    assert "b"[0] != "a"[0];
    assert Flat(data, SentTo(1, 0, 0)) == [(0, 2), (0, 3), (0, 5)];
    AdjacentThree((0, 2), (0, 3), (0, 5));
  }

  lemma TotalOfSorted(s: seq<Factor>)
    requires Sorted(s, PairLe)
    ensures Total(s) == AdjacentSum(s)
  {
    hide Sort;
    PairLeOrders();
    SortedUnique(Sort(s, PairLe), s, PairLe);
  }

  lemma AdjacentThree(x: Factor, y: Factor, z: Factor)
    requires x.0 == y.0 == z.0 && x.1 <= y.1 <= z.1
    ensures Total([x, y, z]) == x.1 * y.1 + y.1 * z.1
  {
    hide Total, Sort;
    var s := [x, y, z];
    TotalOfSorted(s);
    assert s[..2] == [x, y] && s[..2][..1] == [x];
    assert AdjacentSum([x, y]) == x.1 * y.1;
  }

  lemma FlatThree<A, B>(x: A, y: A, z: A, f: A -> seq<B>)
    ensures Flat([x, y, z], f) == f(x) + f(y) + f(z)
  {
    assert [x, y, z] == [] + [x] + [y] + [z];
    FlatSnoc([], x, f);
    FlatSnoc([] + [x], y, f);
    FlatSnoc([] + [x] + [y], z, f);
  }
}
