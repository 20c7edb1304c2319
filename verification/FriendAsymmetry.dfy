/** Friendships that are not mutual, on the map-reduce engine: pairs are counted without direction. */
module FriendAsymmetry {
  import opened Flattening
  import opened Sorting
  import opened MapReduce

  type Pair = (string, string)

  // ---------- the job ----------

  // tuple(sorted((x, y)))
  function Canon(p: Pair): Pair {
    if StrLe(p.0, p.1) then p else (p.1, p.0)
  }

  function MapPair(): Pair -> seq<(Pair, int)> {
    (p: Pair) => [(Canon(p), 1)]
  }

  function ReducePair(): (Pair, seq<int>) -> seq<Pair> {
    (key: Pair, values: seq<int>) => if |values| == 1 then [(key.0, key.1), (key.1, key.0)] else []
  }

  method Mapper(mr: Engine<Pair, int, Pair>, record: Pair)
    requires mr.Valid()
    modifies mr
    ensures mr.Valid() && mr.result == old(mr.result)
    ensures mr.emitted == old(mr.emitted) + MapPair()(record)
  {
    mr.EmitIntermediate(Canon(record), 1);
  }

  method Reducer(mr: Engine<Pair, int, Pair>, key: Pair, values: seq<int>)
    requires mr.Valid()
    modifies mr
    ensures mr.Valid() && mr.emitted == old(mr.emitted)
    ensures mr.result == old(mr.result) + ReducePair()(key, values)
  {
    if |values| == 1 {
      mr.Emit((key.0, key.1));
      mr.Emit((key.1, key.0));
    }
  }

  method Run(data: seq<Pair>) returns (mr: Engine<Pair, int, Pair>)
    ensures IsOutput(data, MapPair(), ReducePair(), mr.result)
  {
    hide Flat, IsOutput, Canon;
    mr := new Engine<Pair, int, Pair>();
    ghost var keys := mr.Execute(data, MapPair(), ReducePair());
    FreshOutput(data, MapPair(), ReducePair(), keys, mr.emitted, mr.result);
  }

  // ---------- counting ----------

  function Count(data: seq<Pair>, p: Pair): nat { multiset(data)[p] }

  // How often a pair is listed, in either direction.
  function Listed(data: seq<Pair>, x: string, y: string): nat {
    if x == y then Count(data, (x, y)) else Count(data, (x, y)) + Count(data, (y, x))
  }

  lemma CanonSame(p: Pair, q: Pair)
    ensures Canon(p) == Canon(q) <==> (p == q || p == (q.1, q.0))
  {
    StrLeTotal(p.0, p.1);
    StrLeTotal(q.0, q.1);
  }

  lemma {:induction false} GroupCounts(data: seq<Pair>, x: string, y: string)
    ensures |ValuesOf(Flat(data, MapPair()), Canon((x, y)))| == Listed(data, x, y)
  {
    hide Canon;
    var pick := PickKey<Pair, int>(Canon((x, y)));
    if data != [] {
      var front, p := data[..|data| - 1], data[|data| - 1];
      assert data == front + [p];
      GroupCounts(front, x, y);
      CanonSame(p, (x, y));
      FlatSnoc(front, p, MapPair());
      FlatSnoc(Flat(front, MapPair()), (Canon(p), 1), pick);
    }
  }

  // How often the job emits a pair, for any input: two different people once if they are listed
  // exactly once in all, and someone paired with themselves twice if that is listed exactly once.
  lemma EmittedCount(data: seq<Pair>, result: seq<Pair>, x: string, y: string)
    requires IsOutput(data, MapPair(), ReducePair(), result)
    ensures Count(result, (x, y)) ==
            if Listed(data, x, y) != 1 then 0 else if x == y then 2 else 1
  {
    hide Flat, Canon, Listed;
    var e := Flat(data, MapPair());
    var keys :| ListsKeys(keys, e) && result == Flat(keys, Group(e, ReducePair()));
    var c := Canon((x, y));
    forall k | k in keys && k != c
      ensures (x, y) !in Group(e, ReducePair())(k)
    {
      var i :| 0 <= i < |e| && e[i].0 == k;
      FlatMember(data, MapPair(), e[i]);
      KeysAreCanonical(k, data, e, i);
      CanonSame(k, (x, y));
    }
    FlatCount(keys, c, Group(e, ReducePair()), (x, y));
    GroupCounts(data, x, y);
    CanonIsPair(x, y);
    if c !in keys {
      assert !Emits(e, c);
      FlatNothing(e, PickKey<Pair, int>(c));
    }
  }

  lemma CanonIsPair(x: string, y: string)
    ensures Canon((x, y)) == (x, y) || Canon((x, y)) == (y, x)
  {
  }

  lemma KeysAreCanonical(k: Pair, data: seq<Pair>, e: seq<(Pair, int)>, i: nat)
    requires e == Flat(data, MapPair()) && i < |e| && e[i].0 == k
    ensures Canon(k) == k
  {
    FlatMember(data, MapPair(), e[i]);
    var n :| 0 <= n < |data| && e[i] in MapPair()(data[n]);
    StrLeTotal(data[n].0, data[n].1);
  }

  // For a list without repetitions and without self-friendships, a pair is emitted, and then once,
  // exactly when one of its two directions is in the list and the other is not.
  lemma ComputesAsymmetry(data: seq<Pair>, result: seq<Pair>, x: string, y: string)
    requires IsOutput(data, MapPair(), ReducePair(), result)
    requires NoRepeats(data) && forall p | p in data :: p.0 != p.1
    ensures multiset(result)[(x, y)] <= 1
    ensures multiset(result)[(x, y)] == 1 <==> ((x, y) in data) != ((y, x) in data)
  {
    hide IsOutput;
    EmittedCount(data, result, x, y);
    OnceEach(data, (x, y));
    OnceEach(data, (y, x));
  }

  // Every pair is emitted once if it is listed in one direction only, and otherwise never.
  ghost predicate ReportsAsymmetry(data: seq<Pair>, result: seq<Pair>) {
    forall p: Pair :: multiset(result)[p] == if (p in data) != ((p.1, p.0) in data) then 1 else 0
  }

  // Nobody is listed exactly once as their own friend, and no pair that is listed in one direction
  // only is listed more than once.
  ghost predicate FitToCount(data: seq<Pair>) {
    && (forall p | p in data && p.0 == p.1 :: multiset(data)[p] != 1)
    && (forall p | p in data && (p.1, p.0) !in data :: multiset(data)[p] == 1)
  }

  lemma Flipped(data: seq<Pair>, p: Pair)
    ensures Listed(data, p.0, p.1) ==
              if p.0 == p.1 then Count(data, p) else Count(data, p) + Count(data, (p.1, p.0))
    ensures Count(data, p) > 0 <==> p in data
  {
    assert p == (p.0, p.1);
  }

  // For every input the job is right about all pairs exactly when the input is fit for it.
  lemma RightExactly(data: seq<Pair>, result: seq<Pair>)
    requires IsOutput(data, MapPair(), ReducePair(), result)
    ensures ReportsAsymmetry(data, result) <==> FitToCount(data)
  {
    hide IsOutput, Listed;
    forall p: Pair
      ensures Count(result, p) == if Listed(data, p.0, p.1) != 1 then 0 else if p.0 == p.1 then 2 else 1
      ensures Listed(data, p.0, p.1) ==
                if p.0 == p.1 then Count(data, p) else Count(data, p) + Count(data, (p.1, p.0))
      ensures Count(data, p) > 0 <==> p in data
      ensures Count(data, (p.1, p.0)) > 0 <==> (p.1, p.0) in data
    {
      assert p == (p.0, p.1);
      EmittedCount(data, result, p.0, p.1);
      Flipped(data, p);
      Flipped(data, (p.1, p.0));
    }
    if FitToCount(data) {
      forall p: Pair
        ensures Count(result, p) == if (p in data) != ((p.1, p.0) in data) then 1 else 0
      {
        if (p.1, p.0) in data && p !in data {
          assert (p.1, p.0) == (p.1, p.0) && ((p.1, p.0).1, (p.1, p.0).0) == p;
        }
      }
    }
  }
}
