/** The relational join on the map-reduce engine: orders with line items of the same order number. */
module Joiner {
  import opened Flattening
  import opened MapReduce

  const ORDER := "order"
  const LINE_ITEM := "line_item"

  // A row: its table, the order number, and the other fields.
  datatype Record = Record(table: string, key: string, rest: seq<string>)
  type Row = seq<string>

  function Fields(r: Record): Row { [r.table, r.key] + r.rest }

  // ---------- the job ----------

  function MapRecord(): Record -> seq<(string, Record)> {
    (r: Record) => [(r.key, r)]
  }

  function OfTable(table: string): Record -> seq<Record> {
    (r: Record) => if r.table == table then [r] else []
  }

  function JoinWith(o: Record): Record -> seq<Row> {
    (l: Record) => [Fields(o) + Fields(l)]
  }

  function JoinAll(lines: seq<Record>): Record -> seq<Row> {
    (o: Record) => Flat(lines, JoinWith(o))
  }

  function ReduceJoin(): (string, seq<Record>) -> seq<Row> {
    (key: string, values: seq<Record>) =>
      Flat(Flat(values, OfTable(ORDER)), JoinAll(Flat(values, OfTable(LINE_ITEM))))
  }

  method Mapper(mr: Engine<string, Record, Row>, record: Record)
    requires mr.Valid()
    modifies mr
    ensures mr.Valid() && mr.result == old(mr.result)
    ensures mr.emitted == old(mr.emitted) + MapRecord()(record)
  {
    mr.EmitIntermediate(record.key, record);
  }

  // The first loop of the reducer.
  method SplitTables(values: seq<Record>) returns (order: seq<Record>, lineItem: seq<Record>)
    ensures order == Flat(values, OfTable(ORDER)) && lineItem == Flat(values, OfTable(LINE_ITEM))
  {
    order, lineItem := [], [];
    for i := 0 to |values|
      invariant order == Flat(values[..i], OfTable(ORDER))
      invariant lineItem == Flat(values[..i], OfTable(LINE_ITEM))
    {
      var l := values[i];
      assert values[..i + 1] == values[..i] + [l];
      FlatSnoc(values[..i], l, OfTable(ORDER));
      FlatSnoc(values[..i], l, OfTable(LINE_ITEM));
      TablesDiffer();
      if l.table == ORDER {
        order := order + [l];
      } else if l.table == LINE_ITEM {
        lineItem := lineItem + [l];
      }
    }
    assert values[..|values|] == values;
  }

  lemma RowsOfTables(key: string, values: seq<Record>, order: seq<Record>, lineItem: seq<Record>)
    requires order == Flat(values, OfTable(ORDER)) && lineItem == Flat(values, OfTable(LINE_ITEM))
    ensures ReduceJoin()(key, values) == Flat(order, JoinAll(lineItem))
  {
    hide Flat, OfTable, JoinAll;
  }

  // The inner of the two nested loops.
  method EmitRows(mr: Engine<string, Record, Row>, o: Record, lineItem: seq<Record>)
    requires mr.Valid()
    modifies mr
    ensures mr.Valid() && mr.emitted == old(mr.emitted)
    ensures mr.result == old(mr.result) + JoinAll(lineItem)(o)
  {
    hide Flat, Grouping, Fields;
    Empty(JoinWith(o));
    for j := 0 to |lineItem|
      invariant mr.Valid() && mr.emitted == old(mr.emitted)
      invariant mr.result == old(mr.result) + Flat(lineItem[..j], JoinWith(o))
    {
      assert lineItem[..j + 1] == lineItem[..j] + [lineItem[j]];
      FlatSnoc(lineItem[..j], lineItem[j], JoinWith(o));
      mr.Emit(Fields(o) + Fields(lineItem[j]));
    }
    assert lineItem[..|lineItem|] == lineItem;
  }

  method Reducer(mr: Engine<string, Record, Row>, key: string, values: seq<Record>)
    requires mr.Valid()
    modifies mr
    ensures mr.Valid() && mr.emitted == old(mr.emitted)
    ensures mr.result == old(mr.result) + ReduceJoin()(key, values)
  {
    hide Flat, Grouping, JoinWith, OfTable, ReduceJoin;
    var order, lineItem := SplitTables(values);
    RowsOfTables(key, values, order, lineItem);
    Empty(JoinAll(lineItem));
    for i := 0 to |order|
      invariant mr.Valid() && mr.emitted == old(mr.emitted)
      invariant mr.result == old(mr.result) + Flat(order[..i], JoinAll(lineItem))
    {
      EmitRows(mr, order[i], lineItem);
      assert order[..i + 1] == order[..i] + [order[i]];
      FlatSnoc(order[..i], order[i], JoinAll(lineItem));
    }
    assert order[..|order|] == order;
  }

  lemma Empty<A, B>(f: A -> seq<B>)
    ensures Flat([], f) == []
  {
  }

  lemma TablesDiffer()
    ensures ORDER != LINE_ITEM
  {
    assert ORDER[0] != LINE_ITEM[0];
  }

  method Run(data: seq<Record>) returns (mr: Engine<string, Record, Row>)
    ensures IsOutput(data, MapRecord(), ReduceJoin(), mr.result)
  {
    hide Flat, IsOutput, ReduceJoin;
    mr := new Engine<string, Record, Row>();
    ghost var keys := mr.Execute(data, MapRecord(), ReduceJoin());
    FreshOutput(data, MapRecord(), ReduceJoin(), keys, mr.emitted, mr.result);
  }

  // ---------- the equi-join by nested loops ----------

  function Match(o: Record): Record -> seq<Row> {
    (l: Record) => if l.table == LINE_ITEM && l.key == o.key then [Fields(o) + Fields(l)] else []
  }

  function JoinRow(data: seq<Record>): Record -> seq<Row> {
    (o: Record) => if o.table == ORDER then Flat(data, Match(o)) else []
  }

  function NestedLoopJoin(data: seq<Record>): seq<Row> {
    Flat(data, JoinRow(data))
  }

  // The join spelled out: for each order and each line item with the same key one row, the fields of
  // the order and then those of the line item.
  lemma JoinPlainly(data: seq<Record>)
    ensures NestedLoopJoin(data) ==
      Flat(data, (o: Record) =>
        if o.table != "order" then []
        else Flat(data, (l: Record) =>
          if l.table == "line_item" && l.key == o.key then [[o.table, o.key] + o.rest + [l.table, l.key] + l.rest]
          else []))
  {
    hide Flat;
    var join := (o: Record) =>
      if o.table != "order" then []
      else Flat(data, (l: Record) =>
        if l.table == "line_item" && l.key == o.key then [[o.table, o.key] + o.rest + [l.table, l.key] + l.rest]
        else []);
    forall i | 0 <= i < |data|
      ensures JoinRow(data)(data[i]) == join(data[i])
    {
      var o := data[i];
      var line := (l: Record) =>
        if l.table == "line_item" && l.key == o.key then [[o.table, o.key] + o.rest + [l.table, l.key] + l.rest]
        else [];
      forall j | 0 <= j < |data|
        ensures Match(o)(data[j]) == line(data[j])
      {
        assert Fields(o) + Fields(data[j]) == [o.table, o.key] + o.rest + [data[j].table, data[j].key] + data[j].rest;
      }
      FlatEqual(data, Match(o), line);
    }
    FlatEqual(data, JoinRow(data), join);
  }

  // ---------- the two agree ----------

  function KeyOf(): Record -> string { (r: Record) => r.key }

  function WithKey(k: string): Record -> seq<Record> {
    (r: Record) => if r.key == k then [r] else []
  }

  lemma GroupIsSelection(data: seq<Record>, k: string)
    ensures ValuesOf(Flat(data, MapRecord()), k) == Flat(data, WithKey(k))
  {
    hide Flat;
    FlatFlat(data, MapRecord(), PickKey<string, Record>(k));
    forall i | 0 <= i < |data|
      ensures Then(MapRecord(), PickKey<string, Record>(k))(data[i]) == WithKey(k)(data[i])
    {
      FlatOne((data[i].key, data[i]), PickKey<string, Record>(k));
    }
    FlatEqual(data, Then(MapRecord(), PickKey<string, Record>(k)), WithKey(k));
  }

  lemma FlatOne<A, B>(a: A, f: A -> seq<B>)
    ensures Flat([a], f) == f(a)
    ensures Flat([], f) == []
  {
    assert [a] == [] + [a];
    FlatSnoc([], a, f);
  }

  // Among the line items with o's key, every one matches o.
  lemma LinesOfKey(data: seq<Record>, o: Record)
    ensures Flat(Flat(Flat(data, WithKey(o.key)), OfTable(LINE_ITEM)), JoinWith(o)) == Flat(data, Match(o))
  {
    hide Flat;
    var perLine := Then(OfTable(LINE_ITEM), JoinWith(o));
    FlatFlat(Flat(data, WithKey(o.key)), OfTable(LINE_ITEM), JoinWith(o));
    FlatFlat(data, WithKey(o.key), perLine);
    forall i | 0 <= i < |data|
      ensures Then(WithKey(o.key), perLine)(data[i]) == Match(o)(data[i])
    {
      FlatOne(data[i], perLine);
      FlatOne(data[i], JoinWith(o));
    }
    FlatEqual(data, Then(WithKey(o.key), perLine), Match(o));
  }

  // What one row contributes to the group of key k.
  lemma RowJoins(data: seq<Record>, k: string, r: Record)
    ensures var lines := Flat(Flat(data, WithKey(k)), OfTable(LINE_ITEM));
            Then(WithKey(k), Then(OfTable(ORDER), JoinAll(lines)))(r) == OfKey(KeyOf(), k, JoinRow(data))(r)
  {
    hide Flat;
    var lines := Flat(Flat(data, WithKey(k)), OfTable(LINE_ITEM));
    FlatOne(r, Then(OfTable(ORDER), JoinAll(lines)));
    FlatOne(r, JoinAll(lines));
    if r.key == k {
      LinesOfKey(data, r);
    }
  }

  lemma RowsOfGroup(k: string, group: seq<Record>)
    ensures ReduceJoin()(k, group) ==
            Flat(group, Then(OfTable(ORDER), JoinAll(Flat(group, OfTable(LINE_ITEM)))))
  {
    hide Flat, JoinAll, OfTable, Then;
    FlatFlat(group, OfTable(ORDER), JoinAll(Flat(group, OfTable(LINE_ITEM))));
  }

  // One group of the engine yields the rows of the nested loops whose order has that key.
  lemma GroupJoins(data: seq<Record>, k: string)
    ensures ReduceJoin()(k, Flat(data, WithKey(k))) == ByKey(data, KeyOf(), JoinRow(data))(k)
  {
    hide Flat, Then, OfKey, JoinRow, ReduceJoin, JoinAll, OfTable, WithKey;
    var group := Flat(data, WithKey(k));
    var perOrder := Then(OfTable(ORDER), JoinAll(Flat(group, OfTable(LINE_ITEM))));
    RowsOfGroup(k, group);
    FlatFlat(data, WithKey(k), perOrder);
    forall i | 0 <= i < |data|
      ensures Then(WithKey(k), perOrder)(data[i]) == OfKey(KeyOf(), k, JoinRow(data))(data[i])
    {
      RowJoins(data, k, data[i]);
    }
    FlatEqual(data, Then(WithKey(k), perOrder), OfKey(KeyOf(), k, JoinRow(data)));
  }

  lemma GroupsJoin(data: seq<Record>, keys: seq<string>)
    ensures Flat(keys, Group(Flat(data, MapRecord()), ReduceJoin())) == Flat(keys, ByKey(data, KeyOf(), JoinRow(data)))
  {
    hide Flat, ReduceJoin, ValuesOf, JoinRow;
    var e := Flat(data, MapRecord());
    forall i | 0 <= i < |keys|
      ensures Group(e, ReduceJoin())(keys[i]) == ByKey(data, KeyOf(), JoinRow(data))(keys[i])
    {
      GroupIsSelection(data, keys[i]);
      GroupJoins(data, keys[i]);
    }
    FlatEqual(keys, Group(e, ReduceJoin()), ByKey(data, KeyOf(), JoinRow(data)));
  }

  lemma EveryKeyListed(data: seq<Record>, keys: seq<string>, i: nat)
    requires ListsKeys(keys, Flat(data, MapRecord())) && i < |data|
    ensures KeyOf()(data[i]) in keys
  {
    hide Flat;
    var e := Flat(data, MapRecord());
    var pair := (data[i].key, data[i]);
    assert pair in MapRecord()(data[i]);
    FlatMember(data, MapRecord(), pair);
    var n :| 0 <= n < |e| && e[n] == pair;
    assert Emits(e, data[i].key);
  }

  // The job computes the equi-join on the order number, with the right number of copies of each row.
  lemma ComputesJoin(data: seq<Record>, result: seq<Row>)
    requires IsOutput(data, MapRecord(), ReduceJoin(), result)
    ensures multiset(result) == multiset(NestedLoopJoin(data))
  {
    hide Flat, ReduceJoin, JoinRow, ListsKeys, Group;
    var e := Flat(data, MapRecord());
    var keys :| ListsKeys(keys, e) && result == Flat(keys, Group(e, ReduceJoin()));
    GroupsJoin(data, keys);
    forall i | 0 <= i < |data|
      ensures KeyOf()(data[i]) in keys
    {
      EveryKeyListed(data, keys, i);
    }
    KeysOnce(keys, e);
    PartitionByKey(keys, data, KeyOf(), JoinRow(data));
  }

  lemma KeysOnce(keys: seq<string>, e: seq<(string, Record)>)
    requires ListsKeys(keys, e)
    ensures NoRepeats(keys)
  {
  }
}
