/** The records of a report: an id with a number. */
module Reports {
  type Record = (string, int)

  // The same number for every id of a list.
  function Rows(ids: seq<string>, value: int): seq<Record> {
    seq(|ids|, i requires 0 <= i < |ids| => (ids[i], value))
  }

  lemma RowsSnoc(ids: seq<string>, id: string, value: int)
    ensures Rows(ids + [id], value) == Rows(ids, value) + [(id, value)]
  {
  }

  // The loop over the ids of one number.
  method AppendRows(out: seq<Record>, ids: seq<string>, value: int) returns (r: seq<Record>)
    ensures r == out + Rows(ids, value)
  {
    r := out;
    for j := 0 to |ids|
      invariant r == out + Rows(ids[..j], value)
    {
      RowsSnoc(ids[..j], ids[j], value);
      assert ids[..j + 1] == ids[..j] + [ids[j]];
      r := r + [(ids[j], value)];
    }
    assert ids[..|ids|] == ids;
  }
}
