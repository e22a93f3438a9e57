/** Values shared by every layer of the ingestion model: an optional value and the raw CSV row. */
module Common {

  datatype Option<+T> = None | Some(value: T)

  /** Python's `x or None` on a string: the empty string reads as absent. */
  function OrNone(s: string): (r: Option<string>)
    ensures r.None? <==> s == ""
    ensures r.Some? ==> r.value == s
  {
    if s == "" then None else Some(s)
  }

  /** The keys of a dict are distinct. */
  predicate DistinctKeys(cells: seq<(string, string)>) {
    forall i, j :: 0 <= i < j < |cells| ==> cells[i].0 != cells[j].0
  }

  /** One CSV row as the csv module's DictReader yields it: header to cell, in column order. */
  type Row = cells: seq<(string, string)> | DistinctKeys(cells) witness []

  /** `row.get(key)`: the cell under `key`, or None when the row has no such column. */
  function Get(cells: seq<(string, string)>, key: string): (r: Option<string>)
    ensures r.None? <==> forall i :: 0 <= i < |cells| ==> cells[i].0 != key
    ensures r.Some? ==> exists i :: 0 <= i < |cells| && cells[i] == (key, r.value)
  {
    if |cells| == 0 then None
    else if cells[0].0 == key then Some(cells[0].1)
    else
      var r := Get(cells[1..], key);
      assert r.Some? ==> exists i :: 0 <= i < |cells[1..]| && cells[1..][i] == (key, r.value);
      r
  }

  /** `row.get(key, default)`. */
  function GetOr(cells: seq<(string, string)>, key: string, default: string): (r: string)
    ensures Get(cells, key).None? ==> r == default
    ensures Get(cells, key).Some? ==> r == Get(cells, key).value
  {
    match Get(cells, key)
    case None => default
    case Some(v) => v
  }

  /** In a row with distinct keys, the cell found under a column is the one in that column. */
  lemma {:induction false} GetFindsColumn(row: Row, i: nat)
    requires i < |row|
    ensures Get(row, row[i].0) == Some(row[i].1)
  {
    if i > 0 {
      assert row[0].0 != row[i].0;
      var tail: Row := row[1..];
      assert tail[i - 1] == row[i];
      GetFindsColumn(tail, i - 1);
    }
  }
}
