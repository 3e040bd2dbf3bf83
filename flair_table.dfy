/** The flair table that `get_flairs` reads from the CSV file: a map from a class key to an
    optional flair text. Tokenising the CSV is left to the caller; the table is built
    from the rows the reader yields. */
module FlairTable {
  import opened Wrappers

  /** One CSV record: its columns, in order. A blank line is the empty row. */
  type Row = seq<string>

  /** Class key to flair text; `None` is the Python `None` stored for rows that are not two columns wide. */
  type Table = map<string, Option<string>>

  /** Outcome of loading the rows: the table, or the position of the first empty row,
      on which `row[0]` raises and the load is abandoned. */
  datatype Loaded = Loaded(table: Table) | EmptyRow(index: nat)

  ghost predicate AllNonEmpty(rows: seq<Row>) {
    forall i :: 0 <= i < |rows| ==> rows[i] != []
  }

  /** What a non-empty row stores under its key: the second column when the row has
      exactly two, nothing otherwise. */
  function EntryOf(row: Row): (e: Option<string>)
    requires row != []
    ensures e.Some? <==> |row| == 2
    ensures e.Some? ==> e.value == row[1]
  {
    if |row| == 2 then Some(row[1]) else None
  }

  /** The table after assigning every row's entry in file order. */
  function TableOf(rows: seq<Row>): (t: Table)
    requires AllNonEmpty(rows)
    ensures t.Keys == set i | 0 <= i < |rows| :: rows[i][0]
  {
    if rows == [] then map[]
    else
      var last := rows[|rows| - 1];
      TableOf(rows[..|rows| - 1])[last[0] := EntryOf(last)]
  }

  /** The loop of `get_flairs`: one dictionary assignment per row, failing on the first
      empty row. */
  method BuildTable(rows: seq<Row>) returns (r: Loaded)
    ensures r.EmptyRow? <==> !AllNonEmpty(rows)
    ensures r.EmptyRow? ==> r.index < |rows| && rows[r.index] == [] && AllNonEmpty(rows[..r.index])
    ensures r.Loaded? ==> r.table == TableOf(rows)
  {
    var flairs: Table := map[];
    var i := 0;
    while i < |rows|
      invariant 0 <= i <= |rows|
      invariant AllNonEmpty(rows[..i])
      invariant flairs == TableOf(rows[..i])
    {
      var row := rows[i];
      if |row| == 0 {
        return EmptyRow(i);
      }
      assert rows[..i + 1][..i] == rows[..i];
      if |row| == 2 {
        flairs := flairs[row[0] := Some(row[1])];
      } else {
        flairs := flairs[row[0] := None];
      }
      i := i + 1;
    }
    assert rows[..i] == rows;
    return Loaded(flairs);
  }

  /** Last write wins: a key is in the table exactly when some row starts with it, and
      it holds the entry of the last such row. */
  lemma TableOfLastWins(rows: seq<Row>, k: string)
    requires AllNonEmpty(rows)
    ensures k in TableOf(rows) <==> exists i :: 0 <= i < |rows| && rows[i][0] == k
    ensures forall i :: 0 <= i < |rows| && rows[i][0] == k
                        && (forall j :: i < j < |rows| ==> rows[j][0] != k)
                        ==> k in TableOf(rows) && TableOf(rows)[k] == EntryOf(rows[i])
  {
    assert k in TableOf(rows).Keys <==> k in set i | 0 <= i < |rows| :: rows[i][0];
    forall i | 0 <= i < |rows| && rows[i][0] == k && (forall j :: i < j < |rows| ==> rows[j][0] != k)
      ensures k in TableOf(rows) && TableOf(rows)[k] == EntryOf(rows[i])
    {
      LastEntryWins(rows, k, i);
    }
  }

  /** The entry stored under a key is that of the last row starting with it. */
  lemma {:induction false} LastEntryWins(rows: seq<Row>, k: string, i: nat)
    requires AllNonEmpty(rows) && i < |rows| && rows[i][0] == k
    requires forall j :: i < j < |rows| ==> rows[j][0] != k
    ensures k in TableOf(rows) && TableOf(rows)[k] == EntryOf(rows[i])
    decreases |rows|
  {
    var n := |rows| - 1;
    if i < n {
      var init := rows[..n];
      assert AllNonEmpty(init);
      assert init[i] == rows[i];
      LastEntryWins(init, k, i);
    }
  }
}
