/** Whole batches: which rows are sent, and which cell of which row each column gets. */
module RowBinaryRows {
  import opened Basics
  import opened Columns
  import opened RowBinary
  import opened RowBinaryRoundTrip

  predicate Increasing(positions: seq<nat>) {
    forall i, j :: 0 <= i < j < |positions| ==> positions[i] < positions[j]
  }

  /** `positions` lists, in order, exactly the rows that are upserts. */
  ghost predicate UpsertPositions(rows: seq<Row>, positions: seq<nat>) {
    && Increasing(positions)
    && (forall i :: 0 <= i < |positions| ==> positions[i] < |rows|)
    && (forall k :: 0 <= k < |rows| ==> (rows[k].upsert <==> k in positions))
  }

  function Shifted(positions: seq<nat>): (r: seq<nat>)
    ensures |r| == |positions| && forall i :: 0 <= i < |r| ==> r[i] == positions[i] + 1
  {
    seq(|positions|, i requires 0 <= i < |positions| => positions[i] + 1)
  }

  /** `listed` are the rows at `positions`. */
  ghost predicate ListedAt(rows: seq<Row>, positions: seq<nat>, listed: seq<Row>) {
    |listed| == |positions| && forall i :: 0 <= i < |positions| ==> positions[i] < |rows| && listed[i] == rows[positions[i]]
  }

  lemma ListedStep(rows: seq<Row>, later: seq<nat>, listed: seq<Row>)
    requires rows != [] && ListedAt(rows[1..], later, listed)
    ensures ListedAt(rows, Shifted(later), listed)
    ensures ListedAt(rows, [0] + Shifted(later), [rows[0]] + listed)
  {
    forall i | 0 <= i < |later| ensures later[i] + 1 < |rows| && listed[i] == rows[later[i] + 1] {
      assert listed[i] == rows[1..][later[i]];
    }
  }

  /** The rows that are sent are the rows at the upsert positions. */
  lemma {:induction false} UpsertsByPosition(rows: seq<Row>) returns (positions: seq<nat>)
    ensures UpsertPositions(rows, positions) && ListedAt(rows, positions, Upserts(rows))
  {
    if rows == [] {
      positions := [];
    } else {
      var later := UpsertsByPosition(rows[1..]);
      UpsertStep(rows, later);
      ListedStep(rows, later, Upserts(rows[1..]));
      hide UpsertPositions, ListedAt;
      if rows[0].upsert {
        positions := [0] + Shifted(later);
      } else {
        positions := Shifted(later);
        assert [] + Shifted(later) == Shifted(later) && [] + Upserts(rows[1..]) == Upserts(rows[1..]);
      }
    }
  }

  lemma UpsertStep(rows: seq<Row>, later: seq<nat>)
    requires rows != [] && UpsertPositions(rows[1..], later)
    ensures UpsertPositions(rows, (if rows[0].upsert then [0] else []) + Shifted(later))
  {
    var positions := (if rows[0].upsert then [0] else []) + Shifted(later);
    forall k | 0 <= k < |rows| ensures rows[k].upsert <==> k in positions {
      if k > 0 {
        assert rows[k] == rows[1..][k - 1];
        if k - 1 in later {
          var i :| 0 <= i < |later| && later[i] == k - 1;
          assert Shifted(later)[i] == k;
        }
        if k in positions {
          var i :| 0 <= i < |positions| && positions[i] == k;
          assert later[if rows[0].upsert then i - 1 else i] == k - 1;
        }
      }
    }
  }

  lemma {:induction false} StoredField(fields: seq<ColumnField>, cells: seq<Cell>, i: nat)
    requires |fields| == |cells| && i < |cells|
    ensures StoredFields(fields, cells)[i] == Stored(fields[i].columnType, cells[i])
  {
    hide Stored;
    if i > 0 {
      StoredField(fields[1..], cells[1..], i - 1);
    }
  }

  lemma {:induction false} StoredRow(columns: seq<ColumnField>, rows: seq<Row>, k: nat)
    requires k < |rows|
    ensures |StoredRows(columns, rows)| == |rows|
    ensures StoredRows(columns, rows)[k] == StoredFields(columns, Padded(|columns|, rows[k].values))
  {
    if |rows| > 1 {
      StoredRow(columns, rows[1..], if k == 0 then 0 else k - 1);
    }
  }

  lemma StoredNull(ct: ColumnType)
    ensures Stored(ct, Null) == Null
  {
  }

  /** Each column of a row read back: what it keeps of the value in its place, NULL where there is none. */
  ghost predicate RowReadBack(columns: seq<ColumnField>, values: seq<Cell>, cells: seq<Cell>) {
    && |cells| == |columns|
    && forall i :: 0 <= i < |columns| ==> cells[i] == if i < |values| then Stored(columns[i].columnType, values[i]) else Null
  }

  lemma PaddedReadBack(columns: seq<ColumnField>, values: seq<Cell>)
    ensures RowReadBack(columns, values, StoredFields(columns, Padded(|columns|, values)))
  {
    hide Stored, StoredFields;
    var padded := Padded(|columns|, values);
    forall i | 0 <= i < |columns|
      ensures StoredFields(columns, padded)[i] == if i < |values| then Stored(columns[i].columnType, values[i]) else Null
    {
      StoredField(columns, padded, i);
      StoredNull(columns[i].columnType);
    }
  }

  lemma StoredRowsLength(columns: seq<ColumnField>, rows: seq<Row>)
    ensures |StoredRows(columns, rows)| == |rows|
  {
    if rows != [] {
      StoredRow(columns, rows, 0);
    }
  }

  /**
   Reading a batch back: one row per upsert, in order; column `i` of a row holds what the column keeps of the i-th
   value of that row, or NULL where the row has no i-th value.
   */
  lemma BatchReadsBack(columns: seq<ColumnField>, rows: seq<Row>, bytes: seq<byte>, rest: seq<byte>)
    returns (positions: seq<nat>, cells: seq<seq<Cell>>)
    requires EncodeRows(columns, Upserts(rows)) == Ok(bytes) && AllSelfDelimiting(columns)
    ensures UpsertPositions(rows, positions)
    ensures ReadRows(columns, |positions|, bytes + rest) == Some((cells, rest))
    ensures |cells| == |positions|
    ensures forall k :: 0 <= k < |cells| ==> RowReadBack(columns, rows[positions[k]].values, cells[k])
  {
    hide EncodeRows, ReadRows, RowReadBack, Upserts, StoredRows;
    var sent := Upserts(rows);
    positions := UpsertsByPosition(rows);
    cells := StoredRows(columns, sent);
    RowsRoundTrip(columns, sent, bytes, rest);
    StoredRowsLength(columns, sent);
    forall k | 0 <= k < |cells| ensures RowReadBack(columns, rows[positions[k]].values, cells[k]) {
      StoredRow(columns, sent, k);
      PaddedReadBack(columns, sent[k].values);
    }
  }
}
