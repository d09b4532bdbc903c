/** pandas tables as the model sees them: a row maps column names to cells,
    and the columns of a table are every name used by any of its rows. A row
    that lacks a column holds a missing value there, as pandas fills it when
    it aligns records into a frame. */
module Frames {

  /** A table cell: missing (None/NaN), a number, or text. */
  datatype Cell = Null | Num(x: real) | Text(s: string)

  type Row = map<string, Cell>

  function CellAt(row: Row, column: string): Cell {
    if column in row then row[column] else Null
  }

  function Columns(rows: seq<Row>): (cs: set<string>)
    ensures forall c | c in cs :: exists i | 0 <= i < |rows| :: c in rows[i]
    ensures forall i, c | 0 <= i < |rows| && c in rows[i] :: c in cs
  {
    if |rows| == 0 then {}
    else
      var init := rows[..|rows| - 1];
      assert forall i | 0 <= i < |rows| - 1 :: init[i] == rows[i];
      Columns(init) + rows[|rows| - 1].Keys
  }
}
