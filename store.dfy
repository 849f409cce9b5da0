/** One tab of the spreadsheet (`Absensi` or `Users`) as the routes see it:
    the data rows below the header, addressed by sheet row number. Row
    number 1 is the header, so row number `p` is `rows[p - 2]`. */
module Store {
  import opened Common

  /** The cells of one sheet row, columns A, B, ... as text; `""` is an
      empty cell. */
  type Row = seq<string>

  /** `row[i]` in JavaScript: `undefined` past the last cell of the row. */
  function Cell(row: Row, i: nat): Option<string> {
    if i < |row| then Some(row[i]) else None
  }

  /** The row at index `k`; a row below the last one holds no cells. */
  function RowAt(rows: seq<Row>, k: nat): Row {
    if k < |rows| then rows[k] else []
  }

  /** The cells of `current` after a `values.update` with `cells`: a given
      value overwrites its cell, while a missing one (sent as JSON `null`) is
      skipped and the cell keeps what it held. */
  function Merge(current: Row, cells: seq<Option<string>>): (r: Row)
    ensures |r| == if |cells| < |current| then |current| else |cells|
    ensures forall i :: 0 <= i < |cells| && cells[i].Some? ==> r[i] == cells[i].value
    ensures forall i :: 0 <= i < |r| && !(i < |cells| && cells[i].Some?) ==>
              r[i] == if i < |current| then current[i] else ""
  {
    if cells == [] then current
    else
      var first := if cells[0].Some? then cells[0].value
                   else if current != [] then current[0] else "";
      [first] + Merge(if current == [] then [] else current[1..], cells[1..])
  }

  /** When every cell is given and the row has no more cells than that, the
      update replaces the row outright. */
  lemma MergeAllGiven(current: Row, cells: seq<Option<string>>, values: Row)
    requires |current| <= |cells| == |values|
    requires forall i :: 0 <= i < |cells| ==> cells[i] == Some(values[i])
    ensures Merge(current, cells) == values
  {
    var r := Merge(current, cells);
    forall i | 0 <= i < |r| ensures r[i] == values[i] {
      assert cells[i].Some?;
    }
  }

  /** The rows after an update of row number `position` with `cells`: that
      row is merged with the cells, a row number below the last row first
      grows the tab with empty rows, and every other row keeps its content. */
  function UpdatedRows(rows: seq<Row>, position: int, cells: seq<Option<string>>): (r: seq<Row>)
    requires position >= 2
    ensures |r| == if position - 2 < |rows| then |rows| else position - 1
    ensures r[position - 2] == Merge(RowAt(rows, position - 2), cells)
    ensures forall k :: 0 <= k < |r| && k != position - 2 ==> r[k] == RowAt(rows, k)
  {
    var k := position - 2;
    if k < |rows| then rows[k := Merge(rows[k], cells)]
    else rows + seq(k - |rows|, _ => []) + [Merge([], cells)]
  }

  /** The rows after row number `position` is cleared: the row keeps its
      place and loses its cells; a row number below the last row changes
      nothing. */
  function ClearedRows(rows: seq<Row>, position: int): (r: seq<Row>)
    requires position >= 2
    ensures |r| == |rows|
    ensures position - 2 < |rows| ==> r[position - 2] == []
    ensures forall k :: 0 <= k < |rows| && k != position - 2 ==> r[k] == rows[k]
  {
    var k := position - 2;
    if k < |rows| then rows[k := []] else rows
  }

  /** An update followed by a clear of the same row number leaves that row
      empty and every other row as before the update. */
  lemma ClearUndoesUpdate(rows: seq<Row>, position: int, cells: seq<Option<string>>)
    requires 2 <= position < |rows| + 2
    ensures ClearedRows(UpdatedRows(rows, position, cells), position) == ClearedRows(rows, position)
  {
  }

  class Table {
    /** The number of columns the routes read and write (`A:E` or `A:D`). */
    const width: nat
    var rows: seq<Row>

    ghost predicate Valid()
      reads this
    {
      forall k :: 0 <= k < |rows| ==> |rows[k]| <= width
    }

    constructor (width: nat, rows: seq<Row>)
      requires forall k :: 0 <= k < |rows| ==> |rows[k]| <= width
      ensures Valid() && this.width == width && this.rows == rows
    {
      this.width := width;
      this.rows := rows;
    }

    /** `values.append`: the row goes below the last row; every existing row
        keeps its content and its row number. */
    method Append(row: Row)
      requires Valid() && |row| <= width
      modifies this
      ensures Valid()
      ensures rows == old(rows) + [row]
    {
      rows := rows + [row];
    }

    /** `values.update` of the range `A<p>:<last column><p>`. Writing below the
        last row leaves the rows in between empty. */
    method UpdateAt(position: int, cells: seq<Option<string>>)
      requires Valid() && position >= 2 && |cells| <= width
      modifies this
      ensures Valid()
      ensures rows == UpdatedRows(old(rows), position, cells)
    {
      var k := position - 2;
      if k < |rows| {
        rows := rows[k := Merge(rows[k], cells)];
      } else {
        var gap: seq<Row> := seq(k - |rows|, _ => []);
        rows := rows + gap + [Merge([], cells)];
      }
    }

    /** `values.clear` of the range `A<p>:<last column><p>`: the row is
        emptied, not removed, so no other row changes its row number. */
    method ClearAt(position: int)
      requires Valid() && position >= 2
      modifies this
      ensures Valid()
      ensures rows == ClearedRows(old(rows), position)
    {
      var k := position - 2;
      if k < |rows| {
        rows := rows[k := []];
      }
    }
  }
}
