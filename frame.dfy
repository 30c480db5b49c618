/**
 * The in-memory table the analysis script works on: an ordered sequence of
 * records, each a map from column name to a cell.
 */
module Frame {

  /** A cell of the table: a missing value (NaN/None), a number or a string. */
  datatype Value = Missing | Num(x: real) | Text(s: string)

  /** A record of the table, keyed by column name. */
  type Row = map<string, Value>

  /** The cell of column `c` in row `r`; a column the record lacks reads as missing. */
  function Cell(r: Row, c: string): Value
  {
    if c in r then r[c] else Missing
  }

  /** The column view of `c`: one cell per row, in row order, missing cells included. */
  function ColumnView(rows: seq<Row>, c: string): (view: seq<Value>)
    ensures |view| == |rows|
    ensures forall i :: 0 <= i < |rows| ==> view[i] == Cell(rows[i], c)
  {
    seq(|rows|, i requires 0 <= i < |rows| => Cell(rows[i], c))
  }

  /** Every cell of column `c` is a number or missing (a numeric dtype in pandas). */
  predicate NumericColumn(rows: seq<Row>, c: string)
  {
    forall i :: 0 <= i < |rows| ==> !Cell(rows[i], c).Text?
  }

  /** Every cell of column `c` is a string or missing (a categorical column such as Gender). */
  predicate TextColumn(rows: seq<Row>, c: string)
  {
    forall i :: 0 <= i < |rows| ==> !Cell(rows[i], c).Num?
  }

  predicate Distinct<T(==)>(s: seq<T>)
  {
    forall i, j :: 0 <= i < j < |s| ==> s[i] != s[j]
  }

  /** The rows after `df[name] = values`: every row gains (or overwrites) the cell `name`. */
  function WithColumn(rows: seq<Row>, name: string, values: seq<Value>): seq<Row>
    requires |values| == |rows|
  {
    seq(|rows|, i requires 0 <= i < |rows| => rows[i][name := values[i]])
  }

  /** Assigning a column adds one cell per row, keeps the row count and leaves every other column as it was. */
  lemma WithColumnCells(rows: seq<Row>, name: string, values: seq<Value>)
    requires |values| == |rows|
    ensures |WithColumn(rows, name, values)| == |rows|
    ensures forall i :: 0 <= i < |rows| ==> WithColumn(rows, name, values)[i].Keys == rows[i].Keys + {name}
    ensures forall i :: 0 <= i < |rows| ==> Cell(WithColumn(rows, name, values)[i], name) == values[i]
    ensures forall i, c :: 0 <= i < |rows| && c != name ==> Cell(WithColumn(rows, name, values)[i], c) == Cell(rows[i], c)
    ensures forall c :: c != name ==> ColumnView(WithColumn(rows, name, values), c) == ColumnView(rows, c)
  {
    var r := WithColumn(rows, name, values);
    forall c | c != name
      ensures ColumnView(r, c) == ColumnView(rows, c)
    {
      assert forall i :: 0 <= i < |rows| ==> Cell(r[i], c) == Cell(rows[i], c);
    }
  }

  /**
   * A pandas DataFrame: its column labels in order and its rows. Assigning a
   * column (`df[name] = values`) updates the frame in place.
   */
  class DataFrame {
    var columns: seq<string>
    var rows: seq<Row>

    /** Column labels are unique and every record has exactly one cell per column. */
    ghost predicate Valid()
      reads this
    {
      && Distinct(columns)
      && forall i :: 0 <= i < |rows| ==> rows[i].Keys == set c | c in columns
    }

    constructor (columns: seq<string>, rows: seq<Row>)
      requires Distinct(columns)
      requires forall i :: 0 <= i < |rows| ==> rows[i].Keys == set c | c in columns
      ensures Valid()
      ensures this.columns == columns && this.rows == rows
    {
      this.columns := columns;
      this.rows := rows;
    }

    /**
     * `df[name] = values`: an existing column is overwritten where it stands,
     * a new one is appended after the others.
     */
    method AssignColumn(name: string, values: seq<Value>)
      requires Valid()
      requires |values| == |rows|
      modifies this
      ensures Valid()
      ensures columns == if name in old(columns) then old(columns) else old(columns) + [name]
      ensures rows == WithColumn(old(rows), name, values)
    {
      WithColumnCells(rows, name, values);
      if name !in columns {
        columns := columns + [name];
      }
      rows := WithColumn(rows, name, values);
    }
  }
}
