/** `df.isnull().sum()`: the number of missing cells in each column. */
module MissingValues {
  import opened Frame

  /** The number of rows whose cell in column `c` is missing. */
  function MissingCount(rows: seq<Row>, c: string): (n: nat)
    ensures n <= |rows|
  {
    if rows == [] then 0
    else (if Cell(rows[0], c).Missing? then 1 else 0) + MissingCount(rows[1..], c)
  }

  /** The number of rows whose cell in column `c` is present (pandas' `count`). */
  function PresentCount(rows: seq<Row>, c: string): nat
  {
    if rows == [] then 0
    else (if Cell(rows[0], c).Missing? then 0 else 1) + PresentCount(rows[1..], c)
  }

  /** One `(column, missing count)` entry per column, in column order. */
  function MissingCounts(columns: seq<string>, rows: seq<Row>): (counts: seq<(string, nat)>)
    ensures |counts| == |columns|
  {
    seq(|columns|, k requires 0 <= k < |columns| => (columns[k], MissingCount(rows, columns[k])))
  }

  /** The count equals the multiplicity of "missing" in the column view. */
  lemma {:induction false} MissingCountIsMultiplicity(rows: seq<Row>, c: string)
    ensures MissingCount(rows, c) == multiset(ColumnView(rows, c))[Missing]
  {
    if rows != [] {
      MissingCountIsMultiplicity(rows[1..], c);
      assert ColumnView(rows, c) == [Cell(rows[0], c)] + ColumnView(rows[1..], c);
    }
  }

  /** Missing and present cells together account for every row. */
  lemma {:induction false} MissingPlusPresent(rows: seq<Row>, c: string)
    ensures MissingCount(rows, c) + PresentCount(rows, c) == |rows|
  {
    if rows != [] {
      MissingPlusPresent(rows[1..], c);
    }
  }

  /** No cell of the column is missing exactly when the count is zero. */
  lemma {:induction false} NoMissingIffZero(rows: seq<Row>, c: string)
    ensures MissingCount(rows, c) == 0 <==> forall i :: 0 <= i < |rows| ==> !Cell(rows[i], c).Missing?
  {
    if rows != [] {
      NoMissingIffZero(rows[1..], c);
      assert forall i :: 1 <= i < |rows| ==> rows[i] == rows[1..][i - 1];
    }
  }

  /** The counts of a concatenation add up. */
  lemma {:induction false} MissingCountAppend(a: seq<Row>, b: seq<Row>, c: string)
    ensures MissingCount(a + b, c) == MissingCount(a, c) + MissingCount(b, c)
  {
    if a == [] {
      assert a + b == b;
    } else {
      assert (a + b)[1..] == a[1..] + b;
      MissingCountAppend(a[1..], b, c);
    }
  }

  /** Each column's entry is its multiplicity of missing cells, in column order. */
  lemma MissingCountsSpec(columns: seq<string>, rows: seq<Row>)
    ensures forall k :: 0 <= k < |columns| ==>
      MissingCounts(columns, rows)[k].0 == columns[k] &&
      MissingCounts(columns, rows)[k].1 == multiset(ColumnView(rows, columns[k]))[Missing]
  {
    forall k | 0 <= k < |columns|
      ensures MissingCounts(columns, rows)[k].1 == multiset(ColumnView(rows, columns[k]))[Missing]
    {
      MissingCountIsMultiplicity(rows, columns[k]);
    }
  }
}
