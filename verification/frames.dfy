/**
 * Extracted tables and the cleanup applied to each of them before it is
 * written: the `dropna` pair of app.py line 69, dropping blank rows and
 * then blank columns, followed by the emptiness test of line 70.
 *
 * A table is a list of column labels and a list of rows; a cell is `None`
 * where the frame holds NaN. Column labels never take part in the
 * emptiness tests, exactly as in the data frame library.
 */
module Frames {
  import opened Wrappers

  type Cell = Option<string>

  datatype Table = Table(header: seq<string>, rows: seq<seq<Cell>>)

  /** Every row has one cell per column, as in any data frame. */
  predicate WellFormed(t: Table) {
    forall i :: 0 <= i < |t.rows| ==> |t.rows[i]| == |t.header|
  }

  /** `df.empty`: no rows or no columns. */
  predicate IsEmpty(t: Table) {
    |t.rows| == 0 || |t.header| == 0
  }

  /** A row that `dropna(how="all")` removes (vacuously true of a row with no cells). */
  predicate RowEmpty(row: seq<Cell>) {
    forall j :: 0 <= j < |row| ==> row[j].None?
  }

  /** A column that `dropna(how="all", axis=1)` removes (vacuously true when there are no rows). */
  predicate ColumnEmpty(rows: seq<seq<Cell>>, j: nat) {
    forall i :: 0 <= i < |rows| && j < |rows[i]| ==> rows[i][j].None?
  }

  /** Every cell of the table is missing. */
  predicate AllCellsEmpty(t: Table) {
    forall i, j :: 0 <= i < |t.rows| && 0 <= j < |t.rows[i]| ==> t.rows[i][j].None?
  }

  predicate Increasing(s: seq<nat>) {
    forall p, q :: 0 <= p < q < |s| ==> s[p] < s[q]
  }

  /** The positions of the rows that survive `dropna(how="all")`, in order. */
  function KeptRows(rows: seq<seq<Cell>>): (r: seq<nat>)
    ensures Increasing(r)
    ensures forall k :: 0 <= k < |r| ==> r[k] < |rows|
    ensures forall i: nat :: i in r <==> i < |rows| && !RowEmpty(rows[i])
  {
    if rows == [] then []
    else
      var n := |rows| - 1;
      var prefix := KeptRows(rows[..n]);
      assert forall i: nat :: i < n ==> rows[..n][i] == rows[i];
      prefix + (if RowEmpty(rows[n]) then [] else [n])
  }

  /** The positions among the first `width` columns that survive `dropna(how="all", axis=1)`, in order. */
  function KeptColumns(rows: seq<seq<Cell>>, width: nat): (r: seq<nat>)
    ensures Increasing(r)
    ensures forall k :: 0 <= k < |r| ==> r[k] < width
    ensures forall j: nat :: j in r <==> j < width && !ColumnEmpty(rows, j)
  {
    if width == 0 then []
    else
      KeptColumns(rows, width - 1) + (if ColumnEmpty(rows, width - 1) then [] else [width - 1])
  }

  /** The elements of `s` at positions `idx`, in the order of `idx`. */
  function Select<T>(s: seq<T>, idx: seq<nat>): (r: seq<T>)
    requires forall k :: 0 <= k < |idx| ==> idx[k] < |s|
    ensures |r| == |idx|
  {
    seq(|idx|, k requires 0 <= k < |idx| => s[idx[k]])
  }

  /**
   * The cleaned table: rows whose cells are all missing are dropped first;
   * then, among the surviving rows, columns whose cells are all missing are
   * dropped together with their labels.
   */
  function Normalize(t: Table): (r: Table)
    requires WellFormed(t)
    ensures WellFormed(r)
  {
    var rows := Select(t.rows, KeptRows(t.rows));
    var cols := KeptColumns(rows, |t.header|);
    Table(Select(t.header, cols), seq(|rows|, i requires 0 <= i < |rows| => Select(rows[i], cols)))
  }

  /**
   * Dropping columns among the surviving rows is the same as dropping them
   * on the whole table, since the rows removed first hold no value.
   */
  lemma {:induction false} ColumnsAfterRowDrop(t: Table)
    requires WellFormed(t)
    ensures KeptColumns(Select(t.rows, KeptRows(t.rows)), |t.header|) == KeptColumns(t.rows, |t.header|)
  {
    var rows := Select(t.rows, KeptRows(t.rows));
    forall j: nat | j < |t.header|
      ensures ColumnEmpty(rows, j) == ColumnEmpty(t.rows, j)
    {
      if !ColumnEmpty(t.rows, j) {
        var i :| 0 <= i < |t.rows| && j < |t.rows[i]| && t.rows[i][j].Some?;
        assert !RowEmpty(t.rows[i]);
        assert i in KeptRows(t.rows);
        var a :| 0 <= a < |KeptRows(t.rows)| && KeptRows(t.rows)[a] == i;
        assert rows[a][j].Some?;
      }
    }
    KeptColumnsDependOnEmptiness(rows, t.rows, |t.header|);
  }

  lemma {:induction false} KeptColumnsDependOnEmptiness(a: seq<seq<Cell>>, b: seq<seq<Cell>>, width: nat)
    requires forall j: nat :: j < width ==> ColumnEmpty(a, j) == ColumnEmpty(b, j)
    ensures KeptColumns(a, width) == KeptColumns(b, width)
  {
    if width > 0 {
      KeptColumnsDependOnEmptiness(a, b, width - 1);
    }
  }

  /**
   * Normalization is an order-preserving sub-grid: row a of the result is row
   * KeptRows(t.rows)[a] of `t` restricted to the columns KeptColumns(t.rows, |t.header|),
   * both increasing, and labels travel with their columns.
   */
  lemma NormalizeIsSubgrid(t: Table)
    requires WellFormed(t)
    ensures var r, R, C := Normalize(t), KeptRows(t.rows), KeptColumns(t.rows, |t.header|);
      && |r.rows| == |R| && |r.header| == |C|
      && (forall b :: 0 <= b < |C| ==> r.header[b] == t.header[C[b]])
      && (forall a, b :: 0 <= a < |R| && 0 <= b < |C| ==> r.rows[a][b] == t.rows[R[a]][C[b]])
  {
    ColumnsAfterRowDrop(t);
  }

  /** No row and no column of a normalized table is entirely missing. */
  lemma {:induction false} NormalizeLeavesNoEmptyLine(t: Table)
    requires WellFormed(t)
    ensures forall a :: 0 <= a < |Normalize(t).rows| ==> !RowEmpty(Normalize(t).rows[a])
    ensures forall b: nat :: b < |Normalize(t).header| ==> !ColumnEmpty(Normalize(t).rows, b)
  {
    var r := Normalize(t);
    NormalizeIsSubgrid(t);
    forall a | 0 <= a < |r.rows|
      ensures !RowEmpty(r.rows[a])
    {
      KeptRowHoldsValue(t, a);
    }
    forall b: nat | b < |r.header|
      ensures !ColumnEmpty(r.rows, b)
    {
      KeptColumnHoldsValue(t, b);
    }
  }

  lemma KeptRowHoldsValue(t: Table, a: nat)
    requires WellFormed(t) && a < |Normalize(t).rows|
    ensures !RowEmpty(Normalize(t).rows[a])
  {
    var r, R, C := Normalize(t), KeptRows(t.rows), KeptColumns(t.rows, |t.header|);
    NormalizeIsSubgrid(t);
    var i := R[a];
    assert i in R;
    var j :| 0 <= j < |t.rows[i]| && t.rows[i][j].Some?;
    assert !ColumnEmpty(t.rows, j);
    assert j in C;
    var b :| 0 <= b < |C| && C[b] == j;
    assert r.rows[a][b].Some?;
  }

  lemma KeptColumnHoldsValue(t: Table, b: nat)
    requires WellFormed(t) && b < |Normalize(t).header|
    ensures !ColumnEmpty(Normalize(t).rows, b)
  {
    var r, R, C := Normalize(t), KeptRows(t.rows), KeptColumns(t.rows, |t.header|);
    NormalizeIsSubgrid(t);
    var j := C[b];
    assert j in C;
    var i :| 0 <= i < |t.rows| && j < |t.rows[i]| && t.rows[i][j].Some?;
    assert !RowEmpty(t.rows[i]);
    assert i in R;
    var a :| 0 <= a < |R| && R[a] == i;
    assert r.rows[a][b].Some?;
  }

  /**
   * A table yields no sheet exactly when every cell is missing; and the
   * normalized table has no rows exactly when it has no columns.
   */
  lemma {:induction false} NormalizeEmptyIff(t: Table)
    requires WellFormed(t)
    ensures IsEmpty(Normalize(t)) <==> AllCellsEmpty(t)
    ensures |Normalize(t).rows| == 0 <==> |Normalize(t).header| == 0
  {
    var R, C := KeptRows(t.rows), KeptColumns(t.rows, |t.header|);
    NormalizeIsSubgrid(t);
    if AllCellsEmpty(t) {
      KeptNoRows(t.rows);
      KeptNoColumns(t.rows, |t.header|);
    } else {
      var i, j :| 0 <= i < |t.rows| && 0 <= j < |t.rows[i]| && t.rows[i][j].Some?;
      assert !RowEmpty(t.rows[i]);
      assert i in R;
      assert !ColumnEmpty(t.rows, j);
      assert j in C;
    }
  }

  lemma {:induction false} KeptNoRows(rows: seq<seq<Cell>>)
    requires forall a :: 0 <= a < |rows| ==> RowEmpty(rows[a])
    ensures KeptRows(rows) == []
  {
    if rows != [] {
      KeptNoRows(rows[..|rows| - 1]);
    }
  }

  lemma {:induction false} KeptNoColumns(rows: seq<seq<Cell>>, width: nat)
    requires forall b: nat :: b < width ==> ColumnEmpty(rows, b)
    ensures KeptColumns(rows, width) == []
  {
    if width > 0 {
      KeptNoColumns(rows, width - 1);
    }
  }

  /** A table with no entirely missing row or column is left as it is by cleanup. */
  lemma {:induction false} NormalizeUnchanged(t: Table)
    requires WellFormed(t)
    requires forall a :: 0 <= a < |t.rows| ==> !RowEmpty(t.rows[a])
    requires forall b: nat :: b < |t.header| ==> !ColumnEmpty(t.rows, b)
    ensures Normalize(t) == t
  {
    KeptAllRows(t.rows);
    SelectAll(t.rows);
    KeptAllColumns(t.rows, |t.header|);
    SelectAll(t.header);
    forall a | 0 <= a < |t.rows|
      ensures Select(t.rows[a], KeptColumns(t.rows, |t.header|)) == t.rows[a]
    {
      SelectAll(t.rows[a]);
    }
  }

  /** Cleaning an already cleaned table changes nothing. */
  lemma {:induction false} NormalizeIdempotent(t: Table)
    requires WellFormed(t)
    ensures Normalize(Normalize(t)) == Normalize(t)
  {
    NormalizeLeavesNoEmptyLine(t);
    NormalizeUnchanged(Normalize(t));
  }

  lemma SelectAll<T>(s: seq<T>)
    ensures Select(s, seq(|s|, k => k)) == s
  {
  }

  lemma {:induction false} KeptAllRows(rows: seq<seq<Cell>>)
    requires forall a :: 0 <= a < |rows| ==> !RowEmpty(rows[a])
    ensures KeptRows(rows) == seq(|rows|, k => k)
  {
    if rows != [] {
      var n := |rows| - 1;
      KeptAllRows(rows[..n]);
    }
  }

  lemma {:induction false} KeptAllColumns(rows: seq<seq<Cell>>, width: nat)
    requires forall b: nat :: b < width ==> !ColumnEmpty(rows, b)
    ensures KeptColumns(rows, width) == seq(width, k => k)
  {
    if width > 0 {
      KeptAllColumns(rows, width - 1);
    }
  }
}
