/**
 * The table read from the CSV and the matrix uploaded from it (main.py
 * lines 100-101): `df.fillna("")` turns every missing cell into the empty
 * string, and the upload matrix is the column header followed by the data
 * rows in their original order.
 */
module Frames {

  /** A DataFrame cell: missing (NaN/None) or a value, rendered as the text the sheet receives. */
  datatype Cell = Null | Text(value: string)

  /** A DataFrame: column header and data rows, in file order. */
  datatype Frame = Frame(columns: seq<string>, rows: seq<seq<Cell>>)

  /** Every row has one cell per column, as `read_csv` produces. */
  predicate WellFormed(f: Frame) {
    forall i :: 0 <= i < |f.rows| ==> |f.rows[i]| == |f.columns|
  }

  predicate NoNulls(rows: seq<seq<Cell>>) {
    forall i, j :: 0 <= i < |rows| && 0 <= j < |rows[i]| ==> rows[i][j].Text?
  }

  /** `fillna("")` on one row. */
  function FillRow(row: seq<Cell>): (r: seq<Cell>)
    ensures |r| == |row|
    ensures forall j :: 0 <= j < |r| ==> r[j].Text?
    ensures forall j :: 0 <= j < |r| ==> row[j].Text? ==> r[j] == row[j]
    ensures forall j :: 0 <= j < |r| ==> row[j].Null? ==> r[j] == Text("")
  {
    if row == [] then []
    else [if row[0].Null? then Text("") else row[0]] + FillRow(row[1..])
  }

  function FillRows(rows: seq<seq<Cell>>): (r: seq<seq<Cell>>)
    ensures |r| == |rows|
    ensures forall i :: 0 <= i < |r| ==> r[i] == FillRow(rows[i])
  {
    if rows == [] then [] else [FillRow(rows[0])] + FillRows(rows[1..])
  }

  /** Line 100: `df.fillna("")`: same header and shape, no missing cell left, values kept. */
  function FillNa(f: Frame): (g: Frame)
    ensures g.columns == f.columns && |g.rows| == |f.rows|
    ensures forall i :: 0 <= i < |g.rows| ==> |g.rows[i]| == |f.rows[i]|
    ensures NoNulls(g.rows)
    ensures forall i, j :: 0 <= i < |f.rows| && 0 <= j < |f.rows[i]| ==>
              g.rows[i][j] == (if f.rows[i][j].Null? then Text("") else f.rows[i][j])
    ensures WellFormed(f) ==> WellFormed(g)
  {
    Frame(f.columns, FillRows(f.rows))
  }

  /** The text of a cell once `fillna("")` has run: missing cells read as "". */
  function CellText(c: Cell): string {
    match c
    case Null => ""
    case Text(v) => v
  }

  function RowText(row: seq<Cell>): (r: seq<string>)
    ensures |r| == |row|
    ensures forall j :: 0 <= j < |r| ==> r[j] == CellText(row[j])
  {
    if row == [] then [] else [CellText(row[0])] + RowText(row[1..])
  }

  /** `df.values.tolist()`. */
  function RowsText(rows: seq<seq<Cell>>): (r: seq<seq<string>>)
    ensures |r| == |rows|
    ensures forall i :: 0 <= i < |r| ==> r[i] == RowText(rows[i])
  {
    if rows == [] then [] else [RowText(rows[0])] + RowsText(rows[1..])
  }

  /**
   * Line 101: `[df.columns.values.tolist()] + df.values.tolist()` after the
   * fill.  One more row than the frame; row 0 is the header; row i + 1 is
   * data row i, cell by cell, with each missing cell as "".
   */
  function UploadMatrix(f: Frame): (m: seq<seq<string>>)
    ensures |m| == |f.rows| + 1
    ensures m[0] == f.columns
    ensures forall i :: 0 <= i < |f.rows| ==> |m[i + 1]| == |f.rows[i]|
    ensures forall i, j :: 0 <= i < |f.rows| && 0 <= j < |f.rows[i]| ==>
              m[i + 1][j] == (if f.rows[i][j].Null? then "" else f.rows[i][j].value)
  {
    var filled := FillNa(f);
    var rows := RowsText(filled.rows);
    assert forall i :: 0 <= i < |f.rows| ==> rows[i] == RowText(filled.rows[i]);
    [filled.columns] + rows
  }

  /** A well-formed frame gives a rectangular matrix as wide as the header. */
  lemma UploadMatrixRectangular(f: Frame)
    requires WellFormed(f)
    ensures forall i :: 0 <= i < |UploadMatrix(f)| ==> |UploadMatrix(f)[i]| == |f.columns|
  {
  }

  /** Filling twice is filling once. */
  lemma FillNaIdempotent(f: Frame)
    ensures FillNa(FillNa(f)) == FillNa(f)
  {
    var g := FillNa(f);
    var h := FillNa(g);
    forall i | 0 <= i < |g.rows|
      ensures h.rows[i] == g.rows[i]
    {
      assert |h.rows[i]| == |g.rows[i]|;
      forall j | 0 <= j < |g.rows[i]|
        ensures h.rows[i][j] == g.rows[i][j]
      {
        assert g.rows[i][j].Text?;
      }
    }
  }
}
