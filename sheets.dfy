/**
 * The destination spreadsheet (main.py lines 107-112 and 126-134).  A tab's
 * contents are a grid of cell texts, rows from the top; a cell outside the
 * grid, like a cell holding "", is blank.  `update` writes a matrix from the
 * top-left cell A1 and leaves every cell outside it as it was; `clear` blanks
 * the whole tab.
 */
module Sheets {

  type Grid = seq<seq<string>>

  /** The text of the cell at row `r`, column `c` (both from 0; A1 is (0, 0)). */
  function CellAt(g: Grid, r: nat, c: nat): string {
    if r < |g| && c < |g[r]| then g[r][c] else ""
  }

  /** One row of `Overlay`: the new cells, then whatever the old row held beyond them. */
  function OverlayRow(before: seq<string>, written: seq<string>): (row: seq<string>)
    ensures |row| == if |written| >= |before| then |written| else |before|
    ensures forall j :: 0 <= j < |row| ==> row[j] == if j < |written| then written[j] else before[j]
  {
    if |written| >= |before| then written else written + before[|written|..]
  }

  /** The grid after writing `values` from A1 over `g`. */
  function Overlay(g: Grid, values: Grid): (h: Grid)
    ensures forall r: nat, c: nat :: CellAt(h, r, c) ==
              if r < |values| && c < |values[r]| then values[r][c] else CellAt(g, r, c)
  {
    if values == [] then g
    else if g == [] then values
    else
      var tail := Overlay(g[1..], values[1..]);
      var h := [OverlayRow(g[0], values[0])] + tail;
      assert forall r: nat, c: nat :: r >= 1 ==> CellAt(h, r, c) == CellAt(tail, r - 1, c);
      h
  }

  /** Writing over a blank tab leaves exactly the written matrix: nothing of earlier content survives. */
  lemma OverlayOnBlank(values: Grid)
    ensures Overlay([], values) == values
  {
  }

  /** Writing `[[text]]` from A1 sets A1 and no other cell. */
  lemma OverlaySingleCell(g: Grid, text: string)
    ensures CellAt(Overlay(g, [[text]]), 0, 0) == text
    ensures forall r: nat, c: nat :: (r, c) != (0, 0) ==> CellAt(Overlay(g, [[text]]), r, c) == CellAt(g, r, c)
  {
  }

  /**
   * A spreadsheet opened by URL: its tabs by title.  A gspread worksheet
   * handle is modelled by the title it was opened with.
   */
  class Spreadsheet {
    var tabs: map<string, Grid>

    constructor (initial: map<string, Grid>)
      ensures tabs == initial
    {
      tabs := initial;
    }

    /** `spreadsheet.worksheet(title)`: found, or `WorksheetNotFound`. */
    method Worksheet(title: string) returns (found: bool)
      ensures found <==> title in tabs
    {
      found := title in tabs;
    }

    /** `spreadsheet.add_worksheet(title=..., rows=..., cols=...)`: a new, blank tab. */
    method AddWorksheet(title: string, rows: nat, cols: nat)
      requires title !in tabs
      modifies this
      ensures tabs == old(tabs)[title := []]
    {
      tabs := tabs[title := []];
    }

    /** `worksheet.clear()`: every cell of the tab blank, other tabs untouched. */
    method Clear(title: string)
      requires title in tabs
      modifies this
      ensures tabs == old(tabs)[title := []]
      ensures forall r: nat, c: nat :: CellAt(tabs[title], r, c) == ""
    {
      tabs := tabs[title := []];
    }

    /** `worksheet.update(values)` from A1: the matrix's cells are written, every other cell is kept. */
    method Update(title: string, values: Grid)
      requires title in tabs
      modifies this
      ensures tabs == old(tabs)[title := Overlay(old(tabs)[title], values)]
      ensures forall r: nat, c: nat :: CellAt(tabs[title], r, c) ==
                if r < |values| && c < |values[r]| then values[r][c] else CellAt(old(tabs)[title], r, c)
    {
      tabs := tabs[title := Overlay(tabs[title], values)];
    }
  }
}
