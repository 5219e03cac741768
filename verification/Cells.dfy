/** The character grid: cells stored row after row in one flat buffer of TERM_ROWS * TERM_COLS. */
module Cells {
  import opened Bytes

  const COLS := 80
  const ROWS := 42
  const CELLS := 3360
  const DEFAULT_FG: Color := 7
  const DEFAULT_BG: Color := 0
  const ATTR_BOLD: bv8 := 0x01
  const ATTR_UNDERL: bv8 := 0x02
  const ATTR_REVERSE: bv8 := 0x04

  /** An index into the 16-entry palette. Every cell and every pen holds nothing else. */
  type Color = x: int | 0 <= x < 16

  datatype Cell = Cell(ch: byte, fg: Color, bg: Color, attrs: bv8)
  datatype Pen = Pen(fg: Color, bg: Color, attrs: bv8)

  type Row = r: seq<Cell> | |r| == COLS witness seq(COLS, _ => Cell(32, 7, 0, 0))
  type Grid = g: seq<Cell> | |g| == CELLS witness seq(CELLS, _ => Cell(32, 7, 0, 0))

  const DEFAULT_PEN := Pen(DEFAULT_FG, DEFAULT_BG, 0)

  function Blank(p: Pen): Cell {
    Cell(32, p.fg, p.bg, 0)
  }

  function Glyph(c: byte, p: Pen): Cell {
    Cell(c, p.fg, p.bg, p.attrs)
  }

  function RowAt(g: seq<Cell>, r: int): Row
    requires 0 <= r && (r + 1) * COLS <= |g|
  {
    g[r * COLS..(r + 1) * COLS]
  }

  function Screen(g: Grid): (rows: seq<Row>)
    ensures |rows| == ROWS
    ensures forall r :: 0 <= r < ROWS ==> rows[r] == RowAt(g, r)
  {
    seq(ROWS, r requires 0 <= r < ROWS => RowAt(g, r))
  }

  /** Positions lo..hi (inclusive, in reading order) become b. */
  function FillSpan(g: Grid, lo: int, hi: int, b: Cell): Grid {
    seq(CELLS, k requires 0 <= k < CELLS => if lo <= k <= hi then b else g[k])
  }

  /** Rows top..bottom move up by one; the vacated bottom row is filled with b. */
  function ShiftUp(g: Grid, top: int, bottom: int, b: Cell): Grid
    requires 0 <= top <= bottom < ROWS
  {
    seq(CELLS, k requires 0 <= k < CELLS =>
      if top * COLS <= k < bottom * COLS then g[k + COLS]
      else if bottom * COLS <= k < (bottom + 1) * COLS then b
      else g[k])
  }

  function BlankRow(b: Cell): Row {
    seq(COLS, _ => b)
  }

  function BlankGrid(b: Cell): Grid {
    seq(CELLS, _ => b)
  }

  /** A region scroll, row by row: rows outside the region stay, rows inside move up, the last is blank. */
  lemma ShiftUpRow(g: Grid, top: int, bottom: int, b: Cell, r: int)
    requires 0 <= top <= bottom < ROWS && 0 <= r < ROWS
    ensures RowAt(ShiftUp(g, top, bottom, b), r)
         == if top <= r < bottom then RowAt(g, r + 1) else if r == bottom then BlankRow(b) else RowAt(g, r)
  {
    var g' := ShiftUp(g, top, bottom, b);
    var row := if top <= r < bottom then RowAt(g, r + 1) else if r == bottom then BlankRow(b) else RowAt(g, r);
    assert forall c :: 0 <= c < COLS ==> RowAt(g', r)[c] == g'[r * COLS + c];
    assert forall c :: 0 <= c < COLS ==> RowAt(g', r)[c] == row[c];
  }

  lemma RowAtUpdate(g: Grid, r: int, c: int, cell: Cell, q: int)
    requires 0 <= r < ROWS && 0 <= c < COLS && 0 <= q < ROWS
    ensures RowAt(g[r * COLS + c := cell], q) == if q == r then RowAt(g, r)[c := cell] else RowAt(g, q)
  {
  }

  lemma ScreenUpdate(g: Grid, r: int, c: int, cell: Cell)
    requires 0 <= r < ROWS && 0 <= c < COLS
    ensures Screen(g[r * COLS + c := cell]) == Screen(g)[r := Screen(g)[r][c := cell]]
  {
    var after := Screen(g)[r := Screen(g)[r][c := cell]];
    forall q | 0 <= q < ROWS ensures Screen(g[r * COLS + c := cell])[q] == after[q]
    {
      RowAtUpdate(g, r, c, cell, q);
    }
  }

  lemma ScreenShift(g: Grid, b: Cell)
    ensures Screen(ShiftUp(g, 0, ROWS - 1, b)) == Screen(g)[1..] + [BlankRow(b)]
  {
    forall r | 0 <= r < ROWS
      ensures Screen(ShiftUp(g, 0, ROWS - 1, b))[r] == (Screen(g)[1..] + [BlankRow(b)])[r]
    {
      ShiftUpRow(g, 0, ROWS - 1, b, r);
    }
  }
}
