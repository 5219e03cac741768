/** The drawing half of the terminal: the shadow of the last pass, and the run-batched pass itself. */
module Renderer {
  import opened Bytes
  import opened Cells
  import opened TermModel
  import opened HistoryView
  import opened RenderModel
  import opened DrawCommands
  import opened Terminal

  function ShadowRows(s: seq<Option<Cell>>): Shadow
    requires |s| == CELLS
  {
    seq(ROWS, r requires 0 <= r < ROWS => ShadowRowAt(s, r))
  }

  function ShadowRowAt(s: seq<Option<Cell>>, r: int): ShadowRow
    requires |s| == CELLS && 0 <= r < ROWS
  {
    s[r * COLS..(r + 1) * COLS]
  }

  class Renderer {
    const term: Terminal
    const renderedGrid: array<Option<Cell>>
    var renderedCursorRow: int
    var renderedCursorCol: int
    var renderedCursorVisible: bool
    var renderedScrollOffset: int
    const textScratch: array<byte>

    /** What is actually on the display. */
    ghost var canvas: Canvas

    /** What it would show if every draw command were carried out as soon as it is issued. */
    ghost var eager: Canvas

    ghost predicate Shape()
    {
      && renderedGrid.Length == CELLS && textScratch.Length == CELLS + 1
      && textScratch != term.csiBuf
    }

    ghost function Memory(): Rendered
      reads this, renderedGrid
      requires Shape()
    {
      Rendered(ShadowRows(renderedGrid[..]), renderedCursorRow, renderedCursorCol, renderedCursorVisible,
               renderedScrollOffset, canvas)
    }

    ghost predicate Valid()
      reads this, renderedGrid, textScratch, term, term.mainGrid, term.altGrid, term.scrollback, term.csiBuf
    {
      Shape() && term.Valid() && Coherent(Memory()) && eager == canvas
    }

    /** The canvas if the layer were finished now. */
    ghost function Executed(layer: seq<Command>, used: int): Canvas
      reads this`canvas, textScratch
      requires Packed(layer, used) && used <= textScratch.Length
    {
      Execute(canvas, layer, used, textScratch[..])
    }

    /** The layer so far takes up `used` bytes of scratch, and finishing it now would show what `eager` shows. */
    ghost predicate InStep(layer: seq<Command>, used: int)
      reads this`canvas, this`eager, textScratch
    {
      Packed(layer, used) && 0 <= used <= textScratch.Length && eager == Executed(layer, used)
    }

    constructor (t: Terminal)
      requires t.Valid()
      ensures Valid() && term == t && Memory() == Unrendered(canvas)
      ensures fresh(renderedGrid) && fresh(textScratch)
    {
      term := t;
      renderedGrid := new Option<Cell>[CELLS](_ => None);
      textScratch := new byte[CELLS + 1](_ => 0);
      renderedCursorRow, renderedCursorCol, renderedCursorVisible := -1, -1, false;
      renderedScrollOffset := -1;
      eager := canvas;
      new;
      forall r | 0 <= r < ROWS ensures ShadowRowAt(renderedGrid[..], r) == UNSET_ROW {
        assert forall c :: 0 <= c < COLS ==> ShadowRowAt(renderedGrid[..], r)[c] == renderedGrid[r * COLS + c];
      }
    }

    method RowUnchanged(r: int, ghost t: Live, ghost d: Rendered) returns (same: bool)
      requires Shape() && term.Valid() && 0 <= r < ROWS
      requires t == term.Live() && d.shadow[r] == ShadowRowAt(renderedGrid[..], r)
      ensures same <==> RenderModel.RowUnchanged(t, d, r)
    {
      var buf, base := term.DisplayRow(r);
      ghost var shadow, row := d.shadow[r], DisplayRow(t, r);
      var c := 0;
      while c < COLS
        invariant 0 <= c <= COLS
        invariant forall i :: 0 <= i < c ==> shadow[i] == Lift(row)[i]
      {
        assert shadow[c] == renderedGrid[r * COLS + c] && row[c] == buf[base..base + COLS][c];
        if renderedGrid[r * COLS + c] != Some(buf[base + c]) {
          assert shadow[c] != Lift(row)[c];
          return false;
        }
        c := c + 1;
      }
      return true;
    }

    /** Length of the run of equally styled cells starting at column c. */
    method RunLength(buf: array<Cell>, base: int, c: int, ghost row: Row) returns (n: int)
      requires 0 <= base && base + COLS <= buf.Length && buf[base..base + COLS] == row && 0 <= c < COLS
      ensures 0 < n && c + n <= COLS
      ensures forall i :: c <= i < c + n ==> SameStyle(row[c], row[i])
      ensures c + n < COLS ==> !SameStyle(row[c], row[c + n])
    {
      n := 1;
      while c + n < COLS
        invariant 0 < n && c + n <= COLS
        invariant forall i :: c <= i < c + n ==> SameStyle(row[c], row[i])
      {
        assert row[c + n] == buf[base + c + n] && row[c] == buf[base + c];
        if buf[base + c + n].fg != buf[base + c].fg || buf[base + c + n].bg != buf[base + c].bg
           || buf[base + c + n].attrs != buf[base + c].attrs {
          break;
        }
        n := n + 1;
      }
    }

    /** Copies a run's characters to the scratch buffer. */
    method CopyText(buf: array<Cell>, base: int, c: int, n: int, pos: int, ghost row: Row)
      requires 0 <= base && base + COLS <= buf.Length && buf[base..base + COLS] == row && 0 <= c && 0 < n && c + n <= COLS
      requires 0 <= pos && pos + n <= textScratch.Length
      modifies textScratch
      ensures textScratch[..pos] == old(textScratch[..pos])
      ensures forall i :: c <= i < c + n ==> textScratch[pos + i - c] == Shown(row[i].ch)
    {
      var i := 0;
      while i < n
        invariant 0 <= i <= n
        invariant textScratch[..pos] == old(textScratch[..pos])
        invariant forall j :: c <= j < c + i ==> textScratch[pos + j - c] == Shown(row[j].ch)
      {
        var ch := buf[base + c + i].ch;
        assert row[c + i].ch == ch;
        textScratch[pos + i] := if ch == 0 then 32 else ch;
        i := i + 1;
      }
    }

    /** Issues one run; `row` is the row being drawn and `start` the canvas before it. */
    method DrawRun(buf: array<Cell>, base: int, r: int, c: int, pos: int,
                   ghost row: Row, ghost layer: seq<Command>, ghost start: Canvas)
      returns (n: int, ghost layer': seq<Command>)
      requires Shape() && 0 <= base && base + COLS <= buf.Length && buf[base..base + COLS] == row
      requires 0 <= r < ROWS && 0 <= c < COLS && 0 <= pos && pos + COLS - c <= textScratch.Length
      requires InStep(layer, pos) && eager == PartRow(start, r, row, c)
      modifies textScratch, this`eager
      ensures 0 < n && c + n <= COLS
      ensures InStep(layer', pos + n) && eager == PartRow(start, r, row, c + n)
    {
      n := RunLength(buf, base, c, row);
      var first := buf[base + c];
      var reverse := first.attrs & ATTR_REVERSE != 0;
      var fgIdx := if reverse then first.bg else first.fg;
      var bgIdx := if reverse then first.fg else first.bg;
      ghost var before := textScratch[..];
      CopyText(buf, base, c, n, pos, row);
      layer' := Issue(layer, r, c, n, PALETTE[bgIdx], PALETTE[fgIdx], pos, before);
      assert row[c] == buf[base + c];
      PaintRun(start, r, row, c, n, pos, textScratch[..]);
    }

    /** lv_draw_rect and lv_draw_label: two commands join the layer, and take effect there and then on `eager`. (The
        rectangle is issued before its text is copied, but it reads no scratch.) */
    ghost method Issue(layer: seq<Command>, r: int, c: int, n: int, paper: nat, ink: nat, pos: int, before: seq<byte>)
      returns (layer': seq<Command>)
      requires 0 <= r < ROWS && 0 <= c && 0 < n && c + n <= COLS && 0 <= pos && pos + n <= textScratch.Length
      requires Packed(layer, pos) && pos <= |before| && before[..pos] == textScratch[..pos]
      requires eager == Execute(canvas, layer, pos, before)
      modifies this`eager
      ensures layer' == layer + Batch(r, c, n, paper, ink, pos) && InStep(layer', pos + n)
      ensures eager == AtOnce(old(eager), Batch(r, c, n, paper, ink, pos), textScratch[..])
    {
      NowOrLater(canvas, layer, pos, before, textScratch[..], r, c, n, paper, ink);
      layer' := layer + Batch(r, c, n, paper, ink, pos);
      eager := AtOnce(eager, Batch(r, c, n, paper, ink, pos), textScratch[..]);
    }

    /** The memcpy that remembers a row as drawn. */
    method RememberRow(buf: array<Cell>, base: int, r: int)
      requires Shape() && 0 <= base && base + COLS <= buf.Length && 0 <= r < ROWS
      modifies renderedGrid
      ensures ShadowRows(renderedGrid[..]) == ShadowRows(old(renderedGrid[..]))[r := Lift(buf[base..base + COLS])]
    {
      ghost var before := renderedGrid[..];
      var i := 0;
      while i < COLS
        invariant 0 <= i <= COLS
        invariant forall k :: 0 <= k < CELLS ==>
          renderedGrid[k] == if r * COLS <= k < r * COLS + i then Some(buf[base + k - r * COLS]) else before[k]
      {
        renderedGrid[r * COLS + i] := Some(buf[base + i]);
        i := i + 1;
      }
      ghost var after := renderedGrid[..];
      ghost var row: Row := buf[base..base + COLS];
      assert row == old(buf[base..base + COLS]);
      forall q | 0 <= q < ROWS
        ensures ShadowRowAt(after, q) == if q == r then Lift(row) else ShadowRowAt(before, q)
      {
        assert forall c :: 0 <= c < COLS ==> ShadowRowAt(after, q)[c] == after[q * COLS + c];
        assert forall c :: 0 <= c < COLS ==> ShadowRowAt(before, q)[c] == before[q * COLS + c];
      }
    }

    /** The runs of one row, from a buffer to commands. */
    method DrawRuns(buf: array<Cell>, base: int, r: int, pos: int, ghost row: Row, ghost layer: seq<Command>)
      returns (ghost layer': seq<Command>)
      requires Shape() && 0 <= base && base + COLS <= buf.Length && buf[base..base + COLS] == row
      requires 0 <= r < ROWS && pos + COLS <= CELLS && InStep(layer, pos)
      modifies textScratch, this`eager
      ensures InStep(layer', pos + COLS)
      ensures Executed(layer', pos + COLS) == old(Executed(layer, pos))[r := RenderModel.DrawRow(row)]
    {
      ghost var start := eager;
      assert PartRow(start, r, row, 0) == start by {
        assert PartRow(start, r, row, 0)[r] == start[r];
      }
      layer' := layer;
      var c := 0;
      while c < COLS
        invariant 0 <= c <= COLS
        invariant InStep(layer', pos + c) && eager == PartRow(start, r, row, c)
      {
        var n;
        n, layer' := DrawRun(buf, base, r, c, pos + c, row, layer', start);
        c := c + n;
      }
      assert PartRow(start, r, row, COLS)[r] == RenderModel.DrawRow(row);
    }

    /** A row that changed: remembered, then issued; it takes up 80 bytes of scratch. */
    method DrawRow(r: int, pos: int, ghost layer: seq<Command>) returns (ghost layer': seq<Command>)
      requires Shape() && term.Valid() && 0 <= r < ROWS && pos + COLS <= CELLS && InStep(layer, pos)
      modifies renderedGrid, textScratch, this`eager
      ensures InStep(layer', pos + COLS)
      ensures Executed(layer', pos + COLS)
           == old(Executed(layer, pos))[r := RenderModel.DrawRow(DisplayRow(old(term.Live()), r))]
      ensures ShadowRows(renderedGrid[..])
           == ShadowRows(old(renderedGrid[..]))[r := Lift(DisplayRow(old(term.Live()), r))]
    {
      var buf, base := term.DisplayRow(r);
      ghost var row: Row := DisplayRow(term.Live(), r);
      RememberRow(buf, base, r);
      layer' := DrawRuns(buf, base, r, pos, row, layer);
    }

    /** The scan for a row that looks different from the last pass. */
    method FindChangedRow(ghost t: Live, ghost d: Rendered) returns (r: int)
      requires Shape() && term.Valid() && t == term.Live() && d.shadow == ShadowRows(renderedGrid[..])
      ensures r == FirstChanged(t, d, 0)
    {
      r := 0;
      while r < ROWS
        invariant 0 <= r <= ROWS && FirstChanged(t, d, r) == FirstChanged(t, d, 0)
      {
        assert ShadowRows(renderedGrid[..])[r] == ShadowRowAt(renderedGrid[..], r);
        var same := RowUnchanged(r, t, d);
        if !same { return; }
        r := r + 1;
      }
    }

    /** The early-exit test: has anything visible changed since the last pass? */
    method IsIdle(ghost t: Live, ghost d: Rendered) returns (idle: bool)
      requires Valid() && t == term.Live() && d == Memory()
      ensures idle <==> Idle(t, d)
    {
      var showCursor := term.cursorVisible && term.scrollOffset == 0;
      var scrollChanged := term.scrollOffset != renderedScrollOffset;
      var cursorChanged := term.curRow != renderedCursorRow || term.curCol != renderedCursorCol
                           || showCursor != renderedCursorVisible;
      if cursorChanged || scrollChanged {
        return false;
      }
      var r := FindChangedRow(t, d);
      idle := r == ROWS;
    }

    /** Rows without the old or new cursor can be skipped when they look the same and the view has not moved. */
    method CanSkip(r: int, scrollChanged: bool, ghost t: Live, ghost d: Rendered) returns (skip: bool)
      requires Shape() && term.Valid() && term.Live() == t && 0 <= r < ROWS
      requires scrollChanged == (t.offset != d.offset) && renderedCursorRow == d.row
      requires ShadowRowAt(renderedGrid[..], r) == d.shadow[r]
      ensures skip <==> !Redrawn(t, d, r)
    {
      skip := false;
      if !scrollChanged && r != term.curRow && r != renderedCursorRow {
        skip := RowUnchanged(r, t, d);
      }
    }

    /** Row r of a pass: skipped or drawn, the first r + 1 rows are then as the pass leaves them. */
    method DrawRowIfNeeded(r: int, scrollChanged: bool, pos: int, ghost layer: seq<Command>, ghost t: Live, ghost d: Rendered)
      returns (pos': int, ghost layer': seq<Command>)
      requires Shape() && term.Valid() && term.Live() == t && 0 <= r < ROWS
      requires scrollChanged == (t.offset != d.offset) && renderedCursorRow == d.row
      requires InStep(layer, pos) && 0 <= pos <= r * COLS
      requires Executed(layer, pos) == PaintedRows(t, d, r)
      requires ShadowRows(renderedGrid[..]) == ShadowedRows(t, d, r)
      modifies renderedGrid, textScratch, this`eager
      ensures InStep(layer', pos') && 0 <= pos' <= (r + 1) * COLS
      ensures Executed(layer', pos') == PaintedRows(t, d, r + 1)
      ensures ShadowRows(renderedGrid[..]) == ShadowedRows(t, d, r + 1)
    {
      NextRow(t, d, r);
      assert ShadowRowAt(renderedGrid[..], r) == ShadowRows(renderedGrid[..])[r] == d.shadow[r];
      var skip := CanSkip(r, scrollChanged, t, d);
      if skip {
        return pos, layer;
      }
      layer' := DrawRow(r, pos, layer);
      pos' := pos + COLS;
    }

    /** Issues the rows that need drawing, and only those. */
    method DrawChangedRows(ghost t: Live, ghost d: Rendered) returns (pos: int, ghost layer: seq<Command>)
      requires Shape() && term.Valid() && eager == canvas && t == term.Live() && d == Memory()
      modifies renderedGrid, textScratch, this`eager
      ensures InStep(layer, pos) && 0 <= pos <= CELLS
      ensures Executed(layer, pos) == PaintedRows(t, d, ROWS)
      ensures ShadowRows(renderedGrid[..]) == ShadowedRows(t, d, ROWS)
    {
      var scrollChanged := term.scrollOffset != renderedScrollOffset;
      pos, layer := 0, [];
      var r := 0;
      assert PaintedRows(t, d, 0) == canvas;
      assert ShadowedRows(t, d, 0) == d.shadow;
      while r < ROWS
        invariant 0 <= r <= ROWS && term.Valid() && term.Live() == t
        invariant InStep(layer, pos) && 0 <= pos <= r * COLS
        invariant Executed(layer, pos) == PaintedRows(t, d, r)
        invariant ShadowRows(renderedGrid[..]) == ShadowedRows(t, d, r)
      {
        pos, layer := DrawRowIfNeeded(r, scrollChanged, pos, layer, t, d);
        r := r + 1;
      }
    }

    /** The cursor: one tile on top, its character in the last byte of scratch. */
    method DrawCursor(pos: int, ghost layer: seq<Command>) returns (ghost layer': seq<Command>)
      requires Shape() && term.Valid() && InStep(layer, pos) && pos <= CELLS
      modifies textScratch, this`eager
      ensures InStep(layer', pos + 1)
      ensures var t, c := old(term.Live()), old(Executed(layer, pos));
              Executed(layer', pos + 1) == c[t.row := c[t.row][t.col := CursorTile(Active(t)[Pos(t)])]]
    {
      var row, col := term.curRow, term.curCol;
      var cell := term.grid[row * COLS + col];
      ghost var before := textScratch[..];
      textScratch[pos] := if cell.ch == 0 then 32 else cell.ch;
      layer' := Issue(layer, row, col, 1, PALETTE[cell.fg], PALETTE[cell.bg], pos, before);
      PaintCursor(old(eager), row, col, cell, pos, textScratch[..]);
    }

    method DrawCursorIfShown(showCursor: bool, pos: int, ghost layer: seq<Command>, ghost t: Live)
      returns (ghost used: int, ghost layer': seq<Command>)
      requires Shape() && term.Valid() && term.Live() == t && InStep(layer, pos) && pos <= CELLS
      requires showCursor == ShowsCursor(t)
      modifies textScratch, this`eager
      ensures InStep(layer', used)
      ensures Executed(layer', used) == Overlay(t, old(Executed(layer, pos)))
    {
      used, layer' := pos, layer;
      if showCursor {
        layer' := DrawCursor(pos, layer);
        used := pos + 1;
      }
    }

    /** A pass that draws. The commands are executed only at the end, when every text slice has been written. */
    method DrawPass(ghost t: Live, ghost d: Rendered)
      requires Shape() && term.Valid() && eager == canvas && t == term.Live() && d == Memory() && !Idle(t, d)
      modifies this`renderedCursorRow, this`renderedCursorCol, this`renderedCursorVisible,
               this`renderedScrollOffset, this`canvas, this`eager, renderedGrid, textScratch
      ensures Memory() == RenderModel.Render(t, d) && eager == canvas
    {
      var pos;
      ghost var layer;
      pos, layer := DrawChangedRows(t, d);
      var showCursor := term.cursorVisible && term.scrollOffset == 0;
      ghost var used;
      used, layer := DrawCursorIfShown(showCursor, pos, layer, t);
      FinishLayer(layer, used);
      RememberCursor(showCursor);
    }

    method Render()
      requires Valid()
      modifies this`renderedCursorRow, this`renderedCursorCol, this`renderedCursorVisible,
               this`renderedScrollOffset, this`canvas, this`eager, renderedGrid, textScratch
      ensures Valid() && term.Live() == old(term.Live())
      ensures Memory() == RenderModel.Render(old(term.Live()), old(Memory()))
      ensures canvas == FullRedraw(old(term.Live())) && eager == canvas
    {
      ghost var t, d := term.Live(), Memory();
      RenderIsFullRedraw(t, d);
      var idle := IsIdle(t, d);
      if !idle {
        DrawPass(t, d);
      }
    }

    /** lv_canvas_finish_layer: the layer's commands take effect, in order. */
    ghost method FinishLayer(layer: seq<Command>, used: int)
      requires Shape() && Packed(layer, used) && used <= textScratch.Length
      modifies this`canvas
      ensures canvas == Execute(old(canvas), layer, used, textScratch[..])
    {
      canvas := Execute(canvas, layer, used, textScratch[..]);
    }

    method RememberCursor(showCursor: bool)
      modifies this`renderedCursorRow, this`renderedCursorCol, this`renderedCursorVisible, this`renderedScrollOffset
      ensures renderedCursorRow == term.curRow && renderedCursorCol == term.curCol
      ensures renderedCursorVisible == showCursor && renderedScrollOffset == term.scrollOffset
    {
      renderedCursorRow := term.curRow;
      renderedCursorCol := term.curCol;
      renderedCursorVisible := showCursor;
      renderedScrollOffset := term.scrollOffset;
    }
  }
}
