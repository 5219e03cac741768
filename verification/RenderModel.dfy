/** Drawing: what the canvas shows, the row-diffing renderer, and the draw commands it batches. */
module RenderModel {
  import opened Bytes
  import opened Cells
  import opened TermModel
  import opened HistoryView

  /** xterm's 16 colours. */
  const PALETTE: seq<nat> := [
    0x000000, 0xCD0000, 0x00CD00, 0xCDCD00, 0x0000EE, 0xCD00CD, 0x00CDCD, 0xE5E5E5,
    0x7F7F7F, 0xFF0000, 0x00FF00, 0xFFFF00, 0x5C5CFF, 0xFF00FF, 0x00FFFF, 0xFFFFFF]

  /** One character cell of the canvas. */
  datatype Tile = Bare(paper: nat) | Inked(paper: nat, ch: byte, ink: nat)

  type TileRow = r: seq<Tile> | |r| == COLS witness seq(COLS, _ => Bare(0))
  type Canvas = c: seq<TileRow> | |c| == ROWS witness seq(ROWS, _ => seq(COLS, _ => Bare(0)))

  function Shown(ch: byte): byte {
    if ch == 0 then 32 else ch
  }

  function PaperOf(c: Cell): nat {
    PALETTE[if c.attrs & ATTR_REVERSE != 0 then c.fg else c.bg]
  }

  function InkOf(c: Cell): nat {
    PALETTE[if c.attrs & ATTR_REVERSE != 0 then c.bg else c.fg]
  }

  function DrawCell(c: Cell): Tile {
    Inked(PaperOf(c), Shown(c.ch), InkOf(c))
  }

  /** The cursor swaps the cell's colours, whatever its attributes. */
  function CursorTile(c: Cell): Tile {
    Inked(PALETTE[c.fg], Shown(c.ch), PALETTE[c.bg])
  }

  function DrawRow(row: Row): TileRow {
    seq(COLS, c requires 0 <= c < COLS => DrawCell(row[c]))
  }

  // ---- The reference: draw everything ----

  predicate ShowsCursor(t: Live) {
    t.cursorVisible && t.offset == 0
  }

  function Overlay(t: Live, canvas: Canvas): Canvas {
    if ShowsCursor(t) then canvas[t.row := canvas[t.row][t.col := CursorTile(Active(t)[Pos(t)])]] else canvas
  }

  /** All 42 rows cell by cell, then the cursor. */
  function FullRedraw(t: Live): Canvas {
    Overlay(t, seq(ROWS, r requires 0 <= r < ROWS => DrawRow(DisplayRow(t, r))))
  }

  // ---- What a full redraw shows ----

  /** Tile by tile, from the fields of the cells: the character, a space for 0; ink and paper in the colours of fg and
      bg, exchanged by reverse video; and under a cursor that shows always exchanged. The cursor shows when it is
      switched on and the view is live. */
  lemma TileShown(t: Live, r: int, c: int)
    requires 0 <= r < ROWS && 0 <= c < COLS
    ensures var cell, tile := DisplayRow(t, r)[c], FullRedraw(t)[r][c];
            var swapped := (t.cursorVisible && t.offset == 0 && r == t.row && c == t.col) || cell.attrs & 4 != 0;
            && tile.Inked? && tile.ch == (if cell.ch == 0 then 32 else cell.ch)
            && tile.ink == PALETTE[if swapped then cell.bg else cell.fg]
            && tile.paper == PALETTE[if swapped then cell.fg else cell.bg]
  {
    FullRedrawTile(t, r, c);
  }

  function Red(color: nat): nat { color / 0x10000 }
  function Green(color: nat): nat { color / 0x100 % 0x100 }
  function Blue(color: nat): nat { color % 0x100 }

  /** Bits 0, 1 and 2 of the first eight colour indices stand for red, green and blue. */
  lemma DimColors(i: nat)
    requires i < 8
    ensures Red(PALETTE[i]) > 0 <==> i % 2 == 1
    ensures Green(PALETTE[i]) > 0 <==> i / 2 % 2 == 1
    ensures Blue(PALETTE[i]) > 0 <==> i / 4 % 2 == 1
  {
  }

  /** In the bright half they are full, and 8 is grey. */
  lemma BrightColors(i: nat)
    requires 8 <= i < 16
    ensures i == 8 ==> Red(PALETTE[i]) == Green(PALETTE[i]) == Blue(PALETTE[i]) == 0x7F
    ensures Red(PALETTE[i]) == 0xFF <==> i % 2 == 1
    ensures Green(PALETTE[i]) == 0xFF <==> i / 2 % 2 == 1
    ensures Blue(PALETTE[i]) == 0xFF <==> i / 4 % 2 == 1
  {
  }

  /** No two colours are alike. */
  lemma PaletteDistinct(i: nat, j: nat)
    requires i < j < 16
    ensures PALETTE[i] != PALETTE[j]
  {
  }

  // ---- The incremental renderer ----

  /** A shadow cell; None is the 0xFF pattern that no real cell can match. */
  type ShadowRow = r: seq<Option<Cell>> | |r| == COLS witness seq(COLS, _ => None)
  type Shadow = s: seq<ShadowRow> | |s| == ROWS witness seq(ROWS, _ => UNSET_ROW)

  const UNSET_ROW: ShadowRow := seq(COLS, _ => None)

  /** What the renderer remembers of its last pass, and the canvas itself. `offset` is -1 before the first pass. */
  datatype Rendered = Rendered(shadow: Shadow, row: int, col: int, cursor: bool, offset: int, canvas: Canvas)

  function Lift(row: Row): ShadowRow {
    seq(COLS, c requires 0 <= c < COLS => Some(row[c]))
  }

  predicate RowUnchanged(t: Live, d: Rendered, r: int)
    requires 0 <= r < ROWS
  {
    d.shadow[r] == Lift(DisplayRow(t, r))
  }

  predicate CursorChanged(t: Live, d: Rendered) {
    t.row != d.row || t.col != d.col || ShowsCursor(t) != d.cursor
  }

  predicate Idle(t: Live, d: Rendered) {
    && !CursorChanged(t, d) && t.offset == d.offset
    && forall r :: 0 <= r < ROWS ==> RowUnchanged(t, d, r)
  }

  /** The first row from `r` on that looks different from the last pass; 42 if none does. */
  function FirstChanged(t: Live, d: Rendered, r: int): (first: int)
    requires 0 <= r <= ROWS
    ensures r <= first <= ROWS && (first < ROWS ==> !RowUnchanged(t, d, first))
    ensures forall q :: r <= q < first ==> RowUnchanged(t, d, q)
    decreases ROWS - r
  {
    if r == ROWS || !RowUnchanged(t, d, r) then r else FirstChanged(t, d, r + 1)
  }

  /** Rows that a pass draws again. */
  predicate Redrawn(t: Live, d: Rendered, r: int)
    requires 0 <= r < ROWS
  {
    t.offset != d.offset || r == t.row || r == d.row || !RowUnchanged(t, d, r)
  }

  function PaintedRow(t: Live, d: Rendered, r: int): TileRow
    requires 0 <= r < ROWS
  {
    if Redrawn(t, d, r) then DrawRow(DisplayRow(t, r)) else d.canvas[r]
  }

  function ShadowedRow(t: Live, d: Rendered, r: int): ShadowRow
    requires 0 <= r < ROWS
  {
    if Redrawn(t, d, r) then Lift(DisplayRow(t, r)) else d.shadow[r]
  }

  // The canvas and the shadow after the first n rows of a pass.

  function PaintedSoFar(t: Live, d: Rendered, n: int, r: int): TileRow
    requires 0 <= r < ROWS
  {
    if r < n then PaintedRow(t, d, r) else d.canvas[r]
  }

  function ShadowedSoFar(t: Live, d: Rendered, n: int, r: int): ShadowRow
    requires 0 <= r < ROWS
  {
    if r < n then ShadowedRow(t, d, r) else d.shadow[r]
  }

  function PaintedRows(t: Live, d: Rendered, n: int): Canvas {
    seq(ROWS, r requires 0 <= r < ROWS => PaintedSoFar(t, d, n, r))
  }

  function ShadowedRows(t: Live, d: Rendered, n: int): Shadow {
    seq(ROWS, r requires 0 <= r < ROWS => ShadowedSoFar(t, d, n, r))
  }

  /** One pass of the renderer. */
  function Render(t: Live, d: Rendered): Rendered {
    if Idle(t, d) then d
    else Rendered(ShadowedRows(t, d, ROWS), t.row, t.col, ShowsCursor(t), t.offset,
                  Overlay(t, PaintedRows(t, d, ROWS)))
  }

  lemma NextRow(t: Live, d: Rendered, r: int)
    requires 0 <= r < ROWS
    ensures Redrawn(t, d, r) ==>
              && PaintedRows(t, d, r + 1) == PaintedRows(t, d, r)[r := DrawRow(DisplayRow(t, r))]
              && ShadowedRows(t, d, r + 1) == ShadowedRows(t, d, r)[r := Lift(DisplayRow(t, r))]
    ensures !Redrawn(t, d, r) ==>
              PaintedRows(t, d, r + 1) == PaintedRows(t, d, r) && ShadowedRows(t, d, r + 1) == ShadowedRows(t, d, r)
  {
  }

  /** The tile that the last pass must have left at (r, c). */
  function ExpectedTile(d: Rendered, r: int, c: int): Tile
    requires 0 <= r < ROWS && 0 <= c < COLS && d.shadow[r][c].Some?
  {
    var cell := d.shadow[r][c].value;
    if d.cursor && r == d.row && c == d.col then CursorTile(cell) else DrawCell(cell)
  }

  predicate CoherentRow(d: Rendered, r: int)
    requires 0 <= r < ROWS
  {
    forall c :: 0 <= c < COLS ==> d.shadow[r][c].Some? && d.canvas[r][c] == ExpectedTile(d, r, c)
  }

  /** Once drawn, the canvas is the shadow's picture with the remembered cursor on it. */
  predicate Coherent(d: Rendered) {
    d.offset >= 0 ==> forall r :: 0 <= r < ROWS ==> CoherentRow(d, r)
  }

  // ---- Incremental equals full ----

  lemma LiveRowUnderCursor(t: Live)
    requires ShowsCursor(t)
    ensures DisplayRow(t, t.row)[t.col] == Active(t)[Pos(t)]
  {
  }

  lemma FullRedrawTile(t: Live, r: int, c: int)
    requires 0 <= r < ROWS && 0 <= c < COLS
    ensures FullRedraw(t)[r][c]
         == if ShowsCursor(t) && r == t.row && c == t.col then CursorTile(DisplayRow(t, r)[c])
            else DrawCell(DisplayRow(t, r)[c])
  {
    if ShowsCursor(t) {
      LiveRowUnderCursor(t);
    }
  }

  lemma UnchangedRowTile(t: Live, d: Rendered, r: int, c: int)
    requires Coherent(d) && t.offset == d.offset
    requires 0 <= r < ROWS && 0 <= c < COLS && RowUnchanged(t, d, r)
    ensures d.canvas[r][c] == if d.cursor && r == d.row && c == d.col then CursorTile(DisplayRow(t, r)[c])
                              else DrawCell(DisplayRow(t, r)[c])
  {
    assert CoherentRow(d, r);
    assert d.shadow[r][c] == Lift(DisplayRow(t, r))[c];
  }

  lemma RenderedTile(t: Live, d: Rendered, r: int, c: int)
    requires Coherent(d) && 0 <= r < ROWS && 0 <= c < COLS
    ensures Render(t, d).canvas[r][c] == FullRedraw(t)[r][c]
  {
    FullRedrawTile(t, r, c);
    if Idle(t, d) {
      UnchangedRowTile(t, d, r, c);
    } else {
      if ShowsCursor(t) {
        LiveRowUnderCursor(t);
      }
      if !Redrawn(t, d, r) {
        UnchangedRowTile(t, d, r, c);
      }
    }
  }

  lemma RenderedShadow(t: Live, d: Rendered, r: int)
    requires 0 <= r < ROWS
    ensures Render(t, d).shadow[r] == Lift(DisplayRow(t, r))
  {
    if Idle(t, d) {
      assert RowUnchanged(t, d, r);
    }
  }

  /** Every pass leaves the canvas exactly as drawing everything would, and ready for the next one. */
  lemma {:induction false} RenderIsFullRedraw(t: Live, d: Rendered)
    requires Coherent(d)
    ensures Render(t, d).canvas == FullRedraw(t) && Coherent(Render(t, d))
  {
    var d' := Render(t, d);
    forall r | 0 <= r < ROWS
      ensures d'.canvas[r] == FullRedraw(t)[r] && CoherentRow(d', r)
    {
      RenderedShadow(t, d, r);
      forall c | 0 <= c < COLS
        ensures d'.canvas[r][c] == FullRedraw(t)[r][c]
        ensures d'.shadow[r][c].Some? && d'.canvas[r][c] == ExpectedTile(d', r, c)
      {
        RenderedTile(t, d, r, c);
        FullRedrawTile(t, r, c);
      }
    }
  }

  // ---- Whole sessions ----

  datatype Event = Output(bs: seq<byte>) | Scroll(delta: int) | Refresh

  function Handle(t: Live, e: Event): Live {
    match e
    case Output(bs) => Feed(t, bs)
    case Scroll(delta) => ScrollBy(t, delta)
    case Refresh => t
  }

  function Session(es: seq<Event>): Live {
    if es == [] then Fresh() else Handle(Session(es[..|es| - 1]), es[|es| - 1])
  }

  /** The renderer's memory and canvas along a session; the canvas starts out with arbitrary content. */
  function Drawn(es: seq<Event>, canvas: Canvas): Rendered {
    if es == [] then Unrendered(canvas)
    else
      var d := Drawn(es[..|es| - 1], canvas);
      if es[|es| - 1].Refresh? then Render(Session(es[..|es| - 1]), d) else d
  }

  function Unrendered(canvas: Canvas): Rendered {
    Rendered(seq(ROWS, _ => UNSET_ROW), -1, -1, false, -1, canvas)
  }

  /** In any interleaving of output, scrolling and refreshing, every refresh ends with the canvas of a full redraw. */
  lemma {:induction false} EveryRefreshIsFullRedraw(es: seq<Event>, canvas: Canvas)
    ensures Coherent(Drawn(es, canvas))
    ensures es != [] && es[|es| - 1].Refresh? ==> Drawn(es, canvas).canvas == FullRedraw(Session(es))
    decreases |es|
  {
    if es != [] {
      var front := es[..|es| - 1];
      EveryRefreshIsFullRedraw(front, canvas);
      RenderIsFullRedraw(Session(front), Drawn(front, canvas));
    }
  }
}
