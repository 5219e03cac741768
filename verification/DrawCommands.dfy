/** The draw commands of one pass. Text commands point into a scratch buffer that is read only when the layer is
    finished, so a pass is right only if no slice is overwritten before then. */
module DrawCommands {
  import opened Bytes
  import opened Cells
  import opened RenderModel

  datatype Command =
    | Fill(row: int, col: int, len: int, color: nat)
    | Text(row: int, col: int, len: int, color: nat, at: int)

  predicate InRange(cmd: Command, limit: int) {
    && 0 <= cmd.row < ROWS && 0 <= cmd.col && 0 < cmd.len && cmd.col + cmd.len <= COLS
    && (cmd.Text? ==> 0 <= cmd.at && cmd.at + cmd.len <= limit)
  }

  /** The text slices of a layer lie one after the other and take up exactly the first `used` bytes. */
  predicate Packed(layer: seq<Command>, used: int) {
    if layer == [] then used == 0
    else
      var front, last := layer[..|layer| - 1], layer[|layer| - 1];
      InRange(last, used) &&
      if last.Text? then last.at + last.len == used && Packed(front, last.at) else Packed(front, used)
  }

  function InkTile(tile: Tile, ch: byte, ink: nat): Tile {
    Inked(tile.paper, ch, ink)
  }

  function ApplyTile(tile: Tile, cmd: Command, c: int, scratch: seq<byte>): Tile
    requires InRange(cmd, |scratch|)
  {
    if !(cmd.col <= c < cmd.col + cmd.len) then tile
    else match cmd
      case Fill(_, _, _, color) => Bare(color)
      case Text(_, col, _, color, at) => InkTile(tile, scratch[at + c - col], color)
  }

  function Apply(canvas: Canvas, cmd: Command, scratch: seq<byte>): Canvas
    requires InRange(cmd, |scratch|)
  {
    canvas[cmd.row := seq(COLS, c requires 0 <= c < COLS => ApplyTile(canvas[cmd.row][c], cmd, c, scratch))]
  }

  /** The canvas after executing a whole layer with the scratch buffer's final content. */
  function Execute(canvas: Canvas, layer: seq<Command>, used: int, scratch: seq<byte>): Canvas
    requires Packed(layer, used) && used <= |scratch|
    decreases |layer|
  {
    if layer == [] then canvas
    else
      var front, last := layer[..|layer| - 1], layer[|layer| - 1];
      Apply(Execute(canvas, front, if last.Text? then last.at else used, scratch), last, scratch)
  }

  /** Bytes beyond the slices in use do not matter. */
  lemma {:induction false} ExecuteFrame(canvas: Canvas, layer: seq<Command>, used: int, s: seq<byte>, s': seq<byte>)
    requires Packed(layer, used) && 0 <= used <= |s| && used <= |s'| && s[..used] == s'[..used]
    ensures Execute(canvas, layer, used, s) == Execute(canvas, layer, used, s')
    decreases |layer|
  {
    if layer != [] {
      var front, last := layer[..|layer| - 1], layer[|layer| - 1];
      var before := if last.Text? then last.at else used;
      assert s[..before] == s[..used][..before] && s'[..before] == s'[..used][..before];
      ExecuteFrame(canvas, front, before, s, s');
      var cv := Execute(canvas, front, before, s);
      forall c | 0 <= c < COLS
        ensures ApplyTile(cv[last.row][c], last, c, s) == ApplyTile(cv[last.row][c], last, c, s')
      {
        if last.Text? && last.col <= c < last.col + last.len {
          var i := last.at + c - last.col;
          assert s[i] == s[..used][i] && s'[i] == s'[..used][i];
        }
      }
      assert Apply(cv, last, s)[last.row] == Apply(cv, last, s')[last.row];
    }
  }

  /** The batch for one run: paint the background, then the characters from the next free slice. */
  function Batch(r: int, c: int, len: int, paper: nat, ink: nat, used: int): seq<Command> {
    [Fill(r, c, len, paper), Text(r, c, len, ink, used)]
  }

  /** Row r of the canvas with its first n tiles drawn from `row`. */
  function PartRow(canvas: Canvas, r: int, row: Row, n: int): Canvas
    requires 0 <= r < ROWS && 0 <= n <= COLS
  {
    canvas[r := seq(COLS, c requires 0 <= c < COLS => if c < n then DrawCell(row[c]) else canvas[r][c])]
  }

  predicate SameStyle(a: Cell, b: Cell) {
    a.fg == b.fg && a.bg == b.bg && a.attrs == b.attrs
  }

  lemma AppendBatch(canvas: Canvas, layer: seq<Command>, used: int, scratch: seq<byte>,
                    r: int, c: int, len: int, paper: nat, ink: nat)
    requires Packed(layer, used) && 0 <= used && used + len <= |scratch|
    requires 0 <= r < ROWS && 0 <= c && 0 < len && c + len <= COLS
    ensures Packed(layer + Batch(r, c, len, paper, ink, used), used + len)
    ensures Execute(canvas, layer + Batch(r, c, len, paper, ink, used), used + len, scratch)
         == Apply(Apply(Execute(canvas, layer, used, scratch), Fill(r, c, len, paper), scratch),
                  Text(r, c, len, ink, used), scratch)
  {
    var fill, text := Fill(r, c, len, paper), Text(r, c, len, ink, used);
    var l1 := layer + [fill];
    assert l1[..|layer|] == layer;
    assert Packed(l1, used);
    var l2 := l1 + [text];
    assert l2[..|l1|] == l1;
    assert Packed(l2, used + len);
    assert l2 == layer + Batch(r, c, len, paper, ink, used);
  }

  /** The canvas of a backend that carries out each command when it is issued, with the scratch buffer as it is then. */
  function AtOnce(canvas: Canvas, batch: seq<Command>, scratch: seq<byte>): Canvas
    requires forall i :: 0 <= i < |batch| ==> InRange(batch[i], |scratch|)
  {
    if batch == [] then canvas else Apply(AtOnce(canvas, batch[..|batch| - 1], scratch), batch[|batch| - 1], scratch)
  }

  lemma AtOnceBatch(canvas: Canvas, r: int, c: int, len: int, paper: nat, ink: nat, used: int, scratch: seq<byte>)
    requires 0 <= used && used + len <= |scratch|
    requires 0 <= r < ROWS && 0 <= c && 0 < len && c + len <= COLS
    ensures AtOnce(canvas, Batch(r, c, len, paper, ink, used), scratch)
         == Apply(Apply(canvas, Fill(r, c, len, paper), scratch), Text(r, c, len, ink, used), scratch)
  {
    var fill, text := Fill(r, c, len, paper), Text(r, c, len, ink, used);
    var batch := Batch(r, c, len, paper, ink, used);
    assert batch[..1] == [fill] && [fill][..0] == [];
    assert AtOnce(canvas, [], scratch) == canvas;
    assert AtOnce(canvas, [fill], scratch) == Apply(canvas, fill, scratch);
  }

  /** Carrying out a batch when it is issued and executing the whole layer later stay in step, provided that issuing
      it left the slices already in use alone. */
  lemma NowOrLater(canvas: Canvas, layer: seq<Command>, used: int, before: seq<byte>, scratch: seq<byte>,
                   r: int, c: int, len: int, paper: nat, ink: nat)
    requires 0 <= r < ROWS && 0 <= c && 0 < len && c + len <= COLS
    requires Packed(layer, used) && 0 <= used <= |before| && used + len <= |scratch| && before[..used] == scratch[..used]
    ensures var batch := Batch(r, c, len, paper, ink, used);
            && Packed(layer + batch, used + len)
            && Execute(canvas, layer + batch, used + len, scratch)
               == AtOnce(Execute(canvas, layer, used, before), batch, scratch)
  {
    ExecuteFrame(canvas, layer, used, before, scratch);
    AppendBatch(canvas, layer, used, scratch, r, c, len, paper, ink);
    AtOnceBatch(Execute(canvas, layer, used, scratch), r, c, len, paper, ink, used, scratch);
  }

  lemma PaintTiles(canvas: Canvas, r: int, row: Row, c: int, len: int, used: int, scratch: seq<byte>)
    requires 0 <= r < ROWS && 0 <= c && 0 < len && c + len <= COLS
    requires 0 <= used && used + len <= |scratch|
    requires forall i :: c <= i < c + len ==> SameStyle(row[c], row[i]) && scratch[used + i - c] == Shown(row[i].ch)
    ensures Apply(Apply(PartRow(canvas, r, row, c), Fill(r, c, len, PaperOf(row[c])), scratch),
                  Text(r, c, len, InkOf(row[c]), used), scratch)
         == PartRow(canvas, r, row, c + len)
  {
    var start := PartRow(canvas, r, row, c);
    var filled := Apply(start, Fill(r, c, len, PaperOf(row[c])), scratch);
    var done := Apply(filled, Text(r, c, len, InkOf(row[c]), used), scratch);
    forall i | 0 <= i < COLS ensures done[r][i] == PartRow(canvas, r, row, c + len)[r][i] {
      if c <= i < c + len {
        assert scratch[used + i - c] == Shown(row[i].ch);
      }
    }
    assert done[r] == PartRow(canvas, r, row, c + len)[r];
  }

  /** Drawing one run extends the drawn part of the row by exactly the run. */
  lemma PaintRun(canvas: Canvas, r: int, row: Row, c: int, len: int, used: int, scratch: seq<byte>)
    requires 0 <= r < ROWS && 0 <= c && 0 < len && c + len <= COLS
    requires 0 <= used && used + len <= |scratch|
    requires forall i :: c <= i < c + len ==> SameStyle(row[c], row[i]) && scratch[used + i - c] == Shown(row[i].ch)
    ensures AtOnce(PartRow(canvas, r, row, c), Batch(r, c, len, PaperOf(row[c]), InkOf(row[c]), used), scratch)
         == PartRow(canvas, r, row, c + len)
  {
    PaintTiles(canvas, r, row, c, len, used, scratch);
    AtOnceBatch(PartRow(canvas, r, row, c), r, c, len, PaperOf(row[c]), InkOf(row[c]), used, scratch);
  }

  /** A batch of one tile: how the cursor is drawn. */
  lemma PaintCursor(canvas: Canvas, r: int, c: int, cell: Cell, used: int, scratch: seq<byte>)
    requires 0 <= r < ROWS && 0 <= c < COLS && 0 <= used < |scratch| && scratch[used] == Shown(cell.ch)
    ensures AtOnce(canvas, Batch(r, c, 1, PALETTE[cell.fg], PALETTE[cell.bg], used), scratch)
         == canvas[r := canvas[r][c := CursorTile(cell)]]
  {
    var done := Apply(Apply(canvas, Fill(r, c, 1, PALETTE[cell.fg]), scratch),
                      Text(r, c, 1, PALETTE[cell.bg], used), scratch);
    AtOnceBatch(canvas, r, c, 1, PALETTE[cell.fg], PALETTE[cell.bg], used, scratch);
    assert done[r] == canvas[r][c := CursorTile(cell)];
  }
}
