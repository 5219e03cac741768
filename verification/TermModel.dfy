/** The emulator as a function of its state: what each byte, escape sequence and scroll request does. */
module TermModel {
  import opened Bytes
  import opened Cells
  import opened CsiParams

  const SCROLLBACK := 300
  const ESC: byte := 0x1B
  const BEL: byte := 0x07
  const CR: byte := 0x0D
  const LF: byte := 0x0A
  const BS: byte := 0x08
  const TAB: byte := 0x09

  datatype ParserState = Normal | Esc | Charset | Csi | Osc

  /** `hist` holds every row ever pushed; the ring retains the last Count of them. */
  datatype Term = Term(
    main: Grid, alt: Grid, altActive: bool,
    row: int, col: int, pen: Pen, cursorVisible: bool,
    savedRow: int, savedCol: int, savedPen: Pen,
    top: int, bottom: int, pendingWrap: bool,
    hist: seq<Row>, offset: int,
    state: ParserState, csi: CsiText, csiPrivate: bool, appCursorKeys: bool)

  function Count(t: Term): (n: nat) {
    if |t.hist| < SCROLLBACK then |t.hist| else SCROLLBACK
  }

  function Active(t: Term): Grid {
    if t.altActive then t.alt else t.main
  }

  function WithGrid(t: Term, g: Grid): Term {
    if t.altActive then t.(alt := g) else t.(main := g)
  }

  function Pos(t: Term): int {
    t.row * COLS + t.col
  }

  /** The emulator invariant. */
  predicate Wf(t: Term) {
    && 0 <= t.row < ROWS && 0 <= t.col < COLS
    && 0 <= t.savedRow < ROWS && 0 <= t.savedCol < COLS
    && 0 <= t.top < t.bottom <= ROWS - 1
    && 0 <= t.offset <= Count(t)
  }

  predicate KeepsHistory(t: Term, r: Term) {
    r.hist == t.hist && r.offset == t.offset
  }

  /** What scrolling, erasing and cursor movement leave alone. Under the alternate screen that includes the main
      grid, the history and the view offset. */
  predicate ScreenOnly(t: Term, r: Term) {
    && r.altActive == t.altActive && r.state == t.state && r.pendingWrap == t.pendingWrap
    && r.savedRow == t.savedRow && r.savedCol == t.savedCol && r.savedPen == t.savedPen
    && (if t.altActive then r.main == t.main && KeepsHistory(t, r) else r.alt == t.alt)
  }

  function Fresh(): (t: Term)
    ensures Wf(t)
  {
    var g := BlankGrid(Blank(DEFAULT_PEN));
    Term(g, g, false, 0, 0, DEFAULT_PEN, true, 0, 0, Pen(0, 0, 0), 0, ROWS - 1, false, [], 0,
         Normal, [], false, false)
  }

  /** A terminal in use: one that satisfies the invariant. */
  type Live = t: Term | Wf(t) witness Fresh()

  /** Everything ESC c sets besides clearing the active grid. */
  function Reset(t: Term): (r: Term) {
    t.(row := 0, col := 0, pen := DEFAULT_PEN, cursorVisible := true, top := 0, bottom := ROWS - 1,
       appCursorKeys := false, state := Normal, csi := [], csiPrivate := false, pendingWrap := false)
  }

  // ---- Scrolling ----

  function Push(t: Term, row: Row): (r: Term)
    requires Wf(t)
    ensures Wf(r)
    ensures ScreenOnly(t, r) && r.col == t.col
  {
    if t.altActive then t
    else
      var u := t.(hist := t.hist + [row]);
      if t.offset > 0 then u.(offset := Min(t.offset + 1, Count(u))) else u
  }

  /** The rows of the scroll region move up. */
  function ShiftRegion(t: Term): (r: Term)
    requires Wf(t)
    ensures Wf(r)
    ensures ScreenOnly(t, r) && r.col == t.col && KeepsHistory(t, r)
  {
    WithGrid(t, ShiftUp(Active(t), t.top, t.bottom, Blank(t.pen)))
  }

  function ScrollRegionUp(t: Term): (r: Term)
    requires Wf(t)
    ensures Wf(r)
    ensures ScreenOnly(t, r) && r.col == t.col
  {
    ShiftRegion(if t.top == 0 && t.bottom == ROWS - 1 then Push(t, RowAt(Active(t), 0)) else t)
  }

  function LineFeed(t: Term): (r: Term)
    requires Wf(t)
    ensures Wf(r)
    ensures ScreenOnly(t, r) && r.col == t.col
  {
    if t.row == t.bottom then ScrollRegionUp(t)
    else if t.row < ROWS - 1 then t.(row := t.row + 1)
    else t
  }

  lemma PushIgnoresWrap(t: Live, row: Row)
    ensures Push(t, row).(pendingWrap := false) == Push(t.(pendingWrap := false), row)
  {
  }

  lemma ScrollIgnoresWrap(t: Live)
    ensures ScrollRegionUp(t).(pendingWrap := false) == ScrollRegionUp(t.(pendingWrap := false))
  {
    PushIgnoresWrap(t, RowAt(Active(t), 0));
  }

  /** Nothing in a line feed depends on the deferred-wrap flag. */
  lemma {:induction false} LineFeedIgnoresWrap(t: Live)
    ensures LineFeed(t).(pendingWrap := false) == LineFeed(t.(pendingWrap := false))
  {
    if t.row == t.bottom {
      ScrollIgnoresWrap(t);
      assert LineFeed(t.(pendingWrap := false)) == ScrollRegionUp(t.(pendingWrap := false));
      assert LineFeed(t) == ScrollRegionUp(t);
    }
  }

  // ---- Control sequences ----

  function Erase(t: Term, lo: int, hi: int): (r: Term)
    requires Wf(t)
    ensures Wf(r)
    ensures ScreenOnly(t, r)
    ensures KeepsHistory(t, r)
  {
    WithGrid(t, FillSpan(Active(t), lo, hi, Blank(t.pen)))
  }

  function EraseInLine(t: Term, mode: int): (r: Term)
    requires Wf(t)
    ensures Wf(r)
    ensures ScreenOnly(t, r)
    ensures KeepsHistory(t, r)
  {
    var start, end := t.row * COLS, t.row * COLS + COLS - 1;
    if mode == 1 then Erase(t, start, Pos(t))
    else if mode == 2 then Erase(t, start, end)
    else Erase(t, Pos(t), end)
  }

  function EraseInDisplay(t: Term, mode: int): (r: Term)
    requires Wf(t)
    ensures Wf(r)
    ensures ScreenOnly(t, r)
    ensures KeepsHistory(t, r)
  {
    if mode == 1 then Erase(t, 0, Pos(t))
    else if mode == 2 || mode == 3 then Erase(t, 0, CELLS - 1)
    else Erase(t, Pos(t), CELLS - 1)
  }

  // One SGR parameter, property by property. Negative stands for omitted and means 0, the full reset.

  function FgAfter(fg: Color, p: int): Color {
    if p <= 0 || p == 39 then DEFAULT_FG
    else if 30 <= p <= 37 then p - 30
    else if 90 <= p <= 97 then 8 + (p - 90)
    else fg
  }

  function BgAfter(bg: Color, p: int): Color {
    if p <= 0 || p == 49 then DEFAULT_BG
    else if 40 <= p <= 47 then p - 40
    else if 100 <= p <= 107 then 8 + (p - 100)
    else bg
  }

  function AttrsAfter(a: bv8, p: int): bv8 {
    if p <= 0 then 0
    else if p == 1 then a | ATTR_BOLD
    else if p == 4 then a | ATTR_UNDERL
    else if p == 7 then a | ATTR_REVERSE
    else if p == 22 then a & !ATTR_BOLD
    else if p == 24 then a & !ATTR_UNDERL
    else if p == 27 then a & !ATTR_REVERSE
    else a
  }

  function SgrOne(pen: Pen, p: int): Pen {
    Pen(FgAfter(pen.fg, p), BgAfter(pen.bg, p), AttrsAfter(pen.attrs, p))
  }

  /** The parameters of one SGR sequence, left to right. */
  function SgrAll(pen: Pen, ps: seq<int>): Pen
  {
    if ps == [] then pen else SgrOne(SgrAll(pen, ps[..|ps| - 1]), ps[|ps| - 1])
  }

  function Sgr(pen: Pen, ps: seq<int>): Pen
  {
    if ps == [] then DEFAULT_PEN else SgrAll(pen, ps)
  }

  predicate IsAltMode(mode: int) {
    mode == 47 || mode == 1047 || mode == 1049
  }

  function SetPrivateMode(t: Term, mode: int, enable: bool): (r: Term)
    requires Wf(t)
    ensures Wf(r)
    ensures r.pendingWrap == t.pendingWrap
    ensures KeepsHistory(t, r)
  {
    if mode == 1 then t.(appCursorKeys := enable)
    else if mode == 25 then t.(cursorVisible := enable)
    else if IsAltMode(mode) && enable && !t.altActive then
      var u := t.(altActive := true, alt := BlankGrid(Blank(DEFAULT_PEN)), row := 0, col := 0);
      if mode == 1049 then u.(savedRow := t.row, savedCol := t.col) else u
    else if IsAltMode(mode) && !enable && t.altActive then
      var u := t.(altActive := false);
      if mode == 1049 then u.(row := t.savedRow, col := t.savedCol) else u
    else t
  }

  function SetPrivateModes(t: Term, ps: seq<int>, enable: bool): (r: Term)
    requires Wf(t)
    ensures Wf(r)
    ensures r.pendingWrap == t.pendingWrap
    ensures KeepsHistory(t, r)
    decreases |ps|
  {
    if ps == [] then t
    else SetPrivateMode(SetPrivateModes(t, ps[..|ps| - 1], enable), Max(ps[|ps| - 1], 0), enable)
  }

  /** Parameter i of a position or margin report: 1-based in the text, `default` when missing or 0. */
  function Coord(ps: seq<int>, i: nat, default: int): int {
    if |ps| > i && ps[i] > 0 then ps[i] - 1 else default
  }

  function SetMargins(t: Term, top: int, bottom: int): (r: Term)
    requires Wf(t) && top >= 0
    ensures Wf(r)
    ensures ScreenOnly(t, r)
    ensures KeepsHistory(t, r)
  {
    var b := Min(bottom, ROWS - 1);
    if top < b then t.(top := top, bottom := b, row := top, col := 0)
    else t.(top := 0, bottom := ROWS - 1, row := 0, col := 0)
  }

  function Control(t: Term, ps: seq<int>, final: byte): (r: Term)
    requires Wf(t)
    ensures Wf(r)
    ensures ScreenOnly(t, r)
    ensures KeepsHistory(t, r)
  {
    var p0 := if |ps| > 0 && ps[0] >= 0 then ps[0] else 0;
    var n := if p0 == 0 then 1 else p0;
    if final == 'A' as int then t.(row := Max(t.row - n, t.top))
    else if final == 'B' as int then t.(row := Min(t.row + n, t.bottom))
    else if final == 'C' as int then t.(col := Min(t.col + n, COLS - 1))
    else if final == 'D' as int then t.(col := Max(t.col - n, 0))
    else if final == 'H' as int || final == 'f' as int then
      t.(row := Min(Coord(ps, 0, 0), ROWS - 1), col := Min(Coord(ps, 1, 0), COLS - 1))
    else if final == 'J' as int then EraseInDisplay(t, p0)
    else if final == 'K' as int then EraseInLine(t, p0)
    else if final == 'm' as int then t.(pen := Sgr(t.pen, ps))
    else if final == 'r' as int then SetMargins(t, Coord(ps, 0, 0), Coord(ps, 1, ROWS - 1))
    else t
  }

  /** What a complete control sequence does, given its decoded parameter list. */
  function Dispatch(t: Term, ps: seq<int>, final: byte): (r: Term)
    requires Wf(t)
    ensures Wf(r)
    ensures !r.pendingWrap
    ensures KeepsHistory(t, r)
  {
    var u := t.(pendingWrap := false);
    if !t.csiPrivate then Control(u, ps, final)
    else if final == 'h' as int || final == 'l' as int then SetPrivateModes(u, ps, final == 'h' as int)
    else u
  }

  // ---- One byte ----

  function PutEsc(t: Term, c: byte): (r: Term)
    requires Wf(t)
    ensures Wf(r)
    ensures KeepsHistory(t, r)
  {
    var u := t.(state := Normal);
    if c == '[' as int then t.(state := Csi, csi := [], csiPrivate := false)
    else if c == ']' as int then t.(state := Osc)
    else if c == '(' as int || c == ')' as int || c == '*' as int || c == '+' as int then t.(state := Charset)
    else if c == '7' as int then u.(savedRow := t.row, savedCol := t.col, savedPen := t.pen)
    else if c == '8' as int then u.(row := t.savedRow, col := t.savedCol, pen := t.savedPen)
    else if c == 'c' as int then WithGrid(Reset(t), BlankGrid(Blank(DEFAULT_PEN)))
    else u
  }

  function PutCsi(t: Term, c: byte): (r: Term)
    requires Wf(t)
    ensures Wf(r)
    ensures KeepsHistory(t, r)
  {
    if c == '?' as int && t.csi == [] then t.(csiPrivate := true)
    else if IsDigit(c) || c == SEMI then
      if |t.csi| < CSI_MAX then t.(csi := t.csi + [c]) else t
    else Dispatch(t.(state := Normal), Parse(t.csi, MAX_PARAMS), c)
  }

  predicate IsPrintable(c: byte) {
    0x20 <= c <= 0x7E
  }

  /** A deferred wrap is carried out. */
  function Wrap(t: Term): (r: Term)
    requires Wf(t)
    ensures Wf(r)
    ensures ScreenOnly(t.(pendingWrap := false), r.(pendingWrap := false))
    ensures !r.pendingWrap && r.col == if t.pendingWrap then 0 else t.col
  {
    if t.pendingWrap then LineFeed(t.(col := 0, pendingWrap := false)) else t
  }

  /** The character goes to the cursor's cell; after the last column the wrap is deferred. */
  function PutGlyph(t: Term, c: byte): (r: Term)
    requires Wf(t)
    ensures Wf(r)
    ensures ScreenOnly(t.(pendingWrap := false), r.(pendingWrap := false)) && KeepsHistory(t, r)
    ensures r.col == Min(t.col + 1, COLS - 1) && (r.pendingWrap <==> t.pendingWrap || t.col == COLS - 1)
  {
    var v := WithGrid(t, Active(t)[Pos(t) := Glyph(c, t.pen)]);
    if t.col == COLS - 1 then v.(pendingWrap := true) else v.(col := t.col + 1)
  }

  function PutPrintable(t: Term, c: byte): (r: Term)
    requires Wf(t)
    ensures Wf(r)
    ensures ScreenOnly(t.(pendingWrap := false), r.(pendingWrap := false))
  {
    PutGlyph(Wrap(t), c)
  }

  function PutNormal(t: Term, c: byte): (r: Term)
    requires Wf(t)
    ensures Wf(r)
  {
    var u := t.(pendingWrap := false);
    if c == ESC then t.(state := Esc)
    else if c == CR then u.(col := 0)
    else if c == LF then LineFeed(u)
    else if c == BS then u.(col := Max(t.col - 1, 0))
    else if c == TAB then u.(col := Min((t.col / 8 + 1) * 8, COLS - 1))
    else if IsPrintable(c) then PutPrintable(t, c)
    else t
  }

  function PutC(t: Term, c: byte): (r: Term)
    requires Wf(t)
    ensures Wf(r)
  {
    match t.state
    case Esc => PutEsc(t, c)
    case Charset => t.(state := Normal)
    case Csi => PutCsi(t, c)
    case Osc => if c == BEL || c == ESC then t.(state := Normal) else t
    case Normal => PutNormal(t, c)
  }

  /** The emulator after a whole byte string. */
  function Feed(t: Live, bs: seq<byte>): Live
    decreases |bs|
  {
    if bs == [] then t else PutC(Feed(t, bs[..|bs| - 1]), bs[|bs| - 1])
  }

  function ScrollBy(t: Term, delta: int): (r: Term)
    requires Wf(t)
    ensures Wf(r)
  {
    t.(offset := Min(Max(t.offset + delta, 0), Count(t)))
  }

  // ---- Feeding in pieces ----

  lemma FeedSnoc(t: Live, bs: seq<byte>, c: byte)
    ensures Feed(t, bs + [c]) == PutC(Feed(t, bs), c)
  {
    assert (bs + [c])[..|bs|] == bs;
  }

  /** However a byte stream is cut, the emulator ends in the same state. */
  lemma {:induction false} FeedAppend(t: Live, a: seq<byte>, b: seq<byte>)
    ensures Feed(t, a + b) == Feed(Feed(t, a), b)
    decreases |b|
  {
    if b == [] {
      assert a + b == a;
    } else {
      var front := b[..|b| - 1];
      assert (a + b)[..|a + b| - 1] == a + front;
      FeedAppend(t, a, front);
    }
  }
}
