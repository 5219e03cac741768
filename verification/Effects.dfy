/** What the emulator does, said once more from its bytes to the fields they change: which cells a command touches and
    what is in them afterwards, where the cursor goes, what a switch switches. */
module Effects {
  import opened Bytes
  import opened Cells
  import opened CsiParams
  import opened TermModel
  import opened ControlSequences
  import opened EscapeSequences
  import opened HistoryView
  import opened Sgr

  /** ESC [ params final, or ESC [ ? params final. */
  function Sequence(private: bool, params: seq<byte>, final: byte): seq<byte> {
    Introducer(private) + params + [final]
  }

  /** The parameters that the emulator reads from a text. */
  function ReadFrom(params: seq<byte>): seq<int>
    requires Clean(params)
  {
    Parse(Kept(params), MAX_PARAMS)
  }

  /** Parameter i, or `default` when it is missing, omitted or 0. */
  function Nth(ps: seq<int>, i: nat, default: int): int {
    if i < |ps| && ps[i] > 0 then ps[i] else default
  }

  /** The cell at row r and column c of the screen in use. */
  function CellOn(t: Live, r: int, c: int): Cell
    requires 0 <= r < ROWS && 0 <= c < COLS
  {
    (if t.altActive then t.alt else t.main)[r * COLS + c]
  }

  /** A cell that was erased with this pen. */
  predicate IsErased(cell: Cell, pen: Pen) {
    cell == Cell(32, pen.fg, pen.bg, 0)
  }

  /** Only cells of the screen in use differ. */
  predicate OnlyDraws(t: Live, t': Live) {
    && t' == t.(main := t'.main, alt := t'.alt)
    && (if t.altActive then t'.main == t.main else t'.alt == t.alt)
  }

  /** The state that a complete sequence starts its command from. */
  function Received(t: Live, private: bool, params: seq<byte>): Live
    requires Clean(params)
  {
    t.(pendingWrap := false, csi := Kept(params), csiPrivate := private)
  }

  lemma {:induction false} Runs(t: Live, private: bool, params: seq<byte>, final: byte)
    requires t.state == Normal && Clean(params) && EndsSequence(params, final)
    ensures Feed(t, Sequence(private, params, final))
         == Dispatch(t.(csi := Kept(params), csiPrivate := private), ReadFrom(params), final)
  {
    SequenceReachesDispatch(t, private, params, final);
  }

  lemma {:induction false} RunsPublic(t: Live, params: seq<byte>, final: byte)
    requires t.state == Normal && Clean(params) && EndsSequence(params, final)
    ensures Feed(t, Sequence(false, params, final)) == Control(Received(t, false, params), ReadFrom(params), final)
  {
    Runs(t, false, params, final);
  }

  lemma {:induction false} RunsPrivate(t: Live, params: seq<byte>, enable: bool)
    requires t.state == Normal && Clean(params)
    ensures Feed(t, Sequence(true, params, if enable then 'h' as int else 'l' as int))
         == SetPrivateModes(Received(t, true, params), ReadFrom(params), enable)
  {
    Runs(t, true, params, if enable then 'h' as int else 'l' as int);
  }

  // ---- Printing ----

  /** A printable byte in text state: it goes to the cursor's cell with the pen's colours and attributes, no other cell
      changes, and the cursor moves on or, from the last column, stays with the wrap deferred. */
  lemma Printed(t: Live, c: byte, r: int, k: int)
    requires t.state == Normal && 0x20 <= c <= 0x7E && !t.pendingWrap && 0 <= r < ROWS && 0 <= k < COLS
    ensures var t' := PutC(t, c);
            var cell := CellOn(t', r, k);
            && cell == (if r == t.row && k == t.col then Cell(c, t.pen.fg, t.pen.bg, t.pen.attrs) else CellOn(t, r, k))
            && OnlyDraws(t.(col := Min(t.col + 1, 79), pendingWrap := t.col == 79), t')
  {
    assert PutC(t, c) == PutGlyph(t, c);
    GlyphCell(t, c, r, k);
  }

  lemma GlyphCell(t: Live, c: byte, r: int, k: int)
    requires 0 <= r < ROWS && 0 <= k < COLS
    ensures CellOn(PutGlyph(t, c), r, k)
         == if r == t.row && k == t.col then Cell(c, t.pen.fg, t.pen.bg, t.pen.attrs) else CellOn(t, r, k)
  {
  }

  /** With a wrap pending the byte is printed as if CR LF had come before it. */
  lemma {:induction false} WrapIsNewLine(t: Live, c: byte)
    requires t.state == Normal && 0x20 <= c <= 0x7E && t.pendingWrap
    ensures PutC(t, c) == PutC(Feed(t, [CR, LF]), c)
  {
    FeedSnoc(t, [CR], LF);
    FeedSnoc(t, [], CR);
    assert [CR] + [LF] == [CR, LF] && [] + [CR] == [CR];
    assert Feed(t, []) == t;
    var u := LineFeed(t.(col := 0, pendingWrap := false));
    assert Feed(t, [CR, LF]) == u && Wrap(t) == u && Wrap(u) == u;
  }

  /** From an SGR sequence to the cell of the next character: each property of the cell is what the last parameter
      read that sets it says, or the pen's. */
  lemma {:induction false} StyledCell(t: Live, params: seq<byte>, c: byte, prop: Property)
    requires t.state == Normal && Clean(params) && 0x20 <= c <= 0x7E
    ensures var t' := Feed(t, Sequence(false, params, 'm' as int) + [c]);
            var cell := CellOn(t', t.row, t.col);
            && cell.ch == c
            && Get(Pen(cell.fg, cell.bg, cell.attrs), prop)
               == LastSetting(Effective(ReadFrom(params)), prop, Get(t.pen, prop))
  {
    var u := Feed(t, Sequence(false, params, 'm' as int));
    LastParameterWins(t, params, prop);
    FeedSnoc(t, Sequence(false, params, 'm' as int), c);
    Printed(u, c, t.row, t.col);
  }

  // ---- Erasing ----

  /** The mode of an erasure: 0 when it is missing or omitted. */
  function EraseMode(ps: seq<int>): int {
    if ps == [] || ps[0] == -1 then 0 else ps[0]
  }

  /** Cell (r, c) is erased if it is meant to be, and otherwise as it was; nothing else changes. */
  predicate ErasesIf(u: Live, u': Live, r: int, c: int, meant: bool)
    requires 0 <= r < ROWS && 0 <= c < COLS
  {
    && (if meant then IsErased(CellOn(u', r, c), u.pen) else CellOn(u', r, c) == CellOn(u, r, c))
    && OnlyDraws(u, u')
  }

  lemma EraseOnlyDraws(u: Live, lo: int, hi: int)
    ensures OnlyDraws(u, Erase(u, lo, hi))
  {
  }

  lemma DisplayErased(u: Live, mode: int, r: int, c: int)
    requires 0 <= r < ROWS && 0 <= c < COLS
    ensures var before := r < u.row || (r == u.row && c < u.col);
            var after := r > u.row || (r == u.row && c > u.col);
            ErasesIf(u, EraseInDisplay(u, mode), r, c, if mode == 1 then !after else mode == 2 || mode == 3 || !before)
  {
    EraseInDisplayCell(u, mode, r, c);
    CellAt(Active(u), r, c);
    CellAt(Active(EraseInDisplay(u, mode)), r, c);
    EraseOnlyDraws(u, if mode == 1 || mode == 2 || mode == 3 then 0 else Pos(u), if mode == 1 then Pos(u) else CELLS - 1);
  }

  lemma LineErased(u: Live, mode: int, r: int, c: int)
    requires 0 <= r < ROWS && 0 <= c < COLS
    ensures ErasesIf(u, EraseInLine(u, mode), r, c,
                     r == u.row && (if mode == 1 then c <= u.col else mode == 2 || c >= u.col))
  {
    EraseInLineCell(u, mode, r, c);
    CellAt(Active(u), r, c);
    CellAt(Active(EraseInLine(u, mode)), r, c);
  }

  /** ESC [ ... J: mode 1 erases up to the cursor, 2 and 3 everything, every other mode from the cursor on. */
  lemma {:induction false} EraseDisplay(t: Live, params: seq<byte>, r: int, c: int)
    requires t.state == Normal && Clean(params) && 0 <= r < ROWS && 0 <= c < COLS
    ensures var t' := Feed(t, Sequence(false, params, 'J' as int));
            var mode := EraseMode(ReadFrom(params));
            var before := r < t.row || (r == t.row && c < t.col);
            var after := r > t.row || (r == t.row && c > t.col);
            ErasesIf(Received(t, false, params), t', r, c,
                     if mode == 1 then !after else mode == 2 || mode == 3 || !before)
  {
    RunsPublic(t, params, 'J' as int);
    DisplayErased(Received(t, false, params), EraseMode(ReadFrom(params)), r, c);
  }

  /** ESC [ ... K: the same on the cursor's row only, mode 3 like every other mode. */
  lemma {:induction false} EraseLine(t: Live, params: seq<byte>, r: int, c: int)
    requires t.state == Normal && Clean(params) && 0 <= r < ROWS && 0 <= c < COLS
    ensures var t' := Feed(t, Sequence(false, params, 'K' as int));
            var mode := EraseMode(ReadFrom(params));
            ErasesIf(Received(t, false, params), t', r, c,
                     r == t.row && (if mode == 1 then c <= t.col else mode == 2 || c >= t.col))
  {
    RunsPublic(t, params, 'K' as int);
    LineErased(Received(t, false, params), EraseMode(ReadFrom(params)), r, c);
  }

  /** The row that a scroll leaves behind is erased with the pen in use. */
  lemma ScrolledInCell(t: Live, c: int)
    requires t.row == t.bottom && 0 <= c < COLS
    ensures IsErased(CellOn(LineFeed(t), t.bottom, c), t.pen)
  {
    LineFeedRow(t, t.bottom);
    CellAt(Active(LineFeed(t)), t.bottom, c);
  }

  // ---- The cursor and the margins ----

  /** ESC [ r ; c H, and the same with f: counted from 1, kept on the screen. */
  lemma {:induction false} PlaceCursor(t: Live, params: seq<byte>, final: byte)
    requires t.state == Normal && Clean(params) && (final == 'H' as int || final == 'f' as int)
    ensures var ps := ReadFrom(params);
            Feed(t, Sequence(false, params, final))
              == Received(t, false, params).(row := Min(Nth(ps, 0, 1), 42) - 1, col := Min(Nth(ps, 1, 1), 80) - 1)
  {
    RunsPublic(t, params, final);
  }

  lemma UpOrDown(u: Live, ps: seq<int>, final: byte)
    requires final == 'A' as int || final == 'B' as int
    ensures var n := Nth(ps, 0, 1);
            Control(u, ps, final)
              == if final == 'A' as int then u.(row := if u.row - n < u.top then u.top else u.row - n)
                 else u.(row := if u.row + n > u.bottom then u.bottom else u.row + n)
  {
  }

  lemma RightOrLeft(u: Live, ps: seq<int>, final: byte)
    requires final == 'C' as int || final == 'D' as int
    ensures var n := Nth(ps, 0, 1);
            Control(u, ps, final)
              == if final == 'C' as int then u.(col := if u.col + n > 79 then 79 else u.col + n)
                 else u.(col := if u.col < n then 0 else u.col - n)
  {
  }

  /** ESC [ n A, B, C, D: up, down, right, left, at least once, as far as the margin or the edge. */
  lemma {:induction false} MoveCursor(t: Live, params: seq<byte>, final: byte)
    requires t.state == Normal && Clean(params) && 'A' as int <= final <= 'D' as int
    ensures var n, u := Nth(ReadFrom(params), 0, 1), Received(t, false, params);
            Feed(t, Sequence(false, params, final))
              == if final == 'A' as int then u.(row := if t.row - n < t.top then t.top else t.row - n)
                 else if final == 'B' as int then u.(row := if t.row + n > t.bottom then t.bottom else t.row + n)
                 else if final == 'C' as int then u.(col := if t.col + n > 79 then 79 else t.col + n)
                 else u.(col := if t.col < n then 0 else t.col - n)
  {
    RunsPublic(t, params, final);
    if final == 'A' as int || final == 'B' as int {
      UpOrDown(Received(t, false, params), ReadFrom(params), final);
    } else {
      RightOrLeft(Received(t, false, params), ReadFrom(params), final);
    }
  }

  lemma MarginsFrom(u: Live, ps: seq<int>)
    ensures var first, last := Nth(ps, 0, 1), Min(Nth(ps, 1, 42), 42);
            Control(u, ps, 'r' as int)
              == if first < last then u.(top := first - 1, bottom := last - 1, row := first - 1, col := 0)
                 else u.(top := 0, bottom := 41, row := 0, col := 0)
  {
  }

  /** ESC [ t ; b r: rows t to b scroll, or all 42 when that is less than two rows; the cursor goes to their top left. */
  lemma {:induction false} SetScrollRegion(t: Live, params: seq<byte>)
    requires t.state == Normal && Clean(params)
    ensures var ps, u := ReadFrom(params), Received(t, false, params);
            var first, last := Nth(ps, 0, 1), Min(Nth(ps, 1, 42), 42);
            Feed(t, Sequence(false, params, 'r' as int))
              == if first < last then u.(top := first - 1, bottom := last - 1, row := first - 1, col := 0)
                 else u.(top := 0, bottom := 41, row := 0, col := 0)
  {
    RunsPublic(t, params, 'r' as int);
    MarginsFrom(Received(t, false, params), ReadFrom(params));
  }

  /** The control characters, one by one; all others, and bytes above 0x7E, do nothing. */
  lemma {:induction false} ControlCharacter(t: Live, c: byte)
    requires t.state == Normal && !(0x20 <= c <= 0x7E) && c != 0x1B
    ensures var t', u := PutC(t, c), t.(pendingWrap := false);
            if c == 0x0D then t' == u.(col := 0)
            else if c == 0x08 then t' == u.(col := if t.col == 0 then 0 else t.col - 1)
            else if c == 0x09 then
              && t' == u.(col := t'.col)
              && (if t.col >= 72 then t'.col == 79 else t'.col % 8 == 0 && t.col < t'.col <= t.col + 8)
            else if c == 0x0A then
              t'.col == t.col && t'.row == (if t.row == t.bottom || t.row == 41 then t.row else t.row + 1)
              && !t'.pendingWrap && t'.pen == t.pen
            else t' == t
  {
    if c == 0x0A {
      LineFeedCursor(t.(pendingWrap := false));
    } else if c == 0x09 {
      TabStop(t);
    }
  }

  lemma LineFeedCursor(t: Live)
    ensures var t' := LineFeed(t);
            && t'.col == t.col && t'.row == (if t.row == t.bottom || t.row == 41 then t.row else t.row + 1)
            && t'.pendingWrap == t.pendingWrap && t'.pen == t.pen
  {
    if t.row == t.bottom {
      assert LineFeed(t) == ScrollRegionUp(t);
      assert ScrollRegionUp(t).row == t.row && ScrollRegionUp(t).pen == t.pen;
    }
  }

  lemma TabStop(t: Live)
    ensures var t' := PutNormal(t, 0x09);
            && t' == t.(pendingWrap := false, col := t'.col)
            && (if t.col >= 72 then t'.col == 79 else t'.col % 8 == 0 && t.col < t'.col <= t.col + 8)
  {
  }

  // ---- Modes ----

  /** The switches after some modes were set or reset; apart from them only the cursor, the saved position and the
      alternate screen's cells may differ. */
  predicate Switched(t: Live, t': Live, ps: seq<int>, enable: bool) {
    t' == t.(appCursorKeys := if 1 in ps then enable else t.appCursorKeys,
             cursorVisible := if 25 in ps then enable else t.cursorVisible,
             altActive := if 47 in ps || 1047 in ps || 1049 in ps then enable else t.altActive,
             row := t'.row, col := t'.col, savedRow := t'.savedRow, savedCol := t'.savedCol, alt := t'.alt)
  }

  lemma {:induction false} ModeSwitched(u: Live, mode: int, enable: bool)
    ensures Switched(u, SetPrivateMode(u, mode, enable), [mode], enable)
  {
    if IsAltMode(mode) {
      ScreenSwitched(u, mode, enable);
    }
  }

  lemma ScreenSwitched(u: Live, mode: int, enable: bool)
    requires mode == 47 || mode == 1047 || mode == 1049
    ensures Switched(u, SetPrivateMode(u, mode, enable), [mode], enable)
  {
  }

  lemma SwitchedAgain(t: Live, u: Live, v: Live, front: seq<int>, p: int, ps: seq<int>, enable: bool)
    requires Switched(t, u, front, enable) && Switched(u, v, [Max(p, 0)], enable) && ps == front + [p]
    ensures Switched(t, v, ps, enable)
  {
    assert forall x :: x in ps <==> x in front || x == p;
  }

  lemma {:induction false} ModesSwitched(t: Live, ps: seq<int>, enable: bool)
    ensures Switched(t, SetPrivateModes(t, ps, enable), ps, enable)
    decreases |ps|
  {
    if ps != [] {
      var front := ps[..|ps| - 1];
      ModesSwitched(t, front, enable);
      LastApart(ps);
      var u, p := SetPrivateModes(t, front, enable), ps[|ps| - 1];
      ModeSwitched(u, Max(p, 0), enable);
      SwitchedAgain(t, u, SetPrivateMode(u, Max(p, 0), enable), front, p, ps, enable);
    }
  }

  /** ESC [ ? ... h and ESC [ ? ... l: modes 1 and 25, and the screen in use, are set if and only if they are named; the
      main screen's cells, the pen and the margins stay. */
  lemma {:induction false} SetModes(t: Live, params: seq<byte>, enable: bool)
    requires t.state == Normal && Clean(params)
    ensures var t' := Feed(t, Sequence(true, params, if enable then 'h' as int else 'l' as int));
            Switched(Received(t, true, params), t', ReadFrom(params), enable)
  {
    RunsPrivate(t, params, enable);
    ModesSwitched(Received(t, true, params), ReadFrom(params), enable);
  }

  /** Modes 47 and 1047 switch the screen without saving or restoring the cursor; entering clears it and goes home. */
  lemma PlainAltScreen(t: Live, mode: int, enable: bool, r: int, c: int)
    requires (mode == 47 || mode == 1047) && t.altActive != enable && 0 <= r < ROWS && 0 <= c < COLS
    ensures var t' := SetPrivateMode(t, mode, enable);
            && t'.altActive == enable && t'.savedRow == t.savedRow && t'.savedCol == t.savedCol
            && (enable ==> t'.row == 0 && t'.col == 0 && CellOn(t', r, c) == Cell(32, 7, 0, 0))
            && (!enable ==> t'.row == t.row && t'.col == t.col && t'.alt == t.alt)
  {
  }

  // ---- Saving, restoring, resetting ----

  /** Byte c stores a cursor position: ESC 7, or mode 1049 being set on the main screen. */
  predicate Stores(t: Live, c: byte) {
    (t.state == Esc && c == '7' as int) ||
    (t.state == Csi && t.csiPrivate && c == 'h' as int && !t.altActive && 1049 in Parse(t.csi, MAX_PARAMS))
  }

  predicate NeverStores(t: Live, bs: seq<byte>)
    decreases |bs|
  {
    bs != [] ==>
      var front := bs[..|bs| - 1];
      NeverStores(t, front) && !Stores(Feed(t, front), bs[|bs| - 1])
  }

  predicate SameStored(t: Live, t': Live) {
    (t'.savedRow, t'.savedCol, t'.savedPen) == (t.savedRow, t.savedCol, t.savedPen)
  }

  lemma ModeKeepsStored(t: Live, mode: int, enable: bool)
    requires !(enable && !t.altActive && mode == 1049)
    ensures SameStored(t, SetPrivateMode(t, mode, enable))
    ensures enable && t.altActive ==> SetPrivateMode(t, mode, enable).altActive
  {
  }

  lemma {:induction false} ModesKeepStored(t: Live, ps: seq<int>, enable: bool)
    requires !(enable && !t.altActive && 1049 in ps)
    ensures SameStored(t, SetPrivateModes(t, ps, enable))
    ensures enable && t.altActive ==> SetPrivateModes(t, ps, enable).altActive
    decreases |ps|
  {
    if ps != [] {
      var front, p := ps[..|ps| - 1], ps[|ps| - 1];
      assert p in ps;
      assert forall x :: x in front ==> x in ps;
      ModesKeepStored(t, front, enable);
      ModeKeepsStored(SetPrivateModes(t, front, enable), Max(p, 0), enable);
    }
  }

  lemma DispatchKeepsStored(t: Live, ps: seq<int>, final: byte)
    requires !(t.csiPrivate && final == 'h' as int && !t.altActive && 1049 in ps)
    ensures SameStored(t, Dispatch(t, ps, final))
  {
    var u := t.(pendingWrap := false);
    if !t.csiPrivate {
      assert ScreenOnly(u, Control(u, ps, final));
    } else if final == 'h' as int || final == 'l' as int {
      ModesKeepStored(u, ps, final == 'h' as int);
    }
  }

  lemma PutCsiKeepsStored(t: Live, c: byte)
    requires t.state == Csi && !Stores(t, c)
    ensures SameStored(t, PutCsi(t, c))
  {
    if !(c == '?' as int && t.csi == []) && !IsDigit(c) && c != SEMI {
      DispatchKeepsStored(t.(state := Normal), Parse(t.csi, MAX_PARAMS), c);
    }
  }

  lemma PutEscKeepsStored(t: Live, c: byte)
    requires t.state == Esc && !Stores(t, c)
    ensures SameStored(t, PutEsc(t, c))
  {
    if c == 'c' as int {
      assert SameStored(t, Reset(t));
    }
  }

  lemma PutNormalKeepsStored(t: Live, c: byte)
    ensures SameStored(t, PutNormal(t, c))
  {
    if IsPrintable(c) {
      assert ScreenOnly(t.(pendingWrap := false), PutPrintable(t, c).(pendingWrap := false));
    }
  }

  lemma PutKeepsStored(t: Live, c: byte)
    requires !Stores(t, c)
    ensures SameStored(t, PutC(t, c))
  {
    match t.state
    case Normal => PutNormalKeepsStored(t, c);
    case Csi => PutCsiKeepsStored(t, c);
    case Esc => PutEscKeepsStored(t, c);
    case _ =>
  }

  lemma {:induction false} FeedKeepsStored(t: Live, bs: seq<byte>)
    requires NeverStores(t, bs)
    ensures SameStored(t, Feed(t, bs))
    decreases |bs|
  {
    if bs != [] {
      FeedKeepsStored(t, bs[..|bs| - 1]);
      PutKeepsStored(Feed(t, bs[..|bs| - 1]), bs[|bs| - 1]);
    }
  }

  lemma {:induction false} SaveEffect(t: Live)
    requires t.state == Normal
    ensures Feed(t, [0x1B, 0x37]) == t.(savedRow := t.row, savedCol := t.col, savedPen := t.pen)
  {
    EnterEscape(t, 0x37);
  }

  lemma {:induction false} RestoreEffect(t: Live)
    requires t.state == Normal
    ensures Feed(t, [0x1B, 0x38]) == t.(row := t.savedRow, col := t.savedCol, pen := t.savedPen)
  {
    EnterEscape(t, 0x38);
  }

  /** ESC 7, anything that stores no other position and ends between sequences, ESC 8: row, column and pen are back,
      and ESC 8 changes nothing else. */
  lemma {:induction false} SaveAndRestore(t: Live, bs: seq<byte>)
    requires t.state == Normal
    requires var t1 := Feed(t, [0x1B, 0x37]); NeverStores(t1, bs) && Feed(t1, bs).state == Normal
    ensures var t2 := Feed(t, [0x1B, 0x37] + bs);
            Feed(t, [0x1B, 0x37] + bs + [0x1B, 0x38]) == t2.(row := t.row, col := t.col, pen := t.pen)
  {
    var t1 := Feed(t, [0x1B, 0x37]);
    SaveEffect(t);
    FeedKeepsStored(t1, bs);
    FeedAppend(t, [0x1B, 0x37], bs);
    FeedAppend(t, [0x1B, 0x37] + bs, [0x1B, 0x38]);
    RestoreEffect(Feed(t1, bs));
  }

  /** ESC c: every switch and register back to its initial value and the screen in use erased in default colours; the
      saved cursor, the history, the view and the choice of screen stay. */
  lemma {:induction false} ResetEffect(t: Live, r: int, c: int)
    requires t.state == Normal && 0 <= r < ROWS && 0 <= c < COLS
    ensures var t' := Feed(t, [0x1B, 0x63]);
            && CellOn(t', r, c) == Cell(32, 7, 0, 0)
            && OnlyDraws(t.(row := 0, col := 0, pen := Pen(7, 0, 0), cursorVisible := true, top := 0, bottom := 41,
                            appCursorKeys := false, csi := [], csiPrivate := false, pendingWrap := false), t')
  {
    EnterEscape(t, 0x63);
  }

  /** A new terminal is what a reset makes of it, except that its saved pen is black on black. */
  lemma {:induction false} FreshIsReset(t: Live)
    requires t == Fresh()
    ensures Feed(t, [0x1B, 0x63]) == t
    ensures Feed(t, [0x1B, 0x38]) == t.(pen := Pen(0, 0, 0))
  {
    EnterEscape(t, 0x63);
    RestoreEffect(t);
  }
}
