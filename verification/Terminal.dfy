/** The emulator as it runs: fixed buffers updated in place, one byte at a time. */
module Terminal {
  import opened Bytes
  import opened Cells
  import opened CsiParams
  import opened TermModel
  import opened GridOps
  import HistoryView
  import Ring

  class Terminal {
    var grid: array<Cell>
    const mainGrid: array<Cell>
    const altGrid: array<Cell>
    var altActive: bool

    var curRow: int
    var curCol: int
    var curPen: Pen
    var cursorVisible: bool

    var savedRow: int
    var savedCol: int
    var savedPen: Pen

    var scrollTop: int
    var scrollBottom: int
    var pendingWrap: bool

    const scrollback: array<Cell>
    var scrollbackHead: int
    var scrollbackCount: int
    var scrollOffset: int

    var state: ParserState
    const csiBuf: array<byte>
    var csiLen: int
    var csiPrivate: bool
    var appCursorKeys: bool

    /** Every row ever pushed to the scrollback, oldest first. */
    ghost var history: seq<Row>

    ghost predicate Shape()
      reads this, csiBuf
    {
      && mainGrid.Length == altGrid.Length == CELLS && mainGrid != altGrid
      && scrollback.Length == SCROLLBACK * COLS && scrollback != mainGrid && scrollback != altGrid
      && grid == (if altActive then altGrid else mainGrid)
      && csiBuf.Length == CSI_MAX + 1 && 0 <= csiLen <= CSI_MAX && Clean(csiBuf[..csiLen])
    }

    /** The state this object stands for. */
    ghost function View(): Term
      reads this, mainGrid, altGrid, csiBuf
      requires Shape()
    {
      Term(mainGrid[..], altGrid[..], altActive,
           curRow, curCol, curPen, cursorVisible,
           savedRow, savedCol, savedPen,
           scrollTop, scrollBottom, pendingWrap,
           history, scrollOffset,
           state, csiBuf[..csiLen], csiPrivate, appCursorKeys)
    }

    ghost predicate Valid()
      reads this, mainGrid, altGrid, scrollback, csiBuf
    {
      Shape() && Ring.Consistent(scrollback[..], history, scrollbackHead, scrollbackCount) && Wf(View())
    }

    ghost function Live(): Live
      reads this, mainGrid, altGrid, scrollback, csiBuf
      requires Valid()
    {
      View()
    }

    constructor ()
      ensures Valid() && Live() == Fresh()
      ensures fresh(mainGrid) && fresh(altGrid) && fresh(scrollback) && fresh(csiBuf)
    {
      var zero := Cell(0, 0, 0, 0);
      var main := new Cell[CELLS](_ => zero);
      mainGrid, grid := main, main;
      altGrid := new Cell[CELLS](_ => zero);
      scrollback := new Cell[SCROLLBACK * COLS](_ => zero);
      csiBuf := new byte[CSI_MAX + 1](_ => 0);
      altActive := false;
      savedRow, savedCol, savedPen := 0, 0, Pen(0, 0, 0);
      scrollbackHead, scrollbackCount, scrollOffset := 0, 0, 0;
      csiLen := 0;
      history := [];
      new;
      Initialise();
    }

    method Initialise()
      requires Shape() && !altActive && savedRow == savedCol == scrollOffset == 0 && savedPen == Pen(0, 0, 0)
      requires history == []
      modifies this`curRow, this`curCol, this`curPen, this`cursorVisible, this`pendingWrap, this`scrollTop,
               this`scrollBottom, this`appCursorKeys, this`state, this`csiLen, this`csiPrivate, mainGrid, altGrid
      ensures Shape() && View() == Fresh()
    {
      ResetState();
      ClearGrids();
      assert csiBuf[..0] == [];
    }

    method ClearGrids()
      requires mainGrid.Length == altGrid.Length == CELLS && mainGrid != altGrid
      modifies mainGrid, altGrid
      ensures mainGrid[..] == altGrid[..] == BlankGrid(Blank(DEFAULT_PEN))
    {
      GridClearAll(mainGrid, DEFAULT_FG, DEFAULT_BG);
      GridClearAll(altGrid, DEFAULT_FG, DEFAULT_BG);
    }

    method ResetState()
      modifies this`curRow, this`curCol, this`curPen, this`cursorVisible, this`pendingWrap,
               this`scrollTop, this`scrollBottom, this`appCursorKeys, this`state, this`csiLen, this`csiPrivate
      ensures curRow == 0 && curCol == 0 && curPen == DEFAULT_PEN && cursorVisible && !pendingWrap
      ensures scrollTop == 0 && scrollBottom == ROWS - 1 && !appCursorKeys
      ensures state == Normal && csiLen == 0 && !csiPrivate
    {
      curRow := 0;
      curCol := 0;
      curPen := Pen(DEFAULT_FG, DEFAULT_BG, 0);
      cursorVisible := true;
      scrollTop := 0;
      scrollBottom := ROWS - 1;
      appCursorKeys := false;
      state := Normal;
      csiLen := 0;
      csiPrivate := false;
      pendingWrap := false;
    }

    method Scroll(delta: int)
      requires Valid()
      modifies this`scrollOffset
      ensures Valid() && View() == ScrollBy(old(View()), delta)
    {
      var newOffset := scrollOffset + delta;
      if newOffset < 0 {
        newOffset := 0;
      }
      if newOffset > scrollbackCount {
        newOffset := scrollbackCount;
      }
      scrollOffset := newOffset;
    }

    /** The memcpy of a pushed row into the ring's next slot. */
    method StoreAtHead(row: int)
      requires Valid() && 0 <= row < ROWS
      modifies scrollback
      ensures Ring.Stored(old(scrollback[..]), scrollback[..], scrollbackHead, RowAt(grid[..], row))
    {
      ghost var stored := RowAt(grid[..], row);
      CopyRow(scrollback, scrollbackHead * COLS, grid, row * COLS);
      assert forall c :: 0 <= c < COLS ==> stored[c] == old(grid[row * COLS + c]);
    }

    method StoreRow(row: int)
      requires Valid() && 0 <= row < ROWS
      modifies scrollback
      ensures Ring.Holds(scrollback[..], history + [RowAt(grid[..], row)])
    {
      StoreAtHead(row);
      Ring.PushKeepsRing(old(scrollback[..]), history, scrollback[..], RowAt(grid[..], row));
    }

    method AdvanceRing(row: int)
      requires Valid() && !altActive && 0 <= row < ROWS
      modifies this`scrollbackHead, this`scrollbackCount, this`history, scrollback
      ensures Valid() && View() == old(View()).(hist := old(history) + [RowAt(grid[..], row)])
    {
      StoreRow(row);
      Ring.HeadAdvances(|history|);
      history := history + [RowAt(grid[..], row)];
      AdvanceHead();
    }

    method AdvanceHead()
      modifies this`scrollbackHead, this`scrollbackCount
      ensures scrollbackHead == (old(scrollbackHead) + 1) % SCROLLBACK
      ensures scrollbackCount == if old(scrollbackCount) < SCROLLBACK then old(scrollbackCount) + 1 else old(scrollbackCount)
    {
      scrollbackHead := (scrollbackHead + 1) % SCROLLBACK;
      if scrollbackCount < SCROLLBACK {
        scrollbackCount := scrollbackCount + 1;
      }
    }

    method PushScrollback(row: int)
      requires Valid() && 0 <= row < ROWS
      modifies this`scrollbackHead, this`scrollbackCount, this`scrollOffset, this`history, scrollback
      ensures Valid() && View() == Push(old(View()), RowAt(old(grid[..]), row))
    {
      if altActive {
        return;
      }
      AdvanceRing(row);
      FollowHistory();
    }

    /** A scrolled-back view stays on its line. */
    method FollowHistory()
      requires Valid()
      modifies this`scrollOffset
      ensures Valid()
      ensures View() == if old(scrollOffset) > 0 then old(View()).(offset := Min(old(scrollOffset) + 1, Count(old(View()))))
                        else old(View())
    {
      if scrollOffset > 0 {
        scrollOffset := scrollOffset + 1;
        if scrollOffset > scrollbackCount {
          scrollOffset := scrollbackCount;
        }
      }
    }

    method ScrollRegionUp()
      requires Valid()
      modifies this`scrollbackHead, this`scrollbackCount, this`scrollOffset, this`history, scrollback, grid
      ensures Valid() && View() == TermModel.ScrollRegionUp(old(View()))
    {
      if scrollTop == 0 && scrollBottom == ROWS - 1 {
        PushScrollback(0);
      }
      ShiftRegion();
    }

    method ShiftRegion()
      requires Valid()
      modifies grid
      ensures Valid() && View() == TermModel.ShiftRegion(old(View()))
    {
      ghost var before := grid[..];
      ShiftRows(grid, scrollTop, scrollBottom);
      CellClearRange(grid, scrollBottom, 0, COLS - 1, curPen.fg, curPen.bg);
      assert grid[..] == ShiftUp(before, scrollTop, scrollBottom, Cell(32, curPen.fg, curPen.bg, 0));
    }

    method LineFeed()
      requires Valid()
      modifies this`curRow, this`scrollbackHead, this`scrollbackCount, this`scrollOffset, this`history, scrollback, grid
      ensures Valid() && View() == TermModel.LineFeed(old(View()))
    {
      if curRow == scrollBottom {
        ScrollRegionUp();
      } else if curRow < ROWS - 1 {
        curRow := curRow + 1;
      }
    }

    // ---- Control sequences ----

    method EraseInLine(mode: int)
      requires Valid()
      modifies grid
      ensures Valid() && View() == TermModel.EraseInLine(old(View()), mode)
    {
      if mode == 1 {
        CellClearRange(grid, curRow, 0, curCol, curPen.fg, curPen.bg);
      } else if mode == 2 {
        CellClearRange(grid, curRow, 0, COLS - 1, curPen.fg, curPen.bg);
      } else {
        CellClearRange(grid, curRow, curCol, COLS - 1, curPen.fg, curPen.bg);
      }
    }

    /** Rows from..to - 1, one after the other. */
    method ClearRows(from: int, to: int)
      requires grid.Length == CELLS && 0 <= from <= to <= ROWS
      modifies grid
      ensures grid[..] == FillSpan(old(grid[..]), from * COLS, to * COLS - 1, Blank(curPen))
    {
      var r := from;
      while r < to
        invariant from <= r <= to
        invariant grid[..] == FillSpan(old(grid[..]), from * COLS, r * COLS - 1, Blank(curPen))
      {
        CellClearRange(grid, r, 0, COLS - 1, curPen.fg, curPen.bg);
        r := r + 1;
      }
    }

    method EraseInDisplay(mode: int)
      requires Valid()
      modifies grid
      ensures Valid() && View() == TermModel.EraseInDisplay(old(View()), mode)
    {
      if mode == 1 {
        EraseBefore();
      } else if mode == 2 || mode == 3 {
        ghost var before := grid[..];
        GridClearAll(grid, curPen.fg, curPen.bg);
        assert grid[..] == FillSpan(before, 0, CELLS - 1, Blank(curPen));
      } else {
        EraseAfter();
      }
    }

    method EraseBefore()
      requires Valid()
      modifies grid
      ensures Valid() && View() == Erase(old(View()), 0, Pos(old(View())))
    {
      ghost var before := grid[..];
      ClearRows(0, curRow);
      CellClearRange(grid, curRow, 0, curCol, curPen.fg, curPen.bg);
      assert grid[..] == FillSpan(before, 0, curRow * COLS + curCol, Blank(curPen));
    }

    method EraseAfter()
      requires Valid()
      modifies grid
      ensures Valid() && View() == Erase(old(View()), Pos(old(View())), CELLS - 1)
    {
      ghost var before := grid[..];
      CellClearRange(grid, curRow, curCol, COLS - 1, curPen.fg, curPen.bg);
      ClearRows(curRow + 1, ROWS);
      assert grid[..] == FillSpan(before, curRow * COLS + curCol, CELLS - 1, Blank(curPen));
    }

    method ApplySgrOne(param: int)
      modifies this`curPen
      ensures curPen == SgrOne(old(curPen), param)
    {
      var p := if param < 0 then 0 else param;
      if p == 0 { curPen := Pen(DEFAULT_FG, DEFAULT_BG, 0); }
      else if p == 1 { curPen := curPen.(attrs := curPen.attrs | ATTR_BOLD); }
      else if p == 4 { curPen := curPen.(attrs := curPen.attrs | ATTR_UNDERL); }
      else if p == 7 { curPen := curPen.(attrs := curPen.attrs | ATTR_REVERSE); }
      else if p == 22 { curPen := curPen.(attrs := curPen.attrs & !ATTR_BOLD); }
      else if p == 24 { curPen := curPen.(attrs := curPen.attrs & !ATTR_UNDERL); }
      else if p == 27 { curPen := curPen.(attrs := curPen.attrs & !ATTR_REVERSE); }
      else if 30 <= p <= 37 { curPen := curPen.(fg := p - 30); }
      else if p == 39 { curPen := curPen.(fg := DEFAULT_FG); }
      else if 40 <= p <= 47 { curPen := curPen.(bg := p - 40); }
      else if p == 49 { curPen := curPen.(bg := DEFAULT_BG); }
      else if 90 <= p <= 97 { curPen := curPen.(fg := 8 + (p - 90)); }
      else if 100 <= p <= 107 { curPen := curPen.(bg := 8 + (p - 100)); }
    }

    method ApplySgr(params: seq<int>)
      modifies this`curPen
      ensures curPen == Sgr(old(curPen), params)
    {
      if |params| == 0 {
        curPen := Pen(DEFAULT_FG, DEFAULT_BG, 0);
        return;
      }
      var i := 0;
      while i < |params|
        invariant 0 <= i <= |params|
        invariant curPen == SgrAll(old(curPen), params[..i])
      {
        ApplySgrOne(params[i]);
        assert params[..i + 1][..i] == params[..i];
        i := i + 1;
      }
      assert params[..|params|] == params;
    }

    method EnterAlt(saveCursor: bool)
      requires Valid() && !altActive
      modifies this`altActive, this`grid, this`savedRow, this`savedCol, this`curRow, this`curCol, altGrid
      ensures altActive && grid == altGrid && grid[..] == BlankGrid(Blank(DEFAULT_PEN)) && curRow == 0 && curCol == 0
      ensures savedRow == (if saveCursor then old(curRow) else old(savedRow))
      ensures savedCol == (if saveCursor then old(curCol) else old(savedCol))
    {
      altActive := true;
      grid := altGrid;
      GridClearAll(grid, DEFAULT_FG, DEFAULT_BG);
      if saveCursor {
        savedRow := curRow;
        savedCol := curCol;
      }
      curRow := 0;
      curCol := 0;
    }

    method LeaveAlt(restoreCursor: bool)
      requires Valid() && altActive
      modifies this`altActive, this`grid, this`curRow, this`curCol
      ensures !altActive && grid == mainGrid
      ensures curRow == (if restoreCursor then savedRow else old(curRow))
      ensures curCol == (if restoreCursor then savedCol else old(curCol))
    {
      altActive := false;
      grid := mainGrid;
      if restoreCursor {
        curRow := savedRow;
        curCol := savedCol;
      }
    }

    method SwitchToAlt(saveCursor: bool)
      requires Valid() && !altActive
      modifies this`altActive, this`grid, this`savedRow, this`savedCol, this`curRow, this`curCol, altGrid
      ensures Valid() && View() == TermModel.SetPrivateMode(old(View()), if saveCursor then 1049 else 47, true)
      ensures TermModel.SetPrivateMode(old(View()), 47, true) == TermModel.SetPrivateMode(old(View()), 1047, true)
    {
      EnterAlt(saveCursor);
    }

    method SwitchToMain(restoreCursor: bool)
      requires Valid() && altActive
      modifies this`altActive, this`grid, this`curRow, this`curCol
      ensures Valid() && View() == TermModel.SetPrivateMode(old(View()), if restoreCursor then 1049 else 47, false)
      ensures TermModel.SetPrivateMode(old(View()), 47, false) == TermModel.SetPrivateMode(old(View()), 1047, false)
    {
      LeaveAlt(restoreCursor);
    }

    method SetPrivateMode(mode: int, enable: bool)
      requires Valid()
      modifies this`appCursorKeys, this`cursorVisible, this`altActive, this`grid, this`savedRow, this`savedCol,
               this`curRow, this`curCol, altGrid
      ensures Valid() && View() == TermModel.SetPrivateMode(old(View()), mode, enable)
    {
      match mode
      case 1 | 25 =>
        SetFlag(mode, enable);
      case 47 | 1047 | 1049 =>
        SwitchScreen(mode, enable);
      case _ =>
    }

    method SetFlag(mode: int, enable: bool)
      requires Valid() && (mode == 1 || mode == 25)
      modifies this`appCursorKeys, this`cursorVisible
      ensures Valid() && View() == TermModel.SetPrivateMode(old(View()), mode, enable)
    {
      if mode == 1 {
        appCursorKeys := enable;
      } else {
        cursorVisible := enable;
      }
    }

    method SwitchScreen(mode: int, enable: bool)
      requires Valid() && IsAltMode(mode)
      modifies this`altActive, this`grid, this`savedRow, this`savedCol, this`curRow, this`curCol, altGrid
      ensures Valid() && View() == TermModel.SetPrivateMode(old(View()), mode, enable)
    {
      if enable && !altActive {
        SwitchToAlt(mode == 1049);
      } else if !enable && altActive {
        SwitchToMain(mode == 1049);
      }
    }

    method SetPrivateModes(params: seq<int>, enable: bool)
      requires Valid()
      modifies this`appCursorKeys, this`cursorVisible, this`altActive, this`grid, this`savedRow, this`savedCol,
               this`curRow, this`curCol, altGrid
      ensures Valid() && View() == TermModel.SetPrivateModes(old(View()), params, enable)
    {
      var i := 0;
      assert params[..0] == [];
      while i < |params|
        invariant 0 <= i <= |params|
        invariant Valid() && View() == TermModel.SetPrivateModes(old(View()), params[..i], enable)
      {
        SetPrivateMode(if params[i] < 0 then 0 else params[i], enable);
        assert params[..i + 1][..i] == params[..i];
        i := i + 1;
      }
      assert params[..|params|] == params;
    }

    method ParseParams() returns (params: seq<int>)
      requires Valid()
      ensures params == Parse(csiBuf[..csiLen], MAX_PARAMS)
    {
      params := ParseBuffer(csiBuf, csiLen, MAX_PARAMS);
    }

    method MoveRow(final: byte, n: int)
      requires Valid() && n >= 1 && (final == 'A' as int || final == 'B' as int)
      modifies this`curRow
      ensures curRow == if final == 'A' as int then Max(old(curRow) - n, scrollTop) else Min(old(curRow) + n, scrollBottom)
    {
      if final == 'A' as int {
        curRow := curRow - n;
        if curRow < scrollTop { curRow := scrollTop; }
      } else {
        curRow := curRow + n;
        if curRow > scrollBottom { curRow := scrollBottom; }
      }
    }

    method MoveCol(final: byte, n: int)
      requires Valid() && n >= 1 && (final == 'C' as int || final == 'D' as int)
      modifies this`curCol
      ensures curCol == if final == 'C' as int then Min(old(curCol) + n, COLS - 1) else Max(old(curCol) - n, 0)
    {
      if final == 'C' as int {
        curCol := curCol + n;
        if curCol > COLS - 1 { curCol := COLS - 1; }
      } else {
        curCol := curCol - n;
        if curCol < 0 { curCol := 0; }
      }
    }

    method SetPosition(params: seq<int>)
      modifies this`curRow, this`curCol
      ensures curRow == Min(Coord(params, 0, 0), ROWS - 1) && curCol == Min(Coord(params, 1, 0), COLS - 1)
    {
      var row := if |params| > 0 && params[0] > 0 then params[0] - 1 else 0;
      var col := if |params| > 1 && params[1] > 0 then params[1] - 1 else 0;
      curRow := if row < 0 then 0 else if row >= ROWS then ROWS - 1 else row;
      curCol := if col < 0 then 0 else if col >= COLS then COLS - 1 else col;
    }

    method SetMarginFields(params: seq<int>)
      modifies this`scrollTop, this`scrollBottom, this`curRow, this`curCol
      ensures var top, bottom := Coord(params, 0, 0), Min(Coord(params, 1, ROWS - 1), ROWS - 1);
              if top < bottom then scrollTop == top && scrollBottom == bottom
              else scrollTop == 0 && scrollBottom == ROWS - 1
      ensures curRow == scrollTop && curCol == 0
    {
      var top := if |params| > 0 && params[0] > 0 then params[0] - 1 else 0;
      var bottom := if |params| > 1 && params[1] > 0 then params[1] - 1 else ROWS - 1;
      if top < 0 { top := 0; }
      if bottom >= ROWS { bottom := ROWS - 1; }
      if top < bottom {
        scrollTop := top;
        scrollBottom := bottom;
      } else {
        scrollTop := 0;
        scrollBottom := ROWS - 1;
      }
      curRow := scrollTop;
      curCol := 0;
    }

    method SetScrollRegion(params: seq<int>)
      requires Valid()
      modifies this`scrollTop, this`scrollBottom, this`curRow, this`curCol
      ensures Valid() && View() == SetMargins(old(View()), Coord(params, 0, 0), Coord(params, 1, ROWS - 1))
    {
      SetMarginFields(params);
    }

    method MoveUpDown(params: seq<int>, n: int, final: byte)
      requires Valid() && n == (if |params| > 0 && params[0] > 0 then params[0] else 1)
      requires final == 'A' as int || final == 'B' as int
      modifies this`curRow
      ensures Valid() && View() == Control(old(View()), params, final)
    {
      MoveRow(final, n);
    }

    method MoveLeftRight(params: seq<int>, n: int, final: byte)
      requires Valid() && n == (if |params| > 0 && params[0] > 0 then params[0] else 1)
      requires final == 'C' as int || final == 'D' as int
      modifies this`curCol
      ensures Valid() && View() == Control(old(View()), params, final)
    {
      MoveCol(final, n);
    }

    method Position(params: seq<int>, final: byte)
      requires Valid() && (final == 'H' as int || final == 'f' as int)
      modifies this`curRow, this`curCol
      ensures Valid() && View() == Control(old(View()), params, final)
    {
      SetPosition(params);
    }

    /** The commands that draw nothing. */
    method DispatchCursor(params: seq<int>, p0Or1: int, final: byte)
      requires Valid() && p0Or1 == (if |params| > 0 && params[0] > 0 then params[0] else 1)
      requires final != 'J' as int && final != 'K' as int && final != 'm' as int
      modifies this`curRow, this`curCol, this`scrollTop, this`scrollBottom
      ensures Valid() && View() == Control(old(View()), params, final)
    {
      if final == 'A' as int || final == 'B' as int {
        MoveUpDown(params, p0Or1, final);
      } else if final == 'C' as int || final == 'D' as int {
        MoveLeftRight(params, p0Or1, final);
      } else if final == 'H' as int || final == 'f' as int {
        Position(params, final);
      } else if final == 'r' as int {
        SetScrollRegion(params);
      }
    }

    method DispatchPublic(params: seq<int>, final: byte)
      requires Valid()
      modifies this`curRow, this`curCol, this`curPen, this`scrollTop, this`scrollBottom, grid
      ensures Valid() && View() == Control(old(View()), params, final)
    {
      var p0 := if |params| > 0 && params[0] >= 0 then params[0] else 0;
      var p0Or1 := if p0 == 0 then 1 else p0;
      if final == 'J' as int {
        EraseInDisplay(p0);
      } else if final == 'K' as int {
        EraseInLine(p0);
      } else if final == 'm' as int {
        ApplySgr(params);
      } else {
        DispatchCursor(params, p0Or1, final);
      }
    }

    method DispatchCsi(final: byte)
      requires Valid()
      modifies this, grid, altGrid
      ensures Valid() && View() == Dispatch(old(View()), Parse(old(View()).csi, MAX_PARAMS), final)
      ensures history == old(history)
    {
      var params := ParseParams();
      pendingWrap := false;
      if csiPrivate {
        if final == 'h' as int || final == 'l' as int {
          SetPrivateModes(params, final == 'h' as int);
        }
        return;
      }
      DispatchPublic(params, final);
    }

    // ---- One byte ----

    method BeginCsi()
      modifies this`state, this`csiLen, this`csiPrivate
      ensures state == Csi && csiLen == 0 && !csiPrivate
    {
      state := Csi;
      csiLen := 0;
      csiPrivate := false;
    }

    method FullReset()
      requires Valid()
      modifies this, mainGrid, altGrid
      ensures Valid() && View() == WithGrid(Reset(old(View())), BlankGrid(Blank(DEFAULT_PEN)))
      ensures history == old(history)
    {
      ResetView();
      GridClearAll(grid, DEFAULT_FG, DEFAULT_BG);
    }

    method ResetView()
      requires Valid()
      modifies this`curRow, this`curCol, this`curPen, this`cursorVisible, this`pendingWrap,
               this`scrollTop, this`scrollBottom, this`appCursorKeys, this`state, this`csiLen, this`csiPrivate
      ensures Valid() && View() == Reset(old(View()))
    {
      ResetState();
      assert csiBuf[..0] == [];
    }

    /** The escapes that only choose how the next bytes are read. */
    method ChooseState(c: byte)
      requires c != '7' as int && c != '8' as int && c != 'c' as int
      modifies this`state, this`csiLen, this`csiPrivate
      ensures state == (if c == '[' as int then Csi else if c == ']' as int then Osc
                        else if c == '(' as int || c == ')' as int || c == '*' as int || c == '+' as int then Charset
                        else Normal)
      ensures if c == '[' as int then csiLen == 0 && !csiPrivate
              else csiLen == old(csiLen) && csiPrivate == old(csiPrivate)
    {
      state := Normal;
      if c == '[' as int {
        BeginCsi();
      } else if c == ']' as int {
        state := Osc;
      } else if c == '(' as int || c == ')' as int || c == '*' as int || c == '+' as int {
        state := Charset;
      }
    }

    method BeginSequence(c: byte)
      requires Valid() && c != '7' as int && c != '8' as int && c != 'c' as int
      modifies this`state, this`csiLen, this`csiPrivate
      ensures Valid() && View() == TermModel.PutEsc(old(View()), c)
    {
      ChooseState(c);
      assert csiBuf[..0] == [];
    }

    method PutEsc(c: byte)
      requires Valid() && state == Esc
      modifies this, mainGrid, altGrid
      ensures Valid() && View() == TermModel.PutEsc(old(View()), c)
      ensures history == old(history)
    {
      if c == '7' as int {
        SaveCursor();
      } else if c == '8' as int {
        RestoreCursor();
      } else if c == 'c' as int {
        FullReset();
      } else {
        BeginSequence(c);
      }
    }

    method SaveCursor()
      requires Valid()
      modifies this`state, this`savedRow, this`savedCol, this`savedPen
      ensures Valid() && View() == TermModel.PutEsc(old(View()), '7' as int)
    {
      SaveFields();
    }

    method SaveFields()
      modifies this`state, this`savedRow, this`savedCol, this`savedPen
      ensures state == Normal && savedRow == curRow && savedCol == curCol && savedPen == curPen
    {
      state := Normal;
      savedRow := curRow;
      savedCol := curCol;
      savedPen := curPen;
    }

    method RestoreCursor()
      requires Valid()
      modifies this`state, this`curRow, this`curCol, this`curPen
      ensures Valid() && View() == TermModel.PutEsc(old(View()), '8' as int)
    {
      RestoreFields();
    }

    method RestoreFields()
      modifies this`state, this`curRow, this`curCol, this`curPen
      ensures state == Normal && curRow == savedRow && curCol == savedCol && curPen == savedPen
    {
      state := Normal;
      curRow := savedRow;
      curCol := savedCol;
      curPen := savedPen;
    }

    method PutCsi(c: byte)
      requires Valid() && state == Csi
      modifies this, mainGrid, altGrid, csiBuf
      ensures Valid() && View() == TermModel.PutCsi(old(View()), c)
      ensures history == old(history)
    {
      if c == '?' as int && csiLen == 0 {
        csiPrivate := true;
        return;
      }
      if 48 <= c <= 57 || c == SEMI {
        if csiLen < CSI_MAX {
          StoreParam(c);
        }
        return;
      }
      FinishCsi(c);
    }

    method FinishCsi(c: byte)
      requires Valid()
      modifies this, mainGrid, altGrid
      ensures Valid() && View() == Dispatch(old(View()).(state := Normal), Parse(old(View()).csi, MAX_PARAMS), c)
      ensures history == old(history)
    {
      state := Normal;
      assert View() == old(View()).(state := Normal);
      DispatchCsi(c);
    }

    method StoreParam(c: byte)
      requires Valid() && csiLen < CSI_MAX && (IsDigit(c) || c == SEMI)
      modifies this`csiLen, csiBuf
      ensures Valid() && View() == old(View()).(csi := old(View()).csi + [c])
    {
      csiBuf[csiLen] := c;
      csiLen := csiLen + 1;
      assert csiBuf[..csiLen] == old(csiBuf[..csiLen]) + [c];
    }

    method WriteCell(c: byte)
      requires Valid()
      modifies this`curCol, this`pendingWrap, grid
      ensures Valid() && View() == PutGlyph(old(View()), c)
    {
      StoreGlyph(c);
      AdvanceCol();
    }

    method StoreGlyph(c: byte)
      requires Valid()
      modifies grid
      ensures Valid() && View() == WithGrid(old(View()), old(grid[..])[Pos(old(View())) := Glyph(c, curPen)])
    {
      grid[curRow * COLS + curCol] := Cell(c, curPen.fg, curPen.bg, curPen.attrs);
    }

    method AdvanceCol()
      requires curCol < COLS
      modifies this`curCol, this`pendingWrap
      ensures curCol == Min(old(curCol) + 1, COLS - 1)
      ensures pendingWrap == (old(pendingWrap) || old(curCol) == COLS - 1)
    {
      if curCol == COLS - 1 {
        pendingWrap := true;
      } else {
        curCol := curCol + 1;
      }
    }

    method WrapIfPending()
      requires Valid()
      modifies this, mainGrid, altGrid, scrollback
      ensures Valid() && grid == old(grid)
      ensures View() == Wrap(old(View()))
    {
      if pendingWrap {
        curCol := 0;
        LineFeedThenClear();
      }
    }

    method ClearThenLineFeed()
      requires Valid()
      modifies this, mainGrid, altGrid, scrollback
      ensures Valid() && View() == TermModel.LineFeed(old(View()).(pendingWrap := false))
    {
      pendingWrap := false;
      assert View() == old(View()).(pendingWrap := false);
      LineFeed();
    }

    method LineFeedThenClear()
      requires Valid()
      modifies this, mainGrid, altGrid, scrollback
      ensures Valid() && grid == old(grid)
      ensures View() == TermModel.LineFeed(old(View()).(pendingWrap := false))
    {
      LineFeed();
      pendingWrap := false;
      LineFeedIgnoresWrap(old(Live()));
    }

    method PutPrintable(c: byte)
      requires Valid()
      modifies this, mainGrid, altGrid, scrollback
      ensures Valid() && View() == TermModel.PutPrintable(old(View()), c)
    {
      WrapIfPending();
      WriteCell(c);
    }

    /** CR, BS and TAB: horizontal movement that cancels a deferred wrap. */
    method MoveInLine(c: byte)
      requires Valid() && (c == CR || c == BS || c == TAB)
      modifies this`curCol, this`pendingWrap
      ensures Valid() && View() == TermModel.PutNormal(old(View()), c)
    {
      MoveInLineFields(c);
    }

    method MoveInLineFields(c: byte)
      requires c == CR || c == BS || c == TAB
      requires 0 <= curCol
      modifies this`curCol, this`pendingWrap
      ensures !pendingWrap
      ensures curCol == if c == CR then 0 else if c == BS then Max(old(curCol) - 1, 0)
                        else Min((old(curCol) / 8 + 1) * 8, COLS - 1)
    {
      pendingWrap := false;
      if c == CR {
        curCol := 0;
      } else if c == BS {
        if curCol > 0 { curCol := curCol - 1; }
      } else {
        curCol := (curCol / 8 + 1) * 8;
        if curCol > COLS - 1 { curCol := COLS - 1; }
      }
    }

    method PutNormal(c: byte)
      requires Valid() && state == Normal
      modifies this, mainGrid, altGrid, scrollback
      ensures Valid() && View() == TermModel.PutNormal(old(View()), c)
    {
      if c == ESC { state := Esc; return; }
      if c == CR || c == BS || c == TAB { MoveInLine(c); return; }
      if c == LF { ClearThenLineFeed(); return; }
      if c == BEL { return; }
      if c < 0x20 || c == 0x7F || c >= 0x80 { return; }
      PutPrintable(c);
    }

    method PutC(c: byte)
      requires Valid()
      modifies this, mainGrid, altGrid, scrollback, csiBuf
      ensures Valid() && View() == TermModel.PutC(old(View()), c)
    {
      match state
      case Esc => PutEsc(c);
      case Charset => state := Normal;
      case Csi => PutCsi(c);
      case Osc => if c == BEL || c == ESC { state := Normal; }
      case Normal => PutNormal(c);
    }

    method Feed(data: seq<byte>)
      requires Valid()
      modifies this, mainGrid, altGrid, scrollback, csiBuf
      ensures Valid() && View() == TermModel.Feed(old(Live()), data)
    {
      assert data[..0] == [];
      var i := 0;
      while i < |data|
        invariant 0 <= i <= |data|
        invariant Valid() && View() == TermModel.Feed(old(Live()), data[..i])
      {
        PutC(data[i]);
        assert data[..i + 1][..i] == data[..i];
        i := i + 1;
      }
      assert data[..|data|] == data;
    }

    // ---- Reading ----

    method SlotIndex(logical: int) returns (phys: int)
      ensures phys == Ring.Physical(scrollbackHead, scrollbackCount, scrollbackCount - logical, 0)
    {
      var newestIndex := (scrollbackHead - 1 + SCROLLBACK) % SCROLLBACK;
      var offsetFromNewest := scrollbackCount - 1 - logical;
      phys := (newestIndex - offsetFromNewest + SCROLLBACK) % SCROLLBACK;
    }

    /** The ring slot of a line of the retained history. */
    method PhysicalSlot(logical: int) returns (phys: int)
      requires Valid() && 0 <= logical < scrollbackCount
      ensures 0 <= phys < SCROLLBACK
      ensures scrollback[phys * COLS..(phys + 1) * COLS] == history[|history| - scrollbackCount + logical]
    {
      phys := SlotIndex(logical);
      Ring.RingIndexing(scrollback[..], history, scrollbackCount - logical, 0);
      assert scrollback[..][phys * COLS..(phys + 1) * COLS] == scrollback[phys * COLS..(phys + 1) * COLS];
    }

    /** Where screen row r is stored: a buffer and the position of its first cell. */
    method DisplayRow(screenRow: int) returns (buf: array<Cell>, base: int)
      requires Valid() && 0 <= screenRow < ROWS
      ensures buf == grid || buf == scrollback
      ensures 0 <= base && base + COLS <= buf.Length
      ensures buf[base..base + COLS] == HistoryView.DisplayRow(Live(), screenRow)
    {
      var logical := scrollbackCount - scrollOffset + screenRow;
      if logical < scrollbackCount {
        var phys := PhysicalSlot(logical);
        return scrollback, phys * COLS;
      }
      base := (logical - scrollbackCount) * COLS;
      assert grid[..][base..base + COLS] == grid[base..base + COLS];
      return grid, base;
    }

    method IsScrolled() returns (b: bool)
      requires Valid()
      ensures b <==> Live().offset > 0
    {
      b := scrollOffset > 0;
    }
  }
}
