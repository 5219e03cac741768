/** What a user who has scrolled back sees while output keeps arriving. */
module HistoryView {
  import opened Bytes
  import opened Cells
  import opened TermModel

  /** The absolute number, counted from session start, of the line at the top of the screen. */
  function TopLine(t: Live): int {
    |t.hist| - t.offset
  }

  /** Screen row r: a row of history while there is one, then the active grid from its top. */
  function DisplayRow(t: Live, r: int): Row
    requires 0 <= r < ROWS
  {
    var line := TopLine(t) + r;
    if line < |t.hist| then t.hist[line] else RowAt(Active(t), line - |t.hist|)
  }

  /** The 42 rows on screen. */
  function Viewport(t: Live): (rows: seq<Row>)
    ensures |rows| == ROWS
    ensures forall r :: 0 <= r < ROWS ==> rows[r] == DisplayRow(t, r)
  {
    seq(ROWS, r requires 0 <= r < ROWS => DisplayRow(t, r))
  }

  /** The retained history, oldest first, followed by the active grid. */
  function Timeline(t: Live): (rows: seq<Row>) {
    t.hist[|t.hist| - Count(t)..] + Screen(Active(t))
  }

  /** The screen is a 42-row window on the timeline, `offset` rows above its end. */
  lemma ViewportIsWindow(t: Live, r: int)
    requires 0 <= r < ROWS
    ensures 0 <= Count(t) - t.offset + r < |Timeline(t)|
    ensures DisplayRow(t, r) == Timeline(t)[Count(t) - t.offset + r]
  {
  }

  /** How history and viewport move during output: rows are only ever appended, and a scrolled-back
      offset grows with them up to the capacity of the ring. */
  predicate Appends(t: Live, t': Live) {
    && t.hist <= t'.hist
    && t'.offset == if t.offset == 0 then 0 else Min(t.offset + |t'.hist| - |t.hist|, SCROLLBACK)
  }

  lemma PushAppends(t: Live, row: Row)
    ensures Appends(t, Push(t, row))
  {
  }

  lemma ScrollAppends(t: Live)
    ensures Appends(t, ScrollRegionUp(t))
  {
    PushAppends(t, RowAt(Active(t), 0));
  }

  lemma LineFeedAppends(t: Live)
    ensures Appends(t, LineFeed(t))
  {
    if t.row == t.bottom {
      ScrollAppends(t);
    }
  }

  lemma {:induction false} PutPrintableAppends(t: Live, c: byte)
    ensures Appends(t, PutPrintable(t, c))
  {
    if t.pendingWrap {
      LineFeedAppends(t.(col := 0, pendingWrap := false));
    }
    assert KeepsHistory(Wrap(t), PutPrintable(t, c));
  }

  lemma {:induction false} PutNormalAppends(t: Live, c: byte)
    ensures Appends(t, PutNormal(t, c))
  {
    if c == LF {
      LineFeedAppends(t.(pendingWrap := false));
    } else if IsPrintable(c) {
      PutPrintableAppends(t, c);
    } else {
      assert KeepsHistory(t, PutNormal(t, c));
    }
  }

  lemma {:induction false} PutAppends(t: Live, c: byte)
    ensures Appends(t, PutC(t, c))
  {
    if t.state == Normal {
      PutNormalAppends(t, c);
    }
  }

  lemma {:induction false} FeedAppends(t: Live, bs: seq<byte>)
    ensures Appends(t, Feed(t, bs))
    decreases |bs|
  {
    if bs != [] {
      FeedAppends(t, bs[..|bs| - 1]);
      PutAppends(Feed(t, bs[..|bs| - 1]), bs[|bs| - 1]);
    }
  }

  /** Screen row r shows line `line` of the history. */
  predicate Shows(t: Live, r: int, line: int)
    requires 0 <= r < ROWS
  {
    0 <= line < |t.hist| && DisplayRow(t, r) == t.hist[line]
  }

  /** The view rests on the line it was on, or on the oldest retained line once that one is evicted. */
  predicate Settles(t: Live, t': Live) {
    TopLine(t') == Max(TopLine(t), |t'.hist| - 300)
  }

  /** The ring does not overflow under the view. */
  predicate Fits(t: Live, t': Live) {
    t.offset + |t'.hist| - |t.hist| <= 300
  }

  lemma AppendingSettles(t: Live, t': Live)
    requires Appends(t, t') && t.offset > 0
    ensures Settles(t, t') && (TopLine(t') == TopLine(t) <==> Fits(t, t'))
  {
  }

  /** Where the view ends up after any output at all. */
  lemma {:induction false} TopLineAfterOutput(t: Live, bs: seq<byte>)
    requires t.offset > 0
    ensures Settles(t, Feed(t, bs))
  {
    FeedAppends(t, bs);
    AppendingSettles(t, Feed(t, bs));
  }

  /** The view stays on its line exactly when the ring does not overflow under it. */
  lemma {:induction false} ViewStaysIff(t: Live, bs: seq<byte>)
    requires t.offset > 0
    ensures TopLine(Feed(t, bs)) == TopLine(t) <==> Fits(t, Feed(t, bs))
  {
    FeedAppends(t, bs);
    AppendingSettles(t, Feed(t, bs));
  }

  lemma ViewAfterAppending(t: Live, t': Live, r: int)
    requires Appends(t, t') && t.offset > 0 && 0 <= r < Min(t.offset, ROWS)
    ensures Shows(t', r, Max(TopLine(t), |t'.hist| - SCROLLBACK) + r)
  {
  }

  /** After any output at all, row r of the history part shows line TopLine + r or, once that is evicted, the r-th
      oldest retained line. */
  lemma {:induction false} HistoryViewAfterEviction(t: Live, bs: seq<byte>, r: int)
    requires t.offset > 0 && 0 <= r < Min(t.offset, ROWS)
    ensures Shows(Feed(t, bs), r, Max(TopLine(t), |Feed(t, bs).hist| - SCROLLBACK) + r)
  {
    FeedAppends(t, bs);
    ViewAfterAppending(t, Feed(t, bs), r);
  }

  lemma SameRowAfterAppending(t: Live, t': Live, r: int)
    requires Appends(t, t') && 0 <= r < Min(t.offset, ROWS)
    requires Fits(t, t')
    ensures DisplayRow(t', r) == DisplayRow(t, r)
  {
  }

  /** While a user looks k lines back, no output changes the history part of the screen, whatever the bytes are,
      as long as the ring does not overflow under the view. */
  lemma {:induction false} HistoryViewIsStable(t: Live, bs: seq<byte>, r: int)
    requires 0 <= r < Min(t.offset, ROWS)
    requires Fits(t, Feed(t, bs))
    ensures DisplayRow(Feed(t, bs), r) == DisplayRow(t, r)
  {
    FeedAppends(t, bs);
    SameRowAfterAppending(t, Feed(t, bs), r);
  }

  lemma ScrolledViewRow(t: Live, r: int)
    requires !t.altActive && t.top == 0 && t.bottom == ROWS - 1
    requires 0 < t.offset < SCROLLBACK && 0 <= r < ROWS
    ensures DisplayRow(ScrollRegionUp(t), r) == DisplayRow(t, r)
  {
    var line := TopLine(t) + r;
    assert TopLine(ScrollRegionUp(t)) == TopLine(t);
    if line > |t.hist| {
      ShiftUpRow(t.main, 0, ROWS - 1, Blank(t.pen), line - |t.hist| - 1);
    }
  }

  /** A full-screen scroll of the main screen under a scrolled-back user moves nothing at all on screen,
      live rows included. */
  lemma ScrollUnderViewIsInvisible(t: Live)
    requires !t.altActive && t.top == 0 && t.bottom == ROWS - 1
    requires 0 < t.offset < SCROLLBACK
    ensures Viewport(ScrollRegionUp(t)) == Viewport(t)
  {
    var t' := ScrollRegionUp(t);
    forall r | 0 <= r < ROWS ensures Viewport(t')[r] == Viewport(t)[r] {
      ScrolledViewRow(t, r);
    }
  }

  /** Scrolling moves the top line by exactly the request, inside what is retained. */
  lemma ScrollMovesTopLine(t: Live, delta: int)
    ensures var t' := ScrollBy(t, delta);
            && TopLine(t') == Min(Max(TopLine(t) - delta, |t.hist| - Count(t)), |t.hist|)
            && t'.(offset := t.offset) == t
  {
  }

  /** Exactly which line feeds reach the history: those on the last row of a full-screen region of the main screen. */
  predicate Retains(t: Live) {
    (t.altActive, t.row, t.top, t.bottom) == (false, ROWS - 1, 0, ROWS - 1)
  }

  /** The row that leaves a full screen is the one that the history gains. */
  lemma LineFeedHistory(t: Live)
    ensures LineFeed(t).hist == if Retains(t) then t.hist + [Screen(t.main)[0]] else t.hist
  {
  }

  lemma {:induction false} ScrolledRow(t: Live, r: int)
    requires 0 <= r < ROWS
    ensures Screen(Active(ScrollRegionUp(t)))[r]
         == if r < t.top || r > t.bottom then Screen(Active(t))[r]
            else if r < t.bottom then Screen(Active(t))[r + 1] else BlankRow(Blank(t.pen))
  {
    ShiftUpRow(Active(t), t.top, t.bottom, Blank(t.pen), r);
    assert Active(ScrollRegionUp(t)) == ShiftUp(Active(t), t.top, t.bottom, Blank(t.pen));
  }

  /** A line feed, row by row: the region moves up when the cursor is on its last row, and rows outside it never
      move. */
  lemma {:induction false} LineFeedRow(t: Live, r: int)
    requires 0 <= r < ROWS
    ensures Screen(Active(LineFeed(t)))[r]
         == if t.row != t.bottom || r < t.top || r > t.bottom then Screen(Active(t))[r]
            else if r < t.bottom then Screen(Active(t))[r + 1] else BlankRow(Blank(t.pen))
  {
    if t.row == t.bottom {
      ScrolledRow(t, r);
    } else {
      assert Active(LineFeed(t)) == Active(t);
    }
  }

  /** Looking at the oldest line of a full ring: the next line feed that the history takes moves the view by one. */
  lemma FullRingMovesView(t: Live)
    requires t.state == Normal && Retains(t) && t.offset == SCROLLBACK
    ensures var t' := Feed(t, [LF]);
            TopLine(t') == TopLine(t) + 1 && !Fits(t, t')
  {
    assert [LF][..0] == [];
    assert Feed(t, []) == t;
    var u := t.(pendingWrap := false);
    LineFeedHistory(u);
    assert Feed(t, [LF]) == LineFeed(u);
    AppendingSettles(t, Feed(t, [LF])) by {
      FeedAppends(t, [LF]);
    }
  }
}
