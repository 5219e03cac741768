/** Plain text: lines ended by CR LF come out wrapped at 80 columns, in order, with none lost. */
module PlainText {
  import opened Bytes
  import opened Cells
  import opened TermModel
  import HistoryView

  predicate Printable(line: seq<byte>) {
    forall i :: 0 <= i < |line| ==> IsPrintable(line[i])
  }

  /** White on black, no attributes. */
  function PaddedCell(text: seq<byte>, c: nat): Cell {
    Cell(if c < |text| then text[c] else 32, 7, 0, 0)
  }

  /** One screen row: the text in default colours, padded with blanks. */
  function Padded(text: seq<byte>): Row
    requires |text| <= COLS
  {
    seq(COLS, c requires 0 <= c < COLS => PaddedCell(text, c))
  }

  /** A line broken every 80 characters. A full last piece is not followed by an empty one. */
  function Wrapped(line: seq<byte>): (rows: seq<Row>)
    ensures rows != []
    decreases |line|
  {
    if |line| <= COLS then [Padded(line)] else [Padded(line[..COLS])] + Wrapped(line[COLS..])
  }

  function WrappedAll(lines: seq<seq<byte>>): seq<Row> {
    if lines == [] then [] else WrappedAll(lines[..|lines| - 1]) + Wrapped(lines[|lines| - 1])
  }

  function JoinLines(lines: seq<seq<byte>>): seq<byte> {
    if lines == [] then []
    else if |lines| == 1 then lines[0]
    else JoinLines(lines[..|lines| - 1]) + [CR, LF] + lines[|lines| - 1]
  }

  /** Every row pushed so far, then the screen down to the cursor. */
  function Transcript(t: Live): seq<Row>
  {
    t.hist + Screen(t.main)[..t.row + 1]
  }

  /** The terminal shows `rows` above and `text` on the cursor's row, and nothing below. */
  predicate Showing(t: Live, rows: seq<Row>, text: seq<byte>) {
    && (t.altActive, t.state, t.pen, t.top, t.bottom) == (false, Normal, DEFAULT_PEN, 0, ROWS - 1)
    && |text| <= COLS && (t.col, t.pendingWrap) == (Min(|text|, COLS - 1), |text| == COLS)
    && Transcript(t) == rows + [Padded(text)]
    && (t.hist == [] || t.row == ROWS - 1)
    && forall r :: t.row < r < ROWS ==> Screen(t.main)[r] == Padded([])
  }

  lemma FreshShowsNothing()
    ensures Showing(Fresh(), [], [])
  {
    var t := Fresh();
    forall r | 0 <= r < ROWS ensures Screen(t.main)[r] == Padded([]) {
      assert forall c :: 0 <= c < COLS ==> RowAt(t.main, r)[c] == Padded([])[c];
    }
  }

  // The three ways a transcript grows: by scrolling, by moving down, by writing on its last row.

  lemma ScrolledRows(h: seq<Row>, s: seq<Row>, b: Row)
    requires |s| == ROWS
    ensures (h + [s[0]]) + (s[1..] + [b])[..ROWS] == h + s[..ROWS] + [b]
  {
  }

  lemma OneMoreRow(h: seq<Row>, s: seq<Row>, r: nat)
    requires r + 1 < |s|
    ensures h + s[..r + 2] == h + s[..r + 1] + [s[r + 1]]
  {
  }

  lemma LastRowReplaced(h: seq<Row>, s: seq<Row>, r: nat, above: seq<Row>, last: Row, row: Row)
    requires r < |s| && h + s[..r + 1] == above + [last]
    ensures s[r] == last && h + s[r := row][..r + 1] == above + [row]
  {
    assert (h + s[..r + 1])[|h| + r] == (above + [last])[|above|];
    assert h + s[..r] == (h + s[..r + 1])[..|h| + r] == above;
    assert s[r := row][..r + 1] == s[..r] + [row];
  }

  /** Moving to the next line keeps the transcript and adds one blank row, scrolling or not. */
  lemma NextLine(t: Live, rows: seq<Row>, text: seq<byte>)
    requires Showing(t, rows, text)
    ensures Showing(LineFeed(t.(col := 0, pendingWrap := false)), rows + [Padded(text)], [])
  {
    var s := Screen(t.main);
    if t.row == ROWS - 1 {
      var t' := LineFeed(t.(col := 0, pendingWrap := false));
      ScreenShift(t.main, Blank(DEFAULT_PEN));
      assert BlankRow(Blank(DEFAULT_PEN)) == Padded([]);
      assert t'.hist == t.hist + [s[0]] && Screen(t'.main) == s[1..] + [Padded([])];
      ScrolledRows(t.hist, s, Padded([]));
    } else {
      OneMoreRow(t.hist, s, t.row);
    }
  }

  lemma GlyphScreen(t: Live, c: byte)
    requires !t.altActive
    ensures Screen(PutGlyph(t, c).main) == Screen(t.main)[t.row := Screen(t.main)[t.row][t.col := Glyph(c, t.pen)]]
  {
    ScreenUpdate(t.main, t.row, t.col, Glyph(c, t.pen));
  }

  lemma GlyphTranscript(t: Live, rows: seq<Row>, text: seq<byte>, c: byte)
    requires Showing(t, rows, text) && |text| < COLS
    ensures Transcript(PutGlyph(t, c)) == rows + [Padded(text + [c])]
    ensures forall r :: t.row < r < ROWS ==> Screen(PutGlyph(t, c).main)[r] == Screen(t.main)[r]
  {
    var row := Padded(text + [c]);
    LastRowReplaced(t.hist, Screen(t.main), t.row, rows, Padded(text), row);
    assert Padded(text)[|text| := Glyph(c, DEFAULT_PEN)] == row;
    GlyphScreen(t, c);
  }

  lemma WriteOne(t: Live, rows: seq<Row>, text: seq<byte>, c: byte)
    requires Showing(t, rows, text) && |text| < COLS && IsPrintable(c)
    ensures Showing(PutPrintable(t, c), rows, text + [c])
  {
    GlyphTranscript(t, rows, text, c);
    assert PutPrintable(t, c) == PutGlyph(t, c);
  }

  /** One printable character: it joins the current row, or starts the next one when the row is full. */
  lemma TypeOne(t: Live, rows: seq<Row>, text: seq<byte>, c: byte)
    requires Showing(t, rows, text) && IsPrintable(c)
    ensures |text| < COLS ==> Showing(PutC(t, c), rows, text + [c])
    ensures |text| == COLS ==> Showing(PutC(t, c), rows + [Padded(text)], [c])
  {
    assert PutC(t, c) == PutPrintable(t, c);
    if |text| < COLS {
      WriteOne(t, rows, text, c);
    } else {
      NextLine(t, rows, text);
      var u := LineFeed(t.(col := 0, pendingWrap := false));
      assert PutPrintable(t, c) == PutPrintable(u, c);
      WriteOne(u, rows + [Padded(text)], [], c);
      assert [] + [c] == [c];
    }
  }

  /** A line takes as many rows as it has started pieces of 80, and at least one: no extra blank row after a full one. */
  lemma {:induction false} WrappedCount(line: seq<byte>)
    ensures |Wrapped(line)| == Max(1, (|line| + COLS - 1) / COLS)
    decreases |line|
  {
    if |line| > COLS {
      WrappedCount(line[COLS..]);
    }
  }

  /** A line's complete rows, and what is left on its last one. */
  function FullRows(line: seq<byte>): (rows: seq<Row>)
    decreases |line|
  {
    if |line| <= COLS then [] else [Padded(line[..COLS])] + FullRows(line[COLS..])
  }

  function LastPiece(line: seq<byte>): (text: seq<byte>)
    ensures |text| <= COLS && (line == [] <==> text == [])
    decreases |line|
  {
    if |line| <= COLS then line else LastPiece(line[COLS..])
  }

  lemma {:induction false} WrappedParts(line: seq<byte>)
    ensures Wrapped(line) == FullRows(line) + [Padded(LastPiece(line))]
    ensures LastPiece(line) == [] <==> line == []
    decreases |line|
  {
    if |line| > COLS {
      WrappedParts(line[COLS..]);
    }
  }

  lemma {:induction false} PartsSnoc(line: seq<byte>, c: byte)
    ensures |LastPiece(line)| < COLS ==>
              FullRows(line + [c]) == FullRows(line) && LastPiece(line + [c]) == LastPiece(line) + [c]
    ensures |LastPiece(line)| == COLS ==>
              FullRows(line + [c]) == FullRows(line) + [Padded(LastPiece(line))] && LastPiece(line + [c]) == [c]
    decreases |line|
  {
    if |line| > COLS {
      PartsSnoc(line[COLS..], c);
      assert (line + [c])[COLS..] == line[COLS..] + [c] && (line + [c])[..COLS] == line[..COLS];
    } else if |line| == COLS {
      assert (line + [c])[COLS..] == [c] && (line + [c])[..COLS] == line;
    }
  }

  lemma TypeNext(t: Live, t': Live, rows: seq<Row>, front: seq<byte>, c: byte, line: seq<byte>)
    requires Showing(t, rows + FullRows(front), LastPiece(front)) && IsPrintable(c)
    requires t' == PutC(t, c) && line == front + [c]
    ensures Showing(t', rows + FullRows(line), LastPiece(line))
  {
    TypeOne(t, rows + FullRows(front), LastPiece(front), c);
    PartsSnoc(front, c);
    Assoc(rows, FullRows(front), [Padded(LastPiece(front))]);
  }

  lemma {:induction false} TypeLine(t: Live, rows: seq<Row>, line: seq<byte>)
    requires Showing(t, rows, []) && Printable(line)
    ensures Showing(Feed(t, line), rows + FullRows(line), LastPiece(line))
    decreases |line|
  {
    if line == [] {
      assert rows + [] == rows;
    } else {
      var front, c := line[..|line| - 1], line[|line| - 1];
      var u, u' := Feed(t, front), Feed(t, line);
      TypeLine(t, rows, front);
      TypeNext(u, u', rows, front, c, line);
    }
  }

  lemma NewLine(t: Live, rows: seq<Row>, text: seq<byte>)
    requires Showing(t, rows, text)
    ensures Showing(Feed(t, [CR, LF]), rows + [Padded(text)], [])
  {
    NextLine(t, rows, text);
    FeedSnoc(t, [CR], LF);
    FeedSnoc(t, [], CR);
    assert [CR] + [LF] == [CR, LF] && [] + [CR] == [CR];
    assert Feed(t, []) == t;
  }

  lemma {:induction false} TypeLines(lines: seq<seq<byte>>)
    requires lines != [] && forall i :: 0 <= i < |lines| ==> Printable(lines[i])
    ensures var n := |lines| - 1;
            Showing(Feed(Fresh(), JoinLines(lines)), WrappedAll(lines[..n]) + FullRows(lines[n]), LastPiece(lines[n]))
    decreases |lines|
  {
    var n := |lines| - 1;
    var front, last := lines[..n], lines[n];
    if n == 0 {
      FreshShowsNothing();
      TypeLine(Fresh(), [], last);
    } else {
      TypeLines(front);
      var above := WrappedAll(front[..n - 1]) + FullRows(front[n - 1]);
      TypeAnother(Feed(Fresh(), JoinLines(front)), above, LastPiece(front[n - 1]), last);
      FeedJoined(lines);
      WrappedAllParts(front);
    }
  }

  lemma {:induction false} FeedJoined(lines: seq<seq<byte>>)
    requires |lines| > 1
    ensures var n := |lines| - 1;
            Feed(Fresh(), JoinLines(lines)) == Feed(Feed(Feed(Fresh(), JoinLines(lines[..n])), [CR, LF]), lines[n])
  {
    var bs, line := JoinLines(lines[..|lines| - 1]), lines[|lines| - 1];
    FeedAppend(Fresh(), bs, [CR, LF]);
    FeedAppend(Fresh(), bs + [CR, LF], line);
  }

  lemma {:induction false} TypeAnother(t: Live, rows: seq<Row>, text: seq<byte>, line: seq<byte>)
    requires Showing(t, rows, text) && Printable(line)
    ensures Showing(Feed(Feed(t, [CR, LF]), line), rows + [Padded(text)] + FullRows(line), LastPiece(line))
  {
    NewLine(t, rows, text);
    TypeLine(Feed(t, [CR, LF]), rows + [Padded(text)], line);
  }

  /** Exactly these rows: in the history and on screen down to the cursor, and nothing below it. Rows have left
      the screen only because it was full. */
  predicate Exactly(t: Live, all: seq<Row>) {
    && Transcript(t) == all
    && |t.hist| == Max(|all| - ROWS, 0)
    && forall r :: t.row < r < ROWS ==> Screen(t.main)[r] == Padded([])
  }

  lemma ShowingExactly(t: Live, rows: seq<Row>, text: seq<byte>)
    requires Showing(t, rows, text)
    ensures Exactly(t, rows + [Padded(text)])
  {
    assert |Transcript(t)| == |t.hist| + t.row + 1;
  }

  lemma {:induction false} WrappedAllParts(lines: seq<seq<byte>>)
    requires lines != []
    ensures var n := |lines| - 1;
            WrappedAll(lines) == WrappedAll(lines[..n]) + FullRows(lines[n]) + [Padded(LastPiece(lines[n]))]
  {
    var n := |lines| - 1;
    WrappedParts(lines[n]);
    Assoc(WrappedAll(lines[..n]), FullRows(lines[n]), [Padded(LastPiece(lines[n]))]);
  }

  lemma {:induction false} PlainTextExactly(lines: seq<seq<byte>>)
    requires lines != [] && forall i :: 0 <= i < |lines| ==> Printable(lines[i])
    ensures Exactly(Feed(Fresh(), JoinLines(lines)), WrappedAll(lines))
  {
    var n := |lines| - 1;
    TypeLines(lines);
    WrappedAllParts(lines);
    ShowingExactly(Feed(Fresh(), JoinLines(lines)), WrappedAll(lines[..n]) + FullRows(lines[n]), LastPiece(lines[n]));
  }

  /** From a fresh terminal, any lines of printable text joined by CR LF: history and screen down to the cursor are
      exactly their wrapped rows. */
  lemma {:induction false} PlainTextFidelity(lines: seq<seq<byte>>)
    requires lines != [] && forall i :: 0 <= i < |lines| ==> Printable(lines[i])
    ensures Transcript(Feed(Fresh(), JoinLines(lines))) == WrappedAll(lines)
  {
    PlainTextExactly(lines);
  }

  // ---- A full ring ----

  function EmptyLines(n: nat): seq<seq<byte>> {
    seq(n, _ => [])
  }

  lemma {:induction false} EmptyLinesWrapped(n: nat)
    ensures |WrappedAll(EmptyLines(n))| == n
  {
    if n > 0 {
      EmptyLinesWrapped(n - 1);
      assert EmptyLines(n)[..n - 1] == EmptyLines(n - 1);
    }
  }

  /** After 342 empty lines the screen and the ring are full. */
  lemma RingFull()
    ensures var t := Feed(Fresh(), JoinLines(EmptyLines(ROWS + SCROLLBACK)));
            |t.hist| == SCROLLBACK && t.state == Normal && HistoryView.Retains(t)
  {
    var n := ROWS + SCROLLBACK;
    EmptyLinesWrapped(n);
    TypeLines(EmptyLines(n));
    PlainTextExactly(EmptyLines(n));
  }

  /** Output can move a scrolled-back view: look at the oldest of 300 retained lines, and let one more arrive. */
  lemma {:induction false} OldestLineEvicted()
    ensures var t := ScrollBy(Feed(Fresh(), JoinLines(EmptyLines(ROWS + SCROLLBACK))), SCROLLBACK);
            HistoryView.TopLine(t) == 0 && HistoryView.TopLine(Feed(t, [LF])) == 1
  {
    RingFull();
    HistoryView.FullRingMovesView(ScrollBy(Feed(Fresh(), JoinLines(EmptyLines(ROWS + SCROLLBACK))), SCROLLBACK));
  }
}
