/** The deferred-wrap flag: when it implies that the cursor is in the last column. */
module WrapFlag {
  import opened Bytes
  import opened Cells
  import opened TermModel
  import opened PlainText

  predicate WrapOk(t: Live) {
    t.pendingWrap ==> t.col == COLS - 1
  }

  /** ESC 8 restores a column without clearing the flag: the one step that can break WrapOk. */
  predicate StrandsWrap(t: Live, c: byte) {
    t.state == Esc && c == '8' as int && t.pendingWrap && t.savedCol != COLS - 1
  }

  lemma PutNormalWrap(t: Live, c: byte)
    requires WrapOk(t)
    ensures WrapOk(PutNormal(t, c))
  {
    if IsPrintable(c) {
      assert PutPrintable(t, c) == PutGlyph(Wrap(t), c);
    } else if c == LF {
      assert ScreenOnly(t.(pendingWrap := false), PutNormal(t, c));
    }
  }

  lemma PutCsiWrap(t: Live, c: byte)
    requires WrapOk(t)
    ensures WrapOk(PutCsi(t, c))
  {
  }

  lemma {:induction false} PutEscWrap(t: Live, c: byte)
    requires WrapOk(t) && t.state == Esc
    ensures WrapOk(PutEsc(t, c)) <==> !StrandsWrap(t, c)
  {
    if c == 'c' as int {
      assert !Reset(t).pendingWrap && !PutEsc(t, c).pendingWrap;
    }
  }

  lemma {:induction false} PutWrap(t: Live, c: byte)
    requires WrapOk(t)
    ensures WrapOk(PutC(t, c)) <==> !StrandsWrap(t, c)
  {
    match t.state
    case Normal => PutNormalWrap(t, c);
    case Csi => PutCsiWrap(t, c);
    case Esc => PutEscWrap(t, c);
    case _ =>
  }

  /** WrapOk before bs and after each of its bytes. */
  predicate WrapOkAlong(t: Live, bs: seq<byte>)
    decreases |bs|
  {
    WrapOk(Feed(t, bs)) && (bs != [] ==> WrapOkAlong(t, bs[..|bs| - 1]))
  }

  /** No byte of bs strands a wrap. */
  predicate NeverStrands(t: Live, bs: seq<byte>)
    decreases |bs|
  {
    bs != [] ==>
      var front := bs[..|bs| - 1];
      NeverStrands(t, front) && !StrandsWrap(Feed(t, front), bs[|bs| - 1])
  }

  /** On a whole run, a pending wrap means the last column at every point exactly when no ESC 8 restores another
      column under a pending wrap. */
  lemma {:induction false} WrapOkThroughout(t: Live, bs: seq<byte>)
    requires WrapOk(t)
    ensures WrapOkAlong(t, bs) <==> NeverStrands(t, bs)
    decreases |bs|
  {
    if bs != [] {
      var front := bs[..|bs| - 1];
      WrapOkThroughout(t, front);
      if WrapOkAlong(t, front) {
        PutWrap(Feed(t, front), bs[|bs| - 1]);
      }
    }
  }

  // ---- A run on which it fails ----

  lemma {:induction false} TypingKeepsSaved(t: Live, bs: seq<byte>)
    requires t.state == Normal && Printable(bs)
    ensures Feed(t, bs).savedCol == t.savedCol && Feed(t, bs).state == Normal
    decreases |bs|
  {
    if bs != [] {
      TypingKeepsSaved(t, bs[..|bs| - 1]);
      TypingOneKeepsSaved(Feed(t, bs[..|bs| - 1]), bs[|bs| - 1]);
    }
  }

  lemma TypingOneKeepsSaved(t: Live, c: byte)
    requires t.state == Normal && IsPrintable(c)
    ensures PutC(t, c).savedCol == t.savedCol && PutC(t, c).state == Normal
  {
    assert PutC(t, c) == PutPrintable(t, c);
  }

  /** A full row of text then ESC 8, on a fresh terminal: the wrap is still pending with the cursor in column 0. */
  lemma StrandedWrap()
    ensures var t := Feed(Fresh(), seq(COLS, _ => 'x' as int) + [ESC, '8' as int]);
            t.pendingWrap && t.col == 0
  {
    var text: seq<byte> := seq(COLS, _ => 'x' as int);
    FreshShowsNothing();
    TypeLine(Fresh(), [], text);
    TypingKeepsSaved(Fresh(), text);
    FeedSnoc(Fresh(), text, ESC);
    FeedSnoc(Fresh(), text + [ESC], '8' as int);
    assert text + [ESC] + ['8' as int] == text + [ESC, '8' as int];
  }
}
