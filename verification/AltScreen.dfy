/** The alternate screen keeps the main screen and its history untouched. */
module AltScreen {
  import opened Bytes
  import opened Cells
  import opened CsiParams
  import opened TermModel
  import opened ControlSequences

  /** The alternate screen is active before bs and after each of its bytes. */
  predicate StaysAlt(t: Live, bs: seq<byte>)
    decreases |bs|
  {
    Feed(t, bs).altActive && (bs != [] ==> StaysAlt(t, bs[..|bs| - 1]))
  }

  /** No ESC 7 is executed along bs. */
  predicate NeverSaves(t: Live, bs: seq<byte>)
    decreases |bs|
  {
    bs != [] ==>
      var front := bs[..|bs| - 1];
      NeverSaves(t, front) && !(Feed(t, front).state == Esc && bs[|bs| - 1] == '7' as int)
  }

  predicate SameMain(t: Live, t': Live) {
    (t'.main, t'.hist, t'.offset) == (t.main, t.hist, t.offset)
  }

  predicate SameSaved(t: Live, t': Live) {
    (t'.savedRow, t'.savedCol) == (t.savedRow, t.savedCol)
  }

  lemma ModeKeepsMain(t: Live, mode: int, enable: bool)
    ensures SameMain(t, SetPrivateMode(t, mode, enable))
    ensures t.altActive ==> SameSaved(t, SetPrivateMode(t, mode, enable))
    ensures t.altActive && enable ==> SetPrivateMode(t, mode, enable).altActive
    ensures !enable ==> SameSaved(t, SetPrivateMode(t, mode, enable))
  {
  }

  lemma {:induction false} ModesKeepMain(t: Live, ps: seq<int>, enable: bool)
    requires t.altActive
    ensures SameMain(t, SetPrivateModes(t, ps, enable)) && SameSaved(t, SetPrivateModes(t, ps, enable))
    ensures enable ==> SetPrivateModes(t, ps, enable).altActive
    decreases |ps|
  {
    if ps != [] {
      var u := SetPrivateModes(t, ps[..|ps| - 1], enable);
      ModesKeepMain(t, ps[..|ps| - 1], enable);
      ModeKeepsMain(u, Max(ps[|ps| - 1], 0), enable);
    }
  }

  lemma PutPrintableInAlt(t: Live, c: byte)
    requires t.altActive
    ensures var t' := PutPrintable(t, c);
            SameMain(t, t') && SameSaved(t, t') && t'.altActive && t'.state == t.state
  {
    var u := if t.pendingWrap then LineFeed(t.(col := 0, pendingWrap := false)) else t;
    assert SameMain(t, u) && SameSaved(t, u) && u.altActive && u.state == t.state;
  }

  lemma {:induction false} PutNormalInAlt(t: Live, c: byte)
    requires t.altActive
    ensures SameMain(t, PutNormal(t, c)) && SameSaved(t, PutNormal(t, c))
  {
    if IsPrintable(c) {
      PutPrintableInAlt(t, c);
    } else if c == LF {
      assert ScreenOnly(t.(pendingWrap := false), PutNormal(t, c));
    }
  }

  lemma DispatchInAlt(t: Live, ps: seq<int>, final: byte)
    requires t.altActive
    ensures SameMain(t, Dispatch(t, ps, final)) && SameSaved(t, Dispatch(t, ps, final))
  {
    ModesKeepMain(t.(pendingWrap := false), ps, final == 'h' as int);
  }

  lemma PutCsiInAlt(t: Live, c: byte)
    requires t.altActive
    ensures SameMain(t, PutCsi(t, c)) && SameSaved(t, PutCsi(t, c))
  {
    DispatchInAlt(t.(state := Normal), Parse(t.csi, MAX_PARAMS), c);
  }

  lemma PutEscInAlt(t: Live, c: byte)
    requires t.altActive
    ensures SameMain(t, PutEsc(t, c))
    ensures c != '7' as int ==> SameSaved(t, PutEsc(t, c))
  {
    if c == 'c' as int {
      assert SameMain(t, Reset(t)) && SameSaved(t, Reset(t)) && Reset(t).altActive;
    }
  }

  lemma PutInAlt(t: Live, c: byte)
    requires t.altActive
    ensures SameMain(t, PutC(t, c))
    ensures !(t.state == Esc && c == '7' as int) ==> SameSaved(t, PutC(t, c))
  {
    match t.state
    case Normal => PutNormalInAlt(t, c);
    case Csi => PutCsiInAlt(t, c);
    case Esc => PutEscInAlt(t, c);
    case _ =>
  }

  /** Nothing that a full-screen program does reaches the main grid, the history or the view offset. */
  lemma {:induction false} Isolation(t: Live, bs: seq<byte>)
    requires StaysAlt(t, bs)
    ensures SameMain(t, Feed(t, bs))
    ensures NeverSaves(t, bs) ==> SameSaved(t, Feed(t, bs))
    decreases |bs|
  {
    if bs != [] {
      var front := bs[..|bs| - 1];
      Isolation(t, front);
      PutInAlt(Feed(t, front), bs[|bs| - 1]);
    }
  }

  function Switch1049(enable: bool): seq<byte> {
    Introducer(true) + Print([1049]) + [if enable then 'h' as int else 'l' as int]
  }

  lemma OneMode(t: Live, mode: nat, enable: bool)
    requires t.csiPrivate
    ensures Dispatch(t, [mode], if enable then 'h' as int else 'l' as int)
         == SetPrivateMode(t.(pendingWrap := false), mode, enable)
  {
    var u := t.(pendingWrap := false);
    assert [mode][..0] == [];
    assert SetPrivateModes(u, [], enable) == u;
    assert SetPrivateModes(u, [mode], enable) == SetPrivateMode(u, mode, enable);
  }

  lemma OneSendable(mode: nat)
    requires |Digits(mode)| <= CSI_MAX
    ensures Sendable([mode]) && Print([mode]) == Digits(mode)
  {
    PrintOne(mode);
  }

  lemma {:induction false} ModeArrives(t: Live, mode: nat, enable: bool, text: CsiText)
    requires t.state == Normal && Sendable([mode]) && text == Print([mode])
    ensures Feed(t, Introducer(true) + text + [if enable then 'h' as int else 'l' as int])
         == SetPrivateMode(t.(csi := text, csiPrivate := true, pendingWrap := false), mode, enable)
  {
    ParametersArriveIntact(t, true, [mode], if enable then 'h' as int else 'l' as int);
    OneMode(t.(csi := text, csiPrivate := true), mode, enable);
  }

  /** The effect of entering or leaving. */
  predicate Switched(t: Live, t': Live, enable: bool) {
    && SameMain(t, t') && (t'.altActive, t'.state, t'.pen) == (enable, Normal, t.pen)
    && (enable ==> (t'.savedRow, t'.savedCol, t'.row, t'.col) == (t.row, t.col, 0, 0)
                   && t'.alt == BlankGrid(Cell(32, 7, 0, 0)))
    && (!enable ==> (t'.row, t'.col) == (t.savedRow, t.savedCol))
  }

  lemma SwitchEffect(t: Live, text: CsiText, enable: bool)
    requires t.state == Normal && t.altActive != enable
    ensures Switched(t, SetPrivateMode(t.(csi := text, csiPrivate := true, pendingWrap := false), 1049, enable), enable)
  {
  }

  lemma Switching(t: Live, enable: bool)
    requires t.state == Normal && t.altActive != enable
    ensures Switched(t, Feed(t, Switch1049(enable)), enable)
  {
    FourDigits();
    OneSendable(1049);
    ModeArrives(t, 1049, enable, Print([1049]));
    SwitchEffect(t, Print([1049]), enable);
  }

  // ---- Leaving in the middle of a sequence ----

  /** Everything in ESC [?1049l after its ESC. */
  function Remainder(): seq<byte> {
    [LBRACKET, QUESTION] + Print([1049]) + ['l' as int]
  }

  lemma RemainderIsText()
    ensures Switch1049(false) == [ESC] + Remainder()
    ensures forall i :: 0 <= i < |Remainder()| ==> IsPrintable(Remainder()[i])
  {
    PrintOne(1049);
    assert Introducer(true) == [ESC] + [LBRACKET, QUESTION];
    Assoc([ESC], [LBRACKET, QUESTION], Print([1049]));
    Assoc([ESC], [LBRACKET, QUESTION] + Print([1049]), ['l' as int]);
  }

  /** An ESC inside another sequence ends it, and does nothing else to the screens. */
  lemma EscapeEndsSequence(t: Live)
    requires t.altActive && t.state != Normal
    ensures PutC(t, ESC).state == Normal && PutC(t, ESC).altActive
  {
  }

  lemma {:induction false} TextInAlt(t: Live, text: seq<byte>)
    requires t.altActive && t.state == Normal && forall i :: 0 <= i < |text| ==> IsPrintable(text[i])
    ensures var t' := Feed(t, text);
            SameMain(t, t') && t'.altActive && t'.state == Normal
    decreases |text|
  {
    if text != [] {
      var front, c := text[..|text| - 1], text[|text| - 1];
      TextInAlt(t, front);
      PutPrintableInAlt(Feed(t, front), c);
      assert PutC(Feed(t, front), c) == PutPrintable(Feed(t, front), c);
    }
  }

  lemma NotLeft(t: Live)
    requires t.altActive && t.state != Normal
    ensures Feed(t, Switch1049(false)).altActive && SameMain(t, Feed(t, Switch1049(false)))
  {
    RemainderIsText();
    FeedAppend(t, [ESC], Remainder());
    FeedSnoc(t, [], ESC);
    assert [] + [ESC] == [ESC] && Feed(t, []) == t;
    EscapeEndsSequence(t);
    PutInAlt(t, ESC);
    TextInAlt(PutC(t, ESC), Remainder());
  }

  /** ESC [?1049l leaves the alternate screen exactly when it does not start inside another escape sequence: there its
      ESC is taken as the end of that sequence, and the rest is text. */
  lemma {:induction false} LeavesIff(t: Live)
    requires t.altActive
    ensures !Feed(t, Switch1049(false)).altActive <==> t.state == Normal
    ensures SameMain(t, Feed(t, Switch1049(false)))
  {
    if t.state == Normal {
      Switching(t, false);
    } else {
      NotLeft(t);
    }
  }

  /** ESC [?1049h, any session of a full-screen program that does not use ESC 7, ESC [?1049l: the main screen, its
      history and the view are as they were. If and only if the session does not end inside an escape sequence, the
      alternate screen is left; the cursor is then back as well. */
  lemma {:induction false} EnterAndLeave(t: Live, bs: seq<byte>)
    requires t.state == Normal && !t.altActive
    requires var t1 := Feed(t, Switch1049(true));
             StaysAlt(t1, bs) && NeverSaves(t1, bs)
    ensures var t2 := Feed(Feed(t, Switch1049(true)), bs);
            var t' := Feed(t, Switch1049(true) + bs + Switch1049(false));
            && SameMain(t, t')
            && (!t'.altActive <==> t2.state == Normal)
            && (!t'.altActive ==> (t'.row, t'.col) == (t.row, t.col))
  {
    var t1 := Feed(t, Switch1049(true));
    var t2 := Feed(t1, bs);
    Switching(t, true);
    Isolation(t1, bs);
    LeavesIff(t2);
    if t2.state == Normal {
      Switching(t2, false);
    }
    FeedAppend(t, Switch1049(true), bs);
    FeedAppend(t, Switch1049(true) + bs, Switch1049(false));
  }

  /** For instance a session that ends with ESC [ is not left. */
  lemma {:induction false} CutShort(t: Live)
    requires t.state == Normal && t.altActive
    ensures Feed(t, Introducer(false) + Switch1049(false)).altActive
  {
    Introduce(t, false);
    FeedAppend(t, Introducer(false), Switch1049(false));
    LeavesIff(Feed(t, Introducer(false)));
  }
}
