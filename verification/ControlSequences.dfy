/** Control sequences end to end: from the bytes on the wire to the effect on the screen. */
module ControlSequences {
  import opened Bytes
  import opened Cells
  import opened CsiParams
  import opened TermModel

  const LBRACKET: byte := 0x5B
  const QUESTION: byte := 0x3F

  /** Parameter bytes accumulate; those beyond the buffer's 63 are dropped. */
  lemma {:induction false} Collect(t: Live, bs: seq<byte>)
    requires t.state == Csi && Clean(bs)
    ensures Feed(t, bs) == t.(csi := Kept(t.csi + bs))
    decreases |bs|
  {
    if bs == [] {
      assert t.csi + bs == t.csi;
    } else {
      var front, c := bs[..|bs| - 1], bs[|bs| - 1];
      Collect(t, front);
      assert t.csi + bs == t.csi + front + [c];
      CollectOne(Feed(t, front), t, t.csi + front, c);
    }
  }

  lemma CollectOne(u: Live, t: Live, text: seq<byte>, c: byte)
    requires t.state == Csi && (IsDigit(c) || c == SEMI)
    requires Clean(text) && u == t.(csi := Kept(text))
    ensures PutC(u, c) == t.(csi := Kept(text + [c]))
  {
    if |text| < CSI_MAX {
      assert u.csi + [c] == text + [c];
    } else {
      assert (text + [c])[..CSI_MAX] == text[..CSI_MAX];
      assert u.csi == text[..CSI_MAX];
      assert PutC(u, c) == u;
    }
  }

  function Introducer(private: bool): seq<byte> {
    if private then [ESC, LBRACKET, QUESTION] else [ESC, LBRACKET]
  }

  lemma {:induction false} Introduce(t: Live, private: bool)
    requires t.state == Normal
    ensures Feed(t, Introducer(private)) == t.(state := Csi, csi := [], csiPrivate := private)
  {
    FeedSnoc(t, [], ESC);
    FeedSnoc(t, [ESC], LBRACKET);
    assert Feed(t, []) == t;
    assert [] + [ESC] == [ESC];
    assert [ESC] + [LBRACKET] == [ESC, LBRACKET];
    assert Feed(t, [ESC]) == t.(state := Esc);
    if private {
      FeedSnoc(t, [ESC, LBRACKET], QUESTION);
      assert [ESC, LBRACKET] + [QUESTION] == [ESC, LBRACKET, QUESTION];
    }
  }

  /** A byte that ends a control sequence rather than extending it. */
  predicate EndsSequence(params: seq<byte>, final: byte) {
    !IsDigit(final) && final != SEMI && (final == QUESTION ==> params != [])
  }

  lemma FinishSequence(t: Live, private: bool, text: CsiText, final: byte)
    requires t.state == Normal && EndsSequence(text, final)
    ensures PutC(t.(state := Csi, csi := text, csiPrivate := private), final)
         == Dispatch(t.(csi := text, csiPrivate := private), Parse(text, MAX_PARAMS), final)
  {
    var u := t.(state := Csi, csi := text, csiPrivate := private);
    assert u.(state := Normal) == t.(csi := text, csiPrivate := private);
  }

  /** A complete sequence is dispatched once, on the first 63 parameter bytes, and the parser is back to text. */
  lemma {:induction false} SequenceReachesDispatch(t: Live, private: bool, params: seq<byte>, final: byte)
    requires t.state == Normal && Clean(params) && EndsSequence(params, final)
    ensures Feed(t, Introducer(private) + params + [final])
         == Dispatch(t.(csi := Kept(params), csiPrivate := private),
                     Parse(Kept(params), MAX_PARAMS), final)
  {
    var t1 := t.(state := Csi, csi := [], csiPrivate := private);
    Introduce(t, private);
    FeedAppend(t, Introducer(private), params);
    Collect(t1, params);
    assert t1.csi + params == params;
    FeedSnoc(t, Introducer(private) + params, final);
    FinishSequence(t, private, Kept(params), final);
  }

  /** On the wire: the command is run on exactly the list that was sent if and only if the list has at most 16
      entries, does not end in an omitted one, and its text fits the 63-byte buffer. Otherwise it is run on the list
      read from the first 63 bytes. */
  lemma {:induction false} ParametersArriveIff(t: Live, private: bool, ps: seq<int>, final: byte)
    requires t.state == Normal && IsParamList(ps) && EndsSequence(Print(ps), final)
    ensures var arrived := Parse(Kept(Print(ps)), MAX_PARAMS);
            Feed(t, Introducer(private) + Print(ps) + [final])
              == Dispatch(t.(csi := Kept(Print(ps)), csiPrivate := private), arrived, final)
    ensures Parse(Kept(Print(ps)), MAX_PARAMS) == ps <==> Sendable(ps)
  {
    SequenceReachesDispatch(t, private, Print(ps), final);
    BufferedRoundTrip(ps);
  }

  lemma {:induction false} ParametersArriveIntact(t: Live, private: bool, ps: seq<int>, final: byte)
    requires t.state == Normal && IsParamList(ps) && Sendable(ps) && EndsSequence(Print(ps), final)
    ensures Feed(t, Introducer(private) + Print(ps) + [final])
         == Dispatch(t.(csi := Print(ps), csiPrivate := private), ps, final)
  {
    ParametersArriveIff(t, private, ps, final);
  }

  lemma PrintOne(p: nat)
    ensures Print([p]) == Digits(p)
  {
    assert PrintFields([p]) == [Digits(p)];
  }

  lemma PrintTwo(p: nat, q: nat)
    ensures Print([p, q]) == Digits(p) + [SEMI] + Digits(q)
  {
    assert PrintFields([p, q]) == [Digits(p), Digits(q)];
    assert [Digits(p), Digits(q)][1..] == [Digits(q)];
    assert Join([Digits(q)]) == Digits(q);
  }

  lemma ShortDigits(n: nat)
    requires n < 100
    ensures |Digits(n)| <= 2
  {
  }

  /** ECMA-48 section 8.3.21, CUP: ESC [ r+1 ; c+1 H puts the cursor at (r, c) and draws nothing. */
  lemma {:induction false} CursorPosition(t: Live, r: int, c: int)
    requires t.state == Normal && 0 <= r < ROWS && 0 <= c < COLS
    ensures var t' := Feed(t, Introducer(false) + Print([r + 1, c + 1]) + ['H' as int]);
            && t'.row == r && t'.col == c && !t'.pendingWrap && t'.state == Normal
            && t'.main == t.main && t'.alt == t.alt && t'.hist == t.hist && t'.pen == t.pen
  {
    PrintTwo(r + 1, c + 1);
    ShortDigits(r + 1);
    ShortDigits(c + 1);
    ParametersArriveIntact(t, false, [r + 1, c + 1], 'H' as int);
  }

  /** CUU then CUD by the same amount returns the cursor exactly when it starts on the bottom margin, or above it
      with the top margin out of reach. CUP can put the cursor outside the margins; below them it never returns. */
  lemma UpThenDownIff(t: Live, n: int)
    requires n >= 1
    ensures Control(Control(t, [n], 'A' as int), [n], 'B' as int).row == t.row <==>
              t.row == t.bottom || (t.row < t.bottom && t.row - n >= t.top)
  {
  }

  lemma LeftThenRightIff(t: Live, n: int)
    requires n >= 1
    ensures Control(Control(t, [n], 'D' as int), [n], 'C' as int).col == t.col <==> t.col - n >= 0 || t.col == COLS - 1
  {
  }

  // ---- Unknown commands ----

  predicate Implemented(final: byte) {
    || 'A' as int <= final <= 'D' as int || final == 'H' as int || final == 'f' as int
    || final == 'J' as int || final == 'K' as int || final == 'm' as int || final == 'r' as int
  }

  predicate IsKnownMode(mode: int) {
    mode == 1 || mode == 25 || IsAltMode(mode)
  }

  /** A command that nothing implements: an unknown final byte, or a mode change that names no known mode. */
  predicate IsUnknown(private: bool, ps: seq<int>, final: byte) {
    if private then (final == 'h' as int || final == 'l' as int) ==> forall i :: 0 <= i < |ps| ==> !IsKnownMode(ps[i])
    else !Implemented(final)
  }

  lemma {:induction false} UnknownModes(t: Live, ps: seq<int>, enable: bool)
    requires forall i :: 0 <= i < |ps| ==> !IsKnownMode(ps[i])
    ensures SetPrivateModes(t, ps, enable) == t
    decreases |ps|
  {
    if ps != [] {
      UnknownModes(t, ps[..|ps| - 1], enable);
    }
  }

  lemma UnknownDispatch(t: Live, ps: seq<int>, final: byte)
    requires IsUnknown(t.csiPrivate, ps, final)
    ensures Dispatch(t, ps, final) == t.(pendingWrap := false)
  {
    if t.csiPrivate && (final == 'h' as int || final == 'l' as int) {
      UnknownModes(t.(pendingWrap := false), ps, final == 'h' as int);
    }
  }

  /** A control sequence with an unknown command only cancels a deferred wrap. */
  lemma {:induction false} UnknownSequenceIsIgnored(t: Live, private: bool, params: seq<byte>, final: byte)
    requires t.state == Normal && Clean(params) && EndsSequence(params, final)
    requires IsUnknown(private, Parse(Kept(params), MAX_PARAMS), final)
    ensures Feed(t, Introducer(private) + params + [final])
         == t.(pendingWrap := false, csi := Kept(params), csiPrivate := private)
  {
    SequenceReachesDispatch(t, private, params, final);
    var text := Kept(params);
    UnknownDispatch(t.(csi := text, csiPrivate := private), Parse(text, MAX_PARAMS), final);
  }

  // ---- 32-bit arithmetic ----

  const INT_MIN := -0x8000_0000

  predicate FitsInt(x: int) {
    INT_MIN <= x <= INT_MAX
  }

  /** The value after each digit of each field that is read; at most 16 fields are. */
  predicate ReadingFits(text: CsiText) {
    forall i: nat, k: nat :: i < |Split(text)| && i < MAX_PARAMS && k <= |Split(text)[i]| ==>
      FitsInt(Value(Split(text)[i][..k]))
  }

  /** The repeat count of a cursor movement. */
  function Times(ps: seq<int>): (n: int) {
    if |ps| > 0 && ps[0] > 0 then ps[0] else 1
  }

  /** The numbers that a command computes before it clamps them. */
  function Computed(t: Live, ps: seq<int>, final: byte): seq<int> {
    if t.csiPrivate then []
    else if final == 'A' as int then [t.row - Times(ps)]
    else if final == 'B' as int then [t.row + Times(ps)]
    else if final == 'C' as int then [t.col + Times(ps)]
    else if final == 'D' as int then [t.col - Times(ps)]
    else if final == 'H' as int || final == 'f' as int then [Coord(ps, 0, 0), Coord(ps, 1, 0)]
    else if final == 'r' as int then [Coord(ps, 0, 0), Coord(ps, 1, ROWS - 1)]
    else []
  }

  /** These are the numbers that the cursor movements use. */
  lemma ComputedIsUsed(t: Live, ps: seq<int>, final: byte)
    requires !t.csiPrivate && 'A' as int <= final <= 'D' as int
    ensures var x := Computed(t, ps, final)[0];
            var u := Dispatch(t, ps, final);
            if final == 'A' as int then u.row == Max(x, t.top)
            else if final == 'B' as int then u.row == Min(x, t.bottom)
            else if final == 'C' as int then u.col == Min(x, COLS - 1)
            else u.col == Max(x, 0)
  {
  }

  /** Reading the buffer and running the command on it stay inside a 32-bit int at every step. */
  predicate NeverOverflows(t: Live, final: byte) {
    && ReadingFits(t.csi)
    && forall x :: x in Computed(t, Parse(t.csi, MAX_PARAMS), final) ==> FitsInt(x)
  }

  /** Each field that is read fits. */
  predicate FieldsInRange(text: CsiText) {
    forall i: nat :: i < |Split(text)| && i < MAX_PARAMS ==> Value(Split(text)[i]) <= INT_MAX
  }

  lemma ReadingFitsIff(text: CsiText)
    ensures ReadingFits(text) <==> FieldsInRange(text)
  {
    if ReadingFits(text) {
      forall i: nat | i < |Split(text)| && i < MAX_PARAMS ensures Value(Split(text)[i]) <= INT_MAX {
        var f := Split(text)[i];
        assert f[..|f|] == f;
        assert FitsInt(Value(Split(text)[i][..|f|]));
      }
    }
    if FieldsInRange(text) {
      forall i: nat, k: nat | i < |Split(text)| && i < MAX_PARAMS && k <= |Split(text)[i]|
        ensures FitsInt(Value(Split(text)[i][..k]))
      {
        PrefixValue(Split(text)[i], k);
      }
    }
  }

  lemma ReadInRange(text: CsiText, ps: seq<int>)
    requires FieldsInRange(text) && ps == Take(MAX_PARAMS, Trim(Fields(Split(text))))
    ensures forall i :: 0 <= i < |ps| ==> -1 <= ps[i] <= INT_MAX
  {
    var all := Fields(Split(text));
    forall i | 0 <= i < |ps| ensures -1 <= ps[i] <= INT_MAX {
      assert ps[i] == Trim(all)[i] == all[i] == Field(Split(text)[i]);
    }
  }

  lemma ComputedFitsIff(t: Live, ps: seq<int>, final: byte)
    requires forall i :: 0 <= i < |ps| ==> -1 <= ps[i] <= INT_MAX
    ensures (forall x :: x in Computed(t, ps, final) ==> FitsInt(x)) <==>
              && (!t.csiPrivate && final == 'B' as int ==> t.row + Times(ps) <= INT_MAX)
              && (!t.csiPrivate && final == 'C' as int ==> t.col + Times(ps) <= INT_MAX)
  {
    var xs := Computed(t, ps, final);
    if !t.csiPrivate && (final == 'B' as int || final == 'C' as int) {
      assert xs[0] in xs;
    }
  }

  /** No 32-bit overflow exactly when each of the first 16 parameters fits and, for a movement down or right, so does
      its sum with the cursor's row or column. */
  lemma NoOverflowIff(t: Live, final: byte)
    ensures var ps := Parse(t.csi, MAX_PARAMS);
            NeverOverflows(t, final) <==>
              && FieldsInRange(t.csi)
              && (!t.csiPrivate && final == 'B' as int ==> t.row + Times(ps) <= INT_MAX)
              && (!t.csiPrivate && final == 'C' as int ==> t.col + Times(ps) <= INT_MAX)
  {
    var ps := Parse(t.csi, MAX_PARAMS);
    ReadingFitsIff(t.csi);
    if FieldsInRange(t.csi) {
      ParseSplit(t.csi, MAX_PARAMS);
      ReadInRange(t.csi, ps);
      ComputedFitsIff(t, ps, final);
    }
  }

  /** In particular, parameters of at most nine digits never overflow. */
  lemma NoOverflow(t: Live, final: byte)
    requires forall k :: 0 <= k < |Split(t.csi)| ==> |Split(t.csi)[k]| <= 9
    ensures NeverOverflows(t, final)
  {
    forall i: nat | i < |Split(t.csi)| && i < MAX_PARAMS ensures Value(Split(t.csi)[i]) < 1_000_000_000 {
      NineDigitsFit(Split(t.csi)[i]);
    }
    var ps := Parse(t.csi, MAX_PARAMS);
    if ps != [] {
      ParseSplit(t.csi, MAX_PARAMS);
      assert ps[0] == Fields(Split(t.csi))[0] < 1_000_000_000;
    }
    NoOverflowIff(t, final);
  }

  /** ESC [ n B overflows as soon as n and the row together do, for instance with n = 2147483647 anywhere below row 0,
      although n itself fits. */
  lemma {:induction false} OverflowingMove(t: Live, n: nat)
    requires !t.csiPrivate && t.csi == Print([n]) && n > 0 && t.row + n > INT_MAX
    ensures Parse(t.csi, MAX_PARAMS) == [n] && !NeverOverflows(t, 'B' as int)
  {
    ParseAfterPrint([n]);
    NoOverflowIff(t, 'B' as int);
  }

  // ---- Erasing, cell by cell ----

  lemma CellAt(g: Grid, r: int, c: int)
    requires 0 <= r < ROWS && 0 <= c < COLS
    ensures 0 <= r * COLS + c < CELLS && Screen(g)[r][c] == g[r * COLS + c]
  {
  }

  lemma ErasedAt(t: Live, lo: int, hi: int, r: int, c: int)
    requires 0 <= r < ROWS && 0 <= c < COLS
    ensures Screen(Active(Erase(t, lo, hi)))[r][c]
         == if lo <= r * COLS + c <= hi then Blank(t.pen) else Screen(Active(t))[r][c]
  {
    CellAt(Active(t), r, c);
    CellAt(Active(Erase(t, lo, hi)), r, c);
  }

  /** ED on (r, c): mode 1 clears up to the cursor, 2 and 3 everything, any other mode from the cursor on. */
  lemma EraseInDisplayCell(t: Live, mode: int, r: int, c: int)
    requires 0 <= r < ROWS && 0 <= c < COLS
    ensures var before := r < t.row || (r == t.row && c < t.col);
            var after := r > t.row || (r == t.row && c > t.col);
            var erased := if mode == 1 then !after else mode == 2 || mode == 3 || !before;
            Screen(Active(EraseInDisplay(t, mode)))[r][c]
              == if erased then Blank(t.pen) else Screen(Active(t))[r][c]
  {
    if mode == 1 {
      ErasedAt(t, 0, Pos(t), r, c);
    } else if mode == 2 || mode == 3 {
      ErasedAt(t, 0, CELLS - 1, r, c);
    } else {
      ErasedAt(t, Pos(t), CELLS - 1, r, c);
    }
  }

  lemma ErasedInRow(t: Live, from: int, to: int, lo: int, hi: int, r: int, c: int)
    requires 0 <= r < ROWS && 0 <= c < COLS && 0 <= from <= to < COLS
    requires lo == t.row * COLS + from && hi == t.row * COLS + to
    ensures Screen(Active(Erase(t, lo, hi)))[r][c]
         == if r == t.row && from <= c <= to then Blank(t.pen) else Screen(Active(t))[r][c]
  {
    ErasedAt(t, lo, hi, r, c);
    InRow(t.row, from, to, r, c);
  }

  lemma InRow(row: int, from: int, to: int, r: int, c: int)
    requires 0 <= c < COLS && 0 <= from <= to < COLS
    ensures row * COLS + from <= r * COLS + c <= row * COLS + to <==> r == row && from <= c <= to
  {
  }

  /** EL touches the cursor's row only. */
  lemma EraseInLineCell(t: Live, mode: int, r: int, c: int)
    requires 0 <= r < ROWS && 0 <= c < COLS
    ensures var erased := r == t.row && (if mode == 1 then c <= t.col else mode == 2 || c >= t.col);
            Screen(Active(EraseInLine(t, mode)))[r][c]
              == if erased then Blank(t.pen) else Screen(Active(t))[r][c]
  {
    var from := if mode == 1 || mode == 2 then 0 else t.col;
    var to := if mode == 1 then t.col else COLS - 1;
    var lo, hi := t.row * COLS + from, t.row * COLS + to;
    assert EraseInLine(t, mode) == Erase(t, lo, hi);
    ErasedInRow(t, from, to, lo, hi, r, c);
  }
}
