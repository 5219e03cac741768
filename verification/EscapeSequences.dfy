/** Which escape sequences the parser consumes whole, and which leak into the text: the grammar of ECMA-48 (sections
    5.4 and 8.3.89) and of ECMA-35 (section 13) against the five-state parser. */
module EscapeSequences {
  import opened Bytes
  import opened Cells
  import opened CsiParams
  import opened TermModel
  import opened ControlSequences

  /** Parameter bytes of a control sequence. */
  predicate IsParameterByte(c: byte) {
    0x30 <= c <= 0x3F
  }

  /** Intermediate bytes of a control or escape sequence. */
  predicate IsIntermediate(c: byte) {
    0x20 <= c <= 0x2F
  }

  predicate IsFinal(c: byte) {
    0x40 <= c <= 0x7E
  }

  predicate AreParameterBytes(s: seq<byte>) {
    forall i :: 0 <= i < |s| ==> IsParameterByte(s[i])
  }

  predicate AreIntermediates(s: seq<byte>) {
    forall i :: 0 <= i < |s| ==> IsIntermediate(s[i])
  }

  /** Everything that may stand between the introducer and the final byte. */
  predicate IsBody(s: seq<byte>) {
    forall i :: 0 <= i < |s| ==> 0x20 <= s[i] <= 0x3F
  }

  /** Length of the leading run of '?'. */
  function Questions(s: seq<byte>): (n: nat)
    ensures n <= |s| && (n < |s| ==> s[n] != QUESTION)
    ensures forall i :: 0 <= i < n ==> s[i] == QUESTION
  {
    if s == [] || s[0] != QUESTION then 0 else 1 + Questions(s[1..])
  }

  /** A run of '?' followed by digits and ';': the bodies that the parser understands. */
  predicate Understood(s: seq<byte>) {
    Clean(s[Questions(s)..])
  }

  lemma QuestionsAre(s: seq<byte>, n: nat)
    requires n <= |s| && (forall i :: 0 <= i < n ==> s[i] == QUESTION) && (n < |s| ==> s[n] != QUESTION)
    ensures Questions(s) == n
  {
  }

  lemma QuestionsSnoc(s: seq<byte>, c: byte)
    ensures Questions(s + [c]) == if Questions(s) == |s| && c == QUESTION then |s| + 1 else Questions(s)
  {
    QuestionsAre(s + [c], if Questions(s) == |s| && c == QUESTION then |s| + 1 else Questions(s));
  }

  /** Whether one more byte is still understood. */
  predicate Extends(s: seq<byte>, c: byte) {
    IsDigit(c) || c == SEMI || (c == QUESTION && Questions(s) == |s|)
  }

  lemma UnderstoodSnoc(s: seq<byte>, c: byte)
    ensures Understood(s + [c]) <==> Understood(s) && Extends(s, c)
  {
    var n := Questions(s);
    QuestionsSnoc(s, c);
    if n == |s| && c == QUESTION {
      assert (s + [c])[n + 1..] == [] && s[n..] == [];
    } else {
      assert (s + [c])[n..] == s[n..] + [c];
      var rest := s[n..] + [c];
      assert rest[|rest| - 1] == c;
      assert forall i :: 0 <= i < |rest| - 1 ==> rest[i] == s[n..][i];
      if n < |s| && c == QUESTION {
        assert !Clean(rest);
      }
    }
  }

  /** The parser inside a control sequence whose body so far is s. */
  function Inside(t: Live, s: seq<byte>): Live
    requires t.state == Normal && Understood(s)
  {
    t.(state := Csi, csi := Kept(s[Questions(s)..]), csiPrivate := Questions(s) > 0)
  }

  lemma InsideStep(t: Live, s: seq<byte>, c: byte)
    requires t.state == Normal && Understood(s) && Extends(s, c)
    ensures Understood(s + [c]) && PutC(Inside(t, s), c) == Inside(t, s + [c])
  {
    var n := Questions(s);
    UnderstoodSnoc(s, c);
    QuestionsSnoc(s, c);
    if c == QUESTION {
      assert s[n..] == [] && (s + [c])[n + 1..] == [];
    } else {
      assert (s + [c])[n..] == s[n..] + [c];
      CollectOne(Inside(t, s), Inside(t, s), s[n..], c);
    }
  }

  lemma LeaveStep(t: Live, s: seq<byte>, c: byte)
    requires t.state == Normal && Understood(s) && !Extends(s, c) && 0x20 <= c <= 0x3F
    ensures PutC(Inside(t, s), c).state == Normal
  {
    var u := Inside(t, s);
    if c == QUESTION {
      assert s[Questions(s)..] != [];
    }
    assert PutC(u, c) == Dispatch(u.(state := Normal), Parse(u.csi, MAX_PARAMS), c);
  }

  lemma TextStaysText(t: Live, c: byte)
    requires t.state == Normal && IsPrintable(c)
    ensures PutC(t, c) == PutPrintable(t, c) && PutC(t, c).state == Normal
  {
  }

  /** Byte by byte: inside as long as the body is understood, back to text for good after the first byte that is not. */
  lemma {:induction false} BodyState(t: Live, s: seq<byte>)
    requires t.state == Normal && IsBody(s)
    ensures Understood(s) ==> Feed(t.(state := Csi, csi := [], csiPrivate := false), s) == Inside(t, s)
    ensures !Understood(s) ==> Feed(t.(state := Csi, csi := [], csiPrivate := false), s).state == Normal
    decreases |s|
  {
    if s != [] {
      var front, c := s[..|s| - 1], s[|s| - 1];
      LastApart(s);
      BodyState(t, front);
      UnderstoodSnoc(front, c);
      if !Understood(front) {
        TextStaysText(Feed(t.(state := Csi, csi := [], csiPrivate := false), front), c);
      } else if Extends(front, c) {
        InsideStep(t, front, c);
      } else {
        LeaveStep(t, front, c);
      }
    }
  }

  lemma AfterIntroducer(t: Live, s: seq<byte>)
    requires t.state == Normal && IsBody(s)
    ensures Understood(s) ==> Feed(t, Introducer(false) + s) == Inside(t, s)
    ensures !Understood(s) ==> Feed(t, Introducer(false) + s).state == Normal
  {
    Introduce(t, false);
    FeedAppend(t, Introducer(false), s);
    BodyState(t, s);
  }

  lemma NoIntermediates(params: seq<byte>, inter: seq<byte>)
    requires AreParameterBytes(params) && AreIntermediates(inter)
    ensures IsBody(params + inter)
    ensures Understood(params + inter) <==> inter == [] && Understood(params)
  {
    var s := params + inter;
    assert forall i :: 0 <= i < |s| ==> s[i] == if i < |params| then params[i] else inter[i - |params|];
    if inter == [] {
      assert s == params;
    } else {
      assert s[|params|] == inter[0];
      var n := Questions(s);
      assert n <= |params|;
      assert s[n..][|params| - n] == inter[0];
    }
  }

  /** What the final byte f then does: dispatched if the sequence is still open, printed if it is not. */
  lemma FinalByte(t: Live, s: seq<byte>, f: byte)
    requires t.state == Normal && IsBody(s) && IsFinal(f)
    ensures var u := Feed(t, Introducer(false) + s);
            Feed(t, Introducer(false) + s + [f])
            == if Understood(s) then Dispatch(u.(state := Normal), Parse(u.csi, MAX_PARAMS), f) else PutPrintable(u, f)
  {
    AfterIntroducer(t, s);
    FeedSnoc(t, Introducer(false) + s, f);
    var u := Feed(t, Introducer(false) + s);
    if Understood(s) {
      assert PutC(u, f) == Dispatch(u.(state := Normal), Parse(u.csi, MAX_PARAMS), f);
    } else {
      TextStaysText(u, f);
    }
  }

  /** Every control sequence of the standard, ESC [ P...P I...I F: it is consumed up to and including its final byte
      if and only if it has no intermediate bytes and its parameter bytes are a run of '?' followed by digits and ';'.
      Until then only the parser has moved. Otherwise the parser is back to text before the final byte, which is printed. */
  lemma {:induction false} ControlSequenceConsumedIff(t: Live, params: seq<byte>, inter: seq<byte>, f: byte)
    requires t.state == Normal && AreParameterBytes(params) && AreIntermediates(inter) && IsFinal(f)
    ensures var u := Feed(t, Introducer(false) + (params + inter));
            && (u.state == Csi <==> inter == [] && Understood(params))
            && (u.state == Csi ==> u == Inside(t, params))
            && Feed(t, Introducer(false) + (params + inter) + [f])
               == if u.state == Csi then Dispatch(u.(state := Normal), Parse(u.csi, MAX_PARAMS), f)
                  else PutPrintable(u, f)
  {
    NoIntermediates(params, inter);
    AfterIntroducer(t, params + inter);
    FinalByte(t, params + inter, f);
    assert inter == [] ==> params + inter == params;
  }

  lemma {:induction false} PrefixEnds(t: Live)
    requires t.state == Normal
    ensures Feed(t, Introducer(false) + ['>' as int]) == t.(pendingWrap := false, csi := [], csiPrivate := false)
  {
    assert Introducer(false) + [] + ['>' as int] == Introducer(false) + ['>' as int];
    UnknownSequenceIsIgnored(t, false, [], '>' as int);
  }

  /** For instance ESC [ > c, a request for device attributes: 'c' is printed. */
  lemma {:induction false} PrefixLeaks(t: Live)
    requires t.state == Normal
    ensures Feed(t, Introducer(false) + ['>' as int] + ['c' as int])
         == PutPrintable(t.(pendingWrap := false, csi := [], csiPrivate := false), 'c' as int)
  {
    PrefixEnds(t);
    FeedSnoc(t, Introducer(false) + ['>' as int], 'c' as int);
    TextStaysText(t.(pendingWrap := false, csi := [], csiPrivate := false), 'c' as int);
  }

  // ---- Operating system commands ----

  const RBRACKET: byte := 0x5D
  const BACKSLASH: byte := 0x5C

  predicate OscText(text: seq<byte>) {
    forall i :: 0 <= i < |text| ==> text[i] != BEL && text[i] != ESC
  }

  lemma {:induction false} InsideOsc(t: Live, text: seq<byte>)
    requires t.state == Osc && OscText(text)
    ensures Feed(t, text) == t
    decreases |text|
  {
    if text != [] {
      InsideOsc(t, text[..|text| - 1]);
    }
  }

  lemma {:induction false} EnterEscape(t: Live, c: byte)
    requires t.state == Normal
    ensures Feed(t, [ESC, c]) == PutEsc(t.(state := Esc), c)
  {
    FeedSnoc(t, [], ESC);
    FeedSnoc(t, [ESC], c);
    assert Feed(t, []) == t;
    assert [] + [ESC] == [ESC];
    assert [ESC] + [c] == [ESC, c];
  }

  lemma {:induction false} OscReturns(t: Live, text: seq<byte>, end: byte)
    requires t.state == Normal && OscText(text) && (end == BEL || end == ESC)
    ensures Feed(t, [ESC, RBRACKET] + text + [end]) == t
  {
    var u := t.(state := Osc);
    EnterEscape(t, RBRACKET);
    FeedAppend(t, [ESC, RBRACKET], text);
    InsideOsc(u, text);
    FeedSnoc(t, [ESC, RBRACKET] + text, end);
    assert PutC(u, end) == t;
  }

  /** How a string is ended: by BEL, as xterm allows, or by the standard's string terminator ESC \. */
  datatype Terminator = Bell | StringTerminator

  function TerminatorBytes(end: Terminator): seq<byte> {
    if end.Bell? then [BEL] else [ESC] + [BACKSLASH]
  }

  lemma PrintingShows(t: Live, c: byte)
    ensures PutPrintable(t, c) != t
  {
    if t.pendingWrap {
      var u := LineFeed(t.(col := 0, pendingWrap := false));
      assert u.col == 0 && !PutPrintable(t, c).pendingWrap;
    } else if t.col == COLS - 1 {
      assert PutPrintable(t, c).pendingWrap;
    } else {
      assert PutPrintable(t, c).col == t.col + 1;
    }
  }

  /** An operating system command leaves the terminal as it was if and only if it is ended by BEL. Ended by ESC \ it
      is closed by the ESC alone, and the backslash is printed. */
  lemma {:induction false} OscConsumedIff(t: Live, text: seq<byte>, end: Terminator)
    requires t.state == Normal && OscText(text)
    ensures Feed(t, [ESC, RBRACKET] + text + TerminatorBytes(end)) == t <==> end == Bell
    ensures end == StringTerminator ==>
              Feed(t, [ESC, RBRACKET] + text + TerminatorBytes(end)) == PutPrintable(t, BACKSLASH)
  {
    if end == Bell {
      OscReturns(t, text, BEL);
    } else {
      OscReturns(t, text, ESC);
      Assoc([ESC, RBRACKET] + text, [ESC], [BACKSLASH]);
      FeedSnoc(t, [ESC, RBRACKET] + text + [ESC], BACKSLASH);
      TextStaysText(t, BACKSLASH);
      PrintingShows(t, BACKSLASH);
    }
  }

  // ---- Other escape sequences ----

  /** The characters that designate a character set: ( ) * + */
  predicate IsDesignator(c: byte) {
    0x28 <= c <= 0x2B
  }

  lemma {:induction false} IntermediatesState(t: Live, inter: seq<byte>)
    requires t.state == Normal && AreIntermediates(inter) && inter != []
    ensures var u := Feed(t.(state := Esc), inter);
            if |inter| == 1 && IsDesignator(inter[0]) then u == t.(state := Charset) else u.state == Normal
    decreases |inter|
  {
    var front, c := inter[..|inter| - 1], inter[|inter| - 1];
    var u := Feed(t.(state := Esc), front);
    if front == [] {
      FirstIntermediate(t, c);
    } else {
      IntermediatesState(t, front);
      LaterIntermediate(u, c);
    }
  }

  lemma FirstIntermediate(t: Live, c: byte)
    requires IsIntermediate(c)
    ensures PutC(t.(state := Esc), c) == t.(state := if IsDesignator(c) then Charset else Normal)
  {
  }

  lemma LaterIntermediate(u: Live, c: byte)
    requires IsIntermediate(c) && (u.state == Charset || u.state == Normal)
    ensures PutC(u, c).state == Normal
  {
    if u.state == Normal {
      TextStaysText(u, c);
    }
  }

  /** Every escape sequence with intermediate bytes, ESC I...I F: it is consumed, without any trace, if its only
      intermediate byte designates a character set; every other one leaves text mode early and prints its final byte. */
  lemma {:induction false} EscapeConsumedIff(t: Live, inter: seq<byte>, f: byte)
    requires t.state == Normal && AreIntermediates(inter) && inter != [] && 0x30 <= f <= 0x7E
    ensures var u := Feed(t, [ESC] + inter);
            && (u.state != Normal <==> |inter| == 1 && IsDesignator(inter[0]))
            && Feed(t, [ESC] + inter + [f]) == if u.state != Normal then t else PutPrintable(u, f)
  {
    FeedAppend(t, [ESC], inter);
    FeedSnoc(t, [], ESC);
    assert [] + [ESC] == [ESC] && Feed(t, []) == t;
    IntermediatesState(t, inter);
    FeedSnoc(t, [ESC] + inter, f);
    var u := Feed(t, [ESC] + inter);
    if u.state == Normal {
      TextStaysText(u, f);
    }
  }

  /** Two-byte escapes that are neither introducers nor implemented are consumed without a trace. That includes the
      openers of device control and privacy strings (ESC P, ESC X, ESC ^, ESC _), so their content is then text. */
  lemma {:induction false} TwoByteEscapeConsumed(t: Live, f: byte)
    requires t.state == Normal && 0x30 <= f <= 0x7E
    requires f != LBRACKET && f != RBRACKET && f != '7' as int && f != '8' as int && f != 'c' as int
    ensures Feed(t, [ESC, f]) == t
  {
    EnterEscape(t, f);
  }
}
