/** Select Graphic Rendition, read backwards: each property of the pen comes from the last parameter that sets it. */
module Sgr {
  import opened Bytes
  import opened Cells
  import opened CsiParams
  import opened TermModel
  import opened ControlSequences

  datatype Property = Foreground | Background | Bold | Underline | Reverse

  /** The value of a property in a pen, as a number. */
  function Get(pen: Pen, prop: Property): int {
    match prop
    case Foreground => pen.fg
    case Background => pen.bg
    case Bold => if Has(pen.attrs, ATTR_BOLD) then 1 else 0
    case Underline => if Has(pen.attrs, ATTR_UNDERL) then 1 else 0
    case Reverse => if Has(pen.attrs, ATTR_REVERSE) then 1 else 0
  }

  /** What parameter p makes of a property, if anything (the table of SGR codes, column by column). */
  function Sets(p: int, prop: Property): Option<int> {
    match prop
    case Foreground =>
      if p <= 0 || p == 39 then Some(7)
      else if 30 <= p <= 37 then Some(p - 30)
      else if 90 <= p <= 97 then Some(p - 82)
      else None
    case Background =>
      if p <= 0 || p == 49 then Some(0)
      else if 40 <= p <= 47 then Some(p - 40)
      else if 100 <= p <= 107 then Some(p - 92)
      else None
    case Bold => Switch(p, 1, 22)
    case Underline => Switch(p, 4, 24)
    case Reverse => Switch(p, 7, 27)
  }

  function Switch(p: int, on: int, off: int): Option<int> {
    if p <= 0 || p == off then Some(0) else if p == on then Some(1) else None
  }

  /** The last setting of a property in a list of parameters. */
  function LastSetting(ps: seq<int>, prop: Property, initial: int): int {
    if ps == [] then initial
    else match Sets(ps[|ps| - 1], prop)
         case Some(v) => v
         case None => LastSetting(ps[..|ps| - 1], prop, initial)
  }

  predicate Has(a: bv8, bit: bv8) {
    a & bit != 0
  }

  /** Setting or clearing one attribute bit leaves the other two as they were. */
  lemma BitLaws(a: bv8, bit: bv8, other: bv8)
    requires bit == ATTR_BOLD || bit == ATTR_UNDERL || bit == ATTR_REVERSE
    requires other == ATTR_BOLD || other == ATTR_UNDERL || other == ATTR_REVERSE
    ensures Has(a | bit, other) == (bit == other || Has(a, other))
    ensures Has(a & !bit, other) == (bit != other && Has(a, other))
  {
  }

  lemma OneColor(pen: Pen, p: int, prop: Property)
    requires prop.Foreground? || prop.Background?
    ensures Get(SgrOne(pen, p), prop) == (match Sets(p, prop) case Some(v) => v case None => Get(pen, prop))
  {
  }

  lemma OtherBits(a: bv8, bit: bv8)
    requires bit == ATTR_BOLD || bit == ATTR_UNDERL || bit == ATTR_REVERSE
    ensures !Has(0, bit)
    ensures Has(a | ATTR_BOLD, bit) == (bit == ATTR_BOLD || Has(a, bit))
    ensures Has(a & !ATTR_BOLD, bit) == (bit != ATTR_BOLD && Has(a, bit))
    ensures Has(a | ATTR_UNDERL, bit) == (bit == ATTR_UNDERL || Has(a, bit))
    ensures Has(a & !ATTR_UNDERL, bit) == (bit != ATTR_UNDERL && Has(a, bit))
    ensures Has(a | ATTR_REVERSE, bit) == (bit == ATTR_REVERSE || Has(a, bit))
    ensures Has(a & !ATTR_REVERSE, bit) == (bit != ATTR_REVERSE && Has(a, bit))
  {
    BitLaws(a, ATTR_BOLD, bit);
    BitLaws(a, ATTR_UNDERL, bit);
    BitLaws(a, ATTR_REVERSE, bit);
  }

  lemma OneBold(a: bv8, p: int)
    ensures Has(AttrsAfter(a, p), ATTR_BOLD) == (match Switch(p, 1, 22) case Some(v) => v == 1 case None => Has(a, ATTR_BOLD))
  {
    OtherBits(a, ATTR_BOLD);
  }

  lemma OneUnderline(a: bv8, p: int)
    ensures Has(AttrsAfter(a, p), ATTR_UNDERL) == (match Switch(p, 4, 24) case Some(v) => v == 1 case None => Has(a, ATTR_UNDERL))
  {
    OtherBits(a, ATTR_UNDERL);
  }

  lemma OneReverse(a: bv8, p: int)
    ensures Has(AttrsAfter(a, p), ATTR_REVERSE) == (match Switch(p, 7, 27) case Some(v) => v == 1 case None => Has(a, ATTR_REVERSE))
  {
    OtherBits(a, ATTR_REVERSE);
  }

  /** One parameter touches exactly the properties its table row names. */
  lemma OneParameter(pen: Pen, p: int, prop: Property)
    ensures Get(SgrOne(pen, p), prop) == (match Sets(p, prop) case Some(v) => v case None => Get(pen, prop))
  {
    if prop.Foreground? || prop.Background? {
      OneColor(pen, p, prop);
    } else {
      OneBold(pen.attrs, p);
      OneUnderline(pen.attrs, p);
      OneReverse(pen.attrs, p);
    }
  }

  lemma {:induction false} LastInList(pen: Pen, ps: seq<int>, prop: Property)
    ensures Get(SgrAll(pen, ps), prop) == LastSetting(ps, prop, Get(pen, prop))
    decreases |ps|
  {
    if ps != [] {
      LastInList(pen, ps[..|ps| - 1], prop);
      OneParameter(SgrAll(pen, ps[..|ps| - 1]), ps[|ps| - 1], prop);
    }
  }

  /** An empty list stands for the single parameter 0, the reset. */
  function Effective(ps: seq<int>): seq<int> {
    if ps == [] then [0] else ps
  }

  lemma LastOfSgr(pen: Pen, ps: seq<int>, prop: Property)
    ensures Get(TermModel.Sgr(pen, ps), prop) == LastSetting(Effective(ps), prop, Get(pen, prop))
  {
    if ps == [] {
      assert [0][..0] == [];
      assert SgrAll(pen, [0]) == SgrOne(pen, 0) == DEFAULT_PEN;
    }
    LastInList(pen, Effective(ps), prop);
  }

  /** The command on a parameter list: each property of the pen is what the last parameter that sets it says, or
      unchanged; and nothing but the pen changes. */
  lemma {:induction false} LastOfList(t: Live, ps: seq<int>, prop: Property)
    ensures Get(Control(t, ps, 'm' as int).pen, prop) == LastSetting(Effective(ps), prop, Get(t.pen, prop))
    ensures Control(t, ps, 'm' as int) == t.(pen := Control(t, ps, 'm' as int).pen)
  {
    LastOfSgr(t.pen, ps, prop);
  }

  /** The whole sequence ESC [ ... m, from its bytes: each property of the pen is what the last parameter that sets it
      says, among the first 16 that the first 63 bytes hold, or unchanged; no parameter at all means 0. Nothing but the
      pen, the deferred wrap and the parameter buffer changes. */
  lemma {:induction false} LastParameterWins(t: Live, params: seq<byte>, prop: Property)
    requires t.state == Normal && Clean(params)
    ensures var t' := Feed(t, Introducer(false) + params + ['m' as int]);
            && Get(t'.pen, prop)
               == LastSetting(Effective(Parse(Kept(params), MAX_PARAMS)), prop, Get(t.pen, prop))
            && t' == t.(pen := t'.pen, pendingWrap := false, csi := Kept(params), csiPrivate := false)
  {
    var text := Kept(params);
    SequenceReachesDispatch(t, false, params, 'm' as int);
    LastOfList(t.(csi := text, csiPrivate := false, pendingWrap := false), Parse(text, MAX_PARAMS), prop);
  }

  /** A seventeenth parameter is not read: with 30 in sixteenth place and then 31, for instance, the foreground is
      colour 0. */
  lemma {:induction false} SeventeenthIgnored(t: Live, ps: seq<int>, prop: Property)
    requires t.state == Normal && |ps| == MAX_PARAMS + 1 && forall i :: 0 <= i < |ps| ==> 10 <= ps[i] < 100
    requires Sets(ps[MAX_PARAMS - 1], prop).Some? && Sets(ps[MAX_PARAMS], prop).Some?
    ensures Get(Feed(t, Introducer(false) + Print(ps) + ['m' as int]).pen, prop) == Sets(ps[MAX_PARAMS - 1], prop).value
    ensures LastSetting(ps, prop, Get(t.pen, prop)) == Sets(ps[MAX_PARAMS], prop).value
  {
    SeventeenFit(ps);
    FirstSixteen(ps);
    LastReadWins(t, Print(ps), ps[..MAX_PARAMS], prop);
    LastSets(ps, prop, Get(t.pen, prop));
  }

  lemma LastSets(ps: seq<int>, prop: Property, initial: int)
    requires ps != [] && Sets(ps[|ps| - 1], prop).Some?
    ensures LastSetting(ps, prop, initial) == Sets(ps[|ps| - 1], prop).value
  {
  }

  lemma {:induction false} LastReadWins(t: Live, params: seq<byte>, read: seq<int>, prop: Property)
    requires t.state == Normal && Clean(params) && Parse(Kept(params), MAX_PARAMS) == read
    requires read != [] && Sets(read[|read| - 1], prop).Some?
    ensures Get(Feed(t, Introducer(false) + params + ['m' as int]).pen, prop) == Sets(read[|read| - 1], prop).value
  {
    LastParameterWins(t, params, prop);
    LastSets(read, prop, Get(t.pen, prop));
  }

  lemma FirstSixteen(ps: seq<int>)
    requires |ps| == MAX_PARAMS + 1 && IsParamList(ps) && ps[MAX_PARAMS] != -1
    ensures Kept(Print(ps)) == Print(ps) ==> Parse(Kept(Print(ps)), MAX_PARAMS) == ps[..MAX_PARAMS]
  {
    ParseAfterPrint(ps);
    assert Trim(ps) == ps;
  }

  lemma SeventeenFit(ps: seq<int>)
    requires |ps| == MAX_PARAMS + 1 && IsParamList(ps) && forall i :: 0 <= i < |ps| ==> 10 <= ps[i] < 100
    ensures |Print(ps)| <= CSI_MAX
  {
    forall i | 0 <= i < |ps| ensures |PrintFields(ps)[i]| == 2 {
      TwoDigits(ps[i]);
    }
    JoinOfEqual(PrintFields(ps), 2);
  }
}
