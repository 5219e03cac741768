/** Touch-drag scrolling: pixels accumulate as a visual pan and are folded into whole scrolled lines now and then. */
module DragModel {
  import opened Bytes
  import Cells
  import opened TermModel
  import opened HistoryView

  const CHAR_H := 16
  const CATCHUP_PX := 160
  const MIN_INTERVAL_US := 40000
  const JUMP_LINES := 100000

  /** Integer division as in C: the quotient is truncated toward zero. */
  function TruncDiv(a: int, b: int): int
    requires b > 0
  {
    if a >= 0 then a / b else -((-a) / b)
  }

  /** What the user sees: the terminal, the pan in pixels, and when the last catch-up was drawn. */
  datatype DragView = DragView(t: Live, pan: int, lastRender: int)

  datatype Gesture = Press(dy: int, now: int) | Release(now: int) | JumpToLive

  function CatchUp(v: DragView, now: int): DragView {
    var lines := TruncDiv(v.pan, CHAR_H);
    if lines != 0 then DragView(ScrollBy(v.t, lines), v.pan - lines * CHAR_H, now)
    else v.(lastRender := now)
  }

  predicate MustCatchUp(v: DragView, now: int) {
    now - v.lastRender >= MIN_INTERVAL_US || v.pan >= CATCHUP_PX || v.pan <= -CATCHUP_PX
  }

  function Respond(v: DragView, g: Gesture): DragView {
    match g
    case Press(dy, now) =>
      if dy == 0 then v
      else
        var u := v.(pan := v.pan + dy);
        if MustCatchUp(u, now) then CatchUp(u, now) else u
    case Release(now) => CatchUp(v, now).(pan := 0)
    case JumpToLive => v.(t := ScrollBy(v.t, -JUMP_LINES), pan := 0)
  }

  function RespondAll(v: DragView, gs: seq<Gesture>): DragView
    decreases |gs|
  {
    if gs == [] then v else Respond(RespondAll(v, gs[..|gs| - 1]), gs[|gs| - 1])
  }

  /** How far down the history the picture has been pulled, in pixels. */
  function Pulled(v: DragView): int {
    CHAR_H * v.t.offset + v.pan
  }

  /** Vertical pixel position, on the panned canvas, of line `line` of the session. */
  function PixelOf(v: DragView, line: int): int {
    CHAR_H * (line - TopLine(v.t)) + v.pan
  }

  /** The scroll that a catch-up asks for stays inside the retained history. */
  predicate CatchUpFits(v: DragView) {
    0 <= v.t.offset + TruncDiv(v.pan, CHAR_H) <= Count(v.t)
  }

  lemma TruncDivRemainder(a: int)
    ensures -CHAR_H < a - TruncDiv(a, CHAR_H) * CHAR_H < CHAR_H
    ensures a > 0 ==> a - TruncDiv(a, CHAR_H) * CHAR_H >= 0
    ensures a < 0 ==> a - TruncDiv(a, CHAR_H) * CHAR_H <= 0
  {
  }

  /** A catch-up leaves less than a line of pan, and keeps every line exactly where it was on the screen, precisely
      when the scroll is not clamped. */
  lemma CatchUpKeepsPicture(v: DragView, now: int, line: int)
    ensures -CHAR_H < CatchUp(v, now).pan < CHAR_H
    ensures Pulled(CatchUp(v, now)) == Pulled(v) <==> CatchUpFits(v)
    ensures PixelOf(CatchUp(v, now), line) == PixelOf(v, line) <==> CatchUpFits(v)
  {
    TruncDivRemainder(v.pan);
  }

  /** With no history, dragging down one line snaps back: the scroll is clamped and the line jumps by 16 pixels. */
  lemma ClampedCatchUpJumps()
    ensures var v := DragView(Fresh(), CHAR_H, 0);
            !CatchUpFits(v) && PixelOf(v, 0) == CHAR_H && PixelOf(CatchUp(v, 0), 0) == 0
  {
  }

  /** A move of dy pixels at time `now`, in microseconds: nothing but the pan changes, unless 40 ms have passed since
      the last redraw or the pan has reached ten lines either way; then whole lines become scrolling. */
  lemma PressEffect(v: DragView, dy: int, now: int)
    ensures var v' := Respond(v, Press(dy, now));
            var due := dy != 0 && (now - v.lastRender >= 40000 || v.pan + dy >= 160 || v.pan + dy <= -160);
            && (!due ==> v' == v.(pan := v.pan + dy))
            && (due ==> exists lines: int ::
                  && v' == DragView(ScrollBy(v.t, lines), v.pan + dy - lines * 16, now)
                  && -16 < v.pan + dy - lines * 16 < 16
                  && (lines > 0 ==> v.pan + dy > 0) && (lines < 0 ==> v.pan + dy < 0))
  {
    var lines := TruncDiv(v.pan + dy, CHAR_H);
    TruncDivRemainder(v.pan + dy);
    assert lines == 0 ==> ScrollBy(v.t, lines) == v.t;
  }

  /** Along any gestures the pan stays within ten lines, so the blank strip it uncovers does. */
  lemma {:induction false} PanStaysSmall(v: DragView, gs: seq<Gesture>)
    requires -160 < v.pan < 160
    ensures -160 < RespondAll(v, gs).pan < 160
    decreases |gs|
  {
    if gs != [] {
      var u := RespondAll(v, gs[..|gs| - 1]);
      PanStaysSmall(v, gs[..|gs| - 1]);
      match gs[|gs| - 1]
      case Press(dy, now) => TruncDivRemainder(u.pan + dy);
      case Release(_) =>
      case JumpToLive =>
    }
  }

  /** No press along gs runs into either end of the history. */
  predicate NeverClamps(v: DragView, gs: seq<Gesture>)
    decreases |gs|
  {
    gs != [] ==>
      var u, g := RespondAll(v, gs[..|gs| - 1]), gs[|gs| - 1];
      && NeverClamps(v, gs[..|gs| - 1]) && g.Press?
      && (g.dy != 0 && MustCatchUp(u.(pan := u.pan + g.dy), g.now) ==> CatchUpFits(u.(pan := u.pan + g.dy)))
  }

  function TotalDrag(gs: seq<Gesture>): int {
    if gs == [] then 0
    else TotalDrag(gs[..|gs| - 1]) + match gs[|gs| - 1] case Press(dy, _) => dy case _ => 0
  }

  /** However the moves are batched, the picture has moved by exactly what the finger moved. */
  lemma {:induction false} DragConservation(v: DragView, gs: seq<Gesture>)
    requires NeverClamps(v, gs)
    ensures Pulled(RespondAll(v, gs)) == Pulled(v) + TotalDrag(gs)
    decreases |gs|
  {
    if gs != [] {
      var u, g := RespondAll(v, gs[..|gs| - 1]), gs[|gs| - 1];
      DragConservation(v, gs[..|gs| - 1]);
      CatchUpKeepsPicture(u.(pan := u.pan + g.dy), g.now, 0);
    }
  }

  /** Letting go settles on whole lines and discards less than one. */
  lemma ReleaseDiscardsRemainder(v: DragView, now: int)
    requires CatchUpFits(v)
    ensures Respond(v, Release(now)).pan == 0
    ensures -CHAR_H < Pulled(Respond(v, Release(now))) - Pulled(v) < CHAR_H
  {
    CatchUpKeepsPicture(v, now, 0);
  }

  /** Going live: no history on screen, whatever the offset was (the ring holds far fewer lines than the jump). */
  lemma JumpIsLive(v: DragView, r: int)
    requires 0 <= r < Cells.ROWS
    ensures var u := Respond(v, JumpToLive);
            u.t.offset == 0 && u.pan == 0 && DisplayRow(u.t, r) == Cells.RowAt(Active(v.t), r)
  {
  }

  /** Output arriving in the middle of a drag moves nothing that is on screen from the history, until the ring
      overflows under the view. */
  lemma {:induction false} OutputKeepsPicture(v: DragView, bs: seq<byte>, line: int)
    requires v.t.offset > 0 && Fits(v.t, Feed(v.t, bs))
    ensures PixelOf(v.(t := Feed(v.t, bs)), line) == PixelOf(v, line)
  {
    ViewStaysIff(v.t, bs);
  }
}
