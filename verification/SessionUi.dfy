/** The session screen as it runs: drag callbacks and the read, drain, feed and render loop. */
module SessionUi {
  import opened Bytes
  import opened TermModel
  import opened TelnetModel
  import opened TelnetTheorems
  import opened DragModel
  import opened SessionModel
  import opened RenderModel
  import opened Terminal
  import opened Renderer
  import opened TelnetClient

  const MAX_DRAINS := 8

  /** The wire bytes that a list of reads delivers. */
  function Delivered(events: seq<NetEvent>): seq<byte> {
    if events == [] then [] else Delivered(events[..|events| - 1]) + WireBytes(events[|events| - 1])
  }

  /** Does this read bring session data? */
  predicate BringsData(tn: Tn, ev: NetEvent) {
    Decode(tn, WireBytes(ev)).data != []
  }

  /** How many of the waiting reads a drain makes: at most `limit`, and none after one that brings no data. */
  function Drained(tn: Tn, events: seq<NetEvent>, limit: nat): (n: nat)
    ensures n <= limit && n <= |events|
    decreases |events|
  {
    if limit == 0 || events == [] then 0
    else if !BringsData(tn, events[0]) then 1
    else 1 + Drained(Decode(tn, WireBytes(events[0])).tn, events[1..], limit - 1)
  }

  /** How many reads one round makes. */
  function Reads(tn: Tn, events: seq<NetEvent>): (n: nat)
    requires events != []
    ensures 1 <= n <= 9
  {
    if BringsData(tn, events[0]) then 1 + Drained(Decode(tn, WireBytes(events[0])).tn, events[1..], MAX_DRAINS) else 1
  }

  /** The codec after the first k reads, taken one by one. */
  function After(tn: Tn, events: seq<NetEvent>, k: nat): Tn
    requires k <= |events|
    decreases k
  {
    if k == 0 then tn else After(Decode(tn, WireBytes(events[0])).tn, events[1..], k - 1)
  }

  lemma {:induction false} AfterIsDecoded(tn: Tn, events: seq<NetEvent>, k: nat)
    requires k <= |events|
    ensures After(tn, events, k) == Decode(tn, Delivered(events[..k])).tn
    decreases k
  {
    if k > 0 {
      AfterIsDecoded(Decode(tn, WireBytes(events[0])).tn, events[1..], k - 1);
      DeliveredFirst(events, k - 1);
      DecodeAppend(tn, WireBytes(events[0]), Delivered(events[1..][..k - 1]));
    }
  }

  /** The two clauses of DrainedStops, `n` reads being made and `more` saying whether read k brings data. */
  predicate StopsAt(n: nat, k: nat, more: bool, limit: nat) {
    (k + 1 < n ==> more) && (k + 1 == n && more ==> k + 1 == limit)
  }

  lemma {:induction false} StopsAfter(tn: Tn, events: seq<NetEvent>, limit: nat, k: nat)
    requires k < |events| && k < Drained(tn, events, limit)
    requires limit <= |events|
    ensures StopsAt(Drained(tn, events, limit), k, BringsData(After(tn, events, k), events[k]), limit)
    decreases limit
  {
    if k == 0 {
      StopsFirst(tn, events, limit);
    } else {
      StopsAfter(Decode(tn, WireBytes(events[0])).tn, events[1..], limit - 1, k - 1);
      assert events[1..][k - 1] == events[k];
    }
  }

  lemma StopsFirst(tn: Tn, events: seq<NetEvent>, limit: nat)
    requires 0 < limit <= |events|
    ensures StopsAt(Drained(tn, events, limit), 0, BringsData(tn, events[0]), limit)
  {
    if BringsData(tn, events[0]) && limit > 1 {
      assert Drained(Decode(tn, WireBytes(events[0])).tn, events[1..], limit - 1) > 0;
    }
  }

  /** A drain stops at the first read without data, or at the limit: every read but the last brought data, and the
      last did only at the limit. */
  lemma {:induction false} DrainedStops(tn: Tn, events: seq<NetEvent>, limit: nat, k: nat)
    requires |events| >= limit && k < Drained(tn, events, limit)
    ensures var more := BringsData(Decode(tn, Delivered(events[..k])).tn, events[k]);
            if k + 1 < Drained(tn, events, limit) then more else more ==> k + 1 == limit
  {
    StopsAfter(tn, events, limit, k);
    AfterIsDecoded(tn, events, k);
  }

  /** What one recv may deliver into a 512-byte buffer. */
  predicate EventOk(ev: NetEvent) {
    ev.Received? ==> 0 < |ev.raw| <= RAW_SIZE
  }

  predicate EventsOk(events: seq<NetEvent>) {
    forall i :: 0 <= i < |events| ==> EventOk(events[i])
  }

  lemma LaterOk(events: seq<NetEvent>)
    requires events != [] && EventsOk(events)
    ensures EventsOk(events[1..])
  {
  }

  class SessionUi {
    const term: Terminal
    const display: Renderer
    const tn: TelnetClient
    var dragPan: int
    var lastRender: int

    ghost predicate Valid()
      reads this, display, display.renderedGrid, display.textScratch,
            term, term.mainGrid, term.altGrid, term.scrollback, term.csiBuf, tn
    {
      && display.term == term && display.Valid() && tn.Valid()
      && tn.sbBuf != term.csiBuf && tn.sbBuf != display.textScratch
    }

    ghost function Drag(): DragView
      reads this, term, term.mainGrid, term.altGrid, term.scrollback, term.csiBuf
      requires term.Valid()
    {
      DragView(term.Live(), dragPan, lastRender)
    }

    ghost function PipeView(): Pipe
      reads this, term, term.mainGrid, term.altGrid, term.scrollback, term.csiBuf, tn, tn.sbBuf
      requires term.Valid() && tn.Valid()
    {
      Pipe(tn.View(), term.Live(), tn.msgs, tn.Sent())
    }

    constructor (t: Terminal, d: Renderer, client: TelnetClient)
      requires d.term == t && d.Valid() && client.Valid()
      requires client.sbBuf != t.csiBuf && client.sbBuf != d.textScratch
      ensures Valid() && term == t && display == d && tn == client && dragPan == 0 && lastRender == 0
    {
      term, display, tn := t, d, client;
      dragPan, lastRender := 0, 0;
    }

    // ---- Drag callbacks ----

    method Fold(now: int)
      requires Valid()
      modifies this`dragPan, this`lastRender, term`scrollOffset
      ensures Valid() && Drag() == CatchUp(old(Drag()), now)
    {
      var lines := if dragPan >= 0 then dragPan / CHAR_H else -((-dragPan) / CHAR_H);
      if lines != 0 {
        term.Scroll(lines);
        dragPan := dragPan - lines * CHAR_H;
      }
      lastRender := now;
    }

    method CatchUpScroll(now: int)
      requires Valid()
      modifies this`dragPan, this`lastRender, term`scrollOffset, display, display.renderedGrid, display.textScratch
      ensures Valid() && Drag() == CatchUp(old(Drag()), now)
      ensures display.canvas == FullRedraw(term.Live())
    {
      Fold(now);
      display.Render();
    }

    method CanvasPressing(dy: int, now: int)
      requires Valid()
      modifies this`dragPan, this`lastRender, term`scrollOffset, display, display.renderedGrid, display.textScratch
      ensures Valid() && Drag() == Respond(old(Drag()), Press(dy, now))
      ensures dy != 0 && MustCatchUp(old(Drag()).(pan := old(dragPan) + dy), now) ==>
                display.canvas == FullRedraw(term.Live())
    {
      if dy == 0 { return; }
      dragPan := dragPan + dy;
      var timeToCatchUp := now - lastRender >= MIN_INTERVAL_US;
      var panTooFar := dragPan >= CATCHUP_PX || dragPan <= -CATCHUP_PX;
      if !timeToCatchUp && !panTooFar { return; }
      CatchUpScroll(now);
    }

    method CanvasReleased(now: int)
      requires Valid()
      modifies this`dragPan, this`lastRender, term`scrollOffset, display, display.renderedGrid, display.textScratch
      ensures Valid() && Drag() == Respond(old(Drag()), Release(now))
      ensures display.canvas == FullRedraw(term.Live())
    {
      CatchUpScroll(now);
      dragPan := 0;
    }

    method JumpToLiveClicked()
      requires Valid()
      modifies this`dragPan, term`scrollOffset, display, display.renderedGrid, display.textScratch
      ensures Valid() && Drag() == Respond(old(Drag()), JumpToLive)
      ensures display.canvas == FullRedraw(term.Live())
    {
      term.Scroll(-JUMP_LINES);
      display.Render();
      dragPan := 0;
    }

    /** Before a key is sent: typing while looking back snaps to the live screen. */
    method SnapToLive()
      requires Valid()
      modifies this`dragPan, term`scrollOffset, display, display.renderedGrid, display.textScratch
      ensures Valid() && term.Live().offset == 0
      ensures Drag() == if old(term.Live()).offset > 0 then Respond(old(Drag()), JumpToLive) else old(Drag())
      ensures if old(term.Live()).offset > 0 then display.canvas == FullRedraw(term.Live())
              else display.Memory() == old(display.Memory())
    {
      var scrolled := term.IsScrolled();
      if scrolled {
        JumpToLiveClicked();
      }
    }

    // ---- The io loop ----

    /** The read by itself. */
    method ReadWire(ev: NetEvent, buf: array<byte>) returns (n: int)
      requires Valid() && EventOk(ev) && buf.Length == RAW_SIZE
      requires buf != tn.sbBuf && buf != term.csiBuf && buf != display.textScratch
      modifies tn, tn.sbBuf, buf
      ensures Valid() && term.Live() == old(term.Live()) && n <= RAW_SIZE
      ensures var o := Decode(old(tn.View()), WireBytes(ev));
              && tn.View() == o.tn && tn.msgs == old(tn.msgs) + o.msgs
              && tn.Sent() == old(tn.Sent()) + MsgsBytes(o.msgs)
              && n == (match ev case Received(_) => |o.data| case Timeout => 0 case _ => -1)
              && (n >= 0 ==> buf[..n] == o.data)
    {
      n := tn.Read(ev, buf, RAW_SIZE);
    }

    method FeedData(data: seq<byte>)
      requires Valid()
      modifies term, term.mainGrid, term.altGrid, term.scrollback, term.csiBuf
      ensures Valid() && term.Live() == Feed(old(term.Live()), data)
      ensures tn.View() == old(tn.View())
    {
      term.Feed(data);
    }

    /** One read, and what it delivers fed to the terminal. */
    method ReadAndFeed(ev: NetEvent, buf: array<byte>) returns (n: int)
      requires Valid() && EventOk(ev) && buf.Length == RAW_SIZE
      requires buf != tn.sbBuf && buf != term.csiBuf && buf != display.textScratch
      modifies tn, tn.sbBuf, buf, term, term.mainGrid, term.altGrid, term.scrollback, term.csiBuf
      ensures Valid() && PipeView() == Pump(old(PipeView()), WireBytes(ev))
      ensures n < 0 <==> ev.SelectFailed? || ev.Closed?
      ensures n > 0 <==> BringsData(old(tn.View()), ev)
    {
      n := ReadWire(ev, buf);
      if n > 0 {
        FeedData(buf[..n]);
      }
    }

    /** Up to eight more reads, as long as they bring data; `events` are the outcomes the network has in store. */
    method Drain(events: seq<NetEvent>, buf: array<byte>) returns (consumed: nat)
      requires Valid() && |events| >= MAX_DRAINS && EventsOk(events)
      requires buf.Length == RAW_SIZE && buf != tn.sbBuf && buf != term.csiBuf && buf != display.textScratch
      modifies tn, tn.sbBuf, buf, term, term.mainGrid, term.altGrid, term.scrollback, term.csiBuf
      ensures Valid() && consumed == Drained(old(tn.View()), events, MAX_DRAINS)
      ensures PipeView() == Pump(old(PipeView()), Delivered(events[..consumed]))
    {
      consumed := 0;
      ghost var start, p := PipeView(), PipeView();
      DrainStarts(start, events);
      while consumed < MAX_DRAINS
        invariant 0 <= consumed <= MAX_DRAINS && Valid()
        invariant PipeView() == p && Draining(start, p, events, consumed)
      {
        var n2;
        n2, p := DrainOne(events, consumed, buf, start, p);
        consumed := consumed + 1;
        if n2 <= 0 { return; }
      }
      DrainEnds(start, p, events);
    }

    method DrainOne(events: seq<NetEvent>, k: nat, buf: array<byte>, ghost start: Pipe, ghost p: Pipe)
      returns (n: int, ghost p': Pipe)
      requires Valid() && k < MAX_DRAINS <= |events| && EventOk(events[k])
      requires buf.Length == RAW_SIZE && buf != tn.sbBuf && buf != term.csiBuf && buf != display.textScratch
      requires PipeView() == p && Draining(start, p, events, k)
      modifies tn, tn.sbBuf, buf, term, term.mainGrid, term.altGrid, term.scrollback, term.csiBuf
      ensures Valid() && PipeView() == p'
      ensures if n > 0 then Draining(start, p', events, k + 1)
              else k + 1 == Drained(start.tn, events, MAX_DRAINS) && p' == Pump(start, Delivered(events[..k + 1]))
    {
      DrainStep(start, p, events, k);
      n := ReadAndFeed(events[k], buf);
      p' := Pump(p, WireBytes(events[k]));
    }

    /** A read and, if it brought data, the drains after it. */
    method ReadRound(events: seq<NetEvent>, buf: array<byte>) returns (consumed: nat, n: int)
      requires Valid() && |events| > MAX_DRAINS && EventsOk(events)
      requires buf.Length == RAW_SIZE && buf != tn.sbBuf && buf != term.csiBuf && buf != display.textScratch
      modifies tn, tn.sbBuf, buf, term, term.mainGrid, term.altGrid, term.scrollback, term.csiBuf
      ensures Valid() && consumed == Reads(old(tn.View()), events)
      ensures PipeView() == Pump(old(PipeView()), Delivered(events[..consumed]))
      ensures n < 0 <==> events[0].SelectFailed? || events[0].Closed?
      ensures n > 0 <==> BringsData(old(tn.View()), events[0])
      ensures n <= 0 ==> term.Live() == old(term.Live())
    {
      ghost var start := PipeView();
      n := ReadAndFeed(events[0], buf);
      var more := DrainIfData(events, buf, n, start);
      consumed := 1 + more;
    }

    method DrainIfData(events: seq<NetEvent>, buf: array<byte>, n: int, ghost start: Pipe) returns (more: nat)
      requires Valid() && |events| > MAX_DRAINS && EventsOk(events)
      requires buf.Length == RAW_SIZE && buf != tn.sbBuf && buf != term.csiBuf && buf != display.textScratch
      requires PipeView() == Pump(start, WireBytes(events[0])) && (n > 0 <==> BringsData(start.tn, events[0]))
      modifies tn, tn.sbBuf, buf, term, term.mainGrid, term.altGrid, term.scrollback, term.csiBuf
      ensures Valid() && 1 + more == Reads(start.tn, events)
      ensures PipeView() == Pump(start, Delivered(events[..1 + more]))
      ensures n <= 0 ==> term.Live() == start.t
    {
      more := 0;
      if n > 0 {
        LaterOk(events);
        more := Drain(events[1..], buf);
      } else {
        QuietRound(start, events);
      }
      RoundBytes(start, events, more);
    }

    /** One round of the io loop: a read, then drains, then one render. A first read without data changes nothing on
        screen. */
    method IoRound(events: seq<NetEvent>) returns (consumed: nat, closed: bool)
      requires Valid() && |events| > MAX_DRAINS && EventsOk(events)
      modifies tn, tn.sbBuf, term, term.mainGrid, term.altGrid, term.scrollback, term.csiBuf,
               display, display.renderedGrid, display.textScratch
      ensures Valid() && consumed == Reads(old(tn.View()), events)
      ensures PipeView() == Pump(old(PipeView()), Delivered(events[..consumed]))
      ensures closed <==> events[0].SelectFailed? || events[0].Closed?
      ensures if BringsData(old(tn.View()), events[0]) then display.canvas == FullRedraw(term.Live())
              else consumed == 1 && display.Memory() == old(display.Memory()) && term.Live() == old(term.Live())
    {
      var buf := new byte[RAW_SIZE](_ => 0);
      consumed, closed := RoundInto(events, buf);
    }

    method RoundInto(events: seq<NetEvent>, buf: array<byte>) returns (consumed: nat, closed: bool)
      requires Valid() && |events| > MAX_DRAINS && EventsOk(events)
      requires buf.Length == RAW_SIZE && buf != tn.sbBuf && buf != term.csiBuf && buf != display.textScratch
      modifies tn, tn.sbBuf, buf, term, term.mainGrid, term.altGrid, term.scrollback, term.csiBuf,
               display, display.renderedGrid, display.textScratch
      ensures Valid() && consumed == Reads(old(tn.View()), events)
      ensures PipeView() == Pump(old(PipeView()), Delivered(events[..consumed]))
      ensures closed <==> events[0].SelectFailed? || events[0].Closed?
      ensures if BringsData(old(tn.View()), events[0]) then display.canvas == FullRedraw(term.Live())
              else consumed == 1 && display.Memory() == old(display.Memory()) && term.Live() == old(term.Live())
    {
      var n;
      consumed, n := ReadRound(events, buf);
      closed := n < 0;
      if n > 0 {
        Redraw();
      }
    }

    method Redraw()
      requires Valid()
      modifies display, display.renderedGrid, display.textScratch
      ensures Valid() && display.canvas == FullRedraw(term.Live()) && PipeView() == old(PipeView())
    {
      display.Render();
    }
  }

  /** After k of the reads of a drain, with more to come. */
  predicate Draining(start: Pipe, p: Pipe, events: seq<NetEvent>, k: nat)
    requires k <= MAX_DRAINS <= |events|
  {
    && p == Pump(start, Delivered(events[..k]))
    && k + Drained(p.tn, events[k..], MAX_DRAINS - k) == Drained(start.tn, events, MAX_DRAINS)
  }

  lemma DrainStarts(start: Pipe, events: seq<NetEvent>)
    requires MAX_DRAINS <= |events|
    ensures Draining(start, start, events, 0)
  {
    PumpNothing(start);
    assert events[..0] == [] && events[0..] == events;
  }

  lemma DrainEnds(start: Pipe, p: Pipe, events: seq<NetEvent>)
    requires MAX_DRAINS <= |events| && Draining(start, p, events, MAX_DRAINS)
    ensures p == Pump(start, Delivered(events[..MAX_DRAINS])) && Drained(start.tn, events, MAX_DRAINS) == MAX_DRAINS
  {
  }

  lemma {:induction false} DrainStep(start: Pipe, p: Pipe, events: seq<NetEvent>, k: nat)
    requires k < MAX_DRAINS <= |events| && Draining(start, p, events, k)
    ensures Pump(p, WireBytes(events[k])) == Pump(start, Delivered(events[..k + 1]))
    ensures if BringsData(p.tn, events[k]) then Draining(start, Pump(p, WireBytes(events[k])), events, k + 1)
            else k + 1 == Drained(start.tn, events, MAX_DRAINS)
  {
    DrainBytes(start, events, k);
    assert events[k..][1..] == events[k + 1..];
  }

  lemma QuietRound(p: Pipe, events: seq<NetEvent>)
    requires events != [] && !BringsData(p.tn, events[0])
    ensures var q := Pump(p, WireBytes(events[0]));
            q.t == p.t && q == Pump(q, Delivered(events[1..][..0]))
  {
    PumpNothing(Pump(p, WireBytes(events[0])));
  }

  lemma DeliveredOne(events: seq<NetEvent>)
    requires events != []
    ensures Delivered(events[..0]) == [] && Delivered(events[..1]) == WireBytes(events[0])
  {
    assert events[..1][..0] == events[..0] == [];
  }

  lemma RoundBytes(p: Pipe, events: seq<NetEvent>, more: nat)
    requires 1 + more <= |events|
    ensures Pump(Pump(p, WireBytes(events[0])), Delivered(events[1..][..more])) == Pump(p, Delivered(events[..1 + more]))
  {
    DeliveredFirst(events, more);
    PumpTwice(p, WireBytes(events[0]), Delivered(events[1..][..more]));
  }

  lemma DrainBytes(p: Pipe, events: seq<NetEvent>, k: nat)
    requires k < |events|
    ensures Pump(Pump(p, Delivered(events[..k])), WireBytes(events[k])) == Pump(p, Delivered(events[..k + 1]))
  {
    PumpTwice(p, Delivered(events[..k]), WireBytes(events[k]));
    assert events[..k + 1][..k] == events[..k];
  }

  lemma {:induction false} DeliveredFirst(events: seq<NetEvent>, k: nat)
    requires k + 1 <= |events|
    ensures Delivered(events[..k + 1]) == WireBytes(events[0]) + Delivered(events[1..][..k])
    decreases k
  {
    if k == 0 {
      assert events[..1][..0] == [];
    } else {
      DeliveredFirst(events, k - 1);
      assert events[..k + 1][..k] == events[..k];
      assert events[1..][..k][..k - 1] == events[1..][..k - 1];
    }
  }
}
