/** Whether a peer that runs the same decoder stays in step with the client. Everything but size reports is well
    formed; a report is sent without doubling 255, so a byte 255 in it may close it early or leave it open. */
module PeerSync {
  import opened Bytes
  import opened TelnetModel
  import opened TelnetTheorems
  import opened NawsTheorems

  // ---- What the peer makes of one size report ----

  /** Session data that the peer reads out of a report with the size bytes a, b, c, d. */
  function Stray(a: byte, b: byte, c: byte, d: byte): seq<byte> {
    if a == IAC && b != IAC then
      if c != IAC then [c] + if d != IAC then [d] else [IAC, SE]
      else if d == IAC then [IAC]
      else if IsNegotiation(d) then [SE]
      else []
    else if a != IAC && b == IAC && c != IAC then
      if d != IAC then [d] else [IAC, SE]
    else []
  }

  /** The closing IAC SE is not seen as such, and the peer stays inside a subnegotiation. */
  predicate StaysOpen(a: byte, b: byte, c: byte, d: byte) {
    if a == IAC && b != IAC then c == IAC && d == SB
    else if a != IAC && b == IAC then c == IAC && d == IAC
    else c != IAC && d == IAC
  }

  /** The size bytes that the peer gets past, read right or not. */
  predicate Closes(a: byte, b: byte, c: byte, d: byte) {
    if a == IAC && b != IAC then c == IAC && d != IAC && d != SB && !IsNegotiation(d)
    else if a != IAC && b == IAC then c == IAC && d != IAC
    else c == IAC || d != IAC
  }

  /** What a report makes the peer answer: a negotiation that is none. */
  function StrayAnswer(peer: Tn, a: byte, b: byte, c: byte, d: byte): seq<Msg> {
    if a == IAC && b != IAC && c == IAC && IsNegotiation(d) then Due(d, IAC, peer.cols, peer.rows) else []
  }

  /** Two bytes. */
  function Two(u: Tn, c: byte, d: byte): Out {
    Then(Step(u, c), Step(Step(u, c).tn, d))
  }

  /** The last six bytes of a report. */
  function Six(u: Tn, a: byte, b: byte, c: byte, d: byte): Out {
    var o := Two(u, a, b);
    var p := Two(o.tn, c, d);
    Then(o, Then(p, Two(p.tn, IAC, SE)))
  }

  lemma DecodeSix(u: Tn, a: byte, b: byte, c: byte, d: byte)
    ensures Decode(u, [a, b] + ([c, d] + [IAC, SE])) == Six(u, a, b, c, d)
  {
    var o := Two(u, a, b);
    var p := Two(o.tn, c, d);
    DecodeTwo(u, a, b);
    DecodeTwo(o.tn, c, d);
    DecodeTwo(p.tn, IAC, SE);
    Chain(o.tn, [c, d], p, [IAC, SE], Two(p.tn, IAC, SE));
    Chain(u, [a, b], o, [c, d] + [IAC, SE], Then(p, Two(p.tn, IAC, SE)));
  }

  predicate InReport(u: Tn, peer: Tn) {
    u.sbOpt == OPT_NAWS && u.sbHaveOpt && u.cols == peer.cols && u.rows == peer.rows
  }

  lemma PairInSub(u: Tn, peer: Tn, a: byte, b: byte)
    requires InReport(u, peer) && u.state == Sub
    ensures var o := Two(u, a, b);
            && InReport(o.tn, peer) && o.data == [] && o.msgs == []
            && o.tn.state == if a == IAC && b != IAC then Data else if a != IAC && b == IAC then SubIac else Sub
  {
  }

  lemma PairInSubIac(u: Tn, peer: Tn, c: byte, d: byte)
    requires InReport(u, peer) && u.state == SubIac
    ensures var o := Two(u, c, d);
            && InReport(o.tn, peer) && o.msgs == []
            && o.data == (if c != IAC && d != IAC then [d] else [])
            && o.tn.state == if c == IAC then (if d == IAC then SubIac else Sub) else if d == IAC then Iac else Data
  {
  }

  lemma PairInData(u: Tn, peer: Tn, c: byte, d: byte)
    requires InReport(u, peer) && u.state == Data
    ensures var o := Two(u, c, d);
            && o.tn.cols == peer.cols && o.tn.rows == peer.rows && o.msgs == []
            && o.data == (if c != IAC then [c] + (if d != IAC then [d] else []) else if d == IAC then [IAC] else [])
            && o.tn.state == (if c != IAC then (if d == IAC then Iac else Data)
                              else if IsNegotiation(d) then CmdOpt else if d == SB then Sub else Data)
            && (o.tn.state == CmdOpt ==> o.tn.pendingCmd == d)
            && (o.tn.state == Sub ==> !o.tn.sbHaveOpt)
  {
  }

  /** The two bytes that should close the report, read inside it. */
  lemma ClosingInReport(u: Tn)
    requires u.state == Sub || (u.state == SubIac && u.sbHaveOpt)
    requires u.sbHaveOpt ==> u.sbOpt == OPT_NAWS
    ensures var o := Two(u, IAC, SE);
            && o.tn.state == (if u.state == Sub && u.sbHaveOpt then Data else Sub)
            && (o.tn.state == Sub ==> o.tn.sbHaveOpt)
            && o.data == [] && o.msgs == []
  {
  }

  /** The same, read outside it. */
  lemma ClosingOutside(u: Tn)
    requires u.state == Data || u.state == Iac || u.state == CmdOpt
    ensures var o := Two(u, IAC, SE);
            && o.tn.state == Data
            && o.data == (match u.state case Iac => [IAC, SE] case CmdOpt => [SE] case _ => [])
            && o.msgs == (if u.state == CmdOpt then Answer(u.pendingCmd, IAC, u.cols, u.rows) else [])
  {
  }

  /** o is what the peer must get out of the report. */
  predicate IsOutcome(o: Out, peer: Tn, a: byte, b: byte, c: byte, d: byte) {
    && o.data == Stray(a, b, c, d) && o.msgs == StrayAnswer(peer, a, b, c, d)
    && o.tn.state == (if StaysOpen(a, b, c, d) then Sub else Data) && (o.tn.state == Sub ==> o.tn.sbHaveOpt)
  }

  lemma FirstPairInside(u: Tn, peer: Tn, a: byte, b: byte, c: byte, d: byte)
    requires InReport(u, peer) && u.state == Sub && (a == IAC <==> b == IAC)
    ensures var o := Two(u, c, d);
            IsOutcome(Then(o, Two(o.tn, IAC, SE)), peer, a, b, c, d)
  {
    PairInSub(u, peer, c, d);
    var v := Two(u, c, d).tn;
    if v.state == Data { ClosingOutside(v); } else { ClosingInReport(v); }
  }

  lemma FirstPairHalf(u: Tn, peer: Tn, a: byte, b: byte, c: byte, d: byte)
    requires InReport(u, peer) && u.state == SubIac && a != IAC && b == IAC
    ensures var o := Two(u, c, d);
            IsOutcome(Then(o, Two(o.tn, IAC, SE)), peer, a, b, c, d)
  {
    PairInSubIac(u, peer, c, d);
    var v := Two(u, c, d).tn;
    if c == IAC { ClosingInReport(v); } else { ClosingOutside(v); }
  }

  lemma OutsideText(u: Tn, peer: Tn, a: byte, b: byte, c: byte, d: byte)
    requires InReport(u, peer) && u.state == Data && a == IAC && b != IAC && c != IAC
    ensures var o := Two(u, c, d);
            IsOutcome(Then(o, Two(o.tn, IAC, SE)), peer, a, b, c, d)
  {
    PairInData(u, peer, c, d);
    ClosingOutside(Two(u, c, d).tn);
  }

  lemma OutsideCommand(u: Tn, peer: Tn, a: byte, b: byte, c: byte, d: byte)
    requires InReport(u, peer) && u.state == Data && a == IAC && b != IAC && c == IAC
    ensures var o := Two(u, c, d);
            IsOutcome(Then(o, Two(o.tn, IAC, SE)), peer, a, b, c, d)
  {
    PairInData(u, peer, c, d);
    var v := Two(u, c, d).tn;
    if v.state == Sub { ClosingInReport(v); } else { ClosingOutside(v); }
    if IsNegotiation(d) { AnswerIsDue(d, IAC, peer.cols, peer.rows); }
  }

  lemma SixOutcome(u: Tn, peer: Tn, a: byte, b: byte, c: byte, d: byte)
    requires InReport(u, peer) && u.state == Sub
    ensures IsOutcome(Six(u, a, b, c, d), peer, a, b, c, d)
  {
    PairInSub(u, peer, a, b);
    var v := Two(u, a, b).tn;
    QuietFirst(v, Then(Two(v, c, d), Two(Two(v, c, d).tn, IAC, SE)));
    if v.state == Data {
      if c != IAC { OutsideText(v, peer, a, b, c, d); } else { OutsideCommand(v, peer, a, b, c, d); }
    } else if v.state == SubIac {
      FirstPairHalf(v, peer, a, b, c, d);
    } else {
      FirstPairInside(v, peer, a, b, c, d);
    }
  }

  lemma ReportInPieces(cols: u16, rows: u16)
    ensures MsgBytes(Naws(cols, rows))
         == [IAC, SB, OPT_NAWS] + ([cols / 256, cols % 256] + ([rows / 256, rows % 256] + [IAC, SE]))
  {
  }

  /** The peer inside a size report. */
  function Opened(peer: Tn): Tn {
    peer.(state := Sub, sbOpt := OPT_NAWS, sbHaveOpt := true, sbBuf := [])
  }

  lemma DecodeOpened(peer: Tn, rest: seq<byte>, o: Out)
    requires peer.state == Data && Decode(Opened(peer), rest) == o
    ensures Decode(peer, [IAC, SB, OPT_NAWS] + rest) == o
  {
    OpenSubnegotiation(peer, OPT_NAWS);
    Chain(peer, [IAC, SB, OPT_NAWS], Out(Opened(peer), [], []), rest, o);
    QuietFirst(Opened(peer), o);
  }

  lemma {:induction false} DecodeReport(peer: Tn, a: byte, b: byte, c: byte, d: byte)
    requires peer.state == Data
    ensures Decode(peer, [IAC, SB, OPT_NAWS] + ([a, b] + ([c, d] + [IAC, SE]))) == Six(Opened(peer), a, b, c, d)
  {
    DecodeSix(Opened(peer), a, b, c, d);
    DecodeOpened(peer, [a, b] + ([c, d] + [IAC, SE]), Six(Opened(peer), a, b, c, d));
  }

  /** Every size: the stray data, whether the peer is left inside the report, and the stray answer. */
  lemma {:induction false} ReportOutcome(peer: Tn, cols: u16, rows: u16)
    requires peer.state == Data
    ensures IsOutcome(Decode(peer, MsgBytes(Naws(cols, rows))), peer, cols / 256, cols % 256, rows / 256, rows % 256)
  {
    ReportInPieces(cols, rows);
    DecodeReport(peer, cols / 256, cols % 256, rows / 256, rows % 256);
    SixOutcome(Opened(peer), peer, cols / 256, cols % 256, rows / 256, rows % 256);
  }

  /** The size of a report that the peer gets past. */
  predicate ClosingSize(cols: u16, rows: u16) {
    Closes(cols / 256, cols % 256, rows / 256, rows % 256)
  }

  lemma ClosesIff(a: byte, b: byte, c: byte, d: byte)
    ensures Closes(a, b, c, d) <==> Stray(a, b, c, d) == [] && !StaysOpen(a, b, c, d)
  {
  }

  /** The peer reads no session data out of a report and is ready for more exactly when the size closes. */
  lemma ReportClosesIff(peer: Tn, cols: u16, rows: u16)
    requires peer.state == Data
    ensures var o := Decode(peer, MsgBytes(Naws(cols, rows)));
            o.data == [] && o.tn.state == Data <==> ClosingSize(cols, rows)
  {
    ReportOutcome(peer, cols, rows);
    ClosesIff(cols / 256, cols % 256, rows / 256, rows % 256);
  }

  /** A lone 255 in the low byte of the columns: the report is lost, the high byte of the rows is taken for a command,
      the low byte for session data. */
  lemma {:induction false} LostReport(peer: Tn, cols: u16, rows: u16)
    requires peer.state == Data
    requires cols % 256 == 255 && cols / 256 != IAC && rows / 256 != IAC && rows % 256 != IAC
    ensures var o := Decode(peer, MsgBytes(Naws(cols, rows)));
            (o.data, o.msgs, o.tn.state) == ([rows % 256], [], Data) && !Reports(o.tn, cols, rows)
  {
    ReportOutcome(peer, cols, rows);
    assert NawsPayload(cols, rows)[1] == 255;
    ReportArrivesIff(peer, cols, rows);
  }

  /** Not every 255 does harm: 65535 by 42 is read wrong, and the peer stays in step. */
  lemma HarmlessSize()
    ensures ClosingSize(65535, 42) && !PlainSize(65535, 42)
  {
    assert NawsPayload(65535, 42)[0] == 255;
  }

  // ---- Once out of step ----

  /** Inside a subnegotiation, or in the middle of a command, where a message should start. */
  predicate Off(tn: Tn) {
    tn.state == Iac || (tn.state == Sub && tn.sbHaveOpt)
  }

  predicate Lost(o: Out) {
    o.data != [] || Off(o.tn)
  }

  predicate IsMsg(m: Msg) {
    m.Command? ==> IsNegotiation(m.cmd)
  }

  lemma DataKept(tn: Tn, a: seq<byte>, b: seq<byte>)
    requires Decode(tn, a).data != []
    ensures Decode(tn, a + b).data != []
  {
    DecodeAppend(tn, a, b);
  }

  lemma FirstThree(tn: Tn, cmd: byte, opt: byte)
    requires Off(tn) && cmd != IAC && cmd != SE
    ensures Lost(Decode(tn, [IAC, cmd] + [opt]))
    ensures opt != IAC ==> Decode(tn, [IAC, cmd] + [opt]).data != []
  {
    DecodeTwo(tn, IAC, cmd);
    DecodeOne(Decode(tn, [IAC, cmd]).tn, opt);
    DecodeAppend(tn, [IAC, cmd], [opt]);
  }

  /** None of the client's own messages leads back: it leaves stray data behind, or the peer still off. */
  lemma OffStays(tn: Tn, m: Msg)
    requires Off(tn) && IsMsg(m)
    ensures Lost(Decode(tn, MsgBytes(m)))
  {
    match m
    case Command(cmd, opt) =>
      FirstThree(tn, cmd, opt);
      assert [IAC, cmd] + [opt] == MsgBytes(m);
    case Naws(cols, rows) =>
      FirstThree(tn, SB, OPT_NAWS);
      DataKept(tn, [IAC, SB] + [OPT_NAWS], NawsPayload(cols, rows) + [IAC, SE]);
      assert [IAC, SB] + [OPT_NAWS] + (NawsPayload(cols, rows) + [IAC, SE]) == MsgBytes(m);
    case TermType =>
      FirstThree(tn, SB, OPT_TERM_TYPE);
      DataKept(tn, [IAC, SB] + [OPT_TERM_TYPE], [0] + TERM_NAME + [IAC, SE]);
      assert [IAC, SB] + [OPT_TERM_TYPE] + ([0] + TERM_NAME + [IAC, SE]) == MsgBytes(m);
  }

  predicate Harmless(m: Msg) {
    m.Naws? ==> ClosingSize(m.cols, m.rows)
  }

  predicate AllHarmless(ms: seq<Msg>) {
    forall i :: 0 <= i < |ms| ==> Harmless(ms[i])
  }

  lemma MessageOutcome(tn: Tn, m: Msg)
    requires tn.state == Data && IsMsg(m)
    ensures var o := Decode(tn, MsgBytes(m));
            if Harmless(m) then (o.data, o.tn.state) == ([], Data) else Lost(o)
  {
    if m.Naws? {
      ReportOutcome(tn, m.cols, m.rows);
      ClosesIff(m.cols / 256, m.cols % 256, m.rows / 256, m.rows % 256);
    } else {
      MsgIsItem(m);
      DecodeItem(tn, AsItem(m));
    }
  }

  /** o is what some messages must leave behind: nothing if all are harmless, otherwise a peer that is lost. */
  predicate Follows(o: Out, ms: seq<Msg>) {
    if AllHarmless(ms) then (o.data, o.tn.state) == ([], Data) else Lost(o)
  }

  lemma FollowsSnoc(o: Out, front: seq<Msg>, m: Msg, ms: seq<Msg>)
    requires Follows(o, front) && IsMsg(m) && ms == front + [m]
    ensures Follows(Then(o, Decode(o.tn, MsgBytes(m))), ms)
  {
    assert AllHarmless(ms) <==> AllHarmless(front) && Harmless(m) by {
      assert forall i :: 0 <= i < |front| ==> ms[i] == front[i];
      assert ms[|front|] == m;
    }
    if AllHarmless(front) {
      MessageOutcome(o.tn, m);
    } else if o.data == [] {
      OffStays(o.tn, m);
    }
  }

  /** What the peer hears, message by message. */
  function Told(tn: Tn, ms: seq<Msg>): Out
    decreases |ms|
  {
    if ms == [] then Out(tn, [], [])
    else
      var o := Told(tn, ms[..|ms| - 1]);
      Then(o, Decode(o.tn, MsgBytes(ms[|ms| - 1])))
  }

  lemma {:induction false} DecodeMessages(tn: Tn, ms: seq<Msg>)
    ensures Decode(tn, MsgsBytes(ms)) == Told(tn, ms)
    decreases |ms|
  {
    if ms != [] {
      var front := ms[..|ms| - 1];
      DecodeMessages(tn, front);
      DecodeAppend(tn, MsgsBytes(front), MsgBytes(ms[|ms| - 1]));
    }
  }

  lemma {:induction false} MessagesOutcome(tn: Tn, ms: seq<Msg>)
    requires tn.state == Data && AreNegotiations(ms)
    ensures Follows(Told(tn, ms), ms)
    decreases |ms|
  {
    if ms != [] {
      var front, m := ms[..|ms| - 1], ms[|ms| - 1];
      MessagesOutcome(tn, front);
      LastApart(ms);
      FollowsSnoc(Told(tn, front), front, m, ms);
    }
  }

  // ---- Whole runs ----

  /** The peer has read exactly what was written, and is between items. */
  predicate InStep(peer: Tn, c: Client) {
    Decode(peer, c.sent).data == c.written && Decode(peer, c.sent).tn.state == Data
  }

  lemma OpBytes(c: Client, op: Op)
    ensures Perform(c, op).msgs == c.msgs + OpMsgs(c, op)
    ensures !op.Write? ==> Perform(c, op).sent == c.sent + MsgsBytes(OpMsgs(c, op)) && Perform(c, op).written == c.written
    ensures !op.Write? ==> AreNegotiations(OpMsgs(c, op))
  {
    match op
    case Receive(wire) => RepliesNegotiate(c.tn, wire);
    case Write(_) => assert c.msgs + [] == c.msgs;
    case SetSize(_, _) =>
  }

  lemma OpInStep(peer: Tn, c: Client, op: Op)
    requires InStep(peer, c)
    ensures InStep(peer, Perform(c, op)) <==> AllHarmless(OpMsgs(c, op))
  {
    var u := Decode(peer, c.sent).tn;
    OpBytes(c, op);
    match op
    case Write(data) =>
      DecodeAppend(peer, c.sent, Stuff(data));
      StuffRoundTrip(u, data);
    case _ =>
      var bs := MsgsBytes(OpMsgs(c, op));
      DecodeAppend(peer, c.sent, bs);
      DecodeMessages(u, OpMsgs(c, op));
      MessagesOutcome(u, OpMsgs(c, op));
      assert c.written + Decode(u, bs).data == c.written <==> Decode(u, bs).data == [] by {
        assert |c.written + Decode(u, bs).data| == |c.written| + |Decode(u, bs).data|;
      }
  }

  /** In step at the start and after every operation. */
  predicate InStepThroughout(peer: Tn, ops: seq<Op>)
    decreases |ops|
  {
    InStep(peer, PerformAll(ops)) && (ops != [] ==> InStepThroughout(peer, ops[..|ops| - 1]))
  }

  lemma HarmlessAppend(a: seq<Msg>, b: seq<Msg>)
    ensures AllHarmless(a + b) <==> AllHarmless(a) && AllHarmless(b)
  {
    var all := a + b;
    assert forall i :: 0 <= i < |a| ==> a[i] == all[i];
    assert forall i :: 0 <= i < |b| ==> b[i] == all[|a| + i];
  }

  /** In any interleaving of reads with their inline replies, writes and size changes: a peer that runs this decoder
      over everything sent has, after every operation, exactly what was written, if and only if every size reported
      on the way is one that it gets past. */
  lemma {:induction false} InStepIff(peer: Tn, ops: seq<Op>)
    requires peer.state == Data
    ensures InStepThroughout(peer, ops) <==> AllHarmless(PerformAll(ops).msgs)
    decreases |ops|
  {
    if ops != [] {
      var front, last := ops[..|ops| - 1], ops[|ops| - 1];
      var c := PerformAll(front);
      InStepIff(peer, front);
      OpBytes(c, last);
      HarmlessAppend(c.msgs, OpMsgs(c, last));
      if InStepThroughout(peer, front) {
        OpInStep(peer, c, last);
      }
    }
  }

  lemma {:induction false} PeerGetsWhatWasWritten(ops: seq<Op>, peer: Tn)
    requires AllHarmless(PerformAll(ops).msgs) && peer.state == Data
    ensures Decode(peer, PerformAll(ops).sent).data == PerformAll(ops).written
    ensures Decode(peer, PerformAll(ops).sent).tn.state == Data
  {
    InStepIff(peer, ops);
  }

  // ---- Two runs on which it fails ----

  lemma AskedForSize()
    ensures Decode(Connected(), [IAC, DO, OPT_NAWS]).msgs == [Command(WILL, OPT_NAWS)]
    ensures Decode(Connected(), [IAC, DO, OPT_NAWS]).tn.nawsEnabled
  {
    DecodeNegotiation(Connected(), DO, OPT_NAWS);
  }

  lemma PerformSnoc(ops: seq<Op>, op: Op)
    ensures PerformAll(ops + [op]) == Perform(PerformAll(ops), op)
  {
    assert (ops + [op])[..|ops|] == ops;
  }

  /** The server asks for the window size, and the size is then set. */
  function SizeRun(cols: u16, rows: u16): seq<Op> {
    [Receive([IAC, DO, OPT_NAWS]), SetSize(cols, rows)]
  }

  lemma SizeTold(cols: u16, rows: u16)
    ensures var c := PerformAll(SizeRun(cols, rows));
            c.written == [] && c.sent == MsgBytes(Command(WILL, OPT_NAWS)) + MsgBytes(Naws(cols, rows))
  {
    var asked := Receive([IAC, DO, OPT_NAWS]);
    PerformSnoc([], asked);
    PerformSnoc([asked], SetSize(cols, rows));
    assert [] + [asked] == [asked] && [asked] + [SetSize(cols, rows)] == SizeRun(cols, rows);
    AskedForSize();
    OneMessage(Command(WILL, OPT_NAWS));
    OneMessage(Naws(cols, rows));
  }

  lemma AfterSizeRun(cols: u16, rows: u16)
    ensures var o := Decode(Connected(), PerformAll(SizeRun(cols, rows)).sent);
            && o.data == Stray(cols / 256, cols % 256, rows / 256, rows % 256)
            && o.tn.state == (if StaysOpen(cols / 256, cols % 256, rows / 256, rows % 256) then Sub else Data)
            && (o.tn.state == Sub ==> o.tn.sbHaveOpt)
  {
    var will := MsgBytes(Command(WILL, OPT_NAWS));
    SizeTold(cols, rows);
    DecodeNegotiation(Connected(), WILL, OPT_NAWS);
    DecodeAppend(Connected(), will, MsgBytes(Naws(cols, rows)));
    ReportOutcome(Decode(Connected(), will).tn, cols, rows);
  }

  /** A lone 255 in the low byte of the columns, for instance 255 by 24: nothing was written, and the peer receives a
      byte. */
  lemma {:induction false} StrayByte(cols: u16, rows: u16)
    requires cols % 256 == 255 && cols / 256 != IAC && rows / 256 != IAC && rows % 256 != IAC
    ensures var c := PerformAll(SizeRun(cols, rows));
            c.written == [] && Decode(Connected(), c.sent).data == [rows % 256]
  {
    SizeTold(cols, rows);
    AfterSizeRun(cols, rows);
  }

  lemma Swallows(tn: Tn, c: byte)
    requires tn.state == Sub && tn.sbHaveOpt && c != IAC
    ensures Decode(tn, [c]).data == [] && Decode(tn, [c]).tn.state == Sub
    ensures Stuff([c]) == [c]
  {
    DecodeOne(tn, c);
    StuffPlain([c]);
  }

  /** A lone 255 in the low byte of the rows, for instance 80 by 255: the report is never closed, and what is written
      next does not arrive, because the peer takes it for the rest of the report. */
  lemma {:induction false} SwallowedWrite(cols: u16, rows: u16, c: byte)
    requires cols / 256 != IAC && cols % 256 != IAC && rows / 256 != IAC && rows % 256 == IAC && c != IAC
    ensures var u := PerformAll(SizeRun(cols, rows) + [Write([c])]);
            var o := Decode(Connected(), u.sent);
            u.written == [c] && o.data == [] && o.tn.state == Sub
  {
    var u := PerformAll(SizeRun(cols, rows));
    SizeTold(cols, rows);
    AfterSizeRun(cols, rows);
    PerformSnoc(SizeRun(cols, rows), Write([c]));
    Swallows(Decode(Connected(), u.sent).tn, c);
    DecodeAppend(Connected(), u.sent, [c]);
  }
}
