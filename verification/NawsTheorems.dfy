/** Window-size reports (RFC 1073): when they are sent, what they say, and which of them survive the wire. */
module NawsTheorems {
  import opened Bytes
  import opened TelnetModel
  import opened TelnetTheorems

  // ---- When a report is sent ----

  function LastReport(ms: seq<Msg>): Option<(u16, u16)> {
    if ms == [] then None
    else match ms[|ms| - 1]
         case Naws(cols, rows) => Some((cols, rows))
         case _ => LastReport(ms[..|ms| - 1])
  }

  lemma LastReportSnoc(ms: seq<Msg>, m: Msg)
    ensures LastReport(ms + [m]) == if m.Naws? then Some((m.cols, m.rows)) else LastReport(ms)
  {
    assert (ms + [m])[..|ms|] == ms;
  }

  lemma {:induction false} LastReportAppend(a: seq<Msg>, b: seq<Msg>)
    ensures LastReport(a + b) == if LastReport(b).Some? then LastReport(b) else LastReport(a)
    decreases |b|
  {
    if b == [] {
      assert a + b == a;
    } else {
      var front := b[..|b| - 1];
      LastReportAppend(a, front);
      LastReportSnoc(a + front, b[|b| - 1]);
      assert a + b == a + front + [b[|b| - 1]];
    }
  }

  /** Reports are sent only when enabled, and then the last one carries the current size. */
  predicate Agrees(tn: Tn, last: Option<(u16, u16)>) {
    && (last.Some? ==> tn.nawsEnabled)
    && (tn.nawsEnabled && tn.cols != 0 && tn.rows != 0 ==> last == Some((tn.cols, tn.rows)))
  }

  lemma AnswerReports(cmd: byte, opt: byte, cols: u16, rows: u16)
    ensures LastReport(Answer(cmd, opt, cols, rows))
         == if cmd == DO && opt == OPT_NAWS && cols != 0 && rows != 0 then Some((cols, rows)) else None
  {
    LastReportSnoc([], Command(WILL, opt));
    assert [] + [Command(WILL, opt)] == [Command(WILL, opt)];
    LastReportSnoc([Command(WILL, opt)], Naws(cols, rows));
    assert Answer(cmd, opt, cols, rows) == [] || LastReport(Answer(cmd, opt, cols, rows)[..0]) == None;
  }

  lemma StepAgrees(tn: Tn, ms: seq<Msg>, c: byte, o: Out, all: seq<Msg>)
    requires Agrees(tn, LastReport(ms)) && o == Step(tn, c) && all == ms + o.msgs
    ensures Agrees(o.tn, LastReport(all))
  {
    StepReports(tn, c);
    StillAgrees(tn, c, LastReport(ms), LastReport(o.msgs));
    LastReportAppend(ms, o.msgs);
  }

  /** The report that a step sends, if any. */
  function Reported(tn: Tn, c: byte): Option<(u16, u16)> {
    if tn.state == CmdOpt && tn.pendingCmd == DO && c == OPT_NAWS && tn.cols != 0 && tn.rows != 0
    then Some((tn.cols, tn.rows)) else None
  }

  lemma StillAgrees(tn: Tn, c: byte, last: Option<(u16, u16)>, added: Option<(u16, u16)>)
    requires Agrees(tn, last) && added == Reported(tn, c)
    ensures Agrees(Step(tn, c).tn, if added.Some? then added else last)
  {
  }

  lemma StepReports(tn: Tn, c: byte)
    ensures LastReport(Step(tn, c).msgs) == Reported(tn, c)
  {
    if tn.state == CmdOpt {
      AnswerReports(tn.pendingCmd, c, tn.cols, tn.rows);
    } else {
      assert [TermType][..0] == [];
    }
  }

  lemma {:induction false} DecodeAgrees(tn: Tn, bs: seq<byte>, ms: seq<Msg>)
    requires Agrees(tn, LastReport(ms))
    ensures Agrees(Decode(tn, bs).tn, LastReport(ms + Decode(tn, bs).msgs))
    decreases |bs|
  {
    if bs == [] {
      assert ms + [] == ms;
    } else {
      var o := Decode(tn, bs[..|bs| - 1]);
      DecodeAgrees(tn, bs[..|bs| - 1], ms);
      var p := Step(o.tn, bs[|bs| - 1]);
      Assoc(ms, o.msgs, p.msgs);
      StepAgrees(o.tn, ms + o.msgs, bs[|bs| - 1], p, ms + (o.msgs + p.msgs));
    }
  }

  lemma PerformAgrees(c: Client, op: Op)
    requires Agrees(c.tn, LastReport(c.msgs))
    ensures Agrees(Perform(c, op).tn, LastReport(Perform(c, op).msgs))
  {
    match op
    case Receive(wire) => DecodeAgrees(c.tn, wire, c.msgs);
    case Write(_) =>
    case SetSize(cols, rows) =>
      LastReportSnoc(c.msgs, Naws(cols, rows));
      assert c.msgs + [] == c.msgs;
  }

  /** DO NAWS completes at some byte of bs. */
  predicate DoNawsIn(tn: Tn, bs: seq<byte>)
    decreases |bs|
  {
    bs != [] &&
    var front := bs[..|bs| - 1];
    var u := Decode(tn, front).tn;
    DoNawsIn(tn, front) || (u.state == CmdOpt && u.pendingCmd == DO && bs[|bs| - 1] == OPT_NAWS)
  }

  predicate DoNawsReceived(ops: seq<Op>) {
    ops != [] &&
    var front, last := ops[..|ops| - 1], ops[|ops| - 1];
    DoNawsReceived(front) || (last.Receive? && DoNawsIn(PerformAll(front).tn, last.wire))
  }

  lemma {:induction false} EnabledByDo(tn: Tn, bs: seq<byte>)
    ensures Decode(tn, bs).tn.nawsEnabled <==> tn.nawsEnabled || DoNawsIn(tn, bs)
    decreases |bs|
  {
    if bs != [] {
      EnabledByDo(tn, bs[..|bs| - 1]);
    }
  }

  /** In every interleaving of reads, writes and size changes, whichever comes first: reports are enabled exactly
      from the first DO NAWS on (a DONT does not revoke it), none is sent before, and from then on the last report
      carries the current size whenever both dimensions are known. */
  lemma {:induction false} NawsAgreement(ops: seq<Op>)
    ensures PerformAll(ops).tn.nawsEnabled <==> DoNawsReceived(ops)
    ensures Agrees(PerformAll(ops).tn, LastReport(PerformAll(ops).msgs))
    decreases |ops|
  {
    if ops != [] {
      var front, last := ops[..|ops| - 1], ops[|ops| - 1];
      NawsAgreement(front);
      PerformAgrees(PerformAll(front), last);
      if last.Receive? {
        EnabledByDo(PerformAll(front).tn, last.wire);
      }
    }
  }

  /** A size change is reported once, whatever the size, if DO NAWS was received before, and otherwise not at all. */
  lemma {:induction false} SizeReported(ops: seq<Op>, cols: u16, rows: u16)
    ensures var c, c' := PerformAll(ops), PerformAll(ops + [SetSize(cols, rows)]);
            && c'.msgs == c.msgs + (if DoNawsReceived(ops) then [Naws(cols, rows)] else [])
            && c'.tn == c.tn.(cols := cols, rows := rows) && c'.written == c.written
  {
    NawsAgreement(ops);
    assert (ops + [SetSize(cols, rows)])[..|ops|] == ops;
  }

  // ---- Which reports survive ----

  function Count255(s: seq<byte>): nat {
    if s == [] then 0 else Count255(s[..|s| - 1]) + if s[|s| - 1] == 255 then 1 else 0
  }

  function Weight(s: seq<byte>): nat {
    |s| + Count255(s)
  }

  lemma StoreWeight(tn: Tn, c: byte)
    ensures Weight(Store(tn, c).sbBuf) <= Weight(tn.sbBuf) + if c == 255 then 2 else 1
  {
    assert (tn.sbBuf + [c])[..|tn.sbBuf|] == tn.sbBuf;
  }

  /** Every stored byte costs one byte of input, a stored 255 two, and leaving a subnegotiation two more. */
  predicate Paid(tn: Tn, n: int) {
    Weight(tn.sbBuf) + (if tn.state == Sub then 0 else if tn.state == SubIac then 1 else 2) <= n
  }

  lemma StepPays(tn: Tn, c: byte, n: nat)
    requires Paid(tn, n)
    ensures Paid(Step(tn, c).tn, n + 1)
  {
    var u := Step(tn, c).tn;
    if tn.state == Sub && tn.sbHaveOpt && c != IAC {
      assert u == Store(tn, c);
      StoreWeight(tn, c);
    } else if tn.state == SubIac && c == IAC {
      assert u == Store(tn, 255).(state := Sub);
      StoreWeight(tn, 255);
    } else {
      assert u.sbBuf == tn.sbBuf || u.sbBuf == [];
      assert Weight([]) == 0;
    }
  }

  lemma {:induction false} DecodePays(tn: Tn, bs: seq<byte>)
    requires Paid(tn, 0)
    ensures Paid(Decode(tn, bs).tn, |bs|)
    decreases |bs|
  {
    if bs != [] {
      DecodePays(tn, bs[..|bs| - 1]);
      StepPays(Decode(tn, bs[..|bs| - 1]).tn, bs[|bs| - 1], |bs| - 1);
    }
  }

  lemma {:induction false} NoneCounted(s: seq<byte>)
    requires Count255(s) == 0
    ensures 255 !in s
    decreases |s|
  {
    if s != [] {
      NoneCounted(s[..|s| - 1]);
      LastApart(s);
    }
  }

  /** The peer has read a complete size report with this size. */
  predicate Reports(tn: Tn, cols: u16, rows: u16) {
    && (tn.state, tn.sbOpt, |tn.sbBuf|) == (Data, 31, 4)
    && (Word(tn.sbBuf[0], tn.sbBuf[1]), Word(tn.sbBuf[2], tn.sbBuf[3])) == (cols, rows)
  }

  lemma ReadAsSize(buf: seq<byte>, cols: u16, rows: u16)
    requires |buf| == 4 && Word(buf[0], buf[1]) == cols && Word(buf[2], buf[3]) == rows
    ensures buf == NawsPayload(cols, rows)
  {
  }

  lemma PayloadReads(payload: seq<byte>, cols: u16, rows: u16)
    requires payload == NawsPayload(cols, rows)
    ensures |payload| == 4 && Take(16, payload) == payload
    ensures (Word(payload[0], payload[1]), Word(payload[2], payload[3])) == (cols, rows)
  {
  }

  lemma {:induction false} PlainReportArrives(peer: Tn, cols: u16, rows: u16)
    requires peer.state == Data && PlainSize(cols, rows)
    ensures Reports(Decode(peer, MsgBytes(Naws(cols, rows))).tn, cols, rows)
    ensures Decode(peer, MsgBytes(Naws(cols, rows))).data == []
  {
    MsgIsItem(Naws(cols, rows));
    var payload := NawsPayload(cols, rows);
    DecodeSubnegotiation(peer, OPT_NAWS, payload);
    PayloadReads(payload, cols, rows);
  }

  /** Whatever its size, a report pays for what it stores with the six bytes after its first three. */
  lemma {:induction false} ReportPays(peer: Tn, payload: seq<byte>)
    requires peer.state == Data && |payload| == 4
    ensures Paid(Decode(peer, [IAC, SB, OPT_NAWS] + payload + [IAC, SE]).tn, 6)
  {
    var u := peer.(state := Sub, sbOpt := OPT_NAWS, sbHaveOpt := true, sbBuf := []);
    OpenSubnegotiation(peer, OPT_NAWS);
    Assoc([IAC, SB, OPT_NAWS], payload, [IAC, SE]);
    DecodeAppend(peer, [IAC, SB, OPT_NAWS], payload + [IAC, SE]);
    DecodePays(u, payload + [IAC, SE]);
  }

  lemma {:induction false} ArrivedReportIsPlain(peer: Tn, cols: u16, rows: u16)
    requires peer.state == Data && Reports(Decode(peer, MsgBytes(Naws(cols, rows))).tn, cols, rows)
    ensures PlainSize(cols, rows)
  {
    var payload := NawsPayload(cols, rows);
    ReportPays(peer, payload);
    ReadAsSize(Decode(peer, MsgBytes(Naws(cols, rows))).tn.sbBuf, cols, rows);
    NoneCounted(payload);
  }

  /** tn_send_naws does not double 255 as RFC 855 asks. A report reaches the peer as the size it should carry
      exactly when none of its four size bytes is 255. */
  lemma {:induction false} ReportArrivesIff(peer: Tn, cols: u16, rows: u16)
    requires peer.state == Data
    ensures Reports(Decode(peer, MsgBytes(Naws(cols, rows))).tn, cols, rows) <==> PlainSize(cols, rows)
  {
    if PlainSize(cols, rows) {
      PlainReportArrives(peer, cols, rows);
    } else if Reports(Decode(peer, MsgBytes(Naws(cols, rows))).tn, cols, rows) {
      ArrivedReportIsPlain(peer, cols, rows);
    }
  }
}
