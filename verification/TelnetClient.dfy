/** The telnet client as it runs: one struct, updated byte by byte, replying inline. */
module TelnetClient {
  import opened Bytes
  import opened TelnetModel
  import opened TelnetTheorems
  import opened WriteBuffer

  /** What select and recv came back with. */
  datatype NetEvent = SelectFailed | Timeout | Closed | Received(raw: seq<byte>)

  const RAW_SIZE := 512

  function WireBytes(ev: NetEvent): seq<byte> {
    if ev.Received? then ev.raw else []
  }

  class TelnetClient {
    var state: DecoderState
    var pendingCmd: byte
    var sbOpt: byte
    var sbHaveOpt: bool
    const sbBuf: array<byte>
    var sbLen: int
    var nawsEnabled: bool
    var nawsCols: u16
    var nawsRows: u16

    /** The blocks handed to send so far, each delivered whole. */
    ghost var blocks: seq<seq<byte>>
    /** The protocol messages among them. */
    ghost var msgs: seq<Msg>

    ghost predicate Valid()
      reads this
    {
      sbBuf.Length == SB_MAX && 0 <= sbLen <= SB_MAX
    }

    ghost function View(): Tn
      reads this, sbBuf
      requires Valid()
    {
      Tn(state, pendingCmd, sbOpt, sbHaveOpt, sbBuf[..sbLen], nawsEnabled, nawsCols, nawsRows)
    }

    /** Everything on the wire. */
    ghost function Sent(): seq<byte>
      reads this
    {
      Flatten(blocks)
    }

    constructor ()
      ensures Valid() && View() == Connected() && blocks == [] && msgs == [] && fresh(sbBuf)
    {
      state, pendingCmd, sbOpt, sbHaveOpt := Data, 0, 0, false;
      sbBuf := new byte[SB_MAX](_ => 0);
      sbLen := 0;
      nawsEnabled, nawsCols, nawsRows := false, 0, 0;
      blocks, msgs := [], [];
    }

    method Send(block: seq<byte>)
      modifies this`blocks
      ensures blocks == old(blocks) + [block] && Sent() == old(Sent()) + block
    {
      FlattenSnoc(blocks, block);
      Transmit(block);
    }

    ghost method Transmit(block: seq<byte>)
      modifies this`blocks
      ensures blocks == old(blocks) + [block]
    {
      blocks := blocks + [block];
    }

    method SendCmd(cmd: byte, opt: byte)
      modifies this`blocks, this`msgs
      ensures Sent() == old(Sent()) + MsgsBytes([Command(cmd, opt)]) && msgs == old(msgs) + [Command(cmd, opt)]
    {
      Send([IAC, cmd, opt]);
      msgs := msgs + [Command(cmd, opt)];
      OneMessage(Command(cmd, opt));
    }

    method SendNawsReport()
      modifies this`blocks, this`msgs
      ensures Sent() == old(Sent()) + MsgsBytes([Naws(nawsCols, nawsRows)])
      ensures msgs == old(msgs) + [Naws(nawsCols, nawsRows)]
    {
      var report: seq<byte> :=
        [IAC, SB, OPT_NAWS, nawsCols / 256, nawsCols % 256, nawsRows / 256, nawsRows % 256, IAC, SE];
      ReportBytes(nawsCols, nawsRows, report);
      Send(report);
      msgs := msgs + [Naws(nawsCols, nawsRows)];
      OneMessage(Naws(nawsCols, nawsRows));
    }

    /** One message in three sends. */
    method SendTermType()
      modifies this`blocks, this`msgs
      ensures Sent() == old(Sent()) + MsgsBytes([TermType]) && msgs == old(msgs) + [TermType]
    {
      ghost var sent := Sent();
      var header, trailer := [IAC, SB, OPT_TERM_TYPE, 0], [IAC, SE];
      Send(header);
      Send(TERM_NAME);
      Send(trailer);
      msgs := msgs + [TermType];
      OneMessage(TermType);
      Assoc(sent, header, TERM_NAME);
      Assoc(sent, header + TERM_NAME, trailer);
    }

    method HandleSubneg()
      requires Valid()
      modifies this`blocks, this`msgs
      ensures Sent() == old(Sent()) + MsgsBytes(SubAnswer(sbOpt, sbBuf[..sbLen]))
      ensures msgs == old(msgs) + SubAnswer(sbOpt, sbBuf[..sbLen])
    {
      if sbOpt == OPT_TERM_TYPE && sbLen >= 1 && sbBuf[0] == 1 {
        SendTermType();
      }
    }

    method HandleWill(opt: byte)
      modifies this`blocks, this`msgs
      ensures Sent() == old(Sent()) + MsgsBytes(Answer(WILL, opt, nawsCols, nawsRows))
      ensures msgs == old(msgs) + Answer(WILL, opt, nawsCols, nawsRows)
    {
      SendCmd(if opt == OPT_ECHO || opt == OPT_SGA then DO else DONT, opt);
    }

    method HandleWont(opt: byte)
      modifies this`blocks, this`msgs
      ensures Sent() == old(Sent()) + MsgsBytes(Answer(WONT, opt, nawsCols, nawsRows))
      ensures msgs == old(msgs) + Answer(WONT, opt, nawsCols, nawsRows)
    {
      SendCmd(DONT, opt);
    }

    method HandleDo(opt: byte)
      modifies this`blocks, this`msgs, this`nawsEnabled
      ensures Sent() == old(Sent()) + MsgsBytes(Answer(DO, opt, nawsCols, nawsRows))
      ensures msgs == old(msgs) + Answer(DO, opt, nawsCols, nawsRows)
      ensures nawsEnabled == (old(nawsEnabled) || opt == OPT_NAWS)
    {
      if opt == OPT_SGA || opt == OPT_TERM_TYPE {
        SendCmd(WILL, opt);
      } else if opt == OPT_NAWS {
        AgreeToNaws();
      } else {
        SendCmd(WONT, opt);
      }
    }

    method AgreeToNaws()
      modifies this`blocks, this`msgs, this`nawsEnabled
      ensures Sent() == old(Sent()) + MsgsBytes(Answer(DO, OPT_NAWS, nawsCols, nawsRows))
      ensures msgs == old(msgs) + Answer(DO, OPT_NAWS, nawsCols, nawsRows)
      ensures nawsEnabled
    {
      ghost var sent, before := Sent(), msgs;
      SendCmd(WILL, OPT_NAWS);
      nawsEnabled := true;
      if nawsCols != 0 && nawsRows != 0 {
        SendNawsReport();
        TwoMessages(sent, before, Command(WILL, OPT_NAWS), Naws(nawsCols, nawsRows));
      }
    }

    method HandleDont(opt: byte)
      modifies this`blocks, this`msgs
      ensures Sent() == old(Sent()) + MsgsBytes(Answer(DONT, opt, nawsCols, nawsRows))
      ensures msgs == old(msgs) + Answer(DONT, opt, nawsCols, nawsRows)
    {
      SendCmd(WONT, opt);
    }

    method HandleCommand(opt: byte)
      modifies this`blocks, this`msgs, this`nawsEnabled
      ensures Sent() == old(Sent()) + MsgsBytes(Answer(pendingCmd, opt, nawsCols, nawsRows))
      ensures msgs == old(msgs) + Answer(pendingCmd, opt, nawsCols, nawsRows)
      ensures nawsEnabled == (old(nawsEnabled) || (pendingCmd == DO && opt == OPT_NAWS))
    {
      if pendingCmd == WILL { HandleWill(opt); }
      else if pendingCmd == WONT { HandleWont(opt); }
      else if pendingCmd == DO { HandleDo(opt); }
      else if pendingCmd == DONT { HandleDont(opt); }
    }

    method StoreSub(c: byte)
      requires Valid()
      modifies this`sbLen, sbBuf
      ensures Valid() && View() == Store(old(View()), c)
    {
      if sbLen < SB_MAX {
        sbBuf[sbLen] := c;
        sbLen := sbLen + 1;
        assert sbBuf[..sbLen] == old(sbBuf[..sbLen]) + [c];
      }
    }

    /** IAC was read: the byte after it. */
    method ProcessIac(c: byte) returns (isData: bool)
      requires Valid() && state == Iac
      modifies this`state, this`pendingCmd, this`sbLen, this`sbHaveOpt
      ensures Valid() && View() == Step(old(View()), c).tn
      ensures isData <==> c == IAC
    {
      isData := false;
      if c == IAC {
        state := Data;
        isData := true;
      } else if c == WILL || c == WONT || c == DO || c == DONT {
        pendingCmd := c;
        state := CmdOpt;
      } else if c == SB {
        sbLen := 0;
        sbHaveOpt := false;
        state := Sub;
      } else {
        state := Data;
      }
    }

    /** Inside a subnegotiation. */
    method ProcessSub(c: byte)
      requires Valid() && (state == Sub || state == SubIac)
      modifies this`state, this`sbOpt, this`sbHaveOpt, this`sbLen, sbBuf, this`blocks, this`msgs
      ensures Valid() && View() == Step(old(View()), c).tn
      ensures Sent() == old(Sent()) + MsgsBytes(Step(old(View()), c).msgs)
      ensures msgs == old(msgs) + Step(old(View()), c).msgs
    {
      if state == Sub {
        if !sbHaveOpt {
          sbOpt := c;
          sbHaveOpt := true;
        } else if c == IAC {
          state := SubIac;
        } else {
          StoreSub(c);
        }
      } else if c == SE {
        HandleSubneg();
        state := Data;
      } else if c == IAC {
        StoreSub(0xFF);
        state := Sub;
      } else {
        state := Data;
      }
    }

    /** The option of a negotiation. */
    method ProcessOpt(c: byte)
      requires Valid() && state == CmdOpt
      modifies this`state, this`nawsEnabled, this`blocks, this`msgs
      ensures Valid() && View() == Step(old(View()), c).tn
      ensures Sent() == old(Sent()) + MsgsBytes(Step(old(View()), c).msgs)
      ensures msgs == old(msgs) + Step(old(View()), c).msgs
    {
      state := Data;
      HandleCommand(c);
    }

    method ProcessByte(c: byte) returns (isData: bool, out: byte)
      requires Valid()
      modifies this, sbBuf
      ensures Valid() && View() == Step(old(View()), c).tn
      ensures Step(old(View()), c).data == if isData then [out] else []
      ensures Sent() == old(Sent()) + MsgsBytes(Step(old(View()), c).msgs)
      ensures msgs == old(msgs) + Step(old(View()), c).msgs
    {
      isData, out := false, 0;
      match state
      case Data =>
        if c == IAC {
          state := Iac;
        } else {
          isData, out := true, c;
        }
      case Iac =>
        isData := ProcessIac(c);
        out := 0xFF;
      case CmdOpt => ProcessOpt(c);
      case Sub => ProcessSub(c);
      case SubIac => ProcessSub(c);
    }

    /** One read: -1 on error or end, 0 on timeout, otherwise the session bytes in what arrived. */
    method Read(ev: NetEvent, buf: array<byte>, maxLen: nat) returns (n: int)
      requires Valid() && buf != sbBuf && maxLen <= buf.Length
      requires ev.Received? ==> 0 < |ev.raw| <= Min(maxLen, RAW_SIZE)
      modifies this, sbBuf, buf
      ensures Valid() && n <= maxLen
      ensures var o := Decode(old(View()), WireBytes(ev));
              && View() == o.tn
              && Sent() == old(Sent()) + MsgsBytes(o.msgs) && msgs == old(msgs) + o.msgs
              && n == (match ev case Received(_) => |o.data| case Timeout => 0 case _ => -1)
              && (n >= 0 ==> buf[..n] == o.data)
    {
      if ev.SelectFailed? || ev.Closed? { return -1; }
      if ev.Timeout? { return 0; }
      n := DecodeInto(ev.raw, buf, maxLen);
    }

    /** One byte of a read, appended to the caller's buffer if it is data. */
    method DecodeByteInto(c: byte, buf: array<byte>, n: int) returns (n': int)
      requires Valid() && buf != sbBuf && 0 <= n < buf.Length
      modifies this, sbBuf, buf
      ensures Valid() && n <= n' <= n + 1
      ensures View() == Step(old(View()), c).tn
      ensures buf[..n'] == old(buf[..n]) + Step(old(View()), c).data
      ensures Sent() == old(Sent()) + MsgsBytes(Step(old(View()), c).msgs)
      ensures msgs == old(msgs) + Step(old(View()), c).msgs
    {
      n' := n;
      var isData, decoded := ProcessByte(c);
      if isData {
        buf[n] := decoded;
        n' := n + 1;
      }
    }

    /** The next byte of a read; `o` is what the bytes before it gave. */
    method DecodeNextInto(raw: seq<byte>, i: int, buf: array<byte>, n: int,
                          ghost tn: Tn, ghost sent: seq<byte>, ghost sentMsgs: seq<Msg>, ghost o: Out)
      returns (n': int, ghost o': Out)
      requires Valid() && buf != sbBuf && 0 <= n <= i < |raw| && i < buf.Length
      requires o == Decode(tn, raw[..i]) && View() == o.tn && buf[..n] == o.data
      requires Sent() == sent + MsgsBytes(o.msgs) && msgs == sentMsgs + o.msgs
      modifies this, sbBuf, buf
      ensures Valid() && 0 <= n' <= i + 1
      ensures o' == Decode(tn, raw[..i + 1]) && View() == o'.tn && buf[..n'] == o'.data
      ensures Sent() == sent + MsgsBytes(o'.msgs) && msgs == sentMsgs + o'.msgs
    {
      ghost var s := Step(o.tn, raw[i]);
      n' := DecodeByteInto(raw[i], buf, n);
      ThenSends(sent, sentMsgs, o, s);
      DecodeNext(tn, raw, i);
      o' := Then(o, s);
    }

    method DecodeInto(raw: seq<byte>, buf: array<byte>, maxLen: nat) returns (n: int)
      requires Valid() && buf != sbBuf && |raw| <= maxLen <= buf.Length
      modifies this, sbBuf, buf
      ensures Valid() && 0 <= n <= |raw|
      ensures var o := Decode(old(View()), raw);
              && View() == o.tn && buf[..n] == o.data
              && Sent() == old(Sent()) + MsgsBytes(o.msgs) && msgs == old(msgs) + o.msgs
    {
      n := 0;
      var i := 0;
      ghost var tn, sent, sentMsgs := View(), Sent(), msgs;
      ghost var o := Out(tn, [], []);
      DecodeNone(tn, raw, sent, sentMsgs);
      while i < |raw|
        invariant Valid() && 0 <= n <= i <= |raw|
        invariant o == Decode(tn, raw[..i])
        invariant View() == o.tn && buf[..n] == o.data
        invariant Sent() == sent + MsgsBytes(o.msgs) && msgs == sentMsgs + o.msgs
      {
        n, o := DecodeNextInto(raw, i, buf, n, tn, sent, sentMsgs, o);
        i := i + 1;
      }
    }

    /** Takes one byte of data into the outbound buffer, doubled if it is 255. */
    method BufferByte(buf: array<byte>, out: int, c: byte, ghost pending: seq<byte>) returns (out': int)
      requires buf.Length == BUF_SIZE && 0 <= out < BUF_SIZE - 2 && buf[..out] == Stuff(pending)
      modifies buf
      ensures out < out' < BUF_SIZE && buf[..out'] == Stuff(pending + [c])
    {
      StuffSnoc(pending, c);
      buf[out] := c;
      out' := out + 1;
      if c == 0xFF {
        buf[out'] := 0xFF;
        out' := out' + 1;
      }
      assert buf[..out'] == Stuff(pending) + Stuffed(c);
    }

    /** Makes room if needed, then takes in one byte. False if the socket refuses the block. */
    method WriteByte(buf: array<byte>, out: int, c: byte, canSend: bool, ghost b: Buffered)
      returns (ok: bool, out': int, sent: bool)
      requires buf.Length == BUF_SIZE && 0 <= out < BUF_SIZE && buf[..out] == Stuff(b.pending)
      modifies buf, this`blocks
      ensures ok == (canSend || !IsFull(b)) && sent == (canSend && IsFull(b))
      ensures blocks == old(blocks) + if sent then [Stuff(b.pending)] else []
      ensures ok ==> 0 <= out' < BUF_SIZE && buf[..out'] == Stuff(TakeIn(b, c).pending)
    {
      ok, out', sent := true, out, false;
      ghost var pending := b.pending;
      if out >= BUF_SIZE - 2 {
        if !canSend { return false, out, false; }
        Send(buf[..out]);
        sent, out', pending := true, 0, [];
        assert [] + [c] == [c];
      }
      out' := BufferByte(buf, out', c, pending);
    }

    /** Everything but the last partial block. */
    method WriteFullBlocks(data: seq<byte>, accepted: nat, buf: array<byte>) returns (ok: bool, out: int, sends: nat)
      requires buf.Length == BUF_SIZE
      modifies this`blocks, buf
      ensures !ok ==> |Pieces(data)| > accepted && blocks == old(blocks) + StuffEach(Take(accepted, Pieces(data)))
      ensures ok ==> blocks == old(blocks) + StuffEach(Buffering(data).done) && sends == |Buffering(data).done| <= accepted
      ensures ok ==> 0 <= out < BUF_SIZE && buf[..out] == Stuff(Buffering(data).pending)
    {
      ok, out, sends := true, 0, 0;
      var i := 0;
      ghost var b := Buffering(data[..0]);
      while i < |data|
        invariant 0 <= i <= |data| && b == Buffering(data[..i]) && ok
        invariant 0 <= out < BUF_SIZE && buf[..out] == Stuff(b.pending)
        invariant |b.done| == sends <= accepted && blocks == old(blocks) + StuffEach(b.done)
      {
        var sent;
        ok, out, sent := WriteByte(buf, out, data[i], sends < accepted, b);
        if !ok {
          FlushRefused(data, i, accepted);
          return;
        }
        BufferingNext(data, i);
        StuffTakenIn(old(blocks), b, data[i]);
        b := TakeIn(b, data[i]);
        if sent { sends := sends + 1; }
        i := i + 1;
      }
      assert data[..i] == data;
    }

    /** Sends data through the 256-byte buffer. `accepted` is the number of blocks the socket takes before it fails. */
    method Write(data: seq<byte>, accepted: nat) returns (ok: bool)
      requires Valid()
      modifies this`blocks
      ensures ok <==> |Pieces(data)| <= accepted
      ensures blocks == old(blocks) + StuffEach(Take(accepted, Pieces(data)))
    {
      var buf := new byte[BUF_SIZE](_ => 0);
      var out, sends;
      ok, out, sends := WriteFullBlocks(data, accepted, buf);
      if !ok { return; }
      FinalBlocks(data, accepted);
      if out > 0 {
        if sends >= accepted { return false; }
        Send(buf[..out]);
      }
    }

    method SetSize(cols: u16, rows: u16)
      requires Valid()
      modifies this`nawsCols, this`nawsRows, this`blocks, this`msgs
      ensures Valid() && View() == Resize(old(View()), cols, rows)
      ensures Sent() == old(Sent()) + MsgsBytes(ResizeMsgs(old(View()), cols, rows))
      ensures msgs == old(msgs) + ResizeMsgs(old(View()), cols, rows)
    {
      nawsCols := cols;
      nawsRows := rows;
      if nawsEnabled {
        SendNawsReport();
      }
    }
  }

  lemma ReportBytes(cols: u16, rows: u16, report: seq<byte>)
    requires report == [IAC, SB, OPT_NAWS, cols / 256, cols % 256, rows / 256, rows % 256, IAC, SE]
    ensures report == MsgBytes(Naws(cols, rows))
  {
    assert [IAC, SB, OPT_NAWS] + NawsPayload(cols, rows) + [IAC, SE] == report;
  }

  lemma DecodeNone(tn: Tn, raw: seq<byte>, sent: seq<byte>, msgs: seq<Msg>)
    ensures Decode(tn, raw[..0]) == Out(tn, [], []) && raw[..|raw|] == raw
    ensures sent + MsgsBytes([]) == sent && msgs + [] == msgs
  {
  }

  lemma TwoMessages(sent: seq<byte>, msgs: seq<Msg>, m: Msg, n: Msg)
    ensures sent + MsgsBytes([m]) + MsgsBytes([n]) == sent + MsgsBytes([m] + [n])
    ensures msgs + [m] + [n] == msgs + ([m] + [n])
  {
    MsgsBytesAppend([m], [n]);
    Assoc(sent, MsgsBytes([m]), MsgsBytes([n]));
  }

  lemma DecodeNext(tn: Tn, raw: seq<byte>, i: nat)
    requires i < |raw|
    ensures Decode(tn, raw[..i + 1]) == Then(Decode(tn, raw[..i]), Step(Decode(tn, raw[..i]).tn, raw[i]))
  {
    assert raw[..i + 1][..i] == raw[..i];
  }

  lemma ThenSends(sent: seq<byte>, sentMsgs: seq<Msg>, o: Out, s: Out)
    ensures sent + MsgsBytes(o.msgs) + MsgsBytes(s.msgs) == sent + MsgsBytes(Then(o, s).msgs)
    ensures sentMsgs + o.msgs + s.msgs == sentMsgs + Then(o, s).msgs
  {
    MsgsBytesAppend(o.msgs, s.msgs);
    Assoc(sent, MsgsBytes(o.msgs), MsgsBytes(s.msgs));
  }
}
