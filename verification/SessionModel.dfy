/** The pipe from the network to the screen: telnet decoding feeding the emulator, one read at a time. */
module SessionModel {
  import opened Bytes
  import opened TermModel
  import opened TelnetModel
  import opened TelnetTheorems
  import opened PeerSync
  import opened PlainText

  /** Codec, emulator, and what has been said to the server. */
  datatype Pipe = Pipe(tn: Tn, t: Live, msgs: seq<Msg>, sent: seq<byte>)

  /** The effect of one read's worth of wire bytes. */
  function Pump(p: Pipe, raw: seq<byte>): Pipe {
    var o := Decode(p.tn, raw);
    Pipe(o.tn, Feed(p.t, o.data), p.msgs + o.msgs, p.sent + MsgsBytes(o.msgs))
  }

  function PumpAll(p: Pipe, chunks: seq<seq<byte>>): Pipe
    decreases |chunks|
  {
    if chunks == [] then p else Pump(PumpAll(p, chunks[..|chunks| - 1]), chunks[|chunks| - 1])
  }

  lemma PumpNothing(p: Pipe)
    ensures Pump(p, []) == p
  {
    assert p.msgs + [] == p.msgs && p.sent + [] == p.sent;
  }

  lemma PumpTwice(p: Pipe, a: seq<byte>, b: seq<byte>)
    ensures Pump(Pump(p, a), b) == Pump(p, a + b)
  {
    var o, q := Decode(p.tn, a), Decode(Decode(p.tn, a).tn, b);
    DecodeAppend(p.tn, a, b);
    FeedAppend(p.t, o.data, q.data);
    Assoc(p.msgs, o.msgs, q.msgs);
    MsgsBytesAppend(o.msgs, q.msgs);
    Assoc(p.sent, MsgsBytes(o.msgs), MsgsBytes(q.msgs));
  }

  /** All that counts is the byte stream: not how recv cuts it up, nor how the reads are spread over the blocking
      read and the drains after it. */
  lemma {:induction false} ReadsDoNotMatter(p: Pipe, chunks: seq<seq<byte>>)
    ensures PumpAll(p, chunks) == Pump(p, Flatten(chunks))
    decreases |chunks|
  {
    if chunks == [] {
      PumpNothing(p);
    } else {
      var front := chunks[..|chunks| - 1];
      ReadsDoNotMatter(p, front);
      PumpTwice(p, Flatten(front), chunks[|chunks| - 1]);
    }
  }

  lemma {:induction false} SegmentationIndependence(p: Pipe, chunks: seq<seq<byte>>, others: seq<seq<byte>>)
    requires Flatten(chunks) == Flatten(others)
    ensures PumpAll(p, chunks) == PumpAll(p, others)
  {
    ReadsDoNotMatter(p, chunks);
    ReadsDoNotMatter(p, others);
  }

  /** End to end on a well-formed stream: the emulator gets exactly the text items and the server exactly the replies,
      whatever negotiation is mixed in and however the stream is cut. */
  lemma {:induction false} TextReachesScreen(p: Pipe, chunks: seq<seq<byte>>, items: seq<Item>)
    requires p.tn.state == Data && AreItems(items) && Flatten(chunks) == Wire(items)
    ensures PumpAll(p, chunks).t == Feed(p.t, TextOf(items))
    ensures PumpAll(p, chunks).msgs == p.msgs + Replies(items, p.tn.cols, p.tn.rows)
    ensures PumpAll(p, chunks).sent == p.sent + MsgsBytes(Replies(items, p.tn.cols, p.tn.rows))
  {
    ReadsDoNotMatter(p, chunks);
    DecoderRefinesGrammar(p.tn, items);
  }

  /** The whole path: a server that sends lines of text, mixed with any negotiation and cut up in any way, sees them
      come out as exactly their wrapped rows. */
  lemma {:induction false} PlainSessionOnScreen(p: Pipe, chunks: seq<seq<byte>>, items: seq<Item>, lines: seq<seq<byte>>)
    requires p.t == Fresh() && p.tn.state == Data && AreItems(items) && Flatten(chunks) == Wire(items)
    requires lines != [] && (forall i :: 0 <= i < |lines| ==> Printable(lines[i])) && TextOf(items) == JoinLines(lines)
    ensures Exactly(PumpAll(p, chunks).t, WrappedAll(lines))
  {
    TextReachesScreen(p, chunks, items);
    PlainTextExactly(lines);
  }

  // ---- The other direction ----

  /** Every size reported among some messages is this one. */
  predicate ReportOnly(ms: seq<Msg>, cols: u16, rows: u16) {
    forall i :: 0 <= i < |ms| && ms[i].Naws? ==> ms[i] == Naws(cols, rows)
  }

  lemma {:induction false} RepliesReportOwnSize(tn: Tn, bs: seq<byte>)
    ensures ReportOnly(Decode(tn, bs).msgs, tn.cols, tn.rows)
    ensures (Decode(tn, bs).tn.cols, Decode(tn, bs).tn.rows) == (tn.cols, tn.rows)
    decreases |bs|
  {
    if bs != [] {
      RepliesReportOwnSize(tn, bs[..|bs| - 1]);
      var o := Decode(tn, bs[..|bs| - 1]);
      StepReportsOwnSize(o.tn, bs[|bs| - 1]);
      ReportOnlyAppend(o.msgs, Step(o.tn, bs[|bs| - 1]).msgs, tn.cols, tn.rows);
    }
  }

  lemma StepReportsOwnSize(tn: Tn, c: byte)
    ensures ReportOnly(Step(tn, c).msgs, tn.cols, tn.rows)
    ensures (Step(tn, c).tn.cols, Step(tn, c).tn.rows) == (tn.cols, tn.rows)
  {
  }

  lemma ReportOnlyAppend(a: seq<Msg>, b: seq<Msg>, cols: u16, rows: u16)
    ensures ReportOnly(a, cols, rows) && ReportOnly(b, cols, rows) ==> ReportOnly(a + b, cols, rows)
  {
  }

  /** The program tells the server 80 by 42. Then nothing it replies, to any bytes however cut up, is taken for session
      data by a server that runs this decoder, and the server is always left between items. */
  lemma {:induction false} ServerStaysInStep(p: Pipe, chunks: seq<seq<byte>>, server: Tn)
    requires (p.tn.cols, p.tn.rows) == (80, 42) && p.sent == [] && server.state == Data
    ensures var o := Decode(server, PumpAll(p, chunks).sent);
            (o.data, o.tn.state) == ([], Data)
  {
    var raw := Flatten(chunks);
    var ms := Decode(p.tn, raw).msgs;
    ReadsDoNotMatter(p, chunks);
    assert Pump(p, raw).sent == MsgsBytes(ms);
    RepliesReportOwnSize(p.tn, raw);
    RepliesNegotiate(p.tn, raw);
    assert ClosingSize(80, 42);
    assert AllHarmless(ms);
    DecodeMessages(server, ms);
    MessagesOutcome(server, ms);
  }
}
