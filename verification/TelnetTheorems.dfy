/** The decoder against the telnet grammar, and what the client puts on the wire. */
module TelnetTheorems {
  import opened Bytes
  import opened TelnetModel

  // ---- Decoding in pieces ----

  lemma ThenAssociates(a: Out, b: Out, c: Out)
    ensures Then(Then(a, b), c) == Then(a, Then(b, c))
  {
    assert (a.data + b.data) + c.data == a.data + (b.data + c.data);
    assert (a.msgs + b.msgs) + c.msgs == a.msgs + (b.msgs + c.msgs);
  }

  /** However the wire bytes are cut, state, data and replies are the same. */
  lemma {:induction false} DecodeAppend(tn: Tn, a: seq<byte>, b: seq<byte>)
    ensures Decode(tn, a + b) == Then(Decode(tn, a), Decode(Decode(tn, a).tn, b))
    decreases |b|
  {
    var o := Decode(tn, a);
    if b == [] {
      assert a + b == a;
      assert Then(o, Out(o.tn, [], [])) == o;
    } else {
      var front, c := b[..|b| - 1], b[|b| - 1];
      assert (a + b)[..|a + b| - 1] == a + front;
      DecodeAppend(tn, a, front);
      ThenAssociates(o, Decode(o.tn, front), Step(Decode(o.tn, front).tn, c));
    }
  }

  lemma Chain(tn: Tn, a: seq<byte>, o: Out, b: seq<byte>, p: Out)
    requires Decode(tn, a) == o && Decode(o.tn, b) == p
    ensures Decode(tn, a + b) == Then(o, p)
  {
    DecodeAppend(tn, a, b);
  }

  lemma QuietFirst(u: Tn, rest: Out)
    ensures Then(Out(u, [], []), rest) == rest
  {
    assert [] + rest.data == rest.data && [] + rest.msgs == rest.msgs;
  }

  lemma DecodeOne(tn: Tn, c: byte)
    ensures Decode(tn, [c]) == Step(tn, c)
  {
    assert [c][..0] == [];
    assert Decode(tn, []) == Out(tn, [], []);
  }

  lemma DecodeTwo(tn: Tn, c: byte, d: byte)
    ensures Decode(tn, [c, d]) == Then(Step(tn, c), Step(Step(tn, c).tn, d))
  {
    assert [c, d] == [c] + [d];
    DecodeAppend(tn, [c], [d]);
    DecodeOne(tn, c);
    DecodeOne(Step(tn, c).tn, d);
  }

  // ---- The grammar ----

  /** A well-formed stream is a list of these. */
  datatype Item =
    | Text(b: byte)
    | Simple(cmd: byte)
    | Negotiate(cmd: byte, opt: byte)
    | Subnegotiate(opt: byte, payload: seq<byte>)

  predicate IsItem(it: Item) {
    match it
    case Text(_) => true
    case Simple(cmd) => cmd != IAC && cmd != SB && !IsNegotiation(cmd)
    case Negotiate(cmd, _) => IsNegotiation(cmd)
    case Subnegotiate(_, _) => true
  }

  predicate AreItems(items: seq<Item>) {
    forall i :: 0 <= i < |items| ==> IsItem(items[i])
  }

  function WireOf(it: Item): seq<byte> {
    match it
    case Text(b) => if b == 0xFF then [IAC, IAC] else [b]
    case Simple(cmd) => [IAC, cmd]
    case Negotiate(cmd, opt) => [IAC, cmd, opt]
    case Subnegotiate(opt, payload) => [IAC, SB, opt] + Stuff(payload) + [IAC, SE]
  }

  function Wire(items: seq<Item>): seq<byte> {
    if items == [] then [] else Wire(items[..|items| - 1]) + WireOf(items[|items| - 1])
  }

  function TextOf(items: seq<Item>): seq<byte> {
    if items == [] then []
    else TextOf(items[..|items| - 1]) + match items[|items| - 1] case Text(b) => [b] case _ => []
  }

  /** The options that the client agrees to: the server's echo (1) and suppressed go-ahead (3), and its own suppressed
      go-ahead, terminal type (24) and window size (31). */
  predicate AgreesTo(cmd: byte, opt: byte) {
    (cmd == 251 && (opt == 1 || opt == 3)) || (cmd == 253 && (opt == 3 || opt == 24 || opt == 31))
  }

  /** The reply due to a negotiation, by the numbers of RFC 854: WILL 251, WONT 252, DO 253, DONT 254. WILL and WONT
      are answered by DO or DONT, DO and DONT by WILL or WONT; agreeing to window sizes includes reporting a known one. */
  function Due(cmd: byte, opt: byte, cols: u16, rows: u16): seq<Msg> {
    var base := if cmd == 251 || cmd == 252 then 253 else 251;
    [Command(if AgreesTo(cmd, opt) then base else base + 1, opt)]
    + if cmd == 253 && opt == 31 && cols > 0 && rows > 0 then [Naws(cols, rows)] else []
  }

  lemma AnswerIsDue(cmd: byte, opt: byte, cols: u16, rows: u16)
    requires IsNegotiation(cmd)
    ensures Answer(cmd, opt, cols, rows) == Due(cmd, opt, cols, rows)
  {
  }

  function RepliesTo(it: Item, cols: u16, rows: u16): seq<Msg> {
    match it
    case Negotiate(cmd, opt) => Due(cmd, opt, cols, rows)
    case Subnegotiate(opt, payload) => if opt == 24 && payload != [] && payload[0] == 1 then [TermType] else []
    case _ => []
  }

  function Replies(items: seq<Item>, cols: u16, rows: u16): seq<Msg> {
    if items == [] then [] else Replies(items[..|items| - 1], cols, rows) + RepliesTo(items[|items| - 1], cols, rows)
  }

  /** Was the window size asked for? */
  predicate AsksNaws(items: seq<Item>) {
    Negotiate(DO, OPT_NAWS) in items
  }

  // ---- One item ----

  function Stuffed(c: byte): seq<byte> {
    if c == 0xFF then [0xFF, 0xFF] else [c]
  }

  lemma StuffSnoc(front: seq<byte>, c: byte)
    ensures Stuff(front + [c]) == Stuff(front) + Stuffed(c)
  {
    assert (front + [c])[..|front|] == front;
  }

  lemma StoreNext(tn: Tn, front: seq<byte>, c: byte)
    ensures Store(tn.(sbBuf := Take(SB_MAX, front)), c) == tn.(sbBuf := Take(SB_MAX, front + [c]))
  {
    if |front| >= SB_MAX {
      assert (front + [c])[..SB_MAX] == front[..SB_MAX];
    }
  }

  lemma {:induction false} PayloadStep(tn: Tn, front: seq<byte>, c: byte, payload: seq<byte>)
    requires tn.state == Sub && tn.sbHaveOpt && payload == front + [c]
    requires Decode(tn, Stuff(front)) == Out(tn.(sbBuf := Take(SB_MAX, front)), [], [])
    ensures Decode(tn, Stuff(payload)) == Out(tn.(sbBuf := Take(SB_MAX, payload)), [], [])
  {
    var u := tn.(sbBuf := Take(SB_MAX, front));
    StoreByte(u, c);
    StoreNext(tn, front, c);
    StuffSnoc(front, c);
    Chain(tn, Stuff(front), Out(u, [], []), Stuffed(c), Out(Store(u, c), [], []));
  }

  lemma {:induction false} DecodePayload(tn: Tn, payload: seq<byte>)
    requires tn.state == Sub && tn.sbHaveOpt && tn.sbBuf == []
    ensures Decode(tn, Stuff(payload)) == Out(tn.(sbBuf := Take(SB_MAX, payload)), [], [])
    decreases |payload|
  {
    if payload == [] {
      assert tn.(sbBuf := []) == tn;
    } else {
      var front, c := payload[..|payload| - 1], payload[|payload| - 1];
      DecodePayload(tn, front);
      LastApart(payload);
      PayloadStep(tn, front, c, payload);
    }
  }

  lemma StoreByte(u: Tn, c: byte)
    requires u.state == Sub && u.sbHaveOpt
    ensures Decode(u, Stuffed(c)) == Out(Store(u, c), [], [])
  {
    if c == 0xFF {
      DecodeTwo(u, c, c);
    } else {
      DecodeOne(u, c);
    }
  }

  lemma OpenSubnegotiation(tn: Tn, opt: byte)
    requires tn.state == Data
    ensures Decode(tn, [IAC, SB, opt]) == Out(tn.(state := Sub, sbOpt := opt, sbHaveOpt := true, sbBuf := []), [], [])
  {
    var u := tn.(state := Sub, sbHaveOpt := false, sbBuf := []);
    DecodeTwo(tn, IAC, SB);
    DecodeOne(u, opt);
    Chain(tn, [IAC, SB], Out(u, [], []), [opt], Out(u.(sbOpt := opt, sbHaveOpt := true), [], []));
    assert [IAC, SB] + [opt] == [IAC, SB, opt];
  }

  lemma CloseSubnegotiation(tn: Tn)
    requires tn.state == Sub && tn.sbHaveOpt
    ensures Decode(tn, [IAC, SE]) == Out(tn.(state := Data), [], SubAnswer(tn.sbOpt, tn.sbBuf))
  {
    DecodeTwo(tn, IAC, SE);
  }

  lemma DecodeOpenPayload(tn: Tn, opt: byte, payload: seq<byte>)
    requires tn.state == Data
    ensures Decode(tn, [IAC, SB, opt] + Stuff(payload))
         == Out(tn.(state := Sub, sbOpt := opt, sbHaveOpt := true, sbBuf := Take(SB_MAX, payload)), [], [])
  {
    var u := tn.(state := Sub, sbOpt := opt, sbHaveOpt := true, sbBuf := []);
    OpenSubnegotiation(tn, opt);
    DecodePayload(u, payload);
    Chain(tn, [IAC, SB, opt], Out(u, [], []), Stuff(payload), Out(u.(sbBuf := Take(SB_MAX, payload)), [], []));
  }

  lemma SubAnswerOfStored(opt: byte, payload: seq<byte>)
    ensures SubAnswer(opt, Take(SB_MAX, payload)) == SubAnswer(opt, payload)
  {
  }

  lemma CloseStored(v: Tn, payload: seq<byte>)
    requires v.state == Sub && v.sbHaveOpt && v.sbBuf == Take(SB_MAX, payload)
    ensures Decode(v, [IAC, SE]) == Out(v.(state := Data), [], SubAnswer(v.sbOpt, payload))
  {
    CloseSubnegotiation(v);
    SubAnswerOfStored(v.sbOpt, payload);
  }

  lemma DecodeSubBytes(tn: Tn, opt: byte, payload: seq<byte>)
    requires tn.state == Data
    ensures Decode(tn, [IAC, SB, opt] + Stuff(payload) + [IAC, SE])
         == Out(tn.(sbOpt := opt, sbHaveOpt := true, sbBuf := Take(SB_MAX, payload)), [], SubAnswer(opt, payload))
  {
    var v := tn.(state := Sub, sbOpt := opt, sbHaveOpt := true, sbBuf := Take(SB_MAX, payload));
    DecodeOpenPayload(tn, opt, payload);
    CloseStored(v, payload);
    DecodeAppend(tn, [IAC, SB, opt] + Stuff(payload), [IAC, SE]);
    QuietFirst(v, Out(v.(state := Data), [], SubAnswer(opt, payload)));
  }

  lemma {:induction false} DecodeSubnegotiation(tn: Tn, opt: byte, payload: seq<byte>)
    requires tn.state == Data
    ensures Decode(tn, WireOf(Subnegotiate(opt, payload)))
         == Out(tn.(sbOpt := opt, sbHaveOpt := true, sbBuf := Take(16, payload)), [], SubAnswer(opt, payload))
  {
    DecodeSubBytes(tn, opt, payload);
  }

  lemma DecodeNegotiation(tn: Tn, cmd: byte, opt: byte)
    requires tn.state == Data && IsNegotiation(cmd)
    ensures var o := Decode(tn, [IAC, cmd, opt]);
            && o.tn == tn.(pendingCmd := cmd, nawsEnabled := tn.nawsEnabled || (cmd == DO && opt == OPT_NAWS))
            && o.data == [] && o.msgs == Answer(cmd, opt, tn.cols, tn.rows)
  {
    DecodeTwo(tn, IAC, cmd);
    assert [IAC, cmd] + [opt] == [IAC, cmd, opt];
    DecodeAppend(tn, [IAC, cmd], [opt]);
    DecodeOne(tn.(pendingCmd := cmd, state := CmdOpt), opt);
  }

  lemma DecodeText(tn: Tn, b: byte)
    requires tn.state == Data
    ensures Decode(tn, WireOf(Text(b))) == Out(tn, [b], [])
  {
    if b == 0xFF { DecodeTwo(tn, IAC, IAC); } else { DecodeOne(tn, b); }
  }

  lemma DecodeSimple(tn: Tn, cmd: byte)
    requires tn.state == Data && IsItem(Simple(cmd))
    ensures Decode(tn, WireOf(Simple(cmd))) == Out(tn, [], [])
  {
    DecodeTwo(tn, IAC, cmd);
  }

  lemma {:induction false} DecodeItem(tn: Tn, it: Item)
    requires tn.state == Data && IsItem(it)
    ensures var o := Decode(tn, WireOf(it));
            && (o.tn.state, o.tn.cols, o.tn.rows, o.tn.nawsEnabled)
               == (Data, tn.cols, tn.rows, tn.nawsEnabled || it == Negotiate(DO, OPT_NAWS))
            && o.data == (match it case Text(b) => [b] case _ => [])
            && o.msgs == RepliesTo(it, tn.cols, tn.rows)
  {
    match it
    case Text(b) => DecodeText(tn, b);
    case Simple(cmd) => DecodeSimple(tn, cmd);
    case Negotiate(cmd, opt) =>
      DecodeNegotiation(tn, cmd, opt);
      AnswerIsDue(cmd, opt, tn.cols, tn.rows);
    case Subnegotiate(opt, payload) => DecodeSubnegotiation(tn, opt, payload);
  }

  // ---- Replies, byte for byte ----

  /** The bytes of every message: command and option; window size, high byte first; "xterm". */
  lemma MessageBytes(m: Msg)
    ensures m.Command? ==> MsgBytes(m) == [255, m.cmd, m.opt]
    ensures m.Naws? ==>
              && |MsgBytes(m)| == 9 && MsgBytes(m)[..3] == [255, 250, 31] && MsgBytes(m)[7..] == [255, 240]
              && Word(MsgBytes(m)[3], MsgBytes(m)[4]) == m.cols && Word(MsgBytes(m)[5], MsgBytes(m)[6]) == m.rows
    ensures m.TermType? ==> MsgBytes(m) == [255, 250, 24, 0, 'x' as int, 't' as int, 'e' as int, 'r' as int, 'm' as int, 255, 240]
  {
  }

  lemma OneMessageSent(m: Msg, n: Msg)
    ensures MsgsBytes([m]) == MsgBytes(m) && MsgsBytes([m, n]) == MsgBytes(m) + MsgBytes(n)
  {
    OneMessage(m);
    assert [m, n][..1] == [m];
  }

  /** The whole table of negotiations, from the bytes received to the bytes sent. Only window sizes get a second
      message, and only when both dimensions are known. */
  lemma {:induction false} NegotiationReply(tn: Tn, cmd: byte, opt: byte)
    requires tn.state == Data && 251 <= cmd <= 254
    ensures MsgsBytes(Decode(tn, [255, cmd, opt]).msgs)
         == if cmd == 251 then [255, if opt == 1 || opt == 3 then 253 else 254, opt]
            else if cmd == 252 then [255, 254, opt]
            else if cmd == 254 then [255, 252, opt]
            else if opt != 31 then [255, if opt == 3 || opt == 24 then 251 else 252, opt]
            else [255, 251, 31] + if tn.cols > 0 && tn.rows > 0 then MsgBytes(Naws(tn.cols, tn.rows)) else []
  {
    DecodeNegotiation(tn, cmd, opt);
    AnswerIsDue(cmd, opt, tn.cols, tn.rows);
    var ms := Due(cmd, opt, tn.cols, tn.rows);
    OneMessageSent(ms[0], Naws(tn.cols, tn.rows));
    assert ms == [ms[0]] || ms == [ms[0], Naws(tn.cols, tn.rows)];
    assert MsgBytes(ms[0]) + [] == MsgBytes(ms[0]);
  }

  /** A subnegotiation is answered if and only if it asks for the terminal type (24, SEND 1), and then by
      "xterm". */
  lemma {:induction false} TerminalTypeReply(tn: Tn, opt: byte, payload: seq<byte>)
    requires tn.state == Data
    ensures MsgsBytes(Decode(tn, [255, 250, opt] + Stuff(payload) + [255, 240]).msgs)
         == if opt == 24 && payload != [] && payload[0] == 1
            then [255, 250, 24, 0, 'x' as int, 't' as int, 'e' as int, 'r' as int, 'm' as int, 255, 240] else []
  {
    DecodeSubBytes(tn, opt, payload);
    OneMessage(TermType);
    MessageBytes(TermType);
  }

  /** o is what decoding `items` must give from state tn: the data, the replies, and the data state again. */
  predicate Refines(tn: Tn, items: seq<Item>, o: Out) {
    && (o.data, o.msgs) == (TextOf(items), Replies(items, tn.cols, tn.rows))
    && (o.tn.state, o.tn.cols, o.tn.rows, o.tn.nawsEnabled) == (Data, tn.cols, tn.rows, tn.nawsEnabled || AsksNaws(items))
  }

  lemma RefinesSnoc(tn: Tn, items: seq<Item>, it: Item, o: Out)
    requires Refines(tn, items, o) && IsItem(it)
    ensures Refines(tn, items + [it], Then(o, Decode(o.tn, WireOf(it))))
  {
    DecodeItem(o.tn, it);
    assert (items + [it])[..|items|] == items;
  }

  /** On every well-formed stream: exactly the data, exactly the replies, in order, and back in the data state. */
  lemma {:induction false} DecoderRefinesGrammar(tn: Tn, items: seq<Item>)
    requires tn.state == Data && AreItems(items)
    ensures Refines(tn, items, Decode(tn, Wire(items)))
    decreases |items|
  {
    if items != [] {
      var front, last := items[..|items| - 1], items[|items| - 1];
      var o := Decode(tn, Wire(front));
      DecoderRefinesGrammar(tn, front);
      assert Decode(tn, Wire(items)) == Then(o, Decode(o.tn, WireOf(last))) by {
        DecodeAppend(tn, Wire(front), WireOf(last));
      }
      LastApart(items);
      RefinesSnoc(tn, front, last, o);
    }
  }

  // ---- Stuffing ----

  function Texts(data: seq<byte>): (items: seq<Item>)
    ensures AreItems(items) && |items| == |data|
    ensures forall i :: 0 <= i < |data| ==> items[i] == Text(data[i])
  {
    seq(|data|, i requires 0 <= i < |data| => Text(data[i]))
  }

  lemma OneMoreText(front: seq<Item>, c: byte, items: seq<Item>)
    requires items == front + [Text(c)]
    ensures Wire(items) == Wire(front) + Stuffed(c) && TextOf(items) == TextOf(front) + [c]
  {
    assert items[..|items| - 1] == front;
  }

  lemma TextsApart(data: seq<byte>)
    requires data != []
    ensures Texts(data) == Texts(data[..|data| - 1]) + [Text(data[|data| - 1])]
  {
  }

  lemma {:induction false} TextsWire(data: seq<byte>)
    ensures Wire(Texts(data)) == Stuff(data) && TextOf(Texts(data)) == data
    decreases |data|
  {
    if data != [] {
      var front, c := data[..|data| - 1], data[|data| - 1];
      TextsWire(front);
      TextsApart(data);
      OneMoreText(Texts(front), c, Texts(data));
    }
  }

  /** What one stuffed byte does. */
  function StuffedStep(tn: Tn, c: byte): Out {
    if c == 0xFF then Then(Step(tn, c), Step(Step(tn, c).tn, c)) else Step(tn, c)
  }

  lemma StuffedByte(tn: Tn, c: byte)
    ensures Decode(tn, Stuffed(c)) == StuffedStep(tn, c)
  {
    if c == 0xFF { DecodeTwo(tn, c, c); } else { DecodeOne(tn, c); }
  }

  /** What is read out of stuffed data, byte by byte. */
  function Heard(tn: Tn, data: seq<byte>): Out
    decreases |data|
  {
    if data == [] then Out(tn, [], [])
    else
      var o := Heard(tn, data[..|data| - 1]);
      Then(o, StuffedStep(o.tn, data[|data| - 1]))
  }

  lemma {:induction false} DecodeStuffed(tn: Tn, data: seq<byte>)
    ensures Decode(tn, Stuff(data)) == Heard(tn, data)
    decreases |data|
  {
    if data != [] {
      var front, c := data[..|data| - 1], data[|data| - 1];
      DecodeStuffed(tn, front);
      DecodeAppend(tn, Stuff(front), Stuffed(c));
      StuffedByte(Heard(tn, front).tn, c);
    }
  }

  lemma {:induction false} HeardIsData(tn: Tn, data: seq<byte>)
    requires tn.state == Data
    ensures Heard(tn, data) == Out(tn, data, [])
    decreases |data|
  {
    if data != [] {
      var front, c := data[..|data| - 1], data[|data| - 1];
      HeardIsData(tn, front);
      LastApart(data);
      OneMoreByte(tn, front, c, data);
    }
  }

  lemma OneMoreByte(tn: Tn, front: seq<byte>, c: byte, data: seq<byte>)
    requires tn.state == Data && data == front + [c]
    ensures Then(Out(tn, front, []), StuffedStep(tn, c)) == Out(tn, data, [])
  {
    assert StuffedStep(tn, c) == Out(tn, [c], []);
  }

  /** Decoding stuffed data gives the data back, with no reply and no change of state. */
  lemma {:induction false} StuffRoundTrip(tn: Tn, data: seq<byte>)
    requires tn.state == Data
    ensures Decode(tn, Stuff(data)) == Out(tn, data, [])
  {
    DecodeStuffed(tn, data);
    HeardIsData(tn, data);
  }

  lemma {:induction false} StuffAppend(a: seq<byte>, b: seq<byte>)
    ensures Stuff(a + b) == Stuff(a) + Stuff(b)
    decreases |b|
  {
    if b == [] {
      assert a + b == a;
    } else {
      assert (a + b)[..|a + b| - 1] == a + b[..|b| - 1];
      StuffAppend(a, b[..|b| - 1]);
    }
  }

  // ---- Everything the client sends is well formed ----

  function AsItem(m: Msg): Item {
    match m
    case Command(cmd, opt) => Negotiate(cmd, opt)
    case Naws(cols, rows) => Subnegotiate(OPT_NAWS, NawsPayload(cols, rows))
    case TermType => Subnegotiate(OPT_TERM_TYPE, [0] + TERM_NAME)
  }

  /** No byte of a reported size is 255. */
  predicate PlainSize(cols: u16, rows: u16) {
    255 !in NawsPayload(cols, rows)
  }

  predicate PlainMsg(m: Msg) {
    match m
    case Command(cmd, _) => IsNegotiation(cmd)
    case Naws(cols, rows) => PlainSize(cols, rows)
    case TermType => true
  }

  lemma {:induction false} StuffPlain(data: seq<byte>)
    requires 255 !in data
    ensures Stuff(data) == data
    decreases |data|
  {
    if data != [] {
      LastApart(data);
      StuffPlain(data[..|data| - 1]);
    }
  }

  lemma MsgIsItem(m: Msg)
    requires PlainMsg(m)
    ensures IsItem(AsItem(m)) && WireOf(AsItem(m)) == MsgBytes(m)
  {
    match m
    case Command(_, _) =>
    case Naws(cols, rows) => StuffPlain(NawsPayload(cols, rows));
    case TermType => StuffPlain([0] + TERM_NAME);
  }

  lemma {:induction false} WireAppend(a: seq<Item>, b: seq<Item>)
    ensures Wire(a + b) == Wire(a) + Wire(b)
    decreases |b|
  {
    if b == [] {
      assert a + b == a;
    } else {
      assert (a + b)[..|a + b| - 1] == a + b[..|b| - 1];
      WireAppend(a, b[..|b| - 1]);
      Assoc(Wire(a), Wire(b[..|b| - 1]), WireOf(b[|b| - 1]));
    }
  }

  lemma {:induction false} TextAppend(a: seq<Item>, b: seq<Item>)
    ensures TextOf(a + b) == TextOf(a) + TextOf(b)
    decreases |b|
  {
    if b == [] {
      assert a + b == a;
    } else {
      assert (a + b)[..|a + b| - 1] == a + b[..|b| - 1];
      TextAppend(a, b[..|b| - 1]);
    }
  }

  lemma MessageSnoc(items: seq<Item>, m: Msg)
    requires AreItems(items) && PlainMsg(m)
    ensures AreItems(items + [AsItem(m)])
    ensures Wire(items + [AsItem(m)]) == Wire(items) + MsgBytes(m)
    ensures TextOf(items + [AsItem(m)]) == TextOf(items)
  {
    MsgIsItem(m);
    assert (items + [AsItem(m)])[..|items|] == items;
  }

  /** Messages as items: their bytes are the wire form, and they carry no session data. */
  function AsItems(ms: seq<Msg>): (items: seq<Item>)
    ensures |items| == |ms| && forall i :: 0 <= i < |ms| ==> items[i] == AsItem(ms[i])
  {
    seq(|ms|, i requires 0 <= i < |ms| => AsItem(ms[i]))
  }

  lemma AsItemsSnoc(ms: seq<Msg>, m: Msg)
    ensures AsItems(ms + [m]) == AsItems(ms) + [AsItem(m)]
  {
  }

  predicate PlainMsgs(ms: seq<Msg>) {
    forall i :: 0 <= i < |ms| ==> PlainMsg(ms[i])
  }

  lemma {:induction false} MsgsAreItems(ms: seq<Msg>)
    requires PlainMsgs(ms)
    ensures AreItems(AsItems(ms)) && Wire(AsItems(ms)) == MsgsBytes(ms) && TextOf(AsItems(ms)) == []
    decreases |ms|
  {
    if ms != [] {
      var front := ms[..|ms| - 1];
      MsgsAreItems(front);
      MessageSnoc(AsItems(front), ms[|ms| - 1]);
      AsItemsSnoc(front, ms[|ms| - 1]);
      LastApart(ms);
    }
  }

  lemma OneMessage(m: Msg)
    ensures MsgsBytes([m]) == MsgBytes(m)
  {
    assert [m][..0] == [];
    assert MsgsBytes([]) == [];
  }

  lemma {:induction false} MsgsBytesAppend(a: seq<Msg>, b: seq<Msg>)
    ensures MsgsBytes(a + b) == MsgsBytes(a) + MsgsBytes(b)
    decreases |b|
  {
    if b == [] {
      assert a + b == a;
    } else {
      assert (a + b)[..|a + b| - 1] == a + b[..|b| - 1];
      MsgsBytesAppend(a, b[..|b| - 1]);
      Assoc(MsgsBytes(a), MsgsBytes(b[..|b| - 1]), MsgBytes(b[|b| - 1]));
    }
  }

  predicate AreNegotiations(ms: seq<Msg>) {
    forall i :: 0 <= i < |ms| && ms[i].Command? ==> IsNegotiation(ms[i].cmd)
  }

  lemma {:induction false} RepliesNegotiate(tn: Tn, bs: seq<byte>)
    ensures AreNegotiations(Decode(tn, bs).msgs)
    decreases |bs|
  {
    if bs != [] {
      RepliesNegotiate(tn, bs[..|bs| - 1]);
      assert AreNegotiations(Step(Decode(tn, bs[..|bs| - 1]).tn, bs[|bs| - 1]).msgs);
    }
  }

  /** No size report among the messages carries a byte 255. */
  predicate PlainReports(ms: seq<Msg>) {
    forall i :: 0 <= i < |ms| && ms[i].Naws? ==> PlainSize(ms[i].cols, ms[i].rows)
  }

  /** What an operation adds to the stream, as items. */
  function OpItems(c: Client, op: Op): seq<Item> {
    match op
    case Receive(wire) => AsItems(Decode(c.tn, wire).msgs)
    case Write(data) => Texts(data)
    case SetSize(cols, rows) => AsItems(ResizeMsgs(c.tn, cols, rows))
  }

  function OpMsgs(c: Client, op: Op): seq<Msg> {
    match op
    case Receive(wire) => Decode(c.tn, wire).msgs
    case Write(_) => []
    case SetSize(cols, rows) => ResizeMsgs(c.tn, cols, rows)
  }

  lemma OpIsWellFormed(c: Client, op: Op)
    requires PlainReports(OpMsgs(c, op))
    ensures AreItems(OpItems(c, op))
    ensures Perform(c, op).sent == c.sent + Wire(OpItems(c, op))
    ensures Perform(c, op).written == c.written + TextOf(OpItems(c, op))
  {
    match op
    case Receive(wire) =>
      RepliesNegotiate(c.tn, wire);
      MsgsAreItems(Decode(c.tn, wire).msgs);
    case Write(data) => TextsWire(data);
    case SetSize(cols, rows) => MsgsAreItems(ResizeMsgs(c.tn, cols, rows));
  }

  lemma OpReports(c: Client, op: Op)
    requires PlainReports(Perform(c, op).msgs)
    ensures PlainReports(c.msgs) && PlainReports(OpMsgs(c, op))
  {
    assert c.msgs + [] == c.msgs;
    PlainParts(c.msgs, OpMsgs(c, op), Perform(c, op).msgs);
  }

  lemma PlainParts(a: seq<Msg>, b: seq<Msg>, all: seq<Msg>)
    requires all == a + b && PlainReports(all)
    ensures PlainReports(a) && PlainReports(b)
  {
    assert forall i :: 0 <= i < |a| ==> all[i] == a[i];
    assert forall i :: 0 <= i < |b| ==> all[|a| + i] == b[i];
  }

  function SentItems(ops: seq<Op>): seq<Item> {
    if ops == [] then []
    else SentItems(ops[..|ops| - 1]) + OpItems(PerformAll(ops[..|ops| - 1]), ops[|ops| - 1])
  }

  lemma {:induction false} SentIsWellFormed(ops: seq<Op>)
    requires PlainReports(PerformAll(ops).msgs)
    ensures AreItems(SentItems(ops))
    ensures PerformAll(ops).sent == Wire(SentItems(ops)) && PerformAll(ops).written == TextOf(SentItems(ops))
    decreases |ops|
  {
    if ops != [] {
      var front, last := ops[..|ops| - 1], ops[|ops| - 1];
      OpReports(PerformAll(front), last);
      SentIsWellFormed(front);
      OpIsWellFormed(PerformAll(front), last);
      WireAppend(SentItems(front), OpItems(PerformAll(front), last));
      TextAppend(SentItems(front), OpItems(PerformAll(front), last));
    }
  }
}
