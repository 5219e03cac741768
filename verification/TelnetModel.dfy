/** The telnet codec as a function of its state (RFC 854, RFC 855; window size from RFC 1073). */
module TelnetModel {
  import opened Bytes

  const IAC: byte := 255
  const DONT: byte := 254
  const DO: byte := 253
  const WONT: byte := 252
  const WILL: byte := 251
  const SB: byte := 250
  const SE: byte := 240

  const OPT_ECHO: byte := 1
  const OPT_SGA: byte := 3
  const OPT_TERM_TYPE: byte := 24
  const OPT_NAWS: byte := 31

  const SB_MAX := 16

  datatype DecoderState = Data | Iac | CmdOpt | Sub | SubIac

  datatype Tn = Tn(state: DecoderState, pendingCmd: byte, sbOpt: byte, sbHaveOpt: bool, sbBuf: seq<byte>,
                   nawsEnabled: bool, cols: u16, rows: u16)

  /** What the client sends besides session data. */
  datatype Msg = Command(cmd: byte, opt: byte) | Naws(cols: u16, rows: u16) | TermType

  /** The effect of some inbound bytes: the new state, the session data in them, and the replies. */
  datatype Out = Out(tn: Tn, data: seq<byte>, msgs: seq<Msg>)

  function Connected(): Tn {
    Tn(Data, 0, 0, false, [], false, 0, 0)
  }

  function NawsPayload(cols: u16, rows: u16): seq<byte> {
    [cols / 256, cols % 256, rows / 256, rows % 256]
  }

  /** "xterm" */
  const TERM_NAME: seq<byte> := [120, 116, 101, 114, 109]

  function MsgBytes(m: Msg): seq<byte> {
    match m
    case Command(cmd, opt) => [IAC, cmd, opt]
    case Naws(cols, rows) => [IAC, SB, OPT_NAWS] + NawsPayload(cols, rows) + [IAC, SE]
    case TermType => [IAC, SB, OPT_TERM_TYPE, 0] + TERM_NAME + [IAC, SE]
  }

  function MsgsBytes(ms: seq<Msg>): seq<byte> {
    if ms == [] then [] else MsgsBytes(ms[..|ms| - 1]) + MsgBytes(ms[|ms| - 1])
  }

  predicate IsNegotiation(c: byte) {
    c == WILL || c == WONT || c == DO || c == DONT
  }

  /** The answer to a negotiation; a DO NAWS is followed by a report once the size is known. */
  function Answer(cmd: byte, opt: byte, cols: u16, rows: u16): seq<Msg> {
    if cmd == WILL then [Command(if opt == OPT_ECHO || opt == OPT_SGA then DO else DONT, opt)]
    else if cmd == WONT then [Command(DONT, opt)]
    else if cmd == DO then
      if opt == OPT_SGA || opt == OPT_TERM_TYPE then [Command(WILL, opt)]
      else if opt == OPT_NAWS then
        [Command(WILL, opt)] + if cols != 0 && rows != 0 then [Naws(cols, rows)] else []
      else [Command(WONT, opt)]
    else if cmd == DONT then [Command(WONT, opt)]
    else []
  }

  /** TERMINAL-TYPE SEND is the only subnegotiation that gets an answer. */
  function SubAnswer(opt: byte, payload: seq<byte>): seq<Msg> {
    if opt == OPT_TERM_TYPE && payload != [] && payload[0] == 1 then [TermType] else []
  }

  function Store(tn: Tn, c: byte): Tn {
    if |tn.sbBuf| < SB_MAX then tn.(sbBuf := tn.sbBuf + [c]) else tn
  }

  /** One byte off the wire. */
  function Step(tn: Tn, c: byte): Out {
    match tn.state
    case Data =>
      if c == IAC then Out(tn.(state := Iac), [], []) else Out(tn, [c], [])
    case Iac =>
      if c == IAC then Out(tn.(state := Data), [0xFF], [])
      else if IsNegotiation(c) then Out(tn.(pendingCmd := c, state := CmdOpt), [], [])
      else if c == SB then Out(tn.(sbBuf := [], sbHaveOpt := false, state := Sub), [], [])
      else Out(tn.(state := Data), [], [])
    case CmdOpt =>
      var enabled := tn.nawsEnabled || (tn.pendingCmd == DO && c == OPT_NAWS);
      Out(tn.(state := Data, nawsEnabled := enabled), [], Answer(tn.pendingCmd, c, tn.cols, tn.rows))
    case Sub =>
      if !tn.sbHaveOpt then Out(tn.(sbOpt := c, sbHaveOpt := true), [], [])
      else if c == IAC then Out(tn.(state := SubIac), [], [])
      else Out(Store(tn, c), [], [])
    case SubIac =>
      if c == SE then Out(tn.(state := Data), [], SubAnswer(tn.sbOpt, tn.sbBuf))
      else if c == IAC then Out(Store(tn, 0xFF).(state := Sub), [], [])
      else Out(tn.(state := Data), [], [])
  }

  function Then(o: Out, p: Out): Out {
    Out(p.tn, o.data + p.data, o.msgs + p.msgs)
  }

  /** A whole byte string. */
  function Decode(tn: Tn, bs: seq<byte>): Out
    decreases |bs|
  {
    if bs == [] then Out(tn, [], [])
    else
      var o := Decode(tn, bs[..|bs| - 1]);
      Then(o, Step(o.tn, bs[|bs| - 1]))
  }

  /** Byte stuffing: every 255 is doubled. */
  function Stuff(data: seq<byte>): seq<byte> {
    if data == [] then []
    else
      var c := data[|data| - 1];
      Stuff(data[..|data| - 1]) + if c == 0xFF then [0xFF, 0xFF] else [c]
  }

  // ---- The client's own operations ----

  datatype Op = Receive(wire: seq<byte>) | Write(data: seq<byte>) | SetSize(cols: u16, rows: u16)

  /** A client in use: codec state, everything sent, everything asked to be written, every message sent. */
  datatype Client = Client(tn: Tn, sent: seq<byte>, written: seq<byte>, msgs: seq<Msg>)

  function Resize(tn: Tn, cols: u16, rows: u16): Tn {
    tn.(cols := cols, rows := rows)
  }

  function ResizeMsgs(tn: Tn, cols: u16, rows: u16): seq<Msg> {
    if tn.nawsEnabled then [Naws(cols, rows)] else []
  }

  function Perform(c: Client, op: Op): Client {
    match op
    case Receive(wire) =>
      var o := Decode(c.tn, wire);
      Client(o.tn, c.sent + MsgsBytes(o.msgs), c.written, c.msgs + o.msgs)
    case Write(data) => c.(sent := c.sent + Stuff(data), written := c.written + data)
    case SetSize(cols, rows) =>
      var ms := ResizeMsgs(c.tn, cols, rows);
      Client(Resize(c.tn, cols, rows), c.sent + MsgsBytes(ms), c.written, c.msgs + ms)
  }

  function PerformAll(ops: seq<Op>): Client {
    if ops == [] then Client(Connected(), [], [], [])
    else Perform(PerformAll(ops[..|ops| - 1]), ops[|ops| - 1])
  }
}
