/** Parameter lists of control sequences: ECMA-48 section 5.4.2, as parse_params reads them. */
module CsiParams {
  import opened Bytes

  const SEMI: byte := 59
  const ZERO: byte := 48
  const CSI_MAX := 63
  const MAX_PARAMS := 16

  predicate IsDigit(c: byte) {
    48 <= c <= 57
  }

  /** Every byte that the emulator stores in its parameter buffer is a digit or ';'. */
  predicate Clean(buf: seq<byte>) {
    forall i :: 0 <= i < |buf| ==> IsDigit(buf[i]) || buf[i] == SEMI
  }

  /** The contents of the emulator's parameter buffer. */
  type CsiText = s: seq<byte> | |s| <= CSI_MAX && Clean(s)

  predicate AllDigits(s: seq<byte>) {
    forall i :: 0 <= i < |s| ==> IsDigit(s[i])
  }

  /** What the buffer keeps of a parameter text: its first 63 bytes. */
  function Kept(params: seq<byte>): CsiText
    requires Clean(params)
  {
    Take(CSI_MAX, params)
  }

  /** How many leading bytes are digits. */
  function DigitRun(buf: seq<byte>): (n: nat)
    ensures n <= |buf| && AllDigits(buf[..n])
    ensures n < |buf| ==> !IsDigit(buf[n])
  {
    if buf == [] || !IsDigit(buf[0]) then 0
    else
      var n := 1 + DigitRun(buf[1..]);
      assert forall i :: 1 <= i < n ==> buf[..n][i] == buf[1..][..n - 1][i - 1];
      n
  }

  /** Decimal value, most significant digit first. */
  function Value(s: seq<byte>): (v: nat)
    requires AllDigits(s)
  {
    if s == [] then 0 else Value(s[..|s| - 1]) * 10 + (s[|s| - 1] - ZERO)
  }

  /** A parameter field: -1 when it is omitted. */
  function Field(s: seq<byte>): (p: int)
    requires AllDigits(s)
    ensures p >= -1
  {
    if s == [] then -1 else Value(s)
  }

  /** What parse_params extracts from a buffer when there is room for `room` values; any bytes are allowed. */
  function Parse(buf: seq<byte>, room: nat): (ps: seq<int>)
    ensures |ps| <= room
    ensures forall i :: 0 <= i < |ps| ==> ps[i] >= -1
    decreases |buf|, room
  {
    if buf == [] || room == 0 then []
    else if buf[0] == SEMI then [-1] + Parse(buf[1..], room - 1)
    else
      var n := DigitRun(buf);
      var next := if n < |buf| && buf[n] == SEMI then n + 1 else n;
      [Field(buf[..n])] + Parse(buf[next..], room - 1)
  }

  // ---- The inverse: writing a parameter list ----

  predicate AreFields(fields: seq<seq<byte>>) {
    forall i :: 0 <= i < |fields| ==> AllDigits(fields[i])
  }

  function Join(fields: seq<seq<byte>>): (buf: seq<byte>) {
    if fields == [] then []
    else if |fields| == 1 then fields[0]
    else fields[0] + [SEMI] + Join(fields[1..])
  }

  function Fields(fields: seq<seq<byte>>): (ps: seq<int>)
    requires AreFields(fields)
    ensures |ps| == |fields|
    ensures forall i :: 0 <= i < |ps| ==> ps[i] == Field(fields[i])
  {
    seq(|fields|, i requires 0 <= i < |fields| => Field(fields[i]))
  }

  /** An omitted parameter in last position leaves no trace in the text. */
  function Trim(ps: seq<int>): (r: seq<int>)
    ensures r == ps <==> ps == [] || ps[|ps| - 1] != -1
  {
    if ps != [] && ps[|ps| - 1] == -1 then ps[..|ps| - 1] else ps
  }

  lemma {:induction false} DigitRunOf(f: seq<byte>, rest: seq<byte>)
    requires AllDigits(f) && (rest != [] ==> !IsDigit(rest[0]))
    ensures DigitRun(f + rest) == |f|
    decreases |f|
  {
    if f == [] {
      assert f + rest == rest;
    } else {
      assert (f + rest)[1..] == f[1..] + rest;
      DigitRunOf(f[1..], rest);
    }
  }

  lemma ParseFieldThenRest(f: seq<byte>, rest: seq<byte>, room: nat)
    requires AllDigits(f) && room > 0
    ensures Parse(f + [SEMI] + rest, room) == [Field(f)] + Parse(rest, room - 1)
  {
    var buf := f + [SEMI] + rest;
    if f == [] {
      assert buf[1..] == rest;
    } else {
      assert buf == f + ([SEMI] + rest);
      DigitRunOf(f, [SEMI] + rest);
      assert buf[..|f|] == f && buf[|f| + 1..] == rest;
      assert buf[0] == f[0];
    }
  }

  /** The general round: digits, then whatever stops them; a separator is consumed, anything else is not. */
  lemma ParseRound(f: seq<byte>, rest: seq<byte>, room: nat)
    requires AllDigits(f) && room > 0 && f + rest != [] && (rest != [] ==> !IsDigit(rest[0]))
    requires f == [] ==> rest[0] != SEMI
    ensures Parse(f + rest, room)
         == [Field(f)] + Parse(if rest != [] && rest[0] == SEMI then rest[1..] else rest, room - 1)
  {
    var buf := f + rest;
    DigitRunOf(f, rest);
    Halves(f, rest);
    var next := if |f| < |buf| && buf[|f|] == SEMI then |f| + 1 else |f|;
    assert Parse(buf, room) == [Field(buf[..|f|])] + Parse(buf[next..], room - 1);
  }

  lemma ParseLastField(f: seq<byte>, room: nat)
    requires AllDigits(f) && room > 0
    ensures Parse(f, room) == if f == [] then [] else [Field(f)]
  {
    if f != [] {
      DigitRunOf(f, []);
      assert f + [] == f && f[..|f|] == f && f[|f|..] == [];
    }
  }

  lemma TrimCons(p: int, ps: seq<int>)
    requires ps != []
    ensures Trim([p] + ps) == [p] + Trim(ps)
  {
    assert ([p] + ps)[..|ps|] == [p] + ps[..|ps| - 1];
  }

  lemma TakeCons(room: nat, p: int, ps: seq<int>)
    requires room > 0
    ensures Take(room, [p] + ps) == [p] + Take(room - 1, ps)
  {
  }

  /** The values of fields, one by one; an empty last field is not read. */
  function ReadFields(fields: seq<seq<byte>>, room: nat): seq<int>
    requires AreFields(fields)
    decreases |fields|
  {
    if fields == [] || room == 0 || fields == [[]] then []
    else [Field(fields[0])] + ReadFields(fields[1..], room - 1)
  }

  lemma ParseJoinedLast(fields: seq<seq<byte>>, room: nat)
    requires AreFields(fields) && |fields| <= 1
    ensures Parse(Join(fields), room) == ReadFields(fields, room)
  {
    if fields != [] && room > 0 {
      ParseLastField(fields[0], room);
      assert fields[1..] == [];
      assert fields == [fields[0]];
    }
  }

  lemma ParseJoinedCons(fields: seq<seq<byte>>, room: nat)
    requires AreFields(fields) && |fields| > 1 && room > 0
    ensures Parse(Join(fields), room) == [Field(fields[0])] + Parse(Join(fields[1..]), room - 1)
  {
    ParseFieldThenRest(fields[0], Join(fields[1..]), room);
  }

  lemma {:induction false} ParseReads(fields: seq<seq<byte>>, room: nat)
    requires AreFields(fields)
    ensures Parse(Join(fields), room) == ReadFields(fields, room)
    decreases |fields|
  {
    if |fields| <= 1 {
      ParseJoinedLast(fields, room);
    } else if room > 0 {
      ParseJoinedCons(fields, room);
      ParseReads(fields[1..], room - 1);
    }
  }

  lemma ReadOne(fields: seq<seq<byte>>, room: nat)
    requires AreFields(fields) && |fields| == 1
    ensures ReadFields(fields, room) == Take(room, Trim(Fields(fields)))
  {
    assert fields == [fields[0]];
    assert Fields(fields) == [Field(fields[0])];
    assert fields[1..] == [];
  }

  lemma ReadCons(fields: seq<seq<byte>>, more: seq<seq<byte>>, room: nat)
    requires AreFields(fields) && |fields| > 1 && more == fields[1..] && room > 0
    ensures Take(room, Trim(Fields(fields))) == [Field(fields[0])] + Take(room - 1, Trim(Fields(more)))
  {
    var f := fields[0];
    assert Fields(fields) == [Field(f)] + Fields(more);
    TrimCons(Field(f), Fields(more));
    TakeCons(room, Field(f), Trim(Fields(more)));
  }

  lemma {:induction false} ReadIsTrimmed(fields: seq<seq<byte>>, room: nat)
    requires AreFields(fields)
    ensures ReadFields(fields, room) == Take(room, Trim(Fields(fields)))
    decreases |fields|
  {
    if |fields| == 1 {
      ReadOne(fields, room);
    } else if |fields| > 1 && room > 0 {
      ReadIsTrimmed(fields[1..], room - 1);
      ReadCons(fields, fields[1..], room);
    }
  }

  /** Every buffer of digits and ';' is read field by field, whatever the fields are (leading zeros included). */
  lemma {:induction false} ParseJoined(fields: seq<seq<byte>>, room: nat)
    requires AreFields(fields)
    ensures Parse(Join(fields), room) == Take(room, Trim(Fields(fields)))
  {
    ParseReads(fields, room);
    ReadIsTrimmed(fields, room);
  }

  /** The fields of a buffer; with ParseJoined this fixes what every buffer of digits and ';' means. */
  function Split(buf: seq<byte>): (fields: seq<seq<byte>>)
    requires Clean(buf)
    ensures fields != [] && AreFields(fields) && Join(fields) == buf
  {
    var n := DigitRun(buf);
    if n == |buf| then
      assert buf[..n] == buf;
      [buf]
    else
      var more := Split(buf[n + 1..]);
      assert buf == buf[..n] + [SEMI] + buf[n + 1..];
      assert ([buf[..n]] + more)[1..] == more;
      [buf[..n]] + more
  }

  lemma {:induction false} ParseSplit(buf: seq<byte>, room: nat)
    requires Clean(buf)
    ensures Parse(buf, room) == Take(room, Trim(Fields(Split(buf))))
  {
    ParseJoined(Split(buf), room);
  }

  function Digits(n: nat): (s: seq<byte>)
    ensures s != [] && AllDigits(s) && Value(s) == n
  {
    var d: byte := ZERO + n % 10;
    if n < 10 then
      [d]
    else
      var s := Digits(n / 10) + [d];
      assert s[..|s| - 1] == Digits(n / 10);
      s
  }

  /** A list of parameters, -1 standing for an omitted one. */
  predicate IsParamList(ps: seq<int>) {
    forall i :: 0 <= i < |ps| ==> ps[i] >= -1
  }

  /** A parameter as it is printed; an omitted one is empty. */
  function PrintField(p: int): seq<byte>
    requires p >= -1
  {
    if p == -1 then [] else Digits(p)
  }

  function PrintFields(ps: seq<int>): (fs: seq<seq<byte>>)
    requires IsParamList(ps)
    ensures |fs| == |ps|
    ensures forall i :: 0 <= i < |fs| ==> fs[i] == PrintField(ps[i]) && AllDigits(fs[i]) && Field(fs[i]) == ps[i]
  {
    seq(|ps|, i requires 0 <= i < |ps| => PrintField(ps[i]))
  }

  lemma {:induction false} JoinClean(fields: seq<seq<byte>>)
    requires AreFields(fields)
    ensures Clean(Join(fields))
    decreases |fields|
  {
    if |fields| > 1 {
      JoinClean(fields[1..]);
    }
  }

  function Print(ps: seq<int>): (text: seq<byte>)
    requires IsParamList(ps)
    ensures Clean(text)
  {
    JoinClean(PrintFields(ps));
    Join(PrintFields(ps))
  }

  /** Parsing what was printed gives the first 16 parameters, an omitted last one dropped. */
  lemma {:induction false} ParseAfterPrint(ps: seq<int>)
    requires IsParamList(ps)
    ensures Parse(Print(ps), MAX_PARAMS) == Take(MAX_PARAMS, Trim(ps))
  {
    ParseJoined(PrintFields(ps), MAX_PARAMS);
    assert Fields(PrintFields(ps)) == ps;
  }

  /** Printing then parsing gives the list back exactly when it has at most 16 entries and does not end in an
      omitted one. */
  lemma {:induction false} ParamRoundTrip(ps: seq<int>)
    requires IsParamList(ps)
    ensures Parse(Print(ps), MAX_PARAMS) == ps <==>
              |ps| <= MAX_PARAMS && (ps == [] || ps[|ps| - 1] != -1)
  {
    ParseAfterPrint(ps);
    assert |Take(MAX_PARAMS, Trim(ps))| == Min(MAX_PARAMS, |Trim(ps)|);
  }

  // ---- The 63-byte buffer ----

  /** No digit string is shorter than the printed form of its value. */
  lemma {:induction false} DigitsShortest(f: seq<byte>)
    requires AllDigits(f) && f != []
    ensures |Digits(Value(f))| <= |f|
    decreases |f|
  {
    var front, d := f[..|f| - 1], f[|f| - 1] - ZERO;
    if front == [] {
      assert Value(f) == d;
    } else {
      DigitsShortest(front);
      assert Value(f) / 10 == Value(front);
    }
  }

  lemma FieldShortest(f: seq<byte>)
    requires AllDigits(f)
    ensures |PrintField(Field(f))| <= |f|
  {
    if f != [] {
      DigitsShortest(f);
    }
  }

  /** Fewer and shorter fields make a shorter text. */
  lemma {:induction false} JoinGrows(fs: seq<seq<byte>>, gs: seq<seq<byte>>)
    requires |fs| <= |gs| && forall i :: 0 <= i < |fs| ==> |fs[i]| <= |gs[i]|
    ensures |Join(fs)| <= |Join(gs)|
    decreases |fs|
  {
    if |fs| > 1 {
      JoinGrows(fs[1..], gs[1..]);
    } else if |fs| == 1 && |gs| > 1 {
      assert |Join(gs)| == |gs[0]| + 1 + |Join(gs[1..])|;
    }
  }

  lemma FieldsFit(ps: seq<int>, fields: seq<seq<byte>>)
    requires IsParamList(ps) && AreFields(fields) && |ps| <= |fields|
    requires forall i :: 0 <= i < |ps| ==> ps[i] == Field(fields[i])
    ensures |Print(ps)| <= |Join(fields)|
  {
    forall i | 0 <= i < |ps| ensures |PrintFields(ps)[i]| <= |fields[i]| {
      FieldShortest(fields[i]);
    }
    JoinGrows(PrintFields(ps), fields);
  }

  /** A list read from some fields never needs more room than they do. */
  lemma {:induction false} ReadFits(ps: seq<int>, fields: seq<seq<byte>>, room: nat)
    requires IsParamList(ps) && AreFields(fields) && ps == Take(room, Trim(Fields(fields)))
    ensures |Print(ps)| <= |Join(fields)|
  {
    FieldsFit(ps, fields);
  }

  /** The lists that survive being sent as a control sequence. */
  predicate Sendable(ps: seq<int>)
    requires IsParamList(ps)
  {
    |ps| <= 16 && (ps == [] || ps[|ps| - 1] != -1) && |Print(ps)| <= 63
  }

  /** Through the emulator's buffer a list comes back unchanged exactly when it has at most 16 entries, does not end
      in an omitted one, and its text fits 63 bytes. */
  lemma {:induction false} BufferedRoundTrip(ps: seq<int>)
    requires IsParamList(ps)
    ensures Parse(Kept(Print(ps)), MAX_PARAMS) == ps <==> Sendable(ps)
  {
    if |Print(ps)| <= CSI_MAX {
      ParamRoundTrip(ps);
    } else if Parse(Kept(Print(ps)), MAX_PARAMS) == ps {
      var text := Kept(Print(ps));
      ParseSplit(text, MAX_PARAMS);
      ReadFits(ps, Split(text), MAX_PARAMS);
    }
  }

  lemma {:induction false} JoinOfEqual(fs: seq<seq<byte>>, w: nat)
    requires fs != [] && forall i :: 0 <= i < |fs| ==> |fs[i]| == w
    ensures |Join(fs)| == (w + 1) * |fs| - 1
    decreases |fs|
  {
    if |fs| > 1 {
      JoinOfEqual(fs[1..], w);
      assert (w + 1) * |fs| == (w + 1) * |fs[1..]| + (w + 1);
    }
  }

  /** Sixteen four-digit parameters do not fit: their text is cut, and another list is read. */
  lemma SixteenCut()
    ensures var ps := seq(MAX_PARAMS, _ => 1049);
            IsParamList(ps) && |ps| <= MAX_PARAMS && ps[|ps| - 1] != -1
            && |Print(ps)| == 79 && Parse(Kept(Print(ps)), MAX_PARAMS) != ps
  {
    var ps := seq(MAX_PARAMS, _ => 1049);
    FourDigits();
    assert forall i :: 0 <= i < |ps| ==> PrintFields(ps)[i] == Digits(1049);
    JoinOfEqual(PrintFields(ps), 4);
    BufferedRoundTrip(ps);
  }

  lemma TwoDigits(n: nat)
    requires 10 <= n < 100
    ensures |Digits(n)| == 2
  {
    assert |Digits(n / 10)| == 1;
  }

  lemma FourDigits()
    ensures |Digits(1049)| == 4
  {
    assert |Digits(10)| == 2;
  }

  // ---- 32-bit arithmetic of the digit loop ----

  const INT_MAX := 0x7FFF_FFFF

  /** Each intermediate value of the digit loop is the value of a prefix, so none exceeds the final one. */
  lemma {:induction false} PrefixValue(s: seq<byte>, k: nat)
    requires AllDigits(s) && k <= |s|
    ensures AllDigits(s[..k]) && Value(s[..k]) <= Value(s)
    decreases |s|
  {
    if k < |s| {
      var front := s[..|s| - 1];
      assert front[..k] == s[..k];
      PrefixValue(front, k);
    } else {
      assert s[..k] == s;
    }
  }

  /** The digit loop stays inside a 32-bit int at every step exactly when the parameter itself fits. */
  lemma DigitLoopFits(s: seq<byte>)
    requires AllDigits(s)
    ensures (forall k: nat :: k <= |s| ==> AllDigits(s[..k]) && Value(s[..k]) <= INT_MAX) <==> Value(s) <= INT_MAX
  {
    assert s[..|s|] == s;
    forall k: nat | k <= |s|
      ensures AllDigits(s[..k]) && Value(s[..k]) <= Value(s)
    {
      PrefixValue(s, k);
    }
  }

  /** A parameter of at most nine digits fits a 32-bit int, and so does every intermediate value of its loop. */
  lemma {:induction false} NineDigitsFit(s: seq<byte>)
    requires AllDigits(s) && |s| <= 9
    ensures Value(s) < Pow10(|s|) && Value(s) < 1_000_000_000 < INT_MAX
    decreases |s|
  {
    if s != [] {
      NineDigitsFit(s[..|s| - 1]);
    }
    Pow10Grows(|s|, 9);
    assert Pow10(3) == 1000 && Pow10(6) == 1_000_000 && Pow10(9) == 1_000_000_000;
  }

  function Pow10(n: nat): nat {
    if n == 0 then 1 else 10 * Pow10(n - 1)
  }

  lemma {:induction false} Pow10Grows(m: nat, n: nat)
    requires m <= n
    ensures Pow10(m) <= Pow10(n)
    decreases n - m
  {
    if m < n {
      Pow10Grows(m + 1, n);
    }
  }
}
