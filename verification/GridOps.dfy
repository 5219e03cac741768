/** The in-place loops: clearing and copying cells, shifting a region, reading parameters out of the buffer. */
module GridOps {
  import opened Bytes
  import opened Cells
  import opened CsiParams

  method CellClearRange(grid: array<Cell>, row: int, colFrom: int, colTo: int, fg: Color, bg: Color)
    requires grid.Length == CELLS && 0 <= row < ROWS && 0 <= colFrom
    modifies grid
    ensures grid[..] == FillSpan(old(grid[..]), row * COLS + colFrom, row * COLS + Min(colTo, COLS - 1), Cell(32, fg, bg, 0))
  {
    var c := colFrom;
    while c <= colTo && c < COLS
      invariant colFrom <= c && (c <= Max(colFrom, Min(colTo, COLS - 1) + 1))
      invariant forall k :: 0 <= k < CELLS ==>
        grid[k] == if row * COLS + colFrom <= k < row * COLS + c then Cell(32, fg, bg, 0) else old(grid[k])
      decreases COLS - c
    {
      grid[row * COLS + c] := Cell(32, fg, bg, 0);
      c := c + 1;
    }
  }

  method GridClearAll(grid: array<Cell>, fg: Color, bg: Color)
    requires grid.Length == CELLS
    modifies grid
    ensures grid[..] == BlankGrid(Cell(32, fg, bg, 0))
  {
    var r := 0;
    while r < ROWS
      invariant 0 <= r <= ROWS
      invariant forall k :: 0 <= k < r * COLS ==> grid[k] == Cell(32, fg, bg, 0)
    {
      CellClearRange(grid, r, 0, COLS - 1, fg, bg);
      assert forall k :: 0 <= k < CELLS ==> grid[k] == grid[..][k];
      r := r + 1;
    }
  }

  /** memcpy of one row between buffers, or between different rows of one buffer. */
  method CopyRow<T>(dst: array<T>, to: int, src: array<T>, from: int)
    requires 0 <= to && to + COLS <= dst.Length && 0 <= from && from + COLS <= src.Length
    requires dst != src || to + COLS <= from || from + COLS <= to
    modifies dst
    ensures forall k :: 0 <= k < dst.Length ==>
              dst[k] == if to <= k < to + COLS then old(src[from + k - to]) else old(dst[k])
  {
    var i := 0;
    while i < COLS
      invariant 0 <= i <= COLS
      invariant forall k :: 0 <= k < dst.Length ==>
        dst[k] == if to <= k < to + i then old(src[from + k - to]) else old(dst[k])
    {
      dst[to + i] := src[from + i];
      i := i + 1;
    }
  }

  /** The copying half of a region scroll. */
  method ShiftRows(grid: array<Cell>, top: int, bottom: int)
    requires grid.Length == CELLS && 0 <= top <= bottom < ROWS
    modifies grid
    ensures forall k :: 0 <= k < CELLS ==>
              grid[k] == if top * COLS <= k < bottom * COLS then old(grid[k + COLS]) else old(grid[k])
  {
    var r := top;
    while r < bottom
      invariant top <= r <= bottom
      invariant forall k :: 0 <= k < CELLS ==>
        grid[k] == if top * COLS <= k < r * COLS then old(grid[k + COLS]) else old(grid[k])
    {
      CopyRow(grid, r * COLS, grid, (r + 1) * COLS);
      r := r + 1;
    }
  }

  /** One field: the value of the digits at i (-1 if there are none) and where they end. */
  method ReadField(buf: array<byte>, len: int, i: int) returns (val: int, j: int)
    requires 0 <= i < len <= buf.Length
    ensures i <= j <= len && AllDigits(buf[i..j]) && (j == len || !IsDigit(buf[j]))
    ensures val == Field(buf[i..j])
  {
    val := 0;
    var anyDigit := false;
    j := i;
    while j < len && 48 <= buf[j] <= 57
      invariant i <= j <= len && AllDigits(buf[i..j])
      invariant val == Value(buf[i..j]) && (anyDigit <==> j > i)
    {
      val := val * 10 + (buf[j] - 48);
      anyDigit := true;
      j := j + 1;
      assert buf[i..j][..j - i - 1] == buf[i..j - 1];
    }
    if !anyDigit {
      val := -1;
    }
  }

  lemma ParseStep(buf: seq<byte>, i: nat, j: nat, room: nat)
    requires i < |buf| && room > 0 && buf[i] != SEMI
    requires i <= j <= |buf| && AllDigits(buf[i..j]) && (j == |buf| || !IsDigit(buf[j]))
    ensures var next := if j < |buf| && buf[j] == SEMI then j + 1 else j;
            Parse(buf[i..], room) == [Field(buf[i..j])] + Parse(buf[next..], room - 1)
  {
    assert buf[i..] == buf[i..j] + buf[j..];
    ParseRound(buf[i..j], buf[j..], room);
    assert j < |buf| ==> buf[j..][1..] == buf[j + 1..];
  }

  /** One round of the parser: a ';' stands for an omitted value, otherwise a field and its separator. */
  method ReadParam(buf: array<byte>, len: int, i: int, ghost text: seq<byte>, ghost room: nat)
    returns (val: int, next: int, ghost rest: seq<int>)
    requires 0 <= i < len <= buf.Length && text == buf[..len] && room > 0
    ensures i <= next <= len && rest == Parse(text[next..], room - 1)
    ensures Parse(text[i..], room) == [val] + rest
  {
    if buf[i] == SEMI {
      assert text[i..][1..] == text[i + 1..];
      return -1, i + 1, Parse(text[i + 1..], room - 1);
    }
    var j;
    val, j := ReadField(buf, len, i);
    assert buf[i..j] == text[i..j];
    ParseStep(text, i, j, room);
    next := if j < len && buf[j] == SEMI then j + 1 else j;
    rest := Parse(text[next..], room - 1);
  }

  /** Terminates on every buffer: each round fills one of the 16 places, even one that consumes nothing. */
  method ParseBuffer(buf: array<byte>, len: int, maxOut: nat) returns (out: seq<int>)
    requires 0 <= len <= buf.Length
    ensures out == Parse(buf[..len], maxOut)
  {
    out := [];
    var i := 0;
    ghost var text := buf[..len];
    ghost var all := Parse(text, maxOut);
    ghost var rest := all;
    assert text[0..] == text;
    while i < len && |out| < maxOut
      invariant 0 <= i <= len && |out| <= maxOut
      invariant all == out + rest && rest == Parse(text[i..], maxOut - |out|)
      decreases maxOut - |out|
    {
      var val;
      val, i, rest := ReadParam(buf, len, i, text, maxOut - |out|);
      Assoc(out, [val], rest);
      out := out + [val];
    }
    NothingLeft(text[i..], maxOut - |out|);
  }

  lemma NothingLeft(text: seq<byte>, room: nat)
    requires text == [] || room == 0
    ensures Parse(text, room) == []
  {
  }
}
