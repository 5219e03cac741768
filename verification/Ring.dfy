/** The scrollback ring: modular indexing over a fixed buffer against the unbounded history of pushed rows. */
module Ring {
  import opened Bytes
  import opened Cells
  import opened TermModel

  function Slot(ring: seq<Cell>, p: int): Row
    requires 0 <= p && (p + 1) * COLS <= |ring|
  {
    ring[p * COLS..(p + 1) * COLS]
  }

  /** The last 300 pushed rows are in the ring, row i of the history in slot i mod 300. */
  predicate Holds(ring: seq<Cell>, hist: seq<Row>) {
    && |ring| == SCROLLBACK * COLS
    && forall i :: 0 <= i < |hist| && |hist| - SCROLLBACK <= i ==> Slot(ring, i % SCROLLBACK) == hist[i]
  }

  predicate Consistent(ring: seq<Cell>, hist: seq<Row>, head: int, count: int) {
    Holds(ring, hist) && head == |hist| % SCROLLBACK && count == Min(|hist|, SCROLLBACK)
  }

  /** The buffer after one row is copied into slot p. */
  predicate Stored(ring: seq<Cell>, ring': seq<Cell>, p: int, row: Row) {
    && |ring'| == |ring| == SCROLLBACK * COLS && 0 <= p < SCROLLBACK
    && forall k :: 0 <= k < |ring| ==>
         ring'[k] == if p * COLS <= k < (p + 1) * COLS then row[k - p * COLS] else ring[k]
  }

  lemma StoredSlot(ring: seq<Cell>, ring': seq<Cell>, p: int, row: Row, q: int)
    requires Stored(ring, ring', p, row) && 0 <= q < SCROLLBACK
    ensures Slot(ring', q) == if q == p then row else Slot(ring, q)
  {
    assert forall c :: 0 <= c < COLS ==> Slot(ring', q)[c] == ring'[q * COLS + c];
    assert forall c :: 0 <= c < COLS ==> Slot(ring, q)[c] == ring[q * COLS + c];
  }

  /** Overwriting the oldest slot keeps every younger row. */
  lemma PushKeepsRing(ring: seq<Cell>, hist: seq<Row>, ring': seq<Cell>, row: Row)
    requires Holds(ring, hist) && Stored(ring, ring', |hist| % SCROLLBACK, row)
    ensures Holds(ring', hist + [row])
  {
    var n := |hist|;
    forall i | 0 <= i < n + 1 && n + 1 - SCROLLBACK <= i
      ensures Slot(ring', i % SCROLLBACK) == (hist + [row])[i]
    {
      StoredSlot(ring, ring', n % SCROLLBACK, row, i % SCROLLBACK);
      if i < n {
        DistinctSlots(i, n);
      }
    }
  }

  lemma HeadAdvances(n: nat)
    ensures (n % SCROLLBACK + 1) % SCROLLBACK == (n + 1) % SCROLLBACK
  {
  }

  lemma DistinctSlots(i: int, n: int)
    requires 0 <= i < n < i + SCROLLBACK
    ensures i % SCROLLBACK != n % SCROLLBACK
  {
  }

  /** The physical slot of screen row r, computed step by step as display_row does from head and count. */
  function Physical(head: int, count: int, offset: int, r: int): int {
    var logical := count - offset + r;
    var newest := (head - 1 + SCROLLBACK) % SCROLLBACK;
    var back := count - 1 - logical;
    (newest - back + SCROLLBACK) % SCROLLBACK
  }

  lemma PhysicalIsLine(n: nat, offset: int, r: int)
    requires 0 <= r < offset <= Min(n, SCROLLBACK)
    ensures Physical(n % SCROLLBACK, Min(n, SCROLLBACK), offset, r) == (n - offset + r) % SCROLLBACK
  {
    var newest := (n % SCROLLBACK - 1 + SCROLLBACK) % SCROLLBACK;
    SameSlot(n % SCROLLBACK - 1 + SCROLLBACK, n - 1, 1 - n / SCROLLBACK);
    SameSlot(newest - (offset - 1 - r) + SCROLLBACK, n - offset + r, 1 - (n - 1) / SCROLLBACK);
  }

  lemma SameSlot(a: int, b: int, turns: int)
    requires a == b + SCROLLBACK * turns
    ensures a % SCROLLBACK == b % SCROLLBACK
  {
  }

  /** display_row's index arithmetic finds the right row: every operand of % is non-negative, the slot is in range
      and holds history line n - offset + r. */
  lemma RingIndexing(ring: seq<Cell>, hist: seq<Row>, offset: int, r: int)
    requires Holds(ring, hist) && 0 <= r < offset <= Min(|hist|, SCROLLBACK)
    ensures var p := Physical(|hist| % SCROLLBACK, Min(|hist|, SCROLLBACK), offset, r);
            0 <= p < SCROLLBACK && Slot(ring, p) == hist[|hist| - offset + r]
    ensures |hist| % SCROLLBACK - 1 + SCROLLBACK >= 0
    ensures (|hist| % SCROLLBACK - 1 + SCROLLBACK) % SCROLLBACK - (offset - 1 - r) + SCROLLBACK >= 0
  {
    PhysicalIsLine(|hist|, offset, r);
  }
}
