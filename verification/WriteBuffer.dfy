/** Outbound buffering: stuffed data leaves in blocks of at most 255 bytes out of a 256-byte buffer. */
module WriteBuffer {
  import opened Bytes
  import opened TelnetModel
  import opened TelnetTheorems

  const BUF_SIZE := 256

  /** The pieces of data already sent as blocks, and the piece whose stuffed form is in the buffer. */
  datatype Buffered = Buffered(done: seq<seq<byte>>, pending: seq<byte>)

  predicate IsFull(b: Buffered) {
    |Stuff(b.pending)| >= BUF_SIZE - 2
  }

  /** One more byte; a block is flushed just before the byte that might not fit. */
  function TakeIn(b: Buffered, c: byte): Buffered {
    if IsFull(b) then Buffered(b.done + [b.pending], [c]) else Buffered(b.done, b.pending + [c])
  }

  function Buffering(data: seq<byte>): Buffered {
    if data == [] then Buffered([], []) else TakeIn(Buffering(data[..|data| - 1]), data[|data| - 1])
  }

  /** The pieces that one write sends, last partial block included. */
  function Pieces(data: seq<byte>): seq<seq<byte>> {
    var b := Buffering(data);
    if b.pending == [] then b.done else b.done + [b.pending]
  }

  function StuffEach(pieces: seq<seq<byte>>): (blocks: seq<seq<byte>>)
    ensures |blocks| == |pieces|
    ensures forall i :: 0 <= i < |pieces| ==> blocks[i] == Stuff(pieces[i])
  {
    seq(|pieces|, i requires 0 <= i < |pieces| => Stuff(pieces[i]))
  }

  lemma StuffEachSnoc(pieces: seq<seq<byte>>, p: seq<byte>)
    ensures StuffEach(pieces + [p]) == StuffEach(pieces) + [Stuff(p)]
  {
  }

  lemma StuffTakenIn(sent: seq<seq<byte>>, b: Buffered, c: byte)
    ensures sent + StuffEach(b.done) + (if IsFull(b) then [Stuff(b.pending)] else [])
         == sent + StuffEach(TakeIn(b, c).done)
  {
    StuffEachSnoc(b.done, b.pending);
  }

  lemma {:induction false} FlattenStuff(pieces: seq<seq<byte>>)
    ensures Flatten(StuffEach(pieces)) == Stuff(Flatten(pieces))
    decreases |pieces|
  {
    if pieces != [] {
      var front, last := pieces[..|pieces| - 1], pieces[|pieces| - 1];
      FlattenStuff(front);
      LastApart(pieces);
      StuffEachSnoc(front, last);
      FlattenSnoc(StuffEach(front), Stuff(last));
      StuffAppend(Flatten(front), last);
    }
  }

  /** Fits a block: something to send, and room for it in the buffer with one byte to spare. */
  predicate Fits(piece: seq<byte>) {
    piece != [] && 0 < |Stuff(piece)| <= 255
  }

  lemma AddByte(piece: seq<byte>, c: byte)
    requires |Stuff(piece)| < BUF_SIZE - 2
    ensures Fits(piece + [c])
  {
    StuffSnoc(piece, c);
  }

  /** Nothing is lost or reordered, and every piece fits a block. */
  predicate Keeps(b: Buffered, data: seq<byte>) {
    && Flatten(b.done) + b.pending == data
    && (forall i :: 0 <= i < |b.done| ==> Fits(b.done[i]))
    && (if data == [] then b.pending == [] else Fits(b.pending))
  }

  lemma TakeInKeeps(b: Buffered, front: seq<byte>, c: byte, data: seq<byte>)
    requires Keeps(b, front) && data == front + [c]
    ensures Keeps(TakeIn(b, c), data)
  {
    if IsFull(b) {
      FlattenSnoc(b.done, b.pending);
      AddByte([], c);
      assert [] + [c] == [c];
      StuffNothing(b.pending);
    } else {
      AddByte(b.pending, c);
      Assoc(Flatten(b.done), b.pending, [c]);
    }
  }

  lemma StuffNothing(p: seq<byte>)
    ensures Stuff(p) == [] <==> p == []
  {
    if p != [] {
      assert |Stuff(p)| > 0;
    }
  }

  lemma {:induction false} BufferingKeepsAll(data: seq<byte>)
    ensures Keeps(Buffering(data), data)
    decreases |data|
  {
    if data != [] {
      var front, c := data[..|data| - 1], data[|data| - 1];
      BufferingKeepsAll(front);
      LastApart(data);
      TakeInKeeps(Buffering(front), front, c, data);
    }
  }

  lemma PiecesKeepAll(data: seq<byte>)
    ensures Flatten(Pieces(data)) == data
    ensures forall i :: 0 <= i < |Pieces(data)| ==> Fits(Pieces(data)[i])
  {
    BufferingKeepsAll(data);
    var b := Buffering(data);
    if b.pending == [] {
      assert Flatten(b.done) + [] == Flatten(b.done);
    } else {
      FlattenSnoc(b.done, b.pending);
    }
  }

  /** Buffering is transparent: the blocks, one after the other, are the stuffed data; each holds at most 255 bytes
      and is the stuffed form of a piece of the data, so no doubled 255 is split. */
  lemma {:induction false} BlocksAreStuffedData(data: seq<byte>)
    ensures Flatten(Pieces(data)) == data && Flatten(StuffEach(Pieces(data))) == Stuff(data)
    ensures forall i :: 0 <= i < |Pieces(data)| ==>
              Fits(Pieces(data)[i]) && StuffEach(Pieces(data))[i] == Stuff(Pieces(data)[i])
  {
    PiecesKeepAll(data);
    FlattenStuff(Pieces(data));
  }

  lemma FlattenPrefix<T>(all: seq<seq<T>>, n: nat)
    ensures Flatten(Take(n, all)) <= Flatten(all)
  {
    var part := Take(n, all);
    assert all == part + all[|part|..];
    FlattenAppend(part, all[|part|..]);
  }

  /** If the socket fails after some blocks, what went out is still the stuffed form of a prefix of the data. */
  lemma FailedWriteSendsPrefix(data: seq<byte>, accepted: nat)
    ensures Flatten(Take(accepted, Pieces(data))) <= data
    ensures Flatten(StuffEach(Take(accepted, Pieces(data)))) == Stuff(Flatten(Take(accepted, Pieces(data))))
  {
    PiecesKeepAll(data);
    FlattenPrefix(Pieces(data), accepted);
    FlattenStuff(Take(accepted, Pieces(data)));
  }

  /** What is flushed early is flushed for good: sent pieces stay a prefix of all pieces. */
  lemma {:induction false} DoneGrows(data: seq<byte>, i: nat)
    requires i <= |data|
    ensures Buffering(data[..i]).done <= Buffering(data).done
    decreases |data|
  {
    if i == |data| {
      assert data[..i] == data;
    } else {
      var front := data[..|data| - 1];
      assert front[..i] == data[..i];
      DoneGrows(front, i);
    }
  }

  lemma BufferingNext(data: seq<byte>, i: nat)
    requires i < |data|
    ensures Buffering(data[..i + 1]) == TakeIn(Buffering(data[..i]), data[i])
  {
    assert data[..i + 1][..i] == data[..i];
  }

  /** A flush that the socket refuses: exactly the pieces before it have been sent. */
  lemma FlushRefused(data: seq<byte>, i: nat, accepted: nat)
    requires i < |data| && IsFull(Buffering(data[..i])) && |Buffering(data[..i]).done| == accepted
    ensures |Pieces(data)| > accepted && Take(accepted, Pieces(data)) == Buffering(data[..i]).done
  {
    var b := Buffering(data[..i]);
    BufferingNext(data, i);
    DoneGrows(data, i + 1);
    assert b.done + [b.pending] <= Buffering(data).done <= Pieces(data);
    assert (b.done + [b.pending])[..accepted] == b.done;
  }

  /** What remains to be sent after the loop: the partial block, if there is one and the socket still accepts. */
  lemma FinalBlocks(data: seq<byte>, accepted: nat)
    requires |Buffering(data).done| <= accepted
    ensures var b := Buffering(data);
            && (Stuff(b.pending) == [] <==> b.pending == [])
            && (|Pieces(data)| <= accepted <==> b.pending == [] || |b.done| < accepted)
            && StuffEach(Take(accepted, Pieces(data)))
               == StuffEach(b.done) + if b.pending != [] && |b.done| < accepted then [Stuff(b.pending)] else []
  {
    var b := Buffering(data);
    StuffNothing(b.pending);
    StuffEachSnoc(b.done, b.pending);
    assert Take(accepted, Pieces(data)) == if |b.done| < accepted then Pieces(data) else b.done;
  }
}
