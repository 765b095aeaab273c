/** Cutting one peer's byte stream into frames: `BufferedQueueManager` and `ReadMsgState`.

    The deque of a peer is a sequence of `ReadMsgState` values. What one `parseMessage` call, one
    `addToReadBuffer` call and one drained chunk do to it is said by the functions `Parse`, `Feed`
    and `Deliver`; the classes of `Receiver` are proved against them. */
module Framer {
  import opened Bytes
  import opened Common

  /** A frame under construction. `mLength` is -1 until the length is known. */
  datatype ReadMsgState = ReadMsgState(mLength: int32, buffer: seq<byte>) {
    /** The comparison is unsigned, so a negative length is never reached. */
    predicate IsComplete() {
      0 <= mLength <= |buffer|
    }

    predicate IsInitialized() {
      mLength >= 0
    }

    function GetRemaining(): int32 {
      ToInt32(mLength - |buffer|)
    }

    function Append(data: seq<byte>): ReadMsgState {
      this.(buffer := buffer + data)
    }

    function Initialize(length: u32): ReadMsgState {
      this.(mLength := ToInt32(length))
    }
  }

  const FRESH := ReadMsgState(-1, [])

  /** What is known about a peer: nothing before its first byte; then the complete frames of its deque
      and the one after them, which is incomplete. That one is `FRESH` when the deque has no such
      frame yet: no frame without bytes is ever stored. */
  datatype PeerBuffer = Unknown | Known(done: seq<ReadMsgState>, open: ReadMsgState) {
    predicate WellFormed() {
      Known? ==> !open.IsComplete() && forall m <- done :: m.IsComplete()
    }

    function Done(): seq<ReadMsgState> {
      if Unknown? then [] else done
    }

    function Open(): ReadMsgState {
      if Unknown? then FRESH else open
    }
  }

  /** `back` is the frame at the end of the deque, after the complete frames `done`. */
  function Place(done: seq<ReadMsgState>, back: ReadMsgState): PeerBuffer {
    if back.IsComplete() then Known(done + [back], FRESH) else Known(done, back)
  }

  /** The buffer after one `parseMessage`, how many bytes it took and what it returned. `threw` says
      that `initialize` was given a length that is negative as an `int32_t`: `vector::reserve`
      then throws, and nothing catches. */
  datatype Parsed = Parsed(back: ReadMsgState, taken: nat, complete: bool, threw: bool)

  function Min(a: int, b: int): int {
    if a <= b then a else b
  }

  function Last<T>(s: seq<T>): T
    requires s != []
  {
    s[|s| - 1]
  }

  function ButLast<T>(s: seq<T>): seq<T>
    requires s != []
  {
    s[..|s| - 1]
  }

  /** The unsigned sum `len + 4` of the source. */
  function FrameLength(buffer: seq<byte>): u32
    requires |buffer| >= 4
  {
    (FromBigEndian(buffer[..4]) + 4) % TWO_32
  }

  /** The first byte of a peer gives the length of its handshake. */
  function HandShakeLength(data: seq<byte>): nat
    requires data != []
  {
    var pstrLen: int := data[0];
    49 + pstrLen
  }

  /** First contact. */
  function ParseHandShake(data: seq<byte>): Parsed
    requires data != []
  {
    var bytes := Min(HandShakeLength(data), |data|);
    var m := ReadMsgState(HandShakeLength(data), data[..bytes]);
    Parsed(m, bytes, m.IsComplete(), false)
  }

  /** The length is known: take what is missing of the frame. */
  function ParseBody(q: PeerBuffer, data: seq<byte>): Parsed
    requires q.WellFormed() && q.Known? && q.open.IsInitialized() && data != []
  {
    var bytes := Min(q.open.GetRemaining(), |data|);
    var m := q.open.Append(data[..bytes]);
    Parsed(m, bytes, q.done != [] || m.IsComplete(), false)
  }

  /** The length is not known: line 113 of `BufferedQueueManager.h` takes up to four bytes, however many
      are buffered already. */
  function ParsePrefix(q: PeerBuffer, data: seq<byte>): Parsed
    requires q.Known? && data != []
  {
    var bytes := Min(4, |data|);
    var m := q.open.Append(data[..bytes]);
    if |m.buffer| >= 4 then
      var m' := m.Initialize(FrameLength(m.buffer));
      Parsed(m', bytes, m'.IsComplete(), m'.mLength < 0)
    else
      Parsed(m, bytes, m.IsComplete(), false)
  }

  /** One `parseMessage`. */
  function Parse(q: PeerBuffer, data: seq<byte>): (p: Parsed)
    requires q.WellFormed() && data != []
    ensures 1 <= p.taken <= |data|
    ensures Place(q.Done(), p.back).WellFormed()
  {
    if q.Unknown? then ParseHandShake(data)
    else if q.open.IsInitialized() then ParseBody(q, data)
    else ParsePrefix(q, data)
  }

  function Next(q: PeerBuffer, data: seq<byte>): (q': PeerBuffer)
    requires q.WellFormed() && data != []
    ensures q'.WellFormed() && q'.Known?
  {
    Place(q.Done(), Parse(q, data).back)
  }

  /** The loop of `addToReadBuffer`: the buffer where it ends and what it leaves unread, which is
      nothing unless it threw. */
  datatype Fed = Fed(q: PeerBuffer, rest: seq<byte>, threw: bool)

  function Feed(q: PeerBuffer, data: seq<byte>): (f: Fed)
    requires q.WellFormed()
    ensures f.q.WellFormed() && (data != [] ==> f.q.Known?) && (!f.threw ==> f.rest == [])
    decreases |data|
  {
    if data == [] then Fed(q, [], false)
    else
      var p := Parse(q, data);
      if p.threw then Fed(Next(q, data), data[p.taken..], true)
      else Feed(Next(q, data), data[p.taken..])
  }

  /** The or of the flags of that loop. */
  predicate AnyComplete(q: PeerBuffer, data: seq<byte>)
    requires q.WellFormed()
    decreases |data|
  {
    data != [] &&
    var p := Parse(q, data);
    p.complete || (!p.threw && AnyComplete(Next(q, data), data[p.taken..]))
  }

  function Buffers(frames: seq<ReadMsgState>): seq<seq<byte>> {
    if frames == [] then [] else [frames[0].buffer] + Buffers(frames[1..])
  }

  datatype Delivered = Delivered(q: PeerBuffer, flushed: seq<seq<byte>>, threw: bool)

  /** One chunk: add it to the read buffer; if a message was reported complete, flush the complete
      frames and keep the rest. */
  function Deliver(q: PeerBuffer, chunk: seq<byte>): (d: Delivered)
    requires q.WellFormed()
    ensures d.q.WellFormed()
  {
    var f := Feed(q, chunk);
    if !f.threw && AnyComplete(q, chunk) then Delivered(Known([], f.q.open), Buffers(f.q.done), false)
    else Delivered(f.q, [], f.threw)
  }

  /** The chunk after what was received so far; nothing happens after an exception. */
  function Continue(r: Delivered, chunk: seq<byte>): (r': Delivered)
    requires r.q.WellFormed()
    ensures r'.q.WellFormed()
  {
    if r.threw then r
    else
      var d := Deliver(r.q, chunk);
      Delivered(d.q, r.flushed + d.flushed, d.threw)
  }

  /** All chunks of a connection, in order, when the deque of the peer is `q` at its beginning. */
  function Resume(q: PeerBuffer, chunks: seq<seq<byte>>): (r: Delivered)
    requires q.WellFormed()
    ensures r.q.WellFormed()
  {
    if chunks == [] then Delivered(q, [], false) else Continue(Resume(q, ButLast(chunks)), Last(chunks))
  }

  /** The chunks of a peer never seen before. */
  function Run(chunks: seq<seq<byte>>): (r: Delivered)
    ensures r.q.WellFormed()
  {
    Resume(Unknown, chunks)
  }

  function Concat(ss: seq<seq<byte>>): seq<byte> {
    if ss == [] then [] else ss[0] + Concat(ss[1..])
  }

  lemma {:induction false} ConcatAppend(a: seq<seq<byte>>, b: seq<seq<byte>>)
    ensures Concat(a + b) == Concat(a) + Concat(b)
  {
    if a == [] {
      assert a + b == b;
    } else {
      ConcatAppend(a[1..], b);
      assert (a + b)[1..] == a[1..] + b;
      assert a[0] + (Concat(a[1..]) + Concat(b)) == a[0] + Concat(a[1..]) + Concat(b);
    }
  }

  lemma ConcatSnoc(a: seq<seq<byte>>, x: seq<byte>)
    ensures Concat(a + [x]) == Concat(a) + x
  {
    ConcatAppend(a, [x]);
    assert Concat([x]) == x;
  }

  // ---------------------------------------------------------------- conservation and the invariant

  lemma {:induction false} BuffersSnoc(done: seq<ReadMsgState>, m: ReadMsgState)
    ensures Buffers(done + [m]) == Buffers(done) + [m.buffer]
  {
    if done == [] {
    } else {
      BuffersSnoc(done[1..], m);
      assert (done + [m])[1..] == done[1..] + [m];
    }
  }

  /** Every byte held for a peer, in order. */
  function Held(q: PeerBuffer): seq<byte> {
    Concat(Buffers(q.Done())) + q.Open().buffer
  }

  lemma HeldPlaced(done: seq<ReadMsgState>, back: ReadMsgState)
    ensures Held(Place(done, back)) == Concat(Buffers(done)) + back.buffer
  {
    BuffersSnoc(done, back);
    ConcatSnoc(Buffers(done), back.buffer);
  }

  lemma Regroup(a: seq<byte>, b: seq<byte>, c: seq<byte>, d: seq<byte>)
    ensures (a + b) + (c + d) == (a + (b + c)) + d
  {
  }

  lemma ParseAppends(q: PeerBuffer, data: seq<byte>)
    requires q.WellFormed() && data != []
    ensures var p := Parse(q, data);
            p.back.buffer == q.Open().buffer + data[..p.taken]
            && (p.complete <==> p.back.IsComplete() || (q.Known? && q.open.IsInitialized() && q.done != []))
  {
    hide FromBigEndian;
  }

  lemma StepConserves(q: PeerBuffer, data: seq<byte>)
    requires q.WellFormed() && data != []
    ensures Held(q) + data == Held(Next(q, data)) + data[Parse(q, data).taken..]
    ensures Next(q, data).done != [] <==> q.Done() != [] || Parse(q, data).complete
  {
    var p := Parse(q, data);
    var taken, rest := data[..p.taken], data[p.taken..];
    ParseAppends(q, data);
    hide Parse, Concat, Buffers;
    assert Next(q, data).done != [] <==> q.Done() != [] || p.back.IsComplete();
    HeldPlaced(q.Done(), p.back);
    Regroup(Concat(Buffers(q.Done())), q.Open().buffer, taken, rest);
    assert data == taken + rest;
  }

  /** No byte is lost or duplicated by the loop, on any input whatever; and its flag says whether the
      deque now holds a complete frame that was not there before. */
  lemma {:induction false} FeedConserves(q: PeerBuffer, data: seq<byte>)
    requires q.WellFormed()
    ensures var f := Feed(q, data); Held(q) + data == Held(f.q) + f.rest
    ensures Feed(q, data).q.Done() != [] <==> q.Done() != [] || AnyComplete(q, data)
    decreases |data|
  {
    hide Parse, Held, Next;
    if data == [] {
    } else {
      StepConserves(q, data);
      if !Parse(q, data).threw {
        FeedConserves(Next(q, data), data[Parse(q, data).taken..]);
      }
    }
  }

  /** What a chunk does, whatever its bytes and wherever it was cut: starting with no complete frame,
      the flag of `addToReadBuffer` is true exactly when a complete frame is there afterwards, the
      drain leaves none, and no byte is lost. */
  lemma DeliverInvariant(q: PeerBuffer, chunk: seq<byte>)
    requires q.WellFormed() && q.Done() == []
    ensures AnyComplete(q, chunk) <==> Feed(q, chunk).q.Done() != []
    ensures var d, f := Deliver(q, chunk), Feed(q, chunk);
            !d.threw ==> d.q.Done() == [] && d.q.Open() == f.q.Open() && d.flushed == Buffers(f.q.Done())
                         && Concat(d.flushed) + Held(d.q) == Held(q) + chunk
  {
    hide Feed, AnyComplete;
    FeedConserves(q, chunk);
    var f, d := Feed(q, chunk), Deliver(q, chunk);
    hide Buffers, Concat;
    EmptyConcat();
    if !d.threw {
      assert Held(d.q) == [] + f.q.Open().buffer == f.q.Open().buffer;
      assert !AnyComplete(q, chunk) ==> Concat(d.flushed) == [] && [] + Held(d.q) == Held(d.q);
    }
  }

  lemma EmptyConcat()
    ensures Buffers([]) == [] && Concat([]) == [] && Held(Unknown) == []
  {
  }

  /** For every chunking: all flushed frames followed by the residue are all the bytes received, after those
      that were held. */
  lemma {:induction false} ResumeConserves(q: PeerBuffer, chunks: seq<seq<byte>>)
    requires q.WellFormed() && q.Done() == []
    ensures var r := Resume(q, chunks);
            !r.threw ==> r.q.Done() == [] && Concat(r.flushed) + Held(r.q) == Held(q) + Concat(chunks)
  {
    hide Deliver, Held, Concat;
    EmptyConcat();
    if chunks == [] {
    } else {
      var r := Resume(q, ButLast(chunks));
      ResumeConserves(q, ButLast(chunks));
      if !r.threw {
        var x := Last(chunks);
        var d := Deliver(r.q, x);
        assert ButLast(chunks) + [x] == chunks;
        ConcatSnoc(ButLast(chunks), x);
        DeliverInvariant(r.q, x);
        ConcatAppend(r.flushed, d.flushed);
        Assoc(Concat(r.flushed), Concat(d.flushed), Held(d.q));
        Assoc(Concat(r.flushed), Held(r.q), x);
        Assoc(Held(q), Concat(ButLast(chunks)), x);
      }
    }
  }

  /** For a peer never seen before that is every byte that it sent. */
  lemma RunConserves(chunks: seq<seq<byte>>)
    ensures var r := Run(chunks);
            !r.threw ==> r.q.Done() == [] && Concat(r.flushed) + Held(r.q) == Concat(chunks)
  {
    hide Resume, Held, Concat;
    EmptyConcat();
    ResumeConserves(Unknown, chunks);
    assert [] + Concat(chunks) == Concat(chunks);
  }
}
