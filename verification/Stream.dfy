/** When cutting a stream into chunks is harmless: the framer gives back exactly the frames that were
    sent if and only if no chunk boundary makes line 113 of `BufferedQueueManager.h` read past the
    end of a short frame. */
module Stream {
  import opened Bytes
  import opened Common
  import opened Framer

  /** The first frame is a handshake of 49 + n bytes, n being its first byte. Each of the others
      carries its length in its first four bytes, and fits an `int32_t`. */
  predicate GoodFrame(first: bool, f: seq<byte>) {
    if first then f != [] && |f| == HandShakeLength(f)
    else |f| >= 4 && |f| == FromBigEndian(f[..4]) + 4 && |f| < 0x8000_0000
  }

  predicate GoodFrames(first: bool, fs: seq<seq<byte>>) {
    fs != [] ==> GoodFrame(first, fs[0]) && GoodFrames(false, fs[1..])
  }

  /** How the first bytes `r` of a frame are stored. */
  function Stored(first: bool, r: seq<byte>): ReadMsgState {
    if r == [] then FRESH
    else if first then ReadMsgState(HandShakeLength(r), r)
    else if |r| < 4 then ReadMsgState(-1, r)
    else ReadMsgState(ToInt32(FrameLength(r)), r)
  }

  /** How the first `n` frames are stored. */
  function StoredAll(first: bool, fs: seq<seq<byte>>, n: nat): seq<ReadMsgState>
    requires n <= |fs|
  {
    if n == 0 then [] else [Stored(first, fs[0])] + StoredAll(false, fs[1..], n - 1)
  }

  /** The buffer of a peer that has sent the complete frames `done` and then `r`. */
  function State(first: bool, done: seq<ReadMsgState>, r: seq<byte>): PeerBuffer {
    if first && r == [] then Unknown else Known(done, Stored(first, r))
  }

  /** The number of whole frames in `bytes`, and what comes after them. */
  function Count(fs: seq<seq<byte>>, bytes: seq<byte>): (n: nat)
    ensures n <= |fs|
  {
    if fs == [] || |bytes| < |fs[0]| then 0 else 1 + Count(fs[1..], bytes[|fs[0]|..])
  }

  function Rest(fs: seq<seq<byte>>, bytes: seq<byte>): seq<byte> {
    if fs == [] || |bytes| < |fs[0]| then bytes else Rest(fs[1..], bytes[|fs[0]|..])
  }

  /** `r` are the bytes held of frame `f`, `data` those to come: with part of a prefix held, the four
      bytes or fewer that line 113 takes must not go past the frame. */
  predicate NoOverrun(first: bool, f: seq<byte>, r: seq<byte>, data: seq<byte>) {
    !first && 0 < |r| < 4 <= |r| + |data| ==> |r| + Min(4, |data|) <= |f|
  }

  lemma SplitPrefix(a: seq<byte>, b: seq<byte>, bytes: seq<byte>)
    requires bytes <= a + b
    ensures |bytes| < |a| ==> bytes <= a
    ensures |bytes| >= |a| ==> a <= bytes && bytes[|a|..] <= b
  {
    if |bytes| < |a| {
      assert bytes == (a + b)[..|bytes|] == a[..|bytes|];
    } else {
      assert bytes == (a + b)[..|bytes|] == a + b[..|bytes| - |a|];
    }
  }

  lemma StoredLength(first: bool, f: seq<byte>, r: seq<byte>)
    requires GoodFrame(first, f) && r != [] && r <= f
    ensures var m := Stored(first, r);
            m.buffer == r && (m.IsInitialized() <==> first || |r| >= 4)
            && (m.IsInitialized() ==> m.mLength == |f|)
            && (m.IsComplete() <==> r == f)
  {
    hide FromBigEndian;
    if !first && |r| >= 4 {
      assert r[..4] == f[..4];
    }
  }

  /** One `parseMessage` on a frame in progress: it takes bytes of that frame only. */
  lemma ParseWithin(first: bool, done: seq<ReadMsgState>, f: seq<byte>, r: seq<byte>, data: seq<byte>)
    requires GoodFrame(first, f) && r < f && data != [] && (first ==> done == [])
    requires State(first, done, r).WellFormed()
    requires r + data <= f || f <= r + data
    requires NoOverrun(first, f, r, data)
    ensures var p := Parse(State(first, done, r), data);
            var r' := r + data[..p.taken];
            !p.threw && r' <= f && p.back == Stored(first, r') && (p.taken == |data| || |r'| >= 4)
  {
    hide FromBigEndian;
    var p := Parse(State(first, done, r), data);
    var r' := r + data[..p.taken];
    if r != [] {
      StoredLength(first, f, r);
    }
    assert forall i :: 0 <= i < |r'| && i < |f| ==> r'[i] == f[i] by {
      assert forall i :: 0 <= i < |r'| ==> r'[i] == (r + data)[i];
    }
    assert |r'| <= |f|;
    assert r' <= f;
    StoredLength(first, f, r');
  }

  lemma CountNext(fs: seq<seq<byte>>, tail: seq<byte>)
    requires fs != []
    ensures Count(fs, fs[0] + tail) == 1 + Count(fs[1..], tail)
    ensures Rest(fs, fs[0] + tail) == Rest(fs[1..], tail)
  {
    assert (fs[0] + tail)[|fs[0]|..] == tail;
  }

  /** The state after that call. */
  lemma NextState(first: bool, done: seq<ReadMsgState>, f: seq<byte>, r: seq<byte>, data: seq<byte>)
    requires GoodFrame(first, f) && r < f && data != [] && (first ==> done == [])
    requires State(first, done, r).WellFormed()
    requires r + data <= f || f <= r + data
    requires NoOverrun(first, f, r, data)
    ensures var q := State(first, done, r);
            var taken, rest := data[..Parse(q, data).taken], data[Parse(q, data).taken..];
            var r' := r + taken;
            !Parse(q, data).threw && r' <= f && r + data == r' + rest && |rest| < |data|
            && (rest == [] || first || |r'| >= 4)
            && Next(q, data) == if r' == f then State(false, done + [Stored(first, f)], []) else State(first, done, r')
  {
    var q := State(first, done, r);
    ParseWithin(first, done, f, r, data);
    var p := Parse(q, data);
    var taken, rest := data[..p.taken], data[p.taken..];
    assert data == taken + rest;
    Assoc(r, taken, rest);
    hide Parse, FrameLength;
    StoredLength(first, f, r + taken);
  }

  /** The whole read loop on consistent bytes: every frame that ends in them becomes complete. */
  lemma {:induction false} FeedFrames(first: bool, done: seq<ReadMsgState>, fs: seq<seq<byte>>,
                                      r: seq<byte>, data: seq<byte>)
    requires GoodFrames(first, fs) && r + data <= Concat(fs)
    requires if fs == [] then r == [] else r < fs[0] && NoOverrun(first, fs[0], r, data)
    requires (first ==> done == []) && State(first, done, r).WellFormed()
    ensures var n := Count(fs, r + data);
            Feed(State(first, done, r), data)
            == Fed(State(first && n == 0, done + StoredAll(first, fs, n), Rest(fs, r + data)), [], false)
    decreases |data|, 0
  {
    hide Parse, FrameLength, Next, Stored;
    var n, q := Count(fs, r + data), State(first, done, r);
    if data == [] {
      assert r + data == r && done + StoredAll(first, fs, 0) == done;
    } else {
      hide State;
      SplitPrefix(fs[0], Concat(fs[1..]), r + data);
      NextState(first, done, fs[0], r, data);
      var taken, rest := data[..Parse(q, data).taken], data[Parse(q, data).taken..];
      assert Feed(q, data) == Feed(Next(q, data), rest);
      if r + taken == fs[0] {
        FinishFrame(first, done, fs, rest);
      } else {
        FeedFrames(first, done, fs, r + taken, rest);
      }
    }
  }

  lemma FinishFrame(first: bool, done: seq<ReadMsgState>, fs: seq<seq<byte>>, rest: seq<byte>)
    requires fs != [] && GoodFrames(first, fs) && fs[0] + rest <= Concat(fs)
    requires State(false, done + [Stored(first, fs[0])], []).WellFormed()
    ensures var n := Count(fs, fs[0] + rest);
            Feed(State(false, done + [Stored(first, fs[0])], []), rest)
            == Fed(State(first && n == 0, done + StoredAll(first, fs, n), Rest(fs, fs[0] + rest)), [], false)
    decreases |rest|, 1
  {
    hide Parse, FrameLength, Next, Stored, Feed, Rest;
    SplitPrefix(fs[0], Concat(fs[1..]), fs[0] + rest);
    CountNext(fs, rest);
    assert (fs[0] + rest)[|fs[0]|..] == rest;
    var done' := done + [Stored(first, fs[0])];
    assert [] + rest == rest;
    FeedFrames(false, done', fs[1..], [], rest);
    var n' := Count(fs[1..], rest);
    assert done' + StoredAll(false, fs[1..], n') == done + ([Stored(first, fs[0])] + StoredAll(false, fs[1..], n'));
  }

  lemma {:induction false} StoredBuffers(first: bool, fs: seq<seq<byte>>, n: nat)
    requires n <= |fs| && GoodFrames(first, fs)
    ensures Buffers(StoredAll(first, fs, n)) == fs[..n]
  {
    hide FrameLength;
    if n == 0 {
    } else {
      StoredBuffers(false, fs[1..], n - 1);
      assert fs[..n] == [fs[0]] + fs[1..][..n - 1];
    }
  }

  lemma {:induction false} GoodTail(first: bool, fs: seq<seq<byte>>, n: nat)
    requires n <= |fs| && GoodFrames(first, fs)
    ensures GoodFrames(first && n == 0, fs[n..])
  {
    if n == 0 {
    } else {
      GoodTail(false, fs[1..], n - 1);
      assert fs[1..][n - 1..] == fs[n..];
    }
  }

  /** The bytes of a stream prefix are the frames it completes and the rest. */
  lemma {:induction false} CountRest(fs: seq<seq<byte>>, bytes: seq<byte>)
    requires bytes <= Concat(fs)
    ensures var n, r := Count(fs, bytes), Rest(fs, bytes);
            bytes == Concat(fs[..n]) + r && if n == |fs| then r == [] else r < fs[n]
  {
    if fs == [] {
    } else if |bytes| < |fs[0]| {
      SplitPrefix(fs[0], Concat(fs[1..]), bytes);
      assert Concat(fs[..0]) + bytes == bytes;
    } else {
      SplitPrefix(fs[0], Concat(fs[1..]), bytes);
      var tail := bytes[|fs[0]|..];
      CountRest(fs[1..], tail);
      var n := Count(fs[1..], tail);
      assert fs[..n + 1][1..] == fs[1..][..n];
      assert Concat(fs[..n + 1]) == fs[0] + Concat(fs[1..][..n]);
      hide Concat;
      Assoc(fs[0], Concat(fs[1..][..n]), Rest(fs[1..], tail));
      assert bytes == fs[0] + tail;
    }
  }

  lemma {:induction false} CountAfter(fs: seq<seq<byte>>, n: nat, tail: seq<byte>)
    requires n <= |fs|
    ensures Count(fs, Concat(fs[..n]) + tail) == n + Count(fs[n..], tail)
    ensures Rest(fs, Concat(fs[..n]) + tail) == Rest(fs[n..], tail)
  {
    if n == 0 {
      assert Concat(fs[..0]) + tail == tail && fs[0..] == fs;
    } else {
      CountAfter(fs[1..], n - 1, tail);
      assert fs[..n] == [fs[0]] + fs[1..][..n - 1] && fs[1..][n - 1..] == fs[n..];
      assert fs[..n][1..] == fs[1..][..n - 1];
      Assoc(fs[0], Concat(fs[1..][..n - 1]), tail);
      CountNext(fs, Concat(fs[1..][..n - 1]) + tail);
    }
  }

  /** Where frame `j` starts in the stream, and where the first `i` chunks end. */
  function Position(parts: seq<seq<byte>>, n: nat): nat
    requires n <= |parts|
  {
    |Concat(parts[..n])|
  }

  /** A frame that starts at `start`, seen by a receiver whose chunks end at `c` and then at `d`: when
      `c` falls inside the four prefix bytes and `d` behind them, line 113 reads up to `c + 4` or `d`,
      whichever comes first, and that must not be beyond the frame. */
  predicate CutHarmless(start: nat, size: nat, c: nat, d: nat) {
    start < c < start + 4 <= d ==> Min(c + 4, d) <= start + size
  }

  /** Every frame but the handshake against every two consecutive chunk ends. */
  predicate SplitSafe(fs: seq<seq<byte>>, chunks: seq<seq<byte>>) {
    forall j, i :: 1 <= j < |fs| && 0 <= i < |chunks| ==>
      CutHarmless(Position(fs, j), |fs[j]|, Position(chunks, i), Position(chunks, i + 1))
  }

  /** A frame of seven bytes or more, that is a length field of three or more, is never at risk. */
  lemma LongFramesAreSafe(fs: seq<seq<byte>>, chunks: seq<seq<byte>>)
    requires forall j :: 1 <= j < |fs| ==> |fs[j]| >= 7
    ensures SplitSafe(fs, chunks)
  {
  }

  lemma SafePrefix(fs: seq<seq<byte>>, chunks: seq<seq<byte>>)
    requires chunks != []
    ensures Position(chunks, |chunks| - 1) == |Concat(ButLast(chunks))|
    ensures Position(chunks, |chunks|) == |Concat(chunks)|
    ensures SplitSafe(fs, chunks) <==>
              SplitSafe(fs, ButLast(chunks))
              && forall j :: 1 <= j < |fs| ==>
                   CutHarmless(Position(fs, j), |fs[j]|, |Concat(ButLast(chunks))|, |Concat(chunks)|)
  {
    hide CutHarmless, Concat;
    var front := ButLast(chunks);
    assert chunks[..|chunks|] == chunks;
    forall i | 0 <= i <= |front|
      ensures Position(front, i) == Position(chunks, i)
    {
      assert front[..i] == chunks[..i];
    }
  }

  /** One chunk delivered to a receiver that holds the part `r` of the next frame. */
  lemma DeliverFrames(first: bool, fs: seq<seq<byte>>, r: seq<byte>, chunk: seq<byte>)
    requires GoodFrames(first, fs) && r + chunk <= Concat(fs)
    requires if fs == [] then r == [] else r < fs[0] && NoOverrun(first, fs[0], r, chunk)
    ensures State(first, [], r).WellFormed()
    ensures var n := Count(fs, r + chunk);
            Deliver(State(first, [], r), chunk)
            == Delivered(State(first && n == 0, [], Rest(fs, r + chunk)), fs[..n], false)
  {
    hide FrameLength, Count, Rest, Concat;
    if r != [] {
      StoredLength(first, fs[0], r);
    }
    var q, n := State(first, [], r), Count(fs, r + chunk);
    FeedFrames(first, [], fs, r, chunk);
    var done := StoredAll(first, fs, n);
    assert [] + done == done;
    FeedConserves(q, chunk);
    StoredBuffers(first, fs, n);
    hide Feed, AnyComplete;
    assert AnyComplete(q, chunk) <==> n > 0;
  }

  /** The overrun condition of the receiver is the condition on the cut. */
  lemma OverrunIsCut(fs: seq<seq<byte>>, front: seq<byte>, chunk: seq<byte>)
    requires front <= Concat(fs)
    ensures var n, r := Count(fs, front), Rest(fs, front);
            n < |fs| ==> (NoOverrun(n == 0, fs[n], r, chunk)
                          <==> n == 0 || CutHarmless(Position(fs, n), |fs[n]|, |front|, |front| + |chunk|))
  {
    hide Concat, Count, Rest;
    CountRest(fs, front);
  }

  /** The receiver between chunks, after the first `bytes` of the stream. */
  function StateAt(first: bool, fs: seq<seq<byte>>, bytes: seq<byte>): PeerBuffer {
    State(first && Count(fs, bytes) == 0, [], Rest(fs, bytes))
  }

  /** The deque at the beginning of a peer's first connection, or of a later one after all was drained. */
  function Begin(first: bool): (q: PeerBuffer)
    ensures q.WellFormed()
  {
    if first then Unknown else Known([], FRESH)
  }

  /** A connection begins with the handshake of a peer never seen before, or with any frame that is long
      enough not to be at risk. */
  predicate GoodStream(first: bool, fs: seq<seq<byte>>) {
    GoodFrames(first, fs) && (!first && fs != [] ==> |fs[0]| >= 7)
  }

  lemma FirstFrameIsSafe(first: bool, fs: seq<seq<byte>>, r: seq<byte>, chunk: seq<byte>)
    requires GoodStream(first, fs) && fs != []
    ensures NoOverrun(first, fs[0], r, chunk)
  {
  }

  lemma NextChunk(first: bool, fs: seq<seq<byte>>, front: seq<byte>, chunk: seq<byte>)
    requires GoodStream(first, fs) && front + chunk <= Concat(fs)
    requires var n := Count(fs, front); 0 < n < |fs| ==>
               CutHarmless(Position(fs, n), |fs[n]|, |front|, |front| + |chunk|)
    ensures StateAt(first, fs, front).WellFormed()
    ensures Count(fs, front) <= Count(fs, front + chunk)
    ensures Deliver(StateAt(first, fs, front), chunk)
         == Delivered(StateAt(first, fs, front + chunk), fs[Count(fs, front)..Count(fs, front + chunk)], false)
  {
    hide Concat, Count, Rest, Deliver, State, CutHarmless, NoOverrun;
    var n, r := Count(fs, front), Rest(fs, front);
    assert front <= Concat(fs) by {
      assert front == (front + chunk)[..|front|];
    }
    CountRest(fs, front);
    GoodTail(first, fs, n);
    if n == 0 {
      assert fs != [] ==> NoOverrun(first, fs[0], r, chunk) by {
        if fs != [] {
          FirstFrameIsSafe(first, fs, r, chunk);
        }
      }
    } else if n < |fs| {
      OverrunIsCut(fs, front, chunk);
    }
    RemainingStream(fs, n, r, chunk);
    DeliverFrames(first && n == 0, fs[n..], r, chunk);
    CountAfter(fs, n, r + chunk);
    Assoc(Concat(fs[..n]), r, chunk);
    var n' := Count(fs[n..], r + chunk);
    assert fs[n..][..n'] == fs[n..n + n'];
  }

  /** Safety: after any safely cut prefix of the stream, exactly the frames that are whole have been
      flushed, and exactly the rest is held. */
  lemma {:induction false} RunFrames(first: bool, fs: seq<seq<byte>>, chunks: seq<seq<byte>>)
    requires GoodStream(first, fs) && Concat(chunks) <= Concat(fs) && SplitSafe(fs, chunks)
    ensures Resume(Begin(first), chunks)
         == Delivered(StateAt(first, fs, Concat(chunks)), fs[..Count(fs, Concat(chunks))], false)
  {
    if chunks == [] {
      NothingReceived(first, fs);
    } else {
      hide Concat, Count, Rest, Deliver, StateAt, CutHarmless, SplitSafe, GoodStream, Position, State;
      var front, chunk := Concat(ButLast(chunks)), Last(chunks);
      SafeNow(fs, chunks, Count(fs, front));
      RunFrames(first, fs, ButLast(chunks));
      hide Resume;
      RunOneMore(first, fs, chunks);
    }
  }

  lemma RunOneMore(first: bool, fs: seq<seq<byte>>, chunks: seq<seq<byte>>)
    requires GoodStream(first, fs) && chunks != []
    requires var front, chunk := Concat(ButLast(chunks)), Last(chunks);
             && Concat(chunks) == front + chunk <= Concat(fs)
             && Resume(Begin(first), ButLast(chunks))
                == Delivered(StateAt(first, fs, front), fs[..Count(fs, front)], false)
             && (var n := Count(fs, front);
                 0 < n < |fs| ==> CutHarmless(Position(fs, n), |fs[n]|, |front|, |front| + |chunk|))
    ensures Resume(Begin(first), chunks)
         == Delivered(StateAt(first, fs, Concat(chunks)), fs[..Count(fs, Concat(chunks))], false)
  {
    hide Concat, Count, Rest, Deliver, StateAt, CutHarmless, GoodStream, Position, State;
    var front, chunk := Concat(ButLast(chunks)), Last(chunks);
    var q := Begin(first);
    assert Resume(q, chunks) == Continue(Resume(q, ButLast(chunks)), chunk);
    hide Resume;
    NextChunk(first, fs, front, chunk);
    Slices(fs, Count(fs, front), Count(fs, front + chunk));
  }

  lemma Slices(fs: seq<seq<byte>>, n: nat, n': nat)
    requires n <= n' <= |fs|
    ensures fs[..n] + fs[n..n'] == fs[..n']
  {
  }

  lemma SafeNow(fs: seq<seq<byte>>, chunks: seq<seq<byte>>, n: nat)
    requires chunks != [] && Concat(chunks) <= Concat(fs) && SplitSafe(fs, chunks) && n <= |fs|
    ensures var front, chunk := Concat(ButLast(chunks)), Last(chunks);
            && Concat(chunks) == front + chunk && front <= Concat(fs)
            && SplitSafe(fs, ButLast(chunks))
            && (0 < n < |fs| ==> CutHarmless(Position(fs, n), |fs[n]|, |front|, |front| + |chunk|))
  {
    hide Concat, CutHarmless, SplitSafe, Position;
    var front, chunk := Concat(ButLast(chunks)), Last(chunks);
    assert ButLast(chunks) + [chunk] == chunks;
    ConcatSnoc(ButLast(chunks), chunk);
    assert front == (front + chunk)[..|front|];
    SafePrefix(fs, chunks);
  }

  lemma NothingReceived(first: bool, fs: seq<seq<byte>>)
    requires GoodFrames(first, fs)
    ensures Count(fs, []) == 0 && Rest(fs, []) == [] && State(first, [], []) == Begin(first) && fs[..0] == []
  {
  }

  lemma RemainingStream(fs: seq<seq<byte>>, n: nat, r: seq<byte>, chunk: seq<byte>)
    requires n <= |fs| && (Concat(fs[..n]) + r) + chunk <= Concat(fs)
    ensures r + chunk <= Concat(fs[n..])
  {
    hide Concat;
    assert fs[..n] + fs[n..] == fs;
    ConcatAppend(fs[..n], fs[n..]);
    Assoc(Concat(fs[..n]), r, chunk);
    var bytes := Concat(fs[..n]) + (r + chunk);
    SplitPrefix(Concat(fs[..n]), Concat(fs[n..]), bytes);
    assert bytes[|Concat(fs[..n])|..] == r + chunk;
  }

  /** Some flushed frame is longer than the frame that was sent in its place. */
  predicate Spoiled(flushed: seq<seq<byte>>, fs: seq<seq<byte>>) {
    exists j :: 0 <= j < |flushed| && j < |fs| && |flushed[j]| > |fs[j]|
  }

  lemma {:induction false} FeedKeepsDone(q: PeerBuffer, data: seq<byte>)
    requires q.WellFormed()
    ensures q.Done() <= Feed(q, data).q.Done()
    decreases |data|
  {
    hide Parse;
    if data == [] {
    } else if !Parse(q, data).threw {
      FeedKeepsDone(Next(q, data), data[Parse(q, data).taken..]);
    }
  }

  /** A chunk that violates the condition: the short frame is stored together with bytes that follow it. */
  lemma OverrunSpoils(f: seq<byte>, r: seq<byte>, chunk: seq<byte>)
    requires GoodFrame(false, f) && r < f && !NoOverrun(false, f, r, chunk)
    requires f <= r + chunk
    ensures State(false, [], r).WellFormed()
    ensures var d := Deliver(State(false, [], r), chunk);
            d.threw || (d.flushed != [] && |d.flushed[0]| > |f|)
  {
    hide FromBigEndian;
    StoredLength(false, f, r);
    var q := State(false, [], r);
    var p := Parse(q, chunk);
    assert p.back.buffer == r + chunk[..Min(4, |chunk|)];
    assert p.back.buffer[..4] == f[..4] by {
      assert forall i :: 0 <= i < 4 ==> p.back.buffer[i] == (r + chunk)[i] == f[i];
    }
    assert p.back.mLength == |f| && |p.back.buffer| > |f|;
    assert Next(q, chunk).done == [p.back] by {
      assert [] + [p.back] == [p.back];
    }
    hide Parse, State;
    FeedKeepsDone(Next(q, chunk), chunk[p.taken..]);
    FeedConserves(q, chunk);
    var f' := Feed(q, chunk);
    assert f'.q.Done() != [] && f'.q.Done()[0] == p.back;
  }

  /** Necessity: whatever follows, a cut that is not safe spoils a frame, or stops the receiver. */
  lemma {:induction false} UnsafeSplitSpoils(first: bool, fs: seq<seq<byte>>, chunks: seq<seq<byte>>)
    requires GoodStream(first, fs) && Concat(chunks) <= Concat(fs) && !SplitSafe(fs, chunks)
    ensures var r := Resume(Begin(first), chunks); r.threw || Spoiled(r.flushed, fs)
  {
    hide Concat, Deliver, CutHarmless, Position, State;
    var front, chunk := Concat(ButLast(chunks)), Last(chunks);
    assert ButLast(chunks) + [chunk] == chunks;
    ConcatSnoc(ButLast(chunks), chunk);
    SafePrefix(fs, chunks);
    assert front <= Concat(fs) by {
      assert front == (front + chunk)[..|front|];
    }
    if !SplitSafe(fs, ButLast(chunks)) {
      UnsafeSplitSpoils(first, fs, ButLast(chunks));
      SpoiledStays(Begin(first), fs, chunks);
    } else {
      RunFrames(first, fs, ButLast(chunks));
      UnsafeChunk(first, fs, front, chunk);
      var n, d := Count(fs, front), Deliver(StateAt(first, fs, front), chunk);
      assert !d.threw ==> (fs[..n] + d.flushed)[n] == d.flushed[0];
    }
  }

  lemma FlushedGrows(r: Delivered, chunk: seq<byte>)
    requires r.q.WellFormed()
    ensures var r' := Continue(r, chunk); r.flushed <= r'.flushed && (r.threw ==> r'.threw)
  {
    hide Deliver, PeerBuffer.WellFormed;
  }

  lemma SpoiledGrows(flushed: seq<seq<byte>>, more: seq<seq<byte>>, fs: seq<seq<byte>>)
    requires flushed <= more && Spoiled(flushed, fs)
    ensures Spoiled(more, fs)
  {
    var j :| 0 <= j < |flushed| && j < |fs| && |flushed[j]| > |fs[j]|;
    assert more[j] == flushed[j];
  }

  lemma SpoiledStays(q: PeerBuffer, fs: seq<seq<byte>>, chunks: seq<seq<byte>>)
    requires q.WellFormed() && chunks != []
    requires var r := Resume(q, ButLast(chunks)); r.threw || Spoiled(r.flushed, fs)
    ensures var r := Resume(q, chunks); r.threw || Spoiled(r.flushed, fs)
  {
    var r := Resume(q, ButLast(chunks));
    FlushedGrows(r, Last(chunks));
    assert Resume(q, chunks) == Continue(r, Last(chunks));
    hide Resume, Continue, PeerBuffer.WellFormed, Spoiled;
    if !r.threw {
      SpoiledGrows(r.flushed, Resume(q, chunks).flushed, fs);
    }
  }

  lemma UnsafeChunk(first: bool, fs: seq<seq<byte>>, front: seq<byte>, chunk: seq<byte>)
    requires GoodStream(first, fs) && front + chunk <= Concat(fs)
    requires exists j :: 1 <= j < |fs| && !CutHarmless(Position(fs, j), |fs[j]|, |front|, |front + chunk|)
    ensures StateAt(first, fs, front).WellFormed()
    ensures var n, d := Count(fs, front), Deliver(StateAt(first, fs, front), chunk);
            n < |fs| && (d.threw || (d.flushed != [] && |d.flushed[0]| > |fs[n]|))
  {
    hide Concat, Count, Rest, Deliver, State, FromBigEndian;
    var j :| 1 <= j < |fs| && !CutHarmless(Position(fs, j), |fs[j]|, |front|, |front + chunk|);
    var n, r := Count(fs, front), Rest(fs, front);
    assert front <= Concat(fs) by {
      assert front == (front + chunk)[..|front|];
    }
    CountRest(fs, front);
    GoodTail(first, fs, j);
    CountInside(fs, front, j);
    assert n == j;
    OverrunIsCut(fs, front, chunk);
    RemainingStream(fs, n, r, chunk);
    SplitPrefix(fs[n..][0], Concat(fs[n..][1..]), r + chunk) by {
      assert Concat(fs[n..]) == fs[n..][0] + Concat(fs[n..][1..]) by { ConcatHead(fs[n..]); }
    }
    OverrunSpoils(fs[n], r, chunk);
  }

  lemma ConcatHead(fs: seq<seq<byte>>)
    requires fs != []
    ensures Concat(fs) == fs[0] + Concat(fs[1..])
  {
  }

  /** A stream position strictly inside frame `j` has exactly `j` whole frames before it. */
  lemma CountInside(fs: seq<seq<byte>>, front: seq<byte>, j: nat)
    requires front <= Concat(fs) && j < |fs|
    requires Position(fs, j) <= |front| < Position(fs, j) + |fs[j]|
    ensures Count(fs, front) == j
  {
    hide Concat, Count, Rest;
    var n := Count(fs, front);
    CountRest(fs, front);
    if n < j {
      PositionMonotone(fs, n + 1, j);
      PositionNext(fs, n);
    } else if n > j {
      PositionMonotone(fs, j + 1, n);
      PositionNext(fs, j);
    }
  }

  lemma PositionNext(fs: seq<seq<byte>>, n: nat)
    requires n < |fs|
    ensures Position(fs, n + 1) == Position(fs, n) + |fs[n]|
  {
    assert fs[..n + 1] == fs[..n] + [fs[n]];
    ConcatSnoc(fs[..n], fs[n]);
  }

  lemma {:induction false} PositionMonotone(fs: seq<seq<byte>>, m: nat, n: nat)
    requires m <= n <= |fs|
    ensures Position(fs, m) <= Position(fs, n)
    decreases n - m
  {
    if m == n {
    } else {
      PositionNext(fs, m);
      PositionMonotone(fs, m + 1, n);
    }
  }

  /** The framer gives back the frames that were sent, and nothing else, exactly when the stream was
      cut safely: on a first connection, and on a later one that begins with a frame of its own kind. */
  lemma FramesRoundTrip(first: bool, fs: seq<seq<byte>>, chunks: seq<seq<byte>>)
    requires fs != [] && GoodStream(first, fs) && Concat(chunks) == Concat(fs)
    ensures var r := Resume(Begin(first), chunks);
            && (r == Delivered(Known([], FRESH), fs, false) <==> SplitSafe(fs, chunks))
            && (!SplitSafe(fs, chunks) ==> r.threw || Spoiled(r.flushed, fs))
  {
    hide Resume, FromBigEndian, CutHarmless, GoodStream;
    if SplitSafe(fs, chunks) {
      RunFrames(first, fs, chunks);
      CountAll(fs);
      assert fs[..|fs|] == fs;
    } else {
      UnsafeSplitSpoils(first, fs, chunks);
    }
  }

  lemma CountAll(fs: seq<seq<byte>>)
    ensures Count(fs, Concat(fs)) == |fs| && Rest(fs, Concat(fs)) == []
  {
    hide Count, Rest;
    assert fs[..|fs|] == fs && Concat(fs) + [] == Concat(fs);
    CountAfter(fs, |fs|, []);
    assert Count(fs[|fs|..], []) == 0 && Rest(fs[|fs|..], []) == [] by { NoFrames(); }
  }

  lemma NoFrames()
    ensures Count([], []) == 0 && Rest([], []) == []
  {
  }
}
