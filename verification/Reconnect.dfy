/** Later connections of a peer. `mReadBuffers` is kept for good and its keys compare by peer, while the
    service forgets with every connection that the peer has shaken hands. */
module Reconnect {
  import opened Bytes
  import opened Codec
  import opened Framer
  import opened Stream
  import opened Wire

  /** Several connections of one peer, one after the other: what each led to, and the deque at the end. */
  datatype History = History(q: PeerBuffer, events: seq<seq<PeerEvent>>, threw: bool)

  function Connections(sessions: seq<seq<seq<byte>>>): (h: History)
    ensures h.q.WellFormed()
  {
    if sessions == [] then History(Unknown, [], false)
    else
      var h := Connections(sessions[..|sessions| - 1]);
      if h.threw then h
      else
        var r := Resume(h.q, sessions[|sessions| - 1]);
        History(r.q, h.events + [Events(true, r.flushed)], r.threw)
  }

  // ------------------------------------------------------------------ no undefined behaviour

  /** A frame that the handshake decoder does not read past its end. */
  predicate SafeFrame(f: seq<byte>) {
    !DecodeHandShake(f).PastEnd?
  }

  predicate SafeOpen(m: ReadMsgState) {
    if m.mLength < 0 then |m.buffer| < 4 else 49 <= m.mLength || (|m.buffer| >= 4 && m.buffer[0] < 0x80)
  }

  predicate SafeQueue(q: PeerBuffer) {
    q.Known? ==> SafeOpen(q.open) && forall m <- q.done :: SafeFrame(m.buffer)
  }

  lemma Digits(b: seq<byte>)
    requires |b| == 4
    ensures var x: int, y: int, z: int, w: int := b[0], b[1], b[2], b[3];
            FromBigEndian(b) == 0x100_0000 * x + 0x1_0000 * y + 0x100 * z + w
  {
    var x: int, y: int, z: int, w: int := b[0], b[1], b[2], b[3];
    assert b[..3][..2] == b[..2] && b[..2][..1] == b[..1] && b[..1][..0] == [];
    assert FromBigEndian(b[..1]) == x;
    assert FromBigEndian(b[..2]) == 0x100 * x + y;
    assert FromBigEndian(b[..3]) == 0x1_0000 * x + 0x100 * y + z;
  }

  lemma CompleteIsSafe(m: ReadMsgState)
    requires m.IsComplete()
    requires 49 <= m.mLength || (|m.buffer| >= 4 && m.buffer[0] < 0x80)
             || (4 <= |m.buffer| < 8 && m.buffer[0] == 0xFF)
    ensures SafeFrame(m.buffer)
  {
  }

  /** A length that is not negative in 32 bits begins with a low byte, or wrapped around to almost nothing. */
  lemma LengthIsSafe(buffer: seq<byte>)
    requires |buffer| >= 4 && ToInt32(FrameLength(buffer)) >= 0
    ensures buffer[0] < 0x80 || (buffer[0] == 0xFF && ToInt32(FrameLength(buffer)) < 4)
  {
    Digits(buffer[..4]);
    hide FromBigEndian;
  }

  lemma ParseSafe(q: PeerBuffer, data: seq<byte>)
    requires q.WellFormed() && SafeQueue(q) && data != [] && !Parse(q, data).threw
    ensures SafeQueue(Next(q, data))
  {
    var back := Parse(q, data).back;
    hide SafeFrame, FrameLength;
    if q.Known? && !q.open.IsInitialized() && |back.buffer| >= 4 {
      LengthIsSafe(back.buffer);
    }
    if back.IsComplete() {
      CompleteIsSafe(back);
    }
  }

  lemma {:induction false} FeedSafe(q: PeerBuffer, data: seq<byte>)
    requires q.WellFormed() && SafeQueue(q)
    ensures !Feed(q, data).threw ==> SafeQueue(Feed(q, data).q)
    decreases |data|
  {
    hide Parse, Next, SafeQueue;
    if data == [] {
    } else if !Parse(q, data).threw {
      ParseSafe(q, data);
      FeedSafe(Next(q, data), data[Parse(q, data).taken..]);
    }
  }

  lemma {:induction false} BuffersSafe(done: seq<ReadMsgState>)
    requires forall m <- done :: SafeFrame(m.buffer)
    ensures forall f <- Buffers(done) :: SafeFrame(f)
  {
    hide SafeFrame;
    if done == [] {
    } else {
      BuffersSafe(done[1..]);
    }
  }

  /** Every frame that is flushed is safe, and what stays in the deque will be. */
  lemma {:induction false} ResumeSafe(q: PeerBuffer, chunks: seq<seq<byte>>)
    requires q.WellFormed() && SafeQueue(q)
    ensures var r := Resume(q, chunks);
            (!r.threw ==> SafeQueue(r.q)) && forall f <- r.flushed :: SafeFrame(f)
  {
    if chunks == [] {
    } else {
      ResumeSafe(q, ButLast(chunks));
      var r, chunk := Resume(q, ButLast(chunks)), Last(chunks);
      if !r.threw {
        FeedSafe(r.q, chunk);
        var f := Feed(r.q, chunk);
        if !f.threw && AnyComplete(r.q, chunk) {
          FeedKnown(r.q, chunk);
          BuffersSafe(f.q.done);
        }
      }
      hide SafeFrame, SafeOpen, Feed, AnyComplete;
    }
  }

  lemma FeedKnown(q: PeerBuffer, data: seq<byte>)
    requires q.WellFormed() && AnyComplete(q, data)
    ensures data != [] && Feed(q, data).q.Known?
  {
  }

  lemma {:induction false} ConnectionsSafe(sessions: seq<seq<seq<byte>>>)
    ensures var h := Connections(sessions);
            (!h.threw ==> SafeQueue(h.q)) && forall i :: 0 <= i < |h.events| ==> Undefined !in h.events[i]
  {
    hide SafeQueue, Resume, Events;
    if sessions == [] {
      assert SafeQueue(Unknown) by { UnknownSafe(); }
    } else {
      var front, last := sessions[..|sessions| - 1], sessions[|sessions| - 1];
      ConnectionsSafe(front);
      var h := Connections(front);
      if !h.threw {
        ResumeSafe(h.q, last);
        EventsSafe(Resume(h.q, last).flushed);
      }
    }
  }

  lemma UnknownSafe()
    ensures SafeQueue(Unknown)
  {
  }

  lemma EventsSafe(frames: seq<seq<byte>>)
    requires forall f <- frames :: SafeFrame(f)
    ensures Undefined !in Events(true, frames)
  {
    hide Decode, DecodeHandShake;
    var events := Events(true, frames);
    forall i | 0 <= i < |events| ensures events[i] != Undefined {
      EventAt(true, frames, i);
      assert SafeFrame(frames[i]);
      DecodeInBounds(frames[i]);
    }
  }

  /** Whatever bytes a peer sends over any number of connections, no decoder reads past the end of a frame. */
  lemma NeverUndefined(sessions: seq<seq<seq<byte>>>)
    ensures forall i :: 0 <= i < |Connections(sessions).events| ==> Undefined !in Connections(sessions).events[i]
  {
    ConnectionsSafe(sessions);
  }

  // ------------------------------------------------------------------ a handshake from a known peer

  /** The length field of a frame says its size, unless line 113 read past the end of a short one. */
  predicate Sized(f: seq<byte>) {
    |f| >= 4 && FrameLength(f) <= |f| && (|f| > 7 ==> FrameLength(f) == |f|)
  }

  predicate SizedOpen(m: ReadMsgState) {
    if m.mLength < 0 then |m.buffer| < 4 else |m.buffer| >= 4 && m.mLength == FrameLength(m.buffer)
  }

  /** The handshake of the first connection is through. */
  predicate SizedQueue(q: PeerBuffer) {
    q.Known? && SizedOpen(q.open) && forall m <- q.done :: Sized(m.buffer)
  }

  lemma SameLength(a: seq<byte>, b: seq<byte>)
    requires |a| >= 4
    ensures FrameLength(a + b) == FrameLength(a)
  {
    assert (a + b)[..4] == a[..4];
  }

  lemma ParseSized(q: PeerBuffer, data: seq<byte>)
    requires q.WellFormed() && SizedQueue(q) && data != [] && !Parse(q, data).threw
    ensures SizedQueue(Next(q, data))
  {
    var p := Parse(q, data);
    assert p.back.buffer == q.open.buffer + data[..p.taken];
    if q.open.IsInitialized() {
      SameLength(q.open.buffer, data[..p.taken]);
    }
    hide FrameLength;
    if p.back.IsComplete() {
      assert Sized(p.back.buffer);
    }
  }

  lemma {:induction false} FeedSized(q: PeerBuffer, data: seq<byte>)
    requires q.WellFormed() && SizedQueue(q)
    ensures !Feed(q, data).threw ==> SizedQueue(Feed(q, data).q)
    decreases |data|
  {
    hide Parse, Next, SizedQueue;
    if data == [] {
    } else if !Parse(q, data).threw {
      ParseSized(q, data);
      FeedSized(Next(q, data), data[Parse(q, data).taken..]);
    }
  }

  lemma {:induction false} BuffersSized(done: seq<ReadMsgState>)
    requires forall m <- done :: Sized(m.buffer)
    ensures forall f <- Buffers(done) :: Sized(f)
  {
    hide Sized;
    if done == [] {
    } else {
      BuffersSized(done[1..]);
    }
  }

  lemma {:induction false} ResumeSized(q: PeerBuffer, chunks: seq<seq<byte>>)
    requires q.WellFormed() && SizedQueue(q)
    ensures var r := Resume(q, chunks);
            (!r.threw ==> SizedQueue(r.q)) && forall f <- r.flushed :: Sized(f)
  {
    if chunks == [] {
    } else {
      ResumeSized(q, ButLast(chunks));
      var r, chunk := Resume(q, ButLast(chunks)), Last(chunks);
      if !r.threw {
        FeedSized(r.q, chunk);
        var f := Feed(r.q, chunk);
        if !f.threw && AnyComplete(r.q, chunk) {
          BuffersSized(f.q.done);
        }
      }
      hide Sized, SizedOpen, Feed, AnyComplete;
    }
  }

  const DRAINED := Known([], FRESH)

  lemma DrainedSized()
    ensures DRAINED.WellFormed() && SizedQueue(DRAINED)
  {
  }

  /** A single frame that comes from a known peer, cut in any way, arrives exactly if its first four bytes are
      its size minus four. */
  lemma ArrivesExactly(h: seq<byte>, chunks: seq<seq<byte>>)
    requires 49 <= |h| < 0x8000_0000 && Concat(chunks) == h
    ensures Resume(DRAINED, chunks).flushed == [h] <==> FrameLength(h) == |h|
  {
    DrainedSized();
    if FrameLength(h) == |h| {
      OneFrame(h);
      hide Resume, Concat, FrameLength, FromBigEndian;
      FramesRoundTrip(false, [h], chunks);
    } else {
      hide Resume;
      ResumeSized(DRAINED, chunks);
      assert h in Resume(DRAINED, chunks).flushed ==> Sized(h);
    }
  }

  lemma SizedIsGood(h: seq<byte>)
    requires 49 <= |h| < 0x8000_0000 && FrameLength(h) == |h|
    ensures GoodFrame(false, h)
  {
    hide FromBigEndian;
    WireIntegers(0, h[..4]);
  }

  lemma OneGoodFrame(first: bool, f: seq<byte>)
    requires GoodFrame(first, f)
    ensures GoodFrames(first, [f])
  {
    hide GoodFrame;
    var fs := [f];
    assert GoodFrames(false, fs[1..]);
  }

  lemma OneFrame(h: seq<byte>)
    requires 49 <= |h| < 0x8000_0000 && FrameLength(h) == |h|
    ensures GoodStream(false, [h]) && Concat([h]) == h
  {
    SizedIsGood(h);
    hide FromBigEndian, GoodFrame;
    OneGoodFrame(false, h);
    assert h + [] == h;
  }

  /** The handshakes of which that is true have no protocol string, and begin their reserved bytes so. */
  predicate LooksSized(h: Message)
    requires h.HandShake?
  {
    h.pstr == [] && h.reserved[..3] == [0, 0, 45]
  }

  lemma HandShakeBytes(h: Message)
    requires h.HandShake? && |h.pstr| < 0x100
    ensures var f := Encode(h);
            && |f| == |h.pstr| + 49 && f[0] == |h.pstr|
            && (h.pstr == [] ==> f[1..4] == h.reserved[..3])
  {
    var f := Encode(h);
    assert f == [|h.pstr| % 0x100] + h.pstr + h.reserved + h.infoHash + h.peerId;
  }

  lemma SizedHandShake(h: Message)
    requires h.HandShake? && |h.pstr| < 0x100
    ensures |Encode(h)| == |h.pstr| + 49
    ensures FrameLength(Encode(h)) == |Encode(h)| <==> LooksSized(h)
  {
    HandShakeBytes(h);
    var f := Encode(h);
    hide FromBigEndian, Encode;
    Digits(f[..4]);
    assert f[1..4] == [f[1], f[2], f[3]];
    assert [f[1], f[2], f[3]] == [0, 0, 45] <==> f[1] == 0 && f[2] == 0 && f[3] == 45;
  }

  /** Any other handshake is lost on a later connection, however it is cut and whatever follows it: the
      first event of the connection is not that handshake. */
  lemma LaterHandShakeIsLost(q: PeerBuffer, chunks: seq<seq<byte>>, h: Message)
    requires q.WellFormed() && SizedQueue(q) && h.HandShake? && |h.pstr| < 0x100 && !LooksSized(h)
    ensures var events := Events(true, Resume(q, chunks).flushed); events == [] || events[0] != Message(h)
  {
    var frames := Resume(q, chunks).flushed;
    ResumeSized(q, chunks);
    SizedHandShake(h);
    hide Resume, FrameLength, DecodeHandShake, Decode, Encode, LooksSized;
    if frames != [] {
      EventAt(true, frames, 0);
      assert Sized(frames[0]);
      if Events(true, frames)[0] == Message(h) {
        PrintDecodedHandShake(frames[0]);
      }
    }
  }

  // ------------------------------------------------------------------ whole connections

  /** All that `ms` says was received, and nothing else is held. */
  predicate Exact(r: Delivered, ms: seq<Codec.Message>) {
    Received(Events(true, r.flushed), Held(r.q), r.threw) == Received(Messages(ms), [], false)
  }

  /** What a connection needs besides safe cuts: on the first one a protocol string that the signed length byte
      can say, on later ones a handshake that looks like a frame of its own length. */
  predicate Fits(first: bool, h: Codec.Message)
    requires h.HandShake?
  {
    if first then |h.pstr| < 128 else LooksSized(h)
  }

  lemma LaterStreamIsGood(ms: seq<Codec.Message>)
    requires Sendable(ms) && LooksSized(ms[0])
    ensures GoodStream(false, EncodeAll(ms))
  {
    SizedHandShake(ms[0]);
    EncodedMessagesAreGood(ms[1..]);
    hide Encode, FrameLength, FromBigEndian, GoodFrame, LooksSized;
    SizedIsGood(Encode(ms[0]));
  }

  /** A later connection, cut in any way, is received exactly when its handshake looks sized and its frames are
      cut safely. */
  lemma LaterConnection(ms: seq<Codec.Message>, chunks: seq<seq<byte>>)
    requires Sendable(ms) && Concat(chunks) == Concat(EncodeAll(ms))
    ensures Exact(Resume(DRAINED, chunks), ms) <==> LooksSized(ms[0]) && SplitSafe(EncodeAll(ms), chunks)
    ensures Exact(Resume(DRAINED, chunks), ms) ==> Resume(DRAINED, chunks).q == DRAINED
  {
    var r := Resume(DRAINED, chunks);
    hide Resume, Concat, SplitSafe, Encode, DecodeHandShake, Decode, LengthFits, Event;
    if !LooksSized(ms[0]) {
      DrainedSized();
      LaterHandShakeIsLost(DRAINED, chunks, ms[0]);
    } else {
      LaterStreamIsGood(ms);
      FramesRoundTrip(false, EncodeAll(ms), chunks);
      if SplitSafe(EncodeAll(ms), chunks) {
        forall i | 1 <= i < |ms| ensures LengthFits(ms[i]) {
          FitsWhenSmall(ms[i]);
        }
        DecodeSent(true, ms);
        NothingHeld();
      } else if Exact(r, ms) {
        SeenMeansSent(ms, r.flushed);
      }
    }
  }

  lemma AnyConnection(first: bool, ms: seq<Codec.Message>, chunks: seq<seq<byte>>)
    requires Sendable(ms) && Concat(chunks) == Concat(EncodeAll(ms))
    ensures var r := Resume(Begin(first), chunks);
            && (Exact(r, ms) <==> Fits(first, ms[0]) && SplitSafe(EncodeAll(ms), chunks))
            && (Exact(r, ms) ==> r.q == DRAINED)
  {
    if first {
      SentFramesAreGood(ms);
      FramesRoundTrip(true, EncodeAll(ms), chunks);
      WireRoundTrip(ms, chunks);
    } else {
      LaterConnection(ms, chunks);
    }
    hide Resume, Concat, SplitSafe, Events, Held, EncodeAll;
  }

  /** Every connection was received exactly. */
  predicate AllExact(sent: seq<seq<Codec.Message>>, sessions: seq<seq<seq<byte>>>)
    requires |sent| == |sessions|
  {
    sessions == [] ||
    (var n := |sessions| - 1;
     var h := Connections(sessions[..n]);
     AllExact(sent[..n], sessions[..n]) && !h.threw && Exact(Resume(h.q, sessions[n]), sent[n]))
  }

  predicate AllSendable(sent: seq<seq<Codec.Message>>) {
    forall i :: 0 <= i < |sent| ==> Sendable(sent[i])
  }

  predicate AllFit(sent: seq<seq<Codec.Message>>, sessions: seq<seq<seq<byte>>>)
    requires |sent| == |sessions| && AllSendable(sent)
  {
    forall i :: 0 <= i < |sent| ==> Fits(i == 0, sent[i][0]) && SplitSafe(EncodeAll(sent[i]), sessions[i])
  }

  /** Any number of connections of one peer, each with all its messages sent and cut in any way: all of them are
      received exactly when every one is cut safely, the first handshake has a short protocol string, and every
      later one looks sized. */
  lemma {:induction false} ConnectionsExactly(sent: seq<seq<Codec.Message>>, sessions: seq<seq<seq<byte>>>)
    requires |sent| == |sessions| && AllSendable(sent)
    requires forall i :: 0 <= i < |sent| ==> Concat(sessions[i]) == Concat(EncodeAll(sent[i]))
    ensures AllExact(sent, sessions) <==> AllFit(sent, sessions)
    ensures AllExact(sent, sessions) ==>
              !Connections(sessions).threw && Connections(sessions).q == Begin(sessions == [])
  {
    hide Resume, Concat, SplitSafe, Events, Exact, Fits, EncodeAll, Sendable;
    if sessions == [] {
    } else {
      var n := |sessions| - 1;
      ConnectionsExactly(sent[..n], sessions[..n]);
      AnyConnection(n == 0, sent[n], sessions[n]);
      AllFitSnoc(sent, sessions);
      ExactEnds(Resume(Begin(n == 0), sessions[n]), sent[n]);
    }
  }

  lemma ExactEnds(r: Delivered, ms: seq<Codec.Message>)
    ensures Exact(r, ms) ==> !r.threw
  {
    hide Events, Messages, Held;
  }

  lemma AllFitSnoc(sent: seq<seq<Codec.Message>>, sessions: seq<seq<seq<byte>>>)
    requires |sent| == |sessions| > 0 && AllSendable(sent)
    ensures var n := |sessions| - 1;
            AllFit(sent, sessions) <==> AllFit(sent[..n], sessions[..n]) && Fits(n == 0, sent[n][0])
                                        && SplitSafe(EncodeAll(sent[n]), sessions[n])
  {
    hide SplitSafe, EncodeAll, Fits;
    var n := |sessions| - 1;
    forall i | 0 <= i < n ensures sent[..n][i] == sent[i] && sessions[..n][i] == sessions[i] {
    }
  }

  /** So the round trip is a matter of the first connection: after one that was received in full, a second
      one of the same peer is not. */
  lemma SecondConnection(ms: seq<Codec.Message>, chunks: seq<seq<byte>>, ms': seq<Codec.Message>,
                         chunks': seq<seq<byte>>)
    requires Sendable(ms) && Concat(chunks) == Concat(EncodeAll(ms))
    requires |ms[0].pstr| < 128 && SplitSafe(EncodeAll(ms), chunks)
    requires Sendable(ms') && !LooksSized(ms'[0])
    ensures var h := Connections([chunks, chunks']);
            && |h.events| == 2 && h.events[0] == Messages(ms)
            && (h.events[1] == [] || h.events[1][0] != Message(ms'[0]))
  {
    AnyConnection(true, ms, chunks);
    DrainedSized();
    LaterHandShakeIsLost(DRAINED, chunks', ms'[0]);
    ExactEnds(Resume(Unknown, chunks), ms);
    TwoConnections(chunks, chunks');
    hide Resume, Connections, Events, SplitSafe, Concat, LooksSized;
  }

  lemma TwoConnections(chunks: seq<seq<byte>>, chunks': seq<seq<byte>>)
    requires !Resume(Unknown, chunks).threw
    ensures var r := Resume(Unknown, chunks);
            var r' := Resume(r.q, chunks');
            Connections([chunks, chunks'])
            == History(r'.q, [Events(true, r.flushed), Events(true, r'.flushed)], r'.threw)
  {
    hide Resume, Events;
    assert [chunks, chunks'][..1] == [chunks] && [chunks][..0] == [];
    var r := Resume(Unknown, chunks);
    assert Connections([]) == History(Unknown, [], false);
    assert [] + [Events(true, r.flushed)] == [Events(true, r.flushed)];
    assert Connections([chunks]) == History(r.q, [Events(true, r.flushed)], false);
  }

  // ------------------------------------------------------------------ after a connection that broke off

  lemma {:induction false} MoreBytesSpoil(flushed: seq<seq<byte>>, fs: seq<seq<byte>>)
    requires |flushed| == |fs| && |Concat(flushed)| > |Concat(fs)|
    ensures Spoiled(flushed, fs)
  {
    if fs == [] {
    } else if |flushed[0]| > |fs[0]| {
    } else {
      MoreBytesSpoil(flushed[1..], fs[1..]);
      var j :| 0 <= j < |flushed[1..]| && j < |fs[1..]| && |flushed[1..][j]| > |fs[1..][j]|;
      assert |flushed[j + 1]| > |fs[j + 1]|;
    }
  }

  /** A connection that finds bytes of an earlier one in the deque is not received exactly, whatever it sends. */
  lemma LeftoverSpoils(q: PeerBuffer, ms: seq<Codec.Message>, chunks: seq<seq<byte>>)
    requires q.WellFormed() && q.Done() == [] && Held(q) != []
    requires Sendable(ms) && Concat(chunks) == Concat(EncodeAll(ms))
    ensures !Exact(Resume(q, chunks), ms)
  {
    var r := Resume(q, chunks);
    ResumeConserves(q, chunks);
    hide Resume, Held, Sendable, Event, Encode;
    if Exact(r, ms) {
      assert |Events(true, r.flushed)| == |Messages(ms)|;
      assert Concat(r.flushed) + [] == Concat(r.flushed);
      hide Concat, Events, Messages;
      MoreBytesSpoil(r.flushed, EncodeAll(ms));
      SeenMeansSent(ms, r.flushed);
    }
  }

  /** The frame in front is a handshake of `n` bytes. */
  predicate Pending(q: PeerBuffer, n: nat) {
    q.Known? && if q.done == [] then q.open.mLength == n && |q.open.buffer| < n else |q.done[0].buffer| == n
  }

  lemma HeldPending(q: PeerBuffer, n: nat)
    requires Pending(q, n) && q.Done() == []
    ensures |[] + Held(q)| < n
  {
  }

  lemma ParsePending(q: PeerBuffer, data: seq<byte>, n: nat)
    requires q.WellFormed() && Pending(q, n) && data != []
    ensures Pending(Next(q, data), n)
  {
    hide FrameLength;
  }

  lemma {:induction false} FeedPending(q: PeerBuffer, data: seq<byte>, n: nat)
    requires q.WellFormed() && Pending(q, n)
    ensures Pending(Feed(q, data).q, n)
    decreases |data|
  {
    hide Parse, Next, Pending;
    if data == [] {
    } else {
      ParsePending(q, data, n);
      if !Parse(q, data).threw {
        FeedPending(Next(q, data), data[Parse(q, data).taken..], n);
      }
    }
  }

  lemma {:induction false} ResumePending(q: PeerBuffer, chunks: seq<seq<byte>>, n: nat)
    requires q.WellFormed() && Pending(q, n) && q.Done() == []
    ensures var r := Resume(q, chunks);
            && (r.flushed != [] ==> |r.flushed[0]| == n)
            && (r.flushed == [] && !r.threw ==> Pending(r.q, n) && r.q.Done() == [])
  {
    if chunks == [] {
    } else {
      hide Feed, Parse, AnyComplete;
      ResumePending(q, ButLast(chunks), n);
      var r := Resume(q, ButLast(chunks));
      if !r.threw && r.flushed == [] {
        FeedPending(r.q, Last(chunks), n);
        DeliverInvariant(r.q, Last(chunks));
      }
    }
  }

  /** A first connection that ends inside its handshake leaves that frame open. */
  lemma BrokenOff(chunks: seq<seq<byte>>)
    requires var bytes := Concat(chunks); bytes != [] && |bytes| < HandShakeLength(bytes)
    ensures var bytes := Concat(chunks);
            Run(chunks) == Delivered(Known([], ReadMsgState(HandShakeLength(bytes), bytes)), [], false)
  {
    var bytes := Concat(chunks);
    var f: seq<byte> := bytes + seq(HandShakeLength(bytes) - |bytes|, _ => 0);
    var fs := [f];
    assert f[0] == bytes[0] && Concat(fs) == f + [] == f;
    OneGoodFrame(true, f);
    assert SplitSafe(fs, chunks);
    hide Resume, Concat, SplitSafe, GoodStream;
    RunFrames(true, fs, chunks);
  }

  /** The next connection of that peer completes the old frame: its first bytes are taken for the missing ones of
      the first handshake, however they are cut. */
  lemma BrokenHandShakeContinues(chunks: seq<seq<byte>>, chunks': seq<seq<byte>>)
    requires var bytes := Concat(chunks);
             bytes != [] && |bytes| < HandShakeLength(bytes) <= |bytes| + |Concat(chunks')|
    ensures var r, stream := Resume(Run(chunks).q, chunks'), Concat(chunks) + Concat(chunks');
            !r.threw ==> r.flushed != [] && r.flushed[0] == stream[..HandShakeLength(stream)]
  {
    var bytes := Concat(chunks);
    var n := HandShakeLength(bytes);
    BrokenOff(chunks);
    var q := Run(chunks).q;
    ResumePending(q, chunks', n);
    ResumeConserves(q, chunks');
    var r := Resume(q, chunks');
    assert Held(q) == [] + bytes == bytes;
    hide Resume, Run;
    if !r.threw {
      if r.flushed == [] {
        HeldPending(r.q, n);
      } else {
        assert Concat(r.flushed) == r.flushed[0] + Concat(r.flushed[1..]);
      }
    }
  }

  /** So the second connection begins with the event of its handshake exactly when the two streams together begin
      with the bytes of that handshake; and it is never received exactly. */
  lemma AfterBrokenHandShake(chunks: seq<seq<byte>>, ms: seq<Codec.Message>, chunks': seq<seq<byte>>)
    requires var bytes := Concat(chunks);
             bytes != [] && |bytes| < HandShakeLength(bytes) <= |bytes| + |Concat(chunks')|
    requires Sendable(ms) && |ms[0].pstr| < 128 && Concat(chunks') == Concat(EncodeAll(ms))
    ensures var r, stream := Resume(Run(chunks).q, chunks'), Concat(chunks) + Concat(chunks');
            && !Exact(r, ms)
            && (!r.threw ==> r.flushed != []
                             && (Events(true, r.flushed)[0] == Message(ms[0])
                                 <==> stream[..HandShakeLength(stream)] == Encode(ms[0])))
  {
    BrokenHandShakeContinues(chunks, chunks');
    BrokenOff(chunks);
    var q := Run(chunks).q;
    assert Held(q) == [] + Concat(chunks) == Concat(chunks);
    LeftoverSpoils(q, ms, chunks');
    var r := Resume(q, chunks');
    hide Resume, Run, Concat, EncodeAll, Encode, DecodeHandShake, Decode, Exact;
    if !r.threw {
      EventAt(true, r.flushed, 0);
      HandShakeRoundTrip(ms[0]);
      if Events(true, r.flushed)[0] == Message(ms[0]) {
        PrintDecodedHandShake(r.flushed[0]);
      }
    }
  }
}
