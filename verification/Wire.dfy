/** From the socket to the messages: what a peer's byte stream becomes after framing, draining and
    decoding, for every way of cutting the stream into chunks. */
module Wire {
  import opened Bytes
  import opened Codec
  import opened Common
  import opened Framer
  import opened Stream

  /** What `PeerService::read` makes of one frame. `Undefined` is a read past the end of the frame. */
  datatype PeerEvent = Message(message: Codec.Message) | ConnectionDisconnected | Undefined

  function Event(d: Decoded): PeerEvent {
    match d
    case Ok(m) => Message(m)
    case SerializeError(_) => ConnectionDisconnected
    case PastEnd => Undefined
  }

  /** The first frame of a peer is decoded as a handshake, all others as ordinary messages. */
  function Events(first: bool, frames: seq<seq<byte>>): (events: seq<PeerEvent>)
    ensures |events| == |frames|
  {
    if frames == [] then []
    else [Event(if first then DecodeHandShake(frames[0]) else Decode(frames[0]))] + Events(false, frames[1..])
  }

  /** Everything that the chunks of a peer's first connection lead to: the events, the bytes still held, and
      whether the receiving thread died of an exception. */
  datatype Received = Received(events: seq<PeerEvent>, held: seq<byte>, threw: bool)

  function Receive(chunks: seq<seq<byte>>): Received {
    var r := Run(chunks);
    Received(Events(true, r.flushed), Held(r.q), r.threw)
  }

  function EncodeAll(ms: seq<Codec.Message>): (fs: seq<seq<byte>>)
    ensures |fs| == |ms|
  {
    if ms == [] then [] else [Encode(ms[0])] + EncodeAll(ms[1..])
  }

  function Messages(ms: seq<Codec.Message>): (events: seq<PeerEvent>)
    ensures |events| == |ms|
  {
    if ms == [] then [] else [Message(ms[0])] + Messages(ms[1..])
  }

  /** What a peer may send: a handshake whose protocol string has a length of one byte, then messages
      whose frames fit an `int32_t`. */
  predicate Sendable(ms: seq<Codec.Message>) {
    && ms != []
    && ms[0].HandShake? && |ms[0].pstr| < 0x100
    && forall i :: 1 <= i < |ms| ==> !ms[i].HandShake? && |Encode(ms[i])| < 0x8000_0000
  }

  lemma {:induction false} EncodeAllAt(ms: seq<Codec.Message>, i: nat)
    requires i < |ms|
    ensures EncodeAll(ms)[i] == Encode(ms[i]) && Messages(ms)[i] == Message(ms[i])
  {
    hide Encode;
    if i == 0 {
    } else {
      EncodeAllAt(ms[1..], i - 1);
    }
  }

  lemma {:induction false} EventAt(first: bool, frames: seq<seq<byte>>, i: nat)
    requires i < |frames|
    ensures Events(first, frames)[i]
         == Event(if first && i == 0 then DecodeHandShake(frames[i]) else Decode(frames[i]))
  {
    hide Event, DecodeHandShake, Decode;
    if i == 0 {
    } else {
      EventAt(false, frames[1..], i - 1);
    }
  }

  lemma {:induction false} EncodedMessagesAreGood(ms: seq<Codec.Message>)
    requires forall i :: 0 <= i < |ms| ==> !ms[i].HandShake? && |Encode(ms[i])| < 0x8000_0000
    ensures GoodFrames(false, EncodeAll(ms))
  {
    hide Encode, FromBigEndian;
    if ms == [] {
    } else {
      EncodedMessagesAreGood(ms[1..]);
      FitsWhenSmall(ms[0]);
      EncodedPrefix(ms[0]);
    }
  }

  lemma FitsWhenSmall(m: Codec.Message)
    requires !m.HandShake? && |Encode(m)| < 0x8000_0000
    ensures LengthFits(m)
  {
    hide BigEndian;
  }

  lemma SentFramesAreGood(ms: seq<Codec.Message>)
    requires Sendable(ms)
    ensures GoodFrames(true, EncodeAll(ms))
  {
    hide BigEndian, FromBigEndian;
    EncodedMessagesAreGood(ms[1..]);
    var h := Encode(ms[0]);
    assert h[0] == |ms[0].pstr|;
  }

  /** A frame decodes to the message that was sent only if it is, byte for byte, the frame that was sent. */
  lemma OnlyTheSentFrame(first: bool, m: Codec.Message, f: seq<byte>)
    requires first <==> m.HandShake?
    requires first || |f| >= 4
    requires Event(if first then DecodeHandShake(f) else Decode(f)) == Message(m)
    ensures f == Encode(m)
  {
    hide Encode, DecodeHandShake, Decode;
    if first {
      PrintDecodedHandShake(f);
    } else {
      EncodeDecode(f);
    }
  }

  lemma {:induction false} DecodeSent(first: bool, ms: seq<Codec.Message>)
    requires ms != [] && first ==> ms[0].HandShake? && |ms[0].pstr| < 128
    requires forall i :: (if first then 1 else 0) <= i < |ms| ==> !ms[i].HandShake? && LengthFits(ms[i])
    ensures Events(first, EncodeAll(ms)) == Messages(ms)
  {
    hide Encode, Decode, DecodeHandShake, LengthFits;
    if ms == [] {
    } else {
      if first {
        HandShakeRoundTrip(ms[0]);
      } else {
        DecodeEncode(ms[0]);
      }
      DecodeSent(false, ms[1..]);
    }
  }

  /** The wire round trip. Whatever a peer sends on its first connection, and however its bytes are cut into
      chunks: the receiver sees exactly the handshake and the messages that were sent, in order, and holds
      nothing back, if and only if the protocol string is shorter than 128 bytes and the stream is cut
      safely. */
  lemma WireRoundTrip(ms: seq<Codec.Message>, chunks: seq<seq<byte>>)
    requires Sendable(ms) && Concat(chunks) == Concat(EncodeAll(ms))
    ensures Receive(chunks) == Received(Messages(ms), [], false)
       <==> |ms[0].pstr| < 128 && SplitSafe(EncodeAll(ms), chunks)
  {
    hide Resume, Concat, SplitSafe, Encode, DecodeHandShake, Decode, LengthFits, Event;
    var fs := EncodeAll(ms);
    SentFramesAreGood(ms);
    FramesRoundTrip(true, fs, chunks);
    var r := Run(chunks);
    assert r == Resume(Begin(true), chunks);
    if |ms[0].pstr| < 128 && SplitSafe(fs, chunks) {
      forall i | 1 <= i < |ms| ensures LengthFits(ms[i]) {
        FitsWhenSmall(ms[i]);
      }
      DecodeSent(true, ms);
      NothingHeld();
    } else if Receive(chunks) == Received(Messages(ms), [], false) {
      SeenMeansSent(ms, r.flushed);
      HandShakeRoundTrip(ms[0]);
    }
  }

  lemma NothingHeld()
    ensures Held(Known([], FRESH)) == []
  {
  }

  /** If the events are the messages that were sent, no frame was spoiled and the handshake decoded. */
  lemma SeenMeansSent(ms: seq<Codec.Message>, flushed: seq<seq<byte>>)
    requires Sendable(ms) && Events(true, flushed) == Messages(ms)
    ensures !Spoiled(flushed, EncodeAll(ms))
    ensures DecodeHandShake(Encode(ms[0])) == Ok(ms[0])
  {
    hide Encode, DecodeHandShake, Decode, FromBigEndian, Event;
    var fs := EncodeAll(ms);
    if Spoiled(flushed, fs) {
      var j :| 0 <= j < |flushed| && j < |fs| && |flushed[j]| > |fs[j]|;
      EventAt(true, flushed, j);
      EncodeAllAt(ms, j);
      EncodedSize(ms[j]);
      OnlyTheSentFrame(j == 0, ms[j], flushed[j]);
      assert false;
    }
    EventAt(true, flushed, 0);
    EncodeAllAt(ms, 0);
    OnlyTheSentFrame(true, ms[0], flushed[0]);
    EventIsMessage(DecodeHandShake(flushed[0]), ms[0]);
  }

  lemma EventIsMessage(d: Decoded, m: Codec.Message)
    requires Event(d) == Message(m)
    ensures d == Ok(m)
  {
  }

  lemma EncodedSize(m: Codec.Message)
    ensures |Encode(m)| >= 4
  {
    hide BigEndian;
  }

  /** Messages with a length field of three or more arrive however the stream is cut. That is every
      message but KeepAlive, the four of one byte and the bitfields of at most one byte. */
  lemma LongMessagesAlwaysArrive(ms: seq<Codec.Message>, chunks: seq<seq<byte>>)
    requires Sendable(ms) && |ms[0].pstr| < 128 && Concat(chunks) == Concat(EncodeAll(ms))
    requires forall i :: 1 <= i < |ms| ==> GetLen(ms[i]) >= 3
    ensures Receive(chunks) == Received(Messages(ms), [], false)
  {
    hide Receive, Concat, Encode, SplitSafe;
    forall j | 1 <= j < |ms| ensures |EncodeAll(ms)[j]| >= 7 {
      EncodeAllAt(ms, j);
      FitsWhenSmall(ms[j]);
      EncodedPrefix(ms[j]);
    }
    LongFramesAreSafe(EncodeAll(ms), chunks);
    WireRoundTrip(ms, chunks);
  }

  /** The condition is needed: a KeepAlive cut after its first byte, with a Choke in the next chunk, is
      lost, whatever the handshake before it. */
  lemma SplitKeepAliveIsLost(h: Codec.Message)
    requires h.HandShake? && |h.pstr| < 128
    ensures var ms, chunks := [h, KeepAlive, Choke], [Encode(h) + [0], [0, 0, 0] + Encode(Choke)];
            Concat(chunks) == Concat(EncodeAll(ms)) && Receive(chunks) != Received(Messages(ms), [], false)
  {
    var ms, chunks := [h, KeepAlive, Choke], [Encode(h) + [0], [0, 0, 0] + Encode(Choke)];
    var a, k, c := Encode(h), Encode(KeepAlive), Encode(Choke);
    assert k == [0, 0, 0, 0] && |c| == 5 by { ShortEncodings(); }
    hide Encode, Receive;
    assert EncodeAll(ms) == [a, k, c] by { ThreeFrames(h); }
    var fs := [a, k, c];
    hide EncodeAll;
    assert Concat(chunks) == a + k + c by { TwoParts(a + [0], [0, 0, 0] + c); }
    assert Concat(fs) == a + k + c by { ThreeParts(a, k, c); }
    assert Position(fs, 1) == |a| by { assert fs[..1] == [a] && Concat([a]) == a + [] == a; }
    assert Position(chunks, 1) == |a| + 1 by { assert chunks[..1] == [a + [0]] && Concat([a + [0]]) == a + [0] + []; }
    assert Position(chunks, 2) == |a| + 9 by { assert chunks[..2] == chunks; }
    assert !CutHarmless(Position(fs, 1), |fs[1]|, Position(chunks, 1), Position(chunks, 1 + 1));
    assert !SplitSafe(fs, chunks);
    WireRoundTrip(ms, chunks);
  }

  lemma ShortEncodings()
    ensures Encode(KeepAlive) == [0, 0, 0, 0] && |Encode(Choke)| == 5
  {
    assert BigEndian(0, 1) == [0] && BigEndian(0, 2) == [0, 0] && BigEndian(0, 3) == [0, 0, 0];
    assert BigEndian(0, 4) == [0, 0, 0, 0];
    EncodedParts(Choke);
  }

  lemma ThreeFrames(h: Codec.Message)
    ensures EncodeAll([h, KeepAlive, Choke]) == [Encode(h), Encode(KeepAlive), Encode(Choke)]
  {
    hide Encode;
    assert [h, KeepAlive, Choke][1..] == [KeepAlive, Choke] && [KeepAlive, Choke][1..] == [Choke];
  }

  lemma TwoParts(x: seq<byte>, y: seq<byte>)
    ensures Concat([x, y]) == x + y
  {
    assert [x] + [y] == [x, y] && Concat([x]) == x + [] == x;
    ConcatSnoc([x], y);
  }

  lemma ThreeParts(x: seq<byte>, y: seq<byte>, z: seq<byte>)
    ensures Concat([x, y, z]) == x + y + z
  {
    assert [x, y, z][1..] == [y, z];
    TwoParts(y, z);
    Assoc(x, y, z);
  }

  // ------------------------------------------------------------------ no undefined behaviour

  /** Until the first frame is complete, its length is that of a handshake. */
  predicate HandShakePending(q: PeerBuffer) {
    q.Known? ==> if q.done == [] then q.open.mLength >= 49 else |q.done[0].buffer| >= 49
  }

  lemma {:induction false} FeedHandShake(q: PeerBuffer, data: seq<byte>)
    requires q.WellFormed() && HandShakePending(q)
    ensures HandShakePending(Feed(q, data).q)
    decreases |data|
  {
    hide FromBigEndian;
    if data == [] {
    } else {
      var q' := Next(q, data);
      assert HandShakePending(q');
      if !Parse(q, data).threw {
        FeedHandShake(q', data[Parse(q, data).taken..]);
      }
    }
  }

  lemma {:induction false} FirstFrameIsLong(chunks: seq<seq<byte>>)
    ensures var r := Run(chunks);
            (r.flushed != [] ==> |r.flushed[0]| >= 49)
            && (r.flushed == [] && !r.threw ==> HandShakePending(r.q) && r.q.Done() == [])
  {
    if chunks == [] {
    } else {
      hide Feed, Parse, AnyComplete;
      FirstFrameIsLong(ButLast(chunks));
      var r := Run(ButLast(chunks));
      if !r.threw && r.flushed == [] {
        FeedHandShake(r.q, Last(chunks));
        DeliverInvariant(r.q, Last(chunks));
      }
    }
  }

  /** Whatever bytes a peer sends on its first connection, no decoder reads past the end of a frame. */
  lemma NeverUndefined(chunks: seq<seq<byte>>)
    ensures Undefined !in Receive(chunks).events
  {
    hide Run, Resume, DecodeHandShake, Decode, Held;
    var r := Run(chunks);
    FirstFrameIsLong(chunks);
    var events := Receive(chunks).events;
    forall i | 0 <= i < |events| ensures events[i] != Undefined {
      EventAt(true, r.flushed, i);
      if i == 0 {
        HandShakeFrameInBounds(r.flushed[0]);
      } else {
        DecodeInBounds(r.flushed[i]);
      }
    }
  }

  lemma DecodeInBounds(f: seq<byte>)
    ensures !Decode(f).PastEnd?
  {
  }
}
