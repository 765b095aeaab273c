/** The objects on the receiving path: `BufferedQueueManager`, `EpollServiceImpl::writeToBuffer` and
    `PeerServiceImpl::read`. Their methods are proved against the functions of `Framer` and `Wire`. */
module Receiver {
  import opened Bytes
  import Codec
  import opened Common
  import opened Framer
  import Wire

  /** The deque that stores a buffer, and the buffer that a deque stores. */
  function Deque(q: PeerBuffer): seq<ReadMsgState> {
    q.Done() + if q.Open().buffer == [] then [] else [q.Open()]
  }

  function Abstract(frames: seq<ReadMsgState>): PeerBuffer {
    if frames == [] || Last(frames).IsComplete() then Known(frames, FRESH)
    else Known(ButLast(frames), Last(frames))
  }

  /** In every reachable deque all frames but the last are complete, and none is without bytes. */
  predicate Proper(frames: seq<ReadMsgState>) {
    && (forall i :: 0 <= i < |frames| - 1 ==> frames[i].IsComplete())
    && (forall i :: 0 <= i < |frames| ==> frames[i].buffer != [])
  }

  lemma DequeAbstract(frames: seq<ReadMsgState>)
    requires Proper(frames)
    ensures Abstract(frames).WellFormed() && Deque(Abstract(frames)) == frames
  {
    if frames != [] && !Last(frames).IsComplete() {
      assert frames == ButLast(frames) + [Last(frames)];
    }
  }

  /** Pushing or replacing the last frame of the deque is placing it after the complete ones. */
  lemma PlaceBack(done: seq<ReadMsgState>, back: ReadMsgState)
    requires back.buffer != [] && forall m <- done :: m.IsComplete() && m.buffer != []
    ensures Proper(done + [back]) && Abstract(done + [back]) == Place(done, back)
  {
    assert ButLast(done + [back]) == done;
  }

  /** How much of the data still belongs to the frame. */
  method Available(m: ReadMsgState, data: seq<byte>) returns (bytes: int32)
    requires |data| < 0x8000_0000
    ensures bytes == Min(m.GetRemaining(), |data|)
  {
    bytes := if m.GetRemaining() <= |data| then m.GetRemaining() else |data|;
  }

  /** The three branches of `parseMessage`, on the deque of the peer. */
  method FirstContact(data: seq<byte>) returns (frames: seq<ReadMsgState>, bytes: int32, complete: bool)
    requires 0 < |data| < 0x8000_0000
    ensures Proper(frames) && Abstract(frames) == Next(Unknown, data)
    ensures var r := Parse(Unknown, data); bytes == r.taken && complete == r.complete && !r.threw
  {
    var len: int := data[0];
    var m := ReadMsgState(-1, []).Initialize(49 + len);
    bytes := Available(m, data);
    m := m.Append(data[..bytes]);
    frames := [m];
    complete := m.IsComplete();
    assert [] + data[..bytes] == data[..bytes] && [] + [m] == [m];
    PlaceBack([], m);
  }

  method ExtendBody(frames: seq<ReadMsgState>, data: seq<byte>)
    returns (frames': seq<ReadMsgState>, bytes: int32, complete: bool)
    requires Proper(frames) && 0 < |data| < 0x8000_0000
    requires frames != [] && Last(frames).IsInitialized() && !Last(frames).IsComplete()
    ensures Proper(frames') && Abstract(frames') == Next(Abstract(frames), data)
    ensures var r := Parse(Abstract(frames), data); bytes == r.taken && complete == r.complete && !r.threw
  {
    var m := Last(frames);
    bytes := Available(m, data);
    m := m.Append(data[..bytes]);
    frames' := ButLast(frames) + [m];
    complete := |frames'| > 1 || m.IsComplete();
    PlaceBack(ButLast(frames), m);
  }

  method ReadLength(buffer: seq<byte>) returns (length: u32)
    requires |buffer| >= 4
    ensures length == FrameLength(buffer)
  {
    var len, _ := BytesToInt(buffer, 4);
    assert Front(buffer, 4) == buffer[..4];
    length := (len + 4) % TWO_32;
  }

  method ExtendPrefix(frames: seq<ReadMsgState>, data: seq<byte>)
    returns (frames': seq<ReadMsgState>, bytes: int32, complete: bool, threw: bool)
    requires Proper(frames) && 0 < |data| < 0x8000_0000
    requires !(frames != [] && Last(frames).IsInitialized() && !Last(frames).IsComplete())
    ensures Abstract(frames).WellFormed()
    ensures Proper(frames') && Abstract(frames') == Next(Abstract(frames), data)
    ensures var r := Parse(Abstract(frames), data);
            bytes == r.taken && complete == r.complete && threw == r.threw
  {
    hide FrameLength;
    ghost var q := Abstract(frames);
    DequeAbstract(frames);
    frames' := frames;
    if frames == [] || Last(frames).IsComplete() {
      frames' := frames' + [ReadMsgState(-1, [])];
    }
    assert ButLast(frames') == q.done && Last(frames') == q.open;
    var m := Last(frames');
    bytes := if 4 <= |data| then 4 else |data|;
    m := m.Append(data[..bytes]);
    threw := false;
    if |m.buffer| >= 4 {
      var length := ReadLength(m.buffer);
      m := m.Initialize(length);
      threw := m.mLength < 0;
    }
    assert Parse(q, data) == ParsePrefix(q, data);
    hide Parse;
    frames' := ButLast(frames') + [m];
    complete := m.IsComplete();
    hide Abstract;
    PlaceBack(q.done, m);
  }

  class BufferedQueueManager {
    var mReadBuffers: map<PeerId, seq<ReadMsgState>>

    constructor ()
      ensures Valid() && mReadBuffers == map[]
    {
      mReadBuffers := map[];
    }

    ghost predicate Valid()
      reads this
    {
      forall p <- mReadBuffers :: Proper(mReadBuffers[p])
    }

    /** What is buffered for a peer. */
    ghost function View(p: PeerId): (q: PeerBuffer)
      reads this
      requires Valid()
      ensures q.WellFormed()
    {
      if p in mReadBuffers then
        DequeAbstract(mReadBuffers[p]);
        Abstract(mReadBuffers[p])
      else Unknown
    }

    /** Everything about the other peers is left alone. */
    twostate predicate OnlyChanged(p: PeerId)
      reads this
    {
      p in mReadBuffers && mReadBuffers == old(mReadBuffers)[p := mReadBuffers[p]]
    }

    /** `parseMessage`. The view `data` is shortened to `rest`. */
    method ParseMessage(p: PeerId, data: seq<byte>) returns (complete: bool, rest: seq<byte>, threw: bool)
      requires Valid() && 0 < |data| < 0x8000_0000
      modifies this
      ensures Valid() && OnlyChanged(p)
      ensures View(p) == Next(old(View(p)), data)
      ensures var r := Parse(old(View(p)), data);
              complete == r.complete && rest == data[r.taken..] && threw == r.threw
    {
      hide Parse, Next;
      var frames, bytes;
      if p !in mReadBuffers {
        frames, bytes, complete := FirstContact(data);
        threw := false;
      } else {
        frames := mReadBuffers[p];
        DequeAbstract(frames);
        if frames != [] && Last(frames).IsInitialized() && !Last(frames).IsComplete() {
          frames, bytes, complete := ExtendBody(frames, data);
          threw := false;
        } else {
          frames, bytes, complete, threw := ExtendPrefix(frames, data);
        }
      }
      mReadBuffers := mReadBuffers[p := frames];
      rest := data[bytes..];
    }

    /** `addToReadBuffer`. Every turn takes at least one byte. */
    method AddToReadBuffer(p: PeerId, data: seq<byte>) returns (hasCompleted: bool, threw: bool)
      requires Valid() && |data| < 0x8000_0000
      modifies this
      ensures Valid() && (if data == [] then mReadBuffers == old(mReadBuffers) else OnlyChanged(p))
      ensures var f := Feed(old(View(p)), data); View(p) == f.q && threw == f.threw
      ensures hasCompleted == AnyComplete(old(View(p)), data)
    {
      hide Parse, Next;
      var view := data;
      hasCompleted, threw := false, false;
      while view != [] && !threw
        invariant Valid() && |view| <= |data|
        invariant if view == data then mReadBuffers == old(mReadBuffers) else OnlyChanged(p)
        invariant var f := Feed(old(View(p)), data);
                  if threw then View(p) == f.q && f.threw else Feed(View(p), view) == f
        invariant AnyComplete(old(View(p)), data) == (hasCompleted || (!threw && AnyComplete(View(p), view)))
        decreases |view|, !threw
      {
        var complete;
        complete, view, threw := ParseMessage(p, view);
        hasCompleted := hasCompleted || complete;
      }
    }
  }

  /** A frame on its way from the epoll thread to the peer service. */
  datatype ReadEvent = ReadEvent(peer: PeerId, message: seq<byte>)

  function ReadEvents(peer: PeerId, frames: seq<seq<byte>>): seq<ReadEvent> {
    if frames == [] then [] else [ReadEvent(peer, frames[0])] + ReadEvents(peer, frames[1..])
  }

  lemma {:induction false} ReadEventsSnoc(peer: PeerId, frames: seq<seq<byte>>, f: seq<byte>)
    ensures ReadEvents(peer, frames + [f]) == ReadEvents(peer, frames) + [ReadEvent(peer, f)]
  {
    if frames == [] {
    } else {
      ReadEventsSnoc(peer, frames[1..], f);
      assert (frames + [f])[1..] == frames[1..] + [f];
    }
  }

  lemma {:induction false} BuffersPrefix(frames: seq<ReadMsgState>, k: nat)
    requires k < |frames|
    ensures Buffers(frames[..k + 1]) == Buffers(frames[..k]) + [frames[k].buffer]
  {
    assert frames[..k + 1] == frames[..k] + [frames[k]];
    BuffersSnoc(frames[..k], frames[k]);
  }

  class EpollService {
    const buffMan: BufferedQueueManager
    var queue: seq<ReadEvent>

    constructor ()
      ensures fresh(buffMan) && buffMan.Valid() && buffMan.mReadBuffers == map[] && queue == []
    {
      buffMan := new BufferedQueueManager();
      queue := [];
    }

    /** `writeToBuffer`: buffer the first `bytes` bytes of `data`; once a message is complete, push
        every complete frame and keep the others. */
    method WriteToBuffer(peer: PeerId, data: seq<byte>, bytes: nat) returns (threw: bool)
      requires buffMan.Valid() && bytes <= |data| && bytes < 0x8000_0000
      modifies this`queue, buffMan
      ensures buffMan.Valid()
      ensures buffMan.mReadBuffers == old(buffMan.mReadBuffers) || buffMan.OnlyChanged(peer)
      ensures var d := Deliver(old(buffMan.View(peer)), data[..bytes]);
              buffMan.View(peer) == d.q && threw == d.threw && queue == old(queue) + ReadEvents(peer, d.flushed)
    {
      hide Feed, Buffers;
      var v := data[..bytes];
      var isComplete;
      isComplete, threw := buffMan.AddToReadBuffer(peer, v);
      assert queue + ReadEvents(peer, []) == queue;
      if isComplete && !threw {
        Drain(peer);
      }
    }

    /** The deque after the drain is that of a buffer without complete frames. */
    method Drain(peer: PeerId)
      requires buffMan.Valid() && peer in buffMan.mReadBuffers
      modifies this`queue, buffMan
      ensures buffMan.Valid() && buffMan.OnlyChanged(peer)
      ensures var q := old(buffMan.View(peer));
              buffMan.View(peer) == Known([], q.open) && queue == old(queue) + ReadEvents(peer, Buffers(q.done))
    {
      hide Buffers, ReadEvents;
      ghost var q := buffMan.View(peer);
      DequeAbstract(buffMan.mReadBuffers[peer]);
      var msgs, events := DrainFrames(peer, buffMan.mReadBuffers[peer], q);
      queue := queue + events;
      buffMan.mReadBuffers := buffMan.mReadBuffers[peer := msgs];
    }
  }

  /** The loop of `writeToBuffer`: it erases the complete frames from the deque while walking over it. */
  method DrainFrames(peer: PeerId, frames: seq<ReadMsgState>, ghost q: PeerBuffer)
    returns (msgs: seq<ReadMsgState>, events: seq<ReadEvent>)
    requires q.Known? && q.WellFormed() && Deque(q) == frames
    ensures events == ReadEvents(peer, Buffers(q.done))
    ensures msgs == if q.open.buffer == [] then [] else [q.open]
  {
    assert ReadEvents(peer, Buffers(q.done[..0])) == [];
    hide Buffers, ReadEvents;
    msgs, events := frames, [];
    ghost var k := 0;
    var it := 0;
    while it < |msgs|
      invariant it <= |msgs| && k <= |q.done|
      invariant if it == 0 then msgs == frames[k..] else it == 1 && k == |q.done| && msgs == [q.open] == frames[k..]
      invariant events == ReadEvents(peer, Buffers(q.done[..k]))
      decreases |msgs| - it
    {
      if msgs[it].IsComplete() {
        assert k < |q.done| && msgs[it] == q.done[k];
        BuffersPrefix(q.done, k);
        ReadEventsSnoc(peer, Buffers(q.done[..k]), q.done[k].buffer);
        events := events + [ReadEvent(peer, msgs[it].buffer)];
        msgs := msgs[..it] + msgs[it + 1..];
        k := k + 1;
      } else {
        it := it + 1;
      }
    }
    assert k == |q.done| && q.done[..k] == q.done;
  }

  class PeerService {
    var handShaked: set<PeerId>
    var timestamps: map<PeerId, int>

    constructor ()
      ensures handShaked == {} && timestamps == map[]
    {
      handShaked, timestamps := {}, map[];
    }

    /** The `ReadEvent` branch of `read`. */
    method Read(event: ReadEvent, time: int) returns (result: Wire.PeerEvent)
      requires event.peer !in handShaked ==> !Codec.DecodeHandShake(event.message).PastEnd?
      modifies this
      ensures handShaked == old(handShaked) + {event.peer}
      ensures var d := if event.peer in old(handShaked) then Codec.Decode(event.message)
                       else Codec.DecodeHandShake(event.message);
              result == Wire.Event(d)
              && timestamps == if d.Ok? && !d.message.KeepAlive? then old(timestamps)[event.peer := time]
                               else old(timestamps)
    {
      var decoded;
      if event.peer in handShaked {
        decoded := Codec.DecodeMessage(event.message);
      } else {
        handShaked := handShaked + {event.peer};
        decoded := Codec.DecodeHandShakeMessage(event.message);
      }
      if decoded.SerializeError? {
        return Wire.ConnectionDisconnected;
      }
      if !decoded.message.KeepAlive? {
        timestamps := timestamps[event.peer := time];
      }
      return Wire.Message(decoded.message);
    }
  }

  // ------------------------------------------------------------------ the receiving path as a whole

  lemma {:induction false} EventsSnoc(first: bool, frames: seq<seq<byte>>, f: seq<byte>)
    ensures Wire.Events(first, frames + [f])
         == Wire.Events(first, frames)
            + [Wire.Event(if first && frames == [] then Codec.DecodeHandShake(f) else Codec.Decode(f))]
  {
    hide Wire.Event, Codec.DecodeHandShake, Codec.Decode;
    if frames == [] {
      assert frames + [f] == [f];
    } else {
      EventsSnoc(false, frames[1..], f);
      assert (frames + [f])[1..] == frames[1..] + [f];
    }
  }

  /** The manager thread reads everything that was pushed for a peer with these `earlier` frames. */
  method ReadPushed(service: PeerService, peer: PeerId, frames: seq<seq<byte>>, time: int,
                    ghost earlier: seq<seq<byte>>, events: seq<Wire.PeerEvent>)
    returns (events': seq<Wire.PeerEvent>)
    requires events == Wire.Events(true, earlier)
    requires service.handShaked == if earlier == [] then {} else {peer}
    requires earlier == [] && frames != [] ==> !Codec.DecodeHandShake(frames[0]).PastEnd?
    modifies service
    ensures events' == Wire.Events(true, earlier + frames)
    ensures service.handShaked == if earlier + frames == [] then {} else {peer}
  {
    hide Wire.Events, Wire.Event, Codec.DecodeHandShake, Codec.Decode;
    events' := events;
    var i := 0;
    assert earlier + frames[..0] == earlier;
    while i < |frames|
      invariant 0 <= i <= |frames|
      invariant events' == Wire.Events(true, earlier + frames[..i])
      invariant service.handShaked == if earlier == [] && i == 0 then {} else {peer}
    {
      var e := service.Read(ReadEvent(peer, frames[i]), time);
      events' := events' + [e];
      assert earlier + frames[..i + 1] == (earlier + frames[..i]) + [frames[i]];
      EventsSnoc(true, earlier + frames[..i], frames[i]);
      i := i + 1;
    }
    assert frames[..i] == frames;
  }

  function Payloads(events: seq<ReadEvent>): (frames: seq<seq<byte>>)
    ensures |frames| == |events|
  {
    if events == [] then [] else [events[0].message] + Payloads(events[1..])
  }

  lemma {:induction false} PayloadsOfEvents(peer: PeerId, frames: seq<seq<byte>>)
    ensures Payloads(ReadEvents(peer, frames)) == frames
  {
    if frames == [] {
    } else {
      PayloadsOfEvents(peer, frames[1..]);
    }
  }

  /** One chunk: the epoll thread frames and drains it, the manager thread reads what was pushed. `r` is
      what earlier chunks led to. */
  method HandleChunk(epoll: EpollService, service: PeerService, peer: PeerId, chunk: seq<byte>, time: int,
                     ghost r: Delivered, events: seq<Wire.PeerEvent>)
    returns (events': seq<Wire.PeerEvent>, threw: bool)
    requires epoll.buffMan.Valid() && epoll.queue == [] && epoll.buffMan.View(peer) == r.q && !r.threw
    requires |chunk| < 0x8000_0000 && events == Wire.Events(true, r.flushed)
    requires service.handShaked == if r.flushed == [] then {} else {peer}
    requires var fs := Continue(r, chunk).flushed; fs != [] ==> !Codec.DecodeHandShake(fs[0]).PastEnd?
    modifies epoll, epoll.buffMan, service
    ensures epoll.buffMan.Valid() && epoll.queue == [] && epoll.buffMan.View(peer) == Continue(r, chunk).q
    ensures events' == Wire.Events(true, Continue(r, chunk).flushed) && threw == Continue(r, chunk).threw
    ensures service.handShaked == if Continue(r, chunk).flushed == [] then {} else {peer}
  {
    ghost var d := Deliver(r.q, chunk);
    assert chunk[..|chunk|] == chunk;
    assert r.flushed == [] ==> r.flushed + d.flushed == d.flushed;
    hide Deliver, ReadEvents, Wire.Events, Codec.DecodeHandShake;
    threw := epoll.WriteToBuffer(peer, chunk, |chunk|);
    assert [] + ReadEvents(peer, d.flushed) == ReadEvents(peer, d.flushed);
    PayloadsOfEvents(peer, d.flushed);
    var pushed := Payloads(epoll.queue);
    epoll.queue := [];
    events' := ReadPushed(service, peer, pushed, time, r.flushed, events);
  }

  /** The two threads at work on one peer's chunks compute what `Wire.Receive` says. */
  method Session(peer: PeerId, chunks: seq<seq<byte>>, time: int)
    returns (events: seq<Wire.PeerEvent>, threw: bool)
    requires forall c <- chunks :: |c| < 0x8000_0000
    ensures events == Wire.Receive(chunks).events && threw == Wire.Receive(chunks).threw
  {
    var epoll := new EpollService();
    var service := new PeerService();
    events, threw := [], false;
    var i := 0;
    assert Wire.Events(true, []) == [] && chunks[..0] == [];
    hide Deliver, Continue, ReadEvents, Wire.Events, Codec.DecodeHandShake;
    while i < |chunks|
      invariant 0 <= i <= |chunks| && epoll.buffMan.Valid() && epoll.queue == []
      invariant epoll.buffMan.View(peer) == Run(chunks[..i]).q && threw == Run(chunks[..i]).threw
      invariant events == Wire.Events(true, Run(chunks[..i]).flushed)
      invariant service.handShaked == if Run(chunks[..i]).flushed == [] then {} else {peer}
      invariant fresh(epoll) && fresh(epoll.buffMan) && fresh(service)
    {
      RunNext(chunks, i);
      FirstFrameInBounds(chunks[..i + 1]);
      ghost var r := Run(chunks[..i]);
      hide Run, Resume;
      if threw {
        NothingMore(r, chunks[i]);
      } else {
        events, threw := HandleChunk(epoll, service, peer, chunks[i], time, r, events);
      }
      i := i + 1;
    }
    assert chunks[..i] == chunks;
  }

  lemma NothingMore(r: Delivered, chunk: seq<byte>)
    requires r.threw && r.q.WellFormed()
    ensures Continue(r, chunk) == r
  {
  }

  lemma RunNext(chunks: seq<seq<byte>>, i: nat)
    requires i < |chunks|
    ensures Run(chunks[..i + 1]) == Continue(Run(chunks[..i]), chunks[i])
  {
    var cs := chunks[..i + 1];
    assert ButLast(cs) == chunks[..i] && Last(cs) == chunks[i];
  }

  lemma FirstFrameInBounds(chunks: seq<seq<byte>>)
    ensures var fs := Run(chunks).flushed; fs != [] ==> !Codec.DecodeHandShake(fs[0]).PastEnd?
  {
    Wire.FirstFrameIsLong(chunks);
    hide Run, Resume, Codec.DecodeHandShake;
    if Run(chunks).flushed != [] {
      Codec.HandShakeFrameInBounds(Run(chunks).flushed[0]);
    }
  }
}
