# Fractals: a verified model of a BitTorrent client

Fractals is a BitTorrent client after BEP 3. This project models its core in Dafny and proves what that
core is for: messages survive the wire, what reaches the disk is what the torrent promises, a download
ends, events pass between threads once and in order, and connection slots and tracker requests are
accounted for. Where the code does not do so in every case, the exact condition is proved.

`dafny verify dfyconfig.toml` checks everything.

## The parts

**The wire path.** `Bytes` and `Bitfields` hold the integers and bit fields, `Codec` the twelve messages.
`Framer` says what `BufferedQueueManager` does with a chunk of bytes and `Stream` what it does with a stream
of frames; `Wire` puts framing, draining and decoding together for the first connection of a peer, and
`Reconnect` is about later ones. `Receiver` holds the classes, whose methods are proved against these
functions. Bytes are numbers below 256; where the program reads a `char` as a number, its sign is modelled.
The main result is `Wire.WireRoundTrip`, an equivalence: `parseMessage` takes up to four prefix bytes even
when some are already buffered (BufferedQueueManager.h:113), so short frames can be overrun when their prefix
is split; the theorem says exactly which cuts are harmful. `Reconnect.ConnectionsExactly` is its counterpart for
any number of connections. No condition is needed for byte conservation until an exception stops the receiver.

**The download.** `Tiling` is the layout of the pieces, `Pieces` the piece manager, `Protocol` one connection,
`Disk` the scatter over files. A `Repo` or `Conn` is the value of a `PieceStateManager` or `Protocol` object;
`Protocol.OnMessage` is proved to do what the function `Respond` says, and the results about runs are about
`Respond`: `Conversation` for one connection over its whole life, `Swarm` for any connections and any
messages, `Honest` for peers that answer truthfully, `Twice` for pieces that are written twice, `Download` for
one peer up to the end, and `Progress` for how any number of truthful peers advance a download. `Verdicts` says
exactly when a message ends a connection, leads to a request or completes a piece. `EndToEnd` goes from the hashes
of a torrent to the bytes on disk: `EndToEnd.DownloadedTorrent`. SHA-1 is an arbitrary function. `nextAvailablePiece` iterates over an unordered set, so the piece it returns is any that
fits: the parameter `pick`.

**Queues and threads.** `RingBuffer` is `WorkQueueImpl` in one thread. `RingThreads` cuts `push` and `pop` into
the steps between which the other thread can run, with the two reads of `size()` apart, and in either order.
It shows accepted events delivered once and in order, and also that the check is not exact:
`RingThreads.WhenAPushDrops` and `RingThreads.EveryEventIsDelivered` say when an event is dropped although
there is room. `RingLoss.LossExactly` says when an accepted event is lost. `WakeUp` is `QueueCoordinator::waitOnNotify`.

**Schedulers.** `Slots` is the state of `PeerTracker` and its invariant, `PeerTracker` and `Connections` the
objects and whole runs, `PeerCommands` and `ManagerRuns` what the commands are and what comes of them; which idle
peer is found, and in which order torrents are served, is left open by recording the choices in `Round`. `Announce` is the announce service and `TrackerRuns` what it does over runs; the
clock is a parameter.

`Common` holds what several parts share.

## Where the code differs from what one would expect

- BufferedQueueManager.h:113 takes four bytes, not the missing ones: `Stream.FramesRoundTrip`, `Wire.SplitKeepAliveIsLost`.
- `mReadBuffers` is kept when a peer disconnects, but the handshake is forgotten: on a later connection of
  the same peer the handshake is read as a frame with a length prefix, `Reconnect.ConnectionsExactly`,
  `Reconnect.SecondConnection`. After a connection that broke off inside its handshake, that frame is filled up
  with bytes of the next connection, `Reconnect.AfterBrokenHandShake`.
- A protocol string of 128 bytes or more does not survive, because its length is read as a signed `char`: `Codec.HandShakeRoundTrip`.
- A buffer shorter than a length prefix can decode as a message: `Codec.EncodeDecode` needs four bytes.
- Pieces stay in `mAllPieces`, so the branch of `onMessage(Piece)` for completed pieces without a state is not
  taken, `Twice.UnknownPieceIsAnError`; a late block for a completed piece starts a new buffer, and a piece
  may be verified and written twice, `Twice.TwoWrites`.
- The client asks for zero bytes of an empty piece, and an empty answer completes it: `Download.RequestableExactly`,
  `Download.EmptyPieceArrives`.
- What is missing of a piece is taken in 32 bits, so a piece of 2^32 bytes or more never arrives:
  `Download.LargePieceNeverArrives`.
- An event can be dropped by `WorkQueueImpl::push` on an empty queue, see above: `RingThreads.EveryEventIsDelivered`.
- An event that `push` accepted can be overwritten before it is returned: a pop in progress lets a push begin on a
  full queue, and the next one finds neither room nor the queue full. `RingLoss.LossExactly` says exactly when,
  `RingLoss.LosesAnEvent` gives the run.
- `findNotConnectedPeer` ignores its torrent, so a peer can count as active for a torrent that is not its own,
  and `onPeerDisconnect` then does not remove it there: `Slots.RemovedFreesSlot`, `Connections.LeakedSlot`.
  The cap of 20 holds all the same.
- `delayedRequests` is keyed by the torrent of a reply and `executedRequests` by tracker: with a shared tracker
  the drain loop can run for ever, `Announce.DrainEndsExactly`, `Announce.SharedTrackerNeverEnds`.
- A reply with neither an announce nor an error clears the record of the query and puts nothing off, so that its
  torrent waits for ever: `TrackerRuns.RepliedPending`, `TrackerRuns.SilentReplyForgets`.
- `getConnectedPeerCount` counts established connections and does not fall when they are lost:
  `ManagerRuns.ConnectedCount`.
- `TrackerState::canAnnounce` adds the seconds that a tracker asked for to a time in nanoseconds:
  `Announce.IntervalKept`.

## Model

| member | source | states |
|---|---|---|
| Bytes.ParsePrint | include/fractals/common/utils.h:131-172 | reading a printed integer gives it back, for every width and every number that fits |
| Bytes.PrintParse | include/fractals/common/utils.h:131-172 | printing a read integer gives the bytes back, for every byte string |
| Bytes.IntToBytes | include/fractals/common/utils.h:131-143 | the shifting loop yields the big-endian digits |
| Bytes.BytesToInt | include/fractals/common/utils.h:148-172 | the loop reads the big-endian number in the first bytes, fewer if there are fewer, and consumes exactly those |
| Bitfields.UnpackPack | src/fractals/common/utils.cpp:200-267 | unpacking packed bits gives the bits followed by zeros up to a multiple of eight |
| Bitfields.PackUnpack | src/fractals/common/utils.cpp:200-267 | packing unpacked bytes is the identity on bytes |
| Bitfields.AnnouncedPieces | src/fractals/common/utils.cpp:200-267 | the set positions survive packing and unpacking: padding announces no piece |
| Bitfields.PieceBit | src/fractals/common/utils.cpp:245-267 | piece p is bit p % 8 of byte p / 8, counted from the highest |
| Bitfields.BitfieldToBytes | src/fractals/common/utils.cpp:200-226 | the loop that ors bits into a byte and pushes it every eighth bit computes `Pack` |
| Bitfields.BytesToBitfield | src/fractals/common/utils.cpp:245-267 | the two nested loops compute `Unpack` of the first `len` bytes |
| Codec.DecodeEncode | include/fractals/network/p2p/BitTorrentEncoder.h:20-119 | decoding an encoded message of the eleven prefixed kinds returns it if and only if its length field does not wrap; otherwise the decoder reports a length mismatch |
| Codec.EncodeDecode | include/fractals/network/p2p/BitTorrentEncoder.h:83-119 | a buffer that `decode` accepts is printed back unchanged if and only if it has at least four bytes |
| Codec.HandShakeRoundTrip | include/fractals/network/p2p/BitTorrentEncoder.h:49-68 | a handshake decodes to itself if and only if the length of its protocol string survives the signed `char`; otherwise it is rejected |
| Codec.PrintDecodedHandShake | include/fractals/network/p2p/BitTorrentEncoder.h:49-68 | every buffer that `decodeHandShake` accepts is printed back unchanged |
| Codec.HandShakeFrameInBounds | src/fractals/network/p2p/BitTorrentEncoder.cpp:108-129 | a frame of at least 49 bytes is never read past its end by the handshake decoder |
| Codec.DecodeHandShakeMessage | include/fractals/network/p2p/BitTorrentEncoder.h:49-68 | `decodeHandShake` over a shrinking view is `DecodeHandShake`, for every buffer whose end it does not read past |
| Codec.EncodedPrefix | include/fractals/network/p2p/BitTorrentEncoder.h:20-40 | the frame of a message has four bytes more than its prefix says |
| Codec.DecodedExactly | include/fractals/network/p2p/BitTorrentEncoder.h:83-119 | every buffer is accepted, or rejected for a wrong length field, an unknown kind or a wrong size of its kind, each if and only if that is so |
| Codec.EncodedFrame | src/fractals/network/p2p/BitTorrentEncoder.cpp:12-99 | every message is sent as the bytes that BEP 3 gives for it, written out number by number |
| Codec.EncodePayload | src/fractals/network/p2p/BitTorrentEncoder.cpp:12-99 | the twelve payload printers append exactly the payload to the buffer |
| Codec.EncodeMessage | include/fractals/network/p2p/BitTorrentEncoder.h:20-40 | `encode` produces `Encode`, with a prefix and a type byte for the kinds that have one |
| Codec.DecodeMessage | include/fractals/network/p2p/BitTorrentEncoder.h:83-119 | `decode` over a shrinking view is `Decode` |
| Codec.DecodePayloadFrom | src/fractals/network/p2p/BitTorrentEncoder.cpp:131-261 | the payload readers, each with its own length test, are `DecodePayload` |
| Framer.StepConserves | include/fractals/network/p2p/BufferedQueueManager.h:75-128 | one `parseMessage`: what was held plus the data is what is held plus what is left over |
| Framer.FeedConserves | include/fractals/network/p2p/BufferedQueueManager.h:63-73 | the loop of `addToReadBuffer` loses and duplicates no byte, with no condition on the input, and a complete frame is there afterwards if and only if one was there before or the flag is true |
| Framer.DeliverInvariant | include/fractals/network/p2p/EpollService.ipp:117-137 | from a deque without complete frames: the flag is true exactly when a complete frame exists, the drain leaves none, and flushed frames plus residue are the residue before plus the chunk |
| Framer.RunConserves | include/fractals/network/p2p/EpollService.ipp:117-137 | for every chunking of every byte stream, unless the receiver stopped with an exception, all flushed frames followed by the residue are all the bytes received |
| Framer.ResumeConserves | include/fractals/network/p2p/EpollService.ipp:117-137 | the same on any connection, after the bytes that were held at its beginning |
| Stream.RunFrames | include/fractals/network/p2p/BufferedQueueManager.h:63-128 | on a first connection, and on a later one that begins with a frame of its own length: after every safely cut prefix of a stream of frames exactly the whole frames were flushed and exactly the rest is held |
| Stream.UnsafeSplitSpoils | include/fractals/network/p2p/BufferedQueueManager.h:113-124 | on either kind of connection, after an unsafe cut some flushed frame is longer than what was sent, or the receiver stopped with an exception, whatever follows |
| Stream.FramesRoundTrip | include/fractals/network/p2p/BufferedQueueManager.h:63-128 | on either kind of connection, the framer returns exactly the frames that were sent if and only if no cut lets line 113 read past the end of a frame |
| Stream.LongFramesAreSafe | include/fractals/network/p2p/BufferedQueueManager.h:113-121 | frames with a length field of three or more are safe however they are cut |
| Wire.WireRoundTrip | include/fractals/network/p2p/PeerService.h:116-151 | on the first connection of a peer, framing, draining and decoding the encodings of a handshake and any messages, cut into any chunks, yields exactly them in order and holds nothing back, if and only if the protocol string is shorter than 128 bytes and the cuts are safe |
| Wire.LongMessagesAlwaysArrive | include/fractals/network/p2p/PeerService.h:116-151 | on the first connection, messages with a length field of at least three arrive under every chunking |
| Wire.SplitKeepAliveIsLost | include/fractals/network/p2p/BufferedQueueManager.h:113 | a concrete run: a KeepAlive cut after its first byte and followed by a Choke does not arrive |
| Wire.FirstFrameIsLong | include/fractals/network/p2p/BufferedQueueManager.h:82-93 | the first frame flushed for a peer has at least 49 bytes, whatever was received |
| Reconnect.NeverUndefined | include/fractals/network/p2p/PeerService.h:142-150 | whatever bytes a peer sends over any number of connections, the deque being kept and the handshake forgotten between them, no decoder reads past the end of a frame |
| Reconnect.ArrivesExactly | include/fractals/network/p2p/BufferedQueueManager.h:75-128 | a frame sent alone by a known peer, cut in any way, is flushed as it was sent if and only if its first four bytes read as its size minus four |
| Reconnect.SizedHandShake | include/fractals/network/p2p/BufferedQueueManager.h:116-121 | that is true of a handshake if and only if it has no protocol string and its reserved bytes begin with 0, 0, 45 |
| Reconnect.LaterHandShakeIsLost | include/fractals/network/p2p/BufferedQueueManager.h:75-128 | any other handshake is not the first event of a later connection, under every chunking and whatever follows it |
| Reconnect.LaterConnection | include/fractals/network/p2p/PeerService.h:116-151 | a handshake and any messages, cut into any chunks, are received exactly on a later connection if and only if the handshake looks sized in that way and the cuts are safe |
| Reconnect.ConnectionsExactly | include/fractals/network/p2p/PeerService.h:116-222 | over any number of connections of one peer, each sent in full and cut in any way, all are received exactly if and only if every one is cut safely, the first handshake has a protocol string below 128 bytes, and every later one looks sized |
| Reconnect.LeftoverSpoils | include/fractals/network/p2p/BufferedQueueManager.h:75-128 | a connection that finds bytes of an earlier one in the deque is never received exactly, whatever it sends |
| Reconnect.BrokenHandShakeContinues | include/fractals/network/p2p/BufferedQueueManager.h:95-102 | when a first connection broke off inside its handshake, the first frame of the next is that handshake filled up with the first bytes of the next connection, however both were cut, unless the receiver stopped with an exception |
| Reconnect.AfterBrokenHandShake | include/fractals/network/p2p/PeerService.h:142-150 | then, unless the receiver stopped with an exception, the next connection begins with the event of its own handshake if and only if the bytes of both connections together begin with that handshake; and it is never received exactly |
| Reconnect.SecondConnection | include/fractals/network/p2p/PeerService.h:213-222 | after a first connection that was received in full, the handshake of a second one of the same peer is lost |
| Receiver.FirstContact | include/fractals/network/p2p/BufferedQueueManager.h:82-93 | the branch for an unknown peer performs the step `Parse` |
| Receiver.ExtendBody | include/fractals/network/p2p/BufferedQueueManager.h:95-102 | the branch for a frame of known length performs the step `Parse` |
| Receiver.ExtendPrefix | include/fractals/network/p2p/BufferedQueueManager.h:104-124 | the branch for a frame of unknown length performs the step `Parse`, line 113 included |
| Receiver.BufferedQueueManager.ParseMessage | include/fractals/network/p2p/BufferedQueueManager.h:75-128 | one step on the deque of one peer: the abstract buffer moves as `Next` says, the deque keeps all frames but the last complete, other peers are untouched |
| Receiver.BufferedQueueManager.AddToReadBuffer | include/fractals/network/p2p/BufferedQueueManager.h:63-73 | the loop ends and leaves the state `Feed`; the flag is `AnyComplete` |
| Receiver.EpollService.WriteToBuffer | include/fractals/network/p2p/EpollService.ipp:117-137 | the state afterwards and the frames pushed are those of `Deliver` |
| Receiver.EpollService.Drain | include/fractals/network/p2p/EpollService.ipp:123-135 | exactly the complete frames are pushed, in order, and exactly the incomplete one stays |
| Receiver.DrainFrames | include/fractals/network/p2p/EpollService.ipp:124-135 | the loop that erases while it walks |
| Receiver.PeerService.Read | include/fractals/network/p2p/PeerService.h:116-151 | the first frame of a peer goes to the handshake decoder and all others to `decode`; errors disconnect; KeepAlive leaves the timestamp |
| Receiver.Session | include/fractals/network/p2p/PeerService.h:116-151 | the two threads, working through any chunks of one peer, compute `Wire.Receive` |
| Disk.DiskIOService.ProcessInitTorrent | include/fractals/disk/DiskIOService.h:132-159 | a new torrent gets its missing files, existing content is kept, and the response is pushed once |
| Disk.DiskIOService.ProcessWriteData | include/fractals/disk/DiskIOService.h:93-130 | for any file lengths, zero included, and distinct paths, the scatter loop is one write at the offset in the flattened torrent; no other file changes, and none behind its length |
| Disk.DiskIOService.ProcessAll | include/fractals/disk/DiskIOService.h:37-40 | processing a queue of writes splices them into the flat torrent one after the other |
| Disk.DiskIOService.ScatterFiles | include/fractals/disk/DiskIOService.h:104-127 | the loop over `index`, `offset` and `view` |
| Disk.ResponsesExactly | include/fractals/disk/DiskIOService.h:93-130 | each processed write is reported, in order, by its torrent and piece |
| Disk.PathOfFile | include/fractals/disk/DiskIOService.h:203-207 | a path leads through the directory of the torrent and that of the file to its name; for names without a slash two files have one path if and only if they have one directory and one name |
| Disk.DiskIOService.WritePart | include/fractals/disk/DiskIOService.h:110-124 | the body of that loop |
| Disk.DiskIOService.WriteToFile | include/fractals/disk/DiskIOService.h:179-194 | only the named file changes, by the given bytes at the given offset |
| Tiling.AddPieces | src/fractals/persist/PersistClient.cpp:72-90 | the rows written for a torrent, the size of the last one computed in unsigned 64-bit arithmetic |
| Tiling.AddedRow | src/fractals/persist/PersistClient.cpp:72-90 | row i is piece i, begins at pieceLength * i, has the bytes 20 * i to 20 * i + 20 of the hashes, and is still to be downloaded |
| Tiling.HashesInOrder | src/fractals/persist/PersistClient.cpp:72-90 | the hashes of the rows, one after the other, are the hashes of the torrent |
| Tiling.AddedSize | src/fractals/persist/PersistClient.cpp:72-90 | in a torrent that its full pieces do not exceed, each piece ends where the next begins, and the last at the end |
| Tiling.AddedPiecesTile | src/fractals/persist/PersistClient.cpp:72-90 | those rows cover exactly [0, total), each position once, if and only if pieceLength * (n - 1) <= total |
| Tiling.RowsTile | src/fractals/network/p2p/PieceStateManager.cpp:93-98 | rows laid out by a running offset cover [0, total) exactly once if and only if their sizes sum to total |
| Pieces.PopulatedRow | src/fractals/network/p2p/PieceStateManager.cpp:75-99 | the first row of each piece number becomes a piece with an empty buffer, its size, its running offset and its hash |
| Pieces.PopulatedWants | src/fractals/network/p2p/PieceStateManager.cpp:75-99 | for any manager and any rows: a piece is wanted afterwards if and only if it was wanted or some row lists it as not complete; pieces and hashes that were known are kept, and no others appear than those of the rows |
| Pieces.PieceStateManager.Populate | src/fractals/network/p2p/PieceStateManager.cpp:75-99 | the two loops compute `Populated`; existing entries are kept |
| Pieces.PieceStateManager.NextAvailablePiece | src/fractals/network/p2p/PieceStateManager.cpp:113-132 | returns some piece that the peer has, that is still wanted and known, exactly when there is one |
| Pieces.PieceStateManager.MakeCompleted | src/fractals/network/p2p/PieceStateManager.cpp:154-163 | a known piece leaves the wanted set, joins the completed set and loses its buffer; all other pieces are untouched |
| Pieces.PieceStateManager.HashCheck | include/fractals/network/p2p/PieceStateManager.h:65-79 | true exactly for a piece with a stored hash that the data has |
| Protocol.Protocol.OnMessage | include/fractals/network/p2p/Protocol.ipp:36-208 | for all twelve kinds the handler changes the connection, the shared pieces, the outgoing messages and the disk queue as `Respond` says |
| Protocol.Protocol.OnPiece | include/fractals/network/p2p/Protocol.ipp:142-194 | the handler of Piece, with its early returns |
| Protocol.Protocol.AcceptBlock | include/fractals/network/p2p/Protocol.ipp:145-191 | everything the handler of Piece does before it requests the next piece |
| Protocol.Protocol.FinishPiece | include/fractals/network/p2p/Protocol.ipp:166-186 | a complete piece is written and marked completed if its hash matches, and its buffer is cleared otherwise |
| Protocol.Protocol.OnBitfield | include/fractals/network/p2p/Protocol.ipp:107-132 | the loop over the bits, counted in 32 bits |
| Protocol.Protocol.OnUnChoke | include/fractals/network/p2p/Protocol.ipp:61-73 | only a connection that was choked requests a piece |
| Protocol.Protocol.RequestNextPiece | include/fractals/network/p2p/Protocol.ipp:221-251 | the request, and the state returned, for the piece that was found |
| Protocol.BitfieldReceived | include/fractals/network/p2p/Protocol.ipp:107-132 | a Bitfield printed from at most 2^32 bits adds exactly the set positions to the pieces of the peer |
| Verdicts.ResultExactly | include/fractals/network/p2p/Protocol.ipp:36-251 | for any message in any state: HASH_CHECK_FAIL, ERROR, COMPLETE and CLOSED are each returned if and only if their condition holds |
| Verdicts.SentExactly | include/fractals/network/p2p/Protocol.ipp:36-251 | at most one message is sent in return: a KeepAlive if and only if one was received, Interested if and only if this is the first offer of a piece, a request if and only if the client looks for a piece, is not choked, and the peer has one that is wanted |
| Verdicts.PiecesExactly | include/fractals/network/p2p/Protocol.ipp:142-191 | an expected block extends its buffer; a full piece is written and completed if its hash matches, and dropped otherwise, and its buffer is empty in both cases; no other piece and no other message changes anything |
| Verdicts.BufferCollects | include/fractals/network/p2p/Protocol.ipp:161-186 | in every run, with any connections and messages, the buffer of a piece is the blocks it expected since it was last emptied, in order |
| Conversation.KnownExactly | include/fractals/network/p2p/Protocol.ipp:90-132 | at every point of every conversation the client knows a piece of its peer if and only if a Bitfield, or a Have while it was not completed, named it and this connection has not written it since |
| Conversation.HaveReceived | include/fractals/network/p2p/Protocol.ipp:92-104 | a Have adds its piece unless that is completed, and leads to Interested if and only if the client was not interested before |
| Conversation.ClientFollowsPeer | include/fractals/network/p2p/Protocol.ipp:36-251 | for every sequence of messages on a connection, whatever other connections do in between: choke and interest flags are those of the last such message, requests go only to a peer that is not choking and only for pieces it named that are still wanted, it knows exactly the pieces that were offered and not written since by this connection, Interested is sent once, if and when a piece is first offered, and CLOSED is returned only for a Cancel, an inactive torrent, or when the peer has nothing that is wanted |
| Swarm.HandlePieceInv | include/fractals/network/p2p/Protocol.ipp:142-191 | any Piece message keeps the integrity invariant and never leads to COMPLETE by itself |
| Swarm.RespondInv | include/fractals/network/p2p/Protocol.ipp:36-251 | any message on any connection keeps the integrity invariant; COMPLETE is returned only when nothing is wanted |
| Swarm.Integrity | include/fractals/network/p2p/Protocol.ipp:142-251 | in every run of any connections over one piece manager, with arbitrary messages: every write is a whole piece at its offset with a matching hash, wanted = initially missing minus completed, and after COMPLETE every initially missing piece has a write |
| Swarm.OpenOverRuns | include/fractals/network/p2p/BitTorrentManager.ipp:326-361 | in every run a peer has a connection if and only if it connected and did not disconnect since |
| Swarm.ConnectionsApart | include/fractals/network/p2p/Protocol.ipp:36-251 | what a connection remembers changes only at messages of its own peer |
| Swarm.CompleteFromRows | include/fractals/network/p2p/Protocol.ipp:221-251 | in every run over a manager populated from any rows, COMPLETE is returned only when every row that was not complete has a verified write |
| EndToEnd.AddedHashCheck | include/fractals/network/p2p/PieceStateManager.h:65-79 | in a torrent just added and populated, data passes the check of piece i if and only if its digest is the bytes 20 * i to 20 * i + 20 of the hashes |
| EndToEnd.DownloadedTorrent | include/fractals/disk/DiskIOService.h:93-130 | for a torrent just added, with any number of peers and whatever they send: after COMPLETE and the disk writes, each piece of the torrent on disk has the digest that the hashes give for it |
| Swarm.RangeAfter | include/fractals/disk/DiskIOService.h:104-127 | after any verified writes the range of a piece holds what was last written for it, or what was there |
| Swarm.DiskIntegrity | include/fractals/disk/DiskIOService.h:93-130 | in every run, after any part of the queue was processed, every piece that was written hashes correctly on disk and all others are as before |
| Swarm.PopulatedReady | src/fractals/network/p2p/PieceStateManager.cpp:75-99 | a manager populated from rows that tile the torrent satisfies what the results about runs assume |
| Progress.StepWork | include/fractals/network/p2p/Protocol.ipp:142-251 | with any number of honest connections, an event takes exactly one off the number of blocks still to come if it is a block that a wanted piece goes on with, and leaves that number alone otherwise |
| Progress.BlocksTaken | include/fractals/network/p2p/Protocol.ipp:142-251 | in every honest run, however many blocks arrive twice or late, the number of such blocks and of those still to come add up to what was to come at the start, and nothing is wanted any more if and only if the first has reached it |
| Twice.UnknownPieceIsAnError | include/fractals/network/p2p/Protocol.ipp:145-159 | a block of a piece without a state is answered with ERROR in every reachable state: the branch for completed pieces is not reached |
| Twice.WritesAgain | include/fractals/network/p2p/Protocol.ipp:161-177 | a message leads to a further write of a piece that was written if and only if it is a block that continues the buffer of a completed piece and gives it its size and its hash |
| Twice.TwoWrites | include/fractals/network/p2p/Protocol.ipp:142-251 | a run of two truthful connections that queues two writes of one piece |
| Honest.TrueBlockHandled | include/fractals/network/p2p/Protocol.ipp:161-191 | for pieces of any size, empty ones included: a block of true bytes extends its buffer when it is the next one and is ignored otherwise; a piece that it completes passes the hash check |
| Honest.NextRequestIsGood | include/fractals/network/p2p/Protocol.ipp:226-231 | a request continues the buffer, lies inside its piece and asks for 2^14 bytes or for what is left below them, which is at least one byte if the piece is not empty and smaller than 2^32 bytes |
| Honest.HonestPeers | include/fractals/network/p2p/Protocol.ipp:142-251 | in every run in which each Piece answers, however late or often, a request sent to its peer with the true bytes, for pieces of any size, empty ones included: buffers are prefixes of the true pieces, all requests lie inside their pieces, all writes are true, and no answer is HASH_CHECK_FAIL or ERROR |
| Download.NextReaction | include/fractals/network/p2p/Protocol.ipp:142-251 | one answered request is exactly one block less to do, whichever piece is picked next |
| Download.DownloadTerminates | include/fractals/network/p2p/Protocol.ipp:61-251 | against one unchoking peer that has what is missing, in pieces smaller than 2^32 bytes, no dialogue has more answers than missing blocks, an empty piece counting as one, a shorter one can always go on, and COMPLETE is returned exactly at that number |
| Download.DownloadedContent | include/fractals/disk/DiskIOService.h:93-130 | after COMPLETE and the disk writes, the flat torrent holds the true bytes of every piece that was missing and is unchanged elsewhere |
| Download.EachWrittenOnce | include/fractals/network/p2p/Protocol.ipp:166-177 | with one peer every missing piece is written exactly once |
| Download.RequestableExactly | include/fractals/network/p2p/Protocol.ipp:226-231 | every request of a wanted piece asks for something and stays inside if and only if the piece has at least one byte and fewer than 2^32 |
| Download.EmptyPieceArrives | include/fractals/network/p2p/Protocol.ipp:161-231 | of an empty piece zero bytes are asked for, and an empty block completes it and has it written |
| Download.LargePieceNeverArrives | include/fractals/network/p2p/Protocol.ipp:221-251 | a download with a missing piece of 2^32 bytes or more never returns COMPLETE |
| RingBuffer.WorkQueue.Push | include/fractals/common/WorkQueue.h:49-69 | the contents become `Offer`: only the new event is dropped, and only on a full queue |
| RingBuffer.WorkQueue.Pop | include/fractals/common/WorkQueue.h:76-83 | the oldest event is returned and removed |
| RingBuffer.WorkQueue.Calibrate | include/fractals/common/WorkQueue.h:25-41 | moving the indices back by whole rounds keeps the contents |
| RingBuffer.WorkQueue.Run | include/fractals/common/WorkQueue.h:25-96 | any sequence of pushes and non-empty pops refines the bounded queue `After`, with 0 <= tail <= SIZE and tail <= head <= tail + SIZE throughout |
| RingBuffer.FirstInFirstOut | include/fractals/common/WorkQueue.h:49-83 | over every run, events popped followed by events queued are those queued at first followed by the accepted ones, in order |
| RingBuffer.NothingDropped | include/fractals/common/WorkQueue.h:51-55 | pushes that cannot outnumber the free slots are all accepted |
| RingThreads.AnyStep | include/fractals/common/WorkQueue.h:25-83 | each of the nine sub-steps of `push` and `pop` keeps the invariant of the two threads |
| RingThreads.DeliveredInOrder | include/fractals/common/WorkQueue.h:25-83 | in every interleaving in which no push begins with more events than slots, accepted events are returned once and in order, and between operations the live slots hold the others |
| RingThreads.WhenAPushDrops | include/fractals/common/WorkQueue.h:51-55 | a push that began with room drops its event if and only if the empty queue looks full to it: the consumer moved both indices back and emptied the queue between the two reads of `size()`; any other that drops began on a full queue |
| RingThreads.AcceptedUnlessDropped | include/fractals/common/WorkQueue.h:49-69 | in every run, the events offered are the events accepted, in order, but for a push in progress, if and only if no check finds the queue full |
| RingThreads.EveryEventIsDelivered | include/fractals/common/WorkQueue.h:25-83 | in every interleaving in which no push begins on a full queue, the events offered, but for a push in progress, are accepted, and so returned once and in order, if and only if no check happens while the empty queue looks full |
| RingThreads.UndisturbedCheck | include/fractals/common/WorkQueue.h:51-55 | a size check that the consumer does not come between drops exactly when the queue is full and the head is not a round behind |
| RingThreads.EmptyQueueLooksFull | include/fractals/common/WorkQueue.h:51-55 | for every size above one, a run without a push on a full queue at whose end an empty queue looks full |
| RingThreads.QueueOverfills | include/fractals/common/WorkQueue.h:31-39 | a run in which a push that begins on a full queue leaves more events than slots |
| RingLoss.StepKeeps | include/fractals/common/WorkQueue.h:25-83 | without any condition on when pushes begin, every sub-step but a write into a full ring keeps all accepted events returned once, in order, or in their slots |
| RingLoss.StoreSpoils | include/fractals/common/WorkQueue.h:56 | a write keeps that order if and only if some slot is free, or the event it replaces equals its own |
| RingLoss.StaysGone | include/fractals/common/WorkQueue.h:25-83 | an event that was not returned, is in no slot and is held by neither thread stays gone in every run in which it is not offered again |
| RingLoss.LossExactly | include/fractals/common/WorkQueue.h:25-83 | in every interleaving of pushes of different events, with no other condition, accepted events are returned once and in order or are in their slots if and only if no push writes while all slots hold unread events; and exactly then no accepted event has vanished |
| RingLoss.GuardedNeverOverwrites | include/fractals/common/WorkQueue.h:49-69 | a run in which no push begins with more events than slots has no such write |
| RingLoss.LosesAnEvent | include/fractals/common/WorkQueue.h:25-83 | for every size above one, a run in which an event is returned in the place of another that was accepted before it |
| WakeUp.NoLostWakeUp | include/fractals/sync/QueueCoordinator.h:104-137 | in every run without forced notification, with any queues and producers: if the consumer sleeps and a queue is not empty, a producer that advanced its head still owes a notify |
| WakeUp.OwedNotifyWakes | include/fractals/sync/QueueCoordinator.h:111-119 | after that notify, the consumer's own steps take it out of the wait with all events still there |
| PeerTracker.PeerTracker.MakeCommandFor | src/fractals/network/p2p/PeerTracker.cpp:147-177 | one round for a torrent: the peers found, the counters and sets changed, the commands returned, and the loop stops only when there is no room or no candidate |
| PeerTracker.PeerTracker.TryPeers | src/fractals/network/p2p/PeerTracker.cpp:150-167 | the loop of `makeCommandFor` |
| PeerTracker.PeerTracker.FindNotConnectedPeer | src/fractals/network/p2p/PeerTracker.cpp:201-218 | finds a peer never connected exactly when there is one, without regard to the torrent |
| PeerTracker.PeerTracker.MakeCommand | src/fractals/network/p2p/PeerTracker.cpp:179-189 | every torrent is served exactly once |
| PeerTracker.PeerTracker.OnAnnounce | src/fractals/network/p2p/PeerTracker.cpp:119-135 | unknown peers are added as idle, known ones are kept, and commands follow |
| PeerTracker.PeerTracker.OnPeerConnect | src/fractals/network/p2p/PeerTracker.cpp:101-117 | the peer is marked connected, and commands follow if its torrent is active |
| PeerTracker.PeerTracker.OnPeerDisconnect | src/fractals/network/p2p/PeerTracker.cpp:75-99 | a known peer is removed and counted down, and commands follow if its torrent is active; an unknown one changes nothing |
| PeerTracker.PeerTracker.DeactivateTorrent | src/fractals/network/p2p/PeerTracker.cpp:62-73 | the torrent becomes inactive and exactly its active peers are to be disconnected |
| Slots.TriedKeeps | src/fractals/network/p2p/PeerTracker.cpp:150-167 | the loop keeps the invariant of the slots and tries only peers that were idle and not tried since they were last lost |
| Slots.RoundsKeep | src/fractals/network/p2p/PeerTracker.cpp:179-189 | the same for all torrents together |
| Slots.ReportKeepsInv | src/fractals/network/p2p/PeerTracker.cpp:75-117 | reporting a connection, or the loss of a known peer, keeps the invariant if and only if the peer was not idle; no later command repairs the count |
| Slots.RemovedFreesSlot | src/fractals/network/p2p/PeerTracker.cpp:84-86 | losing a peer frees the slot it takes up if and only if no torrent but its own has it as active |
| Slots.DisconnectFreesSlot | src/fractals/network/p2p/PeerTracker.cpp:75-99 | the same for the whole of `onPeerDisconnect`, commands included |
| Slots.OneAttemptBetweenLosses | src/fractals/network/p2p/PeerTracker.cpp:147-167 | two attempts for a peer have a loss of that peer between them |
| PeerCommands.TriedJoins | src/fractals/network/p2p/PeerTracker.cpp:150-167 | the peers found for a torrent are connecting and among its active peers afterwards; all other peers and torrents are as before |
| PeerCommands.DialledExactly | src/fractals/network/p2p/PeerTracker.cpp:147-189 | the peers in the TRY_CONNECT commands are exactly those that became busy, each once; all of them were idle and never connected before |
| PeerCommands.AnnouncedExactly | src/fractals/network/p2p/PeerTracker.cpp:170-189 | DO_ANNOUNCE is issued for a served torrent if and only if it is active, had no attempt and has fewer than 20 active peers; no DISCONNECT is issued |
| PeerCommands.NothingLeftToTry | src/fractals/network/p2p/PeerTracker.cpp:147-189 | after the commands no untried peer is left to a torrent with fewer than 20 active peers, unless 200 are connected or connecting |
| ManagerRuns.EmplacedExactly | include/fractals/network/p2p/BitTorrentManager.ipp:396-427 | a peer has a connection after some commands if and only if it had one, or was dialled and could be reached |
| ManagerRuns.HandledExactly | include/fractals/network/p2p/BitTorrentManager.ipp:396-427 | there are as many announce requests for a torrent as DO_ANNOUNCE commands, and a peer is disconnected if and only if a command says so |
| ManagerRuns.StoppedDisconnects | include/fractals/network/p2p/BitTorrentManager.ipp:117-151 | stopping or removing a torrent disconnects exactly its active peers, each once, and requests nothing |
| ManagerRuns.ConnectedAfter | include/fractals/network/p2p/BitTorrentManager.ipp:326-361 | after any event a peer has a connection if and only if it had one that was neither lost nor removed with its torrent, or was dialled and could be reached |
| ManagerRuns.AnnouncedIsServed | src/fractals/network/p2p/PeerTracker.cpp:130-134 | the torrent of an announce is among those that the commands after it serve |
| ManagerRuns.KnownOverRuns | src/fractals/network/p2p/PeerTracker.cpp:56-135 | in every run the active torrents are those started and not stopped or removed since, and the known peers are those announced and not lost since, each under the torrent that announced it first |
| ManagerRuns.ConnectedCount | src/fractals/network/p2p/PeerTracker.cpp:101-108 | in every run the count of connected peers of a torrent rises by one, in 16 bits, when a connection of one of its peers is established, and changes at nothing else |
| Connections.BitTorrentManager.HandlePeerCommands | include/fractals/network/p2p/BitTorrentManager.ipp:396-427 | which connections, announce requests and disconnects a list of commands leads to |
| Connections.BitTorrentManager.ProcessAnnounce | include/fractals/network/p2p/BitTorrentManager.ipp:326-332 | the tracker and the connections after an announce |
| Connections.BitTorrentManager.ProcessDisconnected | include/fractals/network/p2p/BitTorrentManager.ipp:334-341 | the connection is dropped before the tracker is told |
| Connections.BitTorrentManager.ProcessEstablished | include/fractals/network/p2p/BitTorrentManager.ipp:343-361 | the tracker is told only about peers with a connection |
| Connections.BitTorrentManager.ProcessRemoveTorrent | include/fractals/network/p2p/BitTorrentManager.ipp:117-141 | exactly the connections of the torrent are dropped |
| Connections.SlotsOverRuns | include/fractals/network/p2p/PeerTracker.h:84-86 | in every run in which no loss of an idle peer is reported: the counter equals the number of peers that are not idle and is at most 200, no torrent has more than 20 active peers, connections belong to peers that are not idle, and a peer is tried at most once between two losses |
| Connections.OneTorrentOverRuns | src/fractals/network/p2p/PeerTracker.cpp:147-177 | with a single torrent its active peers are exactly the peers that are not idle, so there are at most 20 |
| Connections.LeakedSlot | src/fractals/network/p2p/PeerTracker.cpp:75-99 | a run with two active torrents after which no peer is busy and one torrent still counts a peer as active |
| Announce.IntervalKept | src/fractals/network/http/AnnounceService.cpp:14-17 | `canAnnounce` adds seconds to nanoseconds: it allows no announce before the minimum interval is over if and only if that interval is zero, or the sum is the last 64-bit number |
| Announce.NextAnnounce | include/fractals/network/http/AnnounceService.ipp:218-256 | a tracker is found exactly when one is eligible, the first one; the list is then a rotation with it in front, and otherwise unchanged |
| Announce.AnnounceService.GetNextAnnounce | include/fractals/network/http/AnnounceService.ipp:218-256 | the rotating loop |
| Announce.AnnounceService.GetExecutableDelayedRequest | include/fractals/network/http/AnnounceService.ipp:258-274 | a delayed request with an eligible tracker is found exactly when there is one; lists tried in vain are unchanged |
| Announce.AnnounceService.ProcessRequestAnnounce | include/fractals/network/http/AnnounceService.ipp:133-158 | a request is ignored, executed or delayed |
| Announce.AnnounceService.ProcessAddTrackers | include/fractals/network/http/AnnounceService.ipp:160-178 | trackers not reached over UDP are appended and get a state |
| Announce.AnnounceService.ProcessPause | include/fractals/network/http/AnnounceService.ipp:189-199 | all tracker states are reset, the torrent's request is forgotten |
| Announce.AnnounceService.Execute | include/fractals/network/http/AnnounceService.ipp:207-216 | the query is made, the first request of a tracker stays recorded |
| Announce.AnnounceService.OnAnnounce | src/fractals/network/http/AnnounceService.cpp:50-65 | the loop over the announced peers |
| Announce.NewPeersOnce | src/fractals/network/http/AnnounceService.cpp:50-65 | the new peers are those not seen before, each once, and all announced peers are known afterwards |
| Announce.AnnounceService.ProcessReply | include/fractals/network/http/AnnounceService.ipp:85-130 | a reply with new peers is published, one without is delayed and counted as a retry, an error likewise; any other only clears the record of its tracker, if there is one |
| TrackerRuns.PublishedExactly | include/fractals/network/http/AnnounceService.ipp:91-108 | a reply is published if and only if its torrent is subscribed and it announces a peer not seen before: one entry, for that torrent, with those peers, each once, and the torrent is no longer subscribed |
| TrackerRuns.RetriedExactly | include/fractals/network/http/AnnounceService.ipp:109-130 | a request is put off again, and a retry counted, if and only if the reply is an error or brings a subscribed torrent no new peer; the record of the query goes in any case |
| TrackerRuns.HeardExactly | include/fractals/network/http/AnnounceService.ipp:96-101 | the peers, time and intervals of a tracker change if and only if its reply is for a subscribed torrent |
| TrackerRuns.RequestedExactly | include/fractals/network/http/AnnounceService.ipp:133-158 | a request is ignored if its torrent is subscribed; otherwise one query goes to an eligible tracker of that torrent if there is one, and the request is put off if there is none |
| TrackerRuns.ForgottenExactly | include/fractals/network/http/AnnounceService.ipp:180-199 | after a pause or a deletion nothing waits for the torrent; a pause resets every tracker but for its intervals and its count of requests |
| TrackerRuns.AddedExactly | include/fractals/network/http/AnnounceService.ipp:160-178 | the addresses that do not begin with udp come to the end of the list, in order, and no others |
| TrackerRuns.TracedTold | src/fractals/network/http/AnnounceService.cpp:8-65 | in every run, for every tracker: each peer that it announced to a subscribed torrent since the last pause was published exactly once, nothing else was published for it, and its counts of retries and requests are right |
| TrackerRuns.MayBeAsked | include/fractals/network/http/AnnounceService.ipp:242 | in every run, without wrap-around, a tracker may be asked if and only if the time is past its last reply plus its interval and it had at most two replies without a result since the last pause |
| TrackerRuns.GivesUp | include/fractals/network/http/AnnounceService.ipp:242 | after three replies without a result since the last pause, a request makes no query to that tracker |
| TrackerRuns.NoneIsForgotten | include/fractals/network/http/AnnounceService.ipp:59-158 | in every run in which torrents share no tracker and every reply has an announce or an error, a subscribed torrent has its request put off or recorded with one of its trackers |
| TrackerRuns.RepliedPending | include/fractals/network/http/AnnounceService.ipp:85-130 | a reply leaves a subscribed torrent without either if and only if it is for that torrent, has neither an announce nor an error, and nothing else was put off or recorded for it |
| TrackerRuns.SilentReplyForgets | include/fractals/network/http/AnnounceService.ipp:126-130 | a run in which that happens, after which every request for the torrent is ignored |
| Announce.AnnounceService.DrainDelayed | include/fractals/network/http/AnnounceService.ipp:70-74 | when no stray request can be executed the loop ends, with nothing left to execute |
| Announce.StrayStays | include/fractals/network/http/AnnounceService.ipp:70-74 | a turn of the loop, whatever key it finds, leaves something stray exactly if something was |
| Announce.DrainEndsExactly | include/fractals/network/http/AnnounceService.ipp:70-74 | at any time the loop has at most one turn for each delayed request, however it goes, if and only if nothing is stray: no request that could be executed is stored under another torrent |
| Announce.StrayNeverEnds | include/fractals/network/http/AnnounceService.ipp:70-74 | once something is stray there is always another turn, whatever keys were found and while the clock goes on |
| Announce.DrainExecutesOnce | include/fractals/network/http/AnnounceService.ipp:70-74 | as long as nothing is stray the loop removes exactly the keys it executes, takes each once, and has at most as many turns as delayed requests |
| Announce.DrainsEnd | include/fractals/network/http/AnnounceService.ipp:59-158 | in every run in which torrents share no tracker, and replies answer queries and have a request recorded where one is read, delayed keys match their requests, so that every drain ends |
| Announce.SharedTrackerNeverEnds | include/fractals/network/http/AnnounceService.ipp:91-113 | two torrents that share a tracker reach a stray request with one reply, and then the loop has any number of turns |
| Announce.DrainQueries | include/fractals/network/http/AnnounceService.ipp:70-74 | the queries it makes are those delayed requests, in order |

## Left out

- Sockets, epoll, eventfd, curl, the database, OpenSSL and the file system: chunks, a map from path to bytes, a sequence of rows and an arbitrary hash function stand for them. Opening and creating files is taken to succeed.
- The terminal interface, statistics, bencoding and `MetaInfo`: presentation and field-by-field mapping.
- `encode` of a `SerializeError`, which throws: such a value is not a message of the model.
- Frames of 2^31 bytes and more: `reserve` throws on the negative length; the model stops with `threw` and promises only byte conservation before that. Chunks are shorter than 2^31 bytes, as in the 16 kB reads of `readOnce`.
- A read of -1 bytes in `readOnce`: the program goes on with a negative count; the model starts at `writeToBuffer`.
- The bound of 256 events in front of the disk thread and the manager thread: outside of `RingBuffer` and `RingThreads` queues are unbounded sequences.
- `ReadMsgState`, `Peer`, `PeersInfo` and `TrackerState` are stored by value in containers, and are values here that the containers' owners replace; aliasing inside a container is not captured.
- Wire.WireRoundTrip: it is a property of the first connection of a peer, because the deque of a known peer is kept; `Reconnect.LaterConnection` says when a later one has it.
- Disk.DiskIOService.ProcessWriteData: torrents that list one path twice are excluded, since then the flattened torrent is not one file per range.
- Repeated `populate` on resume, after which finished pieces may be wanted again: runs start from one `populate`.
- `forceNotify`, `forEach`, `canPush`, the deque overloads of `bytesToBitfield` and `bytesToInt`, and the write-buffer path: off the paths modelled.
- `QueueCoordinator` has no class here: its wait loop is meaningful only beside other threads, and is modelled by the steps of `WakeUp`.
- RingThreads.DeliveredInOrder: steps are sequentially consistent; the index read and the slot access of one statement are one step, because a rebase does not change the slot of an index.
- The lifetime of the reference that `pop` returns: the event is taken by value.
- Ownership of slots by torrents when there are several: `findNotConnectedPeer` does not respect it.
- The use of an erased iterator in `onPeerDisconnect` (PeerTracker.cpp:88-93): the torrent is read before the erasure.
- A TRY_CONNECT for a torrent without piece manager, and a reply that reads the recorded request of a tracker without one: the program dereferences an end iterator.
- Activity timeouts, and messages that the manager forwards to `Protocol` objects by torrent: a run of `Swarm` is about one torrent.
