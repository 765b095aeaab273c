/** Peers that tell the truth: what buffers, requests and hash checks do when every block that arrives
    answers a request that was sent, however late, often or out of order. */
module Honest {
  import opened Bytes
  import opened Codec
  import opened Common
  import opened Disk
  import opened Pieces
  import opened Protocol
  import opened Swarm

  /** The true content of every piece. */
  type Truth = map<nat, seq<byte>>

  /** Every buffer is a proper prefix of its true piece, or all of an empty one, and the stored hashes are
      those of the truth. */
  predicate OnTrack(ctx: Context, truth: Truth, repo: Repo) {
    truth.Keys == repo.pieces.Keys && forall i <- repo.pieces :: PieceOnTrack(ctx, truth, repo, i)
  }

  /** How far the requests of a piece go: sizes are 64-bit numbers, but what is missing is taken in 32 bits. */
  function Reach(size: nat): (n: nat)
    ensures n <= size && n < TWO_32 && (n == size <==> size < TWO_32)
  {
    if size < TWO_32 then size else size % TWO_32
  }

  predicate PieceOnTrack(ctx: Context, truth: Truth, repo: Repo, i: nat)
    requires i in repo.pieces && i in truth
  {
    && i < TWO_32
    && i in repo.hashes && ctx.sha1(truth[i]) == repo.hashes[i]
    && |truth[i]| == repo.pieces[i].size
    && (|repo.pieces[i].data| < |truth[i]| || truth[i] == []) && |repo.pieces[i].data| <= Reach(|truth[i]|)
    && repo.pieces[i].data == truth[i][..|repo.pieces[i].data|]
  }

  /** A request stays inside its piece and asks for 2^14 bytes or, at the end, for what is left; and for at
      least one, unless the piece is empty or has 2^32 bytes or more. */
  predicate GoodRequest(truth: Truth, m: Message) {
    m.Request? ==>
      && m.reqIndex in truth && m.reqBegin + m.reqLength <= Reach(|truth[m.reqIndex]|) <= |truth[m.reqIndex]|
      && m.reqLength <= BLOCK_SIZE && (0 < |truth[m.reqIndex]| < TWO_32 ==> 0 < m.reqLength)
      && (m.reqLength == BLOCK_SIZE || m.reqBegin + m.reqLength == Reach(|truth[m.reqIndex]|))
  }

  predicate TrueWrite(truth: Truth, w: WriteData) {
    w.pieceIndex in truth && w.data == truth[w.pieceIndex]
  }

  /** The bytes a request asks for, as far as they exist. */
  function TrueBlock(truth: Truth, i: nat, begin: nat, length: nat): seq<byte> {
    if i in truth && begin + length <= |truth[i]| then truth[i][begin..begin + length] else []
  }

  /** A true block is taken when it is the next of its piece and is ignored otherwise; it never spoils
      a buffer, and a piece that it completes passes the hash check. */
  lemma TrueBlockHandled(ctx: Context, truth: Truth, conn: Conn, repo: Repo, i: nat, begin: nat, length: nat)
    requires OnTrack(ctx, truth, repo) && i in truth && begin + length <= Reach(|truth[i]|)
    ensures var h := HandlePiece(ctx, conn, repo, i, begin, TrueBlock(truth, i, begin, length));
            && OnTrack(ctx, truth, h.repo) && h.verdict == None && h.sent == []
            && (begin != |repo.pieces[i].data| ==> h.repo == repo && h.conn == conn && h.writes == [])
            && (begin == |repo.pieces[i].data| && begin + length < |truth[i]| ==>
                  h.repo == repo.WithData(i, truth[i][..begin + length]) && h.conn == conn && h.writes == [])
            && (begin == |repo.pieces[i].data| && begin + length == |truth[i]| ==>
                  && h.repo == repo.Completed(i) && h.conn == conn.(available := conn.available - {i})
                  && h.writes == [WriteData(ctx.infoHash, i, truth[i], repo.pieces[i].offset)])
  {
    assert PieceOnTrack(ctx, truth, repo, i);
    assert repo.pieces[i].NextBegin() == |repo.pieces[i].data|;
    hide OnTrack, HandlePiece, TrueBlock, Repo.Completed;
    if begin != |repo.pieces[i].data| {
      OtherBlock(ctx, conn, repo, i, begin, TrueBlock(truth, i, begin, length));
    } else if begin + length == |truth[i]| {
      LastBlock(ctx, truth, conn, repo, i, begin, length);
    } else {
      MiddleBlock(ctx, truth, conn, repo, i, begin, length);
    }
  }

  lemma OtherBlock(ctx: Context, conn: Conn, repo: Repo, i: nat, begin: nat, block: seq<byte>)
    requires i in repo.pieces && begin != repo.pieces[i].NextBegin()
    ensures HandlePiece(ctx, conn, repo, i, begin, block) == Handled(conn, repo, [], [], None)
  {
  }

  lemma BlockExtends(truth: Truth, data: seq<byte>, i: nat, begin: nat, length: nat)
    requires i in truth && begin + length <= |truth[i]| && data == truth[i][..begin]
    ensures data + TrueBlock(truth, i, begin, length) == truth[i][..begin + length]
    ensures truth[i][..|truth[i]|] == truth[i]
  {
  }

  lemma MiddleBlock(ctx: Context, truth: Truth, conn: Conn, repo: Repo, i: nat, begin: nat, length: nat)
    requires OnTrack(ctx, truth, repo) && i in truth && begin == |repo.pieces[i].data|
    requires PieceOnTrack(ctx, truth, repo, i) && begin + length < |truth[i]| && begin + length <= Reach(|truth[i]|)
    ensures var h := HandlePiece(ctx, conn, repo, i, begin, TrueBlock(truth, i, begin, length));
            && OnTrack(ctx, truth, h.repo) && h.verdict == None && h.sent == []
            && h.repo == repo.WithData(i, truth[i][..begin + length]) && h.conn == conn && h.writes == []
  {
    BlockExtends(truth, repo.pieces[i].data, i, begin, length);
    hide TrueBlock;
    PieceGrows(ctx, conn, repo, i, begin, TrueBlock(truth, i, begin, length), truth[i][..begin + length]);
    hide HandlePiece;
    Replaced(ctx, truth, repo, repo.WithData(i, truth[i][..begin + length]), i);
  }

  /** A block that does not complete its piece. */
  lemma PieceGrows(ctx: Context, conn: Conn, repo: Repo, i: nat, begin: nat, block: seq<byte>, data: seq<byte>)
    requires i in repo.pieces && begin == repo.pieces[i].NextBegin() && data == repo.pieces[i].data + block
    requires |data| != repo.pieces[i].size
    ensures HandlePiece(ctx, conn, repo, i, begin, block) == Handled(conn, repo.WithData(i, data), [], [], None)
  {
  }

  lemma LastBlock(ctx: Context, truth: Truth, conn: Conn, repo: Repo, i: nat, begin: nat, length: nat)
    requires OnTrack(ctx, truth, repo) && i in truth && begin == |repo.pieces[i].data|
    requires PieceOnTrack(ctx, truth, repo, i) && begin + length == |truth[i]| < TWO_32
    ensures var h := HandlePiece(ctx, conn, repo, i, begin, TrueBlock(truth, i, begin, length));
            && OnTrack(ctx, truth, h.repo) && h.verdict == None && h.sent == []
            && h.repo == repo.Completed(i) && h.conn == conn.(available := conn.available - {i})
            && h.writes == [WriteData(ctx.infoHash, i, truth[i], repo.pieces[i].offset)]
  {
    BlockExtends(truth, repo.pieces[i].data, i, begin, length);
    hide TrueBlock;
    PieceFinished(ctx, conn, repo, i, begin, TrueBlock(truth, i, begin, length), truth[i]);
    hide HandlePiece;
    Replaced(ctx, truth, repo, repo.Completed(i), i);
  }

  /** A block that completes a piece whose bytes match its hash. */
  lemma PieceFinished(ctx: Context, conn: Conn, repo: Repo, i: nat, begin: nat, block: seq<byte>, data: seq<byte>)
    requires i in repo.pieces && begin == repo.pieces[i].NextBegin() && data == repo.pieces[i].data + block
    requires |data| == repo.pieces[i].size && repo.HashCheck(ctx.sha1, i, data)
    ensures HandlePiece(ctx, conn, repo, i, begin, block)
         == Handled(conn.(available := conn.available - {i}), repo.Completed(i), [],
                    [WriteData(ctx.infoHash, i, data, repo.pieces[i].offset)], None)
  {
    assert repo.WithData(i, data).Completed(i) == repo.Completed(i);
  }

  lemma Replaced(ctx: Context, truth: Truth, repo: Repo, repo': Repo, i: nat)
    requires OnTrack(ctx, truth, repo) && i in truth && repo'.pieces.Keys == repo.pieces.Keys
    requires repo'.hashes == repo.hashes && PieceOnTrack(ctx, truth, repo', i)
    requires forall k <- repo.pieces :: k != i ==> repo'.pieces[k] == repo.pieces[k]
    ensures OnTrack(ctx, truth, repo')
  {
    forall k | k in repo'.pieces ensures PieceOnTrack(ctx, truth, repo', k) {
      assert PieceOnTrack(ctx, truth, repo, k);
    }
  }

  lemma RemainderLeft(size: nat, n: nat)
    requires n <= Reach(size)
    ensures (size - n) % TWO_32 == Reach(size) - n
  {
  }

  /** What `requestNextPiece` asks for next continues the buffer of a wanted piece. */
  lemma NextRequestIsGood(ctx: Context, truth: Truth, repo: Repo, i: nat)
    requires OnTrack(ctx, truth, repo) && i in repo.pieces
    ensures i < TWO_32
    ensures var m := NextRequest(i, repo.pieces[i]);
            GoodRequest(truth, m) && m.reqIndex == i && m.reqBegin == |repo.pieces[i].data|
  {
    assert PieceOnTrack(ctx, truth, repo, i);
    RemainderLeft(repo.pieces[i].size, |repo.pieces[i].data|);
  }

  // ------------------------------------------------------------------ runs

  /** A Piece that arrives answers, with the true bytes, a request that was sent to that peer before. */
  predicate Answers(truth: Truth, sent: seq<(PeerId, Message)>, peer: PeerId, m: Message) {
    m.Piece? ==> exists k :: 0 <= k < |sent| && sent[k].0 == peer && IsAnswer(truth, sent[k].1, m)
  }

  predicate IsAnswer(truth: Truth, request: Message, m: Message) {
    && request.Request? && m.Piece? && m.index == request.reqIndex && m.begin == request.reqBegin
    && m.block == TrueBlock(truth, request.reqIndex, request.reqBegin, request.reqLength)
  }

  predicate HonestEvent(truth: Truth, s: Swarm, e: Event) {
    e.Receive? ==> Answers(truth, s.sent, e.peer, e.message)
  }

  /** A run of `Swarm` in which every event is honest. */
  ghost predicate HonestRun(ctx: Context, truth: Truth, r0: Repo, events: seq<Event>, s: Swarm, result: ProtocolState) {
    if events == [] then s == Start(r0) && result == OPEN
    else
      var front, last := events[..|events| - 1], events[|events| - 1];
      exists s0, result0 :: HonestRun(ctx, truth, r0, front, s0, result0)
                            && HonestEvent(truth, s0, last) && Steps(ctx, s0, last, s, result)
  }

  predicate HonestInv(ctx: Context, truth: Truth, s: Swarm) {
    && OnTrack(ctx, truth, s.repo)
    && (forall k :: 0 <= k < |s.sent| ==> GoodRequest(truth, s.sent[k].1))
    && (forall w <- s.writes :: TrueWrite(truth, w))
  }

  predicate GoodOutcome(ctx: Context, truth: Truth, o: Outcome) {
    && OnTrack(ctx, truth, o.repo)
    && (forall m <- o.sent :: GoodRequest(truth, m)) && (forall w <- o.writes :: TrueWrite(truth, w))
    && o.result != HASH_CHECK_FAIL && o.result != ERROR
  }

  lemma RequestedIsGood(ctx: Context, truth: Truth, h: Handled, pick: Option<nat>)
    requires OnTrack(ctx, truth, h.repo) && h.repo.ValidPick(h.conn.available, pick) && AllU32(h.repo)
    ensures forall m <- RequestNext(h.conn, h.repo, pick).0 :: GoodRequest(truth, m)
  {
    if pick.Some? {
      NextRequestIsGood(ctx, truth, h.repo, pick.value);
      hide NextRequest, OnTrack, GoodRequest;
    }
  }

  predicate GoodHandled(ctx: Context, truth: Truth, h: Handled) {
    && OnTrack(ctx, truth, h.repo)
    && (forall m <- h.sent :: GoodRequest(truth, m)) && (forall w <- h.writes :: TrueWrite(truth, w))
    && h.verdict != Some(HASH_CHECK_FAIL) && h.verdict != Some(ERROR)
  }

  lemma PieceHonestly(ctx: Context, truth: Truth, conn: Conn, repo: Repo, m: Message)
    requires OnTrack(ctx, truth, repo) && m.Piece?
    requires exists request :: GoodRequest(truth, request) && IsAnswer(truth, request, m)
    ensures GoodHandled(ctx, truth, HandlePiece(ctx, conn, repo, m.index, m.begin, m.block))
  {
    var request :| GoodRequest(truth, request) && IsAnswer(truth, request, m);
    hide HandlePiece, OnTrack, TrueBlock;
    TrueBlockHandled(ctx, truth, conn, repo, m.index, m.begin, request.reqLength);
  }

  lemma HandleHonestly(ctx: Context, truth: Truth, conn: Conn, repo: Repo, m: Message)
    requires OnTrack(ctx, truth, repo)
    requires m.Piece? ==> exists request :: GoodRequest(truth, request) && IsAnswer(truth, request, m)
    ensures GoodHandled(ctx, truth, Handle(ctx, conn, repo, m))
  {
    if m.Piece? {
      PieceHonestly(ctx, truth, conn, repo, m);
    }
    hide HandlePiece, OnTrack, Announced, TrueBlock, TrueWrite;
  }

  lemma RespondHonestly(ctx: Context, truth: Truth, conn: Conn, repo: Repo, m: Message, pick: Option<nat>)
    requires OnTrack(ctx, truth, repo) && AllU32(repo) && PickFits(Handle(ctx, conn, repo, m), pick)
    requires m.Piece? ==> exists request :: GoodRequest(truth, request) && IsAnswer(truth, request, m)
    ensures GoodOutcome(ctx, truth, Respond(ctx, conn, repo, m, pick))
  {
    var h := Handle(ctx, conn, repo, m);
    hide Handle, OnTrack, GoodRequest, IsAnswer, TrueWrite, NextRequest;
    HandleHonestly(ctx, truth, conn, repo, m);
    if h.verdict.None? {
      StillU32(ctx, truth, h.repo);
      RequestedIsGood(ctx, truth, h, pick);
    }
  }

  lemma StillU32(ctx: Context, truth: Truth, repo: Repo)
    requires OnTrack(ctx, truth, repo)
    ensures AllU32(repo)
  {
    assert forall i <- repo.pieces :: PieceOnTrack(ctx, truth, repo, i);
  }

  lemma {:induction false} AddressedTo(peer: PeerId, ms: seq<Message>)
    ensures |Addressed(peer, ms)| == |ms|
    ensures forall k :: 0 <= k < |ms| ==> Addressed(peer, ms)[k] == (peer, ms[k])
  {
    if ms == [] {
    } else {
      AddressedTo(peer, ms[1..]);
    }
  }

  lemma StepHonestly(ctx: Context, truth: Truth, s: Swarm, e: Event, s': Swarm, result: ProtocolState)
    requires HonestInv(ctx, truth, s) && HonestEvent(truth, s, e) && Steps(ctx, s, e, s', result)
    ensures HonestInv(ctx, truth, s') && result != HASH_CHECK_FAIL && result != ERROR
  {
    if e.Receive? && e.peer in s.conns {
      var o := Respond(ctx, s.conns[e.peer], s.repo, e.message, e.pick);
      assert s'.repo == o.repo && s'.writes == s.writes + o.writes && result == o.result
          && s'.sent == s.sent + Addressed(e.peer, o.sent);
      hide Respond, OnTrack, GoodRequest, TrueWrite, IsAnswer;
      RespondHonestly(ctx, truth, s.conns[e.peer], s.repo, e.message, e.pick);
      AddressedTo(e.peer, o.sent);
    } else if e.SetActive? {
      assert forall i <- s.repo.pieces :: PieceOnTrack(ctx, truth, s'.repo, i);
    }
  }

  /** With honest peers, in every run: each buffer is a prefix of the true piece, every request that was
      sent lies inside its piece and is as long as it can be, every write carries the true piece, and no
      message was answered with a failed hash check or an error. */
  lemma {:induction false} HonestPeers(ctx: Context, truth: Truth, r0: Repo, events: seq<Event>, s: Swarm,
                                       result: ProtocolState)
    requires OnTrack(ctx, truth, r0) && HonestRun(ctx, truth, r0, events, s, result)
    ensures HonestInv(ctx, truth, s) && result != HASH_CHECK_FAIL && result != ERROR
    ensures Run(ctx, r0, events, s, result)
  {
    if events == [] {
    } else {
      var front, last := events[..|events| - 1], events[|events| - 1];
      var s0, result0 :| HonestRun(ctx, truth, r0, front, s0, result0)
                         && HonestEvent(truth, s0, last) && Steps(ctx, s0, last, s, result);
      HonestPeers(ctx, truth, r0, front, s0, result0);
      hide HonestEvent, Steps, HonestInv;
      StepHonestly(ctx, truth, s0, last, s, result);
    }
  }
}
