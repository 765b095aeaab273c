/** A download from one peer that has every missing piece and answers every request with the true bytes. */
module Download {
  import opened Bytes
  import opened Codec
  import opened Common
  import opened Disk
  import opened Honest
  import opened Pieces
  import opened Protocol
  import opened Swarm

  /** Blocks of at most 2^14 bytes needed for `n` bytes: the quotient rounded up, and an empty block for an
      empty piece. */
  function Blocks(n: int): nat {
    if n <= 0 then 1 else (n + BLOCK_SIZE - 1) / BLOCK_SIZE
  }

  /** Blocks still to come for piece `i`. */
  function Need(repo: Repo, i: nat): nat {
    if i in repo.available && i in repo.pieces then Blocks(repo.pieces[i].Remaining()) else 0
  }

  /** The same for all pieces with numbers below `n`. */
  function Work(repo: Repo, n: nat): nat {
    if n == 0 then 0 else Work(repo, n - 1) + Need(repo, n - 1)
  }

  lemma BlocksStep(n: nat)
    ensures Blocks(n) >= 1
    ensures n <= BLOCK_SIZE ==> Blocks(n) == 1
    ensures n > BLOCK_SIZE ==> Blocks(n) == Blocks(n - BLOCK_SIZE) + 1
  {
  }

  lemma {:induction false} WorkDrops(repo: Repo, repo': Repo, i: nat, n: nat)
    requires forall k: nat :: k != i ==> Need(repo, k) == Need(repo', k)
    requires Need(repo, i) == Need(repo', i) + 1
    ensures Work(repo, n) == Work(repo', n) + if i < n then 1 else 0
  {
    hide Need;
    if n == 0 {
    } else {
      WorkDrops(repo, repo', i, n - 1);
    }
  }

  lemma {:induction false} NoWork(ctx: Context, truth: Truth, repo: Repo, n: nat)
    requires OnTrack(ctx, truth, repo) && repo.available <= repo.pieces.Keys
    ensures Work(repo, n) == 0 <==> forall i <- repo.available :: i >= n
  {
    if n == 0 {
    } else {
      NoWork(ctx, truth, repo, n - 1);
      if n - 1 in repo.available {
        assert PieceOnTrack(ctx, truth, repo, n - 1);
        BlocksStep(repo.pieces[n - 1].Remaining());
      }
      hide Work, Need, OnTrack;
      assert Work(repo, n) == Work(repo, n - 1) + Need(repo, n - 1);
    }
  }

  // ------------------------------------------------------------------ the dialogue

  /** The true answer to a request. */
  function Answer(truth: Truth, request: Message): Message
    requires request.Request?
  {
    Message.Piece(request.reqIndex, request.reqBegin,
                  TrueBlock(truth, request.reqIndex, request.reqBegin, request.reqLength))
  }

  /** `o` is a possible reaction to `m`, for one of the pieces that `nextAvailablePiece` can return. */
  ghost predicate Reacts(ctx: Context, conn: Conn, repo: Repo, m: Message, o: Outcome) {
    AllU32(repo) && exists pick :: PickFits(Handle(ctx, conn, repo, m), pick) && o == Respond(ctx, conn, repo, m, pick)
  }

  /** The peer answers the request of `o`, and `o'` is a possible reaction. */
  ghost predicate Follows(ctx: Context, truth: Truth, o: Outcome, o': Outcome) {
    && o.sent != [] && o.sent[0].Request?
    && Reacts(ctx, o.conn, o.repo, Answer(truth, o.sent[0]), o')
  }

  /** The peer unchokes, and then answers one request after the other. */
  ghost predicate Dialogue(ctx: Context, truth: Truth, conn: Conn, repo: Repo, os: seq<Outcome>) {
    && os != []
    && Reacts(ctx, conn, repo, UnChoke, os[0])
    && forall k :: 0 <= k < |os| - 1 ==> Follows(ctx, truth, os[k], os[k + 1])
  }

  function AllWrites(os: seq<Outcome>): seq<WriteData> {
    if os == [] then [] else AllWrites(os[..|os| - 1]) + os[|os| - 1].writes
  }

  /** The peer has what is missing, no missing piece has 2^32 bytes or more, and the torrent is active. */
  predicate Served(ctx: Context, truth: Truth, conn: Conn, repo: Repo) {
    && OnTrack(ctx, truth, repo) && repo.active
    && repo.available <= conn.available && repo.available <= repo.pieces.Keys
    && forall i <- repo.available :: repo.pieces[i].size < TWO_32
  }

  /** What a reaction looks like: a request for a wanted piece as long as there is one. */
  predicate Proceeds(o: Outcome) {
    && !o.conn.peerChoking
    && if o.repo.available == {} then o.result == COMPLETE && o.sent == []
       else o.result == OPEN && |o.sent| == 1
            && exists i <- o.repo.available ::
                 i in o.repo.pieces && i < TWO_32 && o.sent == [NextRequest(i, o.repo.pieces[i])]
  }

  lemma RequestProceeds(ctx: Context, truth: Truth, conn: Conn, repo: Repo, pick: Option<nat>, writes: seq<WriteData>)
    requires Served(ctx, truth, conn, repo) && !conn.peerChoking && AllU32(repo)
    requires repo.ValidPick(conn.available, pick)
    ensures var (request, result) := RequestNext(conn, repo, pick);
            Proceeds(Outcome(conn, repo, request, writes, result))
  {
    assert repo.available == repo.Candidates(conn.available);
    hide OnTrack, NextRequest;
  }

  lemma ServedU32(ctx: Context, truth: Truth, conn: Conn, repo: Repo)
    requires Served(ctx, truth, conn, repo)
    ensures AllU32(repo)
  {
    StillU32(ctx, truth, repo);
  }

  lemma FirstReaction(ctx: Context, truth: Truth, conn: Conn, repo: Repo, o: Outcome)
    requires Served(ctx, truth, conn, repo) && conn.peerChoking && Reacts(ctx, conn, repo, UnChoke, o)
    ensures Served(ctx, truth, o.conn, o.repo) && Proceeds(o) && o.repo == repo && o.writes == []
  {
    var pick :| PickFits(Handle(ctx, conn, repo, UnChoke), pick) && o == Respond(ctx, conn, repo, UnChoke, pick);
    hide Proceeds, RequestNext, OnTrack;
    RequestProceeds(ctx, truth, conn.(peerChoking := false), repo, pick, []);
    assert [] + o.sent == o.sent;
  }

  /** One block less is to do, and one piece less if it was completed; what is written is true. */
  predicate Advances(ctx: Context, truth: Truth, repo: Repo, conn: Conn, repo': Repo, writes: seq<WriteData>, n: nat) {
    && Served(ctx, truth, conn, repo')
    && repo'.available <= repo.available && Work(repo, n) == Work(repo', n) + 1
    && |writes| + |repo'.available| == |repo.available|
    && forall w <- writes :: TrueWrite(truth, w) && w.pieceIndex in repo.available
  }

  lemma StillServed(ctx: Context, truth: Truth, repo: Repo, conn: Conn, repo': Repo, writes: seq<WriteData>, n: nat)
    requires Advances(ctx, truth, repo, conn, repo', writes, n)
    ensures Served(ctx, truth, conn, repo')
  {
  }

  /** One answered request is one block less to do, whichever piece comes next; what it completes is
      written with its true content. */
  lemma NextReaction(ctx: Context, truth: Truth, o: Outcome, o': Outcome, n: nat)
    requires Served(ctx, truth, o.conn, o.repo) && Proceeds(o) && Follows(ctx, truth, o, o')
    requires forall i <- o.repo.available :: i < n
    ensures Proceeds(o') && Advances(ctx, truth, o.repo, o'.conn, o'.repo, o'.writes, n)
  {
    var i :| i in o.repo.available && i in o.repo.pieces && i < TWO_32
             && o.sent == [NextRequest(i, o.repo.pieces[i])];
    var request := o.sent[0];
    var m := Answer(truth, request);
    var pick :| PickFits(Handle(ctx, o.conn, o.repo, m), pick) && o' == Respond(ctx, o.conn, o.repo, m, pick);
    var h := HandlePiece(ctx, o.conn, o.repo, m.index, m.begin, m.block);
    assert h == Handle(ctx, o.conn, o.repo, m);
    assert OnTrack(ctx, truth, o.repo);
    hide HandlePiece, OnTrack, NextRequest, Proceeds, RequestNext, TrueBlock, Served, Advances;
    AnswerHandled(ctx, truth, o.conn, o.repo, i, n);
    StillServed(ctx, truth, o.repo, h.conn, h.repo, h.writes, n);
    ServedU32(ctx, truth, h.conn, h.repo);
    RequestProceeds(ctx, truth, h.conn, h.repo, pick, h.writes);
    assert [] + o'.sent == o'.sent;
  }

  /** What the true answer to the next request of a piece does: a full block is appended, or the piece is
      completed. */
  predicate Effect(ctx: Context, truth: Truth, conn: Conn, repo: Repo, i: nat, h: Handled)
    requires i in repo.pieces && i in truth
  {
    var p := repo.pieces[i];
    && OnTrack(ctx, truth, h.repo) && h.verdict == None && h.sent == []
    && if p.Remaining() > BLOCK_SIZE then
         && |truth[i]| == p.size && h.repo == repo.WithData(i, truth[i][..|p.data| + BLOCK_SIZE])
         && h.conn == conn && h.writes == []
       else
         && h.repo == repo.Completed(i) && h.conn == conn.(available := conn.available - {i})
         && h.writes == [WriteData(ctx.infoHash, i, truth[i], p.offset)]
  }

  lemma AnswerEffect(ctx: Context, truth: Truth, conn: Conn, repo: Repo, i: nat)
    requires OnTrack(ctx, truth, repo) && i in repo.pieces && i < TWO_32 && repo.pieces[i].size < TWO_32
    ensures var m := Answer(truth, NextRequest(i, repo.pieces[i]));
            Effect(ctx, truth, conn, repo, i, HandlePiece(ctx, conn, repo, m.index, m.begin, m.block))
  {
    var request := NextRequest(i, repo.pieces[i]);
    NextRequestIsGood(ctx, truth, repo, i);
    assert PieceOnTrack(ctx, truth, repo, i);
    assert request.reqLength == if repo.pieces[i].Remaining() > BLOCK_SIZE then BLOCK_SIZE
                                else repo.pieces[i].Remaining();
    hide HandlePiece, OnTrack, NextRequest, TrueBlock;
    TrueBlockHandled(ctx, truth, conn, repo, i, request.reqBegin, request.reqLength);
  }

  lemma EffectServes(ctx: Context, truth: Truth, conn: Conn, repo: Repo, i: nat, h: Handled)
    requires Served(ctx, truth, conn, repo) && i in repo.available && i in truth && Effect(ctx, truth, conn, repo, i, h)
    ensures Served(ctx, truth, h.conn, h.repo) && h.conn.peerChoking == conn.peerChoking
    ensures h.repo.available <= repo.available && |h.writes| + |h.repo.available| == |repo.available|
    ensures forall w <- h.writes :: TrueWrite(truth, w) && w.pieceIndex in repo.available
  {
    hide OnTrack;
  }

  lemma EffectWorks(ctx: Context, truth: Truth, conn: Conn, repo: Repo, i: nat, h: Handled, n: nat)
    requires OnTrack(ctx, truth, repo) && i in repo.available && i in repo.pieces && i < n
    requires Effect(ctx, truth, conn, repo, i, h)
    ensures Work(repo, n) == Work(h.repo, n) + 1
  {
    assert PieceOnTrack(ctx, truth, repo, i);
    BlocksStep(repo.pieces[i].Remaining());
    hide Blocks, OnTrack, Work;
    assert Need(repo, i) == Need(h.repo, i) + 1;
    WorkDrops(repo, h.repo, i, n);
  }

  lemma AnswerHandled(ctx: Context, truth: Truth, conn: Conn, repo: Repo, i: nat, n: nat)
    requires Served(ctx, truth, conn, repo) && i in repo.available && i < TWO_32 && i < n
    ensures var m := Answer(truth, NextRequest(i, repo.pieces[i]));
            var h := HandlePiece(ctx, conn, repo, m.index, m.begin, m.block);
            && h.verdict == None && h.sent == [] && h.conn.peerChoking == conn.peerChoking
            && Advances(ctx, truth, repo, h.conn, h.repo, h.writes, n)
  {
    var m := Answer(truth, NextRequest(i, repo.pieces[i]));
    var h := HandlePiece(ctx, conn, repo, m.index, m.begin, m.block);
    AnswerEffect(ctx, truth, conn, repo, i);
    assert h.verdict == None && h.sent == [] && OnTrack(ctx, truth, repo) && i in truth;
    hide HandlePiece, OnTrack, NextRequest, TrueBlock, Effect, TrueWrite;
    EffectServes(ctx, truth, conn, repo, i, h);
    EffectWorks(ctx, truth, conn, repo, i, h, n);
    hide Served, Work;
  }

  // ------------------------------------------------------------------ whole dialogues

  /** `nextAvailablePiece` always returns something that fits. */
  lemma SomeReaction(ctx: Context, conn: Conn, repo: Repo, m: Message)
    requires AllU32(repo)
    ensures exists o :: Reacts(ctx, conn, repo, m, o)
  {
    var h := Handle(ctx, conn, repo, m);
    hide Handle;
    var candidates := h.repo.Candidates(h.conn.available);
    var pick := None;
    if candidates != {} {
      var i :| i in candidates;
      pick := Some(i);
    }
    assert PickFits(h, pick);
    assert Reacts(ctx, conn, repo, m, Respond(ctx, conn, repo, m, pick));
  }

  lemma ReactsInv(ctx: Context, r0: Repo, conn: Conn, repo: Repo, writes: seq<WriteData>, m: Message, o: Outcome)
    requires Inv(ctx, r0, repo, writes) && Reacts(ctx, conn, repo, m, o)
    ensures Inv(ctx, r0, o.repo, writes + o.writes)
  {
    var pick :| PickFits(Handle(ctx, conn, repo, m), pick) && o == Respond(ctx, conn, repo, m, pick);
    hide Inv, Respond, Handle;
    RespondInv(ctx, r0, conn, repo, writes, m, pick);
  }

  lemma {:induction false} DialogueInv(ctx: Context, truth: Truth, conn: Conn, repo: Repo, os: seq<Outcome>, n: nat)
    requires Served(ctx, truth, conn, repo) && conn.peerChoking && Fresh(repo)
    requires (forall i <- repo.available :: i < n) && Dialogue(ctx, truth, conn, repo, os)
    ensures var o := os[|os| - 1];
            && Served(ctx, truth, o.conn, o.repo) && Proceeds(o) && o.repo.available <= repo.available
            && Work(repo, n) == Work(o.repo, n) + |os| - 1
            && |AllWrites(os)| + |o.repo.available| == |repo.available|
            && Inv(ctx, repo, o.repo, AllWrites(os))
    ensures forall w <- AllWrites(os) :: TrueWrite(truth, w) && w.pieceIndex in repo.available
  {
    var o := os[|os| - 1];
    hide Served, Proceeds, Work, Inv, Reacts, Fresh, TrueWrite;
    if |os| == 1 {
      assert os[..0] == [] && AllWrites(os[..0]) == [];
      DialogueBegins(ctx, truth, conn, repo, o);
    } else {
      var before, p := os[..|os| - 1], os[|os| - 2];
      assert before[|before| - 1] == p && Follows(ctx, truth, p, o);
      assert Dialogue(ctx, truth, conn, repo, before);
      hide Dialogue, Follows;
      DialogueInv(ctx, truth, conn, repo, before, n);
      NextReaction(ctx, truth, p, o, n);
      FollowsInv(ctx, truth, repo, p, o, AllWrites(before));
    }
  }

  lemma DialogueBegins(ctx: Context, truth: Truth, conn: Conn, repo: Repo, o: Outcome)
    requires Served(ctx, truth, conn, repo) && conn.peerChoking && Fresh(repo) && Reacts(ctx, conn, repo, UnChoke, o)
    ensures Served(ctx, truth, o.conn, o.repo) && Proceeds(o) && o.repo == repo && o.writes == []
    ensures Inv(ctx, repo, o.repo, [] + o.writes)
  {
    hide Served, Proceeds, Reacts;
    FirstReaction(ctx, truth, conn, repo, o);
  }

  lemma FollowsInv(ctx: Context, truth: Truth, r0: Repo, o: Outcome, o': Outcome, writes: seq<WriteData>)
    requires Inv(ctx, r0, o.repo, writes) && Follows(ctx, truth, o, o')
    ensures Inv(ctx, r0, o'.repo, writes + o'.writes)
  {
    hide Inv, Reacts;
    ReactsInv(ctx, r0, o.conn, o.repo, writes, Answer(truth, o.sent[0]), o');
  }

  lemma CanGoOn(ctx: Context, truth: Truth, conn: Conn, repo: Repo, os: seq<Outcome>)
    requires Dialogue(ctx, truth, conn, repo, os)
    requires var o := os[|os| - 1]; Proceeds(o) && OnTrack(ctx, truth, o.repo) && o.result != COMPLETE
    ensures exists o' :: Dialogue(ctx, truth, conn, repo, os + [o'])
  {
    var o := os[|os| - 1];
    StillU32(ctx, truth, o.repo);
    hide OnTrack, Reacts;
    SomeReaction(ctx, o.conn, o.repo, Answer(truth, o.sent[0]));
    var o' :| Reacts(ctx, o.conn, o.repo, Answer(truth, o.sent[0]), o');
    assert Follows(ctx, truth, o, o');
    assert Dialogue(ctx, truth, conn, repo, os + [o']);
  }

  /** The download takes exactly one answer for each missing block, whatever pieces are picked: no
      dialogue is longer, one that is shorter can always go on, and COMPLETE is returned at the end of
      those that are finished and never before. */
  lemma DownloadTerminates(ctx: Context, truth: Truth, conn: Conn, repo: Repo, os: seq<Outcome>, n: nat)
    requires Served(ctx, truth, conn, repo) && conn.peerChoking && Fresh(repo)
    requires (forall i <- repo.available :: i < n) && Dialogue(ctx, truth, conn, repo, os)
    ensures var o := os[|os| - 1];
            && |os| - 1 <= Work(repo, n)
            && (o.result == COMPLETE <==> |os| - 1 == Work(repo, n))
            && (o.result != COMPLETE ==> o.result == OPEN && exists o' :: Dialogue(ctx, truth, conn, repo, os + [o']))
  {
    var o := os[|os| - 1];
    DialogueInv(ctx, truth, conn, repo, os, n);
    NoWork(ctx, truth, o.repo, n);
    if o.result != COMPLETE {
      CanGoOn(ctx, truth, conn, repo, os);
    }
    hide OnTrack, Work, Dialogue, Inv;
  }

  /** With one peer every missing piece is written exactly once. */
  lemma EachWrittenOnce(ctx: Context, truth: Truth, conn: Conn, repo: Repo, os: seq<Outcome>)
    requires Served(ctx, truth, conn, repo) && conn.peerChoking && Fresh(repo)
    requires Dialogue(ctx, truth, conn, repo, os) && os[|os| - 1].result == COMPLETE
    ensures var writes := AllWrites(os);
            WrittenPieces(writes) == repo.available && |writes| == |repo.available| && Distinct(writes)
  {
    var n: nat :| n == TWO_32;
    assert AllU32(repo);
    var last, writes := os[|os| - 1].repo, AllWrites(os);
    DialogueInv(ctx, truth, conn, repo, os, n);
    hide PieceOnTrack, Dialogue, AllWrites, Work;
    NothingLeft(repo.available, last.completed);
    forall i | i in WrittenPieces(writes) ensures i in repo.available {
      var w :| w in writes && w.pieceIndex == i;
    }
    assert WrittenPieces(writes) == repo.available;
    AllDifferent(writes);
  }

  predicate Distinct(writes: seq<WriteData>) {
    forall i, j :: 0 <= i < j < |writes| ==> writes[i].pieceIndex != writes[j].pieceIndex
  }

  lemma DistinctNext(writes: seq<WriteData>, w: WriteData)
    requires Distinct(writes) && w.pieceIndex !in WrittenPieces(writes)
    ensures Distinct(writes + [w])
  {
    assert forall i :: 0 <= i < |writes| ==> writes[i].pieceIndex in WrittenPieces(writes);
    hide WrittenPieces;
  }

  lemma {:induction false} AllDifferent(writes: seq<WriteData>)
    ensures |WrittenPieces(writes)| <= |writes|
    ensures |WrittenPieces(writes)| == |writes| ==> Distinct(writes)
  {
    if writes == [] {
    } else {
      var front, w := writes[..|writes| - 1], writes[|writes| - 1];
      AllDifferent(front);
      assert writes == front + [w];
      assert WrittenPieces(writes) == WrittenPieces(front) + {w.pieceIndex};
      hide WrittenPieces, Distinct;
      if |WrittenPieces(writes)| == |writes| {
        DistinctNext(front, w);
      }
    }
  }

  lemma PieceContent(ctx: Context, truth: Truth, r0: Repo, repo: Repo, writes: seq<WriteData>, flat: seq<byte>, i: nat)
    requires Inv(ctx, r0, repo, writes) && repo.available == {} && Placed(r0, |flat|) && i in r0.pieces
    requires forall w <- writes :: TrueWrite(truth, w) && w.pieceIndex in r0.available
    requires r0.available <= truth.Keys
    ensures Range(DiskAfter(flat, writes), r0.pieces[i])
         == if i in r0.available then truth[i] else Range(flat, r0.pieces[i])
  {
    RangeAfter(ctx, r0, flat, writes, i);
    NothingLeft(r0.available, repo.completed);
    hide DiskAfter, Range;
  }

  /** When it has returned COMPLETE and the disk thread has processed the queue, the flat torrent holds
      the true content of every piece that was missing, and all other pieces are as they were. */
  lemma DownloadedContent(ctx: Context, truth: Truth, conn: Conn, repo: Repo, os: seq<Outcome>, flat: seq<byte>)
    requires Served(ctx, truth, conn, repo) && conn.peerChoking && Fresh(repo) && Placed(repo, |flat|)
    requires Dialogue(ctx, truth, conn, repo, os) && os[|os| - 1].result == COMPLETE
    ensures forall i <- repo.pieces ::
              Range(DiskAfter(flat, AllWrites(os)), repo.pieces[i])
              == if i in repo.available then truth[i] else Range(flat, repo.pieces[i])
  {
    var n: nat :| n == TWO_32;
    assert AllU32(repo);
    DialogueInv(ctx, truth, conn, repo, os, n);
    hide PieceOnTrack, Dialogue, AllWrites, DiskAfter, Range, Work, Inv, Placed;
    forall i | i in repo.pieces
      ensures Range(DiskAfter(flat, AllWrites(os)), repo.pieces[i])
           == if i in repo.available then truth[i] else Range(flat, repo.pieces[i])
    {
      PieceContent(ctx, truth, repo, os[|os| - 1].repo, AllWrites(os), flat, i);
    }
  }

  // ------------------------------------------------------------------ empty pieces, and those of 2^32 bytes and more

  /** Every request of a piece of this size, whatever its buffer holds while it is wanted, continues the buffer,
      asks for something, and stays inside. */
  ghost predicate AlwaysRequestable(size: nat) {
    forall n: nat :: n == 0 || n < size ==> Requestable(n, size)
  }

  predicate Requestable(n: nat, size: nat) {
    var m := NextRequest(0, PieceValue(seq(n, _ => 0), size, 0));
    0 < m.reqLength && m.reqBegin == n && m.reqBegin + m.reqLength <= size
  }

  /** That is so exactly for sizes from one to 2^32 - 1. Of an empty piece no bytes are asked for, and it takes an
      empty answer; at 2^32 missing bytes the remainder, taken in 32 bits, is zero, and so is the length of the
      request. */
  lemma RequestableExactly(size: nat)
    ensures AlwaysRequestable(size) <==> 0 < size < TWO_32
  {
    if size == 0 {
      assert !Requestable(0, size);
    } else if size < TWO_32 {
      forall n: nat | n == 0 || n < size ensures Requestable(n, size) {
        assert n % TWO_32 == n && (size - n) % TWO_32 == size - n;
      }
    } else {
      var n := size - TWO_32;
      assert (size - n) % TWO_32 == 0;
      assert !Requestable(n, size);
    }
  }

  /** The answer to the request for an empty piece completes it, and it is written. */
  lemma EmptyPieceArrives(ctx: Context, conn: Conn, repo: Repo, i: u32)
    requires i in repo.pieces && repo.pieces[i].size == 0 && repo.pieces[i].data == []
    requires repo.HashCheck(ctx.sha1, i, [])
    ensures NextRequest(i, repo.pieces[i]) == Request(i, 0, 0)
    ensures HandlePiece(ctx, conn, repo, i, 0, [])
         == Handled(conn.(available := conn.available - {i}), repo.Completed(i), [],
                    [WriteData(ctx.infoHash, i, [], repo.pieces[i].offset)], None)
  {
    PieceFinished(ctx, conn, repo, i, 0, [], []);
  }

  /** A missing piece of 2^32 bytes or more, of which no more was received than its size exceeds a multiple
      of 2^32. */
  predicate TooLarge(repo: Repo, i: nat) {
    && i in repo.available && i in repo.pieces && TWO_32 <= repo.pieces[i].size
    && |repo.pieces[i].data| <= repo.pieces[i].size % TWO_32
  }

  /** What was sent, if anything, asks for the next block of some piece. */
  predicate Asks(o: Outcome) {
    o.sent != [] && o.sent[0].Request? ==>
      && o.sent[0].reqIndex in o.repo.pieces
      && o.sent[0] == NextRequest(o.sent[0].reqIndex, o.repo.pieces[o.sent[0].reqIndex])
  }

  lemma RequestAsks(conn: Conn, repo: Repo, pick: Option<nat>, writes: seq<WriteData>, i: nat)
    requires repo.ValidPick(conn.available, pick) && AllU32(repo) && TooLarge(repo, i)
    ensures var (request, result) := RequestNext(conn, repo, pick);
            Asks(Outcome(conn, repo, request, writes, result)) && result != COMPLETE
  {
  }

  lemma AnswerTooSmall(ctx: Context, truth: Truth, conn: Conn, repo: Repo, i: nat, k: nat)
    requires AllU32(repo) && TooLarge(repo, i) && k in repo.pieces
    ensures var m := Answer(truth, NextRequest(k, repo.pieces[k]));
            var h := HandlePiece(ctx, conn, repo, m.index, m.begin, m.block);
            TooLarge(h.repo, i) && AllU32(h.repo) && h.sent == [] && h.verdict != Some(COMPLETE)
  {
    RemainderLeft(repo.pieces[i].size, |repo.pieces[i].data|);
    var m := Answer(truth, NextRequest(k, repo.pieces[k]));
    assert |m.block| <= NextRequest(k, repo.pieces[k]).reqLength;
    hide TrueBlock;
  }

  lemma TooLargeStays(ctx: Context, truth: Truth, o: Outcome, o': Outcome, i: nat)
    requires TooLarge(o.repo, i) && Asks(o) && Follows(ctx, truth, o, o')
    ensures TooLarge(o'.repo, i) && Asks(o') && o'.result != COMPLETE
  {
    var m := Answer(truth, o.sent[0]);
    var pick :| PickFits(Handle(ctx, o.conn, o.repo, m), pick) && o' == Respond(ctx, o.conn, o.repo, m, pick);
    var h := HandlePiece(ctx, o.conn, o.repo, m.index, m.begin, m.block);
    assert h == Handle(ctx, o.conn, o.repo, m);
    AnswerTooSmall(ctx, truth, o.conn, o.repo, i, o.sent[0].reqIndex);
    hide HandlePiece, NextRequest, TooLarge, Asks, RequestNext, TrueBlock;
    if h.verdict.None? {
      RequestAsks(h.conn, h.repo, pick, h.writes, i);
      assert [] + o'.sent == o'.sent;
    } else {
      NothingAsked(o');
    }
  }

  lemma NothingAsked(o: Outcome)
    requires o.sent == []
    ensures Asks(o)
  {
  }

  lemma TooLargeFirst(ctx: Context, conn: Conn, repo: Repo, o: Outcome, i: nat)
    requires TooLarge(repo, i) && Reacts(ctx, conn, repo, UnChoke, o)
    ensures TooLarge(o.repo, i) && Asks(o) && o.result != COMPLETE
  {
    var pick :| PickFits(Handle(ctx, conn, repo, UnChoke), pick) && o == Respond(ctx, conn, repo, UnChoke, pick);
    var h := Handle(ctx, conn, repo, UnChoke);
    hide NextRequest, TooLarge, Asks, RequestNext;
    if h.verdict.None? {
      RequestAsks(h.conn, h.repo, pick, h.writes, i);
      assert [] + o.sent == o.sent;
    } else {
      NothingAsked(o);
    }
  }

  /** So a download with such a piece missing never returns COMPLETE, and the size limit of the results
      above is exact: the requests of the piece shrink to nothing before it is complete. */
  lemma {:induction false} LargePieceNeverArrives(ctx: Context, truth: Truth, conn: Conn, repo: Repo,
                                                  os: seq<Outcome>, i: nat)
    requires TooLarge(repo, i) && Dialogue(ctx, truth, conn, repo, os)
    ensures var o := os[|os| - 1]; TooLarge(o.repo, i) && Asks(o) && o.result != COMPLETE
  {
    var o := os[|os| - 1];
    hide TooLarge, Asks, Reacts;
    if |os| == 1 {
      TooLargeFirst(ctx, conn, repo, o, i);
    } else {
      var before, p := os[..|os| - 1], os[|os| - 2];
      assert before[|before| - 1] == p && Follows(ctx, truth, p, o);
      assert Dialogue(ctx, truth, conn, repo, before);
      hide Dialogue, Follows;
      LargePieceNeverArrives(ctx, truth, conn, repo, before, i);
      TooLargeStays(ctx, truth, p, o, i);
    }
  }
}
