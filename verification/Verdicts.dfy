/** Exactly when a message ends a connection, leads to a request, completes a piece or spoils one. */
module Verdicts {
  import opened Bytes
  import opened Codec
  import opened Common
  import opened Disk
  import opened Pieces
  import opened Protocol
  import Conversation
  import Swarm

  /** The message is the block that a known piece expects next. */
  predicate Expected(repo: Repo, m: Message) {
    m.Piece? && m.index in repo.pieces && m.begin == repo.pieces[m.index].NextBegin()
  }

  /** It gives the piece its size. */
  predicate Fills(repo: Repo, m: Message) {
    Expected(repo, m) && |repo.pieces[m.index].data| + |m.block| == repo.pieces[m.index].size
  }

  /** The bytes of the piece, with the block, have the digest that is stored for it. */
  predicate Checks(ctx: Context, repo: Repo, m: Message)
    requires Expected(repo, m)
  {
    m.index in repo.hashes && ctx.sha1(repo.pieces[m.index].data + m.block) == repo.hashes[m.index]
  }

  predicate Finishes(ctx: Context, repo: Repo, m: Message) {
    Fills(repo, m) && Checks(ctx, repo, m)
  }

  predicate Spoils(ctx: Context, repo: Repo, m: Message) {
    Fills(repo, m) && !Checks(ctx, repo, m)
  }

  /** After the message the client looks for a piece to request. */
  predicate Looks(ctx: Context, conn: Conn, repo: Repo, m: Message) {
    (m.UnChoke? && conn.peerChoking) || (m.Piece? && m.index in repo.pieces && !Spoils(ctx, repo, m))
  }

  lemma HandledVerdict(ctx: Context, conn: Conn, repo: Repo, m: Message)
    ensures var verdict := Handle(ctx, conn, repo, m).verdict;
            && (verdict == None <==> Looks(ctx, conn, repo, m))
            && (verdict == Some(HASH_CHECK_FAIL) <==> Spoils(ctx, repo, m))
            && (verdict == Some(ERROR) <==> m.Piece? && m.index !in repo.pieces && m.index !in repo.completed)
            && (verdict == Some(CLOSED) <==> m.Cancel?) && verdict != Some(COMPLETE)
  {
    hide Announced;
    if m.Piece? {
      assert Handle(ctx, conn, repo, m) == HandlePiece(ctx, conn, repo, m.index, m.begin, m.block);
    } else {
      hide HandlePiece;
    }
  }

  lemma RequestVerdict(conn: Conn, repo: Repo, pick: Option<nat>)
    requires repo.ValidPick(conn.available, pick) && AllU32(repo)
    ensures var (request, result) := RequestNext(conn, repo, pick);
            var candidates := repo.Candidates(conn.available);
            && (result == COMPLETE <==> repo.active && repo.available == {})
            && (result == CLOSED <==> !repo.active || (repo.available != {} && candidates == {}))
            && (result == OPEN <==> repo.active && candidates != {})
            && (if repo.active && candidates != {} && !conn.peerChoking
                then |request| == 1 && request[0].Request? && request[0].reqIndex in candidates
                else request == [])
  {
    hide NextRequest;
    if pick.Some? {
      NextIsRequest(pick.value, repo);
    }
  }

  lemma NextIsRequest(i: u32, repo: Repo)
    requires i in repo.pieces
    ensures NextRequest(i, repo.pieces[i]).Request? && NextRequest(i, repo.pieces[i]).reqIndex == i
  {
  }

  /** The five answers of `onMessage`, for any message in any state. */
  lemma ResultExactly(ctx: Context, conn: Conn, repo: Repo, m: Message, pick: Option<nat>)
    requires AllU32(repo) && PickFits(Handle(ctx, conn, repo, m), pick)
    ensures var o := Respond(ctx, conn, repo, m, pick);
            var looks, candidates := Looks(ctx, conn, repo, m), o.repo.Candidates(o.conn.available);
            && (o.result == HASH_CHECK_FAIL <==> Spoils(ctx, repo, m))
            && (o.result == ERROR <==> m.Piece? && m.index !in repo.pieces && m.index !in repo.completed)
            && (o.result == COMPLETE <==> looks && o.repo.active && o.repo.available == {})
            && (o.result == CLOSED <==>
                  m.Cancel? || (looks && (!o.repo.active || (o.repo.available != {} && candidates == {}))))
  {
    HandledVerdict(ctx, conn, repo, m);
    var h := Handle(ctx, conn, repo, m);
    Conversation.HandledU32(ctx, conn, repo, m);
    hide Handle, Looks, Spoils, AllU32;
    if h.verdict.None? {
      RequestVerdict(h.conn, h.repo, pick);
    }
    hide RequestNext;
  }

  lemma HandledSends(ctx: Context, conn: Conn, repo: Repo, m: Message)
    ensures Handle(ctx, conn, repo, m).sent
         == if m.KeepAlive? then [KeepAlive]
            else if Conversation.Engages(m, repo.completed) && !conn.amInterested then [Interested] else []
  {
    hide Announced;
    if m.Piece? {
      assert Handle(ctx, conn, repo, m) == HandlePiece(ctx, conn, repo, m.index, m.begin, m.block);
    } else {
      hide HandlePiece;
    }
  }

  /** What is sent in return: a KeepAlive for a KeepAlive, Interested to the first offer, and a request exactly
      when the client looks for a piece, is not choked, and the peer has one that is wanted; nothing else. */
  lemma SentExactly(ctx: Context, conn: Conn, repo: Repo, m: Message, pick: Option<nat>)
    requires AllU32(repo) && PickFits(Handle(ctx, conn, repo, m), pick)
    ensures var o := Respond(ctx, conn, repo, m, pick);
            && |o.sent| <= 1
            && (KeepAlive in o.sent <==> m.KeepAlive?)
            && (Interested in o.sent <==> Conversation.Engages(m, repo.completed) && !conn.amInterested)
            && ((exists r <- o.sent :: r.Request?) <==>
                  Looks(ctx, conn, repo, m) && o.repo.active && !o.conn.peerChoking
                  && o.repo.Candidates(o.conn.available) != {})
            && forall x <- o.sent :: x.KeepAlive? || x.Interested?
                                     || (x.Request? && x.reqIndex in o.repo.Candidates(o.conn.available))
  {
    HandledVerdict(ctx, conn, repo, m);
    HandledSends(ctx, conn, repo, m);
    var h := Handle(ctx, conn, repo, m);
    Conversation.HandledU32(ctx, conn, repo, m);
    assert Looks(ctx, conn, repo, m) ==> !m.KeepAlive? && !Conversation.Engages(m, repo.completed);
    hide Handle, Looks, AllU32, Conversation.Engages, Repo.Candidates;
    if h.verdict.None? {
      var (request, _) := RequestNext(h.conn, h.repo, pick);
      RequestVerdict(h.conn, h.repo, pick);
      hide RequestNext;
      assert [] + request == request;
    }
  }

  /** What a message does to the pieces: an expected block is appended to its buffer; when the piece has its size
      the buffer is emptied, and its bytes are written if they check and dropped if they do not; only a piece
      that is written ceases to be wanted. Nothing else changes. */
  lemma PiecesExactly(ctx: Context, conn: Conn, repo: Repo, m: Message, pick: Option<nat>)
    requires AllU32(repo) && PickFits(Handle(ctx, conn, repo, m), pick)
    ensures var o := Respond(ctx, conn, repo, m, pick);
            && o.repo.pieces.Keys == repo.pieces.Keys && o.repo.hashes == repo.hashes && o.repo.active == repo.active
            && (forall k <- repo.pieces ::
                  && o.repo.pieces[k].size == repo.pieces[k].size && o.repo.pieces[k].offset == repo.pieces[k].offset
                  && o.repo.pieces[k].data
                     == if !Expected(repo, m) || m.index != k then repo.pieces[k].data
                        else if Fills(repo, m) then [] else repo.pieces[k].data + m.block)
            && (Finishes(ctx, repo, m) ==>
                  && o.writes == [WriteData(ctx.infoHash, m.index, repo.pieces[m.index].data + m.block,
                                            repo.pieces[m.index].offset)]
                  && o.repo.available == repo.available - {m.index}
                  && o.repo.completed == repo.completed + {m.index})
            && (!Finishes(ctx, repo, m) ==>
                  o.writes == [] && o.repo.available == repo.available && o.repo.completed == repo.completed)
  {
    hide Announced, RequestNext;
    if m.Piece? {
      assert Handle(ctx, conn, repo, m) == HandlePiece(ctx, conn, repo, m.index, m.begin, m.block);
    } else {
      hide HandlePiece;
    }
  }

  // ------------------------------------------------------------------ runs

  /** A run after which the blocks that piece `i` expected, since it was last emptied, are these bytes. */
  ghost predicate Collects(ctx: Context, r0: Repo, events: seq<Swarm.Event>, s: Swarm.Swarm, result: ProtocolState,
                           i: nat, bytes: seq<byte>)
  {
    if events == [] then s == Swarm.Start(r0) && result == OPEN && bytes == []
    else
      var front, last := events[..|events| - 1], events[|events| - 1];
      exists s0, result0, before ::
        Collects(ctx, r0, front, s0, result0, i, before) && CollectStep(ctx, s0, last, s, result, i, before, bytes)
  }

  predicate ExpectedBy(s: Swarm.Swarm, e: Swarm.Event, i: nat) {
    e.Receive? && e.peer in s.conns && Expected(s.repo, e.message) && e.message.index == i
  }

  predicate CollectStep(ctx: Context, s: Swarm.Swarm, e: Swarm.Event, s': Swarm.Swarm, result: ProtocolState,
                        i: nat, before: seq<byte>, bytes: seq<byte>)
  {
    && Swarm.Steps(ctx, s, e, s', result)
    && bytes == if !ExpectedBy(s, e, i) then before
                else if |before| + |e.message.block| == s.repo.pieces[i].size then [] else before + e.message.block
  }

  lemma StepBuffer(ctx: Context, s: Swarm.Swarm, e: Swarm.Event, s': Swarm.Swarm, result: ProtocolState,
                   i: nat, before: seq<byte>, bytes: seq<byte>)
    requires CollectStep(ctx, s, e, s', result, i, before, bytes)
    requires i in s.repo.pieces && s.repo.pieces[i].data == before
    ensures i in s'.repo.pieces && s'.repo.pieces[i].data == bytes
  {
    if e.Receive? && e.peer in s.conns {
      PiecesExactly(ctx, s.conns[e.peer], s.repo, e.message, e.pick);
      hide Respond, Handle, Checks;
    }
  }

  /** In every run, whatever is sent on however many connections: the buffer of a piece holds, in order, the
      blocks that it expected since it was last emptied, and nothing else. */
  lemma {:induction false} BufferCollects(ctx: Context, r0: Repo, events: seq<Swarm.Event>, s: Swarm.Swarm,
                                          result: ProtocolState, i: nat, bytes: seq<byte>)
    requires i in r0.pieces && r0.pieces[i].data == [] && Collects(ctx, r0, events, s, result, i, bytes)
    ensures i in s.repo.pieces && s.repo.pieces[i].data == bytes
  {
    if events == [] {
    } else {
      var front, last := events[..|events| - 1], events[|events| - 1];
      var s0, result0, before :|
        Collects(ctx, r0, front, s0, result0, i, before) && CollectStep(ctx, s0, last, s, result, i, before, bytes);
      BufferCollects(ctx, r0, front, s0, result0, i, before);
      hide CollectStep;
      StepBuffer(ctx, s0, last, s, result, i, before, bytes);
    }
  }

  /** Every run can be read so. */
  lemma {:induction false} Collected(ctx: Context, r0: Repo, events: seq<Swarm.Event>, s: Swarm.Swarm,
                                     result: ProtocolState, i: nat)
    returns (bytes: seq<byte>)
    requires Swarm.Run(ctx, r0, events, s, result) && i in r0.pieces && r0.pieces[i].data == []
    ensures Collects(ctx, r0, events, s, result, i, bytes)
  {
    if events == [] {
      bytes := [];
    } else {
      var front, last := events[..|events| - 1], events[|events| - 1];
      var s0, result0 :| Swarm.Run(ctx, r0, front, s0, result0) && Swarm.Steps(ctx, s0, last, s, result);
      var before := Collected(ctx, r0, front, s0, result0, i);
      BufferCollects(ctx, r0, front, s0, result0, i, before);
      hide Swarm.Steps, Swarm.Run, ExpectedBy;
      ExpectedIsBlock(s0, last, i);
      bytes := if !ExpectedBy(s0, last, i) then before
               else if |before| + |last.message.block| == s0.repo.pieces[i].size then []
               else before + last.message.block;
      assert CollectStep(ctx, s0, last, s, result, i, before, bytes);
    }
  }

  lemma ExpectedIsBlock(s: Swarm.Swarm, e: Swarm.Event, i: nat)
    ensures ExpectedBy(s, e, i) ==> e.Receive? && e.message.Piece?
  {
  }
}
