/** When a piece is written a second time, and what happens to blocks of pieces that are not known. */
module Twice {
  import opened Bytes
  import opened Codec
  import opened Common
  import opened Disk
  import opened Honest
  import opened Pieces
  import opened Protocol
  import opened Swarm

  /** Pieces are never forgotten, so that a completed piece always has a state. */
  lemma CompletedAreKnown(ctx: Context, r0: Repo, repo: Repo, writes: seq<WriteData>)
    requires Inv(ctx, r0, repo, writes)
    ensures repo.completed <= repo.pieces.Keys
  {
    forall i | i in repo.completed ensures i in repo.pieces {
      assert i in WrittenPieces(writes);
      var w :| w in writes && w.pieceIndex == i;
      assert Verified(ctx, r0, w);
    }
  }

  /** A block of a piece without a state is therefore always answered with ERROR: the branch for completed
      pieces is not reached. */
  lemma UnknownPieceIsAnError(ctx: Context, r0: Repo, conn: Conn, repo: Repo, writes: seq<WriteData>,
                              m: Message, pick: Option<nat>)
    requires Inv(ctx, r0, repo, writes) && AllU32(repo) && PickFits(Handle(ctx, conn, repo, m), pick)
    requires m.Piece? && m.index !in repo.pieces
    ensures Respond(ctx, conn, repo, m, pick) == Outcome(conn, repo, [], [], ERROR)
  {
    CompletedAreKnown(ctx, r0, repo, writes);
    assert Handle(ctx, conn, repo, m) == HandlePiece(ctx, conn, repo, m.index, m.begin, m.block);
  }

  /** The block continues the buffer of a completed piece, and gives it its size and its hash. */
  predicate CompletesAgain(ctx: Context, repo: Repo, m: Message) {
    && m.Piece? && m.index in repo.completed && m.index in repo.pieces
    && var p := repo.pieces[m.index];
       m.begin == p.NextBegin() && |p.data| + |m.block| == p.size
       && repo.HashCheck(ctx.sha1, m.index, p.data + m.block)
  }

  /** A piece that was written is written again exactly by such a block. */
  lemma WritesAgain(ctx: Context, r0: Repo, conn: Conn, repo: Repo, writes: seq<WriteData>, m: Message,
                    pick: Option<nat>)
    requires Inv(ctx, r0, repo, writes) && AllU32(repo) && PickFits(Handle(ctx, conn, repo, m), pick)
    ensures (exists w <- Respond(ctx, conn, repo, m, pick).writes :: w.pieceIndex in WrittenPieces(writes))
       <==> CompletesAgain(ctx, repo, m)
  {
    assert repo.completed == WrittenPieces(writes);
    hide Inv, WrittenPieces;
    if m.Piece? {
      WritesWhen(ctx, conn, repo, m.index, m.begin, m.block);
      assert Handle(ctx, conn, repo, m) == HandlePiece(ctx, conn, repo, m.index, m.begin, m.block);
      hide HandlePiece, RequestNext;
    } else {
      hide HandlePiece, Announced, RequestNext;
    }
  }

  lemma WritesWhen(ctx: Context, conn: Conn, repo: Repo, i: nat, begin: nat, block: seq<byte>)
    ensures var h := HandlePiece(ctx, conn, repo, i, begin, block);
            var again := i in repo.pieces && begin == repo.pieces[i].NextBegin()
                         && |repo.pieces[i].data| + |block| == repo.pieces[i].size
                         && repo.HashCheck(ctx.sha1, i, repo.pieces[i].data + block);
            if again then |h.writes| == 1 && h.writes[0].pieceIndex == i else h.writes == []
  {
  }

  // ------------------------------------------------------------------ a run with two writes

  /** A torrent of one piece of one byte. */
  function OneByteRepo(ctx: Context, b: byte): Repo {
    Repo(map[0 := PieceValue([], 1, 0)], {0}, {}, map[0 := ctx.sha1([b])], true)
  }

  function Named(p: PeerId, q: PeerId): seq<Event> {
    [Connect(p), Connect(q), Receive(p, Have(0), None), Receive(q, Have(0), None)]
  }

  function Asked(p: PeerId, q: PeerId): seq<Event> {
    Named(p, q) + [Receive(p, UnChoke, Some(0))] + [Receive(q, UnChoke, Some(0))]
  }

  /** Both peers announce the piece, unchoke, and answer the request that they were sent. */
  function TwoAnswers(p: PeerId, q: PeerId, b: byte): seq<Event> {
    Asked(p, q) + [Receive(p, Message.Piece(0, 0, [b]), None)] + [Receive(q, Message.Piece(0, 0, [b]), None)]
  }

  lemma OneMore(ctx: Context, truth: Truth, r0: Repo, events: seq<Event>, s: Swarm, result: ProtocolState, e: Event)
    returns (s': Swarm, result': ProtocolState)
    requires HonestRun(ctx, truth, r0, events, s, result) && HonestEvent(truth, s, e)
    requires AllU32(s.repo) && Enabled(ctx, s, e)
    ensures HonestRun(ctx, truth, r0, events + [e], s', result') && (s', result') == Step(ctx, s, e)
  {
    var r := Step(ctx, s, e);
    s', result' := r.0, r.1;
    assert (events + [e])[..|events + [e]| - 1] == events;
    assert Steps(ctx, s, e, s', result');
    hide HonestEvent, Steps;
  }

  const NAMED := Conn(true, true, false, {0})
  const READY := Conn(false, true, false, {0})

  lemma OnHave(ctx: Context, repo: Repo)
    requires AllU32(repo) && repo.completed == {}
    ensures PickFits(Handle(ctx, NEW_CONN, repo, Have(0)), None)
    ensures Respond(ctx, NEW_CONN, repo, Have(0), None) == Outcome(NAMED, repo, [Interested], [], OPEN)
  {
    hide HandlePiece, Announced;
    assert {} + {0} == {0};
  }

  lemma OnUnChoke(ctx: Context, b: byte)
    ensures var repo := OneByteRepo(ctx, b);
            && AllU32(repo) && PickFits(Handle(ctx, NAMED, repo, UnChoke), Some(0))
            && Respond(ctx, NAMED, repo, UnChoke, Some(0)) == Outcome(READY, repo, [Request(0, 0, 1)], [], OPEN)
  {
    var repo := OneByteRepo(ctx, b);
    hide HandlePiece, Announced;
    assert 0 in repo.Candidates({0});
    assert [] + [Request(0, 0, 1)] == [Request(0, 0, 1)];
  }

  /** The only piece arrives, for the first or for the second time. */
  lemma OnPiece(ctx: Context, b: byte, repo: Repo)
    requires repo == OneByteRepo(ctx, b) || repo == OneByteRepo(ctx, b).Completed(0)
    ensures var m := Message.Piece(0, 0, [b]);
            && AllU32(repo) && PickFits(Handle(ctx, READY, repo, m), None)
            && Respond(ctx, READY, repo, m, None)
               == Outcome(READY.(available := {}), OneByteRepo(ctx, b).Completed(0), [],
                          [WriteData(ctx.infoHash, 0, [b], 0)], COMPLETE)
  {
    var m := Message.Piece(0, 0, [b]);
    assert repo.pieces[0].data + [b] == [b] && repo.HashCheck(ctx.sha1, 0, [b]);
    PieceFinished(ctx, READY, repo, 0, 0, [b], [b]);
    var h := Handle(ctx, READY, repo, m);
    assert h == HandlePiece(ctx, READY, repo, 0, 0, [b]);
    hide HandlePiece;
    var done := OneByteRepo(ctx, b).Completed(0);
    assert repo.Completed(0).pieces == done.pieces;
    assert repo.Completed(0) == done;
    assert READY.available - {0} == {};
    assert done.Candidates({}) == {};
  }

  /** A message is answered with `o`. */
  lemma Received(ctx: Context, truth: Truth, r0: Repo, events: seq<Event>, s: Swarm, result: ProtocolState,
                 p: PeerId, m: Message, pick: Option<nat>, o: Outcome)
    returns (s': Swarm)
    requires HonestRun(ctx, truth, r0, events, s, result) && p in s.conns && AllU32(s.repo)
    requires PickFits(Handle(ctx, s.conns[p], s.repo, m), pick) && Respond(ctx, s.conns[p], s.repo, m, pick) == o
    requires Answers(truth, s.sent, p, m)
    ensures HonestRun(ctx, truth, r0, events + [Receive(p, m, pick)], s', o.result)
    ensures s' == Swarm(s.conns[p := o.conn], o.repo, s.writes + o.writes, s.sent + Addressed(p, o.sent))
  {
    hide HonestRun, Respond, Handle, Answers;
    var result';
    s', result' := OneMore(ctx, truth, r0, events, s, result, Receive(p, m, pick));
  }

  lemma AddressedOne(p: PeerId, m: Message)
    ensures Addressed(p, [m]) == [(p, m)] && Addressed(p, []) == []
  {
    assert [m][1..] == [];
  }

  lemma NotAPiece(truth: Truth, sent: seq<(PeerId, Message)>, p: PeerId, m: Message)
    requires !m.Piece?
    ensures Answers(truth, sent, p, m)
  {
  }

  /** A message that is answered with one message, and changes nothing else but the connection. */
  lemma Replied(ctx: Context, truth: Truth, r0: Repo, events: seq<Event>, s: Swarm, result: ProtocolState,
                p: PeerId, m: Message, pick: Option<nat>, conn: Conn, x: Message)
    returns (s': Swarm)
    requires HonestRun(ctx, truth, r0, events, s, result) && p in s.conns && AllU32(s.repo) && !m.Piece?
    requires PickFits(Handle(ctx, s.conns[p], s.repo, m), pick)
    requires Respond(ctx, s.conns[p], s.repo, m, pick) == Outcome(conn, s.repo, [x], [], OPEN)
    ensures HonestRun(ctx, truth, r0, events + [Receive(p, m, pick)], s', OPEN)
    ensures s' == s.(conns := s.conns[p := conn], sent := s.sent + [(p, x)])
  {
    hide HonestRun, Respond, Handle, Answers, PickFits, AllU32;
    NotAPiece(truth, s.sent, p, m);
    AddressedOne(p, x);
    s' := Received(ctx, truth, r0, events, s, result, p, m, pick, Outcome(conn, s.repo, [x], [], OPEN));
    assert s.writes + [] == s.writes;
  }

  lemma AnswersAt(truth: Truth, sent: seq<(PeerId, Message)>, p: PeerId, b: byte, k: nat)
    requires truth == map[0 := [b]] && k < |sent| && sent[k] == (p, Request(0, 0, 1))
    ensures Answers(truth, sent, p, Message.Piece(0, 0, [b]))
  {
    assert TrueBlock(truth, 0, 0, 1) == [b];
    assert IsAnswer(truth, sent[k].1, Message.Piece(0, 0, [b]));
  }

  function Both(p: PeerId, q: PeerId, x: Conn, y: Conn): map<PeerId, Conn> {
    map[p := x, q := y]
  }

  lemma BothUpdated(p: PeerId, q: PeerId, x: Conn, y: Conn, z: Conn)
    requires p != q
    ensures var m := Both(p, q, x, y);
            && p in m && m[p] == x && q in m && m[q] == y
            && m[p := z] == Both(p, q, z, y) && m[q := z] == Both(p, q, x, z)
  {
  }

  lemma BothConnected(ctx: Context, p: PeerId, q: PeerId, b: byte) returns (s: Swarm, result: ProtocolState)
    requires p != q
    ensures HonestRun(ctx, map[0 := [b]], OneByteRepo(ctx, b), [Connect(p), Connect(q)], s, result)
    ensures s == Swarm(Both(p, q, NEW_CONN, NEW_CONN), OneByteRepo(ctx, b), [], [])
  {
    var truth: Truth, r0 := map[0 := [b]], OneByteRepo(ctx, b);
    assert HonestRun(ctx, truth, r0, [], Start(r0), OPEN);
    hide HonestRun;
    s, result := OneMore(ctx, truth, r0, [], Start(r0), OPEN, Connect(p));
    assert [] + [Connect(p)] == [Connect(p)];
    s, result := OneMore(ctx, truth, r0, [Connect(p)], s, result, Connect(q));
    assert [Connect(p)] + [Connect(q)] == [Connect(p), Connect(q)];
  }

  lemma BothNamed(ctx: Context, p: PeerId, q: PeerId, b: byte) returns (s: Swarm)
    requires p != q
    ensures HonestRun(ctx, map[0 := [b]], OneByteRepo(ctx, b), Named(p, q), s, OPEN)
    ensures s == Swarm(Both(p, q, NAMED, NAMED), OneByteRepo(ctx, b), [], [(p, Interested), (q, Interested)])
  {
    var truth: Truth, r0 := map[0 := [b]], OneByteRepo(ctx, b);
    var result;
    OnHave(ctx, r0);
    assert [Connect(p), Connect(q)] + [Receive(p, Have(0), None)] + [Receive(q, Have(0), None)] == Named(p, q);
    assert AllU32(r0);
    hide HonestRun, Respond, Handle, Answers, OneByteRepo, AllU32, PickFits;
    s, result := BothConnected(ctx, p, q, b);
    BothUpdated(p, q, NEW_CONN, NEW_CONN, NAMED);
    BothUpdated(p, q, NAMED, NEW_CONN, NAMED);
    hide Both, Named;
    s := Replied(ctx, truth, r0, [Connect(p), Connect(q)], s, result, p, Have(0), None, NAMED, Interested);
    s := Replied(ctx, truth, r0, [Connect(p), Connect(q)] + [Receive(p, Have(0), None)], s, OPEN, q, Have(0), None,
                 NAMED, Interested);
  }

  lemma BothAsked(ctx: Context, p: PeerId, q: PeerId, b: byte) returns (s: Swarm)
    requires p != q
    ensures HonestRun(ctx, map[0 := [b]], OneByteRepo(ctx, b), Asked(p, q), s, OPEN)
    ensures s == Swarm(Both(p, q, READY, READY), OneByteRepo(ctx, b), [],
                       [(p, Interested), (q, Interested), (p, Request(0, 0, 1)), (q, Request(0, 0, 1))])
  {
    var truth: Truth, r0 := map[0 := [b]], OneByteRepo(ctx, b);
    OnUnChoke(ctx, b);
    hide HonestRun, Respond, Handle, Answers, OneByteRepo, Named, AllU32, PickFits;
    s := BothNamed(ctx, p, q, b);
    BothUpdated(p, q, NAMED, NAMED, READY);
    BothUpdated(p, q, READY, NAMED, READY);
    hide Both;
    s := Replied(ctx, truth, r0, Named(p, q), s, OPEN, p, UnChoke, Some(0), READY, Request(0, 0, 1));
    s := Replied(ctx, truth, r0, Named(p, q) + [Receive(p, UnChoke, Some(0))], s, OPEN, q, UnChoke, Some(0),
                 READY, Request(0, 0, 1));
  }

  /** A block that is answered with a write, after which nothing is missing. */
  lemma Written(ctx: Context, truth: Truth, r0: Repo, events: seq<Event>, s: Swarm, result: ProtocolState,
                p: PeerId, m: Message, conn: Conn, repo: Repo, w: WriteData)
    returns (s': Swarm)
    requires HonestRun(ctx, truth, r0, events, s, result) && p in s.conns && AllU32(s.repo)
    requires PickFits(Handle(ctx, s.conns[p], s.repo, m), None) && Answers(truth, s.sent, p, m)
    requires Respond(ctx, s.conns[p], s.repo, m, None) == Outcome(conn, repo, [], [w], COMPLETE)
    ensures HonestRun(ctx, truth, r0, events + [Receive(p, m, None)], s', COMPLETE)
    ensures s' == Swarm(s.conns[p := conn], repo, s.writes + [w], s.sent)
  {
    hide HonestRun, Respond, Handle, Answers, PickFits, AllU32;
    AddressedOne(p, m);
    s' := Received(ctx, truth, r0, events, s, result, p, m, None, Outcome(conn, repo, [], [w], COMPLETE));
    assert s.sent + [] == s.sent;
  }

  /** Two connections, both asked for the only block before it arrived, answer truthfully: the piece is
      verified and written twice. */
  lemma TwoWrites(ctx: Context, p: PeerId, q: PeerId, b: byte) returns (s: Swarm)
    requires p != q
    ensures var r0 := OneByteRepo(ctx, b);
            && Fresh(r0) && OnTrack(ctx, map[0 := [b]], r0)
            && HonestRun(ctx, map[0 := [b]], r0, TwoAnswers(p, q, b), s, COMPLETE)
    ensures s.writes == [WriteData(ctx.infoHash, 0, [b], 0), WriteData(ctx.infoHash, 0, [b], 0)]
  {
    var truth: Truth, r0 := map[0 := [b]], OneByteRepo(ctx, b);
    assert Fresh(r0) && OnTrack(ctx, truth, r0);
    OnPiece(ctx, b, r0);
    OnPiece(ctx, b, r0.Completed(0));
    hide HonestRun, Respond, Handle, Answers, OneByteRepo, Asked, Fresh, OnTrack, Repo.Completed, AllU32, PickFits;
    s := BothAsked(ctx, p, q, b);
    var done := READY.(available := {});
    BothUpdated(p, q, READY, READY, done);
    BothUpdated(p, q, done, READY, done);
    hide Both;
    var m, w := Message.Piece(0, 0, [b]), WriteData(ctx.infoHash, 0, [b], 0);
    AnswersAt(truth, s.sent, p, b, 2);
    AnswersAt(truth, s.sent, q, b, 3);
    s := Written(ctx, truth, r0, Asked(p, q), s, OPEN, p, m, done, r0.Completed(0), w);
    s := Written(ctx, truth, r0, Asked(p, q) + [Receive(p, m, None)], s, COMPLETE, q, m, done, r0.Completed(0), w);
    assert [] + [w] + [w] == [w, w];
  }
}
