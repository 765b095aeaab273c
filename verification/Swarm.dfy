/** Any number of connections sharing one torrent: what holds in every run, whatever the peers send. */
module Swarm {
  import opened Bytes
  import opened Codec
  import opened Common
  import opened Disk
  import opened Pieces
  import opened Protocol
  import opened Tiling

  /** The pieces as `populate` made them. A later repository differs in the buffers and the two sets. */
  predicate SameTorrent(r0: Repo, repo: Repo) {
    && repo.pieces.Keys == r0.pieces.Keys && repo.hashes == r0.hashes
    && forall i <- r0.pieces ::
         repo.pieces[i].size == r0.pieces[i].size && repo.pieces[i].offset == r0.pieces[i].offset
  }

  /** A write of a whole piece at its place, with the right hash. */
  predicate Verified(ctx: Context, r0: Repo, w: WriteData) {
    && w.infoHash == ctx.infoHash
    && w.pieceIndex in r0.pieces && w.pieceIndex in r0.hashes
    && |w.data| == r0.pieces[w.pieceIndex].size
    && w.offset == r0.pieces[w.pieceIndex].offset
    && ctx.sha1(w.data) == r0.hashes[w.pieceIndex]
  }

  function WrittenPieces(writes: seq<WriteData>): set<nat> {
    set w <- writes :: w.pieceIndex
  }

  predicate Inv(ctx: Context, r0: Repo, repo: Repo, writes: seq<WriteData>) {
    && SameTorrent(r0, repo)
    && (forall w <- writes :: Verified(ctx, r0, w))
    && repo.available == r0.available - repo.completed
    && repo.completed == WrittenPieces(writes)
  }

  lemma NothingLeft(wanted: set<nat>, have: set<nat>)
    requires wanted - have == {}
    ensures wanted <= have
  {
    forall i | i in wanted ensures i in have {
      assert i !in wanted - have;
    }
  }

  /** One message on one connection keeps the invariant; it says COMPLETE only when nothing is missing. */
  lemma RespondInv(ctx: Context, r0: Repo, conn: Conn, repo: Repo, writes: seq<WriteData>, m: Message,
                   pick: Option<nat>)
    requires Inv(ctx, r0, repo, writes) && AllU32(repo) && PickFits(Handle(ctx, conn, repo, m), pick)
    ensures var o := Respond(ctx, conn, repo, m, pick);
            && Inv(ctx, r0, o.repo, writes + o.writes) && AllU32(o.repo) && o.repo.active == repo.active
            && (o.result == COMPLETE ==> o.repo.available == {})
  {
    var h := Handle(ctx, conn, repo, m);
    if m.Piece? {
      HandlePieceInv(ctx, r0, conn, repo, writes, m.index, m.begin, m.block);
      hide HandlePiece;
      assert h == HandlePiece(ctx, conn, repo, m.index, m.begin, m.block);
    } else {
      hide HandlePiece, Announced;
      assert h.repo == repo && h.writes == [] && writes + [] == writes;
    }
  }

  lemma HandlePieceInv(ctx: Context, r0: Repo, conn: Conn, repo: Repo, writes: seq<WriteData>,
                       i: nat, begin: nat, block: seq<byte>)
    requires Inv(ctx, r0, repo, writes) && AllU32(repo)
    ensures var h := HandlePiece(ctx, conn, repo, i, begin, block);
            && Inv(ctx, r0, h.repo, writes + h.writes) && AllU32(h.repo) && h.repo.active == repo.active
            && h.verdict != Some(COMPLETE)
  {
    var h := HandlePiece(ctx, conn, repo, i, begin, block);
    if h.writes == [] {
      assert writes + [] == writes;
    } else {
      var w := h.writes[0];
      assert writes + h.writes == writes + [w];
      assert WrittenPieces(writes + [w]) == WrittenPieces(writes) + {i};
    }
  }

  // ------------------------------------------------------------------ runs

  /** What can happen: connections come and go, the torrent is stopped and resumed, and any message
      whatever arrives on any connection. */
  datatype Event =
    | Connect(peer: PeerId)
    | Disconnect(peer: PeerId)
    | SetActive(active: bool)
    | Receive(peer: PeerId, message: Message, pick: Option<nat>)

  datatype Swarm = Swarm(conns: map<PeerId, Conn>, repo: Repo, writes: seq<WriteData>, sent: seq<(PeerId, Message)>)

  predicate Enabled(ctx: Context, s: Swarm, e: Event) {
    e.Receive? && e.peer in s.conns ==> PickFits(Handle(ctx, s.conns[e.peer], s.repo, e.message), e.pick)
  }

  /** A message for a peer without a connection is not forwarded, and counts as CLOSED. */
  function Step(ctx: Context, s: Swarm, e: Event): (Swarm, ProtocolState)
    requires AllU32(s.repo) && Enabled(ctx, s, e)
  {
    match e
    case Connect(p) => (s.(conns := if p in s.conns then s.conns else s.conns[p := NEW_CONN]), OPEN)
    case Disconnect(p) => (s.(conns := s.conns - {p}), OPEN)
    case SetActive(b) => (s.(repo := s.repo.(active := b)), OPEN)
    case Receive(p, m, pick) =>
      if p !in s.conns then (s, CLOSED)
      else
        var o := Respond(ctx, s.conns[p], s.repo, m, pick);
        (Swarm(s.conns[p := o.conn], o.repo, s.writes + o.writes, s.sent + Addressed(p, o.sent)), o.result)
  }

  function Start(r0: Repo): Swarm {
    Swarm(map[], r0, [], [])
  }

  /** The repository right after `populate`, with piece numbers of 32 bits. */
  predicate Fresh(r0: Repo) {
    r0.completed == {} && AllU32(r0)
  }

  predicate Steps(ctx: Context, s: Swarm, e: Event, s': Swarm, result: ProtocolState) {
    AllU32(s.repo) && Enabled(ctx, s, e) && Step(ctx, s, e) == (s', result)
  }

  /** `s` is reached from the populated repository by these events, `result` being what the last returned. */
  ghost predicate Run(ctx: Context, r0: Repo, events: seq<Event>, s: Swarm, result: ProtocolState) {
    if events == [] then s == Start(r0) && result == OPEN
    else
      var front, last := events[..|events| - 1], events[|events| - 1];
      exists s0, result0 :: Run(ctx, r0, front, s0, result0) && Steps(ctx, s0, last, s, result)
  }

  /** Integrity: in every run every write queued for the disk is a whole piece, at its place, whose
      bytes match the stored hash; and what is still wanted is what was missing and not yet written. */
  lemma {:induction false} Integrity(ctx: Context, r0: Repo, events: seq<Event>, s: Swarm, result: ProtocolState)
    requires Fresh(r0) && Run(ctx, r0, events, s, result)
    ensures AllU32(s.repo) && Inv(ctx, r0, s.repo, s.writes)
    ensures result == COMPLETE ==> forall i <- r0.available :: exists w <- s.writes :: w.pieceIndex == i
  {
    if events == [] {
    } else {
      var e := events[|events| - 1];
      var s0, result0 :| Run(ctx, r0, events[..|events| - 1], s0, result0) && Steps(ctx, s0, e, s, result);
      Integrity(ctx, r0, events[..|events| - 1], s0, result0);
      if e.Receive? && e.peer in s0.conns {
        RespondInv(ctx, r0, s0.conns[e.peer], s0.repo, s0.writes, e.message, e.pick);
        if result == COMPLETE {
          NothingLeft(r0.available, s.repo.completed);
        }
      }
    }
  }

  /** The peers that connected and did not disconnect since. */
  function Open(events: seq<Event>): set<PeerId> {
    if events == [] then {}
    else
      var before, last := Open(events[..|events| - 1]), events[|events| - 1];
      match last
      case Connect(p) => before + {p}
      case Disconnect(p) => before - {p}
      case _ => before
  }

  /** What a connection remembers changes only at messages of its own peer; it begins anew when the peer comes
      back, and not when it only connects again. */
  lemma ConnectionsApart(ctx: Context, s: Swarm, e: Event, s': Swarm, result: ProtocolState, p: PeerId)
    requires Steps(ctx, s, e, s', result) && p in s'.conns
    ensures p in s.conns && s'.conns[p] != s.conns[p] ==> e.Receive? && e.peer == p
    ensures p !in s.conns ==> e == Connect(p) && s'.conns[p] == NEW_CONN
  {
    hide Respond, Handle;
  }

  /** In every run a message is forwarded exactly if its peer connected and did not disconnect since; any other is
      answered with CLOSED and changes nothing. */
  lemma {:induction false} OpenOverRuns(ctx: Context, r0: Repo, events: seq<Event>, s: Swarm, result: ProtocolState)
    requires Run(ctx, r0, events, s, result)
    ensures s.conns.Keys == Open(events)
  {
    hide Respond, Handle;
    if events == [] {
    } else {
      var front, last := events[..|events| - 1], events[|events| - 1];
      var s0, result0 :| Run(ctx, r0, front, s0, result0) && Steps(ctx, s0, last, s, result);
      OpenOverRuns(ctx, r0, front, s0, result0);
      assert s.conns.Keys == match last
                             case Connect(p) => s0.conns.Keys + {p}
                             case Disconnect(p) => s0.conns.Keys - {p}
                             case _ => s0.conns.Keys;
    }
  }

  lemma ClosedPeerIgnored(ctx: Context, r0: Repo, events: seq<Event>, s: Swarm, result: ProtocolState, p: PeerId,
                          m: Message, pick: Option<nat>, s': Swarm, result': ProtocolState)
    requires Run(ctx, r0, events, s, result) && p !in Open(events)
    requires Steps(ctx, s, Receive(p, m, pick), s', result')
    ensures s' == s && result' == CLOSED
  {
    OpenOverRuns(ctx, r0, events, s, result);
  }

  // ------------------------------------------------------------------ on disk

  /** The pieces lie inside the torrent and apart from each other. */
  predicate Placed(r0: Repo, total: nat) {
    && (forall i <- r0.pieces :: r0.pieces[i].offset + r0.pieces[i].size <= total)
    && (forall i, j :: i in r0.pieces && j in r0.pieces && i != j ==> Apart(r0.pieces[i], r0.pieces[j]))
  }

  predicate Apart(p: PieceValue, q: PieceValue) {
    p.offset + p.size <= q.offset || q.offset + q.size <= p.offset
  }

  function Range(flat: seq<byte>, p: PieceValue): seq<byte>
    requires p.offset + p.size <= |flat|
  {
    flat[p.offset..p.offset + p.size]
  }

  lemma SpliceRange(flat: seq<byte>, p: PieceValue, offset: nat, data: seq<byte>)
    requires p.offset + p.size <= |flat|
    ensures offset == p.offset && |data| == p.size ==> Range(Splice(flat, offset, data), p) == data
    ensures offset + |data| <= p.offset || p.offset + p.size <= offset ==>
              Range(Splice(flat, offset, data), p) == Range(flat, p)
  {
    var range := Range(Splice(flat, offset, data), p);
    if offset == p.offset && |data| == p.size {
      assert forall k :: 0 <= k < p.size ==> range[k] == data[k];
    }
    if offset + |data| <= p.offset || p.offset + p.size <= offset {
      assert forall k :: 0 <= k < p.size ==> range[k] == flat[p.offset + k];
    }
  }

  /** After any verified writes, the range of a piece holds what was last written for it, or what was
      there before. */
  lemma {:induction false} RangeAfter(ctx: Context, r0: Repo, flat: seq<byte>, writes: seq<WriteData>, i: nat)
    requires Placed(r0, |flat|) && i in r0.pieces && forall w <- writes :: Verified(ctx, r0, w)
    ensures var range := Range(DiskAfter(flat, writes), r0.pieces[i]);
            if i in WrittenPieces(writes) then exists w <- writes :: w.pieceIndex == i && w.data == range
            else range == Range(flat, r0.pieces[i])
  {
    if writes == [] {
    } else {
      var front, w := writes[..|writes| - 1], writes[|writes| - 1];
      assert writes == front + [w];
      RangeAfter(ctx, r0, flat, front, i);
      hide Splice, Range;
      SpliceRange(DiskAfter(flat, front), r0.pieces[i], w.offset, w.data);
      assert w in writes;
      if w.pieceIndex != i {
        assert Apart(r0.pieces[i], r0.pieces[w.pieceIndex]);
        assert forall v <- writes :: v == w || v in front;
        assert i in WrittenPieces(writes) <==> i in WrittenPieces(front);
      }
    }
  }

  function Processed(writes: seq<WriteData>, n: nat): seq<WriteData> {
    if n < |writes| then writes[..n] else writes
  }

  /** Once a piece is on disk its range hashes correctly, in every later state of every run: whatever
      part of the queue the disk thread has processed, every piece it has written checks out, and the
      other pieces are as they were. */
  lemma DiskIntegrity(ctx: Context, r0: Repo, events: seq<Event>, s: Swarm, result: ProtocolState,
                      flat: seq<byte>, n: nat, i: nat)
    requires Run(ctx, r0, events, s, result) && Fresh(r0)
    requires Placed(r0, |flat|) && i in r0.pieces
    ensures var writes := Processed(s.writes, n);
            var range := Range(DiskAfter(flat, writes), r0.pieces[i]);
            if i in WrittenPieces(writes) then i in r0.hashes && ctx.sha1(range) == r0.hashes[i]
            else range == Range(flat, r0.pieces[i])
  {
    Integrity(ctx, r0, events, s, result);
    hide Run, DiskAfter;
    RangeAfter(ctx, r0, flat, Processed(s.writes, n), i);
  }

  lemma PieceRow(rows: seq<PieceModel>, r0: Repo, k: nat) returns (i: nat)
    requires DistinctRows(rows) && r0 == Populated(EMPTY_REPO, rows) && k in r0.pieces
    ensures i < |rows| && rows[i].piece == k && r0.pieces[k] == PieceValue([], rows[i].size, Offset(rows, i))
  {
    PopulatedKeys(rows, |rows|);
    InNumbers(rows, |rows|, k);
    i :| 0 <= i < |rows| && rows[i].piece == k;
    PopulatedRow(rows, |rows|, i);
  }

  /** Where a download begins is what the rows say, and COMPLETE is returned only after every row that was not
      complete has a verified write. */
  lemma CompleteFromRows(ctx: Context, rows: seq<PieceModel>, events: seq<Event>, s: Swarm, result: ProtocolState)
    requires Run(ctx, Populated(EMPTY_REPO, rows), events, s, result)
    ensures var r0 := Populated(EMPTY_REPO, rows);
            && (forall w <- s.writes :: Verified(ctx, r0, w))
            && (result == COMPLETE ==>
                  forall i :: 0 <= i < |rows| && !rows[i].complete ==>
                    exists w <- s.writes :: w.pieceIndex == rows[i].piece)
  {
    var r0 := Populated(EMPTY_REPO, rows);
    forall k | k in r0.pieces ensures k < TWO_32 {
      PopulatedWants(EMPTY_REPO, rows, k);
    }
    Integrity(ctx, r0, events, s, result);
    hide Run, Verified;
    forall i | 0 <= i < |rows| && !rows[i].complete ensures rows[i].piece in r0.available {
      PopulatedWants(EMPTY_REPO, rows, rows[i].piece);
    }
  }

  /** What `populate` makes of the rows of a torrent, tiling it, is where every run starts. */
  lemma PopulatedReady(rows: seq<PieceModel>, total: nat)
    requires DistinctRows(rows) && Tiles(rows, total)
    ensures var r0 := Populated(EMPTY_REPO, rows);
            && Fresh(r0) && Placed(r0, total)
            && r0.available == Incomplete(rows) <= r0.pieces.Keys == r0.hashes.Keys
            && forall i <- r0.pieces :: r0.pieces[i].data == []
  {
    RowsTile(rows, total);
    PopulatedKeys(rows, |rows|);
    var r0 := Populated(EMPTY_REPO, rows);
    assert r0.available == Incomplete(rows);
    forall k ensures k in r0.pieces <==> exists i :: 0 <= i < |rows| && rows[i].piece == k {
      InNumbers(rows, |rows|, k);
    }
    forall k | k in r0.pieces ensures k < TWO_32 && r0.pieces[k].data == []
      && r0.pieces[k].offset + r0.pieces[k].size <= total {
      var i := PieceRow(rows, r0, k);
      RowsDisjoint(rows, i, |rows|);
    }
    forall k, l | k in r0.pieces && l in r0.pieces && k != l ensures Apart(r0.pieces[k], r0.pieces[l]) {
      var i := PieceRow(rows, r0, k);
      var j := PieceRow(rows, r0, l);
      if i < j { RowsDisjoint(rows, i, j); } else { RowsDisjoint(rows, j, i); }
    }
  }
}
