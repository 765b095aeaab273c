/** One peer connection of a torrent: `Protocol::onMessage` and `requestNextPiece`. */
module Protocol {
  import opened Bytes
  import Bitfields
  import opened Codec
  import opened Common
  import opened Disk
  import opened Pieces
  import opened Tiling

  datatype ProtocolState = OPEN | CLOSED | ERROR | HASH_CHECK_FAIL | COMPLETE

  /** What a connection remembers about its peer. */
  datatype Conn = Conn(peerChoking: bool, amInterested: bool, peerInterested: bool, available: set<nat>)

  const NEW_CONN := Conn(true, false, false, {})

  /** The torrent, and SHA-1 as a function about which nothing is known. */
  datatype Context = Context(infoHash: InfoHash, sha1: seq<byte> -> Hash)

  const BLOCK_SIZE := 0x4000

  /** The effect of a message before the next piece is requested: the new values, what is sent to the
      peer and to the disk, and the state to return, or `None` when `requestNextPiece` decides it. */
  datatype Handled = Handled(conn: Conn, repo: Repo, sent: seq<Message>, writes: seq<WriteData>,
                             verdict: Option<ProtocolState>)

  datatype Outcome = Outcome(conn: Conn, repo: Repo, sent: seq<Message>, writes: seq<WriteData>,
                             result: ProtocolState)

  /** The piece numbers a Bitfield sets, counted in 32 bits. */
  function Announced(bitfield: seq<byte>): set<nat> {
    Wrapped(Bitfields.SetPositions(Bitfields.Unpack(bitfield)))
  }

  function Wrapped(positions: set<nat>): set<nat> {
    set p | p in positions :: p % TWO_32
  }

  lemma NothingWraps(positions: set<nat>)
    requires forall p <- positions :: p < TWO_32
    ensures Wrapped(positions) == positions
  {
    forall p | p in positions ensures p in Wrapped(positions) {
      assert p % TWO_32 == p;
    }
  }

  /** The same, for the first `k` bits. */
  function AnnouncedBy(bits: seq<bool>, k: nat): set<nat>
    requires k <= |bits|
  {
    Wrapped(Bitfields.SetPositions(bits[..k]))
  }

  lemma AnnouncedNext(bits: seq<bool>, k: nat)
    requires k < |bits|
    ensures AnnouncedBy(bits, k + 1) == AnnouncedBy(bits, k) + if bits[k] then {k % TWO_32} else {}
    ensures (k % TWO_32 + 1) % TWO_32 == (k + 1) % TWO_32
  {
    assert bits[..k + 1] == bits[..k] + [bits[k]];
    assert Bitfields.SetPositions(bits[..k + 1])
        == Bitfields.SetPositions(bits[..k]) + if bits[k] then {k} else {};
  }

  function Interest(conn: Conn, available: set<nat>): (Conn, seq<Message>) {
    (conn.(available := available, amInterested := true), if conn.amInterested then [] else [Interested])
  }

  function HandlePiece(ctx: Context, conn: Conn, repo: Repo, i: nat, begin: nat, block: seq<byte>): Handled {
    if i !in repo.pieces then
      Handled(conn, repo, [], [], Some(if i in repo.completed then OPEN else ERROR))
    else if begin != repo.pieces[i].NextBegin() then
      Handled(conn, repo, [], [], None)
    else
      var data := repo.pieces[i].data + block;
      var repo' := repo.WithData(i, data);
      if !repo'.pieces[i].IsComplete() then Handled(conn, repo', [], [], None)
      else if repo.HashCheck(ctx.sha1, i, data) then
        Handled(conn.(available := conn.available - {i}), repo'.Completed(i), [],
                [WriteData(ctx.infoHash, i, data, repo.pieces[i].offset)], None)
      else Handled(conn, repo.WithData(i, []), [], [], Some(HASH_CHECK_FAIL))
  }

  function Handle(ctx: Context, conn: Conn, repo: Repo, m: Message): Handled {
    match m
    case HandShake(_, _, _, _) => Handled(conn, repo, [], [], Some(OPEN))
    case KeepAlive => Handled(conn, repo, [KeepAlive], [], Some(OPEN))
    case Choke => Handled(conn.(peerChoking := true), repo, [], [], Some(OPEN))
    case UnChoke =>
      Handled(conn.(peerChoking := false), repo, [], [], if conn.peerChoking then None else Some(OPEN))
    case Interested => Handled(conn.(peerInterested := true), repo, [], [], Some(OPEN))
    case NotInterested => Handled(conn.(peerInterested := false), repo, [], [], Some(OPEN))
    case Have(i) =>
      if i in repo.completed then Handled(conn, repo, [], [], Some(OPEN))
      else
        var (conn', sent) := Interest(conn, conn.available + {i});
        Handled(conn', repo, sent, [], Some(OPEN))
    case Bitfield(bits) =>
      var (conn', sent) := Interest(conn, conn.available + Announced(bits));
      Handled(conn', repo, sent, [], Some(OPEN))
    case Request(_, _, _) => Handled(conn, repo, [], [], Some(OPEN))
    case Piece(i, begin, block) => HandlePiece(ctx, conn, repo, i, begin, block)
    case Cancel(_, _, _) => Handled(conn, repo, [], [], Some(CLOSED))
    case Port(_) => Handled(conn, repo, [], [], Some(OPEN))
  }

  /** The block that is asked for next of a piece: at most 2^14 bytes of what is missing, in 32 bits. */
  function NextRequest(i: u32, p: PieceValue): Message {
    var remaining := p.Remaining() % TWO_32;
    Request(i, p.NextBegin(), if BLOCK_SIZE <= remaining then BLOCK_SIZE else remaining)
  }

  /** `requestNextPiece`, for the piece that `nextAvailablePiece` happened to return. */
  function RequestNext(conn: Conn, repo: Repo, pick: Option<nat>): (seq<Message>, ProtocolState)
    requires repo.ValidPick(conn.available, pick) && AllU32(repo)
  {
    if pick.Some? && repo.active then
      (if conn.peerChoking then [] else [NextRequest(pick.value, repo.pieces[pick.value])], OPEN)
    else if repo.available != {} || !repo.active then ([], CLOSED)
    else ([], COMPLETE)
  }

  /** Piece numbers are 32-bit numbers. */
  predicate AllU32(repo: Repo) {
    forall i <- repo.pieces :: i < TWO_32
  }

  predicate PickFits(h: Handled, pick: Option<nat>) {
    h.verdict.None? ==> h.repo.ValidPick(h.conn.available, pick)
  }

  /** `onMessage`, for all twelve kinds. */
  function Respond(ctx: Context, conn: Conn, repo: Repo, m: Message, pick: Option<nat>): Outcome
    requires AllU32(repo) && PickFits(Handle(ctx, conn, repo, m), pick)
  {
    var h := Handle(ctx, conn, repo, m);
    if h.verdict.Some? then Outcome(h.conn, h.repo, h.sent, h.writes, h.verdict.value)
    else
      var (request, result) := RequestNext(h.conn, h.repo, pick);
      Outcome(h.conn, h.repo, h.sent + request, h.writes, result)
  }

  /** Below 2^32 bits, a Bitfield announces exactly the positions that were set when it was printed. */
  lemma BitfieldAnnounces(bits: seq<bool>)
    requires |bits| <= TWO_32
    ensures Announced(Bitfields.Pack(bits)) == Bitfields.SetPositions(bits)
  {
    hide Bitfields.Pack, Bitfields.Unpack;
    Bitfields.AnnouncedPieces(bits);
    NothingWraps(Bitfields.SetPositions(bits));
  }

  /** Receiving a Bitfield adds exactly the pieces it was printed from, and makes the client say once that
      it is interested. */
  lemma BitfieldReceived(ctx: Context, conn: Conn, repo: Repo, bits: seq<bool>)
    requires |bits| <= TWO_32 && AllU32(repo)
    ensures var o := Respond(ctx, conn, repo, Bitfield(Bitfields.Pack(bits)), None);
            && o.conn == conn.(available := conn.available + Bitfields.SetPositions(bits), amInterested := true)
            && o.repo == repo && o.writes == [] && o.result == OPEN
            && o.sent == if conn.amInterested then [] else [Interested]
  {
    BitfieldAnnounces(bits);
    hide Announced, HandlePiece, RequestNext, Bitfields.Pack, Bitfields.SetPositions;
    BitfieldHandled(ctx, conn, repo, Bitfields.Pack(bits));
    hide Handle;
  }

  lemma BitfieldHandled(ctx: Context, conn: Conn, repo: Repo, payload: seq<byte>)
    ensures Handle(ctx, conn, repo, Bitfield(payload))
         == Handled(conn.(available := conn.available + Announced(payload), amInterested := true), repo,
                    if conn.amInterested then [] else [Interested], [], Some(OPEN))
  {
    hide Announced;
  }

  lemma ClearedTwice(repo: Repo, i: nat)
    requires i in repo.pieces
    ensures repo.WithData(i, []).Completed(i) == repo.Completed(i)
  {
  }

  // ------------------------------------------------------------------ the objects

  class Outbox {
    var items: seq<(PeerId, Message)>
  }

  class DiskQueue {
    var items: seq<WriteData>
  }

  function Addressed(peer: PeerId, ms: seq<Message>): seq<(PeerId, Message)> {
    if ms == [] then [] else [(peer, ms[0])] + Addressed(peer, ms[1..])
  }

  class Protocol {
    var mAmInterested: bool
    var mPeerChoking: bool
    var mPeerInterested: bool
    var availablePieces: set<nat>
    const peer: PeerId
    const infoHash: InfoHash
    const peerService: Outbox
    const diskQueue: DiskQueue
    const pieceRepository: PieceStateManager

    constructor (peer: PeerId, infoHash: InfoHash, peerService: Outbox, diskQueue: DiskQueue,
                 pieceRepository: PieceStateManager)
      ensures View() == NEW_CONN
      ensures this.peer == peer && this.infoHash == infoHash && this.peerService == peerService
      ensures this.diskQueue == diskQueue && this.pieceRepository == pieceRepository
    {
      mAmInterested, mPeerChoking, mPeerInterested, availablePieces := false, true, false, {};
      this.peer, this.infoHash, this.peerService := peer, infoHash, peerService;
      this.diskQueue, this.pieceRepository := diskQueue, pieceRepository;
    }

    function View(): Conn
      reads this
    {
      Conn(mPeerChoking, mAmInterested, mPeerInterested, availablePieces)
    }

    function Ctx(): Context {
      Context(infoHash, pieceRepository.sha1)
    }

    ghost predicate Valid()
      reads this, pieceRepository
    {
      pieceRepository.Valid() && forall i <- pieceRepository.mAllPieces :: i < TWO_32
    }

    method Write(m: Message)
      modifies peerService
      ensures peerService.items == old(peerService.items) + Addressed(peer, [m])
    {
      peerService.items := peerService.items + [(peer, m)];
    }

    method SendInterested()
      modifies this`mAmInterested, peerService
      ensures mAmInterested
      ensures peerService.items
           == old(peerService.items) + Addressed(peer, if old(mAmInterested) then [] else [Interested])
    {
      if !mAmInterested {
        Write(Interested);
        mAmInterested := true;
      }
    }

    method RequestNextPiece() returns (result: ProtocolState, ghost pick: Option<nat>)
      requires Valid()
      modifies peerService
      ensures pieceRepository.View().ValidPick(availablePieces, pick)
      ensures var (request, state) := RequestNext(View(), pieceRepository.View(), pick);
              result == state && peerService.items == old(peerService.items) + Addressed(peer, request)
    {
      var nextPiece := pieceRepository.NextAvailablePiece(availablePieces);
      pick := nextPiece;
      if nextPiece.Some? && pieceRepository.active {
        var ps := pieceRepository.mAllPieces[nextPiece.value].View();
        var remainingOfPiece := ps.Remaining() % TWO_32;
        var requestSize := if BLOCK_SIZE <= remainingOfPiece then BLOCK_SIZE else remainingOfPiece;
        if !mPeerChoking {
          Write(Request(nextPiece.value, ps.NextBegin(), requestSize));
        }
        return OPEN, pick;
      }
      if pieceRepository.mAvailable != {} || !pieceRepository.active {
        return CLOSED, pick;
      } else {
        return COMPLETE, pick;
      }
    }

    method OnUnChoke() returns (result: ProtocolState, ghost pick: Option<nat>)
      requires Valid()
      modifies this`mPeerChoking, peerService
      ensures PickFits(Handle(Ctx(), old(View()), pieceRepository.View(), UnChoke), pick)
      ensures var o := Respond(Ctx(), old(View()), pieceRepository.View(), UnChoke, pick);
              View() == o.conn && result == o.result
              && peerService.items == old(peerService.items) + Addressed(peer, o.sent)
    {
      if mPeerChoking {
        mPeerChoking := false;
        result, pick := RequestNextPiece();
      } else {
        result, pick := OPEN, None;
      }
    }

    /** The loop over the bits counts the pieces in a `uint32_t`. */
    method OnBitfield(bitfield: seq<byte>) returns (result: ProtocolState)
      modifies this`availablePieces, this`mAmInterested, peerService
      ensures availablePieces == old(availablePieces) + Announced(bitfield) && mAmInterested && result == OPEN
      ensures peerService.items
           == old(peerService.items) + Addressed(peer, if old(mAmInterested) then [] else [Interested])
    {
      var vb := Bitfields.BytesToBitfield(|bitfield|, bitfield);
      assert bitfield[..|bitfield|] == bitfield;
      var k, pieceIndex: u32 := 0, 0;
      assert AnnouncedBy(vb, 0) == {} && vb[..|vb|] == vb && AnnouncedBy(vb, |vb|) == Announced(bitfield);
      hide AnnouncedBy, Announced;
      while k < |vb|
        invariant 0 <= k <= |vb| && pieceIndex == k % TWO_32
        invariant unchanged(peerService) && mAmInterested == old(mAmInterested)
        invariant availablePieces == old(availablePieces) + AnnouncedBy(vb, k)
      {
        AnnouncedNext(vb, k);
        if vb[k] {
          availablePieces := availablePieces + {pieceIndex};
        }
        pieceIndex := (pieceIndex + 1) % TWO_32;
        k := k + 1;
      }
      SendInterested();
      return OPEN;
    }

    /** `onMessage(Piece)`. */
    method OnPiece(i: u32, begin: u32, block: seq<byte>) returns (result: ProtocolState, ghost pick: Option<nat>)
      requires Valid()
      modifies this`availablePieces, peerService, diskQueue
      modifies pieceRepository`mAvailable, pieceRepository`mCompletedPieces, pieceRepository.mAllPieces.Values
      ensures Valid()
      ensures PickFits(Handle(Ctx(), old(View()), old(pieceRepository.View()), Message.Piece(i, begin, block)), pick)
      ensures var o := Respond(Ctx(), old(View()), old(pieceRepository.View()), Message.Piece(i, begin, block), pick);
              && View() == o.conn && pieceRepository.View() == o.repo && result == o.result
              && peerService.items == old(peerService.items) + Addressed(peer, o.sent)
              && diskQueue.items == old(diskQueue.items) + o.writes
    {
      hide HandlePiece;
      pick := None;
      assert Handle(Ctx(), View(), pieceRepository.View(), Message.Piece(i, begin, block))
          == HandlePiece(Ctx(), View(), pieceRepository.View(), i, begin, block);
      var verdict := AcceptBlock(i, begin, block);
      if verdict.Some? {
        return verdict.value, pick;
      }
      result, pick := RequestNextPiece();
    }

    /** Everything up to the request for the next piece. */
    method AcceptBlock(i: u32, begin: u32, block: seq<byte>) returns (verdict: Option<ProtocolState>)
      requires Valid()
      modifies this`availablePieces, diskQueue
      modifies pieceRepository`mAvailable, pieceRepository`mCompletedPieces, pieceRepository.mAllPieces.Values
      ensures Valid()
      ensures var h := HandlePiece(Ctx(), old(View()), old(pieceRepository.View()), i, begin, block);
              && View() == h.conn && pieceRepository.View() == h.repo && verdict == h.verdict
              && diskQueue.items == old(diskQueue.items) + h.writes && h.sent == []
    {
      if i !in pieceRepository.mAllPieces {
        return Some(if i in pieceRepository.mCompletedPieces then OPEN else ERROR);
      }
      var ps := pieceRepository.mAllPieces[i];
      verdict := None;
      if begin == ps.View().NextBegin() {
        ps.AddBlock(block);
        pieceRepository.OthersUntouched(i);
        if ps.View().IsComplete() {
          verdict := FinishPiece(i);
        }
      }
    }

    /** The piece has all its bytes: check them, and write them to disk or start over. */
    method FinishPiece(i: u32) returns (verdict: Option<ProtocolState>)
      requires Valid() && i in pieceRepository.mAllPieces
      modifies this`availablePieces, diskQueue
      modifies pieceRepository`mAvailable, pieceRepository`mCompletedPieces, pieceRepository.mAllPieces.Values
      ensures Valid()
      ensures var repo := old(pieceRepository.View());
              var data := repo.pieces[i].data;
              if repo.HashCheck(Ctx().sha1, i, data) then
                && verdict == None && pieceRepository.View() == repo.Completed(i)
                && View() == old(View()).(available := old(availablePieces) - {i})
                && diskQueue.items == old(diskQueue.items) + [WriteData(infoHash, i, data, repo.pieces[i].offset)]
              else
                && verdict == Some(HASH_CHECK_FAIL) && pieceRepository.View() == repo.WithData(i, [])
                && View() == old(View()) && diskQueue.items == old(diskQueue.items)
    {
      var ps := pieceRepository.mAllPieces[i];
      var ok := pieceRepository.HashCheck(ps.mPieceIndex, ps.mPieceData);
      if ok {
        var data := ps.ExtractData();
        diskQueue.items := diskQueue.items + [WriteData(infoHash, i, data, ps.offset)];
        pieceRepository.OthersUntouched(i);
        assert pieceRepository.View() == old(pieceRepository.View()).WithData(i, []);
        ClearedTwice(old(pieceRepository.View()), i);
        pieceRepository.MakeCompleted(i);
        availablePieces := availablePieces - {i};
        verdict := None;
      } else {
        ps.Clear();
        pieceRepository.OthersUntouched(i);
        verdict := Some(HASH_CHECK_FAIL);
      }
    }

    /** The overloads of `onMessage`. */
    method OnMessage(m: Message) returns (result: ProtocolState, ghost pick: Option<nat>)
      requires Valid()
      modifies this, peerService, diskQueue
      modifies pieceRepository`mAvailable, pieceRepository`mCompletedPieces, pieceRepository.mAllPieces.Values
      ensures Valid()
      ensures PickFits(Handle(Ctx(), old(View()), old(pieceRepository.View()), m), pick)
      ensures var o := Respond(Ctx(), old(View()), old(pieceRepository.View()), m, pick);
              && View() == o.conn && pieceRepository.View() == o.repo && result == o.result
              && peerService.items == old(peerService.items) + Addressed(peer, o.sent)
              && diskQueue.items == old(diskQueue.items) + o.writes
    {
      hide HandlePiece, Announced;
      result, pick := OPEN, None;
      match m
      case HandShake(_, _, _, _) =>
      case KeepAlive => Write(KeepAlive);
      case Choke => mPeerChoking := true;
      case UnChoke => result, pick := OnUnChoke();
      case Interested => mPeerInterested := true;
      case NotInterested => mPeerInterested := false;
      case Have(i) =>
        if i !in pieceRepository.mCompletedPieces {
          availablePieces := availablePieces + {i};
          SendInterested();
        }
      case Bitfield(bits) => result := OnBitfield(bits);
      case Request(_, _, _) =>
      case Piece(i, begin, block) => result, pick := OnPiece(i, begin, block);
      case Cancel(_, _, _) => result := CLOSED;
      case Port(_) =>
    }
  }
}
