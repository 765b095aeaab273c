/** The pieces of one torrent in memory: `PieceState` and `PieceStateManager`. */
module Pieces {
  import opened Bytes
  import opened Common
  import opened Tiling

  /** The value of a `PieceState`. */
  datatype PieceValue = PieceValue(data: seq<byte>, size: nat, offset: nat) {
    /** A 32-bit number, whatever the buffer holds. */
    function NextBegin(): u32 {
      |data| % TWO_32
    }

    /** Negative when too much was received; the source computes it modulo 2^64. */
    function Remaining(): int {
      size - |data|
    }

    predicate IsComplete() {
      Remaining() == 0
    }
  }

  /** The value of a `PieceStateManager`. */
  datatype Repo = Repo(pieces: map<nat, PieceValue>, available: set<nat>, completed: set<nat>,
                       hashes: map<nat, Hash>, active: bool)
  {
    predicate HashCheck(sha1: seq<byte> -> Hash, i: nat, data: seq<byte>) {
      i in hashes && sha1(data) == hashes[i]
    }

    function WithData(i: nat, data: seq<byte>): Repo
      requires i in pieces
    {
      this.(pieces := pieces[i := pieces[i].(data := data)])
    }

    function Completed(i: nat): Repo {
      if i in pieces then WithData(i, []).(available := available - {i}, completed := completed + {i}) else this
    }

    /** What `nextAvailablePiece` can return for a peer. */
    function Candidates(peerPieces: set<nat>): set<nat> {
      set i | i in peerPieces && i in available && i in pieces
    }

    /** Iterating over an unordered set meets its elements in any order. */
    predicate ValidPick(peerPieces: set<nat>, pick: Option<nat>) {
      match pick
      case Some(i) => i in Candidates(peerPieces)
      case None => Candidates(peerPieces) == {}
    }
  }

  const EMPTY_REPO := Repo(map[], {}, {}, map[], false)

  /** `emplace` keeps what is there. */
  function Emplace<T>(m: map<nat, T>, k: nat, v: T): map<nat, T> {
    if k in m then m else m[k := v]
  }

  function WithHashes(hashes: map<nat, Hash>, rows: seq<PieceModel>, n: nat): map<nat, Hash>
    requires n <= |rows|
  {
    if n == 0 then hashes else Emplace(WithHashes(hashes, rows, n - 1), rows[n - 1].piece, rows[n - 1].hash)
  }

  function WithPieces(pieces: map<nat, PieceValue>, rows: seq<PieceModel>, n: nat): map<nat, PieceValue>
    requires n <= |rows|
  {
    if n == 0 then pieces
    else
      var row := rows[n - 1];
      Emplace(WithPieces(pieces, rows, n - 1), row.piece, PieceValue([], row.size, Offset(rows, n - 1)))
  }

  function Incomplete(rows: seq<PieceModel>): set<nat> {
    set i | 0 <= i < |rows| && !rows[i].complete :: rows[i].piece
  }

  function Populated(repo: Repo, rows: seq<PieceModel>): Repo {
    repo.(pieces := WithPieces(repo.pieces, rows, |rows|), hashes := WithHashes(repo.hashes, rows, |rows|),
          available := repo.available + Incomplete(rows))
  }

  predicate DistinctRows(rows: seq<PieceModel>) {
    forall i, j :: 0 <= i < j < |rows| ==> rows[i].piece != rows[j].piece
  }

  function Numbers(rows: seq<PieceModel>, n: nat): set<nat>
    requires n <= |rows|
  {
    if n == 0 then {} else Numbers(rows, n - 1) + {rows[n - 1].piece}
  }

  lemma {:induction false} InNumbers(rows: seq<PieceModel>, n: nat, k: nat)
    requires n <= |rows|
    ensures k in Numbers(rows, n) <==> exists i :: 0 <= i < n && rows[i].piece == k
  {
    if n == 0 {
    } else {
      InNumbers(rows, n - 1, k);
    }
  }

  lemma {:induction false} PopulatedKeys(rows: seq<PieceModel>, n: nat)
    requires n <= |rows|
    ensures WithPieces(map[], rows, n).Keys == WithHashes(map[], rows, n).Keys == Numbers(rows, n)
  {
    if n == 0 {
    } else {
      PopulatedKeys(rows, n - 1);
    }
  }

  /** No row before it has the same piece number. */
  predicate IsFirst(rows: seq<PieceModel>, i: nat)
    requires i < |rows|
  {
    forall j :: 0 <= j < i ==> rows[j].piece != rows[i].piece
  }

  /** Populating a new manager: the first row of each piece number becomes a piece with an empty buffer, its
      size, its running offset and its hash. */
  lemma {:induction false} PopulatedRow(rows: seq<PieceModel>, n: nat, i: nat)
    requires i < n <= |rows| && IsFirst(rows, i)
    ensures var k := rows[i].piece;
            var ps, hs := WithPieces(map[], rows, n), WithHashes(map[], rows, n);
            k in ps && ps[k] == PieceValue([], rows[i].size, Offset(rows, i)) && k in hs && hs[k] == rows[i].hash
  {
    hide Offset;
    if i == n - 1 {
      PopulatedKeys(rows, n - 1);
      InNumbers(rows, n - 1, rows[i].piece);
    } else {
      PopulatedRow(rows, n - 1, i);
    }
  }

  lemma {:induction false} PopulatedBefore(pieces: map<nat, PieceValue>, hashes: map<nat, Hash>,
                                           rows: seq<PieceModel>, n: nat, k: nat)
    requires n <= |rows|
    ensures var ps, hs := WithPieces(pieces, rows, n), WithHashes(hashes, rows, n);
            && (k in ps <==> k in pieces || k in Numbers(rows, n))
            && (k in hs <==> k in hashes || k in Numbers(rows, n))
            && (k in pieces ==> ps[k] == pieces[k]) && (k in hashes ==> hs[k] == hashes[k])
  {
    if n == 0 {
    } else {
      PopulatedBefore(pieces, hashes, rows, n - 1, k);
    }
  }

  /** Populating any manager: a piece is wanted afterwards exactly if it was wanted or some row lists it as not
      complete; pieces and hashes that were known stay as they were, and the others are those of the rows. */
  lemma PopulatedWants(repo: Repo, rows: seq<PieceModel>, k: nat)
    ensures var r := Populated(repo, rows);
            && (k in r.available <==>
                  k in repo.available || exists i :: 0 <= i < |rows| && rows[i].piece == k && !rows[i].complete)
            && (k in r.pieces <==> k in repo.pieces || exists i :: 0 <= i < |rows| && rows[i].piece == k)
            && (k in r.hashes <==> k in repo.hashes || exists i :: 0 <= i < |rows| && rows[i].piece == k)
            && (k in repo.pieces ==> r.pieces[k] == repo.pieces[k])
            && (k in repo.hashes ==> r.hashes[k] == repo.hashes[k])
            && r.completed == repo.completed && r.active == repo.active
  {
    PopulatedBefore(repo.pieces, repo.hashes, rows, |rows|, k);
    InNumbers(rows, |rows|, k);
  }

  class PieceState {
    var mPieceData: seq<byte>
    const mPieceIndex: nat
    const mMaxSize: nat
    const offset: nat

    constructor (pieceIndex: nat, maxSize: nat, offset: nat)
      ensures mPieceIndex == pieceIndex && View() == PieceValue([], maxSize, offset)
    {
      mPieceIndex, mMaxSize, this.offset, mPieceData := pieceIndex, maxSize, offset, [];
    }

    function View(): PieceValue
      reads this
    {
      PieceValue(mPieceData, mMaxSize, offset)
    }

    method Clear()
      modifies this
      ensures View() == old(View()).(data := [])
    {
      mPieceData := [];
    }

    method AddBlock(block: seq<byte>)
      modifies this
      ensures View() == old(View()).(data := old(mPieceData) + block)
    {
      mPieceData := mPieceData + block;
    }

    /** The buffer is moved out. */
    method ExtractData() returns (data: seq<byte>)
      modifies this
      ensures data == old(mPieceData) && View() == old(View()).(data := [])
    {
      data := mPieceData;
      mPieceData := [];
    }
  }

  class PieceStateManager {
    var active: bool
    var mAllPieces: map<nat, PieceState>
    var mAvailable: set<nat>
    var mCompletedPieces: set<nat>
    var mHashes: map<nat, Hash>
    const sha1: seq<byte> -> Hash

    constructor (sha1: seq<byte> -> Hash)
      ensures Valid() && View() == EMPTY_REPO && this.sha1 == sha1
    {
      active, mAllPieces, mAvailable, mCompletedPieces, mHashes := false, map[], {}, {}, map[];
      this.sha1 := sha1;
    }

    ghost predicate Valid()
      reads this
    {
      && (forall i <- mAllPieces :: mAllPieces[i].mPieceIndex == i)
    }

    ghost function PieceViews(): map<nat, PieceValue>
      reads this, mAllPieces.Values
    {
      map i | i in mAllPieces :: mAllPieces[i].View()
    }

    ghost function View(): Repo
      reads this, mAllPieces.Values
    {
      Repo(PieceViews(), mAvailable, mCompletedPieces, mHashes, active)
    }

    method Populate(pieceModels: seq<PieceModel>)
      requires Valid()
      modifies this`mAllPieces, this`mAvailable, this`mHashes
      ensures Valid() && View() == Populated(old(View()), pieceModels)
    {
      hide WithHashes, WithPieces, Incomplete, Offset;
      AddHashes(pieceModels);
      AddPieces(pieceModels);
    }

    /** The first loop of `populate`. */
    method AddHashes(pieceModels: seq<PieceModel>)
      requires Valid()
      modifies this`mAvailable, this`mHashes
      ensures Valid() && PieceViews() == old(PieceViews())
      ensures mAvailable == old(mAvailable) + Incomplete(pieceModels)
      ensures mHashes == WithHashes(old(mHashes), pieceModels, |pieceModels|)
    {
      var i := 0;
      while i < |pieceModels|
        invariant 0 <= i <= |pieceModels|
        invariant mAvailable == old(mAvailable) + Incomplete(pieceModels[..i])
        invariant mHashes == WithHashes(old(mHashes), pieceModels, i)
      {
        var pm := pieceModels[i];
        assert pieceModels[..i + 1] == pieceModels[..i] + [pm];
        if !pm.complete {
          mAvailable := mAvailable + {pm.piece};
        }
        mHashes := Emplace(mHashes, pm.piece, pm.hash);
        i := i + 1;
      }
      assert pieceModels[..i] == pieceModels;
    }

    /** The second loop, with the running offset. */
    method AddPieces(pieceModels: seq<PieceModel>)
      requires Valid()
      modifies this`mAllPieces
      ensures Valid() && PieceViews() == WithPieces(old(PieceViews()), pieceModels, |pieceModels|)
    {
      var offset := 0;
      var i := 0;
      while i < |pieceModels|
        invariant 0 <= i <= |pieceModels| && offset == Offset(pieceModels, i)
        invariant Valid() && PieceViews() == WithPieces(old(PieceViews()), pieceModels, i)
      {
        var pm := pieceModels[i];
        if pm.piece !in mAllPieces {
          var ps := new PieceState(pm.piece, pm.size, offset);
          mAllPieces := mAllPieces[pm.piece := ps];
        }
        offset := offset + pm.size;
        i := i + 1;
      }
    }

    method NextAvailablePiece(peerPieces: set<nat>) returns (pick: Option<nat>)
      ensures View().ValidPick(peerPieces, pick)
    {
      var rest := peerPieces;
      while rest != {}
        invariant rest <= peerPieces
        invariant View().Candidates(peerPieces) <= rest
        decreases rest
      {
        var piece :| piece in rest;
        rest := rest - {piece};
        if piece in mAvailable {
          if piece in mAllPieces {
            return Some(piece);
          }
        }
      }
      return None;
    }

    method MakeCompleted(pieceIndex: nat)
      requires Valid()
      modifies this`mAvailable, this`mCompletedPieces, mAllPieces.Values
      ensures View() == old(View()).Completed(pieceIndex)
    {
      if pieceIndex in mAllPieces {
        mAvailable := mAvailable - {pieceIndex};
        mCompletedPieces := mCompletedPieces + {pieceIndex};
        mAllPieces[pieceIndex].Clear();
        OthersUntouched(pieceIndex);
      }
    }

    /** Different pieces are different objects: writing to one leaves the views of the others. */
    twostate lemma OthersUntouched(i: nat)
      requires Valid() && i in mAllPieces && mAllPieces == old(mAllPieces)
      requires forall ps <- mAllPieces.Values :: ps != mAllPieces[i] ==> unchanged(ps)
      ensures PieceViews() == old(PieceViews())[i := mAllPieces[i].View()]
    {
      forall k | k in mAllPieces && k != i ensures mAllPieces[k].View() == old(mAllPieces[k].View()) {
        assert mAllPieces[k].mPieceIndex != mAllPieces[i].mPieceIndex;
        assert mAllPieces[k] in mAllPieces.Values;
      }
    }

    method HashCheck(pieceIndex: nat, pieceData: seq<byte>) returns (ok: bool)
      ensures ok == View().HashCheck(sha1, pieceIndex, pieceData)
    {
      ok := pieceIndex in mHashes && sha1(pieceData) == mHashes[pieceIndex];
    }
  }
}
