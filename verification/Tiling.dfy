/** The pieces of a torrent: the rows that `PersistClient::addTorrent` writes and the ranges they cover. */
module Tiling {
  import opened Bytes

  const TWO_64 := 0x1_0000_0000_0000_0000

  type Hash = seq<byte>

  datatype PieceModel = PieceModel(piece: u32, size: nat, hash: Hash, complete: bool)

  /** The running offset of `populate`: the sizes of the rows before row `i`. */
  function Offset(rows: seq<PieceModel>, i: nat): nat
    requires i <= |rows|
  {
    if i == 0 then 0 else Offset(rows, i - 1) + rows[i - 1].size
  }

  /** Row `i` holds position `b`. */
  predicate Holds(rows: seq<PieceModel>, i: nat, b: nat)
    requires i < |rows|
  {
    Offset(rows, i) <= b < Offset(rows, i) + rows[i].size
  }

  /** A row ends where the next begins, or before a later one. */
  lemma {:induction false} RowsDisjoint(rows: seq<PieceModel>, i: nat, j: nat)
    requires i < j <= |rows|
    ensures Offset(rows, i) + rows[i].size <= Offset(rows, j)
  {
    if i == j - 1 {
    } else {
      RowsDisjoint(rows, i, j - 1);
    }
  }

  lemma {:induction false} RowOf(rows: seq<PieceModel>, n: nat, b: nat) returns (i: nat)
    requires n <= |rows| && b < Offset(rows, n)
    ensures i < n && Holds(rows, i, b)
  {
    if b >= Offset(rows, n - 1) {
      i := n - 1;
    } else {
      i := RowOf(rows, n - 1, b);
    }
  }

  ghost predicate Covered(rows: seq<PieceModel>, b: nat) {
    exists i: nat :: i < |rows| && Holds(rows, i, b)
  }

  /** The rows cover exactly the positions below `total`, each once. */
  ghost predicate Tiles(rows: seq<PieceModel>, total: nat) {
    && (forall b: nat :: Covered(rows, b) <==> b < total)
    && (forall i: nat, j: nat, b: nat :: i < j < |rows| && Holds(rows, i, b) ==> !Holds(rows, j, b))
  }

  /** Any rows cover what is below the sum of their sizes, and nothing else. */
  lemma CoveredBelow(rows: seq<PieceModel>, b: nat)
    ensures Covered(rows, b) <==> b < Offset(rows, |rows|)
  {
    if Covered(rows, b) {
      var i: nat :| i < |rows| && Holds(rows, i, b);
      RowsDisjoint(rows, i, |rows|);
    } else if b < Offset(rows, |rows|) {
      var i := RowOf(rows, |rows|, b);
    }
  }

  lemma RowsTile(rows: seq<PieceModel>, total: nat)
    ensures Tiles(rows, total) <==> Offset(rows, |rows|) == total
  {
    var sum := Offset(rows, |rows|);
    CoveredBelow(rows, sum);
    CoveredBelow(rows, total);
    if sum == total {
      forall b: nat ensures Covered(rows, b) <==> b < total {
        CoveredBelow(rows, b);
      }
      forall i: nat, j: nat, b: nat | i < j < |rows| && Holds(rows, i, b) ensures !Holds(rows, j, b) {
        RowsDisjoint(rows, i, j);
      }
    }
  }

  /** The rows of `addTorrent`: all pieces but the last have `pieceLength` bytes; the last has what
      remains, computed in unsigned 64-bit arithmetic. */
  function Row(hashes: seq<byte>, i: nat, size: nat): PieceModel
    requires i < TWO_32 && 20 * (i + 1) <= |hashes|
  {
    PieceModel(i, size, hashes[20 * i..20 * i + 20], false)
  }

  function LastSize(n: nat, pieceLength: nat, total: nat): nat {
    (total - pieceLength * (n - 1)) % TWO_64
  }

  predicate RowsOf(rows: seq<PieceModel>, hashes: seq<byte>, n: nat, pieceLength: nat, total: nat)
    requires 0 < n < TWO_32 && 20 * n <= |hashes|
  {
    && |rows| == n
    && (forall i :: 0 <= i < n - 1 ==> rows[i] == Row(hashes, i, pieceLength))
    && rows[n - 1] == Row(hashes, n - 1, LastSize(n, pieceLength, total))
  }

  lemma {:induction false} EqualRows(rows: seq<PieceModel>, size: nat, i: nat)
    requires i <= |rows| && forall j :: 0 <= j < i ==> rows[j].size == size
    ensures Offset(rows, i) == size * i
  {
    if i == 0 {
    } else {
      EqualRows(rows, size, i - 1);
      assert size * (i - 1) + size == size * i;
    }
  }

  /** Row `i` is piece `i`, begins where it should in the torrent, has its own 20 bytes of the hashes, and is
      still to be downloaded. */
  lemma AddedRow(rows: seq<PieceModel>, hashes: seq<byte>, n: nat, pieceLength: nat, total: nat, i: nat)
    requires 0 < n < TWO_32 && 20 * n <= |hashes| && i < n
    requires RowsOf(rows, hashes, n, pieceLength, total)
    ensures |rows| == n && rows[i].piece == i && Offset(rows, i) == pieceLength * i
    ensures rows[i].hash == hashes[20 * i..20 * i + 20] && !rows[i].complete
  {
    hide LastSize, Row, Offset;
    AddedSizes(rows, hashes, n, pieceLength, total);
    EqualRows(rows, pieceLength, i);
    if i == n - 1 {
      RowFields(hashes, i, LastSize(n, pieceLength, total));
    } else {
      RowFields(hashes, i, pieceLength);
    }
  }

  lemma RowFields(hashes: seq<byte>, i: nat, size: nat)
    requires i < TWO_32 && 20 * (i + 1) <= |hashes|
    ensures var row := Row(hashes, i, size);
            row.piece == i && row.size == size && row.hash == hashes[20 * i..20 * i + 20] && !row.complete
  {
  }

  lemma AddedSizes(rows: seq<PieceModel>, hashes: seq<byte>, n: nat, pieceLength: nat, total: nat)
    requires 0 < n < TWO_32 && 20 * n <= |hashes| && RowsOf(rows, hashes, n, pieceLength, total)
    ensures |rows| == n && forall j :: 0 <= j < n - 1 ==> rows[j].size == pieceLength
  {
    hide LastSize;
  }

  /** In a torrent that is filled, that is up to where the next piece begins or the torrent ends. */
  lemma AddedSize(rows: seq<PieceModel>, hashes: seq<byte>, n: nat, pieceLength: nat, total: nat, i: nat)
    requires 0 < n < TWO_32 && 20 * n <= |hashes| && i < n && total < TWO_64
    requires RowsOf(rows, hashes, n, pieceLength, total) && pieceLength * (n - 1) <= total
    ensures rows[i].size == if i + 1 == n then total - pieceLength * (n - 1) else pieceLength
  {
    if i + 1 < n {
      hide LastSize;
      assert rows[i] == Row(hashes, i, pieceLength);
    } else {
      var size := total - pieceLength * (n - 1);
      assert size % TWO_64 == size;
      assert rows[n - 1].size == LastSize(n, pieceLength, total);
    }
  }

  /** The hashes of the first `k` rows, one after the other. */
  function HashesOf(rows: seq<PieceModel>, k: nat): seq<byte>
    requires k <= |rows|
  {
    if k == 0 then [] else HashesOf(rows, k - 1) + rows[k - 1].hash
  }

  /** No byte of the hashes is lost or used twice. */
  lemma {:induction false} HashesInOrder(rows: seq<PieceModel>, hashes: seq<byte>, n: nat, pieceLength: nat, total: nat,
                                         k: nat)
    requires 0 < n < TWO_32 && 20 * n <= |hashes| && k <= n
    requires RowsOf(rows, hashes, n, pieceLength, total)
    ensures HashesOf(rows, k) == hashes[..20 * k]
  {
    if k == 0 {
    } else {
      HashesInOrder(rows, hashes, n, pieceLength, total, k - 1);
      AddedRow(rows, hashes, n, pieceLength, total, k - 1);
      assert hashes[..20 * k] == hashes[..20 * (k - 1)] + hashes[20 * (k - 1)..20 * (k - 1) + 20];
    }
  }

  /** The pieces tile the torrent exactly when the full pieces do not exceed its size. */
  lemma AddedPiecesTile(rows: seq<PieceModel>, hashes: seq<byte>, n: nat, pieceLength: nat, total: nat)
    requires 0 < n < TWO_32 && 20 * n <= |hashes| && total < TWO_64
    requires RowsOf(rows, hashes, n, pieceLength, total)
    ensures Tiles(rows, total) <==> pieceLength * (n - 1) <= total
  {
    EqualRows(rows, pieceLength, n - 1) by {
      hide LastSize;
    }
    assert Offset(rows, n) == Offset(rows, n - 1) + rows[n - 1].size;
    RowsTile(rows, total);
  }

  /** The loop of `addTorrent` over a torrent with at least one piece; the database is a sequence of rows. */
  method AddPieces(hashes: seq<byte>, pieceLength: nat, total: nat) returns (db: seq<PieceModel>)
    requires 20 <= |hashes| && |hashes| / 20 < TWO_32 && total < TWO_64
    ensures RowsOf(db, hashes, |hashes| / 20, pieceLength, total)
  {
    db := [];
    var numPieces := |hashes| / 20;
    var pieceIndex := 0;
    while pieceIndex < numPieces - 1
      invariant 0 <= pieceIndex <= numPieces - 1 && |db| == pieceIndex
      invariant forall i :: 0 <= i < pieceIndex ==> db[i] == Row(hashes, i, pieceLength)
    {
      var hashView := hashes[pieceIndex * 20..pieceIndex * 20 + 20];
      db := db + [PieceModel(pieceIndex, pieceLength, hashView, false)];
      pieceIndex := pieceIndex + 1;
    }
    var cumulativeSize := pieceLength * (numPieces - 1);
    var lastPieceSize := (total - cumulativeSize) % TWO_64;
    var hashView := hashes[pieceIndex * 20..pieceIndex * 20 + 20];
    db := db + [PieceModel(pieceIndex, lastPieceSize, hashView, false)];
  }
}
