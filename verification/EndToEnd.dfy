/** From the hashes of a torrent to the bytes on disk: what `addTorrent`, `populate`, the connections and the
    disk thread do together. */
module EndToEnd {
  import opened Bytes
  import opened Disk
  import opened Pieces
  import opened Protocol
  import opened Swarm
  import opened Tiling

  /** Rows for a torrent of `n` pieces of `pieceLength` bytes, the last one shorter, which fill it. */
  predicate TorrentRows(rows: seq<PieceModel>, hashes: seq<byte>, n: nat, pieceLength: nat, total: nat) {
    && 0 < n < TWO_32 && 20 * n <= |hashes| && total < TWO_64
    && RowsOf(rows, hashes, n, pieceLength, total) && pieceLength * (n - 1) <= total
  }

  lemma AddedRowsDistinct(rows: seq<PieceModel>, hashes: seq<byte>, n: nat, pieceLength: nat, total: nat)
    requires 0 < n < TWO_32 && 20 * n <= |hashes| && RowsOf(rows, hashes, n, pieceLength, total)
    ensures DistinctRows(rows)
  {
    forall i, j | 0 <= i < j < |rows| ensures rows[i].piece != rows[j].piece {
      AddedRow(rows, hashes, n, pieceLength, total, i);
      AddedRow(rows, hashes, n, pieceLength, total, j);
    }
  }

  /** A piece of a torrent just added: wanted, in its place, and checked against its own hash. */
  lemma AddedPiece(rows: seq<PieceModel>, hashes: seq<byte>, n: nat, pieceLength: nat, total: nat, i: nat)
    requires 0 < n < TWO_32 && 20 * n <= |hashes| && i < n && RowsOf(rows, hashes, n, pieceLength, total)
    ensures var r0 := Populated(EMPTY_REPO, rows);
            && i in r0.available && i in r0.pieces && i in r0.hashes
            && r0.hashes[i] == hashes[20 * i..20 * i + 20] && r0.pieces[i].offset == pieceLength * i
  {
    AddedRow(rows, hashes, n, pieceLength, total, i);
    AddedRowsDistinct(rows, hashes, n, pieceLength, total);
    PopulatedRow(rows, n, i);
    PopulatedWants(EMPTY_REPO, rows, i);
  }

  /** A piece passes the hash check exactly if its digest is the bytes 20 * i to 20 * i + 20 of the hashes. */
  lemma AddedHashCheck(rows: seq<PieceModel>, hashes: seq<byte>, n: nat, pieceLength: nat, total: nat,
                       sha1: seq<byte> -> Hash, i: nat, data: seq<byte>)
    requires 0 < n < TWO_32 && 20 * n <= |hashes| && RowsOf(rows, hashes, n, pieceLength, total)
    ensures Populated(EMPTY_REPO, rows).HashCheck(sha1, i, data)
       <==> i < n && sha1(data) == hashes[20 * i..20 * i + 20]
  {
    if i < n {
      AddedPiece(rows, hashes, n, pieceLength, total, i);
    } else {
      PopulatedWants(EMPTY_REPO, rows, i);
      forall j | 0 <= j < |rows| ensures rows[j].piece != i {
        AddedRow(rows, hashes, n, pieceLength, total, j);
      }
    }
  }

  /** The end of piece `i` in the torrent. */
  function PieceEnd(n: nat, pieceLength: nat, total: nat, i: nat): int {
    if i + 1 == n then total else pieceLength * (i + 1)
  }

  /** Product and order, apart from the rows. */
  lemma Ends(n: nat, pieceLength: nat, total: nat, i: nat)
    requires i < n && pieceLength * (n - 1) <= total
    ensures pieceLength * i <= PieceEnd(n, pieceLength, total, i) <= total
    ensures PieceEnd(n, pieceLength, total, i) - pieceLength * i
         == if i + 1 == n then total - pieceLength * (n - 1) else pieceLength
  {
    OneMore(pieceLength, i);
    if i + 1 < n {
      Grows(pieceLength, i + 1, n - 1);
    }
  }

  lemma OneMore(x: nat, i: nat)
    ensures 0 <= x * i && x * (i + 1) == x * i + x
  {
  }

  lemma {:induction false} Grows(x: nat, i: nat, k: nat)
    requires i <= k
    ensures x * i <= x * k
    decreases k - i
  {
    if i == k {
    } else {
      Grows(x, i, k - 1);
      OneMore(x, k - 1);
    }
  }

  lemma AllWritten(ctx: Context, r0: Repo, events: seq<Event>, s: Swarm, i: nat)
    requires Run(ctx, r0, events, s, COMPLETE) && Fresh(r0) && i in r0.available
    ensures i in WrittenPieces(s.writes)
  {
    Integrity(ctx, r0, events, s, COMPLETE);
    hide Run;
    var w :| w in s.writes && w.pieceIndex == i;
  }

  /** Everything about piece `i` that the disk needs. */
  lemma PieceInPlace(rows: seq<PieceModel>, hashes: seq<byte>, n: nat, pieceLength: nat, total: nat, i: nat)
    requires TorrentRows(rows, hashes, n, pieceLength, total) && i < n
    ensures 20 * n <= |hashes| && 0 <= pieceLength * i <= PieceEnd(n, pieceLength, total, i) <= total
    ensures var r0 := Populated(EMPTY_REPO, rows);
            && Fresh(r0) && Placed(r0, total) && i in r0.available && i in r0.pieces && i in r0.hashes
            && r0.hashes[i] == hashes[20 * i..20 * i + 20] && r0.pieces[i].offset == pieceLength * i
            && pieceLength * i + r0.pieces[i].size == PieceEnd(n, pieceLength, total, i)
  {
    AddedRowsDistinct(rows, hashes, n, pieceLength, total);
    AddedPiecesTile(rows, hashes, n, pieceLength, total);
    AddedPiece(rows, hashes, n, pieceLength, total, i);
    AddedSize(rows, hashes, n, pieceLength, total, i);
    AddedRow(rows, hashes, n, pieceLength, total, i);
    Ends(n, pieceLength, total, i);
    hide RowsOf, PieceEnd, Tiles;
    PopulatedReady(rows, total);
    PopulatedRow(rows, n, i);
    hide Populated, Placed;
  }

  /** After COMPLETE every piece that was wanted is on disk, with its digest. */
  lemma CompletedRange(ctx: Context, r0: Repo, events: seq<Event>, s: Swarm, flat: seq<byte>, i: nat)
    requires Run(ctx, r0, events, s, COMPLETE) && Fresh(r0) && Placed(r0, |flat|)
    requires i in r0.available && i in r0.pieces
    ensures i in r0.hashes && ctx.sha1(Range(DiskAfter(flat, s.writes), r0.pieces[i])) == r0.hashes[i]
  {
    AllWritten(ctx, r0, events, s, i);
    DiskIntegrity(ctx, r0, events, s, COMPLETE, flat, |s.writes|, i);
    assert Processed(s.writes, |s.writes|) == s.writes;
  }

  /** The bytes of piece `i` in the torrent. */
  function PieceBytes(flat: seq<byte>, n: nat, pieceLength: nat, i: nat): seq<byte>
    requires i < n && pieceLength * (n - 1) <= |flat|
  {
    Ends(n, pieceLength, |flat|, i);
    flat[pieceLength * i..PieceEnd(n, pieceLength, |flat|, i)]
  }

  lemma RangeIsPiece(flat: seq<byte>, p: PieceValue, n: nat, pieceLength: nat, i: nat)
    requires i < n && pieceLength * (n - 1) <= |flat|
    requires p.offset == pieceLength * i && p.offset + p.size == PieceEnd(n, pieceLength, |flat|, i)
    ensures p.offset + p.size <= |flat| && Range(flat, p) == PieceBytes(flat, n, pieceLength, i)
  {
    Ends(n, pieceLength, |flat|, i);
    hide PieceEnd;
  }

  /** A torrent that was just added, any number of peers that send whatever they like: once some connection has
      returned COMPLETE and the queue was written, every piece of the file on disk has the digest that the
      torrent promises for it. */
  lemma DownloadedTorrent(ctx: Context, rows: seq<PieceModel>, hashes: seq<byte>, n: nat, pieceLength: nat, total: nat,
                          events: seq<Event>, s: Swarm, flat: seq<byte>, i: nat)
    requires TorrentRows(rows, hashes, n, pieceLength, total) && i < n && |flat| == total
    requires Run(ctx, Populated(EMPTY_REPO, rows), events, s, COMPLETE)
    ensures ctx.sha1(PieceBytes(DiskAfter(flat, s.writes), n, pieceLength, i)) == hashes[20 * i..20 * i + 20]
  {
    var r0 := Populated(EMPTY_REPO, rows);
    PieceInPlace(rows, hashes, n, pieceLength, total, i);
    hide Run, DiskAfter, Populated, Placed, PieceEnd, RowsOf, Fresh, PieceBytes;
    CompletedRange(ctx, r0, events, s, flat, i);
    RangeIsPiece(DiskAfter(flat, s.writes), r0.pieces[i], n, pieceLength, i);
    hide Range;
  }
}
