/** How a download with any number of honest connections advances: every block that continues a wanted piece is
    one block less to come, and nothing else changes how many there are. */
module Progress {
  import opened Bytes
  import opened Codec
  import opened Download
  import opened Honest
  import opened Pieces
  import opened Protocol
  import opened Swarm

  /** The event is a block that a wanted piece goes on with; an empty one counts for an empty piece only. */
  predicate Continues(s: Swarm, e: Event) {
    && e.Receive? && e.peer in s.conns && e.message.Piece?
    && var m := e.message;
       && m.index in s.repo.available && m.index in s.repo.pieces
       && m.begin == s.repo.pieces[m.index].NextBegin()
       && (m.block != [] || s.repo.pieces[m.index].size == 0)
  }

  // ------------------------------------------------------------------ one block

  /** A block as long as it can be takes one off the number of blocks, unless it is empty. */
  lemma BlocksFall(size: nat, n: nat, length: nat)
    requires n + length <= Reach(size) && n + length < size && length <= BLOCK_SIZE
    requires length == BLOCK_SIZE || n + length == Reach(size)
    ensures Blocks(size - n) == Blocks(size - n - length) + if length > 0 then 1 else 0
  {
    if length == BLOCK_SIZE {
      BlocksStep(size - n);
    } else {
      var q := size / TWO_32;
      assert size - n - length == TWO_32 * q;
      WholeRounds(q, length);
    }
  }

  lemma WholeRounds(q: nat, length: nat)
    requires 0 < q && length <= BLOCK_SIZE
    ensures Blocks(TWO_32 * q + length) == Blocks(TWO_32 * q) + if length > 0 then 1 else 0
  {
    var blocks := TWO_32 / BLOCK_SIZE * q;
    assert TWO_32 * q == BLOCK_SIZE * blocks;
    assert (BLOCK_SIZE * blocks + BLOCK_SIZE - 1) / BLOCK_SIZE == blocks;
    assert length > 0 ==> (BLOCK_SIZE * blocks + length + BLOCK_SIZE - 1) / BLOCK_SIZE == blocks + 1;
  }

  lemma {:induction false} SameWork(repo: Repo, repo': Repo, n: nat)
    requires forall k: nat :: Need(repo, k) == Need(repo', k)
    ensures Work(repo, n) == Work(repo', n)
  {
    hide Need;
    if n == 0 {
    } else {
      SameWork(repo, repo', n - 1);
    }
  }

  /** What one Piece does to the work: `repo'` differs from `repo` in piece `i` only. */
  lemma WorkAt(repo: Repo, repo': Repo, i: nat, n: nat, done: bool)
    requires forall k: nat :: k != i ==> Need(repo, k) == Need(repo', k)
    requires Need(repo, i) == Need(repo', i) + if done then 1 else 0
    requires done ==> i < n
    ensures Work(repo, n) == Work(repo', n) + if done then 1 else 0
  {
    hide Need;
    if done {
      WorkDrops(repo, repo', i, n);
    } else {
      assert forall k: nat :: Need(repo, k) == Need(repo', k);
      SameWork(repo, repo', n);
    }
  }

  /** The buffer of a piece gets longer. */
  lemma GrowingWork(ctx: Context, truth: Truth, repo: Repo, i: nat, length: nat, n: nat)
    requires i in repo.pieces && i in truth && PieceOnTrack(ctx, truth, repo, i)
    requires var begin := |repo.pieces[i].data|;
             && begin + length <= Reach(|truth[i]|) && begin + length < |truth[i]| && length <= BLOCK_SIZE
             && (length == BLOCK_SIZE || begin + length == Reach(|truth[i]|))
    requires i in repo.available ==> i < n
    ensures var begin := |repo.pieces[i].data|;
            Work(repo, n) == Work(repo.WithData(i, truth[i][..begin + length]), n)
                             + if i in repo.available && length > 0 then 1 else 0
  {
    var begin := |repo.pieces[i].data|;
    BlocksFall(|truth[i]|, begin, length);
    hide Blocks, Reach, Work;
    WorkAt(repo, repo.WithData(i, truth[i][..begin + length]), i, n, i in repo.available && length > 0);
  }

  /** A piece is completed. */
  lemma CompletingWork(ctx: Context, truth: Truth, repo: Repo, i: nat, n: nat)
    requires i in repo.pieces && i in truth && PieceOnTrack(ctx, truth, repo, i)
    requires |truth[i]| - |repo.pieces[i].data| <= BLOCK_SIZE
    requires i in repo.available ==> i < n
    ensures Work(repo, n) == Work(repo.Completed(i), n) + if i in repo.available then 1 else 0
  {
    BlocksStep(repo.pieces[i].Remaining());
    hide Blocks, Reach, Work;
    WorkAt(repo, repo.Completed(i), i, n, i in repo.available);
  }

  /** One true block, for whatever request it answers. */
  lemma BlockWork(ctx: Context, truth: Truth, conn: Conn, repo: Repo, request: Message, m: Message, n: nat)
    requires OnTrack(ctx, truth, repo) && GoodRequest(truth, request) && IsAnswer(truth, request, m)
    requires forall i <- repo.available :: i < n
    ensures m.index in repo.pieces
    ensures var h, p := HandlePiece(ctx, conn, repo, m.index, m.begin, m.block), repo.pieces[m.index];
            && h.repo.available <= repo.available
            && Work(repo, n) == Work(h.repo, n) + if m.index in repo.available && m.begin == p.NextBegin()
                                                     && (m.block != [] || p.size == 0) then 1 else 0
  {
    var i := m.index;
    assert PieceOnTrack(ctx, truth, repo, i);
    assert |m.block| == request.reqLength;
    assert repo.pieces[i].NextBegin() == |repo.pieces[i].data|;
    TrueBlockHandled(ctx, truth, conn, repo, i, m.begin, request.reqLength);
    hide HandlePiece, OnTrack, TrueBlock, Work, Reach;
    if m.begin == |repo.pieces[i].data| {
      if m.begin + request.reqLength == |truth[i]| {
        CompletingWork(ctx, truth, repo, i, n);
      } else {
        GrowingWork(ctx, truth, repo, i, request.reqLength, n);
      }
    }
  }

  // ------------------------------------------------------------------ runs

  lemma OtherMessage(ctx: Context, conn: Conn, repo: Repo, m: Message)
    requires !m.Piece?
    ensures Handle(ctx, conn, repo, m).repo == repo
  {
    hide Announced, HandlePiece;
  }

  lemma ReceiveWork(ctx: Context, truth: Truth, s: Swarm, e: Event, n: nat)
    requires HonestInv(ctx, truth, s) && HonestEvent(truth, s, e) && e.Receive? && e.peer in s.conns
    requires forall i <- s.repo.available :: i < n
    ensures var h := Handle(ctx, s.conns[e.peer], s.repo, e.message);
            && h.repo.available <= s.repo.available
            && Work(s.repo, n) == Work(h.repo, n) + if Continues(s, e) then 1 else 0
  {
    var conn, m := s.conns[e.peer], e.message;
    if m.Piece? {
      assert Handle(ctx, conn, s.repo, m) == HandlePiece(ctx, conn, s.repo, m.index, m.begin, m.block);
      var k :| 0 <= k < |s.sent| && s.sent[k].0 == e.peer && IsAnswer(truth, s.sent[k].1, m);
      hide OnTrack, HandlePiece, Handle, IsAnswer, GoodRequest, Work;
      BlockWork(ctx, truth, conn, s.repo, s.sent[k].1, m, n);
    } else {
      OtherMessage(ctx, conn, s.repo, m);
    }
  }

  /** One honest event: the work falls by one at a block that a wanted piece goes on with, and at nothing else. */
  lemma StepWork(ctx: Context, truth: Truth, s: Swarm, e: Event, s': Swarm, result: ProtocolState, n: nat)
    requires HonestInv(ctx, truth, s) && HonestEvent(truth, s, e) && Steps(ctx, s, e, s', result)
    requires forall i <- s.repo.available :: i < n
    ensures s'.repo.available <= s.repo.available
    ensures Work(s.repo, n) == Work(s'.repo, n) + if Continues(s, e) then 1 else 0
  {
    if e.Receive? && e.peer in s.conns {
      ReceiveWork(ctx, truth, s, e, n);
      assert s'.repo == Handle(ctx, s.conns[e.peer], s.repo, e.message).repo;
    } else {
      hide Work, HonestInv;
      SameWork(s.repo, s'.repo, n);
    }
  }

  /** An honest step, after which the count is `taken`. */
  predicate CountedStep(ctx: Context, truth: Truth, s: Swarm, e: Event, s': Swarm, result: ProtocolState,
                        before: nat, taken: nat) {
    && HonestEvent(truth, s, e) && Steps(ctx, s, e, s', result)
    && taken == before + if Continues(s, e) then 1 else 0
  }

  /** An honest run in which `taken` events were such blocks. */
  ghost predicate CountedRun(ctx: Context, truth: Truth, r0: Repo, events: seq<Event>, s: Swarm,
                             result: ProtocolState, taken: nat) {
    if events == [] then s == Start(r0) && result == OPEN && taken == 0
    else
      var front, last := events[..|events| - 1], events[|events| - 1];
      exists s0, result0, before :: CountedRun(ctx, truth, r0, front, s0, result0, before)
                                    && CountedStep(ctx, truth, s0, last, s, result, before, taken)
  }

  /** Every honest run can be counted. */
  lemma {:induction false} Counted(ctx: Context, truth: Truth, r0: Repo, events: seq<Event>, s: Swarm,
                                   result: ProtocolState) returns (taken: nat)
    requires HonestRun(ctx, truth, r0, events, s, result)
    ensures CountedRun(ctx, truth, r0, events, s, result, taken)
  {
    if events == [] {
      taken := 0;
    } else {
      var front, last := events[..|events| - 1], events[|events| - 1];
      var s0, result0 :| HonestRun(ctx, truth, r0, front, s0, result0)
                         && HonestEvent(truth, s0, last) && Steps(ctx, s0, last, s, result);
      var before := Counted(ctx, truth, r0, front, s0, result0);
      hide HonestEvent, Steps, Continues, HonestRun;
      taken := before + if Continues(s0, last) then 1 else 0;
      assert CountedStep(ctx, truth, s0, last, s, result, before, taken);
    }
  }

  lemma {:induction false} CountedWork(ctx: Context, truth: Truth, r0: Repo, events: seq<Event>, s: Swarm,
                                       result: ProtocolState, taken: nat, n: nat)
    requires OnTrack(ctx, truth, r0) && CountedRun(ctx, truth, r0, events, s, result, taken)
    requires forall i <- r0.available :: i < n
    ensures HonestRun(ctx, truth, r0, events, s, result) && HonestInv(ctx, truth, s)
    ensures s.repo.available <= r0.available && Work(r0, n) == Work(s.repo, n) + taken
  {
    if events == [] {
    } else {
      var front, last := events[..|events| - 1], events[|events| - 1];
      var s0, result0, before :| CountedRun(ctx, truth, r0, front, s0, result0, before)
                                 && CountedStep(ctx, truth, s0, last, s, result, before, taken);
      CountedWork(ctx, truth, r0, front, s0, result0, before, n);
      hide HonestEvent, Steps, HonestInv, Continues, Work;
      StepHonestly(ctx, truth, s0, last, s, result);
      StepWork(ctx, truth, s0, last, s, result, n);
    }
  }

  /** With any number of honest connections, however many blocks arrive twice or late: the work of the start is
      what is left and the blocks that wanted pieces went on with, in whatever way these are counted. So there are
      never more of these than that, and nothing is wanted any more exactly when there were as many. */
  lemma BlocksTaken(ctx: Context, truth: Truth, r0: Repo, events: seq<Event>, s: Swarm, result: ProtocolState,
                    n: nat) returns (taken: nat)
    requires OnTrack(ctx, truth, r0) && HonestRun(ctx, truth, r0, events, s, result)
    requires r0.available <= r0.pieces.Keys && forall i <- r0.available :: i < n
    ensures forall t: nat :: CountedRun(ctx, truth, r0, events, s, result, t) <==> t == taken
    ensures Work(r0, n) == Work(s.repo, n) + taken
    ensures taken <= Work(r0, n) && (taken == Work(r0, n) <==> s.repo.available == {})
  {
    taken := Counted(ctx, truth, r0, events, s, result);
    CountedWork(ctx, truth, r0, events, s, result, taken, n);
    assert s.repo.pieces.Keys == truth.Keys == r0.pieces.Keys;
    hide OnTrack, Work, CountedRun, HonestRun;
    NoWork(ctx, truth, s.repo, n);
    forall t: nat | CountedRun(ctx, truth, r0, events, s, result, t) ensures t == taken {
      CountedWork(ctx, truth, r0, events, s, result, t, n);
    }
  }
}
