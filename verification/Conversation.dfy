/** One connection from its beginning: what the client remembers and asks for, as a function of the messages
    it has received. Between them other connections may change the shared pieces in any way. */
module Conversation {
  import opened Bytes
  import opened Codec
  import opened Common
  import opened Pieces
  import opened Protocol
  import Swarm

  /** One message, answered on the pieces as they happen to be. */
  ghost predicate Reacts(ctx: Context, conn: Conn, m: Message, o: Outcome) {
    exists repo, pick :: AllU32(repo) && PickFits(Handle(ctx, conn, repo, m), pick)
                         && o == Respond(ctx, conn, repo, m, pick)
  }

  /** `os` are possible reactions to the messages `ms` on a new connection. */
  ghost predicate Held(ctx: Context, ms: seq<Message>, os: seq<Outcome>) {
    |ms| == |os|
    && forall k :: 0 <= k < |ms| ==> Reacts(ctx, ConnBefore(os, k), ms[k], os[k])
  }

  function ConnBefore(os: seq<Outcome>, k: nat): Conn
    requires k <= |os|
  {
    if k == 0 then NEW_CONN else os[k - 1].conn
  }

  /** Choke or UnChoke, whichever came last; a new connection is choked. */
  predicate Choked(ms: seq<Message>) {
    if ms == [] then true
    else
      var last := ms[|ms| - 1];
      if last.Choke? then true else if last.UnChoke? then false else Choked(ms[..|ms| - 1])
  }

  predicate Wanted(ms: seq<Message>) {
    if ms == [] then false
    else
      var last := ms[|ms| - 1];
      if last.Interested? then true else if last.NotInterested? then false else Wanted(ms[..|ms| - 1])
  }

  function NamedBy(m: Message): set<nat> {
    if m.Have? then {m.pieceIndex} else if m.Bitfield? then Announced(m.bitfield) else {}
  }

  /** The pieces that Have and Bitfield messages named. */
  function Named(ms: seq<Message>): set<nat> {
    if ms == [] then {}
    else
      var last := ms[|ms| - 1];
      Named(ms[..|ms| - 1]) + NamedBy(last)
  }

  /** What a message offers: pieces of a Bitfield, and one of a Have unless the client has completed it. */
  function Offered(m: Message, completed: set<nat>): set<nat> {
    if m.Have? && m.pieceIndex in completed then {} else NamedBy(m)
  }

  /** The messages that make the client interested. */
  predicate Engages(m: Message, completed: set<nat>) {
    m.Bitfield? || (m.Have? && m.pieceIndex !in completed)
  }

  predicate OffersAt(ms: seq<Message>, os: seq<Outcome>, k: nat, i: nat)
    requires |ms| == |os| && k < |ms|
  {
    i in Offered(ms[k], os[k].repo.completed)
  }

  predicate WrittenAt(os: seq<Outcome>, k: nat, i: nat)
    requires k < |os|
  {
    i in Swarm.WrittenPieces(os[k].writes)
  }

  /** The pieces offered and not written since by this connection. */
  function Remembered(ms: seq<Message>, os: seq<Outcome>): set<nat>
    requires |ms| == |os|
  {
    if ms == [] then {}
    else
      var n := |ms| - 1;
      Remembered(ms[..n], os[..n]) - Swarm.WrittenPieces(os[n].writes) + Offered(ms[n], os[n].repo.completed)
  }

  /** Some message made the client interested. */
  predicate Engaged(ms: seq<Message>, os: seq<Outcome>)
    requires |ms| == |os|
  {
    exists k :: 0 <= k < |ms| && Engages(ms[k], os[k].repo.completed)
  }

  /** Written out: some message offered the piece, and no later one led to its being written. */
  predicate OfferedSince(ms: seq<Message>, os: seq<Outcome>, i: nat)
    requires |ms| == |os|
  {
    exists k :: 0 <= k < |ms| && OffersAt(ms, os, k, i) && forall j :: k < j < |ms| ==> !WrittenAt(os, j, i)
  }

  lemma {:induction false} RememberedExactly(ms: seq<Message>, os: seq<Outcome>, i: nat)
    requires |ms| == |os|
    ensures i in Remembered(ms, os) <==> OfferedSince(ms, os, i)
  {
    hide Offered, Swarm.WrittenPieces;
    if ms == [] {
    } else {
      var n := |ms| - 1;
      RememberedExactly(ms[..n], os[..n], i);
      hide Remembered;
      OfferedSinceNext(ms, os, i);
      assert i in Remembered(ms, os) <==> OffersAt(ms, os, n, i)
                                          || (i in Remembered(ms[..n], os[..n]) && !WrittenAt(os, n, i)) by {
        RememberedNext(ms, os, i);
      }
    }
  }

  lemma RememberedNext(ms: seq<Message>, os: seq<Outcome>, i: nat)
    requires |ms| == |os| > 0
    ensures var n := |ms| - 1;
            i in Remembered(ms, os) <==> OffersAt(ms, os, n, i)
                                         || (i in Remembered(ms[..n], os[..n]) && !WrittenAt(os, n, i))
  {
    hide Offered, Swarm.WrittenPieces;
  }

  lemma OfferedSinceNext(ms: seq<Message>, os: seq<Outcome>, i: nat)
    requires |ms| == |os| > 0
    ensures var n := |ms| - 1;
            OfferedSince(ms, os, i) <==> OffersAt(ms, os, n, i)
                                         || (OfferedSince(ms[..n], os[..n], i) && !WrittenAt(os, n, i))
  {
    var n := |ms| - 1;
    var front, before := ms[..n], os[..n];
    assert forall k :: 0 <= k < n ==> front[k] == ms[k] && before[k] == os[k];
    assert forall k :: 0 <= k < n ==> (OffersAt(front, before, k, i) <==> OffersAt(ms, os, k, i));
    assert forall k :: 0 <= k < n ==> (WrittenAt(before, k, i) <==> WrittenAt(os, k, i));
    hide OffersAt, WrittenAt;
    if OfferedSince(ms, os, i) {
      var k :| 0 <= k < |ms| && OffersAt(ms, os, k, i) && forall j :: k < j < |ms| ==> !WrittenAt(os, j, i);
      if k < n {
        assert OffersAt(front, before, k, i) && !WrittenAt(os, n, i);
      }
    }
    if OfferedSince(front, before, i) && !WrittenAt(os, n, i) {
      var k :| 0 <= k < n && OffersAt(front, before, k, i) && forall j :: k < j < n ==> !WrittenAt(before, j, i);
      assert OffersAt(ms, os, k, i);
    }
  }

  function Sent(os: seq<Outcome>): seq<Message> {
    if os == [] then [] else Sent(os[..|os| - 1]) + os[|os| - 1].sent
  }

  function InterestCount(ms: seq<Message>): nat {
    if ms == [] then 0 else InterestCount(ms[..|ms| - 1]) + if ms[|ms| - 1].Interested? then 1 else 0
  }

  /** A request goes to a peer that is not choking, for a piece that it named and that is still wanted. */
  predicate Justified(ms: seq<Message>, o: Outcome) {
    forall r <- o.sent :: r.Request? ==>
      && !Choked(ms) && r.reqIndex in Named(ms) && r.reqIndex in o.repo.available
      && o.repo.active && o.result == OPEN
  }

  /** The connection is given up only for a Cancel, for an inactive torrent, or when the peer has none of
      the pieces that are wanted. */
  predicate ClosedFor(m: Message, o: Outcome) {
    o.result == CLOSED ==> m.Cancel? || !o.repo.active
                           || (o.repo.available != {} && o.repo.Candidates(o.conn.available) == {})
  }

  predicate Remembers(ms: seq<Message>, os: seq<Outcome>, conn: Conn, sent: seq<Message>)
    requires |ms| == |os|
  {
    && conn.peerChoking == Choked(ms) && conn.peerInterested == Wanted(ms)
    && conn.available == Remembered(ms, os) <= Named(ms) && conn.amInterested == Engaged(ms, os)
    && InterestCount(sent) == if conn.amInterested then 1 else 0
  }

  lemma {:induction false} CountAppend(a: seq<Message>, b: seq<Message>)
    ensures InterestCount(a + b) == InterestCount(a) + InterestCount(b)
  {
    if b == [] {
      assert a + b == a;
    } else {
      assert (a + b)[..|a + b| - 1] == a + b[..|b| - 1];
      CountAppend(a, b[..|b| - 1]);
    }
  }

  lemma CountOne(m: Message)
    ensures InterestCount([m]) == if m.Interested? then 1 else 0
    ensures InterestCount([]) == 0
  {
    assert [m][..0] == [];
  }

  /** What one message changes, before a piece is requested. */
  predicate HandledChanges(conn: Conn, m: Message, h: Handled) {
    && h.conn.peerChoking == (m.Choke? || (!m.UnChoke? && conn.peerChoking))
    && h.conn.peerInterested == (m.Interested? || (!m.NotInterested? && conn.peerInterested))
    && h.conn.available == conn.available - Swarm.WrittenPieces(h.writes) + Offered(m, h.repo.completed)
    && h.conn.amInterested == (conn.amInterested || Engages(m, h.repo.completed))
    && (forall r <- h.sent :: !r.Request?)
    && InterestCount(h.sent) == (if h.conn.amInterested then 1 else 0) - (if conn.amInterested then 1 else 0)
    && (h.verdict == Some(CLOSED) ==> m.Cancel?)
  }

  lemma HandledOk(ctx: Context, conn: Conn, repo: Repo, m: Message)
    ensures HandledChanges(conn, m, Handle(ctx, conn, repo, m))
  {
    CountOne(KeepAlive);
    CountOne(Interested);
    if m.Piece? {
      hide InterestCount;
      assert Handle(ctx, conn, repo, m) == HandlePiece(ctx, conn, repo, m.index, m.begin, m.block);
    } else {
      hide HandlePiece, Announced, InterestCount;
    }
  }

  predicate RequestOk(conn: Conn, repo: Repo, request: seq<Message>, result: ProtocolState) {
    && InterestCount(request) == 0
    && (forall r <- request :: r.Request? && !conn.peerChoking && r.reqIndex in conn.available
                               && r.reqIndex in repo.available && repo.active && result == OPEN)
    && (result == CLOSED ==> !repo.active || (repo.available != {} && repo.Candidates(conn.available) == {}))
  }

  lemma RequestedOk(conn: Conn, repo: Repo, pick: Option<nat>)
    requires repo.ValidPick(conn.available, pick) && AllU32(repo)
    ensures var (request, result) := RequestNext(conn, repo, pick); RequestOk(conn, repo, request, result)
  {
    var (request, _) := RequestNext(conn, repo, pick);
    if request != [] {
      CountOne(request[0]);
      assert request == [request[0]];
    }
  }

  /** What a reaction means for the connection, and what it sends. */
  predicate Changes(conn: Conn, m: Message, o: Outcome) {
    && o.conn.peerChoking == (m.Choke? || (!m.UnChoke? && conn.peerChoking))
    && o.conn.peerInterested == (m.Interested? || (!m.NotInterested? && conn.peerInterested))
    && o.conn.available == conn.available - Swarm.WrittenPieces(o.writes) + Offered(m, o.repo.completed)
    && o.conn.amInterested == (conn.amInterested || Engages(m, o.repo.completed))
    && InterestCount(o.sent) == (if o.conn.amInterested then 1 else 0) - (if conn.amInterested then 1 else 0)
    && (forall r <- o.sent :: r.Request? ==>
          !o.conn.peerChoking && r.reqIndex in o.conn.available && r.reqIndex in o.repo.available
          && o.repo.active && o.result == OPEN)
    && ClosedFor(m, o)
  }

  lemma ChangesRequested(conn: Conn, m: Message, h: Handled, request: seq<Message>, result: ProtocolState)
    requires HandledChanges(conn, m, h) && RequestOk(h.conn, h.repo, request, result)
    ensures Changes(conn, m, Outcome(h.conn, h.repo, h.sent + request, h.writes, result))
  {
    CountAppend(h.sent, request);
    hide InterestCount, NamedBy, Offered, Engages;
  }

  lemma ChangesDone(conn: Conn, m: Message, h: Handled)
    requires HandledChanges(conn, m, h) && h.verdict.Some?
    ensures Changes(conn, m, Outcome(h.conn, h.repo, h.sent, h.writes, h.verdict.value))
  {
    hide InterestCount, NamedBy, Offered, Engages;
  }

  lemma ReactChanges(ctx: Context, conn: Conn, repo: Repo, m: Message, pick: Option<nat>)
    requires AllU32(repo) && PickFits(Handle(ctx, conn, repo, m), pick)
    ensures Changes(conn, m, Respond(ctx, conn, repo, m, pick))
  {
    var h := Handle(ctx, conn, repo, m);
    HandledOk(ctx, conn, repo, m);
    HandledU32(ctx, conn, repo, m);
    hide Handle, HandledChanges, RequestOk, Changes, AllU32;
    if h.verdict.None? {
      RequestedOk(h.conn, h.repo, pick);
      var (request, result) := RequestNext(h.conn, h.repo, pick);
      ChangesRequested(conn, m, h, request, result);
    } else {
      ChangesDone(conn, m, h);
    }
  }

  lemma EngagedNext(ms: seq<Message>, os: seq<Outcome>, m: Message, o: Outcome)
    requires |ms| == |os|
    ensures Engaged(ms + [m], os + [o]) <==> Engaged(ms, os) || Engages(m, o.repo.completed)
  {
    hide Engages;
    var ms', os' := ms + [m], os + [o];
    assert forall k :: 0 <= k < |ms| ==> ms'[k] == ms[k] && os'[k] == os[k];
    assert ms'[|ms|] == m && os'[|ms|] == o;
    if Engaged(ms, os) {
      var k :| 0 <= k < |ms| && Engages(ms[k], os[k].repo.completed);
      assert Engages(ms'[k], os'[k].repo.completed);
    }
  }

  lemma RemembersNext(ms: seq<Message>, os: seq<Outcome>, conn: Conn, sent: seq<Message>, m: Message, o: Outcome)
    requires |ms| == |os| && Remembers(ms, os, conn, sent) && Changes(conn, m, o)
    ensures Remembers(ms + [m], os + [o], o.conn, sent + o.sent) && Justified(ms + [m], o)
  {
    assert (ms + [m])[..|ms|] == ms && (os + [o])[..|os|] == os;
    assert Named(ms + [m]) == Named(ms) + NamedBy(m);
    assert Remembered(ms + [m], os + [o])
        == Remembered(ms, os) - Swarm.WrittenPieces(o.writes) + Offered(m, o.repo.completed);
    assert Offered(m, o.repo.completed) <= NamedBy(m);
    EngagedNext(ms, os, m, o);
    assert Choked(ms + [m]) == (m.Choke? || (!m.UnChoke? && Choked(ms)));
    assert Wanted(ms + [m]) == (m.Interested? || (!m.NotInterested? && Wanted(ms)));
    hide Named, NamedBy, Choked, Wanted, InterestCount, Remembered, Offered, Engaged, Engages, Swarm.WrittenPieces;
    CountAppend(sent, o.sent);
  }

  lemma HandledU32(ctx: Context, conn: Conn, repo: Repo, m: Message)
    requires AllU32(repo)
    ensures AllU32(Handle(ctx, conn, repo, m).repo)
  {
    if m.Piece? {
      assert Handle(ctx, conn, repo, m) == HandlePiece(ctx, conn, repo, m.index, m.begin, m.block);
    } else {
      hide HandlePiece, Announced;
    }
  }

  ghost predicate AllJustified(ms: seq<Message>, os: seq<Outcome>)
    requires |ms| == |os|
  {
    forall k :: 0 <= k < |ms| ==> Justified(ms[..k + 1], os[k]) && ClosedFor(ms[k], os[k])
  }

  lemma AllJustifiedNext(ms: seq<Message>, os: seq<Outcome>, m: Message, o: Outcome)
    requires |ms| == |os| && AllJustified(ms, os) && Justified(ms + [m], o) && ClosedFor(m, o)
    ensures AllJustified(ms + [m], os + [o])
  {
    hide Justified, ClosedFor;
    var ms', os' := ms + [m], os + [o];
    forall k | 0 <= k < |ms'| ensures Justified(ms'[..k + 1], os'[k]) && ClosedFor(ms'[k], os'[k]) {
      if k < |ms| {
        assert ms'[..k + 1] == ms[..k + 1];
      } else {
        assert ms'[..k + 1] == ms';
      }
    }
  }

  /** At every point of every conversation: the client holds itself choked exactly if the last Choke or
      UnChoke was a Choke or there was none; it knows exactly the pieces that the peer offered and that this
      connection has not written since; it requests only such pieces, that are still wanted, and only while it
      is not choked; it says that it is interested once, when it is first offered something; and it gives the
      connection up only for one of three reasons. */
  lemma {:induction false} ClientFollowsPeer(ctx: Context, ms: seq<Message>, os: seq<Outcome>)
    requires Held(ctx, ms, os)
    ensures Remembers(ms, os, ConnBefore(os, |os|), Sent(os)) && AllJustified(ms, os)
    ensures InterestCount(Sent(os)) == if Engaged(ms, os) then 1 else 0
  {
    hide Remembers, Justified, ClosedFor, Changes, Reacts;
    if ms == [] {
      NothingYet();
    } else {
      var n := |ms| - 1;
      var front, before := ms[..n], os[..n];
      HeldBefore(ctx, ms, os);
      LastOne(ms, os);
      hide Held, Sent, InterestCount, ConnBefore, AllJustified;
      ClientFollowsPeer(ctx, front, before);
      ReactionChanges(ctx, ConnBefore(os, n), ms[n], os[n]);
      RemembersNext(front, before, ConnBefore(os, n), Sent(before), ms[n], os[n]);
      AllJustifiedNext(front, before, ms[n], os[n]);
      OnceEngaged(ms, os, os[n].conn, Sent(os));
    }
  }

  lemma LastOne(ms: seq<Message>, os: seq<Outcome>)
    requires ms != [] && |os| == |ms|
    ensures var n := |ms| - 1;
            && Sent(os) == Sent(os[..n]) + os[n].sent && ConnBefore(os, n + 1) == os[n].conn
            && ms[..n] + [ms[n]] == ms && os[..n] + [os[n]] == os
  {
  }

  lemma NothingYet()
    ensures Remembers([], [], NEW_CONN, Sent([])) && InterestCount(Sent([])) == 0
  {
  }

  lemma OnceEngaged(ms: seq<Message>, os: seq<Outcome>, conn: Conn, sent: seq<Message>)
    requires |ms| == |os| && Remembers(ms, os, conn, sent)
    ensures InterestCount(sent) == if Engaged(ms, os) then 1 else 0
  {
  }

  lemma HeldBefore(ctx: Context, ms: seq<Message>, os: seq<Outcome>)
    requires Held(ctx, ms, os) && ms != []
    ensures var n := |ms| - 1;
            && Held(ctx, ms[..n], os[..n]) && Reacts(ctx, ConnBefore(os, n), ms[n], os[n])
            && ConnBefore(os[..n], n) == ConnBefore(os, n)
  {
    hide Reacts;
    var n := |ms| - 1;
    var front, before := ms[..n], os[..n];
    forall k | 0 <= k < n ensures Reacts(ctx, ConnBefore(before, k), front[k], before[k]) {
      assert ConnBefore(before, k) == ConnBefore(os, k);
    }
  }

  lemma ReactionChanges(ctx: Context, conn: Conn, m: Message, o: Outcome)
    requires Reacts(ctx, conn, m, o)
    ensures Changes(conn, m, o) && ClosedFor(m, o)
  {
    var repo, pick :| AllU32(repo) && PickFits(Handle(ctx, conn, repo, m), pick)
                      && o == Respond(ctx, conn, repo, m, pick);
    hide Handle, Respond, ClosedFor, AllU32, PickFits;
    ReactChanges(ctx, conn, repo, m, pick);
    ChangesClose(conn, m, o);
  }

  lemma ChangesClose(conn: Conn, m: Message, o: Outcome)
    requires Changes(conn, m, o)
    ensures ClosedFor(m, o)
  {
  }

  /** A piece named by a Bitfield, or by a Have while it was not completed, stays known until this connection
      writes it, and no other is known. */
  lemma KnownExactly(ctx: Context, ms: seq<Message>, os: seq<Outcome>, i: nat)
    requires Held(ctx, ms, os)
    ensures i in ConnBefore(os, |os|).available <==> OfferedSince(ms, os, i)
  {
    ClientFollowsPeer(ctx, ms, os);
    RememberedExactly(ms, os, i);
    hide Held, Remembered, OfferedSince, Choked, Wanted, Named, InterestCount, Engaged, Justified;
  }

  /** One Have, on any connection and in any state of the pieces. */
  lemma HaveReceived(ctx: Context, conn: Conn, repo: Repo, i: u32)
    requires AllU32(repo)
    ensures var o := Respond(ctx, conn, repo, Have(i), None);
            && o.conn.available == conn.available + (if i in repo.completed then {} else {i})
            && (i in o.conn.available <==> i in conn.available || i !in repo.completed)
            && o.repo == repo && o.writes == [] && o.result == OPEN
            && (Interested in o.sent <==> i !in repo.completed && !conn.amInterested)
  {
    hide HandlePiece, Announced;
    assert conn.available + {} == conn.available;
  }
}
