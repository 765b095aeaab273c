/** Connection slots: the state of `PeerTracker` and what its operations do to it. Which idle peer is found,
    and in which order the torrents are served, depends on unordered maps and is left open. */
module Slots {
  import opened Bytes
  import opened Common

  const MAX_CONNECTED_PEERS := 200
  const MAX_PEERS_PER_TORRENT := 20

  datatype PeerConnection = NOT_CONNECTED | CONNECTING | CONNECTED

  datatype Peer = Peer(connected: PeerConnection, peer: PeerId, torrent: InfoHash, hasConnectedBefore: bool)

  datatype PeersInfo = PeersInfo(inactivePeers: set<PeerId>, activePeers: set<PeerId>, connected: u16) {
    function GetActivePeerCount(): u16 {
      |activePeers| % 0x1_0000
    }

    function MakeInactive(peer: PeerId): PeersInfo {
      this.(inactivePeers := inactivePeers + {peer}, activePeers := activePeers - {peer})
    }

    function AddActivePeer(peer: PeerId): PeersInfo {
      this.(activePeers := activePeers + {peer})
    }
  }

  datatype PeerCommand =
    | TryConnect(peer: PeerId, torrent: InfoHash)
    | Disconnect(peer: PeerId, torrent: InfoHash)
    | DoAnnounce(torrent: InfoHash)
    | Nothing

  /** The values a map is given for a missing key. */
  const NEW_PEER := Peer(NOT_CONNECTED, PeerId("", 0), InfoHash(""), false)
  const NEW_INFO := PeersInfo({}, {}, 0)

  datatype Tracker = Tracker(peers: map<PeerId, Peer>, infos: map<InfoHash, PeersInfo>, active: set<InfoHash>,
                             curr: u16)
  {
    function Info(torrent: InfoHash): PeersInfo {
      if torrent in infos then infos[torrent] else NEW_INFO
    }

    function PeerOf(p: PeerId): Peer {
      if p in peers then peers[p] else NEW_PEER
    }

    predicate IsIdle(p: PeerId) {
      PeerOf(p).connected == NOT_CONNECTED
    }

    /** What `findNotConnectedPeer` can find: it does not look at the torrent. */
    predicate IsCandidate(p: PeerId) {
      p in peers && IsIdle(p) && !peers[p].hasConnectedBefore
    }

    /** The loop condition of `makeCommandFor`. */
    predicate HasRoom(torrent: InfoHash) {
      Info(torrent).GetActivePeerCount() < MAX_PEERS_PER_TORRENT && curr < MAX_CONNECTED_PEERS
    }

    predicate MayTry(torrent: InfoHash, p: PeerId) {
      HasRoom(torrent) && IsCandidate(p)
    }

    /** One turn of that loop. */
    function Try(torrent: InfoHash, p: PeerId): Tracker
      requires p in peers
    {
      this.(peers := peers[p := peers[p].(connected := CONNECTING)], curr := (curr + 1) % 0x1_0000,
            infos := infos[torrent := Info(torrent).AddActivePeer(peers[p].peer)])
    }

    /** `onPeerConnect`, up to the commands. */
    function Marked(p: PeerId): Tracker {
      var info := Info(PeerOf(p).torrent);
      this.(peers := peers[p := PeerOf(p).(connected := CONNECTED, hasConnectedBefore := true)],
            infos := infos[PeerOf(p).torrent := info.(connected := (info.connected + 1) % 0x1_0000)])
    }

    /** `onPeerDisconnect` of a known peer, up to the commands. */
    function Removed(p: PeerId): Tracker {
      var torrent := PeerOf(p).torrent;
      this.(peers := peers - {p}, infos := infos[torrent := Info(torrent).MakeInactive(p)],
            curr := (curr - 1) % 0x1_0000)
    }

    /** `onAnnounce`, up to the commands. */
    function Learned(torrent: InfoHash, announced: seq<PeerId>): Tracker {
      this.(peers := peers + NewPeers(torrent, announced), infos := infos[torrent := Info(torrent)])
    }

    function NewPeers(torrent: InfoHash, announced: seq<PeerId>): map<PeerId, Peer> {
      map p | p in announced && p !in peers :: Peer(NOT_CONNECTED, p, torrent, false)
    }

    function Activated(torrent: InfoHash): Tracker {
      this.(active := active + {torrent}, infos := infos[torrent := Info(torrent)])
    }

    function Deactivated(torrent: InfoHash): Tracker {
      this.(active := active - {torrent}, infos := infos[torrent := Info(torrent)])
    }
  }

  // ------------------------------------------------------------------ the commands

  /** What `makeCommandFor` did for one torrent: the peers it found, in order. */
  datatype Round = Round(torrent: InfoHash, peers: seq<PeerId>)

  function Tried(t: Tracker, torrent: InfoHash, ps: seq<PeerId>): Tracker
    requires MayTryAll(t, torrent, ps)
    decreases |ps|, 1
  {
    if ps == [] then t else Tried(t, torrent, ps[..|ps| - 1]).Try(torrent, ps[|ps| - 1])
  }

  predicate MayTryAll(t: Tracker, torrent: InfoHash, ps: seq<PeerId>)
    decreases |ps|, 0
  {
    ps == [] || (MayTryAll(t, torrent, ps[..|ps| - 1])
                 && Tried(t, torrent, ps[..|ps| - 1]).MayTry(torrent, ps[|ps| - 1]))
  }

  /** The loop ends only when there is no room or no candidate. */
  ghost predicate Stuck(t: Tracker, torrent: InfoHash) {
    forall p <- t.peers :: !t.MayTry(torrent, p)
  }

  predicate NoCandidate(t: Tracker) {
    forall p <- t.peers :: !t.IsCandidate(p)
  }

  lemma LoopEnds(t: Tracker, torrent: InfoHash)
    requires NoCandidate(t) || !t.HasRoom(torrent)
    ensures Stuck(t, torrent)
  {
  }

  ghost predicate RoundOk(t: Tracker, r: Round) {
    MayTryAll(t, r.torrent, r.peers) && Stuck(Tried(t, r.torrent, r.peers), r.torrent)
  }

  function TryCommands(torrent: InfoHash, ps: seq<PeerId>): (cmds: seq<PeerCommand>)
    ensures |cmds| == |ps| && forall i :: 0 <= i < |ps| ==> cmds[i] == TryConnect(ps[i], torrent)
  {
    if ps == [] then [] else TryCommands(torrent, ps[..|ps| - 1]) + [TryConnect(ps[|ps| - 1], torrent)]
  }

  /** What is returned for one torrent: the attempts, or a request for an announce when there were none
      although the torrent has less than 20 peers. */
  function RoundCommands(t: Tracker, r: Round): seq<PeerCommand> {
    if r.peers == [] && t.Info(r.torrent).GetActivePeerCount() < MAX_PEERS_PER_TORRENT
    then [if r.torrent in t.active then DoAnnounce(r.torrent) else Nothing]
    else TryCommands(r.torrent, r.peers)
  }

  ghost predicate RoundsOk(t: Tracker, rounds: seq<Round>)
    decreases |rounds|, 0
  {
    rounds == [] || (RoundsOk(t, rounds[..|rounds| - 1])
                     && RoundOk(AfterRounds(t, rounds[..|rounds| - 1]), rounds[|rounds| - 1]))
  }

  ghost function AfterRounds(t: Tracker, rounds: seq<Round>): Tracker
    requires RoundsOk(t, rounds)
    decreases |rounds|, 1
  {
    if rounds == [] then t
    else
      var r := rounds[|rounds| - 1];
      Tried(AfterRounds(t, rounds[..|rounds| - 1]), r.torrent, r.peers)
  }

  ghost function AllCommands(t: Tracker, rounds: seq<Round>): seq<PeerCommand>
    requires RoundsOk(t, rounds)
  {
    if rounds == [] then []
    else AllCommands(t, rounds[..|rounds| - 1]) + RoundCommands(AfterRounds(t, rounds), rounds[|rounds| - 1])
  }

  /** `makeCommand` serves every torrent once. */
  ghost predicate Serves(t: Tracker, rounds: seq<Round>) {
    && RoundsOk(t, rounds)
    && (forall i, j :: 0 <= i < j < |rounds| ==> rounds[i].torrent != rounds[j].torrent)
    && (forall k :: k in t.infos <==> exists i :: 0 <= i < |rounds| && rounds[i].torrent == k)
  }

  lemma TriedMore(t: Tracker, torrent: InfoHash, ps: seq<PeerId>, p: PeerId)
    requires MayTryAll(t, torrent, ps) && Tried(t, torrent, ps).MayTry(torrent, p)
    ensures MayTryAll(t, torrent, ps + [p])
    ensures Tried(t, torrent, ps + [p]) == Tried(t, torrent, ps).Try(torrent, p)
    ensures TryCommands(torrent, ps + [p]) == TryCommands(torrent, ps) + [TryConnect(p, torrent)]
  {
    assert (ps + [p])[..|ps|] == ps;
  }

  lemma RoundsMore(t: Tracker, rounds: seq<Round>, r: Round)
    requires RoundsOk(t, rounds) && RoundOk(AfterRounds(t, rounds), r)
    ensures RoundsOk(t, rounds + [r])
    ensures AfterRounds(t, rounds + [r]) == Tried(AfterRounds(t, rounds), r.torrent, r.peers)
    ensures AllCommands(t, rounds + [r])
         == AllCommands(t, rounds) + RoundCommands(AfterRounds(t, rounds + [r]), r)
  {
    assert (rounds + [r])[..|rounds|] == rounds;
    hide RoundOk, RoundCommands;
  }

  // ------------------------------------------------------------------ the invariant

  function Busy(t: Tracker): set<PeerId> {
    set p | p in t.peers && !t.IsIdle(p)
  }

  predicate Counted(t: Tracker) {
    t.curr == |Busy(t)|
  }

  /** No torrent has more than 20 active peers. This holds whatever is reported. */
  predicate Capped(t: Tracker) {
    forall torrent <- t.infos :: |t.infos[torrent].activePeers| <= MAX_PEERS_PER_TORRENT
  }

  /** The peers that can be found are stored under their own names. */
  predicate Named(t: Tracker) {
    forall p <- t.peers :: t.IsCandidate(p) ==> t.peers[p].peer == p
  }

  predicate Inv(t: Tracker) {
    Counted(t) && t.curr <= MAX_CONNECTED_PEERS && Capped(t) && Named(t)
  }

  lemma BusyTry(t: Tracker, torrent: InfoHash, p: PeerId)
    requires t.MayTry(torrent, p)
    ensures Busy(t.Try(torrent, p)) == Busy(t) + {p} && p !in Busy(t)
  {
    var t' := t.Try(torrent, p);
    forall q ensures q in Busy(t') <==> q in Busy(t) + {p} {
    }
  }

  lemma BusyMarked(t: Tracker, p: PeerId)
    ensures Busy(t.Marked(p)) == Busy(t) + {p}
  {
    var t' := t.Marked(p);
    forall q ensures q in Busy(t') <==> q in Busy(t) + {p} {
    }
  }

  lemma BusyRemoved(t: Tracker, p: PeerId)
    ensures Busy(t.Removed(p)) == Busy(t) - {p}
  {
    var t' := t.Removed(p);
    forall q ensures q in Busy(t') <==> q in Busy(t) - {p} {
    }
  }

  lemma TryKeeps(t: Tracker, torrent: InfoHash, p: PeerId)
    requires Inv(t) && t.MayTry(torrent, p)
    ensures Inv(t.Try(torrent, p)) && Busy(t.Try(torrent, p)) == Busy(t) + {p} && p !in Busy(t)
    ensures t.Try(torrent, p).active == t.active
  {
    BusyTry(t, torrent, p);
    hide Busy;
  }

  /** Reporting a connection keeps the count right exactly when the peer was not idle. */
  lemma MarkedKeeps(t: Tracker, p: PeerId)
    requires Inv(t)
    ensures Busy(t.Marked(p)) == Busy(t) + {p}
    ensures Inv(t.Marked(p)) <==> p in Busy(t)
    ensures Counted(t.Marked(p)) <==> p in Busy(t)
  {
    BusyMarked(t, p);
    assert p in Busy(t) ==> p in t.peers;
    hide Busy;
  }

  lemma RemovedNamed(t: Tracker, p: PeerId)
    requires Named(t)
    ensures Named(t.Removed(p))
  {
    var t' := t.Removed(p);
    forall q | q in t'.peers && t'.IsCandidate(q) ensures t'.peers[q].peer == q {
      assert t.IsCandidate(q);
    }
  }

  /** Reporting the loss of a known peer keeps the count right exactly when the peer was not idle. */
  lemma RemovedKeeps(t: Tracker, p: PeerId)
    requires Inv(t) && p in t.peers
    ensures Busy(t.Removed(p)) == Busy(t) - {p}
    ensures Inv(t.Removed(p)) <==> p in Busy(t)
    ensures Counted(t.Removed(p)) <==> p in Busy(t)
  {
    BusyRemoved(t, p);
    hide Busy, Named;
    RemovedNamed(t, p);
  }

  lemma LearnedKeeps(t: Tracker, torrent: InfoHash, announced: seq<PeerId>)
    requires Inv(t)
    ensures Inv(t.Learned(torrent, announced)) && Busy(t.Learned(torrent, announced)) == Busy(t)
  {
    assert Busy(t.Learned(torrent, announced)) == Busy(t);
  }

  // ------------------------------------------------------------------ attempts

  /** What is seen from outside: a TRY_CONNECT for a peer, and the report that a peer was lost. */
  datatype Entry = Attempt(peer: PeerId) | Loss(peer: PeerId)

  /** The peers with an attempt since they were last lost. */
  function Pending(log: seq<Entry>): set<PeerId> {
    if log == [] then {}
    else
      match log[|log| - 1]
      case Attempt(p) => Pending(log[..|log| - 1]) + {p}
      case Loss(p) => Pending(log[..|log| - 1]) - {p}
  }

  predicate Sound(log: seq<Entry>) {
    log == [] || (Sound(log[..|log| - 1])
                  && (log[|log| - 1].Attempt? ==> log[|log| - 1].peer !in Pending(log[..|log| - 1])))
  }

  predicate LostBetween(log: seq<Entry>, i: nat, j: nat, p: PeerId) {
    exists k :: i < k < j < |log| && log[k] == Loss(p)
  }

  lemma {:induction false} PendingSince(log: seq<Entry>, i: nat, p: PeerId)
    requires i < |log| && log[i] == Attempt(p)
    ensures p in Pending(log) || exists k :: i < k < |log| && log[k] == Loss(p)
  {
    if i == |log| - 1 {
    } else {
      var front := log[..|log| - 1];
      PendingSince(front, i, p);
      if p !in Pending(front) {
        var k :| i < k < |front| && front[k] == Loss(p);
        assert log[k] == Loss(p);
      } else if p !in Pending(log) {
        assert log[|log| - 1] == Loss(p);
      }
    }
  }

  /** In a sound log two attempts for a peer have a loss of that peer between them. */
  lemma {:induction false} OneAttemptBetweenLosses(log: seq<Entry>, i: nat, j: nat, p: PeerId)
    requires Sound(log) && i < j < |log| && log[i] == log[j] == Attempt(p)
    ensures LostBetween(log, i, j, p)
  {
    var front := log[..|log| - 1];
    if j == |log| - 1 {
      PendingSince(front, i, p);
      var k :| i < k < |front| && front[k] == Loss(p);
      assert log[k] == Loss(p);
    } else {
      OneAttemptBetweenLosses(front, i, j, p);
      var k :| i < k < j < |front| && front[k] == Loss(p);
      assert log[k] == Loss(p);
    }
  }

  function Attempts(ps: seq<PeerId>): seq<Entry> {
    if ps == [] then [] else Attempts(ps[..|ps| - 1]) + [Attempt(ps[|ps| - 1])]
  }

  ghost function AllAttempts(rounds: seq<Round>): seq<Entry> {
    if rounds == [] then [] else AllAttempts(rounds[..|rounds| - 1]) + Attempts(rounds[|rounds| - 1].peers)
  }

  lemma PendingNext(log: seq<Entry>, e: Entry)
    ensures Pending(log + [e]) == if e.Attempt? then Pending(log) + {e.peer} else Pending(log) - {e.peer}
    ensures Sound(log + [e]) <==> Sound(log) && (e.Attempt? ==> e.peer !in Pending(log))
  {
    assert (log + [e])[..|log|] == log;
  }

  /** `t'` comes from `t` by attempts for the idle peers `ps`, after which the log is `log`. */
  predicate Attempted(t: Tracker, t': Tracker, ps: seq<PeerId>, log: seq<Entry>) {
    && Inv(t') && Busy(t) <= Busy(t') && t'.active == t.active
    && Sound(log) && Pending(log) <= Busy(t')
    && forall p <- ps :: p in Busy(t') && p !in Busy(t)
  }

  lemma OneMoreBusy(before: set<PeerId>, now: set<PeerId>, ps: seq<PeerId>, p: PeerId)
    requires before <= now && p !in now && forall q <- ps :: q in now && q !in before
    ensures before <= now + {p} && forall q <- ps + [p] :: q in now + {p} && q !in before
  {
  }

  lemma AttemptedNext(t: Tracker, t': Tracker, ps: seq<PeerId>, log: seq<Entry>, torrent: InfoHash, p: PeerId)
    requires Attempted(t, t', ps, log) && t'.MayTry(torrent, p)
    ensures Attempted(t, t'.Try(torrent, p), ps + [p], log + [Attempt(p)])
  {
    hide Inv, Sound, Pending, Busy;
    TryKeeps(t', torrent, p);
    PendingNext(log, Attempt(p));
    OneMoreBusy(Busy(t), Busy(t'), ps, p);
  }

  lemma AttemptedNone(t: Tracker, log: seq<Entry>)
    requires Inv(t) && Sound(log) && Pending(log) <= Busy(t)
    ensures Attempted(t, t, [], log + Attempts([]))
  {
    assert log + [] == log;
  }

  lemma TriedNext(t: Tracker, torrent: InfoHash, ps: seq<PeerId>)
    requires ps != [] && MayTryAll(t, torrent, ps)
    ensures var front, p := ps[..|ps| - 1], ps[|ps| - 1];
            && MayTryAll(t, torrent, front) && Tried(t, torrent, front).MayTry(torrent, p)
            && Tried(t, torrent, ps) == Tried(t, torrent, front).Try(torrent, p)
            && Attempts(ps) == Attempts(front) + [Attempt(p)] && front + [p] == ps
  {
  }

  /** The attempts of one torrent keep the invariant, and go to peers that were idle. */
  lemma {:induction false} TriedKeeps(t: Tracker, torrent: InfoHash, ps: seq<PeerId>, log: seq<Entry>)
    requires Inv(t) && MayTryAll(t, torrent, ps) && Sound(log) && Pending(log) <= Busy(t)
    ensures Attempted(t, Tried(t, torrent, ps), ps, log + Attempts(ps))
  {
    hide Inv, Sound, Pending, Busy, Attempted, Attempts, MayTryAll, Tracker.Try, Tracker.MayTry;
    if ps == [] {
      AttemptedNone(t, log);
    } else {
      TriedNext(t, torrent, ps);
      hide Tried;
      var front, p := ps[..|ps| - 1], ps[|ps| - 1];
      TriedKeeps(t, torrent, front, log);
      AttemptedNext(t, Tried(t, torrent, front), front, log + Attempts(front), torrent, p);
      Assoc(log, Attempts(front), [Attempt(p)]);
    }
  }

  lemma {:induction false} RoundsKeep(t: Tracker, rounds: seq<Round>, log: seq<Entry>)
    requires Inv(t) && RoundsOk(t, rounds) && Sound(log) && Pending(log) <= Busy(t)
    ensures var t' := AfterRounds(t, rounds);
            && Inv(t') && Busy(t) <= Busy(t') && t'.active == t.active
            && Sound(log + AllAttempts(rounds)) && Pending(log + AllAttempts(rounds)) <= Busy(t')
            && forall cmd <- AllCommands(t, rounds) :: cmd.TryConnect? ==> cmd.peer in Busy(t') - Busy(t)
  {
    if rounds == [] {
      assert log + [] == log;
    } else {
      var front, r := rounds[..|rounds| - 1], rounds[|rounds| - 1];
      RoundsKeep(t, front, log);
      hide Inv, MayTryAll, Sound, Pending, Busy, Stuck;
      TriedKeeps(AfterRounds(t, front), r.torrent, r.peers, log + AllAttempts(front));
      Assoc(log, AllAttempts(front), Attempts(r.peers));
    }
  }

  // ------------------------------------------------------------------ a wrong report is never repaired

  lemma TryDrift(t: Tracker, torrent: InfoHash, p: PeerId)
    requires t.MayTry(torrent, p)
    ensures var t' := t.Try(torrent, p); |Busy(t')| - t'.curr == |Busy(t)| - t.curr
  {
    BusyTry(t, torrent, p);
    hide Busy;
  }

  lemma {:induction false} TriedDrift(t: Tracker, torrent: InfoHash, ps: seq<PeerId>)
    requires MayTryAll(t, torrent, ps)
    ensures var t' := Tried(t, torrent, ps); |Busy(t')| - t'.curr == |Busy(t)| - t.curr
  {
    if ps == [] {
    } else {
      var front, p := ps[..|ps| - 1], ps[|ps| - 1];
      TriedDrift(t, torrent, front);
      TryDrift(Tried(t, torrent, front), torrent, p);
    }
  }

  lemma {:induction false} RoundsDrift(t: Tracker, rounds: seq<Round>)
    requires RoundsOk(t, rounds)
    ensures var t' := AfterRounds(t, rounds); |Busy(t')| - t'.curr == |Busy(t)| - t.curr
  {
    if rounds == [] {
    } else {
      RoundsDrift(t, rounds[..|rounds| - 1]);
      var r := rounds[|rounds| - 1];
      hide Busy, Stuck;
      TriedDrift(AfterRounds(t, rounds[..|rounds| - 1]), r.torrent, r.peers);
    }
  }

  /** The whole of `onPeerConnect`, and of `onPeerDisconnect` for a known peer, keeps the invariant
      exactly when the peer was not idle. */
  lemma ReportKeepsInv(t: Tracker, p: PeerId, rounds: seq<Round>)
    requires Inv(t)
    ensures RoundsOk(t.Marked(p), rounds) ==> (Inv(AfterRounds(t.Marked(p), rounds)) <==> p in Busy(t))
    ensures p in t.peers && RoundsOk(t.Removed(p), rounds) ==>
              (Inv(AfterRounds(t.Removed(p), rounds)) <==> p in Busy(t))
  {
    MarkedKeeps(t, p);
    hide AfterRounds, RoundsOk, Busy, Capped, Named, Tracker.Marked, Tracker.Removed;
    if RoundsOk(t.Marked(p), rounds) {
      AfterReport(t.Marked(p), rounds);
    }
    if p in t.peers && RoundsOk(t.Removed(p), rounds) {
      RemovedKeeps(t, p);
      AfterReport(t.Removed(p), rounds);
    }
  }

  lemma AfterReport(t: Tracker, rounds: seq<Round>)
    requires RoundsOk(t, rounds)
    ensures Inv(t) ==> Inv(AfterRounds(t, rounds))
    ensures Counted(AfterRounds(t, rounds)) <==> Counted(t)
  {
    RoundsDrift(t, rounds);
    if Inv(t) {
      RoundsKeep(t, rounds, []);
    }
  }

  // ------------------------------------------------------------------ slots of a torrent that are never freed

  /** Only peers that are not idle take up the 20 slots of a torrent. */
  predicate ActiveBusy(t: Tracker) {
    forall torrent <- t.infos :: t.infos[torrent].activePeers <= Busy(t)
  }

  /** The peer is active only for the torrent it was announced for. */
  predicate ActiveAtHome(t: Tracker, p: PeerId)
    requires p in t.peers
  {
    forall torrent <- t.infos :: p in t.infos[torrent].activePeers ==> torrent == t.peers[p].torrent
  }

  /** Losing a peer frees its slot exactly when no other torrent than its own has it as active. */
  lemma RemovedFreesSlot(t: Tracker, p: PeerId)
    requires ActiveBusy(t) && p in t.peers
    ensures ActiveBusy(t.Removed(p)) <==> ActiveAtHome(t, p)
  {
    BusyRemoved(t, p);
    var t' := t.Removed(p);
    hide Busy;
    if ActiveAtHome(t, p) {
      forall torrent | torrent in t'.infos ensures t'.infos[torrent].activePeers <= Busy(t') {
        assert torrent in t.infos ==> t'.infos[torrent].activePeers <= t.infos[torrent].activePeers;
      }
    } else {
      var torrent :| torrent in t.infos && p in t.infos[torrent].activePeers && torrent != t.peers[p].torrent;
      assert p in t'.infos[torrent].activePeers && p !in Busy(t');
    }
  }

  lemma TryActiveBusy(t: Tracker, torrent: InfoHash, p: PeerId)
    requires t.MayTry(torrent, p) && Named(t)
    ensures Named(t.Try(torrent, p)) && (ActiveBusy(t) ==> ActiveBusy(t.Try(torrent, p)))
  {
    BusyTry(t, torrent, p);
    hide Busy;
  }

  /** An unknown peer takes up a slot. */
  predicate Leaked(t: Tracker, torrent: InfoHash, p: PeerId) {
    p !in t.peers && torrent in t.infos && p in t.infos[torrent].activePeers
  }

  lemma {:induction false} TriedActiveBusy(t: Tracker, torrent: InfoHash, ps: seq<PeerId>)
    requires MayTryAll(t, torrent, ps) && Named(t)
    ensures Named(Tried(t, torrent, ps)) && (ActiveBusy(t) ==> ActiveBusy(Tried(t, torrent, ps)))
    ensures forall k, p :: Leaked(t, k, p) ==> Leaked(Tried(t, torrent, ps), k, p)
  {
    if ps == [] {
    } else {
      TriedNext(t, torrent, ps);
      var front, p := ps[..|ps| - 1], ps[|ps| - 1];
      TriedActiveBusy(t, torrent, front);
      hide Named, ActiveBusy, Tried;
      TryActiveBusy(Tried(t, torrent, front), torrent, p);
    }
  }

  lemma {:induction false} RoundsActiveBusy(t: Tracker, rounds: seq<Round>)
    requires RoundsOk(t, rounds) && Named(t)
    ensures Named(AfterRounds(t, rounds)) && (ActiveBusy(t) ==> ActiveBusy(AfterRounds(t, rounds)))
    ensures forall k, p :: Leaked(t, k, p) ==> Leaked(AfterRounds(t, rounds), k, p)
  {
    if rounds == [] {
    } else {
      var front, r := rounds[..|rounds| - 1], rounds[|rounds| - 1];
      RoundsActiveBusy(t, front);
      hide Named, ActiveBusy, Leaked, Stuck, Tried;
      TriedActiveBusy(AfterRounds(t, front), r.torrent, r.peers);
    }
  }

  /** The same for the whole of `onPeerDisconnect`: the commands that follow do not free the slot. */
  lemma DisconnectFreesSlot(t: Tracker, p: PeerId, rounds: seq<Round>)
    requires ActiveBusy(t) && Named(t) && p in t.peers && RoundsOk(t.Removed(p), rounds)
    ensures ActiveBusy(AfterRounds(t.Removed(p), rounds)) <==> ActiveAtHome(t, p)
  {
    RemovedFreesSlot(t, p);
    RemovedNamed(t, p);
    var t' := AfterRounds(t.Removed(p), rounds);
    RoundsActiveBusy(t.Removed(p), rounds);
    if !ActiveAtHome(t, p) {
      var torrent :| torrent in t.infos && p in t.infos[torrent].activePeers && torrent != t.peers[p].torrent;
      assert Leaked(t.Removed(p), torrent, p);
      assert Leaked(t', torrent, p);
      assert p !in Busy(t');
    }
  }
}
