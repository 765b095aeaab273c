/** `BitTorrentManager` and its `connections`: which peers have one, over whole runs. */
module Connections {
  import opened Common
  import opened Slots
  import opened PeerTracker

  /** The connections after `handlePeerCommands`, when `connect` succeeds for the peers in `reachable`. */
  function Emplaced(connections: map<PeerId, InfoHash>, cmds: seq<PeerCommand>, reachable: set<PeerId>)
    : map<PeerId, InfoHash>
  {
    if cmds == [] then connections
    else
      var before, cmd := Emplaced(connections, cmds[..|cmds| - 1], reachable), cmds[|cmds| - 1];
      if cmd.TryConnect? && cmd.peer in reachable && cmd.peer !in before then before[cmd.peer := cmd.torrent]
      else before
  }

  function Requests(cmds: seq<PeerCommand>): seq<InfoHash> {
    if cmds == [] then []
    else
      var cmd := cmds[|cmds| - 1];
      Requests(cmds[..|cmds| - 1]) + if cmd.DoAnnounce? then [cmd.torrent] else []
  }

  function Disconnects(cmds: seq<PeerCommand>): seq<PeerId> {
    if cmds == [] then []
    else
      var cmd := cmds[|cmds| - 1];
      Disconnects(cmds[..|cmds| - 1]) + if cmd.Disconnect? then [cmd.peer] else []
  }

  class BitTorrentManager {
    var connections: map<PeerId, InfoHash>
    var announceQueue: seq<InfoHash>
    var disconnected: seq<PeerId>
    const peerTracker: PeerTracker

    constructor ()
      ensures connections == map[] && announceQueue == [] && disconnected == []
      ensures fresh(peerTracker) && peerTracker.Valid() && peerTracker.View() == Tracker(map[], map[], {}, 0)
    {
      connections, announceQueue, disconnected := map[], [], [];
      peerTracker := new PeerTracker();
    }

    method HandlePeerCommands(cmds: seq<PeerCommand>, reachable: set<PeerId>)
      modifies this
      ensures connections == Emplaced(old(connections), cmds, reachable)
      ensures announceQueue == old(announceQueue) + Requests(cmds)
      ensures disconnected == old(disconnected) + Disconnects(cmds)
    {
      var i := 0;
      assert cmds[..0] == [];
      while i < |cmds|
        invariant 0 <= i <= |cmds|
        invariant connections == Emplaced(old(connections), cmds[..i], reachable)
        invariant announceQueue == old(announceQueue) + Requests(cmds[..i])
        invariant disconnected == old(disconnected) + Disconnects(cmds[..i])
      {
        assert cmds[..i + 1][..i] == cmds[..i];
        match cmds[i] {
          case TryConnect(peer, torrent) =>
            if peer in reachable && peer !in connections {
              connections := connections[peer := torrent];
            }
          case DoAnnounce(torrent) => announceQueue := announceQueue + [torrent];
          case Disconnect(peer, _) => disconnected := disconnected + [peer];
          case Nothing =>
        }
        i := i + 1;
      }
      assert cmds[..i] == cmds;
    }

    method ProcessAnnounce(infoHash: InfoHash, peers: seq<PeerId>, reachable: set<PeerId>)
      returns (ghost rounds: seq<Round>, cmds: seq<PeerCommand>)
      requires peerTracker.Valid()
      modifies this, peerTracker
      ensures peerTracker.Valid()
      ensures Commanded(old(peerTracker.View()).Learned(infoHash, peers), true, rounds, peerTracker.View(), cmds)
      ensures connections == Emplaced(old(connections), cmds, reachable)
      ensures announceQueue == old(announceQueue) + Requests(cmds)
      ensures disconnected == old(disconnected) + Disconnects(cmds)
    {
      cmds, rounds := peerTracker.OnAnnounce(infoHash, peers);
      HandlePeerCommands(cmds, reachable);
    }

    method ProcessDisconnected(peer: PeerId, reachable: set<PeerId>)
      returns (ghost rounds: seq<Round>, cmds: seq<PeerCommand>)
      requires peerTracker.Valid()
      modifies this, peerTracker
      ensures peerTracker.Valid()
      ensures LostBy(old(peerTracker.View()), peer, rounds, peerTracker.View(), cmds)
      ensures connections == Emplaced(old(connections) - {peer}, cmds, reachable)
      ensures announceQueue == old(announceQueue) + Requests(cmds)
      ensures disconnected == old(disconnected) + Disconnects(cmds)
    {
      connections := connections - {peer};
      cmds, rounds := peerTracker.OnPeerDisconnect(peer);
      HandlePeerCommands(cmds, reachable);
    }

    method ProcessEstablished(peer: PeerId, reachable: set<PeerId>)
      returns (ghost rounds: seq<Round>, cmds: seq<PeerCommand>)
      requires peerTracker.Valid()
      modifies this, peerTracker
      ensures peerTracker.Valid()
      ensures peer !in old(connections) ==>
                && rounds == [] && cmds == [] && connections == old(connections)
                && peerTracker.View() == old(peerTracker.View())
      ensures peer in old(connections) ==>
                && ConnectedBy(old(peerTracker.View()), peer, rounds, peerTracker.View(), cmds)
                && connections == Emplaced(old(connections), cmds, reachable)
      ensures announceQueue == old(announceQueue) + Requests(cmds)
      ensures disconnected == old(disconnected) + Disconnects(cmds)
    {
      cmds, rounds := [], [];
      if peer in connections {
        cmds, rounds := peerTracker.OnPeerConnect(peer);
        HandlePeerCommands(cmds, reachable);
      }
    }

    /** The part of `process(RemoveTorrent)` that concerns connections. */
    method ProcessRemoveTorrent(infoHash: InfoHash) returns (ghost cmds: seq<PeerCommand>)
      requires peerTracker.Valid()
      modifies this, peerTracker
      ensures peerTracker.Valid() && peerTracker.View() == old(peerTracker.View()).Deactivated(infoHash)
      ensures connections == Without(old(connections), infoHash)
      ensures |cmds| == |old(peerTracker.View()).Info(infoHash).activePeers|
      ensures forall cmd :: cmd in cmds <==>
                cmd.Disconnect? && cmd.torrent == infoHash
                && cmd.peer in old(peerTracker.View()).Info(infoHash).activePeers
      ensures announceQueue == old(announceQueue) + Requests(cmds)
      ensures disconnected == old(disconnected) + Disconnects(cmds)
    {
      var commands := peerTracker.DeactivateTorrent(infoHash);
      cmds := commands;
      OnlyDisconnects(connections, cmds);
      HandlePeerCommands(commands, {});
      var rest := connections.Keys;
      while rest != {}
        invariant rest <= connections.Keys <= old(connections).Keys
        invariant forall p <- old(connections) ::
                    p in connections <==> p in rest || old(connections)[p] != infoHash
        invariant forall p <- connections :: connections[p] == old(connections)[p]
        modifies this`connections
        decreases rest
      {
        var p :| p in rest;
        rest := rest - {p};
        if connections[p] == infoHash {
          connections := connections - {p};
        }
      }
    }
  }

  function Without(connections: map<PeerId, InfoHash>, torrent: InfoHash): map<PeerId, InfoHash> {
    map p | p in connections && connections[p] != torrent :: connections[p]
  }

  lemma {:induction false} OnlyDisconnects(connections: map<PeerId, InfoHash>, cmds: seq<PeerCommand>)
    requires forall cmd <- cmds :: cmd.Disconnect?
    ensures Emplaced(connections, cmds, {}) == connections
  {
    if cmds == [] {
    } else {
      OnlyDisconnects(connections, cmds[..|cmds| - 1]);
    }
  }

  // ------------------------------------------------------------------ runs

  ghost predicate LostBy(t: Tracker, p: PeerId, rounds: seq<Round>, t': Tracker, cmds: seq<PeerCommand>) {
    if p in t.peers then Commanded(t.Removed(p), t.peers[p].torrent in t.active, rounds, t', cmds)
    else rounds == [] && t' == t && cmds == []
  }

  ghost predicate ConnectedBy(t: Tracker, p: PeerId, rounds: seq<Round>, t': Tracker, cmds: seq<PeerCommand>) {
    Commanded(t.Marked(p), t.PeerOf(p).torrent in t.active, rounds, t', cmds)
  }

  /** What the manager is told, or does, about connections. */
  datatype Event =
    | Announced(torrent: InfoHash, peers: seq<PeerId>)
    | Established(peer: PeerId)
    | Lost(peer: PeerId)
    | StartTorrent(torrent: InfoHash)
    | StopTorrent(torrent: InfoHash)
    | RemoveTorrent(torrent: InfoHash)

  datatype Manager = Manager(tracker: Tracker, connections: map<PeerId, InfoHash>, log: seq<Entry>)

  const START := Manager(Tracker(map[], map[], {}, 0), map[], [])

  /** One event, with the choices that it leaves open. */
  ghost predicate Handles(m: Manager, e: Event, rounds: seq<Round>, cmds: seq<PeerCommand>, reachable: set<PeerId>,
                          m': Manager)
  {
    match e
    case Announced(torrent, peers) =>
      && Commanded(m.tracker.Learned(torrent, peers), true, rounds, m'.tracker, cmds)
      && m'.connections == Emplaced(m.connections, cmds, reachable) && m'.log == m.log + AllAttempts(rounds)
    case Established(p) =>
      if p in m.connections then
        && ConnectedBy(m.tracker, p, rounds, m'.tracker, cmds)
        && m'.connections == Emplaced(m.connections, cmds, reachable) && m'.log == m.log + AllAttempts(rounds)
      else m' == m
    case Lost(p) =>
      && LostBy(m.tracker, p, rounds, m'.tracker, cmds)
      && m'.connections == Emplaced(m.connections - {p}, cmds, reachable)
      && m'.log == m.log + [Loss(p)] + AllAttempts(rounds)
    case StartTorrent(torrent) => m' == m.(tracker := m.tracker.Activated(torrent))
    case StopTorrent(torrent) => m' == m.(tracker := m.tracker.Deactivated(torrent))
    case RemoveTorrent(torrent) =>
      m' == m.(tracker := m.tracker.Deactivated(torrent), connections := Without(m.connections, torrent))
  }

  ghost predicate Steps(m: Manager, e: Event, m': Manager) {
    exists rounds, cmds, reachable :: Handles(m, e, rounds, cmds, reachable, m')
  }

  /** The loss of a peer is not reported while the tracker holds the peer to be idle. */
  predicate Proper(m: Manager, e: Event) {
    e.Lost? ==> e.peer !in m.tracker.peers || e.peer in Busy(m.tracker)
  }

  ghost predicate Run(events: seq<Event>, m: Manager) {
    if events == [] then m == START
    else
      var front, last := events[..|events| - 1], events[|events| - 1];
      exists m0 :: Run(front, m0) && Proper(m0, last) && Steps(m0, last, m)
  }

  predicate ManagerInv(m: Manager) {
    && Inv(m.tracker) && m.connections.Keys <= Busy(m.tracker)
    && Sound(m.log) && Pending(m.log) <= Busy(m.tracker)
  }

  lemma {:induction false} EmplacedKeys(connections: map<PeerId, InfoHash>, cmds: seq<PeerCommand>,
                                        reachable: set<PeerId>, busy: set<PeerId>)
    requires connections.Keys <= busy && forall cmd <- cmds :: cmd.TryConnect? ==> cmd.peer in busy
    ensures Emplaced(connections, cmds, reachable).Keys <= busy
  {
    if cmds == [] {
    } else {
      EmplacedKeys(connections, cmds[..|cmds| - 1], reachable, busy);
    }
  }

  /** After the tracker has changed to `t`, its commands keep the invariant of the manager. */
  lemma CommandsKeep(t: Tracker, torrentActive: bool, rounds: seq<Round>, t': Tracker, cmds: seq<PeerCommand>,
                     connections: map<PeerId, InfoHash>, log: seq<Entry>, reachable: set<PeerId>)
    requires ManagerInv(Manager(t, connections, log)) && Commanded(t, torrentActive, rounds, t', cmds)
    ensures ManagerInv(Manager(t', Emplaced(connections, cmds, reachable), log + AllAttempts(rounds)))
  {
    assert rounds == [] ==> RoundsOk(t, rounds) && t' == AfterRounds(t, rounds) && cmds == AllCommands(t, rounds);
    hide Inv, Sound, Pending, Busy, RoundsOk, AfterRounds, AllCommands, AllAttempts;
    RoundsKeep(t, rounds, log);
    EmplacedKeys(connections, cmds, reachable, Busy(t'));
  }

  lemma StepKeeps(m: Manager, e: Event, m': Manager)
    requires ManagerInv(m) && Proper(m, e) && Steps(m, e, m')
    ensures ManagerInv(m')
  {
    var rounds, cmds, reachable :| Handles(m, e, rounds, cmds, reachable, m');
    match e
    case Announced(torrent, peers) =>
      LearnedKeeps(m.tracker, torrent, peers);
      hide Inv, Busy, Commanded, Emplaced;
      CommandsKeep(m.tracker.Learned(torrent, peers), true, rounds, m'.tracker, cmds, m.connections, m.log, reachable);
    case Established(p) =>
      MarkedKeeps(m.tracker, p);
      hide Inv, Busy, Commanded, Emplaced;
      if p in m.connections {
        CommandsKeep(m.tracker.Marked(p), m.tracker.PeerOf(p).torrent in m.tracker.active, rounds, m'.tracker, cmds,
                     m.connections, m.log, reachable);
      }
    case Lost(p) =>
      LostKeeps(m, p, rounds, cmds, reachable, m');
    case StartTorrent(torrent) =>
      assert Busy(m'.tracker) == Busy(m.tracker);
    case StopTorrent(torrent) =>
      assert Busy(m'.tracker) == Busy(m.tracker);
    case RemoveTorrent(torrent) =>
      assert Busy(m'.tracker) == Busy(m.tracker);
  }

  lemma LostKeeps(m: Manager, p: PeerId, rounds: seq<Round>, cmds: seq<PeerCommand>, reachable: set<PeerId>,
                  m': Manager)
    requires ManagerInv(m) && Proper(m, Lost(p)) && Handles(m, Lost(p), rounds, cmds, reachable, m')
    ensures ManagerInv(m')
  {
    var t := m.tracker;
    PendingNext(m.log, Loss(p));
    if p in t.peers {
      RemovedKeeps(t, p);
      hide Inv, Busy, Commanded, Emplaced, Sound, Pending, AllAttempts, Tracker.Removed;
      CommandsKeep(t.Removed(p), t.peers[p].torrent in t.active, rounds, m'.tracker, cmds,
                   m.connections - {p}, m.log + [Loss(p)], reachable);
    } else {
      assert p !in Busy(t);
      hide Inv, Busy, Sound, Pending, Commanded;
      UnknownLost(m, p, reachable);
    }
  }

  lemma UnknownLost(m: Manager, p: PeerId, reachable: set<PeerId>)
    requires p !in m.connections
    ensures Emplaced(m.connections - {p}, [], reachable) == m.connections
    ensures m.log + [Loss(p)] + AllAttempts([]) == m.log + [Loss(p)]
  {
    assert m.connections - {p} == m.connections;
    assert m.log + [Loss(p)] + [] == m.log + [Loss(p)];
  }

  /** In every run, as long as no loss of an idle peer is reported: the counter is the number of peers
      that are not idle and at most 200, no torrent has more than 20 active peers, only peers that are
      not idle have a connection, and a peer is tried at most once between two losses. */
  lemma {:induction false} SlotsOverRuns(events: seq<Event>, m: Manager)
    requires Run(events, m)
    ensures ManagerInv(m)
    ensures m.tracker.curr == |Busy(m.tracker)| <= MAX_CONNECTED_PEERS
    ensures forall torrent <- m.tracker.infos :: |m.tracker.infos[torrent].activePeers| <= MAX_PEERS_PER_TORRENT
    ensures forall p <- m.connections :: p in m.tracker.peers && m.tracker.peers[p].connected != NOT_CONNECTED
    ensures forall i, j, p :: 0 <= i < j < |m.log| && m.log[i] == m.log[j] == Attempt(p) ==> LostBetween(m.log, i, j, p)
  {
    if events == [] {
      assert Busy(START.tracker) == {};
    } else {
      var front, last := events[..|events| - 1], events[|events| - 1];
      var m0 :| Run(front, m0) && Proper(m0, last) && Steps(m0, last, m);
      SlotsOverRuns(front, m0);
      StepKeeps(m0, last, m);
    }
    forall i, j, p | 0 <= i < j < |m.log| && m.log[i] == m.log[j] == Attempt(p) ensures LostBetween(m.log, i, j, p) {
      OneAttemptBetweenLosses(m.log, i, j, p);
    }
  }

  // ------------------------------------------------------------------ one torrent

  /** Every known peer belongs to one torrent, whose active peers are the peers that are not idle. */
  predicate OneTorrent(t: Tracker, torrent: InfoHash) {
    && t.infos.Keys <= {torrent} && Named(t)
    && (forall p <- t.peers :: t.peers[p].torrent == torrent)
    && t.Info(torrent).activePeers == Busy(t)
  }

  predicate Concerns(e: Event, torrent: InfoHash) {
    match e
    case Announced(ih, _) => ih == torrent
    case StartTorrent(ih) => ih == torrent
    case StopTorrent(ih) => ih == torrent
    case RemoveTorrent(ih) => ih == torrent
    case Established(_) => true
    case Lost(_) => true
  }

  lemma OneTry(t: Tracker, torrent: InfoHash, p: PeerId)
    requires OneTorrent(t, torrent) && t.MayTry(torrent, p)
    ensures OneTorrent(t.Try(torrent, p), torrent)
  {
    BusyTry(t, torrent, p);
    hide Busy;
  }

  lemma {:induction false} OneTried(t: Tracker, torrent: InfoHash, ps: seq<PeerId>)
    requires OneTorrent(t, torrent) && MayTryAll(t, torrent, ps)
    ensures OneTorrent(Tried(t, torrent, ps), torrent)
  {
    hide OneTorrent, Tracker.Try, Tracker.MayTry;
    if ps == [] {
    } else {
      TriedNext(t, torrent, ps);
      var front, p := ps[..|ps| - 1], ps[|ps| - 1];
      OneTried(t, torrent, front);
      OneTry(Tried(t, torrent, front), torrent, p);
    }
  }

  lemma {:induction false} OneRounds(t: Tracker, torrent: InfoHash, rounds: seq<Round>)
    requires OneTorrent(t, torrent) && RoundsOk(t, rounds) && forall r <- rounds :: r.torrent == torrent
    ensures OneTorrent(AfterRounds(t, rounds), torrent)
  {
    hide OneTorrent, Stuck;
    if rounds == [] {
    } else {
      var front, r := rounds[..|rounds| - 1], rounds[|rounds| - 1];
      OneRounds(t, torrent, front);
      assert r in rounds;
      OneTried(AfterRounds(t, front), torrent, r.peers);
    }
  }

  lemma OneCommanded(t: Tracker, torrent: InfoHash, torrentActive: bool, rounds: seq<Round>, t': Tracker,
                     cmds: seq<PeerCommand>)
    requires OneTorrent(t, torrent) && Commanded(t, torrentActive, rounds, t', cmds)
    ensures OneTorrent(t', torrent)
  {
    if torrentActive {
      forall r | r in rounds ensures r.torrent == torrent {
        var i :| 0 <= i < |rounds| && rounds[i] == r;
        assert rounds[i].torrent in t.infos;
      }
      OneRounds(t, torrent, rounds);
    }
  }

  lemma OneReport(t: Tracker, torrent: InfoHash, p: PeerId)
    requires OneTorrent(t, torrent)
    ensures p in Busy(t) ==> OneTorrent(t.Marked(p), torrent)
    ensures p in t.peers ==> OneTorrent(t.Removed(p), torrent)
  {
    BusyMarked(t, p);
    BusyRemoved(t, p);
    assert p in Busy(t) ==> p in t.peers;
    hide Busy;
  }

  lemma OneLearned(t: Tracker, torrent: InfoHash, peers: seq<PeerId>)
    requires OneTorrent(t, torrent)
    ensures OneTorrent(t.Learned(torrent, peers), torrent)
    ensures OneTorrent(t.Activated(torrent), torrent) && OneTorrent(t.Deactivated(torrent), torrent)
  {
    assert Busy(t.Learned(torrent, peers)) == Busy(t);
    assert Busy(t.Activated(torrent)) == Busy(t) == Busy(t.Deactivated(torrent));
    hide Busy;
  }

  lemma OneStep(m: Manager, e: Event, m': Manager, torrent: InfoHash)
    requires ManagerInv(m) && Concerns(e, torrent) && Steps(m, e, m') && OneTorrent(m.tracker, torrent)
    ensures OneTorrent(m'.tracker, torrent)
  {
    var rounds, cmds, reachable :| Handles(m, e, rounds, cmds, reachable, m');
    var t := m.tracker;
    hide OneTorrent, Inv, Sound, Pending, Busy, Commanded, Emplaced;
    match e
    case Announced(_, peers) =>
      OneLearned(t, torrent, peers);
      OneCommanded(t.Learned(torrent, peers), torrent, true, rounds, m'.tracker, cmds);
    case Established(p) =>
      if p in m.connections {
        OneReport(t, torrent, p);
        OneCommanded(t.Marked(p), torrent, t.PeerOf(p).torrent in t.active, rounds, m'.tracker, cmds);
      }
    case Lost(p) =>
      if p in t.peers {
        OneReport(t, torrent, p);
        OneCommanded(t.Removed(p), torrent, t.peers[p].torrent in t.active, rounds, m'.tracker, cmds);
      }
    case StartTorrent(_) =>
      OneLearned(t, torrent, []);
    case StopTorrent(_) =>
      OneLearned(t, torrent, []);
    case RemoveTorrent(_) =>
      OneLearned(t, torrent, []);
  }

  /** With a single torrent its active peers are exactly the peers that are not idle, so that there are
      never more than 20 of them. */
  lemma {:induction false} OneTorrentOverRuns(events: seq<Event>, m: Manager, torrent: InfoHash)
    requires Run(events, m) && forall e <- events :: Concerns(e, torrent)
    ensures m.tracker.Info(torrent).activePeers == Busy(m.tracker) && |Busy(m.tracker)| <= MAX_PEERS_PER_TORRENT
    ensures OneTorrent(m.tracker, torrent)
  {
    SlotsOverRuns(events, m);
    if events == [] {
      assert Busy(START.tracker) == {};
    } else {
      var front, last := events[..|events| - 1], events[|events| - 1];
      var m0 :| Run(front, m0) && Proper(m0, last) && Steps(m0, last, m);
      assert forall e <- front :: e in events;
      assert last in events;
      hide Steps, Concerns, Proper;
      OneTorrentOverRuns(front, m0, torrent);
      SlotsOverRuns(front, m0);
      OneStep(m0, last, m, torrent);
    }
  }

  // ------------------------------------------------------------------ two torrents

  lemma OneMoreEvent(events: seq<Event>, m: Manager, e: Event, m': Manager)
    requires Run(events, m) && Proper(m, e) && Steps(m, e, m')
    ensures Run(events + [e], m')
  {
    assert (events + [e])[..|events + [e]| - 1] == events;
    hide Steps, Proper;
    assert Run(events, m) && Proper(m, e) && Steps(m, e, m');
  }

  lemma TwoRounds(t: Tracker, r: Round, r': Round)
    requires RoundOk(t, r) && RoundOk(Tried(t, r.torrent, r.peers), r')
    ensures RoundsOk(t, [r, r'])
    ensures AfterRounds(t, [r, r']) == Tried(Tried(t, r.torrent, r.peers), r'.torrent, r'.peers)
  {
    assert RoundsOk(t, []) && AfterRounds(t, []) == t;
    assert [] + [r] == [r] && [r] + [r'] == [r, r'];
    hide RoundOk;
    RoundsMore(t, [], r);
    RoundsMore(t, [r], r');
  }

  lemma ServesBoth(t: Tracker, a: InfoHash, b: InfoHash, ps: seq<PeerId>, ps': seq<PeerId>)
    requires a != b && t.infos.Keys == {a, b} && RoundsOk(t, [Round(b, ps), Round(a, ps')])
    ensures Serves(t, [Round(b, ps), Round(a, ps')])
  {
    hide RoundsOk;
    var rounds := [Round(b, ps), Round(a, ps')];
    assert rounds[0].torrent == b && rounds[1].torrent == a;
  }

  lemma NothingToTry(t: Tracker, torrent: InfoHash)
    requires NoCandidate(t)
    ensures RoundOk(t, Round(torrent, [])) && Tried(t, torrent, []) == t
  {
  }

  /** A slot is lost in this run with two active torrents: the peer announced for one is tried for the other,
      and when the connection is lost no peer is busy, but the other torrent still counts one as active. */
  lemma LeakedSlot(a: InfoHash, b: InfoHash, p: PeerId) returns (m: Manager)
    requires a != b
    ensures Run([StartTorrent(a), StartTorrent(b), Announced(a, [p]), Lost(p)], m)
    ensures Leaked(m.tracker, b, p) && Busy(m.tracker) == {} && !ActiveBusy(m.tracker)
  {
    hide Run, Steps, Proper, AtWrongSlot, Leaked, Busy, ActiveBusy;
    var started := BothStarted(a, b);
    var start := [StartTorrent(a), StartTorrent(b)];
    var wrong := WrongSlot(a, b, p, started);
    AnyProper(started, Announced(a, [p]));
    OneMoreEvent(start, started, Announced(a, [p]), wrong);
    m := LostFromWrongSlot(a, b, p, wrong);
    OneMoreEvent(start + [Announced(a, [p])], wrong, Lost(p), m);
    assert start + [Announced(a, [p])] + [Lost(p)] == [StartTorrent(a), StartTorrent(b), Announced(a, [p]), Lost(p)];
  }

  lemma AnyProper(m: Manager, e: Event)
    requires !e.Lost?
    ensures Proper(m, e)
  {
  }

  lemma Started(m: Manager, torrent: InfoHash)
    ensures Steps(m, StartTorrent(torrent), m.(tracker := m.tracker.Activated(torrent)))
  {
    assert Handles(m, StartTorrent(torrent), [], [], {}, m.(tracker := m.tracker.Activated(torrent)));
  }

  lemma BothStarted(a: InfoHash, b: InfoHash) returns (m: Manager)
    requires a != b
    ensures Run([StartTorrent(a), StartTorrent(b)], m)
    ensures m.tracker == Tracker(map[], map[a := NEW_INFO, b := NEW_INFO], {a, b}, 0)
  {
    assert Run([], START);
    hide Run, Steps, Proper;
    var m1 := START.(tracker := START.tracker.Activated(a));
    Started(START, a);
    AnyProper(START, StartTorrent(a));
    OneMoreEvent([], START, StartTorrent(a), m1);
    assert [] + [StartTorrent(a)] == [StartTorrent(a)];
    m := m1.(tracker := m1.tracker.Activated(b));
    Started(m1, b);
    AnyProper(m1, StartTorrent(b));
    OneMoreEvent([StartTorrent(a)], m1, StartTorrent(b), m);
    assert [StartTorrent(a)] + [StartTorrent(b)] == [StartTorrent(a), StartTorrent(b)];
  }

  /** Both torrents are active, and the peer of `a` is active for `b`. */
  predicate AtWrongSlot(a: InfoHash, b: InfoHash, p: PeerId, t: Tracker) {
    && t.peers == map[p := Peer(CONNECTING, p, a, false)] && t.active == {a, b} && t.curr == 1
    && t.infos == map[a := NEW_INFO, b := PeersInfo({}, {p}, 0)]
  }

  lemma WrongSlot(a: InfoHash, b: InfoHash, p: PeerId, m: Manager) returns (m': Manager)
    requires a != b && m.tracker == Tracker(map[], map[a := NEW_INFO, b := NEW_INFO], {a, b}, 0)
    ensures Steps(m, Announced(a, [p]), m') && AtWrongSlot(a, b, p, m'.tracker)
  {
    var t := m.tracker.Learned(a, [p]);
    var t' := TriedForOther(a, b, p, t);
    hide Tracker.Learned, Tracker.Try, Named;
    NothingToTry(t', a);
    TwoRounds(t, Round(b, [p]), Round(a, []));
    ServesBoth(t, a, b, [p], []);
    var rounds := [Round(b, [p]), Round(a, [])];
    var cmds := AllCommands(t, rounds);
    hide Serves, RoundsOk, AfterRounds, AllCommands, AtWrongSlot, Emplaced, AllAttempts;
    m' := Manager(t', Emplaced(m.connections, cmds, {p}), m.log + AllAttempts(rounds));
    assert Handles(m, Announced(a, [p]), rounds, cmds, {p}, m');
  }

  lemma TriedForOther(a: InfoHash, b: InfoHash, p: PeerId, t: Tracker) returns (t': Tracker)
    requires a != b && t.infos == map[a := NEW_INFO, b := NEW_INFO] && t.active == {a, b} && t.curr == 0
    requires t.peers == map[p := Peer(NOT_CONNECTED, p, a, false)]
    ensures RoundOk(t, Round(b, [p])) && t' == Tried(t, b, [p]) && AtWrongSlot(a, b, p, t') && NoCandidate(t')
  {
    assert MayTryAll(t, b, []) && Tried(t, b, []) == t && t.MayTry(b, p);
    TriedMore(t, b, [], p);
    assert [] + [p] == [p];
    t' := t.Try(b, p);
    assert NoCandidate(t');
    LoopEnds(t', b);
  }

  lemma LostFromWrongSlot(a: InfoHash, b: InfoHash, p: PeerId, m: Manager) returns (m': Manager)
    requires a != b && AtWrongSlot(a, b, p, m.tracker)
    ensures Proper(m, Lost(p)) && Steps(m, Lost(p), m')
    ensures Leaked(m'.tracker, b, p) && Busy(m'.tracker) == {} && !ActiveBusy(m'.tracker)
  {
    var t := m.tracker.Removed(p);
    assert t.peers == map[] && t.infos.Keys == {a, b} && t.infos[b].activePeers == {p};
    assert p in Busy(m.tracker) && Busy(t) == {};
    NothingToTry(t, b);
    NothingToTry(t, a);
    TwoRounds(t, Round(b, []), Round(a, []));
    ServesBoth(t, a, b, [], []);
    var rounds := [Round(b, []), Round(a, [])];
    var cmds := AllCommands(t, rounds);
    hide Serves, RoundsOk, AfterRounds, AllCommands, Emplaced, AllAttempts;
    m' := Manager(t, Emplaced(m.connections - {p}, cmds, {}), m.log + [Loss(p)] + AllAttempts(rounds));
    assert Handles(m, Lost(p), rounds, cmds, {}, m');
  }
}
