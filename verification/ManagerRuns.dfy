/** What the manager does with the commands, and what it knows after any run: the active torrents, the peers and
    whose they are, and who is asked to connect or to disconnect. */
module ManagerRuns {
  import opened Common
  import opened Slots
  import opened PeerTracker
  import opened PeerCommands
  import opened Connections

  // ------------------------------------------------------------------ handling commands

  predicate Dials(cmds: seq<PeerCommand>, p: PeerId) {
    p in PeerCommands.Dialled(cmds)
  }

  lemma {:induction false} DialsWhen(cmds: seq<PeerCommand>, p: PeerId)
    ensures Dials(cmds, p) <==> exists k :: TryConnect(p, k) in cmds
  {
    if cmds == [] {
    } else {
      var n := |cmds| - 1;
      DialsWhen(cmds[..n], p);
      assert cmds == cmds[..n] + [cmds[n]];
      if cmds[n].TryConnect? && cmds[n].peer == p {
        assert TryConnect(p, cmds[n].torrent) in cmds;
      }
    }
  }

  /** A peer has a connection afterwards exactly if it had one, or it was dialled and could be reached; a
      connection that was there is kept, and a new one is for a torrent that dialled the peer. */
  lemma {:induction false} EmplacedExactly(connections: map<PeerId, InfoHash>, cmds: seq<PeerCommand>,
                                           reachable: set<PeerId>, p: PeerId)
    ensures var after := Emplaced(connections, cmds, reachable);
            && (p in after <==> p in connections || (p in reachable && Dials(cmds, p)))
            && (p in connections ==> after[p] == connections[p])
            && (p in after && p !in connections ==> TryConnect(p, after[p]) in cmds)
  {
    if cmds == [] {
    } else {
      EmplacedExactly(connections, cmds[..|cmds| - 1], reachable, p);
    }
  }

  predicate OnceEach<T(==)>(s: seq<T>) {
    forall i, j :: 0 <= i < j < |s| ==> s[i] != s[j]
  }

  /** An announce is requested, and a peer disconnected, for each such command, and for nothing else. */
  lemma {:induction false} HandledExactly(cmds: seq<PeerCommand>, k: InfoHash, p: PeerId)
    ensures multiset(Requests(cmds))[k] == multiset(cmds)[DoAnnounce(k)]
    ensures p in Disconnects(cmds) <==> exists ih :: Disconnect(p, ih) in cmds
    ensures (forall c <- cmds :: c.Disconnect?) ==> |Disconnects(cmds)| == |cmds|
  {
    if cmds == [] {
    } else {
      var n := |cmds| - 1;
      HandledExactly(cmds[..n], k, p);
      assert cmds == cmds[..n] + [cmds[n]];
      if cmds[n].Disconnect? {
        assert Disconnect(cmds[n].peer, cmds[n].torrent) in cmds;
      }
    }
  }

  /** When a torrent is stopped or removed, its active peers are told to disconnect, each once. */
  lemma StoppedDisconnects(cmds: seq<PeerCommand>, torrent: InfoHash, active: set<PeerId>)
    requires |cmds| == |active|
    requires forall cmd :: cmd in cmds <==> cmd.Disconnect? && cmd.torrent == torrent && cmd.peer in active
    ensures |Disconnects(cmds)| == |active| && (set p <- Disconnects(cmds)) == active && Requests(cmds) == []
  {
    HandledExactly(cmds, torrent, PeerId("", 0));
    forall p ensures p in Disconnects(cmds) <==> p in active {
      HandledExactly(cmds, torrent, p);
      if p in active {
        assert Disconnect(p, torrent) in cmds;
      }
    }
    NoRequests(cmds);
  }

  lemma {:induction false} NoRequests(cmds: seq<PeerCommand>)
    requires forall c <- cmds :: c.Disconnect?
    ensures Requests(cmds) == []
  {
    if cmds == [] {
    } else {
      assert cmds[|cmds| - 1] in cmds;
      NoRequests(cmds[..|cmds| - 1]);
    }
  }

  /** Who has a connection after an event, whatever the choices were. */
  lemma ConnectedAfter(m: Manager, e: Event, rounds: seq<Round>, cmds: seq<PeerCommand>, reachable: set<PeerId>,
                       m': Manager, p: PeerId)
    requires Handles(m, e, rounds, cmds, reachable, m')
    ensures var stays := p in m.connections && e != Lost(p) && e != RemoveTorrent(m.connections[p]);
            var commanded := e.Announced? || e.Lost? || (e.Established? && e.peer in m.connections);
            && (p in m'.connections <==> stays || (commanded && p in reachable && Dials(cmds, p)))
            && (stays ==> m'.connections[p] == m.connections[p])
  {
    EmplacedExactly(m.connections, cmds, reachable, p);
    if e.Lost? {
      EmplacedExactly(m.connections - {e.peer}, cmds, reachable, p);
    }
    hide Emplaced, Commanded, Dials, AllAttempts;
  }

  // ------------------------------------------------------------------ what is known

  function RunningNext(running: set<InfoHash>, e: Event): set<InfoHash> {
    match e
    case StartTorrent(k) => running + {k}
    case StopTorrent(k) => running - {k}
    case RemoveTorrent(k) => running - {k}
    case _ => running
  }

  /** The torrents that were started and not stopped or removed since. */
  function Running(events: seq<Event>): set<InfoHash> {
    if events == [] then {} else RunningNext(Running(events[..|events| - 1]), events[|events| - 1])
  }

  function HomesNext(homes: map<PeerId, InfoHash>, e: Event): map<PeerId, InfoHash> {
    match e
    case Announced(k, peers) => (map p <- peers :: k) + homes
    case Lost(p) => homes - {p}
    case _ => homes
  }

  /** The peers that were announced and not lost since, each with the torrent that it was first announced for. */
  function Homes(events: seq<Event>): map<PeerId, InfoHash> {
    if events == [] then map[] else HomesNext(Homes(events[..|events| - 1]), events[|events| - 1])
  }

  /** The torrent of an announce is among those that the commands after it serve. */
  lemma AnnouncedIsServed(t: Tracker, torrent: InfoHash, peers: seq<PeerId>, rounds: seq<Round>, t': Tracker,
                          cmds: seq<PeerCommand>)
    requires Commanded(t.Learned(torrent, peers), true, rounds, t', cmds)
    ensures exists i :: 0 <= i < |rounds| && rounds[i].torrent == torrent
  {
    hide RoundsOk, AfterRounds, AllCommands;
    assert torrent in t.Learned(torrent, peers).infos;
  }

  predicate Knows(t: Tracker, homes: map<PeerId, InfoHash>) {
    && t.peers.Keys == homes.Keys
    && forall p <- homes :: t.peers[p].torrent == homes[p] && t.peers[p].peer == p
                            && (t.peers[p].connected == CONNECTED <==> t.peers[p].hasConnectedBefore)
  }

  lemma TryKnows(t: Tracker, torrent: InfoHash, p: PeerId, homes: map<PeerId, InfoHash>)
    requires t.MayTry(torrent, p) && Knows(t, homes)
    ensures Knows(t.Try(torrent, p), homes)
    ensures forall k :: t.Try(torrent, p).Info(k).connected == t.Info(k).connected
    ensures forall k :: t.Try(torrent, p).Info(k).inactivePeers == t.Info(k).inactivePeers
  {
  }

  lemma {:induction false} TriedKnows(t: Tracker, torrent: InfoHash, ps: seq<PeerId>, homes: map<PeerId, InfoHash>)
    requires MayTryAll(t, torrent, ps) && Knows(t, homes)
    ensures Knows(Tried(t, torrent, ps), homes)
    ensures forall k :: Tried(t, torrent, ps).Info(k).connected == t.Info(k).connected
    ensures forall k :: Tried(t, torrent, ps).Info(k).inactivePeers == t.Info(k).inactivePeers
  {
    hide Knows, Tracker.Try, Tracker.MayTry, Tracker.Info;
    if ps == [] {
    } else {
      TriedNext(t, torrent, ps);
      TriedKnows(t, torrent, ps[..|ps| - 1], homes);
      TryKnows(Tried(t, torrent, ps[..|ps| - 1]), torrent, ps[|ps| - 1], homes);
    }
  }

  lemma {:induction false} RoundsKnow(t: Tracker, rounds: seq<Round>, homes: map<PeerId, InfoHash>)
    requires RoundsOk(t, rounds) && Knows(t, homes)
    ensures Knows(AfterRounds(t, rounds), homes) && AfterRounds(t, rounds).active == t.active
    ensures forall k :: AfterRounds(t, rounds).Info(k).connected == t.Info(k).connected
    ensures forall k :: AfterRounds(t, rounds).Info(k).inactivePeers == t.Info(k).inactivePeers
  {
    ActiveAfter(t, rounds);
    hide Knows, Tracker.Info, Stuck, Tried;
    if rounds == [] {
    } else {
      var n := |rounds| - 1;
      RoundsKnow(t, rounds[..n], homes);
      TriedKnows(AfterRounds(t, rounds[..n]), rounds[n].torrent, rounds[n].peers, homes);
    }
  }

  lemma CommandedKnows(t: Tracker, torrentActive: bool, rounds: seq<Round>, t': Tracker, cmds: seq<PeerCommand>,
                       homes: map<PeerId, InfoHash>)
    requires Commanded(t, torrentActive, rounds, t', cmds) && Knows(t, homes)
    ensures Knows(t', homes) && t'.active == t.active
    ensures forall k :: t'.Info(k).connected == t.Info(k).connected
    ensures forall k :: t'.Info(k).inactivePeers == t.Info(k).inactivePeers
  {
    hide Knows, Tracker.Info;
    if torrentActive {
      RoundsKnow(t, rounds, homes);
    }
  }

  lemma LearnedKnows(t: Tracker, torrent: InfoHash, peers: seq<PeerId>, homes: map<PeerId, InfoHash>)
    requires Knows(t, homes)
    ensures Knows(t.Learned(torrent, peers), HomesNext(homes, Announced(torrent, peers)))
    ensures t.Learned(torrent, peers).active == t.active
    ensures forall p <- peers :: p !in t.peers ==> t.Learned(torrent, peers).IsCandidate(p)
    ensures forall p <- t.peers :: t.Learned(torrent, peers).peers[p] == t.peers[p]
    ensures forall k :: t.Learned(torrent, peers).Info(k) == t.Info(k)
  {
  }

  lemma MarkedKnows(t: Tracker, p: PeerId, homes: map<PeerId, InfoHash>)
    requires Knows(t, homes) && p in t.peers
    ensures Knows(t.Marked(p), homes) && t.Marked(p).active == t.active
    ensures p in t.Marked(p).peers && t.Marked(p).peers[p].connected == CONNECTED
    ensures forall q <- t.peers :: q != p ==> t.Marked(p).peers[q] == t.peers[q]
    ensures forall k :: t.Marked(p).Info(k) == t.Info(k).(connected :=
              (t.Info(k).connected + if k == homes[p] then 1 else 0) % 0x1_0000)
  {
  }

  lemma RemovedKnows(t: Tracker, p: PeerId, homes: map<PeerId, InfoHash>)
    requires Knows(t, homes) && p in t.peers
    ensures Knows(t.Removed(p), homes - {p}) && t.Removed(p).active == t.active
    ensures var info, info' := t.Info(homes[p]), t.Removed(p).Info(homes[p]);
            && info'.inactivePeers == info.inactivePeers + {p} && info'.activePeers == info.activePeers - {p}
            && info'.connected == info.connected
    ensures forall k :: k != homes[p] ==> t.Removed(p).Info(k) == t.Info(k)
  {
  }

  /** What one event changes in what is known. */
  ghost predicate Effect(m: Manager, e: Event, t': Tracker, homes: map<PeerId, InfoHash>) {
    && Knows(t', HomesNext(homes, e)) && t'.active == RunningNext(m.tracker.active, e)
    && forall k :: t'.Info(k).connected == Reported(m, e, k, m.tracker.Info(k).connected)
  }

  /** The count of connected peers of a torrent after an event, in 16 bits. */
  function Reported(m: Manager, e: Event, k: InfoHash, count: nat): nat {
    (count + if e.Established? && e.peer in m.connections && m.tracker.PeerOf(e.peer).torrent == k then 1 else 0)
    % 0x1_0000
  }

  lemma AnnouncedEffect(m: Manager, torrent: InfoHash, peers: seq<PeerId>, rounds: seq<Round>, cmds: seq<PeerCommand>,
                        t': Tracker, homes: map<PeerId, InfoHash>)
    requires Knows(m.tracker, homes)
    requires Commanded(m.tracker.Learned(torrent, peers), true, rounds, t', cmds)
    ensures Effect(m, Announced(torrent, peers), t', homes)
  {
    LearnedKnows(m.tracker, torrent, peers, homes);
    var e := Announced(torrent, peers);
    assert RunningNext(m.tracker.active, e) == m.tracker.active;
    hide Knows, Commanded, Tracker.Learned, Tracker.Info, HomesNext;
    CommandedKnows(m.tracker.Learned(torrent, peers), true, rounds, t', cmds, HomesNext(homes, e));
  }

  lemma MarkedCount(m: Manager, p: PeerId, homes: map<PeerId, InfoHash>)
    requires Knows(m.tracker, homes) && p in m.connections && p in m.tracker.peers
    ensures Knows(m.tracker.Marked(p), homes) && m.tracker.Marked(p).active == m.tracker.active
    ensures forall k ::
              m.tracker.Marked(p).Info(k).connected == Reported(m, Established(p), k, m.tracker.Info(k).connected)
  {
    MarkedKnows(m.tracker, p, homes);
    assert m.tracker.PeerOf(p).torrent == homes[p];
    hide Knows, Tracker.Marked, Tracker.Info, Tracker.PeerOf;
  }

  lemma EstablishedEffect(m: Manager, p: PeerId, rounds: seq<Round>, cmds: seq<PeerCommand>, t': Tracker,
                          homes: map<PeerId, InfoHash>)
    requires Knows(m.tracker, homes) && p in m.connections && p in m.tracker.peers
    requires ConnectedBy(m.tracker, p, rounds, t', cmds)
    ensures Effect(m, Established(p), t', homes)
  {
    var t := m.tracker;
    MarkedCount(m, p, homes);
    hide Knows, Commanded, Reported, Tracker.Marked, Tracker.Info, Tracker.PeerOf;
    CommandedKnows(t.Marked(p), t.PeerOf(p).torrent in t.active, rounds, t', cmds, homes);
  }

  lemma LostEffect(m: Manager, p: PeerId, rounds: seq<Round>, cmds: seq<PeerCommand>, t': Tracker,
                   homes: map<PeerId, InfoHash>)
    requires Knows(m.tracker, homes) && LostBy(m.tracker, p, rounds, t', cmds)
    ensures Effect(m, Lost(p), t', homes)
  {
    var t := m.tracker;
    assert p !in t.peers ==> homes - {p} == homes;
    if p in t.peers {
      RemovedKnows(t, p, homes);
      hide Knows, Commanded, Tracker.Removed, Tracker.Info;
      CommandedKnows(t.Removed(p), t.peers[p].torrent in t.active, rounds, t', cmds, homes - {p});
    } else {
      hide Knows, Commanded, Tracker.Info;
    }
  }

  lemma OtherEffect(m: Manager, e: Event, m': Manager, homes: map<PeerId, InfoHash>)
    requires Knows(m.tracker, homes) && !e.Announced? && !e.Lost? && (e.Established? ==> e.peer !in m.connections)
    requires Steps(m, e, m')
    ensures Effect(m, e, m'.tracker, homes)
  {
    var rounds, cmds, reachable :| Handles(m, e, rounds, cmds, reachable, m');
    hide Commanded, Emplaced, Knows;
    assert m'.tracker.peers == m.tracker.peers;
    SamePeers(m.tracker, m'.tracker, homes);
  }

  lemma SamePeers(t: Tracker, t': Tracker, homes: map<PeerId, InfoHash>)
    requires Knows(t, homes) && t'.peers == t.peers
    ensures Knows(t', homes)
  {
  }

  lemma StepEffect(m: Manager, e: Event, m': Manager, homes: map<PeerId, InfoHash>)
    requires m.connections.Keys <= m.tracker.peers.Keys && Knows(m.tracker, homes) && Steps(m, e, m')
    ensures Effect(m, e, m'.tracker, homes)
  {
    var rounds, cmds, reachable :| Handles(m, e, rounds, cmds, reachable, m');
    hide Commanded, Emplaced, Knows, Effect, LostBy, ConnectedBy, Tracker.Learned;
    if e.Announced? {
      AnnouncedEffect(m, e.torrent, e.peers, rounds, cmds, m'.tracker, homes);
    } else if e.Lost? {
      LostEffect(m, e.peer, rounds, cmds, m'.tracker, homes);
    } else if e.Established? && e.peer in m.connections {
      EstablishedEffect(m, e.peer, rounds, cmds, m'.tracker, homes);
    } else {
      OtherEffect(m, e, m', homes);
    }
  }

  lemma ConnectedAreKnown(events: seq<Event>, m: Manager)
    requires Run(events, m)
    ensures m.connections.Keys <= m.tracker.peers.Keys
  {
    SlotsOverRuns(events, m);
  }

  /** After every run the active torrents are those started and not stopped or removed since, and the known peers
      those announced and not lost since, each under the torrent that announced it first. */
  lemma {:induction false} KnownOverRuns(events: seq<Event>, m: Manager)
    requires Run(events, m)
    ensures m.tracker.active == Running(events) && m.tracker.peers.Keys == Homes(events).Keys
    ensures forall p <- m.tracker.peers :: m.tracker.peers[p].torrent == Homes(events)[p]
    ensures Knows(m.tracker, Homes(events))
  {
    if events == [] {
    } else {
      var front, last := events[..|events| - 1], events[|events| - 1];
      var m0 :| Run(front, m0) && Proper(m0, last) && Steps(m0, last, m);
      KnownOverRuns(front, m0);
      ConnectedAreKnown(front, m0);
      hide Steps, Proper, Run, Knows;
      StepEffect(m0, last, m, Homes(front));
      KnownPeers(m.tracker, Homes(events));
    }
  }

  lemma KnownPeers(t: Tracker, homes: map<PeerId, InfoHash>)
    requires Knows(t, homes)
    ensures t.peers.Keys == homes.Keys && forall p <- t.peers :: t.peers[p].torrent == homes[p]
  {
  }

  /** The number of connected peers of a torrent, as it is reported, counts the connections of its peers that were
      established, in 16 bits; it does not fall when they are lost. */
  lemma ConnectedCount(events: seq<Event>, m: Manager, e: Event, m': Manager, k: InfoHash)
    requires Run(events, m) && Steps(m, e, m')
    ensures var reported := e.Established? && e.peer in m.connections && m.tracker.PeerOf(e.peer).torrent == k;
            m'.tracker.Info(k).connected == (m.tracker.Info(k).connected + if reported then 1 else 0) % 0x1_0000
  {
    KnownOverRuns(events, m);
    ConnectedAreKnown(events, m);
    hide Run, Steps, Knows;
    StepEffect(m, e, m', Homes(events));
  }
}
