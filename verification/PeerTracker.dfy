/** The object that holds connection slots, `PeerTracker`. Its methods are proved against the functions of
    `Slots`. */
module PeerTracker {
  import opened Bytes
  import opened Common
  import opened Slots

  /** What one operation of the tracker may have done after it changed the tracker to `m`. */
  ghost predicate Commanded(m: Tracker, torrentActive: bool, rounds: seq<Round>, t: Tracker, cmds: seq<PeerCommand>) {
    if torrentActive then Serves(m, rounds) && t == AfterRounds(m, rounds) && cmds == AllCommands(m, rounds)
    else rounds == [] && t == m && cmds == []
  }

  class PeerTracker {
    var peerMap: map<PeerId, Peer>
    var peersInfoMap: map<InfoHash, PeersInfo>
    var activeTorrents: set<InfoHash>
    var currConnectedPeers: u16

    ghost predicate Valid()
      reads this
    {
      Named(View())
    }

    constructor ()
      ensures Valid() && View() == Tracker(map[], map[], {}, 0)
    {
      peerMap, peersInfoMap, activeTorrents, currConnectedPeers := map[], map[], {}, 0;
    }

    function View(): Tracker
      reads this
    {
      Tracker(peerMap, peersInfoMap, activeTorrents, currConnectedPeers)
    }

    /** `operator[]` adds a missing key. */
    method AddInfo(torrent: InfoHash)
      modifies this`peersInfoMap
      ensures peersInfoMap == old(peersInfoMap)[torrent := old(View()).Info(torrent)]
    {
      if torrent !in peersInfoMap {
        peersInfoMap := peersInfoMap[torrent := NEW_INFO];
      }
    }

    method ActivateTorrent(ih: InfoHash)
      requires Valid()
      modifies this
      ensures Valid()
      ensures View() == old(View()).Activated(ih)
    {
      activeTorrents := activeTorrents + {ih};
      AddInfo(ih);
    }

    method DeactivateTorrent(ih: InfoHash) returns (cmds: seq<PeerCommand>)
      requires Valid()
      modifies this
      ensures Valid()
      ensures View() == old(View()).Deactivated(ih)
      ensures forall cmd :: cmd in cmds <==>
                cmd.Disconnect? && cmd.torrent == ih && cmd.peer in old(View()).Info(ih).activePeers
      ensures |cmds| == |old(View()).Info(ih).activePeers|
    {
      activeTorrents := activeTorrents - {ih};
      AddInfo(ih);
      cmds := [];
      var activePeers := peersInfoMap[ih].activePeers;
      var rest := activePeers;
      while rest != {}
        invariant rest <= activePeers
        invariant forall cmd :: cmd in cmds <==>
                    cmd.Disconnect? && cmd.torrent == ih && cmd.peer in activePeers - rest
        invariant |cmds| + |rest| == |activePeers|
        decreases rest
      {
        var peer :| peer in rest;
        rest := rest - {peer};
        cmds := cmds + [Disconnect(peer, ih)];
      }
    }

    method OnPeerDisconnect(peer: PeerId) returns (cmds: seq<PeerCommand>, ghost rounds: seq<Round>)
      requires Valid()
      modifies this
      ensures Valid()
      ensures peer !in old(peerMap) ==> View() == old(View()) && cmds == [] && rounds == []
      ensures peer in old(peerMap) ==>
                var torrent := old(peerMap)[peer].torrent;
                Commanded(old(View()).Removed(peer), torrent in old(activeTorrents), rounds, View(), cmds)
    {
      cmds, rounds := [], [];
      if peer !in peerMap {
        return;
      }
      var torrent := peerMap[peer].torrent;
      AddInfo(torrent);
      peersInfoMap := peersInfoMap[torrent := peersInfoMap[torrent].MakeInactive(peer)];
      peerMap := peerMap - {peer};
      currConnectedPeers := (currConnectedPeers - 1) % 0x1_0000;
      assert View() == old(View()).Removed(peer);
      if torrent in activeTorrents {
        cmds, rounds := MakeCommand();
      }
    }

    method OnPeerConnect(peer: PeerId) returns (cmds: seq<PeerCommand>, ghost rounds: seq<Round>)
      requires Valid()
      modifies this
      ensures Valid()
      ensures var torrent := old(View()).PeerOf(peer).torrent;
              Commanded(old(View()).Marked(peer), torrent in old(activeTorrents), rounds, View(), cmds)
    {
      cmds, rounds := [], [];
      if peer !in peerMap {
        peerMap := peerMap[peer := NEW_PEER];
      }
      var torr := peerMap[peer].torrent;
      peerMap := peerMap[peer := peerMap[peer].(connected := CONNECTED)];
      peerMap := peerMap[peer := peerMap[peer].(hasConnectedBefore := true)];
      AddInfo(torr);
      var info := peersInfoMap[torr];
      peersInfoMap := peersInfoMap[torr := info.(connected := (info.connected + 1) % 0x1_0000)];
      assert View() == old(View()).Marked(peer);
      if torr in activeTorrents {
        cmds, rounds := MakeCommand();
      }
    }

    method OnAnnounce(infoHash: InfoHash, peers: seq<PeerId>) returns (cmds: seq<PeerCommand>, ghost rounds: seq<Round>)
      requires Valid()
      modifies this
      ensures Valid()
      ensures Commanded(old(View()).Learned(infoHash, peers), true, rounds, View(), cmds)
    {
      LearnPeers(infoHash, peers);
      AddInfo(infoHash);
      assert View() == old(View()).Learned(infoHash, peers);
      cmds, rounds := MakeCommand();
    }

    /** The loop of `onAnnounce`. */
    method LearnPeers(infoHash: InfoHash, peers: seq<PeerId>)
      modifies this`peerMap
      ensures peerMap == old(peerMap) + old(View()).NewPeers(infoHash, peers)
    {
      var i := 0;
      while i < |peers|
        invariant 0 <= i <= |peers|
        invariant peerMap == old(peerMap) + old(View()).NewPeers(infoHash, peers[..i])
      {
        var peerId := peers[i];
        assert peers[..i + 1] == peers[..i] + [peerId];
        if peerId !in peerMap {
          peerMap := peerMap[peerId := Peer(NOT_CONNECTED, peerId, infoHash, false)];
        }
        i := i + 1;
      }
      assert peers[..i] == peers;
    }

    method FindNotConnectedPeer() returns (found: bool, peer: PeerId)
      ensures found ==> View().IsCandidate(peer)
      ensures !found ==> NoCandidate(View())
    {
      var rest := peerMap.Keys;
      peer := NEW_PEER.peer;
      while rest != {}
        invariant rest <= peerMap.Keys
        invariant forall p <- peerMap :: View().IsCandidate(p) ==> p in rest
        decreases rest
      {
        peer :| peer in rest;
        if peerMap[peer].connected == NOT_CONNECTED && !peerMap[peer].hasConnectedBefore {
          return true, peer;
        }
        rest := rest - {peer};
      }
      found := false;
    }

    /** The body of the loop of `makeCommandFor`. */
    method ConnectTo(torrent: InfoHash, key: PeerId) returns (cmd: PeerCommand)
      requires Valid() && View().MayTry(torrent, key)
      modifies this`peerMap, this`peersInfoMap, this`currConnectedPeers
      ensures Valid() && View() == old(View()).Try(torrent, key) && cmd == TryConnect(key, torrent)
    {
      var peer := peerMap[key];
      peerMap := peerMap[key := peer.(connected := CONNECTING)];
      currConnectedPeers := currConnectedPeers + 1;
      AddInfo(torrent);
      peersInfoMap := peersInfoMap[torrent := peersInfoMap[torrent].AddActivePeer(peer.peer)];
      cmd := TryConnect(peer.peer, torrent);
    }

    /** `makeCommandFor`, called only for torrents in the map. */
    method MakeCommandFor(torrent: InfoHash) returns (cmds: seq<PeerCommand>, ghost ps: seq<PeerId>)
      requires Valid() && torrent in peersInfoMap
      modifies this`peerMap, this`peersInfoMap, this`currConnectedPeers
      ensures Valid()
      ensures RoundOk(old(View()), Round(torrent, ps)) && View() == Tried(old(View()), torrent, ps)
      ensures cmds == RoundCommands(View(), Round(torrent, ps)) && peersInfoMap.Keys == old(peersInfoMap).Keys
    {
      cmds, ps := TryPeers(torrent);
      if cmds == [] && peersInfoMap[torrent].GetActivePeerCount() < MAX_PEERS_PER_TORRENT {
        cmds := [RequestAnnounce(torrent)];
      }
    }

    /** Its loop. */
    method TryPeers(torrent: InfoHash) returns (cmds: seq<PeerCommand>, ghost ps: seq<PeerId>)
      requires Valid() && torrent in peersInfoMap
      modifies this`peerMap, this`peersInfoMap, this`currConnectedPeers
      ensures Valid()
      ensures RoundOk(old(View()), Round(torrent, ps)) && View() == Tried(old(View()), torrent, ps)
      ensures cmds == TryCommands(torrent, ps) && peersInfoMap.Keys == old(peersInfoMap).Keys
    {
      cmds, ps := [], [];
      var noCandidate := false;
      assert Trying(View(), torrent, ps, View(), cmds);
      while !noCandidate && View().HasRoom(torrent)
        invariant Valid() && Trying(old(View()), torrent, ps, View(), cmds)
        invariant noCandidate ==> NoCandidate(View())
        decreases !noCandidate, MAX_CONNECTED_PEERS - currConnectedPeers
      {
        hide Trying, NoCandidate, Named;
        var found, key := FindNotConnectedPeer();
        if found {
          TryingMore(old(View()), torrent, ps, View(), cmds, key);
          var cmd := ConnectTo(torrent, key);
          cmds := cmds + [cmd];
          ps := ps + [key];
        } else {
          noCandidate := true;
        }
      }
      hide NoCandidate;
      LoopEnds(View(), torrent);
    }

    function RequestAnnounce(torrent: InfoHash): PeerCommand
      reads this
    {
      if torrent in activeTorrents then DoAnnounce(torrent) else Nothing
    }

    method MakeCommand() returns (cmds: seq<PeerCommand>, ghost rounds: seq<Round>)
      requires Valid()
      modifies this`peerMap, this`peersInfoMap, this`currConnectedPeers
      ensures Valid()
      ensures Commanded(old(View()), true, rounds, View(), cmds)
    {
      cmds, rounds := [], [];
      var rest := peersInfoMap.Keys;
      while rest != {}
        invariant rest <= peersInfoMap.Keys == old(peersInfoMap).Keys
        invariant Valid() && RoundsOk(old(View()), rounds) && View() == AfterRounds(old(View()), rounds)
        invariant cmds == AllCommands(old(View()), rounds)
        invariant Served(old(View()), rounds, rest)
        decreases rest
      {
        var torrent :| torrent in rest;
        var torrCmds, ps := MakeCommandFor(torrent);
        RoundsMore(old(View()), rounds, Round(torrent, ps));
        ServedMore(old(View()), rounds, rest, torrent, ps);
        hide RoundsOk, RoundOk, AfterRounds, AllCommands, RoundCommands, Tried, Served, Stuck;
        rest := rest - {torrent};
        cmds := cmds + torrCmds;
        rounds := rounds + [Round(torrent, ps)];
      }
    }
  }

  /** Where the loop of `makeCommandFor` is after it has found the peers `ps`. */
  ghost predicate Trying(t0: Tracker, torrent: InfoHash, ps: seq<PeerId>, t: Tracker, cmds: seq<PeerCommand>) {
    && MayTryAll(t0, torrent, ps) && t == Tried(t0, torrent, ps) && cmds == TryCommands(torrent, ps)
    && torrent in t.infos && t.infos.Keys == t0.infos.Keys
  }

  lemma TryingMore(t0: Tracker, torrent: InfoHash, ps: seq<PeerId>, t: Tracker, cmds: seq<PeerCommand>, p: PeerId)
    requires Trying(t0, torrent, ps, t, cmds) && t.MayTry(torrent, p)
    ensures Trying(t0, torrent, ps + [p], t.Try(torrent, p), cmds + [TryConnect(p, torrent)])
  {
    hide MayTryAll, Tried, TryCommands;
    TriedMore(t0, torrent, ps, p);
  }

  /** The torrents that are not in `rest` were served, each once. */
  ghost predicate Served(t: Tracker, rounds: seq<Round>, rest: set<InfoHash>) {
    && (forall i, j :: 0 <= i < j < |rounds| ==> rounds[i].torrent != rounds[j].torrent)
    && (forall k :: k in t.infos && k !in rest <==> exists i :: 0 <= i < |rounds| && rounds[i].torrent == k)
  }

  lemma ServedMore(t: Tracker, rounds: seq<Round>, rest: set<InfoHash>, torrent: InfoHash, ps: seq<PeerId>)
    requires Served(t, rounds, rest) && torrent in rest && torrent in t.infos
    ensures Served(t, rounds + [Round(torrent, ps)], rest - {torrent})
  {
    var rounds' := rounds + [Round(torrent, ps)];
    assert rounds'[|rounds|].torrent == torrent;
    assert forall i :: 0 <= i < |rounds| ==> rounds'[i] == rounds[i];
  }
}
