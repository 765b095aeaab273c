/** What the commands of the tracker are: every peer that is taken from the idle ones is dialled, once, and a
    torrent asks for more peers exactly when it could use some and found none. */
module PeerCommands {
  import opened Common
  import opened Slots

  /** The peers that the commands dial, in order. */
  function Dialled(cmds: seq<PeerCommand>): seq<PeerId> {
    if cmds == [] then []
    else
      var last := cmds[|cmds| - 1];
      Dialled(cmds[..|cmds| - 1]) + if last.TryConnect? then [last.peer] else []
  }

  predicate Distinct(ps: seq<PeerId>) {
    forall i, j :: 0 <= i < j < |ps| ==> ps[i] != ps[j]
  }

  lemma {:induction false} DialledAppend(a: seq<PeerCommand>, b: seq<PeerCommand>)
    ensures Dialled(a + b) == Dialled(a) + Dialled(b)
  {
    if b == [] {
      assert a + b == a;
    } else {
      assert (a + b)[..|a + b| - 1] == a + b[..|b| - 1];
      DialledAppend(a, b[..|b| - 1]);
    }
  }

  lemma {:induction false} DialledTries(torrent: InfoHash, ps: seq<PeerId>)
    ensures Dialled(TryCommands(torrent, ps)) == ps
  {
    if ps == [] {
    } else {
      var n := |ps| - 1;
      DialledTries(torrent, ps[..n]);
      assert TryCommands(torrent, ps)[..n] == TryCommands(torrent, ps[..n]);
      assert ps[..n] + [ps[n]] == ps;
    }
  }

  lemma RoundDials(t: Tracker, r: Round)
    ensures Dialled(RoundCommands(t, r)) == r.peers
  {
    DialledTries(r.torrent, r.peers);
    if r.peers == [] {
      assert forall c: PeerCommand :: [c][..0] == [];
    }
  }

  // ------------------------------------------------------------------ one torrent

  /** A peer that is known, not connected, and was not connected before. */
  predicate Untried(t: Tracker, p: PeerId) {
    p in t.peers && t.peers[p].connected == NOT_CONNECTED && !t.peers[p].hasConnectedBefore
  }

  /** Taking the peers `ps` for a torrent makes exactly these busy, which were untried, each once. */
  predicate Takes(t: Tracker, t': Tracker, ps: seq<PeerId>) {
    && Busy(t') == Busy(t) + (set p <- ps) && Distinct(ps) && (forall p <- ps :: p !in Busy(t) && Untried(t, p))
    && t'.peers.Keys == t.peers.Keys && t'.active == t.active
    && forall p <- t.peers :: p !in ps ==> t'.peers[p] == t.peers[p]
  }

  lemma TakesOneMore(t: Tracker, t': Tracker, ps: seq<PeerId>, torrent: InfoHash, p: PeerId)
    requires Takes(t, t', ps) && t'.MayTry(torrent, p)
    ensures Takes(t, t'.Try(torrent, p), ps + [p])
  {
    BusyTry(t', torrent, p);
    assert Untried(t', p);
    hide Busy, Tracker.IsIdle, Tracker.IsCandidate, Tracker.HasRoom;
    assert (set q <- ps + [p]) == (set q <- ps) + {p};
    assert p !in (set q <- ps) && p !in Busy(t);
    assert forall i :: 0 <= i < |ps| ==> (ps + [p])[i] == ps[i] && ps[i] in ps;
  }

  lemma {:induction false} TriedTakes(t: Tracker, torrent: InfoHash, ps: seq<PeerId>)
    requires MayTryAll(t, torrent, ps)
    ensures Takes(t, Tried(t, torrent, ps), ps)
  {
    if ps == [] {
      TakesNone(t);
    } else {
      TriedNext(t, torrent, ps);
      hide Tried, Takes;
      TriedTakes(t, torrent, ps[..|ps| - 1]);
      TakesOneMore(t, Tried(t, torrent, ps[..|ps| - 1]), ps[..|ps| - 1], torrent, ps[|ps| - 1]);
    }
  }

  lemma TakesNone(t: Tracker)
    ensures Takes(t, t, [])
  {
  }

  lemma TakesMore(t0: Tracker, t1: Tracker, t2: Tracker, ps: seq<PeerId>, qs: seq<PeerId>)
    requires Takes(t0, t1, ps) && Takes(t1, t2, qs)
    ensures Takes(t0, t2, ps + qs)
  {
    hide Busy;
    assert (set p <- ps + qs) == (set p <- ps) + (set p <- qs);
    forall p | p in qs ensures p !in Busy(t0) && Untried(t0, p) {
      assert p !in Busy(t1) && Untried(t1, p);
      assert p !in ps by {
        assert p in ps ==> p in (set q <- ps);
      }
    }
    forall i, j | 0 <= i < j < |ps + qs| ensures (ps + qs)[i] != (ps + qs)[j] {
      if i < |ps| <= j {
        assert ps[i] in Busy(t1) && qs[j - |ps|] in qs;
      }
    }
  }

  /** What the attempts for one torrent leave alone, and what they do to its entry. */
  ghost predicate Joined(t: Tracker, t': Tracker, torrent: InfoHash, ps: seq<PeerId>) {
    && (forall k :: k != torrent ==> t'.Info(k) == t.Info(k))
    && t'.Info(torrent) == t.Info(torrent).(activePeers := t.Info(torrent).activePeers + (set p <- ps))
    && (forall p <- t.peers :: p in t'.peers
          && t'.peers[p] == if p in ps then t.peers[p].(connected := CONNECTING) else t.peers[p])
  }

  lemma TryJoins(t: Tracker, torrent: InfoHash, p: PeerId)
    requires t.MayTry(torrent, p) && t.peers[p].peer == p
    ensures var t' := t.Try(torrent, p);
            && (forall k :: k != torrent ==> t'.Info(k) == t.Info(k))
            && t'.Info(torrent) == t.Info(torrent).(activePeers := t.Info(torrent).activePeers + {p})
            && t'.peers == t.peers[p := t.peers[p].(connected := CONNECTING)]
  {
  }

  lemma JoinedOneMore(t: Tracker, t': Tracker, torrent: InfoHash, ps: seq<PeerId>, p: PeerId)
    requires Joined(t, t', torrent, ps) && t'.MayTry(torrent, p) && t'.peers[p].peer == p && p in t.peers
    ensures Joined(t, t'.Try(torrent, p), torrent, ps + [p])
  {
    TryJoins(t', torrent, p);
    hide Tracker.Try, Tracker.MayTry, Tracker.Info;
    assert (set q <- ps + [p]) == (set q <- ps) + {p};
    var info := t.Info(torrent);
    assert info.activePeers + (set q <- ps) + {p} == info.activePeers + (set q <- ps + [p]);
  }

  /** They become active peers of that torrent, and connecting. */
  lemma {:induction false} TriedJoins(t: Tracker, torrent: InfoHash, ps: seq<PeerId>)
    requires MayTryAll(t, torrent, ps) && Named(t)
    ensures Joined(t, Tried(t, torrent, ps), torrent, ps)
  {
    if ps == [] {
      JoinedNone(t, torrent);
    } else {
      TriedNext(t, torrent, ps);
      var front, p := ps[..|ps| - 1], ps[|ps| - 1];
      TriedTakes(t, torrent, front);
      TriedActiveBusy(t, torrent, front);
      TriedJoins(t, torrent, front);
      hide Tried, Joined, Takes, ActiveBusy;
      KeysStay(t, Tried(t, torrent, front), front);
      JoinedOneMore(t, Tried(t, torrent, front), torrent, front, p);
    }
  }

  lemma KeysStay(t: Tracker, t': Tracker, ps: seq<PeerId>)
    requires Takes(t, t', ps)
    ensures t'.peers.Keys == t.peers.Keys && t'.active == t.active
  {
  }

  lemma JoinedNone(t: Tracker, torrent: InfoHash)
    ensures Joined(t, t, torrent, [])
  {
    assert t.Info(torrent).activePeers + {} == t.Info(torrent).activePeers;
  }

  // ------------------------------------------------------------------ all torrents

  lemma {:induction false} RoundsTake(t: Tracker, rounds: seq<Round>)
    requires RoundsOk(t, rounds)
    ensures Takes(t, AfterRounds(t, rounds), Dialled(AllCommands(t, rounds)))
  {
    if rounds == [] {
      TakesNone(t);
    } else {
      var front, r := rounds[..|rounds| - 1], rounds[|rounds| - 1];
      RoundsTake(t, front);
      hide Takes, Dialled, RoundCommands, Tried, Stuck;
      var t1, t2 := AfterRounds(t, front), AfterRounds(t, rounds);
      DialledAppend(AllCommands(t, front), RoundCommands(t2, r));
      RoundDials(t2, r);
      TriedTakes(t1, r.torrent, r.peers);
      TakesMore(t, t1, t2, Dialled(AllCommands(t, front)), r.peers);
    }
  }

  /** The peers dialled are exactly those that became busy, each once; none of them was ever connected before. */
  lemma DialledExactly(t: Tracker, rounds: seq<Round>)
    requires RoundsOk(t, rounds)
    ensures var dialled := Dialled(AllCommands(t, rounds));
            && (set p <- dialled) == Busy(AfterRounds(t, rounds)) - Busy(t)
            && (forall p <- dialled :: Untried(t, p))
            && forall i, j :: 0 <= i < j < |dialled| ==> dialled[i] != dialled[j]
  {
    RoundsTake(t, rounds);
    hide Busy, AllCommands, AfterRounds, RoundsOk, Dialled;
  }

  lemma {:induction false} CommandsOf(t: Tracker, rounds: seq<Round>, c: PeerCommand)
    requires RoundsOk(t, rounds)
    ensures c in AllCommands(t, rounds) <==>
              exists i :: 0 <= i < |rounds| && CommandAt(t, rounds, i, c)
  {
    hide RoundCommands, RoundOk, AfterRounds;
    if rounds == [] {
    } else {
      var n := |rounds| - 1;
      CommandsOf(t, rounds[..n], c);
      LastCommands(t, rounds, c);
      hide AllCommands, RoundsOk;
      forall i | 0 <= i < n ensures CommandAt(t, rounds[..n], i, c) <==> CommandAt(t, rounds, i, c) {
        PrefixOfPrefix(rounds, n, i + 1);
      }
      hide CommandAt;
    }
  }

  lemma LastCommands(t: Tracker, rounds: seq<Round>, c: PeerCommand)
    requires RoundsOk(t, rounds) && rounds != []
    ensures var n := |rounds| - 1;
            && RoundsOk(t, rounds[..n])
            && (c in AllCommands(t, rounds) <==> c in AllCommands(t, rounds[..n]) || CommandAt(t, rounds, n, c))
  {
    hide RoundCommands, RoundOk;
    assert rounds[..|rounds|] == rounds;
  }

  lemma PrefixOfPrefix(rounds: seq<Round>, n: nat, i: nat)
    requires i <= n <= |rounds|
    ensures rounds[..n][..i] == rounds[..i]
  {
  }

  /** Command `c` was given for the torrent that was served as number `i`. */
  ghost predicate CommandAt(t: Tracker, rounds: seq<Round>, i: nat, c: PeerCommand)
    requires i < |rounds|
  {
    RoundsOk(t, rounds[..i + 1]) && c in RoundCommands(AfterRounds(t, rounds[..i + 1]), rounds[i])
  }

  lemma {:induction false} PrefixesOk(t: Tracker, rounds: seq<Round>)
    requires RoundsOk(t, rounds)
    ensures forall i :: 0 <= i <= |rounds| ==> RoundsOk(t, rounds[..i])
  {
    hide RoundOk;
    if rounds == [] {
    } else {
      var n := |rounds| - 1;
      PrefixesOk(t, rounds[..n]);
      forall i | 0 <= i <= |rounds| ensures RoundsOk(t, rounds[..i]) {
        if i <= n {
          PrefixOfPrefix(rounds, n, i);
        } else {
          assert rounds[..i] == rounds;
        }
      }
    }
  }

  lemma LastInfo(t: Tracker, rounds: seq<Round>, k: InfoHash)
    requires RoundsOk(t, rounds) && Named(t) && rounds != [] && rounds[|rounds| - 1].torrent != k
    ensures RoundsOk(t, rounds[..|rounds| - 1])
    ensures AfterRounds(t, rounds).Info(k) == AfterRounds(t, rounds[..|rounds| - 1]).Info(k)
  {
    var front, r := rounds[..|rounds| - 1], rounds[|rounds| - 1];
    RoundsActiveBusy(t, front);
    hide Named, ActiveBusy, Tried, Stuck, Tracker.Info;
    TriedJoins(AfterRounds(t, front), r.torrent, r.peers);
  }

  /** Once a torrent was served, its entry stays as it is. */
  lemma {:induction false} InfoAfter(t: Tracker, rounds: seq<Round>, i: nat)
    requires RoundsOk(t, rounds) && Named(t) && i < |rounds|
    requires forall j, k :: 0 <= j < k < |rounds| ==> rounds[j].torrent != rounds[k].torrent
    ensures RoundsOk(t, rounds[..i + 1])
    ensures AfterRounds(t, rounds).Info(rounds[i].torrent) == AfterRounds(t, rounds[..i + 1]).Info(rounds[i].torrent)
  {
    var n := |rounds| - 1;
    PrefixesOk(t, rounds);
    hide RoundsOk, AfterRounds, Named, Tracker.Info;
    if i == n {
      assert rounds[..i + 1] == rounds;
    } else {
      var front := rounds[..n];
      PrefixOfPrefix(rounds, n, i + 1);
      InfoAfter(t, front, i);
      LastInfo(t, rounds, rounds[i].torrent);
    }
  }

  lemma RoundAnnounces(t: Tracker, r: Round, k: InfoHash)
    ensures DoAnnounce(k) in RoundCommands(t, r) <==>
              r.torrent == k && k in t.active && r.peers == []
              && t.Info(k).GetActivePeerCount() < MAX_PEERS_PER_TORRENT
    ensures forall p :: TryConnect(p, k) in RoundCommands(t, r) <==> r.torrent == k && p in r.peers
    ensures forall p :: Disconnect(p, k) !in RoundCommands(t, r)
  {
    forall p ensures TryConnect(p, k) in RoundCommands(t, r) <==> r.torrent == k && p in r.peers {
      if r.torrent == k && p in r.peers {
        var i :| 0 <= i < |r.peers| && r.peers[i] == p;
        assert TryCommands(r.torrent, r.peers)[i] == TryConnect(p, k);
      }
    }
  }

  lemma {:induction false} ActiveAfter(t: Tracker, rounds: seq<Round>)
    requires RoundsOk(t, rounds)
    ensures AfterRounds(t, rounds).active == t.active && AfterRounds(t, rounds).peers.Keys == t.peers.Keys
  {
    RoundsTake(t, rounds);
    KeysStay(t, AfterRounds(t, rounds), Dialled(AllCommands(t, rounds)));
  }

  /** A torrent asks for an announce exactly if it is active, was tried for no peer, and has fewer than twenty
      active ones; a peer is dialled for the torrent whose active peers it has joined; and nothing else is
      commanded. */
  lemma AnnouncedExactly(t: Tracker, rounds: seq<Round>, k: InfoHash)
    requires Serves(t, rounds) && Named(t)
    ensures var t', cmds := AfterRounds(t, rounds), AllCommands(t, rounds);
            && (DoAnnounce(k) in cmds <==>
                  k in t.infos && k in t.active && (forall p :: TryConnect(p, k) !in cmds)
                  && t'.Info(k).GetActivePeerCount() < MAX_PEERS_PER_TORRENT)
            && (forall p :: Disconnect(p, k) !in cmds)
  {
    hide RoundCommands, AllCommands, RoundsOk, AfterRounds, Named, CommandAt, PeersInfo.GetActivePeerCount;
    if k in t.infos {
      var i :| 0 <= i < |rounds| && rounds[i].torrent == k;
      InfoAfter(t, rounds, i);
      CommandsForServed(t, rounds, i, DoAnnounce(k));
      SaysOf(t, rounds, i, k);
      forall p ensures TryConnect(p, k) in AllCommands(t, rounds) <==> p in rounds[i].peers
        ensures Disconnect(p, k) !in AllCommands(t, rounds) {
        CommandsForServed(t, rounds, i, TryConnect(p, k));
        CommandsForServed(t, rounds, i, Disconnect(p, k));
      }
      if rounds[i].peers != [] {
        assert TryConnect(rounds[i].peers[0], k) in AllCommands(t, rounds);
      }
    } else {
      CommandsForNone(t, rounds, DoAnnounce(k), k);
      forall p ensures Disconnect(p, k) !in AllCommands(t, rounds) {
        CommandsForNone(t, rounds, Disconnect(p, k), k);
      }
    }
  }

  predicate For(c: PeerCommand, k: InfoHash) {
    !c.Nothing? && c.torrent == k
  }

  lemma CommandsForNone(t: Tracker, rounds: seq<Round>, c: PeerCommand, k: InfoHash)
    requires RoundsOk(t, rounds) && For(c, k) && forall j :: 0 <= j < |rounds| ==> rounds[j].torrent != k
    ensures c !in AllCommands(t, rounds)
  {
    CommandsOf(t, rounds, c);
    PrefixesOk(t, rounds);
    hide RoundCommands, AllCommands, RoundsOk, AfterRounds;
    forall j | 0 <= j < |rounds| ensures !CommandAt(t, rounds, j, c) {
      OwnCommands(t, rounds, j, c, k);
    }
  }

  /** The commands for a torrent are those of its own round. */
  lemma CommandsForServed(t: Tracker, rounds: seq<Round>, i: nat, c: PeerCommand)
    requires RoundsOk(t, rounds) && i < |rounds| && For(c, rounds[i].torrent)
    requires forall j, k :: 0 <= j < k < |rounds| ==> rounds[j].torrent != rounds[k].torrent
    ensures c in AllCommands(t, rounds) <==> CommandAt(t, rounds, i, c)
  {
    CommandsOf(t, rounds, c);
    PrefixesOk(t, rounds);
    hide RoundCommands, AllCommands, RoundsOk, AfterRounds;
    forall j | 0 <= j < |rounds| && j != i ensures !CommandAt(t, rounds, j, c) {
      OwnCommands(t, rounds, j, c, rounds[i].torrent);
    }
  }

  lemma OwnCommands(t: Tracker, rounds: seq<Round>, j: nat, c: PeerCommand, k: InfoHash)
    requires j < |rounds| && RoundsOk(t, rounds[..j + 1]) && For(c, k) && rounds[j].torrent != k
    ensures !CommandAt(t, rounds, j, c)
  {
    SaysOf(t, rounds, j, k);
  }

  /** What was commanded for one torrent, in terms of its round. */
  ghost predicate RoundSays(t: Tracker, rounds: seq<Round>, i: nat, k: InfoHash)
    requires i < |rounds|
  {
    && RoundsOk(t, rounds[..i + 1])
    && (CommandAt(t, rounds, i, DoAnnounce(k)) <==>
          rounds[i].torrent == k && k in t.active && rounds[i].peers == []
          && AfterRounds(t, rounds[..i + 1]).Info(k).GetActivePeerCount() < MAX_PEERS_PER_TORRENT)
    && (forall p :: CommandAt(t, rounds, i, TryConnect(p, k)) <==> rounds[i].torrent == k && p in rounds[i].peers)
    && (forall p :: !CommandAt(t, rounds, i, Disconnect(p, k)))
  }

  lemma SaysOf(t: Tracker, rounds: seq<Round>, i: nat, k: InfoHash)
    requires i < |rounds| && RoundsOk(t, rounds[..i + 1])
    ensures RoundSays(t, rounds, i, k)
  {
    ActiveAfter(t, rounds[..i + 1]);
    RoundAnnounces(AfterRounds(t, rounds[..i + 1]), rounds[i], k);
    hide RoundCommands, AfterRounds, RoundsOk;
  }

  // ------------------------------------------------------------------ nothing is left undone

  lemma TryStaysStuck(t: Tracker, torrent: InfoHash, p: PeerId, k: InfoHash)
    requires t.MayTry(torrent, p) && k != torrent && Stuck(t, k)
    ensures Stuck(t.Try(torrent, p), k)
  {
    var t' := t.Try(torrent, p);
    forall q | q in t'.peers ensures !t'.MayTry(k, q) {
      assert !t.MayTry(k, q);
    }
  }

  lemma {:induction false} TriedStaysStuck(t: Tracker, torrent: InfoHash, ps: seq<PeerId>, k: InfoHash)
    requires MayTryAll(t, torrent, ps) && k != torrent && Stuck(t, k)
    ensures Stuck(Tried(t, torrent, ps), k)
  {
    hide Stuck, Tracker.Try, Tracker.MayTry;
    if ps == [] {
    } else {
      TriedNext(t, torrent, ps);
      TriedStaysStuck(t, torrent, ps[..|ps| - 1], k);
      TryStaysStuck(Tried(t, torrent, ps[..|ps| - 1]), torrent, ps[|ps| - 1], k);
    }
  }

  lemma {:induction false} RoundsStuck(t: Tracker, rounds: seq<Round>, k: InfoHash)
    requires RoundsOk(t, rounds) && exists i :: 0 <= i < |rounds| && rounds[i].torrent == k
    requires forall i, j :: 0 <= i < j < |rounds| ==> rounds[i].torrent != rounds[j].torrent
    ensures Stuck(AfterRounds(t, rounds), k)
  {
    var n := |rounds| - 1;
    var front, r := rounds[..n], rounds[n];
    hide Stuck;
    if r.torrent != k {
      var i :| 0 <= i < |rounds| && rounds[i].torrent == k;
      assert front[i].torrent == k;
      RoundsStuck(t, front, k);
      TriedStaysStuck(AfterRounds(t, front), r.torrent, r.peers, k);
    }
  }

  /** After the commands no peer is left untried by a torrent with fewer than 20 active peers, unless 200 are
      connected or connecting. */
  lemma NothingLeftToTry(t: Tracker, rounds: seq<Round>, k: InfoHash, p: PeerId)
    requires Serves(t, rounds) && k in t.infos
    ensures var t' := AfterRounds(t, rounds);
            Untried(t', p) ==> |t'.Info(k).activePeers| % 0x1_0000 >= 20 || t'.curr >= 200
  {
    RoundsStuck(t, rounds, k);
    hide AfterRounds, RoundsOk;
  }
}
