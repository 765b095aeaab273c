/** Announcing to trackers: `TrackerState` and `AnnounceServiceImpl`. */
module Announce {
  import opened Common

  type Url = string

  datatype RequestAnnounce = RequestAnnounce(infoHash: InfoHash)

  datatype TrackerResponse = TrackerResponse(minInterval: nat, interval: nat, peers: seq<PeerId>)

  /** What `TrackerClient::poll` answers; without an announce there is nothing to process. */
  datatype PollResult = PollResult(infoHash: InfoHash, announce: Url, error: string, response: Option<TrackerResponse>)

  const RETRIES := 2
  const NANOSECONDS := 1_000_000_000
  const TWO_64 := 0x1_0000_0000_0000_0000

  datatype TrackerState = TrackerState(minInterval: nat, interval: nat, requestNum: nat, retryCount: nat,
                                       prevRequestTime: nat, peers: set<PeerId>)
  {
    /** Compared as unsigned 64-bit numbers. */
    predicate CanAnnounce(now: nat) {
      now % TWO_64 > (prevRequestTime + minInterval) % TWO_64
    }

    /** The minimum interval, which a tracker gives in seconds, is over; the times are in nanoseconds. */
    predicate IntervalOver(now: nat) {
      now >= prevRequestTime + minInterval * NANOSECONDS
    }

    predicate Eligible(now: nat) {
      CanAnnounce(now) && retryCount <= RETRIES
    }
  }

  /** `canAnnounce` adds the seconds to the nanoseconds, so it keeps to the interval of a tracker only if that is
      zero, or if it never allows an announce because the sum is the last 64-bit number. */
  lemma IntervalKept(state: TrackerState)
    requires state.prevRequestTime < TWO_64 && state.minInterval < TWO_64
    ensures (forall now: nat :: now < TWO_64 && state.CanAnnounce(now) ==> state.IntervalOver(now))
       <==> state.minInterval == 0 || state.prevRequestTime + state.minInterval == TWO_64 - 1
  {
    var sum := (state.prevRequestTime + state.minInterval) % TWO_64;
    if sum < TWO_64 - 1 && state.minInterval > 0 {
      var now := sum + 1;
      assert now < TWO_64 && state.CanAnnounce(now) && !state.IntervalOver(now);
    }
  }

  /** `TrackerState::onAnnounce`: the peers not seen before, in order, and all that are known then. */
  function NewPeers(peers: set<PeerId>, announced: seq<PeerId>): (seq<PeerId>, set<PeerId>) {
    if announced == [] then ([], peers)
    else
      var (news, known) := NewPeers(peers, announced[..|announced| - 1]);
      var p := announced[|announced| - 1];
      if p in known then (news, known) else (news + [p], known + {p})
  }

  const NEW_TRACKER := TrackerState(0, 0, 0, 0, 0, {})

  lemma {:induction false} NewPeersOnce(peers: set<PeerId>, announced: seq<PeerId>)
    ensures var (news, known) := NewPeers(peers, announced);
            && known == peers + (set p <- announced) && (set p <- news) == (set p <- announced) - peers
            && forall i, j :: 0 <= i < j < |news| ==> news[i] != news[j]
  {
    if announced == [] {
    } else {
      var front, p := announced[..|announced| - 1], announced[|announced| - 1];
      NewPeersOnce(peers, front);
      var (news, known) := NewPeers(peers, front);
      assert announced == front + [p];
      assert (set q <- announced) == (set q <- front) + {p};
      assert (set q <- news + [p]) == (set q <- news) + {p};
    }
  }

  // ------------------------------------------------------------------ the state of the service

  datatype Service = Service(
    delayed: map<InfoHash, RequestAnnounce>,
    executed: map<Url, RequestAnnounce>,
    states: map<Url, TrackerState>,
    subscribers: set<InfoHash>,
    trackers: map<InfoHash, seq<Url>>,
    queries: seq<(Url, RequestAnnounce)>,
    responses: seq<(InfoHash, seq<PeerId>)>)
  {
    function TrackersOf(ih: InfoHash): seq<Url> {
      if ih in trackers then trackers[ih] else []
    }

    predicate IsEligible(a: Url, now: nat) {
      a in states && states[a].Eligible(now)
    }

    /** The index of the first eligible tracker, or the length of the list. */
    function First(urls: seq<Url>, now: nat): (i: nat)
      ensures i <= |urls| && (i < |urls| ==> IsEligible(urls[i], now))
      ensures forall j :: 0 <= j < i ==> !IsEligible(urls[j], now)
    {
      if urls == [] || IsEligible(urls[0], now) then 0 else 1 + First(urls[1..], now)
    }

    predicate HasEligible(ih: InfoHash, now: nat) {
      exists a <- TrackersOf(ih) :: IsEligible(a, now)
    }

    /** The list turned so that its first eligible tracker is in front. */
    function Turned(ih: InfoHash, now: nat): Service {
      if ih in trackers then this.(trackers := trackers[ih := Rotated(trackers[ih], First(trackers[ih], now))])
      else this
    }

    /** `execute`: the first request recorded for a tracker stays. */
    function Execute(a: Url, req: RequestAnnounce): Service {
      var state := if a in states then states[a] else NEW_TRACKER;
      this.(queries := queries + [(a, req)], executed := if a in executed then executed else executed[a := req],
            states := states[a := state.(requestNum := state.requestNum + 1)])
    }

    function Delay(ih: InfoHash, req: RequestAnnounce): Service {
      this.(delayed := if ih in delayed then delayed else delayed[ih := req])
    }

    /** `process(RequestAnnounce)`. */
    function Requested(req: RequestAnnounce, now: nat): Service {
      var ih := req.infoHash;
      if ih in subscribers then this
      else
        var s := this.(subscribers := subscribers + {ih});
        NextAnnounce(s, ih, now);
        if s.HasEligible(ih, now) then s.Turned(ih, now).Execute(s.Turned(ih, now).TrackersOf(ih)[0], req)
        else s.Delay(ih, req)
    }

    /** `process(AddTrackers)`: trackers that are reached over UDP are left out. */
    function Added(ih: InfoHash, urls: seq<Url>): Service {
      if urls == [] then this else Added(ih, urls[..|urls| - 1]).AddedOne(ih, urls[|urls| - 1])
    }

    function AddedOne(ih: InfoHash, a: Url): Service {
      if IsUdp(a) then this
      else
        this.(trackers := trackers[ih := TrackersOf(ih) + [a]],
              states := if a in states then states else states[a := NEW_TRACKER])
    }

    function Deleted(ih: InfoHash): Service {
      this.(trackers := trackers - {ih}, delayed := delayed - {ih}, subscribers := subscribers - {ih})
    }

    function Paused(ih: InfoHash): Service {
      this.(states := map a | a in states :: states[a].(peers := {}, prevRequestTime := 0, retryCount := 0),
            delayed := delayed - {ih}, subscribers := subscribers - {ih})
    }

    /** The reply is for a subscribed torrent, or an error: the branches that read the recorded request. */
    predicate ReadsRequest(r: PollResult) {
      (r.response.Some? && r.infoHash in subscribers) || r.error != ""
    }

    /** The tracker is known, and a request is recorded for it where one is read. */
    predicate Processable(r: PollResult) {
      r.announce in states && (ReadsRequest(r) ==> r.announce in executed)
    }

    /** The reply answers a query that was made. */
    predicate Outstanding(r: PollResult) {
      && Processable(r)
      && exists k :: 0 <= k < |queries| && queries[k].0 == r.announce && queries[k].1.infoHash == r.infoHash
    }

    /** The rest of `pollOnce`. */
    function Replied(r: PollResult, now: nat): Service
      requires Processable(r)
    {
      var state := states[r.announce];
      var s := this.(executed := executed - {r.announce});
      if r.response.Some? && r.infoHash in subscribers then
        var response := r.response.value;
        var (news, known) := NewPeers(state.peers, response.peers);
        var state' := state.(minInterval := response.minInterval, interval := response.interval,
                             prevRequestTime := now, peers := known);
        if news != [] then
          s.(states := states[r.announce := state'], responses := responses + [(r.infoHash, news)],
             subscribers := subscribers - {r.infoHash})
        else
          s.(states := states[r.announce := state'.(retryCount := state.retryCount + 1)])
           .Delay(r.infoHash, executed[r.announce])
      else if r.error != "" then
        s.(states := states[r.announce := state.(retryCount := state.retryCount + 1)])
         .Delay(r.infoHash, executed[r.announce])
      else s
    }
  }

  predicate IsUdp(a: Url) {
    "udp" <= a
  }

  function Rotated(urls: seq<Url>, n: nat): (r: seq<Url>)
    requires n <= |urls|
    ensures |r| == |urls|
  {
    urls[n..] + urls[..n]
  }

  const EMPTY_SERVICE := Service(map[], map[], map[], {}, map[], [], [])

  /** `getNextAnnounce` finds a tracker exactly when one is eligible: the first one. The list is then a
      rotation with it in front, and otherwise unchanged. */
  lemma NextAnnounce(s: Service, ih: InfoHash, now: nat)
    ensures var urls, urls' := s.TrackersOf(ih), s.Turned(ih, now).TrackersOf(ih);
            && multiset(urls') == multiset(urls)
            && (if s.HasEligible(ih, now) then
                  exists i :: 0 <= i < |urls| && s.IsEligible(urls[i], now) && urls' == urls[i..] + urls[..i]
                              && forall j :: 0 <= j < i ==> !s.IsEligible(urls[j], now)
                else s.Turned(ih, now) == s)
  {
    var urls := s.TrackersOf(ih);
    var i := s.First(urls, now);
    assert urls == urls[..i] + urls[i..];
    if i == |urls| {
      assert Rotated(urls, i) == urls;
      if ih in s.trackers {
        assert s.trackers[ih := urls] == s.trackers;
      }
    } else {
      assert urls[i] in urls;
    }
  }

  class AnnounceService {
    var delayedRequests: map<InfoHash, RequestAnnounce>
    var executedRequests: map<Url, RequestAnnounce>
    var trackerStates: map<Url, TrackerState>
    var subscribers: set<InfoHash>
    var trackerSet: map<InfoHash, seq<Url>>
    var queries: seq<(Url, RequestAnnounce)>
    var responses: seq<(InfoHash, seq<PeerId>)>

    constructor ()
      ensures View() == EMPTY_SERVICE
    {
      delayedRequests, executedRequests, trackerStates := map[], map[], map[];
      subscribers, trackerSet, queries, responses := {}, map[], [], [];
    }

    function View(): Service
      reads this
    {
      Service(delayedRequests, executedRequests, trackerStates, subscribers, trackerSet, queries, responses)
    }

    /** Every listed tracker has a state. */
    ghost predicate Valid()
      reads this
    {
      forall ih <- trackerSet, a <- trackerSet[ih] :: a in trackerStates
    }

    method GetNextAnnounce(infoHash: InfoHash, now: nat) returns (result: Option<Url>)
      requires Valid()
      modifies this`trackerSet
      ensures Valid() && View() == old(View()).Turned(infoHash, now)
      ensures result == if old(View()).HasEligible(infoHash, now) then Some(View().TrackersOf(infoHash)[0]) else None
    {
      result := None;
      if infoHash !in trackerSet {
        return;
      }
      ghost var urls, first := trackerSet[infoHash], View().First(trackerSet[infoHash], now);
      var trackers := trackerSet[infoHash];
      var trackerIdx := 0;
      while trackerIdx < |trackers| && result.None?
        invariant |trackers| == |urls|
        invariant result.None? ==> trackerIdx <= first && trackers == Rotated(urls, trackerIdx)
        invariant result.Some? ==> first < |urls| && trackers == Rotated(urls, first) && result == Some(trackers[0])
        decreases |trackers| - trackerIdx, result.None?
      {
        var announce := trackers[0];
        assert announce == urls[trackerIdx];
        if View().IsEligible(announce, now) {
          result := Some(announce);
        } else {
          assert trackers[1..] + [announce] == Rotated(urls, trackerIdx + 1);
          trackers := trackers[1..] + [announce];
        }
        trackerIdx := trackerIdx + 1;
      }
      trackerSet := trackerSet[infoHash := trackers];
    }

    method Execute(announce: Url, req: RequestAnnounce)
      requires Valid()
      modifies this
      ensures Valid() && View() == old(View()).Execute(announce, req)
    {
      queries := queries + [(announce, req)];
      if announce !in executedRequests {
        executedRequests := executedRequests[announce := req];
      }
      var state := if announce in trackerStates then trackerStates[announce] else NEW_TRACKER;
      trackerStates := trackerStates[announce := state.(requestNum := state.requestNum + 1)];
    }

    /** `emplace` keeps an earlier request. */
    method Delay(infoHash: InfoHash, req: RequestAnnounce)
      modifies this`delayedRequests
      ensures View() == old(View()).Delay(infoHash, req)
    {
      if infoHash !in delayedRequests {
        delayedRequests := delayedRequests[infoHash := req];
      }
    }

    method ProcessRequestAnnounce(req: RequestAnnounce, now: nat)
      requires Valid()
      modifies this
      ensures Valid() && View() == old(View()).Requested(req, now)
    {
      if req.infoHash in subscribers {
        return;
      }
      subscribers := subscribers + {req.infoHash};
      NextAnnounce(View(), req.infoHash, now);
      var announce := GetNextAnnounce(req.infoHash, now);
      if announce.Some? {
        Execute(announce.value, req);
      } else {
        Delay(req.infoHash, req);
      }
    }

    method ProcessAddTrackers(infoHash: InfoHash, trackers: seq<Url>)
      requires Valid()
      modifies this
      ensures Valid() && View() == old(View()).Added(infoHash, trackers)
    {
      if trackers == [] {
        return;
      }
      var i := 0;
      assert trackers[..0] == [];
      while i < |trackers|
        invariant 0 <= i <= |trackers| && Valid() && View() == old(View()).Added(infoHash, trackers[..i])
      {
        assert trackers[..i + 1][..i] == trackers[..i];
        AddTracker(infoHash, trackers[i]);
        i := i + 1;
      }
      assert trackers[..i] == trackers;
    }

    method AddTracker(infoHash: InfoHash, url: Url)
      requires Valid()
      modifies this
      ensures Valid() && View() == old(View()).AddedOne(infoHash, url)
    {
      if !IsUdp(url) {
        trackerSet := trackerSet[infoHash := (if infoHash in trackerSet then trackerSet[infoHash] else []) + [url]];
        if url !in trackerStates {
          trackerStates := trackerStates[url := NEW_TRACKER];
        }
      }
    }

    method ProcessDeleteTrackers(infoHash: InfoHash)
      requires Valid()
      modifies this
      ensures Valid() && View() == old(View()).Deleted(infoHash)
    {
      trackerSet := trackerSet - {infoHash};
      delayedRequests := delayedRequests - {infoHash};
      subscribers := subscribers - {infoHash};
    }

    method ProcessPause(infoHash: InfoHash)
      requires Valid()
      modifies this
      ensures Valid() && View() == old(View()).Paused(infoHash)
    {
      var rest := trackerStates.Keys;
      while rest != {}
        invariant rest <= trackerStates.Keys == old(trackerStates).Keys
        invariant forall a <- trackerStates ::
                    trackerStates[a] == if a in rest then old(trackerStates)[a]
                                        else old(trackerStates)[a].(peers := {}, prevRequestTime := 0, retryCount := 0)
        invariant trackerSet == old(trackerSet) && delayedRequests == old(delayedRequests)
        invariant subscribers == old(subscribers) && executedRequests == old(executedRequests)
        invariant queries == old(queries) && responses == old(responses)
        decreases rest
      {
        var a :| a in rest;
        rest := rest - {a};
        trackerStates := trackerStates[a := trackerStates[a].(peers := {}, prevRequestTime := 0, retryCount := 0)];
      }
      delayedRequests := delayedRequests - {infoHash};
      subscribers := subscribers - {infoHash};
    }

    /** The part of `pollOnce` behind the poll. */
    method ProcessReply(r: PollResult, now: nat)
      requires Valid() && View().Processable(r)
      modifies this
      ensures Valid() && View() == old(View()).Replied(r, now)
    {
      var announce, infoHash := r.announce, r.infoHash;
      var state := trackerStates[announce];
      if r.response.Some? && infoHash in subscribers {
        var req := executedRequests[announce];
        executedRequests := executedRequests - {announce};
        state := state.(minInterval := r.response.value.minInterval, interval := r.response.value.interval);
        state := state.(prevRequestTime := now);
        var newPeers, peers := OnAnnounce(state.peers, r.response.value.peers);
        state := state.(peers := peers);
        if newPeers != [] {
          responses := responses + [(infoHash, newPeers)];
          subscribers := subscribers - {infoHash};
        } else {
          Delay(infoHash, req);
          state := state.(retryCount := state.retryCount + 1);
        }
        trackerStates := trackerStates[announce := state];
      } else if r.error != "" {
        var req := executedRequests[announce];
        executedRequests := executedRequests - {announce};
        Delay(infoHash, req);
        trackerStates := trackerStates[announce := state.(retryCount := state.retryCount + 1)];
      } else {
        executedRequests := executedRequests - {announce};
      }
    }

    static method OnAnnounce(seen: set<PeerId>, announced: seq<PeerId>)
      returns (newPeers: seq<PeerId>, peers: set<PeerId>)
      ensures (newPeers, peers) == NewPeers(seen, announced)
    {
      newPeers, peers := [], seen;
      var i := 0;
      assert announced[..0] == [];
      while i < |announced|
        invariant 0 <= i <= |announced| && (newPeers, peers) == NewPeers(seen, announced[..i])
      {
        assert announced[..i + 1][..i] == announced[..i];
        if announced[i] !in peers {
          peers := peers + {announced[i]};
          newPeers := newPeers + [announced[i]];
        }
        i := i + 1;
      }
      assert announced[..i] == announced;
    }

    method GetExecutableDelayedRequest(now: nat)
      returns (found: bool, key: InfoHash, announce: Url, req: RequestAnnounce)
      requires Valid()
      modifies this`trackerSet
      ensures Valid()
      ensures found ==> Found(old(View()), key, announce, req, now, View())
      ensures !found ==> View() == old(View()) && Idle(View(), now)
    {
      var rest := delayedRequests.Keys;
      key, announce, req := InfoHash(""), "", RequestAnnounce(InfoHash(""));
      while rest != {}
        invariant rest <= delayedRequests.Keys && View() == old(View()) && Valid()
        invariant forall ih <- delayedRequests :: View().HasEligible(ih, now) ==> ih in rest
        decreases rest
      {
        key :| key in rest;
        NextAnnounce(View(), key, now);
        var ann := GetNextAnnounce(key, now);
        if ann.Some? {
          return true, key, ann.value, delayedRequests[key];
        }
        rest := rest - {key};
      }
      found := false;
    }

    /** The loop of `pollOnce` that executes delayed requests. It ends if no stray request can ever be
        executed, because every turn then removes the request that it executes. */
    method DrainDelayed(clock: nat -> nat) returns (ghost keys: seq<InfoHash>)
      requires Valid() && forall i: nat :: !Stray(View(), clock(i))
      modifies this
      ensures Valid() && DrainOk(old(View()), clock, keys) && View() == AfterDrain(old(View()), clock, keys)
      ensures Idle(View(), clock(|keys|))
    {
      keys := [];
      var turn := 0;
      assert DrainOk(View(), clock, keys) && View() == AfterDrain(View(), clock, keys);
      hide DrainOk, AfterDrain, Idle, Stray, Found, Service.HasEligible, Service.Turned, Service.TrackersOf, DrainStep;
      var found, key, announce, req := GetExecutableDelayedRequest(clock(0));
      while found
        invariant turn == |keys| && Valid() && DrainOk(old(View()), clock, keys)
        invariant var s := AfterDrain(old(View()), clock, keys);
                  delayedRequests == s.delayed
                  && if found then Found(s, key, announce, req, clock(turn), View())
                     else View() == s && Idle(s, clock(turn))
        decreases |delayedRequests|, found
      {
        ghost var s := AfterDrain(old(View()), clock, keys);
        FoundFits(s, key, announce, req, clock(turn), View());
        DrainMore(old(View()), clock, keys, key);
        DrainTurn(old(View()), clock, keys, key);
        ExecuteRequest(key, announce, req, s, clock(turn));
        keys := keys + [key];
        turn := turn + 1;
        found, key, announce, req := GetExecutableDelayedRequest(clock(turn));
      }
    }

    /** Its body, for the request that was found. */
    method ExecuteRequest(ghost key: InfoHash, announce: Url, req: RequestAnnounce, ghost s: Service, ghost now: nat)
      requires Valid() && Found(s, key, announce, req, now, View())
      modifies this
      ensures Valid() && View() == DrainStep(s, key, now)
    {
      delayedRequests := delayedRequests - {req.infoHash};
      Execute(announce, req);
    }
  }

  // ------------------------------------------------------------------ draining

  /** No delayed request can be executed. */
  predicate Idle(s: Service, now: nat) {
    forall ih <- s.delayed :: !s.HasEligible(ih, now)
  }

  /** `getExecutableDelayedRequest` returns the request stored under `key` and its first eligible tracker,
      which is then in front. */
  predicate Found(s: Service, key: InfoHash, announce: Url, req: RequestAnnounce, now: nat, t: Service) {
    && key in s.delayed && req == s.delayed[key] && s.HasEligible(key, now)
    && t == s.Turned(key, now) && t.TrackersOf(key) != [] && announce == t.TrackersOf(key)[0]
  }

  lemma FoundFits(s: Service, key: InfoHash, announce: Url, req: RequestAnnounce, now: nat, t: Service)
    requires Found(s, key, announce, req, now, t)
    ensures key in s.delayed && s.HasEligible(key, now)
  {
  }

  /** One turn of the loop, for the key that was found. */
  function DrainStep(s: Service, key: InfoHash, now: nat): Service
    requires key in s.delayed && s.HasEligible(key, now)
  {
    NextAnnounce(s, key, now);
    var req := s.delayed[key];
    var t := s.Turned(key, now);
    t.(delayed := t.delayed - {req.infoHash}).Execute(t.TrackersOf(key)[0], req)
  }

  predicate DrainOk(s: Service, clock: nat -> nat, keys: seq<InfoHash>)
    decreases |keys|, 0
  {
    keys == [] || (DrainOk(s, clock, keys[..|keys| - 1])
                   && var t := AfterDrain(s, clock, keys[..|keys| - 1]);
                      keys[|keys| - 1] in t.delayed && t.HasEligible(keys[|keys| - 1], clock(|keys| - 1)))
  }

  function AfterDrain(s: Service, clock: nat -> nat, keys: seq<InfoHash>): Service
    requires DrainOk(s, clock, keys)
    decreases |keys|, 1
  {
    if keys == [] then s
    else DrainStep(AfterDrain(s, clock, keys[..|keys| - 1]), keys[|keys| - 1], clock(|keys| - 1))
  }

  lemma DrainMore(s: Service, clock: nat -> nat, keys: seq<InfoHash>, key: InfoHash)
    requires DrainOk(s, clock, keys)
    requires var t := AfterDrain(s, clock, keys); key in t.delayed && t.HasEligible(key, clock(|keys|))
    ensures DrainOk(s, clock, keys + [key])
    ensures AfterDrain(s, clock, keys + [key]) == DrainStep(AfterDrain(s, clock, keys), key, clock(|keys|))
  {
    assert (keys + [key])[..|keys|] == keys;
  }

  /** Every delayed request is stored under its own torrent. */
  predicate KeysMatch(s: Service) {
    forall ih <- s.delayed :: s.delayed[ih].infoHash == ih
  }

  /** A request that could be executed is stored under another torrent than its own. */
  predicate Stray(s: Service, now: nat) {
    exists k <- s.delayed :: s.delayed[k].infoHash != k && s.HasEligible(k, now)
  }

  lemma MatchedIsNotStray(s: Service, now: nat)
    requires KeysMatch(s)
    ensures !Stray(s, now)
  {
  }

  /** Clock readings are compared as unsigned 64-bit numbers. */
  predicate NotAfter(now: nat, later: nat) {
    now % TWO_64 <= later % TWO_64
  }

  lemma EligibleLater(s: Service, ih: InfoHash, now: nat, later: nat)
    requires NotAfter(now, later) && s.HasEligible(ih, now)
    ensures s.HasEligible(ih, later)
  {
    var a :| a in s.TrackersOf(ih) && s.IsEligible(a, now);
    assert s.IsEligible(a, later);
  }

  /** One turn executes a request and turns a list; no tracker becomes or ceases to be eligible. */
  lemma SameEligible(s: Service, key: InfoHash, now: nat, ih: InfoHash, later: nat)
    requires key in s.delayed && s.HasEligible(key, now)
    ensures DrainStep(s, key, now).HasEligible(ih, later) <==> s.HasEligible(ih, later)
  {
    NextAnnounce(s, key, now);
    var t := DrainStep(s, key, now);
    assert multiset(t.TrackersOf(ih)) == multiset(s.TrackersOf(ih));
    hide DrainStep;
    forall a ensures a in t.TrackersOf(ih) <==> a in s.TrackersOf(ih) {
      assert a in multiset(t.TrackersOf(ih)) <==> a in multiset(s.TrackersOf(ih));
    }
    SameStates(s, key, now, later);
  }

  lemma StepStates(s: Service, key: InfoHash, now: nat) returns (front: Url)
    requires key in s.delayed && s.HasEligible(key, now)
    ensures front in s.states
    ensures var state := s.states[front];
            DrainStep(s, key, now).states == s.states[front := state.(requestNum := state.requestNum + 1)]
  {
    NextAnnounce(s, key, now);
    hide Service.HasEligible;
    front := s.Turned(key, now).TrackersOf(key)[0];
  }

  lemma SameStates(s: Service, key: InfoHash, now: nat, later: nat)
    requires key in s.delayed && s.HasEligible(key, now)
    ensures forall a :: DrainStep(s, key, now).IsEligible(a, later) <==> s.IsEligible(a, later)
  {
    hide DrainStep, Service.HasEligible;
    var front := StepStates(s, key, now);
  }

  /** What is stray stays so, whatever key is found: the turn that would remove a stray request is
      itself for one. */
  lemma StrayStays(s: Service, key: InfoHash, now: nat, later: nat)
    requires key in s.delayed && s.HasEligible(key, now)
    ensures Stray(DrainStep(s, key, now), later) ==> Stray(s, later)
    ensures NotAfter(now, later) ==> (Stray(DrainStep(s, key, now), later) <==> Stray(s, later))
  {
    var t := DrainStep(s, key, now);
    assert t.delayed == s.delayed - {s.delayed[key].infoHash};
    hide DrainStep, Service.HasEligible;
    if Stray(t, later) {
      var k :| k in t.delayed && t.delayed[k].infoHash != k && t.HasEligible(k, later);
      SameEligible(s, key, now, k, later);
    }
    if NotAfter(now, later) && Stray(s, later) {
      var k :| k in s.delayed && s.delayed[k].infoHash != k && s.HasEligible(k, later);
      EligibleLater(s, key, now, later);
      var stays := if s.delayed[key].infoHash == k then key else k;
      SameEligible(s, key, now, stays, later);
      assert stays in t.delayed && t.delayed[stays].infoHash != stays && t.HasEligible(stays, later);
    }
  }

  lemma {:induction false} StrayAfter(s: Service, clock: nat -> nat, keys: seq<InfoHash>, later: nat)
    requires DrainOk(s, clock, keys)
    ensures Stray(AfterDrain(s, clock, keys), later) ==> Stray(s, later)
    ensures (forall i :: 0 <= i < |keys| ==> NotAfter(clock(i), later)) ==>
              (Stray(AfterDrain(s, clock, keys), later) <==> Stray(s, later))
  {
    if keys == [] {
    } else {
      DrainLast(s, clock, keys);
      var front, key := keys[..|keys| - 1], keys[|keys| - 1];
      hide DrainOk, AfterDrain, Stray, NotAfter, DrainStep, Service.HasEligible;
      StrayAfter(s, clock, front, later);
      StrayStays(AfterDrain(s, clock, front), key, clock(|keys| - 1), later);
    }
  }

  /** A turn for a request under its own torrent removes exactly the key it found. */
  lemma DrainStepKeeps(s: Service, key: InfoHash, now: nat)
    requires key in s.delayed && s.delayed[key].infoHash == key && s.HasEligible(key, now)
    ensures var t := DrainStep(s, key, now);
            && t.delayed == s.delayed - {key} && |t.delayed| < |s.delayed|
            && exists a :: t.queries == s.queries + [(a, s.delayed[key])]
  {
    var t := DrainStep(s, key, now);
    assert t.delayed.Keys == s.delayed.Keys - {key};
    assert t.queries == s.queries + [(s.Turned(key, now).TrackersOf(key)[0], s.delayed[key])];
  }

  lemma DrainTurn(s: Service, clock: nat -> nat, keys: seq<InfoHash>, key: InfoHash)
    requires DrainOk(s, clock, keys) && !Stray(s, clock(|keys|))
    requires var t := AfterDrain(s, clock, keys); key in t.delayed && t.HasEligible(key, clock(|keys|))
    ensures var t := AfterDrain(s, clock, keys);
            var t' := DrainStep(t, key, clock(|keys|));
            && t'.delayed == t.delayed - {key} && |t'.delayed| < |t.delayed|
            && exists a :: t'.queries == t.queries + [(a, t.delayed[key])]
  {
    var t := AfterDrain(s, clock, keys);
    StrayAfter(s, clock, keys, clock(|keys|));
    hide DrainOk, AfterDrain, DrainStep;
    assert t.delayed[key].infoHash == key;
    DrainStepKeeps(t, key, clock(|keys|));
  }

  lemma DrainLast(s: Service, clock: nat -> nat, keys: seq<InfoHash>)
    requires keys != [] && DrainOk(s, clock, keys)
    ensures var front, key := keys[..|keys| - 1], keys[|keys| - 1];
            && DrainOk(s, clock, front) && keys == front + [key]
            && var t, now := AfterDrain(s, clock, front), clock(|keys| - 1);
               key in t.delayed && t.HasEligible(key, now) && AfterDrain(s, clock, keys) == DrainStep(t, key, now)
  {
  }

  /** `keys` are distinct keys of the first map, and the second is what is left without them. */
  ghost predicate Without<V>(before: map<InfoHash, V>, after: map<InfoHash, V>, keys: seq<InfoHash>) {
    && (forall k :: k in after <==> k in before && k !in keys)
    && (forall k <- after :: after[k] == before[k])
    && (forall i, j :: 0 <= i < j < |keys| ==> keys[i] != keys[j])
    && (forall k <- keys :: k in before)
    && |keys| + |after| == |before|
  }

  lemma WithoutOneMore<V>(before: map<InfoHash, V>, after: map<InfoHash, V>, keys: seq<InfoHash>, key: InfoHash)
    requires Without(before, after, keys) && key in after
    ensures Without(before, after - {key}, keys + [key])
  {
    var after' := after - {key};
    assert after'.Keys == after.Keys - {key};
    forall k ensures k in after' <==> k in before && k !in keys + [key] {
    }
  }

  predicate NeverStray(s: Service, clock: nat -> nat, n: nat) {
    forall i :: 0 <= i < n ==> !Stray(s, clock(i))
  }

  /** As long as nothing is stray the loop executes each delayed request at most once, and so has at most as
      many turns as there are requests. */
  lemma {:induction false} DrainExecutesOnce(s: Service, clock: nat -> nat, keys: seq<InfoHash>)
    requires DrainOk(s, clock, keys) && NeverStray(s, clock, |keys|)
    ensures Without(s.delayed, AfterDrain(s, clock, keys).delayed, keys)
  {
    if keys == [] {
    } else {
      DrainLast(s, clock, keys);
      var front, key := keys[..|keys| - 1], keys[|keys| - 1];
      hide Stray, Without, Service.HasEligible, DrainStep, DrainOk, AfterDrain;
      DrainExecutesOnce(s, clock, front);
      DrainTurn(s, clock, front, key);
      WithoutOneMore(s.delayed, AfterDrain(s, clock, front).delayed, front, key);
    }
  }

  predicate Forward(clock: nat -> nat, n: nat) {
    forall i, j :: 0 <= i <= j <= n ==> NotAfter(clock(i), clock(j))
  }

  /** Once something is stray the loop never comes to an end, whatever keys it finds: there is always
      another turn. */
  lemma StrayNeverEnds(s: Service, clock: nat -> nat, keys: seq<InfoHash>, i: nat)
    requires DrainOk(s, clock, keys) && Forward(clock, |keys|) && i <= |keys| && Stray(s, clock(i))
    ensures !Idle(AfterDrain(s, clock, keys), clock(|keys|))
    ensures exists key :: DrainOk(s, clock, keys + [key])
  {
    var n := |keys|;
    var k :| k in s.delayed && s.delayed[k].infoHash != k && s.HasEligible(k, clock(i));
    EligibleLater(s, k, clock(i), clock(n));
    assert forall j :: 0 <= j < n ==> NotAfter(clock(j), clock(n));
    hide NotAfter, Service.HasEligible, DrainOk, AfterDrain;
    StrayAfter(s, clock, keys, clock(n));
    var t := AfterDrain(s, clock, keys);
    var key :| key in t.delayed && t.delayed[key].infoHash != key && t.HasEligible(key, clock(n));
    DrainMore(s, clock, keys, key);
  }

  lemma {:induction false} StrayRun(s: Service, clock: nat -> nat, n: nat) returns (keys: seq<InfoHash>)
    requires Forward(clock, n) && Stray(s, clock(0))
    ensures |keys| == n && DrainOk(s, clock, keys)
  {
    if n == 0 {
      keys := [];
    } else {
      var front := StrayRun(s, clock, n - 1);
      hide Stray, DrainOk;
      StrayNeverEnds(s, clock, front, 0);
      var key :| DrainOk(s, clock, front + [key]);
      keys := front + [key];
    }
  }

  function Stopped(now: nat): nat -> nat {
    _ => now
  }

  /** However the loop goes at this time, it has at most one turn for each delayed request. */
  ghost predicate AlwaysEnds(s: Service, now: nat) {
    forall keys :: DrainOk(s, Stopped(now), keys) ==> |keys| <= |s.delayed|
  }

  /** The loop ends exactly if no stray request can be executed. */
  lemma DrainEndsExactly(s: Service, now: nat)
    ensures AlwaysEnds(s, now) <==> !Stray(s, now)
  {
    var clock := Stopped(now);
    hide DrainOk, Stray, Without;
    if Stray(s, now) {
      var keys := StrayRun(s, clock, |s.delayed| + 1);
      assert DrainOk(s, clock, keys) && |keys| > |s.delayed|;
    } else {
      forall keys | DrainOk(s, clock, keys) ensures |keys| <= |s.delayed| {
        DrainExecutesOnce(s, clock, keys);
        FewerKeys(s.delayed, AfterDrain(s, clock, keys).delayed, keys);
      }
    }
  }

  lemma FewerKeys<V>(before: map<InfoHash, V>, after: map<InfoHash, V>, keys: seq<InfoHash>)
    requires Without(before, after, keys)
    ensures |keys| <= |before| && forall i, j :: 0 <= i < j < |keys| ==> keys[i] != keys[j]
  {
  }

  /** The queries made were the delayed requests of these keys, in order. */
  ghost predicate Made(before: seq<(Url, RequestAnnounce)>, after: seq<(Url, RequestAnnounce)>,
                       delayed: map<InfoHash, RequestAnnounce>, keys: seq<InfoHash>)
  {
    && |after| == |before| + |keys| && before <= after
    && forall i :: 0 <= i < |keys| ==> keys[i] in delayed && after[|before| + i].1 == delayed[keys[i]]
  }

  lemma MadeOneMore(before: seq<(Url, RequestAnnounce)>, after: seq<(Url, RequestAnnounce)>,
                    delayed: map<InfoHash, RequestAnnounce>, keys: seq<InfoHash>, key: InfoHash, a: Url)
    requires Made(before, after, delayed, keys) && key in delayed
    ensures Made(before, after + [(a, delayed[key])], delayed, keys + [key])
  {
  }

  lemma {:induction false} DrainQueries(s: Service, clock: nat -> nat, keys: seq<InfoHash>)
    requires DrainOk(s, clock, keys) && NeverStray(s, clock, |keys|)
    ensures Made(s.queries, AfterDrain(s, clock, keys).queries, s.delayed, keys)
  {
    if keys == [] {
    } else {
      DrainLast(s, clock, keys);
      var front, key := keys[..|keys| - 1], keys[|keys| - 1];
      var t := AfterDrain(s, clock, front);
      DrainExecutesOnce(s, clock, front);
      assert key in s.delayed && t.delayed[key] == s.delayed[key];
      hide Stray, Without, Made, Service.HasEligible, DrainStep, DrainOk, AfterDrain;
      DrainQueries(s, clock, front);
      DrainTurn(s, clock, front, key);
      var a :| AfterDrain(s, clock, keys).queries == t.queries + [(a, t.delayed[key])];
      MadeOneMore(s.queries, t.queries, s.delayed, front, key, a);
    }
  }

  // ------------------------------------------------------------------ runs

  datatype Event =
    | AddTrackers(infoHash: InfoHash, urls: seq<Url>)
    | Request(request: RequestAnnounce, now: nat)
    | DeleteTrackers(infoHash: InfoHash)
    | Pause(infoHash: InfoHash)
    | Drain(clock: nat -> nat, keys: seq<InfoHash>)
    | Reply(result: PollResult, now: nat)

  ghost predicate Steps(s: Service, e: Event, t: Service) {
    match e
    case AddTrackers(ih, urls) => t == s.Added(ih, urls)
    case Request(req, now) => t == s.Requested(req, now)
    case DeleteTrackers(ih) => t == s.Deleted(ih)
    case Pause(ih) => t == s.Paused(ih)
    case Drain(clock, keys) => DrainOk(s, clock, keys) && t == AfterDrain(s, clock, keys)
    case Reply(r, now) => s.Outstanding(r) && t == s.Replied(r, now)
  }

  /** The trackers of a torrent belong to that torrent alone. */
  predicate Unshared(owner: Url -> InfoHash, e: Event) {
    e.AddTrackers? ==> forall a <- e.urls :: owner(a) == e.infoHash
  }

  ghost predicate Run(owner: Url -> InfoHash, events: seq<Event>, s: Service) {
    if events == [] then s == EMPTY_SERVICE
    else
      var front, last := events[..|events| - 1], events[|events| - 1];
      exists s0 :: Run(owner, front, s0) && Unshared(owner, last) && Steps(s0, last, s)
  }

  predicate Inv(owner: Url -> InfoHash, s: Service) {
    && KeysMatch(s)
    && (forall ih <- s.trackers, a <- s.trackers[ih] :: owner(a) == ih && a in s.states)
    && (forall a <- s.executed :: s.executed[a].infoHash == owner(a))
    && (forall k :: 0 <= k < |s.queries| ==> s.queries[k].1.infoHash == owner(s.queries[k].0))
  }

  lemma ExecuteKeeps(owner: Url -> InfoHash, s: Service, a: Url, req: RequestAnnounce)
    requires Inv(owner, s) && owner(a) == req.infoHash
    ensures Inv(owner, s.Execute(a, req))
  {
  }

  lemma TurnedKeeps(owner: Url -> InfoHash, s: Service, ih: InfoHash, now: nat)
    requires Inv(owner, s)
    ensures Inv(owner, s.Turned(ih, now))
    ensures s.HasEligible(ih, now) ==>
              var urls := s.Turned(ih, now).TrackersOf(ih); urls != [] && owner(urls[0]) == ih
  {
    if ih in s.trackers {
      var urls := s.trackers[ih];
      var i := s.First(urls, now);
      assert forall a <- Rotated(urls, i) :: a in urls;
      assert i < |urls| ==> Rotated(urls, i)[0] == urls[i] && urls[i] in urls;
      hide Rotated, KeysMatch;
    }
  }

  lemma RequestedKeeps(owner: Url -> InfoHash, s: Service, req: RequestAnnounce, now: nat)
    requires Inv(owner, s)
    ensures Inv(owner, s.Requested(req, now))
  {
    var ih := req.infoHash;
    var s' := s.(subscribers := s.subscribers + {ih});
    assert Inv(owner, s');
    TurnedKeeps(owner, s', ih, now);
    if ih !in s.subscribers {
      if s'.HasEligible(ih, now) {
        ExecuteKeeps(owner, s'.Turned(ih, now), s'.Turned(ih, now).TrackersOf(ih)[0], req);
      }
    }
  }

  lemma {:induction false} AddedKeeps(owner: Url -> InfoHash, s: Service, ih: InfoHash, urls: seq<Url>)
    requires Inv(owner, s) && forall a <- urls :: owner(a) == ih
    ensures Inv(owner, s.Added(ih, urls))
  {
    if urls == [] {
    } else {
      AddedKeeps(owner, s, ih, urls[..|urls| - 1]);
    }
  }

  lemma DrainStepInv(owner: Url -> InfoHash, s: Service, key: InfoHash, now: nat)
    requires Inv(owner, s) && key in s.delayed && s.HasEligible(key, now)
    ensures Inv(owner, DrainStep(s, key, now))
  {
    TurnedKeeps(owner, s, key, now);
    var t := s.Turned(key, now);
    var req := s.delayed[key];
    assert Inv(owner, t.(delayed := t.delayed - {req.infoHash}));
    hide Service.HasEligible, Service.Turned;
    ExecuteKeeps(owner, t.(delayed := t.delayed - {req.infoHash}), t.TrackersOf(key)[0], req);
  }

  lemma {:induction false} DrainKeeps(owner: Url -> InfoHash, s: Service, clock: nat -> nat, keys: seq<InfoHash>)
    requires Inv(owner, s) && DrainOk(s, clock, keys)
    ensures Inv(owner, AfterDrain(s, clock, keys))
  {
    hide Inv, Service.HasEligible, DrainStep;
    if keys == [] {
    } else {
      DrainLast(s, clock, keys);
      var front := keys[..|keys| - 1];
      DrainKeeps(owner, s, clock, front);
      DrainStepInv(owner, AfterDrain(s, clock, front), keys[|keys| - 1], clock(|keys| - 1));
    }
  }

  lemma RepliedKeeps(owner: Url -> InfoHash, s: Service, r: PollResult, now: nat)
    requires Inv(owner, s) && s.Outstanding(r)
    ensures Inv(owner, s.Replied(r, now))
  {
  }

  /** When torrents share no tracker, and every reply answers a query and has a request recorded where one is
      read, delayed requests are stored under their own torrents in every run, so that every drain loop ends. */
  lemma DrainsEnd(owner: Url -> InfoHash, events: seq<Event>, s: Service, clock: nat -> nat,
                  keys: seq<InfoHash>)
    requires Run(owner, events, s) && DrainOk(s, clock, keys)
    ensures Inv(owner, s) && KeysMatch(s)
    ensures |keys| <= |s.delayed| && forall i, j :: 0 <= i < j < |keys| ==> keys[i] != keys[j]
  {
    RunKeeps(owner, events, s);
    forall i | 0 <= i < |keys| ensures !Stray(s, clock(i)) {
      MatchedIsNotStray(s, clock(i));
    }
    DrainExecutesOnce(s, clock, keys);
    FewerKeys(s.delayed, AfterDrain(s, clock, keys).delayed, keys);
  }

  lemma DeletedKeeps(owner: Url -> InfoHash, s: Service, ih: InfoHash)
    requires Inv(owner, s)
    ensures Inv(owner, s.Deleted(ih)) && Inv(owner, s.Paused(ih))
  {
  }

  lemma StepKeeps(owner: Url -> InfoHash, s: Service, e: Event, t: Service)
    requires Inv(owner, s) && Unshared(owner, e) && Steps(s, e, t)
    ensures Inv(owner, t)
  {
    hide Inv, DrainOk, AfterDrain, Service.Requested, Service.Replied, Service.Outstanding, Service.Added;
    match e
    case AddTrackers(ih, urls) => AddedKeeps(owner, s, ih, urls);
    case Request(req, now) => RequestedKeeps(owner, s, req, now);
    case DeleteTrackers(ih) => DeletedKeeps(owner, s, ih);
    case Pause(ih) => DeletedKeeps(owner, s, ih);
    case Drain(clock, keys) => DrainKeeps(owner, s, clock, keys);
    case Reply(r, now) => RepliedKeeps(owner, s, r, now);
  }

  lemma {:induction false} RunKeeps(owner: Url -> InfoHash, events: seq<Event>, s: Service)
    requires Run(owner, events, s)
    ensures Inv(owner, s)
  {
    if events == [] {
    } else {
      var front, last := events[..|events| - 1], events[|events| - 1];
      var s0 :| Run(owner, front, s0) && Unshared(owner, last) && Steps(s0, last, s);
      RunKeeps(owner, front, s0);
      hide Inv, Steps, Unshared;
      StepKeeps(owner, s0, last, s);
    }
  }

  // ------------------------------------------------------------------ why the conditions are there

  /** It happens when two torrents share a tracker: both ask it, only the first request is recorded, and a
      reply without new peers for the second torrent delays the request of the first one under it. */
  lemma SharedTrackerNeverEnds(a: InfoHash, b: InfoHash, u: Url, clock: nat -> nat, n: nat)
    returns (s: Service, keys: seq<InfoHash>)
    requires a != b && !IsUdp(u) && 1 < clock(0) < TWO_64 && Forward(clock, n)
    ensures var asked := EMPTY_SERVICE.Added(a, [u]).Added(b, [u])
                                      .Requested(RequestAnnounce(a), 1).Requested(RequestAnnounce(b), 1);
            var r := PollResult(b, u, "", Some(TrackerResponse(0, 0, [])));
            asked.Outstanding(r) && s == asked.Replied(r, 1)
    ensures |keys| == n && DrainOk(s, clock, keys)
  {
    hide Service.Added, Service.Requested, Service.Replied, Service.Outstanding;
    hide Service.HasEligible, Service.TrackersOf;
    s := SharedTracker(a, b, u);
    EligibleAgain(s, b, u, clock(0));
    assert b in s.delayed && s.delayed[b].infoHash != b;
    hide DrainOk, AfterDrain;
    keys := StrayRun(s, clock, n);
  }

  lemma EligibleAgain(s: Service, ih: InfoHash, u: Url, now: nat)
    requires u in s.TrackersOf(ih) && u in s.states && 1 < now < TWO_64
    requires s.states[u].retryCount == 1 && s.states[u].prevRequestTime == 1 && s.states[u].minInterval == 0
    ensures s.HasEligible(ih, now)
  {
    assert now % TWO_64 == now;
    assert s.IsEligible(u, now);
  }

  lemma SharedTracker(a: InfoHash, b: InfoHash, u: Url) returns (s: Service)
    requires a != b && !IsUdp(u)
    ensures var asked := EMPTY_SERVICE.Added(a, [u]).Added(b, [u])
                                      .Requested(RequestAnnounce(a), 1).Requested(RequestAnnounce(b), 1);
            var r := PollResult(b, u, "", Some(TrackerResponse(0, 0, [])));
            asked.Outstanding(r) && s == asked.Replied(r, 1)
    ensures s.delayed == map[b := RequestAnnounce(a)] && s.TrackersOf(b) == [u] && u in s.states
    ensures s.states[u].retryCount == 1 && s.states[u].prevRequestTime == 1 && s.states[u].minInterval == 0
  {
    var s0 := EMPTY_SERVICE.Added(a, [u]);
    AddedFirst(EMPTY_SERVICE, a, u);
    var s1 := s0.Added(b, [u]);
    AddedFirst(s0, b, u);
    hide Service.Added;
    assert s1.TrackersOf(a) == s1.TrackersOf(b) == [u];
    var s2 := s1.Requested(RequestAnnounce(a), 1);
    RequestedOne(s1, a, u);
    hide Service.AddedOne;
    var s3 := s2.Requested(RequestAnnounce(b), 1);
    RequestedOne(s2, b, u);
    hide Service.Requested;
    var r := PollResult(b, u, "", Some(TrackerResponse(0, 0, [])));
    assert s3.queries[1] == (u, RequestAnnounce(b)) && s3.executed == map[u := RequestAnnounce(a)];
    assert s3.states[u].retryCount == 0;
    s := s3.Replied(r, 1);
  }

  lemma AddedFirst(s: Service, ih: InfoHash, u: Url)
    ensures s.Added(ih, [u]) == s.AddedOne(ih, u)
  {
    assert [u][..0] == [] && s.Added(ih, []) == s;
  }

  lemma RequestedOne(s: Service, ih: InfoHash, u: Url)
    requires ih !in s.subscribers && s.TrackersOf(ih) == [u] && s.IsEligible(u, 1)
    ensures s.Requested(RequestAnnounce(ih), 1)
         == s.(subscribers := s.subscribers + {ih}).Execute(u, RequestAnnounce(ih))
  {
    var t := s.(subscribers := s.subscribers + {ih});
    assert t.First([u], 1) == 0 && Rotated([u], 0) == [u];
    assert t.trackers[ih := [u]] == t.trackers;
    assert u in t.TrackersOf(ih) && t.IsEligible(u, 1);
  }
}
