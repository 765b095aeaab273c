/** What the announce service does over whole runs: which peers are published, which requests wait, and what is
    known of each tracker. */
module TrackerRuns {
  import opened Common
  import opened Announce

  // ------------------------------------------------------------------ one reply

  /** The reply is for a torrent that waits for peers. */
  predicate Heard(s: Service, r: PollResult) {
    r.response.Some? && r.infoHash in s.subscribers
  }

  /** It announces a peer that its tracker had not announced before. */
  predicate HasNews(s: Service, r: PollResult)
    requires r.announce in s.states
  {
    Heard(s, r) && exists p <- r.response.value.peers :: p !in s.states[r.announce].peers
  }

  lemma NewsWhen(peers: set<PeerId>, announced: seq<PeerId>)
    ensures NewPeers(peers, announced).0 != [] <==> exists p <- announced :: p !in peers
  {
    NewPeersOnce(peers, announced);
    var news := NewPeers(peers, announced).0;
    if news != [] {
      assert news[0] in (set p <- news) && news[0] in (set p <- announced) - peers;
    }
    if p :| p in announced && p !in peers {
      assert p in (set q <- announced) - peers;
      assert p in (set q <- news);
    }
  }

  /** A reply is published exactly if a torrent waits for it and it brings new peers: one entry, for that torrent,
      with those peers, each once; the torrent then no longer waits. */
  lemma PublishedExactly(s: Service, r: PollResult, now: nat)
    requires s.Processable(r)
    ensures var t := s.Replied(r, now);
            if HasNews(s, r) then
              && |t.responses| == |s.responses| + 1 && s.responses <= t.responses
              && t.responses[|s.responses|].0 == r.infoHash
              && (set p <- t.responses[|s.responses|].1)
                 == (set p <- r.response.value.peers) - s.states[r.announce].peers
              && (forall i, j :: 0 <= i < j < |t.responses[|s.responses|].1| ==>
                    t.responses[|s.responses|].1[i] != t.responses[|s.responses|].1[j])
              && t.subscribers == s.subscribers - {r.infoHash}
            else t.responses == s.responses && t.subscribers == s.subscribers
  {
    if Heard(s, r) {
      NewPeersOnce(s.states[r.announce].peers, r.response.value.peers);
      NewsWhen(s.states[r.announce].peers, r.response.value.peers);
    }
    hide NewPeers;
  }

  /** The reply is read, but without a result: an error, or no new peers. */
  predicate Retries(s: Service, r: PollResult)
    requires r.announce in s.states
  {
    s.ReadsRequest(r) && !HasNews(s, r)
  }

  /** Then its request waits again, unless one waits already, and the retry is counted; otherwise nothing new
      waits. In any case the record of the query is gone, and no other tracker is touched. */
  lemma RetriedExactly(s: Service, r: PollResult, now: nat)
    requires s.Processable(r)
    ensures var t, a := s.Replied(r, now), r.announce;
            && (Retries(s, r) && r.infoHash !in s.delayed ==> t.delayed == s.delayed[r.infoHash := s.executed[a]])
            && (!Retries(s, r) || r.infoHash in s.delayed ==> t.delayed == s.delayed)
            && a in t.states && t.states[a].retryCount == s.states[a].retryCount + (if Retries(s, r) then 1 else 0)
            && t.executed == s.executed - {a}
            && t.states.Keys == s.states.Keys && (forall b <- s.states :: b != a ==> t.states[b] == s.states[b])
            && t.trackers == s.trackers && t.queries == s.queries
  {
    if Heard(s, r) {
      NewsWhen(s.states[r.announce].peers, r.response.value.peers);
    }
    hide NewPeers;
  }

  /** What a tracker is known by after a reply: when it was heard, its peers, its time and its intervals. */
  lemma HeardExactly(s: Service, r: PollResult, now: nat)
    requires s.Processable(r)
    ensures var state, state' := s.states[r.announce], s.Replied(r, now).states[r.announce];
            && state'.requestNum == state.requestNum
            && if Heard(s, r) then
                 && state'.peers == state.peers + (set p <- r.response.value.peers)
                 && state'.prevRequestTime == now
                 && state'.minInterval == r.response.value.minInterval && state'.interval == r.response.value.interval
               else
                 && state'.peers == state.peers && state'.prevRequestTime == state.prevRequestTime
                 && state'.minInterval == state.minInterval && state'.interval == state.interval
  {
    if Heard(s, r) {
      NewPeersOnce(s.states[r.announce].peers, r.response.value.peers);
    }
    hide NewPeers;
  }

  // ------------------------------------------------------------------ other events

  /** A request for a torrent that waits already is ignored. Any other makes it wait, with one query to a tracker
      of its own that may be asked now, if there is one, and put off otherwise. */
  lemma RequestedExactly(s: Service, req: RequestAnnounce, now: nat)
    ensures var t, ih := s.Requested(req, now), req.infoHash;
            && t.responses == s.responses
            && (ih in s.subscribers ==> t == s)
            && (ih !in s.subscribers ==> t.subscribers == s.subscribers + {ih})
            && (ih !in s.subscribers && s.HasEligible(ih, now) ==>
                  && t.delayed == s.delayed && |t.queries| == |s.queries| + 1 && s.queries <= t.queries
                  && var (a, made) := t.queries[|s.queries|];
                     made == req && a in s.TrackersOf(ih) && s.IsEligible(a, now) && a in t.executed)
            && (ih !in s.subscribers && !s.HasEligible(ih, now) ==>
                  && t.queries == s.queries && t.executed == s.executed && t.states == s.states
                  && t.delayed == if ih in s.delayed then s.delayed else s.delayed[ih := req])
  {
    var ih := req.infoHash;
    var s' := s.(subscribers := s.subscribers + {ih});
    NextAnnounce(s', ih, now);
    assert s'.TrackersOf(ih) == s.TrackersOf(ih);
    assert forall a :: s'.IsEligible(a, now) <==> s.IsEligible(a, now);
    if s.HasEligible(ih, now) {
      var urls := s'.Turned(ih, now).TrackersOf(ih);
      assert urls[0] in multiset(urls);
    }
  }

  /** After a pause or a deletion the torrent neither waits nor has a request put off. A pause also resets what
      every tracker was known by, except its intervals and how often it was asked; a deletion forgets the list. */
  lemma ForgottenExactly(s: Service, ih: InfoHash)
    ensures forall t <- [s.Paused(ih), s.Deleted(ih)] ::
              && t.delayed == s.delayed - {ih} && t.subscribers == s.subscribers - {ih}
              && t.executed == s.executed && t.queries == s.queries && t.responses == s.responses
    ensures s.Paused(ih).trackers == s.trackers && s.Paused(ih).states.Keys == s.states.Keys
    ensures forall a <- s.states ::
              var state := s.Paused(ih).states[a];
              && state.peers == {} && state.prevRequestTime == 0 && state.retryCount == 0
              && state.minInterval == s.states[a].minInterval && state.interval == s.states[a].interval
              && state.requestNum == s.states[a].requestNum
    ensures s.Deleted(ih).states == s.states && s.Deleted(ih).TrackersOf(ih) == []
    ensures forall k :: k != ih ==> s.Deleted(ih).TrackersOf(k) == s.TrackersOf(k)
  {
  }

  /** Addresses that begin with `udp` are left out, whatever follows, and all others are listed. */
  predicate Listed(a: Url) {
    !(|a| >= 3 && a[0] == 'u' && a[1] == 'd' && a[2] == 'p')
  }

  function Listable(urls: seq<Url>): seq<Url> {
    if urls == [] then []
    else Listable(urls[..|urls| - 1]) + if Listed(urls[|urls| - 1]) then [urls[|urls| - 1]] else []
  }

  /** The trackers `more` came to the end of the list, with nothing known of those not seen before. */
  ghost predicate Lists(s: Service, t: Service, ih: InfoHash, more: seq<Url>) {
    && t.TrackersOf(ih) == s.TrackersOf(ih) + more
    && (forall k :: k != ih ==> t.TrackersOf(k) == s.TrackersOf(k))
    && t.states.Keys == s.states.Keys + (set a <- more)
    && (forall a <- t.states :: t.states[a] == if a in s.states then s.states[a] else NEW_TRACKER)
    && t.delayed == s.delayed && t.executed == s.executed && t.subscribers == s.subscribers
    && t.queries == s.queries && t.responses == s.responses
  }

  lemma ListsMore(s: Service, t: Service, u: Service, ih: InfoHash, xs: seq<Url>, ys: seq<Url>)
    requires Lists(s, t, ih, xs) && Lists(t, u, ih, ys)
    ensures Lists(s, u, ih, xs + ys)
  {
    hide Service.TrackersOf;
    assert s.TrackersOf(ih) + xs + ys == s.TrackersOf(ih) + (xs + ys);
    assert (set a <- xs + ys) == (set a <- xs) + (set a <- ys);
  }

  /** The trackers that are not reached over UDP come to the end of the list, in order, and none else; those not
      seen before begin with nothing known. */
  lemma {:induction false} AddedExactly(s: Service, ih: InfoHash, urls: seq<Url>)
    ensures Lists(s, s.Added(ih, urls), ih, Listable(urls))
  {
    if urls == [] {
      assert s.TrackersOf(ih) + [] == s.TrackersOf(ih);
    } else {
      var front, a := urls[..|urls| - 1], urls[|urls| - 1];
      hide Lists, Service.AddedOne, Listed;
      AddedExactly(s, ih, front);
      AddedLast(s.Added(ih, front), ih, a);
      ListableLast(urls);
      ListsMore(s, s.Added(ih, front), s.Added(ih, urls), ih, Listable(front), if Listed(a) then [a] else []);
    }
  }

  lemma ListableLast(urls: seq<Url>)
    requires urls != []
    ensures Listable(urls) == Listable(urls[..|urls| - 1]) + if Listed(urls[|urls| - 1]) then [urls[|urls| - 1]] else []
  {
  }

  lemma AddedLast(s: Service, ih: InfoHash, a: Url)
    ensures Lists(s, s.AddedOne(ih, a), ih, if Listed(a) then [a] else [])
  {
    assert IsUdp(a) <==> !Listed(a) by {
      assert "udp" <= a <==> |a| >= 3 && a[..3] == "udp";
    }
    hide IsUdp, Listed;
    assert s.TrackersOf(ih) + [] == s.TrackersOf(ih);
  }

  // ------------------------------------------------------------------ one tracker over runs

  function Asked(queries: seq<(Url, RequestAnnounce)>, a: Url): nat {
    if queries == [] then 0
    else Asked(queries[..|queries| - 1], a) + if queries[|queries| - 1].0 == a then 1 else 0
  }

  /** Since the last pause: the peers that a tracker announced to torrents that waited, in order; those of them that
      were published; and how many of its replies were without a result. */
  datatype Trace = Trace(heard: seq<PeerId>, published: seq<PeerId>, retries: nat)

  /** What was published between two states, and what a reply brings to a torrent that waits. */
  function NewsOf(s: Service, t: Service): seq<PeerId> {
    if |s.responses| < |t.responses| then t.responses[|s.responses|].1 else []
  }

  function PeersOf(s: Service, r: PollResult): seq<PeerId> {
    if Heard(s, r) then r.response.value.peers else []
  }

  /** The trace of tracker `a` after event `e`, which led from `s` to `t`. What was published is read off the
      responses. */
  function TraceNext(s: Service, e: Event, t: Service, a: Url, trace: Trace): Trace {
    match e
    case Pause(_) => Trace([], [], 0)
    case Reply(r, _) =>
      if r.announce != a || a !in s.states then trace
      else
        Trace(trace.heard + PeersOf(s, r), trace.published + NewsOf(s, t),
              trace.retries + if Retries(s, r) then 1 else 0)
    case _ => trace
  }

  /** `s` is reached by these events, with this trace of tracker `a`. */
  ghost predicate Traced(events: seq<Event>, s: Service, a: Url, trace: Trace) {
    if events == [] then s == EMPTY_SERVICE && trace == Trace([], [], 0)
    else
      var front, last := events[..|events| - 1], events[|events| - 1];
      exists s0, before :: Traced(front, s0, a, before) && Steps(s0, last, s)
                           && trace == TraceNext(s0, last, s, a, before)
  }

  predicate OnceEach(ps: seq<PeerId>) {
    forall i, j :: 0 <= i < j < |ps| ==> ps[i] != ps[j]
  }

  function StateOf(s: Service, a: Url): TrackerState {
    if a in s.states then s.states[a] else NEW_TRACKER
  }

  /** The state of the tracker says what its trace says. */
  predicate Told(s: Service, a: Url, trace: Trace) {
    var state := StateOf(s, a);
    && state.peers == (set p <- trace.heard) == (set p <- trace.published) && OnceEach(trace.published)
    && state.retryCount == trace.retries && state.requestNum == Asked(s.queries, a)
  }

  lemma ExecuteTold(s: Service, b: Url, req: RequestAnnounce, a: Url, trace: Trace)
    requires Told(s, a, trace)
    ensures Told(s.Execute(b, req), a, trace)
  {
    assert (s.queries + [(b, req)])[..|s.queries|] == s.queries;
  }

  lemma SameTold(s: Service, t: Service, a: Url, trace: Trace)
    requires Told(s, a, trace) && t.queries == s.queries && StateOf(t, a) == StateOf(s, a)
    ensures Told(t, a, trace)
  {
  }

  lemma RequestedTold(s: Service, req: RequestAnnounce, now: nat, a: Url, trace: Trace)
    requires Told(s, a, trace)
    ensures Told(s.Requested(req, now), a, trace)
  {
    var ih := req.infoHash;
    var s' := s.(subscribers := s.subscribers + {ih});
    SameTold(s, s', a, trace);
    SameTold(s', s'.Turned(ih, now), a, trace);
    hide Told;
    if ih !in s.subscribers {
      NextAnnounce(s', ih, now);
      if s'.HasEligible(ih, now) {
        ExecuteTold(s'.Turned(ih, now), s'.Turned(ih, now).TrackersOf(ih)[0], req, a, trace);
      } else {
        SameTold(s', s'.Delay(ih, req), a, trace);
      }
    }
  }

  lemma DrainStepTold(s: Service, key: InfoHash, now: nat, a: Url, trace: Trace)
    requires Told(s, a, trace) && key in s.delayed && s.HasEligible(key, now)
    ensures Told(DrainStep(s, key, now), a, trace) && DrainStep(s, key, now).responses == s.responses
  {
    NextAnnounce(s, key, now);
    var t := s.Turned(key, now);
    var u := t.(delayed := t.delayed - {s.delayed[key].infoHash});
    SameTold(s, u, a, trace);
    hide Told, Service.HasEligible;
    ExecuteTold(u, t.TrackersOf(key)[0], s.delayed[key], a, trace);
  }

  lemma {:induction false} DrainTold(s: Service, clock: nat -> nat, keys: seq<InfoHash>, a: Url, trace: Trace)
    requires Told(s, a, trace) && DrainOk(s, clock, keys)
    ensures Told(AfterDrain(s, clock, keys), a, trace) && AfterDrain(s, clock, keys).responses == s.responses
  {
    hide Told, Service.HasEligible, DrainStep;
    if keys == [] {
    } else {
      DrainLast(s, clock, keys);
      var front := keys[..|keys| - 1];
      DrainTold(s, clock, front, a, trace);
      DrainStepTold(AfterDrain(s, clock, front), keys[|keys| - 1], clock(|keys| - 1), a, trace);
    }
  }

  lemma PausedTold(s: Service, ih: InfoHash, a: Url, trace: Trace)
    requires Told(s, a, trace)
    ensures Told(s.Paused(ih), a, Trace([], [], 0))
  {
    ForgottenExactly(s, ih);
  }

  lemma AddedTold(s: Service, ih: InfoHash, urls: seq<Url>, a: Url, trace: Trace)
    requires Told(s, a, trace)
    ensures Told(s.Added(ih, urls), a, trace)
  {
    AddedExactly(s, ih, urls);
    hide Service.Added, Listable;
    SameTold(s, s.Added(ih, urls), a, trace);
  }

  lemma Unions(heard: seq<PeerId>, more: seq<PeerId>)
    ensures (set p <- heard + more) == (set p <- heard) + (set p <- more)
  {
  }

  lemma StillOnce(published: seq<PeerId>, news: seq<PeerId>)
    requires OnceEach(published) && OnceEach(news) && forall p <- news :: p !in published
    ensures OnceEach(published + news)
  {
    var all := published + news;
    forall i, j | 0 <= i < j < |all| ensures all[i] != all[j] {
      if j < |published| {
        assert all[i] == published[i] && all[j] == published[j];
      } else if i < |published| {
        var x, y := published[i], news[j - |published|];
        assert all[i] == x && all[j] == y && x in published && y in news;
      } else {
        assert all[i] == news[i - |published|] && all[j] == news[j - |published|];
      }
    }
  }

  /** The peers published by a reply are those it announced that were not known, each once. */
  lemma NewsAreThose(s: Service, r: PollResult, now: nat)
    requires s.Processable(r)
    ensures var news, known := NewsOf(s, s.Replied(r, now)), s.states[r.announce].peers;
            && (set p <- news) == (set p <- PeersOf(s, r)) - known && OnceEach(news)
            && forall p <- news :: p !in known
  {
    PublishedExactly(s, r, now);
    var news, known := NewsOf(s, s.Replied(r, now)), s.states[r.announce].peers;
    hide Service.Replied;
    assert (set p <- news) == (set p <- PeersOf(s, r)) - known;
    assert forall p <- news :: p in (set q <- news);
  }

  lemma RepliedTold(s: Service, r: PollResult, now: nat, a: Url, trace: Trace)
    requires Told(s, a, trace) && s.Processable(r)
    ensures Told(s.Replied(r, now), a, TraceNext(s, Reply(r, now), s.Replied(r, now), a, trace))
  {
    var t := s.Replied(r, now);
    RetriedExactly(s, r, now);
    HeardExactly(s, r, now);
    hide Service.Replied;
    if r.announce == a {
      NewsAreThose(s, r, now);
      Unions(trace.heard, PeersOf(s, r));
      Unions(trace.published, NewsOf(s, t));
      assert forall p <- trace.published :: p in (set q <- trace.published);
      hide HasNews, Heard, Retries, Service.Processable, OnceEach;
      StillOnce(trace.published, NewsOf(s, t));
    } else {
      SameTold(s, t, a, trace);
    }
  }

  lemma StepTold(s: Service, e: Event, t: Service, a: Url, trace: Trace)
    requires Told(s, a, trace) && Steps(s, e, t)
    ensures Told(t, a, TraceNext(s, e, t, a, trace))
    ensures !e.Reply? ==> t.responses == s.responses
  {
    hide Told, DrainOk, AfterDrain, Service.Requested, Service.Replied, Service.Added, Service.Processable;
    match e
    case AddTrackers(ih, urls) =>
      AddedTold(s, ih, urls, a, trace);
      AddedExactly(s, ih, urls);
    case Request(req, now) =>
      RequestedTold(s, req, now, a, trace);
      RequestedExactly(s, req, now);
    case DeleteTrackers(ih) => SameTold(s, s.Deleted(ih), a, trace);
    case Pause(ih) =>
      PausedTold(s, ih, a, trace);
      ForgottenExactly(s, ih);
    case Drain(clock, keys) => DrainTold(s, clock, keys, a, trace);
    case Reply(r, now) => RepliedTold(s, r, now, a, trace);
  }

  /** In every run, with shared trackers or not: each peer that a tracker announced to a torrent that waited was
      published once and only once since the last pause, nothing else was published for that tracker, and its
      counters of retries and of queries are right. */
  lemma {:induction false} TracedTold(events: seq<Event>, s: Service, a: Url, trace: Trace)
    requires Traced(events, s, a, trace)
    ensures (set p <- trace.published) == (set p <- trace.heard) && OnceEach(trace.published)
    ensures a in s.states ==> s.states[a].peers == (set p <- trace.heard)
                              && s.states[a].retryCount == trace.retries
                              && s.states[a].requestNum == Asked(s.queries, a)
    ensures Told(s, a, trace)
  {
    if events == [] {
    } else {
      var front, last := events[..|events| - 1], events[|events| - 1];
      var s0, before :|
        Traced(front, s0, a, before) && Steps(s0, last, s) && trace == TraceNext(s0, last, s, a, before);
      TracedTold(front, s0, a, before);
      hide Steps;
      StepTold(s0, last, s, a, before);
    }
  }

  /** Every run has a trace of every tracker. */
  lemma {:induction false} RunTraced(owner: Url -> InfoHash, events: seq<Event>, s: Service, a: Url)
    returns (trace: Trace)
    requires Run(owner, events, s)
    ensures Traced(events, s, a, trace)
  {
    if events == [] {
      trace := Trace([], [], 0);
    } else {
      var front, last := events[..|events| - 1], events[|events| - 1];
      var s0 :| Run(owner, front, s0) && Unshared(owner, last) && Steps(s0, last, s);
      var before := RunTraced(owner, front, s0, a);
      hide Steps, Unshared;
      trace := TraceNext(s0, last, s, a, before);
    }
  }

  /** A request makes no query to a tracker that had three replies without a result since the last pause. */
  lemma GivesUp(events: seq<Event>, s: Service, a: Url, trace: Trace, req: RequestAnnounce, now: nat)
    requires Traced(events, s, a, trace) && trace.retries >= 3
    ensures Asked(s.Requested(req, now).queries, a) == Asked(s.queries, a)
  {
    TracedTold(events, s, a, trace);
    RequestedExactly(s, req, now);
    var t := s.Requested(req, now);
    hide Service.Requested, Told;
    if |t.queries| == |s.queries| + 1 && s.queries <= t.queries {
      assert t.queries[..|s.queries|] == s.queries;
    }
  }

  /** A tracker may be asked exactly if its interval was over, as the code reckons it, and it had at most two
      replies without a result since the last pause. */
  lemma MayBeAsked(events: seq<Event>, s: Service, a: Url, trace: Trace, now: nat)
    requires Traced(events, s, a, trace) && a in s.states && now < TWO_64
    requires s.states[a].prevRequestTime + s.states[a].minInterval < TWO_64
    ensures s.IsEligible(a, now) <==>
              now > s.states[a].prevRequestTime + s.states[a].minInterval && trace.retries <= 2
  {
    TracedTold(events, s, a, trace);
    hide Told;
  }

  // ------------------------------------------------------------------ no torrent is forgotten

  /** The torrent has a request that is put off, or a query is recorded with one of its trackers. */
  predicate Pending(owner: Url -> InfoHash, s: Service, ih: InfoHash) {
    ih in s.delayed || exists a <- s.executed :: owner(a) == ih
  }

  predicate NoneForgotten(owner: Url -> InfoHash, s: Service) {
    forall ih <- s.subscribers :: Pending(owner, s, ih)
  }

  /** A reply holds an announce or an error. */
  predicate Speaks(e: Event) {
    e.Reply? ==> e.result.response.Some? || e.result.error != ""
  }

  lemma MoreRecorded(owner: Url -> InfoHash, s: Service, t: Service, ih: InfoHash)
    requires s.delayed.Keys <= t.delayed.Keys && s.executed.Keys <= t.executed.Keys && Pending(owner, s, ih)
    ensures Pending(owner, t, ih)
  {
    if ih !in s.delayed {
      var a :| a in s.executed && owner(a) == ih;
      assert a in t.executed;
    }
  }

  lemma RequestedPending(owner: Url -> InfoHash, s: Service, req: RequestAnnounce, now: nat)
    requires Inv(owner, s) && NoneForgotten(owner, s)
    ensures NoneForgotten(owner, s.Requested(req, now))
  {
    var t, ih := s.Requested(req, now), req.infoHash;
    RequestedExactly(s, req, now);
    assert s.executed.Keys <= t.executed.Keys && s.delayed.Keys <= t.delayed.Keys;
    assert ih !in s.subscribers && s.HasEligible(ih, now) ==>
             var a := t.queries[|s.queries|].0; a in t.executed && owner(a) == ih;
    assert ih !in s.subscribers ==> Pending(owner, t, ih);
    hide Service.Requested, Inv;
    forall k | k in t.subscribers ensures Pending(owner, t, k) {
      if k in s.subscribers {
        MoreRecorded(owner, s, t, k);
      }
    }
  }

  lemma DrainStepPending(owner: Url -> InfoHash, s: Service, key: InfoHash, now: nat)
    requires Inv(owner, s) && NoneForgotten(owner, s) && key in s.delayed && s.HasEligible(key, now)
    ensures NoneForgotten(owner, DrainStep(s, key, now))
  {
    TurnedKeeps(owner, s, key, now);
    NextAnnounce(s, key, now);
    var t := DrainStep(s, key, now);
    var a := s.Turned(key, now).TrackersOf(key)[0];
    assert a in t.executed && owner(a) == key && s.delayed[key].infoHash == key;
    assert t.subscribers == s.subscribers && t.delayed.Keys == s.delayed.Keys - {key};
    assert s.executed.Keys <= t.executed.Keys;
    hide DrainStep, Inv, Service.HasEligible;
    forall k | k in t.subscribers ensures Pending(owner, t, k) {
      if k != key && k !in s.delayed {
        var b :| b in s.executed && owner(b) == k;
        assert b in t.executed;
      }
    }
  }

  lemma {:induction false} DrainPending(owner: Url -> InfoHash, s: Service, clock: nat -> nat, keys: seq<InfoHash>)
    requires Inv(owner, s) && NoneForgotten(owner, s) && DrainOk(s, clock, keys)
    ensures NoneForgotten(owner, AfterDrain(s, clock, keys))
  {
    hide Inv, Service.HasEligible, DrainStep, NoneForgotten;
    if keys == [] {
    } else {
      DrainLast(s, clock, keys);
      var front := keys[..|keys| - 1];
      DrainPending(owner, s, clock, front);
      DrainKeeps(owner, s, clock, front);
      DrainStepPending(owner, AfterDrain(s, clock, front), keys[|keys| - 1], clock(|keys| - 1));
    }
  }

  /** Of the torrents that wait, a reply can only make that forgotten which it answers, and does so exactly if it
      holds neither an announce nor an error, and no other request or query of that torrent is recorded. */
  lemma RepliedPending(owner: Url -> InfoHash, s: Service, r: PollResult, now: nat)
    requires Inv(owner, s) && NoneForgotten(owner, s) && s.Outstanding(r)
    ensures var ih, t := r.infoHash, s.Replied(r, now);
            && (forall k <- t.subscribers :: k != ih ==> Pending(owner, t, k))
            && (ih in t.subscribers ==>
                  (!Pending(owner, t, ih) <==>
                     r.response.None? && r.error == "" && ih !in s.delayed
                     && forall b <- s.executed :: owner(b) == ih ==> b == r.announce))
  {
    var ih, t, a := r.infoHash, s.Replied(r, now), r.announce;
    assert owner(a) == ih by {
      var k :| 0 <= k < |s.queries| && s.queries[k].0 == a && s.queries[k].1.infoHash == ih;
    }
    PublishedExactly(s, r, now);
    RetriedExactly(s, r, now);
    assert ih in t.subscribers && Speaks(Reply(r, now)) ==> Retries(s, r);
    hide Service.Replied, Inv, HasNews, Retries;
    forall k | k in t.subscribers && k != ih ensures Pending(owner, t, k) {
      if k !in s.delayed {
        var b :| b in s.executed && owner(b) == k;
        assert b in t.executed;
      }
    }
    if ih in t.subscribers && r.response.None? && r.error == "" {
      assert forall b <- s.executed :: owner(b) == ih && b != a ==> b in t.executed;
    }
  }

  lemma RepliedSpeaking(owner: Url -> InfoHash, s: Service, r: PollResult, now: nat)
    requires Inv(owner, s) && NoneForgotten(owner, s) && s.Outstanding(r) && Speaks(Reply(r, now))
    ensures NoneForgotten(owner, s.Replied(r, now))
  {
    RepliedPending(owner, s, r, now);
    hide Inv, Service.Replied, Service.Outstanding;
  }

  lemma StepPending(owner: Url -> InfoHash, s: Service, e: Event, t: Service)
    requires Inv(owner, s) && NoneForgotten(owner, s) && Steps(s, e, t) && Speaks(e)
    ensures NoneForgotten(owner, t)
  {
    hide Inv, DrainOk, AfterDrain, Service.Requested, Service.Replied, Service.Added, Service.Outstanding;
    match e
    case AddTrackers(ih, urls) => AddedExactly(s, ih, urls);
    case Request(req, now) => RequestedPending(owner, s, req, now);
    case DeleteTrackers(ih) => ForgottenExactly(s, ih);
    case Pause(ih) => ForgottenExactly(s, ih);
    case Drain(clock, keys) => DrainPending(owner, s, clock, keys);
    case Reply(r, now) => RepliedSpeaking(owner, s, r, now);
  }

  /** When torrents share no tracker and every reply holds an announce or an error, no torrent that waits for peers
      is forgotten: its request is put off, or a query for it is recorded. */
  lemma {:induction false} NoneIsForgotten(owner: Url -> InfoHash, events: seq<Event>, s: Service)
    requires Run(owner, events, s) && forall e <- events :: Speaks(e)
    ensures forall ih <- s.subscribers :: ih in s.delayed || exists a <- s.executed :: owner(a) == ih
    ensures NoneForgotten(owner, s)
  {
    if events == [] {
    } else {
      var front, last := events[..|events| - 1], events[|events| - 1];
      var s0 :| Run(owner, front, s0) && Unshared(owner, last) && Steps(s0, last, s);
      assert forall e <- front :: e in events;
      assert last in events;
      NoneIsForgotten(owner, front, s0);
      RunKeeps(owner, front, s0);
      hide Inv, Steps, Unshared, Speaks;
      StepPending(owner, s0, last, s);
    }
  }

  /** A reply with neither is possible, and the torrent is then forgotten: it waits, but nothing is put off or
      recorded for it, and every later request for it is ignored. */
  lemma SilentReplyForgets(ih: InfoHash, u: Url, later: nat) returns (s: Service)
    requires !IsUdp(u)
    ensures var asked := EMPTY_SERVICE.Added(ih, [u]).Requested(RequestAnnounce(ih), 1);
            var r := PollResult(ih, u, "", None);
            asked.Outstanding(r) && s == asked.Replied(r, 1)
    ensures ih in s.subscribers && s.delayed == map[] && s.executed == map[]
    ensures s.Requested(RequestAnnounce(ih), later) == s
  {
    var s0 := EMPTY_SERVICE.Added(ih, [u]);
    AddedFirst(EMPTY_SERVICE, ih, u);
    hide Service.Added;
    assert s0.TrackersOf(ih) == [u];
    var asked := s0.Requested(RequestAnnounce(ih), 1);
    RequestedOne(s0, ih, u);
    hide Service.AddedOne, Service.Requested;
    var r := PollResult(ih, u, "", None);
    assert asked.queries == [(u, RequestAnnounce(ih))] && asked.executed == map[u := RequestAnnounce(ih)];
    assert asked.queries[0].0 == r.announce;
    s := asked.Replied(r, 1);
    RequestedExactly(s, RequestAnnounce(ih), later);
  }
}
