/** The mesh service's two tables (mesh/libp2p.go, mesh/tcp_listener.go): peers with their connections
    and subscribers with their channels. Each section under an exclusive lock is one step; emitters share a
    read lock, so an emission is one step for each send. */
module Mesh {
  import opened Bytes

  datatype PeerId = PeerId(name: string)
  datatype Topic = Topic(name: string)
  type ConnId = nat
  type ChanId = nat
  type EmitId = nat

  const ALL := Topic("")
  const CAPACITY := 32
  const STALE_AFTER := 60_000_000_000

  datatype Peer = Peer(conn: Option<ConnId>, lastSeen: int)

  datatype DiscoveryEvent = DiscoveryEvent(peer: PeerId)

  /** A buffered channel: what waits in it, what its reader has taken and what found it full, all by the
      number of the emission; `since` is the number the next emission had when it was made. */
  datatype Channel = Channel(topic: Topic, since: nat, pending: seq<EmitId>, received: seq<EmitId>,
                             dropped: set<EmitId>, closed: bool)

  /** An emission, numbered by its place in the log, and those that were under way when it began. */
  datatype Emitted = Emitted(topic: Topic, event: DiscoveryEvent, overlapping: set<EmitId>)

  /** Where a call of Stop stands. It holds the service's own lock throughout, and takes the locks of the two
      tables one after the other once the goroutines it waits for have ended. */
  datatype StopPhase = NoStop | Waiting | PeersClosed

  /** `registered` are the connections ever put into the peer table and `shut` those the service has
      closed; `log` is every emission that has begun and `inside` those that hold the read lock, with the
      channels they have yet to send to; `connecting` is the one that a Connect makes while it holds the
      peers' lock; `panicked` records a send on or close of a closed channel. */
  datatype State = State(started: bool, stopping: StopPhase,
                         peers: map<PeerId, Peer>, registered: set<ConnId>, shut: set<ConnId>,
                         connectedPeers: nat, subscribers: map<Topic, seq<ChanId>>, chans: map<ChanId, Channel>,
                         log: seq<Emitted>, inside: map<EmitId, seq<ChanId>>, connecting: Option<EmitId>,
                         panicked: bool)

  function Initial(): State {
    State(false, NoStop, map[], {}, {}, 0, map[], map[], [], map[], None, false)
  }

  // Peers

  /** The connection a table holds for a peer. */
  function ConnOf(peers: map<PeerId, Peer>, id: PeerId): set<ConnId> {
    if id in peers && peers[id].conn.Some? then {peers[id].conn.value} else {}
  }

  function Conns(peers: map<PeerId, Peer>): set<ConnId> {
    set id | id in peers && peers[id].conn.Some? :: peers[id].conn.value
  }

  /** Connect and the accept handler: close the connection being replaced, insert the new one. */
  function AfterRegister(s: State, id: PeerId, conn: Option<ConnId>, now: int): State {
    var peers := s.peers[id := Peer(conn, now)];
    s.(peers := peers, shut := s.shut + ConnOf(s.peers, id), connectedPeers := |peers|,
       registered := s.registered + if conn.Some? then {conn.value} else {})
  }

  function AfterDisconnect(s: State, id: PeerId): State {
    if id !in s.peers then s
    else
      var peers := s.peers - {id};
      s.(peers := peers, shut := s.shut + ConnOf(s.peers, id), connectedPeers := |peers|)
  }

  predicate Stale(p: Peer, now: int) {
    p.conn.None? && p.lastSeen < now - STALE_AFTER
  }

  function Refreshed(p: Peer, now: int): Peer {
    if p.conn.Some? then p.(lastSeen := now) else p
  }

  lemma DroppedStale(before: map<PeerId, Peer>, peers: map<PeerId, Peer>, stale: set<PeerId>, now: int)
    requires peers.Keys == before.Keys
    requires forall id :: id in peers ==> peers[id] == Refreshed(before[id], now)
    requires forall id :: id in stale <==> id in before && Stale(before[id], now)
    ensures peers - stale == map id | id in before && !Stale(before[id], now) :: Refreshed(before[id], now)
  {
  }

  /** peerHealthLoop: refresh peers with a connection, drop silent ones without. */
  function AfterHealthCheck(s: State, now: int): State {
    var peers := map id | id in s.peers && !Stale(s.peers[id], now) :: Refreshed(s.peers[id], now);
    s.(peers := peers, connectedPeers := |peers|)
  }

  function AfterSeen(s: State, id: PeerId, now: int): State {
    if id in s.peers then s.(peers := s.peers[id := s.peers[id].(lastSeen := now)]) else s
  }

  // Subscribers

  function List(subscribers: map<Topic, seq<ChanId>>, topic: Topic): seq<ChanId> {
    if topic in subscribers then subscribers[topic] else []
  }

  function AfterSubscribe(s: State, topic: Topic, ch: ChanId): State {
    s.(subscribers := s.subscribers[topic := List(s.subscribers, topic) + [ch]],
       chans := s.chans[ch := Channel(topic, |s.log|, [], [], {}, false)])
  }

  function Without(list: seq<ChanId>, ch: ChanId): (rest: seq<ChanId>)
    ensures forall c :: c in rest ==> c in list
  {
    if list == [] then [] else if list[0] == ch then list[1..] else [list[0]] + Without(list[1..], ch)
  }

  /** The clean-up when a subscriber's context ends: it leaves the list, its channel stays open. */
  function AfterCancel(s: State, topic: Topic, ch: ChanId): State {
    if ch in List(s.subscribers, topic)
    then s.(subscribers := s.subscribers[topic := Without(s.subscribers[topic], ch)])
    else s
  }

  /** A select with a default: enqueue if there is room, else drop. */
  function Offer(c: Channel, n: EmitId): Channel {
    if |c.pending| < CAPACITY then c.(pending := c.pending + [n]) else c.(dropped := c.dropped + {n})
  }

  predicate SendPanics(chans: map<ChanId, Channel>, ch: ChanId) {
    ch in chans && chans[ch].closed
  }

  function Sent(chans: map<ChanId, Channel>, ch: ChanId, n: EmitId): map<ChanId, Channel> {
    if ch in chans && !chans[ch].closed then chans[ch := Offer(chans[ch], n)] else chans
  }

  function Send(s: State, ch: ChanId, n: EmitId): State {
    s.(chans := Sent(s.chans, ch, n), panicked := s.panicked || SendPanics(s.chans, ch))
  }

  function SendAll(s: State, list: seq<ChanId>, n: EmitId): State
    decreases |list|
  {
    if list == [] then s else SendAll(Send(s, list[0], n), list[1..], n)
  }

  /** Whom emitEvent sends to: the topic's subscribers, then the wildcard ones. */
  function Targets(subscribers: map<Topic, seq<ChanId>>, topic: Topic): seq<ChanId> {
    List(subscribers, topic) + if topic != ALL then List(subscribers, ALL) else []
  }

  /** emitEvent takes the read lock; the table cannot change until it gives it back. */
  function AfterEnter(s: State, topic: Topic, event: DiscoveryEvent): State {
    s.(log := s.log + [Emitted(topic, event, s.inside.Keys)],
       inside := s.inside[|s.log| := Targets(s.subscribers, topic)])
  }

  /** It sends to the next channel. */
  function AfterSend(s: State, n: EmitId): State
    requires n in s.inside && s.inside[n] != []
  {
    Send(s, s.inside[n][0], n).(inside := s.inside[n := s.inside[n][1..]])
  }

  /** It gives the lock back; a Connect that emitted also gives back the peers' lock. */
  function AfterLeave(s: State, n: EmitId): State {
    s.(inside := s.inside - {n}, connecting := if s.connecting == Some(n) then None else s.connecting)
  }

  /** The whole call, if nothing comes in between. */
  function AfterEmit(s: State, topic: Topic, event: DiscoveryEvent): State {
    var s0 := s.(log := s.log + [Emitted(topic, event, s.inside.Keys)]);
    SendAll(s0, Targets(s.subscribers, topic), |s.log|)
  }

  /** Connect registers and, still holding the peers' lock, tells the wildcard subscribers. */
  function AfterWholeConnect(s: State, id: PeerId, conn: Option<ConnId>, now: int): State {
    AfterEmit(AfterRegister(s, id, conn, now), ALL, DiscoveryEvent(id))
  }

  /** The reader of a channel takes the oldest event. */
  function AfterReceive(s: State, ch: ChanId): State
    requires ch in s.chans && s.chans[ch].pending != []
  {
    var c := s.chans[ch];
    s.(chans := s.chans[ch := c.(pending := c.pending[1..], received := c.received + [c.pending[0]])])
  }

  ghost predicate NoRepeats(list: seq<ChanId>) {
    forall i, j :: 0 <= i < j < |list| ==> list[i] != list[j]
  }

  /** Every channel in the table exists, is open, stands under its own topic and stands there once. */
  ghost predicate TableClean(s: State) {
    forall t :: t in s.subscribers ==> NoRepeats(s.subscribers[t]) && ListClean(s, s.subscribers[t], t)
  }

  ghost predicate ListClean(s: State, list: seq<ChanId>, t: Topic) {
    forall c :: c in list ==> c in s.chans && !s.chans[c].closed && s.chans[c].topic == t
  }

  /** What Stop does to a channel that may be in the table. */
  function ClosedIfListed(subscribers: map<Topic, seq<ChanId>>, id: ChanId, c: Channel): Channel {
    if c.topic in subscribers && id in subscribers[c.topic] then c.(closed := true) else c
  }

  /** Stop up to the wait: nothing if not started. */
  function AfterStopBegins(s: State): State {
    if s.started then s.(started := false, stopping := Waiting) else s
  }

  /** The wait ran into the caller's deadline. */
  function AfterStopTimesOut(s: State): State {
    s.(stopping := NoStop)
  }

  /** The goroutines have ended; the section under peersMu closes every connection in the table. */
  function AfterStopClosesPeers(s: State): State {
    s.(stopping := PeersClosed, peers := map[], shut := s.shut + Conns(s.peers))
  }

  /** The section under subMu closes every channel in the table, and Stop returns nil. */
  ghost function AfterStopClosesSubscribers(s: State): State {
    s.(stopping := NoStop, subscribers := map[],
       chans := map c | c in s.chans :: ClosedIfListed(s.subscribers, c, s.chans[c]),
       panicked := s.panicked || !TableClean(s))
  }

  /** The whole call, if nothing comes in between. */
  ghost function AfterStop(s: State, waited: bool): State {
    if !s.started then s
    else if !waited then AfterStopTimesOut(AfterStopBegins(s))
    else AfterStopClosesSubscribers(AfterStopClosesPeers(AfterStopBegins(s)))
  }

  // The service object

  datatype Error = ErrMeshNotStarted | ErrPeerNotFound | DeadlineExceeded

  class MeshService {
    var started: bool
    ghost var stopping: StopPhase
    var peers: map<PeerId, Peer>
    var connectedPeers: nat
    var subscribers: map<Topic, seq<ChanId>>
    // the world: connections and channels by identity
    var registered: set<ConnId>
    var shut: set<ConnId>
    var chans: map<ChanId, Channel>
    var log: seq<Emitted>
    var inside: map<EmitId, seq<ChanId>>
    var connecting: Option<EmitId>
    var panicked: bool

    ghost function View(): State
      reads this
    {
      State(started, stopping, peers, registered, shut, connectedPeers, subscribers, chans, log, inside,
            connecting, panicked)
    }

    constructor ()
      ensures View() == Initial()
    {
      started, stopping, peers, connectedPeers, subscribers := false, NoStop, map[], 0, map[];
      registered, shut, chans, log, inside, connecting, panicked := {}, {}, map[], [], map[], None, false;
    }

    method Start()
      modifies this
      ensures View() == old(View()).(started := true)
    {
      if started {
        return;
      }
      started := true;
    }

    method CloseConn(id: PeerId)
      modifies this`shut
      ensures shut == old(shut) + ConnOf(peers, id)
    {
      if id in peers && peers[id].conn.Some? {
        shut := shut + {peers[id].conn.value};
      }
    }

    /** The accept handler's section under peersMu. */
    method Register(id: PeerId, conn: Option<ConnId>, now: int)
      modifies this
      ensures View() == AfterRegister(old(View()), id, conn, now)
    {
      CloseConn(id);
      peers := peers[id := Peer(conn, now)];
      if conn.Some? {
        registered := registered + {conn.value};
      }
      connectedPeers := |peers|;
    }

    /** Connect's section under peersMu: also tells the wildcard subscribers. */
    method FinishConnect(id: PeerId, conn: Option<ConnId>, now: int)
      modifies this
      ensures View() == AfterWholeConnect(old(View()), id, conn, now)
    {
      Register(id, conn, now);
      EmitEvent(ALL, DiscoveryEvent(id));
    }

    method Disconnect(id: PeerId) returns (err: Option<Error>)
      modifies this
      ensures View() == AfterDisconnect(old(View()), id)
      ensures err == if id in old(peers) then None else Some(ErrPeerNotFound)
    {
      if id !in peers {
        return Some(ErrPeerNotFound);
      }
      CloseConn(id);
      peers := peers - {id};
      connectedPeers := |peers|;
      return None;
    }

    method UpdatePeerLastSeen(id: PeerId, now: int)
      modifies this
      ensures View() == AfterSeen(old(View()), id, now)
    {
      if id in peers {
        peers := peers[id := peers[id].(lastSeen := now)];
      }
    }

    /** One tick of peerHealthLoop: a pass that refreshes and collects, then the deletions. */
    method HealthCheck(now: int)
      modifies this
      ensures View() == AfterHealthCheck(old(View()), now)
    {
      ghost var before := peers;
      var stale := RefreshAndCollect(now);
      DroppedStale(before, peers, stale, now);
      peers := peers - stale;
      connectedPeers := |peers|;
    }

    method RefreshAndCollect(now: int) returns (stale: set<PeerId>)
      modifies this`peers
      ensures peers.Keys == old(peers).Keys
      ensures forall id :: id in peers ==> peers[id] == Refreshed(old(peers)[id], now)
      ensures forall id :: id in stale <==> id in old(peers) && Stale(old(peers)[id], now)
    {
      ghost var before := peers;
      stale := {};
      var todo := peers.Keys;
      var cutoff := now - STALE_AFTER;
      while todo != {}
        invariant todo <= before.Keys == peers.Keys
        invariant forall id :: id in todo ==> peers[id] == before[id]
        invariant forall id :: id in before && id !in todo ==> peers[id] == Refreshed(before[id], now)
        invariant forall id :: id in stale <==> id in before && id !in todo && Stale(before[id], now)
        decreases todo
      {
        var id :| id in todo;
        var p := peers[id];
        todo := todo - {id};
        if p.conn.Some? {
          peers := peers[id := p.(lastSeen := now)];
        } else if p.lastSeen < cutoff {
          stale := stale + {id};
        }
      }
    }

    method Subscribe(topic: Topic, ch: ChanId) returns (err: Option<Error>)
      requires ch !in chans    // make(chan ..) is new
      modifies this
      ensures !started ==> err == Some(ErrMeshNotStarted) && View() == old(View())
      ensures started ==> err == None && View() == AfterSubscribe(old(View()), topic, ch)
    {
      if !started {
        return Some(ErrMeshNotStarted);
      }
      chans := chans[ch := Channel(topic, |log|, [], [], {}, false)];
      subscribers := subscribers[topic := (if topic in subscribers then subscribers[topic] else []) + [ch]];
      return None;
    }

    method Cancel(topic: Topic, ch: ChanId)
      modifies this
      ensures View() == AfterCancel(old(View()), topic, ch)
    {
      var subs := if topic in subscribers then subscribers[topic] else [];
      var i := 0;
      while i < |subs|
        invariant 0 <= i <= |subs| && ch !in subs[..i]
        invariant View() == old(View())
      {
        if subs[i] == ch {
          WithoutAt(subs, ch, i);
          subscribers := subscribers[topic := subs[..i] + subs[i + 1..]];
          return;
        }
        assert subs[..i + 1] == subs[..i] + [subs[i]];
        i := i + 1;
      }
      assert subs[..|subs|] == subs;
    }

    method EmitTo(list: seq<ChanId>, n: EmitId)
      modifies this
      ensures View() == SendAll(old(View()), list, n)
    {
      var i := 0;
      while i < |list|
        invariant 0 <= i <= |list|
        invariant SendAll(View(), list[i..], n) == SendAll(old(View()), list, n)
      {
        var ch := list[i];
        assert list[i..][1..] == list[i + 1..];
        if ch in chans {
          var c := chans[ch];
          if c.closed {
            panicked := true;
          } else if |c.pending| < CAPACITY {
            chans := chans[ch := c.(pending := c.pending + [n])];
          } else {
            chans := chans[ch := c.(dropped := c.dropped + {n})];
          }
        }
        i := i + 1;
      }
    }

    method EmitEvent(topic: Topic, event: DiscoveryEvent)
      modifies this
      ensures View() == AfterEmit(old(View()), topic, event)
    {
      hide SendAll;
      var n := |log|;
      log := log + [Emitted(topic, event, inside.Keys)];
      ghost var s0 := View();
      var own := if topic in subscribers then subscribers[topic] else [];
      SendAllKeepsTables(s0, own, n);
      EmitTo(own, n);
      if topic != ALL {
        var all := if ALL in subscribers then subscribers[ALL] else [];
        SendAllAppend(s0, own, all, n);
        EmitTo(all, n);
      } else {
        assert own + [] == own;
      }
    }

    /** Stop; `waited` is whether the goroutines ended before the caller's deadline. */
    method Stop(waited: bool) returns (err: Option<Error>)
      requires TableClean(View()) && stopping == NoStop
      modifies this
      ensures View() == AfterStop(old(View()), waited)
      ensures err == if old(started) && !waited then Some(DeadlineExceeded) else None
    {
      hide TableClean, AfterStopClosesSubscribers, AfterStopClosesPeers;
      if !started {
        return None;
      }
      started, stopping := false, Waiting;
      if !waited {
        stopping := NoStop;
        return Some(DeadlineExceeded);
      }
      TableStaysClean(old(View()), View());
      CloseTables();
      return None;
    }

    /** The two sections that follow the wait. */
    method CloseTables()
      requires TableClean(View())
      modifies this
      ensures View() == AfterStopClosesSubscribers(AfterStopClosesPeers(old(View())))
    {
      hide TableClean, Conns, ClosedIfListed;
      ghost var was := View();
      CloseAllConns();
      stopping := PeersClosed;
      TableStaysClean(was, View());
      CloseAllChans();
      stopping := NoStop;
    }

    method CloseAllConns()
      modifies this`peers, this`shut
      ensures peers == map[] && shut == old(shut) + Conns(old(peers))
    {
      while peers != map[]
        invariant shut + Conns(peers) == old(shut) + Conns(old(peers))
        decreases peers.Keys
      {
        var id :| id in peers;
        ConnsWithout(peers, id);
        CloseConn(id);
        peers := peers - {id};
      }
    }

    method CloseAllChans()
      requires TableClean(View())
      modifies this`subscribers, this`chans
      ensures subscribers == map[]
      ensures chans == map c | c in old(chans) :: ClosedIfListed(old(subscribers), c, old(chans)[c])
    {
      hide TableClean;
      ghost var all, before := subscribers, chans;
      while subscribers != map[]
        invariant TableClean(View()) && ClosedSoFar(all, subscribers, before, chans)
        decreases subscribers.Keys
      {
        var topic :| topic in subscribers;
        ghost var was := View();
        ListOf(was, topic);
        CloseList(subscribers[topic], topic);
        subscribers := subscribers - {topic};
        CleanWithout(was, View(), topic);
        ClosedOneMore(all, was, before, chans, topic);
      }
    }

    method CloseList(subs: seq<ChanId>, ghost topic: Topic)
      requires NoRepeats(subs) && ListClean(View(), subs, topic)
      modifies this`chans
      ensures chans.Keys == old(chans).Keys
      ensures forall c :: c in chans ==> chans[c] == if c in subs then old(chans)[c].(closed := true) else old(chans)[c]
    {
      var i := 0;
      while i < |subs|
        invariant 0 <= i <= |subs| && chans.Keys == old(chans).Keys
        invariant forall c :: c in chans ==>
                    chans[c] == if c in subs[..i] then old(chans)[c].(closed := true) else old(chans)[c]
      {
        var ch := subs[i];
        assert ch !in subs[..i];
        assert subs[..i + 1] == subs[..i] + [ch];
        assert !chans[ch].closed;    // close of a closed channel would panic
        chans := chans[ch := chans[ch].(closed := true)];
        i := i + 1;
      }
      assert subs[..|subs|] == subs;
    }
  }

  lemma TableStaysClean(s: State, s': State)
    requires s'.subscribers == s.subscribers && s'.chans == s.chans
    ensures TableClean(s') <==> TableClean(s)
  {
    hide NoRepeats;
    if TableClean(s) {
      forall t | t in s'.subscribers
        ensures NoRepeats(s'.subscribers[t]) && ListClean(s', s'.subscribers[t], t)
      {
        assert ListClean(s, s.subscribers[t], t);
      }
    }
    if TableClean(s') {
      forall t | t in s.subscribers
        ensures NoRepeats(s.subscribers[t]) && ListClean(s, s.subscribers[t], t)
      {
        assert ListClean(s', s'.subscribers[t], t);
      }
    }
  }

  // Closing all channels, one list at a time

  type Lists = map<Topic, seq<ChanId>>

  /** The channels of the lists already dealt with are closed, the others untouched. */
  ghost predicate ClosedSoFar(all: Lists, left: Lists, before: map<ChanId, Channel>, now: map<ChanId, Channel>) {
    && left.Keys <= all.Keys && (forall t :: t in left ==> left[t] == all[t])
    && now.Keys == before.Keys
    && forall c :: c in before ==>
         now[c] == if before[c].topic in left then before[c] else ClosedIfListed(all, c, before[c])
  }

  /** `after` has the channels of one list closed and the list dropped. */
  ghost predicate ListClosed(s: State, after: map<ChanId, Channel>, topic: Topic)
    requires topic in s.subscribers
  {
    && after.Keys == s.chans.Keys
    && forall c :: c in after ==>
         after[c] == if c in s.subscribers[topic] then s.chans[c].(closed := true) else s.chans[c]
  }

  lemma ListOf(s: State, topic: Topic)
    requires TableClean(s) && topic in s.subscribers
    ensures NoRepeats(s.subscribers[topic]) && ListClean(s, s.subscribers[topic], topic)
  {
  }

  lemma CleanWithout(s: State, s': State, topic: Topic)
    requires TableClean(s) && topic in s.subscribers
    requires s'.subscribers == s.subscribers - {topic} && ListClosed(s, s'.chans, topic)
    ensures TableClean(s')
  {
    hide NoRepeats;
    forall t | t in s'.subscribers
      ensures NoRepeats(s'.subscribers[t]) && ListClean(s', s'.subscribers[t], t)
    {
      assert ListClean(s, s.subscribers[t], t) && ListClean(s, s.subscribers[topic], topic);
    }
  }

  lemma ClosedOneMore(all: Lists, s: State, before: map<ChanId, Channel>, after: map<ChanId, Channel>, topic: Topic)
    requires topic in s.subscribers && ClosedSoFar(all, s.subscribers, before, s.chans)
    requires ListClean(s, s.subscribers[topic], topic) && ListClosed(s, after, topic)
    ensures ClosedSoFar(all, s.subscribers - {topic}, before, after)
  {
    forall c | c in before
      ensures after[c] ==
              if before[c].topic in s.subscribers - {topic} then before[c] else ClosedIfListed(all, c, before[c])
    {
      assert c in s.subscribers[topic] ==> s.chans[c].topic == topic;
    }
  }

  lemma ConnsWithout(peers: map<PeerId, Peer>, id: PeerId)
    requires id in peers
    ensures Conns(peers) == Conns(peers - {id}) + ConnOf(peers, id)
  {
    var rest := peers - {id};
    forall c
      ensures c in Conns(peers) <==> c in Conns(rest) + ConnOf(peers, id)
    {
      if c in Conns(peers) {
        var k :| k in peers && peers[k].conn.Some? && peers[k].conn.value == c;
        assert k == id || (k in rest && rest[k] == peers[k]);
      }
      if c in Conns(rest) {
        var k :| k in rest && rest[k].conn.Some? && rest[k].conn.value == c;
        assert k in peers && peers[k] == rest[k];
      }
    }
  }

  lemma {:induction false} WithoutAt(list: seq<ChanId>, ch: ChanId, i: nat)
    requires i < |list| && list[i] == ch && ch !in list[..i]
    ensures Without(list, ch) == list[..i] + list[i + 1..]
  {
    if i > 0 {
      assert list[..i][0] == list[0] && list[..i][1..] == list[1..][..i - 1];
      WithoutAt(list[1..], ch, i - 1);
      assert list[1..][..i - 1] + list[1..][i..] == list[1..i] + list[i + 1..];
    }
  }

  lemma {:induction false} SendAllKeepsTables(s: State, list: seq<ChanId>, n: EmitId)
    ensures var s' := SendAll(s, list, n); s' == s.(chans := s'.chans, panicked := s'.panicked)
    decreases |list|
  {
    hide Sent, SendPanics;
    if list != [] {
      SendAllKeepsTables(Send(s, list[0], n), list[1..], n);
    }
  }

  lemma {:induction false} SendAllAppend(s: State, a: seq<ChanId>, b: seq<ChanId>, n: EmitId)
    ensures SendAll(s, a + b, n) == SendAll(SendAll(s, a, n), b, n)
    decreases |a|
  {
    if a == [] {
      assert a + b == b;
    } else {
      assert (a + b)[0] == a[0] && (a + b)[1..] == a[1..] + b;
      SendAllAppend(Send(s, a[0], n), a[1..], b, n);
    }
  }
}
