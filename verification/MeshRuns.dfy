/** Every interleaving of the mesh service's steps, and what it means for connections. */
module MeshRuns {
  import opened Bytes
  import opened Mesh

  datatype Event =
    | Start
    | StopBegins
    | StopTimesOut
    | StopClosesPeers
    | StopClosesSubscribers
    | Accept(id: PeerId, conn: ConnId, now: int)
    | Connect(id: PeerId, dialed: Option<ConnId>, now: int)
    | Disconnect(id: PeerId)
    | HealthCheck(now: int)
    | Seen(id: PeerId, now: int)
    | Subscribe(topic: Topic, ch: ChanId)
    | Cancel(topic: Topic, ch: ChanId)
    | EmitEnter(topic: Topic, event: DiscoveryEvent)
    | EmitSend(n: EmitId)
    | EmitLeave(n: EmitId)
    | Receive(ch: ChanId)

  /** New connections and channels are new; a reader takes only what is there. A Connect that is emitting
      keeps the peers' lock, and no writer of the subscriber table gets its lock while an emitter is inside.
      The checks of `started` in Connect and Subscribe are made before the locked section, so they do not
      restrict it. */
  predicate Enabled(s: State, e: Event) {
    match e
    case Start => s.stopping.NoStop?
    case StopBegins => s.stopping.NoStop?
    case StopTimesOut => s.stopping.Waiting?
    case StopClosesPeers => s.stopping.Waiting? && s.connecting.None?
    case StopClosesSubscribers => s.stopping.PeersClosed? && s.inside == map[]
    case Accept(_, conn, _) => conn !in s.registered && s.connecting.None?
    case Connect(_, conn, _) => (conn.Some? ==> conn.value !in s.registered) && s.connecting.None?
    case Disconnect(_) => s.connecting.None?
    case HealthCheck(_) => s.connecting.None?
    case Seen(_, _) => s.connecting.None?
    case Subscribe(_, ch) => ch !in s.chans && s.inside == map[]
    case Cancel(_, _) => s.inside == map[]
    case EmitEnter(_, _) => true
    case EmitSend(n) => n in s.inside && s.inside[n] != []
    case EmitLeave(n) => n in s.inside && s.inside[n] == []
    case Receive(ch) => ch in s.chans && s.chans[ch].pending != []
  }

  /** Connect registers and goes on to emit to the wildcard subscribers. */
  function AfterConnect(s: State, id: PeerId, conn: Option<ConnId>, now: int): State {
    AfterEnter(AfterRegister(s, id, conn, now), ALL, DiscoveryEvent(id)).(connecting := Some(|s.log|))
  }

  ghost function Next(s: State, e: Event): State
    requires Enabled(s, e)
  {
    match e
    case Start => s.(started := true)
    case StopBegins => AfterStopBegins(s)
    case StopTimesOut => AfterStopTimesOut(s)
    case StopClosesPeers => AfterStopClosesPeers(s)
    case StopClosesSubscribers => AfterStopClosesSubscribers(s)
    case Accept(id, conn, now) => AfterRegister(s, id, Some(conn), now)
    case Connect(id, conn, now) => AfterConnect(s, id, conn, now)
    case Disconnect(id) => AfterDisconnect(s, id)
    case HealthCheck(now) => AfterHealthCheck(s, now)
    case Seen(id, now) => AfterSeen(s, id, now)
    case Subscribe(topic, ch) => AfterSubscribe(s, topic, ch)
    case Cancel(topic, ch) => AfterCancel(s, topic, ch)
    case EmitEnter(topic, event) => AfterEnter(s, topic, event)
    case EmitSend(n) => AfterSend(s, n)
    case EmitLeave(n) => AfterLeave(s, n)
    case Receive(ch) => AfterReceive(s, ch)
  }

  ghost predicate IsRun(s: State, events: seq<Event>)
    decreases |events|
  {
    events == [] || (Enabled(s, events[0]) && IsRun(Next(s, events[0]), events[1..]))
  }

  ghost function Run(s: State, events: seq<Event>): State
    requires IsRun(s, events)
    decreases |events|
  {
    if events == [] then s else Run(Next(s, events[0]), events[1..])
  }

  // Connections

  /** The connections in the table are exactly those registered and not closed, and no two peers share
      one. */
  ghost predicate NoLeak(peers: map<PeerId, Peer>, registered: set<ConnId>, shut: set<ConnId>) {
    && shut <= registered
    && (forall id :: id in peers && peers[id].conn.Some? ==> peers[id].conn.value in registered - shut)
    && (forall c :: c in registered - shut ==> InTable(peers, c))
    && (forall a, b :: a in peers && b in peers && a != b && peers[a].conn.Some? ==> peers[a].conn != peers[b].conn)
  }

  ghost predicate Sealed(s: State) {
    NoLeak(s.peers, s.registered, s.shut)
  }

  ghost predicate InTable(peers: map<PeerId, Peer>, c: ConnId) {
    exists id :: id in peers && peers[id].conn == Some(c)
  }

  lemma TableStays(before: map<PeerId, Peer>, after: map<PeerId, Peer>, gone: set<ConnId>)
    requires forall id :: id in before && before[id].conn.Some? && before[id].conn.value !in gone ==>
               id in after && after[id].conn == before[id].conn
    ensures forall c :: InTable(before, c) && c !in gone ==> InTable(after, c)
  {
    forall c | InTable(before, c) && c !in gone
      ensures InTable(after, c)
    {
      var id :| id in before && before[id].conn == Some(c);
      assert id in after && after[id].conn == Some(c);
    }
  }

  lemma RegisterNoLeak(peers: map<PeerId, Peer>, registered: set<ConnId>, shut: set<ConnId>, id: PeerId, p: Peer)
    requires NoLeak(peers, registered, shut) && (p.conn.Some? ==> p.conn.value !in registered)
    ensures NoLeak(peers[id := p], registered + (if p.conn.Some? then {p.conn.value} else {}), shut + ConnOf(peers, id))
  {
    var peers', registered' := peers[id := p], registered + (if p.conn.Some? then {p.conn.value} else {});
    var shut' := shut + ConnOf(peers, id);
    TableStays(peers, peers', ConnOf(peers, id));
    forall c | c in registered' - shut'
      ensures InTable(peers', c)
    {
      if p.conn == Some(c) {
        assert id in peers' && peers'[id].conn == Some(c);
      } else {
        assert InTable(peers, c);
      }
    }
  }

  lemma DisconnectNoLeak(peers: map<PeerId, Peer>, registered: set<ConnId>, shut: set<ConnId>, id: PeerId)
    requires NoLeak(peers, registered, shut)
    ensures NoLeak(peers - {id}, registered, shut + ConnOf(peers, id))
  {
    TableStays(peers, peers - {id}, ConnOf(peers, id));
  }

  /** Steps that keep every peer with a connection, and its connection. */
  lemma SameConnsNoLeak(peers: map<PeerId, Peer>, peers': map<PeerId, Peer>, registered: set<ConnId>, shut: set<ConnId>)
    requires NoLeak(peers, registered, shut) && peers'.Keys <= peers.Keys
    requires forall id :: id in peers' ==> peers'[id].conn == peers[id].conn
    requires forall id :: id in peers && peers[id].conn.Some? ==> id in peers'
    ensures NoLeak(peers', registered, shut)
  {
    TableStays(peers, peers', {});
  }

  lemma OpenAreInTable(peers: map<PeerId, Peer>, registered: set<ConnId>, shut: set<ConnId>)
    requires NoLeak(peers, registered, shut)
    ensures registered - shut == Conns(peers)
  {
    forall c
      ensures c in registered - shut <==> c in Conns(peers)
    {
      if c in registered - shut {
        var id :| id in peers && peers[id].conn == Some(c);
      }
    }
  }

  lemma StopNoLeak(s: State)
    requires Sealed(s)
    ensures Sealed(AfterStopClosesPeers(s))
    ensures AfterStopClosesPeers(s).registered == AfterStopClosesPeers(s).shut
  {
    OpenAreInTable(s.peers, s.registered, s.shut);
    assert s.registered <= s.shut + Conns(s.peers);
  }

  lemma SendTables(s: State, n: EmitId)
    requires Enabled(s, EmitSend(n))
    ensures var s' := AfterSend(s, n); s' == s.(chans := s'.chans, inside := s'.inside, panicked := s'.panicked)
  {
  }

  lemma ConnectTables(s: State, id: PeerId, conn: Option<ConnId>, now: int)
    ensures var s', r := AfterConnect(s, id, conn, now), AfterRegister(s, id, conn, now);
            s' == r.(log := s'.log, inside := s'.inside, connecting := s'.connecting)
  {
  }

  lemma NoLeakStep(s: State, e: Event)
    requires Sealed(s) && Enabled(s, e)
    ensures Sealed(Next(s, e))
  {
    hide NoLeak, AfterConnect, AfterSend, AfterSubscribe, AfterCancel, AfterStopClosesPeers;
    match e
    case Accept(id, conn, now) => RegisterNoLeak(s.peers, s.registered, s.shut, id, Peer(Some(conn), now));
    case Connect(id, conn, now) =>
      RegisterNoLeak(s.peers, s.registered, s.shut, id, Peer(conn, now));
      ConnectTables(s, id, conn, now);
    case Disconnect(id) => DisconnectNoLeak(s.peers, s.registered, s.shut, id);
    case HealthCheck(now) => SameConnsNoLeak(s.peers, AfterHealthCheck(s, now).peers, s.registered, s.shut);
    case Seen(id, now) => SameConnsNoLeak(s.peers, AfterSeen(s, id, now).peers, s.registered, s.shut);
    case StopClosesPeers => StopNoLeak(s);
    case EmitSend(n) => SendTables(s, n);
    case Subscribe(topic, ch) => SubscribeTables(s, topic, ch);
    case Cancel(topic, ch) => CancelTables(s, topic, ch);
    case _ =>
  }

  lemma SubscribeTables(s: State, topic: Topic, ch: ChanId)
    ensures var s' := AfterSubscribe(s, topic, ch); s' == s.(subscribers := s'.subscribers, chans := s'.chans)
  {
  }

  lemma CancelTables(s: State, topic: Topic, ch: ChanId)
    ensures var s' := AfterCancel(s, topic, ch); s' == s.(subscribers := s'.subscribers)
  {
  }

  lemma {:induction false} NoLeakRun(s: State, events: seq<Event>)
    requires Sealed(s) && IsRun(s, events)
    ensures Sealed(Run(s, events))
    decreases |events|
  {
    hide Sealed, Next, Enabled;
    if events != [] {
      NoLeakStep(s, events[0]);
      NoLeakRun(Next(s, events[0]), events[1..]);
    }
  }

  /** Over every run, a connection that was ever registered is closed if and only if it is no longer in
      the table: replacement, disconnection, health checks and Stop neither leak one nor close one that
      stays. */
  lemma ClosedIffRemoved(events: seq<Event>, c: ConnId)
    requires IsRun(Initial(), events)
    ensures var s := Run(Initial(), events);
            c in s.registered ==> (c in s.shut <==> !InTable(s.peers, c))
    ensures var s := Run(Initial(), events); c in s.shut ==> c in s.registered
  {
    hide IsRun, Run;
    NoLeakRun(Initial(), events);
  }

  /** A reader that fails disconnects its peer by name. It closes its own connection, and nothing else,
      exactly when that is still the one in the table: the reader of a connection that has been replaced
      closes the newer one and drops the peer. */
  lemma ReaderClosesOwnIff(events: seq<Event>, id: PeerId, own: ConnId)
    requires IsRun(Initial(), events)
    requires var s := Run(Initial(), events); id in s.peers && s.peers[id].conn.Some?
    ensures var s := Run(Initial(), events);
            var s' := AfterDisconnect(s, id);
            && id !in s'.peers
            && (s'.shut - s.shut == {own} <==> s.peers[id].conn == Some(own))
  {
    hide IsRun, Run, Next;
    NoLeakRun(Initial(), events);
    var s := Run(Initial(), events);
    assert s.peers[id].conn.value in s.registered - s.shut;
    assert AfterDisconnect(s, id).shut - s.shut == {s.peers[id].conn.value};
    assert s.peers[id].conn.value in {own} <==> s.peers[id].conn.value == own;
  }

  // One peer's entry

  function Entry(peers: map<PeerId, Peer>, id: PeerId): Option<Peer> {
    if id in peers then Some(peers[id]) else None
  }

  /** What an event does to the entry of one peer, whatever the others'. A health check refreshes a peer with a
      connection; one without goes once it has been silent for more than a minute. */
  function EntryAfter(e: Event, id: PeerId, entry: Option<Peer>): Option<Peer> {
    match e
    case Accept(x, conn, now) => if x == id then Some(Peer(Some(conn), now)) else entry
    case Connect(x, conn, now) => if x == id then Some(Peer(conn, now)) else entry
    case Disconnect(x) => if x == id then None else entry
    case Seen(x, now) => if x == id && entry.Some? then Some(Peer(entry.value.conn, now)) else entry
    case HealthCheck(now) =>
      if entry.Some? && entry.value.conn.Some? then Some(Peer(entry.value.conn, now))
      else if entry.Some? && now - entry.value.lastSeen > 60_000_000_000 then None
      else entry
    case StopClosesPeers => None
    case _ => entry
  }

  function EntryOf(events: seq<Event>, id: PeerId, entry: Option<Peer>): Option<Peer>
    decreases |events|
  {
    if events == [] then entry else EntryOf(events[1..], id, EntryAfter(events[0], id, entry))
  }

  lemma EntryStep(s: State, e: Event, id: PeerId)
    requires Enabled(s, e)
    ensures Entry(Next(s, e).peers, id) == EntryAfter(e, id, Entry(s.peers, id))
  {
    hide AfterConnect, AfterSend, AfterSubscribe, AfterCancel, AfterReceive;
    hide AfterRegister, AfterDisconnect, AfterHealthCheck, AfterSeen, Entry;
    match e
    case Accept(x, conn, now) => EntryRegister(s, x, Some(conn), now, id);
    case Connect(x, conn, now) =>
      EntryRegister(s, x, conn, now, id);
      ConnectTables(s, x, conn, now);
    case Disconnect(x) => EntryDisconnect(s, x, id);
    case HealthCheck(now) => EntryHealthCheck(s, now, id);
    case Seen(x, now) => EntrySeen(s, x, now, id);
    case EmitSend(n) => SendTables(s, n);
    case Subscribe(topic, ch) => SubscribeTables(s, topic, ch);
    case Cancel(topic, ch) => CancelTables(s, topic, ch);
    case Receive(ch) => ReceiveTables(s, ch);
    case StopClosesPeers => EntryNowhere(id);
    case _ =>
  }

  lemma EntryRegister(s: State, x: PeerId, conn: Option<ConnId>, now: int, id: PeerId)
    ensures Entry(AfterRegister(s, x, conn, now).peers, id) == EntryAfter(Connect(x, conn, now), id, Entry(s.peers, id))
  {
    assert AfterRegister(s, x, conn, now).peers == s.peers[x := Peer(conn, now)];
    hide AfterRegister;
    EntryUpdated(s.peers, x, Peer(conn, now), id);
  }

  lemma EntryUpdated(peers: map<PeerId, Peer>, x: PeerId, p: Peer, id: PeerId)
    ensures Entry(peers[x := p], id) == if x == id then Some(p) else Entry(peers, id)
  {
  }

  lemma EntryDisconnect(s: State, x: PeerId, id: PeerId)
    ensures Entry(AfterDisconnect(s, x).peers, id) == EntryAfter(Disconnect(x), id, Entry(s.peers, id))
  {
  }

  lemma EntryHealthCheck(s: State, now: int, id: PeerId)
    ensures Entry(AfterHealthCheck(s, now).peers, id) == EntryAfter(HealthCheck(now), id, Entry(s.peers, id))
  {
  }

  lemma EntrySeen(s: State, x: PeerId, now: int, id: PeerId)
    ensures Entry(AfterSeen(s, x, now).peers, id) == EntryAfter(Seen(x, now), id, Entry(s.peers, id))
  {
  }

  lemma EntryNowhere(id: PeerId)
    ensures Entry(map[], id) == None
  {
  }

  lemma {:induction false} EntryRun(s: State, events: seq<Event>, id: PeerId)
    requires IsRun(s, events)
    ensures Entry(Run(s, events).peers, id) == EntryOf(events, id, Entry(s.peers, id))
    decreases |events|
  {
    hide Next, Enabled, Entry, EntryAfter;
    if events != [] {
      EntryStep(s, events[0], id);
      EntryRun(Next(s, events[0]), events[1..], id);
    }
  }

  /** Over every run the table holds for each peer, connection and time, what the events about that peer, the
      health checks and the Stops have left, and for no other. */
  lemma TableFollowsEvents(events: seq<Event>, id: PeerId)
    requires IsRun(Initial(), events)
    ensures Entry(Run(Initial(), events).peers, id) == EntryOf(events, id, None)
  {
    EntryRun(Initial(), events, id);
  }

  // Stop

  /** The service runs from a Start to the next Stop, however that ends. */
  function StartedBy(events: seq<Event>, started: bool): bool
    decreases |events|
  {
    if events == [] then started
    else StartedBy(events[1..], if events[0].Start? then true else if events[0].StopBegins? then false else started)
  }

  lemma {:induction false} StartedRun(s: State, events: seq<Event>)
    requires IsRun(s, events)
    ensures Run(s, events).started == StartedBy(events, s.started)
    decreases |events|
  {
    hide Next, Enabled;
    if events != [] {
      StartedStep(s, events[0]);
      StartedRun(Next(s, events[0]), events[1..]);
    }
  }

  lemma StartedStep(s: State, e: Event)
    requires Enabled(s, e)
    ensures Next(s, e).started == if e.Start? then true else if e.StopBegins? then false else s.started
  {
    hide AfterSend, AfterConnect, AfterSubscribe, AfterCancel, AfterReceive, AfterHealthCheck, AfterRegister;
    match e
    case Accept(x, conn, now) => RegisterTables(s, x, Some(conn), now);
    case Connect(x, conn, now) =>
      RegisterTables(s, x, conn, now);
      ConnectTables(s, x, conn, now);
    case HealthCheck(now) => HealthTables(s, now);
    case EmitSend(n) => SendTables(s, n);
    case Subscribe(topic, ch) => SubscribeTables(s, topic, ch);
    case Cancel(topic, ch) => CancelTables(s, topic, ch);
    case Receive(ch) => ReceiveTables(s, ch);
    case _ =>
  }

  /** What a step does to the connection that is held for a peer. */
  function ConnAfter(e: Event, id: PeerId, conn: Option<ConnId>): Option<ConnId> {
    match e
    case Accept(x, c, _) => if x == id then Some(c) else conn
    case Connect(x, c, _) => if x == id then c else conn
    case Disconnect(x) => if x == id then None else conn
    case _ => conn
  }

  /** The last connection that the steps leave for a peer. */
  function LastConn(events: seq<Event>, id: PeerId, conn: Option<ConnId>): Option<ConnId>
    decreases |events|
  {
    if events == [] then conn else LastConn(events[1..], id, ConnAfter(events[0], id, conn))
  }

  /** The one they leave if there was none before. */
  function Remains(events: seq<Event>, id: PeerId): Option<ConnId> {
    LastConn(events, id, None)
  }

  function Held(peers: map<PeerId, Peer>, id: PeerId): Option<ConnId> {
    if id in peers then peers[id].conn else None
  }

  /** What is closed when a Stop returns nil after doing its work. Connect callers and the accept handler are
      not among the goroutines it waits for, so they may register between its two sections: everything is
      closed if and only if, for every peer, the last of those registrations and disconnections left it
      without a connection. */
  lemma StopClosesIff(before: seq<Event>, between: seq<Event>)
    requires IsRun(Initial(), before) && Enabled(Run(Initial(), before), StopClosesPeers)
    requires IsRun(AfterStopClosesPeers(Run(Initial(), before)), between)
    requires forall e :: e in between ==> !e.StopClosesSubscribers?
    requires Enabled(Run(AfterStopClosesPeers(Run(Initial(), before)), between), StopClosesSubscribers)
    ensures var s' := AfterStopClosesSubscribers(Run(AfterStopClosesPeers(Run(Initial(), before)), between));
            s'.registered == s'.shut <==> forall id :: Remains(between, id) == None
  {
    hide IsRun, Run, Next, AfterStopClosesPeers, Enabled;
    NoLeakRun(Initial(), before);
    hide Sealed;
    var s := AfterStopClosesPeers(Run(Initial(), before));
    StopNoLeak(Run(Initial(), before));
    StopEmptiesTable(Run(Initial(), before));
    NoLeakRun(s, between);
    var last := Run(s, between);
    OpenIffHeld(last);
    forall id
      ensures Held(last.peers, id) == Remains(between, id)
    {
      HeldSince(s, between, id);
    }
    StopTables(last);
  }

  lemma StopTables(s: State)
    ensures var s' := AfterStopClosesSubscribers(s); s'.registered == s.registered && s'.shut == s.shut
  {
  }

  lemma HeldSince(s: State, events: seq<Event>, id: PeerId)
    requires s.peers == map[] && s.stopping.PeersClosed?
    requires IsRun(s, events) && forall e :: e in events ==> !e.StopClosesSubscribers?
    ensures Held(Run(s, events).peers, id) == Remains(events, id)
  {
    HeldRun(s, events, id);
  }

  lemma StopEmptiesTable(s: State)
    ensures AfterStopClosesPeers(s).peers == map[] && AfterStopClosesPeers(s).stopping.PeersClosed?
  {
  }

  lemma OpenIffHeld(s: State)
    requires Sealed(s)
    ensures s.registered == s.shut <==> forall id :: Held(s.peers, id) == None
  {
    OpenAreInTable(s.peers, s.registered, s.shut);
    assert s.registered == s.shut + (s.registered - s.shut);
    NoConnsIff(s.peers);
  }

  lemma HeldIsConn(peers: map<PeerId, Peer>, id: PeerId)
    ensures Held(peers, id).Some? ==> Held(peers, id).value in Conns(peers)
  {
  }

  lemma NoConnsIff(peers: map<PeerId, Peer>)
    ensures Conns(peers) == {} <==> forall id :: Held(peers, id) == None
  {
    if Conns(peers) == {} {
      forall id
        ensures Held(peers, id) == None
      {
        HeldIsConn(peers, id);
      }
    } else {
      var c :| c in Conns(peers);
      var id :| id in peers && peers[id].conn.Some? && peers[id].conn.value == c;
      assert Held(peers, id) != None;
    }
  }

  lemma {:induction false} HeldRun(s: State, events: seq<Event>, id: PeerId)
    requires IsRun(s, events) && s.stopping.PeersClosed? && forall e :: e in events ==> !e.StopClosesSubscribers?
    ensures Held(Run(s, events).peers, id) == LastConn(events, id, Held(s.peers, id))
    decreases |events|
  {
    hide Next, Enabled, Held, ConnAfter;
    if events != [] {
      assert events[0] in events && forall e :: e in events[1..] ==> e in events;
      HeldStep(s, events[0], id);
      HeldRun(Next(s, events[0]), events[1..], id);
    }
  }

  lemma HeldStep(s: State, e: Event, id: PeerId)
    requires Enabled(s, e) && s.stopping.PeersClosed? && !e.StopClosesSubscribers?
    ensures Next(s, e).stopping.PeersClosed?
    ensures Held(Next(s, e).peers, id) == ConnAfter(e, id, Held(s.peers, id))
  {
    EntryStep(s, e, id);
    hide AfterSend, AfterConnect, AfterSubscribe, AfterCancel, AfterReceive, AfterHealthCheck, AfterRegister;
    match e
    case Accept(x, conn, now) => RegisterTables(s, x, Some(conn), now);
    case Connect(x, conn, now) =>
      RegisterTables(s, x, conn, now);
      ConnectTables(s, x, conn, now);
    case HealthCheck(now) => HealthTables(s, now);
    case EmitSend(n) => SendTables(s, n);
    case Subscribe(topic, ch) => SubscribeTables(s, topic, ch);
    case Cancel(topic, ch) => CancelTables(s, topic, ch);
    case Receive(ch) => ReceiveTables(s, ch);
    case _ =>
  }

  lemma RegisterTables(s: State, id: PeerId, conn: Option<ConnId>, now: int)
    ensures var s' := AfterRegister(s, id, conn, now); s'.stopping == s.stopping && s'.started == s.started
  {
  }

  lemma ReceiveTables(s: State, ch: ChanId)
    requires Enabled(s, Receive(ch))
    ensures AfterReceive(s, ch) == s.(chans := AfterReceive(s, ch).chans)
  {
  }

  lemma HealthTables(s: State, now: int)
    ensures var s' := AfterHealthCheck(s, now); s' == s.(peers := s'.peers, connectedPeers := s'.connectedPeers)
  {
  }

  /** A Stop of a service that is not running changes nothing: it leaves everything closed exactly when no
      peer has a connection. */
  lemma IdleStopClosesIff(events: seq<Event>)
    requires IsRun(Initial(), events)
    requires var s := Run(Initial(), events); s.stopping.NoStop? && !s.started
    ensures var s := Run(Initial(), events);
            Next(s, StopBegins) == s && (s.registered == s.shut <==> Conns(s.peers) == {})
  {
    hide IsRun, Run;
    NoLeakRun(Initial(), events);
    var s := Run(Initial(), events);
    OpenAreInTable(s.peers, s.registered, s.shut);
    assert s.registered == s.shut + (s.registered - s.shut);
  }

  /** A Connect that passed its check before Stop began registers between the sections: Stop returns nil
      and the connection is open. */
  lemma LateConnectLeaks(id: PeerId)
    ensures var events := [Start, StopBegins, StopClosesPeers, Connect(id, Some(1), 0), EmitLeave(0),
                           StopClosesSubscribers];
            && IsRun(Initial(), events)
            && 1 in Run(Initial(), events).registered && 1 !in Run(Initial(), events).shut
  {
    var s5 := AfterLeave(Late(id), 0);
    LateFacts(id);
    StopTables(s5);
    OneMore(s5, StopClosesSubscribers, []);
    OneMore(Late(id), EmitLeave(0), [StopClosesSubscribers]);
    LatePrelude(id, [EmitLeave(0)] + [StopClosesSubscribers]);
    assert [Start, StopBegins, StopClosesPeers, Connect(id, Some(1), 0)] + ([EmitLeave(0)] + [StopClosesSubscribers])
        == [Start, StopBegins, StopClosesPeers, Connect(id, Some(1), 0), EmitLeave(0), StopClosesSubscribers];
  }

  /** Stop has closed the peers and Connect has registered. */
  function Late(id: PeerId): State {
    AfterConnect(AfterStopClosesPeers(AfterStopBegins(Initial().(started := true))), id, Some(1), 0)
  }

  lemma LateFacts(id: PeerId)
    ensures var s := Late(id);
            && s.inside == map[0 := []] && s.stopping.PeersClosed? && 1 in s.registered && 1 !in s.shut
            && AfterLeave(s, 0).inside == map[]
  {
    var s := AfterStopClosesPeers(AfterStopBegins(Initial().(started := true)));
    assert Conns(map[]) == {} && s.shut == {} + {} == {};
  }

  lemma LatePrelude(id: PeerId, rest: seq<Event>)
    requires IsRun(Late(id), rest)
    ensures var events := [Start, StopBegins, StopClosesPeers, Connect(id, Some(1), 0)] + rest;
            IsRun(Initial(), events) && Run(Initial(), events) == Run(Late(id), rest)
  {
    var connect := Connect(id, Some(1), 0);
    var s1 := Initial().(started := true);
    var s2 := AfterStopBegins(s1);
    var s3 := AfterStopClosesPeers(s2);
    hide AfterConnect;
    assert Next(Initial(), Start) == s1 && Next(s1, StopBegins) == s2 && Next(s2, StopClosesPeers) == s3;
    assert Next(s3, connect) == Late(id);
    assert Enabled(Initial(), Start) && Enabled(s1, StopBegins) && Enabled(s2, StopClosesPeers) && Enabled(s3, connect);
    hide Next, Enabled, Late, AfterStopBegins, AfterStopClosesPeers;
    var l3 := [connect] + rest;
    var l2 := [StopClosesPeers] + l3;
    var l1 := [StopBegins] + l2;
    OneMore(s3, connect, rest);
    OneMore(s2, StopClosesPeers, l3);
    OneMore(s1, StopBegins, l2);
    OneMore(Initial(), Start, l1);
    assert [Start] + l1 == [Start, StopBegins, StopClosesPeers, connect] + rest;
  }

  /** A Stop that timed out makes the next one do nothing: the connection stays open. */
  lemma TimedOutStopLeaks(id: PeerId)
    ensures var events := [Start, Accept(id, 1, 0), StopBegins, StopTimesOut, StopBegins];
            && IsRun(Initial(), events) && Run(Initial(), events).stopping.NoStop?
            && 1 in Run(Initial(), events).registered && 1 !in Run(Initial(), events).shut
  {
    var s1 := Next(Initial(), Start);
    var s2 := Next(s1, Accept(id, 1, 0));
    var s3 := Next(s2, StopBegins);
    var s4 := Next(s3, StopTimesOut);
    var l3 := [StopTimesOut] + [StopBegins];
    var l2 := [StopBegins] + l3;
    var l1 := [Accept(id, 1, 0)] + l2;
    OneMore(s4, StopBegins, []);
    OneMore(s3, StopTimesOut, [StopBegins]);
    OneMore(s2, StopBegins, l3);
    OneMore(s1, Accept(id, 1, 0), l2);
    OneMore(Initial(), Start, l1);
    assert [Start] + l1 == [Start, Accept(id, 1, 0), StopBegins, StopTimesOut, StopBegins];
  }

  /** The reader of a replaced connection closes the newer one. */
  lemma OldReaderClosesNewer(id: PeerId)
    ensures var events := [Start, Accept(id, 1, 0), Accept(id, 2, 0), Disconnect(id)];
            && IsRun(Initial(), events)
            && 2 in Run(Initial(), events).shut && id !in Run(Initial(), events).peers
  {
    var s1 := Next(Initial(), Start);
    var s2 := Next(s1, Accept(id, 1, 0));
    var s3 := Next(s2, Accept(id, 2, 0));
    var l2 := [Accept(id, 2, 0)] + [Disconnect(id)];
    var l1 := [Accept(id, 1, 0)] + l2;
    OneMore(s3, Disconnect(id), []);
    OneMore(s2, Accept(id, 2, 0), [Disconnect(id)]);
    OneMore(s1, Accept(id, 1, 0), l2);
    OneMore(Initial(), Start, l1);
    assert [Start] + l1 == [Start, Accept(id, 1, 0), Accept(id, 2, 0), Disconnect(id)];
  }

  lemma OneMore(s: State, e: Event, events: seq<Event>)
    requires Enabled(s, e) && IsRun(Next(s, e), events)
    ensures IsRun(s, [e] + events) && Run(s, [e] + events) == Run(Next(s, e), events)
  {
    assert ([e] + events)[1..] == events;
  }

  /** The ConnectedPeers counter follows the table through every step but one: a Stop that empties a
      table with peers in it. */
  lemma CounterFollowsTableIff(s: State, e: Event)
    requires Enabled(s, e) && s.connectedPeers == |s.peers|
    ensures Next(s, e).connectedPeers == |Next(s, e).peers| <==> !(e.StopClosesPeers? && s.peers != map[])
  {
    hide AfterConnect, AfterSend;
    match e
    case Connect(id, conn, now) => ConnectTables(s, id, conn, now);
    case EmitSend(n) => SendTables(s, n);
    case Seen(id, now) => assert id in s.peers ==> Next(s, e).peers.Keys == s.peers.Keys;
    case _ =>
  }
}
