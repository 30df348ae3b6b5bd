/** What subscribers see, over every interleaving of the mesh service's steps, emissions that overlap
    included. */
module MeshEvents {
  import opened Bytes
  import opened Mesh
  import opened MeshRuns

  type Channels = map<ChanId, Channel>
  type Emitters = map<EmitId, seq<ChanId>>

  /** A subscriber is meant to see the emissions of its topic, or all, that began after it subscribed. */
  predicate Wanted(c: Channel, log: seq<Emitted>, n: EmitId) {
    c.since <= n < |log| && (c.topic == ALL || log[n].topic == c.topic)
  }

  /** What the channel's reader has and will get. */
  function Seen(c: Channel): seq<EmitId> {
    c.received + c.pending
  }

  /** An emitter is inside and has yet to send to the channel. */
  predicate Awaits(inside: Emitters, n: EmitId, id: ChanId) {
    n in inside && id in inside[n]
  }

  predicate Listed(lists: Lists, id: ChanId, c: Channel) {
    id in List(lists, c.topic)
  }

  // The invariant

  /** Only wanted emissions, each at most once, and no more waiting than there is room. */
  ghost predicate Selects(c: Channel, id: ChanId, log: seq<Emitted>, inside: Emitters) {
    && c.since <= |log| && |c.pending| <= CAPACITY
    && NoRepeats(Seen(c))
    && (forall n :: n in Seen(c) ==> Wanted(c, log, n))
    && (forall n :: n in c.dropped ==> Wanted(c, log, n) && n !in Seen(c))
    && (forall n :: Awaits(inside, n, id) ==> Wanted(c, log, n) && n !in Seen(c) && n !in c.dropped)
  }

  /** Every wanted emission is seen, was dropped, or is on its way. */
  ghost predicate Complete(c: Channel, id: ChanId, log: seq<Emitted>, inside: Emitters) {
    forall n :: Wanted(c, log, n) ==> n in Seen(c) || n in c.dropped || Awaits(inside, n, id)
  }

  /** Seen out of the order in which they began only if the earlier one was still under way when the later
      one began. */
  ghost predicate InOrder(seen: seq<EmitId>, log: seq<Emitted>) {
    forall i, j :: 0 <= i < j < |seen| && seen[j] < seen[i] < |log| ==> seen[j] in log[seen[i]].overlapping
  }

  ghost predicate ChannelInv(c: Channel, id: ChanId, listed: bool, log: seq<Emitted>, inside: Emitters) {
    && Selects(c, id, log, inside) && InOrder(Seen(c), log)
    && (listed ==> Complete(c, id, log, inside))
  }

  ghost predicate ChannelsInv(lists: Lists, chans: Channels, log: seq<Emitted>, inside: Emitters) {
    forall id :: id in chans ==> ChannelInv(chans[id], id, Listed(lists, id, chans[id]), log, inside)
  }

  /** An emitter inside has begun, sends to open channels, to none twice, and overlaps all that began since. */
  ghost predicate EmitterInv(n: EmitId, todo: seq<ChanId>, chans: Channels, log: seq<Emitted>) {
    && n < |log| && NoRepeats(todo)
    && (forall ch :: ch in todo ==> ch in chans && !chans[ch].closed)
    && (forall a :: n < a < |log| ==> n in log[a].overlapping)
  }

  ghost predicate EmittersInv(chans: Channels, log: seq<Emitted>, inside: Emitters) {
    forall n :: n in inside ==> EmitterInv(n, inside[n], chans, log)
  }

  /** The table part, on the parts of the state it reads. */
  ghost predicate Clean(lists: Lists, chans: Channels) {
    forall t :: t in lists ==> NoRepeats(lists[t]) && AllOpen(chans, lists[t], t)
  }

  ghost predicate AllOpen(chans: Channels, list: seq<ChanId>, t: Topic) {
    forall c :: c in list ==> c in chans && !chans[c].closed && chans[c].topic == t
  }

  ghost predicate Inv(s: State) {
    && !s.panicked && Clean(s.subscribers, s.chans)
    && EmittersInv(s.chans, s.log, s.inside)
    && ChannelsInv(s.subscribers, s.chans, s.log, s.inside)
  }

  lemma CleanIsTableClean(s: State)
    ensures Clean(s.subscribers, s.chans) <==> TableClean(s)
  {
    if Clean(s.subscribers, s.chans) {
      forall t | t in s.subscribers
        ensures NoRepeats(s.subscribers[t]) && ListClean(s, s.subscribers[t], t)
      {
        assert AllOpen(s.chans, s.subscribers[t], t);
      }
    }
    if TableClean(s) {
      forall t | t in s.subscribers
        ensures NoRepeats(s.subscribers[t]) && AllOpen(s.chans, s.subscribers[t], t)
      {
        assert ListClean(s, s.subscribers[t], t);
      }
    }
  }

  /** Keeping topics and closed flags keeps the table and the emitters as they should be. */
  lemma CleanKept(lists: Lists, chans: Channels, chans': Channels)
    requires Clean(lists, chans) && SameKinds(chans, chans')
    ensures Clean(lists, chans')
  {
    forall t | t in lists
      ensures NoRepeats(lists[t]) && AllOpen(chans', lists[t], t)
    {
      assert AllOpen(chans, lists[t], t);
    }
  }

  ghost predicate SameKinds(chans: Channels, chans': Channels) {
    && chans.Keys <= chans'.Keys
    && forall id :: id in chans ==> chans'[id].topic == chans[id].topic && chans'[id].closed == chans[id].closed
  }

  lemma EmittersKept(chans: Channels, chans': Channels, log: seq<Emitted>, inside: Emitters)
    requires EmittersInv(chans, log, inside) && SameKinds(chans, chans')
    ensures EmittersInv(chans', log, inside)
  {
    hide NoRepeats;
    forall n | n in inside
      ensures EmitterInv(n, inside[n], chans', log)
    {
      assert EmitterInv(n, inside[n], chans, log);
    }
  }

  // An emitter enters

  /** Everything it is going to send to. */
  lemma TargetsOf(lists: Lists, chans: Channels, topic: Topic)
    requires Clean(lists, chans)
    ensures NoRepeats(Targets(lists, topic))
    ensures forall ch :: ch in Targets(lists, topic) ==>
              && ch in chans && !chans[ch].closed && Listed(lists, ch, chans[ch])
              && (chans[ch].topic == ALL || chans[ch].topic == topic)
    ensures forall ch :: ch in chans && Listed(lists, ch, chans[ch])
                         && (chans[ch].topic == ALL || chans[ch].topic == topic) ==>
              ch in Targets(lists, topic)
  {
    var own, all := List(lists, topic), List(lists, ALL);
    assert own != [] ==> AllOpen(chans, own, topic);
    assert all != [] ==> AllOpen(chans, all, ALL);
    NoRepeatsList(lists, chans, topic);
    NoRepeatsList(lists, chans, ALL);
    if topic != ALL {
      NoRepeatsJoined(own, all);
    } else {
      assert own + [] == own;
    }
  }

  lemma NoRepeatsList(lists: Lists, chans: Channels, topic: Topic)
    requires Clean(lists, chans)
    ensures NoRepeats(List(lists, topic))
  {
  }

  lemma NoRepeatsJoined(a: seq<nat>, b: seq<nat>)
    requires NoRepeats(a) && NoRepeats(b) && forall x :: x in a ==> x !in b
    ensures NoRepeats(a + b)
  {
    forall i, j | 0 <= i < j < |a + b|
      ensures (a + b)[i] != (a + b)[j]
    {
      if i < |a| <= j {
        assert (a + b)[i] in a && (a + b)[j] in b;
      }
    }
  }

  lemma EnterInv(s: State, topic: Topic, event: DiscoveryEvent)
    requires Inv(s)
    ensures Inv(AfterEnter(s, topic, event))
  {
    var s' := AfterEnter(s, topic, event);
    TargetsOf(s.subscribers, s.chans, topic);
    hide Clean, NoRepeats, Targets, Listed, ChannelInv, EmitterInv;
    forall n | n in s'.inside
      ensures EmitterInv(n, s'.inside[n], s'.chans, s'.log)
    {
      EnterEmitter(s, topic, event, n);
    }
    forall id | id in s'.chans
      ensures ChannelInv(s'.chans[id], id, Listed(s'.subscribers, id, s'.chans[id]), s'.log, s'.inside)
    {
      EnterChannel(s, topic, event, id);
    }
  }

  lemma EnterEmitter(s: State, topic: Topic, event: DiscoveryEvent, n: EmitId)
    requires Inv(s) && n in AfterEnter(s, topic, event).inside
    ensures var s' := AfterEnter(s, topic, event); EmitterInv(n, s'.inside[n], s'.chans, s'.log)
  {
    TargetsOf(s.subscribers, s.chans, topic);
    hide Clean, NoRepeats, Targets, Listed, ChannelsInv;
    if n != |s.log| {
      assert EmitterInv(n, s.inside[n], s.chans, s.log);
    }
  }

  lemma EnterChannel(s: State, topic: Topic, event: DiscoveryEvent, id: ChanId)
    requires Inv(s) && id in s.chans
    ensures var s' := AfterEnter(s, topic, event);
            ChannelInv(s'.chans[id], id, Listed(s'.subscribers, id, s'.chans[id]), s'.log, s'.inside)
  {
    TargetsOf(s.subscribers, s.chans, topic);
    hide Clean, NoRepeats, Targets, Listed, EmittersInv, ChannelInv;
    var c, s', n := s.chans[id], AfterEnter(s, topic, event), |s.log|;
    assert ChannelInv(c, id, Listed(s.subscribers, id, c), s.log, s.inside);
    EnterKeepsChannel(c, id, Listed(s.subscribers, id, c), s.log, s.inside, Targets(s.subscribers, topic),
                      Emitted(topic, event, s.inside.Keys));
  }

  lemma EnterKeepsChannel(c: Channel, id: ChanId, listed: bool, log: seq<Emitted>, inside: Emitters,
                          targets: seq<ChanId>, x: Emitted)
    requires ChannelInv(c, id, listed, log, inside)
    requires id in targets ==> c.topic == ALL || x.topic == c.topic
    requires listed && (c.topic == ALL || x.topic == c.topic) ==> id in targets
    requires id in targets ==> !c.closed
    ensures ChannelInv(c, id, listed, log + [x], inside[|log| := targets])
  {
    hide NoRepeats;
    var log', inside' := log + [x], inside[|log| := targets];
    assert forall n :: Wanted(c, log', n) <==>
                       Wanted(c, log, n) || (n == |log| && (c.topic == ALL || x.topic == c.topic));
    hide Wanted;
    assert !Awaits(inside, |log|, id) || Wanted(c, log, |log|);
    NotYet(c, log);
    assert forall n :: Awaits(inside', n, id) <==>
                       (Awaits(inside, n, id) && n != |log|) || (n == |log| && id in targets);
    StillInOrder(Seen(c), log, x);
  }

  lemma NotYet(c: Channel, log: seq<Emitted>)
    ensures forall n: nat :: Wanted(c, log, n) ==> n < |log|
  {
  }

  lemma StillInOrder(seen: seq<EmitId>, log: seq<Emitted>, x: Emitted)
    requires InOrder(seen, log) && forall n :: n in seen ==> n < |log|
    ensures InOrder(seen, log + [x])
  {
    forall i, j | 0 <= i < j < |seen| && seen[j] < seen[i] < |log + [x]|
      ensures seen[j] in (log + [x])[seen[i]].overlapping
    {
      assert seen[i] in seen;
    }
  }

  // An emitter sends

  lemma SendInv(s: State, n: EmitId)
    requires Inv(s) && n in s.inside && s.inside[n] != []
    ensures Inv(AfterSend(s, n))
  {
    hide Clean, NoRepeats, Listed, ChannelInv, Offer;
    var ch, s' := s.inside[n][0], AfterSend(s, n);
    assert EmitterInv(n, s.inside[n], s.chans, s.log);
    OfferKeepsKind(s.chans[ch], n);
    CleanKept(s.subscribers, s.chans, s'.chans);
    forall m | m in s'.inside
      ensures EmitterInv(m, s'.inside[m], s'.chans, s'.log)
    {
      SendEmitter(s, n, m);
    }
    forall id | id in s'.chans
      ensures ChannelInv(s'.chans[id], id, Listed(s'.subscribers, id, s'.chans[id]), s'.log, s'.inside)
    {
      SendChannel(s, n, id);
    }
  }

  lemma OfferKeepsKind(c: Channel, n: EmitId)
    ensures var c' := Offer(c, n); c'.topic == c.topic && c'.closed == c.closed && c'.since == c.since
  {
  }

  lemma SendEmitter(s: State, n: EmitId, m: EmitId)
    requires Inv(s) && n in s.inside && s.inside[n] != [] && m in s.inside
    ensures var s' := AfterSend(s, n); EmitterInv(m, s'.inside[m], s'.chans, s'.log)
  {
    hide Clean, ChannelsInv, Offer, NoRepeats;
    assert EmitterInv(n, s.inside[n], s.chans, s.log) && EmitterInv(m, s.inside[m], s.chans, s.log);
    OfferKeepsKind(s.chans[s.inside[n][0]], n);
    NoRepeatsTail(s.inside[n]);
  }

  lemma SendChannel(s: State, n: EmitId, id: ChanId)
    requires Inv(s) && n in s.inside && s.inside[n] != [] && id in s.chans
    ensures var s' := AfterSend(s, n);
            ChannelInv(s'.chans[id], id, Listed(s'.subscribers, id, s'.chans[id]), s'.log, s'.inside)
  {
    hide Clean, NoRepeats, Listed;
    var todo, c := s.inside[n], s.chans[id];
    assert EmitterInv(n, todo, s.chans, s.log);
    assert ChannelInv(c, id, Listed(s.subscribers, id, c), s.log, s.inside);
    NoRepeatsTail(todo);
    hide EmittersInv, ChannelsInv, EmitterInv, ChannelInv, Offer;
    var inside' := s.inside[n := todo[1..]];
    assert forall x :: x in todo <==> x == todo[0] || x in todo[1..];
    if id == todo[0] {
      OfferKeepsKind(c, n);
      assert Awaits(s.inside, n, id);
      OfferKeepsChannel(c, id, Listed(s.subscribers, id, c), s.log, s.inside, inside', n);
      SameListing(s.subscribers, id, c, Offer(c, n));
    } else {
      assert forall m :: Awaits(inside', m, id) <==> Awaits(s.inside, m, id);
      SameAwaits(c, id, Listed(s.subscribers, id, c), s.log, s.inside, inside');
    }
  }

  lemma SameListing(lists: Lists, id: ChanId, c: Channel, c': Channel)
    requires c.topic == c'.topic
    ensures Listed(lists, id, c) <==> Listed(lists, id, c')
  {
  }

  lemma SameAwaits(c: Channel, id: ChanId, listed: bool, log: seq<Emitted>, inside: Emitters, inside': Emitters)
    requires ChannelInv(c, id, listed, log, inside)
    requires forall m :: Awaits(inside', m, id) <==> Awaits(inside, m, id)
    ensures ChannelInv(c, id, listed, log, inside')
  {
    hide NoRepeats, Awaits, Wanted, Seen;
  }

  /** The channel an emitter comes to: it sees the emission, or it is full. */
  lemma OfferKeepsChannel(c: Channel, id: ChanId, listed: bool, log: seq<Emitted>, inside: Emitters, inside': Emitters,
                          n: EmitId)
    requires ChannelInv(c, id, listed, log, inside) && Awaits(inside, n, id)
    requires forall a :: n < a < |log| ==> n in log[a].overlapping
    requires forall m :: Awaits(inside', m, id) <==> Awaits(inside, m, id) && m != n
    ensures ChannelInv(Offer(c, n), id, listed, log, inside')
  {
    hide NoRepeats, Awaits;
    var c', seen := Offer(c, n), Seen(c);
    assert forall m :: Wanted(c', log, m) <==> Wanted(c, log, m);
    if |c.pending| < CAPACITY {
      assert Seen(c') == seen + [n];
      NoRepeatsSnoc(seen, n);
      OneMoreInOrder(seen, log, n);
    } else {
      assert Seen(c') == seen;
    }
  }

  lemma NoRepeatsSnoc(list: seq<nat>, n: nat)
    requires NoRepeats(list) && n !in list
    ensures NoRepeats(list + [n])
  {
  }

  lemma OneMoreInOrder(seen: seq<EmitId>, log: seq<Emitted>, n: EmitId)
    requires InOrder(seen, log) && forall a :: n < a < |log| ==> n in log[a].overlapping
    ensures InOrder(seen + [n], log)
  {
  }

  // An emitter leaves

  lemma LeaveInv(s: State, n: EmitId)
    requires Inv(s) && n in s.inside && s.inside[n] == []
    ensures Inv(AfterLeave(s, n))
  {
    hide Clean, Listed, EmitterInv;
    var s' := AfterLeave(s, n);
    assert forall m :: m in s'.inside ==> m in s.inside && s'.inside[m] == s.inside[m];
    forall id | id in s'.chans
      ensures ChannelInv(s'.chans[id], id, Listed(s'.subscribers, id, s'.chans[id]), s'.log, s'.inside)
    {
      var c := s.chans[id];
      assert ChannelInv(c, id, Listed(s.subscribers, id, c), s.log, s.inside);
      hide ChannelInv;
      assert forall m :: Awaits(s'.inside, m, id) <==> Awaits(s.inside, m, id);
      SameAwaits(c, id, Listed(s.subscribers, id, c), s.log, s.inside, s'.inside);
    }
  }

  // Writers of the table: no emitter is inside

  lemma SubscribeInv(s: State, topic: Topic, ch: ChanId)
    requires Inv(s) && ch !in s.chans && s.inside == map[]
    ensures Inv(AfterSubscribe(s, topic, ch))
  {
    hide ChannelInv;
    var s' := AfterSubscribe(s, topic, ch);
    SubscribeClean(s, topic, ch);
    forall id | id in s'.chans
      ensures ChannelInv(s'.chans[id], id, Listed(s'.subscribers, id, s'.chans[id]), s'.log, s'.inside)
    {
      if id != ch {
        assert ChannelInv(s.chans[id], id, Listed(s.subscribers, id, s.chans[id]), s.log, s.inside);
      } else {
        NewChannel(s'.chans[ch], ch, Listed(s'.subscribers, ch, s'.chans[ch]), s.log);
      }
    }
  }

  lemma NewChannel(c: Channel, id: ChanId, listed: bool, log: seq<Emitted>)
    requires c == Channel(c.topic, |log|, [], [], {}, false)
    ensures ChannelInv(c, id, listed, log, map[])
  {
  }

  lemma SubscribeClean(s: State, topic: Topic, ch: ChanId)
    requires Clean(s.subscribers, s.chans) && ch !in s.chans
    ensures var s' := AfterSubscribe(s, topic, ch); Clean(s'.subscribers, s'.chans)
  {
    var s' := AfterSubscribe(s, topic, ch);
    CleanKept(s.subscribers, s.chans, s'.chans);
    var list := List(s.subscribers, topic);
    assert list != [] ==> AllOpen(s.chans, list, topic);
    forall t | t in s'.subscribers
      ensures NoRepeats(s'.subscribers[t]) && AllOpen(s'.chans, s'.subscribers[t], t)
    {
      if t != topic {
        assert AllOpen(s'.chans, s.subscribers[t], t);
      } else {
        assert ch !in list;
        NoRepeatsList(s.subscribers, s.chans, topic);
        NoRepeatsSnoc(list, ch);
      }
    }
  }

  lemma NoRepeatsTail(list: seq<nat>)
    requires list != [] && NoRepeats(list)
    ensures NoRepeats(list[1..]) && list[0] !in list[1..]
  {
    assert forall i :: 0 <= i < |list| - 1 ==> list[1..][i] == list[i + 1];
  }

  lemma NoRepeatsCons(c: nat, list: seq<nat>)
    requires NoRepeats(list) && c !in list
    ensures NoRepeats([c] + list)
  {
  }

  lemma {:induction false} WithoutKeepsOrder(list: seq<ChanId>, ch: ChanId)
    requires NoRepeats(list)
    ensures NoRepeats(Without(list, ch))
    ensures forall c :: c in Without(list, ch) <==> c in list && c != ch
  {
    if list != [] {
      NoRepeatsTail(list);
      hide NoRepeats;
      assert forall c :: c in list <==> c == list[0] || c in list[1..];
      if list[0] != ch {
        WithoutKeepsOrder(list[1..], ch);
        NoRepeatsCons(list[0], Without(list[1..], ch));
      }
    }
  }

  lemma CancelInv(s: State, topic: Topic, ch: ChanId)
    requires Inv(s) && s.inside == map[]
    ensures Inv(AfterCancel(s, topic, ch))
  {
    hide ChannelInv;
    var s' := AfterCancel(s, topic, ch);
    if ch in List(s.subscribers, topic) {
      CancelClean(s, topic, ch);
      forall id | id in s'.chans
        ensures ChannelInv(s'.chans[id], id, Listed(s'.subscribers, id, s'.chans[id]), s'.log, s'.inside)
      {
        var c := s.chans[id];
        assert ChannelInv(c, id, Listed(s.subscribers, id, c), s.log, s.inside);
        Unlisted(c, id, Listed(s.subscribers, id, c), Listed(s'.subscribers, id, c), s.log, s.inside);
      }
    }
  }

  lemma Unlisted(c: Channel, id: ChanId, listed: bool, listed': bool, log: seq<Emitted>, inside: Emitters)
    requires ChannelInv(c, id, listed, log, inside) && (listed' ==> listed)
    ensures ChannelInv(c, id, listed', log, inside)
  {
  }

  lemma CancelClean(s: State, topic: Topic, ch: ChanId)
    requires Clean(s.subscribers, s.chans) && ch in List(s.subscribers, topic)
    ensures var s' := AfterCancel(s, topic, ch);
            && Clean(s'.subscribers, s'.chans)
            && forall id, t :: id in List(s'.subscribers, t) ==> id in List(s.subscribers, t)
  {
    var s' := AfterCancel(s, topic, ch);
    WithoutKeepsOrder(s.subscribers[topic], ch);
    forall t | t in s'.subscribers
      ensures NoRepeats(s'.subscribers[t]) && AllOpen(s'.chans, s'.subscribers[t], t)
    {
      assert AllOpen(s.chans, s.subscribers[t], t);
    }
  }

  lemma StopInv(s: State)
    requires Inv(s) && s.inside == map[]
    ensures Inv(AfterStopClosesSubscribers(s))
  {
    CleanIsTableClean(s);
    hide Clean, NoRepeats, ListClean, ChannelInv;
    var s' := AfterStopClosesSubscribers(s);
    NothingListed(s');
    forall id | id in s'.chans
      ensures ChannelInv(s'.chans[id], id, Listed(s'.subscribers, id, s'.chans[id]), s'.log, s'.inside)
    {
      var c := s.chans[id];
      assert ChannelInv(c, id, Listed(s.subscribers, id, c), s.log, s.inside);
      ClosingKeepsChannel(c, s'.chans[id], id, Listed(s.subscribers, id, c), s.log, s.inside);
    }
  }

  lemma ClosingKeepsChannel(c: Channel, c': Channel, id: ChanId, listed: bool, log: seq<Emitted>, inside: Emitters)
    requires ChannelInv(c, id, listed, log, inside) && (c' == c || c' == c.(closed := true))
    ensures ChannelInv(c', id, false, log, inside)
  {
    assert Seen(c') == Seen(c) && forall n :: Wanted(c', log, n) <==> Wanted(c, log, n);
  }

  lemma NothingListed(s: State)
    requires s.subscribers == map[]
    ensures Clean(s.subscribers, s.chans) && forall id :: id in s.chans ==> !Listed(s.subscribers, id, s.chans[id])
  {
  }

  // Readers and the peer table

  lemma ReceiveKeepsChannel(c: Channel, id: ChanId, listed: bool, log: seq<Emitted>, inside: Emitters)
    requires ChannelInv(c, id, listed, log, inside) && c.pending != []
    ensures ChannelInv(c.(pending := c.pending[1..], received := c.received + [c.pending[0]]), id, listed, log, inside)
  {
    hide NoRepeats, Awaits;
    var c' := c.(pending := c.pending[1..], received := c.received + [c.pending[0]]);
    assert c.received + c.pending == c.received + [c.pending[0]] + c.pending[1..];
    assert Seen(c') == Seen(c) && forall n :: Wanted(c', log, n) <==> Wanted(c, log, n);
  }

  lemma ReceiveInv(s: State, ch: ChanId)
    requires Inv(s) && ch in s.chans && s.chans[ch].pending != []
    ensures Inv(AfterReceive(s, ch))
  {
    hide ChannelInv;
    var s' := AfterReceive(s, ch);
    CleanKept(s.subscribers, s.chans, s'.chans);
    EmittersKept(s.chans, s'.chans, s.log, s.inside);
    forall id | id in s'.chans
      ensures ChannelInv(s'.chans[id], id, Listed(s'.subscribers, id, s'.chans[id]), s'.log, s'.inside)
    {
      var c := s.chans[id];
      assert ChannelInv(c, id, Listed(s.subscribers, id, c), s.log, s.inside);
      if id == ch {
        ReceiveKeepsChannel(c, id, Listed(s.subscribers, id, c), s.log, s.inside);
      }
    }
  }

  lemma RegisterInv(s: State, id: PeerId, conn: Option<ConnId>, now: int)
    requires Inv(s)
    ensures Inv(AfterRegister(s, id, conn, now)) && AfterRegister(s, id, conn, now).log == s.log
  {
    hide Clean, ChannelsInv, EmittersInv;
  }

  lemma ConnectInv(s: State, id: PeerId, conn: Option<ConnId>, now: int)
    requires Inv(s)
    ensures Inv(AfterConnect(s, id, conn, now))
  {
    hide Clean, ChannelsInv, EmittersInv, AfterEnter, AfterRegister;
    RegisterInv(s, id, conn, now);
    EnterInv(AfterRegister(s, id, conn, now), ALL, DiscoveryEvent(id));
  }

  /** The steps on the peer table and on the service's own state. */
  lemma PeerStepInv(s: State, e: Event)
    requires Inv(s) && Enabled(s, e)
    requires e.Start? || e.StopBegins? || e.StopTimesOut? || e.StopClosesPeers? || e.Accept? || e.Disconnect?
             || e.HealthCheck? || e.Seen?
    ensures Inv(Next(s, e))
  {
    hide Clean, ChannelsInv, EmittersInv, AfterHealthCheck;
    if e.HealthCheck? {
      HealthTables(s, e.now);
    }
  }

  lemma InvStep(s: State, e: Event)
    requires Inv(s) && Enabled(s, e)
    ensures Inv(Next(s, e))
  {
    hide AfterConnect, AfterEnter, AfterSend, AfterLeave, AfterSubscribe, AfterCancel, AfterReceive;
    hide Inv, AfterStopClosesSubscribers, AfterRegister, AfterHealthCheck, AfterDisconnect, AfterSeen;
    match e
    case Connect(id, conn, now) => ConnectInv(s, id, conn, now);
    case EmitEnter(topic, event) => EnterInv(s, topic, event);
    case EmitSend(n) => SendInv(s, n);
    case EmitLeave(n) => LeaveInv(s, n);
    case Subscribe(topic, ch) => SubscribeInv(s, topic, ch);
    case Cancel(topic, ch) => CancelInv(s, topic, ch);
    case StopClosesSubscribers => StopInv(s);
    case Receive(ch) => ReceiveInv(s, ch);
    case _ => PeerStepInv(s, e);
  }

  lemma {:induction false} InvRun(s: State, events: seq<Event>)
    requires Inv(s) && IsRun(s, events)
    ensures Inv(Run(s, events))
    decreases |events|
  {
    hide Inv, Next, Enabled;
    if events != [] {
      InvStep(s, events[0]);
      InvRun(Next(s, events[0]), events[1..]);
    }
  }

  lemma ReachableChannel(events: seq<Event>, id: ChanId)
    requires IsRun(Initial(), events) && id in Run(Initial(), events).chans
    ensures var s := Run(Initial(), events);
            ChannelInv(s.chans[id], id, Listed(s.subscribers, id, s.chans[id]), s.log, s.inside)
  {
    hide IsRun, Run, Next, ChannelInv;
    InvRun(Initial(), events);
  }

  // What subscribers can rely on

  /** Over every run: no send on and no second close of a closed channel, and every channel in the table is
      open. Each subscriber sees emissions of its topic that began after it subscribed, each at most once,
      with at most 32 waiting. Two of them are seen in the other order than they began only if the earlier
      was still under way when the later began: emissions that do not overlap are seen in that order by
      every subscriber that sees both. */
  lemma SubscribersAreServed(events: seq<Event>)
    requires IsRun(Initial(), events)
    ensures var s := Run(Initial(), events);
            && !s.panicked && TableClean(s)
            && forall id :: id in s.chans ==>
                 var c := s.chans[id];
                 && |c.pending| <= 32 && NoRepeats(Seen(c))
                 && (forall n :: n in Seen(c) ==> Wanted(c, s.log, n))
                 && InOrder(Seen(c), s.log)
  {
    hide IsRun, Run, Next, NoRepeats, InOrder;
    InvRun(Initial(), events);
    var s := Run(Initial(), events);
    CleanIsTableClean(s);
    forall id | id in s.chans
      ensures ChannelInv(s.chans[id], id, Listed(s.subscribers, id, s.chans[id]), s.log, s.inside)
    {
    }
  }

  /** The step is a send that finds the channel full. */
  predicate Overflows(s: State, e: Event, id: ChanId) {
    && e.EmitSend? && e.n in s.inside && s.inside[e.n] != [] && s.inside[e.n][0] == id
    && id in s.chans && |s.chans[id].pending| >= 32
  }

  ghost predicate NeverFull(s: State, events: seq<Event>, id: ChanId)
    requires IsRun(s, events)
    decreases |events|
  {
    events == [] || (!Overflows(s, events[0], id) && NeverFull(Next(s, events[0]), events[1..], id))
  }

  function Dropped(chans: Channels, id: ChanId): set<EmitId> {
    if id in chans then chans[id].dropped else {}
  }

  lemma DroppedStep(s: State, e: Event, id: ChanId)
    requires Inv(s) && Enabled(s, e)
    ensures Dropped(Next(s, e).chans, id) == {} <==> Dropped(s.chans, id) == {} && !Overflows(s, e, id)
  {
    hide AfterRegister, AfterConnect, AfterHealthCheck, AfterSend, AfterSeen, AfterDisconnect, AfterCancel;
    if e.EmitSend? {
      DroppedSend(s, e.n, id);
    } else {
      hide Inv;
      OtherChans(s, e);
    }
  }

  lemma DroppedSend(s: State, n: EmitId, id: ChanId)
    requires Inv(s) && Enabled(s, EmitSend(n))
    ensures Dropped(AfterSend(s, n).chans, id) == {} <==> Dropped(s.chans, id) == {} && !Overflows(s, EmitSend(n), id)
  {
    hide Clean, ChannelsInv;
    assert EmitterInv(n, s.inside[n], s.chans, s.log);
    var c := s.chans[s.inside[n][0]];
    assert n in Offer(c, n).dropped || Offer(c, n).dropped == c.dropped;
  }

  /** The steps on the peer table leave channels and lists as they are, and so do those of emitters that do not
      send. */
  lemma OtherChans(s: State, e: Event)
    requires Enabled(s, e) && !e.EmitSend?
    ensures e.Subscribe? || e.StopClosesSubscribers? || e.Receive? || Next(s, e).chans == s.chans
    ensures e.Subscribe? || e.StopClosesSubscribers? || e.Cancel? || Next(s, e).subscribers == s.subscribers
  {
    hide AfterRegister, AfterConnect, AfterHealthCheck, AfterSubscribe, AfterCancel, AfterStopClosesSubscribers;
    hide AfterDisconnect, AfterSeen, AfterEnter, AfterLeave, AfterReceive, AfterStopClosesPeers;
    match e
    case Accept(x, conn, now) => RegisterChans(s, x, Some(conn), now);
    case Connect(x, conn, now) =>
      RegisterChans(s, x, conn, now);
      ConnectTables(s, x, conn, now);
    case Disconnect(x) => RemovedChans(s, x, 0);
    case Seen(x, now) => RemovedChans(s, x, now);
    case HealthCheck(now) => HealthTables(s, now);
    case Cancel(topic, ch) => CancelTables(s, topic, ch);
    case Receive(ch) => ReceiveTables(s, ch);
    case EmitEnter(topic, event) => EnterChans(s, topic, event);
    case EmitLeave(n) => LeaveChans(s, n);
    case StopClosesPeers => StopChans(s);
    case _ =>
  }

  lemma RemovedChans(s: State, id: PeerId, now: int)
    ensures var s' := AfterDisconnect(s, id); s'.chans == s.chans && s'.subscribers == s.subscribers
    ensures var s' := AfterSeen(s, id, now); s'.chans == s.chans && s'.subscribers == s.subscribers
  {
  }

  lemma EnterChans(s: State, topic: Topic, event: DiscoveryEvent)
    ensures var s' := AfterEnter(s, topic, event); s'.chans == s.chans && s'.subscribers == s.subscribers
  {
  }

  lemma LeaveChans(s: State, n: EmitId)
    ensures var s' := AfterLeave(s, n); s'.chans == s.chans && s'.subscribers == s.subscribers
  {
  }

  lemma StopChans(s: State)
    ensures var s' := AfterStopClosesPeers(s); s'.chans == s.chans && s'.subscribers == s.subscribers
  {
  }

  lemma RegisterChans(s: State, id: PeerId, conn: Option<ConnId>, now: int)
    ensures var s' := AfterRegister(s, id, conn, now); s'.chans == s.chans && s'.subscribers == s.subscribers
  {
  }

  lemma {:induction false} DroppedRun(s: State, events: seq<Event>, id: ChanId)
    requires Inv(s) && IsRun(s, events)
    ensures Dropped(Run(s, events).chans, id) == {} <==> Dropped(s.chans, id) == {} && NeverFull(s, events, id)
    decreases |events|
  {
    hide Inv, Next, Enabled, Overflows, Dropped;
    if events != [] {
      DroppedStep(s, events[0], id);
      InvStep(s, events[0]);
      DroppedRun(Next(s, events[0]), events[1..], id);
    }
  }

  /** Nothing is lost unless the reader lets 32 wait: when no emitter is inside, a subscriber in the table has
      seen exactly the emissions it is meant to see if and only if no send of the run found its channel full. */
  lemma CompleteIffNeverFull(events: seq<Event>, id: ChanId)
    requires IsRun(Initial(), events)
    requires var s := Run(Initial(), events);
             id in s.chans && Listed(s.subscribers, id, s.chans[id]) && s.inside == map[]
    ensures var s := Run(Initial(), events);
            (forall n: nat :: n in Seen(s.chans[id]) <==> Wanted(s.chans[id], s.log, n)) <==>
            NeverFull(Initial(), events, id)
  {
    ReachableChannel(events, id);
    DroppedRun(Initial(), events, id);
    hide IsRun, Run, Next, NoRepeats, InOrder, NeverFull;
    var s := Run(Initial(), events);
    var c := s.chans[id];
    assert Selects(c, id, s.log, s.inside) && Complete(c, id, s.log, s.inside);
    if c.dropped != {} {
      var n :| n in c.dropped;
      assert Wanted(c, s.log, n) && n !in Seen(c);
    }
  }

  /** The emissions a subscriber is meant to see, in the order they began, up to number `end`. */
  function WantedUpto(c: Channel, log: seq<Emitted>, end: nat): seq<EmitId> {
    if end == 0 then []
    else WantedUpto(c, log, end - 1) + if Wanted(c, log, end - 1) then [end - 1] else []
  }

  ghost predicate Increasing(a: seq<nat>) {
    forall i, j :: 0 <= i < j < |a| ==> a[i] < a[j]
  }

  lemma {:induction false} IncreasingIsSubsequence(a: seq<EmitId>, c: Channel, log: seq<Emitted>, end: nat)
    requires Increasing(a) && forall n :: n in a ==> n < end && Wanted(c, log, n)
    ensures Subsequence(a, WantedUpto(c, log, end))
    decreases end
  {
    hide Wanted, Subsequence, Increasing;
    if a == [] {
      NothingIsSubsequence(WantedUpto(c, log, end));
    } else {
      var k := |a| - 1;
      assert a[k] in a;
      var front, rest := a[..k], WantedUpto(c, log, end - 1);
      assert a == front + [a[k]];
      AllBelowLast(a, front, a[k]);
      if a[k] == end - 1 {
        IncreasingIsSubsequence(front, c, log, end - 1);
        SubsequenceMore<nat>(front, rest, end - 1);
      } else {
        IncreasingIsSubsequence(a, c, log, end - 1);
        SubsequenceMore<nat>(a, rest, end - 1);
        assert rest + [] == rest;
      }
    }
  }

  lemma NothingIsSubsequence(b: seq<nat>)
    ensures Subsequence([], b)
  {
  }

  lemma AllBelowLast(a: seq<nat>, front: seq<nat>, last: nat)
    requires Increasing(a) && a == front + [last]
    ensures Increasing(front) && (forall n :: n in front ==> n < last)
    ensures forall n :: n in a <==> n in front || n == last
  {
    assert forall i :: 0 <= i < |front| ==> front[i] == a[i];
    forall n | n in front
      ensures n < last
    {
      var i :| 0 <= i < |front| && front[i] == n;
      assert a[i] == n && a[|front|] == last;
    }
  }

  lemma IncreasingSnoc(a: seq<nat>, n: nat)
    requires Increasing(a) && forall x :: x in a ==> x < n
    ensures Increasing(a + [n])
  {
    assert forall i :: 0 <= i < |a| ==> a[i] in a;
  }

  lemma {:induction false} WantedUptoHas(c: Channel, log: seq<Emitted>, end: nat)
    ensures Increasing(WantedUpto(c, log, end))
    ensures forall n: nat :: n in WantedUpto(c, log, end) <==> n < end && Wanted(c, log, n)
  {
    hide Wanted;
    if end > 0 {
      WantedUptoHas(c, log, end - 1);
      IncreasingSnoc(WantedUpto(c, log, end - 1), end - 1);
      assert WantedUpto(c, log, end - 1) + [] == WantedUpto(c, log, end - 1);
    }
  }

  /** When no two emissions overlapped, one log explains every subscriber: each sees a subsequence of what it
      is meant to see, in the order it began, and with no emitter inside a subscriber in the table sees just
      that if and only if no send found its channel full. */
  lemma OneLogWithoutOverlap(events: seq<Event>, id: ChanId)
    requires IsRun(Initial(), events)
    requires var s := Run(Initial(), events);
             id in s.chans && forall n :: 0 <= n < |s.log| ==> s.log[n].overlapping == {}
    ensures var s := Run(Initial(), events);
            var c := s.chans[id];
            && Subsequence(Seen(c), WantedUpto(c, s.log, |s.log|))
            && (Listed(s.subscribers, id, c) && s.inside == map[] ==>
                  (Seen(c) == WantedUpto(c, s.log, |s.log|) <==> NeverFull(Initial(), events, id)))
  {
    ReachableChannel(events, id);
    var s := Run(Initial(), events);
    var c, all := s.chans[id], WantedUpto(s.chans[id], s.log, |s.log|);
    hide IsRun, Run, Next, WantedUpto, NeverFull;
    assert Selects(c, id, s.log, s.inside) && InOrder(Seen(c), s.log);
    SeenIncreases(c, id, s.log, s.inside);
    IncreasingIsSubsequence(Seen(c), c, s.log, |s.log|);
    WantedUptoHas(c, s.log, |s.log|);
    if Listed(s.subscribers, id, c) && s.inside == map[] {
      CompleteIffNeverFull(events, id);
      if NeverFull(Initial(), events, id) {
        SameElementsSameOrder(Seen(c), all);
      }
    }
  }

  lemma SeenIncreases(c: Channel, id: ChanId, log: seq<Emitted>, inside: Emitters)
    requires Selects(c, id, log, inside) && InOrder(Seen(c), log)
    requires forall n :: 0 <= n < |log| ==> log[n].overlapping == {}
    ensures Increasing(Seen(c))
  {
    var seen := Seen(c);
    forall i, j | 0 <= i < j < |seen|
      ensures seen[i] < seen[j]
    {
      assert seen[i] in seen && seen[j] in seen;
      assert Wanted(c, log, seen[i]) && seen[i] != seen[j];
    }
  }

  lemma FirstIn(a: seq<nat>)
    ensures a != [] ==> a[0] in a
  {
  }

  lemma {:induction false} SameElementsSameOrder(a: seq<nat>, b: seq<nat>)
    requires Increasing(a) && Increasing(b) && forall n: nat :: n in a <==> n in b
    ensures a == b
    decreases |a|
  {
    if a == [] {
      FirstIn(b);
    } else {
      assert a[0] in b && b != [] && b[0] in a;
      assert a[0] == b[0];
      assert forall n :: n in a[1..] <==> n in a && n != a[0];
      assert forall n :: n in b[1..] <==> n in b && n != b[0];
      SameElementsSameOrder(a[1..], b[1..]);
      assert a == [a[0]] + a[1..] && b == [b[0]] + b[1..];
    }
  }

  // The life of a channel

  datatype Life = Absent | Subscribed(topic: Topic) | Cancelled | Closed

  /** What an event does to one channel, whatever becomes of the others. */
  function LifeAfter(e: Event, id: ChanId, life: Life): Life {
    match e
    case Subscribe(topic, ch) => if ch == id then Subscribed(topic) else life
    case Cancel(topic, ch) => if ch == id && life == Subscribed(topic) then Cancelled else life
    case StopClosesSubscribers => if life.Subscribed? then Closed else life
    case _ => life
  }

  function LifeOf(events: seq<Event>, id: ChanId, life: Life): Life
    decreases |events|
  {
    if events == [] then life else LifeOf(events[1..], id, LifeAfter(events[0], id, life))
  }

  predicate Lives(lists: Lists, chans: Channels, id: ChanId, life: Life) {
    match life
    case Absent => id !in chans
    case Subscribed(topic) => id in chans && !chans[id].closed && chans[id].topic == topic && id in List(lists, topic)
    case Cancelled => id in chans && !chans[id].closed && !Listed(lists, id, chans[id])
    case Closed => id in chans && chans[id].closed && !Listed(lists, id, chans[id])
  }

  lemma LifeStep(s: State, e: Event, id: ChanId, life: Life)
    requires Inv(s) && Enabled(s, e) && Lives(s.subscribers, s.chans, id, life)
    ensures Lives(Next(s, e).subscribers, Next(s, e).chans, id, LifeAfter(e, id, life))
  {
    hide Inv, Lives, AfterRegister, AfterConnect, AfterHealthCheck, AfterSend, AfterSeen, AfterDisconnect;
    hide AfterCancel, AfterSubscribe, AfterStopClosesSubscribers, AfterReceive;
    match e
    case EmitSend(n) => LifeSend(s, n, id, life);
    case Cancel(topic, ch) => LifeCancel(s, topic, ch, id, life);
    case Subscribe(topic, ch) => LifeSubscribe(s, topic, ch, id, life);
    case StopClosesSubscribers => LifeStop(s, id, life);
    case Receive(ch) => LifeReceive(s, ch, id, life);
    case _ => OtherChans(s, e);
  }

  lemma LifeSend(s: State, n: EmitId, id: ChanId, life: Life)
    requires Inv(s) && Enabled(s, EmitSend(n)) && Lives(s.subscribers, s.chans, id, life)
    ensures var s' := AfterSend(s, n); Lives(s'.subscribers, s'.chans, id, life)
  {
    hide Clean, ChannelsInv, Offer;
    assert EmitterInv(n, s.inside[n], s.chans, s.log);
    OfferKeepsKind(s.chans[s.inside[n][0]], n);
  }

  lemma LifeSubscribe(s: State, topic: Topic, ch: ChanId, id: ChanId, life: Life)
    requires ch !in s.chans && Lives(s.subscribers, s.chans, id, life)
    ensures var s' := AfterSubscribe(s, topic, ch);
            Lives(s'.subscribers, s'.chans, id, LifeAfter(Subscribe(topic, ch), id, life))
  {
  }

  lemma LifeStop(s: State, id: ChanId, life: Life)
    requires Lives(s.subscribers, s.chans, id, life)
    ensures var s' := AfterStopClosesSubscribers(s);
            Lives(s'.subscribers, s'.chans, id, LifeAfter(StopClosesSubscribers, id, life))
  {
    hide TableClean;
  }

  lemma LifeReceive(s: State, ch: ChanId, id: ChanId, life: Life)
    requires Enabled(s, Receive(ch)) && Lives(s.subscribers, s.chans, id, life)
    ensures var s' := AfterReceive(s, ch); Lives(s'.subscribers, s'.chans, id, life)
  {
  }

  lemma LifeCancel(s: State, topic: Topic, ch: ChanId, id: ChanId, life: Life)
    requires Inv(s) && Lives(s.subscribers, s.chans, id, life)
    ensures var s' := AfterCancel(s, topic, ch);
            Lives(s'.subscribers, s'.chans, id, LifeAfter(Cancel(topic, ch), id, life))
  {
    hide NoRepeats, ChannelsInv, EmittersInv;
    var list := List(s.subscribers, topic);
    if ch in list {
      assert AllOpen(s.chans, list, topic);
      WithoutKeepsOrder(list, ch);
    }
  }

  lemma {:induction false} LifeRun(s: State, events: seq<Event>, id: ChanId, life: Life)
    requires Inv(s) && IsRun(s, events) && Lives(s.subscribers, s.chans, id, life)
    ensures var s' := Run(s, events); Lives(s'.subscribers, s'.chans, id, LifeOf(events, id, life))
    decreases |events|
  {
    hide Inv, Next, Enabled, Lives, LifeAfter;
    if events != [] {
      LifeStep(s, events[0], id, life);
      InvStep(s, events[0]);
      LifeRun(Next(s, events[0]), events[1..], id, LifeAfter(events[0], id, life));
    }
  }

  /** Over every run: a channel is in the table from its subscription until it is cancelled or a Stop closes the
      table, and it is closed if and only if it was in the table then; one that was cancelled stays open. */
  lemma ClosedIffStopped(events: seq<Event>, id: ChanId)
    requires IsRun(Initial(), events)
    ensures var s, life := Run(Initial(), events), LifeOf(events, id, Absent);
            && (id in s.chans <==> !life.Absent?)
            && (id in s.chans ==>
                  && (s.chans[id].closed <==> life.Closed?)
                  && (Listed(s.subscribers, id, s.chans[id]) <==> life == Subscribed(s.chans[id].topic)))
  {
    LifeRun(Initial(), events, id, Absent);
    hide IsRun, Run, Next, LifeOf;
  }

  // Overlap is needed, and does reorder

  lemma {:induction false} NoCommonLog(a: nat, b: nat, log: seq<nat>)
    requires a != b && NoRepeats(log)
    ensures !(Subsequence([a, b], log) && Subsequence([b, a], log))
    decreases |log|
  {
    assert [a, b][1..] == [b] && [b, a][1..] == [a];
    if log != [] {
      NoRepeatsTail(log);
      hide NoRepeats;
      NoCommonLog(a, b, log[1..]);
      SubsequenceIn([b, a], log[1..], 1);
      SubsequenceIn([a, b], log[1..], 1);
    }
  }

  lemma {:induction false} SubsequenceIn(a: seq<nat>, b: seq<nat>, i: nat)
    requires i < |a|
    ensures Subsequence(a, b) ==> a[i] in b
    decreases |b|
  {
    if Subsequence(a, b) {
      if a[0] == b[0] {
        if i > 0 {
          SubsequenceIn(a[1..], b[1..], i - 1);
        }
      } else {
        SubsequenceIn(a, b[1..], i);
      }
    }
  }

  /** The reordering is real: a Connect and a gossip listener emit at the same time, and of two wildcard
      subscribers one has the first before the second and the other the second before the first. No log of
      the emissions has both orders. */
  lemma OverlapReorders(id: PeerId, found: DiscoveryEvent)
    ensures var events := [Subscribe(ALL, 1), Subscribe(ALL, 2), Connect(id, None, 0), EmitSend(0),
                           EmitEnter(ALL, found), EmitSend(1), EmitSend(1), EmitSend(0)];
            && IsRun(Initial(), events)
            && var s := Run(Initial(), events);
               && 1 in s.chans && 2 in s.chans && Seen(s.chans[1]) == [0, 1] && Seen(s.chans[2]) == [1, 0]
               && forall log: seq<nat> :: NoRepeats(log) ==>
                    !(Subsequence(Seen(s.chans[1]), log) && Subsequence(Seen(s.chans[2]), log))
  {
    OverlapIsRun(id, found);
    BeforeOverlap(id, found);
    var tail := [EmitSend(0), EmitEnter(ALL, found), EmitSend(1), EmitSend(1), EmitSend(0)];
    Prelude(id, tail);
    assert [Subscribe(ALL, 1), Subscribe(ALL, 2), Connect(id, None, 0)] + tail
        == [Subscribe(ALL, 1), Subscribe(ALL, 2), Connect(id, None, 0), EmitSend(0),
            EmitEnter(ALL, found), EmitSend(1), EmitSend(1), EmitSend(0)];
    hide IsRun, Run;
    var chans := Overlap(id, found, true, [0, 1], [1, 0], map[0 := [], 1 := []]).chans;
    assert Seen(chans[1]) == [0, 1] && Seen(chans[2]) == [1, 0];
    forall log: seq<nat> | NoRepeats(log)
      ensures !(Subsequence([0, 1], log) && Subsequence([1, 0], log))
    {
      NoCommonLog(0, 1, log);
    }
  }

  /** Two wildcard subscribers, a Connect that emits and, if `both`, a gossip listener that does too. */
  function Overlap(id: PeerId, found: DiscoveryEvent, both: bool, one: seq<EmitId>, two: seq<EmitId>, inside: Emitters)
    : State
  {
    State(false, NoStop, map[id := Peer(None, 0)], {}, {}, 1, map[ALL := [1, 2]],
          map[1 := Channel(ALL, 0, one, [], {}, false), 2 := Channel(ALL, 0, two, [], {}, false)],
          [Emitted(ALL, DiscoveryEvent(id), {})] + (if both then [Emitted(ALL, found, {0})] else []),
          inside, Some(0), false)
  }

  lemma OverlapIsRun(id: PeerId, found: DiscoveryEvent)
    ensures var events := [EmitSend(0), EmitEnter(ALL, found), EmitSend(1), EmitSend(1), EmitSend(0)];
            var s := Overlap(id, found, false, [], [], map[0 := [1, 2]]);
            IsRun(s, events) && Run(s, events) == Overlap(id, found, true, [0, 1], [1, 0], map[0 := [], 1 := []])
  {
    hide Next, Enabled, Overlap;
    var s0 := Overlap(id, found, false, [], [], map[0 := [1, 2]]);
    var s1 := Overlap(id, found, false, [0], [], map[0 := [2]]);
    var s2 := Overlap(id, found, true, [0], [], map[0 := [2], 1 := [1, 2]]);
    var s3 := Overlap(id, found, true, [0, 1], [], map[0 := [2], 1 := [2]]);
    var s4 := Overlap(id, found, true, [0, 1], [1], map[0 := [2], 1 := []]);
    SendOne(id, found, false, [], [], map[0 := [1, 2]], 0, [2]);
    OverlapEnters(id, found);
    SendOne(id, found, true, [0], [], map[0 := [2], 1 := [1, 2]], 1, [2]);
    SendTwo(id, found, true, [0, 1], [], map[0 := [2], 1 := [2]], 1, []);
    SendTwo(id, found, true, [0, 1], [1], map[0 := [2], 1 := []], 0, []);
    InsideUpdates();
    Concatenations();
    var l3 := [EmitSend(1)] + [EmitSend(0)];
    var l2 := [EmitSend(1)] + l3;
    var l1 := [EmitEnter(ALL, found)] + l2;
    OneMore(s4, EmitSend(0), []);
    OneMore(s3, EmitSend(1), [EmitSend(0)]);
    OneMore(s2, EmitSend(1), l3);
    OneMore(s1, EmitEnter(ALL, found), l2);
    OneMore(s0, EmitSend(0), l1);
    assert [EmitSend(0)] + l1 == [EmitSend(0), EmitEnter(ALL, found), EmitSend(1), EmitSend(1), EmitSend(0)];
  }

  lemma InsideUpdates()
    ensures map[0 := [1, 2]][0 := [2]] == map[0 := [2]]
    ensures map[0 := [2], 1 := [1, 2]][1 := [2]] == map[0 := [2], 1 := [2]]
    ensures map[0 := [2], 1 := [2]][1 := []] == map[0 := [2], 1 := []]
    ensures map[0 := [2], 1 := []][0 := []] == map[0 := [], 1 := []]
  {
  }

  lemma Concatenations()
    ensures [] + [0] == [0] && [0] + [1] == [0, 1] && [] + [1] == [1] && [1] + [0] == [1, 0]
  {
  }

  lemma SendOne(id: PeerId, found: DiscoveryEvent, both: bool, one: seq<EmitId>, two: seq<EmitId>, inside: Emitters,
                n: EmitId, rest: seq<ChanId>)
    requires n in inside && inside[n] == [1] + rest && |one| < CAPACITY
    ensures var s := Overlap(id, found, both, one, two, inside);
            && Enabled(s, EmitSend(n))
            && Next(s, EmitSend(n)) == Overlap(id, found, both, one + [n], two, inside[n := rest])
  {
    var s := Overlap(id, found, both, one, two, inside);
    var c := s.chans[1];
    assert s.chans[1 := c.(pending := c.pending + [n])] == Overlap(id, found, both, one + [n], two, inside).chans;
  }

  lemma SendTwo(id: PeerId, found: DiscoveryEvent, both: bool, one: seq<EmitId>, two: seq<EmitId>, inside: Emitters,
                n: EmitId, rest: seq<ChanId>)
    requires n in inside && inside[n] == [2] + rest && |two| < CAPACITY
    ensures var s := Overlap(id, found, both, one, two, inside);
            && Enabled(s, EmitSend(n))
            && Next(s, EmitSend(n)) == Overlap(id, found, both, one, two + [n], inside[n := rest])
  {
    var s := Overlap(id, found, both, one, two, inside);
    var c := s.chans[2];
    assert s.chans[2 := c.(pending := c.pending + [n])] == Overlap(id, found, both, one, two + [n], inside).chans;
  }

  lemma OverlapEnters(id: PeerId, found: DiscoveryEvent)
    ensures Enabled(Overlap(id, found, false, [0], [], map[0 := [2]]), EmitEnter(ALL, found))
    ensures Next(Overlap(id, found, false, [0], [], map[0 := [2]]), EmitEnter(ALL, found)) ==
            Overlap(id, found, true, [0], [], map[0 := [2], 1 := [1, 2]])
  {
    var s := Overlap(id, found, false, [0], [], map[0 := [2]]);
    assert Targets(s.subscribers, ALL) == [1, 2];
    assert s.inside.Keys == {0};
    assert s.inside[1 := [1, 2]] == map[0 := [2], 1 := [1, 2]];
  }

  lemma BeforeOverlap(id: PeerId, found: DiscoveryEvent)
    ensures TwoSubscribersAndConnect(id) == Overlap(id, found, false, [], [], map[0 := [1, 2]])
  {
    var s1 := AfterSubscribe(Initial(), ALL, 1);
    assert s1.subscribers == map[ALL := [1]] by {
      assert [] + [1] == [1];
    }
    var s2 := AfterSubscribe(s1, ALL, 2);
    assert s2.subscribers == map[ALL := [1, 2]] by {
      assert [1] + [2] == [1, 2];
      assert map[ALL := [1]][ALL := [1, 2]] == map[ALL := [1, 2]];
    }
    assert Targets(s2.subscribers, ALL) == [1, 2];
    assert s2.inside.Keys == {};
    var s3 := AfterRegister(s2, id, None, 0);
    assert s3.peers == map[id := Peer(None, 0)];
  }

  ghost function TwoSubscribersAndConnect(id: PeerId): State {
    AfterConnect(AfterSubscribe(AfterSubscribe(Initial(), ALL, 1), ALL, 2), id, None, 0)
  }

  lemma Prelude(id: PeerId, rest: seq<Event>)
    requires IsRun(TwoSubscribersAndConnect(id), rest)
    ensures var events := [Subscribe(ALL, 1), Subscribe(ALL, 2), Connect(id, None, 0)] + rest;
            IsRun(Initial(), events) && Run(Initial(), events) == Run(TwoSubscribersAndConnect(id), rest)
  {
    var connect := Connect(id, None, 0);
    var s1 := Next(Initial(), Subscribe(ALL, 1));
    var s2 := Next(s1, Subscribe(ALL, 2));
    assert Enabled(Initial(), Subscribe(ALL, 1)) && Enabled(s1, Subscribe(ALL, 2)) && Enabled(s2, connect);
    assert Next(s2, connect) == TwoSubscribersAndConnect(id);
    hide Next, Enabled, TwoSubscribersAndConnect;
    var l2 := [connect] + rest;
    var l1 := [Subscribe(ALL, 2)] + l2;
    OneMore(s2, connect, rest);
    OneMore(s1, Subscribe(ALL, 2), l2);
    OneMore(Initial(), Subscribe(ALL, 1), l1);
    assert [Subscribe(ALL, 1)] + l1 == [Subscribe(ALL, 1), Subscribe(ALL, 2), connect] + rest;
  }

  // An emission by itself

  /** Sending to a list of open channels, none twice, offers the emission to each of them once. */
  lemma {:induction false} SendAllOffers(s: State, list: seq<ChanId>, n: EmitId)
    requires NoRepeats(list) && forall c :: c in list ==> c in s.chans && !s.chans[c].closed
    ensures var s' := SendAll(s, list, n);
            && s'.panicked == s.panicked && s'.chans.Keys == s.chans.Keys
            && forall c :: c in s.chans ==> s'.chans[c] == if c in list then Offer(s.chans[c], n) else s.chans[c]
    decreases |list|
  {
    if list != [] {
      var s1 := Send(s, list[0], n);
      NoRepeatsTail(list);
      hide NoRepeats, Offer;
      assert forall c :: c in list <==> c == list[0] || c in list[1..];
      SendAllOffers(s1, list[1..], n);
    }
  }

  /** After a call of emitEvent that nothing interrupts every channel in the table whose topic is meant to see
      the emission has been offered it, once; the others are as before. */
  lemma EmitOffers(s: State, topic: Topic, event: DiscoveryEvent)
    requires Clean(s.subscribers, s.chans)
    ensures var s', n := AfterEmit(s, topic, event), |s.log|;
            && s'.panicked == s.panicked && s'.chans.Keys == s.chans.Keys
            && forall id :: id in s.chans ==>
                 var c := s.chans[id];
                 s'.chans[id] == if Listed(s.subscribers, id, c) && (c.topic == ALL || c.topic == topic)
                                 then Offer(c, n) else c
  {
    TargetsOf(s.subscribers, s.chans, topic);
    hide Clean, NoRepeats, Targets, Listed, Offer;
    var s0 := s.(log := s.log + [Emitted(topic, event, s.inside.Keys)]);
    SendAllOffers(s0, Targets(s.subscribers, topic), |s.log|);
  }

  function Sends(n: EmitId, k: nat): (events: seq<Event>)
    ensures |events| == k
  {
    if k == 0 then [] else [EmitSend(n)] + Sends(n, k - 1)
  }

  /** When nothing comes in between, the steps of an emission are the whole call. */
  lemma EmissionAlone(s: State, topic: Topic, event: DiscoveryEvent)
    requires |s.log| !in s.inside && s.connecting != Some(|s.log|)
    ensures var n, k := |s.log|, |Targets(s.subscribers, topic)|;
            var events := [EmitEnter(topic, event)] + (Sends(n, k) + [EmitLeave(n)]);
            IsRun(s, events) && Run(s, events) == AfterEmit(s, topic, event)
  {
    hide SendAll;
    var n, targets := |s.log|, Targets(s.subscribers, topic);
    var s0 := s.(log := s.log + [Emitted(topic, event, s.inside.Keys)]);
    SendsAlone(s0, n, targets, s.inside);
    SendAllKeepsTables(s0, targets, n);
    OneMore(s, EmitEnter(topic, event), Sends(n, |targets|) + [EmitLeave(n)]);
  }

  /** And those of a Connect are its registration and that call. */
  lemma ConnectAlone(s: State, id: PeerId, conn: Option<ConnId>, now: int)
    requires |s.log| !in s.inside && Enabled(s, Connect(id, conn, now))
    ensures var n, k := |s.log|, |Targets(s.subscribers, ALL)|;
            var events := [Connect(id, conn, now)] + (Sends(n, k) + [EmitLeave(n)]);
            IsRun(s, events) && Run(s, events) == AfterWholeConnect(s, id, conn, now)
  {
    hide SendAll;
    var n, r := |s.log|, AfterRegister(s, id, conn, now);
    RegisterEmitters(s, id, conn, now);
    hide AfterRegister;
    var targets := Targets(r.subscribers, ALL);
    var r0 := r.(log := r.log + [Emitted(ALL, DiscoveryEvent(id), r.inside.Keys)]);
    SendsAlone(r0.(connecting := Some(n)), n, targets, r.inside);
    SendAllKeepsTables(r0, targets, n);
    SendAllFrame(r0, targets, n, Some(n));
    OneMore(s, Connect(id, conn, now), Sends(n, |targets|) + [EmitLeave(n)]);
  }

  lemma RegisterEmitters(s: State, id: PeerId, conn: Option<ConnId>, now: int)
    ensures var s' := AfterRegister(s, id, conn, now);
            s'.log == s.log && s'.inside == s.inside && s'.connecting == s.connecting && s'.subscribers == s.subscribers
  {
  }

  lemma {:induction false} SendAllFrame(s: State, list: seq<ChanId>, n: EmitId, connecting: Option<EmitId>)
    ensures SendAll(s.(connecting := connecting), list, n) == SendAll(s, list, n).(connecting := connecting)
    decreases |list|
  {
    hide Sent, SendPanics;
    if list != [] {
      SendAllFrame(Send(s, list[0], n), list[1..], n, connecting);
    }
  }

  lemma {:induction false} SendsAlone(s: State, n: EmitId, todo: seq<ChanId>, others: Emitters)
    requires n !in others && s.inside == others
    ensures var events := Sends(n, |todo|) + [EmitLeave(n)];
            var start := s.(inside := others[n := todo]);
            IsRun(start, events) &&
            Run(start, events) ==
            SendAll(s, todo, n).(connecting := if s.connecting == Some(n) then None else s.connecting)
    decreases |todo|
  {
    hide Send;
    var start := s.(inside := others[n := todo]);
    if todo == [] {
      assert Sends(n, 0) + [EmitLeave(n)] == [EmitLeave(n)] + [];
      assert others[n := todo] - {n} == others;
      OneMore(start, EmitLeave(n), []);
    } else {
      SendFrame(s, todo[0], n, start.inside);
      var s1 := Send(s, todo[0], n);
      var next := s1.(inside := others[n := todo[1..]]);
      assert others[n := todo][n := todo[1..]] == others[n := todo[1..]];
      assert Enabled(start, EmitSend(n)) && Next(start, EmitSend(n)) == next;
      var more := Sends(n, |todo| - 1) + [EmitLeave(n)];
      assert Sends(n, |todo|) + [EmitLeave(n)] == [EmitSend(n)] + more;
      hide Next, Enabled, Sends;
      SendsAlone(s1, n, todo[1..], others);
      OneMore(start, EmitSend(n), more);
    }
  }

  lemma SendFrame(s: State, ch: ChanId, n: EmitId, inside: Emitters)
    ensures Send(s.(inside := inside), ch, n) == Send(s, ch, n).(inside := inside)
    ensures Send(s, ch, n).inside == s.inside && Send(s, ch, n).connecting == s.connecting
  {
    hide Sent, SendPanics;
  }
}
