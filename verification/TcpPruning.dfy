/** What pruneUnacked does to the retransmission queue over every run. It is called with the client's own
    sequence number; the acknowledgement that the segment carries is read and not used. */
module TcpPruning {
  import opened Bytes
  import opened TcpConnection
  import opened TcpDelivery
  import opened TcpRetransmission

  // Where queued segments lie

  /** The place of a segment, counted from the SYN's number. */
  function At(isn: Int32, q: Unacked): nat {
    Offset(isn, q.seqNum)
  }

  /** Sequence numbers a segment takes up; a SYN takes one. */
  function Len(q: Unacked): nat {
    if q.payload.Some? then |q.payload.value| else 1
  }

  /** Segments follow each other between two places without overlap. */
  ghost predicate Spaced(queue: seq<Unacked>, isn: Int32, from: nat, to: nat) {
    if queue == [] then from <= to
    else
      var q := queue[0];
      from <= At(isn, q) && Len(q) >= 1 && Spaced(queue[1..], isn, At(isn, q) + Len(q), to)
  }

  lemma {:induction false} SpacedWider(queue: seq<Unacked>, isn: Int32, from: nat, from': nat, to: nat)
    requires Spaced(queue, isn, from, to) && from' <= from
    ensures from <= to && Spaced(queue, isn, from', to)
    decreases |queue|
  {
    if queue != [] {
      SpacedWider(queue[1..], isn, At(isn, queue[0]) + Len(queue[0]), At(isn, queue[0]) + Len(queue[0]), to);
    }
  }

  lemma {:induction false} SpacedPrune(queue: seq<Unacked>, isn: Int32, from: nat, to: nat, ack: Int32)
    requires Spaced(queue, isn, from, to)
    ensures Spaced(Prune(queue, ack), isn, from, to)
    decreases |queue|
  {
    hide At;
    if queue != [] {
      var q := queue[0];
      SpacedPrune(queue[1..], isn, At(isn, q) + Len(q), to, ack);
      SpacedWider(Prune(queue[1..], ack), isn, At(isn, q) + Len(q), from, to);
    }
  }

  lemma {:induction false} SpacedSnoc(queue: seq<Unacked>, isn: Int32, from: nat, to: nat, q: Unacked)
    requires Spaced(queue, isn, from, to) && to <= At(isn, q) && Len(q) >= 1
    ensures Spaced(queue + [q], isn, from, At(isn, q) + Len(q))
    decreases |queue|
  {
    hide At;
    if queue == [] {
      assert ([q])[1..] == [];
    } else {
      SpacedSnoc(queue[1..], isn, At(isn, queue[0]) + Len(queue[0]), to, q);
      assert (queue + [q])[1..] == queue[1..] + [q];
    }
  }

  /** Only the sent times differ. */
  ghost predicate SameSegments(a: seq<Unacked>, b: seq<Unacked>) {
    |a| == |b| && forall i :: 0 <= i < |a| ==> SameSegment(a[i], b[i])
  }

  predicate SameSegment(a: Unacked, b: Unacked) {
    a.(sentTimeMs := b.sentTimeMs) == b
  }

  lemma {:induction false} SpacedSame(a: seq<Unacked>, b: seq<Unacked>, isn: Int32, from: nat, to: nat)
    requires Spaced(a, isn, from, to) && SameSegments(a, b)
    ensures Spaced(b, isn, from, to)
    decreases |a|
  {
    hide Offset;
    if a != [] {
      assert SameSegment(a[0], b[0]);
      forall i | 0 <= i < |a| - 1
        ensures SameSegment(a[1..][i], b[1..][i])
      {
        assert SameSegment(a[i + 1], b[i + 1]);
      }
      SpacedSame(a[1..], b[1..], isn, At(isn, a[0]) + Len(a[0]), to);
    }
  }

  /** Earlier segments end before later ones start. */
  lemma {:induction false} SpacedApart(queue: seq<Unacked>, isn: Int32, from: nat, to: nat, i: nat)
    requires Spaced(queue, isn, from, to) && i < |queue|
    ensures from <= At(isn, queue[i]) && Len(queue[i]) >= 1 && At(isn, queue[i]) + Len(queue[i]) <= to
    ensures forall j :: i < j < |queue| ==> At(isn, queue[i]) + Len(queue[i]) <= At(isn, queue[j])
    decreases |queue|
  {
    hide At;
    var q, rest := queue[0], queue[1..];
    SpacedWider(rest, isn, At(isn, q) + Len(q), At(isn, q) + Len(q), to);
    if i > 0 {
      SpacedApart(rest, isn, At(isn, q) + Len(q), to, i - 1);
      assert forall j :: i < j < |queue| ==> queue[j] == rest[j - 1];
    } else {
      forall j | 0 < j < |queue|
        ensures At(isn, q) + Len(q) <= At(isn, queue[j])
      {
        SpacedApart(rest, isn, At(isn, q) + Len(q), to, j - 1);
      }
    }
  }

  // The invariant

  /** Where the next segment to be queued starts. */
  function NextPlace(s: System): nat {
    match s.thread
    case Connected => 0
    case Emitted(_, payload) =>
      if payload.None? || s.chunks == [] then 0 else 1 + |Join(s.chunks[..|s.chunks| - 1])|
    case _ => 1 + |Join(s.chunks)|
  }

  ghost predicate QueueInv(s: System, isn: Int32) {
    Tiled(s, isn) && Spaced(s.conn.queue, isn, 0, NextPlace(s))
  }

  lemma StartQueue(clientIsn: Int32, serverIsn: Int32)
    ensures QueueInv(Start(clientIsn, serverIsn), serverIsn)
  {
    StartIsTiled(clientIsn, serverIsn);
  }

  lemma OffsetFromSyn(isn: Int32, seqNum: Int32, n: nat)
    requires Offset(isn + 1, seqNum) == n && n + 1 < TWO_32
    ensures Offset(isn, seqNum) == n + 1
  {
    var k := (seqNum - (isn + 1)) / TWO_32;
    assert seqNum - isn == k * TWO_32 + (n + 1);
  }

  /** serverSeq is where the next segment starts when it is about to be queued. */
  lemma NextIsServerSeq(s: System, isn: Int32)
    requires s.thread.Emitted? && Tiled(s, isn) && |Join(s.chunks)| < TWO_32
    ensures Offset(isn, s.conn.serverSeq) == NextPlace(s)
    ensures s.thread.payload.Some? ==>
              s.thread.payload.value != [] && NextPlace(s) + |s.thread.payload.value| == 1 + |Join(s.chunks)|
    ensures s.thread.payload.None? ==> s.chunks == [] && s.thread.flags == SYN + ACK
  {
    hide Place;
    if s.thread.payload.Some? {
      var n := |s.chunks|;
      ChunkIsLabelled(s.chunks, n - 1, isn);
      OffsetOfSegment(s.chunks, isn + 1, n - 1);
      assert s.chunks[n - 1] in s.chunks && s.chunks[..n] == s.chunks;
      OffsetFromSyn(isn, s.conn.serverSeq, |Join(s.chunks[..n - 1])|);
    }
  }

  /** What a step adds to the queue: at most one segment, at the next place. */
  lemma QueueStep(s: System, now: int, isn: Int32)
    requires Enabled(s, Queue(now)) && QueueInv(s, isn) && |Join(s.chunks)| < TWO_32
    ensures var q := Unacked(s.conn.serverSeq, s.thread.flags, s.thread.payload, now);
            var s' := Step(s, Queue(now));
            && s'.conn.queue == s.conn.queue + [q]
            && At(isn, q) == NextPlace(s) && Len(q) >= 1 && NextPlace(s') == At(isn, q) + Len(q)
  {
    hide Tiled, Spaced;
    NextIsServerSeq(s, isn);
    if s.chunks == [] {
      assert Join(s.chunks) == [];
    }
  }

  lemma ReadKeepsPlace(s: System, chunk: Bytes)
    requires Enabled(s, ProxyRead(chunk))
    ensures NextPlace(Step(s, ProxyRead(chunk))) == NextPlace(s)
  {
    assert (s.chunks + [chunk])[..|s.chunks|] == s.chunks;
  }

  /** A step other than queueing leaves the queue as it is, up to sent times and pruning. */
  lemma QueueAfter(s: System, e: Event)
    requires Enabled(s, e) && !e.Queue?
    ensures SameSegments(if e.ClientData? then Prune(s.conn.queue, e.seqNum) else s.conn.queue, Step(s, e).conn.queue)
    ensures NextPlace(Step(s, e)) == NextPlace(s)
  {
    hide Prune, Wrap32;
    if e.ProxyRead? {
      ReadKeepsPlace(s, e.chunk);
    }
  }

  lemma QueueInvStep(s: System, e: Event, isn: Int32)
    requires Enabled(s, e) && QueueInv(s, isn) && |Join(s.chunks)| < TWO_32
    ensures QueueInv(Step(s, e), isn) && NextPlace(s) <= NextPlace(Step(s, e))
  {
    hide Step, Tiled, NextPlace;
    TiledStep(s, e, isn);
    if e.Queue? {
      QueueStep(s, e.now, isn);
      var q := Unacked(s.conn.serverSeq, s.thread.flags, s.thread.payload, e.now);
      SpacedSnoc(s.conn.queue, isn, 0, NextPlace(s), q);
    } else {
      QueueAfter(s, e);
      if e.ClientData? {
        SpacedPrune(s.conn.queue, isn, 0, NextPlace(s), e.seqNum);
        SpacedSame(Prune(s.conn.queue, e.seqNum), Step(s, e).conn.queue, isn, 0, NextPlace(s));
      } else {
        SpacedSame(s.conn.queue, Step(s, e).conn.queue, isn, 0, NextPlace(s));
      }
    }
  }

  lemma {:induction false} ChunksGrow(s: System, events: seq<Event>)
    requires IsRun(s, events)
    ensures |Join(s.chunks)| <= |Join(Run(s, events).chunks)|
    decreases |events|
  {
    hide Step;
    if events != [] {
      ChunksGrow(Step(s, events[0]), events[1..]);
      ChunksStep(s, events[0]);
    }
  }

  lemma ChunksStep(s: System, e: Event)
    requires Enabled(s, e)
    ensures |Join(s.chunks)| <= |Join(Step(s, e).chunks)|
  {
    if e.ProxyRead? {
      JoinSnoc(s.chunks, e.chunk);
    }
  }

  lemma {:induction false} QueueInvRun(s: System, events: seq<Event>, isn: Int32)
    requires IsRun(s, events) && QueueInv(s, isn) && |Join(Run(s, events).chunks)| < TWO_32
    ensures QueueInv(Run(s, events), isn)
    decreases |events|
  {
    hide Step, QueueInv;
    if events != [] {
      ChunksGrow(s, events);
      QueueInvStep(s, events[0], isn);
      QueueInvRun(Step(s, events[0]), events[1..], isn);
    }
  }

  // What survives

  /** The segment is queued, up to its sent time. */
  ghost predicate Queued(queue: seq<Unacked>, seg: Unacked) {
    exists q :: q in queue && SameSegment(q, seg)
  }

  /** No client segment of the run has a number above the queued one's, as signed integers. */
  ghost predicate NoneAbove(events: seq<Event>, seg: Unacked) {
    forall e :: e in events && e.ClientData? ==> e.seqNum <= seg.seqNum
  }

  lemma QueuedSame(a: seq<Unacked>, b: seq<Unacked>, seg: Unacked)
    requires SameSegments(a, b)
    ensures Queued(a, seg) <==> Queued(b, seg)
  {
    if Queued(a, seg) {
      var i :| 0 <= i < |a| && SameSegment(a[i], seg);
      assert SameSegment(b[i], seg);
    }
    if Queued(b, seg) {
      var i :| 0 <= i < |b| && SameSegment(b[i], seg);
      assert SameSegment(a[i], seg);
    }
  }

  lemma QueuedStep(s: System, e: Event, isn: Int32, seg: Unacked)
    requires Enabled(s, e) && QueueInv(s, isn) && |Join(s.chunks)| < TWO_32
    requires At(isn, seg) < NextPlace(s)
    ensures Queued(Step(s, e).conn.queue, seg) <==>
            Queued(s.conn.queue, seg) && (e.ClientData? ==> e.seqNum <= seg.seqNum)
  {
    hide Step, QueueInv, NextPlace;
    var queue := s.conn.queue;
    if e.Queue? {
      QueueStep(s, e.now, isn);
      var q := Unacked(s.conn.serverSeq, s.thread.flags, s.thread.payload, e.now);
      assert q.seqNum != seg.seqNum;
      assert forall x :: x in queue + [q] <==> x in queue || x == q;
    } else {
      QueueAfter(s, e);
      if e.ClientData? {
        QueuedSame(Prune(queue, e.seqNum), Step(s, e).conn.queue, seg);
      } else {
        QueuedSame(queue, Step(s, e).conn.queue, seg);
      }
    }
  }

  lemma {:induction false} QueuedRun(s: System, events: seq<Event>, isn: Int32, seg: Unacked)
    requires IsRun(s, events) && QueueInv(s, isn) && |Join(Run(s, events).chunks)| < TWO_32
    requires At(isn, seg) < NextPlace(s)
    ensures Queued(Run(s, events).conn.queue, seg) <==> Queued(s.conn.queue, seg) && NoneAbove(events, seg)
    decreases |events|
  {
    hide Step, QueueInv, NextPlace, Queued;
    if events != [] {
      ChunksGrow(s, events);
      QueueInvStep(s, events[0], isn);
      QueuedStep(s, events[0], isn, seg);
      QueuedRun(Step(s, events[0]), events[1..], isn, seg);
      assert forall e :: e in events <==> e == events[0] || e in events[1..];
    }
  }

  /** Over every run: a queued segment is queued for good, up to its sent time, until a client segment
      arrives whose own number is above it as a signed integer. Whatever the client acknowledges makes no
      difference: the condition does not mention it. */
  lemma QueuedUntilNumberAbove(clientIsn: Int32, isn: Int32, before: seq<Event>, after: seq<Event>, seg: Unacked)
    requires IsRun(Start(clientIsn, isn), before) && IsRun(Run(Start(clientIsn, isn), before), after)
    requires |Join(Run(Run(Start(clientIsn, isn), before), after).chunks)| < TWO_32
    requires seg in Run(Start(clientIsn, isn), before).conn.queue
    ensures Queued(Run(Run(Start(clientIsn, isn), before), after).conn.queue, seg) <==> NoneAbove(after, seg)
  {
    hide IsRun, Run, Step, NextPlace, Tiled;
    var s := Run(Start(clientIsn, isn), before);
    StartQueue(clientIsn, isn);
    ChunksGrow(s, after);
    QueueInvRun(Start(clientIsn, isn), before, isn);
    var i :| 0 <= i < |s.conn.queue| && s.conn.queue[i] == seg;
    SpacedApart(s.conn.queue, isn, 0, NextPlace(s), i);
    QueuedRun(s, after, isn, seg);
    assert SameSegment(seg, seg);
  }

  // Against acknowledgements

  predicate Acknowledged(isn: Int32, q: Unacked, ack: Int32) {
    At(isn, q) + Len(q) <= Offset(isn, ack)
  }

  /** The acknowledged segments are the first `k` of the queue. */
  ghost predicate FirstAcknowledged(queue: seq<Unacked>, isn: Int32, ack: Int32, k: nat) {
    k <= |queue| && forall i :: 0 <= i < |queue| ==> (Acknowledged(isn, queue[i], ack) <==> i < k)
  }

  lemma AcknowledgedIsPrefix(s: System, isn: Int32, ack: Int32) returns (k: nat)
    requires QueueInv(s, isn)
    ensures FirstAcknowledged(s.conn.queue, isn, ack, k)
  {
    hide Tiled, NextPlace, At, Offset;
    var queue := s.conn.queue;
    k := 0;
    while k < |queue| && Acknowledged(isn, queue[k], ack)
      invariant k <= |queue| && forall i :: 0 <= i < k ==> Acknowledged(isn, queue[i], ack)
    {
      k := k + 1;
    }
    if k < |queue| {
      SpacedApart(queue, isn, 0, NextPlace(s), k);
      forall i | k < i < |queue|
        ensures !Acknowledged(isn, queue[i], ack)
      {
        SpacedApart(queue, isn, 0, NextPlace(s), i);
      }
    }
  }

  /** Pruning by `n` drops exactly the first `k` segments. */
  lemma {:induction false} PruneDropsIff(queue: seq<Unacked>, n: Int32, k: nat)
    requires k <= |queue|
    ensures Prune(queue, n) == queue[k..] <==>
            (forall i :: 0 <= i < k ==> queue[i].seqNum < n) && (forall i :: k <= i < |queue| ==> n <= queue[i].seqNum)
    decreases |queue|
  {
    var pruned := Prune(queue, n);
    if (forall i :: 0 <= i < k ==> queue[i].seqNum < n) && (forall i :: k <= i < |queue| ==> n <= queue[i].seqNum) {
      PruneKeeps(queue[k..], n);
      PruneSkips(queue, n, k);
    } else if pruned == queue[k..] {
      forall i | k <= i < |queue|
        ensures n <= queue[i].seqNum
      {
        assert queue[k..][i - k] in pruned;
      }
      var i :| 0 <= i < k && n <= queue[i].seqNum;
      PruneSkipsFewer(queue, n, k, i);
    }
  }

  lemma {:induction false} PruneKeeps(queue: seq<Unacked>, n: Int32)
    requires forall i :: 0 <= i < |queue| ==> n <= queue[i].seqNum
    ensures Prune(queue, n) == queue
    decreases |queue|
  {
    if queue != [] {
      PruneKeeps(queue[1..], n);
    }
  }

  lemma {:induction false} PruneSkips(queue: seq<Unacked>, n: Int32, k: nat)
    requires k <= |queue| && (forall i :: 0 <= i < k ==> queue[i].seqNum < n)
    ensures Prune(queue, n) == Prune(queue[k..], n)
    decreases k
  {
    if k > 0 {
      PruneSkips(queue[1..], n, k - 1);
      assert queue[1..][k - 1..] == queue[k..];
    }
  }

  lemma {:induction false} PruneSkipsFewer(queue: seq<Unacked>, n: Int32, k: nat, i: nat)
    requires i < k <= |queue| && n <= queue[i].seqNum
    requires forall j :: k <= j < |queue| ==> n <= queue[j].seqNum
    ensures |Prune(queue, n)| > |queue| - k
    decreases i
  {
    PruneAtLeast(queue[1..], n, k - 1);
    if i > 0 {
      PruneSkipsFewer(queue[1..], n, k - 1, i - 1);
    }
  }

  lemma {:induction false} PruneAtLeast(queue: seq<Unacked>, n: Int32, k: nat)
    requires k <= |queue| && forall j :: k <= j < |queue| ==> n <= queue[j].seqNum
    ensures |Prune(queue, n)| >= |queue| - k
    decreases |queue|
  {
    if queue != [] {
      PruneAtLeast(queue[1..], n, if k > 0 then k - 1 else 0);
    }
  }

  /** How the signed numbers of the queue run: they rise, turn once at most, at `x`, when they cross the sign
      boundary, and rise again below where they started. */
  ghost predicate TurnsAt(queue: seq<Unacked>, x: nat) {
    && x <= |queue| && (queue != [] ==> x > 0)
    && (forall i, j :: 0 <= i < j < x ==> queue[i].seqNum < queue[j].seqNum)
    && (forall i, j :: x <= i < j < |queue| ==> queue[i].seqNum < queue[j].seqNum)
    && (forall i, j :: 0 <= i < x <= j < |queue| ==> queue[j].seqNum < queue[i].seqNum)
  }

  lemma SignedNumber(s: System, isn: Int32, i: nat)
    requires QueueInv(s, isn) && i < |s.conn.queue|
    ensures var q, at := s.conn.queue[i], isn + At(isn, s.conn.queue[i]);
            q.seqNum == at - (if at < 0x8000_0000 then 0 else TWO_32)
  {
    SignedPosition(isn, s.conn.queue[i].seqNum);
  }

  lemma QueueTurns(s: System, isn: Int32) returns (x: nat)
    requires QueueInv(s, isn)
    ensures TurnsAt(s.conn.queue, x)
  {
    hide Tiled, NextPlace, At;
    var queue := s.conn.queue;
    forall i, j | 0 <= i < j < |queue|
      ensures At(isn, queue[i]) < At(isn, queue[j])
    {
      SpacedApart(queue, isn, 0, NextPlace(s), i);
    }
    forall i | 0 <= i < |queue|
      ensures var at := isn + At(isn, queue[i]); queue[i].seqNum == at - (if at < 0x8000_0000 then 0 else TWO_32)
      ensures At(isn, queue[i]) < TWO_32
    {
      SignedNumber(s, isn, i);
      AtInRange(isn, queue[i]);
    }
    x := 0;
    while x < |queue| && isn + At(isn, queue[x]) < 0x8000_0000
      invariant x <= |queue| && forall i :: 0 <= i < x ==> isn + At(isn, queue[i]) < 0x8000_0000
    {
      x := x + 1;
    }
    if x == 0 {
      x := |queue|;
    }
  }

  lemma AtInRange(isn: Int32, q: Unacked)
    ensures At(isn, q) < TWO_32
  {
  }

  /** When a client segment prunes exactly what it acknowledges, in every reachable state: if and only if its
      own number lies above the highest number acknowledged and not above the lowest that is not. The
      acknowledged segments are the first `k`; with the numbers turning at `x`, those two stand where the
      conclusion says, and without a turn at k - 1 and k. */
  lemma PruningIsRightIff(clientIsn: Int32, isn: Int32, events: seq<Event>, seqNum: Int32, ack: Int32)
      returns (k: nat, x: nat)
    requires IsRun(Start(clientIsn, isn), events) && |Join(Run(Start(clientIsn, isn), events).chunks)| < TWO_32
    ensures var queue := Run(Start(clientIsn, isn), events).conn.queue;
            && FirstAcknowledged(queue, isn, ack, k) && TurnsAt(queue, x)
            && (Prune(queue, seqNum) == queue[k..] <==>
                  && (k > 0 ==> queue[Min(k, x) - 1].seqNum < seqNum)
                  && (k < |queue| ==> seqNum <= queue[if k < x < |queue| then x else k].seqNum))
  {
    hide IsRun, Run, Step, QueueInv, FirstAcknowledged, Prune;
    var s := Run(Start(clientIsn, isn), events);
    StartQueue(clientIsn, isn);
    QueueInvRun(Start(clientIsn, isn), events, isn);
    k := AcknowledgedIsPrefix(s, isn, ack);
    x := QueueTurns(s, isn);
    FirstIsBounded(s.conn.queue, isn, ack, k);
    PruneDropsIff(s.conn.queue, seqNum, k);
    BelowAndAbove(s.conn.queue, seqNum, k, x);
  }

  /** All of a prefix below a number, and none of the rest: two comparisons decide it. */
  lemma BelowAndAbove(queue: seq<Unacked>, n: Int32, k: nat, x: nat)
    requires TurnsAt(queue, x) && k <= |queue|
    ensures k > 0 ==> ((forall i :: 0 <= i < k ==> queue[i].seqNum < n) <==> queue[Min(k, x) - 1].seqNum < n)
    ensures k < |queue| ==>
              ((forall i :: k <= i < |queue| ==> n <= queue[i].seqNum) <==>
               n <= queue[if k < x < |queue| then x else k].seqNum)
  {
    if k > 0 {
      var top := Min(k, x) - 1;
      assert forall i :: 0 <= i < k ==> queue[i].seqNum <= queue[top].seqNum;
    }
    if k < |queue| {
      var low := if k < x < |queue| then x else k;
      assert forall i :: k <= i < |queue| ==> queue[low].seqNum <= queue[i].seqNum;
    }
  }

  lemma FirstIsBounded(queue: seq<Unacked>, isn: Int32, ack: Int32, k: nat)
    requires FirstAcknowledged(queue, isn, ack, k)
    ensures k <= |queue|
  {
  }

  /** The numbers up to the acknowledged one, and those of the queue, do not cross the sign boundary. With the
      initial number drawn below 2^30 this holds of every proxy stream shorter than 2^30 octets. */
  predicate OneSign(queue: seq<Unacked>, isn: Int32, ack: Int32) {
    && 0 <= isn && isn + Offset(isn, ack) < 0x8000_0000
    && forall q :: q in queue ==> isn + At(isn, q) < 0x8000_0000
  }

  /** Pruning by the acknowledgement would be right if and only if it does not fall inside a segment. */
  lemma AcknowledgementPrunesRightIff(clientIsn: Int32, isn: Int32, events: seq<Event>, ack: Int32)
      returns (k: nat)
    requires IsRun(Start(clientIsn, isn), events) && |Join(Run(Start(clientIsn, isn), events).chunks)| < TWO_32
    requires OneSign(Run(Start(clientIsn, isn), events).conn.queue, isn, ack)
    ensures var queue := Run(Start(clientIsn, isn), events).conn.queue;
            && FirstAcknowledged(queue, isn, ack, k)
            && (Prune(queue, ack) == queue[k..] <==> (k < |queue| ==> Offset(isn, ack) <= At(isn, queue[k])))
  {
    hide IsRun, Run, Step, Tiled, NextPlace, Prune;
    var s := Run(Start(clientIsn, isn), events);
    var queue := s.conn.queue;
    StartQueue(clientIsn, isn);
    QueueInvRun(Start(clientIsn, isn), events, isn);
    k := AcknowledgedIsPrefix(s, isn, ack);
    PruneDropsIff(queue, ack, k);
    SignedPosition(isn, ack);
    forall i | 0 <= i < |queue|
      ensures queue[i].seqNum == isn + At(isn, queue[i])
      ensures i < k ==> queue[i].seqNum < ack
      ensures k <= i ==> At(isn, queue[k]) <= At(isn, queue[i])
    {
      assert queue[i] in queue;
      SignedNumber(s, isn, i);
      SpacedApart(queue, isn, 0, NextPlace(s), i);
      if k <= i {
        SpacedApart(queue, isn, 0, NextPlace(s), k);
      } else {
        assert Acknowledged(isn, queue[i], ack);
      }
    }
  }

  /** A connection that has sent its SYN and one octet, as it stands before the next check. */
  function OneOctetSent(): System {
    System(Conn(ESTABLISHED, Open, 2, 1001,
                [Unacked(0, SYN + ACK, None, 0), Unacked(1, PSH + ACK, Some([7]), 0)], [],
                [Sent(0, 1001, SYN + ACK, None), Sent(1, 1001, PSH + ACK, Some([7]))]),
           Idle, Rechecking, [[7]])
  }

  lemma OneOctetSentIsReached()
    ensures var events := [SynAck, Queue(0), Advance, ProxyRead([7]), Queue(0), Advance];
            IsRun(Start(1000, 0), events) && Run(Start(1000, 0), events) == OneOctetSent()
  {
    var s0 := Start(1000, 0);
    var s1 := Step(s0, SynAck);
    var s2 := Step(s1, Queue(0));
    var s3 := Step(s2, Advance);
    var s4 := Step(s3, ProxyRead([7]));
    var s5 := Step(s4, Queue(0));
    assert Step(s5, Advance) == OneOctetSent();
    hide Step;
    var l5 := [Advance] + [];
    var l4 := [Queue(0)] + l5;
    var l3 := [ProxyRead([7])] + l4;
    var l2 := [Advance] + l3;
    var l1 := [Queue(0)] + l2;
    OneMore(s5, Advance, []);
    OneMore(s4, Queue(0), l5);
    OneMore(s3, ProxyRead([7]), l4);
    OneMore(s2, Advance, l3);
    OneMore(s1, Queue(0), l2);
    OneMore(s0, SynAck, l1);
    assert [SynAck] + l1 == [SynAck, Queue(0), Advance, ProxyRead([7]), Queue(0), Advance];
  }

  /** It does go wrong: one octet from a client that has acknowledged nothing empties the queue, and no
      check sends anything again. */
  lemma PrunedUnacknowledged()
    ensures var events := [SynAck, Queue(0), Advance, ProxyRead([7]), Queue(0), Advance];
            && IsRun(Start(1000, 0), events)
            && var s, e := Run(Start(1000, 0), events), ClientData([1], 1001, 0, 0);
               && |s.conn.queue| == 2 && FirstAcknowledged(s.conn.queue, 0, e.ack, 0)
               && Enabled(s, e) && Step(s, e).conn.queue == []
               && forall now :: Enabled(Step(s, e), Recheck(now)) &&
                                Step(Step(s, e), Recheck(now)).conn.sent == Step(s, e).conn.sent
  {
    OneOctetSentIsReached();
    hide IsRun, Run, Wrap32;
    var s := OneOctetSent();
    var q := s.conn.queue;
    assert q[1..] == [q[1]] && q[1..][1..] == [];
    assert Prune(q[1..], 1001) == Prune(q[1..][1..], 1001);
  }
}
