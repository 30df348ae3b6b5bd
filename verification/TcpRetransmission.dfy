/** The proxy's bytes on their way to the client: what originals and retransmissions carry, over
    every run of the two threads. */
module TcpRetransmission {
  import opened Bytes
  import opened TcpConnection
  import opened TcpDelivery

  /** The number of the first octet of chunk `i` when the SYN has number `isn`. */
  function Place(isn: Int32, chunks: seq<Bytes>, i: nat): Int32
    requires i <= |chunks|
  {
    Wrap32(isn + 1 + |Join(chunks[..i])|)
  }

  ghost predicate IsChunk(payload: Bytes, seqNum: Int32, chunks: seq<Bytes>, isn: Int32) {
    exists i :: 0 <= i < |chunks| && payload == chunks[i] && seqNum == Place(isn, chunks, i)
  }

  /** Data is a chunk at its own place; a SYN carries no data and has the initial number. */
  ghost predicate Placed(flags: nat, payload: Option<Bytes>, seqNum: Int32, chunks: seq<Bytes>, isn: Int32) {
    && (payload.Some? ==> IsChunk(payload.value, seqNum, chunks, isn))
    && (flags == SYN + ACK ==> payload.None? && seqNum == isn)
  }

  /** The flags of what is queued: a SYN takes a number without data. */
  function KindOf(payload: Option<Bytes>): nat {
    if payload.Some? then PSH + ACK else SYN + ACK
  }

  /** Everything sent or queued is a chunk at its own place, every chunk has been sent there, and
      serverSeq is where the proxy thread's program counter says it is. */
  ghost predicate Tiled(s: System, isn: Int32) {
    && (forall x :: x in s.chunks ==> x != [])
    && (forall p :: p in s.conn.sent ==> Placed(p.flags, p.payload, p.seqNum, s.chunks, isn))
    && (forall q :: q in s.conn.queue ==>
          q.flags == KindOf(q.payload) && Placed(q.flags, q.payload, q.seqNum, s.chunks, isn))
    && (forall i :: 0 <= i < |s.chunks| ==> SentAt(s.conn.sent, s.chunks[i], Place(isn, s.chunks, i)))
    && ThreadPlace(s, isn)
  }

  ghost predicate SentAt(sent: seq<Sent>, chunk: Bytes, seqNum: Int32) {
    exists p :: p in sent && p.payload == Some(chunk) && p.seqNum == seqNum
  }

  ghost predicate ThreadPlace(s: System, isn: Int32) {
    var n := |s.chunks|;
    match s.thread
    case Connected => n == 0 && s.conn.serverSeq == isn
    case Emitted(flags, payload) =>
      if payload.None? then n == 0 && s.conn.serverSeq == isn && flags == SYN + ACK
      else
        && n > 0 && flags == PSH + ACK && payload.value == s.chunks[n - 1]
        && s.conn.serverSeq == Place(isn, s.chunks, n - 1)
    case Queued(advance) =>
      if n == 0 then advance == 1 && s.conn.serverSeq == isn
      else advance == |s.chunks[n - 1]| && s.conn.serverSeq == Place(isn, s.chunks, n - 1)
    case _ => s.conn.serverSeq == Place(isn, s.chunks, n)
  }

  lemma StartIsTiled(clientIsn: Int32, serverIsn: Int32)
    ensures Tiled(Start(clientIsn, serverIsn), serverIsn)
  {
  }

  lemma PlaceStable(isn: Int32, chunks: seq<Bytes>, chunk: Bytes)
    ensures forall i :: 0 <= i <= |chunks| ==> Place(isn, chunks + [chunk], i) == Place(isn, chunks, i)
    ensures forall p, n :: IsChunk(p, n, chunks, isn) ==> IsChunk(p, n, chunks + [chunk], isn)
    ensures IsChunk(chunk, Place(isn, chunks, |chunks|), chunks + [chunk], isn)
  {
    hide Wrap32;
    forall i | 0 <= i <= |chunks|
      ensures Place(isn, chunks + [chunk], i) == Place(isn, chunks, i)
    {
      assert (chunks + [chunk])[..i] == chunks[..i];
    }
    forall p, n | IsChunk(p, n, chunks, isn)
      ensures IsChunk(p, n, chunks + [chunk], isn)
    {
      var i :| 0 <= i < |chunks| && p == chunks[i] && n == Place(isn, chunks, i);
      assert (chunks + [chunk])[i] == p;
    }
    assert (chunks + [chunk])[|chunks|] == chunk;
  }

  /** Moving serverSeq past the last chunk leads to the place after it. */
  lemma PlaceAdvances(isn: Int32, chunks: seq<Bytes>)
    requires |chunks| > 0
    ensures var n := |chunks|; Wrap32(Place(isn, chunks, n - 1) + |chunks[n - 1]|) == Place(isn, chunks, n)
  {
    var n := |chunks|;
    assert chunks[..n] == chunks[..n - 1] + [chunks[n - 1]];
    JoinSnoc(chunks[..n - 1], chunks[n - 1]);
    WrapTwice(isn + 1 + |Join(chunks[..n - 1])|, |chunks[n - 1]|);
  }

  lemma SentStays(sent: seq<Sent>, more: seq<Sent>)
    ensures forall chunk, n :: SentAt(sent, chunk, n) ==> SentAt(sent + more, chunk, n)
  {
    forall chunk, n | SentAt(sent, chunk, n)
      ensures SentAt(sent + more, chunk, n)
    {
      var p :| p in sent && p.payload == Some(chunk) && p.seqNum == n;
      assert p in sent + more;
    }
  }

  lemma TiledRead(s: System, chunk: Bytes, isn: Int32)
    requires Enabled(s, ProxyRead(chunk)) && Tiled(s, isn)
    ensures Tiled(Step(s, ProxyRead(chunk)), isn)
  {
    hide Wrap32, Place, IsChunk, SentAt;
    var s' := Step(s, ProxyRead(chunk));
    PlaceStable(isn, s.chunks, chunk);
    LatestIsSent(s'.conn.sent, chunk, Place(isn, s.chunks, |s.chunks|));
    SentStays(s.conn.sent, [s'.conn.sent[|s.conn.sent|]]);
  }

  lemma LatestIsSent(sent: seq<Sent>, chunk: Bytes, seqNum: Int32)
    ensures sent != [] && sent[|sent| - 1].payload == Some(chunk) && sent[|sent| - 1].seqNum == seqNum ==>
              SentAt(sent, chunk, seqNum)
  {
  }

  lemma TiledAfterAppending(s: System, s': System, more: seq<Sent>, isn: Int32)
    requires Tiled(s, isn) && s'.chunks == s.chunks && s'.conn.sent == s.conn.sent + more && ThreadPlace(s', isn)
    requires forall p :: p in more ==> Placed(p.flags, p.payload, p.seqNum, s.chunks, isn)
    requires forall q :: q in s'.conn.queue ==>
               q.flags == KindOf(q.payload) && Placed(q.flags, q.payload, q.seqNum, s.chunks, isn)
    ensures Tiled(s', isn)
  {
    hide Place, IsChunk;
    SentStays(s.conn.sent, more);
  }

  lemma TiledClientData(s: System, e: Event, isn: Int32)
    requires e.ClientData? && Enabled(s, e) && Tiled(s, isn)
    ensures Tiled(Step(s, e), isn)
  {
    hide Place, IsChunk, Wrap32;
    var c, c' := s.conn, Step(s, e).conn;
    var more := c'.sent[|c.sent|..];
    TiledAfterAppending(s, Step(s, e), more, isn);
  }

  lemma TiledRecheck(s: System, now: int, isn: Int32)
    requires Enabled(s, Recheck(now)) && Tiled(s, isn)
    ensures Tiled(Step(s, Recheck(now)), isn)
  {
    hide Place, IsChunk, Wrap32;
    var c := s.conn;
    var s' := Step(s, Recheck(now));
    forall q | q in s'.conn.queue
      ensures q.flags == KindOf(q.payload) && Placed(q.flags, q.payload, q.seqNum, s.chunks, isn)
    {
      var i :| 0 <= i < |c.queue| && q == Touch(c.queue[i], now);
      assert c.queue[i] in c.queue;
    }
    TiledAfterAppending(s, s', Resends(c.queue, c.clientSeq, now), isn);
  }

  lemma TiledStep(s: System, e: Event, isn: Int32)
    requires Enabled(s, e) && Tiled(s, isn)
    ensures Tiled(Step(s, e), isn)
  {
    hide Place, IsChunk, Wrap32;
    var s' := Step(s, e);
    match e
    case ProxyRead(chunk) => TiledRead(s, chunk, isn);
    case ClientData(_, _, _, _) => TiledClientData(s, e, isn);
    case PureAck(_) =>
    case Recheck(now) => TiledRecheck(s, now, isn);
    case Advance =>
      AdvancePlace(s, isn);
      TiledAfterAppending(s, s', [], isn);
    case Queue(now) => TiledQueue(s, now, isn);
    case _ => TiledOther(s, e, isn);
  }

  lemma TiledQueue(s: System, now: int, isn: Int32)
    requires Enabled(s, Queue(now)) && Tiled(s, isn)
    ensures Tiled(Step(s, Queue(now)), isn)
  {
    hide Place, IsChunk, Wrap32;
    TiledAfterAppending(s, Step(s, Queue(now)), [], isn);
  }

  lemma TiledOther(s: System, e: Event, isn: Int32)
    requires Enabled(s, e) && Tiled(s, isn)
    requires e.SynAck? || e.ProxyEnd? || e.ClientWrite? || e.Answer? || e.ClientClose?
    ensures Tiled(Step(s, e), isn)
  {
    hide Place, IsChunk, SentAt, Wrap32, Prune, Resends;
    var s' := Step(s, e);
    TiledAfterAppending(s, s', s'.conn.sent[|s.conn.sent|..], isn);
  }

  lemma AdvancePlace(s: System, isn: Int32)
    requires Enabled(s, Advance) && ThreadPlace(s, isn)
    ensures ThreadPlace(Step(s, Advance), isn)
  {
    if s.chunks != [] {
      PlaceAdvances(isn, s.chunks);
    }
  }

  lemma {:induction false} RunIsTiled(s: System, events: seq<Event>, isn: Int32)
    requires IsRun(s, events) && Tiled(s, isn)
    ensures Tiled(Run(s, events), isn)
    decreases |events|
  {
    if events != [] {
      TiledStep(s, events[0], isn);
      RunIsTiled(Step(s, events[0]), events[1..], isn);
    }
  }

  // Packets without data

  /** The number of what the proxy thread sends next: the SYN's until the thread has counted it, then the place
      after the last chunk that it has counted. */
  function Upcoming(s: System, isn: Int32): Int32 {
    var n := |s.chunks|;
    if s.thread.Reading? || s.thread.Rechecking? || s.thread.Ended? then Place(isn, s.chunks, n)
    else if n == 0 || s.thread.Connected? then isn
    else Place(isn, s.chunks, n - 1)
  }

  lemma ServerSeqIsUpcoming(s: System, isn: Int32)
    requires Tiled(s, isn)
    ensures s.conn.serverSeq == Upcoming(s, isn)
  {
  }

  /** What a step may send: a chunk at its own place, the SYN with the initial number, or an empty
      acknowledgement that names the upcoming number; a FIN exactly when the step closes the connection. */
  ghost predicate Proper(s: System, s': System, p: Sent, isn: Int32) {
    match p.payload
    case Some(data) => p.flags == PSH + ACK && IsChunk(data, p.seqNum, s'.chunks, isn)
    case None =>
      if p.flags == SYN + ACK then p.seqNum == isn
      else
        && p.seqNum == Upcoming(s, isn)
        && p.flags == (if s.conn.state != CLOSED && s'.conn.state == CLOSED then FIN + ACK else ACK)
  }

  lemma PacketIsProper(s: System, e: Event, isn: Int32)
    requires Enabled(s, e) && Tiled(s, isn)
    ensures forall p :: p in Step(s, e).conn.sent[|s.conn.sent|..] ==> Proper(s, Step(s, e), p, isn)
  {
    hide Place, IsChunk, Wrap32, Upcoming;
    ServerSeqIsUpcoming(s, isn);
    if e.ProxyRead? {
      PlaceStable(isn, s.chunks, e.chunk);
    }
  }

  /** Over every run, whichever thread sends: no packet without data has a number other than the SYN's or the
      upcoming one, so a client that has received the stream so far finds it at the edge of its window. */
  lemma EveryPacketIsProper(clientIsn: Int32, isn: Int32, events: seq<Event>, e: Event, i: nat)
    requires IsRun(Start(clientIsn, isn), events + [e]) && IsRun(Start(clientIsn, isn), events)
    requires |Run(Start(clientIsn, isn), events).conn.sent| <= i
             < |Run(Start(clientIsn, isn), events + [e]).conn.sent|
    ensures var s, s' := Run(Start(clientIsn, isn), events), Run(Start(clientIsn, isn), events + [e]);
            Proper(s, s', s'.conn.sent[i], isn)
  {
    hide IsRun, Run, Step, Enabled, Tiled, Proper;
    StartIsTiled(clientIsn, isn);
    RunIsTiled(Start(clientIsn, isn), events, isn);
    RunSnoc(Start(clientIsn, isn), events, e);
    var s := Run(Start(clientIsn, isn), events);
    PacketIsProper(s, e, isn);
    var s' := Step(s, e);
    assert s'.conn.sent[i] == s'.conn.sent[|s.conn.sent|..][i - |s.conn.sent|];
  }

  /** Data is exactly the octets of the proxy's stream that the sequence number labels, counted from
      the number after the SYN's. */
  ghost predicate Carries(p: Sent, stream: Bytes, isn: Int32) {
    && (p.payload.Some? ==> Labels(stream, isn + 1, p.seqNum, p.payload.value))
    && (p.flags == SYN + ACK ==> p.payload.None? && p.seqNum == isn)
  }

  /** Over every run, for a proxy stream shorter than 2^32 octets: every data packet, original or
      retransmission, carries exactly the octets that its sequence number labels, so two packets
      never disagree about an octet they both cover; and the packets cover the whole stream. A client
      that reassembles by sequence number gets the proxy's stream. */
  lemma ProxyStreamIsReassembled(clientIsn: Int32, serverIsn: Int32, events: seq<Event>)
    requires IsRun(Start(clientIsn, serverIsn), events)
    requires |Join(Run(Start(clientIsn, serverIsn), events).chunks)| < TWO_32
    ensures var s := Run(Start(clientIsn, serverIsn), events);
            var stream := Join(s.chunks);
            && (forall p :: p in s.conn.sent ==> Carries(p, stream, serverIsn))
            && (forall k :: 0 <= k < |stream| ==> Covered(s.conn.sent, k, serverIsn))
  {
    var s := Run(Start(clientIsn, serverIsn), events);
    var stream := Join(s.chunks);
    StartIsTiled(clientIsn, serverIsn);
    RunIsTiled(Start(clientIsn, serverIsn), events, serverIsn);
    forall p | p in s.conn.sent
      ensures Carries(p, stream, serverIsn)
    {
      if p.payload.Some? {
        var i :| 0 <= i < |s.chunks| && p.payload.value == s.chunks[i] && p.seqNum == Place(serverIsn, s.chunks, i);
        ChunkIsLabelled(s.chunks, i, serverIsn);
      }
    }
    forall k | 0 <= k < |stream|
      ensures Covered(s.conn.sent, k, serverIsn)
    {
      var i := ChunkOf(s.chunks, k);
      ChunkIsLabelled(s.chunks, i, serverIsn);
      assert SentAt(s.conn.sent, s.chunks[i], Place(serverIsn, s.chunks, i));
    }
  }

  /** Some data packet holds octet `k` of the stream. */
  ghost predicate Covered(sent: seq<Sent>, k: nat, isn: Int32) {
    exists p :: p in sent && p.payload.Some? &&
                Offset(isn + 1, p.seqNum) <= k < Offset(isn + 1, p.seqNum) + |p.payload.value|
  }

  lemma ChunkIsLabelled(chunks: seq<Bytes>, i: nat, isn: Int32)
    requires i < |chunks| && |Join(chunks)| < TWO_32
    ensures Labels(Join(chunks), isn + 1, Place(isn, chunks, i), chunks[i])
    ensures Offset(isn + 1, Place(isn, chunks, i)) == |Join(chunks[..i])|
  {
    hide Wrap32, Offset;
    OffsetOfSegment(chunks, isn + 1, i);
    JoinAt(chunks, i);
    var stream, at := Join(chunks), |Join(chunks[..i])|;
    assert stream[at..][..|chunks[i]|] == stream[at..at + |chunks[i]|];
  }

  /** The chunk that holds octet `k`. */
  lemma {:induction false} ChunkOf(chunks: seq<Bytes>, k: nat) returns (i: nat)
    requires k < |Join(chunks)|
    ensures i < |chunks| && |Join(chunks[..i])| <= k < |Join(chunks[..i])| + |chunks[i]|
    decreases |chunks|
  {
    var n := |chunks| - 1;
    assert chunks == chunks[..n] + [chunks[n]];
    JoinSnoc(chunks[..n], chunks[n]);
    if k < |Join(chunks[..n])| {
      i := ChunkOf(chunks[..n], k);
      assert chunks[..n][..i] == chunks[..i];
    } else {
      i := n;
    }
  }

  /** Equal sequence numbers, equal payloads: a retransmission is octet for octet its original. */
  lemma SameNumberSameBytes(clientIsn: Int32, serverIsn: Int32, events: seq<Event>, p: Sent, q: Sent)
    requires IsRun(Start(clientIsn, serverIsn), events)
    requires |Join(Run(Start(clientIsn, serverIsn), events).chunks)| < TWO_32
    requires p in Run(Start(clientIsn, serverIsn), events).conn.sent && p.payload.Some?
    requires q in Run(Start(clientIsn, serverIsn), events).conn.sent && q.payload.Some?
    requires p.seqNum == q.seqNum
    ensures p.payload == q.payload
  {
    hide IsRun, Run, Step, Tiled;
    StartIsTiled(clientIsn, serverIsn);
    RunIsTiled(Start(clientIsn, serverIsn), events, serverIsn);
    TiledAgrees(Run(Start(clientIsn, serverIsn), events), serverIsn, p, q);
  }

  lemma TiledAgrees(s: System, isn: Int32, p: Sent, q: Sent)
    requires Tiled(s, isn) && |Join(s.chunks)| < TWO_32
    requires p in s.conn.sent && p.payload.Some? && q in s.conn.sent && q.payload.Some? && p.seqNum == q.seqNum
    ensures p.payload == q.payload
  {
    hide Place, Labels, Join, ThreadPlace, SentAt;
    var i :| 0 <= i < |s.chunks| && p.payload.value == s.chunks[i] && p.seqNum == Place(isn, s.chunks, i);
    var j :| 0 <= j < |s.chunks| && q.payload.value == s.chunks[j] && q.seqNum == Place(isn, s.chunks, j);
    ChunkIsLabelled(s.chunks, i, isn);
    ChunkIsLabelled(s.chunks, j, isn);
    if i < j {
      JoinMonotone(s.chunks, i, j);
    } else if j < i {
      JoinMonotone(s.chunks, j, i);
    }
  }
}
