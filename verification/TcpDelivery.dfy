/** Every run of one established connection: the TUN thread and the proxy thread interleave, client
    segments arrive in any order and any number of times, writes and retransmission timers do what
    they like. */
module TcpDelivery {
  import opened Bytes
  import opened TcpConnection

  // The threads

  /** Where connectToProxy's thread stands after the CONNECT reply: between handing a packet to the
      TUN device, queueing it, and advancing serverSeq the other thread may run. */
  datatype ProxyThread =
    | Connected
    | Emitted(flags: nat, payload: Option<Bytes>)
    | Queued(advance: nat)
    | Rechecking
    | Reading
    | Ended

  /** Where the TUN thread stands in onClientData: clientSeq advances before the socket write, and the
      answer comes after it. */
  datatype TunThread =
    | Idle
    | Writing(payload: Bytes)
    | Answering
    | Failing                  // the write threw

  /** `ack` is the acknowledgement a client's segment carries. handlePacket reads it and passes on only
      segments with a payload; onClientData is modelled for empty ones too. */
  datatype Event =
    | SynAck                                                     // state, SYN-ACK to the TUN device
    | ProxyRead(chunk: Bytes)                                    // a read returns, PSH-ACK to the TUN device
    | Queue(now: int)
    | Advance                                                    // serverSeq++ or serverSeq += len
    | Recheck(now: int)                                          // checkRetransmissions
    | ProxyEnd                                                   // finally { close() }
    | ClientData(payload: Bytes, seqNum: Int32, ack: Int32, now: int)
    | ClientWrite(w: Write)
    | Answer
    | PureAck(ack: Int32)                                        // a segment without payload
    | ClientClose                                                // FIN or RST from the client

  /** `chunks` is what the reads on the proxy socket have returned. */
  datatype System = System(conn: Conn, tun: TunThread, thread: ProxyThread, chunks: seq<Bytes>)

  predicate Enabled(s: System, e: Event) {
    match e
    case SynAck => s.thread.Connected?
    case ProxyRead(chunk) => s.thread.Reading? && chunk != []
    case Queue(_) => s.thread.Emitted?
    case Advance => s.thread.Queued?
    case Recheck(_) => s.thread.Rechecking?
    case ProxyEnd => s.thread.Reading?
    case ClientData(_, _, _, _) => s.tun.Idle?
    case ClientWrite(_) => s.tun.Writing?
    case Answer => s.tun.Answering? || s.tun.Failing?
    case PureAck(_) => s.tun.Idle?
    case ClientClose => s.tun.Idle?
  }

  function Step(s: System, e: Event): System
    requires Enabled(s, e)
  {
    var c := s.conn;
    match e
    case SynAck =>
      s.(conn := Emit(c.(state := ESTABLISHED), c.serverSeq, SYN + ACK, None), thread := Emitted(SYN + ACK, None))
    case ProxyRead(chunk) =>
      s.(conn := Emit(c, c.serverSeq, PSH + ACK, Some(chunk)), thread := Emitted(PSH + ACK, Some(chunk)),
         chunks := s.chunks + [chunk])
    case Queue(now) =>
      s.(conn := Enqueue(c, s.thread.flags, s.thread.payload, now),
         thread := Queued(if s.thread.payload.Some? then |s.thread.payload.value| else 1))
    case Advance =>
      s.(conn := c.(serverSeq := Wrap32(c.serverSeq + s.thread.advance)),
         thread := if s.chunks == [] then Reading else Rechecking)
    case Recheck(now) => s.(conn := AfterCheck(c, now), thread := Reading)
    case ProxyEnd => s.(conn := AfterClose(c), thread := Ended)
    case ClientData(payload, seqNum, ack, now) =>
      s.(conn := AfterReceive(c, payload, seqNum, now),
         tun := if seqNum == c.clientSeq && payload != [] then Writing(payload) else Idle)
    case ClientWrite(w) =>
      s.(conn := AfterWrite(c, s.tun.payload, w), tun := if Returns(c, w) then Answering else Failing)
    case Answer => s.(conn := AfterAnswer(c, s.tun.Answering?), tun := Idle)
    case PureAck(_) => s
    case ClientClose => s.(conn := AfterClose(c))
  }

  predicate IsRun(s: System, events: seq<Event>)
    decreases |events|
  {
    events == [] || (Enabled(s, events[0]) && IsRun(Step(s, events[0]), events[1..]))
  }

  function Run(s: System, events: seq<Event>): System
    requires IsRun(s, events)
    decreases |events|
  {
    if events == [] then s else Run(Step(s, events[0]), events[1..])
  }

  /** After the CONNECT reply: the client's SYN carried `clientIsn`, ours will carry `serverIsn`. */
  function Start(clientIsn: Int32, serverIsn: Int32): System {
    System(Conn(SYN_RECEIVED, Open, serverIsn, Wrap32(clientIsn + 1), [], [], []), Idle, Connected, [])
  }

  // Positions in a stream

  /** The offset that a sequence number labels in a stream whose first octet has number `first`. */
  function Offset(first: int, seqNum: Int32): (n: nat)
    ensures n < TWO_32
  {
    (seqNum - first) % TWO_32
  }

  lemma OffsetOfSum(first: int, seqNum: Int32, n: nat)
    requires Offset(first, seqNum) + n < TWO_32
    ensures Offset(first, Wrap32(seqNum + n)) == Offset(first, seqNum) + n
  {
    var k := (Wrap32(seqNum + n) - (seqNum + n)) / TWO_32;
    var j := (seqNum - first) / TWO_32;
    assert Wrap32(seqNum + n) - first == (j + k) * TWO_32 + (Offset(first, seqNum) + n);
  }

  lemma OffsetInjective(first: int, a: Int32, b: Int32)
    requires Offset(first, a) == Offset(first, b)
    ensures a == b
  {
    var j, k := (a - first) / TWO_32, (b - first) / TWO_32;
    assert a - b == (j - k) * TWO_32;
  }

  /** `payload` is the piece of `stream` that `seqNum` says it is. */
  predicate Labels(stream: Bytes, first: int, seqNum: Int32, payload: Bytes) {
    var off := Offset(first, seqNum);
    off + |payload| <= |stream| && payload == stream[off..off + |payload|]
  }

  predicate Consistent(events: seq<Event>, stream: Bytes, first: int) {
    forall e :: e in events && e.ClientData? ==> Labels(stream, first, e.seqNum, e.payload)
  }

  // Client to proxy

  /** How many octets clientSeq counts that the TUN thread has yet to write. */
  function InFlight(s: System): nat {
    if s.tun.Writing? then |s.tun.payload| else 0
  }

  /** How many octets clientSeq counts that are neither written nor in flight. */
  function Lag(s: System, first: int): int {
    Offset(first, s.conn.clientSeq) - |s.conn.written| - InFlight(s)
  }

  /** The proxy has a prefix of the client's stream and the segment in flight is what follows; on a usable
      socket nothing is missing in between, and no packet acknowledges more than clientSeq counts. */
  ghost predicate Faithful(s: System, stream: Bytes, first: int) {
    var c, pos := s.conn, Offset(first, s.conn.clientSeq);
    && pos <= |stream| && 0 <= Lag(s, first)
    && c.written == stream[..|c.written|]
    && (s.tun.Writing? ==> s.tun.payload != [] && s.tun.payload == stream[pos - |s.tun.payload|..pos])
    && (c.socket.Open? || c.socket.Shut?)
    && (c.socket.Open? ==> c.state != CLOSED)
    && ((c.socket.Open? && !s.tun.Failing?) || s.tun.Answering? ==> Lag(s, first) == 0)
    && (forall p :: p in c.sent ==> Offset(first, p.ackNum) <= pos)
  }

  /** A write that loses octets. */
  predicate Loses(s: System, e: Event) {
    e.ClientWrite? && s.tun.Writing? && Delivered(s.conn, s.tun.payload, e.w) < |s.tun.payload|
  }

  predicate LosesNothing(s: System, events: seq<Event>)
    requires IsRun(s, events)
    decreases |events|
  {
    events == [] || (!Loses(s, events[0]) && LosesNothing(Step(s, events[0]), events[1..]))
  }

  lemma FaithfulReceive(s: System, e: Event, stream: Bytes, first: int)
    requires e.ClientData? && Enabled(s, e) && Faithful(s, stream, first) && |stream| < TWO_32
    requires Labels(stream, first, e.seqNum, e.payload)
    ensures Faithful(Step(s, e), stream, first) && Lag(Step(s, e), first) == Lag(s, first)
  {
    hide Wrap32, Offset;
    if e.seqNum == s.conn.clientSeq {
      OffsetOfSum(first, s.conn.clientSeq, |e.payload|);
    }
  }

  lemma FaithfulWrite(s: System, e: Event, stream: Bytes, first: int)
    requires e.ClientWrite? && Enabled(s, e) && Faithful(s, stream, first)
    ensures Faithful(Step(s, e), stream, first)
    ensures |s.conn.written| <= |Step(s, e).conn.written|
    ensures Lag(Step(s, e), first) >= Lag(s, first) && (Lag(Step(s, e), first) == Lag(s, first) <==> !Loses(s, e))
  {
    hide Wrap32, Offset;
    var c, payload := s.conn, s.tun.payload;
    if c.socket.Open? {
      PrefixGrows(stream, |c.written|, |payload|, Delivered(c, payload, e.w));
    }
  }

  lemma FaithfulStep(s: System, e: Event, stream: Bytes, first: int)
    requires Enabled(s, e) && Faithful(s, stream, first) && |stream| < TWO_32
    requires e.ClientData? ==> Labels(stream, first, e.seqNum, e.payload)
    ensures Faithful(Step(s, e), stream, first)
    ensures |s.conn.written| <= |Step(s, e).conn.written|
    ensures Lag(Step(s, e), first) >= Lag(s, first) && (Lag(Step(s, e), first) == Lag(s, first) <==> !Loses(s, e))
  {
    if e.ClientData? {
      FaithfulReceive(s, e, stream, first);
    } else if e.ClientWrite? {
      FaithfulWrite(s, e, stream, first);
    } else {
      hide Wrap32, Offset;
    }
  }

  lemma PrefixGrows(stream: Bytes, pos: nat, len: nat, n: nat)
    requires n <= len && pos + len <= |stream|
    ensures stream[..pos] + stream[pos..pos + len][..n] == stream[..pos + n]
  {
  }

  /** Whatever the order and repetition of the client's segments and whatever the proxy thread does,
      the octets on the proxy socket are a prefix of the client's stream, and with the segment in flight
      they are all that clientSeq counts if and only if no write has lost any. */
  lemma {:induction false} ClientStreamIsFaithful(s: System, events: seq<Event>, stream: Bytes, first: int)
    requires IsRun(s, events) && Consistent(events, stream, first) && |stream| < TWO_32
    requires Faithful(s, stream, first)
    ensures Faithful(Run(s, events), stream, first)
    ensures |s.conn.written| <= |Run(s, events).conn.written|
    ensures Lag(Run(s, events), first) >= Lag(s, first)
    ensures Lag(Run(s, events), first) == Lag(s, first) <==> LosesNothing(s, events)
    decreases |events|
  {
    hide Faithful, Lag, Loses, Labels, Step;
    if events != [] {
      assert events[0] in events;
      assert forall e :: e in events[1..] ==> e in events;
      FaithfulStep(s, events[0], stream, first);
      ClientStreamIsFaithful(Step(s, events[0]), events[1..], stream, first);
    }
  }

  lemma StartIsFaithful(clientIsn: Int32, serverIsn: Int32, stream: Bytes)
    ensures Faithful(Start(clientIsn, serverIsn), stream, clientIsn + 1)
    ensures Offset(clientIsn + 1, Start(clientIsn, serverIsn).conn.clientSeq) == 0
  {
    var k := (Wrap32(clientIsn + 1) - (clientIsn + 1)) / TWO_32;
    assert Wrap32(clientIsn + 1) - (clientIsn + 1) == k * TWO_32;
  }

  /** A packet sent in a step, by either thread, acknowledges the position clientSeq has then. */
  lemma PacketNamesPosition(s: System, e: Event, stream: Bytes, first: int, i: nat)
    requires Enabled(s, e) && Faithful(s, stream, first) && |stream| < TWO_32
    requires e.ClientData? ==> Labels(stream, first, e.seqNum, e.payload)
    requires |s.conn.sent| <= i < |Step(s, e).conn.sent|
    ensures var s' := Step(s, e);
            var ack := Offset(first, s'.conn.sent[i].ackNum);
            ack == |s'.conn.written| <==> !s'.tun.Writing? && Lag(s', first) == 0
  {
    hide Wrap32, Offset;
    FaithfulStep(s, e, stream, first);
    assert Step(s, e).conn.sent[i] in Step(s, e).conn.sent[|s.conn.sent|..];
    SentNow(s, e);
  }

  lemma SentNow(s: System, e: Event)
    requires Enabled(s, e)
    ensures s.conn.sent <= Step(s, e).conn.sent
    ensures forall p :: p in Step(s, e).conn.sent[|s.conn.sent|..] ==> p.ackNum == Step(s, e).conn.clientSeq
  {
    hide Wrap32;
  }

  /** What acknowledgements promise, over every run: a packet that either thread sends acknowledges exactly
      what is on the proxy socket if and only if no segment is in flight and no write of the run, this step
      included, has lost octets. */
  lemma PacketAcknowledges(clientIsn: Int32, serverIsn: Int32, events: seq<Event>, e: Event, stream: Bytes, i: nat)
    requires IsRun(Start(clientIsn, serverIsn), events + [e])
    requires Consistent(events + [e], stream, clientIsn + 1) && |stream| < TWO_32
    requires IsRun(Start(clientIsn, serverIsn), events)
             && |Run(Start(clientIsn, serverIsn), events).conn.sent| <= i
             < |Run(Start(clientIsn, serverIsn), events + [e]).conn.sent|
    ensures var s' := Run(Start(clientIsn, serverIsn), events + [e]);
            Offset(clientIsn + 1, s'.conn.sent[i].ackNum) == |s'.conn.written| <==>
            !s'.tun.Writing? && LosesNothing(Start(clientIsn, serverIsn), events + [e])
  {
    var s0, first := Start(clientIsn, serverIsn), clientIsn + 1;
    StartIsFaithful(clientIsn, serverIsn, stream);
    assert Lag(s0, first) == 0;
    hide Faithful, Lag, Labels, Step, Enabled, LosesNothing, IsRun, Run, Offset, Loses;
    RunSnoc(s0, events, e);
    assert e in events + [e] && forall x :: x in events ==> x in events + [e];
    ClientStreamIsFaithful(s0, events, stream, first);
    ClientStreamIsFaithful(s0, events + [e], stream, first);
    PacketNamesPosition(Run(s0, events), e, stream, first, i);
  }

  lemma {:induction false} RunSnoc(s: System, events: seq<Event>, e: Event)
    requires IsRun(s, events + [e])
    ensures IsRun(s, events) && Enabled(Run(s, events), e)
    ensures Run(s, events + [e]) == Step(Run(s, events), e)
    decreases |events|
  {
    hide Step, Enabled;
    var all := events + [e];
    if events == [] {
      assert all[1..] == [];
      assert IsRun(Step(s, e), []) && Run(Step(s, e), []) == Step(s, e);
    } else {
      assert all[0] == events[0] && all[1..] == events[1..] + [e];
      RunSnoc(Step(s, events[0]), events[1..], e);
    }
  }

  /** The answer to an in-order segment comes when its write has returned, and is the truth. */
  lemma AnswerIsTrue(s: System, stream: Bytes, first: int)
    requires s.tun.Answering? && Faithful(s, stream, first)
    ensures var c, c' := s.conn, Step(s, Answer).conn;
            |c'.sent| == |c.sent| + 1 && Offset(first, c'.sent[|c.sent|].ackNum) == |c'.written|
  {
  }

  lemma OneMore(s: System, e: Event, events: seq<Event>)
    requires Enabled(s, e) && IsRun(Step(s, e), events)
    ensures IsRun(s, [e] + events) && Run(s, [e] + events) == Run(Step(s, e), events)
  {
    assert ([e] + events)[1..] == events;
  }

  /** The two gaps are real. A PSH-ACK that the proxy thread sends between the advance of clientSeq and the
      write acknowledges an octet that is not written, on a usable socket; a failed write of that octet
      makes the FIN acknowledge one that never will be. */
  lemma AcknowledgedBeforeWritten()
    ensures var events := [SynAck, Queue(0), Advance, ClientData([7], 1, 0, 0), ProxyRead([9])];
            && IsRun(Start(0, 0), events)
            && var s := Run(Start(0, 0), events);
               && s.conn.socket.Open? && s.conn.written == []
               && s.conn.sent[|s.conn.sent| - 1] == Sent(1, 2, PSH + ACK, Some([9]))
  {
    var s0 := Start(0, 0);
    var s1 := Step(s0, SynAck);
    var s2 := Step(s1, Queue(0));
    var s3 := Step(s2, Advance);
    var s4 := Step(s3, ClientData([7], 1, 0, 0));
    OneMore(s4, ProxyRead([9]), []);
    OneMore(s3, ClientData([7], 1, 0, 0), [ProxyRead([9])]);
    OneMore(s2, Advance, [ClientData([7], 1, 0, 0)] + [ProxyRead([9])]);
    OneMore(s1, Queue(0), [Advance] + ([ClientData([7], 1, 0, 0)] + [ProxyRead([9])]));
    OneMore(s0, SynAck, [Queue(0)] + ([Advance] + ([ClientData([7], 1, 0, 0)] + [ProxyRead([9])])));
    assert [SynAck] + ([Queue(0)] + ([Advance] + ([ClientData([7], 1, 0, 0)] + [ProxyRead([9])])))
        == [SynAck, Queue(0), Advance, ClientData([7], 1, 0, 0), ProxyRead([9])];
  }

  lemma FinOverstatesAfterFailedWrite()
    ensures var events := [ClientData([7], 1, 0, 0), ClientWrite(Failed(0)), Answer];
            && IsRun(Start(0, 0), events)
            && var s := Run(Start(0, 0), events);
               s.conn.written == [] && s.conn.sent == [Sent(0, 2, FIN + ACK, None)]
  {
    var s0 := Start(0, 0);
    var s1 := Step(s0, ClientData([7], 1, 0, 0));
    var s2 := Step(s1, ClientWrite(Failed(0)));
    OneMore(s2, Answer, []);
    OneMore(s1, ClientWrite(Failed(0)), [Answer]);
    OneMore(s0, ClientData([7], 1, 0, 0), [ClientWrite(Failed(0))] + [Answer]);
    assert [ClientData([7], 1, 0, 0)] + ([ClientWrite(Failed(0))] + [Answer])
        == [ClientData([7], 1, 0, 0), ClientWrite(Failed(0)), Answer];
  }

  /** Which segments, other than the next one, are answered. Numbers are compared as signed integers, so those
      behind clientSeq are and those ahead are not, unless the sign boundary lies between the two: then it is the
      other way round. Data is acknowledged again; an empty segment has the head of the queue sent again. */
  lemma AnsweredIffBehind(c: Conn, payload: Bytes, seqNum: Int32, now: int, first: Int32)
    requires seqNum != c.clientSeq
    ensures var behind := Offset(first, seqNum) < Offset(first, c.clientSeq);
            var oneSide := first + Offset(first, seqNum) < 0x8000_0000 <==>
                           first + Offset(first, c.clientSeq) < 0x8000_0000;
            var pruned := c.(queue := Prune(c.queue, seqNum));
            AfterReceive(c, payload, seqNum, now) ==
            if behind != oneSide then pruned
            else if payload == [] then AfterFastRetransmit(pruned, now)
            else pruned.(sent := c.sent + [Sent(c.serverSeq, c.clientSeq, ACK, None)])
  {
    SignedPosition(first, seqNum);
    SignedPosition(first, c.clientSeq);
    OffsetDiffers(first, seqNum, c.clientSeq);
  }

  lemma OffsetDiffers(first: int, a: Int32, b: Int32)
    requires a != b
    ensures Offset(first, a) != Offset(first, b)
  {
    if Offset(first, a) == Offset(first, b) {
      OffsetInjective(first, a, b);
    }
  }

  /** One that is not: the client's numbers cross the sign boundary between the segment and its repetition. */
  lemma DuplicateUnanswered()
    ensures var c := Conn(ESTABLISHED, Open, 0, -0x8000_0000, [], [7], []);
            && c.clientSeq == Wrap32(0x7FFF_FFFF + 1)
            && AfterReceive(c, [7], 0x7FFF_FFFF, 0).sent == []
  {
  }

  lemma SignedPosition(first: Int32, seqNum: Int32)
    ensures var at := first + Offset(first, seqNum); seqNum == at - (if at < 0x8000_0000 then 0 else TWO_32)
  {
  }

  /** Data that arrives before the socket object exists is acknowledged and dropped, and only then:
      the safe call skips the write and nothing is thrown. */
  lemma SwallowedIffNoSocket(c: Conn, payload: Bytes, now: int, w: Write)
    requires payload != []
    ensures var c' := AfterClientData(c, payload, c.clientSeq, now, w);
            (|c'.sent| > |c.sent| && c'.sent[|c.sent|].flags == ACK && c'.written == c.written) <==> c.socket.NoSocket?
  {
  }

  // Client to proxy: progress

  /** The client cuts its stream into segments once and resends them whole, in the order `order`; between
      them the threads do what they like, but no write fails and nobody closes. */
  predicate Follows(events: seq<Event>, segments: seq<Bytes>, first: int, order: seq<nat>)
    requires forall i :: i in order ==> i < |segments|
    decreases |events|
  {
    if events == [] then order == []
    else
      var rest := events[1..];
      match events[0]
      case ClientData(payload, seqNum, _, _) =>
        && order != []
        && (assert order[0] in order; assert forall i :: i in order[1..] ==> i in order;
            && payload == segments[order[0]] && seqNum == Wrap32(first + |Join(segments[..order[0]])|)
            && Follows(rest, segments, first, order[1..]))
      case ClientWrite(w) => w.Accepted? && Follows(rest, segments, first, order)
      case ProxyEnd => false
      case ClientClose => false
      case _ => Follows(rest, segments, first, order)
  }

  /** How many segments the order visits in sequence, starting from `next`. */
  function Reached(order: seq<nat>, next: nat): (n: nat)
    ensures next <= n
  {
    if order == [] then next else Reached(order[1..], if order[0] == next then next + 1 else next)
  }

  function Upto(next: nat, n: nat): (order: seq<nat>)
    requires next <= n
    ensures |order| == n - next
    decreases n - next
  {
    if next == n then [] else [next] + Upto(next + 1, n)
  }

  lemma {:induction false} ReachedIffSubsequence(order: seq<nat>, next: nat, n: nat)
    requires next <= n && forall i :: i in order ==> i < n
    ensures Reached(order, next) == n <==> Subsequence(Upto(next, n), order)
    ensures Reached(order, next) <= n
    decreases |order|
  {
    if order != [] {
      assert order[0] in order;
      assert forall i :: i in order[1..] ==> i in order;
      if order[0] == next {
        ReachedIffSubsequence(order[1..], next + 1, n);
        assert Upto(next, n)[1..] == Upto(next + 1, n);
      } else {
        ReachedIffSubsequence(order[1..], next, n);
      }
    }
  }

  lemma OffsetOfSegment(segments: seq<Bytes>, first: int, i: nat)
    requires i <= |segments| && |Join(segments)| < TWO_32
    ensures |Join(segments[..i])| <= |Join(segments)|
    ensures Offset(first, Wrap32(first + |Join(segments[..i])|)) == |Join(segments[..i])|
    ensures i < |segments| ==> |Join(segments[..i + 1])| == |Join(segments[..i])| + |segments[i]|
  {
    assert segments == segments[..i] + segments[i..];
    JoinAppend(segments[..i], segments[i..]);
    var m := first + |Join(segments[..i])|;
    var k := (Wrap32(m) - m) / TWO_32;
    assert Wrap32(m) - first == k * TWO_32 + |Join(segments[..i])|;
    if i < |segments| {
      assert segments[..i + 1] == segments[..i] + [segments[i]];
      JoinSnoc(segments[..i], segments[i]);
    }
  }

  lemma {:induction false} JoinMonotone(segments: seq<Bytes>, i: nat, j: nat)
    requires i < j <= |segments| && forall s :: s in segments ==> s != []
    ensures |Join(segments[..i])| < |Join(segments[..j])|
    decreases j
  {
    assert segments[..j] == segments[..j - 1] + [segments[j - 1]];
    JoinSnoc(segments[..j - 1], segments[j - 1]);
    assert segments[j - 1] in segments;
    if i < j - 1 {
      JoinMonotone(segments, i, j - 1);
    }
  }

  /** Progress, exactly: when the segments have arrived in any order, the proxy has the segments that the
      order visits in sequence; it has the whole stream if and only if the order contains 0, 1, .., n - 1. */
  lemma WholeStreamIff(clientIsn: Int32, serverIsn: Int32, segments: seq<Bytes>, order: seq<nat>, events: seq<Event>)
    requires |Join(segments)| < TWO_32 && (forall s :: s in segments ==> s != [])
    requires forall i :: i in order ==> i < |segments|
    requires IsRun(Start(clientIsn, serverIsn), events) && Follows(events, segments, clientIsn + 1, order)
    ensures var s := Run(Start(clientIsn, serverIsn), events);
            Received(s) == Join(segments) <==> Subsequence(Upto(0, |segments|), order)
  {
    var s := Start(clientIsn, serverIsn);
    StartIsFaithful(clientIsn, serverIsn, []);
    assert segments[..0] == [];
    hide IsRun, Run, Follows;
    Progress(s, clientIsn + 1, segments, order, 0, events);
    ReachedIffSubsequence(order, 0, |segments|);
    var n := Reached(order, 0);
    if n < |segments| {
      JoinMonotone(segments, n, |segments|);
    }
    assert segments[..|segments|] == segments;
  }

  /** What is on the proxy socket, once the write under way is done. */
  function Received(s: System): Bytes {
    s.conn.written + if s.tun.Writing? then s.tun.payload else []
  }

  /** The proxy has the first `next` segments. */
  predicate Has(s: System, first: int, segments: seq<Bytes>, next: nat) {
    && next <= |segments| && s.conn.socket.Open? && !s.tun.Failing?
    && Received(s) == Join(segments[..next])
    && Offset(first, s.conn.clientSeq) == |Join(segments[..next])|
  }

  lemma {:induction false} Progress(s: System, first: int, segments: seq<Bytes>, order: seq<nat>, next: nat,
                                    events: seq<Event>)
    requires |Join(segments)| < TWO_32 && (forall x :: x in segments ==> x != [])
    requires forall i :: i in order ==> i < |segments|
    requires IsRun(s, events) && Follows(events, segments, first, order) && Has(s, first, segments, next)
    ensures Has(Run(s, events), first, segments, Reached(order, next))
    decreases |events|
  {
    hide Has, Step;
    if events != [] {
      var e := events[0];
      if e.ClientData? {
        assert order[0] in order && forall i :: i in order[1..] ==> i in order;
        ProgressData(s, first, segments, order[0], next, e);
        Progress(Step(s, e), first, segments, order[1..], if order[0] == next then next + 1 else next, events[1..]);
      } else {
        ProgressOther(s, first, segments, next, e);
        Progress(Step(s, e), first, segments, order, next, events[1..]);
      }
    }
  }

  lemma ProgressOther(s: System, first: int, segments: seq<Bytes>, next: nat, e: Event)
    requires Enabled(s, e) && Has(s, first, segments, next) && !e.ClientData? && !e.ProxyEnd? && !e.ClientClose?
    requires e.ClientWrite? ==> e.w.Accepted?
    ensures Has(Step(s, e), first, segments, next)
  {
    hide Wrap32, Offset, Join;
    assert s.conn.written + [] == s.conn.written;
  }

  lemma ProgressData(s: System, first: int, segments: seq<Bytes>, i: nat, next: nat, e: Event)
    requires |Join(segments)| < TWO_32 && (forall x :: x in segments ==> x != [])
    requires i < |segments| && Has(s, first, segments, next)
    requires e.ClientData? && Enabled(s, e)
    requires e.payload == segments[i] && e.seqNum == Wrap32(first + |Join(segments[..i])|)
    ensures Has(Step(s, e), first, segments, if i == next then next + 1 else next)
  {
    hide Wrap32, Offset, Join;
    OffsetOfSegment(segments, first, i);
    assert segments[i] in segments;
    assert s.conn.written + [] == s.conn.written;
    if i == next {
      OffsetInjective(first, e.seqNum, s.conn.clientSeq);
      OffsetOfSegment(segments, first, i + 1);
      OffsetOfSum(first, s.conn.clientSeq, |segments[i]|);
      assert segments[..i + 1] == segments[..i] + [segments[i]];
      JoinSnoc(segments[..i], segments[i]);
    } else if i < next {
      JoinMonotone(segments, i, next);
    } else {
      JoinMonotone(segments, next, i);
    }
  }
}
