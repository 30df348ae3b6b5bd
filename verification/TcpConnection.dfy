/** The sequence-number state of one user-space TCP connection (Tun2Socks.TcpConnection): what the
    client's segments put on the proxy socket, and what the proxy's bytes become on the TUN device. */
module TcpConnection {
  import opened Bytes

  const FIN := 0x01
  const SYN := 0x02
  const PSH := 0x08
  const ACK := 0x10

  datatype TcpState = CLOSED | SYN_RECEIVED | ESTABLISHED | FIN_WAIT_1

  /** What getOutputStream().write can meet: no socket yet (the safe call skips the write), a socket
      that is not connected, a usable one, or one that close() has shut. */
  datatype Socket = NoSocket | Unconnected | Open | Shut

  /** Outcome of one write on a usable socket: a failing write may have passed on a prefix. */
  datatype Write = Accepted | Failed(delivered: nat)

  /** A packet handed to sendTcpPacket; addresses and ports never change. */
  datatype Sent = Sent(seqNum: Int32, ackNum: Int32, flags: nat, payload: Option<Bytes>)

  datatype Unacked = Unacked(seqNum: Int32, flags: nat, payload: Option<Bytes>, sentTimeMs: int)

  /** The connection's fields, with what it has written to the proxy and sent to the TUN device. */
  datatype Conn = Conn(state: TcpState, socket: Socket, serverSeq: Int32, clientSeq: Int32,
                       queue: seq<Unacked>, written: Bytes, sent: seq<Sent>)

  // The operations on values

  function Emit(c: Conn, seqNum: Int32, flags: nat, payload: Option<Bytes>): Conn {
    c.(sent := c.sent + [Sent(seqNum, c.clientSeq, flags, payload)])
  }

  function Enqueue(c: Conn, flags: nat, payload: Option<Bytes>, now: int): Conn {
    if payload.Some? || flags / SYN % 2 != 0 || flags / FIN % 2 != 0
    then c.(queue := c.queue + [Unacked(c.serverSeq, flags, payload, now)])
    else c
  }

  /** What is queued is what takes up sequence numbers: data, a SYN or a FIN, whatever the other flags. */
  lemma QueuedIffNumbered(c: Conn, payload: Option<Bytes>, now: int,
                          fin: bool, syn: bool, rst: bool, psh: bool, ack: bool, more: nat)
    ensures var bits := (b: bool) => if b then 1 else 0;
            var flags := bits(fin) + 2 * bits(syn) + 4 * bits(rst) + 8 * bits(psh) + 16 * bits(ack) + 32 * more;
            Enqueue(c, flags, payload, now) ==
            c.(queue := c.queue + if payload.Some? || syn || fin
                                  then [Unacked(c.serverSeq, flags, payload, now)] else [])
  {
    assert c.queue + [] == c.queue;
  }

  function AfterClose(c: Conn): Conn {
    if c.state == CLOSED then c
    else
      var c1 := c.(socket := if c.socket.NoSocket? then NoSocket else Shut);
      Emit(c1, c1.serverSeq, FIN + ACK, None).(state := CLOSED)
  }

  function Prune(queue: seq<Unacked>, ack: Int32): (kept: seq<Unacked>)
    ensures forall seg :: seg in kept <==> seg in queue && seg.seqNum >= ack
  {
    if queue == [] then []
    else if queue[0].seqNum < ack then Prune(queue[1..], ack)
    else [queue[0]] + Prune(queue[1..], ack)
  }

  lemma PruneStep(queue: seq<Unacked>, i: nat, ack: Int32)
    requires i < |queue|
    ensures Prune(queue[i..], ack) ==
            (if queue[i].seqNum < ack then [] else [queue[i]]) + Prune(queue[i + 1..], ack)
  {
    assert queue[i..][1..] == queue[i + 1..];
  }

  lemma NothingToPrune(queue: seq<Unacked>, ack: Int32)
    requires queue == []
    ensures Prune(queue, ack) == []
  {
  }

  predicate Due(seg: Unacked, now: int) {
    now - seg.sentTimeMs > 1000
  }

  function Touch(seg: Unacked, now: int): Unacked {
    if Due(seg, now) then seg.(sentTimeMs := now) else seg
  }

  /** The retransmissions of every due segment, in queue order. */
  function Resends(queue: seq<Unacked>, ack: Int32, now: int): (packets: seq<Sent>)
    ensures forall p :: p in packets <==>
              exists seg :: seg in queue && Due(seg, now) && p == Sent(seg.seqNum, ack, seg.flags, seg.payload)
  {
    if queue == [] then []
    else (if Due(queue[0], now) then [Sent(queue[0].seqNum, ack, queue[0].flags, queue[0].payload)] else [])
         + Resends(queue[1..], ack, now)
  }

  lemma ResendsStep(queue: seq<Unacked>, i: nat, ack: Int32, now: int)
    requires i < |queue|
    ensures Resends(queue[i..], ack, now) ==
            (if Due(queue[i], now) then [Sent(queue[i].seqNum, ack, queue[i].flags, queue[i].payload)] else [])
            + Resends(queue[i + 1..], ack, now)
  {
    assert queue[i..][1..] == queue[i + 1..];
  }

  lemma NothingToResend(queue: seq<Unacked>, ack: Int32, now: int)
    requires queue == []
    ensures Resends(queue, ack, now) == []
  {
  }

  function AfterCheck(c: Conn, now: int): Conn {
    c.(queue := seq(|c.queue|, i requires 0 <= i < |c.queue| => Touch(c.queue[i], now)),
       sent := c.sent + Resends(c.queue, c.clientSeq, now))
  }

  /** The positions from `i` on, in order, of the segments last sent more than a second ago. */
  ghost predicate AreOverdue(at: seq<nat>, queue: seq<Unacked>, i: nat, now: int) {
    && (forall j, k :: 0 <= j < k < |at| ==> at[j] < at[k])
    && (forall k :: 0 <= k < |at| ==> i <= at[k] < |queue| && now - queue[at[k]].sentTimeMs > 1000)
    && (forall q :: i <= q < |queue| && now - queue[q].sentTimeMs > 1000 ==> q in at)
  }

  function ResendOf(q: Unacked, ack: Int32): Sent {
    Sent(q.seqNum, ack, q.flags, q.payload)
  }

  lemma {:induction false} OverdueAreResent(queue: seq<Unacked>, i: nat, ack: Int32, now: int) returns (at: seq<nat>)
    requires i <= |queue|
    ensures AreOverdue(at, queue, i, now) && |Resends(queue[i..], ack, now)| == |at|
    ensures forall k :: 0 <= k < |at| ==> Resends(queue[i..], ack, now)[k] == ResendOf(queue[at[k]], ack)
    decreases |queue| - i
  {
    hide Resends;
    if i == |queue| {
      at := [];
      NothingToResend(queue[i..], ack, now);
    } else {
      ResendsStep(queue, i, ack, now);
      var later := OverdueAreResent(queue, i + 1, ack, now);
      at := if now - queue[i].sentTimeMs > 1000 then [i] + later else later;
    }
  }

  /** After a check no segment was last sent more than a second ago. Those that were have been sent once more
      with their own number, flags and payload, in queue order; the others are as before, and nothing else is
      sent. */
  lemma CheckServesOverdue(c: Conn, now: int) returns (at: seq<nat>)
    ensures AreOverdue(at, c.queue, 0, now)
    ensures var c' := AfterCheck(c, now);
            && c' == c.(queue := c'.queue, sent := c'.sent) && |c'.queue| == |c.queue|
            && (forall i :: 0 <= i < |c.queue| ==>
                  && now - c'.queue[i].sentTimeMs <= 1000
                  && c'.queue[i] == c.queue[i].(sentTimeMs := if i in at then now else c.queue[i].sentTimeMs))
            && c.sent <= c'.sent && |c'.sent| == |c.sent| + |at|
            && forall k :: 0 <= k < |at| ==>
                 c'.sent[|c.sent| + k] == ResendOf(c.queue[at[k]], c.clientSeq)
  {
    at := OverdueAreResent(c.queue, 0, c.clientSeq, now);
    assert c.queue[0..] == c.queue;
    hide Resends;
  }

  function AfterFastRetransmit(c: Conn, now: int): Conn {
    if c.queue == [] || now - c.queue[0].sentTimeMs <= 200 then c
    else Emit(c.(queue := c.queue[0 := c.queue[0].(sentTimeMs := now)]),
              c.queue[0].seqNum, c.queue[0].flags, c.queue[0].payload)
  }

  /** A fast retransmission sends the head of the queue and nothing else, if that was last sent more than
      200 ms ago, and so nothing at all within 200 ms of the last one. */
  lemma FastRetransmitServesHead(c: Conn, now: int)
    ensures var c' := AfterFastRetransmit(c, now);
            && c' == c.(queue := c'.queue, sent := c'.sent)
            && (c.queue == [] ==> c' == c)
            && (c.queue != [] ==>
                  var q := c.queue[0];
                  && now - c'.queue[0].sentTimeMs <= 200
                  && c'.queue == [c'.queue[0]] + c.queue[1..] && c'.queue[0].(sentTimeMs := q.sentTimeMs) == q
                  && c'.sent == c.sent + if now - q.sentTimeMs > 200
                                         then [Sent(q.seqNum, c.clientSeq, q.flags, q.payload)] else [])
    ensures forall later :: AfterFastRetransmit(c, now) != c && later <= now + 200 ==>
              AfterFastRetransmit(AfterFastRetransmit(c, now), later) == AfterFastRetransmit(c, now)
  {
  }

  /** How many octets of an attempted write reach the proxy. */
  function Delivered(c: Conn, payload: Bytes, w: Write): (n: nat)
    ensures n <= |payload|
  {
    if !c.socket.Open? then 0
    else if w.Accepted? || |payload| <= w.delivered then |payload|
    else w.delivered
  }

  /** Whether write returns normally; with no socket there is nothing to throw. */
  predicate Returns(c: Conn, w: Write) {
    c.socket.NoSocket? || (c.socket.Open? && w.Accepted?)
  }

  /** onClientData up to the socket write: prunes, advances over in-order data, answers old segments. */
  function AfterReceive(c: Conn, payload: Bytes, seqNum: Int32, now: int): Conn {
    var c1 := c.(queue := Prune(c.queue, seqNum));
    if seqNum == c.clientSeq then c1.(clientSeq := Wrap32(c.clientSeq + |payload|))
    else if seqNum < c.clientSeq then
      if payload != [] then Emit(c1, c1.serverSeq, ACK, None) else AfterFastRetransmit(c1, now)
    else c1
  }

  function AfterWrite(c: Conn, payload: Bytes, w: Write): Conn {
    c.(written := c.written + payload[..Delivered(c, payload, w)])
  }

  /** What follows the write: an acknowledgement, or close() in the handler. */
  function AfterAnswer(c: Conn, returned: bool): Conn {
    if returned then Emit(c, c.serverSeq, ACK, None) else AfterClose(c)
  }

  /** The whole call, if no other thread comes in between. */
  function AfterClientData(c: Conn, payload: Bytes, seqNum: Int32, now: int, w: Write): Conn {
    var c1 := AfterReceive(c, payload, seqNum, now);
    if seqNum == c.clientSeq && payload != [] then AfterAnswer(AfterWrite(c1, payload, w), Returns(c1, w)) else c1
  }

  // The class

  class Connection {
    var state: TcpState
    var socket: Socket
    var serverSeq: Int32
    var clientSeq: Int32
    var unackedQueue: seq<Unacked>
    var written: Bytes     // what the proxy socket has received
    var sent: seq<Sent>    // what the TUN device has received

    ghost function View(): Conn
      reads this
    {
      Conn(state, socket, serverSeq, clientSeq, unackedQueue, written, sent)
    }

    constructor (clientSynSeq: Int32, isn: Int32)
      ensures View() == Conn(CLOSED, NoSocket, isn, Wrap32(clientSynSeq + 1), [], [], [])
    {
      state, socket := CLOSED, NoSocket;
      serverSeq, clientSeq := isn, Wrap32(clientSynSeq + 1);
      unackedQueue, written, sent := [], [], [];
    }

    method SendTcpPacket(seqNum: Int32, ackNum: Int32, flags: nat, payload: Option<Bytes>)
      modifies this`sent
      ensures sent == old(sent) + [Sent(seqNum, ackNum, flags, payload)]
    {
      sent := sent + [Sent(seqNum, ackNum, flags, payload)];
    }

    method SendAndEnqueue(flags: nat, payload: Option<Bytes>, now: int)
      modifies this
      ensures View() == Enqueue(Emit(old(View()), old(serverSeq), flags, payload), flags, payload, now)
    {
      SendTcpPacket(serverSeq, clientSeq, flags, payload);
      if payload.Some? || flags / SYN % 2 != 0 || flags / FIN % 2 != 0 {
        unackedQueue := unackedQueue + [Unacked(serverSeq, flags, payload, now)];
      }
    }

    method PruneUnacked(ack: Int32)
      modifies this`unackedQueue
      ensures unackedQueue == Prune(old(unackedQueue), ack)
    {
      hide Prune;
      var i := 0;
      assert unackedQueue[..0] + Prune(unackedQueue[0..], ack) == Prune(unackedQueue, ack);
      while i < |unackedQueue|
        invariant 0 <= i <= |unackedQueue|
        invariant unackedQueue[..i] + Prune(unackedQueue[i..], ack) == Prune(old(unackedQueue), ack)
        decreases |unackedQueue| - i
      {
        PruneStep(unackedQueue, i, ack);
        if unackedQueue[i].seqNum < ack {
          ghost var front, back := unackedQueue[..i], unackedQueue[i + 1..];
          unackedQueue := unackedQueue[..i] + unackedQueue[i + 1..];
          assert unackedQueue[..i] == front && unackedQueue[i..] == back;
        } else {
          ghost var front, pruned := unackedQueue[..i], Prune(unackedQueue[i + 1..], ack);
          assert unackedQueue[..i + 1] == front + [unackedQueue[i]];
          assert front + [unackedQueue[i]] + pruned == front + ([unackedQueue[i]] + pruned);
          i := i + 1;
        }
      }
      NothingToPrune(unackedQueue[i..], ack);
      assert unackedQueue[..i] == unackedQueue;
    }

    method CheckRetransmissions(now: int)
      modifies this
      ensures View() == AfterCheck(old(View()), now)
    {
      hide Resends;
      ghost var queue := unackedQueue;
      assert queue[0..] == queue;
      var i := 0;
      while i < |unackedQueue|
        invariant 0 <= i <= |unackedQueue| == |queue|
        invariant forall k :: 0 <= k < i ==> unackedQueue[k] == Touch(queue[k], now)
        invariant forall k :: i <= k < |queue| ==> unackedQueue[k] == queue[k]
        invariant sent + Resends(queue[i..], clientSeq, now) == old(sent) + Resends(queue, clientSeq, now)
        invariant View() == old(View()).(queue := unackedQueue, sent := sent)
      {
        ResendsStep(queue, i, clientSeq, now);
        var seg := unackedQueue[i];
        if now - seg.sentTimeMs > 1000 {
          unackedQueue := unackedQueue[i := seg.(sentTimeMs := now)];
          SendTcpPacket(seg.seqNum, clientSeq, seg.flags, seg.payload);
        }
        i := i + 1;
      }
      NothingToResend(queue[i..], clientSeq, now);
    }

    method RetransmitEarliest(now: int)
      modifies this
      ensures View() == AfterFastRetransmit(old(View()), now)
    {
      if unackedQueue == [] {
        return;
      }
      var earliest := unackedQueue[0];
      if now - earliest.sentTimeMs > 200 {
        unackedQueue := unackedQueue[0 := earliest.(sentTimeMs := now)];
        SendTcpPacket(earliest.seqNum, clientSeq, earliest.flags, earliest.payload);
      }
    }

    method Close()
      modifies this
      ensures View() == AfterClose(old(View()))
    {
      if state == CLOSED {
        return;
      }
      state := FIN_WAIT_1;
      if socket != NoSocket {
        socket := Shut;
      }
      SendTcpPacket(serverSeq, clientSeq, FIN + ACK, None);
      state := CLOSED;
    }

    /** The socket write: passes on what the outcome says and reports whether it returned normally. */
    method WriteSocket(payload: Bytes, w: Write) returns (ok: bool)
      modifies this`written
      ensures ok == Returns(View(), w)
      ensures written == old(written) + payload[..Delivered(old(View()), payload, w)]
    {
      match socket {
        case NoSocket => ok := true;
        case Open =>
          ok := w.Accepted?;
          written := written + (if w.Accepted? || |payload| <= w.delivered then payload else payload[..w.delivered]);
        case _ => ok := false;
      }
    }

    method OnClientData(payload: Bytes, seqNum: Int32, now: int, w: Write)
      modifies this
      ensures View() == AfterClientData(old(View()), payload, seqNum, now, w)
    {
      PruneUnacked(seqNum);
      if seqNum == clientSeq {
        clientSeq := Wrap32(clientSeq + |payload|);
        if payload != [] {
          var ok := WriteSocket(payload, w);
          if ok {
            SendTcpPacket(serverSeq, clientSeq, ACK, None);
          } else {
            Close();
          }
        }
      } else if seqNum < clientSeq {
        if payload != [] {
          SendTcpPacket(serverSeq, clientSeq, ACK, None);
        } else {
          RetransmitEarliest(now);
        }
      }
    }
  }
}
