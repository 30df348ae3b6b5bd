/** The Noise upgrade (handshake/noise_conn.go): framing on a byte pipe and the two handshake
    routines, run one after the other. The cryptography is an oracle. */
module Noise {
  import opened ByteConn
  import opened Bytes

  const MAX_HANDSHAKE_PAYLOAD := 65535

  /** A cipher state; which one is all that matters here. */
  type Key = nat

  datatype Pattern = IK | XX

  function Messages(p: Pattern): (n: nat)
    ensures 2 <= n <= 3
  {
    if p.IK? then 2 else 3
  }

  /** What the handshake states of the two parties compute: the next message from the transcript so
      far, whether a received message is acceptable, and the two keys at the end. */
  datatype Oracle = Oracle(pattern: Pattern, next: seq<Bytes> -> Bytes, accepts: (seq<Bytes>, Bytes) -> bool,
                           split: seq<Bytes> -> (Key, Key))

  /** An honest pair: messages fit a frame and what one party writes the other accepts. */
  ghost predicate Honest(o: Oracle) {
    forall t: seq<Bytes> :: 1 <= |o.next(t)| <= MAX_HANDSHAKE_PAYLOAD && o.accepts(t, o.next(t))
  }

  /** The first `n` messages. */
  function Transcript(o: Oracle, n: nat): (t: seq<Bytes>)
    ensures |t| == n
  {
    if n == 0 then [] else Transcript(o, n - 1) + [o.next(Transcript(o, n - 1))]
  }

  // Frames

  /** Two length octets, which hold the length modulo 2^16, and the data. */
  function Frame(data: Bytes): (s: Bytes)
    ensures |s| == 2 + |data|
  {
    Be16(|data|) + data
  }

  /** The next frame, if there is one, and what is left unread either way. */
  datatype Read = Got(data: Bytes, rest: Bytes) | NoFrame(rest: Bytes)

  function Unframe(input: Bytes): Read {
    if |input| < 2 then NoFrame([])
    else
      var n := FromBe16(input[0], input[1]);
      if n == 0 then NoFrame(input[2..])
      else if |input| < 2 + n then NoFrame([])
      else Got(input[2..2 + n], input[2 + n..])
  }

  /** A frame is read back, and nothing after it is touched, exactly when it has 1 to 65535 octets. */
  lemma FrameRoundTrip(data: Bytes, rest: Bytes)
    ensures Unframe(Frame(data) + rest) == Got(data, rest) <==> 1 <= |data| <= MAX_HANDSHAKE_PAYLOAD
  {
    hide Be16, FromBe16;
    Be16RoundTrip(|data|);
    var s := Frame(data) + rest;
    assert s[0] == Be16(|data|)[0] && s[1] == Be16(|data|)[1];
    if 1 <= |data| <= MAX_HANDSHAKE_PAYLOAD {
      assert s[2..2 + |data|] == data && s[2 + |data|..] == rest;
    }
  }

  method WriteFrame(conn: Conn, data: Bytes)
    modifies conn`output
    ensures conn.output == old(conn.output) + Frame(data)
  {
    conn.Write(Be16(|data|));
    conn.Write(data);
  }

  method ReadFrame(conn: Conn) returns (data: Option<Bytes>)
    modifies conn`input
    ensures match Unframe(old(conn.input))
            case Got(d, rest) => data == Some(d) && conn.input == rest
            case NoFrame(rest) => data == None && conn.input == rest
  {
    ghost var all := conn.input;
    var header := conn.ReadFull(2);
    if header.None? {
      return None;
    }
    var frameLen := FromBe16(header.value[0], header.value[1]);
    if frameLen <= 0 || frameLen > MAX_HANDSHAKE_PAYLOAD {
      return None;
    }
    data := conn.ReadFull(frameLen);
    if data.Some? {
      assert all[2..][..frameLen] == all[2..2 + frameLen];
      assert all[2..][frameLen..] == all[2 + frameLen..];
    }
  }

  /** The keys, once the last message of the pattern has been processed. */
  function KeysAt(o: Oracle, t: seq<Bytes>): Option<(Key, Key)> {
    if |t| == Messages(o.pattern) then Some(o.split(t)) else None
  }

  /** One party's handshake state. */
  class HandshakeState {
    const oracle: Oracle
    var transcript: seq<Bytes>

    constructor (o: Oracle)
      ensures oracle == o && transcript == []
    {
      oracle, transcript := o, [];
    }

    function Keys(): Option<(Key, Key)>
      reads this
    {
      KeysAt(oracle, transcript)
    }

    method WriteMessage() returns (msg: Bytes, keys: Option<(Key, Key)>)
      modifies this
      ensures msg == oracle.next(old(transcript)) && transcript == old(transcript) + [msg] && keys == Keys()
    {
      msg := oracle.next(transcript);
      transcript := transcript + [msg];
      keys := Keys();
    }

    method ReadMessage(msg: Bytes) returns (ok: bool, keys: Option<(Key, Key)>)
      modifies this
      ensures ok == oracle.accepts(old(transcript), msg)
      ensures ok ==> transcript == old(transcript) + [msg] && keys == Keys()
      ensures !ok ==> transcript == old(transcript) && keys == None
    {
      ok, keys := oracle.accepts(transcript, msg), None;
      if ok {
        transcript := transcript + [msg];
        keys := Keys();
      }
    }
  }

  // The routines on values

  /** What a routine returns, has processed, leaves unread and writes. */
  datatype Handshake = Handshake(keys: Option<(Key, Key)>, transcript: seq<Bytes>, rest: Bytes, output: Bytes)

  /** Initiator: write, read, and for a third message write again. */
  function Initiate(o: Oracle, input: Bytes): Handshake {
    var msg1 := o.next([]);
    match Unframe(input)
    case NoFrame(rest) => Handshake(None, [msg1], rest, Frame(msg1))
    case Got(msg2, rest) =>
      if !o.accepts([msg1], msg2) then Handshake(None, [msg1], rest, Frame(msg1))
      else if o.pattern.IK? then Handshake(KeysAt(o, [msg1, msg2]), [msg1, msg2], rest, Frame(msg1))
      else
        var msg3 := o.next([msg1, msg2]);
        Handshake(KeysAt(o, [msg1, msg2, msg3]), [msg1, msg2, msg3], rest, Frame(msg1) + Frame(msg3))
  }

  /** Responder: read, write, and for a third message read again. */
  function Respond(o: Oracle, input: Bytes): Handshake {
    match Unframe(input)
    case NoFrame(rest) => Handshake(None, [], rest, [])
    case Got(msg1, more) =>
      if !o.accepts([], msg1) then Handshake(None, [], more, [])
      else
        var msg2 := o.next([msg1]);
        if o.pattern.IK? then Handshake(KeysAt(o, [msg1, msg2]), [msg1, msg2], more, Frame(msg2))
        else match Unframe(more)
             case NoFrame(rest) => Handshake(None, [msg1, msg2], rest, Frame(msg2))
             case Got(msg3, rest) =>
               if !o.accepts([msg1, msg2], msg3) then Handshake(None, [msg1, msg2], rest, Frame(msg2))
               else Handshake(KeysAt(o, [msg1, msg2, msg3]), [msg1, msg2, msg3], rest, Frame(msg2))
  }

  function Perform(o: Oracle, initiator: bool, input: Bytes): Handshake {
    if initiator then Initiate(o, input) else Respond(o, input)
  }

  /** The secure connection: which key sends and which receives. */
  datatype SecureConn = SecureConn(send: Key, recv: Key)

  /** The initiator sends with the first key, the responder with the second. */
  function SecureOf(keys: (Key, Key), initiator: bool): SecureConn {
    if initiator then SecureConn(keys.0, keys.1) else SecureConn(keys.1, keys.0)
  }

  // The routines

  method PerformInitiatorHandshake(conn: Conn, hs: HandshakeState) returns (keys: Option<(Key, Key)>)
    requires hs.transcript == []
    modifies conn, hs
    ensures Handshake(keys, hs.transcript, conn.input, conn.output) ==
            var h := Initiate(hs.oracle, old(conn.input)); h.(output := old(conn.output) + h.output)
  {
    hide Frame, Unframe;
    ghost var written := conn.output;
    var msg1;
    msg1, keys := hs.WriteMessage();
    assert hs.transcript == [msg1];
    WriteFrame(conn, msg1);
    if keys.Some? {
      return keys;
    }
    var msg2 := ReadFrame(conn);
    if msg2.None? {
      return None;
    }
    var ok;
    ok, keys := hs.ReadMessage(msg2.value);
    assert ok ==> hs.transcript == [msg1, msg2.value];
    if !ok || keys.Some? {
      return keys;
    }
    var msg3;
    msg3, keys := hs.WriteMessage();
    WriteFrame(conn, msg3);
    assert hs.transcript == [msg1, msg2.value, msg3];
    assert written + Frame(msg1) + Frame(msg3) == written + (Frame(msg1) + Frame(msg3));
  }

  method PerformResponderHandshake(conn: Conn, hs: HandshakeState) returns (keys: Option<(Key, Key)>)
    requires hs.transcript == []
    modifies conn, hs
    ensures Handshake(keys, hs.transcript, conn.input, conn.output) ==
            var h := Respond(hs.oracle, old(conn.input)); h.(output := old(conn.output) + h.output)
  {
    hide Frame, Unframe;
    ghost var written := conn.output;
    assert written + [] == written;
    var msg1 := ReadFrame(conn);
    if msg1.None? {
      return None;
    }
    var ok;
    ok, keys := hs.ReadMessage(msg1.value);
    assert ok ==> hs.transcript == [msg1.value];
    if !ok || keys.Some? {
      return keys;
    }
    var msg2;
    msg2, keys := hs.WriteMessage();
    assert hs.transcript == [msg1.value, msg2];
    WriteFrame(conn, msg2);
    if keys.Some? {
      return keys;
    }
    var msg3 := ReadFrame(conn);
    if msg3.None? {
      return None;
    }
    ok, keys := hs.ReadMessage(msg3.value);
    assert ok ==> hs.transcript == [msg1.value, msg2, msg3.value];
  }

  method UpgradeToSecure(conn: Conn, hs: HandshakeState, initiator: bool) returns (secure: Option<SecureConn>)
    requires hs.transcript == []
    modifies conn, hs
    ensures var h := Perform(hs.oracle, initiator, old(conn.input));
            && secure == (if h.keys.None? then None else Some(SecureOf(h.keys.value, initiator)))
            && hs.transcript == h.transcript && conn.input == h.rest && conn.output == old(conn.output) + h.output
  {
    if initiator {
      var keys := PerformInitiatorHandshake(conn, hs);
      secure := if keys.None? then None else Some(SecureConn(keys.value.0, keys.value.1));
    } else {
      var keys := PerformResponderHandshake(conn, hs);
      secure := if keys.None? then None else Some(SecureConn(keys.value.1, keys.value.0));
    }
  }

  // What a handshake means, whoever the peer is

  /** The initiator writes messages 0 and 2, the responder message 1. */
  predicate Writes(initiator: bool, i: nat) {
    initiator <==> i % 2 == 0
  }

  /** A complete transcript as one party sees it: its own messages are what its state made of what came
      before, and it accepted the others. */
  predicate Legitimate(o: Oracle, t: seq<Bytes>, initiator: bool) {
    && |t| == Messages(o.pattern)
    && forall i :: 0 <= i < |t| ==> if Writes(initiator, i) then t[i] == o.next(t[..i]) else o.accepts(t[..i], t[i])
  }

  /** The frames of a complete transcript that one party writes. */
  function FramesOf(t: seq<Bytes>, initiator: bool): Bytes
    requires 2 <= |t| <= 3
  {
    if !initiator then Frame(t[1]) else if |t| == 2 then Frame(t[0]) else Frame(t[0]) + Frame(t[2])
  }

  lemma OnlyFrames(input: Bytes)
    requires Unframe(input).Got?
    ensures var r := Unframe(input); 1 <= |r.data| <= MAX_HANDSHAKE_PAYLOAD && input == Frame(r.data) + r.rest
  {
    hide FromBe16, Be16;
    FromBe16RoundTrip(input[0], input[1]);
  }

  lemma Prefixes(t: seq<Bytes>)
    ensures |t| >= 1 ==> t[..0] == [] && t[..1] == [t[0]]
    ensures |t| >= 2 ==> t[..2] == [t[0], t[1]]
    ensures |t| == 2 ==> t == [t[0], t[1]]
    ensures |t| == 3 ==> t == [t[0], t[1], t[2]]
  {
  }

  /** A handshake succeeds only on a legitimate transcript, dishonest peers included: it has then read exactly
      the peer's frames and written exactly its own, and the keys are those of the transcript. */
  lemma SucceedsOnlyIfLegitimate(o: Oracle, initiator: bool, input: Bytes)
    requires Perform(o, initiator, input).keys.Some?
    ensures var h := Perform(o, initiator, input);
            && Legitimate(o, h.transcript, initiator) && h.keys == Some(o.split(h.transcript))
            && input == FramesOf(h.transcript, !initiator) + h.rest && h.output == FramesOf(h.transcript, initiator)
  {
    hide Frame, Unframe;
    var t := Perform(o, initiator, input).transcript;
    Prefixes(t);
    OnlyFrames(input);
    if !initiator && o.pattern.XX? {
      var more := Unframe(input).rest;
      OnlyFrames(more);
      var f1, f3, rest := Frame(t[0]), Frame(t[2]), Unframe(more).rest;
      assert f1 + (f3 + rest) == f1 + f3 + rest;
    }
  }

  /** And on every legitimate transcript whose received messages fit a frame it does succeed. */
  lemma SucceedsIfLegitimate(o: Oracle, initiator: bool, t: seq<Bytes>, rest: Bytes)
    requires Legitimate(o, t, initiator)
    requires forall i :: 0 <= i < |t| && !Writes(initiator, i) ==> 1 <= |t[i]| <= MAX_HANDSHAKE_PAYLOAD
    ensures Perform(o, initiator, FramesOf(t, !initiator) + rest) ==
            Handshake(Some(o.split(t)), t, rest, FramesOf(t, initiator))
  {
    hide Frame, Unframe;
    Prefixes(t);
    if initiator {
      FrameRoundTrip(t[1], rest);
    } else if |t| == 2 {
      FrameRoundTrip(t[0], rest);
    } else {
      FrameRoundTrip(t[0], Frame(t[2]) + rest);
      FrameRoundTrip(t[2], rest);
      assert Frame(t[0]) + Frame(t[2]) + rest == Frame(t[0]) + (Frame(t[2]) + rest);
    }
  }

  /** So two honest parties that read each other's frames agree: one transcript, and the initiator sends with
      the first key of the split and the responder with the second (section 5.2 of the Noise Protocol
      Framework, revision 34). */
  lemma HonestPartiesAgree(o: Oracle, fromInitiator: Bytes, fromResponder: Bytes)
    requires Honest(o)
    ensures var t := Transcript(o, Messages(o.pattern));
            var a := Perform(o, true, FramesOf(t, false) + fromResponder);
            var b := Perform(o, false, FramesOf(t, true) + fromInitiator);
            && a == Handshake(Some(o.split(t)), t, fromResponder, FramesOf(t, true))
            && b == Handshake(Some(o.split(t)), t, fromInitiator, FramesOf(t, false))
            && SecureOf(a.keys.value, true) == SecureConn(o.split(t).0, o.split(t).1)
            && SecureOf(a.keys.value, true).send == SecureOf(b.keys.value, false).recv
            && SecureOf(a.keys.value, true).recv == SecureOf(b.keys.value, false).send
  {
    hide Perform, FramesOf;
    var t := Transcript(o, Messages(o.pattern));
    forall i | 0 <= i < |t|
      ensures t[i] == o.next(t[..i]) && o.accepts(t[..i], t[i]) && 1 <= |t[i]| <= MAX_HANDSHAKE_PAYLOAD
    {
      TranscriptAt(o, |t|, i);
    }
    SucceedsIfLegitimate(o, true, t, fromResponder);
    SucceedsIfLegitimate(o, false, t, fromInitiator);
  }

  lemma {:induction false} TranscriptAt(o: Oracle, n: nat, i: nat)
    requires i < n
    ensures Transcript(o, n)[..i] == Transcript(o, i) && Transcript(o, n)[i] == o.next(Transcript(o, i))
    decreases n
  {
    if i < n - 1 {
      TranscriptAt(o, n - 1, i);
      assert Transcript(o, n)[..i] == Transcript(o, n - 1)[..i];
    }
  }

  function Secured(o: Oracle, initiator: bool): SecureConn {
    SecureOf(o.split(Transcript(o, Messages(o.pattern))), initiator)
  }
}
