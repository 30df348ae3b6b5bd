/** Both handshake routines at once over two reliable byte pipes: writes reach the pipe and reads
    take from it any number of octets at a time, in any order. A party that has finished may send
    application data at once. */
module NoiseInterleaving {
  import opened Bytes
  import opened Noise

  /** Where a routine stands in the current round. */
  datatype Phase =
    | Computing                 // before hs.WriteMessage
    | Writing                   // inside writeFrame
    | ReadingLength             // inside the first ReadFull of readFrame
    | ReadingBody(len: nat)     // inside the second
    | Finished
    | Failed

  /** `outbox` is what a write still has to put on the pipe, `inbox` what a ReadFull has so far. */
  datatype Party = Party(round: nat, phase: Phase, transcript: seq<Bytes>, outbox: Bytes, inbox: Bytes,
                         keys: Option<(Key, Key)>)

  /** A pipe to each party, and the application data each party has sent. Parties are named by whether
      they are the initiator. */
  datatype Net = Net(initiator: Party, responder: Party, toInitiator: Bytes, toResponder: Bytes,
                     appInitiator: Bytes, appResponder: Bytes)
  {
    function Get(who: bool): Party { if who then initiator else responder }
    function Inward(who: bool): Bytes { if who then toInitiator else toResponder }
    function App(who: bool): Bytes { if who then appInitiator else appResponder }
    function With(who: bool, p: Party): Net { if who then this.(initiator := p) else this.(responder := p) }
    function WithInward(who: bool, s: Bytes): Net { if who then this.(toInitiator := s) else this.(toResponder := s) }
    function WithApp(who: bool, s: Bytes): Net { if who then this.(appInitiator := s) else this.(appResponder := s) }
  }

  function Start(): Net {
    Net(Party(0, Computing, [], [], [], None), Party(0, ReadingLength, [], [], [], None), [], [], [], [])
  }

  // One party's code

  /** After a round: return once the keys are there or after the third round, else go on. */
  function EndRound(p: Party, next: Phase): Party {
    if p.keys.Some? || p.round == 2 then p.(phase := Finished) else p.(round := p.round + 1, phase := next)
  }

  function Compute(o: Oracle, p: Party): Party {
    var msg := o.next(p.transcript);
    var t := p.transcript + [msg];
    p.(transcript := t, keys := KeysAt(o, t), outbox := Frame(msg), phase := Writing)
  }

  function AfterPush(p: Party, k: nat): Party
    requires k <= |p.outbox|
  {
    var p' := p.(outbox := p.outbox[k..]);
    if p'.outbox == [] then EndRound(p', ReadingLength) else p'
  }

  /** How many octets the current ReadFull still wants. */
  function Wanted(p: Party): int {
    match p.phase
    case ReadingLength => 2 - |p.inbox|
    case ReadingBody(len) => len - |p.inbox|
    case _ => 0
  }

  function AfterPull(o: Oracle, p: Party, got: Bytes): Party {
    var p' := p.(inbox := p.inbox + got);
    if Wanted(p') > 0 then p'
    else if p.phase.ReadingLength? then
      (if |p'.inbox| < 2 || FromBe16(p'.inbox[0], p'.inbox[1]) == 0 then p'.(phase := Failed)
       else p'.(phase := ReadingBody(FromBe16(p'.inbox[0], p'.inbox[1])), inbox := []))
    else if !o.accepts(p.transcript, p'.inbox) then p'.(phase := Failed)
    else
      var t := p.transcript + [p'.inbox];
      EndRound(p'.(transcript := t, keys := KeysAt(o, t), inbox := []), Computing)
  }

  // Steps

  datatype Step =
    | DoCompute(who: bool)
    | Push(who: bool, k: nat)
    | Pull(who: bool, k: nat)
    | Send(who: bool, data: Bytes)    // application data after the handshake

  predicate Enabled(s: Net, e: Step) {
    var p := s.Get(e.who);
    match e
    case DoCompute(_) => p.phase.Computing?
    case Push(_, k) => p.phase.Writing? && 0 < k <= |p.outbox|
    case Pull(who, k) => 0 < k <= Wanted(p) && k <= |s.Inward(who)|
    case Send(_, _) => p.phase.Finished?
  }

  function Next(o: Oracle, s: Net, e: Step): Net
    requires Enabled(s, e)
  {
    var p := s.Get(e.who);
    match e
    case DoCompute(who) => s.With(who, Compute(o, p))
    case Push(who, k) => s.With(who, AfterPush(p, k)).WithInward(!who, s.Inward(!who) + p.outbox[..k])
    case Pull(who, k) => s.With(who, AfterPull(o, p, s.Inward(who)[..k])).WithInward(who, s.Inward(who)[k..])
    case Send(who, data) => s.WithApp(who, s.App(who) + data).WithInward(!who, s.Inward(!who) + data)
  }

  // The invariant

  /** The octets of the current frame that a reader has already taken. */
  function Taken(p: Party): Bytes {
    if p.phase.ReadingBody? then Be16(p.phase.len) + p.inbox else p.inbox
  }

  ghost predicate PartyInv(o: Oracle, p: Party, who: bool) {
    var n := |p.transcript|;
    && n <= Messages(o.pattern)
    && p.transcript == Transcript(o, n)
    && p.keys == KeysAt(o, p.transcript)
    && match p.phase
       case Computing => n == p.round < Messages(o.pattern) && Writes(who, n) && p.outbox == [] && p.inbox == []
       case Writing => n == p.round + 1 && Writes(who, p.round) && p.outbox != [] && p.inbox == []
       case ReadingLength => n == p.round < Messages(o.pattern) && !Writes(who, n) && p.outbox == [] && |p.inbox| < 2
       case ReadingBody(len) =>
         && n == p.round < Messages(o.pattern) && !Writes(who, n)
         && p.outbox == [] && |p.inbox| < len <= MAX_HANDSHAKE_PAYLOAD
       case Finished => n == Messages(o.pattern) && p.outbox == [] && p.inbox == []
       case Failed => false
  }

  /** From writer to reader: the frame being carried, if the writer is one message ahead, is exactly
      what the reader has taken, the pipe and the outbox hold, and application data follows it. */
  ghost predicate Link(o: Oracle, writer: Party, reader: Party, readerIs: bool, pipe: Bytes, app: Bytes) {
    var n := |reader.transcript|;
    && (app != [] ==> writer.phase.Finished?)
    && (if |writer.transcript| == n + 1
        then Taken(reader) + pipe + writer.outbox == Frame(o.next(Transcript(o, n))) + app && !Writes(readerIs, n)
        else Taken(reader) == [] && pipe == app && writer.outbox == [])
  }

  ghost predicate LinkInv(o: Oracle, s: Net, who: bool) {
    Link(o, s.Get(who), s.Get(!who), !who, s.Inward(!who), s.App(who))
  }

  ghost predicate Inv(o: Oracle, s: Net) {
    && PartyInv(o, s.initiator, true) && PartyInv(o, s.responder, false)
    && -1 <= |s.initiator.transcript| - |s.responder.transcript| <= 1
    && LinkInv(o, s, true) && LinkInv(o, s, false)
  }

  lemma StartInv(o: Oracle)
    ensures Inv(o, Start())
  {
  }

  lemma ComputeInv(o: Oracle, s: Net, who: bool)
    requires Honest(o) && Inv(o, s) && Enabled(s, DoCompute(who))
    ensures Inv(o, Next(o, s, DoCompute(who)))
  {
    hide Frame, Be16;
    var p, q := s.Get(who), s.Get(!who);
    var msg := o.next(p.transcript);
    assert 1 <= |msg|;
    assert Transcript(o, |p.transcript| + 1) == p.transcript + [msg];
  }

  lemma PushInv(o: Oracle, s: Net, who: bool, k: nat)
    requires Honest(o) && Inv(o, s) && Enabled(s, Push(who, k))
    ensures Inv(o, Next(o, s, Push(who, k)))
  {
    hide Link, Transcript, KeysAt, Taken, AfterPush;
    var p, q := s.Get(who), s.Get(!who);
    assert LinkInv(o, s, who) && LinkInv(o, s, !who);
    PushLinks(o, p, q, who, k, s.Inward(!who), s.Inward(who), s.App(who), s.App(!who));
    assert Next(o, s, Push(who, k)) == s.With(who, AfterPush(p, k)).WithInward(!who, s.Inward(!who) + p.outbox[..k]);
  }

  /** `p` puts the first `k` octets of its outbox on the pipe to `q`. */
  lemma PushLinks(o: Oracle, p: Party, q: Party, who: bool, k: nat, pipe: Bytes, back: Bytes, own: Bytes, app: Bytes)
    requires Honest(o) && PartyInv(o, p, who) && PartyInv(o, q, !who)
    requires p.phase.Writing? && 0 < k <= |p.outbox|
    requires -1 <= |p.transcript| - |q.transcript| <= 1
    requires Link(o, p, q, !who, pipe, own) && Link(o, q, p, who, back, app)
    ensures var p' := AfterPush(p, k);
            && PartyInv(o, p', who) && p'.transcript == p.transcript
            && Link(o, p', q, !who, pipe + p.outbox[..k], own) && Link(o, q, p', who, back, app)
  {
    hide Frame, Be16;
    assert p.outbox == p.outbox[..k] + p.outbox[k..];
    assert Taken(q) + (pipe + p.outbox[..k]) + p.outbox[k..] == Taken(q) + pipe + p.outbox;
  }

  lemma SendInv(o: Oracle, s: Net, who: bool, data: Bytes)
    requires Honest(o) && Inv(o, s) && Enabled(s, Send(who, data))
    ensures Inv(o, Next(o, s, Send(who, data)))
  {
    hide Link, Transcript, KeysAt, Taken;
    SendLink(o, s.Get(who), s.Get(!who), !who, s.Inward(!who), s.App(who), data);
    assert LinkInv(o, s, who) && LinkInv(o, s, !who);
    assert Next(o, s, Send(who, data)) == s.WithApp(who, s.App(who) + data).WithInward(!who, s.Inward(!who) + data);
  }

  lemma SendLink(o: Oracle, p: Party, q: Party, peerIs: bool, pipe: Bytes, app: Bytes, data: Bytes)
    requires Link(o, p, q, peerIs, pipe, app) && p.phase.Finished? && p.outbox == []
    ensures Link(o, p, q, peerIs, pipe + data, app + data)
  {
    hide Frame, Be16;
    if |p.transcript| == |q.transcript| + 1 {
      var f := Frame(o.next(Transcript(o, |q.transcript|)));
      assert Taken(q) + (pipe + data) + [] == (Taken(q) + pipe + []) + data;
      assert f + (app + data) == (f + app) + data;
    }
  }

  /** What a reader has after taking `got`, when the octets it is being sent start with `frame`. */
  lemma PullMeetsFrame(o: Oracle, p: Party, who: bool, got: Bytes, rest: Bytes, msg: Bytes, app: Bytes)
    requires PartyInv(o, p, who) && 0 < |got| <= Wanted(p) && 1 <= |msg| <= MAX_HANDSHAKE_PAYLOAD
    requires msg == o.next(p.transcript) && o.accepts(p.transcript, msg)
    requires Taken(p) + got + rest == Frame(msg) + app
    ensures var p' := AfterPull(o, p, got);
            && PartyInv(o, p', who) && p'.outbox == p.outbox
            && (p'.transcript == p.transcript ==> Taken(p') + rest == Frame(msg) + app && !Writes(who, |p.transcript|))
            && (p'.transcript != p.transcript ==>
                  p'.transcript == p.transcript + [msg] && rest == app && Taken(p') == [])
  {
    hide Be16, FromBe16;
    var all := Frame(msg) + app;
    Be16RoundTrip(|msg|);
    var p1 := p.(inbox := p.inbox + got);
    if p.phase.ReadingLength? {
      assert (p.inbox + got) + rest == all;
      if Wanted(p1) <= 0 {
        assert p1.inbox == all[..2] == Be16(|msg|);
        assert Be16(|msg|) + rest == all;
      }
    } else {
      BodyMeetsFrame(p.phase.len, p.inbox, got, rest, msg, app);
      if Wanted(p1) <= 0 {
        assert p1.inbox == msg;
        assert Transcript(o, |p.transcript| + 1) == p.transcript + [msg];
      } else {
        assert Be16(|msg|) + (p.inbox + got) + rest == all;
      }
    }
  }

  lemma BodyMeetsFrame(len: nat, inbox: Bytes, got: Bytes, rest: Bytes, msg: Bytes, app: Bytes)
    requires len <= MAX_HANDSHAKE_PAYLOAD && 1 <= |msg| <= MAX_HANDSHAKE_PAYLOAD
    requires Be16(len) + inbox + got + rest == Frame(msg) + app
    ensures len == |msg| && inbox + got + rest == msg + app
    ensures |inbox + got| == len ==> inbox + got == msg && rest == app
  {
    hide Be16, FromBe16;
    var all := Frame(msg) + app;
    assert all[..2] == Be16(|msg|) && all[..2] == Be16(len);
    Be16RoundTrip(len);
    Be16RoundTrip(|msg|);
    assert all[2..] == msg + app;
    assert (Be16(len) + inbox + got + rest)[2..] == inbox + got + rest;
    var tail := inbox + got + rest;
    if |inbox + got| == len {
      assert tail[..len] == inbox + got && tail[len..] == rest;
      assert (msg + app)[..len] == msg && (msg + app)[len..] == app;
    }
  }

  lemma PullInv(o: Oracle, s: Net, who: bool, k: nat)
    requires Honest(o) && Inv(o, s) && Enabled(s, Pull(who, k))
    ensures Inv(o, Next(o, s, Pull(who, k)))
  {
    hide Link, Transcript, KeysAt, Taken, AfterPull;
    var p, w := s.Get(who), s.Get(!who);
    assert LinkInv(o, s, who) && LinkInv(o, s, !who);
    var got, left := s.Inward(who)[..k], s.Inward(who)[k..];
    assert s.Inward(who) == got + left;
    PullLinks(o, p, w, who, got, left, s.Inward(!who), s.App(!who), s.App(who));
    assert Next(o, s, Pull(who, k)) == s.With(who, AfterPull(o, p, got)).WithInward(who, left);
  }

  /** `p` takes `got` and leaves `left` on the pipe from `w`. */
  lemma PullLinks(o: Oracle, p: Party, w: Party, who: bool, got: Bytes, left: Bytes,
                  back: Bytes, app: Bytes, own: Bytes)
    requires Honest(o) && PartyInv(o, p, who) && PartyInv(o, w, !who)
    requires 0 < |got| <= Wanted(p)
    requires -1 <= |p.transcript| - |w.transcript| <= 1
    requires Link(o, w, p, who, got + left, app) && Link(o, p, w, !who, back, own)
    ensures var p' := AfterPull(o, p, got);
            && PartyInv(o, p', who) && -1 <= |p'.transcript| - |w.transcript| <= 1
            && Link(o, w, p', who, left, app) && Link(o, p', w, !who, back, own)
  {
    hide Frame, Be16, AfterPull;
    var n := |p.transcript|;
    var msg := o.next(Transcript(o, n));
    assert |w.transcript| == n + 1;
    assert Taken(p) + got + (left + w.outbox) == Taken(p) + (got + left) + w.outbox;
    PullMeetsFrame(o, p, who, got, left + w.outbox, msg, app);
    var p' := AfterPull(o, p, got);
    if p'.transcript == p.transcript {
      assert Taken(p') + left + w.outbox == Taken(p') + (left + w.outbox);
    } else {
      PipeDrained(left, w, app);
    }
  }

  /** Once the frame is complete nothing of it is left on the way: octets still in the outbox would be
      application data, which is sent only by a party that has finished. */
  lemma PipeDrained(left: Bytes, w: Party, app: Bytes)
    requires left + w.outbox == app && (app != [] ==> w.phase.Finished?)
    requires w.phase.Finished? ==> w.outbox == []
    ensures left == app && w.outbox == []
  {
    if app == [] {
      assert |left| == 0 && |w.outbox| == 0;
    } else {
      assert left + [] == left;
    }
  }

  lemma StepInv(o: Oracle, s: Net, e: Step)
    requires Honest(o) && Inv(o, s) && Enabled(s, e)
    ensures Inv(o, Next(o, s, e))
  {
    match e
    case DoCompute(who) => ComputeInv(o, s, who);
    case Push(who, k) => PushInv(o, s, who, k);
    case Pull(who, k) => PullInv(o, s, who, k);
    case Send(who, data) => SendInv(o, s, who, data);
  }

  // Runs

  predicate IsRun(o: Oracle, s: Net, steps: seq<Step>)
    decreases |steps|
  {
    steps == [] || (Enabled(s, steps[0]) && IsRun(o, Next(o, s, steps[0]), steps[1..]))
  }

  function Run(o: Oracle, s: Net, steps: seq<Step>): Net
    requires IsRun(o, s, steps)
    decreases |steps|
  {
    if steps == [] then s else Run(o, Next(o, s, steps[0]), steps[1..])
  }

  lemma {:induction false} RunInv(o: Oracle, s: Net, steps: seq<Step>)
    requires Honest(o) && Inv(o, s) && IsRun(o, s, steps)
    ensures Inv(o, Run(o, s, steps))
    decreases |steps|
  {
    if steps != [] {
      StepInv(o, s, steps[0]);
      RunInv(o, Next(o, s, steps[0]), steps[1..]);
    }
  }

  /** The handshake step that is enabled whenever someone has not finished. */
  function Ready(s: Net): Step {
    if s.initiator.phase.Computing? then DoCompute(true)
    else if s.responder.phase.Computing? then DoCompute(false)
    else if s.initiator.phase.Writing? then Push(true, |s.initiator.outbox|)
    else if s.responder.phase.Writing? then Push(false, |s.responder.outbox|)
    else if Wanted(s.initiator) > 0 && |s.toInitiator| > 0 then Pull(true, 1)
    else Pull(false, 1)
  }

  /** No deadlock: in every reachable state, some handshake step is enabled unless both have finished. */
  lemma NoDeadlock(o: Oracle, s: Net)
    requires Honest(o) && Inv(o, s) && !(s.initiator.phase.Finished? && s.responder.phase.Finished?)
    ensures Enabled(s, Ready(s)) && !Ready(s).Send?
  {
    hide Be16;
    assert Link(o, s.initiator, s.responder, false, s.toResponder, s.appInitiator);
    assert Link(o, s.responder, s.initiator, true, s.toInitiator, s.appResponder);
    if !s.initiator.phase.Computing? && !s.responder.phase.Computing?
       && !s.initiator.phase.Writing? && !s.responder.phase.Writing? {
      if |s.initiator.transcript| == |s.responder.transcript| + 1 {
        SomethingToRead(o, s.initiator, s.responder, true, s.toResponder, s.appInitiator);
      } else if |s.responder.transcript| == |s.initiator.transcript| + 1 {
        SomethingToRead(o, s.responder, s.initiator, false, s.toInitiator, s.appResponder);
      }
    }
  }

  lemma SomethingToRead(o: Oracle, w: Party, r: Party, who: bool, pipe: Bytes, app: Bytes)
    requires Honest(o) && PartyInv(o, w, who) && PartyInv(o, r, !who) && Link(o, w, r, !who, pipe, app)
    requires |w.transcript| == |r.transcript| + 1 && w.outbox == [] && !r.phase.Writing?
    ensures Wanted(r) > 0 && |pipe| > 0
  {
    hide Be16;
    var msg := o.next(Transcript(o, |r.transcript|));
    assert 1 <= |msg|;
    assert Taken(r) + pipe + w.outbox == Taken(r) + pipe;
    if pipe == [] {
      assert Taken(r) + pipe == Taken(r);
      assert |Taken(r)| == |Frame(msg) + app| >= 3;
      if r.phase.ReadingBody? {
        assert Be16(r.phase.len) + r.inbox + [] + [] == Taken(r);
        BodyMeetsFrame(r.phase.len, r.inbox, [], [], msg, app);
      }
    }
  }

  /** Handshake work left: messages, octets to write, octets to read. */
  function Work(o: Oracle, s: Net): int {
    200_000 * (2 * Messages(o.pattern) - |s.initiator.transcript| - |s.responder.transcript|)
    + WorkOf(s.initiator) + WorkOf(s.responder)
  }

  function WorkOf(p: Party): int {
    |p.outbox| + match p.phase
                 case Computing => 65_538
                 case Writing => 65_538
                 case ReadingLength => 65_538 - |p.inbox|
                 case ReadingBody(len) => len - |p.inbox|
                 case _ => 0
  }

  lemma PullWork(o: Oracle, p: Party, got: Bytes)
    requires 0 < |got| <= Wanted(p)
    ensures var p' := AfterPull(o, p, got);
            || (p'.transcript == p.transcript && WorkOf(p') < WorkOf(p))
            || (|p'.transcript| == |p.transcript| + 1 && WorkOf(p') <= WorkOf(p) + 65_538)
  {
  }

  lemma ComputeWork(o: Oracle, p: Party)
    requires p.phase.Computing? && p.outbox == [] && |o.next(p.transcript)| <= MAX_HANDSHAKE_PAYLOAD
    ensures var p' := Compute(o, p);
            |p'.transcript| == |p.transcript| + 1 && WorkOf(p') <= WorkOf(p) + 65_537
  {
  }

  lemma PushWork(p: Party, k: nat)
    requires p.phase.Writing? && 0 < k <= |p.outbox|
    ensures var p' := AfterPush(p, k); p'.transcript == p.transcript && WorkOf(p') < WorkOf(p)
  {
  }

  lemma WorkLeft(o: Oracle, s: Net)
    requires Inv(o, s)
    ensures 0 <= Work(o, s)
  {
    hide Link, Transcript, KeysAt;
  }

  /** Every handshake step leaves less work, so there are only finitely many. */
  lemma StepWork(o: Oracle, s: Net, e: Step)
    requires Honest(o) && Inv(o, s) && Enabled(s, e)
    ensures 0 <= Work(o, Next(o, s, e))
    ensures Work(o, Next(o, s, e)) <= Work(o, s) - (if e.Send? then 0 else 1)
  {
    hide AfterPull, AfterPush, Compute, WorkOf, LinkInv, KeysAt, Transcript;
    var p := s.Get(e.who);
    StepInv(o, s, e);
    WorkLeft(o, Next(o, s, e));
    match e
    case DoCompute(who) => ComputeWork(o, p);
    case Push(who, k) => PushWork(p, k);
    case Pull(who, k) => PullWork(o, p, s.Inward(who)[..k]);
    case Send(who, data) =>
  }

  function HandshakeSteps(steps: seq<Step>): nat {
    if steps == [] then 0 else (if steps[0].Send? then 0 else 1) + HandshakeSteps(steps[1..])
  }

  lemma {:induction false} RunWork(o: Oracle, s: Net, steps: seq<Step>)
    requires Honest(o) && Inv(o, s) && IsRun(o, s, steps) && 0 <= Work(o, s)
    ensures HandshakeSteps(steps) + Work(o, Run(o, s, steps)) <= Work(o, s)
    ensures 0 <= Work(o, Run(o, s, steps))
    decreases |steps|
  {
    if steps != [] {
      StepInv(o, s, steps[0]);
      StepWork(o, s, steps[0]);
      RunWork(o, Next(o, s, steps[0]), steps[1..]);
    }
  }

  /** Every interleaving of the two routines, application data included: it is finite, it can go on
      until both have finished, and when they have, both processed the same transcript, each sends
      with the key the other receives with, and the pipes hold exactly the application data sent
      after the handshake. */
  lemma EveryInterleavingAgrees(o: Oracle, steps: seq<Step>)
    requires Honest(o) && IsRun(o, Start(), steps)
    ensures var s := Run(o, Start(), steps);
            var n := Messages(o.pattern);
            && HandshakeSteps(steps) <= Work(o, Start())
            && (s.initiator.phase.Finished? && s.responder.phase.Finished? ==>
                  && s.initiator.transcript == s.responder.transcript == Transcript(o, n)
                  && s.initiator.keys.Some? && s.responder.keys.Some?
                  && SecureOf(s.initiator.keys.value, true) == Secured(o, true)
                  && SecureOf(s.responder.keys.value, false) == Secured(o, false)
                  && Secured(o, true) == SecureConn(o.split(Transcript(o, n)).0, o.split(Transcript(o, n)).1)
                  && Secured(o, true).send == Secured(o, false).recv && Secured(o, true).recv == Secured(o, false).send
                  && s.toResponder == s.appInitiator && s.toInitiator == s.appResponder)
            && (!(s.initiator.phase.Finished? && s.responder.phase.Finished?) ==>
                  Enabled(s, Ready(s)) && !Ready(s).Send?)
  {
    StartInv(o);
    RunInv(o, Start(), steps);
    RunWork(o, Start(), steps);
    var s := Run(o, Start(), steps);
    if s.initiator.phase.Finished? && s.responder.phase.Finished? {
      assert LinkInv(o, s, true) && LinkInv(o, s, false);
    } else {
      NoDeadlock(o, s);
    }
  }

  /** And what each party has then is what its routine returns when it is given, in one go, all that the other
      party has sent: keys, transcript and the octets left unread. */
  lemma InterleavingIsRoutine(o: Oracle, steps: seq<Step>)
    requires Honest(o) && IsRun(o, Start(), steps)
    requires var s := Run(o, Start(), steps); s.initiator.phase.Finished? && s.responder.phase.Finished?
    ensures var s, t := Run(o, Start(), steps), Transcript(o, Messages(o.pattern));
            && Perform(o, true, FramesOf(t, false) + s.appResponder) ==
               Handshake(s.initiator.keys, s.initiator.transcript, s.toInitiator, FramesOf(t, true))
            && Perform(o, false, FramesOf(t, true) + s.appInitiator) ==
               Handshake(s.responder.keys, s.responder.transcript, s.toResponder, FramesOf(t, false))
  {
    hide Perform, FramesOf, Run, IsRun;
    RunInvAtEnd(o, steps);
    var s := Run(o, Start(), steps);
    HonestPartiesAgree(o, s.appInitiator, s.appResponder);
  }

  lemma RunInvAtEnd(o: Oracle, steps: seq<Step>)
    requires Honest(o) && IsRun(o, Start(), steps)
    requires var s := Run(o, Start(), steps); s.initiator.phase.Finished? && s.responder.phase.Finished?
    ensures var s, t := Run(o, Start(), steps), Transcript(o, Messages(o.pattern));
            && s.initiator.transcript == s.responder.transcript == t
            && s.initiator.keys == s.responder.keys == Some(o.split(t))
            && s.toResponder == s.appInitiator && s.toInitiator == s.appResponder
  {
    hide Run, IsRun;
    StartInv(o);
    RunInv(o, Start(), steps);
    var s := Run(o, Start(), steps);
    assert LinkInv(o, s, true) && LinkInv(o, s, false);
  }
}
