/** The reader that rewrites the first chunk of a stream (proxy/socks5.go). What HarmonizeRawHTTP makes of
    a chunk is an arbitrary function, or a failure. */
module UaReader {
  import opened ByteSource
  import opened Bytes

  const PEEK := 4096

  type Harmonizer = Bytes -> Option<Bytes>

  /** The first chunk as it is passed on: rewritten if the rewriting succeeded and left something. */
  function Rewritten(h: Harmonizer, chunk: Bytes): (data: Bytes)
    ensures chunk == [] <==> data == []
  {
    if chunk != [] && h(chunk).Some? && h(chunk).value != [] then h(chunk).value else chunk
  }

  datatype State = State(inspected: bool, buf: Bytes, offset: nat, unread: Bytes, script: seq<ReadStep>)

  predicate Valid(s: State) {
    && (s.buf != [] ==> s.offset < |s.buf|)
    && (!s.inspected ==> s.buf == [])
  }

  /** Rewritten octets not yet handed out. */
  function Pending(s: State): Bytes
    requires Valid(s)
  {
    if s.buf == [] then [] else s.buf[s.offset..]
  }

  /** What one Read does: the new state, the octets returned and whether an error comes with them. */
  datatype Answer = Answer(state: State, data: Bytes, err: bool)

  function AfterSource(s: State, max: nat): State {
    s.(unread := s.unread[Taken(s.unread, s.script, max)..], script := if s.script == [] then [] else s.script[1..])
  }

  function HandOut(s: State, max: nat, err: bool): Answer
    requires Valid(s) && s.buf != []
  {
    var n := Min(max, |s.buf| - s.offset);
    Answer(s.(buf := if s.offset + n >= |s.buf| then [] else s.buf, offset := s.offset + n),
           s.buf[s.offset..s.offset + n], err)
  }

  function Next(h: Option<Harmonizer>, s: State, max: nat): (a: Answer)
    requires Valid(s)
    ensures Valid(a.state)
  {
    if h.None? || s.inspected then
      if s.buf != [] then HandOut(s, max, false)
      else Answer(AfterSource(s, max), s.unread[..Taken(s.unread, s.script, max)], Fails(s.script))
    else
      var t := AfterSource(s, PEEK).(inspected := true);
      var chunk := s.unread[..Taken(s.unread, s.script, PEEK)];
      if chunk == [] then Answer(t, [], Fails(s.script))
      else HandOut(t.(buf := Rewritten(h.value, chunk), offset := 0), max, Fails(s.script))
  }

  class UaHarmonizingReader {
    const r: Source
    const harmonizer: Option<Harmonizer>    // none: absent or disabled
    var inspected: bool
    var buf: Bytes
    var offset: nat

    constructor (r: Source, harmonizer: Option<Harmonizer>)
      ensures this.r == r && this.harmonizer == harmonizer
      ensures Abstract() == State(false, [], 0, r.unread, r.script)
    {
      this.r, this.harmonizer, inspected, buf, offset := r, harmonizer, false, [], 0;
    }

    ghost function Abstract(): State
      reads this, r
    {
      State(inspected, buf, offset, r.unread, r.script)
    }

    method Read(max: nat) returns (data: Bytes, err: bool)
      requires Valid(Abstract())
      modifies this, r
      ensures Answer(Abstract(), data, err) == Next(harmonizer, old(Abstract()), max)
      ensures Valid(Abstract())
    {
      if harmonizer.None? || inspected {
        if |buf| > 0 {
          data := CopyOut(max);
          return data, false;
        }
        data, err := r.Read(max);
        return;
      }
      inspected := true;
      var chunk, rErr := r.Read(PEEK);
      if |chunk| > 0 {
        var harmonized := harmonizer.value(chunk);
        if harmonized.Some? && |harmonized.value| > 0 {
          chunk := harmonized.value;
        }
        buf, offset := chunk, 0;
        data := CopyOut(max);
        return data, rErr;
      }
      return [], rErr;
    }

    method CopyOut(max: nat) returns (data: Bytes)
      requires Valid(Abstract()) && buf != []
      modifies this`buf, this`offset
      ensures forall err :: Answer(Abstract(), data, err) == HandOut(old(Abstract()), max, err)
      ensures Valid(Abstract())
    {
      var n := |buf| - offset;
      if max < n {
        n := max;
      }
      data := buf[offset..offset + n];
      offset := offset + n;
      if offset >= |buf| {
        buf := [];
      }
    }
  }

  // Whole runs

  /** Everything a run of reads into buffers of these sizes returns, and where it leaves the reader. */
  datatype Run = Run(state: State, out: Bytes, failed: bool)

  function Reads(h: Option<Harmonizer>, s: State, sizes: seq<nat>): (run: Run)
    requires Valid(s)
    ensures Valid(run.state)
    decreases |sizes|
  {
    if sizes == [] then Run(s, [], false)
    else
      var a := Next(h, s, sizes[0]);
      if a.err then Run(a.state, a.data, true)
      else
        var rest := Reads(h, a.state, sizes[1..]);
        Run(rest.state, a.data + rest.out, rest.failed)
  }

  function Fresh(stream: Bytes, script: seq<ReadStep>): State {
    State(false, [], 0, stream, script)
  }

  /** The stream a consumer should see. */
  function Intended(h: Harmonizer, stream: Bytes, script: seq<ReadStep>): Bytes {
    var n := Taken(stream, script, PEEK);
    Rewritten(h, stream[..n]) + stream[n..]
  }

  /** That is: what the rewriter makes of the first read's octets, up to 4096, and then the rest. Where it fails
      or leaves nothing, and where the first read brings nothing, the stream as it is. */
  lemma IntendedIs(h: Harmonizer, stream: Bytes, script: seq<ReadStep>)
    ensures var n := if script == [] then 0 else Min(script[0].size, Min(4096, |stream|));
            var made := h(stream[..n]);
            Intended(h, stream, script) ==
            if n > 0 && made.Some? && made.value != [] then made.value + stream[n..] else stream
  {
    var n := Taken(stream, script, PEEK);
    assert stream[..n] + stream[n..] == stream;
  }

  lemma HandOutConserves(s: State, max: nat, err: bool)
    requires Valid(s) && s.buf != []
    ensures var a := HandOut(s, max, err); Valid(a.state) && a.data + Pending(a.state) == Pending(s)
  {
  }

  /** A later read with octets pending fills its buffer or takes them all; with none it is the source's own
      read, error included. */
  lemma LaterReadIs(h: Option<Harmonizer>, s: State, max: nat)
    requires Valid(s) && (h.None? || s.inspected)
    ensures var a := Next(h, s, max);
            if Pending(s) != []
            then a.data == Pending(s)[..Min(max, |Pending(s)|)] && !a.err && a.state.unread == s.unread
            else if s.script == [] then a.data == [] && a.err
            else a.data == s.unread[..Min(s.script[0].size, Min(max, |s.unread|))] && a.err == s.script[0].fails
                 && a.state.script == s.script[1..]
  {
  }

  lemma LaterReadConserves(h: Option<Harmonizer>, s: State, max: nat)
    requires Valid(s) && (h.None? || s.inspected)
    ensures var a := Next(h, s, max);
            && a.state.inspected == s.inspected
            && a.data + (Pending(a.state) + a.state.unread) == Pending(s) + s.unread
            && (a.err ==> Pending(a.state) == [])
  {
    if s.buf != [] {
      HandOutConserves(s, max, false);
      hide HandOut, Pending;
      var a := HandOut(s, max, false);
      assert a.data + (Pending(a.state) + s.unread) == a.data + Pending(a.state) + s.unread;
    } else {
      hide Taken;
      var n := Taken(s.unread, s.script, max);
      assert s.unread[..n] + ([] + s.unread[n..]) == [] + s.unread;
    }
  }

  /** Once the first chunk has been looked at, nothing is lost, added or reordered, and an error is only
      reported when nothing is pending. */
  lemma {:induction false} LaterReadsConserve(h: Option<Harmonizer>, s: State, sizes: seq<nat>)
    requires Valid(s) && (h.None? || s.inspected)
    ensures var run := Reads(h, s, sizes);
            && run.out + (Pending(run.state) + run.state.unread) == Pending(s) + s.unread
            && (run.failed ==> Pending(run.state) == [])
    decreases |sizes|
  {
    hide Next;
    if sizes != [] {
      var a := Next(h, s, sizes[0]);
      LaterReadConserves(h, s, sizes[0]);
      if !a.err {
        LaterReadsConserve(h, a.state, sizes[1..]);
      }
    }
  }

  lemma FirstRead(h: Harmonizer, stream: Bytes, script: seq<ReadStep>, max: nat)
    ensures var a := Next(Some(h), Fresh(stream, script), max);
            && a.state.inspected && a.err == Fails(script)
            && a.data + (Pending(a.state) + a.state.unread) == Intended(h, stream, script)
            && (Pending(a.state) == [] <==> |Rewritten(h, stream[..Taken(stream, script, PEEK)])| <= max)
  {
    hide Rewritten, Taken, Fails, HandOut, Pending;
    var chunk := stream[..Taken(stream, script, PEEK)];
    RewrittenNonEmpty(h, chunk);
    if chunk != [] {
      var t := AfterSource(Fresh(stream, script), PEEK).(inspected := true, buf := Rewritten(h, chunk), offset := 0);
      var a := HandOut(t, max, Fails(script));
      HandOutConserves(t, max, Fails(script));
      FreshBuffer(t, max, Fails(script));
      assert a.data + (Pending(a.state) + t.unread) == a.data + Pending(a.state) + t.unread;
    } else {
      NothingPending(Next(Some(h), Fresh(stream, script), max).state);
      assert [] + ([] + stream[0..]) == [] + stream[0..];
    }
  }

  lemma FreshBuffer(t: State, max: nat, err: bool)
    requires Valid(t) && t.buf != [] && t.offset == 0
    ensures Pending(t) == t.buf
    ensures var a := HandOut(t, max, err);
            && a.err == err && a.state.unread == t.unread && a.state.inspected == t.inspected
            && (Pending(a.state) == [] <==> |t.buf| <= max)
  {
  }

  lemma NothingPending(s: State)
    requires Valid(s) && s.buf == []
    ensures Pending(s) == []
  {
  }

  lemma RewrittenNonEmpty(h: Harmonizer, chunk: Bytes)
    ensures chunk == [] <==> Rewritten(h, chunk) == []
  {
  }

  /** Conservation, for every stream, every way it is cut into reads and every sequence of read buffers:
      what was returned, what is pending and what was never read make up the intended stream. */
  lemma NothingIsLostOrAdded(h: Harmonizer, stream: Bytes, script: seq<ReadStep>, sizes: seq<nat>)
    requires sizes != []
    ensures var run := Reads(Some(h), Fresh(stream, script), sizes);
            run.out + (Pending(run.state) + run.state.unread) == Intended(h, stream, script)
  {
    hide Next, Intended, Pending, Taken, Fails;
    FirstRead(h, stream, script, sizes[0]);
    var a := Next(Some(h), Fresh(stream, script), sizes[0]);
    if !a.err {
      LaterReadsConserve(Some(h), a.state, sizes[1..]);
    }
  }

  /** A consumer that stops at the first error misses rewritten octets exactly when the first underlying
      read returned data together with that error and the rewritten chunk did not fit its buffer. */
  lemma TruncatedIff(h: Harmonizer, stream: Bytes, script: seq<ReadStep>, sizes: seq<nat>)
    requires sizes != []
    ensures var run := Reads(Some(h), Fresh(stream, script), sizes);
            run.failed ==>
              (Pending(run.state) != [] <==>
               Fails(script) && |Rewritten(h, stream[..Taken(stream, script, PEEK)])| > sizes[0])
  {
    hide Next, Rewritten, Intended, Pending, Taken;
    FirstRead(h, stream, script, sizes[0]);
    var a := Next(Some(h), Fresh(stream, script), sizes[0]);
    if !a.err {
      LaterReadsConserve(Some(h), a.state, sizes[1..]);
    }
  }

  /** It happens with a source that returns data together with an error: one octet rewritten to two, read
      into a buffer of one. A source that reports its errors alone never loses any. */
  lemma Truncated()
    ensures var h: Harmonizer := _ => Some([8, 9]);
            var run := Reads(Some(h), Fresh([7], [ReadStep(1, true)]), [1]);
            run.failed && run.out == [8] && Pending(run.state) == [9]
  {
    var h: Harmonizer := _ => Some([8, 9]);
    var s := Fresh([7], [ReadStep(1, true)]);
    assert [7][..1] == [7] && Rewritten(h, [7]) == [8, 9];
    var a := Next(Some(h), s, 1);
    assert a.err && a.data == [8, 9][0..1] == [8] && a.state.buf == [8, 9] && a.state.offset == 1;
    assert [8, 9][1..] == [9];
  }

  /** The promise: if the first underlying read does not report an error with its data, a consumer that
      reads to the error gets exactly the intended stream, up to what the peer never delivered. */
  lemma StreamIsComplete(h: Harmonizer, stream: Bytes, script: seq<ReadStep>, sizes: seq<nat>)
    requires sizes != []
    requires Taken(stream, script, PEEK) > 0 ==> !Fails(script)
    ensures var run := Reads(Some(h), Fresh(stream, script), sizes);
            run.failed ==> run.out + run.state.unread == Intended(h, stream, script)
  {
    hide Next, Intended, Taken, Rewritten;
    NothingIsLostOrAdded(h, stream, script, sizes);
    TruncatedIff(h, stream, script, sizes);
    var run := Reads(Some(h), Fresh(stream, script), sizes);
    assert [] + run.state.unread == run.state.unread;
  }

  /** Without a rewriter the reader is the identity. */
  lemma DisabledIsIdentity(stream: Bytes, script: seq<ReadStep>, sizes: seq<nat>)
    ensures var run := Reads(None, Fresh(stream, script), sizes); run.out + run.state.unread == stream
  {
    hide Next;
    LaterReadsConserve(None, Fresh(stream, script), sizes);
    NoBuffer(stream, script, sizes);
    var run := Reads(None, Fresh(stream, script), sizes);
    assert [] + run.state.unread == run.state.unread && [] + stream == stream;
  }

  lemma NoBuffer(stream: Bytes, script: seq<ReadStep>, sizes: seq<nat>)
    ensures Reads(None, Fresh(stream, script), sizes).state.buf == []
    decreases |sizes|
  {
    if sizes != [] {
      var a := Next(None, Fresh(stream, script), sizes[0]);
      if !a.err {
        NoBuffer(a.state.unread, a.state.script, sizes[1..]);
      }
    }
  }
}
