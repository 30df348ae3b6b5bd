/** The client-to-target half of the SOCKS5 relay and its fragmenting writer (proxy/socks5.go), for every
    way the client's stream may be cut into reads and every way a write may stop short. The user-agent
    rewriter and the rate limiter are off. */
module Relay {
  import opened ByteSource
  import opened Bytes
  import F = Fragmenter

  datatype WriteStep = WriteStep(accepts: nat, fails: bool)

  /** The destination's socket. */
  class Target {
    const plan: nat -> WriteStep
    var calls: nat
    var received: Bytes
    ghost var failed: bool    // whether a Write has reported an error

    constructor (plan: nat -> WriteStep)
      ensures this.plan == plan && received == [] && !failed
    {
      this.plan, calls, received, failed := plan, 0, [], false;
    }

    /** A short write is always an error, as io.Writer demands; a full one may be. */
    method Write(p: Bytes) returns (n: nat, err: bool)
      modifies this
      ensures n <= |p| && received == old(received) + p[..n]
      ensures n < |p| ==> err
      ensures failed == (old(failed) || err)
    {
      var step := plan(calls);
      calls := calls + 1;
      n := if step.accepts < |p| then step.accepts else |p|;
      err := step.fails || n < |p|;
      received := received + p[..n];
      failed := failed || err;
    }
  }

  /** A chunk that the TLS split turns into other octets: the first draw does not cover its record's body,
      or its record is empty and something follows. */
  predicate Mangled(cfg: F.Config, draw: F.Draw, p: Bytes)
    requires F.Usable(cfg)
  {
    && cfg.enabled
    && cfg.strategy == F.StrategyTLSSplit
    && F.HasRecord(p)
    && var n := F.RecordEnd(p) - F.TLS_RECORD_HEADER_LEN;
       if n == 0 then |p| > F.TLS_RECORD_HEADER_LEN
       else F.Size(draw, 1, cfg.maxFragmentLen - F.TLS_RECORD_HEADER_LEN) < n
  }

  /** What the fragments of `p` add up to. */
  ghost predicate Emits(cfg: F.Config, draw: F.Draw, p: Bytes, out: Bytes)
    requires F.Usable(cfg)
  {
    && (Mangled(cfg, draw, p) ==> |out| != |p|)
    && (!Mangled(cfg, draw, p) ==> out == p)
    && F.Decode(out) == F.Decode(p)
  }

  lemma NoBody(p: Bytes, extra: seq<Bytes>, frags: seq<Bytes>, cfg: F.Config)
    requires F.Usable(cfg) && F.HasRecord(p) && F.Split(p, [], extra, frags, cfg)
    ensures frags == [] <==> |p| == F.TLS_RECORD_HEADER_LEN
  {
    assert F.RecordEnd(p) == F.TLS_RECORD_HEADER_LEN;
    assert frags == extra;
  }

  lemma FragmentsEmit(cfg: F.Config, draws: nat -> F.Draw, first: nat, p: Bytes, frags: seq<Bytes>)
    requires F.Usable(cfg) && cfg.enabled && F.Fragmented(cfg, draws, first, p, frags)
    ensures frags != [] ==> Emits(cfg, draws(first), p, Join(frags))
    ensures frags == [] ==> Emits(cfg, draws(first), p, p)
  {
    hide F.Decode, F.Size, F.Led, F.Split, F.Sized, FromBe16;
    if cfg.strategy == F.StrategyTLSSplit && F.HasRecord(p) {
      var bodies, extra :| F.Split(p, bodies, extra, frags, cfg) && F.SplitSized(bodies, extra, draws, first, cfg);
      F.SizedLeads(bodies, draws, first, cfg);
      F.SplitPreservesContent(p, bodies, extra, frags, cfg);
      F.SplitReproducesIffOneRecord(p, bodies, extra, frags, cfg);
      F.OneRecordIffFirstDrawCovers(p, bodies, extra, frags, cfg, draws(first));
      if bodies == [] {
        assert (frags == []) == (|p| == F.TLS_RECORD_HEADER_LEN) by {
          NoBody(p, extra, frags, cfg);
        }
      }
    }
  }

  ghost predicate ValidSetup(cfg: Option<F.Config>) {
    cfg.Some? ==> F.Usable(cfg.value)
  }

  ghost predicate Spoils(cfg: Option<F.Config>, draw: F.Draw, p: Bytes)
    requires ValidSetup(cfg)
  {
    cfg.Some? && Mangled(cfg.value, draw, p)
  }

  ghost predicate Writes(cfg: Option<F.Config>, draw: F.Draw, p: Bytes, out: Bytes)
    requires ValidSetup(cfg)
  {
    if cfg.None? then out == p else Emits(cfg.value, draw, p, out)
  }

  ghost function Setup(fragmenter: F.Fragmenter?): Option<F.Config> {
    if fragmenter == null then None else Some(fragmenter.cfg)
  }

  ghost function NextDraw(fragmenter: F.Fragmenter?): F.Draw
    reads if fragmenter == null then {} else {fragmenter}
  {
    if fragmenter == null then F.RngFailed else fragmenter.draws(fragmenter.used)
  }

  /** fragmentingWriter.Write. Without a fragmenter, with a disabled one, and when the fragmenter refuses
      or yields nothing, the chunk is written as it is. */
  method FragmentingWrite(w: Target, fragmenter: F.Fragmenter?, p: Bytes) returns (n: nat, err: bool, ghost out: Bytes)
    requires ValidSetup(Setup(fragmenter))
    modifies w, if fragmenter == null then {} else {fragmenter}
    ensures n <= |out| && w.received == old(w.received) + out[..n]
    ensures n < |out| ==> err
    ensures w.failed == (old(w.failed) || err)
    ensures Writes(Setup(fragmenter), old(NextDraw(fragmenter)), p, out)
  {
    hide F.Decode, F.Fragmented, F.HasRecord, F.Size;
    out := p;
    if fragmenter == null || !fragmenter.cfg.enabled {
      n, err := w.Write(p);
      return;
    }
    var frags := fragmenter.Fragment(p);
    if frags.Ok? {
      FragmentsEmit(fragmenter.cfg, fragmenter.draws, old(fragmenter.used), p, frags.value);
    }
    if frags.Err? || |frags.value| == 0 {
      assert frags.Err? ==> !F.HasRecord(p) by { NoRecordInNothing(p); }
      n, err := w.Write(p);
      return;
    }
    n, err := WriteAll(w, frags.value);
    out := Join(frags.value);
  }

  lemma NoRecordInNothing(p: Bytes)
    ensures p == [] ==> !F.HasRecord(p)
  {
  }

  /** The loop over the fragments: stops at the first failed write. */
  method WriteAll(w: Target, frags: seq<Bytes>) returns (total: nat, err: bool)
    modifies w
    ensures total <= |Join(frags)| && w.received == old(w.received) + Join(frags)[..total]
    ensures total < |Join(frags)| ==> err
    ensures w.failed == (old(w.failed) || err)
  {
    total := 0;
    var i := 0;
    assert frags[..|frags|] == frags;
    while i < |frags|
      invariant 0 <= i <= |frags|
      invariant w.failed == old(w.failed)
      invariant total == |Join(frags[..i])| && w.received == old(w.received) + Join(frags[..i])
    {
      Cut(frags, i);
      var nw;
      nw, err := w.Write(frags[i]);
      total := total + nw;
      ghost var sent, more := Join(frags[..i]), frags[i][..nw];
      assert old(w.received) + sent + more == old(w.received) + (sent + more);
      if err {
        assert Join(frags)[..total] == Join(frags[..i]) + frags[i][..nw];
        return;
      }
      i := i + 1;
    }
    err := false;
  }

  lemma CutAfter(frags: seq<Bytes>, i: nat)
    requires i < |frags|
    ensures frags[..i + 1] == frags[..i] + [frags[i]] && frags == frags[..i + 1] + frags[i + 1..]
  {
  }

  lemma Cut(frags: seq<Bytes>, i: nat)
    requires i < |frags|
    ensures Join(frags[..i + 1]) == Join(frags[..i]) + frags[i]
    ensures Join(frags) == Join(frags[..i]) + frags[i] + Join(frags[i + 1..])
  {
    hide Join;
    JoinSnoc(frags[..i], frags[i]);
    CutAfter(frags, i);
    JoinAppend(frags[..i + 1], frags[i + 1..]);
  }

  // The loop

  datatype End = SourceEnded | WriteFailed | LengthMismatch

  /** What a run did: the chunks that went through, each with the draw it met, and, unless the source
      ended the run, the chunk it stopped at, what that chunk became and how much of it was written. */
  datatype Run = Run(end: End, chunks: seq<Bytes>, draws: seq<F.Draw>, last: Bytes, draw: F.Draw, out: Bytes, n: nat)

  /** Chunks go through unchanged until the source ends, a write fails, or a chunk is mangled. */
  ghost predicate Through(cfg: Option<F.Config>, chunks: seq<Bytes>, draws: seq<F.Draw>)
    requires ValidSetup(cfg)
  {
    && |chunks| == |draws|
    && forall i :: 0 <= i < |chunks| ==> chunks[i] != [] && !Spoils(cfg, draws[i], chunks[i])
  }

  ghost predicate Relayed(cfg: Option<F.Config>, stream: Bytes, sent: Bytes, total: int, unread: Bytes, r: Run)
    requires ValidSetup(cfg)
  {
    && Through(cfg, r.chunks, r.draws)
    && r.n <= |r.out|
    && stream == Join(r.chunks) + r.last + unread
    && sent == Join(r.chunks) + r.out[..r.n]
    && total == |sent|
    && match r.end
       case SourceEnded => r.last == [] && r.out == []
       case WriteFailed => r.last != [] && Writes(cfg, r.draw, r.last, r.out)
       case LengthMismatch => r.last != [] && Writes(cfg, r.draw, r.last, r.out) && r.n == |r.out| != |r.last|
  }

  lemma SpoiledIff(cfg: Option<F.Config>, draw: F.Draw, p: Bytes, out: Bytes)
    requires ValidSetup(cfg) && Writes(cfg, draw, p, out)
    ensures Spoils(cfg, draw, p) <==> |out| != |p|
    ensures !Spoils(cfg, draw, p) ==> out == p
  {
  }

  /** One more chunk read and written: to the end of the run, or through. */
  lemma Stopped(cfg: Option<F.Config>, stream: Bytes, sent: Bytes, unread: Bytes, r: Run, left: Bytes, r': Run)
    requires ValidSetup(cfg) && r.end.SourceEnded? && Relayed(cfg, stream, sent, |sent|, unread, r)
    requires r'.chunks == r.chunks && r'.draws == r.draws && unread == r'.last + left && r'.n <= |r'.out|
    requires r'.last != [] && Writes(cfg, r'.draw, r'.last, r'.out)
    requires r'.end.WriteFailed? || (r'.end.LengthMismatch? && r'.n == |r'.out| != |r'.last|)
    ensures Relayed(cfg, stream, sent + r'.out[..r'.n], |sent| + r'.n, left, r')
  {
    hide Writes, Spoils, Join;
    assert Join(r.chunks) + [] + (r'.last + left) == Join(r.chunks) + r'.last + left;
    assert Join(r.chunks) + [] == Join(r.chunks);
  }

  lemma PassedOn(cfg: Option<F.Config>, stream: Bytes, sent: Bytes, unread: Bytes, r: Run, left: Bytes,
                 data: Bytes, draw: F.Draw, out: Bytes)
    requires ValidSetup(cfg) && r.end.SourceEnded? && Relayed(cfg, stream, sent, |sent|, unread, r)
    requires unread == data + left && data != [] && |out| == |data| && Writes(cfg, draw, data, out)
    ensures var r' := r.(chunks := r.chunks + [data], draws := r.draws + [draw]);
            Relayed(cfg, stream, sent + out, |sent + out|, left, r')
  {
    SpoiledIff(cfg, draw, data, out);
    hide Writes, Spoils, Join;
    JoinSnoc(r.chunks, data);
    assert Join(r.chunks) + [] + (data + left) == Join(r.chunks) + data + [] + left;
    assert sent == Join(r.chunks);
  }

  lemma Started(cfg: Option<F.Config>, stream: Bytes, r: Run)
    requires ValidSetup(cfg) && r == Run(SourceEnded, [], [], [], F.RngFailed, [], 0)
    ensures Relayed(cfg, stream, [], 0, stream, r)
  {
    assert [] + [] + stream == stream;
  }

  class Metrics {
    var bytesIn: nat
  }

  /** The client-to-target goroutine. It ends only where the source reports an error, a write fails or
      the lengths differ. */
  method ClientToTarget(source: Source, w: Target, fragmenter: F.Fragmenter?, metrics: Metrics, bufSize: nat)
      returns (ghost r: Run)
    requires ValidSetup(Setup(fragmenter)) && !source.failed && !w.failed
    modifies source, w, metrics, if fragmenter == null then {} else {fragmenter}
    ensures exists sent :: w.received == old(w.received) + sent
                           && Relayed(Setup(fragmenter), old(source.unread), sent,
                                      metrics.bytesIn - old(metrics.bytesIn), source.unread, r)
    ensures r.end.SourceEnded? ==> source.failed
    ensures r.end.WriteFailed? <==> w.failed
  {
    hide Emits, Mangled, Writes, Spoils, Relayed;
    ghost var cfg, stream, before := Setup(fragmenter), source.unread, w.received;
    ghost var sent: Bytes := [];
    r := Run(SourceEnded, [], [], [], F.RngFailed, [], 0);
    Started(cfg, stream, r);
    var total := 0;
    var done := false;
    while !done
      invariant w.received == before + sent && metrics.bytesIn == old(metrics.bytesIn)
      invariant total == |sent| && Relayed(cfg, stream, sent, |sent|, source.unread, r)
      invariant if done then r.end.SourceEnded? ==> source.failed else r.end.SourceEnded? && !source.failed
      invariant r.end.WriteFailed? <==> w.failed
      decreases !done, |source.script|
    {
      ghost var unread := source.unread;
      var data, err := source.Read(bufSize);
      if |data| > 0 {
        ghost var draw, was := NextDraw(fragmenter), sent;
        ghost var out;
        var nw, ew;
        nw, ew, out := FragmentingWrite(w, fragmenter, data);
        total := total + nw;
        sent := sent + out[..nw];
        assert before + was + out[..nw] == before + sent;
        ghost var stop := r.(last := data, draw := draw, out := out, n := nw);
        if ew {
          stop := stop.(end := WriteFailed);
          Stopped(cfg, stream, was, unread, r, source.unread, stop);
          r, done := stop, true;
        } else if |data| != nw {
          stop := stop.(end := LengthMismatch);
          Stopped(cfg, stream, was, unread, r, source.unread, stop);
          r, done := stop, true;
        } else {
          assert out[..nw] == out;
          PassedOn(cfg, stream, was, unread, r, source.unread, data, draw, out);
          r := r.(chunks := r.chunks + [data], draws := r.draws + [draw]);
        }
      } else {
        assert data + source.unread == source.unread;
      }
      if err {
        done := true;
      }
    }
    metrics.bytesIn := metrics.bytesIn + total;
  }

  // What a run means for the destination

  predicate Splits(cfg: Option<F.Config>) {
    cfg.Some? && cfg.value.enabled && cfg.value.strategy == F.StrategyTLSSplit
  }

  /** Without a fragmenter, with a disabled one, and with the fixed or random strategy: the destination has
      received a prefix of the client's stream, the count is its length, the length check never ends the
      run, and a run that met no write failure delivered all it read. */
  lemma PrefixIsDelivered(cfg: Option<F.Config>, stream: Bytes, sent: Bytes, total: int, unread: Bytes, r: Run)
    requires ValidSetup(cfg) && !Splits(cfg) && Relayed(cfg, stream, sent, total, unread, r)
    ensures sent <= stream && total == |sent|
    ensures !r.end.LengthMismatch?
    ensures r.end.SourceEnded? ==> stream == sent + unread
  {
    hide Join, F.Decode;
    if !r.end.SourceEnded? {
      assert !Spoils(cfg, r.draw, r.last);
      SpoiledIff(cfg, r.draw, r.last, r.out);
      assert r.out == r.out[..r.n] + r.out[r.n..];
      assert stream == sent + (r.out[r.n..] + unread);
    } else {
      assert stream == sent + unread;
    }
  }

  /** With any strategy, a run that met no write failure was ended by the length check exactly when the
      chunk it stopped at was mangled; everything before that chunk is a prefix of the client's stream, the
      count overstates or understates it by what the mangling added or dropped, and the destination got
      the whole chunk as a reader of TLS records sees it. */
  lemma MismatchIffMangled(cfg: Option<F.Config>, stream: Bytes, sent: Bytes, total: int, unread: Bytes, r: Run)
    requires ValidSetup(cfg) && Relayed(cfg, stream, sent, total, unread, r) && !r.end.WriteFailed?
    ensures r.end.LengthMismatch? <==> r.last != [] && Spoils(cfg, r.draw, r.last)
    ensures r.end.LengthMismatch? ==>
              && stream == Join(r.chunks) + r.last + unread && sent == Join(r.chunks) + r.out
              && F.Decode(r.out) == F.Decode(r.last)
              && total != |stream| - |unread|
    ensures r.end.SourceEnded? ==> stream == sent + unread && total == |stream| - |unread|
  {
    hide Join, F.Decode, Mangled;
    if r.end.LengthMismatch? {
      SpoiledIff(cfg, r.draw, r.last, r.out);
      assert r.out[..r.n] == r.out;
    } else {
      assert stream == sent + unread;
    }
  }

  /** A record whose body exceeds the largest fragment's share is mangled whatever is drawn, so a relay
      with the TLS split cannot get past it; a record with a one-octet body never is. */
  lemma LongRecordsAreMangled(cfg: F.Config, draw: F.Draw, p: Bytes)
    requires F.Usable(cfg) && cfg.enabled && cfg.strategy.StrategyTLSSplit? && F.HasRecord(p)
    ensures F.RecordEnd(p) > cfg.maxFragmentLen ==> Mangled(cfg, draw, p)
    ensures F.RecordEnd(p) == F.TLS_RECORD_HEADER_LEN + 1 ==> !Mangled(cfg, draw, p)
  {
  }
}
