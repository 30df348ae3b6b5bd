/** The traffic fragmenter (privacy/fragment.go): fixed, random and TLS-record splitting, for every
    sequence of random draws, and what a TLS record reader makes of the result (section 5.1 of
    RFC 8446). */
module Fragmenter {
  import opened Bytes

  const MIN_FRAGMENT_SIZE := 64
  const TLS_RECORD_HEADER_LEN := 5
  const HANDSHAKE: Byte := 0x16
  const APP_DATA: Byte := 0x17

  datatype Strategy = StrategyFixed | StrategyRandom | StrategyTLSSplit

  datatype Config = Config(strategy: Strategy, maxFragmentLen: int, minFragmentLen: int, enabled: bool)

  datatype Error = ErrFragmentTooSmall | ErrEmptyPayload

  datatype Stats = Stats(packetsFragmented: nat, fragmentsCreated: nat, tlsRecordsSplit: nat, bytesProcessed: nat)

  // Configuration

  predicate Usable(cfg: Config) {
    1 <= cfg.minFragmentLen <= cfg.maxFragmentLen && MIN_FRAGMENT_SIZE <= cfg.maxFragmentLen
  }

  /** NewFragmenter: refuses a maximum below the minimum size and clamps the minimum. */
  function CheckedConfig(cfg: Config): (r: Result<Config, Error>)
    ensures r.Ok? <==> cfg.maxFragmentLen >= MIN_FRAGMENT_SIZE
    ensures r.Ok? ==> Usable(r.value)
    ensures Usable(cfg) ==> r == Ok(cfg)
    ensures r.Ok? ==> r.value == cfg.(minFragmentLen := r.value.minFragmentLen)
    ensures r.Ok? && cfg.minFragmentLen > cfg.maxFragmentLen ==> r.value.minFragmentLen == cfg.maxFragmentLen
    ensures r.Ok? && cfg.minFragmentLen <= 0 ==> r.value.minFragmentLen == 64
  {
    if cfg.maxFragmentLen < MIN_FRAGMENT_SIZE then Err(ErrFragmentTooSmall)
    else
      var low := if cfg.minFragmentLen <= 0 then MIN_FRAGMENT_SIZE else cfg.minFragmentLen;
      Ok(cfg.(minFragmentLen := if low > cfg.maxFragmentLen then cfg.maxFragmentLen else low))
  }

  // Pieces

  /** Consecutive pieces of `data`: every one has `min` to `max` octets, save that the last may be
      short, and none is empty. */
  ghost predicate Pieces(frags: seq<Bytes>, data: Bytes, min: nat, max: nat) {
    && Join(frags) == data
    && (forall i :: 0 <= i < |frags| ==> 1 <= |frags[i]| <= max)
    && (forall i :: 0 <= i < |frags| - 1 ==> min <= |frags[i]|)
  }

  lemma MorePieces(frags: seq<Bytes>, data: Bytes, offset: nat, end: nat, min: nat, max: nat)
    requires offset < end <= |data| && end - offset <= max
    requires Pieces(frags, data[..offset], min, max)
    requires forall i :: 0 <= i < |frags| ==> min <= |frags[i]|
    ensures Pieces(frags + [data[offset..end]], data[..end], min, max)
  {
    JoinSnoc(frags, data[offset..end]);
    assert data[..end] == data[..offset] + data[offset..end];
  }

  // TLS records

  function Record(contentType: Byte, major: Byte, minor: Byte, body: Bytes): (s: Bytes)
    ensures |s| == TLS_RECORD_HEADER_LEN + |body|
  {
    [contentType, major, minor] + Be16(|body|) + body
  }

  function Records(contentType: Byte, major: Byte, minor: Byte, bodies: seq<Bytes>): (rs: seq<Bytes>)
    ensures |rs| == |bodies|
    ensures forall i :: 0 <= i < |bodies| ==> rs[i] == Record(contentType, major, minor, bodies[i])
  {
    if bodies == [] then []
    else [Record(contentType, major, minor, bodies[0])] + Records(contentType, major, minor, bodies[1..])
  }

  lemma RecordsSnoc(t: Byte, major: Byte, minor: Byte, bodies: seq<Bytes>, body: Bytes)
    ensures Records(t, major, minor, bodies + [body]) ==
            Records(t, major, minor, bodies) + [Record(t, major, minor, body)]
  {
    var l := Records(t, major, minor, bodies + [body]);
    var r := Records(t, major, minor, bodies) + [Record(t, major, minor, body)];
    assert forall i :: 0 <= i < |l| ==> l[i] == r[i];
  }

  /** The payload starts with a complete record of one of the two types that are split. */
  predicate HasRecord(payload: Bytes) {
    && |payload| >= TLS_RECORD_HEADER_LEN
    && (payload[0] == HANDSHAKE || payload[0] == APP_DATA)
    && |payload| >= TLS_RECORD_HEADER_LEN + FromBe16(payload[3], payload[4])
  }

  function RecordEnd(payload: Bytes): (n: nat)
    requires HasRecord(payload)
    ensures TLS_RECORD_HEADER_LEN <= n <= |payload|
  {
    TLS_RECORD_HEADER_LEN + FromBe16(payload[3], payload[4])
  }

  /** What the TLS split makes: records with the original type and version whose bodies are
      consecutive pieces of the original body, each record within the maximum fragment length, and
      then plain pieces of what followed the record. */
  ghost predicate Split(payload: Bytes, bodies: seq<Bytes>, extra: seq<Bytes>, frags: seq<Bytes>, cfg: Config)
    requires HasRecord(payload) && Usable(cfg)
  {
    && frags == Records(payload[0], payload[1], payload[2], bodies) + extra
    && Pieces(bodies, payload[TLS_RECORD_HEADER_LEN..RecordEnd(payload)], 1, cfg.maxFragmentLen - TLS_RECORD_HEADER_LEN)
    && Pieces(extra, payload[RecordEnd(payload)..], cfg.minFragmentLen, cfg.maxFragmentLen)
  }

  // Counters

  function PlainStats(s: Stats, made: nat): Stats {
    s.(packetsFragmented := s.packetsFragmented + 1, fragmentsCreated := s.fragmentsCreated + made)
  }

  /** The `trailing` fragments after the record are counted twice, and as a packet of their own. */
  function SplitStats(s: Stats, made: nat, trailing: nat): Stats {
    s.(packetsFragmented := s.packetsFragmented + 1 + (if trailing == 0 then 0 else 1),
       fragmentsCreated := s.fragmentsCreated + made + trailing,
       tlsRecordsSplit := s.tlsRecordsSplit + 1)
  }

  // Random sizes

  /** One answer of crypto/rand. */
  datatype Draw = Drawn(raw: nat) | RngFailed

  /** randomIntRange with its callers' fallback to `max` when the generator fails. */
  function Size(draw: Draw, min: nat, max: nat): (size: nat)
    requires min <= max
    ensures min <= size <= max
  {
    match draw
    case Drawn(raw) => min + raw % (max - min + 1)
    case RngFailed => max
  }

  /** Every size is drawn, each by exactly one of the numbers below max - min + 1 that the generator gives. */
  lemma SizeIsUniform(size: nat, min: nat, max: nat)
    requires min <= size <= max
    ensures Size(Drawn(size - min), min, max) == size
    ensures forall raw :: 0 <= raw < max - min + 1 && Size(Drawn(raw), min, max) == size ==> raw == size - min
    ensures Size(RngFailed, min, max) == max
  {
    forall raw | 0 <= raw < max - min + 1
      ensures Size(Drawn(raw), min, max) == min + raw
    {
      SmallResidue(raw, max - min + 1);
    }
  }

  lemma SmallResidue(raw: nat, n: nat)
    requires raw < n
    ensures raw % n == raw
  {
  }

  /** Piece by piece as the generator says, from draw number `first`; only the last may be cut short. */
  ghost predicate Sized(pieces: seq<Bytes>, draws: nat -> Draw, first: nat, min: nat, max: nat)
    requires min <= max
  {
    && (forall i :: 0 <= i < |pieces| ==> |pieces[i]| <= Size(draws(first + i), min, max))
    && (forall i :: 0 <= i < |pieces| - 1 ==> |pieces[i]| == Size(draws(first + i), min, max))
  }

  /** None cut short. */
  ghost predicate Whole(pieces: seq<Bytes>, draws: nat -> Draw, first: nat, min: nat, max: nat)
    requires min <= max
  {
    forall i :: 0 <= i < |pieces| ==> |pieces[i]| == Size(draws(first + i), min, max)
  }

  lemma OneMoreSized(pieces: seq<Bytes>, draws: nat -> Draw, first: nat, min: nat, max: nat, piece: Bytes)
    requires min <= max && Whole(pieces, draws, first, min, max)
    requires |piece| <= Size(draws(first + |pieces|), min, max)
    ensures Sized(pieces + [piece], draws, first, min, max)
    ensures |piece| == Size(draws(first + |pieces|), min, max) ==> Whole(pieces + [piece], draws, first, min, max)
  {
    hide Size;
  }

  lemma NoPieces(draws: nat -> Draw, first: nat, min: nat, max: nat)
    requires min <= max
    ensures Pieces([], [], min, max) && Sized([], draws, first, min, max) && Whole([], draws, first, min, max)
  {
  }

  /** The first record takes as much of the body as the first draw allows. */
  ghost predicate Led(bodies: seq<Bytes>, draw: Draw, cfg: Config)
    requires Usable(cfg)
  {
    bodies != [] ==> |bodies[0]| == Min(Size(draw, 1, cfg.maxFragmentLen - TLS_RECORD_HEADER_LEN), |Join(bodies)|)
  }

  lemma SizedLeads(bodies: seq<Bytes>, draws: nat -> Draw, first: nat, cfg: Config)
    requires Usable(cfg) && Sized(bodies, draws, first, 1, cfg.maxFragmentLen - TLS_RECORD_HEADER_LEN)
    ensures Led(bodies, draws(first), cfg)
  {
    hide Size;
    if bodies != [] {
      assert Join(bodies) == bodies[0] + Join(bodies[1..]);
      assert |bodies| == 1 ==> Join(bodies[1..]) == [];
      assert draws(first + 0) == draws(first);
    }
  }

  // The object

  class Fragmenter {
    const cfg: Config
    const draws: nat -> Draw    // what crypto/rand will return, draw by draw
    var used: nat
    var stats: Stats

    constructor (cfg: Config, draws: nat -> Draw)
      requires Usable(cfg)
      ensures this.cfg == cfg && stats == Stats(0, 0, 0, 0)
    {
      this.cfg, this.draws, used, stats := cfg, draws, 0, Stats(0, 0, 0, 0);
    }

    method RandomSize(min: nat, max: nat) returns (size: nat)
      requires min <= max
      modifies this`used
      ensures size == Size(draws(old(used)), min, max)
      ensures used == old(used) + if min < max then 1 else 0
    {
      if min >= max {
        return min;
      }
      var draw := draws(used);
      used := used + 1;
      match draw {
        case Drawn(raw) => size := min + raw % (max - min + 1);
        case RngFailed => size := max;
      }
    }

    method FragmentFixed(payload: Bytes) returns (frags: seq<Bytes>)
      requires Usable(cfg)
      modifies this`stats
      ensures Pieces(frags, payload, cfg.maxFragmentLen, cfg.maxFragmentLen)
      ensures stats == PlainStats(old(stats), |frags|)
    {
      var size := cfg.maxFragmentLen;
      frags := [];
      var offset := 0;
      while offset < |payload|
        invariant 0 <= offset && stats == old(stats)
        invariant Pieces(frags, payload[..if offset < |payload| then offset else |payload|], size, size)
        invariant offset < |payload| ==> forall i :: 0 <= i < |frags| ==> size <= |frags[i]|
      {
        var end := offset + size;
        if end > |payload| {
          end := |payload|;
        }
        MorePieces(frags, payload, offset, end, size, size);
        frags := frags + [payload[offset..end]];
        offset := offset + size;
      }
      assert payload[..|payload|] == payload;
      stats := stats.(packetsFragmented := stats.packetsFragmented + 1,
                      fragmentsCreated := stats.fragmentsCreated + |frags|);
    }

    method FragmentRandom(payload: Bytes) returns (frags: seq<Bytes>)
      requires Usable(cfg)
      modifies this`used, this`stats
      ensures Pieces(frags, payload, cfg.minFragmentLen, cfg.maxFragmentLen)
      ensures Sized(frags, draws, old(used), cfg.minFragmentLen, cfg.maxFragmentLen)
      ensures used == old(used) + if cfg.minFragmentLen < cfg.maxFragmentLen then |frags| else 0
      ensures stats == PlainStats(old(stats), |frags|)
    {
      hide Size, Sized, Whole;
      var min, max := cfg.minFragmentLen, cfg.maxFragmentLen;
      NoPieces(draws, used, min, max);
      frags := [];
      var offset := 0;
      while offset < |payload|
        invariant 0 <= offset <= |payload| && stats == old(stats)
        invariant Pieces(frags, payload[..offset], min, max) && Sized(frags, draws, old(used), min, max)
        invariant offset < |payload| ==> Whole(frags, draws, old(used), min, max)
        invariant offset < |payload| ==> forall i :: 0 <= i < |frags| ==> min <= |frags[i]|
        invariant used == old(used) + if min < max then |frags| else 0
      {
        ghost var draw := draws(old(used) + |frags|);
        var size := RandomSize(min, max);
        assert size == Size(draw, min, max) by {
          OneSize(draws(used), draw, min, max);
        }
        var end := offset + size;
        if end > |payload| {
          end := |payload|;
        }
        MorePieces(frags, payload, offset, end, min, max);
        OneMoreSized(frags, draws, old(used), min, max, payload[offset..end]);
        frags := frags + [payload[offset..end]];
        offset := end;
      }
      assert payload[..|payload|] == payload;
      stats := stats.(packetsFragmented := stats.packetsFragmented + 1,
                      fragmentsCreated := stats.fragmentsCreated + |frags|);
    }

    /** Anything that does not start with a complete record of a splittable type is fragmented at
        random. The trailing pieces are counted twice. */
    method FragmentTLSRecord(payload: Bytes)
        returns (frags: seq<Bytes>, ghost bodies: seq<Bytes>, ghost extra: seq<Bytes>)
      requires Usable(cfg)
      modifies this`used, this`stats
      ensures !HasRecord(payload) ==>
                && Pieces(frags, payload, cfg.minFragmentLen, cfg.maxFragmentLen)
                && Sized(frags, draws, old(used), cfg.minFragmentLen, cfg.maxFragmentLen)
                && stats == PlainStats(old(stats), |frags|)
      ensures HasRecord(payload) ==>
                && Split(payload, bodies, extra, frags, cfg) && SplitSized(bodies, extra, draws, old(used), cfg)
                && stats == SplitStats(old(stats), |frags|, |extra|)
    {
      hide Sized, Size, Pieces, Records, FromBe16;
      bodies, extra := [], [];
      if |payload| < TLS_RECORD_HEADER_LEN {
        frags := FragmentRandom(payload);
        return;
      }
      var contentType := payload[0];
      if contentType != HANDSHAKE && contentType != APP_DATA {
        frags := FragmentRandom(payload);
        return;
      }
      var recordLen := FromBe16(payload[3], payload[4]);
      if |payload| < TLS_RECORD_HEADER_LEN + recordLen {
        frags := FragmentRandom(payload);
        return;
      }
      frags, bodies := SplitRecord(payload);
      var remaining := payload[TLS_RECORD_HEADER_LEN + recordLen..];
      NoPieces(draws, used, cfg.minFragmentLen, cfg.maxFragmentLen);
      if |remaining| > 0 {
        var more := FragmentRandom(remaining);
        EmptyPieces(more, remaining, cfg.minFragmentLen, cfg.maxFragmentLen);
        extra := more;
        frags := frags + more;
      }
      stats := stats.(packetsFragmented := stats.packetsFragmented + 1,
                      fragmentsCreated := stats.fragmentsCreated + |frags|,
                      tlsRecordsSplit := stats.tlsRecordsSplit + 1);
    }

    /** The loop over the record body. */
    method SplitRecord(payload: Bytes) returns (frags: seq<Bytes>, ghost bodies: seq<Bytes>)
      requires Usable(cfg) && HasRecord(payload)
      modifies this`used
      ensures frags == Records(payload[0], payload[1], payload[2], bodies)
      ensures Pieces(bodies, payload[TLS_RECORD_HEADER_LEN..RecordEnd(payload)],
                     1, cfg.maxFragmentLen - TLS_RECORD_HEADER_LEN)
      ensures Sized(bodies, draws, old(used), 1, cfg.maxFragmentLen - TLS_RECORD_HEADER_LEN)
      ensures used == old(used) + |bodies|
    {
      hide Be16, FromBe16, Size, Sized, Whole;
      NoPieces(draws, used, 1, cfg.maxFragmentLen - TLS_RECORD_HEADER_LEN);
      var recordPayload := payload[TLS_RECORD_HEADER_LEN..RecordEnd(payload)];
      var maxPayload := cfg.maxFragmentLen - TLS_RECORD_HEADER_LEN;
      if maxPayload < 1 {
        maxPayload := 1;
      }
      frags, bodies := [], [];
      var offset := 0;
      while offset < |recordPayload|
        invariant 0 <= offset <= |recordPayload| && used == old(used) + |bodies|
        invariant Pieces(bodies, recordPayload[..offset], 1, maxPayload)
        invariant Sized(bodies, draws, old(used), 1, maxPayload)
        invariant offset < |recordPayload| ==> Whole(bodies, draws, old(used), 1, maxPayload)
        invariant frags == Records(payload[0], payload[1], payload[2], bodies)
      {
        var chunkSize := RandomSize(1, maxPayload);
        var end := offset + chunkSize;
        if end > |recordPayload| {
          end := |recordPayload|;
        }
        var chunk := recordPayload[offset..end];
        var record := [payload[0], payload[1], payload[2]] + Be16(|chunk|) + chunk;
        MorePieces(bodies, recordPayload, offset, end, 1, maxPayload);
        OneMoreSized(bodies, draws, old(used), 1, maxPayload, chunk);
        RecordsSnoc(payload[0], payload[1], payload[2], bodies, chunk);
        frags := frags + [record];
        bodies := bodies + [chunk];
        offset := end;
      }
      assert recordPayload[..|recordPayload|] == recordPayload;
    }

    /** Fragment: passes through when disabled, refuses an empty payload, else applies the strategy. */
    method Fragment(payload: Bytes) returns (r: Result<seq<Bytes>, Error>)
      requires Usable(cfg)
      modifies this`used, this`stats
      ensures !cfg.enabled ==> r == Ok([payload]) && stats == old(stats)
      ensures cfg.enabled ==>
                && (r.Err? <==> payload == [])
                && (r.Err? ==> r == Err(ErrEmptyPayload) && stats == old(stats))
                && (r.Ok? ==> Fragmented(cfg, draws, old(used), payload, r.value))
                && (r.Ok? ==> Accounted(cfg, payload, r.value, old(stats), stats))
    {
      if !cfg.enabled {
        return Ok([payload]);
      }
      if |payload| == 0 {
        return Err(ErrEmptyPayload);
      }
      stats := stats.(bytesProcessed := stats.bytesProcessed + |payload|);
      var frags;
      match cfg.strategy {
        case StrategyFixed => frags := FragmentFixed(payload);
        case StrategyRandom => frags := FragmentRandom(payload);
        case StrategyTLSSplit =>
          ghost var bodies, extra;
          frags, bodies, extra := FragmentTLSRecord(payload);
          assert HasRecord(payload) ==>
              Split(payload, bodies, extra, frags, cfg) && SplitSized(bodies, extra, draws, old(used), cfg);
      }
      return Ok(frags);
    }
  }

  lemma OneSize(a: Draw, b: Draw, min: nat, max: nat)
    requires min <= max
    ensures min == max ==> Size(a, min, max) == Size(b, min, max) == min
  {
  }

  /** The draws of a TLS split: one for each record, then one for each plain piece. */
  ghost predicate SplitSized(bodies: seq<Bytes>, extra: seq<Bytes>, draws: nat -> Draw, first: nat, cfg: Config)
    requires Usable(cfg)
  {
    && Sized(bodies, draws, first, 1, cfg.maxFragmentLen - TLS_RECORD_HEADER_LEN)
    && Sized(extra, draws, first + |bodies|, cfg.minFragmentLen, cfg.maxFragmentLen)
  }

  /** The promise of Fragment, strategy by strategy. */
  ghost predicate Fragmented(cfg: Config, draws: nat -> Draw, first: nat, payload: Bytes, frags: seq<Bytes>)
    requires Usable(cfg)
  {
    if cfg.strategy == StrategyFixed then Pieces(frags, payload, cfg.maxFragmentLen, cfg.maxFragmentLen)
    else if cfg.strategy == StrategyTLSSplit && HasRecord(payload) then
      exists bodies, extra :: Split(payload, bodies, extra, frags, cfg) && SplitSized(bodies, extra, draws, first, cfg)
    else
      && Pieces(frags, payload, cfg.minFragmentLen, cfg.maxFragmentLen)
      && Sized(frags, draws, first, cfg.minFragmentLen, cfg.maxFragmentLen)
  }

  /** The counters after Fragment. */
  ghost predicate Accounted(cfg: Config, payload: Bytes, frags: seq<Bytes>, was: Stats, now: Stats)
    requires Usable(cfg)
  {
    var read := was.(bytesProcessed := was.bytesProcessed + |payload|);
    if cfg.strategy == StrategyTLSSplit && HasRecord(payload) then
      exists bodies, extra :: Split(payload, bodies, extra, frags, cfg) && now == SplitStats(read, |frags|, |extra|)
    else now == PlainStats(read, |frags|)
  }

  /** A fixed split makes as few pieces as the size allows. */
  lemma {:induction false} FixedCount(frags: seq<Bytes>, data: Bytes, size: nat)
    requires size > 0 && Pieces(frags, data, size, size)
    ensures data == [] ==> frags == []
    ensures data != [] ==> (|frags| - 1) * size < |data| <= |frags| * size
  {
    if frags != [] {
      var n := |frags| - 1;
      assert Join(frags) == frags[0] + Join(frags[1..]);
      if n > 0 {
        FixedCount(frags[1..], Join(frags[1..]), size);
        assert frags[1] == frags[1..][0];
        assert n * size == (n - 1) * size + size && (n + 1) * size == n * size + size;
      }
    }
  }

  // What a TLS reader sees

  /** One octet of record content with the type and version of the record that carried it. */
  datatype Tagged = Tagged(contentType: Byte, major: Byte, minor: Byte, octet: Byte)

  /** The content of all complete records, and the octets after them. */
  datatype Decoded = Decoded(content: seq<Tagged>, rest: Bytes)

  function Tag(contentType: Byte, major: Byte, minor: Byte, body: Bytes): (ts: seq<Tagged>)
    ensures |ts| == |body|
  {
    seq(|body|, i requires 0 <= i < |body| => Tagged(contentType, major, minor, body[i]))
  }

  function Decode(s: Bytes): Decoded {
    if |s| < TLS_RECORD_HEADER_LEN || |s| < TLS_RECORD_HEADER_LEN + FromBe16(s[3], s[4]) then Decoded([], s)
    else
      var end := TLS_RECORD_HEADER_LEN + FromBe16(s[3], s[4]);
      var d := Decode(s[end..]);
      Decoded(Tag(s[0], s[1], s[2], s[TLS_RECORD_HEADER_LEN..end]) + d.content, d.rest)
  }

  lemma RecordParts(t: Byte, major: Byte, minor: Byte, body: Bytes, tail: Bytes)
    requires |body| < TWO_16
    ensures var s := Record(t, major, minor, body) + tail;
            && s[0] == t && s[1] == major && s[2] == minor && FromBe16(s[3], s[4]) == |body|
            && s[TLS_RECORD_HEADER_LEN..TLS_RECORD_HEADER_LEN + |body|] == body
            && s[TLS_RECORD_HEADER_LEN + |body|..] == tail
  {
    hide Be16, FromBe16;
    var s := Record(t, major, minor, body) + tail;
    Be16RoundTrip(|body|);
    assert s[3] == Be16(|body|)[0] && s[4] == Be16(|body|)[1];
  }

  lemma DecodeRecord(t: Byte, major: Byte, minor: Byte, body: Bytes, tail: Bytes)
    requires |body| < TWO_16
    ensures var d := Decode(tail);
            Decode(Record(t, major, minor, body) + tail) == Decoded(Tag(t, major, minor, body) + d.content, d.rest)
  {
    hide Be16, FromBe16, Record, Tag;
    RecordParts(t, major, minor, body, tail);
  }

  lemma TagAppend(t: Byte, major: Byte, minor: Byte, a: Bytes, b: Bytes)
    ensures Tag(t, major, minor, a + b) == Tag(t, major, minor, a) + Tag(t, major, minor, b)
  {
  }

  lemma {:induction false} DecodeRecords(t: Byte, major: Byte, minor: Byte, bodies: seq<Bytes>, tail: Bytes)
    requires |Join(bodies)| < TWO_16
    ensures var d := Decode(tail);
            Decode(Join(Records(t, major, minor, bodies)) + tail)
            == Decoded(Tag(t, major, minor, Join(bodies)) + d.content, d.rest)
  {
    hide Be16, FromBe16, Decode, Record, Tag, Records, Join;
    var d := Decode(tail);
    if bodies == [] {
      NoRecords(t, major, minor, tail, d.content);
    } else {
      var first, rest := bodies[0], bodies[1..];
      var later := Join(Records(t, major, minor, rest));
      FirstRecord(t, major, minor, bodies, tail);
      DecodeRecord(t, major, minor, first, later + tail);
      DecodeRecords(t, major, minor, rest, tail);
      TagRegroup(t, major, minor, first, Join(rest), d.content);
    }
  }

  lemma NoRecords(t: Byte, major: Byte, minor: Byte, tail: Bytes, content: seq<Tagged>)
    ensures Join([]) == [] && Join(Records(t, major, minor, [])) + tail == tail
    ensures Tag(t, major, minor, []) + content == content
  {
  }

  lemma FirstRecord(t: Byte, major: Byte, minor: Byte, bodies: seq<Bytes>, tail: Bytes)
    requires bodies != []
    ensures Join(Records(t, major, minor, bodies)) + tail ==
            Record(t, major, minor, bodies[0]) + (Join(Records(t, major, minor, bodies[1..])) + tail)
    ensures Join(bodies) == bodies[0] + Join(bodies[1..])
  {
    hide Record;
    assert Records(t, major, minor, bodies)[1..] == Records(t, major, minor, bodies[1..]);
  }

  lemma TagRegroup(t: Byte, major: Byte, minor: Byte, a: Bytes, b: Bytes, content: seq<Tagged>)
    ensures Tag(t, major, minor, a + b) + content == Tag(t, major, minor, a) + (Tag(t, major, minor, b) + content)
  {
    TagAppend(t, major, minor, a, b);
  }

  /** What is split: every complete record of handshake (22) or application data (23), and of no other type,
      whatever stands behind it. */
  lemma SplitRecordsAre(t: Byte, major: Byte, minor: Byte, body: Bytes, tail: Bytes)
    requires |body| < TWO_16
    ensures var s := Record(t, major, minor, body) + tail;
            && (HasRecord(s) <==> t == 22 || t == 23)
            && (HasRecord(s) ==> s[TLS_RECORD_HEADER_LEN..RecordEnd(s)] == body && s[RecordEnd(s)..] == tail)
  {
    hide Record, FromBe16;
    RecordParts(t, major, minor, body, tail);
  }

  /** The split preserves meaning: a reader of TLS records gets the same content, octet by octet with
      type and version, and the same octets after the last complete record, from the fragments as from
      the original payload. */
  lemma SplitPreservesContent(payload: Bytes, bodies: seq<Bytes>, extra: seq<Bytes>, frags: seq<Bytes>, cfg: Config)
    requires Usable(cfg) && HasRecord(payload) && Split(payload, bodies, extra, frags, cfg)
    ensures Decode(Join(frags)) == Decode(payload)
    ensures forall i :: 0 <= i < |frags| ==> 1 <= |frags[i]| <= cfg.maxFragmentLen
  {
    hide Decode, Be16, FromBe16, Join;
    var t, major, minor, end := payload[0], payload[1], payload[2], RecordEnd(payload);
    JoinAppend(Records(t, major, minor, bodies), extra);
    DecodeRecords(t, major, minor, bodies, payload[end..]);
    OneRecord(payload, payload[TLS_RECORD_HEADER_LEN..end]);
    DecodeRecord(t, major, minor, payload[TLS_RECORD_HEADER_LEN..end], payload[end..]);
    assert payload == payload[..end] + payload[end..];
    SizesOfSplit(payload, bodies, extra, frags, cfg);
  }

  lemma SizesOfSplit(payload: Bytes, bodies: seq<Bytes>, extra: seq<Bytes>, frags: seq<Bytes>, cfg: Config)
    requires Usable(cfg) && HasRecord(payload) && Split(payload, bodies, extra, frags, cfg)
    ensures forall i :: 0 <= i < |frags| ==> 1 <= |frags[i]| <= cfg.maxFragmentLen
  {
    hide Be16, FromBe16, Join, Record;
    forall i | 0 <= i < |frags|
      ensures 1 <= |frags[i]| <= cfg.maxFragmentLen
    {
      if i < |bodies| {
        assert frags[i] == Record(payload[0], payload[1], payload[2], bodies[i]);
      } else {
        assert frags[i] == extra[i - |bodies|];
      }
    }
  }

  lemma {:induction false} RecordsLength(t: Byte, major: Byte, minor: Byte, bodies: seq<Bytes>)
    ensures |Join(Records(t, major, minor, bodies))| == TLS_RECORD_HEADER_LEN * |bodies| + |Join(bodies)|
  {
    if bodies != [] {
      RecordsLength(t, major, minor, bodies[1..]);
      assert Records(t, major, minor, bodies)[1..] == Records(t, major, minor, bodies[1..]);
    }
  }

  /** "When concatenated, reproduce the original payload": true of the TLS split exactly when it made
      one record. */
  lemma SplitReproducesIffOneRecord(payload: Bytes, bodies: seq<Bytes>, extra: seq<Bytes>, frags: seq<Bytes>,
                                    cfg: Config)
    requires Usable(cfg) && HasRecord(payload) && Split(payload, bodies, extra, frags, cfg)
    ensures |Join(frags)| == |payload| + TLS_RECORD_HEADER_LEN * (|bodies| - 1)
    ensures Join(frags) == payload <==> |bodies| == 1
  {
    var t, major, minor, end := payload[0], payload[1], payload[2], RecordEnd(payload);
    JoinAppend(Records(t, major, minor, bodies), extra);
    RecordsLength(t, major, minor, bodies);
    if |bodies| == 1 {
      OneRecord(payload, bodies[0]);
      assert Join(bodies) == bodies[0] + Join(bodies[1..]);
      var rs := Records(t, major, minor, bodies);
      assert Join(rs) == rs[0] + Join(rs[1..]);
      assert payload == payload[..end] + payload[end..];
    }
  }

  /** And one record is made exactly when the first draw covers the whole body. */
  lemma OneRecordIffFirstDrawCovers(payload: Bytes, bodies: seq<Bytes>, extra: seq<Bytes>, frags: seq<Bytes>,
                                    cfg: Config, draw: Draw)
    requires Usable(cfg) && HasRecord(payload) && Split(payload, bodies, extra, frags, cfg) && Led(bodies, draw, cfg)
    ensures var n := RecordEnd(payload) - TLS_RECORD_HEADER_LEN;
            |bodies| == 1 <==> 0 < n <= Size(draw, 1, cfg.maxFragmentLen - TLS_RECORD_HEADER_LEN)
    ensures bodies == [] <==> RecordEnd(payload) == TLS_RECORD_HEADER_LEN
  {
    hide FromBe16, Be16, Records, Size;
    if bodies != [] {
      assert Join(bodies) == bodies[0] + Join(bodies[1..]);
      if |bodies| > 1 {
        assert Join(bodies[1..]) == bodies[1] + Join(bodies[1..][1..]);
      }
    }
  }

  lemma OneRecord(payload: Bytes, body: Bytes)
    requires HasRecord(payload) && body == payload[TLS_RECORD_HEADER_LEN..RecordEnd(payload)]
    ensures Record(payload[0], payload[1], payload[2], body) == payload[..RecordEnd(payload)]
  {
    var n, end := FromBe16(payload[3], payload[4]), RecordEnd(payload);
    FromBe16RoundTrip(payload[3], payload[4]);
    hide Be16, FromBe16;
    assert |body| == n;
    assert payload[..end] == payload[..TLS_RECORD_HEADER_LEN] + payload[TLS_RECORD_HEADER_LEN..end];
    assert payload[..TLS_RECORD_HEADER_LEN] == [payload[0], payload[1], payload[2]] + Be16(n);
  }

  /** What the counters say after a call: every octet and, in a TLS split, one record. Fragments and packets are
      counted rightly if and only if no split record has anything behind it; else the fragments behind it are
      counted again, and as a second packet. */
  lemma CountedOnceIff(cfg: Config, payload: Bytes, frags: seq<Bytes>, was: Stats, now: Stats)
    requires Usable(cfg) && Accounted(cfg, payload, frags, was, now)
    ensures var splits := cfg.strategy == StrategyTLSSplit && HasRecord(payload);
            var trailing := splits && RecordEnd(payload) < |payload|;
            && now.bytesProcessed == was.bytesProcessed + |payload|
            && now.tlsRecordsSplit == was.tlsRecordsSplit + (if splits then 1 else 0)
            && now.packetsFragmented == was.packetsFragmented + (if trailing then 2 else 1)
            && was.fragmentsCreated + |frags| <= now.fragmentsCreated <= was.fragmentsCreated + 2 * |frags|
            && (now.fragmentsCreated == was.fragmentsCreated + |frags| <==> !trailing)
  {
    hide Pieces, Be16, FromBe16;
    if cfg.strategy == StrategyTLSSplit && HasRecord(payload) {
      var read := was.(bytesProcessed := was.bytesProcessed + |payload|);
      var bodies, extra :| Split(payload, bodies, extra, frags, cfg) && now == SplitStats(read, |frags|, |extra|);
      EmptyPieces(extra, payload[RecordEnd(payload)..], cfg.minFragmentLen, cfg.maxFragmentLen);
    }
  }

  lemma EmptyPieces(frags: seq<Bytes>, data: Bytes, min: nat, max: nat)
    requires Pieces(frags, data, min, max)
    ensures frags == [] <==> data == []
  {
    if frags != [] {
      assert Join(frags) == frags[0] + Join(frags[1..]);
    }
  }

  /** One record of one octet and one octet after it: two fragments, counted as three. */
  lemma TrailingCountedTwice()
    ensures var cfg := Config(StrategyTLSSplit, 64, 64, true);
            var payload, frags := [0x17, 3, 3, 0, 1, 8, 9], [[0x17, 3, 3, 0, 1, 8], [9]];
            Split(payload, [[8]], [[9]], frags, cfg) && SplitStats(Stats(0, 0, 0, 0), |frags|, 1).fragmentsCreated == 3
  {
    var payload := [0x17, 3, 3, 0, 1, 8, 9];
    assert RecordEnd(payload) == 6 && payload[5..6] == [8] && payload[6..] == [9];
    assert [[8]][1..] == [] && Join([[8]]) == [8] && [[9]][1..] == [] && Join([[9]]) == [9];
    assert Be16(1) == [0, 1];
    var rs := Records(0x17, 3, 3, [[8]]);
    assert rs[0] == [0x17, 3, 3, 0, 1, 8];
    assert rs + [[9]] == [rs[0], [9]];
  }

  /** Two counterexamples: a body split in two grows by a header. */
  lemma SplitAddsHeader()
    ensures var cfg := Config(StrategyTLSSplit, 64, 64, true);
            var payload, frags := [0x17, 3, 3, 0, 2, 8, 9], [[0x17, 3, 3, 0, 1, 8], [0x17, 3, 3, 0, 1, 9]];
            Split(payload, [[8], [9]], [], frags, cfg) && Join(frags) != payload
  {
    var cfg, payload, bodies := Config(StrategyTLSSplit, 64, 64, true), [0x17, 3, 3, 0, 2, 8, 9], [[8], [9]];
    assert RecordEnd(payload) == 7 && payload[5..7] == [8, 9] && payload[7..] == [];
    assert bodies[1..] == [[9]] && [[9]][1..] == [] && Join([[9]]) == [9] && Join(bodies) == [8] + [9];
    assert Be16(1) == [0, 1];
    var rs := Records(0x17, 3, 3, bodies);
    assert rs[0] == [0x17, 3, 3, 0, 1, 8] && rs[1] == [0x17, 3, 3, 0, 1, 9];
    assert rs + [] == [rs[0], rs[1]];
    assert Split(payload, bodies, [], [rs[0], rs[1]], cfg);
    hide Split, Records, Join, FromBe16;
    SplitReproducesIffOneRecord(payload, bodies, [], [rs[0], rs[1]], cfg);
  }

  /** And an empty record disappears. */
  lemma SplitDropsEmptyRecord()
    ensures var cfg, payload := Config(StrategyTLSSplit, 64, 64, true), [0x17, 3, 3, 0, 0, 8];
            Split(payload, [], [[8]], [[8]], cfg) && Join([[8]]) != payload
  {
    var cfg, payload := Config(StrategyTLSSplit, 64, 64, true), [0x17, 3, 3, 0, 0, 8];
    assert RecordEnd(payload) == 5 && payload[5..5] == [] && payload[5..] == [8];
    assert [[8]][1..] == [] && Join([[8]]) == [8];
    assert Records(0x17, 3, 3, []) + [[8]] == [[8]];
    hide Records;
    SplitReproducesIffOneRecord(payload, [], [[8]], [[8]], cfg);
  }
}
