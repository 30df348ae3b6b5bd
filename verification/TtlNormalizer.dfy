/** The TTL normaliser (privacy/ttl.go): rewrites the TTL or hop limit of a packet in place and, for
    IPv4, recomputes the header checksum (section 3.1 of RFC 791). */
module TtlNormalizer {
  import opened Bytes
  import opened Checksum

  const DEFAULT_TARGET_TTL: Byte := 64

  datatype Error = ErrPacketTooShort | ErrNotIPPacket

  /** `seen` counts original TTL values. */
  datatype Stats = Stats(processed: nat, modified: nat, ipv4: nat, ipv6: nat, seen: map<Byte, nat>)

  function Counted(seen: map<Byte, nat>, ttl: Byte): map<Byte, nat> {
    seen[ttl := if ttl in seen then seen[ttl] + 1 else 1]
  }

  /** Packet and statistics after a call, and its two results. */
  datatype Outcome = Outcome(packet: Bytes, stats: Stats, ttl: Byte, err: Option<Error>)

  function HeaderLen(packet: Bytes): nat
    requires |packet| > 0
  {
    packet[0] as nat % 16 * 4
  }

  /** The value of a correct checksum field for a header. */
  function HeaderChecksum(header: Bytes): (c: nat)
    requires |header| >= 12
    ensures c <= 0xFFFF
  {
    Complement(WordSum(header[..10] + [0, 0] + header[12..]))
  }

  function WithChecksum(packet: Bytes, n: nat): (s: Bytes)
    requires 12 <= n <= |packet|
    ensures |s| == |packet|
  {
    packet[..10] + Be16(HeaderChecksum(packet[..n])) + packet[12..]
  }

  function Normalize(packet: Bytes, target: Byte, stats: Stats): Outcome {
    var s := stats.(processed := stats.processed + 1);
    if |packet| < 1 then Outcome(packet, s, 0, Some(ErrPacketTooShort))
    else match packet[0] as nat / 16
         case 4 => NormalizeV4(packet, target, s)
         case 6 => NormalizeV6(packet, target, s)
         case _ => Outcome(packet, s, 0, Some(ErrNotIPPacket))
  }

  function NormalizeV4(packet: Bytes, target: Byte, stats: Stats): Outcome
    requires |packet| > 0
  {
    if |packet| < 20 then Outcome(packet, stats, 0, Some(ErrPacketTooShort))
    else
      var s := stats.(ipv4 := stats.ipv4 + 1);
      var ihl := HeaderLen(packet);
      if ihl < 20 || |packet| < ihl then Outcome(packet, s, 0, Some(ErrPacketTooShort))
      else
        var ttl := packet[8];
        var s' := s.(seen := Counted(s.seen, ttl));
        if ttl == target then Outcome(packet, s', ttl, None)
        else Outcome(WithChecksum(packet[8 := target], ihl), s'.(modified := s'.modified + 1), ttl, None)
  }

  function NormalizeV6(packet: Bytes, target: Byte, stats: Stats): Outcome
    requires |packet| > 0
  {
    if |packet| < 40 then Outcome(packet, stats, 0, Some(ErrPacketTooShort))
    else
      var limit := packet[7];
      var s := stats.(ipv6 := stats.ipv6 + 1, seen := Counted(stats.seen, limit));
      if limit == target then Outcome(packet, s, limit, None)
      else Outcome(packet[7 := target], s.(modified := s.modified + 1), limit, None)
  }

  class TTLNormalizer {
    var enabled: bool
    const targetTTL: Byte
    var stats: Stats

    /** A target of zero means the default. */
    constructor (targetTTL: Byte, enabled: bool)
      ensures this.targetTTL == (if targetTTL == 0 then DEFAULT_TARGET_TTL else targetTTL)
      ensures this.enabled == enabled && stats == Stats(0, 0, 0, 0, map[])
    {
      this.targetTTL := if targetTTL == 0 then DEFAULT_TARGET_TTL else targetTTL;
      this.enabled := enabled;
      stats := Stats(0, 0, 0, 0, map[]);
    }

    method NormalizePacket(packet: array<Byte>) returns (ttl: Byte, err: Option<Error>)
      modifies packet, this`stats
      ensures !enabled ==> ttl == 0 && err == None && packet[..] == old(packet[..]) && stats == old(stats)
      ensures enabled ==> Outcome(packet[..], stats, ttl, err) == Normalize(old(packet[..]), targetTTL, old(stats))
    {
      if !enabled {
        return 0, None;
      }
      stats := stats.(processed := stats.processed + 1);
      if packet.Length < 1 {
        return 0, Some(ErrPacketTooShort);
      }
      assert packet[..][0] == packet[0];
      var version := packet[0] as nat / 16;
      if version == 4 {
        ttl, err := NormalizeIPv4(packet);
      } else if version == 6 {
        ttl, err := NormalizeIPv6(packet);
      } else {
        return 0, Some(ErrNotIPPacket);
      }
    }

    method NormalizeIPv4(packet: array<Byte>) returns (ttl: Byte, err: Option<Error>)
      requires packet.Length > 0
      modifies packet, this`stats
      ensures Outcome(packet[..], stats, ttl, err) == NormalizeV4(old(packet[..]), targetTTL, old(stats))
    {
      if packet.Length < 20 {
        return 0, Some(ErrPacketTooShort);
      }
      stats := stats.(ipv4 := stats.ipv4 + 1);
      assert packet[..][0] == packet[0] && packet[..][8] == packet[8];
      var ihl := packet[0] as nat % 16 * 4;
      if ihl < 20 || packet.Length < ihl {
        return 0, Some(ErrPacketTooShort);
      }
      ttl := packet[8];
      stats := stats.(seen := Counted(stats.seen, ttl));
      if ttl == targetTTL {
        return ttl, None;
      }
      packet[8] := targetTTL;
      stats := stats.(modified := stats.modified + 1);
      ghost var rewritten := packet[..];
      assert rewritten == old(packet[..])[8 := targetTTL];
      RecalcIPv4Checksum(packet, ihl);
      return ttl, None;
    }

    method NormalizeIPv6(packet: array<Byte>) returns (limit: Byte, err: Option<Error>)
      requires packet.Length > 0
      modifies packet, this`stats
      ensures Outcome(packet[..], stats, limit, err) == NormalizeV6(old(packet[..]), targetTTL, old(stats))
    {
      if packet.Length < 40 {
        return 0, Some(ErrPacketTooShort);
      }
      stats := stats.(ipv6 := stats.ipv6 + 1);
      assert packet[..][7] == packet[7];
      limit := packet[7];
      stats := stats.(seen := Counted(stats.seen, limit));
      if limit == targetTTL {
        return limit, None;
      }
      packet[7] := targetTTL;
      stats := stats.(modified := stats.modified + 1);
      return limit, None;
    }
  }

  /** Zeroes the field, sums words, folds in a loop, stores the complement. `n` is the header length;
      the accumulator is a uint32 and sixty octets cannot overflow it. */
  method RecalcIPv4Checksum(packet: array<Byte>, n: nat)
    requires 12 <= n <= 60 && n <= packet.Length
    modifies packet
    ensures packet[..] == WithChecksum(old(packet[..]), n)
  {
    hide WordSum, Fold, Be16;
    ghost var before := packet[..];
    packet[10] := 0;
    packet[11] := 0;
    ghost var header := before[..10] + [0, 0] + before[..n][12..];
    assert packet[..n] == header;
    var sum := HeaderSum(packet, n, header);
    ghost var total, zeroed := sum, packet[..];
    while sum > 0xFFFF
      invariant packet[..] == zeroed
      invariant 0 <= sum < TWO_32 && Fold(sum) == Fold(total)
      decreases sum
    {
      FoldOnce(sum);
      sum := sum / TWO_16 + sum % TWO_16;
    }
    FoldDone(sum);
    assert packet[..] == zeroed == before[10 := 0][11 := 0];
    var checksum := Be16(0xFFFF - sum);
    packet[10] := checksum[0];
    packet[11] := checksum[1];
    assert before[..n][..10] == before[..10];
    assert packet[..] == before[..10] + checksum + before[12..];
  }

  method HeaderSum(packet: array<Byte>, n: nat, ghost header: Bytes) returns (sum: nat)
    requires 12 <= n <= 60 && n <= packet.Length && packet[..n] == header
    ensures sum == WordSum(header) < TWO_32
  {
    sum := 0;
    var i := 0;
    while i < n - 1
      invariant 0 <= i <= n && i % 2 == 0
      invariant sum == WordSum(header[..i])
    {
      WordSumNext(header, i);
      assert packet[i] == header[i] && packet[i + 1] == header[i + 1];
      sum := sum + FromBe16(packet[i], packet[i + 1]);
      i := i + 2;
    }
    if n % 2 != 0 {
      WordSumLast(header, n - 1);
      assert packet[n - 1] == header[n - 1];
      sum := sum + FromBe16(packet[n - 1], 0);
    }
    assert header[..n] == header;
    WordSumBound(header);
  }

  // What a call achieves

  /** A packet that is rewritten and not just inspected. */
  predicate Rewritten(packet: Bytes, target: Byte) {
    |packet| >= 20 && packet[0] as nat / 16 == 4 && 20 <= HeaderLen(packet) <= |packet| && packet[8] != target
  }

  /** After a rewrite the header of 20 to 60 octets verifies, the TTL is the target and only octets 8,
      10 and 11 may differ. */
  lemma RewriteIsValid(packet: Bytes, target: Byte, stats: Stats)
    requires Rewritten(packet, target)
    ensures var out := Normalize(packet, target, stats);
            && out.err == None && out.ttl == packet[8] && |out.packet| == |packet|
            && out.packet[8] == target
            && Verifies(out.packet[..HeaderLen(packet)])
            && forall i :: 0 <= i < |packet| && i != 8 && i != 10 && i != 11 ==> out.packet[i] == packet[i]
  {
    hide WordSum, Fold, Be16;
    var out, ihl := Normalize(packet, target, stats).packet, HeaderLen(packet);
    var p := packet[8 := target];
    var header := p[..ihl];
    StoredComplementVerifies(header[..10], header[12..]);
    assert header[..10] == p[..10] && header[12..] == p[12..ihl];
    assert out[..ihl] == header[..10] + Be16(HeaderChecksum(header)) + header[12..];
  }

  /** Where the TTL or hop limit stands, in a packet that has one. */
  function Place(packet: Bytes): Option<nat> {
    if |packet| >= 20 && packet[0] as nat / 16 == 4 && 20 <= HeaderLen(packet) <= |packet| then Some(8)
    else if |packet| >= 40 && packet[0] as nat / 16 == 6 then Some(7)
    else None
  }

  /** What a call does to any packet of either version: it ends without an error exactly when there is a TTL,
      returns the one it found, leaves the target there, and touches no other octet, save an IPv4 header's
      checksum; with an error it touches nothing. */
  lemma OnlyTtlChanges(packet: Bytes, target: Byte, stats: Stats)
    ensures var out, at := Normalize(packet, target, stats), Place(packet);
            && |out.packet| == |packet| && (out.err == None <==> at.Some?)
            && (at.Some? ==> out.ttl == packet[at.value] && out.packet[at.value] == target)
            && (at.None? ==> out.packet == packet && out.ttl == 0)
            && (out.err == Some(ErrNotIPPacket) <==> |packet| > 0 && packet[0] as nat / 16 !in [4, 6])
            && forall i :: 0 <= i < |packet| && out.packet[i] != packet[i] ==>
                 at == Some(i) || (at == Some(8) && (i == 10 || i == 11))
  {
    hide WordSum, Fold, Be16, Verifies;
    if Rewritten(packet, target) {
      RewriteIsValid(packet, target, stats);
    }
  }

  /** What it does to the counters: the packet is processed, it is modified exactly when its octets changed, and
      exactly one more TTL is counted, the one returned, unless there was an error. */
  lemma CountersFollowPacket(packet: Bytes, target: Byte, stats: Stats)
    ensures var out := Normalize(packet, target, stats);
            && out.stats.processed == stats.processed + 1
            && out.stats.modified == stats.modified + (if out.packet != packet then 1 else 0)
            && out.stats.ipv4 == stats.ipv4 + (if |packet| >= 20 && packet[0] / 16 == 4 then 1 else 0)
            && out.stats.ipv6 == stats.ipv6 + (if |packet| >= 40 && packet[0] / 16 == 6 then 1 else 0)
            && (out.err != None ==> out.stats.seen == stats.seen)
            && (out.err == None ==>
                  && out.stats.seen.Keys == stats.seen.Keys + {out.ttl}
                  && forall b :: b in out.stats.seen ==>
                       out.stats.seen[b] ==
                       (if b in stats.seen then stats.seen[b] else 0) + if b == out.ttl then 1 else 0)
  {
    hide WordSum, Fold, Be16, Verifies, WithChecksum;
    OnlyTtlChanges(packet, target, stats);
  }

  /** Whether the header verifies afterwards, for every well-formed IPv4 packet: it does, unless the TTL
      was the target already and the checksum was wrong already. */
  lemma VerifiesAfterIff(packet: Bytes, target: Byte, stats: Stats)
    requires |packet| >= 20 && packet[0] as nat / 16 == 4 && 20 <= HeaderLen(packet) <= |packet|
    ensures Verifies(Normalize(packet, target, stats).packet[..HeaderLen(packet)]) <==>
            packet[8] != target || Verifies(packet[..HeaderLen(packet)])
  {
    hide Verifies, WordSum;
    if packet[8] != target {
      RewriteIsValid(packet, target, stats);
    }
  }

  /** Normalising twice is normalising once: the second call, whatever the packet, changes no octet and
      gives the target as the original TTL. */
  lemma SecondCallChangesNothing(packet: Bytes, target: Byte, stats: Stats)
    ensures var once := Normalize(packet, target, stats);
            var twice := Normalize(once.packet, target, once.stats);
            && twice.packet == once.packet && twice.err == once.err
            && (once.err == None ==> twice.ttl == target && twice.stats.modified == once.stats.modified)
  {
    hide WordSum, Fold, Be16, Verifies;
    if Rewritten(packet, target) {
      RewriteIsValid(packet, target, stats);
      assert Normalize(packet, target, stats).packet[0] == packet[0];
    }
  }

  /** The counters account for each other: a modified packet had its TTL counted, a packet whose TTL was
      counted was of one of the two versions, and those were processed. */
  ghost predicate Consistent(s: Stats) {
    s.modified <= Total(s.seen, 0x100) <= s.ipv4 + s.ipv6 <= s.processed
  }

  function Total(seen: map<Byte, nat>, below: nat): nat
    requires below <= 0x100
  {
    if below == 0 then 0
    else Total(seen, below - 1) + (if (below - 1) as Byte in seen then seen[(below - 1) as Byte] else 0)
  }

  lemma {:induction false} TotalCounted(seen: map<Byte, nat>, ttl: Byte, below: nat)
    requires below <= 0x100
    ensures Total(Counted(seen, ttl), below) == Total(seen, below) + (if ttl as nat < below then 1 else 0)
  {
    if below > 0 {
      TotalCounted(seen, ttl, below - 1);
    }
  }

  lemma CountersAgree(packet: Bytes, target: Byte, stats: Stats)
    requires Consistent(stats)
    ensures Consistent(Normalize(packet, target, stats).stats)
  {
    hide WithChecksum;
    if |packet| >= 20 {
      TotalCounted(stats.seen, packet[8], 0x100);
      TotalCounted(stats.seen, packet[7], 0x100);
    }
  }
}
