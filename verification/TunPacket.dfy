/** IPv4/TCP packets on the TUN device: Tun2Socks.sendTcpPacket and handlePacket (Kotlin) and the
    checksum routines of PacketTunnelProvider (Swift). */
module TunPacket {
  import opened Bytes
  import opened Checksum
  import opened ByteBuffer

  /** The fields of one TCP segment between the client and the server it believes it talks to. */
  datatype Tcp = Tcp(srcIp: Int32, srcPort: int, dstIp: Int32, dstPort: int,
                     seqNum: Int32, ackNum: Int32, flags: nat, payload: Bytes)

  // Wire format (section 3.1 of RFC 791, section 3.1 of RFC 9293)

  function IpHeaderStart(totalLen: nat): (s: Bytes)
    ensures |s| == 10
  {
    [0x45, 0] + Be16(totalLen) + [0, 0] + Be16(0x4000) + [64, 6]
  }

  function Addresses(srcIp: Int32, dstIp: Int32): (s: Bytes)
    ensures |s| == 8
  {
    Be32(srcIp) + Be32(dstIp)
  }

  function IpHeader(t: Tcp, checksum: nat): (s: Bytes)
    ensures |s| == 20
  {
    IpHeaderStart(40 + |t.payload|) + Be16(checksum) + Addresses(t.srcIp, t.dstIp)
  }

  /** (5 shl 12) or flags: sets bits 12 and 14. */
  function WithDataOffset(flags: nat): (n: nat)
    ensures flags < 0x1000 ==> n == 0x5000 + flags
  {
    flags + (if flags / 0x1000 % 2 == 0 then 0x1000 else 0) + (if flags / 0x4000 % 2 == 0 then 0x4000 else 0)
  }

  function TcpHeaderStart(t: Tcp): (s: Bytes)
    ensures |s| == 16
  {
    Be16(t.srcPort) + Be16(t.dstPort) + Be32(t.seqNum) + Be32(t.ackNum) + Be16(WithDataOffset(t.flags)) + Be16(65535)
  }

  function TcpSegment(t: Tcp, checksum: nat): (s: Bytes)
    ensures |s| == 20 + |t.payload|
  {
    TcpHeaderStart(t) + Be16(checksum) + ([0, 0] + t.payload)
  }

  /** The pseudo header covered by the TCP checksum. */
  function PseudoHeader(srcIp: Int32, dstIp: Int32, tcpLen: nat): (s: Bytes)
    ensures |s| == 12
  {
    Addresses(srcIp, dstIp) + [0, 6] + Be16(tcpLen)
  }

  function IpChecksum(t: Tcp): (c: nat)
    ensures c <= 0xFFFF
  {
    Complement(WordSum(IpHeader(t, 0)))
  }

  function TcpChecksum(t: Tcp): (c: nat)
    ensures c <= 0xFFFF
  {
    Complement(WordSum(PseudoHeader(t.srcIp, t.dstIp, 20 + |t.payload|) + TcpSegment(t, 0)))
  }

  /** The packet a correct sender emits, with both checksums by the reference fold. */
  function Packet(t: Tcp): (s: Bytes)
    ensures |s| == 40 + |t.payload|
  {
    IpHeader(t, IpChecksum(t)) + TcpSegment(t, TcpChecksum(t))
  }

  /** A receiver's view of the packet: both one's-complement sums are all ones. */
  lemma PacketVerifies(t: Tcp)
    ensures Verifies(Packet(t)[..20])
    ensures Verifies(PseudoHeader(t.srcIp, t.dstIp, 20 + |t.payload|) + Packet(t)[20..])
  {
    hide Be16, Be32;
    BlankField();
    assert Packet(t)[..20] == IpHeader(t, IpChecksum(t));
    StoredComplementVerifies(IpHeaderStart(40 + |t.payload|), Addresses(t.srcIp, t.dstIp));
    var pseudo := PseudoHeader(t.srcIp, t.dstIp, 20 + |t.payload|);
    assert Packet(t)[20..] == TcpSegment(t, TcpChecksum(t));
    forall c: nat
      ensures pseudo + TcpSegment(t, c) == (pseudo + TcpHeaderStart(t)) + Be16(c) + ([0, 0] + t.payload)
    {
    }
    StoredComplementVerifies(pseudo + TcpHeaderStart(t), [0, 0] + t.payload);
  }

  // A receiver

  /** What a receiver checks: the header checksum, and the TCP checksum under the pseudo header that the IP
      header's own address, protocol and length fields make up. */
  predicate Accepts(s: Bytes) {
    && |s| >= 20 && s[0] / 16 == 4
    && var ihl, total := s[0] as nat % 16 * 4, FromBe16(s[2], s[3]);
       && 20 <= ihl && ihl + 20 <= total <= |s|
       && Verifies(s[..ihl]) && Verifies(s[12..20] + [0, s[9]] + Be16(total - ihl) + s[ihl..total])
  }

  /** What it takes for data: from the TCP header's end to the total length. */
  function DataOf(s: Bytes): Bytes
    requires Accepts(s)
  {
    var ihl, total := s[0] as nat % 16 * 4, FromBe16(s[2], s[3]);
    var from := ihl + s[ihl + 12] as nat / 16 * 4;
    if from <= total then s[from..total] else []
  }

  /** A receiver accepts the packet and gets the payload, if and only if the total length fits its field. */
  lemma PacketIsReceivedIff(t: Tcp)
    requires t.flags < 0x1000
    ensures Accepts(Packet(t)) && DataOf(Packet(t)) == t.payload <==> |t.payload| <= 65495
  {
    hide Be16, Be32, Verifies, Packet, FromBe16;
    PacketVerifies(t);
    FixedFields(t, Packet(t));
    var s := Packet(t);
    assert s[0] / 16 == 4 && s[0] as nat % 16 * 4 == 20;
    if |t.payload| <= 65495 {
      assert s[20..|s|] == s[20..];
      assert s[12..20] + [0, s[9]] + Be16(|s| - 20) == PseudoHeader(t.srcIp, t.dstIp, 20 + |t.payload|);
    }
  }

  /** The fields that are the same in every packet, and the total length, of which the low sixteen bits are
      stored. */
  lemma FixedFields(t: Tcp, s: Bytes)
    requires s == SentPacket(t) || s == Packet(t)
    ensures |s| == 40 + |t.payload|
    ensures s[0] == 0x45 && s[1] == 0 && FromBe16(s[2], s[3]) == |s| % TWO_16
    ensures s[4..8] == [0, 0, 0x40, 0] && s[8] == 64 && s[9] == 6 && s[12..20] == Addresses(t.srcIp, t.dstIp)
    ensures t.flags < 0x1000 ==> s[32] / 16 == 5
    ensures s[34..36] == [0xFF, 0xFF] && s[38..40] == [0, 0] && s[40..] == t.payload
  {
    hide Be16, Be32, IpHeader, TcpSegment, SentChecksum, TcpChecksum, IpChecksum, Addresses;
    assert s[..20] == IpHeader(t, IpChecksum(t));
    IpFixed(t, s, IpChecksum(t));
    var c := if s == SentPacket(t) then SentChecksum(t) else TcpChecksum(t);
    assert s[20..] == TcpSegment(t, c);
    TcpFixed(t, s[20..], c);
    assert s[34..36] == s[20..][14..16] && s[38..40] == s[20..][18..20] && s[40..] == s[20..][20..];
  }

  lemma IpFixed(t: Tcp, s: Bytes, c: nat)
    requires |s| == 40 + |t.payload| && s[..20] == IpHeader(t, c)
    ensures s[0] == 0x45 && s[1] == 0 && FromBe16(s[2], s[3]) == |s| % TWO_16
    ensures s[4..8] == [0, 0, 0x40, 0] && s[8] == 64 && s[9] == 6 && s[12..20] == Addresses(t.srcIp, t.dstIp)
  {
    hide Be32, FromBe16, IpHeader, Addresses;
    var ip := s[..20];
    IpLayout(t, c);
    assert Be16(0x4000) == [0x40, 0];
    hide Be16;
    assert s[4..8] == ip[4..6] + ip[6..8] && s[12..20] == ip[12..20];
    assert s[2..4] == ip[2..4];
    ShortAt(s, 2, |s|);
  }

  lemma TcpFixed(t: Tcp, segment: Bytes, c: nat)
    requires segment == TcpSegment(t, c)
    ensures t.flags < 0x1000 ==> segment[12] / 16 == 5
    ensures segment[14..16] == [0xFF, 0xFF] && segment[18..20] == [0, 0] && segment[20..] == t.payload
  {
    hide Be32, TcpSegment;
    TcpLayout(t, c);
    assert segment[12] == segment[12..14][0];
  }

  // Kotlin: sendTcpPacket

  /** The sum of the pseudo header as the code adds it: four address words, the protocol, the length. */
  lemma PseudoHeaderSum(srcIp: Int32, dstIp: Int32, tcpLen: nat)
    requires tcpLen < TWO_16
    ensures WordSum(PseudoHeader(srcIp, dstIp, tcpLen)) == AddressSum(srcIp, dstIp) + 6 + tcpLen
  {
    hide Be16, Be32, AddressSum;
    WordSumAround(Addresses(srcIp, dstIp), [0, 6], Be16(tcpLen));
    AddressWords(srcIp, dstIp);
    WordSumBe16(tcpLen);
    assert WordSum([0, 6]) == FromBe16(0, 6) + WordSum([0, 6][2..]);
  }

  lemma AddressWords(srcIp: Int32, dstIp: Int32)
    ensures WordSum(Addresses(srcIp, dstIp)) == AddressSum(srcIp, dstIp)
  {
    WordSumAppend(Be32(srcIp), Be32(dstIp));
    WordSumBe32(srcIp);
    WordSumBe32(dstIp);
  }

  /** The address words as the code adds them. */
  function AddressSum(srcIp: Int32, dstIp: Int32): (n: nat) {
    U32(srcIp) / TWO_16 + U32(srcIp) % TWO_16 + U32(dstIp) / TWO_16 + U32(dstIp) % TWO_16
  }

  /** What the code adds up for the TCP checksum, over unbounded integers. */
  function TcpTotal(t: Tcp): nat {
    AddressSum(t.srcIp, t.dstIp) + 6 + (20 + |t.payload|) + WordSum(TcpSegment(t, 0))
  }

  /** What it stores: the accumulator is a signed 32-bit integer. */
  function SentChecksum(t: Tcp): nat {
    TwoStepComplement(Wrap32(TcpTotal(t)))
  }

  function SentPacket(t: Tcp): (s: Bytes)
    ensures |s| == 40 + |t.payload|
  {
    IpHeader(t, IpChecksum(t)) + TcpSegment(t, SentChecksum(t))
  }

  /** Builds the packet in a buffer, sums it in loops and folds in two steps. */
  method SendTcpPacket(t: Tcp) returns (packet: array<Byte>)
    ensures fresh(packet) && packet[..] == SentPacket(t)
  {
    hide Be16, IpHeader, IpChecksum, TcpSegment, TwoStepComplement, TcpTotal;
    var totalLen := 20 + 20 + |t.payload|;
    var buf := new Buffer.Allocate(totalLen);
    BuildIpHeader(buf, t, totalLen);
    ghost var ip := IpHeader(t, IpChecksum(t));
    BuildSegment(buf, t, ip);
    var tcpChecksum := TcpSum(buf, t, ip);
    ghost var before := buf.Written();
    buf.PutShortAt(36, TwoStepComplement(tcpChecksum));
    ChecksumInPlace(t, ip, before, SentChecksum(t));
    packet := buf.data;
    assert packet[..] == buf.Written();
  }

  /** For every payload whose TCP length fits its sixteen bits, the packet is the correct one if and only if
      the sum stays below the accumulator's sign bit. */
  lemma SentIsCorrectIff(t: Tcp)
    requires 20 + |t.payload| < TWO_16
    ensures SentPacket(t) == Packet(t) <==> TcpTotal(t) < 0x8000_0000
  {
    TotalIsWordSum(t);
    hide TcpTotal, TwoStepComplement, Wrap32, Complement, WordSum, TcpHeaderStart, IpHeader;
    SignedAccumulatorIff(TcpTotal(t));
    var ip, a, b := IpHeader(t, IpChecksum(t)), TcpSegment(t, SentChecksum(t)), TcpSegment(t, TcpChecksum(t));
    if ip + a == ip + b {
      assert (ip + a)[20..] == a && (ip + b)[20..] == b;
      ChecksumReadBack(t, SentChecksum(t));
      ChecksumReadBack(t, TcpChecksum(t));
    }
  }

  lemma ChecksumReadBack(t: Tcp, c: nat)
    requires c < TWO_16
    ensures var s := TcpSegment(t, c); FromBe16(s[16], s[17]) == c
  {
    hide Be16, FromBe16, TcpHeaderStart;
    Be16RoundTrip(c);
    var s, b := TcpSegment(t, c), Be16(c);
    assert s[16] == b[0] && s[17] == b[1];
  }

  lemma TotalIsWordSum(t: Tcp)
    requires 20 + |t.payload| < TWO_16
    ensures TcpTotal(t) == WordSum(PseudoHeader(t.srcIp, t.dstIp, 20 + |t.payload|) + TcpSegment(t, 0)) < TWO_32
  {
    hide AddressSum;
    var pseudo, segment := PseudoHeader(t.srcIp, t.dstIp, 20 + |t.payload|), TcpSegment(t, 0);
    PseudoHeaderSum(t.srcIp, t.dstIp, 20 + |t.payload|);
    WordSumAppend(pseudo, segment);
    WordSumBound(pseudo + segment);
  }

  /** So it is for every payload of up to 65504 octets, whatever they are. */
  lemma SentIsCorrect(t: Tcp)
    requires |t.payload| <= 65504
    ensures SentPacket(t) == Packet(t)
  {
    hide TcpTotal, SentPacket, Packet, WordSum;
    TotalIsWordSum(t);
    WordSumBound(PseudoHeader(t.srcIp, t.dstIp, 20 + |t.payload|) + TcpSegment(t, 0));
    SentIsCorrectIff(t);
  }

  /** The IP header with its checksum, summed and folded in place. */
  method BuildIpHeader(buf: Buffer, t: Tcp, totalLen: nat)
    requires totalLen == 40 + |t.payload|
    requires buf.Valid() && buf.position == 0 && buf.data.Length == totalLen
    modifies buf, buf.data
    ensures buf.Valid() && buf.Written() == IpHeader(t, IpChecksum(t)) && buf.position == 20
  {
    hide Be16, IpHeaderStart, Addresses, WordSum, TwoStepComplement, Complement;
    PutIpHeader(buf, t, totalLen);
    var ipChecksum := IpSum(buf, t);
    WordSumBound(IpHeader(t, 0));
    TwoStepsSuffice(ipChecksum);
    buf.PutShortAt(10, TwoStepComplement(ipChecksum));
  }

  /** The TCP header with a zero checksum, and the payload. */
  method BuildSegment(buf: Buffer, t: Tcp, ghost ip: Bytes)
    requires buf.Valid() && buf.Written() == ip && |ip| == 20 && buf.data.Length == 40 + |t.payload|
    modifies buf, buf.data
    ensures buf.Valid() && buf.Written() == ip + TcpSegment(t, 0) && buf.position == buf.data.Length
  {
    hide Be16, TcpHeaderStart;
    PutTcpHeader(buf, t, ip);
    buf.PutAll(t.payload);
    ghost var start := TcpHeaderStart(t);
    assert ip + (start + Be16(0) + [0, 0]) + t.payload == ip + (start + Be16(0) + ([0, 0] + t.payload));
  }

  lemma ChecksumInPlace(t: Tcp, ip: Bytes, before: Bytes, c: nat)
    requires |ip| == 20 && before == ip + TcpSegment(t, 0)
    ensures before[..36] + Be16(c) + before[38..] == ip + TcpSegment(t, c)
  {
    hide Be16, TcpHeaderStart;
    var start := TcpHeaderStart(t);
    assert before[..36] == ip + start;
    assert before[38..] == [0, 0] + t.payload;
  }

  method PutIpHeader(buf: Buffer, t: Tcp, totalLen: nat)
    requires totalLen == 40 + |t.payload|
    requires buf.Valid() && buf.position == 0 && buf.data.Length == totalLen
    modifies buf, buf.data
    ensures buf.Valid() && buf.Written() == IpHeader(t, 0) && buf.position == 20
  {
    hide Be16, Be32, IpHeaderStart;
    PutIpHeaderStart(buf, totalLen);
    buf.PutShort(0);
    buf.PutInt(t.srcIp);
    buf.PutInt(t.dstIp);
    ghost var a, b := Be32(t.srcIp), Be32(t.dstIp);
    assert buf.Written() == IpHeaderStart(totalLen) + Be16(0) + a + b;
  }

  method PutIpHeaderStart(buf: Buffer, totalLen: nat)
    requires buf.Valid() && buf.position == 0 && buf.data.Length >= 20
    modifies buf, buf.data
    ensures buf.Valid() && buf.Written() == IpHeaderStart(totalLen) && buf.position == 10
  {
    hide Be16;
    BlankField();
    buf.Put(0x45);
    buf.Put(0);
    assert buf.Written() == [0x45, 0];
    buf.PutShort(totalLen);
    buf.PutShort(0);
    assert buf.Written() == [0x45, 0] + Be16(totalLen) + [0, 0];
    buf.PutShort(0x4000);
    ghost var soFar := buf.Written();
    buf.Put(64);
    buf.Put(6);
    assert buf.Written() == soFar + [64, 6];
  }

  method IpSum(buf: Buffer, t: Tcp) returns (ipChecksum: nat)
    requires buf.Valid() && buf.Written() == IpHeader(t, 0)
    ensures ipChecksum == WordSum(IpHeader(t, 0))
  {
    ghost var header := IpHeader(t, 0);
    ipChecksum := 0;
    var i := 0;
    while i < 10
      invariant 0 <= i <= 10
      invariant ipChecksum == WordSum(header[..2 * i])
    {
      WordSumNext(header, 2 * i);
      assert buf.data[2 * i] == buf.Written()[2 * i] && buf.data[2 * i + 1] == buf.Written()[2 * i + 1];
      ipChecksum := ipChecksum + buf.ShortAt(2 * i);
      i := i + 1;
    }
    assert header[..20] == header;
  }

  method PutTcpHeader(buf: Buffer, t: Tcp, ghost ip: Bytes)
    requires buf.Valid() && buf.Written() == ip && |ip| == 20 && buf.data.Length >= 40
    modifies buf, buf.data
    ensures buf.Valid() && buf.position == 40
    ensures buf.Written() == ip + (TcpHeaderStart(t) + Be16(0) + [0, 0])
  {
    hide Be16, Be32;
    BlankField();
    PutTcpHeaderStart(buf, t, ip);
    ghost var start := TcpHeaderStart(t);
    hide TcpHeaderStart;
    buf.PutShort(0);
    buf.PutShort(0);
    assert ip + start + Be16(0) + Be16(0) == ip + (start + Be16(0) + [0, 0]);
  }

  method PutTcpHeaderStart(buf: Buffer, t: Tcp, ghost ip: Bytes)
    requires buf.Valid() && buf.Written() == ip && |ip| == 20 && buf.data.Length >= 40
    modifies buf, buf.data
    ensures buf.Valid() && buf.position == 36 && buf.Written() == ip + TcpHeaderStart(t)
  {
    hide Be16, Be32;
    buf.PutShort(t.srcPort);
    buf.PutShort(t.dstPort);
    buf.PutInt(t.seqNum);
    buf.PutInt(t.ackNum);
    ghost var a, b, c, d := Be16(t.srcPort), Be16(t.dstPort), Be32(t.seqNum), Be32(t.ackNum);
    assert buf.Written() == ip + (a + b + c + d);
    buf.PutShort(WithDataOffset(t.flags));
    buf.PutShort(65535);
  }

  lemma BlankField()
    ensures Be16(0) == [0, 0]
  {
  }

  /** The pseudo header, TCP header and payload, added word by word; a last odd octet counts as a
      high octet. */
  method TcpSum(buf: Buffer, t: Tcp, ghost ip: Bytes) returns (tcpChecksum: Int32)
    requires |ip| == 20
    requires buf.Valid() && buf.Written() == ip + TcpSegment(t, 0) && buf.position == buf.data.Length
    ensures tcpChecksum == Wrap32(TcpTotal(t))
  {
    hide Be16, Be32, AddressSum, Wrap32;
    var tcpLen := 20 + |t.payload|;
    ghost var segment := TcpSegment(t, 0);
    assert SameFrom(buf.data[..], segment) by {
      assert buf.data[..] == buf.Written();
    }
    tcpChecksum := SumFrom(buf, AddressSum(t.srcIp, t.dstIp) + 6 + tcpLen, tcpLen, segment);
  }

  ghost predicate SameFrom(data: Bytes, segment: Bytes) {
    |data| == 20 + |segment| && forall k :: 0 <= k < |segment| ==> data[20 + k] == segment[k]
  }

  method SumFrom(buf: Buffer, start: nat, tcpLen: nat, ghost segment: Bytes) returns (tcpChecksum: Int32)
    requires tcpLen == |segment| && SameFrom(buf.data[..], segment)
    ensures tcpChecksum == Wrap32(start + WordSum(segment))
  {
    hide Wrap32, WordSum, FromBe16;
    WordSumNothing(segment[..0]);
    tcpChecksum := Wrap32(start);
    var i := 0;
    while i < tcpLen
      invariant 0 <= i <= tcpLen + 1 && i % 2 == 0
      invariant tcpChecksum == Wrap32(start + WordSum(segment[..if i < tcpLen then i else tcpLen]))
    {
      assert buf.data[20 + i] == buf.data[..][20 + i];
      ghost var sum := start + WordSum(segment[..i]);
      if i == tcpLen - 1 {
        WordSumLast(segment, i);
        assert segment[..tcpLen] == segment;
        WrapTwice(sum, FromBe16(buf.data[20 + i], 0));
        tcpChecksum := Wrap32(tcpChecksum + FromBe16(buf.data[20 + i], 0));
      } else {
        WordSumNext(segment, i);
        assert buf.data[20 + i + 1] == buf.data[..][20 + (i + 1)];
        WrapTwice(sum, buf.ShortAt(20 + i));
        tcpChecksum := Wrap32(tcpChecksum + buf.ShortAt(20 + i));
      }
      i := i + 2;
    }
    assert segment[..tcpLen] == segment;
  }

  lemma PartialSum(s: Bytes, done: nat)
    requires done <= |s| && done % 2 == 0
    ensures WordSum(s[..done]) <= WordSum(s)
  {
    assert s == s[..done] + s[done..];
    WordSumAppend(s[..done], s[done..]);
  }

  // Swift: computeChecksum and computeTcpChecksum

  /** No range of up to 131074 octets overflows an unsigned 32-bit accumulator. */
  lemma FitsUInt32(s: Bytes)
    requires |s| <= 131_074
    ensures WordSum(s) < TWO_32
  {
    WordSumBound(s);
  }

  /** Words from `offset`, a trailing odd octet, then a fold in a loop. The accumulator is a UInt32, which
      traps on overflow, so the sum of the words must fit; no partial sum exceeds it. */
  method ComputeChecksum(data: Bytes, offset: nat, length: nat) returns (c: nat)
    requires offset + length <= |data| && WordSum(data[offset..offset + length]) < TWO_32
    ensures c == Complement(WordSum(data[offset..offset + length]))
  {
    hide WordSum, Fold;
    ghost var s := data[offset..offset + length];
    WordSumNothing(s[..0]);
    var sum := 0;
    var i := 0;
    while i < length - 1
      invariant 0 <= i && i % 2 == 0 && (i <= length || length == 0)
      invariant i <= |s| && sum == WordSum(s[..i]) <= WordSum(s)
    {
      WordSumNext(s, i);
      sum := sum + FromBe16(data[offset + i], data[offset + i + 1]);
      PartialSum(s, i + 2);
      i := i + 2;
    }
    if i < length {
      WordSumLast(s, i);
      sum := sum + FromBe16(data[offset + i], 0);
    }
    assert s[..|s|] == s;
    ghost var total := sum;
    while sum / TWO_16 > 0
      invariant 0 <= sum < TWO_32 && Fold(sum) == Fold(total)
      decreases sum
    {
      FoldOnce(sum);
      sum := sum % TWO_16 + sum / TWO_16;
    }
    FoldDone(sum);
    c := 0xFFFF - sum;
  }

  /** Twelve pseudo-header octets put in front of the segment, then ComputeChecksum. */
  method ComputeTcpChecksum(packet: Bytes, payloadLen: nat, srcIp: Int32, dstIp: Int32) returns (c: nat)
    requires 20 + payloadLen < TWO_16 && |packet| == 40 + payloadLen    // UInt16(20 + payloadLen) traps
    ensures c == Complement(WordSum(PseudoHeader(srcIp, dstIp, 20 + payloadLen) + packet[20..]))
  {
    var pseudoHeader := Be32(srcIp) + Be32(dstIp) + [0, 6] + Be16(20 + payloadLen);
    var tcpData := pseudoHeader + packet[20..20 + 20 + payloadLen];
    assert packet[20..20 + 20 + payloadLen] == packet[20..];
    assert tcpData[0..|tcpData|] == tcpData;
    FitsUInt32(tcpData);
    c := ComputeChecksum(tcpData, 0, |tcpData|);
  }

  /** The three implementations on every packet whose TCP length fits: the loop fold of Swift and Go is the
      fixpoint; Kotlin's straight-line fold of the words summed directly over the pseudo header and segment
      gives the same value if and only if its signed accumulator holds the sum, and on an IP header always. */
  lemma ImplementationsAgree(t: Tcp)
    requires 20 + |t.payload| < TWO_16
    ensures SentChecksum(t) == Complement(WordSum(PseudoHeader(t.srcIp, t.dstIp, 20 + |t.payload|) + TcpSegment(t, 0)))
            <==> TcpTotal(t) < 0x8000_0000
    ensures TwoStepComplement(WordSum(IpHeader(t, 0))) == Complement(WordSum(IpHeader(t, 0)))
  {
    hide TcpTotal, TwoStepComplement, Wrap32, Complement, WordSum, Be16;
    TotalIsWordSum(t);
    SignedAccumulatorIff(TcpTotal(t));
    WordSumBound(IpHeader(t, 0));
    TwoStepsSuffice(WordSum(IpHeader(t, 0)));
  }

  // Kotlin: handlePacket, the TCP path

  datatype Parsed =
    | Dropped                 // not version 4, not TCP, or a bad length
    | OutOfBounds             // a field read past the packet, which ends the read loop
    | Segment(tcp: Tcp)

  function ParseTcp(packet: Bytes): (p: Parsed)
  {
    if |packet| < 20 then Dropped
    else
      var ihl := packet[0] as nat % 16 * 4;
      if packet[0] / 16 != 4 || ihl < 20 || |packet| < ihl + 8 || packet[9] != 6 then Dropped
      else if |packet| < ihl + 14 then OutOfBounds
      else
        var offsetAndFlags := FromBe16(packet[ihl + 12], packet[ihl + 13]);
        var payloadOffset := ihl + offsetAndFlags / 0x1000 * 4;
        Segment(Tcp(
          Wrap32(FromBe32(packet[12], packet[13], packet[14], packet[15])), FromBe16(packet[ihl], packet[ihl + 1]),
          Wrap32(FromBe32(packet[16], packet[17], packet[18], packet[19])), FromBe16(packet[ihl + 2], packet[ihl + 3]),
          Wrap32(FromBe32(packet[ihl + 4], packet[ihl + 5], packet[ihl + 6], packet[ihl + 7])),
          Wrap32(FromBe32(packet[ihl + 8], packet[ihl + 9], packet[ihl + 10], packet[ihl + 11])),
          offsetAndFlags % 0x200,
          if payloadOffset < |packet| then packet[payloadOffset..] else []))
  }

  /** Reading a sent packet gives back every field: addresses and sequence numbers as signed
      integers, ports modulo 2^16, the nine flag bits and the payload. */
  lemma ParseInvertsSend(t: Tcp)
    requires t.flags < 0x200
    ensures ParseTcp(Packet(t)) ==
            Segment(t.(srcPort := t.srcPort % TWO_16, dstPort := t.dstPort % TWO_16))
  {
    hide Be16, Be32, Packet;
    PacketLayout(t);
    ParseFields(t, Packet(t), 20, 20, 0);
  }

  /** A packet with `ihl` octets of IP header and the payload `offset` octets behind it, options included:
      every field at its place, anything elsewhere. Three header bits are reserved. */
  ghost predicate Laid(t: Tcp, s: Bytes, ihl: nat, offset: nat, reserved: nat) {
    && 20 <= ihl <= 60 && ihl % 4 == 0 && offset <= 60 && offset % 4 == 0 && ihl + 14 <= |s|
    && s[0] as nat == 0x40 + ihl / 4 && s[9] == 6
    && s[12..16] == Be32(t.srcIp) && s[16..20] == Be32(t.dstIp)
    && s[ihl..ihl + 2] == Be16(t.srcPort) && s[ihl + 2..ihl + 4] == Be16(t.dstPort)
    && s[ihl + 4..ihl + 8] == Be32(t.seqNum) && s[ihl + 8..ihl + 12] == Be32(t.ackNum)
    && s[ihl + 12..ihl + 14] == Be16(offset / 4 * 0x1000 + reserved * 0x200 + t.flags)
    && t.payload == if ihl + offset <= |s| then s[ihl + offset..] else []
  }

  /** Every packet from the client, with IP and TCP options of any length. */
  lemma ParseFields(t: Tcp, s: Bytes, ihl: nat, offset: nat, reserved: nat)
    requires t.flags < 0x200 && reserved < 8 && Laid(t, s, ihl, offset, reserved)
    ensures ParseTcp(s) == Segment(t.(srcPort := t.srcPort % TWO_16, dstPort := t.dstPort % TWO_16))
  {
    FlagBits(offset / 4, reserved, t.flags);
    LengthNibble(s[0], ihl);
    hide Be16, Be32, FromBe16, FromBe32, Wrap32;
    WordAt(s, 12, t.srcIp);
    WordAt(s, 16, t.dstIp);
    WordAt(s, ihl + 4, t.seqNum);
    WordAt(s, ihl + 8, t.ackNum);
    ShortAt(s, ihl, t.srcPort);
    ShortAt(s, ihl + 2, t.dstPort);
    ShortAt(s, ihl + 12, offset / 4 * 0x1000 + reserved * 0x200 + t.flags);
    ParseReads(s, ihl, offset);
    hide ParseTcp, Laid;
  }

  /** What is read of a packet with these two lengths. */
  lemma ParseReads(s: Bytes, ihl: nat, offset: nat)
    requires 20 <= ihl && ihl + 14 <= |s|
    requires s[0] / 16 == 4 && s[0] as nat % 16 * 4 == ihl && s[9] == 6
    requires FromBe16(s[ihl + 12], s[ihl + 13]) / 0x1000 * 4 == offset
    ensures ParseTcp(s) == Segment(Tcp(
              Wrap32(FromBe32(s[12], s[13], s[14], s[15])), FromBe16(s[ihl], s[ihl + 1]),
              Wrap32(FromBe32(s[16], s[17], s[18], s[19])), FromBe16(s[ihl + 2], s[ihl + 3]),
              Wrap32(FromBe32(s[ihl + 4], s[ihl + 5], s[ihl + 6], s[ihl + 7])),
              Wrap32(FromBe32(s[ihl + 8], s[ihl + 9], s[ihl + 10], s[ihl + 11])),
              FromBe16(s[ihl + 12], s[ihl + 13]) % 0x200, if ihl + offset <= |s| then s[ihl + offset..] else []))
  {
    hide FromBe16, FromBe32, Wrap32;
    assert s[|s|..] == [];
  }

  lemma LengthNibble(b: Byte, ihl: nat)
    requires b as nat == 0x40 + ihl / 4 && ihl <= 60 && ihl % 4 == 0
    ensures b / 16 == 4 && b as nat % 16 * 4 == ihl
  {
  }

  lemma FlagBits(words: nat, reserved: nat, flags: nat)
    requires words < 16 && reserved < 8 && flags < 0x200
    ensures var word := (words * 0x1000 + reserved * 0x200 + flags) % TWO_16;
            word / 0x1000 == words && word % 0x200 == flags
  {
    var low := reserved * 0x200 + flags;
    var word := words * 0x1000 + low;
    assert low < 0x1000 && word < TWO_16 && word % TWO_16 == word;
    assert word / 0x1000 == words;
    assert word == (words * 8 + reserved) * 0x200 + flags;
  }

  /** Which packets are read, dropped, or run past their end: an IPv4 header with protocol TCP, at least eight
      octets behind it, and fourteen for its fields. */
  lemma ParsedIff(s: Bytes)
    ensures var tcp := |s| >= 20 && 0x45 <= s[0] <= 0x4F && s[9] == 6;
            var more := if tcp then |s| - 4 * (s[0] as int - 0x40) else 0;
            && (ParseTcp(s).Segment? <==> tcp && more >= 14)
            && (ParseTcp(s).OutOfBounds? <==> tcp && 8 <= more < 14)
  {
    if |s| >= 20 {
      NibblesOf(s[0]);
    }
  }

  lemma NibblesOf(b: Byte)
    ensures 0x45 <= b <= 0x4F <==> b / 16 == 4 && b as nat % 16 * 4 >= 20
    ensures 0x45 <= b <= 0x4F ==> b as nat % 16 * 4 == 4 * (b as int - 0x40)
  {
  }

  /** And every packet that is read is such a packet: whatever its octets, they are the fields returned. */
  lemma OnlyPacketsAreRead(s: Bytes) returns (t: Tcp, ihl: nat, offset: nat, reserved: nat)
    requires ParseTcp(s).Segment?
    ensures ParseTcp(s) == Segment(t) && t.flags < 0x200 && reserved < 8 && Laid(t, s, ihl, offset, reserved)
  {
    ihl := HeaderOf(s);
    offset, reserved := WordParts(FromBe16(s[ihl + 12], s[ihl + 13]));
    ParseReads(s, ihl, offset);
    t := ParseTcp(s).tcp;
    hide ParseTcp, FromBe16, FromBe32, Wrap32, Laid;
    FieldsBack(s, t, ihl, offset, reserved);
  }

  lemma HeaderOf(s: Bytes) returns (ihl: nat)
    requires ParseTcp(s).Segment?
    ensures 20 <= ihl <= 60 && ihl % 4 == 0 && ihl + 14 <= |s| && s[0] as nat == 0x40 + ihl / 4 && s[9] == 6
    ensures s[0] / 16 == 4 && s[0] as nat % 16 * 4 == ihl
  {
    ParsedIff(s);
    hide ParseTcp;
    NibblesOf(s[0]);
    ihl := 4 * (s[0] as int - 0x40);
  }

  lemma WordParts(word: nat) returns (offset: nat, reserved: nat)
    requires word < TWO_16
    ensures offset <= 60 && offset % 4 == 0 && reserved < 8 && word / 0x1000 * 4 == offset
    ensures word == offset / 4 * 0x1000 + reserved * 0x200 + word % 0x200
  {
    offset, reserved := word / 0x1000 * 4, word / 0x200 % 8;
  }

  lemma FieldsBack(s: Bytes, t: Tcp, ihl: nat, offset: nat, reserved: nat)
    requires 20 <= ihl <= 60 && ihl % 4 == 0 && offset <= 60 && offset % 4 == 0 && ihl + 14 <= |s|
    requires s[0] as nat == 0x40 + ihl / 4 && s[9] == 6
    requires FromBe16(s[ihl + 12], s[ihl + 13]) == offset / 4 * 0x1000 + reserved * 0x200 + t.flags
    requires t == Tcp(Wrap32(FromBe32(s[12], s[13], s[14], s[15])), FromBe16(s[ihl], s[ihl + 1]),
                      Wrap32(FromBe32(s[16], s[17], s[18], s[19])), FromBe16(s[ihl + 2], s[ihl + 3]),
                      Wrap32(FromBe32(s[ihl + 4], s[ihl + 5], s[ihl + 6], s[ihl + 7])),
                      Wrap32(FromBe32(s[ihl + 8], s[ihl + 9], s[ihl + 10], s[ihl + 11])),
                      t.flags, if ihl + offset <= |s| then s[ihl + offset..] else [])
    ensures Laid(t, s, ihl, offset, reserved)
  {
    hide Be16, Be32, FromBe16, FromBe32, Wrap32;
    WordBack(s, 12);
    WordBack(s, 16);
    WordBack(s, ihl + 4);
    WordBack(s, ihl + 8);
    ShortBack(s, ihl);
    ShortBack(s, ihl + 2);
    ShortBack(s, ihl + 12);
  }

  lemma WordBack(s: Bytes, at: nat)
    requires at + 4 <= |s|
    ensures s[at..at + 4] == Be32(Wrap32(FromBe32(s[at], s[at + 1], s[at + 2], s[at + 3])))
  {
    hide Be32, Wrap32, FromBe32;
    FromBe32RoundTrip(s[at], s[at + 1], s[at + 2], s[at + 3]);
  }

  lemma ShortBack(s: Bytes, at: nat)
    requires at + 2 <= |s|
    ensures s[at..at + 2] == Be16(FromBe16(s[at], s[at + 1]))
  {
    hide Be16, FromBe16;
    FromBe16RoundTrip(s[at], s[at + 1]);
  }

  lemma PacketLayout(t: Tcp)
    requires t.flags < 0x200
    ensures Laid(t, Packet(t), 20, 20, 0)
  {
    hide Be16, Be32, IpHeader, TcpSegment;
    var s := Packet(t);
    var ip, segment := IpHeader(t, IpChecksum(t)), TcpSegment(t, TcpChecksum(t));
    assert s[..20] == ip && s[20..] == segment;
    IpLayout(t, IpChecksum(t));
    TcpLayout(t, TcpChecksum(t));
    assert s[12..16] == ip[12..16] && s[16..20] == ip[16..20];
    assert s[20..22] == segment[0..2] && s[22..24] == segment[2..4] && s[24..28] == segment[4..8];
    assert s[28..32] == segment[8..12] && s[32..34] == segment[12..14] && s[40..] == segment[20..];
  }

  lemma IpLayout(t: Tcp, c: nat)
    ensures var s := IpHeader(t, c);
            && s[0] == 0x45 && s[9] == 6 && s[12..16] == Be32(t.srcIp) && s[16..20] == Be32(t.dstIp)
            && s[1] == 0 && s[2..4] == Be16(40 + |t.payload|) && s[4..6] == [0, 0] && s[6..8] == Be16(0x4000)
            && s[8] == 64 && s[12..20] == Addresses(t.srcIp, t.dstIp)
  {
    hide Be16, Be32;
    var s := IpHeader(t, c);
    var start := IpHeaderStart(40 + |t.payload|);
    assert s[..10] == start;
    var len, df := Be16(40 + |t.payload|), Be16(0x4000);
    assert start == [0x45, 0] + len + [0, 0] + df + [64, 6];
    assert s[2..4] == start[2..4] == len && s[4..6] == start[4..6] && s[6..8] == start[6..8] == df;
    assert s[12..] == Addresses(t.srcIp, t.dstIp);
    assert s[12..16] == s[12..][..4] && s[16..20] == s[12..][4..];
  }

  lemma TcpLayout(t: Tcp, c: nat)
    ensures var s := TcpSegment(t, c);
            && s[0..2] == Be16(t.srcPort) && s[2..4] == Be16(t.dstPort)
            && s[4..8] == Be32(t.seqNum) && s[8..12] == Be32(t.ackNum)
            && s[12..14] == Be16(WithDataOffset(t.flags)) && s[14..16] == Be16(65535)
            && s[18..20] == [0, 0] && s[20..] == t.payload
  {
    hide Be16, Be32;
    var s := TcpSegment(t, c);
    var start := TcpHeaderStart(t);
    assert s[..16] == start;
    var a, b, d, e := Be16(t.srcPort), Be16(t.dstPort), Be32(t.seqNum), Be32(t.ackNum);
    var f := Be16(WithDataOffset(t.flags));
    SixFields(a, b, d, e, f, Be16(65535));
    assert s[0..2] == start[0..2] && s[2..4] == start[2..4] && s[4..8] == start[4..8];
    assert s[8..12] == start[8..12] && s[12..14] == start[12..14] && s[14..16] == start[14..16];
    assert s[18..] == [0, 0] + t.payload;
    assert s[18..20] == s[18..][..2] && s[20..] == s[18..][2..];
  }

  lemma SixFields(a: Bytes, b: Bytes, d: Bytes, e: Bytes, f: Bytes, g: Bytes)
    requires |a| == |b| == |f| == |g| == 2 && |d| == |e| == 4
    ensures var s := a + b + d + e + f + g;
            s[0..2] == a && s[2..4] == b && s[4..8] == d && s[8..12] == e && s[12..14] == f && s[14..16] == g
  {
  }

  lemma ShortAt(s: Bytes, at: nat, n: int)
    requires at + 2 <= |s| && s[at..at + 2] == Be16(n)
    ensures FromBe16(s[at], s[at + 1]) == n % TWO_16
  {
    hide Be16, FromBe16;
    Be16RoundTrip(n);
    var b := s[at..at + 2];
    assert b[0] == s[at] && b[1] == s[at + 1];
  }

  lemma WordAt(s: Bytes, at: nat, n: Int32)
    requires at + 4 <= |s| && s[at..at + 4] == Be32(n)
    ensures Wrap32(FromBe32(s[at], s[at + 1], s[at + 2], s[at + 3])) == n
  {
    hide Be16, Be32, FromBe16, FromBe32, Wrap32;
    Be32RoundTrip(n);
    Wrap32Fixes(n);
    var b := s[at..at + 4];
    assert b[0] == s[at] && b[1] == s[at + 1] && b[2] == s[at + 2] && b[3] == s[at + 3];
  }
}
