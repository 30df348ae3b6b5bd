/** Reading the public address out of a STUN response (mesh/nat_traversal.go; sections 6, 15, 15.1 and
    15.2 of RFC 5389). */
module Stun {
  import opened Bytes

  const BINDING_RESPONSE := 0x0101
  const MAGIC_COOKIE := 0x2112_A442
  const MAPPED_ADDRESS := 0x0001
  const XOR_MAPPED_ADDRESS := 0x0020
  const IPV4: Byte := 0x01

  /** An IPv4 address and a port, before they are printed as text. */
  datatype Address = Address(ip: Bytes, port: nat)

  datatype Error =
    MessageTooShort | LengthMismatch | UnexpectedType | AttributeTooShort | UnsupportedFamily | NoMappedAddress

  // Exclusive or

  function Pow2(bits: nat): (n: nat)
    ensures n >= 1
  {
    if bits == 0 then 1 else 2 * Pow2(bits - 1)
  }

  /** Bitwise exclusive or of the low `bits` bits. */
  function Xor(a: nat, b: nat, bits: nat): (x: nat)
    ensures x < Pow2(bits)
  {
    if bits == 0 then 0 else 2 * Xor(a / 2, b / 2, bits - 1) + (if a % 2 == b % 2 then 0 else 1)
  }

  lemma {:induction false} XorTwice(a: nat, b: nat, bits: nat)
    requires a < Pow2(bits)
    ensures Xor(Xor(a, b, bits), b, bits) == a
  {
    if bits > 0 {
      XorTwice(a / 2, b / 2, bits - 1);
      var half := Xor(a / 2, b / 2, bits - 1);
      var x := Xor(a, b, bits);
      assert x / 2 == half && x % 2 == (if a % 2 == b % 2 then 0 else 1);
    }
  }

  /** With commutation, these and `XorTwice` leave only one operation. */
  lemma {:induction false} XorZeroAndSelf(a: nat, bits: nat)
    requires a < Pow2(bits)
    ensures Xor(a, 0, bits) == a && Xor(a, a, bits) == 0
  {
    if bits > 0 {
      XorZeroAndSelf(a / 2, bits - 1);
    }
  }

  function Times(x: nat, p: nat): nat {
    x * p
  }

  /** Exclusive or of two parts is that of the whole. */
  lemma {:induction false} XorParts(a: nat, b: nat, c: nat, d: nat, high: nat, low: nat, p: nat)
    requires p == Pow2(low) && b < p && d < p
    ensures Xor(Times(a, p) + b, Times(c, p) + d, high + low) == Times(Xor(a, c, high), p) + Xor(b, d, low)
    decreases low
  {
    hide Times;
    if low > 0 {
      var q := Pow2(low - 1);
      assert p == 2 * q;
      XorParts(a, b / 2, c, d / 2, high, low - 1, q);
      OneBitMore(a, b, c, d, high, low, p, q);
    } else {
      TimesOne(a);
      TimesOne(c);
      TimesOne(Xor(a, c, high));
      assert b == 0 && d == 0;
      assert Xor(Times(a, p) + b, Times(c, p) + d, high + low) == Times(Xor(a, c, high), p) + Xor(b, d, low);
    }
  }

  lemma TimesOne(x: nat)
    ensures Times(x, 1) == x
  {
  }

  lemma OneBitMore(a: nat, b: nat, c: nat, d: nat, high: nat, low: nat, p: nat, q: nat)
    requires low > 0 && p == 2 * q
    requires Xor(Times(a, q) + b / 2, Times(c, q) + d / 2, high + low - 1) ==
             Times(Xor(a, c, high), q) + Xor(b / 2, d / 2, low - 1)
    ensures Xor(Times(a, p) + b, Times(c, p) + d, high + low) == Times(Xor(a, c, high), p) + Xor(b, d, low)
  {
    hide Xor, Pow2, Times;
    XorLast(Times(a, p) + b, Times(c, p) + d, high + low);
    XorLast(b, d, low);
    Halved(a, p, q, b);
    Halved(c, p, q, d);
    Halved(Xor(a, c, high), p, q, 0);
    assert Xor(Times(a, p) + b, Times(c, p) + d, high + low) == Times(Xor(a, c, high), p) + Xor(b, d, low);
  }

  lemma XorLast(a: nat, b: nat, bits: nat)
    requires bits > 0
    ensures Xor(a, b, bits) == 2 * Xor(a / 2, b / 2, bits - 1) + (if a % 2 == b % 2 then 0 else 1)
  {
  }

  lemma Halved(a: nat, p: nat, q: nat, b: nat)
    requires p == 2 * q
    ensures Times(a, p) == 2 * Times(a, q)
    ensures (Times(a, p) + b) / 2 == Times(a, q) + b / 2 && (Times(a, p) + b) % 2 == b % 2
  {
    assert a * (2 * q) == 2 * (a * q);
    assert Times(a, p) + b == 2 * (Times(a, q) + b / 2) + b % 2;
  }

  lemma Widths()
    ensures Pow2(8) == 0x100 && Pow2(16) == TWO_16
  {
    assert Pow2(4) == 16;
    assert Pow2(8) == 0x100;
    assert Pow2(12) == 0x1000;
  }

  function XorByte(a: Byte, b: Byte): Byte {
    Widths();
    Xor(a as nat, b as nat, 8) as Byte
  }

  lemma XorByteTwice(a: Byte, b: Byte)
    ensures XorByte(XorByte(a, b), b) == a
  {
    Widths();
    XorTwice(a as nat, b as nat, 8);
  }

  function XorPort(port: nat): (p: nat)
    ensures p < TWO_16
  {
    Widths();
    Xor(port, MAGIC_COOKIE / TWO_16, 16)
  }

  lemma SixteenFromEight(a: nat, b: nat, c: nat, d: nat)
    requires b < 0x100 && d < 0x100
    ensures Xor(a * 0x100 + b, c * 0x100 + d, 16) == Xor(a, c, 8) * 0x100 + Xor(b, d, 8)
  {
    Widths();
    hide Xor, Pow2;
    XorParts(a, b, c, d, 8, 8, 0x100);
  }

  /** The port is masked by the cookie's first two octets, octet by octet, as the address is by all four. */
  lemma PortIsMaskedByOctets(hi: Byte, lo: Byte)
    ensures XorPort(FromBe16(hi, lo)) == FromBe16(XorByte(hi, 0x21), XorByte(lo, 0x12))
  {
    hide Xor, Pow2;
    SixteenFromEight(hi as nat, lo as nat, 0x21, 0x12);
    assert MAGIC_COOKIE / TWO_16 == 0x21 * 0x100 + 0x12;
  }

  lemma XorPortTwice(port: nat)
    requires port < TWO_16
    ensures XorPort(XorPort(port)) == port
  {
    Widths();
    XorTwice(port, MAGIC_COOKIE / TWO_16, 16);
  }

  function XorEach(ip: Bytes, cookie: Bytes): (s: Bytes)
    requires |ip| == |cookie|
    ensures |s| == |ip|
  {
    seq(|ip|, i requires 0 <= i < |ip| => XorByte(ip[i], cookie[i]))
  }

  lemma XorEachTwice(ip: Bytes, cookie: Bytes)
    requires |ip| == |cookie|
    ensures XorEach(XorEach(ip, cookie), cookie) == ip
  {
    hide XorByte;
    forall i | 0 <= i < |ip|
      ensures XorEach(XorEach(ip, cookie), cookie)[i] == ip[i]
    {
      XorByteTwice(ip[i], cookie[i]);
    }
  }

  // The parser

  function ParseXorMapped(data: Bytes, cookie: Bytes): Result<Address, Error>
    requires |cookie| == 4
  {
    if |data| < 8 then Err(AttributeTooShort)
    else if data[1] != IPV4 then Err(UnsupportedFamily)
    else Ok(Address(XorEach(data[4..8], cookie), XorPort(FromBe16(data[2], data[3]))))
  }

  function ParseMapped(data: Bytes): Result<Address, Error> {
    if |data| < 8 then Err(AttributeTooShort)
    else if data[1] != IPV4 then Err(UnsupportedFamily)
    else Ok(Address(data[4..8], FromBe16(data[2], data[3])))
  }

  /** The next multiple of four. */
  function Padded(offset: nat): (n: nat)
    ensures offset <= n < offset + 4 && n % 4 == 0
  {
    if offset % 4 != 0 then offset + 4 - offset % 4 else offset
  }

  /** The attribute walk from `offset`: stops at the declared end, or where an attribute does not fit in
      the message. */
  function ParseFrom(msg: Bytes, end: nat, offset: nat): Result<Address, Error>
    requires |msg| >= 20
    decreases |msg| - offset
  {
    if offset >= end || offset + 4 > |msg| then Err(NoMappedAddress)
    else
      var kind, len := FromBe16(msg[offset], msg[offset + 1]), FromBe16(msg[offset + 2], msg[offset + 3]);
      var start := offset + 4;
      if start + len > |msg| then Err(NoMappedAddress)
      else if kind == XOR_MAPPED_ADDRESS then ParseXorMapped(msg[start..start + len], msg[4..8])
      else if kind == MAPPED_ADDRESS then ParseMapped(msg[start..start + len])
      else ParseFrom(msg, end, Padded(start + len))
  }

  function Parse(msg: Bytes): Result<Address, Error> {
    if |msg| < 20 then Err(MessageTooShort)
    else if FromBe16(msg[2], msg[3]) + 20 > |msg| then Err(LengthMismatch)
    else ParseFrom(msg, FromBe16(msg[2], msg[3]) + 20, 20)
  }

  /** parseAddress: a loop that moves an offset; every access is inside the message. */
  method ParseAddress(msg: Bytes) returns (r: Result<Address, Error>)
    ensures r == Parse(msg)
  {
    hide FromBe16, ParseXorMapped, ParseMapped;
    if |msg| < 20 {
      return Err(MessageTooShort);
    }
    var msgLen := FromBe16(msg[2], msg[3]);
    if msgLen + 20 > |msg| {
      return Err(LengthMismatch);
    }
    var offset := 20;
    while offset < msgLen + 20
      invariant 20 <= offset
      invariant ParseFrom(msg, msgLen + 20, offset) == Parse(msg)
      decreases msgLen + 20 - offset
    {
      if offset + 4 > |msg| {
        break;
      }
      var attrType := FromBe16(msg[offset], msg[offset + 1]);
      var attrLen := FromBe16(msg[offset + 2], msg[offset + 3]);
      offset := offset + 4;
      if offset + attrLen > |msg| {
        break;
      }
      var attrData := msg[offset..offset + attrLen];
      if attrType == XOR_MAPPED_ADDRESS {
        r := ParseXorMappedAddress(attrData, msg[4..8]);
        return;
      } else if attrType == MAPPED_ADDRESS {
        return ParseMapped(attrData);
      }
      offset := offset + attrLen;
      if offset % 4 != 0 {
        offset := offset + (4 - offset % 4);
      }
    }
    return Err(NoMappedAddress);
  }

  method ParseXorMappedAddress(data: Bytes, cookie: Bytes) returns (r: Result<Address, Error>)
    requires |cookie| == 4
    ensures r == ParseXorMapped(data, cookie)
  {
    if |data| < 8 {
      return Err(AttributeTooShort);
    }
    var family := data[1];
    var port := XorPort(FromBe16(data[2], data[3]));
    if family == IPV4 {
      var ip := [];
      var i := 0;
      while i < 4
        invariant 0 <= i <= 4 && |ip| == i
        invariant forall k :: 0 <= k < i ==> ip[k] == XorByte(data[4 + k], cookie[k])
      {
        ip := ip + [XorByte(data[4 + i], cookie[i])];
        i := i + 1;
      }
      assert ip == XorEach(data[4..8], cookie);
      return Ok(Address(ip, port));
    }
    return Err(UnsupportedFamily);
  }

  /** sendBindingRequest's checks on the datagram before it is parsed. */
  function HandleResponse(buf: Bytes): Result<Address, Error> {
    if |buf| < 20 then Err(MessageTooShort)
    else if FromBe16(buf[0], buf[1]) != BINDING_RESPONSE then Err(UnexpectedType)
    else Parse(buf)
  }

  // The encoder of section 15 of RFC 5389

  /** An attribute; padding octets may have any value. */
  datatype Attribute = Attribute(kind: nat, value: Bytes, padding: Bytes)

  predicate WellFormed(a: Attribute) {
    a.kind < TWO_16 && |a.value| < TWO_16 && |a.padding| == Padded(|a.value|) - |a.value|
  }

  function EncodeAttribute(a: Attribute): (s: Bytes)
    ensures |s| == 4 + |a.value| + |a.padding|
  {
    Be16(a.kind) + Be16(|a.value|) + a.value + a.padding
  }

  function EncodeAll(attributes: seq<Attribute>): Bytes {
    if attributes == [] then [] else EncodeAttribute(attributes[0]) + EncodeAll(attributes[1..])
  }

  /** A binding response; the twelve octets of the transaction identifier are arbitrary. */
  function Response(attributes: seq<Attribute>, transaction: Bytes): (s: Bytes)
    requires |transaction| == 12
    ensures |s| == 20 + |EncodeAll(attributes)|
  {
    Be16(BINDING_RESPONSE) + Be16(|EncodeAll(attributes)|) + Be32(MAGIC_COOKIE) + transaction + EncodeAll(attributes)
  }

  /** What the response says: the first address attribute decides, whatever stands before it. */
  function FirstAddress(attributes: seq<Attribute>): Result<Address, Error> {
    if attributes == [] then Err(NoMappedAddress)
    else if attributes[0].kind == XOR_MAPPED_ADDRESS then ParseXorMapped(attributes[0].value, Be32(MAGIC_COOKIE))
    else if attributes[0].kind == MAPPED_ADDRESS then ParseMapped(attributes[0].value)
    else FirstAddress(attributes[1..])
  }

  lemma {:induction false} WalkFindsFirst(msg: Bytes, head: Bytes, attributes: seq<Attribute>)
    requires |head| >= 20 && |head| % 4 == 0 && msg == head + EncodeAll(attributes) && msg[4..8] == Be32(MAGIC_COOKIE)
    requires forall a :: a in attributes ==> WellFormed(a)
    ensures ParseFrom(msg, |msg|, |head|) == FirstAddress(attributes)
    decreases |attributes|
  {
    hide Be16, FromBe16, Be32, ParseXorMapped, ParseMapped, EncodeAttribute, Padded, WellFormed;
    if attributes != [] {
      var a := attributes[0];
      assert a in attributes && forall b :: b in attributes[1..] ==> b in attributes;
      var rest := EncodeAll(attributes[1..]);
      var at := |head|;
      AttributeAt(msg, at, a, head, rest);
      assert msg == (head + EncodeAttribute(a)) + rest;
      AttributeAligned(at, a);
      if a.kind != XOR_MAPPED_ADDRESS && a.kind != MAPPED_ADDRESS {
        WalkFindsFirst(msg, head + EncodeAttribute(a), attributes[1..]);
      }
    }
  }

  lemma AttributeAligned(at: nat, a: Attribute)
    requires at % 4 == 0 && WellFormed(a)
    ensures Padded(at + 4 + |a.value|) == at + |EncodeAttribute(a)| && (at + |EncodeAttribute(a)|) % 4 == 0
  {
  }

  lemma AttributeAt(msg: Bytes, at: nat, a: Attribute, head: Bytes, rest: Bytes)
    requires at == |head| && msg == head + (EncodeAttribute(a) + rest) && WellFormed(a)
    ensures at + 4 + |a.value| <= |msg|
    ensures FromBe16(msg[at], msg[at + 1]) == a.kind && FromBe16(msg[at + 2], msg[at + 3]) == |a.value|
    ensures msg[at + 4..at + 4 + |a.value|] == a.value
  {
    hide Be16, FromBe16;
    Be16RoundTrip(a.kind);
    Be16RoundTrip(|a.value|);
    var k, l := Be16(a.kind), Be16(|a.value|);
    assert EncodeAttribute(a) == k + l + (a.value + a.padding);
    assert msg[at] == k[0] && msg[at + 1] == k[1] && msg[at + 2] == l[0] && msg[at + 3] == l[1];
  }

  /** For every list of attributes, with any padding, parsing the encoded response gives what the list
      says, errors included. */
  lemma ParseInvertsEncode(attributes: seq<Attribute>, transaction: Bytes)
    requires |transaction| == 12 && |EncodeAll(attributes)| < TWO_16
    requires forall a :: a in attributes ==> WellFormed(a)
    ensures HandleResponse(Response(attributes, transaction)) == FirstAddress(attributes)
  {
    hide Be16, FromBe16, Be32, EncodeAll, FirstAddress;
    var body := EncodeAll(attributes);
    var t, l, c := Be16(BINDING_RESPONSE), Be16(|body|), Be32(MAGIC_COOKIE);
    var head := t + l + c + transaction;
    var msg := Response(attributes, transaction);
    assert msg == head + body;
    Be16RoundTrip(BINDING_RESPONSE);
    Be16RoundTrip(|body|);
    assert msg[0] == t[0] && msg[1] == t[1] && msg[2] == l[0] && msg[3] == l[1];
    assert msg[4..8] == c;
    WalkFindsFirst(msg, head, attributes);
  }

  /** An encoded XOR-MAPPED-ADDRESS (section 15.2 of RFC 5389). */
  function EncodeXorMapped(a: Address): Attribute
    requires |a.ip| == 4
  {
    Attribute(XOR_MAPPED_ADDRESS, [0, IPV4] + Be16(XorPort(a.port)) + XorEach(a.ip, Be32(MAGIC_COOKIE)), [])
  }

  /** Behind any unrelated attributes, the encoded address and port come back exactly. */
  lemma AddressComesBack(unrelated: seq<Attribute>, a: Address, more: seq<Attribute>, transaction: Bytes)
    requires |transaction| == 12 && |a.ip| == 4 && a.port < TWO_16
    requires forall u :: u in unrelated ==> WellFormed(u) && u.kind != XOR_MAPPED_ADDRESS && u.kind != MAPPED_ADDRESS
    requires forall u :: u in more ==> WellFormed(u)
    requires |EncodeAll(unrelated + [EncodeXorMapped(a)] + more)| < TWO_16
    ensures HandleResponse(Response(unrelated + [EncodeXorMapped(a)] + more, transaction)) == Ok(a)
  {
    hide Be16, FromBe16, Be32, HandleResponse, Response, EncodeAll, XorEach, XorPort;
    var x := EncodeXorMapped(a);
    ParseInvertsEncode(unrelated + [x] + more, transaction);
    SkipUnrelated(unrelated, [x] + more);
    assert unrelated + ([x] + more) == unrelated + [x] + more;
    var cookie := Be32(MAGIC_COOKIE);
    var p, ip := Be16(XorPort(a.port)), XorEach(a.ip, cookie);
    assert x.value == [0, IPV4] + p + ip;
    assert x.value[4..8] == ip && x.value[2] == p[0] && x.value[3] == p[1];
    Be16RoundTrip(XorPort(a.port));
    XorPortTwice(a.port);
    XorEachTwice(a.ip, cookie);
  }

  /** An encoded MAPPED-ADDRESS (section 15.1 of RFC 5389). */
  function EncodeMapped(a: Address): Attribute
    requires |a.ip| == 4
  {
    Attribute(0x0001, [0, 0x01] + Be16(a.port) + a.ip, [])
  }

  /** So does a plain one. */
  lemma MappedAddressComesBack(unrelated: seq<Attribute>, a: Address, more: seq<Attribute>, transaction: Bytes)
    requires |transaction| == 12 && |a.ip| == 4 && a.port < TWO_16
    requires forall u :: u in unrelated ==> WellFormed(u) && u.kind != XOR_MAPPED_ADDRESS && u.kind != MAPPED_ADDRESS
    requires forall u :: u in more ==> WellFormed(u)
    requires |EncodeAll(unrelated + [EncodeMapped(a)] + more)| < TWO_16
    ensures HandleResponse(Response(unrelated + [EncodeMapped(a)] + more, transaction)) == Ok(a)
  {
    hide Be16, FromBe16, Be32, HandleResponse, Response, EncodeAll;
    var x := EncodeMapped(a);
    ParseInvertsEncode(unrelated + [x] + more, transaction);
    SkipUnrelated(unrelated, [x] + more);
    assert unrelated + ([x] + more) == unrelated + [x] + more;
    var p := Be16(a.port);
    assert x.value[4..8] == a.ip && x.value[2] == p[0] && x.value[3] == p[1];
    Be16RoundTrip(a.port);
  }

  /** Without an address attribute there is no address; one that is too short, or not for IPv4, is an error. */
  lemma OtherAttributesAreRefused(unrelated: seq<Attribute>, x: Attribute, more: seq<Attribute>, transaction: Bytes)
    requires |transaction| == 12 && |EncodeAll(unrelated + [x] + more)| < TWO_16
    requires forall u :: u in unrelated + [x] + more ==> WellFormed(u)
    requires forall u :: u in unrelated ==> u.kind != XOR_MAPPED_ADDRESS && u.kind != MAPPED_ADDRESS
    ensures var r := HandleResponse(Response(unrelated + [x] + more, transaction));
            && (x.kind == 0x0001 || x.kind == 0x0020 ==>
                  && (|x.value| < 8 ==> r == Err(AttributeTooShort))
                  && (|x.value| >= 8 && x.value[1] != 1 ==> r == Err(UnsupportedFamily)))
            && (x.kind != 0x0001 && x.kind != 0x0020 && more == [] ==> r == Err(NoMappedAddress))
  {
    hide Be16, FromBe16, Be32, HandleResponse, Response, EncodeAll, WellFormed;
    ParseInvertsEncode(unrelated + [x] + more, transaction);
    SkipUnrelated(unrelated, [x] + more);
    assert unrelated + ([x] + more) == unrelated + [x] + more;
    assert ([x] + more)[1..] == more;
  }

  /** The datagrams that are no binding response of the declared length. */
  lemma OtherDatagramsAreRefused(buf: Bytes)
    ensures HandleResponse(buf) == Err(MessageTooShort) <==> |buf| < 20
    ensures HandleResponse(buf) == Err(UnexpectedType) <==> |buf| >= 20 && buf[..2] != [0x01, 0x01]
    ensures HandleResponse(buf) == Err(LengthMismatch) <==>
            |buf| >= 20 && buf[..2] == [0x01, 0x01] && FromBe16(buf[2], buf[3]) + 20 > |buf|
  {
    if |buf| >= 20 {
      assert buf[..2] == [buf[0], buf[1]];
      WalkErrors(buf, FromBe16(buf[2], buf[3]) + 20, 20);
    }
    hide ParseFrom;
  }

  lemma {:induction false} WalkErrors(msg: Bytes, end: nat, offset: nat)
    requires |msg| >= 20
    ensures var r := ParseFrom(msg, end, offset);
            r.Ok? || r.error in {NoMappedAddress, AttributeTooShort, UnsupportedFamily}
    decreases |msg| - offset
  {
    hide FromBe16, Padded;
    if offset < end && offset + 4 <= |msg| {
      var next := Padded(offset + 4 + FromBe16(msg[offset + 2], msg[offset + 3]));
      WalkErrors(msg, end, next);
    }
  }

  /** What an address attribute says. */
  function Says(x: Attribute, cookie: Bytes): Result<Address, Error>
    requires |cookie| == 4
  {
    if x.kind == XOR_MAPPED_ADDRESS then ParseXorMapped(x.value, cookie) else ParseMapped(x.value)
  }

  predicate IsAddress(x: Attribute) {
    x.kind == XOR_MAPPED_ADDRESS || x.kind == MAPPED_ADDRESS
  }

  /** The octets start with some unrelated attributes and then an address attribute. */
  ghost predicate LeadTo(s: Bytes, unrelated: seq<Attribute>, x: Attribute) {
    && (forall u :: u in unrelated ==> WellFormed(u) && !IsAddress(u))
    && IsAddress(x) && EncodeAll(unrelated) + EncodeAttribute(x) <= s
  }

  /** The walk from `offset` ends with this. */
  predicate Reads(msg: Bytes, end: nat, offset: nat, r: Result<Address, Error>) {
    |msg| >= 20 && ParseFrom(msg, end, offset) == r
  }

  /** Nothing else gives an address, whoever sent the datagram: it is a binding response with an address
      attribute behind unrelated ones, and the result is what the first such attribute says. */
  lemma OnlyResponsesGiveAddresses(buf: Bytes) returns (unrelated: seq<Attribute>, x: Attribute)
    requires HandleResponse(buf).Ok?
    ensures |buf| >= 20 && buf[0] == 1 && buf[1] == 1 && FromBe16(buf[2], buf[3]) + 20 <= |buf|
    ensures LeadTo(buf[20..], unrelated, x) && HandleResponse(buf) == Says(x, buf[4..8])
  {
    hide ParseFrom;
    unrelated, x := WalkOnlyFinds(buf, FromBe16(buf[2], buf[3]) + 20, 20, HandleResponse(buf));
  }

  lemma {:induction false} WalkOnlyFinds(msg: Bytes, end: nat, offset: nat, r: Result<Address, Error>)
      returns (unrelated: seq<Attribute>, x: Attribute)
    requires Reads(msg, end, offset, r) && r.Ok? && offset % 4 == 0
    ensures offset <= |msg| && LeadTo(msg[offset..], unrelated, x)
    ensures |msg| >= 20 && r == Says(x, msg[4..8])
    decreases |msg| - offset
  {
    OneTurn(msg, end, offset, r);
    hide Reads, Padded, EncodeAttribute, Says, LeadTo, FromBe16, IsAddressAt;
    if IsAddressAt(msg, offset) {
      unrelated := [];
      x := FoundHere(msg, offset);
    } else {
      var next := Padded(offset + 4 + LengthAt(msg, offset));
      unrelated, x := WalkOnlyFinds(msg, end, next, r);
      unrelated := FoundLater(msg, offset, next, unrelated, x);
    }
  }

  lemma FoundHere(msg: Bytes, offset: nat) returns (x: Attribute)
    requires offset + 4 <= |msg| && offset + 4 + LengthAt(msg, offset) <= |msg| && IsAddressAt(msg, offset)
    ensures x == Attribute(FromBe16(msg[offset], msg[offset + 1]), msg[offset + 4..][..LengthAt(msg, offset)], [])
    ensures LeadTo(msg[offset..], [], x)
  {
    hide FromBe16, EncodeAttribute, LeadTo;
    x := AttributeThere(msg, offset, offset + 4 + LengthAt(msg, offset));
    NoneInFront(msg, offset, x);
  }

  lemma FoundLater(msg: Bytes, offset: nat, next: nat, later: seq<Attribute>, x: Attribute)
      returns (unrelated: seq<Attribute>)
    requires offset + 4 <= |msg| && offset % 4 == 0 && !IsAddressAt(msg, offset)
    requires next == Padded(offset + 4 + LengthAt(msg, offset)) <= |msg| && LeadTo(msg[next..], later, x)
    ensures LeadTo(msg[offset..], unrelated, x)
  {
    hide FromBe16, EncodeAttribute, LeadTo, Padded;
    var a := AttributeThere(msg, offset, next);
    OneInFront(msg, offset, a, later, x);
    unrelated := [a] + later;
  }

  function LengthAt(msg: Bytes, offset: nat): nat
    requires offset + 4 <= |msg|
  {
    FromBe16(msg[offset + 2], msg[offset + 3])
  }

  predicate IsAddressAt(msg: Bytes, offset: nat)
    requires offset + 4 <= |msg|
  {
    IsAddress(Attribute(FromBe16(msg[offset], msg[offset + 1]), [], []))
  }

  /** One turn of a walk that finds an address. */
  lemma OneTurn(msg: Bytes, end: nat, offset: nat, r: Result<Address, Error>)
    requires Reads(msg, end, offset, r) && r.Ok?
    ensures |msg| >= 20 && offset + 4 <= |msg| && offset + 4 + LengthAt(msg, offset) <= |msg|
    ensures var kind, value := FromBe16(msg[offset], msg[offset + 1]), msg[offset + 4..][..LengthAt(msg, offset)];
            if IsAddressAt(msg, offset) then r == Says(Attribute(kind, value, []), msg[4..8])
            else Reads(msg, end, Padded(offset + 4 + LengthAt(msg, offset)), r)
  {
    hide FromBe16, ParseXorMapped, ParseMapped, Padded;
    var len := LengthAt(msg, offset);
    assert offset + 4 + len <= |msg| ==> msg[offset + 4..][..len] == msg[offset + 4..offset + 4 + len];
  }

  lemma NoneInFront(msg: Bytes, offset: nat, x: Attribute)
    requires offset + |EncodeAttribute(x)| <= |msg| && EncodeAttribute(x) == msg[offset..offset + |EncodeAttribute(x)|]
    requires IsAddress(x)
    ensures LeadTo(msg[offset..], [], x)
  {
    hide EncodeAttribute;
    assert EncodeAll([]) + EncodeAttribute(x) == EncodeAttribute(x);
  }

  lemma OneInFront(msg: Bytes, offset: nat, a: Attribute, unrelated: seq<Attribute>, x: Attribute)
    requires offset + |EncodeAttribute(a)| <= |msg| && EncodeAttribute(a) == msg[offset..offset + |EncodeAttribute(a)|]
    requires LeadTo(msg[offset + |EncodeAttribute(a)|..], unrelated, x)
    requires !IsAddress(a) && a.kind < TWO_16 && |a.value| < TWO_16 && offset % 4 == 0
    requires offset + |EncodeAttribute(a)| == Padded(offset + 4 + |a.value|)
    ensures LeadTo(msg[offset..], [a] + unrelated, x)
  {
    PaddingFits(a, offset + 4);
    hide EncodeAttribute, WellFormed, Padded;
    var next := offset + |EncodeAttribute(a)|;
    assert ([a] + unrelated)[1..] == unrelated;
    assert msg[offset..] == msg[offset..next] + msg[next..];
    assert EncodeAll([a] + unrelated) + EncodeAttribute(x)
        == EncodeAttribute(a) + (EncodeAll(unrelated) + EncodeAttribute(x));
  }

  lemma PaddingFits(a: Attribute, start: nat)
    requires start % 4 == 0 && a.kind < TWO_16 && |a.value| < TWO_16
    requires start + |a.value| + |a.padding| == Padded(start + |a.value|)
    ensures WellFormed(a)
  {
  }

  /** The attribute that the octets from `offset` to `next` encode. */
  lemma AttributeThere(msg: Bytes, offset: nat, next: nat) returns (a: Attribute)
    requires offset + 4 <= next <= |msg| && offset + 4 + LengthAt(msg, offset) <= next
    ensures var value := msg[offset + 4..][..LengthAt(msg, offset)];
            a == Attribute(FromBe16(msg[offset], msg[offset + 1]), value, a.padding)
    ensures |a.padding| == next - offset - 4 - |a.value| && (next == offset + 4 + |a.value| ==> a.padding == [])
    ensures EncodeAttribute(a) == msg[offset..next]
  {
    hide Be16, FromBe16;
    var start, len := offset + 4, LengthAt(msg, offset);
    a := Attribute(FromBe16(msg[offset], msg[offset + 1]), msg[start..][..len], msg[start + len..next]);
    FromBe16RoundTrip(msg[offset], msg[offset + 1]);
    FromBe16RoundTrip(msg[offset + 2], msg[offset + 3]);
    assert EncodeAttribute(a) == Be16(a.kind) + Be16(|a.value|) + (a.value + a.padding);
  }

  /** The sample IPv4 response of section 2.2 of RFC 5769: 192.0.2.1, port 32853. */
  function Sample(): Bytes {
    [0x01, 0x01, 0x00, 0x3C, 0x21, 0x12, 0xA4, 0x42] +
    [0xB7, 0xE7, 0xA7, 0x01, 0xBC, 0x34, 0xD6, 0x86, 0xFA, 0x87, 0xDF, 0xAE] +
    [0x80, 0x22, 0x00, 0x0B, 0x74, 0x65, 0x73, 0x74, 0x20, 0x76, 0x65, 0x63, 0x74, 0x6F, 0x72, 0x20] +
    [0x00, 0x20, 0x00, 0x08, 0x00, 0x01, 0xA1, 0x47, 0xE1, 0x12, 0xA6, 0x43] +
    [0x00, 0x08, 0x00, 0x14, 0x2B, 0x91, 0xF5, 0x99, 0xFD, 0x9E, 0x90, 0xC3, 0x8C, 0x74, 0x89, 0xF9, 0x2A, 0xF9, 0xBA,
     0x53, 0xF0, 0x6B, 0xE7, 0xD7] +
    [0x80, 0x28, 0x00, 0x04, 0xC0, 0x7D, 0x4C, 0x96]
  }

  lemma SampleIsRead()
    ensures HandleResponse(Sample()) == Ok(Address([192, 0, 2, 1], 32853))
  {
    var s := Sample();
    SampleHeaders();
    SampleWalk(s);
    SampleValue(s[40..48], s[4..8]);
    hide Sample, HandleResponse, ParseXorMapped;
  }

  lemma SampleWalk(s: Bytes)
    requires |s| == 80 && FromBe16(s[0], s[1]) == 0x0101 && FromBe16(s[2], s[3]) == 60
    requires FromBe16(s[20], s[21]) == 0x8022 && FromBe16(s[22], s[23]) == 11
    requires FromBe16(s[36], s[37]) == 0x0020 && FromBe16(s[38], s[39]) == 8
    ensures HandleResponse(s) == ParseXorMapped(s[40..48], s[4..8])
  {
    hide FromBe16, ParseXorMapped;
    assert ParseFrom(s, 80, 20) == ParseFrom(s, 80, 36) == ParseXorMapped(s[40..48], s[4..8]);
  }

  lemma SampleValue(data: Bytes, cookie: Bytes)
    requires data == [0x00, 0x01, 0xA1, 0x47, 0xE1, 0x12, 0xA6, 0x43] && cookie == [0x21, 0x12, 0xA4, 0x42]
    ensures ParseXorMapped(data, cookie) == Ok(Address([192, 0, 2, 1], 32853))
  {
    SampleMasks();
    hide XorByte, XorPort, FromBe16;
    assert data[4..8] == [0xE1, 0x12, 0xA6, 0x43];
    assert XorEach(data[4..8], cookie) == [192, 0, 2, 1];
  }

  lemma SampleHeaders()
    ensures var s := Sample();
            && |s| == 80 && FromBe16(s[0], s[1]) == 0x0101 && FromBe16(s[2], s[3]) == 60
            && s[4..8] == [0x21, 0x12, 0xA4, 0x42]
            && FromBe16(s[20], s[21]) == 0x8022 && FromBe16(s[22], s[23]) == 11
            && FromBe16(s[36], s[37]) == 0x0020 && FromBe16(s[38], s[39]) == 8
            && s[40..48] == [0x00, 0x01, 0xA1, 0x47, 0xE1, 0x12, 0xA6, 0x43]
  {
  }

  lemma SampleMasks()
    ensures XorByte(0xE1, 0x21) == 192 && XorByte(0x12, 0x12) == 0 && XorByte(0xA6, 0xA4) == 2
    ensures XorByte(0x43, 0x42) == 1 && XorPort(FromBe16(0xA1, 0x47)) == 32853
  {
    Widths();
    PortIsMaskedByOctets(0xA1, 0x47);
    assert XorByte(0xA1, 0x21) == 0x80 && XorByte(0x47, 0x12) == 0x55;
  }

  lemma {:induction false} SkipUnrelated(unrelated: seq<Attribute>, tail: seq<Attribute>)
    requires forall u :: u in unrelated ==> u.kind != XOR_MAPPED_ADDRESS && u.kind != MAPPED_ADDRESS
    ensures FirstAddress(unrelated + tail) == FirstAddress(tail)
  {
    if unrelated == [] {
      assert unrelated + tail == tail;
    } else {
      assert unrelated[0] in unrelated && forall u :: u in unrelated[1..] ==> u in unrelated;
      assert (unrelated + tail)[1..] == unrelated[1..] + tail;
      SkipUnrelated(unrelated[1..], tail);
    }
  }
}
