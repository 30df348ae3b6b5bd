/** The SOCKS5 server's handshake (proxy/socks5.go; sections 3 to 6 of RFC 1928, section 2 of RFC 1929)
    and the requests of the tunnel client (Tun2Socks.connectToProxy and connectIpv6Socks5). */
module Socks5 {
  import opened ByteConn
  import opened Bytes

  const VERSION: Byte := 0x05
  const AUTH_NONE: Byte := 0x00
  const AUTH_PASSWORD: Byte := 0x02
  const AUTH_NO_ACCEPT: Byte := 0xFF
  const CMD_CONNECT: Byte := 0x01
  const ATYP_IPV4: Byte := 0x01
  const ATYP_DOMAIN: Byte := 0x03
  const ATYP_IPV6: Byte := 0x04
  const REPLY_SUCCESS: Byte := 0x00
  const REPLY_NOT_ALLOW: Byte := 0x02
  const REPLY_HOST_UNREACH: Byte := 0x04

  /** A destination before it is printed as text. */
  datatype Host = V4(ip: Bytes) | Name(name: Bytes) | V6(ip6: Bytes)
  datatype Dest = Dest(host: Host, port: nat)

  predicate ValidDest(d: Dest) {
    d.port < TWO_16 &&
    match d.host
    case V4(ip) => |ip| == 4
    case Name(name) => |name| <= 255
    case V6(ip) => |ip| == 16
  }

  datatype Error = ShortRead | UnsupportedVersion | UnsupportedCmd | AuthFailed | UnsupportedAddress

  /** The registered tokens, or none if the server has no authenticator. */
  type Auth = Option<map<Bytes, Bytes>>

  predicate Validates(tokens: map<Bytes, Bytes>, user: Bytes, password: Bytes) {
    user in tokens && tokens[user] == password
  }

  /** What a routine returns, leaves unread and writes. */
  datatype Outcome<T> = Outcome(result: Result<T, Error>, rest: Bytes, output: Bytes)

  // The server on values

  /** A field that carries its length in one octet, and what follows it; none if the input ends earlier. */
  function Counted(input: Bytes): Option<(Bytes, Bytes)> {
    if |input| == 0 || |input| < 1 + input[0] as nat then None
    else Some((input[1..1 + input[0] as nat], input[1 + input[0] as nat..]))
  }

  function Negotiate(input: Bytes, auth: Auth): Outcome<()> {
    if |input| < 2 then Outcome(Err(ShortRead), [], [])
    else if input[0] != VERSION then Outcome(Err(UnsupportedVersion), input[2..], [])
    else match Counted(input[1..])
         case None => Outcome(Err(ShortRead), [], [])
         case Some((methods, rest)) =>
           if auth.None? then Outcome(Ok(()), rest, [VERSION, AUTH_NONE])
           else if AUTH_PASSWORD !in methods then Outcome(Err(AuthFailed), rest, [VERSION, AUTH_NO_ACCEPT])
           else
             var o := Authenticate(rest, auth.value);
             Outcome(o.result, o.rest, [VERSION, AUTH_PASSWORD] + o.output)
  }

  /** The version octet of the sub-negotiation is read and not looked at. */
  function Authenticate(input: Bytes, tokens: map<Bytes, Bytes>): Outcome<()> {
    if |input| < 1 then Outcome(Err(ShortRead), [], [])
    else match Counted(input[1..])
         case None => Outcome(Err(ShortRead), [], [])
         case Some((user, more)) =>
           match Counted(more)
           case None => Outcome(Err(ShortRead), [], [])
           case Some((password, rest)) =>
             if Validates(tokens, user, password) then Outcome(Ok(()), rest, [0x01, 0x00])
             else Outcome(Err(AuthFailed), rest, [0x01, 0x01])
  }

  function ReadRequest(input: Bytes): Outcome<Dest> {
    if |input| < 4 then Outcome(Err(ShortRead), [], [])
    else if input[0] != VERSION then Outcome(Err(UnsupportedVersion), input[4..], [])
    else if input[1] != CMD_CONNECT then
      Outcome(Err(UnsupportedCmd), input[4..], Reply(REPLY_NOT_ALLOW, [0, 0, 0, 0], 0))
    else
      var more := input[4..];
      if input[3] == ATYP_IPV4 then
        if |more| < 4 then Outcome(Err(ShortRead), [], []) else ReadPort(V4(more[..4]), more[4..])
      else if input[3] == ATYP_DOMAIN then
        match Counted(more)
        case None => Outcome(Err(ShortRead), [], [])
        case Some((name, rest)) => ReadPort(Name(name), rest)
      else if input[3] == ATYP_IPV6 then
        if |more| < 16 then Outcome(Err(ShortRead), [], []) else ReadPort(V6(more[..16]), more[16..])
      else Outcome(Err(UnsupportedAddress), more, [])
  }

  function ReadPort(host: Host, input: Bytes): Outcome<Dest> {
    if |input| < 2 then Outcome(Err(ShortRead), [], [])
    else Outcome(Ok(Dest(host, FromBe16(input[0], input[1]))), input[2..], [])
  }

  /** A reply with the bound address, four octets or sixteen. */
  function Reply(status: Byte, ip: Bytes, port: nat): Bytes {
    [VERSION, status, 0x00, if |ip| == 4 then ATYP_IPV4 else ATYP_IPV6] + ip + Be16(port)
  }

  /** What dialling the destination brings: the local address of the new connection, or failure. */
  datatype Dial = Connected(ip: Bytes, port: nat) | Unreachable

  function ReplyTo(dial: Dial): Bytes {
    match dial
    case Unreachable => Reply(REPLY_HOST_UNREACH, [0, 0, 0, 0], 0)
    case Connected(ip, port) => Reply(REPLY_SUCCESS, ip, port)
  }

  /** handleConnection up to the relay: negotiate, read the request, dial, reply. */
  function Serve(input: Bytes, auth: Auth, dial: Dial): Outcome<Dest> {
    var n := Negotiate(input, auth);
    if n.result.Err? then Outcome(Err(n.result.error), n.rest, n.output)
    else
      var q := ReadRequest(n.rest);
      if q.result.Err? then Outcome(q.result, q.rest, n.output + q.output)
      else Outcome(q.result, q.rest, n.output + ReplyTo(dial))
  }

  /** One if the client saw its password refused. */
  function Refused(o: Outcome<()>): nat {
    if |o.output| == 4 && o.output[3] == 0x01 then 1 else 0
  }

  lemma RefusedIff(input: Bytes, tokens: map<Bytes, Bytes>)
    ensures var o := Authenticate(input, tokens);
            Refused(o.(output := [VERSION, AUTH_PASSWORD] + o.output)) == if o.result == Err(AuthFailed) then 1 else 0
  {
  }

  lemma AcceptedInSilence(input: Bytes)
    ensures ReadRequest(input).result.Ok? ==> ReadRequest(input).output == []
  {
  }

  // The server's routines

  class Server {
    const auth: Auth
    var authFailures: nat

    constructor (auth: Auth)
      ensures this.auth == auth && authFailures == 0
    {
      this.auth, authFailures := auth, 0;
    }

    method NegotiateOn(conn: Conn) returns (r: Result<(), Error>)
      modifies conn, this`authFailures
      ensures Outcome(r, conn.input, conn.output) ==
              var o := Negotiate(old(conn.input), auth); o.(output := old(conn.output) + o.output)
      ensures authFailures == old(authFailures) + Refused(Negotiate(old(conn.input), auth))
    {
      hide Authenticate;
      ghost var all, written := conn.input, conn.output;
      var header := conn.ReadFull(2);
      if header.None? {
        return Err(ShortRead);
      }
      if header.value[0] != VERSION {
        return Err(UnsupportedVersion);
      }
      assert all[2..] == all[1..][1..];
      var methods := conn.ReadFull(header.value[1] as nat);
      if methods.None? {
        return Err(ShortRead);
      }
      ghost var rest := conn.input;
      assert all[1..][1..1 + all[1] as nat] == methods.value && all[1..][1 + all[1] as nat..] == rest;
      assert Counted(all[1..]) == Some((methods.value, rest));
      if auth.Some? {
        var hasPasswordAuth := false;
        var i := 0;
        while i < |methods.value| && !hasPasswordAuth
          invariant 0 <= i <= |methods.value|
          invariant hasPasswordAuth <==> AUTH_PASSWORD in methods.value[..i]
        {
          assert methods.value[..i + 1] == methods.value[..i] + [methods.value[i]];
          hasPasswordAuth := methods.value[i] == AUTH_PASSWORD;
          i := i + 1;
        }
        assert methods.value[..|methods.value|] == methods.value;
        if !hasPasswordAuth {
          conn.Write([VERSION, AUTH_NO_ACCEPT]);
          return Err(AuthFailed);
        }
        conn.Write([VERSION, AUTH_PASSWORD]);
        r := AuthenticatePassword(conn, auth.value);
        ghost var o := Authenticate(rest, auth.value);
        RefusedIff(rest, auth.value);
        assert written + [VERSION, AUTH_PASSWORD] + o.output == written + ([VERSION, AUTH_PASSWORD] + o.output);
        return;
      }
      conn.Write([VERSION, AUTH_NONE]);
      return Ok(());
    }

    method AuthenticatePassword(conn: Conn, tokens: map<Bytes, Bytes>) returns (r: Result<(), Error>)
      modifies conn, this`authFailures
      ensures Outcome(r, conn.input, conn.output) ==
              var o := Authenticate(old(conn.input), tokens); o.(output := old(conn.output) + o.output)
      ensures authFailures == old(authFailures) + if r == Err(AuthFailed) then 1 else 0
    {
      var ver := conn.ReadFull(1);
      if ver.None? {
        return Err(ShortRead);
      }
      var user := ReadCounted(conn);
      if user.None? {
        return Err(ShortRead);
      }
      var password := ReadCounted(conn);
      if password.None? {
        return Err(ShortRead);
      }
      if !Validates(tokens, user.value, password.value) {
        authFailures := authFailures + 1;
        conn.Write([0x01, 0x01]);
        return Err(AuthFailed);
      }
      conn.Write([0x01, 0x00]);
      return Ok(());
    }

    /** A length octet and that many octets. */
    method ReadCounted(conn: Conn) returns (data: Option<Bytes>)
      modifies conn`input
      ensures match Counted(old(conn.input))
              case None => data == None && conn.input == []
              case Some((field, rest)) => data == Some(field) && conn.input == rest
    {
      ghost var all := conn.input;
      var len := conn.ReadFull(1);
      if len.None? {
        return None;
      }
      var n := len.value[0] as nat;
      data := conn.ReadFull(n);
      if data.Some? {
        assert all[1..][..n] == all[1..1 + n] && all[1..][n..] == all[1 + n..];
      }
    }

    method ReadRequestOn(conn: Conn) returns (r: Result<Dest, Error>)
      modifies conn
      ensures Outcome(r, conn.input, conn.output) ==
              var o := ReadRequest(old(conn.input)); o.(output := old(conn.output) + o.output)
    {
      hide Be16, FromBe16, Counted;
      ghost var all, written := conn.input, conn.output;
      var header := conn.ReadFull(4);
      assert written + [] == written;
      if header.None? {
        return Err(ShortRead);
      }
      if header.value[0] != VERSION {
        return Err(UnsupportedVersion);
      }
      if header.value[1] != CMD_CONNECT {
        conn.Write(Reply(REPLY_NOT_ALLOW, [0, 0, 0, 0], 0));
        return Err(UnsupportedCmd);
      }
      var host;
      if header.value[3] == ATYP_IPV4 {
        var addr := conn.ReadFull(4);
        if addr.None? {
          return Err(ShortRead);
        }
        host := V4(addr.value);
      } else if header.value[3] == ATYP_DOMAIN {
        var name := ReadCounted(conn);
        if name.None? {
          return Err(ShortRead);
        }
        host := Name(name.value);
      } else if header.value[3] == ATYP_IPV6 {
        var addr := conn.ReadFull(16);
        if addr.None? {
          return Err(ShortRead);
        }
        host := V6(addr.value);
      } else {
        return Err(UnsupportedAddress);
      }
      r := ReadPortOn(conn, host);
    }

    method ReadPortOn(conn: Conn, host: Host) returns (r: Result<Dest, Error>)
      modifies conn`input
      ensures var o := ReadPort(host, old(conn.input)); r == o.result && conn.input == o.rest
    {
      var port := conn.ReadFull(2);
      if port.None? {
        return Err(ShortRead);
      }
      return Ok(Dest(host, FromBe16(port.value[0], port.value[1])));
    }

    method HandleConnection(conn: Conn, dial: Dial) returns (r: Result<Dest, Error>)
      modifies conn, this`authFailures
      ensures Outcome(r, conn.input, conn.output) ==
              var o := Serve(old(conn.input), auth, dial); o.(output := old(conn.output) + o.output)
      ensures authFailures == old(authFailures) + Refused(Negotiate(old(conn.input), auth))
    {
      hide Negotiate, ReadRequest, Reply;
      ghost var written := conn.output;
      ghost var n := Negotiate(conn.input, auth);
      var ok := NegotiateOn(conn);
      if ok.Err? {
        return Err(ok.error);
      }
      ghost var q := ReadRequest(conn.input);
      r := ReadRequestOn(conn);
      assert (written + n.output) + q.output == written + (n.output + q.output);
      if r.Err? {
        return;
      }
      AcceptedInSilence(n.rest);
      assert n.output + q.output == n.output;
      match dial {
        case Unreachable => conn.Write(Reply(REPLY_HOST_UNREACH, [0, 0, 0, 0], 0));
        case Connected(ip, port) => conn.Write(Reply(REPLY_SUCCESS, ip, port));
      }
    }
  }

  // The client's encoding, as the standards write it

  function EncodeGreeting(methods: Bytes): Bytes
    requires |methods| <= 255
  {
    [0x05, |methods| as Byte] + methods
  }

  function EncodeAuth(version: Byte, user: Bytes, password: Bytes): Bytes
    requires |user| <= 255 && |password| <= 255
  {
    [version, |user| as Byte] + user + [|password| as Byte] + password
  }

  function EncodeHost(h: Host): Bytes
    requires h.Name? ==> |h.name| <= 255
  {
    match h
    case V4(ip) => [0x01] + ip
    case Name(name) => [0x03, |name| as Byte] + name
    case V6(ip) => [0x04] + ip
  }

  /** The reserved octet may have any value. */
  function EncodeRequest(reserved: Byte, d: Dest): Bytes
    requires ValidDest(d)
  {
    [0x05, 0x01, reserved] + EncodeHost(d.host) + Be16(d.port)
  }

  /** Everything a client chooses. */
  datatype Client = Client(methods: Bytes, version: Byte, user: Bytes, password: Bytes, reserved: Byte, dest: Dest)

  predicate ValidClient(c: Client) {
    |c.methods| <= 255 && |c.user| <= 255 && |c.password| <= 255 && ValidDest(c.dest)
  }

  /** The octets a client sends to a server that asks for a password, or does not. */
  function EncodeClient(c: Client, auth: Auth): Bytes
    requires ValidClient(c)
  {
    EncodeGreeting(c.methods) + (if auth.Some? then EncodeAuth(c.version, c.user, c.password) else [])
    + EncodeRequest(c.reserved, c.dest)
  }

  predicate Permitted(c: Client, auth: Auth) {
    auth.Some? ==> 0x02 in c.methods && Validates(auth.value, c.user, c.password)
  }

  function Greeted(auth: Auth): Bytes {
    if auth.Some? then [0x05, 0x02, 0x01, 0x00] else [0x05, 0x00]
  }

  // Round trip, both ways

  lemma CountedInverts(field: Bytes, rest: Bytes)
    requires |field| <= 255
    ensures Counted([|field| as Byte] + field + rest) == Some((field, rest))
  {
  }

  lemma NegotiateInverts(c: Client, auth: Auth, rest: Bytes)
    requires ValidClient(c) && Permitted(c, auth)
    ensures var a := if auth.Some? then EncodeAuth(c.version, c.user, c.password) else [];
            Negotiate(EncodeGreeting(c.methods) + a + rest, auth) == Outcome(Ok(()), rest, Greeted(auth))
  {
    hide Counted, Authenticate, EncodeAuth;
    var a := if auth.Some? then EncodeAuth(c.version, c.user, c.password) else [];
    var input := EncodeGreeting(c.methods) + a + rest;
    assert input[1..] == [|c.methods| as Byte] + c.methods + (a + rest);
    CountedInverts(c.methods, a + rest);
    if auth.Some? {
      AuthenticateInverts(c, auth.value, rest);
    } else {
      assert a + rest == rest;
    }
  }

  lemma AuthenticateInverts(c: Client, tokens: map<Bytes, Bytes>, rest: Bytes)
    requires ValidClient(c) && Validates(tokens, c.user, c.password)
    ensures Authenticate(EncodeAuth(c.version, c.user, c.password) + rest, tokens)
            == Outcome(Ok(()), rest, [0x01, 0x00])
  {
    hide Counted;
    var input := EncodeAuth(c.version, c.user, c.password) + rest;
    var more := [|c.password| as Byte] + c.password + rest;
    assert input[1..] == [|c.user| as Byte] + c.user + more;
    CountedInverts(c.user, more);
    CountedInverts(c.password, rest);
  }

  lemma RequestInverts(reserved: Byte, d: Dest, rest: Bytes)
    requires ValidDest(d)
    ensures ReadRequest(EncodeRequest(reserved, d) + rest) == Outcome(Ok(d), rest, [])
  {
    hide ReadRequest, ReadPort, Be16, EncodeHost;
    var head, port := [VERSION, CMD_CONNECT, reserved] + EncodeHost(d.host), Be16(d.port);
    assert head + port + rest == head + (port + rest);
    HostInverts(reserved, d.host, port + rest);
    PortInverts(d.host, d.port, rest);
  }

  lemma HostInverts(reserved: Byte, host: Host, after: Bytes)
    requires ValidDest(Dest(host, 0))
    ensures ReadRequest([VERSION, CMD_CONNECT, reserved] + EncodeHost(host) + after) == ReadPort(host, after)
  {
    hide ReadRequest, ReadPort;
    match host
    case V4(ip) => AddressInverts(reserved, ip, after);
    case Name(name) => NameInverts(reserved, name, after);
    case V6(ip) => AddressInverts(reserved, ip, after);
  }

  lemma AddressInverts(reserved: Byte, ip: Bytes, after: Bytes)
    requires |ip| == 4 || |ip| == 16
    ensures var host := if |ip| == 4 then V4(ip) else V6(ip);
            ReadRequest([VERSION, CMD_CONNECT, reserved] + EncodeHost(host) + after) == ReadPort(host, after)
  {
    hide Counted, ReadPort, Reply;
    var host := if |ip| == 4 then V4(ip) else V6(ip);
    var input := [VERSION, CMD_CONNECT, reserved] + EncodeHost(host) + after;
    assert input[4..] == ip + after;
    assert (ip + after)[..|ip|] == ip && (ip + after)[|ip|..] == after;
  }

  lemma NameInverts(reserved: Byte, name: Bytes, after: Bytes)
    requires |name| <= 255
    ensures ReadRequest([VERSION, CMD_CONNECT, reserved] + EncodeHost(Name(name)) + after)
            == ReadPort(Name(name), after)
  {
    hide Counted, ReadPort, Reply;
    var input := [VERSION, CMD_CONNECT, reserved] + EncodeHost(Name(name)) + after;
    assert input[4..] == [|name| as Byte] + name + after;
    CountedInverts(name, after);
  }

  lemma PortInverts(host: Host, port: nat, rest: Bytes)
    requires port < TWO_16
    ensures ReadPort(host, Be16(port) + rest) == Outcome(Ok(Dest(host, port)), rest, [])
  {
    hide Be16, FromBe16;
    Be16RoundTrip(port);
    var p := Be16(port);
    assert (p + rest)[0] == p[0] && (p + rest)[1] == p[1] && (p + rest)[2..] == rest;
  }

  /** For every credential pair the server knows, every destination and every octet the server ignores:
      the handshake recovers the destination, consumes exactly the client's octets, and answers as the
      standards say. */
  lemma ServeInvertsClient(c: Client, auth: Auth, dial: Dial, rest: Bytes)
    requires ValidClient(c) && Permitted(c, auth)
    ensures Serve(EncodeClient(c, auth) + rest, auth, dial) ==
            Outcome(Ok(c.dest), rest, Greeted(auth) + ReplyTo(dial))
  {
    hide Negotiate, ReadRequest, ReplyTo, EncodeGreeting, EncodeAuth, EncodeRequest;
    var a := if auth.Some? then EncodeAuth(c.version, c.user, c.password) else [];
    var q := EncodeRequest(c.reserved, c.dest);
    assert EncodeClient(c, auth) + rest == EncodeGreeting(c.methods) + a + (q + rest);
    NegotiateInverts(c, auth, q + rest);
    RequestInverts(c.reserved, c.dest, rest);
  }

  lemma CountedOnlyInverts(input: Bytes)
    requires Counted(input).Some?
    ensures var (field, rest) := Counted(input).value;
            |field| <= 255 && input == [|field| as Byte] + field + rest
  {
  }

  lemma NegotiateOnlyInverts(input: Bytes, auth: Auth) returns (c: Client)
    requires Negotiate(input, auth).result.Ok?
    ensures |c.methods| <= 255 && |c.user| <= 255 && |c.password| <= 255 && Permitted(c, auth)
    ensures input == EncodeGreeting(c.methods) + (if auth.Some? then EncodeAuth(c.version, c.user, c.password) else [])
                     + Negotiate(input, auth).rest
  {
    hide Counted, Authenticate, EncodeAuth;
    var (methods, rest) := Counted(input[1..]).value;
    CountedOnlyInverts(input[1..]);
    c := Client(methods, 0, [], [], 0, Dest(V4([]), 0));
    assert input == [input[0]] + input[1..];
    assert input == EncodeGreeting(c.methods) + rest;
    if auth.Some? {
      c := AuthenticateOnlyInverts(c, rest, auth.value);
      var a, last := EncodeAuth(c.version, c.user, c.password), Authenticate(rest, auth.value).rest;
      assert EncodeGreeting(c.methods) + (a + last) == EncodeGreeting(c.methods) + a + last;
    } else {
      assert EncodeGreeting(c.methods) + [] + rest == EncodeGreeting(c.methods) + rest;
    }
  }

  lemma AuthenticateOnlyInverts(c: Client, input: Bytes, tokens: map<Bytes, Bytes>) returns (c': Client)
    requires Authenticate(input, tokens).result.Ok?
    ensures |c'.user| <= 255 && |c'.password| <= 255 && Validates(tokens, c'.user, c'.password)
    ensures c'.methods == c.methods
    ensures input == EncodeAuth(c'.version, c'.user, c'.password) + Authenticate(input, tokens).rest
  {
    hide Counted;
    var (user, more) := Counted(input[1..]).value;
    CountedOnlyInverts(input[1..]);
    var (password, rest) := Counted(more).value;
    CountedOnlyInverts(more);
    c' := c.(version := input[0], user := user, password := password);
    assert input == [input[0]] + input[1..];
  }

  lemma RequestOnlyInverts(input: Bytes) returns (reserved: Byte)
    requires ReadRequest(input).result.Ok?
    ensures ValidDest(ReadRequest(input).result.value)
    ensures input == EncodeRequest(reserved, ReadRequest(input).result.value) + ReadRequest(input).rest
  {
    hide Be16, FromBe16, Counted, Reply, ReadPort, EncodeRequest;
    reserved := input[2];
    var more := input[4..];
    var (host, rest) :=
      if input[3] == ATYP_IPV4 then (V4(more[..4]), more[4..])
      else if input[3] == ATYP_DOMAIN then (Name(Counted(more).value.0), Counted(more).value.1)
      else (V6(more[..16]), more[16..]);
    assert ReadRequest(input) == ReadPort(host, rest);
    if input[3] == ATYP_DOMAIN {
      CountedOnlyInverts(more);
    }
    assert [input[3]] + more == EncodeHost(host) + rest;
    assert input == [VERSION, CMD_CONNECT, reserved] + ([input[3]] + more);
    HostOnlyInverts(reserved, host, rest, input);
  }

  /** What is read after a host is the port and the rest. */
  lemma HostOnlyInverts(reserved: Byte, host: Host, input: Bytes, all: Bytes)
    requires ValidDest(Dest(host, 0)) && ReadPort(host, input).result.Ok?
    requires all == [VERSION, CMD_CONNECT, reserved] + (EncodeHost(host) + input)
    ensures var o := ReadPort(host, input);
            ValidDest(o.result.value) && all == EncodeRequest(reserved, o.result.value) + o.rest
  {
    hide Be16, EncodeHost;
    PortOnlyInverts(host, input);
    var o, head := ReadPort(host, input), [VERSION, CMD_CONNECT, reserved] + EncodeHost(host);
    assert all == head + (Be16(o.result.value.port) + o.rest);
    assert head + (Be16(o.result.value.port) + o.rest) == head + Be16(o.result.value.port) + o.rest;
  }

  lemma PortOnlyInverts(host: Host, input: Bytes)
    requires |input| >= 2
    ensures input == Be16(ReadPort(host, input).result.value.port) + ReadPort(host, input).rest
  {
    FromBe16RoundTrip(input[0], input[1]);
  }

  /** The server accepts nothing else: a successful handshake means that the input is some permitted
      client's encoding of that destination, followed by exactly what is left unread. */
  lemma ServeAcceptsOnlyClients(input: Bytes, auth: Auth, dial: Dial) returns (c: Client)
    requires Serve(input, auth, dial).result.Ok?
    ensures ValidClient(c) && Permitted(c, auth) && c.dest == Serve(input, auth, dial).result.value
    ensures input == EncodeClient(c, auth) + Serve(input, auth, dial).rest
  {
    hide Negotiate, ReadRequest, Reply, EncodeGreeting, EncodeAuth, EncodeRequest;
    var n := Negotiate(input, auth);
    c := NegotiateOnlyInverts(input, auth);
    var q := ReadRequest(n.rest);
    var reserved := RequestOnlyInverts(n.rest);
    c := c.(reserved := reserved, dest := q.result.value);
    var a := if auth.Some? then EncodeAuth(c.version, c.user, c.password) else [];
    var g, r := EncodeGreeting(c.methods), EncodeRequest(c.reserved, c.dest);
    assert g + a + (r + q.rest) == g + a + r + q.rest;
  }

  // Answers

  /** A reply as section 6 of RFC 1928 lays it out. */
  function EncodeReply(status: Byte, host: Host, port: nat): Bytes
    requires !host.Name?
  {
    [0x05, status, 0x00] + EncodeHost(host) + Be16(port)
  }

  lemma ReplyLayout(status: Byte, ip: Bytes, port: nat)
    requires |ip| == 4 || |ip| == 16
    ensures Reply(status, ip, port) == EncodeReply(status, if |ip| == 4 then V4(ip) else V6(ip), port)
  {
    hide Be16;
  }

  /** Success with the bound address, or host unreachable. */
  function Told(dial: Dial): Bytes {
    match dial
    case Unreachable => [0x05, 0x04, 0x00, 0x01, 0, 0, 0, 0, 0, 0]
    case Connected(ip, port) => EncodeReply(0x00, if |ip| == 4 then V4(ip) else V6(ip), port)
  }

  lemma ReplyIsStandard(dial: Dial)
    requires dial.Connected? ==> |dial.ip| == 4 || |dial.ip| == 16
    ensures ReplyTo(dial) == Told(dial)
  {
    match dial
    case Unreachable => assert Be16(0) == [0, 0];
    case Connected(ip, port) => ReplyLayout(0x00, ip, port);
  }

  /** What a permitted client is told, whatever the dial brings. */
  lemma DialIsTold(c: Client, auth: Auth, dial: Dial, rest: Bytes)
    requires ValidClient(c) && Permitted(c, auth)
    requires dial.Connected? ==> |dial.ip| == 4 || |dial.ip| == 16
    ensures Serve(EncodeClient(c, auth) + rest, auth, dial) == Outcome(Ok(c.dest), rest, Greeted(auth) + Told(dial))
  {
    ServeInvertsClient(c, auth, dial, rest);
    ReplyIsStandard(dial);
  }

  /** A client that offers no password, or a wrong one, is told so and nothing of its request is read. */
  lemma StrangersAreRefused(c: Client, auth: Auth, dial: Dial, rest: Bytes)
    requires ValidClient(c) && !Permitted(c, auth)
    ensures var o := Serve(EncodeClient(c, auth) + rest, auth, dial);
            var a, q := EncodeAuth(c.version, c.user, c.password), EncodeRequest(c.reserved, c.dest);
            && o.result == Err(AuthFailed)
            && o.rest == (if 0x02 in c.methods then [] else a) + q + rest
            && o.output == if 0x02 in c.methods then [0x05, 0x02, 0x01, 0x01] else [0x05, 0xFF]
  {
    hide Counted, Authenticate, EncodeAuth, EncodeRequest, ReadRequest;
    var a, q := EncodeAuth(c.version, c.user, c.password), EncodeRequest(c.reserved, c.dest);
    var input := EncodeClient(c, auth) + rest;
    assert input == EncodeGreeting(c.methods) + (a + (q + rest)) == EncodeGreeting(c.methods) + ((a + q) + rest);
    assert input[1..] == [|c.methods| as Byte] + c.methods + (a + (q + rest));
    CountedInverts(c.methods, a + (q + rest));
    if 0x02 in c.methods {
      CredentialsAreRead(c, auth.value, q + rest);
      assert [] + q + rest == q + rest;
    } else {
      assert a + q + rest == a + (q + rest);
    }
  }

  lemma CredentialsAreRead(c: Client, tokens: map<Bytes, Bytes>, rest: Bytes)
    requires ValidClient(c)
    ensures var ok := Validates(tokens, c.user, c.password);
            Authenticate(EncodeAuth(c.version, c.user, c.password) + rest, tokens)
            == Outcome(if ok then Ok(()) else Err(AuthFailed), rest, [0x01, if ok then 0x00 else 0x01])
  {
    hide Counted;
    var input := EncodeAuth(c.version, c.user, c.password) + rest;
    var more := [|c.password| as Byte] + c.password + rest;
    assert input[1..] == [|c.user| as Byte] + c.user + more;
    CountedInverts(c.user, more);
    CountedInverts(c.password, rest);
  }

  /** A request for another command is refused with a reply; one of another version, or with an unknown address
      type, without. */
  lemma OtherRequestsAreRefused(c: Client, auth: Auth, version: Byte, command: Byte, kind: Byte, dial: Dial,
                                rest: Bytes)
    requires ValidClient(c) && Permitted(c, auth)
    requires version != 0x05 || command != 0x01 || kind !in [0x01, 0x03, 0x04]
    ensures var a := if auth.Some? then EncodeAuth(c.version, c.user, c.password) else [];
            var input := EncodeGreeting(c.methods) + a + ([version, command, c.reserved, kind] + rest);
            Serve(input, auth, dial) ==
            if version != 0x05 then Outcome(Err(UnsupportedVersion), rest, Greeted(auth))
            else if command != 0x01
            then Outcome(Err(UnsupportedCmd), rest, Greeted(auth) + [0x05, 0x02, 0x00, 0x01, 0, 0, 0, 0, 0, 0])
            else Outcome(Err(UnsupportedAddress), rest, Greeted(auth))
  {
    var request := [version, command, c.reserved, kind] + rest;
    NegotiateInverts(c, auth, request);
    RequestIsRefused(version, command, c.reserved, kind, rest);
    hide Negotiate, ReadRequest, EncodeGreeting, EncodeAuth;
    assert Greeted(auth) + [] == Greeted(auth);
  }

  lemma RequestIsRefused(version: Byte, command: Byte, reserved: Byte, kind: Byte, rest: Bytes)
    requires version != 0x05 || command != 0x01 || kind !in [0x01, 0x03, 0x04]
    ensures ReadRequest([version, command, reserved, kind] + rest) ==
            if version != 0x05 then Outcome(Err(UnsupportedVersion), rest, [])
            else if command != 0x01
            then Outcome(Err(UnsupportedCmd), rest, [0x05, 0x02, 0x00, 0x01, 0, 0, 0, 0, 0, 0])
            else Outcome(Err(UnsupportedAddress), rest, [])
  {
    hide Counted, ReadPort;
    assert ([version, command, reserved, kind] + rest)[4..] == rest;
    assert Reply(0x02, [0, 0, 0, 0], 0) == [0x05, 0x02, 0x00, 0x01, 0, 0, 0, 0, 0, 0];
  }

  /** A greeting of another version ends the handshake in silence. */
  lemma OtherVersionsAreRefused(version: Byte, count: Byte, auth: Auth, dial: Dial, rest: Bytes)
    requires version != 0x05
    ensures Serve([version, count] + rest, auth, dial) == Outcome(Err(UnsupportedVersion), rest, [])
  {
    assert ([version, count] + rest)[2..] == rest;
  }

  /** Over every input: the octets written contain the success reply of the request, behind the greeting, if
      and only if the handshake was accepted and the destination answered. */
  lemma SuccessIsToldIff(input: Bytes, auth: Auth, dial: Dial)
    ensures var o, n := Serve(input, auth, dial), |Greeted(auth)|;
            (|o.output| > n + 1 && o.output[..n] == Greeted(auth) && o.output[n] == 0x05 && o.output[n + 1] == 0x00)
            <==> o.result.Ok? && dial.Connected?
  {
    GreetingIff(input, auth);
    var n := Negotiate(input, auth);
    if n.result.Ok? {
      RefusalIsNoSuccess(n.rest);
      DialReply(dial);
      hide Negotiate, ReadRequest, ReplyTo;
      var q := ReadRequest(n.rest);
      Behind(n.output, if q.result.Err? then q.output else ReplyTo(dial));
    } else {
      hide Negotiate;
    }
  }

  lemma Behind(greeted: Bytes, reply: Bytes)
    ensures (greeted + reply)[..|greeted|] == greeted
    ensures |reply| > 1 ==> (greeted + reply)[|greeted|] == reply[0] && (greeted + reply)[|greeted| + 1] == reply[1]
  {
  }

  lemma DialReply(dial: Dial)
    ensures var r := ReplyTo(dial); |r| > 1 && r[0] == 0x05 && (r[1] == 0x00 <==> dial.Connected?)
  {
  }

  lemma GreetingIff(input: Bytes, auth: Auth)
    ensures var o := Negotiate(input, auth);
            && (o.result.Ok? ==> o.output == Greeted(auth))
            && (o.result.Err? ==> |o.output| <= |Greeted(auth)| + 1)
  {
  }

  lemma RefusalIsNoSuccess(input: Bytes)
    ensures var o := ReadRequest(input);
            && (o.result.Ok? ==> o.output == [])
            && (|o.output| > 1 ==> o.output[1] != 0x00)
  {
    hide Counted;
  }

  // More input

  lemma CountedExtends(input: Bytes, more: Bytes)
    requires Counted(input).Some?
    ensures Counted(input + more) == Some((Counted(input).value.0, Counted(input).value.1 + more))
  {
    var n := input[0] as nat;
    assert (input + more)[1..1 + n] == input[1..1 + n] && (input + more)[1 + n..] == input[1 + n..] + more;
  }

  /** `b` is what `a` becomes when more input follows. */
  ghost predicate Extends<T>(a: Outcome<T>, b: Outcome<T>, more: Bytes) {
    a.result == Err(ShortRead) || b == a.(rest := a.rest + more)
  }

  lemma AuthenticateExtends(input: Bytes, tokens: map<Bytes, Bytes>, more: Bytes)
    ensures Extends(Authenticate(input, tokens), Authenticate(input + more, tokens), more)
  {
    if Authenticate(input, tokens).result != Err(ShortRead) {
      hide Counted;
      assert (input + more)[1..] == input[1..] + more;
      CountedExtends(input[1..], more);
      CountedExtends(Counted(input[1..]).value.1, more);
    }
  }

  lemma NegotiateExtends(input: Bytes, auth: Auth, more: Bytes)
    ensures Extends(Negotiate(input, auth), Negotiate(input + more, auth), more)
  {
    hide Counted, Authenticate;
    if Negotiate(input, auth).result != Err(ShortRead) {
      assert (input + more)[1..] == input[1..] + more && (input + more)[2..] == input[2..] + more;
      if input[0] == VERSION {
        CountedExtends(input[1..], more);
        if auth.Some? {
          AuthenticateExtends(Counted(input[1..]).value.1, auth.value, more);
        }
      }
    }
  }

  lemma ReadPortExtends(host: Host, input: Bytes, more: Bytes)
    ensures Extends(ReadPort(host, input), ReadPort(host, input + more), more)
  {
  }

  lemma RequestExtends(input: Bytes, more: Bytes)
    ensures Extends(ReadRequest(input), ReadRequest(input + more), more)
  {
    hide Counted, ReadPort, Reply;
    if ReadRequest(input).result != Err(ShortRead) {
      var s := input[4..];
      assert (input + more)[4..] == s + more;
      if input[0] == VERSION && input[1] == CMD_CONNECT {
        if input[3] == ATYP_IPV4 {
          assert (s + more)[..4] == s[..4] && (s + more)[4..] == s[4..] + more;
          ReadPortExtends(V4(s[..4]), s[4..], more);
        } else if input[3] == ATYP_DOMAIN {
          CountedExtends(s, more);
          ReadPortExtends(Name(Counted(s).value.0), Counted(s).value.1, more);
        } else if input[3] == ATYP_IPV6 {
          assert (s + more)[..16] == s[..16] && (s + more)[16..] == s[16..] + more;
          ReadPortExtends(V6(s[..16]), s[16..], more);
        }
      }
    }
  }

  /** The server never looks ahead: unless the input ended too early, octets that follow change neither the
      result nor what is written, and are left unread. */
  lemma NeverLooksAhead(input: Bytes, auth: Auth, dial: Dial, more: Bytes)
    ensures Extends(Serve(input, auth, dial), Serve(input + more, auth, dial), more)
  {
    hide Negotiate, ReadRequest, Reply;
    NegotiateExtends(input, auth, more);
    RequestExtends(Negotiate(input, auth).rest, more);
  }

  // The tunnel client

  /** connectToProxy: greeting and CONNECT for the IPv4 address the client dialled. */
  function TunnelGreeting(): Bytes {
    [0x05, 0x01, 0x00]
  }

  function TunnelConnect(serverIp: Int32, serverPort: int): Bytes {
    [0x05, 0x01, 0x00, 0x01] + Be32(serverIp) + Be16(serverPort)
  }

  /** connectIpv6Socks5. */
  function TunnelConnect6(serverIp6: Bytes, serverPort: int): Bytes
    requires |serverIp6| == 16
  {
    [0x05, 0x01, 0x00, 0x04] + serverIp6 + Be16(serverPort)
  }

  function TunnelClient(host: Host, serverPort: int): Client {
    Client([AUTH_NONE], 0, [], [], 0, Dest(host, serverPort % TWO_16))
  }

  /** The octets connectToProxy and connectIpv6Socks5 emit lead the server to the address and port the
      client dialled, exactly when the server asks for no password. */
  lemma TunnelReachesDestIff(serverIp: Int32, serverPort: int, auth: Auth, dial: Dial, rest: Bytes)
    ensures var o := Serve(TunnelGreeting() + TunnelConnect(serverIp, serverPort) + rest, auth, dial);
            && (o.result.Ok? <==> auth.None?)
            && (o.result.Ok? ==> o.result.value == Dest(V4(Be32(serverIp)), serverPort % TWO_16) && o.rest == rest)
            && (o.result.Err? ==> o.result == Err(AuthFailed) && o.output == [0x05, 0xFF])
  {
    hide Be16, Be32, ReadRequest, Negotiate, Reply;
    var request := TunnelConnect(serverIp, serverPort);
    if auth.None? {
      var c := TunnelClient(V4(Be32(serverIp)), serverPort);
      Be16Low(serverPort);
      ServeInvertsClient(c, auth, dial, rest);
      assert EncodeClient(c, auth) == TunnelGreeting() + request;
    } else {
      assert TunnelGreeting() + (request + rest) == TunnelGreeting() + request + rest;
      TunnelRefused(request + rest, auth);
    }
  }

  lemma Tunnel6ReachesDestIff(serverIp6: Bytes, serverPort: int, auth: Auth, dial: Dial, rest: Bytes)
    requires |serverIp6| == 16
    ensures var o := Serve(TunnelGreeting() + TunnelConnect6(serverIp6, serverPort) + rest, auth, dial);
            && (o.result.Ok? <==> auth.None?)
            && (o.result.Ok? ==> o.result.value == Dest(V6(serverIp6), serverPort % TWO_16) && o.rest == rest)
            && (o.result.Err? ==> o.result == Err(AuthFailed) && o.output == [0x05, 0xFF])
  {
    hide Be16, ReadRequest, Negotiate, Reply;
    var request := TunnelConnect6(serverIp6, serverPort);
    if auth.None? {
      var c := TunnelClient(V6(serverIp6), serverPort);
      Be16Low(serverPort);
      ServeInvertsClient(c, None, dial, rest);
      assert EncodeClient(c, None) == TunnelGreeting() + request;
    } else {
      assert TunnelGreeting() + (request + rest) == TunnelGreeting() + request + rest;
      TunnelRefused(request + rest, auth);
    }
  }

  /** A server that wants a password refuses the tunnel's only method. */
  lemma TunnelRefused(rest: Bytes, auth: Auth)
    requires auth.Some?
    ensures var o := Negotiate(TunnelGreeting() + rest, auth);
            o.result == Err(AuthFailed) && o.output == [0x05, 0xFF]
  {
    hide Counted, Authenticate;
    assert (TunnelGreeting() + rest)[1..] == [1] + [AUTH_NONE] + rest;
    CountedInverts([AUTH_NONE], rest);
  }

  /** What connectToProxy takes for application data: all that follows a 2-octet and a 10-octet read. */
  function TunnelData(fromServer: Bytes): Bytes {
    if |fromServer| < 12 then [] else fromServer[12..]
  }

  /** What a proxy of section 6 of RFC 1928 answers; its bound address may be of any type. */
  function Answers(bound: Dest): Bytes
    requires ValidDest(bound)
  {
    [0x05, 0x00] + [0x05, 0x00, 0x00] + EncodeHost(bound.host) + Be16(bound.port)
  }

  /** The client's data starts where the proxy's relay starts exactly when the bound address takes up four
      octets on the wire, as an IPv4 address does: an IPv6 one leaves its last twelve octets in front of
      the data. (With a shorter name there is also nothing to lose before the proxy relays anything.) */
  lemma TunnelDataIsRelayIff(bound: Dest, relayed: Bytes)
    requires ValidDest(bound)
    ensures var n := |EncodeHost(bound.host)| - 1;
            TunnelData(Answers(bound) + relayed) == relayed <==> n == 4 || (n < 4 && relayed == [])
  {
    hide Be16;
    var out, n := Answers(bound), |EncodeHost(bound.host)| - 1;
    assert |out| == 8 + n;
    if n == 4 {
      assert (out + relayed)[12..] == relayed;
    } else if |out + relayed| >= 12 {
      assert |(out + relayed)[12..]| == |relayed| + n - 4;
    }
  }

  /** Behind this server, whose connection to an IPv4 destination has an IPv4 local address, it does. */
  lemma TunnelDataFromServer(serverIp: Int32, serverPort: int, ip: Bytes, port: nat, relayed: Bytes)
    requires |ip| == 4 && port < TWO_16
    ensures var o := Serve(TunnelGreeting() + TunnelConnect(serverIp, serverPort), None, Connected(ip, port));
            TunnelData(o.output + relayed) == relayed
  {
    hide Be16, Be32, ReadRequest, Negotiate;
    var c := TunnelClient(V4(Be32(serverIp)), serverPort);
    Be16Low(serverPort);
    ServeInvertsClient(c, None, Connected(ip, port), []);
    assert EncodeClient(c, None) + [] == TunnelGreeting() + TunnelConnect(serverIp, serverPort);
    var bound := Dest(V4(ip), port);
    assert [VERSION, AUTH_NONE] + Reply(REPLY_SUCCESS, ip, port) == Answers(bound);
    TunnelDataIsRelayIff(bound, relayed);
  }
}
