/**
 The SOCKS5 front end: one session over a client connection, CONNECT only.

 `Wire` is a connection as a value: the octets the client will still deliver before it
 closes its side, the octets sent back so far, and how many more the client accepts before
 its end breaks. `Session` and its parts are the specification; the methods run on a
 `Client` whose input arrives in chunks of any size.
 */
module Socks {
  import opened Bytes
  import opened Wrappers

  const SOCKS_VERSION: Byte := 5
  const METHOD_NO_AUTH: Byte := 0
  const METHOD_USERPASS: Byte := 2
  const METHOD_NONE_ACCEPTABLE: Byte := 0xFF
  const USERPASS_VERSION: Byte := 1
  const USERPASS_STATUS_OK: Byte := 0
  const DEFAULT_ISOLATION: string := "default"
  const CMD_CONNECT: Byte := 1
  const ATYP_IPV4: Byte := 1
  const ATYP_DOMAIN: Byte := 3
  const ATYP_IPV6: Byte := 4
  const REP_SUCCESS: Byte := 0
  const REP_GENERAL_FAILURE: Byte := 1
  const REP_CONN_NOT_ALLOWED: Byte := 2
  const REP_CMD_NOT_SUPPORTED: Byte := 7
  const REP_ATYP_NOT_SUPPORTED: Byte := 8

  datatype Error =
    | UnexpectedEof
    | BrokenPipe
    | UnsupportedVersion(version: Byte)
    | NoAcceptableMethod
    | UnsupportedAuthVersion(version: Byte)
    | UsernameNotUtf8
    | UnsupportedRequestVersion(version: Byte)
    | OnlyConnect(cmd: Byte)
    | DomainNotUtf8
    | UnsupportedAddressType(atyp: Byte)
    | RawIpRejected
    | UpstreamFailed

  datatype Destination = Host(name: string) | Ip(octets: seq<Byte>)

  /** The leak policy decides on the form of the destination alone. */
  datatype LeakPolicy = LeakPolicy(allowRawIp: bool) {
    predicate Allows(dest: Destination) {
      dest.Host? || allowRawIp
    }
  }

  datatype Target = Target(identity: string, dest: Destination, port: U16)

  /** What lies outside the session: UTF-8 decoding, the policy, and whether a stream to a
      target can be opened through the Tor client. */
  datatype Env = Env(utf8: seq<Byte> -> Option<string>, policy: LeakPolicy, connects: Target -> bool)

  datatype Wire = Wire(inp: seq<Byte>, out: seq<Byte>, room: nat)

  datatype Step<T> = Step(wire: Wire, r: Result<T, Error>)

  function Take(w: Wire, n: nat): Step<seq<Byte>> {
    if n <= |w.inp| then Step(w.(inp := w.inp[n..]), Success(w.inp[..n]))
    else Step(w.(inp := []), Failure(UnexpectedEof))
  }

  function Send(w: Wire, data: seq<Byte>): Step<()> {
    if |data| <= w.room then Step(w.(out := w.out + data, room := w.room - |data|), Success(()))
    else Step(w.(out := w.out + data[..w.room], room := 0), Failure(BrokenPipe))
  }

  function ReplyBytes(rep: Byte): seq<Byte> {
    [SOCKS_VERSION, rep, 0, ATYP_IPV4, 0, 0, 0, 0, 0, 0]
  }

  function Effective(username: string): string {
    if username == "" then DEFAULT_ISOLATION else username
  }

  /** A one-octet length followed by that many octets. */
  function TakeCounted(w: Wire): Step<seq<Byte>> {
    var len := Take(w, 1);
    if len.r.Failure? then Step(len.wire, Failure(len.r.error)) else Take(len.wire, len.r.value[0])
  }

  function UserPass(w: Wire, utf8: seq<Byte> -> Option<string>): Step<string> {
    var ver := Take(w, 1);
    if ver.r.Failure? then Step(ver.wire, Failure(ver.r.error))
    else if ver.r.value[0] != USERPASS_VERSION then Step(ver.wire, Failure(UnsupportedAuthVersion(ver.r.value[0])))
    else
      var uname := TakeCounted(ver.wire);
      if uname.r.Failure? then Step(uname.wire, Failure(uname.r.error))
      else
        var passwd := TakeCounted(uname.wire);
        if passwd.r.Failure? then Step(passwd.wire, Failure(passwd.r.error))
        else
          var ok := Send(passwd.wire, [USERPASS_VERSION, USERPASS_STATUS_OK]);
          if ok.r.Failure? then Step(ok.wire, Failure(ok.r.error))
          else
            match utf8(uname.r.value)
            case None => Step(ok.wire, Failure(UsernameNotUtf8))
            case Some(name) => Step(ok.wire, Success(Effective(name)))
  }

  function Choose(methods: seq<Byte>): Byte {
    if METHOD_USERPASS in methods then METHOD_USERPASS
    else if METHOD_NO_AUTH in methods then METHOD_NO_AUTH
    else METHOD_NONE_ACCEPTABLE
  }

  function Negotiate(w: Wire, utf8: seq<Byte> -> Option<string>): Step<string> {
    var hdr := Take(w, 2);
    if hdr.r.Failure? then Step(hdr.wire, Failure(hdr.r.error))
    else if hdr.r.value[0] != SOCKS_VERSION then Step(hdr.wire, Failure(UnsupportedVersion(hdr.r.value[0])))
    else
      var methods := Take(hdr.wire, hdr.r.value[1]);
      if methods.r.Failure? then Step(methods.wire, Failure(methods.r.error))
      else
        var choice := Choose(methods.r.value);
        var sent := Send(methods.wire, [SOCKS_VERSION, choice]);
        if sent.r.Failure? then Step(sent.wire, Failure(sent.r.error))
        else if choice == METHOD_USERPASS then UserPass(sent.wire, utf8)
        else if choice == METHOD_NO_AUTH then Step(sent.wire, Success(DEFAULT_ISOLATION))
        else Step(sent.wire, Failure(NoAcceptableMethod))
  }

  function Address(w: Wire, atyp: Byte, utf8: seq<Byte> -> Option<string>): Step<Destination> {
    if atyp == ATYP_IPV4 || atyp == ATYP_IPV6 then
      var octets := Take(w, if atyp == ATYP_IPV4 then 4 else 16);
      if octets.r.Failure? then Step(octets.wire, Failure(octets.r.error))
      else Step(octets.wire, Success(Ip(octets.r.value)))
    else if atyp == ATYP_DOMAIN then
      var name := TakeCounted(w);
      if name.r.Failure? then Step(name.wire, Failure(name.r.error))
      else
        match utf8(name.r.value)
        case None => Step(name.wire, Failure(DomainNotUtf8))
        case Some(host) => Step(name.wire, Success(Host(host)))
    else Step(Send(w, ReplyBytes(REP_ATYP_NOT_SUPPORTED)).wire, Failure(UnsupportedAddressType(atyp)))
  }

  function Request(w: Wire, utf8: seq<Byte> -> Option<string>): Step<(Destination, U16)> {
    var hdr := Take(w, 4);
    if hdr.r.Failure? then Step(hdr.wire, Failure(hdr.r.error))
    else if hdr.r.value[0] != SOCKS_VERSION then
      Step(hdr.wire, Failure(UnsupportedRequestVersion(hdr.r.value[0])))
    else if hdr.r.value[1] != CMD_CONNECT then
      Step(Send(hdr.wire, ReplyBytes(REP_CMD_NOT_SUPPORTED)).wire, Failure(OnlyConnect(hdr.r.value[1])))
    else
      var dest := Address(hdr.wire, hdr.r.value[3], utf8);
      if dest.r.Failure? then Step(dest.wire, Failure(dest.r.error))
      else
        var port := Take(dest.wire, 2);
        if port.r.Failure? then Step(port.wire, Failure(port.r.error))
        else Step(port.wire, Success((dest.r.value, FromBe16(port.r.value[0], port.r.value[1]))))
  }

  /** Both halves of the handshake: who is asking, and for what. */
  function Handshake(w: Wire, utf8: seq<Byte> -> Option<string>): Step<Target> {
    var id := Negotiate(w, utf8);
    if id.r.Failure? then Step(id.wire, Failure(id.r.error))
    else
      var req := Request(id.wire, utf8);
      if req.r.Failure? then Step(req.wire, Failure(req.r.error))
      else Step(req.wire, Success(Target(id.r.value, req.r.value.0, req.r.value.1)))
  }

  /** `attempted` is the target the session asked the Tor client to connect to, if it got
      that far; on success the rest of `wire.inp` is what gets spliced to it. */
  datatype Outcome = Outcome(wire: Wire, r: Result<Target, Error>, attempted: Option<Target>)

  function Session(w: Wire, env: Env): Outcome {
    var h := Handshake(w, env.utf8);
    if h.r.Failure? then Outcome(h.wire, h.r, None)
    else
      var target := h.r.value;
      if !env.policy.Allows(target.dest) then
        Outcome(Send(h.wire, ReplyBytes(REP_CONN_NOT_ALLOWED)).wire, Failure(RawIpRejected), None)
      else if !env.connects(target) then
        Outcome(Send(h.wire, ReplyBytes(REP_GENERAL_FAILURE)).wire, Failure(UpstreamFailed), Some(target))
      else
        var done := Send(h.wire, ReplyBytes(REP_SUCCESS));
        Outcome(done.wire, if done.r.Failure? then Failure(done.r.error) else Success(target), Some(target))
  }

  // ----- the session as it runs -----

  function Flatten(chunks: seq<seq<Byte>>): seq<Byte> {
    if chunks == [] then [] else chunks[0] + Flatten(chunks[1..])
  }

  lemma SplitChunk(buf: seq<Byte>, chunk: seq<Byte>, k: nat, rest: seq<Byte>)
    requires k <= |chunk|
    ensures buf + (chunk + rest) == buf + chunk[..k] + (chunk[k..] + rest)
    ensures k == |chunk| ==> chunk[k..] + rest == rest
  {
  }

  class Client {
    var chunks: seq<seq<Byte>>
    var out: seq<Byte>
    var room: nat

    function View(): Wire
      reads this
    {
      Wire(Flatten(chunks), out, room)
    }

    constructor (chunks: seq<seq<Byte>>, room: nat)
      ensures this.chunks == chunks && View() == Wire(Flatten(chunks), [], room)
    {
      this.chunks, this.out, this.room := chunks, [], room;
    }

    /** Gathers chunks until n octets are there; running out of input loses what was read. */
    method ReadExact(n: nat) returns (r: Result<seq<Byte>, Error>)
      modifies this`chunks
      ensures Step(View(), r) == Take(old(View()), n)
    {
      var buf: seq<Byte> := [];
      ghost var all := Flatten(chunks);
      while |buf| < n
        invariant |buf| <= n
        invariant buf + Flatten(chunks) == all
        decreases n - |buf|, |chunks|
      {
        if chunks == [] {
          return Failure(UnexpectedEof);
        }
        var chunk := chunks[0];
        var k := if |chunk| <= n - |buf| then |chunk| else n - |buf|;
        SplitChunk(buf, chunk, k, Flatten(chunks[1..]));
        buf := buf + chunk[..k];
        if k == |chunk| {
          chunks := chunks[1..];
        } else {
          chunks := [chunk[k..]] + chunks[1..];
        }
      }
      assert all[..n] == buf && all[n..] == Flatten(chunks);
      return Success(buf);
    }

    method WriteAll(data: seq<Byte>) returns (r: Result<(), Error>)
      modifies this`out, this`room
      ensures Step(View(), r) == Send(old(View()), data)
    {
      if |data| <= room {
        out, room := out + data, room - |data|;
        return Success(());
      }
      out, room := out + data[..room], 0;
      return Failure(BrokenPipe);
    }
  }

  method ReadUserpassIdentity(client: Client, utf8: seq<Byte> -> Option<string>) returns (r: Result<string, Error>)
    modifies client
    ensures Step(client.View(), r) == UserPass(old(client.View()), utf8)
  {
    var ver := client.ReadExact(1);
    if ver.Failure? { return Failure(ver.error); }
    if ver.value[0] != USERPASS_VERSION { return Failure(UnsupportedAuthVersion(ver.value[0])); }

    var ulen := client.ReadExact(1);
    if ulen.Failure? { return Failure(ulen.error); }
    var uname := client.ReadExact(ulen.value[0]);
    if uname.Failure? { return Failure(uname.error); }

    var plen := client.ReadExact(1);
    if plen.Failure? { return Failure(plen.error); }
    var passwd := client.ReadExact(plen.value[0]);
    if passwd.Failure? { return Failure(passwd.error); }

    var sent := client.WriteAll([USERPASS_VERSION, USERPASS_STATUS_OK]);
    if sent.Failure? { return Failure(sent.error); }

    var identity := utf8(uname.value);
    if identity.None? { return Failure(UsernameNotUtf8); }
    return Success(if identity.value == "" then DEFAULT_ISOLATION else identity.value);
  }

  method NegotiateMethod(client: Client, utf8: seq<Byte> -> Option<string>) returns (r: Result<string, Error>)
    modifies client
    ensures Step(client.View(), r) == Negotiate(old(client.View()), utf8)
  {
    hide UserPass, Flatten;
    var hdr := client.ReadExact(2);
    if hdr.Failure? { return Failure(hdr.error); }
    if hdr.value[0] != SOCKS_VERSION { return Failure(UnsupportedVersion(hdr.value[0])); }
    var methods := client.ReadExact(hdr.value[1]);
    if methods.Failure? { return Failure(methods.error); }

    var sent;
    if METHOD_USERPASS in methods.value {
      sent := client.WriteAll([SOCKS_VERSION, METHOD_USERPASS]);
      if sent.Failure? { return Failure(sent.error); }
      r := ReadUserpassIdentity(client, utf8);
    } else if METHOD_NO_AUTH in methods.value {
      sent := client.WriteAll([SOCKS_VERSION, METHOD_NO_AUTH]);
      if sent.Failure? { return Failure(sent.error); }
      r := Success(DEFAULT_ISOLATION);
    } else {
      sent := client.WriteAll([SOCKS_VERSION, METHOD_NONE_ACCEPTABLE]);
      if sent.Failure? { return Failure(sent.error); }
      r := Failure(NoAcceptableMethod);
    }
  }

  method ReadConnectRequest(client: Client, utf8: seq<Byte> -> Option<string>)
    returns (r: Result<(Destination, U16), Error>)
    modifies client
    ensures Step(client.View(), r) == Request(old(client.View()), utf8)
  {
    var hdr := client.ReadExact(4);
    if hdr.Failure? { return Failure(hdr.error); }
    var ver, cmd, atyp := hdr.value[0], hdr.value[1], hdr.value[3];
    if ver != SOCKS_VERSION { return Failure(UnsupportedRequestVersion(ver)); }
    if cmd != CMD_CONNECT {
      var _ := client.WriteAll(ReplyBytes(REP_CMD_NOT_SUPPORTED));
      return Failure(OnlyConnect(cmd));
    }

    var dest;
    if atyp == ATYP_IPV4 {
      var buf := client.ReadExact(4);
      if buf.Failure? { return Failure(buf.error); }
      dest := Ip(buf.value);
    } else if atyp == ATYP_IPV6 {
      var buf := client.ReadExact(16);
      if buf.Failure? { return Failure(buf.error); }
      dest := Ip(buf.value);
    } else if atyp == ATYP_DOMAIN {
      var len := client.ReadExact(1);
      if len.Failure? { return Failure(len.error); }
      var name := client.ReadExact(len.value[0]);
      if name.Failure? { return Failure(name.error); }
      var host := utf8(name.value);
      if host.None? { return Failure(DomainNotUtf8); }
      dest := Host(host.value);
    } else {
      var _ := client.WriteAll(ReplyBytes(REP_ATYP_NOT_SUPPORTED));
      return Failure(UnsupportedAddressType(atyp));
    }

    var port := client.ReadExact(2);
    if port.Failure? { return Failure(port.error); }
    return Success((dest, FromBe16(port.value[0], port.value[1])));
  }

  /** The connection handler up to the splice. Its result depends on the octets received,
      not on how they were cut into chunks. */
  method HandleConn(client: Client, env: Env) returns (r: Result<Target, Error>, attempted: Option<Target>)
    modifies client
    ensures Outcome(client.View(), r, attempted) == Session(old(client.View()), env)
  {
    attempted := None;
    var identity := NegotiateMethod(client, env.utf8);
    if identity.Failure? { return Failure(identity.error), None; }
    var request := ReadConnectRequest(client, env.utf8);
    if request.Failure? { return Failure(request.error), None; }
    var target := Target(identity.value, request.value.0, request.value.1);

    if !env.policy.Allows(target.dest) {
      var _ := client.WriteAll(ReplyBytes(REP_CONN_NOT_ALLOWED));
      return Failure(RawIpRejected), None;
    }
    attempted := Some(target);
    if !env.connects(target) {
      var _ := client.WriteAll(ReplyBytes(REP_GENERAL_FAILURE));
      return Failure(UpstreamFailed), attempted;
    }
    var sent := client.WriteAll(ReplyBytes(REP_SUCCESS));
    if sent.Failure? { return Failure(sent.error), attempted; }
    return Success(target), attempted;
  }
}
