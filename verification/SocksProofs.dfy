/**
 Locality, round trip and safety of the SOCKS5 session. The grammar of what the client sends
 and the octets it gets back are written out in the numbers of RFC 1928 and RFC 1929.
 */
module SocksProofs {
  import opened Bytes
  import opened Wrappers
  import opened Socks

  // ----- locality: a decided session is not changed by what comes later -----

  function More(w: Wire, ext: seq<Byte>): Wire {
    w.(inp := w.inp + ext)
  }

  /** How a step on some input relates to the same step with `ext` appended to the input. */
  ghost predicate Extends<T>(s: Step<T>, s': Step<T>, ext: seq<Byte>) {
    if s.r == Failure(UnexpectedEof) then s.wire.out <= s'.wire.out
    else s' == Step(More(s.wire, ext), s.r)
  }

  ghost predicate KeepsOutput<T>(w: Wire, s: Step<T>) {
    w.out <= s.wire.out && |s.wire.out| + s.wire.room == |w.out| + w.room
  }

  lemma TakeLocal(w: Wire, n: nat, ext: seq<Byte>)
    ensures Extends(Take(w, n), Take(More(w, ext), n), ext)
    ensures KeepsOutput(w, Take(w, n))
  {
    if n <= |w.inp| {
      assert (w.inp + ext)[..n] == w.inp[..n];
      assert (w.inp + ext)[n..] == w.inp[n..] + ext;
    }
  }

  lemma TakeCountedLocal(w: Wire, ext: seq<Byte>)
    ensures Extends(TakeCounted(w), TakeCounted(More(w, ext)), ext)
    ensures KeepsOutput(w, TakeCounted(w)) && KeepsOutput(w, TakeCounted(More(w, ext)))
    ensures TakeCounted(w).wire.out == w.out
  {
    TakeLocal(w, 1, ext);
    TakeLocal(More(w, ext), 1, []);
    var len := Take(w, 1);
    if len.r.Success? {
      TakeLocal(len.wire, len.r.value[0], ext);
    }
  }

  lemma SendLocal(w: Wire, data: seq<Byte>, ext: seq<Byte>)
    ensures Extends(Send(w, data), Send(More(w, ext), data), ext)
    ensures KeepsOutput(w, Send(w, data)) && KeepsOutput(w, Send(More(w, ext), data))
    ensures Send(w, data).r != Failure(UnexpectedEof)
  {
  }

  lemma UserPassOutput(w: Wire, utf8: seq<Byte> -> Option<string>)
    ensures KeepsOutput(w, UserPass(w, utf8))
  {
    TakeLocal(w, 1, []);
    var ver := Take(w, 1);
    TakeCountedLocal(ver.wire, []);
    var uname := TakeCounted(ver.wire);
    TakeCountedLocal(uname.wire, []);
  }

  lemma UserPassLocal(w: Wire, utf8: seq<Byte> -> Option<string>, ext: seq<Byte>)
    ensures Extends(UserPass(w, utf8), UserPass(More(w, ext), utf8), ext)
  {
    hide TakeCounted, Send;
    UserPassOutput(More(w, ext), utf8);
    TakeLocal(w, 1, ext);
    var ver := Take(w, 1);
    if ver.r.Success? && ver.r.value[0] == 1 {
      TakeCountedLocal(ver.wire, ext);
      var uname := TakeCounted(ver.wire);
      if uname.r.Success? {
        TakeCountedLocal(uname.wire, ext);
        var passwd := TakeCounted(uname.wire);
        if passwd.r.Success? {
          SendLocal(passwd.wire, [1, 0], ext);
        }
      }
    }
  }

  lemma NegotiateOutput(w: Wire, utf8: seq<Byte> -> Option<string>)
    ensures KeepsOutput(w, Negotiate(w, utf8))
  {
    hide UserPass;
    TakeLocal(w, 2, []);
    var hdr := Take(w, 2);
    if hdr.r.Success? {
      TakeLocal(hdr.wire, hdr.r.value[1], []);
      var methods := Take(hdr.wire, hdr.r.value[1]);
      if methods.r.Success? {
        var sent := Send(methods.wire, [5, Choose(methods.r.value)]);
        UserPassOutput(sent.wire, utf8);
      }
    }
  }

  lemma NegotiateLocal(w: Wire, utf8: seq<Byte> -> Option<string>, ext: seq<Byte>)
    ensures Extends(Negotiate(w, utf8), Negotiate(More(w, ext), utf8), ext)
  {
    hide UserPass, Send;
    NegotiateOutput(More(w, ext), utf8);
    TakeLocal(w, 2, ext);
    var hdr := Take(w, 2);
    if hdr.r.Success? && hdr.r.value[0] == 5 {
      TakeLocal(hdr.wire, hdr.r.value[1], ext);
      var methods := Take(hdr.wire, hdr.r.value[1]);
      if methods.r.Success? {
        var reply := [5, Choose(methods.r.value)];
        SendLocal(methods.wire, reply, ext);
        UserPassLocal(Send(methods.wire, reply).wire, utf8, ext);
      }
    }
  }

  lemma AddressLocal(w: Wire, atyp: Byte, utf8: seq<Byte> -> Option<string>, ext: seq<Byte>)
    ensures Extends(Address(w, atyp, utf8), Address(More(w, ext), atyp, utf8), ext)
    ensures KeepsOutput(w, Address(w, atyp, utf8))
  {
    hide TakeCounted, Send;
    TakeLocal(w, if atyp == 1 then 4 else 16, ext);
    TakeCountedLocal(w, ext);
    SendLocal(w, ReplyBytes(8), ext);
  }

  lemma RequestOutput(w: Wire, utf8: seq<Byte> -> Option<string>)
    ensures KeepsOutput(w, Request(w, utf8))
  {
    hide Address;
    var hdr := Take(w, 4);
    if hdr.r.Success? {
      AddressLocal(hdr.wire, hdr.r.value[3], utf8, []);
    }
  }

  lemma RequestLocal(w: Wire, utf8: seq<Byte> -> Option<string>, ext: seq<Byte>)
    ensures Extends(Request(w, utf8), Request(More(w, ext), utf8), ext)
  {
    hide Address, Send;
    RequestOutput(More(w, ext), utf8);
    TakeLocal(w, 4, ext);
    var hdr := Take(w, 4);
    if hdr.r.Success? && hdr.r.value[0] == 5 {
      SendLocal(hdr.wire, ReplyBytes(7), ext);
      AddressLocal(hdr.wire, hdr.r.value[3], utf8, ext);
      var dest := Address(hdr.wire, hdr.r.value[3], utf8);
      if dest.r.Success? {
        TakeLocal(dest.wire, 2, ext);
      }
    }
  }

  lemma HandshakeLocal(w: Wire, utf8: seq<Byte> -> Option<string>, ext: seq<Byte>)
    ensures Extends(Handshake(w, utf8), Handshake(More(w, ext), utf8), ext)
    ensures KeepsOutput(w, Handshake(w, utf8))
  {
    hide Negotiate, Request;
    NegotiateLocal(w, utf8, ext);
    NegotiateOutput(w, utf8);
    NegotiateOutput(More(w, ext), utf8);
    var id, id' := Negotiate(w, utf8), Negotiate(More(w, ext), utf8);
    RequestOutput(id.wire, utf8);
    RequestOutput(id'.wire, utf8);
    RequestLocal(id.wire, utf8, ext);
  }

  /** Once the octets so far decide a session, nothing that follows changes its result, its
      connection attempt or what was sent; the extra octets are simply left unread. While
      the session still waits for input, whatever was sent already stays sent. */
  lemma SessionIsLocal(w: Wire, env: Env, ext: seq<Byte>)
    ensures
      var s, s' := Session(w, env), Session(More(w, ext), env);
      if s.r == Failure(UnexpectedEof) then s.attempted.None? && s.wire.out <= s'.wire.out
      else s' == Outcome(More(s.wire, ext), s.r, s.attempted)
  {
    hide Handshake, Send;
    HandshakeLocal(w, env.utf8, ext);
    var h, h' := Handshake(w, env.utf8), Handshake(More(w, ext), env.utf8);
    forall data: seq<Byte>
      ensures Send(h.wire, data).r != Failure(UnexpectedEof)
      ensures Extends(Send(h.wire, data), Send(More(h.wire, ext), data), ext)
      ensures KeepsOutput(h'.wire, Send(h'.wire, data))
    {
      SendLocal(h.wire, data, ext);
      SendLocal(h'.wire, data, []);
    }
  }

  // ----- the handshake grammar, both directions -----

  datatype Dest = DomainName(octets: seq<Byte>) | IPv4(octets: seq<Byte>) | IPv6(octets: seq<Byte>)

  /** A client's side of the handshake (sections 3 and 4 of RFC 1928, section 2 of RFC 1929). */
  datatype Hello = Hello(methods: seq<Byte>, credentials: Option<(seq<Byte>, seq<Byte>)>,
                         reserved: Byte, dest: Dest, port: U16)

  ghost predicate WellFormed(h: Hello, utf8: seq<Byte> -> Option<string>) {
    && |h.methods| < 256
    && (h.credentials.Some? <==> 2 in h.methods)
    && (h.credentials.None? ==> 0 in h.methods)
    && (h.credentials.Some? ==>
          |h.credentials.value.0| < 256 && |h.credentials.value.1| < 256 && utf8(h.credentials.value.0).Some?)
    && match h.dest
       case DomainName(octets) => |octets| < 256 && utf8(octets).Some?
       case IPv4(octets) => |octets| == 4
       case IPv6(octets) => |octets| == 16
  }

  function Counted(b: seq<Byte>): seq<Byte>
    requires |b| < 256
  {
    [|b|] + b
  }

  function CredentialBytes(c: Option<(seq<Byte>, seq<Byte>)>): seq<Byte>
    requires c.Some? ==> |c.value.0| < 256 && |c.value.1| < 256
  {
    match c
    case None => []
    case Some((user, pass)) => [1] + Counted(user) + Counted(pass)
  }

  function DestBytes(d: Dest): seq<Byte>
    requires d.DomainName? ==> |d.octets| < 256
  {
    if d.DomainName? then Counted(d.octets) else d.octets
  }

  function AddressType(d: Dest): Byte {
    match d
    case DomainName(_) => 3
    case IPv4(_) => 1
    case IPv6(_) => 4
  }

  ghost function GreetingBytes(h: Hello, utf8: seq<Byte> -> Option<string>): seq<Byte>
    requires WellFormed(h, utf8)
  {
    [5] + Counted(h.methods) + CredentialBytes(h.credentials)
  }

  ghost function RequestBytes(h: Hello, utf8: seq<Byte> -> Option<string>): seq<Byte>
    requires WellFormed(h, utf8)
  {
    [5, 1, h.reserved, AddressType(h.dest)] + DestBytes(h.dest) + Be16(h.port)
  }

  /** What the server sends before it looks at the request. */
  function Greetings(h: Hello): seq<Byte> {
    if h.credentials.Some? then [5, 2, 1, 0]
    else [5, 0]
  }

  function Identity(h: Hello, utf8: seq<Byte> -> Option<string>): string
    requires h.credentials.Some? ==> utf8(h.credentials.value.0).Some?
  {
    match h.credentials
    case None => "default"
    case Some((user, _)) => if utf8(user).value == "" then "default" else utf8(user).value
  }

  ghost function Asked(h: Hello, utf8: seq<Byte> -> Option<string>): Target
    requires WellFormed(h, utf8)
  {
    Target(Identity(h, utf8), if h.dest.DomainName? then Host(utf8(h.dest.octets).value) else Ip(h.dest.octets), h.port)
  }

  // ----- recovering a well-formed handshake -----

  lemma TakePrefix(w: Wire, a: seq<Byte>, rest: seq<Byte>)
    requires w.inp == a + rest
    ensures Take(w, |a|) == Step(w.(inp := rest), Success(a))
  {
  }

  lemma TakeCountedPrefix(w: Wire, b: seq<Byte>, rest: seq<Byte>)
    requires |b| < 256 && w.inp == Counted(b) + rest
    ensures TakeCounted(w) == Step(w.(inp := rest), Success(b))
  {
    assert w.inp == [|b|] + (b + rest);
    TakePrefix(w, [|b|], b + rest);
    TakePrefix(w.(inp := b + rest), b, rest);
  }

  lemma UserPassRecovers(w: Wire, utf8: seq<Byte> -> Option<string>, user: seq<Byte>, pass: seq<Byte>, rest: seq<Byte>)
    requires |user| < 256 && |pass| < 256 && utf8(user).Some? && w.room >= 2
    requires w.inp == [1] + Counted(user) + Counted(pass) + rest
    ensures UserPass(w, utf8) ==
      Step(Wire(rest, w.out + [1, 0], w.room - 2), Success(Effective(utf8(user).value)))
  {
    var r1, r2 := Counted(user) + (Counted(pass) + rest), Counted(pass) + rest;
    assert w.inp == [1] + r1;
    TakePrefix(w, [1], r1);
    TakeCountedPrefix(w.(inp := r1), user, r2);
    TakeCountedPrefix(w.(inp := r2), pass, rest);
  }

  lemma GreetingParts(methods: seq<Byte>, credentials: Option<(seq<Byte>, seq<Byte>)>, rest: seq<Byte>)
    requires |methods| < 256 && (credentials.Some? ==> |credentials.value.0| < 256 && |credentials.value.1| < 256)
    ensures [5, |methods|] + (methods + (CredentialBytes(credentials) + rest))
            == [5] + Counted(methods) + CredentialBytes(credentials) + rest
  {
    var c := CredentialBytes(credentials);
    hide CredentialBytes;
    Regroup([5, |methods|], methods, c, rest);
    assert [5] + Counted(methods) == [5, |methods|] + methods;
  }

  lemma OfferRecovers(w: Wire, utf8: seq<Byte> -> Option<string>, methods: seq<Byte>, rest: seq<Byte>)
    requires |methods| < 256 && w.inp == [5, |methods|] + (methods + rest) && w.room >= 2
    requires 2 in methods || 0 in methods
    ensures
      var w2 := Wire(rest, w.out + [5, Choose(methods)], w.room - 2);
      Negotiate(w, utf8)
      == if 2 in methods then UserPass(w2, utf8) else Step(w2, Success("default"))
  {
    hide UserPass;
    TakePrefix(w, [5, |methods|], methods + rest);
    TakePrefix(w.(inp := methods + rest), methods, rest);
    hide Take;
  }

  lemma NegotiateRecovers(w: Wire, utf8: seq<Byte> -> Option<string>, h: Hello, rest: seq<Byte>)
    requires WellFormed(h, utf8) && w.inp == GreetingBytes(h, utf8) + rest && w.room >= |Greetings(h)|
    ensures Negotiate(w, utf8) ==
      Step(Wire(rest, w.out + Greetings(h), w.room - |Greetings(h)|), Success(Identity(h, utf8)))
  {
    hide Negotiate, UserPass;
    var r2 := CredentialBytes(h.credentials) + rest;
    GreetingParts(h.methods, h.credentials, rest);
    OfferRecovers(w, utf8, h.methods, r2);
    match h.credentials
    case None =>
      assert r2 == rest;
    case Some((user, pass)) =>
      var w2 := Wire(r2, w.out + [5, 2], w.room - 2);
      UserPassRecovers(w2, utf8, user, pass, rest);
      assert w2.out + [1, 0] == w.out + Greetings(h);
  }

  lemma RequestRecovers(w: Wire, utf8: seq<Byte> -> Option<string>, h: Hello, rest: seq<Byte>)
    requires WellFormed(h, utf8) && w.inp == RequestBytes(h, utf8) + rest
    ensures Request(w, utf8) == Step(w.(inp := rest), Success((Asked(h, utf8).dest, h.port)))
  {
    var hdr := [5, 1, h.reserved, AddressType(h.dest)];
    var r2 := Be16(h.port) + rest;
    var r1 := DestBytes(h.dest) + r2;
    assert w.inp == hdr + r1;
    TakePrefix(w, hdr, r1);
    if h.dest.DomainName? {
      TakeCountedPrefix(w.(inp := r1), h.dest.octets, r2);
    } else {
      TakePrefix(w.(inp := r1), h.dest.octets, r2);
    }
    TakePrefix(w.(inp := r2), Be16(h.port), rest);
    Be16RoundTrip(h.port);
  }

  /** Every well-formed handshake followed by any payload is recovered, and exactly its own
      octets are consumed. */
  lemma HandshakeRecovers(w: Wire, utf8: seq<Byte> -> Option<string>, h: Hello, payload: seq<Byte>)
    requires WellFormed(h, utf8) && w.room >= |Greetings(h)|
    requires w.inp == GreetingBytes(h, utf8) + RequestBytes(h, utf8) + payload
    ensures Handshake(w, utf8) ==
      Step(Wire(payload, w.out + Greetings(h), w.room - |Greetings(h)|), Success(Asked(h, utf8)))
  {
    var r1 := RequestBytes(h, utf8) + payload;
    assert w.inp == GreetingBytes(h, utf8) + r1;
    NegotiateRecovers(w, utf8, h, r1);
    RequestRecovers(Wire(r1, w.out + Greetings(h), w.room - |Greetings(h)|), utf8, h, payload);
  }

  // ----- and nothing else is accepted -----

  lemma TakeSound(w: Wire, n: nat)
    requires Take(w, n).r.Success?
    ensures |Take(w, n).r.value| == n && w.inp == Take(w, n).r.value + Take(w, n).wire.inp
  {
  }

  lemma TakeCountedSound(w: Wire)
    requires TakeCounted(w).r.Success?
    ensures |TakeCounted(w).r.value| < 256
    ensures w.inp == Counted(TakeCounted(w).r.value) + TakeCounted(w).wire.inp
  {
  }

  lemma UserPassSound(w: Wire, utf8: seq<Byte> -> Option<string>) returns (user: seq<Byte>, pass: seq<Byte>)
    requires UserPass(w, utf8).r.Success?
    ensures |user| < 256 && |pass| < 256 && utf8(user).Some? && w.room >= 2
    ensures w.inp == [1] + Counted(user) + Counted(pass) + UserPass(w, utf8).wire.inp
  {
    hide TakeCounted, Counted;
    var ver := Take(w, 1);
    TakeSound(w, 1);
    assert ver.r.value == [1];
    hide Take;
    TakeCountedSound(ver.wire);
    TakeCountedLocal(ver.wire, []);
    var uname := TakeCounted(ver.wire);
    TakeCountedSound(uname.wire);
    TakeCountedLocal(uname.wire, []);
    var passwd := TakeCounted(uname.wire);
    user, pass := uname.r.value, passwd.r.value;
    Regroup([1], Counted(user), Counted(pass), passwd.wire.inp);
  }

  /** A successful negotiation read an offer of methods and answered it. */
  lemma OfferSound(w: Wire, utf8: seq<Byte> -> Option<string>) returns (methods: seq<Byte>, mid: Wire)
    requires Negotiate(w, utf8).r.Success?
    ensures |methods| < 256 && w.inp == [5, |methods|] + (methods + mid.inp) && w.room == mid.room + 2
    ensures if 2 in methods then Negotiate(w, utf8) == UserPass(mid, utf8)
            else 0 in methods && Negotiate(w, utf8).wire == mid
  {
    hide UserPass;
    var hdr := Take(w, 2);
    TakeSound(w, 2);
    TakeSound(hdr.wire, hdr.r.value[1]);
    var offered := Take(hdr.wire, hdr.r.value[1]);
    methods := offered.r.value;
    mid := Send(offered.wire, [5, Choose(methods)]).wire;
    assert hdr.r.value == [5, |methods|];
    assert mid.inp == offered.wire.inp;
  }

  lemma NegotiateSound(w: Wire, utf8: seq<Byte> -> Option<string>)
    returns (methods: seq<Byte>, credentials: Option<(seq<Byte>, seq<Byte>)>)
    requires Negotiate(w, utf8).r.Success?
    ensures forall reserved, port :: WellFormed(Hello(methods, credentials, reserved, IPv4([0, 0, 0, 0]), port), utf8)
    ensures w.inp == [5] + Counted(methods) + CredentialBytes(credentials) + Negotiate(w, utf8).wire.inp
    ensures w.room >= if credentials.Some? then 4 else 2
  {
    hide Negotiate, UserPass;
    var mid;
    methods, mid := OfferSound(w, utf8);
    if 2 in methods {
      var user, pass := UserPassSound(mid, utf8);
      credentials := Some((user, pass));
      GreetingParts(methods, credentials, UserPass(mid, utf8).wire.inp);
    } else {
      credentials := None;
      GreetingParts(methods, credentials, mid.inp);
    }
  }

  lemma AddressSound(w: Wire, atyp: Byte, utf8: seq<Byte> -> Option<string>) returns (dest: Dest)
    requires Address(w, atyp, utf8).r.Success?
    ensures AddressType(dest) == atyp
    ensures dest.DomainName? ==> |dest.octets| < 256 && utf8(dest.octets).Some?
    ensures dest.IPv4? ==> |dest.octets| == 4
    ensures dest.IPv6? ==> |dest.octets| == 16
    ensures w.inp == DestBytes(dest) + Address(w, atyp, utf8).wire.inp
  {
    if atyp == 3 {
      TakeCountedSound(w);
      dest := DomainName(TakeCounted(w).r.value);
    } else if atyp == 1 {
      TakeSound(w, 4);
      dest := IPv4(Take(w, 4).r.value);
    } else {
      TakeSound(w, 16);
      dest := IPv6(Take(w, 16).r.value);
    }
  }

  /** A successful request read a header, an address and a port. */
  lemma RequestRead(w: Wire, utf8: seq<Byte> -> Option<string>) returns (reserved: Byte, atyp: Byte, mid: Wire, port: U16)
    requires Request(w, utf8).r.Success?
    ensures w.inp == [5, 1, reserved, atyp] + mid.inp
    ensures Address(mid, atyp, utf8).r.Success?
    ensures Address(mid, atyp, utf8).wire.inp == Be16(port) + Request(w, utf8).wire.inp
  {
    hide Address, Be16, FromBe16;
    var hdr := Take(w, 4);
    reserved, atyp, mid := hdr.r.value[2], hdr.r.value[3], hdr.wire;
    TakeSound(w, 4);
    assert hdr.r.value == [5, 1, reserved, atyp];
    var address := Address(mid, atyp, utf8);
    TakeSound(address.wire, 2);
    var tail := Take(address.wire, 2);
    assert Request(w, utf8).wire == tail.wire;
    hide Request, Take;
    port := FromBe16(tail.r.value[0], tail.r.value[1]);
    FromBe16RoundTrip(tail.r.value);
  }

  lemma RequestSound(w: Wire, utf8: seq<Byte> -> Option<string>) returns (reserved: Byte, dest: Dest, port: U16)
    requires Request(w, utf8).r.Success?
    ensures dest.DomainName? ==> |dest.octets| < 256 && utf8(dest.octets).Some?
    ensures dest.IPv4? ==> |dest.octets| == 4
    ensures dest.IPv6? ==> |dest.octets| == 16
    ensures w.inp == [5, 1, reserved, AddressType(dest)] + DestBytes(dest) + Be16(port)
                     + Request(w, utf8).wire.inp
  {
    hide Request, Address, DestBytes, AddressType, Be16;
    var atyp, mid;
    reserved, atyp, mid, port := RequestRead(w, utf8);
    dest := AddressSound(mid, atyp, utf8);
    Regroup([5, 1, reserved, atyp], DestBytes(dest), Be16(port), Request(w, utf8).wire.inp);
  }

  lemma Regroup(a: seq<Byte>, b: seq<Byte>, c: seq<Byte>, d: seq<Byte>)
    ensures a + (b + (c + d)) == a + b + c + d
  {
    assert a + b + c + d == a + b + (c + d);
  }

  /** The handshake succeeds exactly when the input begins with a well-formed one and the
      client takes the two or four octets of greetings. */
  lemma HandshakeAcceptsExactlyWellFormed(w: Wire, utf8: seq<Byte> -> Option<string>)
    ensures Handshake(w, utf8).r.Success? <==>
            exists h: Hello, payload: seq<Byte> :: HandshakeInput(w, utf8, h, payload)
  {
    if Handshake(w, utf8).r.Success? {
      var h := HandshakeSound(w, utf8);
      assert HandshakeInput(w, utf8, h, Handshake(w, utf8).wire.inp);
    }
    if h, payload :| HandshakeInput(w, utf8, h, payload) {
      HandshakeRecovers(w, utf8, h, payload);
    }
  }

  ghost predicate HandshakeInput(w: Wire, utf8: seq<Byte> -> Option<string>, h: Hello, payload: seq<Byte>) {
    && WellFormed(h, utf8) && w.room >= |Greetings(h)|
    && w.inp == GreetingBytes(h, utf8) + RequestBytes(h, utf8) + payload
  }

  lemma HandshakeSound(w: Wire, utf8: seq<Byte> -> Option<string>) returns (h: Hello)
    requires Handshake(w, utf8).r.Success?
    ensures HandshakeInput(w, utf8, h, Handshake(w, utf8).wire.inp)
  {
    hide Negotiate, Request;
    var id := Negotiate(w, utf8);
    var methods, credentials := NegotiateSound(w, utf8);
    var reserved, dest, port := RequestSound(id.wire, utf8);
    assert WellFormed(Hello(methods, credentials, reserved, IPv4([0, 0, 0, 0]), port), utf8);
    h := Hello(methods, credentials, reserved, dest, port);
    hide CredentialBytes, DestBytes, AddressType, Be16;
    var greeting, request, rest := GreetingBytes(h, utf8), RequestBytes(h, utf8), Handshake(w, utf8).wire.inp;
    assert w.inp == greeting + id.wire.inp && id.wire.inp == request + rest;
    hide GreetingBytes, RequestBytes, Handshake;
    assert greeting + request + rest == greeting + (request + rest);
  }

  // ----- isolation keys -----

  /** The username a client authenticates with, or the empty one. */
  function Username(h: Hello, utf8: seq<Byte> -> Option<string>): string
    requires h.credentials.Some? ==> utf8(h.credentials.value.0).Some?
  {
    if h.credentials.Some? then utf8(h.credentials.value.0).value else ""
  }

  predicate SameUser(u: string, u': string) {
    u == u' || (u in {"", "default"} && u' in {"", "default"})
  }

  /** Two clients land in the same isolation bucket exactly when their effective usernames
      are equal: no credentials, an empty username and the username "default" are one. */
  lemma SameBucketExactly(h: Hello, h': Hello, utf8: seq<Byte> -> Option<string>)
    requires WellFormed(h, utf8) && WellFormed(h', utf8)
    ensures Identity(h, utf8) == Identity(h', utf8) <==> SameUser(Username(h, utf8), Username(h', utf8))
  {
  }

  // ----- what is sent, and when -----

  /** What a session sends before any reply: one method choice, and an authentication status
      after choosing username/password. */
  predicate PartOfGreeting(sent: seq<Byte>) {
    || sent <= [5, 255]
    || sent <= [5, 0]
    || sent <= [5, 2, 1, 0]
  }

  predicate FullGreeting(sent: seq<Byte>) {
    || sent == [5, 0]
    || sent == [5, 2, 1, 0]
  }

  /** A full greeting and one ten-octet reply, cut off where the client stopped accepting. */
  predicate Replied(sent: seq<Byte>, code: Byte, room: nat) {
    var plain := [5, 0, 5, code, 0, 1, 0, 0, 0, 0, 0, 0];
    var status := [5, 2, 1, 0, 5, code, 0, 1, 0, 0, 0, 0, 0, 0];
    || (2 <= |sent| && sent <= plain && (room >= 12 ==> sent == plain))
    || (4 <= |sent| && sent <= status && (room >= 14 ==> sent == status))
  }

  /** The reply code of section 6 of RFC 1928 that tells a client how its session ended. */
  function CodeFor(s: Outcome): Option<Byte> {
    match s.r
    case Success(_) => Some(0)
    case Failure(OnlyConnect(_)) => Some(7)
    case Failure(UnsupportedAddressType(_)) => Some(8)
    case Failure(RawIpRejected) => Some(2)
    case Failure(UpstreamFailed) => Some(1)
    case Failure(BrokenPipe) => if s.attempted.Some? then Some(0) else None
    case Failure(_) => None
  }

  function Sent(w: Wire, later: Wire): seq<Byte>
    requires w.out <= later.out
  {
    later.out[|w.out|..]
  }

  lemma UserPassSends(w: Wire, utf8: seq<Byte> -> Option<string>)
    ensures KeepsOutput(w, UserPass(w, utf8))
    ensures Sent(w, UserPass(w, utf8).wire) <= [1, 0]
    ensures UserPass(w, utf8).r.Success? ==>
              Sent(w, UserPass(w, utf8).wire) == [1, 0]
  {
    hide TakeCounted;
    UserPassOutput(w, utf8);
    var ver := Take(w, 1);
    TakeCountedLocal(ver.wire, []);
    TakeCountedLocal(TakeCounted(ver.wire).wire, []);
  }

  lemma NegotiateSends(w: Wire, utf8: seq<Byte> -> Option<string>)
    ensures KeepsOutput(w, Negotiate(w, utf8))
    ensures PartOfGreeting(Sent(w, Negotiate(w, utf8).wire))
    ensures Negotiate(w, utf8).r.Success? ==> FullGreeting(Sent(w, Negotiate(w, utf8).wire))
  {
    NegotiateOutput(w, utf8);
    var hdr := Take(w, 2);
    if hdr.r.Success? && hdr.r.value[0] == 5 {
      var methods := Take(hdr.wire, hdr.r.value[1]);
      if methods.r.Success? {
        var choice := Choose(methods.r.value);
        var sent := Send(methods.wire, [5, choice]);
        if sent.r.Success? && choice == 2 {
          assert Negotiate(w, utf8) == UserPass(sent.wire, utf8);
          assert sent.wire.out == w.out + [5, 2];
          hide Negotiate, Take, Send, UserPass;
          UserPassSends(sent.wire, utf8);
          SentTwice(w, sent.wire, UserPass(sent.wire, utf8).wire);
        }
      }
    }
  }

  lemma SentTwice(w: Wire, mid: Wire, later: Wire)
    requires w.out <= mid.out <= later.out
    ensures Sent(w, later) == Sent(w, mid) + Sent(mid, later)
  {
  }

  /** The session is behind its greeting and has sent nothing else. */
  predicate Greeted(w: Wire, mid: Wire) {
    w.out <= mid.out && FullGreeting(Sent(w, mid)) && |mid.out| + mid.room == |w.out| + w.room
  }

  lemma SendOnce(w: Wire, mid: Wire, c: Byte)
    requires Greeted(w, mid)
    ensures w.out <= Send(mid, ReplyBytes(c)).wire.out
    ensures Replied(Sent(w, Send(mid, ReplyBytes(c)).wire), c, w.room)
  {
    var later := Send(mid, ReplyBytes(c)).wire;
    var piece := if 10 <= mid.room then ReplyBytes(c) else ReplyBytes(c)[..mid.room];
    assert later.out == mid.out + piece;
    assert Sent(w, later) == Sent(w, mid) + piece;
    WholeReplies(c);
    assert piece <= ReplyBytes(c);
    hide ReplyBytes, Send;
    assert Sent(w, later) <= Sent(w, mid) + ReplyBytes(c);
  }

  lemma WholeReplies(c: Byte)
    ensures [5, 0] + ReplyBytes(c) == [5, 0, 5, c, 0, 1, 0, 0, 0, 0, 0, 0]
    ensures [5, 2, 1, 0] + ReplyBytes(c) == [5, 2, 1, 0, 5, c, 0, 1, 0, 0, 0, 0, 0, 0]
  {
  }

  lemma AddressError(w: Wire, atyp: Byte, utf8: seq<Byte> -> Option<string>)
    ensures
      var a := Address(w, atyp, utf8);
      if a.r.Failure? && a.r.error.UnsupportedAddressType? then a.wire == Send(w, ReplyBytes(8)).wire
      else a.wire.out == w.out && a.wire.room == w.room && (a.r.Failure? ==> a.r.error in {UnexpectedEof, DomainNotUtf8})
  {
  }

  /** The request part replies only to refuse a command or an address type. */
  lemma RequestSends(w: Wire, mid: Wire, utf8: seq<Byte> -> Option<string>)
    requires Greeted(w, mid)
    ensures
      var req := Request(mid, utf8);
      var s := Outcome(req.wire, if req.r.Failure? then Failure(req.r.error) else Failure(UnexpectedEof), None);
      && w.out <= req.wire.out
      && (if CodeFor(s).Some? then Replied(Sent(w, req.wire), CodeFor(s).value, w.room) else Greeted(w, req.wire))
      && (req.r.Failure? ==> req.r.error !in {RawIpRejected, UpstreamFailed, BrokenPipe})
  {
    hide Address, Replied, FullGreeting;
    var hdr := Take(mid, 4);
    if hdr.r.Success? && hdr.r.value[0] == 5 {
      if hdr.r.value[1] != 1 {
        SendOnce(w, hdr.wire, 7);
        hide Send;
      } else {
        AddressError(hdr.wire, hdr.r.value[3], utf8);
        SendOnce(w, hdr.wire, 8);
        hide Send;
      }
    }
  }

  lemma NegotiateError(w: Wire, utf8: seq<Byte> -> Option<string>)
    requires Negotiate(w, utf8).r.Failure?
    ensures CodeFor(Outcome(w, Failure(Negotiate(w, utf8).r.error), None)).None?
  {
  }

  /** Over every input, however the client behaves: a session that ended in the request or
      later has sent its greeting and the one reply that fits how it ended, whole if the client
      accepts 14 octets, and a session that ended before has sent part of a greeting; the
      success reply goes out exactly when the Tor client connected; a connection is attempted
      only to a target that policy allows, so never to a raw address under the strict policy;
      and a successful session reports that very target. */
  lemma SessionIsSafe(w: Wire, env: Env)
    ensures
      var s := Session(w, env);
      var connected := s.attempted.Some? && env.connects(s.attempted.value);
      && w.out <= s.wire.out
      && (match CodeFor(s)
          case None => PartOfGreeting(Sent(w, s.wire))
          case Some(c) => Replied(Sent(w, s.wire), c, w.room))
      && (CodeFor(s) == Some(0) <==> connected)
      && (s.attempted.Some? ==> s.attempted.value.dest.Host? || env.policy.allowRawIp)
      && (s.r.Success? ==> s.attempted == Some(s.r.value))
  {
    hide Negotiate, Request, Replied, FullGreeting, PartOfGreeting;
    NegotiateSends(w, env.utf8);
    var id := Negotiate(w, env.utf8);
    if id.r.Failure? {
      NegotiateError(w, env.utf8);
    } else {
      RequestSends(w, id.wire, env.utf8);
      var req := Request(id.wire, env.utf8);
      if req.r.Failure? {
        if Greeted(w, req.wire) {
          GreetingIsPart(Sent(w, req.wire));
        }
      } else {
        SendOnce(w, req.wire, 0);
        SendOnce(w, req.wire, 1);
        SendOnce(w, req.wire, 2);
      }
    }
  }

  lemma GreetingIsPart(sent: seq<Byte>)
    requires FullGreeting(sent)
    ensures PartOfGreeting(sent)
  {
  }

  // ----- how a session ends, from what the client sends -----

  function Reply(code: Byte): seq<Byte> {
    [5, code, 0, 1, 0, 0, 0, 0, 0, 0]
  }

  /** The greeting part of a session: what of it is consumed and sent. */
  function AfterGreeting(w: Wire, h: Hello, rest: seq<Byte>): Wire
    requires w.room >= |Greetings(h)|
  {
    Wire(rest, w.out + Greetings(h), w.room - |Greetings(h)|)
  }

  lemma WholeReply(w: Wire, code: Byte)
    requires w.room >= 10
    ensures Send(w, ReplyBytes(code)).wire == Wire(w.inp, w.out + Reply(code), w.room - 10)
    ensures Send(w, ReplyBytes(code)).r.Success?
  {
  }

  /** A well-formed handshake ends in exactly one of three ways: an address under the strict
      policy is refused with code 2 without a connection attempt; anything else is attempted,
      and answered with code 0 and spliced from the payload on, or with code 1. */
  lemma WellFormedSession(w: Wire, env: Env, h: Hello, payload: seq<Byte>)
    requires HandshakeInput(w, env.utf8, h, payload) && w.room >= |Greetings(h)| + 10
    ensures
      var target := Asked(h, env.utf8);
      var allowed := h.dest.DomainName? || env.policy.allowRawIp;
      var code: Byte := if !allowed then 2 else if env.connects(target) then 0 else 1;
      Session(w, env) ==
        Outcome(Wire(payload, w.out + Greetings(h) + [5, code, 0, 1, 0, 0, 0, 0, 0, 0], w.room - |Greetings(h)| - 10),
                if !allowed then Failure(RawIpRejected)
                else if env.connects(target) then Success(target) else Failure(UpstreamFailed),
                if allowed then Some(target) else None)
  {
    HandshakeRecovers(w, env.utf8, h, payload);
    var w1 := AfterGreeting(w, h, payload);
    hide Handshake, Send, Greetings, ReplyBytes;
    WholeReply(w1, 0);
    WholeReply(w1, 1);
    WholeReply(w1, 2);
  }

  /** After a well-formed greeting, a command octet other than 1 is refused with code 7, and an
      address type other than 1, 3 and 4 with code 8, whatever follows. */
  lemma RefusedRequest(w: Wire, env: Env, h: Hello, cmd: Byte, reserved: Byte, atyp: Byte, rest: seq<Byte>)
    requires WellFormed(h, env.utf8) && w.room >= |Greetings(h)| + 10
    requires w.inp == GreetingBytes(h, env.utf8) + ([5, cmd, reserved, atyp] + rest)
    requires cmd != 1 || (atyp != 1 && atyp != 3 && atyp != 4)
    ensures
      var code: Byte := if cmd != 1 then 7 else 8;
      Session(w, env) ==
        Outcome(Wire(rest, w.out + Greetings(h) + [5, code, 0, 1, 0, 0, 0, 0, 0, 0], w.room - |Greetings(h)| - 10),
                Failure(if cmd != 1 then OnlyConnect(cmd) else UnsupportedAddressType(atyp)), None)
  {
    var w1 := AfterGreeting(w, h, [5, cmd, reserved, atyp] + rest);
    NegotiateRecovers(w, env.utf8, h, [5, cmd, reserved, atyp] + rest);
    TakePrefix(w1, [5, cmd, reserved, atyp], rest);
    hide Negotiate, Take, Send, Greetings, ReplyBytes;
    WholeReply(w1.(inp := rest), 7);
    WholeReply(w1.(inp := rest), 8);
  }

  /** An offer of neither method 0 nor method 2 is answered with method 255, and that is all. */
  lemma RefusedOffer(w: Wire, env: Env, methods: seq<Byte>, rest: seq<Byte>)
    requires |methods| < 256 && 0 !in methods && 2 !in methods && w.room >= 2
    requires w.inp == [5, |methods|] + (methods + rest)
    ensures Session(w, env) == Outcome(Wire(rest, w.out + [5, 255], w.room - 2), Failure(NoAcceptableMethod), None)
  {
    TakePrefix(w, [5, |methods|], methods + rest);
    TakePrefix(w.(inp := methods + rest), methods, rest);
    hide Take, UserPass, Request;
  }
}
