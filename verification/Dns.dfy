/**
 The DNS shim: parsing one question out of a request datagram, printing the response, and
 choosing which response a request gets. Strings produced by lossy UTF-8 decoding come from
 the parameter `lossy`, and the answer of the Tor exit relay is the parameter `resolve`.
 */
module Dns {
  import opened Bytes
  import opened Wrappers

  const QTYPE_A: U16 := 1
  const QTYPE_AAAA: U16 := 28
  const QCLASS_IN: U16 := 1
  const RCODE_NOERROR: Byte := 0
  const RCODE_SERVFAIL: Byte := 2
  const RCODE_NXDOMAIN: Byte := 3
  const RCODE_NOTIMP: Byte := 4
  const QUESTION_START: nat := 12
  const NAME_POINTER: seq<Byte> := [0xC0, 0x0C]
  const ANSWER_TTL: seq<Byte> := [0, 0, 0, 60]

  type Label = seq<Byte>

  datatype ParseError =
    | ShorterThanHeader
    | NoQuestions
    | TruncatedName
    | CompressedName
    | TruncatedLabel
    | TruncatedTypeClass
    | UnsupportedClass(qclass: U16)

  datatype ParsedQuery = ParsedQuery(id: U16, questionRaw: seq<Byte>, qname: string, qtype: U16)

  type Octets4 = b: seq<Byte> | |b| == 4 witness [0, 0, 0, 0]

  type Octets16 = b: seq<Byte> | |b| == 16 witness [0, 0, 0, 0, 0, 0, 0, 0, 0, 0, 0, 0, 0, 0, 0, 0]

  datatype IpAddr = V4(v4: Octets4) | V6(v6: Octets16)

  // ----- names -----

  function JoinDots(parts: seq<string>): string {
    if parts == [] then ""
    else if |parts| == 1 then parts[0]
    else parts[0] + "." + JoinDots(parts[1..])
  }

  function Texts(labels: seq<Label>, lossy: Label -> string): (t: seq<string>)
    ensures |t| == |labels|
  {
    seq(|labels|, i requires 0 <= i < |labels| => lossy(labels[i]))
  }

  /** The labels of an uncompressed name at `pos` and the position after its root label. */
  function ScanName(buf: seq<Byte>, pos: nat): (r: Result<(seq<Label>, nat), ParseError>)
    ensures r.Success? ==> pos < r.value.1 <= |buf|
    decreases |buf| - pos
  {
    if pos >= |buf| then Failure(TruncatedName)
    else if buf[pos] == 0 then Success(([], pos + 1))
    else if buf[pos] >= 64 then Failure(CompressedName)
    else if pos + 1 + buf[pos] > |buf| then Failure(TruncatedLabel)
    else
      match ScanName(buf, pos + 1 + buf[pos])
      case Failure(e) => Failure(e)
      case Success((labels, next)) => Success(([buf[pos + 1..pos + 1 + buf[pos]]] + labels, next))
  }

  /** A scan whose first labels have already been read. */
  function After(read: seq<Label>, r: Result<(seq<Label>, nat), ParseError>): Result<(seq<Label>, nat), ParseError> {
    match r
    case Failure(e) => Failure(e)
    case Success((labels, next)) => Success((read + labels, next))
  }

  function ReadQuestion(buf: seq<Byte>, lossy: Label -> string): Result<ParsedQuery, ParseError>
    requires |buf| >= QUESTION_START
  {
    match ScanName(buf, QUESTION_START)
    case Failure(e) => Failure(e)
    case Success((labels, pos)) =>
      if pos + 4 > |buf| then Failure(TruncatedTypeClass)
      else if FromBe16(buf[pos + 2], buf[pos + 3]) != QCLASS_IN then
        Failure(UnsupportedClass(FromBe16(buf[pos + 2], buf[pos + 3])))
      else
        Success(ParsedQuery(FromBe16(buf[0], buf[1]), buf[QUESTION_START..pos + 4],
                            JoinDots(Texts(labels, lossy)), FromBe16(buf[pos], buf[pos + 1])))
  }

  function Parse(buf: seq<Byte>, lossy: Label -> string): Result<ParsedQuery, ParseError> {
    if |buf| < QUESTION_START then Failure(ShorterThanHeader)
    else if FromBe16(buf[4], buf[5]) == 0 then Failure(NoQuestions)
    else ReadQuestion(buf, lossy)
  }

  /** The parser: one loop that advances `pos` label by label. */
  method ParseQuery(buf: seq<Byte>, lossy: Label -> string) returns (r: Result<ParsedQuery, ParseError>)
    ensures r == Parse(buf, lossy)
  {
    if |buf| < QUESTION_START {
      return Failure(ShorterThanHeader);
    }
    var id := FromBe16(buf[0], buf[1]);
    var qdcount := FromBe16(buf[4], buf[5]);
    if qdcount == 0 {
      return Failure(NoQuestions);
    }

    var pos := QUESTION_START;
    var labels: seq<string> := [];
    ghost var raw: seq<Label> := [];
    assert After(raw, ScanName(buf, pos)) == ScanName(buf, pos) by {
      assert forall rest: seq<Label> :: [] + rest == rest;
    }
    while true
      invariant QUESTION_START <= pos
      invariant labels == Texts(raw, lossy)
      invariant ScanName(buf, QUESTION_START) == After(raw, ScanName(buf, pos))
      decreases |buf| - pos
    {
      if pos >= |buf| {
        return Failure(TruncatedName);
      }
      var len := buf[pos];
      if len == 0 {
        pos := pos + 1;
        break;
      }
      if len >= 64 {
        return Failure(CompressedName);
      }
      pos := pos + 1;
      if pos + len > |buf| {
        return Failure(TruncatedLabel);
      }
      var octets := buf[pos..pos + len];
      labels := labels + [lossy(octets)];
      raw := raw + [octets];
      pos := pos + len;
      assert forall rest: seq<Label> {:trigger raw + rest} :: raw[..|raw| - 1] + ([octets] + rest) == raw + rest;
    }
    assert raw + [] == raw;
    var qname := JoinDots(labels);

    if pos + 4 > |buf| {
      return Failure(TruncatedTypeClass);
    }
    var qtype := FromBe16(buf[pos], buf[pos + 1]);
    var qclass := FromBe16(buf[pos + 2], buf[pos + 3]);
    if qclass != QCLASS_IN {
      return Failure(UnsupportedClass(qclass));
    }
    return Success(ParsedQuery(id, buf[QUESTION_START..pos + 4], qname, qtype));
  }

  // ----- responses -----

  /** QR, RD and RA set, and the low four bits of the response code. */
  function Flags(rcode: Byte): U16 {
    0x8180 + rcode % 16
  }

  /** The address count goes through a cast to u16. */
  function Header(id: U16, rcode: Byte, answers: nat): (h: seq<Byte>)
    ensures |h| == QUESTION_START
  {
    Be16(id) + Be16(Flags(rcode)) + Be16(1) + Be16(answers % 0x1_0000) + Be16(0) + Be16(0)
  }

  function Rdata(ip: IpAddr): (b: seq<Byte>)
    ensures |b| == 4 || |b| == 16
  {
    match ip
    case V4(octets) => octets
    case V6(octets) => octets
  }

  function Answer(qtype: U16, ip: IpAddr): seq<Byte> {
    NAME_POINTER + Be16(qtype) + Be16(QCLASS_IN) + ANSWER_TTL + Be16(|Rdata(ip)|) + Rdata(ip)
  }

  function Answers(qtype: U16, ips: seq<IpAddr>): seq<Byte> {
    if ips == [] then [] else Answer(qtype, ips[0]) + Answers(qtype, ips[1..])
  }

  function Response(id: U16, questionRaw: seq<Byte>, qtype: U16, rcode: Byte, ips: seq<IpAddr>): seq<Byte> {
    Header(id, rcode, |ips|) + questionRaw + Answers(qtype, ips)
  }

  lemma {:induction false} AnswersAppend(qtype: U16, ips: seq<IpAddr>, ip: IpAddr)
    ensures Answers(qtype, ips + [ip]) == Answers(qtype, ips) + Answer(qtype, ip)
  {
    hide Answer;
    if ips == [] {
      assert [] + [ip] == [ip];
      assert Answers(qtype, [ip]) == Answer(qtype, ip) + [];
    } else {
      AnswersAppend(qtype, ips[1..], ip);
      assert (ips + [ip])[1..] == ips[1..] + [ip];
      Regroup2(Answer(qtype, ips[0]), Answers(qtype, ips[1..]), Answer(qtype, ip));
    }
  }

  lemma Regroup2(x: seq<Byte>, a: seq<Byte>, b: seq<Byte>)
    ensures x + a + b == x + (a + b)
  {
  }

  lemma Regroup(x: seq<Byte>, a: seq<Byte>, b: seq<Byte>, c: seq<Byte>, d: seq<Byte>, e: seq<Byte>, f: seq<Byte>)
    ensures x + a + b + c + d + e + f == x + (a + b + c + d + e + f)
  {
    Regroup2(x, a, b);
    Regroup2(x, a + b, c);
    Regroup2(x, a + b + c, d);
    Regroup2(x, a + b + c + d, e);
    Regroup2(x, a + b + c + d + e, f);
  }

  method BuildResponse(id: U16, questionRaw: seq<Byte>, qtype: U16, rcode: Byte, ips: seq<IpAddr>)
    returns (out: seq<Byte>)
    ensures out == Response(id, questionRaw, qtype, rcode, ips)
  {
    out := Be16(id);
    out := out + Be16(Flags(rcode));
    out := out + Be16(1);
    out := out + Be16(|ips| % 0x1_0000);
    out := out + Be16(0);
    out := out + Be16(0);
    out := out + questionRaw;
    ghost var head := out;
    assert head + [] == head;
    for i := 0 to |ips|
      invariant out == head + Answers(qtype, ips[..i])
    {
      ghost var before := out;
      out := out + NAME_POINTER;
      out := out + Be16(qtype);
      out := out + Be16(QCLASS_IN);
      out := out + ANSWER_TTL;
      match ips[i] {
        case V4(octets) =>
          out := out + Be16(4);
          out := out + octets;
        case V6(octets) =>
          out := out + Be16(16);
          out := out + octets;
      }
      Regroup(before, NAME_POINTER, Be16(qtype), Be16(QCLASS_IN), ANSWER_TTL, Be16(|Rdata(ips[i])|), Rdata(ips[i]));
      Regroup2(head, Answers(qtype, ips[..i]), Answer(qtype, ips[i]));
      AnswersAppend(qtype, ips[..i], ips[i]);
      assert ips[..i] + [ips[i]] == ips[..i + 1];
    }
    assert ips[..|ips|] == ips;
  }

  // ----- requests to responses -----

  /** The addresses of one family, in the order they came. */
  function OfFamily(ips: seq<IpAddr>, wantV6: bool): (f: seq<IpAddr>)
    ensures |f| <= |ips|
    ensures forall ip :: ip in f <==> ip in ips && ip.V6? == wantV6
  {
    if ips == [] then []
    else
      var rest := OfFamily(ips[1..], wantV6);
      if ips[0].V6? == wantV6 then [ips[0]] + rest else rest
  }

  lemma OfFamilyStep(ip: IpAddr, rest: seq<IpAddr>, wantV6: bool)
    ensures OfFamily([ip] + rest, wantV6) == (if ip.V6? == wantV6 then [ip] else []) + OfFamily(rest, wantV6)
  {
    assert ([ip] + rest)[1..] == rest;
  }

  lemma Associative(a: seq<IpAddr>, b: seq<IpAddr>, c: seq<IpAddr>)
    ensures a + b + c == a + (b + c)
  {
  }

  lemma {:induction false} OfFamilySplit(a: seq<IpAddr>, b: seq<IpAddr>, wantV6: bool)
    ensures OfFamily(a + b, wantV6) == OfFamily(a, wantV6) + OfFamily(b, wantV6)
  {
    hide OfFamily;
    if a == [] {
      assert a + b == b && OfFamily(a, wantV6) == [] by {
        NoneSelected(wantV6);
      }
    } else {
      var first := if a[0].V6? == wantV6 then [a[0]] else [];
      OfFamilySplit(a[1..], b, wantV6);
      OfFamilyStep(a[0], a[1..], wantV6);
      OfFamilyStep(a[0], a[1..] + b, wantV6);
      assert [a[0]] + a[1..] == a;
      Associative([a[0]], a[1..], b);
      Associative(first, OfFamily(a[1..], wantV6), OfFamily(b, wantV6));
    }
  }

  lemma NoneSelected(wantV6: bool)
    ensures OfFamily([], wantV6) == []
  {
  }

  /** Selecting a family keeps the order: behind those selected from what comes before it,
      every address of the family follows next. */
  lemma OfFamilyKeepsOrder(ips: seq<IpAddr>, wantV6: bool, k: nat)
    requires k < |ips| && ips[k].V6? == wantV6
    ensures OfFamily(ips[..k], wantV6) + [ips[k]] <= OfFamily(ips, wantV6)
  {
    var one := [ips[k]];
    assert OfFamily(one, wantV6) == one by {
      assert one[1..] == [];
    }
    assert ips[..k] + one + ips[k + 1..] == ips;
    hide OfFamily;
    OfFamilySplit(ips[..k], one, wantV6);
    OfFamilySplit(ips[..k] + one, ips[k + 1..], wantV6);
  }

  /** What became of a request; sending fails, for example, if the response does not fit a
      datagram. */
  datatype Handled = Dropped | Answered(response: seq<Byte>) | SendFailed(response: seq<Byte>)

  method HandleQuery(request: seq<Byte>, lossy: Label -> string, resolve: string -> Option<seq<IpAddr>>,
                     sends: seq<Byte> -> bool)
    returns (h: Handled)
    ensures
      h == match Reply(request, lossy, resolve)
           case None => Dropped
           case Some(response) => if sends(response) then Answered(response) else SendFailed(response)
  {
    var parsed := ParseQuery(request, lossy);
    if parsed.Failure? {
      return Dropped;
    }
    var query := parsed.value;
    var response;
    if query.qtype != QTYPE_A && query.qtype != QTYPE_AAAA {
      response := BuildResponse(query.id, query.questionRaw, query.qtype, RCODE_NOTIMP, []);
      return if sends(response) then Answered(response) else SendFailed(response);
    }
    var resolved := resolve(query.qname);
    if resolved.Some? {
      var filtered := OfFamily(resolved.value, query.qtype == QTYPE_AAAA);
      if filtered == [] {
        response := BuildResponse(query.id, query.questionRaw, query.qtype, RCODE_NXDOMAIN, []);
      } else {
        response := BuildResponse(query.id, query.questionRaw, query.qtype, RCODE_NOERROR, filtered);
      }
    } else {
      response := BuildResponse(query.id, query.questionRaw, query.qtype, RCODE_SERVFAIL, []);
    }
    return if sends(response) then Answered(response) else SendFailed(response);
  }

  /** The response code and the addresses a well-formed query is answered with. */
  function Verdict(query: ParsedQuery, resolve: string -> Option<seq<IpAddr>>): (Byte, seq<IpAddr>) {
    if query.qtype != QTYPE_A && query.qtype != QTYPE_AAAA then (RCODE_NOTIMP, [])
    else
      match resolve(query.qname)
      case None => (RCODE_SERVFAIL, [])
      case Some(ips) =>
        var wanted := OfFamily(ips, query.qtype == QTYPE_AAAA);
        (if wanted == [] then RCODE_NXDOMAIN else RCODE_NOERROR, wanted)
  }

  function Reply(request: seq<Byte>, lossy: Label -> string, resolve: string -> Option<seq<IpAddr>>): Option<seq<Byte>> {
    match Parse(request, lossy)
    case Failure(_) => None
    case Success(q) =>
      var (rcode, ips) := Verdict(q, resolve);
      Some(Response(q.id, q.questionRaw, q.qtype, rcode, ips))
  }
}
