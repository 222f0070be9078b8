/**
 A decoder for whole DNS messages, written from sections 4.1.1 to 4.1.4 of RFC 1035 (and
 section 2.2 of RFC 3596 for AAAA). It follows compression pointers and shares nothing with
 the shim's parser and printer. It accepts a message only if no byte is left over.
 */
module DnsDecoder {
  import opened Bytes
  import opened Wrappers
  import opened Dns

  datatype Question = Question(name: seq<Label>, qtype: U16, qclass: U16)

  datatype Record = Record(name: seq<Label>, rtype: U16, rclass: U16, ttl: nat, rdata: seq<Byte>)

  datatype Message = Message(
    id: U16, response: bool, opcode: nat, authoritative: bool, truncated: bool,
    recursionDesired: bool, recursionAvailable: bool, reserved: nat, rcode: nat,
    questions: seq<Question>, answers: seq<Record>, authority: seq<Record>, additional: seq<Record>)

  /** The name at `pos`. A pointer may only lead to before the start of the part being read. */
  function Name(msg: seq<Byte>, pos: nat, start: nat): (r: Option<(seq<Label>, nat)>)
    ensures r.Some? ==> pos < r.value.1 <= |msg|
    decreases start, |msg| - pos
  {
    if pos >= |msg| then None
    else if msg[pos] == 0 then Some(([], pos + 1))
    else if msg[pos] < 64 then
      if pos + 1 + msg[pos] > |msg| then None
      else
        match Name(msg, pos + 1 + msg[pos], start)
        case None => None
        case Some((labels, next)) => Some(([msg[pos + 1..][..msg[pos]]] + labels, next))
    else if msg[pos] >= 192 && pos + 1 < |msg| then
      var high: nat := msg[pos] - 192;
      var target := high * 256 + msg[pos + 1];
      if target >= start then None
      else
        match Name(msg, target, target)
        case None => None
        case Some((labels, _)) => Some((labels, pos + 2))
    else None
  }

  function Number16(msg: seq<Byte>, pos: nat): U16
    requires pos + 2 <= |msg|
  {
    var high: nat := msg[pos];
    high * 256 + msg[pos + 1]
  }

  function Questions(msg: seq<Byte>, pos: nat, n: nat): Option<(seq<Question>, nat)>
    decreases n
  {
    if n == 0 then Some(([], pos))
    else
      match Name(msg, pos, pos)
      case None => None
      case Some((name, next)) =>
        if next + 4 > |msg| then None
        else
          match Questions(msg, next + 4, n - 1)
          case None => None
          case Some((rest, end)) =>
            Some(([Question(name, Number16(msg, next), Number16(msg, next + 2))] + rest, end))
  }

  function OneRecord(msg: seq<Byte>, pos: nat): (r: Option<(Record, nat)>) {
    match Name(msg, pos, pos)
    case None => None
    case Some((name, next)) =>
      if next + 10 > |msg| then None
      else
        var length := Number16(msg, next + 8);
        if next + 10 + length > |msg| then None
        else
          var ttl := Number16(msg, next + 4) * 0x1_0000 + Number16(msg, next + 6);
          Some((Record(name, Number16(msg, next), Number16(msg, next + 2), ttl, msg[next + 10..next + 10 + length]),
                next + 10 + length))
  }

  function Records(msg: seq<Byte>, pos: nat, n: nat): Option<(seq<Record>, nat)>
    decreases n
  {
    if n == 0 then Some(([], pos))
    else
      match OneRecord(msg, pos)
      case None => None
      case Some((record, next)) =>
        match Records(msg, next, n - 1)
        case None => None
        case Some((rest, end)) => Some(([record] + rest, end))
  }

  function Decode(msg: seq<Byte>): Option<Message> {
    if |msg| < 12 then None
    else
      match Questions(msg, 12, Number16(msg, 4))
      case None => None
      case Some((questions, p1)) =>
        match Records(msg, p1, Number16(msg, 6))
        case None => None
        case Some((answers, p2)) =>
          match Records(msg, p2, Number16(msg, 8))
          case None => None
          case Some((authority, p3)) =>
            match Records(msg, p3, Number16(msg, 10))
            case None => None
            case Some((additional, p4)) =>
              if p4 != |msg| then None
              else
                Some(Message(
                  Number16(msg, 0), msg[2] / 128 == 1, msg[2] / 8 % 16, msg[2] / 4 % 2 == 1, msg[2] / 2 % 2 == 1,
                  msg[2] % 2 == 1, msg[3] / 128 == 1, msg[3] / 16 % 8, msg[3] % 16,
                  questions, answers, authority, additional))
  }

  /** The address in an A or AAAA record of class IN. */
  function Address(r: Record): Option<IpAddr> {
    if r.rclass != 1 then None
    else if r.rtype == 1 && |r.rdata| == 4 then Some(V4(r.rdata))
    else if r.rtype == 28 && |r.rdata| == 16 then Some(V6(r.rdata))
    else None
  }

  function Addresses(rs: seq<Record>): Option<seq<IpAddr>> {
    if rs == [] then Some([])
    else
      match Address(rs[0])
      case None => None
      case Some(ip) =>
        match Addresses(rs[1..])
        case None => None
        case Some(rest) => Some([ip] + rest)
  }
}
