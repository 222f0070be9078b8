/**
 Bridge candidates and pluggable transports. Whether a line parses, where a transport binary
 is found and how health checks and configurations come out are parameters.
 */
module Bridges {
  import opened Wrappers
  import opened Telemetry

  // ----- the transport a bridge line names -----

  /** The Unicode White_Space characters, at which lines are split. */
  predicate IsWhitespace(c: char) {
    || '\U{0009}' <= c <= '\U{000D}' || c == ' ' || c == '\U{0085}' || c == '\U{00A0}' || c == '\U{1680}'
    || '\U{2000}' <= c <= '\U{200A}' || c == '\U{2028}' || c == '\U{2029}' || c == '\U{202F}' || c == '\U{205F}'
    || c == '\U{3000}'
  }

  function AsciiLower(c: char): char {
    if 'A' <= c <= 'Z' then (c as int - 'A' as int + 'a' as int) as char else c
  }

  predicate EqIgnoreAsciiCase(a: string, b: string) {
    |a| == |b| && forall i :: 0 <= i < |a| ==> AsciiLower(a[i]) == AsciiLower(b[i])
  }

  /** The length of the leading run of characters that are (or are not) whitespace. */
  function RunLength(s: string, white: bool): (n: nat)
    ensures n <= |s| && (n < |s| ==> IsWhitespace(s[n]) != white)
    ensures forall i :: 0 <= i < n ==> IsWhitespace(s[i]) == white
  {
    if s == "" || IsWhitespace(s[0]) != white then 0 else 1 + RunLength(s[1..], white)
  }

  /** The next whitespace-separated token and what follows it. */
  function NextToken(s: string): Option<(string, string)> {
    var rest := s[RunLength(s, true)..];
    if rest == "" then None
    else
      var n := RunLength(rest, false);
      Some((rest[..n], rest[n..]))
  }

  function TransportOf(token: string): Option<string> {
    if ':' in token then None else Some(token)
  }

  function ExtractTransportProtocol(line: string): Option<string> {
    match NextToken(line)
    case None => None
    case Some((first, rest)) =>
      if EqIgnoreAsciiCase(first, "bridge") then
        match NextToken(rest)
        case None => None
        case Some((second, _)) => TransportOf(second)
      else TransportOf(first)
  }

  /** The 25 characters with the Unicode property White_Space, one by one. */
  predicate White(c: char) {
    c in {
      '\U{0009}', '\U{000A}', '\U{000B}', '\U{000C}', '\U{000D}', '\U{0020}', '\U{0085}', '\U{00A0}',
      '\U{1680}', '\U{2000}', '\U{2001}', '\U{2002}', '\U{2003}', '\U{2004}', '\U{2005}', '\U{2006}',
      '\U{2007}', '\U{2008}', '\U{2009}', '\U{200A}', '\U{2028}', '\U{2029}', '\U{202F}', '\U{205F}',
      '\U{3000}'
    }
  }

  lemma WhitespaceExactly(c: char)
    ensures IsWhitespace(c) <==> White(c)
  {
  }

  predicate IsToken(s: string) {
    s != "" && forall c :: c in s ==> !White(c)
  }

  predicate IsBlank(s: string) {
    forall c :: c in s ==> White(c)
  }

  lemma {:induction false} RunLengthOfPrefix(a: string, b: string, white: bool)
    requires forall c :: c in a ==> IsWhitespace(c) == white
    requires b != "" ==> IsWhitespace(b[0]) != white
    ensures RunLength(a + b, white) == |a|
  {
    if a != "" {
      assert (a + b)[1..] == a[1..] + b;
      RunLengthOfPrefix(a[1..], b, white);
    } else {
      assert a + b == b;
    }
  }

  lemma NextTokenIs(blank: string, token: string, rest: string)
    requires IsBlank(blank) && IsToken(token) && (rest != "" ==> White(rest[0]))
    ensures NextToken(blank + token + rest) == Some((token, rest))
  {
    forall c
      ensures IsWhitespace(c) <==> White(c)
    {
      WhitespaceExactly(c);
    }
    hide White, IsWhitespace;
    assert token[0] in token;
    assert blank + token + rest == blank + (token + rest);
    RunLengthOfPrefix(blank, token + rest, true);
    assert (blank + (token + rest))[|blank|..] == token + rest;
    RunLengthOfPrefix(token, rest, false);
  }

  /** The word "bridge", each letter small or capital. */
  predicate IsBridgeWord(s: string) {
    && |s| == 6
    && (s[0] == 'b' || s[0] == 'B') && (s[1] == 'r' || s[1] == 'R') && (s[2] == 'i' || s[2] == 'I')
    && (s[3] == 'd' || s[3] == 'D') && (s[4] == 'g' || s[4] == 'G') && (s[5] == 'e' || s[5] == 'E')
  }

  lemma BridgeWordExactly(s: string)
    ensures EqIgnoreAsciiCase(s, "bridge") <==> IsBridgeWord(s)
  {
    assert |"bridge"| == 6;
    if |s| == 6 {
      forall i | 0 <= i < 6
        ensures AsciiLower(s[i]) == AsciiLower("bridge"[i]) <==> s[i] == "bridge"[i] || s[i] == "BRIDGE"[i]
      {
      }
    }
  }

  lemma BridgeWordIsToken(s: string)
    requires IsBridgeWord(s)
    ensures IsToken(s)
  {
    assert !White(s[0]) && !White(s[1]) && !White(s[2]) && !White(s[3]) && !White(s[4]) && !White(s[5]);
    hide White;
    forall c | c in s
      ensures !White(c)
    {
      var i :| 0 <= i < |s| && s[i] == c;
      assert i == 0 || i == 1 || i == 2 || i == 3 || i == 4 || i == 5;
    }
  }

  /** A line that names a transport, with or without the leading keyword in any case and with
      any spacing, names it as its first field; an address (which has a colon) is none. */
  lemma TransportIsTheFirstField(b0: string, keyword: string, b1: string, field: string, rest: string)
    requires IsBlank(b0) && IsBlank(b1) && b1 != "" && IsToken(field) && (rest != "" ==> White(rest[0]))
    requires IsBridgeWord(keyword)
    ensures ExtractTransportProtocol(b0 + keyword + (b1 + field + rest)) == (if ':' in field then None else Some(field))
    ensures !IsBridgeWord(field) ==>
              ExtractTransportProtocol(b0 + field + rest) == (if ':' in field then None else Some(field))
  {
    hide White, IsBridgeWord, EqIgnoreAsciiCase;
    BridgeWordIsToken(keyword);
    BridgeWordExactly(keyword);
    BridgeWordExactly(field);
    assert b1[0] in b1;
    NextTokenIs(b0, keyword, b1 + field + rest);
    NextTokenIs(b1, field, rest);
    NextTokenIs(b0, field, rest);
  }

  /** In particular as such lines are usually written: printable characters between spaces. */
  lemma UsualLine(field: string, rest: string)
    requires field != "" && forall c :: c in field ==> '!' <= c <= '~'
    ensures ExtractTransportProtocol("Bridge " + field + " " + rest) == (if ':' in field then None else Some(field))
  {
    TransportIsTheFirstField("", "Bridge", " ", field, " " + rest);
    hide ExtractTransportProtocol;
    Spelled(field, rest);
  }

  lemma Spelled(field: string, rest: string)
    ensures "" + "Bridge" + (" " + field + (" " + rest)) == "Bridge " + field + " " + rest
  {
    assert "" + "Bridge" == "Bridge" && "Bridge" + " " == "Bridge ";
    var a, b := "Bridge", " ";
    assert a + (b + field + (b + rest)) == a + b + field + b + rest;
  }

  // ----- the manager -----

  datatype TransportBinary = TransportBinary(protocol: string, path: string)

  predicate Registered(transports: seq<TransportBinary>, protocol: string) {
    exists t :: t in transports && t.protocol == protocol
  }

  /** Registering a binary unless one is there; `located` is what the disk search finds. */
  function Ensured(transports: seq<TransportBinary>, protocol: string, located: Option<string>): seq<TransportBinary> {
    if Registered(transports, protocol) || located.None? then transports
    else transports + [TransportBinary(protocol, located.value)]
  }

  predicate Usable(transports: seq<TransportBinary>, line: string) {
    match ExtractTransportProtocol(line)
    case None => true
    case Some(protocol) => Registered(transports, protocol)
  }

  /** Adding a line whose first field is `field`: an address is always usable and registers
      nothing; a transport is refused exactly if no binary is registered for it and none can be
      located, and a located one is registered exactly if none is there. */
  lemma LineIsUsableExactly(ts: seq<TransportBinary>, line: string, field: string, located: Option<string>)
    requires ExtractTransportProtocol(line) == if ':' in field then None else Some(field)
    ensures
      var protocol := ExtractTransportProtocol(line);
      var ts' := if protocol.Some? then Ensured(ts, protocol.value, located) else ts;
      var known := exists t :: t in ts && t.protocol == field;
      && (Usable(ts', line) <==> ':' in field || known || located.Some?)
      && ts' == if ':' !in field && !known && located.Some? then ts + [TransportBinary(field, located.value)] else ts
  {
    if located.Some? {
      var t := TransportBinary(field, located.value);
      assert t in ts + [t];
    }
  }

  function LineAt(candidates: seq<string>, idx: nat): Option<string> {
    if idx < |candidates| then Some(candidates[idx]) else None
  }

  datatype ScanError = NoCandidates | ConfigFailed(idx: nat) | AllFailed(count: nat)

  /** The first index in lo..hi-1 whose check succeeds. */
  function FirstHealthy(checks: nat -> Seen, lo: nat, hi: nat): (w: Option<nat>)
    requires lo <= hi
    ensures w.Some? ==> lo <= w.value < hi && checks(w.value).success
    ensures forall i :: lo <= i < (if w.Some? then w.value else hi) ==> !checks(i).success
    decreases hi - lo
  {
    if lo == hi then None
    else if checks(lo).success then Some(lo)
    else FirstHealthy(checks, lo + 1, hi)
  }

  class BridgeManager {
    var transports: seq<TransportBinary>
    var candidates: seq<string>

    /** Every candidate that names a transport has a registered binary for it. */
    predicate Valid()
      reads this
    {
      forall line :: line in candidates ==> Usable(transports, line)
    }

    constructor (transports: seq<TransportBinary>)
      ensures Valid() && this.transports == transports && candidates == []
    {
      this.transports, candidates := transports, [];
    }

    method EnsureTransport(protocol: string, located: Option<string>) returns (ok: bool)
      requires Valid()
      modifies this`transports
      ensures Valid() && transports == Ensured(old(transports), protocol, located)
      ensures ok == Registered(transports, protocol)
      ensures transports ==
        if (exists t :: t in old(transports) && t.protocol == protocol) || located.None? then old(transports)
        else old(transports) + [TransportBinary(protocol, located.value)]
    {
      if exists t :: t in transports && t.protocol == protocol {
        return true;
      }
      if located.None? {
        return false;
      }
      var t := TransportBinary(protocol, located.value);
      transports := transports + [t];
      assert t in transports;
      return true;
    }

    method AddBridgeLine(line: string, parses: bool, located: Option<string>) returns (idx: Option<nat>)
      requires Valid()
      modifies this
      ensures Valid()
      ensures idx.None? ==> candidates == old(candidates)
      ensures idx.Some? ==> idx.value == |old(candidates)| && candidates == old(candidates) + [line]
      ensures idx.Some? <==> parses && Usable(transports, line)
      ensures transports ==
        if parses && ExtractTransportProtocol(line).Some?
        then Ensured(old(transports), ExtractTransportProtocol(line).value, located)
        else old(transports)
    {
      if !parses {
        return None;
      }
      var protocol := ExtractTransportProtocol(line);
      if protocol.Some? {
        var ok := EnsureTransport(protocol.value, located);
        if !ok {
          return None;
        }
      }
      candidates := candidates + [line];
      return Some(|candidates| - 1);
    }

    /** The failover scan over the candidates present when it starts: it reports candidates
        in order up to the first whose check succeeds and returns that one, unless building
        its configuration fails; with none it reports them all. */
    method FindHealthyConfigReporting(checks: nat -> Seen, configures: nat -> bool)
      returns (r: Result<nat, ScanError>, reports: seq<Report>)
      ensures candidates == [] ==> r == Failure(NoCandidates)
      ensures candidates != [] ==>
        r == match FirstHealthy(checks, 0, |candidates|)
             case None => Failure(AllFailed(|candidates|))
             case Some(w) => if configures(w) then Success(w) else Failure(ConfigFailed(w))
      ensures reports == ScanReports(candidates, checks, Tried(candidates, checks))
    {
      reports := [];
      var count := |candidates|;
      if count == 0 {
        return Failure(NoCandidates), reports;
      }
      for idx := 0 to count
        invariant reports == ScanReports(candidates, checks, idx)
        invariant FirstHealthy(checks, 0, count) == FirstHealthy(checks, idx, count)
      {
        var result := checks(idx);
        reports := reports + [Report(idx, candidates[idx], result)];
        assert reports == ScanReports(candidates, checks, idx + 1);
        if result.success {
          if !configures(idx) {
            return Failure(ConfigFailed(idx)), reports;
          }
          return Success(idx), reports;
        }
      }
      return Failure(AllFailed(count)), reports;
    }
  }

  /** How many candidates a scan gets to. */
  function Tried(candidates: seq<string>, checks: nat -> Seen): (n: nat)
    ensures n <= |candidates|
  {
    match FirstHealthy(checks, 0, |candidates|)
    case None => |candidates|
    case Some(w) => w + 1
  }

  function ScanReports(candidates: seq<string>, checks: nat -> Seen, n: nat): (rs: seq<Report>)
    requires n <= |candidates|
    ensures |rs| == n
  {
    seq(n, i requires 0 <= i < n => Report(i, candidates[i], checks(i)))
  }
}
