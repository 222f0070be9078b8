/** What the shim's parser and printer promise, stated against the wire grammar and the decoder. */
module DnsProofs {
  import opened Bytes
  import opened Wrappers
  import opened Dns
  import opened DnsDecoder

  // ----- the wire grammar of one question -----

  predicate ValidLabels(labels: seq<Label>) {
    forall l :: l in labels ==> 1 <= |l| <= 63
  }

  function NameBytes(labels: seq<Label>): (b: seq<Byte>)
    requires ValidLabels(labels)
    ensures |b| >= 1
  {
    if labels == [] then [0] else [|labels[0]|] + labels[0] + NameBytes(labels[1..])
  }

  function QuestionBytes(labels: seq<Label>, qtype: U16): (b: seq<Byte>)
    requires ValidLabels(labels)
    ensures |b| > 4
  {
    NameBytes(labels) + Be16(qtype) + Be16(QCLASS_IN)
  }

  predicate HasAt(buf: seq<Byte>, pos: nat, piece: seq<Byte>) {
    && pos + |piece| <= |buf|
    && forall i :: 0 <= i < |piece| ==> buf[pos + i] == piece[i]
  }

  /** A datagram the shim answers: a full header, some question, and an uncompressed name of
      class IN behind the header. Whatever follows is not looked at. */
  ghost predicate WellFormedQuery(buf: seq<Byte>, labels: seq<Label>, qtype: U16) {
    && |buf| >= 12 && (buf[4] != 0 || buf[5] != 0)
    && ValidLabels(labels) && HasAt(buf, 12, QuestionBytes(labels, qtype))
  }

  // ----- parsing -----

  lemma HasAtSplit(buf: seq<Byte>, pos: nat, a: seq<Byte>, b: seq<Byte>)
    ensures HasAt(buf, pos, a + b) <==> HasAt(buf, pos, a) && HasAt(buf, pos + |a|, b)
  {
    if HasAt(buf, pos, a + b) {
      forall i | 0 <= i < |a|
        ensures buf[pos + i] == a[i]
      {
        assert (a + b)[i] == a[i];
      }
      forall i | 0 <= i < |b|
        ensures buf[pos + |a| + i] == b[i]
      {
        assert (a + b)[|a| + i] == b[i];
      }
    }
    if HasAt(buf, pos, a) && HasAt(buf, pos + |a|, b) {
      forall i | 0 <= i < |a + b|
        ensures buf[pos + i] == (a + b)[i]
      {
        if i >= |a| {
          assert buf[pos + |a| + (i - |a|)] == b[i - |a|];
        }
      }
    }
  }

  lemma NameHead(buf: seq<Byte>, pos: nat, labels: seq<Label>)
    requires ValidLabels(labels) && labels != [] && HasAt(buf, pos, NameBytes(labels))
    ensures pos < |buf| && buf[pos] == |labels[0]| && pos + 1 + buf[pos] <= |buf|
    ensures buf[pos + 1..pos + 1 + buf[pos]] == labels[0]
    ensures ValidLabels(labels[1..]) && HasAt(buf, pos + 1 + buf[pos], NameBytes(labels[1..]))
  {
    HasAtSplit(buf, pos, [|labels[0]|] + labels[0], NameBytes(labels[1..]));
    HasAtSplit(buf, pos, [|labels[0]|], labels[0]);
    assert buf[pos + 0] == [|labels[0]|][0];
  }

  lemma {:induction false} ScanComplete(buf: seq<Byte>, pos: nat, labels: seq<Label>)
    requires ValidLabels(labels) && HasAt(buf, pos, NameBytes(labels))
    ensures ScanName(buf, pos) == Success((labels, pos + |NameBytes(labels)|))
    decreases |labels|
  {
    if labels == [] {
      assert buf[pos + 0] == [0][0];
    } else {
      NameHead(buf, pos, labels);
      ScanComplete(buf, pos + 1 + buf[pos], labels[1..]);
      assert [labels[0]] + labels[1..] == labels;
    }
  }

  lemma NameGrows(buf: seq<Byte>, pos: nat, first: Label, rest: seq<Label>)
    requires ValidLabels(rest) && 1 <= |first| <= 63
    requires pos + 1 + |first| <= |buf| && buf[pos] == |first| && buf[pos + 1..pos + 1 + |first|] == first
    requires HasAt(buf, pos + 1 + |first|, NameBytes(rest))
    ensures ValidLabels([first] + rest) && HasAt(buf, pos, NameBytes([first] + rest))
    ensures |NameBytes([first] + rest)| == 1 + |first| + |NameBytes(rest)|
  {
    assert ([first] + rest)[1..] == rest;
    HasAtSplit(buf, pos, [|first|], first);
    HasAtSplit(buf, pos, [|first|] + first, NameBytes(rest));
  }

  lemma {:induction false} ScanSound(buf: seq<Byte>, pos: nat)
    requires ScanName(buf, pos).Success?
    ensures
      var (labels, next) := ScanName(buf, pos).value;
      && ValidLabels(labels) && HasAt(buf, pos, NameBytes(labels)) && next == pos + |NameBytes(labels)|
    decreases |buf| - pos
  {
    if buf[pos] == 0 {
    } else {
      var after := pos + 1 + buf[pos];
      ScanSound(buf, after);
      NameGrows(buf, pos, buf[pos + 1..after], ScanName(buf, after).value.0);
    }
  }

  lemma NumberAt(buf: seq<Byte>, pos: nat, n: U16)
    requires pos + 2 <= |buf|
    ensures HasAt(buf, pos, Be16(n)) <==> FromBe16(buf[pos], buf[pos + 1]) == n
  {
    if HasAt(buf, pos, Be16(n)) {
      assert buf[pos + 0] == Be16(n)[0] && buf[pos + 1] == Be16(n)[1];
    }
  }

  lemma QuestionParts(buf: seq<Byte>, pos: nat, labels: seq<Label>, qtype: U16)
    requires ValidLabels(labels) && HasAt(buf, pos, QuestionBytes(labels, qtype))
    ensures
      var end := pos + |NameBytes(labels)|;
      && HasAt(buf, pos, NameBytes(labels)) && end + 4 <= |buf|
      && FromBe16(buf[end], buf[end + 1]) == qtype
      && FromBe16(buf[end + 2], buf[end + 3]) == QCLASS_IN
  {
    var end := pos + |NameBytes(labels)|;
    HasAtSplit(buf, pos, NameBytes(labels) + Be16(qtype), Be16(QCLASS_IN));
    HasAtSplit(buf, pos, NameBytes(labels), Be16(qtype));
    NumberAt(buf, end, qtype);
    NumberAt(buf, end + 2, QCLASS_IN);
  }

  /** Every well-formed query is accepted, with its identifier, its name and type, and its
      question re-emitted octet for octet. */
  lemma ParseComplete(buf: seq<Byte>, lossy: Label -> string, labels: seq<Label>, qtype: U16)
    requires WellFormedQuery(buf, labels, qtype)
    ensures Parse(buf, lossy) == Success(ParsedQuery(
      FromBe16(buf[0], buf[1]), QuestionBytes(labels, qtype), JoinDots(Texts(labels, lossy)), qtype))
  {
    QuestionParts(buf, 12, labels, qtype);
    ScanComplete(buf, 12, labels);
    HasAtSlice(buf, 12, QuestionBytes(labels, qtype));
  }

  lemma HasAtSlice(buf: seq<Byte>, pos: nat, piece: seq<Byte>)
    requires HasAt(buf, pos, piece)
    ensures buf[pos..pos + |piece|] == piece
  {
  }

  /** Nothing else is accepted. */
  lemma ParseSound(buf: seq<Byte>, lossy: Label -> string) returns (labels: seq<Label>)
    requires Parse(buf, lossy).Success?
    ensures WellFormedQuery(buf, labels, Parse(buf, lossy).value.qtype)
  {
    ScanSound(buf, 12);
    var (found, pos) := ScanName(buf, 12).value;
    labels := found;
    var qtype := Parse(buf, lossy).value.qtype;
    NumberAt(buf, pos, qtype);
    NumberAt(buf, pos + 2, QCLASS_IN);
    HasAtSplit(buf, 12, NameBytes(labels), Be16(qtype));
    HasAtSplit(buf, 12, NameBytes(labels) + Be16(qtype), Be16(QCLASS_IN));
  }

  lemma ParseAcceptsExactlyWellFormed(buf: seq<Byte>, lossy: Label -> string)
    ensures Parse(buf, lossy).Success? <==> exists labels, qtype :: WellFormedQuery(buf, labels, qtype)
  {
    if Parse(buf, lossy).Success? {
      var labels := ParseSound(buf, lossy);
      assert WellFormedQuery(buf, labels, Parse(buf, lossy).value.qtype);
    }
    if labels, qtype :| WellFormedQuery(buf, labels, qtype) {
      ParseComplete(buf, lossy, labels, qtype);
    }
  }

  /** The errors that tell that the datagram ended too early. */
  predicate EndedEarly(e: ParseError) {
    e.ShorterThanHeader? || e.TruncatedName? || e.TruncatedLabel? || e.TruncatedTypeClass?
  }

  /** How far the scan of a name goes: behind the octet at which it is decided. */
  function NameSeen(buf: seq<Byte>, pos: nat): (n: nat)
    ensures n <= |buf|
    decreases |buf| - pos
  {
    if pos >= |buf| then |buf|
    else if buf[pos] == 0 || buf[pos] >= 64 || pos + 1 + buf[pos] > |buf| then pos + 1
    else NameSeen(buf, pos + 1 + buf[pos])
  }

  function Seen(buf: seq<Byte>): (n: nat)
    ensures n <= |buf|
  {
    if |buf| < 12 then 0
    else if FromBe16(buf[4], buf[5]) == 0 then 12
    else
      match ScanName(buf, 12)
      case Failure(_) => NameSeen(buf, 12)
      case Success((_, pos)) => if pos + 4 <= |buf| then pos + 4 else |buf|
  }

  lemma {:induction false} ScanSeen(buf: seq<Byte>, pos: nat)
    requires pos <= |buf|
    ensures NameSeen(buf, pos) >= pos
    ensures ScanName(buf, pos).Success? ==> NameSeen(buf, pos) == ScanName(buf, pos).value.1
    decreases |buf| - pos
  {
    if pos < |buf| && 0 < buf[pos] < 64 && pos + 1 + buf[pos] <= |buf| {
      ScanSeen(buf, pos + 1 + buf[pos]);
    }
  }

  lemma {:induction false} ScanAlike(buf: seq<Byte>, buf': seq<Byte>, pos: nat)
    requires pos <= |buf| && NameSeen(buf, pos) <= |buf'|
    requires forall i :: pos <= i < NameSeen(buf, pos) ==> buf'[i] == buf[i]
    requires ScanName(buf, pos).Failure? && EndedEarly(ScanName(buf, pos).error) ==> |buf'| == |buf|
    ensures ScanName(buf', pos) == ScanName(buf, pos)
    decreases |buf| - pos
  {
    ScanSeen(buf, pos);
    if pos < |buf| && 0 < buf[pos] < 64 && pos + 1 + buf[pos] <= |buf| {
      var next := pos + 1 + buf[pos];
      ScanSeen(buf, next);
      ScanAlike(buf, buf', next);
      assert buf'[pos + 1..next] == buf[pos + 1..next];
    }
  }

  /** `buf'` looks the same as far as parsing `buf` goes: in whether QDCOUNT is zero, in the
      octets seen behind the header, in its identifier if the query is accepted, and in its
      length if the datagram ended too early. */
  predicate LooksAlike(buf: seq<Byte>, buf': seq<Byte>, r: Result<ParsedQuery, ParseError>) {
    && Seen(buf) <= |buf'|
    && (|buf| >= 12 ==> |buf'| >= 12 && (buf'[4] == buf'[5] == 0 <==> buf[4] == buf[5] == 0))
    && (forall i :: 12 <= i < Seen(buf) ==> buf'[i] == buf[i])
    && (r.Success? && |buf| >= 12 ==> buf'[..2] == buf[..2])
    && (r.Failure? && EndedEarly(r.error) ==> |buf'| == |buf|)
  }

  /** Accepted or rejected, a datagram is parsed by nothing but what was seen of it: any other
      datagram that looks alike gets the same result, down to the error. */
  lemma ParseDependsOnWhatItSees(buf: seq<Byte>, buf': seq<Byte>, lossy: Label -> string)
    requires LooksAlike(buf, buf', Parse(buf, lossy))
    ensures Parse(buf', lossy) == Parse(buf, lossy)
  {
    if |buf| >= 12 && FromBe16(buf[4], buf[5]) != 0 {
      ScanSeen(buf, 12);
      ScanAlike(buf, buf', 12);
      if ScanName(buf, 12).Success? {
        var pos := ScanName(buf, 12).value.1;
        if pos + 4 <= |buf| {
          assert buf'[12..pos + 4] == buf[12..pos + 4];
          assert buf'[pos + 0] == buf[pos + 0] && buf'[pos + 1] == buf[pos + 1];
          assert buf'[pos + 2] == buf[pos + 2] && buf'[pos + 3] == buf[pos + 3];
          if Parse(buf, lossy).Success? {
            assert buf'[0] == buf'[..2][0] == buf[..2][0] && buf'[1] == buf'[..2][1] == buf[..2][1];
          }
        }
      }
      hide ScanName, Texts, JoinDots;
    }
  }

  // ----- names as text -----

  function SplitDots(s: string): (parts: seq<string>)
    ensures |parts| >= 1
  {
    if s == "" then [""]
    else
      var rest := SplitDots(s[1..]);
      if s[0] == '.' then [""] + rest else [[s[0]] + rest[0]] + rest[1..]
  }

  lemma {:induction false} SplitWithoutDot(s: string)
    requires '.' !in s
    ensures SplitDots(s) == [s]
  {
    if s != "" {
      SplitWithoutDot(s[1..]);
      assert [s[0]] + s[1..] == s;
    }
  }

  lemma {:induction false} SplitAtFirstDot(a: string, b: string)
    requires '.' !in a
    ensures SplitDots(a + "." + b) == [a] + SplitDots(b)
  {
    var s := a + "." + b;
    if a == "" {
      assert s[1..] == b;
    } else {
      SplitAtFirstDot(a[1..], b);
      assert s[1..] == a[1..] + "." + b;
      assert s[0] == a[0] && [a[0]] + a[1..] == a;
    }
  }

  lemma {:induction false} SplitPartsHaveNoDot(s: string)
    ensures forall part :: part in SplitDots(s) ==> '.' !in part
  {
    if s != "" {
      SplitPartsHaveNoDot(s[1..]);
      var rest := SplitDots(s[1..]);
      assert rest[0] in rest;
    }
  }

  lemma {:induction false} SplitUndoesJoin(parts: seq<string>)
    requires parts != [] && forall part :: part in parts ==> '.' !in part
    ensures SplitDots(JoinDots(parts)) == parts
  {
    if |parts| == 1 {
      SplitWithoutDot(parts[0]);
    } else {
      SplitUndoesJoin(parts[1..]);
      SplitAtFirstDot(parts[0], JoinDots(parts[1..]));
    }
  }

  /** The dotted text names the queried labels again exactly when none of them contains a dot.
      (A label may contain one: it is an octet like any other.) */
  lemma DottedNameRecoversLabels(parts: seq<string>)
    requires parts != []
    ensures SplitDots(JoinDots(parts)) == parts <==> forall part :: part in parts ==> '.' !in part
  {
    SplitPartsHaveNoDot(JoinDots(parts));
    if forall part :: part in parts ==> '.' !in part {
      SplitUndoesJoin(parts);
    }
  }

  /** The name that a well-formed query is resolved under splits into the queried labels again
      exactly if it has labels at all and none of them holds a dot octet. */
  lemma ResolvedNameSplitsExactly(buf: seq<Byte>, lossy: Label -> string, labels: seq<Label>, qtype: U16)
    requires WellFormedQuery(buf, labels, qtype)
    requires forall l :: '.' in lossy(l) <==> 46 in l
    ensures Parse(buf, lossy).Success?
    ensures SplitDots(Parse(buf, lossy).value.qname) == Texts(labels, lossy)
            <==> labels != [] && forall l :: l in labels ==> 46 !in l
  {
    ParseComplete(buf, lossy, labels, qtype);
    var texts := Texts(labels, lossy);
    if labels != [] {
      DottedNameRecoversLabels(texts);
      assert (forall t :: t in texts ==> '.' !in t) <==> (forall l :: l in labels ==> 46 !in l) by {
        DotsAreOctets(labels, lossy);
      }
    }
  }

  lemma DotsAreOctets(labels: seq<Label>, lossy: Label -> string)
    requires forall l :: '.' in lossy(l) <==> 46 in l
    ensures (forall t :: t in Texts(labels, lossy) ==> '.' !in t) <==> (forall l :: l in labels ==> 46 !in l)
  {
    var texts := Texts(labels, lossy);
    if forall t :: t in texts ==> '.' !in t {
      forall i | 0 <= i < |labels|
        ensures 46 !in labels[i]
      {
        assert texts[i] in texts;
      }
    }
    if forall l :: l in labels ==> 46 !in l {
      forall i | 0 <= i < |texts|
        ensures '.' !in texts[i]
      {
        assert labels[i] in labels;
      }
    }
  }

  const HEADER: seq<Byte> := [0, 7, 1, 0, 0, 1, 0, 0, 0, 0, 0, 0]

  lemma QuestionIsWellFormed(labels: seq<Label>, qtype: U16)
    requires ValidLabels(labels)
    ensures WellFormedQuery(HEADER + QuestionBytes(labels, qtype), labels, qtype)
  {
    hide QuestionBytes;
  }

  /** A query for the one label "a.b" and one for the two labels "a" and "b" ask different
      questions and are resolved under the same text. */
  lemma TwoQuestionsOneText(lossy: Label -> string)
    requires lossy([97, 46, 98]) == "a.b" && lossy([97]) == "a" && lossy([98]) == "b"
    ensures
      var one := Parse(HEADER + QuestionBytes([[97, 46, 98]], QTYPE_A), lossy);
      var two := Parse(HEADER + QuestionBytes([[97], [98]], QTYPE_A), lossy);
      && one.Success? && two.Success? && one.value.questionRaw != two.value.questionRaw
      && one.value.qname == "a.b" == two.value.qname
  {
    var l1: seq<Label>, l2: seq<Label> := [[97, 46, 98]], [[97], [98]];
    FirstOctet(l1, QTYPE_A);
    FirstOctet(l2, QTYPE_A);
    QueryIsParsed(l1, lossy);
    QueryIsParsed(l2, lossy);
    SameText(lossy);
    hide Parse, QuestionBytes, Texts, JoinDots;
  }

  lemma FirstOctet(labels: seq<Label>, qtype: U16)
    requires ValidLabels(labels) && labels != []
    ensures QuestionBytes(labels, qtype)[0] == |labels[0]|
  {
  }

  lemma QueryIsParsed(labels: seq<Label>, lossy: Label -> string)
    requires ValidLabels(labels)
    ensures
      var r := Parse(HEADER + QuestionBytes(labels, QTYPE_A), lossy);
      && r.Success? && r.value.questionRaw == QuestionBytes(labels, QTYPE_A)
      && r.value.qname == JoinDots(Texts(labels, lossy))
  {
    QuestionIsWellFormed(labels, QTYPE_A);
    ParseComplete(HEADER + QuestionBytes(labels, QTYPE_A), lossy, labels, QTYPE_A);
  }

  lemma SameText(lossy: Label -> string)
    requires lossy([97, 46, 98]) == "a.b" && lossy([97]) == "a" && lossy([98]) == "b"
    ensures JoinDots(Texts([[97, 46, 98]], lossy)) == "a.b" == JoinDots(Texts([[97], [98]], lossy))
  {
    assert Texts([[97, 46, 98]], lossy) == ["a.b"] && Texts([[97], [98]], lossy) == ["a", "b"];
    assert ["a", "b"][1..] == ["b"];
  }

  predicate AsciiDotFree(l: Label) {
    forall i :: 0 <= i < |l| ==> l[i] < 128 && l[i] != 46
  }

  function AsciiText(l: Label): (s: string)
    requires AsciiDotFree(l)
    ensures |s| == |l|
  {
    seq(|l|, i requires 0 <= i < |l| => l[i] as char)
  }

  /** Two queries for names made of ASCII labels without dots are resolved under the same
      text only if they ask for the same name. */
  lemma ResolvedNameIsTheQueriedName(buf: seq<Byte>, buf': seq<Byte>, lossy: Label -> string,
                                     labels: seq<Label>, labels': seq<Label>, qtype: U16, qtype': U16)
    requires WellFormedQuery(buf, labels, qtype) && WellFormedQuery(buf', labels', qtype')
    requires forall l :: l in labels || l in labels' ==> AsciiDotFree(l)
    requires forall l :: AsciiDotFree(l) ==> lossy(l) == AsciiText(l)
    ensures Parse(buf, lossy).Success? && Parse(buf', lossy).Success?
    ensures Parse(buf, lossy).value.qname == Parse(buf', lossy).value.qname <==> labels == labels'
  {
    ParseComplete(buf, lossy, labels, qtype);
    ParseComplete(buf', lossy, labels', qtype');
    if Parse(buf, lossy).value.qname == Parse(buf', lossy).value.qname {
      SameTextSameLabels(labels, labels', lossy);
    }
  }

  lemma TextsHaveNoDot(labels: seq<Label>, lossy: Label -> string)
    requires ValidLabels(labels) && forall l :: l in labels ==> AsciiDotFree(l) && lossy(l) == AsciiText(l)
    ensures forall t :: t in Texts(labels, lossy) ==> '.' !in t && t != ""
  {
    forall i | 0 <= i < |labels|
      ensures '.' !in Texts(labels, lossy)[i] && Texts(labels, lossy)[i] != ""
    {
      assert labels[i] in labels;
    }
  }

  lemma SameTextSameLabels(labels: seq<Label>, labels': seq<Label>, lossy: Label -> string)
    requires ValidLabels(labels) && forall l :: l in labels ==> AsciiDotFree(l) && lossy(l) == AsciiText(l)
    requires ValidLabels(labels') && forall l :: l in labels' ==> AsciiDotFree(l) && lossy(l) == AsciiText(l)
    requires JoinDots(Texts(labels, lossy)) == JoinDots(Texts(labels', lossy))
    ensures labels == labels'
  {
    var t, t' := Texts(labels, lossy), Texts(labels', lossy);
    TextsHaveNoDot(labels, lossy);
    TextsHaveNoDot(labels', lossy);
    if labels == [] || labels' == [] {
      NonEmptyJoin(t);
      NonEmptyJoin(t');
    } else {
      SplitUndoesJoin(t);
      SplitUndoesJoin(t');
      assert t == t';
      forall i | 0 <= i < |labels|
        ensures labels[i] == labels'[i]
      {
        assert labels[i] in labels && labels'[i] in labels';
        assert AsciiText(labels[i]) == t[i] == t'[i] == AsciiText(labels'[i]);
        SameAscii(labels[i], labels'[i]);
      }
    }
  }

  lemma NonEmptyJoin(t: seq<string>)
    requires forall x :: x in t ==> x != ""
    ensures JoinDots(t) == "" <==> t == []
  {
    if t != [] {
      assert t[0] in t;
    }
  }

  lemma SameAscii(a: Label, b: Label)
    requires AsciiDotFree(a) && AsciiDotFree(b) && AsciiText(a) == AsciiText(b)
    ensures a == b
  {
    forall i | 0 <= i < |a|
      ensures a[i] == b[i]
    {
      assert AsciiText(a)[i] == AsciiText(b)[i];
    }
  }

  // ----- responses -----

  lemma NameBytesLength(labels: seq<Label>)
    requires ValidLabels(labels) && labels != []
    ensures ValidLabels(labels[1..]) && |NameBytes(labels)| == 1 + |labels[0]| + |NameBytes(labels[1..])|
  {
  }

  lemma {:induction false} NameDecodes(msg: seq<Byte>, pos: nat, start: nat, labels: seq<Label>)
    requires ValidLabels(labels) && HasAt(msg, pos, NameBytes(labels))
    ensures Name(msg, pos, start) == Some((labels, pos + |NameBytes(labels)|))
    decreases |labels|
  {
    if labels == [] {
      assert msg[pos + 0] == [0][0];
    } else {
      NameHead(msg, pos, labels);
      hide HasAt, NameBytes;
      NameDecodes(msg, pos + 1 + msg[pos], start, labels[1..]);
      NameBytesLength(labels);
      assert [labels[0]] + labels[1..] == labels;
      assert msg[pos + 1..][..msg[pos]] == msg[pos + 1..pos + 1 + msg[pos]];
    }
  }

  /** The record that one address is expected to become. */
  function Expected(labels: seq<Label>, qtype: U16, ip: IpAddr): Record {
    Record(labels, qtype, QCLASS_IN, 60, Rdata(ip))
  }

  function ExpectedAll(labels: seq<Label>, qtype: U16, ips: seq<IpAddr>): (rs: seq<Record>)
    ensures |rs| == |ips|
  {
    if ips == [] then [] else [Expected(labels, qtype, ips[0])] + ExpectedAll(labels, qtype, ips[1..])
  }

  lemma TwelveOctets(msg: seq<Byte>, pos: nat, b: seq<Byte>)
    requires |b| == 12 && HasAt(msg, pos, b)
    ensures pos + 12 <= |msg| && msg[pos] == b[0] && msg[pos + 1] == b[1] && msg[pos + 2] == b[2] && msg[pos + 3] == b[3]
    ensures msg[pos + 4] == b[4] && msg[pos + 5] == b[5] && msg[pos + 6] == b[6] && msg[pos + 7] == b[7]
    ensures msg[pos + 8] == b[8] && msg[pos + 9] == b[9] && msg[pos + 10] == b[10] && msg[pos + 11] == b[11]
  {
    assert msg[pos + 0] == b[0];
  }

  lemma AnswerLayout(qtype: U16, ip: IpAddr)
    ensures |Rdata(ip)| <= 16
    ensures Answer(qtype, ip) == [192, 12, qtype / 256, qtype % 256, 0, 1, 0, 0, 0, 60, 0, |Rdata(ip)|] + Rdata(ip)
  {
  }

  lemma AnswerFields(msg: seq<Byte>, pos: nat, qtype: U16, ip: IpAddr)
    requires HasAt(msg, pos, Answer(qtype, ip))
    ensures
      var n := |Rdata(ip)|;
      && |Answer(qtype, ip)| == 12 + n && pos + 12 + n <= |msg|
      && msg[pos] == 192 && msg[pos + 1] == 12
      && Number16(msg, pos + 2) == qtype && Number16(msg, pos + 4) == QCLASS_IN
      && Number16(msg, pos + 6) == 0 && Number16(msg, pos + 8) == 60 && Number16(msg, pos + 10) == n
      && msg[pos + 12..pos + 12 + n] == Rdata(ip)
  {
    assert pos + |Answer(qtype, ip)| <= |msg|;
    hide HasAt, Answer, Rdata;
    var n := |Rdata(ip)|;
    var fixed: seq<Byte> := [192, 12, qtype / 256, qtype % 256, 0, 1, 0, 0, 0, 60, 0, n];
    AnswerLayout(qtype, ip);
    HasAtSplit(msg, pos, fixed, Rdata(ip));
    HasAtSlice(msg, pos + 12, Rdata(ip));
    TwelveOctets(msg, pos, fixed);
  }

  lemma AnswerDecodes(msg: seq<Byte>, pos: nat, labels: seq<Label>, qtype: U16, ip: IpAddr)
    requires ValidLabels(labels) && HasAt(msg, 12, NameBytes(labels)) && pos > 12
    requires HasAt(msg, pos, Answer(qtype, ip))
    ensures OneRecord(msg, pos) == Some((Expected(labels, qtype, ip), pos + |Answer(qtype, ip)|))
  {
    AnswerFields(msg, pos, qtype, ip);
    NameDecodes(msg, 12, 12, labels);
    assert Name(msg, pos, pos) == Some((labels, pos + 2));
  }

  lemma RecordsStep(msg: seq<Byte>, pos: nat, n: nat, record: Record, next: nat, rest: seq<Record>, end: nat)
    requires OneRecord(msg, pos) == Some((record, next))
    requires Records(msg, next, n) == Some((rest, end))
    ensures Records(msg, pos, n + 1) == Some(([record] + rest, end))
  {
  }

  lemma {:induction false} AnswersDecode(msg: seq<Byte>, pos: nat, labels: seq<Label>, qtype: U16, ips: seq<IpAddr>)
    requires ValidLabels(labels) && HasAt(msg, 12, NameBytes(labels)) && pos > 12
    requires HasAt(msg, pos, Answers(qtype, ips))
    ensures Records(msg, pos, |ips|) == Some((ExpectedAll(labels, qtype, ips), pos + |Answers(qtype, ips)|))
    decreases |ips|
  {
    hide OneRecord, HasAt, Answer;
    if ips == [] {
      assert Records(msg, pos, 0) == Some(([], pos));
    } else {
      var next := pos + |Answer(qtype, ips[0])|;
      HasAtSplit(msg, pos, Answer(qtype, ips[0]), Answers(qtype, ips[1..]));
      AnswerDecodes(msg, pos, labels, qtype, ips[0]);
      AnswersDecode(msg, next, labels, qtype, ips[1..]);
      RecordsStep(msg, pos, |ips| - 1, Expected(labels, qtype, ips[0]), next,
                  ExpectedAll(labels, qtype, ips[1..]), next + |Answers(qtype, ips[1..])|);
      assert |Answers(qtype, ips)| == |Answer(qtype, ips[0])| + |Answers(qtype, ips[1..])|;
      assert ExpectedAll(labels, qtype, ips) == [Expected(labels, qtype, ips[0])] + ExpectedAll(labels, qtype, ips[1..]);
      assert Records(msg, pos, |ips|) == Some((ExpectedAll(labels, qtype, ips), pos + |Answers(qtype, ips)|));
    }
  }

  lemma {:induction false} AnswersSplit(qtype: U16, a: seq<IpAddr>, b: seq<IpAddr>)
    ensures Answers(qtype, a + b) == Answers(qtype, a) + Answers(qtype, b)
  {
    hide Answer;
    if a == [] {
      assert a + b == b;
    } else {
      AnswersSplit(qtype, a[1..], b);
      assert (a + b)[1..] == a[1..] + b;
      Regroup2(Answer(qtype, a[0]), Answers(qtype, a[1..]), Answers(qtype, b));
    }
  }

  function ExpectedMessage(id: U16, labels: seq<Label>, qtype: U16, rcode: Byte, ips: seq<IpAddr>): Message {
    Message(id, true, 0, false, false, true, true, 0, rcode % 16,
            [Question(labels, qtype, QCLASS_IN)], ExpectedAll(labels, qtype, ips), [], [])
  }

  lemma HeaderFields(id: U16, rcode: Byte, answers: nat, rest: seq<Byte>)
    ensures
      var msg := Header(id, rcode, answers) + rest;
      && Number16(msg, 0) == id && msg[2] == 129 && msg[3] == 128 + rcode % 16
      && Number16(msg, 4) == 1 && Number16(msg, 6) == answers % 0x1_0000
      && Number16(msg, 8) == 0 && Number16(msg, 10) == 0
  {
    Be16RoundTrip(id);
    Be16RoundTrip(answers % 0x1_0000);
  }

  lemma QuestionNumbers(msg: seq<Byte>, labels: seq<Label>, qtype: U16)
    requires ValidLabels(labels) && HasAt(msg, 12, QuestionBytes(labels, qtype))
    ensures
      var end := 12 + |NameBytes(labels)|;
      && HasAt(msg, 12, NameBytes(labels)) && |QuestionBytes(labels, qtype)| == |NameBytes(labels)| + 4
      && end + 4 <= |msg| && Number16(msg, end) == qtype && Number16(msg, end + 2) == QCLASS_IN
  {
    assert |QuestionBytes(labels, qtype)| == |NameBytes(labels)| + 4;
    hide HasAt, NameBytes, QuestionBytes;
    QuestionParts(msg, 12, labels, qtype);
  }

  lemma OneQuestion(msg: seq<Byte>, labels: seq<Label>, qtype: U16)
    requires ValidLabels(labels) && HasAt(msg, 12, QuestionBytes(labels, qtype))
    ensures HasAt(msg, 12, NameBytes(labels))
    ensures Questions(msg, 12, 1) == Some(([Question(labels, qtype, QCLASS_IN)], 12 + |QuestionBytes(labels, qtype)|))
  {
    hide HasAt, NameBytes, QuestionBytes, Name, Questions, Number16;
    QuestionNumbers(msg, labels, qtype);
    NameDecodes(msg, 12, 12, labels);
    QuestionsStep(msg, 12, labels, 12 + |NameBytes(labels)|);
  }

  lemma QuestionsStep(msg: seq<Byte>, pos: nat, name: seq<Label>, next: nat)
    requires Name(msg, pos, pos) == Some((name, next)) && next + 4 <= |msg|
    ensures Questions(msg, pos, 1)
            == Some(([Question(name, Number16(msg, next), Number16(msg, next + 2))], next + 4))
  {
    var q := Question(name, Number16(msg, next), Number16(msg, next + 2));
    assert Questions(msg, next + 4, 0) == Some(([], next + 4));
    assert [q] + [] == [q];
  }

  /** Putting the sections of a message without authority and additional records together. */
  lemma DecodeAssembles(msg: seq<Byte>, id: U16, rcode: nat, questions: seq<Question>, end: nat,
                        answers: seq<Record>, end': nat)
    requires |msg| >= 12 && Number16(msg, 0) == id && msg[2] == 129 && rcode < 16 && msg[3] == 128 + rcode
    requires Questions(msg, 12, Number16(msg, 4)) == Some((questions, end))
    requires Records(msg, end, Number16(msg, 6)) == Some((answers, end'))
    requires Number16(msg, 8) == 0 && Number16(msg, 10) == 0
    ensures Decode(msg) ==
      if end' != |msg| then None
      else Some(Message(id, true, 0, false, false, true, true, 0, rcode, questions, answers, [], []))
  {
    hide Questions, OneRecord;
    assert Records(msg, end', 0) == Some(([], end'));
  }

  lemma ThreePieces(a: seq<Byte>, b: seq<Byte>, c: seq<Byte>)
    ensures HasAt(a + b + c, |a|, b) && HasAt(a + b + c, |a| + |b|, c)
  {
    var msg := a + b + c;
    assert HasAt(msg, 0, msg);
    HasAtSplit(msg, 0, a + b, c);
    HasAtSplit(msg, 0, a, b);
  }

  /** The octets of an answer section decode to its records, whatever part of it is asked for. */
  lemma AnswerSectionPrefix(msg: seq<Byte>, pos: nat, labels: seq<Label>, qtype: U16, ips: seq<IpAddr>, n: nat)
    requires ValidLabels(labels) && HasAt(msg, 12, NameBytes(labels)) && pos > 12 && n <= |ips|
    requires HasAt(msg, pos, Answers(qtype, ips)) && |msg| == pos + |Answers(qtype, ips)|
    ensures Records(msg, pos, n).Some?
    ensures
      var (records, end) := Records(msg, pos, n).value;
      records == ExpectedAll(labels, qtype, ips[..n]) && (end == |msg| <==> n == |ips|)
  {
    hide HasAt, NameBytes, Records, Answer;
    assert ips == ips[..n] + ips[n..];
    AnswersSplit(qtype, ips[..n], ips[n..]);
    HasAtSplit(msg, pos, Answers(qtype, ips[..n]), Answers(qtype, ips[n..]));
    AnswersDecode(msg, pos, labels, qtype, ips[..n]);
    AnswersEmpty(qtype, ips[n..]);
  }

  lemma AnswersEmpty(qtype: U16, ips: seq<IpAddr>)
    ensures |Answers(qtype, ips)| == 0 <==> ips == []
  {
  }

  /** Where the pieces of a response are. */
  lemma ResponseLayout(head: seq<Byte>, raw: seq<Byte>, section: seq<Byte>)
    requires |head| == 12
    ensures HasAt(head + raw + section, 12, raw) && HasAt(head + raw + section, 12 + |raw|, section)
    ensures head + raw + section == head + (raw + section)
  {
    ThreePieces(head, raw, section);
  }

  /** A response decodes to the identifier, the one question, the response code and exactly
      the given addresses in order, all owned by the queried name, with no octet left over -
      as long as the answer count fits its 16-bit field, and never otherwise. */
  lemma ResponseDecodesExactlyWhenCountFits(id: U16, labels: seq<Label>, qtype: U16, rcode: Byte, ips: seq<IpAddr>)
    requires ValidLabels(labels)
    ensures
      var msg := Response(id, QuestionBytes(labels, qtype), qtype, rcode, ips);
      Decode(msg) == (if |ips| < 0x1_0000 then Some(ExpectedMessage(id, labels, qtype, rcode, ips)) else None)
  {
    hide HasAt, NameBytes, QuestionBytes, Answers, Header, Questions, Records, Decode;
    var raw, head, section := QuestionBytes(labels, qtype), Header(id, rcode, |ips|), Answers(qtype, ips);
    var msg := head + raw + section;
    var end, n := 12 + |raw|, |ips| % 0x1_0000;
    ResponseLayout(head, raw, section);
    HeaderFields(id, rcode, |ips|, raw + section);
    OneQuestion(msg, labels, qtype);
    AnswerSectionPrefix(msg, end, labels, qtype, ips, n);
    var (records, end') := Records(msg, end, n).value;
    DecodeAssembles(msg, id, rcode % 16, [Question(labels, qtype, QCLASS_IN)], end, records, end');
    assert ips[..|ips|] == ips;
  }

  predicate TypeMatches(qtype: U16, ip: IpAddr) {
    qtype == if ip.V6? then QTYPE_AAAA else QTYPE_A
  }

  /** Reading the addresses back gives the given ones exactly when the printed type is the
      record type of every one of them. */
  lemma {:induction false} AddressesRecovered(labels: seq<Label>, qtype: U16, ips: seq<IpAddr>)
    ensures Addresses(ExpectedAll(labels, qtype, ips)) == Some(ips) <==> forall ip :: ip in ips ==> TypeMatches(qtype, ip)
    decreases |ips|
  {
    if ips != [] {
      var ip, rest := ips[0], ips[1..];
      AddressesRecovered(labels, qtype, rest);
      assert ips == [ip] + rest;
      assert ExpectedAll(labels, qtype, ips)[1..] == ExpectedAll(labels, qtype, rest);
      assert Address(Expected(labels, qtype, ip)) == if TypeMatches(qtype, ip) then Some(ip) else None;
      assert forall x :: x in ips <==> x == ip || x in rest;
      match Addresses(ExpectedAll(labels, qtype, rest))
      case None =>
      case Some(found) =>
        assert ([ip] + found)[1..] == found;
    }
  }

  /** The addresses of the asked family, in the order the resolver gave them. */
  function Wanted(qtype: U16, resolved: Option<seq<IpAddr>>): seq<IpAddr> {
    if (qtype == QTYPE_A || qtype == QTYPE_AAAA) && resolved.Some?
    then OfFamily(resolved.value, qtype == QTYPE_AAAA) else []
  }

  function ExpectedCode(qtype: U16, resolved: Option<seq<IpAddr>>): Byte {
    if qtype != QTYPE_A && qtype != QTYPE_AAAA then 4
    else if resolved.None? then 2
    else if Wanted(qtype, resolved) == [] then 3
    else 0
  }

  /** What a decoded reply must say, given what the resolver said. */
  ghost predicate Faithful(m: Message, id: U16, labels: seq<Label>, qtype: U16, resolved: Option<seq<IpAddr>>) {
    && m.id == id && m.response && !m.truncated
    && m.questions == [Question(labels, qtype, QCLASS_IN)]
    && (forall r :: r in m.answers ==> r.name == labels)
    && Addresses(m.answers) == Some(Wanted(qtype, resolved))
    && m.rcode == ExpectedCode(qtype, resolved)
  }

  lemma ReplyIsResponse(request: seq<Byte>, lossy: Label -> string, resolve: string -> Option<seq<IpAddr>>,
                        labels: seq<Label>, qtype: U16)
    requires WellFormedQuery(request, labels, qtype)
    ensures
      var resolved := resolve(JoinDots(Texts(labels, lossy)));
      Reply(request, lossy, resolve) == Some(Response(
        FromBe16(request[0], request[1]), QuestionBytes(labels, qtype), qtype,
        ExpectedCode(qtype, resolved), Wanted(qtype, resolved)))
  {
    ParseComplete(request, lossy, labels, qtype);
    hide WellFormedQuery, QuestionBytes, Parse, Response, JoinDots, Texts, OfFamily;
  }

  lemma ExpectedMessageIsFaithful(id: U16, labels: seq<Label>, qtype: U16, resolved: Option<seq<IpAddr>>)
    ensures
      var m := ExpectedMessage(id, labels, qtype, ExpectedCode(qtype, resolved), Wanted(qtype, resolved));
      Faithful(m, id, labels, qtype, resolved)
  {
    var ips := Wanted(qtype, resolved);
    OwnersAreTheName(labels, qtype, ips);
    AddressesRecovered(labels, qtype, ips);
    assert forall ip :: ip in ips ==> TypeMatches(qtype, ip);
  }

  /** From the datagram to the decoded reply: every well-formed query is answered, under its
      own identifier and question; other types get NOTIMP, a failed resolution SERVFAIL, a
      name without an address of the asked family NXDOMAIN, and otherwise the reply carries
      exactly the addresses of that family. Only a reply of 65536 or more addresses cannot be
      decoded, because its count is cut to 16 bits. */
  lemma ReplyAnswersTheQuestion(request: seq<Byte>, lossy: Label -> string, resolve: string -> Option<seq<IpAddr>>,
                                labels: seq<Label>, qtype: U16)
    requires WellFormedQuery(request, labels, qtype)
    ensures Reply(request, lossy, resolve).Some?
    ensures
      var resolved := resolve(JoinDots(Texts(labels, lossy)));
      match Decode(Reply(request, lossy, resolve).value)
      case None => |Wanted(qtype, resolved)| >= 0x1_0000
      case Some(m) =>
        && |Wanted(qtype, resolved)| < 0x1_0000
        && Faithful(m, FromBe16(request[0], request[1]), labels, qtype, resolved)
  {
    ReplyIsResponse(request, lossy, resolve, labels, qtype);
    var resolved := resolve(JoinDots(Texts(labels, lossy)));
    var id := FromBe16(request[0], request[1]);
    assert ValidLabels(labels);
    hide WellFormedQuery, QuestionBytes, Reply, Response, Decode, JoinDots, Texts, Wanted, ExpectedCode, Faithful,
         ExpectedMessage;
    ExpectedMessageIsFaithful(id, labels, qtype, resolved);
    ResponseDecodesExactlyWhenCountFits(id, labels, qtype, ExpectedCode(qtype, resolved), Wanted(qtype, resolved));
  }

  lemma {:induction false} AllOfFamily(ips: seq<IpAddr>, wantV6: bool)
    requires forall ip :: ip in ips ==> ip.V6? == wantV6
    ensures OfFamily(ips, wantV6) == ips
  {
    if ips != [] {
      assert ips[0] in ips;
      AllOfFamily(ips[1..], wantV6);
    }
  }

  /** A query, and a resolver with 65536 addresses for its name, whose reply does not decode. */
  lemma UndecodableReply(lossy: Label -> string)
    ensures
      var request := HEADER + QuestionBytes([[97]], QTYPE_A);
      var resolve := (_: string) => Some(seq(0x1_0000, _ => V4([10, 0, 0, 1])));
      var sent := Reply(request, lossy, resolve);
      sent.Some? && Decode(sent.value).None?
  {
    var labels: seq<Label> := [[97]];
    var request := HEADER + QuestionBytes(labels, QTYPE_A);
    var ips: seq<IpAddr> := seq(0x1_0000, _ => V4([10, 0, 0, 1]));
    var resolve := (_: string) => Some(seq(0x1_0000, _ => V4([10, 0, 0, 1])));
    AllOfFamily(ips, false);
    QuestionIsWellFormed(labels, QTYPE_A);
    ReplyAnswersTheQuestion(request, lossy, resolve, labels, QTYPE_A);
    hide Decode, Reply, WellFormedQuery, OfFamily, QuestionBytes;
    assert resolve(JoinDots(Texts(labels, lossy))) == Some(ips);
  }

  // ----- the size of a reply -----

  /** A response takes 16 octets for every IPv4 and 28 for every IPv6 address. */
  lemma {:induction false} AnswersSize(qtype: U16, ips: seq<IpAddr>)
    ensures |Answers(qtype, ips)| == 16 * |OfFamily(ips, false)| + 28 * |OfFamily(ips, true)|
    decreases |ips|
  {
    if ips != [] {
      AnswersSize(qtype, ips[1..]);
      assert |Answer(qtype, ips[0])| == 12 + |Rdata(ips[0])|;
      hide Answer;
    }
  }

  lemma {:induction false} NoneOfOtherFamily(ips: seq<IpAddr>, wantV6: bool)
    requires forall ip :: ip in ips ==> ip.V6? != wantV6
    ensures OfFamily(ips, wantV6) == []
  {
    if ips != [] {
      assert ips[0] in ips;
      NoneOfOtherFamily(ips[1..], wantV6);
    }
  }

  const CLASSIC_LIMIT: nat := 512

  const UDP_LIMIT: nat := 65507

  /** How long the reply to a query is, and from how many addresses on it is longer than the 512
      octets of section 4.2.1 of RFC 1035 (although it never says that it is truncated) and than
      any UDP datagram can carry. */
  lemma ReplySize(request: seq<Byte>, lossy: Label -> string, resolve: string -> Option<seq<IpAddr>>,
                  labels: seq<Label>, qtype: U16)
    requires WellFormedQuery(request, labels, qtype)
    ensures Reply(request, lossy, resolve).Some?
    ensures
      var sent := Reply(request, lossy, resolve).value;
      var fixed, each := 12 + |QuestionBytes(labels, qtype)|, if qtype == QTYPE_AAAA then 28 else 16;
      var n := |Wanted(qtype, resolve(JoinDots(Texts(labels, lossy))))|;
      && |sent| == fixed + each * n
      && (fixed <= CLASSIC_LIMIT ==> (|sent| > CLASSIC_LIMIT <==> n > (CLASSIC_LIMIT - fixed) / each))
      && (fixed <= UDP_LIMIT ==> (|sent| > UDP_LIMIT <==> n > (UDP_LIMIT - fixed) / each))
      && sent[2] == 129
  {
    var resolved := resolve(JoinDots(Texts(labels, lossy)));
    var ips, v6 := Wanted(qtype, resolved), qtype == QTYPE_AAAA;
    ReplyIsResponse(request, lossy, resolve, labels, qtype);
    AnswersSize(qtype, ips);
    AllOfFamily(ips, v6);
    NoneOfOtherFamily(ips, !v6);
    var id, code := FromBe16(request[0], request[1]), ExpectedCode(qtype, resolved);
    HeaderFields(id, code, |ips|, QuestionBytes(labels, qtype) + Answers(qtype, ips));
    Regroup2(Header(id, code, |ips|), QuestionBytes(labels, qtype), Answers(qtype, ips));
    hide WellFormedQuery, QuestionBytes, Reply, Wanted, OfFamily, Answers, Header, ExpectedCode, JoinDots, Texts;
  }

  lemma {:induction false} OwnersAreTheName(labels: seq<Label>, qtype: U16, ips: seq<IpAddr>)
    ensures forall r :: r in ExpectedAll(labels, qtype, ips) ==> r.name == labels
    decreases |ips|
  {
    if ips != [] {
      OwnersAreTheName(labels, qtype, ips[1..]);
    }
  }

  /** Requests that are not well-formed queries get no reply at all. */
  lemma OthersAreDropped(request: seq<Byte>, lossy: Label -> string, resolve: string -> Option<seq<IpAddr>>)
    ensures Reply(request, lossy, resolve).None? <==> !exists labels, qtype :: WellFormedQuery(request, labels, qtype)
  {
    ParseAcceptsExactlyWellFormed(request, lossy);
  }
}
