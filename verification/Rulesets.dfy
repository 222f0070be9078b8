/** The rulesets the program emits and what they do to packets, alone and together. */
module Rulesets {
  import opened Addresses
  import opened PacketFilter
  import opened Wrappers

  // ----- the transparent redirect -----

  datatype TransparentRedirect = TransparentRedirect(anonetUid: nat, transPort: Port, dnsPort: Port)

  function SkipRules(anonetUid: nat): seq<Rule> {
    [ Rule([SkUid(anonetUid)], Return),
      Rule([Daddr(LOCAL4)], Return),
      Rule([Daddr(LOCAL6)], Return),
      Rule([Dport(Tcp, 22)], Return) ]
  }

  function RedirectRules(r: TransparentRedirect): seq<Rule> {
    SkipRules(r.anonetUid) + [
      Rule([Dport(Udp, 53)], Redirect(r.dnsPort)),
      Rule([L4Proto(Tcp)], Redirect(r.transPort)) ]
  }

  // ----- the kill switches -----

  datatype KillSwitch = Scoped(protectUid: nat) | Radical(anonetUid: nat) {
    function Home(): Table {
      match this
      case Scoped(_) => ScopedTable
      case Radical(_) => SystemTable
    }

    function Rules(): seq<Rule> {
      match this
      case Scoped(uid) =>
        [ Rule([SkUid(uid), OifLo], Accept),
          Rule([SkUid(uid), Daddr([Prefix4(0x7F00_0001, 32)])], Accept),
          Rule([SkUid(uid), Daddr([Prefix6(1, 128)])], Accept),
          Rule([SkUid(uid)], Drop) ]
      case Radical(uid) =>
        [ Rule([OifLo], Accept),
          Rule([SkUid(uid)], Accept),
          Rule([], Drop) ]
    }
  }

  /** On its way to this host: out through lo, or to 127.0.0.1 or ::1. */
  predicate StaysLocal(p: Packet) {
    p.oifLo || p.dst == V4(0x7F00_0001) || p.dst == V6(1)
  }

  lemma HostPrefix4(n: Num4)
    ensures Matches(Prefix4(0x7F00_0001, 32), V4(n)) <==> n == 0x7F00_0001
  {
    assert Pow2(0) == 1;
    PowersOfTwo();
    PrefixIsInterval(32, n, 0x7F00_0001, 32);
    hide SameLeadingBits, Pow2;
  }

  lemma HostPrefix6(m: Num6)
    ensures Matches(Prefix6(1, 128), V6(m)) <==> m == 1
  {
    assert Pow2(0) == 1;
    LargePowersOfTwo();
    PrefixIsInterval(128, m, 1, 128);
    hide SameLeadingBits, Pow2;
  }

  lemma HostPrefixes(a: Addr)
    ensures InAny([Prefix4(0x7F00_0001, 32)], a) <==> a == V4(0x7F00_0001)
    ensures InAny([Prefix6(1, 128)], a) <==> a == V6(1)
  {
    hide SameLeadingBits;
    var host4, host6 := Prefix4(0x7F00_0001, 32), Prefix6(1, 128);
    assert host4 in [host4] && host6 in [host6];
    match a
    case V4(n) => HostPrefix4(n);
    case V6(m) => HostPrefix6(m);
  }

  lemma Chain4(a: Rule, b: Rule, c: Rule, d: Rule, p: Packet)
    ensures Chain([a, b, c, d], p) ==
      if Fires(a, p) then Some(a.verdict) else if Fires(b, p) then Some(b.verdict)
      else if Fires(c, p) then Some(c.verdict) else if Fires(d, p) then Some(d.verdict) else None
  {
    assert [a, b, c, d][1..] == [b, c, d] && [b, c, d][1..] == [c, d] && [c, d][1..] == [d] && [d][1..] == [];
    assert Chain([d], p) == if Fires(d, p) then Some(d.verdict) else None;
    assert Chain([c, d], p) == if Fires(c, p) then Some(c.verdict) else Chain([d], p);
    assert Chain([b, c, d], p) == if Fires(b, p) then Some(b.verdict) else Chain([c, d], p);
  }

  lemma Fires1(m: Match, v: Verdict, p: Packet)
    ensures Fires(Rule([m], v), p) <==> Holds(m, p)
  {
    assert m in [m];
  }

  lemma Fires2(m: Match, n: Match, v: Verdict, p: Packet)
    ensures Fires(Rule([m, n], v), p) <==> Holds(m, p) && Holds(n, p)
  {
    assert m in [m, n] && n in [m, n];
  }

  /** The scoped rules drop exactly what the protected user sends anywhere but to this host,
      and say nothing at all about other users. */
  lemma ScopedVerdict(uid: nat, p: Packet)
    ensures Chain(Scoped(uid).Rules(), p) ==
      if p.uid != uid then None else if StaysLocal(p) then Some(Accept) else Some(Drop)
  {
    var r := Scoped(uid).Rules();
    Chain4(r[0], r[1], r[2], r[3], p);
    assert r == [r[0], r[1], r[2], r[3]];
    Fires2(SkUid(uid), OifLo, Accept, p);
    Fires2(SkUid(uid), Daddr([Prefix4(0x7F00_0001, 32)]), Accept, p);
    Fires2(SkUid(uid), Daddr([Prefix6(1, 128)]), Accept, p);
    Fires1(SkUid(uid), Drop, p);
    HostPrefixes(p.dst);
  }

  lemma RadicalVerdict(uid: nat, p: Packet)
    ensures Chain(Radical(uid).Rules(), p) == if p.oifLo || p.uid == uid then Some(Accept) else Some(Drop)
  {
    var r := Radical(uid).Rules();
    Chain4(r[0], r[1], r[2], r[2], p);
    ChainAppend(r, [r[2]], p);
    assert r + [r[2]] == [r[0], r[1], r[2], r[2]];
    Fires1(OifLo, Accept, p);
    Fires1(SkUid(uid), Accept, p);
    assert Fires(r[2], p);
  }

  /** Traffic the redirect leaves alone. */
  predicate Skipped(r: TransparentRedirect, p: Packet) {
    p.uid == r.anonetUid || Local(p.dst) || (p.proto == Tcp && p.dport == 22)
  }

  lemma RedirectVerdict(r: TransparentRedirect, p: Packet)
    ensures Chain(RedirectRules(r), p) ==
      if Skipped(r, p) then Some(Return)
      else if p.proto == Udp && p.dport == 53 then Some(Redirect(r.dnsPort))
      else if p.proto == Tcp then Some(Redirect(r.transPort))
      else None
  {
    var skip := SkipRules(r.anonetUid);
    var last := [Rule([Dport(Udp, 53)], Redirect(r.dnsPort)), Rule([L4Proto(Tcp)], Redirect(r.transPort))];
    ChainAppend(skip, last, p);
    Chain4(skip[0], skip[1], skip[2], skip[3], p);
    assert skip == [skip[0], skip[1], skip[2], skip[3]];
    Fires1(SkUid(r.anonetUid), Return, p);
    Fires1(Daddr(LOCAL4), Return, p);
    Fires1(Daddr(LOCAL6), Return, p);
    Fires1(Dport(Tcp, 22), Return, p);
    ListedPrefixesAreTheLocalRanges(p.dst);
    Chain4(last[0], last[1], last[1], last[1], p);
    ChainAppend(last, [last[1], last[1]], p);
    assert last + [last[1], last[1]] == [last[0], last[1], last[1], last[1]];
    Fires1(Dport(Udp, 53), Redirect(r.dnsPort), p);
    Fires1(L4Proto(Tcp), Redirect(r.transPort), p);
  }

  // ----- several switches of one kind -----

  function AllRules(ks: seq<KillSwitch>): seq<Rule> {
    if ks == [] then [] else AllRules(ks[..|ks| - 1]) + ks[|ks| - 1].Rules()
  }

  lemma {:induction false} ScopedSwitchesVerdict(ks: seq<KillSwitch>, p: Packet)
    requires forall k :: k in ks ==> k.Scoped?
    ensures Chain(AllRules(ks), p) ==
      if Scoped(p.uid) !in ks then None else if StaysLocal(p) then Some(Accept) else Some(Drop)
  {
    if ks != [] {
      var rest, k := ks[..|ks| - 1], ks[|ks| - 1];
      ScopedSwitchesVerdict(rest, p);
      ChainAppend(AllRules(rest), k.Rules(), p);
      ScopedVerdict(k.protectUid, p);
      assert ks == rest + [k];
    }
  }

  /** Among several radical switches only the first one turned on has any effect: its rules
      decide every packet before the later ones are reached. */
  lemma {:induction false} FirstRadicalDecides(ks: seq<KillSwitch>, p: Packet)
    requires ks != [] && forall k :: k in ks ==> k.Radical?
    ensures Chain(AllRules(ks), p) == if p.oifLo || p.uid == ks[0].anonetUid then Some(Accept) else Some(Drop)
  {
    var rest, k := ks[..|ks| - 1], ks[|ks| - 1];
    ChainAppend(AllRules(rest), k.Rules(), p);
    RadicalVerdict(k.anonetUid, p);
    if rest != [] {
      FirstRadicalDecides(rest, p);
    }
  }

  // ----- everything installed at once -----

  /** Tables as this program leaves them: each is absent or holds its ruleset, possibly loaded
      more than once; the scoped table may confine any users. */
  ghost predicate ProgramTables(ts: seq<Installed>, r: TransparentRedirect, confined: seq<KillSwitch>, n: nat, m: nat) {
    && Distinct(ts)
    && (forall k :: k in confined ==> k.Scoped?)
    && RulesOf(ts, RedirectTable) == (if n == 0 then None else Some(Repeated(RedirectRules(r), n)))
    && RulesOf(ts, SystemTable) == (if m == 0 then None else Some(Repeated(Radical(r.anonetUid).Rules(), m)))
    && RulesOf(ts, ScopedTable) == (if confined == [] then None else Some(AllRules(confined)))
  }

  /** The same packet, to a port of this very host. */
  function Handed(p: Packet, port: Port): Packet {
    Packet(p.uid, p.proto, port, if p.dst.V4? then V4(0x7F00_0001) else V6(1), true)
  }

  /** With any of the tables installed, what exactly happens to any packet. */
  lemma PacketFate(ts: seq<Installed>, r: TransparentRedirect, confined: seq<KillSwitch>, n: nat, m: nat, p: Packet)
    requires ProgramTables(ts, r, confined, n, m)
    ensures
      var q :=
        if n == 0 || Skipped(r, p) then p
        else if p.proto == Udp && p.dport == 53 then Handed(p, r.dnsPort)
        else if p.proto == Tcp then Handed(p, r.transPort)
        else p;
      var dropped := (Scoped(p.uid) in confined && !StaysLocal(q)) || (m > 0 && !q.oifLo && p.uid != r.anonetUid);
      Output(ts, p) == if dropped then Dropped else Sent(q)
  {
    var q := Nat(ts, p);
    if n > 0 {
      RepeatingIsIdempotent(RedirectRules(r), n, p);
      RedirectVerdict(r, p);
    }
    FilterIsConjunction(ts, q);
    ScopedSwitchesVerdict(confined, q);
    if m > 0 {
      RepeatingIsIdempotent(Radical(r.anonetUid).Rules(), m, q);
      RadicalVerdict(r.anonetUid, q);
    }
  }

  /** With the redirect and the radical switch on, whatever else is confined: a packet of any
      other user leaves only through lo. Public TCP other than port 22 reaches exactly the
      transparent port, public DNS over UDP exactly the DNS port, loopback traffic that needs
      no redirect is left as it is, and all the rest is dropped. */
  lemma NothingLeavesExceptThroughTor(ts: seq<Installed>, r: TransparentRedirect, confined: seq<KillSwitch>, n: nat, m: nat, p: Packet)
    requires ProgramTables(ts, r, confined, n, m) && n >= 1 && m >= 1 && p.uid != r.anonetUid
    ensures Output(ts, p).Sent? ==> Output(ts, p).packet.oifLo
    ensures Output(ts, p) ==
      if !Local(p.dst) && p.proto == Tcp && p.dport != 22 then Sent(Handed(p, r.transPort))
      else if !Local(p.dst) && p.proto == Udp && p.dport == 53 then Sent(Handed(p, r.dnsPort))
      else if p.oifLo then Sent(p)
      else Dropped
  {
    PacketFate(ts, r, confined, n, m, p);
  }

  /** No packet of another user leaves except through lo. */
  ghost predicate Sealed(ts: seq<Installed>, exempt: nat) {
    forall p: Packet :: p.uid != exempt && Output(ts, p).Sent? ==> Output(ts, p).packet.oifLo
  }

  /** Some user that nobody confined. */
  lemma {:induction false} FreeUser(confined: seq<KillSwitch>, above: nat) returns (uid: nat)
    requires forall k :: k in confined ==> k.Scoped?
    ensures uid > above && forall k :: k in confined ==> uid > k.protectUid
  {
    uid := above + 1;
    if confined != [] {
      uid := FreeUser(confined[1..], above);
      uid := if uid > confined[0].protectUid then uid else confined[0].protectUid + 1;
      assert confined == [confined[0]] + confined[1..];
    }
  }

  /** It is the radical switch alone that seals the machine, redirect or not: without it, any
      unconfined user's UDP gets out. */
  lemma SealedExactly(ts: seq<Installed>, r: TransparentRedirect, confined: seq<KillSwitch>, n: nat, m: nat)
    requires ProgramTables(ts, r, confined, n, m)
    ensures Sealed(ts, r.anonetUid) <==> m >= 1
  {
    if m >= 1 {
      forall p: Packet | p.uid != r.anonetUid && Output(ts, p).Sent?
        ensures Output(ts, p).packet.oifLo
      {
        PacketFate(ts, r, confined, n, m, p);
      }
    } else {
      var uid := FreeUser(confined, r.anonetUid);
      var p := Packet(uid, Udp, 123, V4(0x0808_0808), false);
      PacketFate(ts, r, confined, n, m, p);
      assert Output(ts, p) == Sent(p);
    }
  }

  /** The supervised tor runs under the exempt user: it is never redirected, and only a
      scoped confinement of that very user can stop it. */
  lemma ExemptUserIsUntouched(ts: seq<Installed>, r: TransparentRedirect, confined: seq<KillSwitch>, n: nat, m: nat, p: Packet)
    requires ProgramTables(ts, r, confined, n, m) && p.uid == r.anonetUid
    ensures Output(ts, p) == if Scoped(p.uid) in confined && !StaysLocal(p) then Dropped else Sent(p)
  {
    PacketFate(ts, r, confined, n, m, p);
  }

  /** LAN and SSH traffic is excluded from the redirect "so that it keeps working"; under the
      radical switch it does not. Such a packet that is not on lo gets out exactly when it
      belongs to the exempt user (and nobody confined that user). */
  lemma LanAndSshSurviveOnlyForTheExemptUser(ts: seq<Installed>, r: TransparentRedirect, confined: seq<KillSwitch>, n: nat, m: nat,
                                             p: Packet)
    requires ProgramTables(ts, r, confined, n, m) && m >= 1 && !StaysLocal(p)
    requires Local(p.dst) || (p.proto == Tcp && p.dport == 22)
    ensures Output(ts, p).Sent? <==> p.uid == r.anonetUid && Scoped(p.uid) !in confined
  {
    PacketFate(ts, r, confined, n, m, p);
  }

  lemma SshToTheLanIsDropped()
    ensures
      var r := TransparentRedirect(0, 9040, 5300);
      var ts := Load(Load([], RedirectTable, RedirectRules(r)), SystemTable, Radical(0).Rules());
      Output(ts, Packet(1000, Tcp, 22, V4(0xC0A8_0001), false)) == Dropped
  {
    var r := TransparentRedirect(0, 9040, 5300);
    var one := Load([], RedirectTable, RedirectRules(r));
    var ts := Load(one, SystemTable, Radical(0).Rules());
    forall t: Table
      ensures RulesOf(ts, t) ==
        if t == RedirectTable then Some(RedirectRules(r))
        else if t == SystemTable then Some(Radical(0).Rules()) else None
    {
      LoadEffect([], RedirectTable, RedirectRules(r), t);
      LoadEffect(one, SystemTable, Radical(0).Rules(), t);
      LoadEffect([], RedirectTable, RedirectRules(r), SystemTable);
    }
    OneCopy(RedirectRules(r));
    OneCopy(Radical(0).Rules());
    LoadEffect([], RedirectTable, RedirectRules(r), SystemTable);
    LoadEffect(one, SystemTable, Radical(0).Rules(), SystemTable);
    assert ProgramTables(ts, r, [], 1, 1);
    NothingLeavesExceptThroughTor(ts, r, [], 1, 1, Packet(1000, Tcp, 22, V4(0xC0A8_0001), false));
  }

  lemma OneCopy(rules: seq<Rule>)
    ensures Repeated(rules, 1) == rules
  {
    assert Repeated(rules, 0) == [];
    assert [] + rules == rules;
  }
}
