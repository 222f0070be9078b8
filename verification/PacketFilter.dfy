/**
 The part of nftables that the emitted rulesets use, as an evaluation semantics for one
 locally generated packet. Base chains of the nat output hook (priority -100) run before
 those of the filter output hook (priority 0); every base chain has policy accept.
 */
module PacketFilter {
  import opened Addresses
  import opened Wrappers

  datatype Proto = Tcp | Udp | Other

  type Port = x: nat | x < 0x1_0000

  /** `dport` means something for TCP and UDP only. */
  datatype Packet = Packet(uid: nat, proto: Proto, dport: Port, dst: Addr, oifLo: bool)

  datatype Match =
    | SkUid(uid: nat)
    | Daddr(prefixes: seq<Prefix>)
    | Dport(proto: Proto, port: Port)
    | L4Proto(proto: Proto)
    | OifLo

  datatype Verdict = Accept | Return | Drop | Redirect(to: Port)

  datatype Rule = Rule(conditions: seq<Match>, verdict: Verdict)

  predicate Holds(m: Match, p: Packet) {
    match m
    case SkUid(uid) => p.uid == uid
    case Daddr(prefixes) => InAny(prefixes, p.dst)
    case Dport(proto, port) => p.proto == proto && p.dport == port
    case L4Proto(proto) => p.proto == proto
    case OifLo => p.oifLo
  }

  predicate Fires(r: Rule, p: Packet) {
    forall m :: m in r.conditions ==> Holds(m, p)
  }

  /** The verdict of the first rule that fires; without one the chain's policy accepts. */
  function Chain(rules: seq<Rule>, p: Packet): Option<Verdict> {
    if rules == [] then None
    else if Fires(rules[0], p) then Some(rules[0].verdict)
    else Chain(rules[1..], p)
  }

  function Loopback(a: Addr): Addr {
    match a
    case V4(_) => V4(0x7F00_0001)
    case V6(_) => V6(1)
  }

  /** A redirect sends the packet to this host's loopback address and the given port. */
  function Redirected(p: Packet, to: Port): Packet {
    p.(dst := Loopback(p.dst), dport := to, oifLo := true)
  }

  datatype Table = RedirectTable | ScopedTable | SystemTable

  /** The installed tables, in the order they were created. */
  datatype Installed = Installed(table: Table, rules: seq<Rule>)

  function RulesOf(ts: seq<Installed>, t: Table): Option<seq<Rule>> {
    if ts == [] then None
    else if ts[0].table == t then Some(ts[0].rules)
    else RulesOf(ts[1..], t)
  }

  /** `nft -f` with a table declaration: creates the table, or adds to the chain it has. */
  function Load(ts: seq<Installed>, t: Table, rules: seq<Rule>): seq<Installed> {
    if ts == [] then [Installed(t, rules)]
    else if ts[0].table == t then [Installed(t, ts[0].rules + rules)] + ts[1..]
    else [ts[0]] + Load(ts[1..], t, rules)
  }

  /** `delete table`; deleting a table that is not there is tolerated by the callers. */
  function Unload(ts: seq<Installed>, t: Table): seq<Installed> {
    if ts == [] then []
    else if ts[0].table == t then Unload(ts[1..], t)
    else [ts[0]] + Unload(ts[1..], t)
  }

  function Nat(ts: seq<Installed>, p: Packet): Packet {
    match RulesOf(ts, RedirectTable)
    case None => p
    case Some(rules) =>
      match Chain(rules, p)
      case Some(Redirect(to)) => Redirected(p, to)
      case _ => p
  }

  /** Filter chains run in creation order: an accept ends only its own chain, a drop is final. */
  predicate Passes(ts: seq<Installed>, p: Packet) {
    ts == [] || ((ts[0].table == RedirectTable || Chain(ts[0].rules, p) != Some(Drop)) && Passes(ts[1..], p))
  }

  datatype Fate = Dropped | Sent(packet: Packet)

  function Output(ts: seq<Installed>, p: Packet): Fate {
    var q := Nat(ts, p);
    if Passes(ts, q) then Sent(q) else Dropped
  }

  predicate Distinct(ts: seq<Installed>) {
    forall i, j :: 0 <= i < j < |ts| ==> ts[i].table != ts[j].table
  }

  predicate DropsIn(ts: seq<Installed>, t: Table, p: Packet) {
    RulesOf(ts, t).Some? && Chain(RulesOf(ts, t).value, p) == Some(Drop)
  }

  // ----- tables come and go independently -----

  lemma {:induction false} LoadRules(ts: seq<Installed>, t: Table, rules: seq<Rule>, u: Table)
    ensures RulesOf(Load(ts, t, rules), u) ==
      if u != t then RulesOf(ts, u)
      else Some((if RulesOf(ts, t).Some? then RulesOf(ts, t).value else []) + rules)
  {
    if ts == [] {
      assert [] + rules == rules;
    } else if ts[0].table == t {
      assert Load(ts, t, rules)[1..] == ts[1..];
    } else {
      LoadRules(ts[1..], t, rules, u);
      assert Load(ts, t, rules)[1..] == Load(ts[1..], t, rules);
    }
  }

  lemma {:induction false} LoadAddsOnly(ts: seq<Installed>, t: Table, rules: seq<Rule>)
    requires Distinct(ts)
    ensures Distinct(Load(ts, t, rules))
    ensures forall e :: e in Load(ts, t, rules) ==> e.table == t || exists d :: d in ts && d.table == e.table
  {
    if ts != [] && ts[0].table != t {
      LoadAddsOnly(ts[1..], t, rules);
      var rest := Load(ts[1..], t, rules);
      forall i | 0 <= i < |rest|
        ensures rest[i].table != ts[0].table
      {
        assert rest[i] in rest;
      }
    }
  }

  lemma LoadEffect(ts: seq<Installed>, t: Table, rules: seq<Rule>, u: Table)
    requires Distinct(ts)
    ensures Distinct(Load(ts, t, rules))
    ensures RulesOf(Load(ts, t, rules), u) ==
      if u != t then RulesOf(ts, u)
      else Some((if RulesOf(ts, t).Some? then RulesOf(ts, t).value else []) + rules)
    ensures forall e :: e in Load(ts, t, rules) ==> e.table == t || exists d :: d in ts && d.table == e.table
  {
    LoadRules(ts, t, rules, u);
    LoadAddsOnly(ts, t, rules);
    hide Load, RulesOf, Distinct;
  }

  lemma {:induction false} UnloadRules(ts: seq<Installed>, t: Table, u: Table)
    ensures RulesOf(Unload(ts, t), u) == if u == t then None else RulesOf(ts, u)
  {
    if ts != [] {
      UnloadRules(ts[1..], t, u);
      var rest := Unload(ts[1..], t);
      assert ([ts[0]] + rest)[1..] == rest;
    }
  }

  lemma {:induction false} UnloadKeepsOnly(ts: seq<Installed>, t: Table)
    requires Distinct(ts)
    ensures Distinct(Unload(ts, t))
    ensures forall e :: e in Unload(ts, t) ==> e in ts && e.table != t
  {
    if ts != [] {
      UnloadKeepsOnly(ts[1..], t);
      var rest := Unload(ts[1..], t);
      forall i | 0 <= i < |rest|
        ensures rest[i].table != ts[0].table
      {
        assert rest[i] in rest;
      }
    }
  }

  lemma UnloadEffect(ts: seq<Installed>, t: Table, u: Table)
    requires Distinct(ts)
    ensures Distinct(Unload(ts, t))
    ensures RulesOf(Unload(ts, t), u) == if u == t then None else RulesOf(ts, u)
    ensures forall e :: e in Unload(ts, t) ==> e in ts && e.table != t
  {
    UnloadRules(ts, t, u);
    UnloadKeepsOnly(ts, t);
  }

  /** A packet gets through the filter exactly when neither filter table drops it, whichever
      of them was created first. */
  lemma {:induction false} FilterIsConjunction(ts: seq<Installed>, p: Packet)
    requires Distinct(ts)
    ensures Passes(ts, p) <==> !DropsIn(ts, ScopedTable, p) && !DropsIn(ts, SystemTable, p)
  {
    if ts != [] {
      FilterIsConjunction(ts[1..], p);
      AbsentTable(ts[1..], ts[0].table);
    }
  }

  lemma {:induction false} AbsentTable(ts: seq<Installed>, t: Table)
    requires forall i :: 0 <= i < |ts| ==> ts[i].table != t
    ensures RulesOf(ts, t).None?
  {
    if ts != [] {
      AbsentTable(ts[1..], t);
    }
  }

  // ----- rules loaded more than once -----

  lemma {:induction false} ChainAppend(a: seq<Rule>, b: seq<Rule>, p: Packet)
    ensures Chain(a + b, p) == if Chain(a, p).Some? then Chain(a, p) else Chain(b, p)
  {
    if a == [] {
      assert a + b == b;
    } else {
      ChainAppend(a[1..], b, p);
      assert (a + b)[1..] == a[1..] + b;
    }
  }

  function Repeated(rules: seq<Rule>, n: nat): seq<Rule> {
    if n == 0 then [] else Repeated(rules, n - 1) + rules
  }

  /** Loading the same rules again never changes a verdict. */
  lemma {:induction false} RepeatingIsIdempotent(rules: seq<Rule>, n: nat, p: Packet)
    requires n >= 1
    ensures Chain(Repeated(rules, n), p) == Chain(rules, p)
  {
    ChainAppend(Repeated(rules, n - 1), rules, p);
    if n > 1 {
      RepeatingIsIdempotent(rules, n - 1, p);
    }
  }
}
