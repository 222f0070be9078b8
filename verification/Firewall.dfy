/**
 The installed firewall state and the commands that change it. `works` says whether the
 external `nft` run succeeds; a failed run changes nothing.
 */
module Firewalls {
  import opened PacketFilter
  import opened Rulesets
  import opened Wrappers

  datatype Script = Declare(table: Table, rules: seq<Rule>) | Delete(table: Table)

  datatype NftError = CommandFailed | NoSuchTable

  class Firewall {
    var tables: seq<Installed>

    constructor ()
      ensures tables == []
    {
      tables := [];
    }

    /** One `nft -f -` run, applied as a whole or not at all. */
    method RunNft(script: Script, works: bool) returns (r: Result<(), NftError>)
      modifies this
      ensures !works ==> r == Failure(CommandFailed) && tables == old(tables)
      ensures works && script.Declare? ==> r.Success? && tables == Load(old(tables), script.table, script.rules)
      ensures works && script.Delete? ==>
        && tables == Unload(old(tables), script.table)
        && r == if RulesOf(old(tables), script.table).None? then Failure(NoSuchTable) else Success(())
    {
      if !works {
        return Failure(CommandFailed);
      }
      match script {
        case Declare(table, rules) =>
          tables := Load(tables, table, rules);
          return Success(());
        case Delete(table) =>
          if RulesOf(tables, table).None? {
            NothingToUnload(tables, table);
            return Failure(NoSuchTable);
          }
          tables := Unload(tables, table);
          return Success(());
      }
    }

    method EnableTable(table: Table, rules: seq<Rule>, works: bool) returns (ok: bool)
      modifies this
      ensures ok == works && tables == if works then Load(old(tables), table, rules) else old(tables)
    {
      var r := RunNft(Declare(table, rules), works);
      return r.Success?;
    }

    /** Removing a table that is not there is not an error. */
    method DisableTable(table: Table, works: bool) returns (ok: bool)
      modifies this
      ensures ok == works && tables == if works then Unload(old(tables), table) else old(tables)
    {
      var r := RunNft(Delete(table), works);
      return r.Success? || r.error == NoSuchTable;
    }

    method EnableSwitch(k: KillSwitch, works: bool) returns (ok: bool)
      modifies this
      ensures ok == works && tables == if works then Apply(old(tables), On(k)) else old(tables)
    {
      ok := EnableTable(k.Home(), k.Rules(), works);
    }

    method DisableSwitch(k: KillSwitch, works: bool) returns (ok: bool)
      modifies this
      ensures ok == works && tables == if works then Apply(old(tables), Off(k)) else old(tables)
    {
      ok := DisableTable(k.Home(), works);
    }
  }

  lemma {:induction false} NothingToUnload(ts: seq<Installed>, t: Table)
    requires RulesOf(ts, t).None?
    ensures Unload(ts, t) == ts
  {
    if ts != [] {
      NothingToUnload(ts[1..], t);
    }
  }

  // ----- any sequence of kill switch commands -----

  datatype SwitchOp = On(k: KillSwitch) | Off(k: KillSwitch)

  function Apply(ts: seq<Installed>, op: SwitchOp): seq<Installed> {
    match op
    case On(k) => Load(ts, k.Home(), k.Rules())
    case Off(k) => Unload(ts, k.Home())
  }

  function AfterOps(ops: seq<SwitchOp>): seq<Installed> {
    if ops == [] then [] else Apply(AfterOps(ops[..|ops| - 1]), ops[|ops| - 1])
  }

  /** The switches of one kind turned on since that kind was last turned off, oldest first. */
  function ActiveSince(ops: seq<SwitchOp>, t: Table): (ks: seq<KillSwitch>)
    ensures forall k :: k in ks ==> k.Home() == t
  {
    if ops == [] then []
    else
      var before, op := ActiveSince(ops[..|ops| - 1], t), ops[|ops| - 1];
      if op.k.Home() != t then before
      else if op.On? then before + [op.k]
      else []
  }

  /** Command `i` turned this switch on, and none after it turned its kind off. */
  predicate OnSince(ops: seq<SwitchOp>, k: KillSwitch, i: nat) {
    i < |ops| && ops[i] == On(k) && forall j :: i < j < |ops| ==> !TurnsOff(ops[j], k)
  }

  predicate TurnsOff(op: SwitchOp, k: KillSwitch) {
    op.Off? && op.k.Home() == k.Home()
  }

  lemma OnSinceBefore(ops: seq<SwitchOp>, k: KillSwitch, i: nat)
    requires i + 1 < |ops|
    ensures OnSince(ops, k, i) <==> OnSince(ops[..|ops| - 1], k, i) && !TurnsOff(ops[|ops| - 1], k)
  {
    hide TurnsOff;
  }

  /** The active switches are those turned on at some point with no turning off after it. */
  lemma {:induction false} ActiveSinceExactly(ops: seq<SwitchOp>, k: KillSwitch)
    ensures k in ActiveSince(ops, k.Home()) <==> exists i: nat :: OnSince(ops, k, i)
  {
    if ops != [] {
      var n := |ops| - 1;
      ActiveSinceExactly(ops[..n], k);
      forall i: nat | i < n
        ensures OnSince(ops, k, i) <==> OnSince(ops[..n], k, i) && !TurnsOff(ops[n], k)
      {
        OnSinceBefore(ops, k, i);
      }
      assert OnSince(ops, k, n) <==> ops[n] == On(k);
      assert forall i: nat :: OnSince(ops[..n], k, i) ==> i < n;
      assert forall i: nat :: OnSince(ops, k, i) ==> i <= n;
      hide OnSince;
    }
  }

  /** The tables after any commands hold exactly the rules of the active switches. */
  lemma {:induction false} TablesHoldActiveSwitches(ops: seq<SwitchOp>, t: Table)
    ensures Distinct(AfterOps(ops))
    ensures t == RedirectTable ==> RulesOf(AfterOps(ops), t).None?
    ensures
      var active := ActiveSince(ops, t);
      RulesOf(AfterOps(ops), t) == if active == [] then None else Some(AllRules(active))
  {
    if ops != [] {
      var rest, op := ops[..|ops| - 1], ops[|ops| - 1];
      hide Load, Unload, RulesOf, Distinct;
      TablesHoldActiveSwitches(rest, t);
      var before := ActiveSince(rest, t);
      match op
      case On(k) =>
        LoadEffect(AfterOps(rest), k.Home(), k.Rules(), t);
        if k.Home() == t {
          assert (before + [k])[..|before|] == before;
          assert AllRules([]) == [];
        }
      case Off(k) =>
        UnloadEffect(AfterOps(rest), k.Home(), t);
    }
  }

  /** After any sequence of commands a packet is dropped exactly when its user is among those
      confined since the scoped switch was last turned off and it does not stay on this host,
      or the radical switch is on and it leaves the host for a user other than the one the
      switch was first turned on for. Each switch's part depends on its own commands only. */
  lemma KillSwitchVerdict(ops: seq<SwitchOp>, p: Packet)
    ensures
      var scoped, radical := ActiveSince(ops, ScopedTable), ActiveSince(ops, SystemTable);
      var dropped :=
        || (Scoped(p.uid) in scoped && !StaysLocal(p))
        || (radical != [] && !p.oifLo && radical[0] != Radical(p.uid));
      Output(AfterOps(ops), p) == if dropped then Dropped else Sent(p)
  {
    var ts := AfterOps(ops);
    var scoped, radical := ActiveSince(ops, ScopedTable), ActiveSince(ops, SystemTable);
    TablesHoldActiveSwitches(ops, RedirectTable);
    TablesHoldActiveSwitches(ops, ScopedTable);
    TablesHoldActiveSwitches(ops, SystemTable);
    FilterIsConjunction(ts, p);
    ScopedSwitchesVerdict(scoped, p);
    if radical != [] {
      FirstRadicalDecides(radical, p);
      assert radical[0] in radical;
    }
  }
}
