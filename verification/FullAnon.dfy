/**
 Full anonymization: a supervised tor process, the redirect and the radical switch, turned
 on and off as one. Every external command may fail; its outcome is a parameter. `trace`
 records the state after every effect, so that claims can be made about what is in place
 between two commands as well as at rest.
 */
module FullAnon {
  import opened Addresses
  import opened PacketFilter
  import opened Rulesets
  import opened Firewalls
  import opened Supervisor
  import opened Wrappers

  const TRANS_PORT: Port := 9040
  const DNS_PORT: Port := 5300

  /** `child` is the supervisor's handle on the tor process. */
  datatype State = State(child: bool, tables: seq<Installed>, enabled: bool, failed: bool)

  /** Whether `id -u`, the two `nft` loads and the rollback deletion work, and how starting tor
      goes. */
  datatype Enabling = Enabling(uidWorks: bool, tor: Launch, redirectWorks: bool, radicalWorks: bool, rollbackWorks: bool)

  datatype Disabling = Disabling(redirectWorks: bool, radicalWorks: bool)

  function RedirectFor(uid: nat): TransparentRedirect {
    TransparentRedirect(uid, TRANS_PORT, DNS_PORT)
  }

  function WithRedirect(uid: nat, ts: seq<Installed>): seq<Installed> {
    Load(ts, RedirectTable, RedirectRules(RedirectFor(uid)))
  }

  function WithRadical(uid: nat, ts: seq<Installed>): seq<Installed> {
    Apply(ts, On(Radical(uid)))
  }

  /** From a running tor to all three pieces in place, or back to none. */
  function ArmSteps(uid: nat, s: State, e: Enabling): (steps: seq<State>)
    ensures steps != []
  {
    if !e.redirectWorks then [s, s.(child := false)]
    else
      var s1 := s.(tables := WithRedirect(uid, s.tables));
      if !e.radicalWorks then
        var s2 := s1.(tables := if e.rollbackWorks then Unload(s1.tables, RedirectTable) else s1.tables);
        [s, s1, s2, s2.(child := false)]
      else
        var s2 := s1.(tables := WithRadical(uid, s1.tables));
        [s, s1, s2, s2.(enabled := true)]
  }

  predicate Succeeds(s: State, e: Enabling) {
    e.uidWorks && !s.child && e.tor.Bootstraps() && e.redirectWorks && e.radicalWorks
  }

  /** The states an `enable` passes through before it reports; the last one is where its
      effects end. */
  function InnerSteps(uid: nat, s: State, e: Enabling): (steps: seq<State>)
    ensures steps != []
  {
    if !e.uidWorks || s.child || !e.tor.Bootstraps() then [s] else [s] + ArmSteps(uid, s.(child := true), e)
  }

  /** ... and with the error it reports, if any. */
  function EnableSteps(uid: nat, s: State, e: Enabling): (steps: seq<State>)
    ensures steps != [] && (Last(steps).failed <==> !Succeeds(s, e))
  {
    var inner := InnerSteps(uid, s.(failed := false), e);
    if Succeeds(s, e) then inner else inner + [Last(inner).(failed := true)]
  }

  function DisableSteps(s: State, d: Disabling): (steps: seq<State>)
    ensures steps != []
  {
    var s1 := s.(tables := if d.redirectWorks then Unload(s.tables, RedirectTable) else s.tables);
    var s2 := s1.(tables := if d.radicalWorks then Unload(s1.tables, SystemTable) else s1.tables);
    var s3 := s2.(child := false);
    [s1, s2, s3, s3.(enabled := false)]
  }

  function Last(steps: seq<State>): State
    requires steps != []
  {
    steps[|steps| - 1]
  }

  class FullAnonController {
    const uid: nat
    const supervisor: TorSupervisor
    const firewall: Firewall
    var enabled: bool
    var failed: bool
    ghost var trace: seq<State>

    function View(): State
      reads this, supervisor, firewall
    {
      State(supervisor.child, firewall.tables, enabled, failed)
    }

    constructor (uid: nat, firewall: Firewall)
      ensures this.uid == uid && this.firewall == firewall && fresh(supervisor)
      ensures View() == State(false, firewall.tables, false, false) && trace == []
    {
      this.uid, this.firewall := uid, firewall;
      supervisor := new TorSupervisor();
      enabled, failed, trace := false, false, [];
    }

    ghost method Record()
      modifies this`trace
      ensures trace == old(trace) + [View()]
    {
      trace := trace + [View()];
    }

    method Enable(e: Enabling) returns (ok: bool)
      modifies this, supervisor, firewall
      ensures ok == Succeeds(old(View()), e)
      ensures trace == old(trace) + EnableSteps(uid, old(View()), e)
      ensures View() == Last(EnableSteps(uid, old(View()), e))
    {
      hide InnerSteps;
      failed := false;
      ok := EnableInner(e);
      if !ok {
        failed := true;
        Record();
      }
    }

    method EnableInner(e: Enabling) returns (ok: bool)
      modifies this`enabled, this`trace, supervisor, firewall
      ensures ok == Succeeds(old(View()), e)
      ensures trace == old(trace) + InnerSteps(uid, old(View()), e)
      ensures View() == Last(InnerSteps(uid, old(View()), e))
    {
      hide ArmSteps;
      Record();
      if !e.uidWorks {
        return false;
      }
      var started := supervisor.Start(e.tor);
      if !started {
        return false;
      }
      ok := Arm(e);
    }

    /** The part of `EnableInner` after tor is up: both rulesets, or everything rolled back. */
    method Arm(e: Enabling) returns (ok: bool)
      modifies this`enabled, this`trace, supervisor, firewall
      ensures ok == (e.redirectWorks && e.radicalWorks)
      ensures trace == old(trace) + ArmSteps(uid, old(View()), e)
      ensures View() == Last(ArmSteps(uid, old(View()), e))
    {
      hide Load, Unload, Apply, RedirectRules, RulesOf;
      Record();
      var redirected := firewall.EnableTable(RedirectTable, RedirectRules(RedirectFor(uid)), e.redirectWorks);
      if !redirected {
        supervisor.Stop();
        Record();
        return false;
      }
      Record();

      var radical := firewall.EnableSwitch(Radical(uid), e.radicalWorks);
      if !radical {
        var _ := firewall.DisableTable(RedirectTable, e.rollbackWorks);
        Record();
        supervisor.Stop();
        Record();
        return false;
      }
      Record();

      enabled := true;
      Record();
      return true;
    }

    method Disable(d: Disabling)
      modifies this, supervisor, firewall
      ensures trace == old(trace) + DisableSteps(old(View()), d)
      ensures View() == Last(DisableSteps(old(View()), d))
    {
      hide Load, Unload, RulesOf;
      var _ := firewall.DisableTable(RedirectTable, d.redirectWorks);
      Record();
      var _ := firewall.DisableSwitch(Radical(uid), d.radicalWorks);
      Record();
      supervisor.Stop();
      Record();
      enabled := false;
      Record();
    }
  }

  // ----- single calls -----

  predicate SamePieces(s: State, s': State) {
    s'.child == s.child && s'.tables == s.tables && s'.enabled == s.enabled
  }

  /** `disable` always ends with no tor and the flag off; both tables are gone exactly if each
      deletion worked or had nothing to delete; and if both worked, repeating it does nothing. */
  lemma DisableAlwaysEndsOff(s: State, d: Disabling)
    ensures
      var s' := Last(DisableSteps(s, d));
      && !s'.child && !s'.enabled
      && (RulesOf(s'.tables, RedirectTable).None? && RulesOf(s'.tables, SystemTable).None? <==>
            && (d.redirectWorks || RulesOf(s.tables, RedirectTable).None?)
            && (d.radicalWorks || RulesOf(s.tables, SystemTable).None?))
      && (d.redirectWorks && d.radicalWorks ==>
            s'.tables == Unload(Unload(s.tables, RedirectTable), SystemTable))
      && (d == Disabling(true, true) ==> Last(DisableSteps(s', d)) == s')
  {
    var once := Unload(s.tables, RedirectTable);
    UnloadTwice(s.tables, RedirectTable);
    UnloadCommutes(once, RedirectTable, SystemTable);
    UnloadTwice(once, SystemTable);
    forall t | t == RedirectTable || t == SystemTable
      ensures RulesOf(once, t) == if t == RedirectTable then None else RulesOf(s.tables, t)
      ensures RulesOf(Unload(once, SystemTable), t) == None
      ensures RulesOf(Unload(s.tables, SystemTable), t) == if t == SystemTable then None else RulesOf(s.tables, t)
    {
      UnloadRules(s.tables, RedirectTable, t);
      UnloadRules(once, SystemTable, t);
      UnloadRules(s.tables, SystemTable, t);
    }
    hide RulesOf, Unload;
  }

  lemma {:induction false} UnloadTwice(ts: seq<Installed>, t: Table)
    ensures Unload(Unload(ts, t), t) == Unload(ts, t)
  {
    if ts != [] {
      UnloadTwice(ts[1..], t);
      assert ts[0].table != t ==> Unload(ts, t)[1..] == Unload(ts[1..], t);
    }
  }

  lemma {:induction false} UnloadCommutes(ts: seq<Installed>, t: Table, u: Table)
    ensures Unload(Unload(ts, t), u) == Unload(Unload(ts, u), t)
  {
    if ts != [] {
      UnloadCommutes(ts[1..], t, u);
      assert ts[0].table != t ==> Unload(ts, t)[1..] == Unload(ts[1..], t);
      assert ts[0].table != u ==> Unload(ts, u)[1..] == Unload(ts[1..], u);
    }
  }

  lemma {:induction false} UnloadUndoesLoad(ts: seq<Installed>, t: Table, rules: seq<Rule>)
    requires Distinct(ts)
    ensures RulesOf(ts, t).None? ==> Unload(Load(ts, t, rules), t) == ts
    ensures RulesOf(ts, t).Some? ==> Unload(Load(ts, t, rules), t) != ts
  {
    if ts == [] {
      assert Load(ts, t, rules)[1..] == [];
    } else if ts[0].table == t {
      UnloadEffect(Load(ts, t, rules), t, t) by {
        LoadEffect(ts, t, rules, t);
      }
    } else {
      UnloadUndoesLoad(ts[1..], t, rules);
      assert Load(ts, t, rules)[1..] == Load(ts[1..], t, rules);
      assert Unload(Load(ts, t, rules), t) == [ts[0]] + Unload(Load(ts[1..], t, rules), t);
      assert ([ts[0]] + Unload(Load(ts[1..], t, rules), t))[1..] == Unload(Load(ts[1..], t, rules), t);
    }
  }

  /** A failing `enable` puts all three pieces back exactly unless it got as far as the radical
      switch and either the rollback deletion failed too or a redirect table was already there
      (which the rollback then deletes along with its own additions). If tor is running, no step
      touches any of the three. */
  lemma FailingEnableRestoresExactly(uid: nat, s: State, e: Enabling)
    requires Distinct(s.tables) && !Succeeds(s, e)
    ensures SamePieces(s, Last(EnableSteps(uid, s, e))) <==>
      s.child || !e.uidWorks || !e.tor.Bootstraps() || !e.redirectWorks
      || (e.rollbackWorks && RulesOf(s.tables, RedirectTable).None?)
    ensures s.child ==> forall t :: t in EnableSteps(uid, s, e) ==> SamePieces(s, t)
  {
    var rules := RedirectRules(RedirectFor(uid));
    UnloadUndoesLoad(s.tables, RedirectTable, rules);
    LoadEffect(s.tables, RedirectTable, rules, RedirectTable);
  }

  // ----- between the commands -----

  /** No moment with traffic redirected to a tor that is not there. */
  predicate RedirectHasTor(s: State) {
    RulesOf(s.tables, RedirectTable).Some? ==> s.child
  }

  /** The calls that leave a redirect behind without tor: an `enable` whose radical switch fails
      to load and whose rollback fails too, and a `disable` that fails to delete a redirect. */
  predicate Orphans(s: State, c: Call) {
    match c
    case EnableCall(e) =>
      e.uidWorks && !s.child && e.tor.Bootstraps() && e.redirectWorks && !e.radicalWorks && !e.rollbackWorks
    case DisableCall(d) => !d.redirectWorks && RulesOf(s.tables, RedirectTable).Some?
  }

  ghost predicate AllHaveTor(steps: seq<State>) {
    forall i :: 0 <= i < |steps| ==> RedirectHasTor(steps[i])
  }

  /** Arming: with tor up and no redirect yet. */
  lemma ArmingOrphansExactly(uid: nat, s: State, e: Enabling)
    requires Distinct(s.tables) && RulesOf(s.tables, RedirectTable).None? && s.child
    ensures AllHaveTor(ArmSteps(uid, s, e)) <==> !e.redirectWorks || e.radicalWorks || e.rollbackWorks
  {
    var loaded := WithRedirect(uid, s.tables);
    LoadEffect(s.tables, RedirectTable, RedirectRules(RedirectFor(uid)), RedirectTable);
    UnloadRules(loaded, RedirectTable, RedirectTable);
    hide Load, Unload, Apply, RulesOf, RedirectRules;
    var steps := ArmSteps(uid, s, e);
    if e.redirectWorks && !e.radicalWorks && !e.rollbackWorks {
      assert !RedirectHasTor(steps[3]);
    }
  }

  /** Through every step of an `enable`, rollbacks included, a redirect has its tor - exactly
      unless the call is the one that orphans it. */
  lemma EnableOrphansExactly(uid: nat, s: State, e: Enabling)
    requires Distinct(s.tables) && RedirectHasTor(s)
    ensures AllHaveTor(EnableSteps(uid, s, e)) <==> !Orphans(s, EnableCall(e))
  {
    var s0 := s.(failed := false);
    var inner := InnerSteps(uid, s0, e);
    if e.uidWorks && !s.child && e.tor.Bootstraps() {
      var armed := ArmSteps(uid, s0.(child := true), e);
      ArmingOrphansExactly(uid, s0.(child := true), e);
      hide ArmSteps;
      PutBefore(s0, armed);
    } else {
      assert inner == [s0];
    }
    ReportedLast(inner, EnableSteps(uid, s, e));
  }

  lemma PutBefore(s: State, steps: seq<State>)
    requires RedirectHasTor(s)
    ensures AllHaveTor([s] + steps) <==> AllHaveTor(steps)
  {
    if AllHaveTor([s] + steps) {
      forall i | 0 <= i < |steps|
        ensures RedirectHasTor(steps[i])
      {
        assert ([s] + steps)[i + 1] == steps[i];
      }
    }
  }

  lemma ReportedLast(inner: seq<State>, steps: seq<State>)
    requires inner != [] && (steps == inner || steps == inner + [Last(inner).(failed := true)])
    ensures AllHaveTor(steps) <==> AllHaveTor(inner)
  {
    forall i | 0 <= i < |inner|
      ensures steps[i] == inner[i]
    {
    }
  }

  /** The same through every step of a `disable`. */
  lemma DisableOrphansExactly(s: State, d: Disabling)
    requires RedirectHasTor(s)
    ensures AllHaveTor(DisableSteps(s, d)) <==> !Orphans(s, DisableCall(d))
  {
    var ts := if d.redirectWorks then Unload(s.tables, RedirectTable) else s.tables;
    UnloadRules(s.tables, RedirectTable, RedirectTable);
    UnloadRules(ts, SystemTable, RedirectTable);
    hide Unload, RulesOf;
    if Orphans(s, DisableCall(d)) {
      assert !RedirectHasTor(DisableSteps(s, d)[2]);
    }
  }

  /** One such `enable`: the radical switch fails to load, and so does the rollback. */
  lemma FailedRollbackLeavesRedirectWithoutTor(uid: nat, tor: Launch)
    requires tor.Bootstraps()
    ensures
      var s := Last(EnableSteps(uid, State(false, [], false, false), Enabling(true, tor, true, false, false)));
      !RedirectHasTor(s) && !s.child
  {
    LoadEffect([], RedirectTable, RedirectRules(RedirectFor(uid)), RedirectTable);
  }

  /** And one such `disable`, after an `enable` that worked. */
  lemma FailedDeletionLeavesRedirectWithoutTor(uid: nat, tor: Launch)
    requires tor.Bootstraps()
    ensures
      var on := Last(EnableSteps(uid, State(false, [], false, false), Enabling(true, tor, true, true, true)));
      var off := Last(DisableSteps(on, Disabling(false, true)));
      on.enabled && RedirectHasTor(on) && !off.enabled && !off.child && !RedirectHasTor(off)
  {
    var one := WithRedirect(uid, []);
    LoadEffect([], RedirectTable, RedirectRules(RedirectFor(uid)), RedirectTable);
    LoadEffect(one, SystemTable, Radical(uid).Rules(), RedirectTable);
    UnloadRules(WithRadical(uid, one), SystemTable, RedirectTable);
  }

  /** A failing `enable` also deletes a redirect that an earlier failure had left behind. */
  lemma FailingEnableDeletesLeftover(uid: nat, tor: Launch)
    requires tor.Bootstraps()
    ensures
      var s := State(false, WithRedirect(uid, []), false, true);
      var s' := Last(EnableSteps(uid, s, Enabling(true, tor, true, false, true)));
      s'.failed && RulesOf(s.tables, RedirectTable).Some? && RulesOf(s'.tables, RedirectTable).None?
  {
    var left := WithRedirect(uid, []);
    LoadEffect([], RedirectTable, RedirectRules(RedirectFor(uid)), RedirectTable);
    UnloadRules(WithRedirect(uid, left), RedirectTable, RedirectTable);
    hide Load, Unload, RulesOf;
  }

  // ----- any sequence of calls -----

  datatype Call = EnableCall(e: Enabling) | DisableCall(d: Disabling)

  function Perform(uid: nat, s: State, c: Call): State {
    match c
    case EnableCall(e) => Last(EnableSteps(uid, s, e))
    case DisableCall(d) => Last(DisableSteps(s, d))
  }

  function PerformAll(uid: nat, s: State, calls: seq<Call>): State {
    if calls == [] then s else Perform(uid, PerformAll(uid, s, calls[..|calls| - 1]), calls[|calls| - 1])
  }

  function CallSteps(uid: nat, s: State, c: Call): (steps: seq<State>)
    ensures steps != [] && Last(steps) == Perform(uid, s, c)
  {
    match c
    case EnableCall(e) => EnableSteps(uid, s, e)
    case DisableCall(d) => DisableSteps(s, d)
  }

  /** All states that a sequence of calls passes through, in order. */
  function AllSteps(uid: nat, s: State, calls: seq<Call>): (steps: seq<State>)
    ensures if calls == [] then steps == [] else steps != [] && Last(steps) == PerformAll(uid, s, calls)
  {
    if calls == [] then []
    else
      var rest := calls[..|calls| - 1];
      AllSteps(uid, s, rest) + CallSteps(uid, PerformAll(uid, s, rest), calls[|calls| - 1])
  }

  lemma ArmingKeepsDistinct(uid: nat, s: State, e: Enabling)
    requires Distinct(s.tables)
    ensures Distinct(Last(ArmSteps(uid, s, e)).tables)
  {
    LoadEffect(s.tables, RedirectTable, RedirectRules(RedirectFor(uid)), RedirectTable);
    LoadEffect(WithRedirect(uid, s.tables), SystemTable, Radical(uid).Rules(), SystemTable);
    UnloadEffect(WithRedirect(uid, s.tables), RedirectTable, RedirectTable);
    hide Load, Unload, Distinct, RedirectRules;
  }

  lemma CallKeepsDistinct(uid: nat, s: State, c: Call)
    requires Distinct(s.tables)
    ensures Distinct(Perform(uid, s, c).tables)
  {
    match c
    case EnableCall(e) =>
      ArmingKeepsDistinct(uid, s.(failed := false, child := true), e);
      hide ArmSteps, Distinct;
    case DisableCall(d) =>
      var ts := if d.redirectWorks then Unload(s.tables, RedirectTable) else s.tables;
      UnloadEffect(s.tables, RedirectTable, RedirectTable);
      UnloadEffect(ts, SystemTable, SystemTable);
      hide Unload, Distinct;
  }

  lemma {:induction false} CallsKeepDistinct(uid: nat, s: State, calls: seq<Call>)
    requires Distinct(s.tables)
    ensures Distinct(PerformAll(uid, s, calls).tables)
  {
    hide Distinct, Perform;
    if calls != [] {
      var rest := calls[..|calls| - 1];
      CallsKeepDistinct(uid, s, rest);
      CallKeepsDistinct(uid, PerformAll(uid, s, rest), calls[|calls| - 1]);
    }
  }

  lemma CallOrphansExactly(uid: nat, s: State, c: Call)
    requires Distinct(s.tables) && RedirectHasTor(s)
    ensures AllHaveTor(CallSteps(uid, s, c)) <==> !Orphans(s, c)
  {
    match c
    case EnableCall(e) => EnableOrphansExactly(uid, s, e);
    case DisableCall(d) => DisableOrphansExactly(s, d);
  }

  lemma JoinedHaveTor(a: seq<State>, b: seq<State>)
    ensures AllHaveTor(a + b) <==> AllHaveTor(a) && AllHaveTor(b)
  {
    if AllHaveTor(a + b) {
      assert forall i :: 0 <= i < |a| ==> (a + b)[i] == a[i];
      forall i | 0 <= i < |b|
        ensures RedirectHasTor(b[i])
      {
        assert (a + b)[|a| + i] == b[i];
      }
    }
  }

  predicate OrphansAt(uid: nat, s: State, calls: seq<Call>, k: nat)
    requires k < |calls|
  {
    Orphans(PerformAll(uid, s, calls[..k]), calls[k])
  }

  /** No call of the sequence orphans a redirect when it is made. */
  ghost predicate NoneOrphans(uid: nat, s: State, calls: seq<Call>) {
    forall k :: 0 <= k < |calls| ==> !OrphansAt(uid, s, calls, k)
  }

  lemma OrphansAtBefore(uid: nat, s: State, calls: seq<Call>, n: nat, k: nat)
    requires k < n <= |calls|
    ensures OrphansAt(uid, s, calls[..n], k) == OrphansAt(uid, s, calls, k)
  {
    hide PerformAll, Orphans;
    assert calls[..n][..k] == calls[..k];
  }

  lemma NoneOrphansBefore(uid: nat, s: State, calls: seq<Call>)
    requires calls != []
    ensures
      var rest := calls[..|calls| - 1];
      NoneOrphans(uid, s, calls) <==>
        NoneOrphans(uid, s, rest) && !Orphans(PerformAll(uid, s, rest), calls[|calls| - 1])
  {
    hide PerformAll, Orphans;
    var n := |calls| - 1;
    assert OrphansAt(uid, s, calls, n) == Orphans(PerformAll(uid, s, calls[..n]), calls[n]);
    forall k: nat | k < n
      ensures OrphansAt(uid, s, calls[..n], k) == OrphansAt(uid, s, calls, k)
    {
      OrphansAtBefore(uid, s, calls, n, k);
    }
    hide OrphansAt;
  }

  /** Over any sequence of calls, with any commands failing: the redirect has its tor at every
      step of every call, exactly if no call was one that orphans it. */
  lemma {:induction false} RedirectHasTorThroughoutExactly(uid: nat, s: State, calls: seq<Call>)
    requires Distinct(s.tables) && RedirectHasTor(s)
    ensures AllHaveTor(AllSteps(uid, s, calls)) <==> NoneOrphans(uid, s, calls)
  {
    if calls != [] {
      var rest, c := calls[..|calls| - 1], calls[|calls| - 1];
      var before := PerformAll(uid, s, rest);
      RedirectHasTorThroughoutExactly(uid, s, rest);
      CallsKeepDistinct(uid, s, rest);
      JoinedHaveTor(AllSteps(uid, s, rest), CallSteps(uid, before, c));
      NoneOrphansBefore(uid, s, calls);
      if AllHaveTor(AllSteps(uid, s, rest)) {
        LastHasTor(uid, s, rest);
        CallOrphansExactly(uid, before, c);
      }
      hide CallSteps, Orphans, NoneOrphans, AllHaveTor, RedirectHasTor, PerformAll;
    }
  }

  lemma LastHasTor(uid: nat, s: State, calls: seq<Call>)
    requires RedirectHasTor(s) && AllHaveTor(AllSteps(uid, s, calls))
    ensures RedirectHasTor(PerformAll(uid, s, calls))
  {
    hide RedirectHasTor;
    var steps := AllSteps(uid, s, calls);
    if calls != [] {
      assert RedirectHasTor(steps[|steps| - 1]);
    }
  }

  /** The flag is on only with all three pieces in place, and the tables hold this program's
      rules only: `n` and `m` count how often redirect and radical rules were loaded. */
  ghost predicate AtRest(uid: nat, confined: seq<KillSwitch>, s: State, n: nat, m: nat) {
    && ProgramTables(s.tables, RedirectFor(uid), confined, n, m)
    && (s.enabled ==> s.child && n >= 1 && m >= 1)
  }

  lemma LoadedAgain(ts: seq<Installed>, t: Table, rules: seq<Rule>, n: nat, u: Table)
    requires Distinct(ts)
    requires RulesOf(ts, t) == if n == 0 then None else Some(Repeated(rules, n))
    ensures Distinct(Load(ts, t, rules))
    ensures RulesOf(Load(ts, t, rules), u) == if u == t then Some(Repeated(rules, n + 1)) else RulesOf(ts, u)
  {
    LoadEffect(ts, t, rules, u);
    assert Repeated(rules, 0) == [];
  }

  lemma RedirectLoaded(uid: nat, confined: seq<KillSwitch>, ts: seq<Installed>, n: nat, m: nat)
    requires ProgramTables(ts, RedirectFor(uid), confined, n, m)
    ensures ProgramTables(WithRedirect(uid, ts), RedirectFor(uid), confined, n + 1, m)
  {
    var rules := RedirectRules(RedirectFor(uid));
    LoadedAgain(ts, RedirectTable, rules, n, RedirectTable);
    LoadedAgain(ts, RedirectTable, rules, n, SystemTable);
    LoadedAgain(ts, RedirectTable, rules, n, ScopedTable);
  }

  lemma RadicalLoaded(uid: nat, confined: seq<KillSwitch>, ts: seq<Installed>, n: nat, m: nat)
    requires ProgramTables(ts, RedirectFor(uid), confined, n, m)
    ensures ProgramTables(WithRadical(uid, ts), RedirectFor(uid), confined, n, m + 1)
  {
    var rules := Radical(uid).Rules();
    LoadedAgain(ts, SystemTable, rules, m, RedirectTable);
    LoadedAgain(ts, SystemTable, rules, m, SystemTable);
    LoadedAgain(ts, SystemTable, rules, m, ScopedTable);
  }

  lemma Unloaded(uid: nat, confined: seq<KillSwitch>, ts: seq<Installed>, n: nat, m: nat, t: Table)
    requires ProgramTables(ts, RedirectFor(uid), confined, n, m) && t != ScopedTable
    ensures ProgramTables(Unload(ts, t), RedirectFor(uid), confined,
                          if t == RedirectTable then 0 else n, if t == SystemTable then 0 else m)
  {
    UnloadEffect(ts, t, RedirectTable);
    UnloadEffect(ts, t, SystemTable);
    UnloadEffect(ts, t, ScopedTable);
  }

  lemma ArmingKeepsTables(uid: nat, confined: seq<KillSwitch>, s: State, e: Enabling, n: nat, m: nat) returns (n': nat, m': nat)
    requires ProgramTables(s.tables, RedirectFor(uid), confined, n, m) && s.child && !s.enabled
    ensures AtRest(uid, confined, Last(ArmSteps(uid, s, e)), n', m')
  {
    n', m' := n, m;
    if e.redirectWorks {
      var ts := WithRedirect(uid, s.tables);
      RedirectLoaded(uid, confined, s.tables, n, m);
      n' := n + 1;
      if e.radicalWorks {
        RadicalLoaded(uid, confined, ts, n', m);
        m' := m + 1;
      } else if e.rollbackWorks {
        Unloaded(uid, confined, ts, n', m, RedirectTable);
        n' := 0;
      }
    }
    hide ProgramTables, WithRedirect, WithRadical, Unload;
  }

  lemma DisablingKeepsTables(uid: nat, confined: seq<KillSwitch>, s: State, d: Disabling, n: nat, m: nat) returns (n': nat, m': nat)
    requires ProgramTables(s.tables, RedirectFor(uid), confined, n, m)
    ensures AtRest(uid, confined, Last(DisableSteps(s, d)), n', m')
  {
    n', m' := n, m;
    var ts := s.tables;
    if d.redirectWorks {
      Unloaded(uid, confined, ts, n', m', RedirectTable);
      ts, n' := Unload(ts, RedirectTable), 0;
    }
    if d.radicalWorks {
      Unloaded(uid, confined, ts, n', m', SystemTable);
      m' := 0;
    }
    hide ProgramTables, Unload;
  }

  lemma CallKeepsAtRest(uid: nat, confined: seq<KillSwitch>, s: State, c: Call, n: nat, m: nat) returns (n': nat, m': nat)
    requires AtRest(uid, confined, s, n, m)
    ensures AtRest(uid, confined, Perform(uid, s, c), n', m')
  {
    hide ArmSteps, DisableSteps, ProgramTables;
    n', m' := n, m;
    match c
    case EnableCall(e) =>
      if e.uidWorks && !s.child && e.tor.Bootstraps() {
        var s1 := s.(failed := false, child := true);
        n', m' := ArmingKeepsTables(uid, confined, s1, e, n, m);
      }
    case DisableCall(d) =>
      n', m' := DisablingKeepsTables(uid, confined, s, d, n, m);
  }

  /** Over every sequence of calls with any commands failing, the flag being on means that
      tor, the redirect and the radical switch are all in place. */
  lemma {:induction false} EveryRunKeepsAtRest(uid: nat, confined: seq<KillSwitch>, s: State, calls: seq<Call>, n: nat, m: nat)
    returns (n': nat, m': nat)
    requires AtRest(uid, confined, s, n, m)
    ensures AtRest(uid, confined, PerformAll(uid, s, calls), n', m')
  {
    n', m' := n, m;
    if calls != [] {
      n', m' := EveryRunKeepsAtRest(uid, confined, s, calls[..|calls| - 1], n, m);
      n', m' := CallKeepsAtRest(uid, confined, PerformAll(uid, s, calls[..|calls| - 1]), calls[|calls| - 1], n', m');
    }
  }

  /** Whenever the flag is on after any sequence of calls, with leftovers of earlier failures
      in the tables or not, tor is there, and this is what happens to every packet of every
      other user: TCP to a public address goes to tor's port 9040 on this host, except for SSH;
      DNS to a public address goes to tor's port 5300 on this host; what is on lo anyway is left
      as it is; and the rest is dropped. */
  lemma FlagOnMeansNothingLeaks(uid: nat, confined: seq<KillSwitch>, s: State, calls: seq<Call>, n: nat, m: nat, p: Packet)
    requires AtRest(uid, confined, s, n, m) && PerformAll(uid, s, calls).enabled && p.uid != uid
    ensures PerformAll(uid, s, calls).child
    ensures
      var here := if p.dst.V4? then V4(0x7F00_0001) else V6(1);
      Output(PerformAll(uid, s, calls).tables, p) ==
        if !Local(p.dst) && p.proto == Tcp && p.dport != 22 then Sent(Packet(p.uid, Tcp, 9040, here, true))
        else if !Local(p.dst) && p.proto == Udp && p.dport == 53 then Sent(Packet(p.uid, Udp, 5300, here, true))
        else if p.oifLo then Sent(p)
        else Dropped
  {
    var n', m' := EveryRunKeepsAtRest(uid, confined, s, calls, n, m);
    NothingLeavesExceptThroughTor(PerformAll(uid, s, calls).tables, RedirectFor(uid), confined, n', m', p);
  }

  // ----- when the flag is on without protection -----

  /** All steps of all calls leave only this program's rules in the tables; `m` is the number
      of times the radical rules are loaded, as in `ProgramTables`. */
  lemma ArmStepTables(uid: nat, confined: seq<KillSwitch>, s: State, e: Enabling, n: nat, m: nat, i: nat)
    returns (n': nat, m': nat)
    requires ProgramTables(s.tables, RedirectFor(uid), confined, n, m) && !s.enabled && i < |ArmSteps(uid, s, e)|
    ensures ProgramTables(ArmSteps(uid, s, e)[i].tables, RedirectFor(uid), confined, n', m')
    ensures ArmSteps(uid, s, e)[i].enabled ==> m' >= 1
  {
    n', m' := n, m;
    if e.redirectWorks && i >= 1 {
      var ts := WithRedirect(uid, s.tables);
      RedirectLoaded(uid, confined, s.tables, n, m);
      n' := n + 1;
      if i >= 2 && e.radicalWorks {
        RadicalLoaded(uid, confined, ts, n', m);
        m' := m + 1;
      } else if i >= 2 && e.rollbackWorks {
        Unloaded(uid, confined, ts, n', m, RedirectTable);
        n' := 0;
      }
    }
    hide ProgramTables, WithRedirect, WithRadical, Unload;
  }

  /** No step of an `enable` has the flag on without the radical switch. */
  lemma EnableStepSealed(uid: nat, confined: seq<KillSwitch>, s: State, e: Enabling, n: nat, m: nat, i: nat)
    requires AtRest(uid, confined, s, n, m) && i < |EnableSteps(uid, s, e)| && EnableSteps(uid, s, e)[i].enabled
    ensures Sealed(EnableSteps(uid, s, e)[i].tables, uid)
  {
    var s0, inner := s.(failed := false), InnerSteps(uid, s.(failed := false), e);
    var k := if i < |inner| then i else |inner| - 1;
    assert EnableSteps(uid, s, e)[i].tables == inner[k].tables && EnableSteps(uid, s, e)[i].enabled == inner[k].enabled;
    hide EnableSteps, ProgramTables, Sealed, ArmSteps;
    if !e.uidWorks || s.child || !e.tor.Bootstraps() || k == 0 {
      assert inner[k] == s0;
      SealedExactly(s.tables, RedirectFor(uid), confined, n, m);
    } else {
      var n', m' := ArmStepTables(uid, confined, s0.(child := true), e, n, m, k - 1);
      SealedExactly(inner[k].tables, RedirectFor(uid), confined, n', m');
    }
  }

  /** A `disable` with the flag on has two steps at which the flag is on without the radical
      switch, if the deletion of its table works, and none otherwise. */
  lemma DisableStepSealedExactly(uid: nat, confined: seq<KillSwitch>, s: State, d: Disabling, n: nat, m: nat, i: nat)
    requires AtRest(uid, confined, s, n, m) && i < |DisableSteps(s, d)|
    ensures
      var step := DisableSteps(s, d)[i];
      step.enabled && !Sealed(step.tables, uid) <==> s.enabled && d.radicalWorks && (i == 1 || i == 2)
  {
    var n', m', ts := n, m, s.tables;
    if d.redirectWorks {
      Unloaded(uid, confined, ts, n, m, RedirectTable);
      ts, n' := Unload(ts, RedirectTable), 0;
    }
    if d.radicalWorks && i >= 1 {
      Unloaded(uid, confined, ts, n', m, SystemTable);
      ts, m' := Unload(ts, SystemTable), 0;
    }
    SealedExactly(ts, RedirectFor(uid), confined, n', m');
    hide ProgramTables, Sealed, Unload;
  }

  /** The steps of call `k`, and how many steps come before them. */
  function StepsOf(uid: nat, s: State, calls: seq<Call>, k: nat): seq<State>
    requires k < |calls|
  {
    CallSteps(uid, PerformAll(uid, s, calls[..k]), calls[k])
  }

  function StepsBefore(uid: nat, s: State, calls: seq<Call>, k: nat): nat
    requires k < |calls|
  {
    |AllSteps(uid, s, calls[..k])|
  }

  lemma PrefixSteps(uid: nat, s: State, calls: seq<Call>, n: nat, k: nat)
    requires k < n <= |calls|
    ensures StepsOf(uid, s, calls[..n], k) == StepsOf(uid, s, calls, k)
    ensures StepsBefore(uid, s, calls[..n], k) == StepsBefore(uid, s, calls, k)
  {
    hide CallSteps, PerformAll, AllSteps;
    assert calls[..n][..k] == calls[..k];
  }

  lemma LastSteps(uid: nat, s: State, calls: seq<Call>)
    requires calls != []
    ensures
      var n := |calls| - 1;
      && AllSteps(uid, s, calls) == AllSteps(uid, s, calls[..n]) + StepsOf(uid, s, calls, n)
      && StepsBefore(uid, s, calls, n) == |AllSteps(uid, s, calls[..n])|
  {
    hide CallSteps, PerformAll;
  }

  lemma {:induction false} StepOfCall(uid: nat, s: State, calls: seq<Call>, k: nat, i: nat)
    requires k < |calls| && i < |StepsOf(uid, s, calls, k)|
    ensures StepsBefore(uid, s, calls, k) + i < |AllSteps(uid, s, calls)|
    ensures AllSteps(uid, s, calls)[StepsBefore(uid, s, calls, k) + i] == StepsOf(uid, s, calls, k)[i]
    decreases |calls|
  {
    hide StepsOf, StepsBefore, AllSteps;
    var n := |calls| - 1;
    LastSteps(uid, s, calls);
    if k < n {
      PrefixSteps(uid, s, calls, n, k);
      StepOfCall(uid, s, calls[..n], k, i);
    }
  }

  /** Over every sequence of calls with any commands failing, the steps at which the flag is on
      although a packet of another user could leave other than through lo are exactly the second
      and third of every `disable` that is made with the flag on and succeeds in deleting the
      radical table: the flag goes off two steps later. */
  lemma FlagWithoutSealExactly(uid: nat, confined: seq<KillSwitch>, s: State, calls: seq<Call>, n: nat, m: nat,
                               k: nat, i: nat)
    requires AtRest(uid, confined, s, n, m) && k < |calls| && i < |StepsOf(uid, s, calls, k)|
    ensures StepsBefore(uid, s, calls, k) + i < |AllSteps(uid, s, calls)|
    ensures
      var before, step := PerformAll(uid, s, calls[..k]), AllSteps(uid, s, calls)[StepsBefore(uid, s, calls, k) + i];
      step.enabled && !Sealed(step.tables, uid) <==>
        before.enabled && calls[k].DisableCall? && calls[k].d.radicalWorks && (i == 1 || i == 2)
  {
    var before := PerformAll(uid, s, calls[..k]);
    var n', m' := EveryRunKeepsAtRest(uid, confined, s, calls[..k], n, m);
    StepOfCall(uid, s, calls, k, i);
    hide AtRest, Sealed, AllSteps, StepsBefore, PerformAll, EnableSteps, DisableSteps;
    match calls[k]
    case EnableCall(e) =>
      if EnableSteps(uid, before, e)[i].enabled {
        EnableStepSealed(uid, confined, before, e, n', m', i);
      }
    case DisableCall(d) => DisableStepSealedExactly(uid, confined, before, d, n', m', i);
  }
}
