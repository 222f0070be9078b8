/**
 The coordinator as the program has it: a loop with a local failure counter over a manager,
 a published status, the active index and the client handle (here only what its client was
 bootstrapped for). `tasks`, `swapped`, `activated`, `published`, `reports`, `marks`
 and `scan` are the machine's histories.
 */
module BridgeCoordinators {
  import opened Arithmetic
  import opened Wrappers
  import opened Telemetry
  import opened Bridges
  import opened Coordinator
  import opened Failover

  class BridgeCoordinator {
    const manager: BridgeManager
    const telemetry: HealthStatus
    const threshold: nat
    var core: Core
    var activeIdx: Option<nat>
    ghost var swapped: seq<nat>
    ghost var activated: seq<nat>
    ghost var published: seq<nat>
    ghost var reports: seq<Report>
    ghost var marks: seq<Mark>
    ghost var scan: Scan

    /** The machine state that this is, when `failures` is the loop's counter. */
    ghost function View(failures: nat): State
      reads this, manager, telemetry
    {
      State(manager.transports, manager.candidates, activeIdx, core,
            Status(telemetry.activeIndex, telemetry.activeLine, telemetry.failures, telemetry.switches,
                   telemetry.candidates, telemetry.error),
            Sleeping, failures, [], swapped, activated, published, reports, marks, scan)
    }

    ghost predicate Valid()
      reads this, manager, telemetry
    {
      && manager.Valid() && |telemetry.history| <= HISTORY_CAPACITY
      && (activeIdx.Some? ==> activeIdx.value < |manager.candidates|)
    }

    /** `seen` is what the startup scan reported. */
    constructor (manager: BridgeManager, telemetry: HealthStatus, core: Core, initial: Option<nat>, threshold: nat,
                 ghost seen: seq<Report>)
      requires manager.Valid() && |telemetry.history| <= HISTORY_CAPACITY
      requires (initial.Some? ==> initial.value < |manager.candidates|)
      modifies telemetry`activeIndex, telemetry`activeLine
      ensures Valid() && this.manager == manager && this.telemetry == telemetry && this.threshold == threshold
      ensures View(0) ==
        State(manager.transports, manager.candidates, initial, core,
              Status(if initial.Some? then initial else old(telemetry.activeIndex),
                     if initial.Some? then Some(manager.candidates[initial.value]) else old(telemetry.activeLine),
                     telemetry.failures, telemetry.switches, telemetry.candidates, telemetry.error),
              Sleeping, 0, [], [], [], [], seen, [], Scan(0, []))
      ensures
        && telemetry.candidates == RecordAll(Seeded(manager.candidates), seen)
        && core == (if initial.Some? then Via(initial.value) else Direct)
        && old(telemetry.activeIndex) == None && old(telemetry.activeLine) == None
        && telemetry.failures == 0 && telemetry.switches == 0 && !telemetry.error
        ==> View(0) == Started(manager.transports, manager.candidates, seen, initial)
    {
      this.manager, this.telemetry, this.threshold := manager, telemetry, threshold;
      this.core, this.activeIdx := core, initial;
      swapped, activated, published, reports, marks, scan := [], [], [], seen, [], Scan(0, []);
      new;
      if initial.Some? {
        telemetry.activeIndex := initial;
        telemetry.activeLine := Some(manager.candidates[initial.value]);
      }
    }

    /** The three writes that make bridge `j` the active one, with the counts they reset. */
    method Activate(j: nat, ghost failures: nat)
      modifies this, telemetry`activeIndex, telemetry`activeLine, telemetry`failures, telemetry`switches
      ensures activeIdx == Some(j)
      ensures View(failures) == Switched(old(View(failures)), j)
    {
      core, swapped := Via(j), swapped + [j];
      activeIdx, activated := Some(j), activated + [j];
      telemetry.RecordSwitch(j, LineAt(manager.candidates, j));
      published := published + [j];
    }

    /** The result of a candidate's check goes into the published table. */
    method Publish(r: Report, ghost failures: nat)
      modifies this`reports, telemetry`candidates
      ensures View(failures) ==
        old(View(failures)).(status := old(View(failures)).status.(table := Record(old(telemetry.candidates), r)),
                             reports := old(reports) + [r])
    {
      telemetry.RecordCandidateResult(r.index, r.line, r.seen.success, r.seen.latency);
      reports := reports + [r];
    }

    /** The results of a scan go into the table one by one. */
    method PublishScan(results: seq<Report>, ghost checks: nat -> Seen, ghost failures: nat)
      requires |results| <= |manager.candidates| && results == ScanReports(manager.candidates, checks, |results|)
      modifies this`reports, this`scan, telemetry`candidates
      ensures View(failures) == Scanned(old(View(failures)), checks, |results|)
    {
      ghost var s0 := View(failures);
      scan := Scan(|s0.candidates|, []);
      NothingScanned(s0, checks);
      for i := 0 to |results|
        invariant View(failures) == Scanned(s0, checks, i)
      {
        ScannedOneMore(s0, checks, i);
        hide Scanned;
        Publish(results[i], failures);
        scan := Scan(scan.present, scan.reports + [results[i]]);
      }
    }

    /** Scans the candidates and activates the first healthy one, unless it is the one just
        found failing; tells whether the caller's counter should reset. */
    method RescanAndActivate(skip: nat, w: World, ghost failures: nat) returns (reset: bool)
      requires Valid()
      modifies this, telemetry
      ensures Valid() && telemetry.history == old(telemetry.history)
      ensures (View(if reset then 0 else failures), reset) == Rescanned(old(View(failures)), skip, w)
    {
      hide ScanReports, Scanned, LineAt, Record, RecordAll;
      var outcome, results := manager.FindHealthyConfigReporting(w.checks, w.configures);
      PublishScan(results, w.checks, failures);
      match outcome
      case Failure(_) =>
        return false;
      case Success(j) =>
        if j == skip {
          telemetry.failures := 0;
          marks := marks + [RescanSucceeded];
          return true;
        }
        if !w.bootstraps(j) {
          return false;
        }
        Activate(j, failures);
        marks := marks + [RescanSucceeded];
        return true;
    }

    /** What the loop does when it wakes up. */
    method Tick(failures: nat, w: World) returns (consecutiveFailures: nat)
      requires Valid()
      modifies this, telemetry
      ensures Valid()
      ensures View(consecutiveFailures) == Round(threshold, old(View(failures)), w)
      ensures telemetry.history ==
        if old(activeIdx).Some? then Window(old(telemetry.history) + [w.check]) else old(telemetry.history)
    {
      hide Rescanned, Record, Window;
      consecutiveFailures := failures;
      if activeIdx.None? {
        return;
      }
      var idx := activeIdx.value;
      telemetry.PushSample(w.check);
      Publish(Report(idx, manager.candidates[idx], w.check), failures);
      if w.check.success {
        consecutiveFailures := 0;
        telemetry.failures := 0;
        marks := marks + [CheckPassed];
        return;
      }
      consecutiveFailures := (consecutiveFailures + 1) % U32_MODULUS;
      telemetry.failures := consecutiveFailures;
      marks := marks + [CheckFailed];
      if consecutiveFailures < threshold {
        return;
      }
      var reset := RescanAndActivate(idx, w, consecutiveFailures);
      if reset {
        consecutiveFailures := 0;
      }
    }

    /** The loop, for as many ticks as there are worlds; it returns its counter. */
    method Run(worlds: seq<World>) returns (consecutiveFailures: nat)
      requires Valid()
      modifies this, telemetry
      ensures Valid()
      ensures View(consecutiveFailures) == Rounds(threshold, old(View(0)), worlds)
      ensures telemetry.history == Window(old(telemetry.history) + Samples(threshold, old(View(0)), worlds))
    {
      consecutiveFailures := 0;
      ghost var s0, history := View(0), telemetry.history;
      assert worlds[..0] == [] && history + [] == history;
      for i := 0 to |worlds|
        invariant Valid()
        invariant View(consecutiveFailures) == Rounds(threshold, s0, worlds[..i])
        invariant telemetry.history == Window(history + Samples(threshold, s0, worlds[..i]))
      {
        hide Rounds, Samples, Round, Window;
        RoundsOneMore(threshold, s0, history, worlds, i);
        consecutiveFailures := Tick(consecutiveFailures, worlds[i]);
      }
      assert worlds[..|worlds|] == worlds;
    }

    /** Adds a candidate by hand and activates it if it is healthy. The published count is
        reset, the loop's own counter is not. */
    method TryAddBridge(line: string, w: AddWorld, ghost failures: nat) returns (r: Option<nat>)
      requires Valid()
      modifies this, telemetry, manager
      ensures Valid() && telemetry.history == old(telemetry.history)
      ensures (View(failures), r) == Added(old(View(failures)), line, w)
    {
      telemetry.error := false;
      var idx := manager.AddBridgeLine(line, w.parses, w.located);
      if idx.None? {
        telemetry.error := true;
        return None;
      }
      Publish(Report(idx.value, line, w.check), failures);
      if !w.check.success {
        telemetry.error := true;
        return None;
      }
      if !w.configures {
        return None;
      }
      if !w.bootstraps {
        return None;
      }
      Activate(idx.value, failures);
      return idx;
    }
  }
}
