/**
 Failover undisturbed: one round of the monitor loop, or one bridge added by hand, as a
 function of what the network answers. The coordinator class computes these functions, and
 the interleaved machine does when nothing else moves.
 */
module Failover {
  import opened Arithmetic
  import opened Wrappers
  import opened Telemetry
  import opened Bridges
  import opened Coordinator

  /** What one round meets: the check of the active bridge, then those of the scan. */
  datatype World = World(check: Seen, checks: nat -> Seen, configures: nat -> bool, bootstraps: nat -> bool)

  /** What adding one bridge by hand meets. */
  datatype AddWorld = AddWorld(parses: bool, located: Option<string>, check: Seen, configures: bool, bootstraps: bool)

  // ----- one round -----

  function Switched(s: State, j: nat): State {
    s.(core := Via(j), active := Some(j),
       status := s.status.(activeIndex := Some(j), activeLine := LineAt(s.candidates, j), failures := 0,
                           switches := (s.status.switches + 1) % U64_MODULUS),
       swapped := s.swapped + [j], activated := s.activated + [j], published := s.published + [j])
  }

  function Scanned(s: State, checks: nat -> Seen, n: nat): State
    requires n <= |s.candidates|
  {
    var rs := ScanReports(s.candidates, checks, n);
    s.(status := s.status.(table := RecordAll(s.status.table, rs)), reports := s.reports + rs,
       scan := Scan(|s.candidates|, rs))
  }

  /** The state after a scan for a replacement of `failing`, and whether the counter resets. */
  function Rescanned(s: State, failing: nat, w: World): (State, bool) {
    var s1 := Scanned(s, w.checks, Tried(s.candidates, w.checks));
    match FirstHealthy(w.checks, 0, |s.candidates|)
    case None => (s1, false)
    case Some(j) =>
      if !w.configures(j) then (s1, false)
      else if j == failing then (Counted(s1, 0, RescanSucceeded), true)
      else if !w.bootstraps(j) then (s1, false)
      else (Counted(Switched(s1, j), 0, RescanSucceeded), true)
  }

  function Round(threshold: nat, s: State, w: World): State {
    match s.active
    case None => s
    case Some(a) =>
      var s1 := Reported(s, a, LineOrEmpty(s, a), Outcome(w.check.success, w.check.latency, ""));
      if w.check.success then Counted(s1, 0, CheckPassed)
      else
        var n := (s.failures + 1) % U32_MODULUS;
        var s2 := Counted(s1, n, CheckFailed);
        if n < threshold then s2 else Rescanned(s2, a, w).0
  }

  function Rounds(threshold: nat, s: State, ws: seq<World>): State {
    if ws == [] then s else Round(threshold, Rounds(threshold, s, ws[..|ws| - 1]), ws[|ws| - 1])
  }

  /** The latency samples those rounds push. */
  function Samples(threshold: nat, s: State, ws: seq<World>): seq<Seen> {
    if ws == [] then []
    else
      var rest := ws[..|ws| - 1];
      Samples(threshold, s, rest)
      + if Rounds(threshold, s, rest).active.Some? then [ws[|ws| - 1].check] else []
  }

  lemma RoundsOneMore(threshold: nat, s: State, history: seq<Seen>, ws: seq<World>, i: nat)
    requires i < |ws|
    ensures
      var before, samples := Rounds(threshold, s, ws[..i]), Samples(threshold, s, ws[..i]);
      && Rounds(threshold, s, ws[..i + 1]) == Round(threshold, before, ws[i])
      && Window(history + Samples(threshold, s, ws[..i + 1])) ==
         if before.active.Some? then Window(Window(history + samples) + [ws[i].check]) else Window(history + samples)
  {
    hide Round;
    assert ws[..i + 1][..i] == ws[..i];
    var samples := Samples(threshold, s, ws[..i]);
    assert history + (samples + [ws[i].check]) == history + samples + [ws[i].check];
    assert samples + [] == samples;
    WindowOfWindow(history + samples, ws[i].check);
    hide Window, Rounds;
  }

  // ----- the machine does the same when left alone -----

  function OutcomeFor(m: Monitor, w: World): Outcome {
    match m
    case Checking(_, _) => Outcome(w.check.success, w.check.latency, "")
    case ScanChecking(_, next, _, _) => Outcome(w.checks(next).success, w.checks(next).latency, "")
    case ScanFound(_, found) => Outcome(w.configures(found), 0, "")
    case Bootstrapping(found) => Outcome(w.bootstraps(found), 0, "")
    case _ => Outcome(true, 0, "")
  }

  function ActivationLeft(a: Activation): nat {
    match a
    case ToSwap(_) => 4
    case ToSet(_) => 3
    case ToReadLine(_) => 2
    case ToPublish(_, _) => 1
  }

  function ScanLeft(next: nat, count: nat): nat {
    if next < count then 2 * (count - next) else 0
  }

  /** More than the steps a round has left. */
  function StepsLeft(s: State): nat {
    match s.monitor
    case Sleeping => 0
    case Reading(_) => 13 + 2 * |s.candidates|
    case Checking(_, _) => 12 + 2 * |s.candidates|
    case Judging(_, _) => 11 + 2 * |s.candidates|
    case ToScan(_) => 10 + 2 * |s.candidates|
    case ScanReading(_, next, count) => 9 + ScanLeft(next, count)
    case ScanChecking(_, next, count, _) => 8 + ScanLeft(next, count)
    case ScanFound(_, _) => 6
    case Healed => 1
    case Bootstrapping(_) => 5
    case Activating(a) => ActivationLeft(a)
  }

  lemma MonitorGetsOn(threshold: nat, s: State, o: Outcome)
    requires s.monitor != Sleeping
    ensures StepsLeft(MonitorStep(threshold, s, o)) < StepsLeft(s)
  {
    hide Record, Activated;
  }

  /** The monitor alone, to the end of the round it is in. */
  function Drive(threshold: nat, s: State, w: World): (s': State)
    ensures s'.monitor == Sleeping
    decreases StepsLeft(s)
  {
    if s.monitor == Sleeping then s
    else
      var o := OutcomeFor(s.monitor, w);
      assert StepsLeft(MonitorStep(threshold, s, o)) < StepsLeft(s) by {
        MonitorGetsOn(threshold, s, o);
      }
      Drive(threshold, MonitorStep(threshold, s, o), w)
  }

  /** One tick: the monitor wakes up and completes a round. */
  function Tick(threshold: nat, s: State, w: World): State {
    Drive(threshold, MonitorStep(threshold, s, OutcomeFor(s.monitor, w)), w)
  }

  lemma {:induction false} DriveIsARun(threshold: nat, s: State, w: World) returns (es: seq<Event>)
    ensures Run(threshold, s, es) == Drive(threshold, s, w)
    ensures forall e :: e in es ==> e.MonitorMoves?
    decreases StepsLeft(s)
  {
    hide MonitorStep, Run, OutcomeFor, StepsLeft;
    if s.monitor == Sleeping {
      es := [];
      assert Run(threshold, s, []) == s by {
        EmptyRun(threshold, s);
      }
    } else {
      var o := OutcomeFor(s.monitor, w);
      MonitorGetsOn(threshold, s, o);
      var rest := DriveIsARun(threshold, MonitorStep(threshold, s, o), w);
      RunOn(threshold, s, rest, MonitorMoves(o));
      es := [MonitorMoves(o)] + rest;
    }
  }

  /** One step on the way. */
  lemma DriveOn(threshold: nat, s: State, w: World)
    requires s.monitor != Sleeping
    ensures Drive(threshold, s, w) == Drive(threshold, MonitorStep(threshold, s, OutcomeFor(s.monitor, w)), w)
  {
    hide MonitorStep, OutcomeFor, StepsLeft;
  }

  /** The scan so far, about to try candidate `n`. */
  function ScanAt(s: State, failing: nat, checks: nat -> Seen, n: nat): State
    requires n <= |s.candidates|
  {
    Scanned(s, checks, n).(monitor := ScanReading(failing, n, |s.candidates|))
  }

  lemma ScannedOneMore(s: State, checks: nat -> Seen, n: nat)
    requires n < |s.candidates|
    ensures
      var s1 := Scanned(s, checks, n);
      Scanned(s, checks, n + 1)
      == Reported(s1, n, s.candidates[n], Outcome(checks(n).success, checks(n).latency, "")).(
           scan := Scan(|s.candidates|, s1.scan.reports + [Report(n, s.candidates[n], checks(n))]))
  {
    var rs, rs' := ScanReports(s.candidates, checks, n), ScanReports(s.candidates, checks, n + 1);
    assert rs' == rs + [Report(n, s.candidates[n], checks(n))];
    assert rs'[..n] == rs;
    hide Record, ScanReports;
  }

  lemma ScanTries(threshold: nat, s: State, failing: nat, w: World, n: nat)
    requires n < |s.candidates|
    ensures
      Drive(threshold, ScanAt(s, failing, w.checks, n), w)
      == Drive(threshold, Scanned(s, w.checks, n + 1).(monitor :=
           if w.checks(n).success then ScanFound(failing, n)
           else if n + 1 < |s.candidates| then ScanReading(failing, n + 1, |s.candidates|)
           else Sleeping), w)
  {
    var s0 := ScanAt(s, failing, w.checks, n);
    var s1 := s0.(monitor := ScanChecking(failing, n, |s.candidates|, s.candidates[n]));
    DriveOn(threshold, s0, w);
    DriveOn(threshold, s1, w);
    ScannedOneMore(s, w.checks, n);
    hide Drive, Scanned, RecordAll, Record;
  }

  /** The machine's scan, candidate by candidate, comes to what the manager's scan returns. */
  lemma {:induction false} ScanFindsFirstHealthy(threshold: nat, s: State, failing: nat, w: World, n: nat)
    requires n < |s.candidates|
    ensures
      var first := FirstHealthy(w.checks, n, |s.candidates|);
      Drive(threshold, ScanAt(s, failing, w.checks, n), w)
      == Drive(threshold,
           if first.Some? then Scanned(s, w.checks, first.value + 1).(monitor := ScanFound(failing, first.value))
           else Scanned(s, w.checks, |s.candidates|).(monitor := Sleeping), w)
    decreases |s.candidates| - n
  {
    hide Drive, Scanned, ScanReports;
    ScanTries(threshold, s, failing, w, n);
    if !w.checks(n).success && n + 1 < |s.candidates| {
      ScanFindsFirstHealthy(threshold, s, failing, w, n + 1);
    } else if !w.checks(n).success {
      assert FirstHealthy(w.checks, n + 1, |s.candidates|) == None;
    }
  }

  function SwappedAndSet(s: State, j: nat): State {
    s.(core := Via(j), swapped := s.swapped + [j], active := Some(j), activated := s.activated + [j])
  }

  lemma ActivationSets(threshold: nat, s: State, j: nat, w: World)
    ensures
      Drive(threshold, s.(monitor := Activating(ToSwap(j))), w)
      == Drive(threshold, SwappedAndSet(s, j).(monitor := Activating(ToReadLine(j))), w)
  {
    hide Drive, LineAt, Counted;
    DriveOn(threshold, s.(monitor := Activating(ToSwap(j))), w);
    DriveOn(threshold, s.(core := Via(j), swapped := s.swapped + [j], monitor := Activating(ToSet(j))), w);
  }

  lemma ActivationPublishes(threshold: nat, s: State, j: nat, w: World)
    ensures
      Drive(threshold, s.(monitor := Activating(ToReadLine(j))), w)
      == Counted(Activated(s, ToPublish(j, LineAt(s.candidates, j))), 0, RescanSucceeded).(monitor := Sleeping)
  {
    hide Drive, LineAt;
    var s1 := s.(monitor := Activating(ToPublish(j, LineAt(s.candidates, j))));
    DriveOn(threshold, s.(monitor := Activating(ToReadLine(j))), w);
    DriveOn(threshold, s1, w);
    DriveEnds(threshold, MonitorStep(threshold, s1, OutcomeFor(s1.monitor, w)), w);
  }

  /** The machine's activation steps amount to a switch. */
  lemma ActivationSwitches(threshold: nat, s: State, j: nat, w: World)
    ensures
      Drive(threshold, s.(monitor := Activating(ToSwap(j))), w)
      == Counted(Switched(s, j), 0, RescanSucceeded).(monitor := Sleeping)
  {
    ActivationSets(threshold, s, j, w);
    ActivationPublishes(threshold, SwappedAndSet(s, j), j, w);
    hide Drive, LineAt;
  }

  lemma DriveEnds(threshold: nat, s: State, w: World)
    requires s.monitor == Sleeping
    ensures Drive(threshold, s, w) == s
  {
  }

  /** What follows the scan. */
  lemma ScanFollowedUp(threshold: nat, s: State, failing: nat, j: nat, w: World)
    ensures
      Drive(threshold, s.(monitor := ScanFound(failing, j)), w)
      == (if !w.configures(j) then s
          else if j == failing then Counted(s, 0, RescanSucceeded)
          else if !w.bootstraps(j) then s
          else Counted(Switched(s, j), 0, RescanSucceeded)).(monitor := Sleeping)
  {
    hide Drive, Switched, Activated, NextActivation, LineOrEmpty, Reported, Record;
    DriveOn(threshold, s.(monitor := ScanFound(failing, j)), w);
    if !w.configures(j) {
      DriveEnds(threshold, s.(monitor := Sleeping), w);
    } else if j == failing {
      DriveOn(threshold, s.(monitor := Healed), w);
      DriveEnds(threshold, Counted(s, 0, RescanSucceeded).(monitor := Sleeping), w);
    } else {
      DriveOn(threshold, s.(monitor := Bootstrapping(j)), w);
      hide Counted;
      if w.bootstraps(j) {
        ActivationSwitches(threshold, s, j, w);
      } else {
        DriveEnds(threshold, s.(monitor := Sleeping), w);
      }
    }
  }

  lemma NothingScanned(s: State, checks: nat -> Seen)
    ensures Scanned(s, checks, 0) == s.(scan := Scan(|s.candidates|, []))
  {
    assert ScanReports(s.candidates, checks, 0) == [];
  }

  lemma ScanIsRescanned(threshold: nat, s: State, failing: nat, w: World)
    ensures Drive(threshold, s.(monitor := ToScan(failing)), w) == Rescanned(s, failing, w).0.(monitor := Sleeping)
  {
    hide Drive, Scanned, Switched, Record, Activated, Counted, Reported;
    var n := |s.candidates|;
    DriveOn(threshold, s.(monitor := ToScan(failing)), w);
    NothingScanned(s, w.checks);
    if n == 0 {
      DriveEnds(threshold, Scanned(s, w.checks, 0).(monitor := Sleeping), w);
    } else {
      ScanFindsFirstHealthy(threshold, s, failing, w, 0);
      var first := FirstHealthy(w.checks, 0, n);
      hide MonitorStep, FirstHealthy;
      if first.Some? {
        ScanFollowedUp(threshold, Scanned(s, w.checks, first.value + 1), failing, first.value, w);
      } else {
        DriveEnds(threshold, Scanned(s, w.checks, n).(monitor := Sleeping), w);
      }
    }
  }

  /** Left alone, the machine's monitor does in one tick what `Round` says. */
  lemma TickIsRound(threshold: nat, s: State, w: World)
    requires s.monitor == Sleeping
    ensures Tick(threshold, s, w) == Round(threshold, s, w)
  {
    hide Drive, Record, Rescanned;
    match s.active
    case None => DriveEnds(threshold, s, w);
    case Some(a) =>
      var line := LineOrEmpty(s, a);
      var o := Outcome(w.check.success, w.check.latency, "");
      DriveOn(threshold, s.(monitor := Reading(a)), w);
      DriveOn(threshold, s.(monitor := Checking(a, line)), w);
      var s1 := Reported(s, a, line, o);
      DriveOn(threshold, s1.(monitor := Judging(a, o.ok)), w);
      var n := (s.failures + 1) % U32_MODULUS;
      DriveEnds(threshold, Counted(s1, 0, CheckPassed).(monitor := Sleeping), w);
      DriveEnds(threshold, Counted(s1, n, CheckFailed).(monitor := Sleeping), w);
      ScanIsRescanned(threshold, Counted(s1, n, CheckFailed), a, w);
      RescannedSleeps(Counted(s1, n, CheckFailed), a, w);
  }

  lemma RescannedSleeps(s: State, failing: nat, w: World)
    ensures Rescanned(s, failing, w).0.monitor == s.monitor
  {
    hide FirstHealthy;
  }

  // ----- when a round switches bridges -----

  /** A round switches bridges exactly if the active one fails its check, this brings the
      counter to the threshold, and the first healthy candidate is another one that can be
      configured and bootstrapped; it then switches to that one. Otherwise the core, the
      active index and the publication stay, and the counter counts. */
  lemma RoundSwitchesExactly(threshold: nat, s: State, w: World)
    requires s.monitor == Sleeping && s.active.Some?
    ensures
      var s', a := Round(threshold, s, w), s.active.value;
      var n, first := (s.failures + 1) % 0x1_0000_0000, FirstHealthy(w.checks, 0, |s.candidates|);
      var found := !w.check.success && n >= threshold && first.Some? && w.configures(first.value);
      var switches := found && first.value != a && w.bootstraps(first.value);
      && s'.active == (if switches then first else s.active)
      && s'.core == (if switches then Via(first.value) else s.core)
      && s'.status.activeIndex == (if switches then first else s.status.activeIndex)
      && s'.status.switches == (if switches then (s.status.switches + 1) % 0x1_0000_0000_0000_0000 else s.status.switches)
      && s'.failures == s'.status.failures
      && s'.failures == (if w.check.success || switches || (found && first.value == a) then 0 else n)
      && s'.candidates == s.candidates && s'.monitor == Sleeping
  {
    hide FirstHealthy, Record, RecordAll;
  }

  /** Let the active bridge fail every check, and let the first healthy candidate in the last
      of the rounds that bring the counter to the threshold be another one, `j`, that can be
      brought up. Then nothing switches before that round, and `j` is active after it. */
  lemma {:induction false} FailsOverAtTheThreshold(threshold: nat, s: State, ws: seq<World>, k: nat)
    requires s.monitor == Sleeping && s.active.Some? && k <= |ws|
    requires threshold < 0x1_0000_0000 && |ws| == (if threshold == 0 then 1 else threshold) - s.failures
    requires |ws| > 0 && forall w :: w in ws ==> !w.check.success
    ensures
      var s' := Rounds(threshold, s, ws[..k]);
      && s'.monitor == Sleeping && s'.candidates == s.candidates
      && (k < |ws| ==> s'.active == s.active && s'.core == s.core && s'.status.switches == s.status.switches
                       && s'.status.activeIndex == s.status.activeIndex && s'.failures == s.failures + k)
      && (var last, first := ws[|ws| - 1], FirstHealthy(ws[|ws| - 1].checks, 0, |s.candidates|);
          k == |ws| && first.Some? && first != s.active && last.configures(first.value) && last.bootstraps(first.value)
          ==> s'.active == first && s'.core == Via(first.value) && s'.status.activeIndex == first && s'.failures == 0
              && s'.status.switches == (s.status.switches + 1) % 0x1_0000_0000_0000_0000)
  {
    hide Round, FirstHealthy;
    if k > 0 {
      FailsOverAtTheThreshold(threshold, s, ws, k - 1);
      assert ws[..k][..k - 1] == ws[..k - 1];
      var before := Rounds(threshold, s, ws[..k - 1]);
      assert Rounds(threshold, s, ws[..k]) == Round(threshold, before, ws[k - 1]);
      RoundSwitchesExactly(threshold, before, ws[k - 1]);
      assert ws[k - 1] in ws;
    } else {
      assert ws[..0] == [];
    }
  }

  // ----- adding a bridge by hand -----

  function Erred(s: State): State {
    s.(status := s.status.(error := true))
  }

  /** The state after `try_add_bridge`, and what it returns. */
  function Added(s: State, text: string, w: AddWorld): (State, Option<nat>) {
    var s0 := s.(status := s.status.(error := false));
    if !w.parses then (Erred(s0), None)
    else
      var protocol, idx := ExtractTransportProtocol(text), |s.candidates|;
      var s1 := if protocol.None? then s0
                else s0.(transports := Ensured(s.transports, protocol.value, w.located));
      if !Usable(s1.transports, text) then (Erred(s1), None)
      else
        var o := Outcome(w.check.success, w.check.latency, "");
        var s2 := Reported(s1.(candidates := s.candidates + [text]), idx, text, o);
        if !w.check.success then (Erred(s2), None)
        else if !w.configures || !w.bootstraps then (s2, None)
        else (Switched(s2, idx), Some(idx))
  }

  function TaskOutcome(t: Task, w: AddWorld): Outcome {
    match t
    case Adding(_) => Outcome(w.parses, 0, "")
    case Ensuring(_, _) => Outcome(w.located.Some?, 0, if w.located.Some? then w.located.value else "")
    case TaskChecking(_, _) => Outcome(w.check.success, w.check.latency, "")
    case TaskConfiguring(_) => Outcome(w.configures, 0, "")
    case TaskBootstrapping(_) => Outcome(w.bootstraps, 0, "")
    case _ => Outcome(true, 0, "")
  }

  function TaskLeft(t: Task): nat {
    match t
    case Entered(_) => 12
    case Adding(_) => 11
    case Ensuring(_, _) => 10
    case Pushing(_) => 9
    case TaskReading(_) => 8
    case TaskChecking(_, _) => 7
    case TaskConfiguring(_) => 6
    case TaskBootstrapping(_) => 5
    case TaskActivating(a) => ActivationLeft(a)
    case Failing => 1
    case Finished(_) => 0
  }

  lemma TaskGetsOn(s: State, i: nat, o: Outcome)
    requires i < |s.tasks| && !s.tasks[i].Finished?
    ensures |TaskStep(s, i, o).tasks| == |s.tasks| && TaskLeft(TaskStep(s, i, o).tasks[i]) < TaskLeft(s.tasks[i])
  {
    if s.tasks[i].TaskActivating? {
      hide Record, ExtractTransportProtocol, Ensured, Registered, LineAt, LineOrEmpty;
    } else {
      hide Record, ExtractTransportProtocol, Ensured, Registered, LineAt, LineOrEmpty, Activated, NextActivation;
    }
  }

  /** One task alone, to its end. */
  function DriveTask(s: State, i: nat, w: AddWorld): (s': State)
    requires i < |s.tasks|
    ensures |s'.tasks| == |s.tasks| && s'.tasks[i].Finished?
    decreases TaskLeft(s.tasks[i])
  {
    if s.tasks[i].Finished? then s
    else
      var s' := TaskStep(s, i, TaskOutcome(s.tasks[i], w));
      assert |s'.tasks| == |s.tasks| && TaskLeft(s'.tasks[i]) < TaskLeft(s.tasks[i]) by {
        TaskGetsOn(s, i, TaskOutcome(s.tasks[i], w));
      }
      DriveTask(s', i, w)
  }

  function At(s: State, ts: seq<Task>, t: Task): State {
    s.(tasks := ts + [t])
  }

  lemma GotoAt(s: State, ts: seq<Task>, t: Task, t': Task)
    ensures Goto(At(s, ts, t), |ts|, t') == At(s, ts, t')
  {
    assert (ts + [t])[|ts| := t'] == ts + [t'];
  }

  /** One step of the task on the way. */
  lemma TaskOn(s: State, ts: seq<Task>, t: Task, s': State, t': Task, w: AddWorld)
    requires !t.Finished? && TaskStep(At(s, ts, t), |ts|, TaskOutcome(t, w)) == At(s', ts, t')
    ensures DriveTask(At(s, ts, t), |ts|, w) == DriveTask(At(s', ts, t'), |ts|, w)
  {
    hide TaskStep, TaskOutcome, TaskLeft;
  }

  lemma TaskEnds(s: State, ts: seq<Task>, r: Option<nat>, w: AddWorld)
    ensures DriveTask(At(s, ts, Finished(r)), |ts|, w) == At(s, ts, Finished(r))
  {
  }

  lemma TaskFails(s: State, ts: seq<Task>, w: AddWorld)
    ensures DriveTask(At(s, ts, Failing), |ts|, w) == At(Erred(s), ts, Finished(None))
  {
    hide DriveTask;
    GotoAt(Erred(s), ts, Failing, Finished(None));
    TaskOn(s, ts, Failing, Erred(s), Finished(None), w);
    TaskEnds(Erred(s), ts, None, w);
  }

  lemma TaskSwitches(s: State, ts: seq<Task>, j: nat, w: AddWorld)
    ensures DriveTask(At(s, ts, TaskActivating(ToSwap(j))), |ts|, w) == At(Switched(s, j), ts, Finished(Some(j)))
  {
    hide DriveTask, LineAt, Goto;
    var line := LineAt(s.candidates, j);
    var s1 := s.(core := Via(j), swapped := s.swapped + [j]);
    var s2 := s1.(active := Some(j), activated := s.activated + [j]);
    GotoAt(s1, ts, TaskActivating(ToSwap(j)), TaskActivating(ToSet(j)));
    TaskOn(s, ts, TaskActivating(ToSwap(j)), s1, TaskActivating(ToSet(j)), w);
    GotoAt(s2, ts, TaskActivating(ToSet(j)), TaskActivating(ToReadLine(j)));
    TaskOn(s1, ts, TaskActivating(ToSet(j)), s2, TaskActivating(ToReadLine(j)), w);
    GotoAt(s2, ts, TaskActivating(ToReadLine(j)), TaskActivating(ToPublish(j, line)));
    TaskOn(s2, ts, TaskActivating(ToReadLine(j)), s2, TaskActivating(ToPublish(j, line)), w);
    GotoAt(Switched(s, j), ts, TaskActivating(ToPublish(j, line)), Finished(Some(j)));
    TaskOn(s2, ts, TaskActivating(ToPublish(j, line)), Switched(s, j), Finished(Some(j)), w);
    TaskEnds(Switched(s, j), ts, Some(j), w);
  }

  lemma TaskBuilds(s: State, ts: seq<Task>, idx: nat, w: AddWorld)
    ensures
      DriveTask(At(s, ts, TaskConfiguring(idx)), |ts|, w)
      == if !w.configures || !w.bootstraps then At(s, ts, Finished(None))
         else At(Switched(s, idx), ts, Finished(Some(idx)))
  {
    hide DriveTask, Goto, Switched;
    var next := if w.configures then TaskBootstrapping(idx) else Finished(None);
    GotoAt(s, ts, TaskConfiguring(idx), next);
    TaskOn(s, ts, TaskConfiguring(idx), s, next, w);
    TaskEnds(s, ts, None, w);
    if w.configures {
      var next' := if w.bootstraps then TaskActivating(ToSwap(idx)) else Finished(None);
      GotoAt(s, ts, TaskBootstrapping(idx), next');
      TaskOn(s, ts, TaskBootstrapping(idx), s, next', w);
      TaskSwitches(s, ts, idx, w);
    }
  }

  lemma ReportedAt(s: State, ts: seq<Task>, t: Task, idx: nat, line: string, o: Outcome)
    ensures Reported(At(s, ts, t), idx, line, o) == At(Reported(s, idx, line, o), ts, t)
  {
  }

  lemma TaskReports(s: State, ts: seq<Task>, idx: nat, line: string, w: AddWorld)
    ensures
      var o := Outcome(w.check.success, w.check.latency, "");
      DriveTask(At(s, ts, TaskChecking(idx, line)), |ts|, w)
      == DriveTask(At(Reported(s, idx, line, o), ts, if w.check.success then TaskConfiguring(idx) else Failing), |ts|, w)
  {
    hide DriveTask, Goto, Reported, Activated, NextActivation, Ensured, Registered, ExtractTransportProtocol, LineOrEmpty;
    var o := Outcome(w.check.success, w.check.latency, "");
    var s1 := Reported(s, idx, line, o);
    var verdict := if w.check.success then TaskConfiguring(idx) else Failing;
    ReportedAt(s, ts, TaskChecking(idx, line), idx, line, o);
    GotoAt(s1, ts, TaskChecking(idx, line), verdict);
    assert TaskStep(At(s, ts, TaskChecking(idx, line)), |ts|, o)
      == Goto(At(s1, ts, TaskChecking(idx, line)), |ts|, verdict);
    TaskOn(s, ts, TaskChecking(idx, line), s1, verdict, w);
  }

  lemma TaskChecks(s: State, ts: seq<Task>, idx: nat, line: string, w: AddWorld)
    requires LineAt(s.candidates, idx) == Some(line)
    ensures
      var s1 := Reported(s, idx, line, Outcome(w.check.success, w.check.latency, ""));
      DriveTask(At(s, ts, TaskReading(idx)), |ts|, w)
      == if !w.check.success then At(Erred(s1), ts, Finished(None))
         else if !w.configures || !w.bootstraps then At(s1, ts, Finished(None))
         else At(Switched(s1, idx), ts, Finished(Some(idx)))
  {
    hide DriveTask, Goto, Switched, Erred, Reported;
    var s1 := Reported(s, idx, line, Outcome(w.check.success, w.check.latency, ""));
    GotoAt(s, ts, TaskReading(idx), TaskChecking(idx, line));
    TaskOn(s, ts, TaskReading(idx), s, TaskChecking(idx, line), w);
    TaskReports(s, ts, idx, line, w);
    TaskFails(s1, ts, w);
    TaskBuilds(s1, ts, idx, w);
  }

  lemma TaskPushes(s: State, ts: seq<Task>, text: string, w: AddWorld)
    ensures
      var s1 := s.(candidates := s.candidates + [text]);
      DriveTask(At(s, ts, Pushing(text)), |ts|, w) == DriveTask(At(s1, ts, TaskReading(|s.candidates|)), |ts|, w)
  {
    hide DriveTask, Goto;
    var s1 := s.(candidates := s.candidates + [text]);
    GotoAt(s1, ts, Pushing(text), TaskReading(|s.candidates|));
    TaskOn(s, ts, Pushing(text), s1, TaskReading(|s.candidates|), w);
  }

  lemma TaskParses(s: State, ts: seq<Task>, text: string, w: AddWorld)
    ensures
      var s0, p := s.(status := s.status.(error := false)), ExtractTransportProtocol(text);
      DriveTask(At(s, ts, Entered(text)), |ts|, w)
      == DriveTask(At(s0, ts, if !w.parses then Failing else if p.Some? then Ensuring(text, p.value) else Pushing(text)),
                   |ts|, w)
  {
    hide DriveTask, Goto, ExtractTransportProtocol;
    var s0, p := s.(status := s.status.(error := false)), ExtractTransportProtocol(text);
    GotoAt(s0, ts, Entered(text), Adding(text));
    TaskOn(s, ts, Entered(text), s0, Adding(text), w);
    var next := if !w.parses then Failing else if p.Some? then Ensuring(text, p.value) else Pushing(text);
    GotoAt(s0, ts, Adding(text), next);
    TaskOn(s0, ts, Adding(text), s0, next, w);
  }

  lemma TaskEnsures(s: State, ts: seq<Task>, text: string, protocol: string, w: AddWorld)
    ensures
      var s1 := s.(transports := Ensured(s.transports, protocol, w.located));
      DriveTask(At(s, ts, Ensuring(text, protocol)), |ts|, w)
      == DriveTask(At(s1, ts, if Registered(s1.transports, protocol) then Pushing(text) else Failing), |ts|, w)
  {
    hide DriveTask, Goto, Registered, Ensured;
    var s1 := s.(transports := Ensured(s.transports, protocol, w.located));
    var next := if Registered(s1.transports, protocol) then Pushing(text) else Failing;
    var o := TaskOutcome(Ensuring(text, protocol), w);
    assert w.located == if o.ok then Some(o.path) else None;
    GotoAt(s1, ts, Ensuring(text, protocol), next);
    TaskOn(s, ts, Ensuring(text, protocol), s1, next, w);
  }

  /** Up to the point where the line is pushed, or refused. */
  lemma TaskEnters(s: State, ts: seq<Task>, text: string, w: AddWorld)
    ensures
      var s0, p := s.(status := s.status.(error := false)), ExtractTransportProtocol(text);
      var s1 := if w.parses && p.Some? then s0.(transports := Ensured(s.transports, p.value, w.located)) else s0;
      DriveTask(At(s, ts, Entered(text)), |ts|, w)
      == if w.parses && Usable(s1.transports, text) then DriveTask(At(s1, ts, Pushing(text)), |ts|, w)
         else At(Erred(s1), ts, Finished(None))
  {
    hide DriveTask, Erred, ExtractTransportProtocol, Ensured, Registered;
    var s0, p := s.(status := s.status.(error := false)), ExtractTransportProtocol(text);
    TaskParses(s, ts, text, w);
    TaskFails(s0, ts, w);
    if w.parses && p.Some? {
      TaskEnsures(s0, ts, text, p.value, w);
      TaskFails(s0.(transports := Ensured(s.transports, p.value, w.located)), ts, w);
    }
  }

  /** Left alone, a task does what `Added` says, and finishes with its result. */
  lemma TaskIsAdded(s: State, text: string, w: AddWorld)
    ensures
      DriveTask(At(s, s.tasks, Entered(text)), |s.tasks|, w)
      == At(Added(s, text, w).0, s.tasks, Finished(Added(s, text, w).1))
  {
    TaskEnters(s, s.tasks, text, w);
    var s0, p := s.(status := s.status.(error := false)), ExtractTransportProtocol(text);
    var s1 := if w.parses && p.Some? then s0.(transports := Ensured(s.transports, p.value, w.located)) else s0;
    TaskPushes(s1, s.tasks, text, w);
    TaskChecks(s1.(candidates := s.candidates + [text]), s.tasks, |s.candidates|, text, w);
    hide DriveTask, At, Usable, ExtractTransportProtocol, Ensured, Switched, Erred, Record;
  }

  // ----- undisturbed runs are runs -----

  /** Undisturbed rounds are a run of the interleaved machine, so they keep what all runs keep. */
  lemma {:induction false} RoundsAreARun(threshold: nat, s: State, ws: seq<World>) returns (es: seq<Event>)
    requires s.monitor == Sleeping
    ensures Run(threshold, s, es) == Rounds(threshold, s, ws) && Rounds(threshold, s, ws).monitor == Sleeping
    ensures forall e :: e in es ==> e.MonitorMoves?
  {
    hide Run, MonitorStep, Round, OutcomeFor;
    if ws == [] {
      EmptyRun(threshold, s);
      es := [];
    } else {
      var w, before := ws[|ws| - 1], Rounds(threshold, s, ws[..|ws| - 1]);
      var first := RoundsAreARun(threshold, s, ws[..|ws| - 1]);
      TickIsRound(threshold, before, w);
      var wake := OutcomeFor(before.monitor, w);
      var rest := DriveIsARun(threshold, MonitorStep(threshold, before, wake), w);
      RunOn(threshold, before, rest, MonitorMoves(wake));
      RunJoins(threshold, s, first, [MonitorMoves(wake)] + rest);
      es := first + ([MonitorMoves(wake)] + rest);
    }
  }

  lemma {:induction false} DriveTaskIsARun(threshold: nat, s: State, i: nat, w: AddWorld) returns (es: seq<Event>)
    requires i < |s.tasks|
    ensures Run(threshold, s, es) == DriveTask(s, i, w)
    ensures forall e :: e in es ==> e.TaskMoves? && e.i == i
    decreases TaskLeft(s.tasks[i])
  {
    hide TaskStep, Run, TaskOutcome, TaskLeft;
    if s.tasks[i].Finished? {
      EmptyRun(threshold, s);
      es := [];
    } else {
      var o := TaskOutcome(s.tasks[i], w);
      TaskGetsOn(s, i, o);
      var rest := DriveTaskIsARun(threshold, TaskStep(s, i, o), i, w);
      RunOn(threshold, s, rest, TaskMoves(i, o));
      es := [TaskMoves(i, o)] + rest;
    }
  }

  /** So is adding a bridge undisturbed. */
  lemma AddedIsARun(threshold: nat, s: State, text: string, w: AddWorld) returns (es: seq<Event>)
    ensures Run(threshold, s, es) == At(Added(s, text, w).0, s.tasks, Finished(Added(s, text, w).1))
    ensures es != [] && es[0] == Spawn(text) && forall k :: 1 <= k < |es| ==> es[k].TaskMoves? && es[k].i == |s.tasks|
  {
    hide Run, Added, DriveTask;
    var rest := DriveTaskIsARun(threshold, At(s, s.tasks, Entered(text)), |s.tasks|, w);
    TaskIsAdded(s, text, w);
    RunOn(threshold, s, rest, Spawn(text));
    es := [Spawn(text)] + rest;
  }
}
