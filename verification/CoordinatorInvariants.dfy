/** What every interleaving of the failover protocol keeps. */
module CoordinatorInvariants {
  import opened Arithmetic
  import opened Wrappers
  import opened Telemetry
  import opened Bridges
  import opened Coordinator

  // ----- every index in use names a candidate, every published line is its candidate's -----

  predicate ActivationOk(cs: seq<string>, a: Activation) {
    a.bridge < |cs| && (a.ToPublish? ==> a.line == Some(cs[a.bridge]))
  }

  predicate MonitorOk(cs: seq<string>, m: Monitor) {
    match m
    case Sleeping => true
    case Reading(idx) => idx < |cs|
    case Checking(idx, line) => LineAt(cs, idx) == Some(line)
    case Judging(idx, _) => idx < |cs|
    case ToScan(failing) => failing < |cs|
    case ScanReading(failing, next, count) => failing < |cs| && next < count <= |cs|
    case ScanChecking(failing, next, count, line) =>
      failing < |cs| && next < count <= |cs| && LineAt(cs, next) == Some(line)
    case ScanFound(failing, found) => failing < |cs| && found < |cs|
    case Healed => true
    case Bootstrapping(found) => found < |cs|
    case Activating(a) => ActivationOk(cs, a)
  }

  predicate TaskOk(ts: seq<TransportBinary>, cs: seq<string>, t: Task) {
    match t
    case Ensuring(text, protocol) => ExtractTransportProtocol(text) == Some(protocol)
    case Pushing(text) => Usable(ts, text)
    case TaskReading(idx) => idx < |cs|
    case TaskChecking(idx, line) => LineAt(cs, idx) == Some(line)
    case TaskConfiguring(idx) => idx < |cs|
    case TaskBootstrapping(idx) => idx < |cs|
    case TaskActivating(a) => ActivationOk(cs, a)
    case Finished(r) => r.Some? ==> r.value < |cs|
    case _ => true
  }

  predicate SharedOk(cs: seq<string>, active: Option<nat>, core: Core, status: Status) {
    && (active.Some? ==> active.value < |cs|)
    && (core.Via? ==> core.bridge < |cs|)
    && (status.activeIndex.Some? ==> status.activeIndex.value < |cs|)
    && status.activeLine == (if status.activeIndex.Some? then LineAt(cs, status.activeIndex.value) else None)
  }

  predicate AllUsable(ts: seq<TransportBinary>, cs: seq<string>) {
    forall line :: line in cs ==> Usable(ts, line)
  }

  predicate TasksOk(ts: seq<TransportBinary>, cs: seq<string>, tasks: seq<Task>) {
    forall i :: 0 <= i < |tasks| ==> TaskOk(ts, cs, tasks[i])
  }

  predicate Good(s: State) {
    && SharedOk(s.candidates, s.active, s.core, s.status)
    && AllUsable(s.transports, s.candidates)
    && MonitorOk(s.candidates, s.monitor)
    && TasksOk(s.transports, s.candidates, s.tasks)
  }

  /** Candidates and transports are only ever added at the end. */
  predicate Grows(s: State, s': State) {
    s.candidates <= s'.candidates && s.transports <= s'.transports
  }

  lemma UsableStays(ts: seq<TransportBinary>, ts': seq<TransportBinary>, line: string)
    requires ts <= ts' && Usable(ts, line)
    ensures Usable(ts', line)
  {
    match ExtractTransportProtocol(line)
    case None =>
    case Some(protocol) =>
      var t :| t in ts && t.protocol == protocol;
      assert t in ts';
  }

  lemma TaskStays(ts: seq<TransportBinary>, cs: seq<string>, ts': seq<TransportBinary>, cs': seq<string>, t: Task)
    requires ts <= ts' && cs <= cs' && TaskOk(ts, cs, t)
    ensures TaskOk(ts', cs', t)
  {
    if t.Pushing? {
      UsableStays(ts, ts', t.text);
    }
  }

  /** Replacing one task, with the shared lists growing, keeps the other tasks in order. */
  lemma TasksStay(ts: seq<TransportBinary>, cs: seq<string>, tasks: seq<Task>,
                  ts': seq<TransportBinary>, cs': seq<string>, i: nat, t: Task)
    requires TasksOk(ts, cs, tasks) && ts <= ts' && cs <= cs' && i < |tasks| && TaskOk(ts', cs', t)
    ensures TasksOk(ts', cs', tasks[i := t])
  {
    forall k | 0 <= k < |tasks| && k != i
      ensures TaskOk(ts', cs', tasks[k])
    {
      TaskStays(ts, cs, ts', cs', tasks[k]);
    }
  }

  lemma ActivationKeepsGood(s: State, a: Activation)
    requires Good(s) && ActivationOk(s.candidates, a)
    ensures
      var s' := Activated(s, a);
      && Good(s') && s'.tasks == s.tasks && s'.monitor == s.monitor
      && s'.candidates == s.candidates && s'.transports == s.transports
    ensures NextActivation(s, a).Some? ==> ActivationOk(s.candidates, NextActivation(s, a).value)
  {
    hide AllUsable, MonitorOk, TasksOk;
  }

  lemma MonitorKeepsLists(threshold: nat, s: State, o: Outcome)
    ensures
      var s' := MonitorStep(threshold, s, o);
      s'.transports == s.transports && s'.candidates == s.candidates && s'.tasks == s.tasks
  {
    hide Record;
  }

  /** Off the activation path the monitor changes neither the core nor what is active. */
  lemma MonitorKeepsActive(threshold: nat, s: State, o: Outcome)
    requires !s.monitor.Activating?
    ensures
      var s' := MonitorStep(threshold, s, o);
      && s'.active == s.active && s'.core == s.core
      && s'.status.activeIndex == s.status.activeIndex && s'.status.activeLine == s.status.activeLine
  {
    hide Record, Activated;
  }

  lemma MonitorStaysOk(threshold: nat, s: State, o: Outcome)
    requires !s.monitor.Activating? && MonitorOk(s.candidates, s.monitor)
    requires s.active.Some? ==> s.active.value < |s.candidates|
    ensures MonitorOk(s.candidates, MonitorStep(threshold, s, o).monitor)
  {
    hide Record, Activated;
  }

  lemma MonitorKeepsGood(threshold: nat, s: State, o: Outcome)
    requires Good(s)
    ensures Good(MonitorStep(threshold, s, o)) && Grows(s, MonitorStep(threshold, s, o))
  {
    MonitorKeepsLists(threshold, s, o);
    if s.monitor.Activating? {
      ActivationKeepsGood(s, s.monitor.act);
      hide Activated, NextActivation, AllUsable, TasksOk;
    } else {
      MonitorKeepsActive(threshold, s, o);
      MonitorStaysOk(threshold, s, o);
      hide MonitorStep, MonitorOk, AllUsable, TasksOk;
    }
  }

  lemma EnsuringKeepsGood(s: State, i: nat, o: Outcome)
    requires Good(s) && i < |s.tasks| && s.tasks[i].Ensuring?
    ensures Good(TaskStep(s, i, o)) && Grows(s, TaskStep(s, i, o))
  {
    var s' := TaskStep(s, i, o);
    forall line | line in s.candidates
      ensures Usable(s'.transports, line)
    {
      UsableStays(s.transports, s'.transports, line);
    }
    TasksStay(s.transports, s.candidates, s.tasks, s'.transports, s'.candidates, i, s'.tasks[i]);
  }

  lemma PushingKeepsGood(s: State, i: nat, o: Outcome)
    requires Good(s) && i < |s.tasks| && s.tasks[i].Pushing?
    ensures Good(TaskStep(s, i, o)) && Grows(s, TaskStep(s, i, o))
  {
    var s' := TaskStep(s, i, o);
    TasksStay(s.transports, s.candidates, s.tasks, s'.transports, s'.candidates, i, s'.tasks[i]);
    hide Usable, ExtractTransportProtocol, TasksOk;
  }

  /** The other task steps change no list. */
  lemma TaskKeepsLists(s: State, i: nat, o: Outcome)
    requires i < |s.tasks| && !s.tasks[i].Ensuring?
    ensures TaskStep(s, i, o).transports == s.transports && TaskStep(s, i, o).monitor == s.monitor
    ensures !s.tasks[i].Pushing? ==> TaskStep(s, i, o).candidates == s.candidates
    ensures TaskStep(s, i, o).tasks == s.tasks[i := TaskStep(s, i, o).tasks[i]]
  {
    hide Record, ExtractTransportProtocol;
  }

  lemma TaskKeepsActive(s: State, i: nat, o: Outcome)
    requires i < |s.tasks| && !s.tasks[i].TaskActivating?
    ensures
      var s' := TaskStep(s, i, o);
      && s'.active == s.active && s'.core == s.core
      && s'.status.activeIndex == s.status.activeIndex && s'.status.activeLine == s.status.activeLine
  {
    hide Record, ExtractTransportProtocol, Activated;
  }

  lemma TaskStaysOk(s: State, i: nat, o: Outcome)
    requires i < |s.tasks| && !s.tasks[i].Ensuring? && !s.tasks[i].Pushing? && !s.tasks[i].TaskActivating?
    requires TaskOk(s.transports, s.candidates, s.tasks[i])
    ensures TaskOk(s.transports, s.candidates, TaskStep(s, i, o).tasks[i])
  {
    hide Record, Activated;
  }

  lemma TaskKeepsGood(s: State, i: nat, o: Outcome)
    requires Good(s) && i < |s.tasks|
    ensures Good(TaskStep(s, i, o)) && Grows(s, TaskStep(s, i, o))
  {
    var t := s.tasks[i];
    assert TaskOk(s.transports, s.candidates, t);
    if t.Ensuring? {
      EnsuringKeepsGood(s, i, o);
    } else if t.Pushing? {
      PushingKeepsGood(s, i, o);
    } else {
      var t' := TaskStep(s, i, o).tasks[i];
      TaskKeepsLists(s, i, o);
      if t.TaskActivating? {
        ActivationKeepsGood(s, t.act);
        hide Activated, NextActivation, AllUsable, MonitorOk, TasksOk;
        assert TaskOk(s.transports, s.candidates, t');
        TasksStay(s.transports, s.candidates, s.tasks, s.transports, s.candidates, i, t');
      } else {
        TaskKeepsActive(s, i, o);
        TaskStaysOk(s, i, o);
        hide TaskStep, TaskOk, AllUsable, MonitorOk, TasksOk;
        TasksStay(s.transports, s.candidates, s.tasks, s.transports, s.candidates, i, t');
      }
    }
  }

  /** Every step keeps every index within the candidates, the published line equal to the line
      at the published index, and every candidate usable; it removes and changes no candidate. */
  lemma StepKeepsGood(threshold: nat, s: State, e: Event)
    requires Good(s)
    ensures Good(Step(threshold, s, e)) && Grows(s, Step(threshold, s, e))
  {
    hide MonitorStep, TaskStep, MonitorOk, SharedOk, AllUsable, ExtractTransportProtocol;
    match e
    case Spawn(line) =>
    case MonitorMoves(o) => MonitorKeepsGood(threshold, s, o);
    case TaskMoves(i, o) =>
      if i < |s.tasks| {
        TaskKeepsGood(s, i, o);
      }
  }

  lemma {:induction false} EveryRunKeepsGood(threshold: nat, s: State, es: seq<Event>)
    requires Good(s)
    ensures Good(Run(threshold, s, es)) && Grows(s, Run(threshold, s, es))
  {
    if es != [] {
      EveryRunKeepsGood(threshold, s, es[..|es| - 1]);
      StepKeepsGood(threshold, Run(threshold, s, es[..|es| - 1]), es[|es| - 1]);
    }
  }

  /** From startup, in every interleaving: indices stay in range, the published line is the
      candidate's own, every candidate has its transport, and no candidate ever changes. */
  lemma EveryRunFromStartIsGood(threshold: nat, transports: seq<TransportBinary>, lines: seq<string>,
                                reports: seq<Report>, initial: Option<nat>, es: seq<Event>)
    requires ProperStart(transports, lines, reports, initial)
    ensures
      var s := Run(threshold, Started(transports, lines, reports, initial), es);
      && Good(s) && lines <= s.candidates && transports <= s.transports
      && (s.status.activeIndex.Some? ==>
            && s.status.activeIndex.value < |s.candidates|
            && s.status.activeLine == Some(s.candidates[s.status.activeIndex.value]))
  {
    EveryRunKeepsGood(threshold, Started(transports, lines, reports, initial), es);
  }

  // ----- auto-detection registers a protocol at most once -----

  /** Behind the `given` ones every registered protocol is new. */
  predicate AutoDetectedOnce(given: nat, ts: seq<TransportBinary>) {
    forall i, j :: 0 <= i < j < |ts| && given <= j ==> ts[i].protocol != ts[j].protocol
  }

  lemma StepDetectsOnce(threshold: nat, given: nat, s: State, e: Event)
    requires AutoDetectedOnce(given, s.transports)
    ensures AutoDetectedOnce(given, Step(threshold, s, e).transports)
  {
    hide ExtractTransportProtocol, Record, Activated, NextActivation, MonitorStep;
    match e
    case Spawn(_) =>
    case MonitorMoves(o) =>
      MonitorKeepsLists(threshold, s, o);
    case TaskMoves(i, o) =>
      if i < |s.tasks| && s.tasks[i].Ensuring? {
        var protocol := s.tasks[i].protocol;
        assert !Registered(s.transports, protocol) ==>
          forall k :: 0 <= k < |s.transports| ==> s.transports[k].protocol != protocol;
      } else if i < |s.tasks| {
        TaskKeepsLists(s, i, o);
      }
  }

  /** However many tasks race to add bridges of one transport, it is registered at most once. */
  lemma {:induction false} EveryRunDetectsOnce(threshold: nat, s: State, es: seq<Event>)
    ensures AutoDetectedOnce(|s.transports|, Run(threshold, s, es).transports)
  {
    if es != [] {
      EveryRunDetectsOnce(threshold, s, es[..|es| - 1]);
      StepDetectsOnce(threshold, |s.transports|, Run(threshold, s, es[..|es| - 1]), es[|es| - 1]);
    }
  }

  // ----- the telemetry table -----

  /** The table is what the reports make of the seeded lines, and reports name candidates by
      their own lines. */
  ghost predicate TableOk(seeds: seq<string>, s: State) {
    && s.status.table == RecordAll(Seeded(seeds), s.reports)
    && seeds <= s.candidates
    && forall i :: 0 <= i < |s.reports| ==> LineAt(s.candidates, s.reports[i].index) == Some(s.reports[i].line)
  }

  lemma ReportedKeepsTable(seeds: seq<string>, s: State, idx: nat, line: string, o: Outcome)
    requires TableOk(seeds, s) && LineAt(s.candidates, idx) == Some(line)
    ensures TableOk(seeds, Reported(s, idx, line, o))
  {
    var r := Report(idx, line, Seen(o.ok, o.latency));
    assert (s.reports + [r])[..|s.reports|] == s.reports;
  }

  lemma MonitorKeepsReports(threshold: nat, s: State, o: Outcome)
    requires !s.monitor.Checking? && !s.monitor.ScanChecking?
    ensures MonitorStep(threshold, s, o).reports == s.reports
    ensures MonitorStep(threshold, s, o).status.table == s.status.table
  {
    hide Reported;
  }

  lemma TaskKeepsReports(s: State, i: nat, o: Outcome)
    requires i < |s.tasks| && !s.tasks[i].TaskChecking?
    ensures TaskStep(s, i, o).reports == s.reports && TaskStep(s, i, o).status.table == s.status.table
  {
    hide Reported, ExtractTransportProtocol;
  }

  lemma StepKeepsTable(threshold: nat, seeds: seq<string>, s: State, e: Event)
    requires Good(s) && TableOk(seeds, s)
    ensures TableOk(seeds, Step(threshold, s, e))
  {
    StepKeepsGood(threshold, s, e);
    match e
    case Spawn(_) =>
    case MonitorMoves(o) =>
      MonitorKeepsLists(threshold, s, o);
      if s.monitor.Checking? {
        ReportedKeepsTable(seeds, s, s.monitor.idx, s.monitor.line, o);
        hide Reported, RecordAll;
      } else if s.monitor.ScanChecking? {
        ReportedKeepsTable(seeds, s, s.monitor.next, s.monitor.line, o);
        hide Reported, RecordAll;
      } else {
        MonitorKeepsReports(threshold, s, o);
        hide MonitorStep, RecordAll;
      }
    case TaskMoves(i, o) =>
      if i < |s.tasks| {
        assert TaskOk(s.transports, s.candidates, s.tasks[i]);
        if s.tasks[i].TaskChecking? {
          ReportedKeepsTable(seeds, s, s.tasks[i].idx, s.tasks[i].line, o);
          hide Reported, RecordAll;
        } else {
          TaskKeepsReports(s, i, o);
          hide TaskStep, RecordAll;
        }
      }
  }

  lemma {:induction false} EveryRunKeepsTable(threshold: nat, seeds: seq<string>, s: State, es: seq<Event>)
    requires Good(s) && TableOk(seeds, s)
    ensures Good(Run(threshold, s, es)) && TableOk(seeds, Run(threshold, s, es))
  {
    if es != [] {
      EveryRunKeepsTable(threshold, seeds, s, es[..|es| - 1]);
      StepKeepsGood(threshold, Run(threshold, s, es[..|es| - 1]), es[|es| - 1]);
      StepKeepsTable(threshold, seeds, Run(threshold, s, es[..|es| - 1]), es[|es| - 1]);
    }
  }

  lemma {:induction false} LatestLine(seeds: seq<string>, cs: seq<string>, reports: seq<Report>, index: nat)
    requires seeds <= cs
    requires forall i :: 0 <= i < |reports| ==> LineAt(cs, reports[i].index) == Some(reports[i].line)
    ensures Latest(seeds, reports, index).Some? ==>
      Latest(seeds, reports, index).value.index == index && LineAt(cs, index) == Some(Latest(seeds, reports, index).value.line)
  {
    if reports != [] {
      LatestLine(seeds, cs, reports[..|reports| - 1], index);
    }
  }

  /** In every interleaving the published table is strictly sorted by index, shows for each
      index the latest result recorded for it by anyone, under the candidate's own line. */
  lemma TableIsTrueInEveryRun(threshold: nat, transports: seq<TransportBinary>, lines: seq<string>,
                              reports: seq<Report>, initial: Option<nat>, es: seq<Event>, index: nat)
    requires ProperStart(transports, lines, reports, initial)
    ensures
      var s := Run(threshold, Started(transports, lines, reports, initial), es);
      && StrictlySorted(s.status.table)
      && Shows(s.status.table, index, Latest(lines, s.reports, index))
      && (forall row :: row in s.status.table && row.index == index ==>
            index < |s.candidates| && row.line == s.candidates[index])
  {
    var s0 := Started(transports, lines, reports, initial);
    EveryRunFromStartIsGood(threshold, transports, lines, reports, initial, []);
    EveryRunKeepsTable(threshold, lines, s0, es);
    var s := Run(threshold, s0, es);
    TableIsLastWriteWins(lines, s.reports, index);
    LatestLine(lines, s.candidates, s.reports, index);
    forall row | row in s.status.table && row.index == index
      ensures LineAt(s.candidates, index) == Some(row.line)
    {
      OneRowPerIndex(s.status.table, index, Latest(lines, s.reports, index), row);
    }
  }

  lemma OneRowPerIndex(rows: seq<Row>, index: nat, shown: Option<Row>, row: Row)
    requires StrictlySorted(rows) && Shows(rows, index, shown) && row in rows && row.index == index
    ensures shown == Some(row)
  {
    var i :| 0 <= i < |rows| && rows[i] == row;
    if shown.Some? {
      var j :| 0 <= j < |rows| && rows[j] == shown.value;
    }
  }

  // ----- the failure counter -----

  /** Failed checks since the last success of a check or a rescan. */
  function Trailing(marks: seq<Mark>): (n: nat) {
    if marks == [] || marks[|marks| - 1] != CheckFailed then 0 else Trailing(marks[..|marks| - 1]) + 1
  }

  predicate CounterOk(s: State) {
    s.failures == Trailing(s.marks) % 0x1_0000_0000 && (s.tasks == [] ==> s.status.failures == s.failures)
  }

  /** The verdict a monitor step reaches, if any. */
  function MarkOf(m: Monitor): Option<Mark> {
    match m
    case Judging(_, success) => Some(if success then CheckPassed else CheckFailed)
    case Healed => Some(RescanSucceeded)
    case Activating(ToPublish(_, _)) => Some(RescanSucceeded)
    case _ => None
  }

  lemma MonitorCounts(threshold: nat, s: State, o: Outcome)
    ensures
      var s' := MonitorStep(threshold, s, o);
      && s'.tasks == s.tasks
      && match MarkOf(s.monitor)
         case None => s'.marks == s.marks && s'.failures == s.failures && s'.status.failures == s.status.failures
         case Some(m) =>
           && s'.marks == s.marks + [m] && s'.status.failures == s'.failures
           && s'.failures == if m == CheckFailed then (s.failures + 1) % 0x1_0000_0000 else 0
  {
    if s.monitor.Activating? {
      ActivationCounts(s, s.monitor.act);
      hide Record, Activated;
    } else {
      hide Record, Activated, NextActivation, LineAt, LineOrEmpty;
    }
  }

  lemma ActivationCounts(s: State, a: Activation)
    ensures
      var s' := Activated(s, a);
      && s'.tasks == s.tasks && s'.marks == s.marks && s'.failures == s.failures
      && (!a.ToPublish? ==> s'.status.failures == s.status.failures)
  {
  }

  lemma TaskDoesNotCount(s: State, i: nat, o: Outcome)
    requires i < |s.tasks|
    ensures TaskStep(s, i, o).marks == s.marks && TaskStep(s, i, o).failures == s.failures
    ensures TaskStep(s, i, o).tasks != []
  {
    hide Record, ExtractTransportProtocol;
  }

  lemma StepKeepsCounter(threshold: nat, s: State, e: Event)
    requires CounterOk(s)
    ensures CounterOk(Step(threshold, s, e))
  {
    hide MonitorStep, TaskStep;
    match e
    case Spawn(_) =>
    case MonitorMoves(o) =>
      MonitorCounts(threshold, s, o);
      var mark := MarkOf(s.monitor);
      if mark.Some? {
        assert (s.marks + [mark.value])[..|s.marks|] == s.marks;
      }
    case TaskMoves(i, o) =>
      if i < |s.tasks| {
        TaskDoesNotCount(s, i, o);
      }
  }

  /** In every interleaving the monitor's counter is the number of failed checks since the
      last successful check or rescan, in 32 bits; the published count equals it as long as
      nobody has added a bridge by hand. */
  lemma {:induction false} CounterCountsFailures(threshold: nat, s: State, es: seq<Event>)
    requires CounterOk(s)
    ensures CounterOk(Run(threshold, s, es))
  {
    if es != [] {
      CounterCountsFailures(threshold, s, es[..|es| - 1]);
      StepKeepsCounter(threshold, Run(threshold, s, es[..|es| - 1]), es[|es| - 1]);
    }
  }

  /** So from startup on, as long as fewer than 2^32 checks in a row have failed, the counter is
      the number of them. */
  lemma CounterIsExact(threshold: nat, transports: seq<TransportBinary>, lines: seq<string>,
                       reports: seq<Report>, initial: Option<nat>, es: seq<Event>)
    ensures
      var s := Run(threshold, Started(transports, lines, reports, initial), es);
      Trailing(s.marks) < 0x1_0000_0000 ==>
        s.failures == Trailing(s.marks) && (s.tasks == [] ==> s.status.failures == Trailing(s.marks))
  {
    CounterCountsFailures(threshold, Started(transports, lines, reports, initial), es);
    hide Run, Started, Trailing;
    NoWrap(Trailing(Run(threshold, Started(transports, lines, reports, initial), es).marks));
  }

  lemma NoWrap(n: nat)
    ensures n < 0x1_0000_0000 ==> n % 0x1_0000_0000 == n
  {
    if n < 0x1_0000_0000 {
      QuotientUnique(n, 0x1_0000_0000, 0, n);
    }
  }

  lemma MonitorStartsScan(threshold: nat, s: State, o: Outcome)
    requires CounterOk(s)
    ensures
      var s' := MonitorStep(threshold, s, o);
      s'.monitor.ToScan? <==>
        s.monitor.Judging? && !s.monitor.success && Trailing(s'.marks) % 0x1_0000_0000 >= threshold
  {
    MonitorCounts(threshold, s, o);
    MonitorEntersScan(threshold, s, o);
    hide MonitorStep;
    if s.monitor.Judging? && !s.monitor.success {
      assert (s.marks + [CheckFailed])[..|s.marks|] == s.marks;
      NextModulo(Trailing(s.marks), 0x1_0000_0000);
    }
  }

  lemma MonitorEntersScan(threshold: nat, s: State, o: Outcome)
    ensures
      var s' := MonitorStep(threshold, s, o);
      s'.monitor.ToScan? <==> s.monitor.Judging? && !s.monitor.success && s'.failures >= threshold
  {
    hide Record, Activated;
  }

  lemma StepStartsScan(threshold: nat, s: State, e: Event)
    requires CounterOk(s)
    ensures
      var s' := Step(threshold, s, e);
      s'.monitor.ToScan? && s'.monitor != s.monitor <==>
        && e.MonitorMoves? && s.monitor.Judging? && !s.monitor.success
        && Trailing(s'.marks) % 0x1_0000_0000 >= threshold
  {
    hide MonitorStep, TaskStep, Trailing, CounterOk;
    match e
    case Spawn(_) =>
    case MonitorMoves(o) => MonitorStartsScan(threshold, s, o);
    case TaskMoves(i, o) =>
      if i < |s.tasks| {
        TaskKeepsMonitor(s, i, o);
      }
  }

  /** In every interleaving from startup, a scan starts exactly when the monitor judges a check
      failed and this brings the number of failures in a row to the threshold (or to one, if
      the threshold is zero). No task starts one. */
  lemma ScanStartsExactlyAtThreshold(threshold: nat, transports: seq<TransportBinary>, lines: seq<string>,
                                     reports: seq<Report>, initial: Option<nat>, es: seq<Event>, e: Event)
    ensures
      var s := Run(threshold, Started(transports, lines, reports, initial), es);
      var s' := Step(threshold, s, e);
      && (s'.monitor.ToScan? && s'.monitor != s.monitor <==>
            && e.MonitorMoves? && s.monitor.Judging? && !s.monitor.success
            && Trailing(s'.marks) % 0x1_0000_0000 >= threshold)
      && (Trailing(s'.marks) < 0x1_0000_0000 ==>
            (s'.monitor.ToScan? && s'.monitor != s.monitor <==>
               e.MonitorMoves? && s.monitor.Judging? && !s.monitor.success && Trailing(s'.marks) >= threshold))
  {
    var s0 := Started(transports, lines, reports, initial);
    assert CounterOk(s0);
    hide Run, Step, Trailing, CounterOk, Started;
    var s := Run(threshold, s0, es);
    CounterCountsFailures(threshold, s0, es);
    StepStartsScan(threshold, s, e);
    NoWrap(Trailing(Step(threshold, s, e).marks));
  }

  lemma TaskKeepsMonitor(s: State, i: nat, o: Outcome)
    requires i < |s.tasks|
    ensures TaskStep(s, i, o).monitor == s.monitor && TaskStep(s, i, o).scan == s.scan
  {
    hide Record, ExtractTransportProtocol, Ensured, Registered, NextActivation, LineOrEmpty;
  }

  // ----- the failover scan, however it is interleaved -----

  /** The candidates were reported one after the other, under their own lines. */
  predicate InOrder(cs: seq<string>, rs: seq<Report>) {
    forall i :: 0 <= i < |rs| ==> rs[i].index == i && LineAt(cs, i) == Some(rs[i].line)
  }

  predicate AllFailed(rs: seq<Report>) {
    forall i :: 0 <= i < |rs| ==> !rs[i].seen.success
  }

  /** The scan has reported the first `next` candidates, all failed, and goes on. */
  predicate Underway(cs: seq<string>, scan: Scan, next: nat, count: nat) {
    |scan.reports| == next < scan.present == count && InOrder(cs, scan.reports) && AllFailed(scan.reports)
  }

  /** The scan ended at `w`: it reported 0 to w, and w was the first that succeeded. */
  predicate FoundFirst(cs: seq<string>, scan: Scan, w: nat) {
    && |scan.reports| == w + 1 <= scan.present && InOrder(cs, scan.reports)
    && AllFailed(scan.reports[..w]) && scan.reports[w].seen.success
  }

  predicate ScanOk(cs: seq<string>, scan: Scan, m: Monitor) {
    scan.present <= |cs| &&
    match m
    case ScanReading(_, next, count) => Underway(cs, scan, next, count)
    case ScanChecking(_, next, count, _) => Underway(cs, scan, next, count)
    case ScanFound(_, found) => FoundFirst(cs, scan, found)
    case Bootstrapping(found) => FoundFirst(cs, scan, found)
    case Activating(a) => FoundFirst(cs, scan, a.bridge)
    case _ => true
  }

  lemma ScanStays(cs: seq<string>, cs': seq<string>, scan: Scan, m: Monitor)
    requires cs <= cs' && ScanOk(cs, scan, m)
    ensures ScanOk(cs', scan, m)
  {
  }

  /** Reporting the next candidate continues the scan, finds the first healthy one, or ends it
      with every candidate present at its start reported and failed. */
  lemma CandidateReported(cs: seq<string>, scan: Scan, next: nat, count: nat, r: Report)
    requires Underway(cs, scan, next, count) && r.index == next && LineAt(cs, next) == Some(r.line)
    ensures
      var scan' := Scan(scan.present, scan.reports + [r]);
      && InOrder(cs, scan'.reports)
      && (r.seen.success ==> FoundFirst(cs, scan', next))
      && (!r.seen.success ==> AllFailed(scan'.reports))
  {
    assert (scan.reports + [r])[..next] == scan.reports;
  }

  lemma MonitorKeepsScan(threshold: nat, s: State, o: Outcome)
    requires MonitorOk(s.candidates, s.monitor) && ScanOk(s.candidates, s.scan, s.monitor)
    ensures ScanOk(s.candidates, MonitorStep(threshold, s, o).scan, MonitorStep(threshold, s, o).monitor)
  {
    hide Record, Activated;
    if s.monitor.ScanChecking? {
      var m := s.monitor;
      CandidateReported(s.candidates, s.scan, m.next, m.count, Report(m.next, m.line, Seen(o.ok, o.latency)));
      hide InOrder, AllFailed, FoundFirst, Reported;
    } else {
      MonitorOffScan(threshold, s, o);
      hide FoundFirst, MonitorStep;
    }
  }

  /** Away from the checks of a scan, the monitor keeps it, starts a new one, or drops it. */
  lemma MonitorOffScan(threshold: nat, s: State, o: Outcome)
    requires !s.monitor.ScanChecking?
    ensures
      var s' := MonitorStep(threshold, s, o);
      match s.monitor
      case ToScan(f) =>
        && s'.scan == Scan(|s.candidates|, [])
        && (s'.monitor == Sleeping || (s.candidates != [] && s'.monitor == ScanReading(f, 0, |s.candidates|)))
      case ScanReading(f, next, count) =>
        s'.scan == s.scan && s'.monitor == ScanChecking(f, next, count, LineOrEmpty(s, next))
      case ScanFound(_, w) =>
        s'.scan == s.scan && (s'.monitor == Sleeping || s'.monitor == Healed || s'.monitor == Bootstrapping(w))
      case Bootstrapping(w) => s'.scan == s.scan && (s'.monitor == Sleeping || s'.monitor == Activating(ToSwap(w)))
      case Activating(a) =>
        s'.scan == s.scan && (s'.monitor == Sleeping || (s'.monitor.Activating? && s'.monitor.act.bridge == a.bridge))
      case _ =>
        && s'.scan == s.scan
        && (s'.monitor.Sleeping? || s'.monitor.Reading? || s'.monitor.Checking? || s'.monitor.Judging?
            || s'.monitor.ToScan?)
  {
    hide Record, LineAt, LineOrEmpty;
    if !s.monitor.Activating? {
      hide Activated;
    }
  }

  lemma StepKeepsScan(threshold: nat, s: State, e: Event)
    requires Good(s) && ScanOk(s.candidates, s.scan, s.monitor)
    ensures ScanOk(Step(threshold, s, e).candidates, Step(threshold, s, e).scan, Step(threshold, s, e).monitor)
  {
    StepKeepsGood(threshold, s, e);
    match e
    case Spawn(_) =>
    case MonitorMoves(o) =>
      MonitorKeepsLists(threshold, s, o);
      MonitorKeepsScan(threshold, s, o);
      hide MonitorStep, ScanOk;
    case TaskMoves(i, o) =>
      if i < |s.tasks| {
        TaskKeepsMonitor(s, i, o);
        ScanStays(s.candidates, TaskStep(s, i, o).candidates, s.scan, s.monitor);
        hide TaskStep, ScanOk;
      }
  }

  lemma {:induction false} EveryRunKeepsScan(threshold: nat, s: State, es: seq<Event>)
    requires Good(s) && ScanOk(s.candidates, s.scan, s.monitor)
    ensures
      var s' := Run(threshold, s, es);
      Good(s') && ScanOk(s'.candidates, s'.scan, s'.monitor)
  {
    hide Good, ScanOk, Step;
    if es != [] {
      var before, e := Run(threshold, s, es[..|es| - 1]), es[|es| - 1];
      EveryRunKeepsScan(threshold, s, es[..|es| - 1]);
      StepKeepsGood(threshold, before, e);
      StepKeepsScan(threshold, before, e);
    }
  }

  /** In every interleaving, whatever tasks add meanwhile: when the monitor has found a
      candidate, is bootstrapping it or activating it, its scan reported the candidates before
      that one in order, all failed, and then that one as healthy, all of them present when the
      scan started; and when a scan ends without one, it reported all of those as failed. */
  lemma EveryScanFindsTheFirstHealthy(threshold: nat, transports: seq<TransportBinary>, lines: seq<string>,
                                      reports: seq<Report>, initial: Option<nat>, es: seq<Event>, o: Outcome)
    requires ProperStart(transports, lines, reports, initial)
    ensures
      var s := Run(threshold, Started(transports, lines, reports, initial), es);
      && (s.monitor.ScanFound? || s.monitor.Bootstrapping? ==> FoundFirst(s.candidates, s.scan, s.monitor.found))
      && (s.monitor.Activating? ==> FoundFirst(s.candidates, s.scan, s.monitor.act.bridge))
      && (s.monitor.ScanChecking? && MonitorStep(threshold, s, o).monitor == Sleeping ==>
            var scan := MonitorStep(threshold, s, o).scan;
            |scan.reports| == scan.present && InOrder(s.candidates, scan.reports) && AllFailed(scan.reports))
  {
    var s := Run(threshold, Started(transports, lines, reports, initial), es);
    EveryRunFromStartIsGood(threshold, transports, lines, reports, initial, []);
    EveryRunKeepsScan(threshold, Started(transports, lines, reports, initial), es);
    hide FoundFirst, InOrder, AllFailed, Run, Record;
    if s.monitor.ScanChecking? {
      var m := s.monitor;
      CandidateReported(s.candidates, s.scan, m.next, m.count, Report(m.next, m.line, Seen(o.ok, o.latency)));
    }
  }

  // ----- only bridges that were found healthy become active -----

  /** Somebody has reported a successful check of bridge `j`. */
  predicate Vouched(reports: seq<Report>, j: nat) {
    exists r :: r in reports && r.index == j && r.seen.success
  }

  predicate MonitorVouched(reports: seq<Report>, m: Monitor) {
    match m
    case ScanFound(_, found) => Vouched(reports, found)
    case Bootstrapping(found) => Vouched(reports, found)
    case Activating(a) => Vouched(reports, a.bridge)
    case _ => true
  }

  predicate TaskVouched(reports: seq<Report>, t: Task) {
    match t
    case TaskConfiguring(idx) => Vouched(reports, idx)
    case TaskBootstrapping(idx) => Vouched(reports, idx)
    case TaskActivating(a) => Vouched(reports, a.bridge)
    case _ => true
  }

  predicate SharedVouched(reports: seq<Report>, core: Core, active: Option<nat>, activeIndex: Option<nat>) {
    && (core.Via? ==> Vouched(reports, core.bridge))
    && (active.Some? ==> Vouched(reports, active.value))
    && (activeIndex.Some? ==> Vouched(reports, activeIndex.value))
  }

  predicate AllVouched(s: State) {
    && SharedVouched(s.reports, s.core, s.active, s.status.activeIndex)
    && MonitorVouched(s.reports, s.monitor)
    && forall i :: 0 <= i < |s.tasks| ==> TaskVouched(s.reports, s.tasks[i])
  }

  lemma VouchedStays(reports: seq<Report>, more: seq<Report>, j: nat)
    requires Vouched(reports, j)
    ensures Vouched(reports + more, j)
  {
    var r :| r in reports && r.index == j && r.seen.success;
    assert r in reports + more;
  }

  /** More reports take nothing away. */
  lemma ReportsVouch(s: State, more: seq<Report>)
    requires AllVouched(s)
    ensures AllVouched(s.(reports := s.reports + more))
  {
    forall j | Vouched(s.reports, j)
      ensures Vouched(s.reports + more, j)
    {
      VouchedStays(s.reports, more, j);
    }
    hide Vouched;
  }

  lemma HealthyReportVouches(reports: seq<Report>, idx: nat, line: string, o: Outcome)
    requires o.ok
    ensures Vouched(reports + [Report(idx, line, Seen(o.ok, o.latency))], idx)
  {
    var r := Report(idx, line, Seen(o.ok, o.latency));
    assert r in reports + [r];
  }

  lemma ActivationKeepsVouched(s: State, a: Activation)
    requires AllVouched(s) && Vouched(s.reports, a.bridge)
    ensures AllVouched(Activated(s, a))
    ensures Activated(s, a).reports == s.reports && Activated(s, a).tasks == s.tasks && Activated(s, a).monitor == s.monitor
    ensures NextActivation(s, a).Some? ==> NextActivation(s, a).value.bridge == a.bridge
  {
    hide Vouched;
  }

  lemma MonitorKeepsVouched(threshold: nat, s: State, o: Outcome)
    requires AllVouched(s)
    ensures AllVouched(MonitorStep(threshold, s, o))
  {
    hide Record, Vouched, LineOrEmpty;
    MonitorKeepsLists(threshold, s, o);
    match s.monitor {
      case Activating(a) =>
        ActivationKeepsVouched(s, a);
        hide Activated, NextActivation;
      case Checking(idx, line) =>
        ReportsVouch(s, [Report(idx, line, Seen(o.ok, o.latency))]);
        hide Activated;
      case ScanChecking(_, next, _, line) =>
        ReportsVouch(s, [Report(next, line, Seen(o.ok, o.latency))]);
        if o.ok {
          HealthyReportVouches(s.reports, next, line, o);
        }
        hide Activated;
      case _ =>
        MonitorKeepsActive(threshold, s, o);
        MonitorKeepsReports(threshold, s, o);
        MonitorOnlyProceeds(threshold, s, o);
        hide MonitorStep;
    }
  }

  lemma MonitorOnlyProceeds(threshold: nat, s: State, o: Outcome)
    requires MonitorVouched(s.reports, s.monitor) && !s.monitor.Activating? && !s.monitor.Checking? && !s.monitor.ScanChecking?
    ensures MonitorVouched(s.reports, MonitorStep(threshold, s, o).monitor)
  {
    hide Record, Vouched, LineOrEmpty, Activated;
  }

  lemma TaskKeepsVouched(s: State, i: nat, o: Outcome)
    requires AllVouched(s) && i < |s.tasks|
    ensures AllVouched(TaskStep(s, i, o))
  {
    hide Record, Vouched, LineOrEmpty, ExtractTransportProtocol, Ensured, Registered;
    var t := s.tasks[i];
    assert TaskVouched(s.reports, t);
    match t {
      case TaskActivating(a) =>
        ActivationKeepsVouched(s, a);
        hide Activated, NextActivation;
      case TaskChecking(idx, line) =>
        ReportsVouch(s, [Report(idx, line, Seen(o.ok, o.latency))]);
        if o.ok {
          HealthyReportVouches(s.reports, idx, line, o);
        }
        hide Activated;
      case _ =>
        TaskKeepsActive(s, i, o);
        TaskKeepsReports(s, i, o);
        TaskKeepsMonitor(s, i, o);
        TaskOnlyProceeds(s, i, o);
        hide TaskStep;
    }
  }

  lemma TaskOnlyProceeds(s: State, i: nat, o: Outcome)
    requires i < |s.tasks| && TaskVouched(s.reports, s.tasks[i]) && !s.tasks[i].TaskActivating? && !s.tasks[i].TaskChecking?
    ensures
      var s' := TaskStep(s, i, o);
      s'.tasks == s.tasks[i := s'.tasks[i]] && TaskVouched(s.reports, s'.tasks[i])
  {
    hide Record, Vouched, LineOrEmpty, ExtractTransportProtocol, Ensured, Registered, Activated;
  }

  lemma {:induction false} EveryRunKeepsVouched(threshold: nat, s: State, es: seq<Event>)
    requires AllVouched(s)
    ensures AllVouched(Run(threshold, s, es))
  {
    hide MonitorStep, TaskStep, Vouched;
    if es != [] {
      var before := Run(threshold, s, es[..|es| - 1]);
      EveryRunKeepsVouched(threshold, s, es[..|es| - 1]);
      match es[|es| - 1]
      case Spawn(_) =>
      case MonitorMoves(o) => MonitorKeepsVouched(threshold, before, o);
      case TaskMoves(i, o) =>
        if i < |before.tasks| {
          TaskKeepsVouched(before, i, o);
        }
    }
  }

  /** In every interleaving from startup, the bridge the core runs through, the active one and
      the published one have each been reported healthy, by the startup scan, by a failover
      scan or by the task that added them. */
  lemma EveryActiveBridgeWasHealthy(threshold: nat, transports: seq<TransportBinary>, lines: seq<string>,
                                    reports: seq<Report>, initial: Option<nat>, es: seq<Event>, j: nat)
    requires ProperStart(transports, lines, reports, initial)
    ensures
      var s := Run(threshold, Started(transports, lines, reports, initial), es);
      s.core == Via(j) || s.active == Some(j) || s.status.activeIndex == Some(j) ==>
        exists r :: r in s.reports && r.index == j && r.seen.success
  {
    var s := Run(threshold, Started(transports, lines, reports, initial), es);
    EveryRunKeepsVouched(threshold, Started(transports, lines, reports, initial), es);
    assert Vouched(s.reports, j) <==> exists r :: r in s.reports && r.index == j && r.seen.success;
    hide Run, Vouched;
  }
}
