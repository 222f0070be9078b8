/**
 Bridge failover as a transition system. One monitor loop and any number of
 `try_add_bridge` tasks interleave; every critical section of a lock, every telemetry
 update and every swap of the core is one step. Health checks, configuration building,
 bootstraps, parsing and binary discovery happen between steps and come out as the
 scheduler's `Outcome` says.
 */
module Coordinator {
  import opened Arithmetic
  import opened Wrappers
  import opened Telemetry
  import opened Bridges

  /** What the shared client was bootstrapped for. */
  datatype Core = Direct | Via(bridge: nat)

  datatype Status = Status(
    activeIndex: Option<nat>, activeLine: Option<string>,
    failures: nat, switches: nat, table: seq<Row>, error: bool)

  /** The four steps that make a healthy, bootstrapped bridge the active one. */
  datatype Activation =
    | ToSwap(bridge: nat)
    | ToSet(bridge: nat)
    | ToReadLine(bridge: nat)
    | ToPublish(bridge: nat, line: Option<string>)

  datatype Monitor =
    | Sleeping
    | Reading(idx: nat)
    | Checking(idx: nat, line: string)
    | Judging(idx: nat, success: bool)
    | ToScan(failing: nat)
    | ScanReading(failing: nat, next: nat, count: nat)
    | ScanChecking(failing: nat, next: nat, count: nat, line: string)
    | ScanFound(failing: nat, found: nat)
    | Healed
    | Bootstrapping(found: nat)
    | Activating(act: Activation)

  datatype Task =
    | Entered(text: string)
    | Adding(text: string)
    | Ensuring(text: string, protocol: string)
    | Pushing(text: string)
    | TaskReading(idx: nat)
    | TaskChecking(idx: nat, line: string)
    | TaskConfiguring(idx: nat)
    | TaskBootstrapping(idx: nat)
    | TaskActivating(act: Activation)
    | Failing
    | Finished(r: Option<nat>)

  /** What has happened to the failure counter, oldest first. */
  datatype Mark = CheckFailed | CheckPassed | RescanSucceeded

  /** How many candidates the latest failover scan found, and what it has reported so far. */
  datatype Scan = Scan(present: nat, reports: seq<Report>)

  /** The last six fields are histories: the bridges of all core swaps, of all writes of the
      active index and of all publications, in order, the results recorded in the table by
      anyone, the monitor's verdicts and its latest scan. Nothing decides anything by them. */
  datatype State = State(
    transports: seq<TransportBinary>, candidates: seq<string>,
    active: Option<nat>, core: Core, status: Status,
    monitor: Monitor, failures: nat, tasks: seq<Task>,
    swapped: seq<nat>, activated: seq<nat>, published: seq<nat>, reports: seq<Report>,
    marks: seq<Mark>, scan: Scan)

  /** How the thing a step waited for came out. */
  datatype Outcome = Outcome(ok: bool, latency: nat, path: string)

  datatype Event = Spawn(line: string) | MonitorMoves(o: Outcome) | TaskMoves(i: nat, o: Outcome)

  // ----- the steps -----

  function Activated(s: State, a: Activation): State {
    match a
    case ToSwap(j) => s.(core := Via(j), swapped := s.swapped + [j])
    case ToSet(j) => s.(active := Some(j), activated := s.activated + [j])
    case ToReadLine(_) => s
    case ToPublish(j, line) =>
      s.(status := s.status.(activeIndex := Some(j), activeLine := line, failures := 0,
                             switches := (s.status.switches + 1) % U64_MODULUS),
         published := s.published + [j])
  }

  function NextActivation(s: State, a: Activation): Option<Activation> {
    match a
    case ToSwap(j) => Some(ToSet(j))
    case ToSet(j) => Some(ToReadLine(j))
    case ToReadLine(j) => Some(ToPublish(j, LineAt(s.candidates, j)))
    case ToPublish(_, _) => None
  }

  function Reported(s: State, idx: nat, line: string, o: Outcome): State {
    var r := Report(idx, line, Seen(o.ok, o.latency));
    s.(status := s.status.(table := Record(s.status.table, r)), reports := s.reports + [r])
  }

  /** A candidate's line, or the empty string for an index that does not exist. */
  function LineOrEmpty(s: State, idx: nat): string {
    if idx < |s.candidates| then s.candidates[idx] else ""
  }

  function Counted(s: State, failures: nat, mark: Mark): State {
    s.(failures := failures, status := s.status.(failures := failures), marks := s.marks + [mark])
  }

  function MonitorStep(threshold: nat, s: State, o: Outcome): State {
    match s.monitor
    case Sleeping =>
      (match s.active
       case None => s
       case Some(idx) => s.(monitor := Reading(idx)))
    case Reading(idx) => s.(monitor := Checking(idx, LineOrEmpty(s, idx)))
    case Checking(idx, line) => Reported(s, idx, line, o).(monitor := Judging(idx, o.ok))
    case Judging(idx, success) =>
      if success then Counted(s, 0, CheckPassed).(monitor := Sleeping)
      else
        var n := (s.failures + 1) % U32_MODULUS;
        Counted(s, n, CheckFailed).(monitor := if n < threshold then Sleeping else ToScan(idx))
    case ToScan(failing) =>
      s.(monitor := if s.candidates == [] then Sleeping else ScanReading(failing, 0, |s.candidates|),
         scan := Scan(|s.candidates|, []))
    case ScanReading(failing, next, count) => s.(monitor := ScanChecking(failing, next, count, LineOrEmpty(s, next)))
    case ScanChecking(failing, next, count, line) =>
      Reported(s, next, line, o).(
        monitor := if o.ok then ScanFound(failing, next)
                   else if next + 1 < count then ScanReading(failing, next + 1, count)
                   else Sleeping,
        scan := s.scan.(reports := s.scan.reports + [Report(next, line, Seen(o.ok, o.latency))]))
    case ScanFound(failing, found) =>
      s.(monitor := if !o.ok then Sleeping else if found == failing then Healed else Bootstrapping(found))
    case Healed => Counted(s, 0, RescanSucceeded).(monitor := Sleeping)
    case Bootstrapping(found) => s.(monitor := if o.ok then Activating(ToSwap(found)) else Sleeping)
    case Activating(a) =>
      (match NextActivation(s, a)
       case Some(a') => Activated(s, a).(monitor := Activating(a'))
       case None => Counted(Activated(s, a), 0, RescanSucceeded).(monitor := Sleeping))
  }

  function TaskStep(s: State, i: nat, o: Outcome): State
    requires i < |s.tasks|
  {
    match s.tasks[i]
    case Entered(text) => Goto(s.(status := s.status.(error := false)), i, Adding(text))
    case Adding(text) =>
      Goto(s, i, if !o.ok then Failing
                 else match ExtractTransportProtocol(text)
                      case None => Pushing(text)
                      case Some(protocol) => Ensuring(text, protocol))
    case Ensuring(text, protocol) =>
      var ts := Ensured(s.transports, protocol, if o.ok then Some(o.path) else None);
      Goto(s.(transports := ts), i, if Registered(ts, protocol) then Pushing(text) else Failing)
    case Pushing(text) => Goto(s.(candidates := s.candidates + [text]), i, TaskReading(|s.candidates|))
    case TaskReading(idx) => Goto(s, i, TaskChecking(idx, LineOrEmpty(s, idx)))
    case TaskChecking(idx, line) =>
      Goto(Reported(s, idx, line, o), i, if o.ok then TaskConfiguring(idx) else Failing)
    case TaskConfiguring(idx) => Goto(s, i, if o.ok then TaskBootstrapping(idx) else Finished(None))
    case TaskBootstrapping(idx) => Goto(s, i, if o.ok then TaskActivating(ToSwap(idx)) else Finished(None))
    case TaskActivating(a) =>
      Goto(Activated(s, a), i, match NextActivation(s, a)
                               case Some(a') => TaskActivating(a')
                               case None => Finished(Some(a.bridge)))
    case Failing => Goto(s.(status := s.status.(error := true)), i, Finished(None))
    case Finished(_) => s
  }

  function Goto(s: State, i: nat, t: Task): State
    requires i < |s.tasks|
  {
    s.(tasks := s.tasks[i := t])
  }

  function Step(threshold: nat, s: State, e: Event): State {
    match e
    case Spawn(line) => s.(tasks := s.tasks + [Entered(line)])
    case MonitorMoves(o) => MonitorStep(threshold, s, o)
    case TaskMoves(i, o) => if i < |s.tasks| then TaskStep(s, i, o) else s
  }

  function Run(threshold: nat, s: State, es: seq<Event>): State {
    if es == [] then s else Step(threshold, Run(threshold, s, es[..|es| - 1]), es[|es| - 1])
  }

  /** The state in which the coordinator is set up: the configured lines are seeded, some of
      them reported by the startup scan, and the core is either direct or the one of the
      bridge that scan chose. */
  function Started(transports: seq<TransportBinary>, lines: seq<string>, reports: seq<Report>,
                   initial: Option<nat>): State
  {
    var line := if initial.Some? then LineAt(lines, initial.value) else None;
    State(transports, lines, initial, if initial.Some? then Via(initial.value) else Direct,
          Status(initial, line, 0, 0, RecordAll(Seeded(lines), reports), false),
          Sleeping, 0, [], [], [], [], reports, [], Scan(0, []))
  }

  /** What startup guarantees about its arguments: every line was added through the manager,
      the scan reported configured candidates under their own lines, and the bridge it chose, if
      any, as healthy. */
  ghost predicate ProperStart(transports: seq<TransportBinary>, lines: seq<string>, reports: seq<Report>,
                              initial: Option<nat>)
  {
    && (forall line :: line in lines ==> Usable(transports, line))
    && (forall r :: r in reports ==> LineAt(lines, r.index) == Some(r.line))
    && (initial.Some? ==> exists r :: r in reports && r.index == initial.value && r.seen.success)
  }

  // ----- runs -----

  lemma Then(threshold: nat, s0: State, es: seq<Event>, e: Event)
    ensures Run(threshold, s0, es + [e]) == Step(threshold, Run(threshold, s0, es), e)
  {
    assert (es + [e])[..|es|] == es;
  }

  lemma EmptyRun(threshold: nat, s: State)
    ensures Run(threshold, s, []) == s
  {
  }

  lemma RunOn(threshold: nat, s: State, es: seq<Event>, e: Event)
    ensures Run(threshold, s, [e] + es) == Run(threshold, Step(threshold, s, e), es)
    decreases |es|
  {
    if es == [] {
      assert [e] + es == [e] && [e][..0] == [];
      assert Run(threshold, s, []) == s;
    } else {
      var rest := es[..|es| - 1];
      RunOn(threshold, s, rest, e);
      assert ([e] + es)[..|es|] == [e] + rest;
    }
  }

  lemma {:induction false} RunJoins(threshold: nat, s: State, es: seq<Event>, es': seq<Event>)
    ensures Run(threshold, s, es + es') == Run(threshold, Run(threshold, s, es), es')
  {
    hide Step;
    if es' == [] {
      assert es + es' == es;
    } else {
      var rest := es'[..|es'| - 1];
      RunJoins(threshold, s, es, rest);
      assert (es + es')[..|es + es'| - 1] == es + rest;
    }
  }
}
