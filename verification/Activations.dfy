/**
 The three writes that activate a bridge - the core, the active index, the publication -
 are separate steps. This module keeps the books on them over every interleaving.
 */
module Activations {
  import opened Arithmetic
  import opened Wrappers
  import opened Telemetry
  import opened Bridges
  import opened Coordinator

  // ----- activations under way -----

  function OfMonitor(m: Monitor): Option<Activation> {
    if m.Activating? then Some(m.act) else None
  }

  function OfTask(t: Task): Option<Activation> {
    if t.TaskActivating? then Some(t.act) else None
  }

  /** What is being counted: one bridge, or all of them. */
  type Which = Option<nat>

  function Hit(bridge: nat, w: Which): nat {
    if w.None? || w.value == bridge then 1 else 0
  }

  function Count(history: seq<nat>, w: Which): nat {
    if history == [] then 0 else Count(history[..|history| - 1], w) + Hit(history[|history| - 1], w)
  }

  /** Swapped in, but not yet written to the active index. */
  function SetDue(a: Option<Activation>, w: Which): nat {
    if a.Some? && a.value.ToSet? then Hit(a.value.bridge, w) else 0
  }

  /** Written to the active index, but not yet published. */
  function PublishDue(a: Option<Activation>, w: Which): nat {
    if a.Some? && (a.value.ToReadLine? || a.value.ToPublish?) then Hit(a.value.bridge, w) else 0
  }

  function SetDueByTasks(tasks: seq<Task>, w: Which): nat {
    if tasks == [] then 0
    else SetDueByTasks(tasks[..|tasks| - 1], w) + SetDue(OfTask(tasks[|tasks| - 1]), w)
  }

  function PublishDueByTasks(tasks: seq<Task>, w: Which): nat {
    if tasks == [] then 0
    else PublishDueByTasks(tasks[..|tasks| - 1], w) + PublishDue(OfTask(tasks[|tasks| - 1]), w)
  }

  function AwaitingSet(s: State, w: Which): nat {
    SetDueByTasks(s.tasks, w) + SetDue(OfMonitor(s.monitor), w)
  }

  function AwaitingPublish(s: State, w: Which): nat {
    PublishDueByTasks(s.tasks, w) + PublishDue(OfMonitor(s.monitor), w)
  }

  /** How many activations are between their core swap and their publication. */
  function InFlight(s: State): nat {
    AwaitingSet(s, None) + AwaitingPublish(s, None)
  }

  lemma {:induction false} DueReplaced(tasks: seq<Task>, i: nat, t: Task, w: Which)
    requires i < |tasks|
    ensures SetDueByTasks(tasks[i := t], w) + SetDue(OfTask(tasks[i]), w)
            == SetDueByTasks(tasks, w) + SetDue(OfTask(t), w)
    ensures PublishDueByTasks(tasks[i := t], w) + PublishDue(OfTask(tasks[i]), w)
            == PublishDueByTasks(tasks, w) + PublishDue(OfTask(t), w)
  {
    var n := |tasks| - 1;
    hide SetDue, PublishDue, OfTask;
    if i < n {
      DueReplaced(tasks[..n], i, t, w);
      assert tasks[i := t][..n] == tasks[..n][i := t];
    } else {
      assert tasks[i := t][..n] == tasks[..n];
    }
  }

  lemma {:induction false} OneIsPartOfAll(tasks: seq<Task>, w: Which)
    ensures SetDueByTasks(tasks, w) <= SetDueByTasks(tasks, None)
    ensures PublishDueByTasks(tasks, w) <= PublishDueByTasks(tasks, None)
  {
    if tasks != [] {
      OneIsPartOfAll(tasks[..|tasks| - 1], w);
    }
  }

  lemma {:induction false} CountAll(history: seq<nat>)
    ensures Count(history, None) == |history|
  {
    if history != [] {
      CountAll(history[..|history| - 1]);
    }
  }

  // ----- what one step does to the three writes -----

  datatype Effect = Quiet | Swaps(bridge: nat) | Sets(bridge: nat) | Publishes(bridge: nat)

  function EffectOf(a: Option<Activation>): Effect {
    match a
    case Some(ToSwap(j)) => Swaps(j)
    case Some(ToSet(j)) => Sets(j)
    case Some(ToPublish(j, _)) => Publishes(j)
    case _ => Quiet
  }

  function EffectOfEvent(s: State, e: Event): Effect {
    match e
    case Spawn(_) => Quiet
    case MonitorMoves(_) => EffectOf(OfMonitor(s.monitor))
    case TaskMoves(i, _) => if i < |s.tasks| then EffectOf(OfTask(s.tasks[i])) else Quiet
  }

  predicate SharedEffect(s: State, s': State, k: Effect) {
    && s'.core == (if k.Swaps? then Via(k.bridge) else s.core)
    && s'.swapped == (if k.Swaps? then s.swapped + [k.bridge] else s.swapped)
    && s'.active == (if k.Sets? then Some(k.bridge) else s.active)
    && s'.activated == (if k.Sets? then s.activated + [k.bridge] else s.activated)
    && s'.status.activeIndex == (if k.Publishes? then Some(k.bridge) else s.status.activeIndex)
    && s'.published == (if k.Publishes? then s.published + [k.bridge] else s.published)
    && s'.status.switches == (if k.Publishes? then (s.status.switches + 1) % 0x1_0000_0000_0000_0000 else s.status.switches)
  }

  predicate DueEffect(toSet: nat, toPublish: nat, toSet': nat, toPublish': nat, k: Effect, w: Which) {
    match k
    case Quiet => toSet' == toSet && toPublish' == toPublish
    case Swaps(j) => toSet' == toSet + Hit(j, w) && toPublish' == toPublish
    case Sets(j) => toSet == toSet' + Hit(j, w) && toPublish' == toPublish + Hit(j, w)
    case Publishes(j) => toSet' == toSet && toPublish == toPublish' + Hit(j, w)
  }

  /** The activation a process is in after a step, from the one it was in before. */
  predicate Follows(a: Option<Activation>, a': Option<Activation>) {
    match a
    case None => a'.None? || a'.value.ToSwap?
    case Some(ToSwap(j)) => a' == Some(ToSet(j))
    case Some(ToSet(j)) => a' == Some(ToReadLine(j))
    case Some(ToReadLine(j)) => a'.Some? && a'.value.ToPublish? && a'.value.bridge == j
    case Some(ToPublish(_, _)) => a'.None?
  }

  lemma FollowsDue(a: Option<Activation>, a': Option<Activation>, w: Which)
    requires Follows(a, a')
    ensures DueEffect(SetDue(a, w), PublishDue(a, w), SetDue(a', w), PublishDue(a', w), EffectOf(a), w)
  {
  }

  lemma ActivatedEffect(s: State, a: Activation)
    ensures SharedEffect(s, Activated(s, a), EffectOf(Some(a)))
    ensures Activated(s, a).tasks == s.tasks && Activated(s, a).monitor == s.monitor
    ensures Follows(Some(a), NextActivation(s, a))
  {
  }

  lemma MonitorSharedEffect(threshold: nat, s: State, o: Outcome)
    ensures
      var s' := MonitorStep(threshold, s, o);
      && SharedEffect(s, s', EffectOf(OfMonitor(s.monitor))) && s'.tasks == s.tasks
      && Follows(OfMonitor(s.monitor), OfMonitor(s'.monitor))
  {
    if s.monitor.Activating? {
      ActivatedEffect(s, s.monitor.act);
      hide Activated, NextActivation, Record;
    } else {
      hide Record, Activated;
    }
  }

  lemma TaskSharedEffect(s: State, i: nat, o: Outcome)
    requires i < |s.tasks|
    ensures
      var s' := TaskStep(s, i, o);
      && |s'.tasks| == |s.tasks| && s'.tasks == s.tasks[i := s'.tasks[i]] && s'.monitor == s.monitor
      && SharedEffect(s, s', EffectOf(OfTask(s.tasks[i])))
      && Follows(OfTask(s.tasks[i]), OfTask(s'.tasks[i]))
  {
    if s.tasks[i].TaskActivating? {
      ActivatedEffect(s, s.tasks[i].act);
      hide Activated, NextActivation, Record, ExtractTransportProtocol;
    } else {
      hide Record, ExtractTransportProtocol, Activated;
    }
  }

  lemma StepEffect(threshold: nat, s: State, e: Event, w: Which)
    ensures
      var s' := Step(threshold, s, e);
      && SharedEffect(s, s', EffectOfEvent(s, e))
      && DueEffect(AwaitingSet(s, w), AwaitingPublish(s, w), AwaitingSet(s', w), AwaitingPublish(s', w),
                   EffectOfEvent(s, e), w)
  {
    hide MonitorStep, TaskStep, SetDue, PublishDue, OfMonitor, OfTask, Hit;
    match e
    case Spawn(line) =>
      SpawnIsQuiet(s.tasks, line, w);
    case MonitorMoves(o) =>
      MonitorSharedEffect(threshold, s, o);
      FollowsDue(OfMonitor(s.monitor), OfMonitor(MonitorStep(threshold, s, o).monitor), w);
    case TaskMoves(i, o) =>
      if i < |s.tasks| {
        TaskSharedEffect(s, i, o);
        var t' := TaskStep(s, i, o).tasks[i];
        FollowsDue(OfTask(s.tasks[i]), OfTask(t'), w);
        DueReplaced(s.tasks, i, t', w);
        hide SetDueByTasks, PublishDueByTasks;
      }
  }

  lemma SpawnIsQuiet(tasks: seq<Task>, line: string, w: Which)
    ensures SetDueByTasks(tasks + [Entered(line)], w) == SetDueByTasks(tasks, w)
    ensures PublishDueByTasks(tasks + [Entered(line)], w) == PublishDueByTasks(tasks, w)
  {
    assert (tasks + [Entered(line)])[..|tasks|] == tasks;
  }

  // ----- the books -----

  function LastOr(history: seq<nat>, initial: Option<nat>): Option<nat> {
    if history == [] then initial else Some(history[|history| - 1])
  }

  function AsCore(active: Option<nat>): Core {
    match active
    case None => Direct
    case Some(j) => Via(j)
  }

  /** Each bridge is swapped in as often as it is written to the active index and published,
      except for the activations under way; the core, the active index and the publication
      name the latest bridge of their own history; the switch count counts publications. */
  ghost predicate Books(initial: Option<nat>, s: State) {
    (forall w: Which :: Balanced(s, w)) && Ends(initial, s)
  }

  predicate Ends(initial: Option<nat>, s: State) {
    && s.core == AsCore(LastOr(s.swapped, initial))
    && s.active == LastOr(s.activated, initial)
    && s.status.activeIndex == LastOr(s.published, initial)
    && s.status.switches == |s.published| % 0x1_0000_0000_0000_0000
  }

  predicate Balanced(s: State, w: Which) {
    && Count(s.swapped, w) == Count(s.activated, w) + AwaitingSet(s, w)
    && Count(s.activated, w) == Count(s.published, w) + AwaitingPublish(s, w)
  }

  lemma CountMore(history: seq<nat>, j: nat, w: Which)
    ensures Count(history + [j], w) == Count(history, w) + Hit(j, w)
  {
    assert (history + [j])[..|history|] == history;
  }

  lemma StepKeepsBalance(threshold: nat, s: State, e: Event, w: Which)
    requires Balanced(s, w)
    ensures Balanced(Step(threshold, s, e), w)
  {
    StepEffect(threshold, s, e, w);
    hide Step, AwaitingSet, AwaitingPublish, EffectOfEvent, Hit, Count;
    match EffectOfEvent(s, e)
    case Quiet =>
    case Swaps(j) => CountMore(s.swapped, j, w);
    case Sets(j) => CountMore(s.activated, j, w);
    case Publishes(j) => CountMore(s.published, j, w);
  }

  /** The core, the active index and the publication keep naming the latest of their history. */
  lemma EffectKeepsEnds(initial: Option<nat>, s: State, s': State, k: Effect)
    requires SharedEffect(s, s', k) && Ends(initial, s)
    ensures Ends(initial, s')
  {
    match k
    case Quiet =>
    case Swaps(j) =>
    case Sets(j) =>
    case Publishes(j) => NextModulo(|s.published|, 0x1_0000_0000_0000_0000);
  }

  lemma StepKeepsBooks(threshold: nat, initial: Option<nat>, s: State, e: Event)
    requires Books(initial, s)
    ensures Books(initial, Step(threshold, s, e))
  {
    hide Step, Balanced, EffectOfEvent, SharedEffect, DueEffect, Ends;
    var s' := Step(threshold, s, e);
    forall w: Which
      ensures Balanced(s', w)
    {
      StepKeepsBalance(threshold, s, e, w);
    }
    StepEffect(threshold, s, e, None);
    EffectKeepsEnds(initial, s, s', EffectOfEvent(s, e));
  }

  lemma {:induction false} EveryRunKeepsBooks(threshold: nat, initial: Option<nat>, s: State, es: seq<Event>)
    requires Books(initial, s)
    ensures Books(initial, Run(threshold, s, es))
  {
    if es != [] {
      EveryRunKeepsBooks(threshold, initial, s, es[..|es| - 1]);
      StepKeepsBooks(threshold, initial, Run(threshold, s, es[..|es| - 1]), es[|es| - 1]);
    }
  }

  /** In every interleaving from startup the number of core swaps is the number of published
      switches plus the number of activations between swap and publication. */
  lemma SwapsAreAccountedFor(threshold: nat, transports: seq<TransportBinary>, lines: seq<string>,
                             reports: seq<Report>, initial: Option<nat>, es: seq<Event>)
    ensures
      var s := Run(threshold, Started(transports, lines, reports, initial), es);
      && Books(initial, s)
      && |s.swapped| == |s.published| + InFlight(s)
      && s.status.switches == (|s.swapped| - InFlight(s)) % 0x1_0000_0000_0000_0000
  {
    var s0 := Started(transports, lines, reports, initial);
    forall w: Which
      ensures Balanced(s0, w)
    {
    }
    EveryRunKeepsBooks(threshold, initial, s0, es);
    var s := Run(threshold, s0, es);
    assert Balanced(s, None);
    CountAll(s.swapped);
    CountAll(s.activated);
    CountAll(s.published);
  }

  // ----- agreement -----

  /** The core was bootstrapped for the active bridge, and that bridge is published. */
  predicate Agree(s: State) {
    s.core == AsCore(s.active) && s.status.activeIndex == s.active
  }

  /** `longer` is `shorter` with one more entry, the one that is due. */
  predicate OneMore(longer: seq<nat>, shorter: seq<nat>) {
    |longer| == |shorter| + 1 && longer[..|shorter|] == shorter
  }

  /** With at most one activation under way, the three histories are one and the same, up to
      the one entry the activation has not written yet. */
  predicate InStep(s: State) {
    if InFlight(s) == 0 then s.swapped == s.activated == s.published
    else if AwaitingSet(s, None) == 1 then
      && s.activated == s.published && OneMore(s.swapped, s.published)
      && AwaitingSet(s, Some(s.swapped[|s.published|])) == 1
    else
      && s.swapped == s.activated && OneMore(s.activated, s.published)
      && AwaitingPublish(s, Some(s.activated[|s.published|])) == 1
  }

  lemma OneAwaitsAmongAll(s: State, w: Which)
    ensures AwaitingSet(s, w) <= AwaitingSet(s, None) && AwaitingPublish(s, w) <= AwaitingPublish(s, None)
  {
    OneIsPartOfAll(s.tasks, w);
  }

  /** The step from `s` to `s'` has effect `k`, as far as the writes of `due` go. */
  predicate Effects(s: State, s': State, k: Effect, due: nat) {
    && SharedEffect(s, s', k)
    && DueEffect(AwaitingSet(s, None), AwaitingPublish(s, None), AwaitingSet(s', None), AwaitingPublish(s', None), k, None)
    && DueEffect(AwaitingSet(s, Some(due)), AwaitingPublish(s, Some(due)),
                 AwaitingSet(s', Some(due)), AwaitingPublish(s', Some(due)), k, Some(due))
  }

  /** The bridge whose activation is under way, or is being started by effect `k`. */
  function Due(s: State, k: Effect): nat {
    if |s.swapped| > |s.published| then s.swapped[|s.published|]
    else if |s.activated| > |s.published| then s.activated[|s.published|]
    else if k.Quiet? then 0 else k.bridge
  }

  lemma SwapKeepsInStep(s: State, s': State, j: nat)
    requires InStep(s) && InFlight(s') <= 1 && Effects(s, s', Swaps(j), j)
    ensures InStep(s')
  {
    OneAwaitsAmongAll(s, Some(j));
    hide AwaitingSet, AwaitingPublish;
    assert (s.swapped + [j])[..|s.swapped|] == s.swapped;
  }

  lemma SetKeepsInStep(s: State, s': State, j: nat)
    requires InStep(s) && InFlight(s) <= 1 && Effects(s, s', Sets(j), Due(s, Sets(j)))
    ensures InStep(s')
  {
    OneAwaitsAmongAll(s', Some(Due(s, Sets(j))));
    hide AwaitingSet, AwaitingPublish;
    assert s.activated + [j] == s.swapped;
  }

  lemma PublishKeepsInStep(s: State, s': State, j: nat)
    requires InStep(s) && InFlight(s) <= 1 && Effects(s, s', Publishes(j), Due(s, Publishes(j)))
    ensures InStep(s')
  {
    OneAwaitsAmongAll(s', Some(Due(s, Publishes(j))));
    hide AwaitingSet, AwaitingPublish;
    assert s.published + [j] == s.activated;
  }

  lemma StepKeepsInStep(threshold: nat, s: State, e: Event)
    requires InStep(s) && InFlight(s) <= 1 && InFlight(Step(threshold, s, e)) <= 1
    ensures InStep(Step(threshold, s, e))
  {
    var k, s' := EffectOfEvent(s, e), Step(threshold, s, e);
    StepEffect(threshold, s, e, None);
    StepEffect(threshold, s, e, Some(Due(s, k)));
    hide Step, AwaitingSet, AwaitingPublish, EffectOfEvent;
    match k
    case Quiet =>
    case Swaps(j) =>
      hide DueEffect, SharedEffect;
      StepEffect(threshold, s, e, Some(j));
      SwapKeepsInStep(s, s', j);
    case Sets(j) => SetKeepsInStep(s, s', j);
    case Publishes(j) => PublishKeepsInStep(s, s', j);
  }

  /** No two activations overlap at any point of the run. */
  ghost predicate OneAtATime(threshold: nat, s: State, es: seq<Event>) {
    forall k :: 0 <= k <= |es| ==> InFlight(Run(threshold, s, es[..k])) <= 1
  }

  lemma {:induction false} OneAtATimeKeepsInStep(threshold: nat, s: State, es: seq<Event>)
    requires InStep(s) && OneAtATime(threshold, s, es)
    ensures InStep(Run(threshold, s, es))
  {
    hide InStep, InFlight, Step;
    if es != [] {
      var rest := es[..|es| - 1];
      forall k | 0 <= k <= |rest|
        ensures InFlight(Run(threshold, s, rest[..k])) <= 1
      {
        assert rest[..k] == es[..k];
      }
      OneAtATimeKeepsInStep(threshold, s, rest);
      assert es[..|es|] == es;
      assert rest[..|rest|] == rest == es[..|rest|];
      StepKeepsInStep(threshold, Run(threshold, s, rest), es[|es| - 1]);
    }
  }

  /** In every run in which no two activations overlap, whenever none is under way the core,
      the active index and the published index name the same bridge (or none), whether the
      program started directly or through a bridge. */
  lemma RunsWithoutOverlapAgree(threshold: nat, transports: seq<TransportBinary>, lines: seq<string>,
                                reports: seq<Report>, initial: Option<nat>, es: seq<Event>)
    requires OneAtATime(threshold, Started(transports, lines, reports, initial), es)
    requires InFlight(Run(threshold, Started(transports, lines, reports, initial), es)) == 0
    ensures Agree(Run(threshold, Started(transports, lines, reports, initial), es))
  {
    var s0 := Started(transports, lines, reports, initial);
    OneAtATimeKeepsInStep(threshold, s0, es);
    SwapsAreAccountedFor(threshold, transports, lines, reports, initial, es);
  }

  /** With overlaps, nothing is lost or doubled - at rest every bridge occurs equally often in
      the three histories, only their order may differ. */
  lemma AtRestOnlyTheOrderCanDiffer(initial: Option<nat>, s: State, j: nat)
    requires Books(initial, s) && InFlight(s) == 0
    ensures Count(s.swapped, Some(j)) == Count(s.activated, Some(j)) == Count(s.published, Some(j))
    ensures |s.swapped| == |s.activated| == |s.published|
  {
    assert Balanced(s, None) && Balanced(s, Some(j));
    OneIsPartOfAll(s.tasks, Some(j));
    CountAll(s.swapped);
    CountAll(s.activated);
    CountAll(s.published);
  }
}
