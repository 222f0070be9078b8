/**
 What overlapping activations leave behind. An activation under way has swapped the core and
 still owes the write of the active index, or the publication, or both; whether all three
 agree in the end depends on the order in which the debts are paid.
 */
module Overlaps {
  import opened Wrappers
  import opened Telemetry
  import opened Bridges
  import opened Coordinator
  import opened CoordinatorInvariants
  import opened Activations

  const FINE: Outcome := Outcome(true, 0, "")

  /** Whoever can have an activation under way. */
  datatype Process = Loop | Hand(i: nat)

  predicate Exists(s: State, p: Process) {
    p.Hand? ==> p.i < |s.tasks|
  }

  function Doing(s: State, p: Process): Option<Activation>
    requires Exists(s, p)
  {
    match p
    case Loop => OfMonitor(s.monitor)
    case Hand(i) => OfTask(s.tasks[i])
  }

  predicate Owes(s: State, p: Process) {
    Exists(s, p) && Doing(s, p).Some? && !Doing(s, p).value.ToSwap?
  }

  predicate OwesSet(s: State, p: Process) {
    Exists(s, p) && Doing(s, p).Some? && Doing(s, p).value.ToSet?
  }

  // ----- the sums say whether anyone owes anything -----

  lemma {:induction false} NoDueByTasks(tasks: seq<Task>)
    ensures SetDueByTasks(tasks, None) == 0 <==> forall i :: 0 <= i < |tasks| ==> SetDue(OfTask(tasks[i]), None) == 0
    ensures PublishDueByTasks(tasks, None) == 0
            <==> forall i :: 0 <= i < |tasks| ==> PublishDue(OfTask(tasks[i]), None) == 0
  {
    hide SetDue, PublishDue, OfTask;
    if tasks != [] {
      var n := |tasks| - 1;
      NoDueByTasks(tasks[..n]);
      assert forall i :: 0 <= i < n ==> tasks[..n][i] == tasks[i];
    }
  }

  lemma NobodyOwes(s: State)
    ensures InFlight(s) == 0 <==> forall p :: !Owes(s, p)
  {
    NoDueByTasks(s.tasks);
    if forall p :: !Owes(s, p) {
      forall i | 0 <= i < |s.tasks|
        ensures SetDue(OfTask(s.tasks[i]), None) == 0 && PublishDue(OfTask(s.tasks[i]), None) == 0
      {
        assert !Owes(s, Hand(i));
      }
      assert !Owes(s, Loop);
    }
    if InFlight(s) == 0 {
      forall p
        ensures !Owes(s, p)
      {
        if p.Hand? && p.i < |s.tasks| {
          assert SetDue(OfTask(s.tasks[p.i]), None) == 0 && PublishDue(OfTask(s.tasks[p.i]), None) == 0;
        }
      }
    }
  }

  // ----- one step, seen from one process -----

  predicate MovedBy(e: Event, p: Process) {
    match p
    case Loop => e.MonitorMoves?
    case Hand(i) => e.TaskMoves? && e.i == i
  }

  lemma EventMoves(threshold: nat, s: State, e: Event, p: Process)
    requires Exists(Step(threshold, s, e), p)
    ensures
      var s' := Step(threshold, s, e);
      if !Exists(s, p) then Doing(s', p).None?
      else if MovedBy(e, p) then Follows(Doing(s, p), Doing(s', p)) && EffectOfEvent(s, e) == EffectOf(Doing(s, p))
      else Doing(s', p) == Doing(s, p)
  {
    hide MonitorStep, TaskStep, Follows, EffectOf;
    match e
    case Spawn(_) =>
    case MonitorMoves(o) => MonitorSharedEffect(threshold, s, o);
    case TaskMoves(i, o) =>
      if i < |s.tasks| {
        TaskSharedEffect(s, i, o);
      }
  }

  lemma ProcessesStay(threshold: nat, s: State, e: Event)
    ensures |Step(threshold, s, e).tasks| == |s.tasks| + if e.Spawn? then 1 else 0
  {
    hide MonitorStep, TaskStep;
    match e
    case Spawn(_) =>
    case MonitorMoves(o) => MonitorSharedEffect(threshold, s, o);
    case TaskMoves(i, o) =>
      if i < |s.tasks| {
        TaskSharedEffect(s, i, o);
      }
  }

  lemma StepSharedEffect(threshold: nat, s: State, e: Event)
    ensures SharedEffect(s, Step(threshold, s, e), EffectOfEvent(s, e))
  {
    StepEffect(threshold, s, e, None);
  }

  // ----- when every way to finish ends in agreement -----

  /** An activation under way for another bridge than the core's. */
  predicate Astray(s: State, p: Process) {
    Owes(s, p) && s.core != Via(Doing(s, p).value.bridge)
  }

  /** Every activation under way is for the bridge the core runs through, and what nobody owes
      any more, the active index or the publication, names that bridge already. */
  ghost predicate Settled(s: State) {
    && (forall p :: !Astray(s, p))
    && ((exists p :: OwesSet(s, p)) || s.core == AsCore(s.active))
    && ((exists p :: Owes(s, p)) || s.core == AsCore(s.status.activeIndex))
  }

  /** The activations under way are brought to their end, in any order and among any other
      steps, and no new one swaps the core. */
  predicate Completes(threshold: nat, s: State, es: seq<Event>) {
    Run(threshold, s, es).swapped == s.swapped && InFlight(Run(threshold, s, es)) == 0
  }

  lemma StillOwes(threshold: nat, s: State, e: Event, p: Process)
    requires Exists(s, p)
    ensures Exists(Step(threshold, s, e), p)
    ensures OwesSet(s, p) && (!MovedBy(e, p) || !EffectOfEvent(s, e).Sets?) ==> OwesSet(Step(threshold, s, e), p)
    ensures Owes(s, p) && !EffectOfEvent(s, e).Publishes? ==> Owes(Step(threshold, s, e), p)
  {
    ProcessesStay(threshold, s, e);
    EventMoves(threshold, s, e, p);
    hide Step, EffectOfEvent;
  }

  /** What is owed after a step that does not swap was owed before, for the same bridge. */
  lemma OwedBefore(threshold: nat, s: State, e: Event, p: Process)
    requires Owes(Step(threshold, s, e), p) && !EffectOfEvent(s, e).Swaps?
    ensures Owes(s, p) && Doing(Step(threshold, s, e), p).value.bridge == Doing(s, p).value.bridge
  {
    EventMoves(threshold, s, e, p);
    hide Step, EffectOfEvent;
  }

  lemma WriterOwes(s: State, e: Event) returns (p: Process)
    requires EffectOfEvent(s, e).Sets? || EffectOfEvent(s, e).Publishes?
    ensures Owes(s, p) && MovedBy(e, p) && Doing(s, p).value.bridge == EffectOfEvent(s, e).bridge
    ensures EffectOfEvent(s, e).Sets? ==> OwesSet(s, p)
  {
    p := if e.MonitorMoves? then Loop else Hand(e.i);
  }

  lemma StepKeepsSettled(threshold: nat, s: State, e: Event)
    requires Settled(s) && !EffectOfEvent(s, e).Swaps?
    ensures Settled(Step(threshold, s, e))
  {
    var s', k := Step(threshold, s, e), EffectOfEvent(s, e);
    StepSharedEffect(threshold, s, e);
    forall p
      ensures !Astray(s', p)
    {
      if Owes(s', p) {
        OwedBefore(threshold, s, e, p);
        assert !Astray(s, p);
      }
    }
    if k.Sets? || k.Publishes? {
      var p := WriterOwes(s, e);
      assert !Astray(s, p);
      StillOwes(threshold, s, e, p);
    }
    if !k.Sets? && s.core != AsCore(s.active) {
      var p :| OwesSet(s, p);
      StillOwes(threshold, s, e, p);
    }
    if !k.Publishes? && s.core != AsCore(s.status.activeIndex) {
      var p :| Owes(s, p);
      StillOwes(threshold, s, e, p);
    }
    hide Step, EffectOfEvent, Owes, OwesSet, Astray;
  }

  /** Without a new swap, a settled state stays settled. */
  lemma {:induction false} RunKeepsSettled(threshold: nat, s: State, es: seq<Event>)
    ensures s.swapped <= Run(threshold, s, es).swapped
    ensures Settled(s) && Run(threshold, s, es).swapped == s.swapped ==> Settled(Run(threshold, s, es))
  {
    if es != [] {
      var before, e := Run(threshold, s, es[..|es| - 1]), es[|es| - 1];
      RunKeepsSettled(threshold, s, es[..|es| - 1]);
      StepSharedEffect(threshold, before, e);
      if Settled(before) && !EffectOfEvent(before, e).Swaps? {
        StepKeepsSettled(threshold, before, e);
      }
      hide Step, EffectOfEvent, Settled;
    }
  }

  lemma SettledAgrees(s: State)
    requires InFlight(s) == 0
    ensures Settled(s) <==> Agree(s)
  {
    NobodyOwes(s);
    hide Owes, InFlight;
    assert (exists p :: OwesSet(s, p)) ==> exists p :: Owes(s, p) by {
      if p :| OwesSet(s, p) {
        SetIsOwed(s, p);
      }
    }
  }

  lemma SetIsOwed(s: State, p: Process)
    requires OwesSet(s, p)
    ensures Owes(s, p)
  {
  }

  // ----- paying debts, one process at a time -----

  function MoveOf(p: Process): Event {
    match p
    case Loop => MonitorMoves(FINE)
    case Hand(i) => TaskMoves(i, FINE)
  }

  /** From `s` to `s'` nobody new came, the core stayed, and the active index too unless some
      process owed it. */
  ghost predicate Pays(s: State, s': State) {
    && |s'.tasks| == |s.tasks| && s'.core == s.core && s'.swapped == s.swapped
    && ((forall p :: !OwesSet(s, p)) ==> s'.active == s.active)
  }

  ghost predicate SameDoing(s: State, s': State, p: Process) {
    Exists(s, p) ==> Exists(s', p) && Doing(s', p) == Doing(s, p)
  }

  ghost predicate OthersStay(s: State, s': State, p: Process) {
    forall q :: q != p ==> SameDoing(s, s', q)
  }

  lemma OthersStayStep(threshold: nat, s: State, p: Process)
    requires Owes(s, p)
    ensures OthersStay(s, Step(threshold, s, MoveOf(p)), p)
  {
    var e := MoveOf(p);
    ProcessesStay(threshold, s, e);
    forall q | q != p
      ensures SameDoing(s, Step(threshold, s, e), q)
    {
      if Exists(s, q) {
        EventMoves(threshold, s, e, q);
      }
    }
  }

  lemma OthersStayTwice(s: State, s1: State, s2: State, p: Process)
    requires OthersStay(s, s1, p) && OthersStay(s1, s2, p)
    ensures OthersStay(s, s2, p)
  {
    forall q | q != p
      ensures SameDoing(s, s2, q)
    {
      assert SameDoing(s, s1, q) && SameDoing(s1, s2, q);
    }
  }

  function Bridge(s: State, p: Process): nat
    requires Owes(s, p)
  {
    Doing(s, p).value.bridge
  }

  /** The steps its activation still takes. */
  function Steps(s: State, p: Process): nat
    requires Owes(s, p)
  {
    match Doing(s, p).value
    case ToSet(_) => 3
    case ToReadLine(_) => 2
    case ToPublish(_, _) => 1
  }

  /** One process moves one step on with its activation, and publishes at the last one. */
  lemma MoveOn(threshold: nat, s: State, p: Process)
    requires Owes(s, p)
    ensures
      var s' := Step(threshold, s, MoveOf(p));
      && Pays(s, s') && Exists(s', p) && (OwesSet(s, p) || !OwesSet(s', p))
      && s'.active == (if OwesSet(s, p) then Some(Bridge(s, p)) else s.active) && (OwesSet(s', p) ==> !OwesSet(s, p))
      && (if Owes(s', p) then Steps(s', p) < Steps(s, p) && Bridge(s', p) == Bridge(s, p)
          else s'.status.activeIndex == Some(Bridge(s, p)))
  {
    var e := MoveOf(p);
    ProcessesStay(threshold, s, e);
    StepSharedEffect(threshold, s, e);
    EventMoves(threshold, s, e, p);
    hide Step;
    assert OwesSet(s, p) || !EffectOfEvent(s, e).Sets?;
  }

  /** One process completes its activation; its bridge is the one published last. */
  lemma {:induction false} PayOff(threshold: nat, s: State, p: Process) returns (es: seq<Event>)
    requires Owes(s, p)
    ensures
      var s' := Run(threshold, s, es);
      && Pays(s, s') && !Owes(s', p) && OthersStay(s, s', p) && s'.status.activeIndex == Some(Bridge(s, p))
      && s'.active == (if OwesSet(s, p) then Some(Bridge(s, p)) else s.active)
    decreases Steps(s, p)
  {
    hide Step, Run, Pays, Owes, OwesSet, OthersStay, Bridge, Steps;
    var e := MoveOf(p);
    var s1 := Step(threshold, s, e);
    MoveOn(threshold, s, p);
    OthersStayStep(threshold, s, p);
    if Owes(s1, p) {
      var rest := PayOff(threshold, s1, p);
      var s2 := Run(threshold, s1, rest);
      RunOn(threshold, s, rest, e);
      es := [e] + rest;
      PaysAlong(s, s1, s2, p);
      OthersStayTwice(s, s1, s2, p);
    } else {
      EmptyRun(threshold, s1);
      RunOn(threshold, s, [], e);
      es := [e] + [];
    }
  }

  lemma PaysAlong(s: State, s1: State, s2: State, p: Process)
    requires Pays(s, s1) && Pays(s1, s2) && OthersStay(s, s1, p) && (OwesSet(s, p) || !OwesSet(s1, p))
    ensures Pays(s, s2)
  {
    if forall q :: !OwesSet(s, q) {
      forall q
        ensures !OwesSet(s1, q)
      {
        assert !OwesSet(s, q);
        if q != p {
          assert SameDoing(s, s1, q);
        }
      }
    }
  }

  lemma PaysTwice(s: State, s1: State, s2: State)
    requires Pays(s, s1) && Pays(s1, s2)
    requires forall q :: OwesSet(s1, q) ==> OwesSet(s, q)
    ensures Pays(s, s2)
  {
  }

  /** All tasks before `n` but `skip` have completed their activations; nobody else moved. */
  ghost predicate PaidOff(s: State, s': State, skip: Option<Process>, n: nat) {
    && Pays(s, s') && (forall q :: OwesSet(s', q) ==> OwesSet(s, q))
    && forall q: Process :: if q.Hand? && q.i < n && Some(q) != skip then !Owes(s', q) else SameDoing(s, s', q)
  }

  lemma SetsDoNotGrow(s: State, s': State, p: Process)
    requires |s'.tasks| == |s.tasks| && !Owes(s', p) && OthersStay(s, s', p)
    ensures forall q :: OwesSet(s', q) ==> OwesSet(s, q)
  {
    forall q | OwesSet(s', q)
      ensures OwesSet(s, q)
    {
      SetIsOwed(s', q);
      assert SameDoing(s, s', q);
    }
  }

  lemma {:induction false} PayOffTasks(threshold: nat, s: State, skip: Option<Process>, n: nat) returns (es: seq<Event>)
    requires n <= |s.tasks|
    ensures PaidOff(s, Run(threshold, s, es), skip, n)
  {
    if n == 0 {
      es := [];
      EmptyRun(threshold, s);
      hide Run;
    } else {
      es := PayOffTasks(threshold, s, skip, n - 1);
      var s1, p := Run(threshold, s, es), Hand(n - 1);
      if Some(p) != skip && Owes(s1, p) {
        var more := PayOff(threshold, s1, p);
        RunJoins(threshold, s, es, more);
        es := es + more;
        var s2 := Run(threshold, s1, more);
        SetsDoNotGrow(s1, s2, p);
        PaysTwice(s, s1, s2);
        hide Run, Owes, OwesSet, Pays;
        forall q: Process
          ensures if q.Hand? && q.i < n && Some(q) != skip then !Owes(s2, q) else SameDoing(s, s2, q)
        {
          if q != p {
            assert SameDoing(s1, s2, q);
            SameDebts(s1, s2, q);
          }
        }
      } else {
        hide Run, Owes, OwesSet, Pays;
      }
    }
  }

  lemma SameDebts(s: State, s': State, q: Process)
    requires SameDoing(s, s', q) && |s'.tasks| == |s.tasks|
    ensures Owes(s', q) == Owes(s, q) && OwesSet(s', q) == OwesSet(s, q)
  {
  }

  /** Nobody but `skip` owes anything, and `skip` has not moved. */
  ghost predicate AllPaidBut(s: State, s': State, skip: Option<Process>) {
    && Pays(s, s') && (forall q :: Owes(s', q) ==> Some(q) == skip)
    && (skip.Some? ==> SameDoing(s, s', skip.value))
  }

  lemma TasksPaid(s: State, s': State, skip: Option<Process>)
    requires PaidOff(s, s', skip, |s.tasks|) && (skip == Some(Loop) || !Owes(s', Loop))
    ensures AllPaidBut(s, s', skip)
  {
    forall q | Owes(s', q)
      ensures Some(q) == skip
    {
      assert q.Hand? ==> q.i < |s.tasks|;
    }
  }

  lemma LoopPaid(s: State, s1: State, s2: State, skip: Option<Process>)
    requires PaidOff(s, s1, skip, |s.tasks|) && skip != Some(Loop)
    requires Pays(s1, s2) && !Owes(s2, Loop) && OthersStay(s1, s2, Loop)
    ensures AllPaidBut(s, s2, skip)
  {
    PaysTwice(s, s1, s2);
    forall q | Owes(s2, q)
      ensures Some(q) == skip
    {
      assert SameDoing(s1, s2, q);
      SameDebts(s1, s2, q);
      assert q.Hand? ==> q.i < |s.tasks|;
    }
    if skip.Some? {
      assert SameDoing(s, s1, skip.value) && SameDoing(s1, s2, skip.value);
    }
  }

  lemma PayOffAll(threshold: nat, s: State, skip: Option<Process>) returns (es: seq<Event>)
    ensures AllPaidBut(s, Run(threshold, s, es), skip)
  {
    hide Run, PaidOff, Pays, Owes, OthersStay, AllPaidBut;
    es := PayOffTasks(threshold, s, skip, |s.tasks|);
    var s1 := Run(threshold, s, es);
    if skip != Some(Loop) && Owes(s1, Loop) {
      var more := PayOff(threshold, s1, Loop);
      RunJoins(threshold, s, es, more);
      LoopPaid(s, s1, Run(threshold, s1, more), skip);
      es := es + more;
    } else {
      TasksPaid(s, s1, skip);
    }
  }

  /** From a state that is not settled, the activations under way can end in disagreement. */
  lemma UnsettledCanDisagree(threshold: nat, s: State) returns (es: seq<Event>)
    requires !Settled(s)
    ensures Completes(threshold, s, es) && !Agree(Run(threshold, s, es))
  {
    hide Run, InFlight, Owes, OwesSet, Astray;
    NobodyOwes(s);
    if p :| Astray(s, p) {
      es := LastPublisherDecides(threshold, s, p);
    } else if s.core != AsCore(s.active) && forall p :: !OwesSet(s, p) {
      es := PayOffAll(threshold, s, None);
      NobodyOwes(Run(threshold, s, es));
    } else {
      EmptyRun(threshold, s);
      es := [];
    }
  }

  /** A process whose bridge is not the core's, publishing last, leaves them apart. */
  lemma LastPublisherDecides(threshold: nat, s: State, p: Process) returns (es: seq<Event>)
    requires Astray(s, p)
    ensures Completes(threshold, s, es) && !Agree(Run(threshold, s, es))
    ensures Run(threshold, s, es).core == s.core
    ensures OwesSet(s, p) ==> Run(threshold, s, es).active == Some(Bridge(s, p))
  {
    es := PayOffAll(threshold, s, Some(p));
    var s1 := Run(threshold, s, es);
    SameDebts(s, s1, p);
    var more := PayOff(threshold, s1, p);
    RunJoins(threshold, s, es, more);
    var s2 := Run(threshold, s1, more);
    es := es + more;
    hide Run, InFlight;
    forall q
      ensures !Owes(s2, q)
    {
      if q != p {
        assert SameDoing(s1, s2, q);
        SameDebts(s1, s2, q);
      }
    }
    NobodyOwes(s2);
  }

  /** Whichever way the activations under way come to their end, the core, the active index and
      the publication agree - exactly if the state is settled, which can be seen beforehand. */
  lemma CompletionsAgreeExactly(threshold: nat, s: State)
    ensures (forall es :: Completes(threshold, s, es) ==> Agree(Run(threshold, s, es))) <==> Settled(s)
  {
    if Settled(s) {
      forall es | Completes(threshold, s, es)
        ensures Agree(Run(threshold, s, es))
      {
        RunKeepsSettled(threshold, s, es);
        SettledAgrees(Run(threshold, s, es));
      }
    } else {
      var es := UnsettledCanDisagree(threshold, s);
      assert Completes(threshold, s, es);
    }
  }

  // ----- recovery -----

  lemma SwapperOwes(threshold: nat, s: State, e: Event) returns (p: Process)
    requires EffectOfEvent(s, e).Swaps?
    ensures Exists(s, p) && !Owes(s, p) && MovedBy(e, p)
    ensures OwesSet(Step(threshold, s, e), p)
    ensures Doing(Step(threshold, s, e), p).value.bridge == EffectOfEvent(s, e).bridge
  {
    p := if e.MonitorMoves? then Loop else Hand(e.i);
    ProcessesStay(threshold, s, e);
    EventMoves(threshold, s, e, p);
    hide Step;
  }

  /** A swap settles any state, however it disagreed before - exactly if no activation for
      another bridge is under way. */
  lemma SwapSettlesExactly(threshold: nat, s: State, e: Event)
    requires EffectOfEvent(s, e).Swaps?
    ensures Settled(Step(threshold, s, e)) <==> forall p :: Owes(s, p) ==> Bridge(s, p) == EffectOfEvent(s, e).bridge
  {
    var s', j := Step(threshold, s, e), EffectOfEvent(s, e).bridge;
    StepSharedEffect(threshold, s, e);
    var swapper := SwapperOwes(threshold, s, e);
    SetIsOwed(s', swapper);
    forall p
      ensures Owes(s', p) <==> Owes(s, p) || p == swapper
      ensures Owes(s, p) ==> Owes(s', p) && Bridge(s', p) == Bridge(s, p)
    {
      OthersOwe(threshold, s, e, swapper, p);
    }
    hide Step, EffectOfEvent, Owes, OwesSet;
    if Settled(s') {
      forall p | Owes(s, p)
        ensures Bridge(s, p) == j
      {
        assert !Astray(s', p);
      }
    }
  }

  /** What a step of one process leaves of what the others owe. */
  lemma OthersOwe(threshold: nat, s: State, e: Event, mover: Process, p: Process)
    requires Exists(s, mover) && MovedBy(e, mover) && !Owes(s, mover) && Owes(Step(threshold, s, e), mover)
    ensures Owes(Step(threshold, s, e), p) <==> Owes(s, p) || p == mover
    ensures Owes(s, p) ==> Owes(Step(threshold, s, e), p) && Bridge(Step(threshold, s, e), p) == Bridge(s, p)
  {
    ProcessesStay(threshold, s, e);
    if Exists(Step(threshold, s, e), p) {
      EventMoves(threshold, s, e, p);
    }
    hide Step;
  }

  /** So the next activation that does not overlap restores agreement: from any state at rest,
      agreeing or not, if a swap follows and is completed without another one, all three agree. */
  lemma NextActivationRestoresAgreement(threshold: nat, s: State, e: Event, es: seq<Event>)
    requires InFlight(s) == 0 && EffectOfEvent(s, e).Swaps? && Completes(threshold, Step(threshold, s, e), es)
    ensures Agree(Run(threshold, s, [e] + es))
  {
    NobodyOwes(s);
    SwapSettlesExactly(threshold, s, e);
    CompletionsAgreeExactly(threshold, Step(threshold, s, e));
    RunOn(threshold, s, es, e);
    hide Run, Step, InFlight, Settled;
  }

  /** As soon as two activations for different bridges are under way, they can disagree. */
  lemma TwoBridgesCanDisagree(threshold: nat, s: State, p: Process, q: Process) returns (es: seq<Event>)
    requires Owes(s, p) && Owes(s, q) && Bridge(s, p) != Bridge(s, q)
    ensures Completes(threshold, s, es) && !Agree(Run(threshold, s, es))
  {
    assert Astray(s, p) || Astray(s, q);
    es := UnsettledCanDisagree(threshold, s);
  }

  // ----- runs in which they do -----

  /** Where a task goes when everything works out and its line names no transport. */
  function FineNext(t: Task, candidates: seq<string>): Task {
    match t
    case Entered(text) => Adding(text)
    case Adding(text) => Pushing(text)
    case Pushing(text) => TaskReading(|candidates|)
    case TaskReading(idx) => TaskChecking(idx, if idx < |candidates| then candidates[idx] else "")
    case TaskChecking(idx, _) => TaskConfiguring(idx)
    case TaskConfiguring(idx) => TaskBootstrapping(idx)
    case TaskBootstrapping(idx) => TaskActivating(ToSwap(idx))
    case _ => t
  }

  lemma FineMove(threshold: nat, s0: State, es: seq<Event>, others: seq<Task>, t: Task) returns (es': seq<Event>)
    requires Run(threshold, s0, es).tasks == others + [t]
    requires t.Adding? ==> ExtractTransportProtocol(t.text).None?
    requires !t.Ensuring? && !t.TaskActivating? && !t.Failing? && !t.Finished?
    ensures
      var s, s' := Run(threshold, s0, es), Run(threshold, s0, es');
      && s'.tasks == others + [FineNext(t, s.candidates)]
      && s'.candidates == (if t.Pushing? then s.candidates + [t.text] else s.candidates)
      && s'.monitor == s.monitor
  {
    hide Run, Record, MonitorStep, ExtractTransportProtocol, Activated;
    var go := TaskMoves(|others|, FINE);
    es' := es + [go];
    Then(threshold, s0, es, go);
  }

  /** One task with a healthy bridge pushes its line ... */
  lemma TaskPushes(threshold: nat, s0: State, es: seq<Event>, line: string) returns (es': seq<Event>)
    requires ExtractTransportProtocol(line).None?
    ensures
      var s, s' := Run(threshold, s0, es), Run(threshold, s0, es');
      && s'.tasks == s.tasks + [TaskReading(|s.candidates|)]
      && s'.candidates == s.candidates + [line] && s'.monitor == s.monitor
  {
    var others := Run(threshold, s0, es).tasks;
    es' := es + [Spawn(line)];
    Then(threshold, s0, es, Spawn(line));
    assert Run(threshold, s0, es').tasks == others + [Entered(line)];
    hide Run, Step, ExtractTransportProtocol;
    es' := FineMove(threshold, s0, es', others, Entered(line));
    es' := FineMove(threshold, s0, es', others, Adding(line));
    es' := FineMove(threshold, s0, es', others, Pushing(line));
  }

  /** ... and gets to where it is about to swap the core. */
  lemma TaskReachesSwap(threshold: nat, s0: State, es: seq<Event>, line: string) returns (es': seq<Event>)
    requires ExtractTransportProtocol(line).None?
    ensures
      var s, s' := Run(threshold, s0, es), Run(threshold, s0, es');
      && s'.tasks == s.tasks + [TaskActivating(ToSwap(|s.candidates|))]
      && s'.candidates == s.candidates + [line] && s'.monitor == s.monitor
  {
    hide Run, Step, ExtractTransportProtocol;
    var others, m := Run(threshold, s0, es).tasks, |Run(threshold, s0, es).candidates|;
    es' := TaskPushes(threshold, s0, es, line);
    es' := FineMove(threshold, s0, es', others, TaskReading(m));
    es' := FineMove(threshold, s0, es', others, TaskChecking(m, line));
    es' := FineMove(threshold, s0, es', others, TaskConfiguring(m));
    es' := FineMove(threshold, s0, es', others, TaskBootstrapping(m));
  }

  function ActivationNext(s: State, a: Activation): Task {
    match NextActivation(s, a)
    case Some(a') => TaskActivating(a')
    case None => Finished(Some(a.bridge))
  }

  lemma ActivationMove(threshold: nat, s0: State, es: seq<Event>, before: seq<Task>, a: Activation, after: seq<Task>)
    returns (es': seq<Event>)
    requires Run(threshold, s0, es).tasks == before + [TaskActivating(a)] + after
    ensures
      var s, s' := Run(threshold, s0, es), Run(threshold, s0, es');
      && s'.tasks == before + [ActivationNext(s, a)] + after
      && s'.core == Activated(s, a).core && s'.active == Activated(s, a).active
      && s'.candidates == s.candidates
  {
    hide Run, MonitorStep, TaskStep, Activated, NextActivation;
    var s := Run(threshold, s0, es);
    var go := TaskMoves(|before|, FINE);
    es' := es + [go];
    Then(threshold, s0, es, go);
    assert s.tasks[|before|] == TaskActivating(a);
    ActivationStep(s, |before|, a);
    assert s.tasks[|before| := ActivationNext(s, a)] == before + [ActivationNext(s, a)] + after;
  }

  lemma ActivationStep(s: State, i: nat, a: Activation)
    requires i < |s.tasks| && s.tasks[i] == TaskActivating(a)
    ensures TaskStep(s, i, FINE) == Activated(s, a).(tasks := s.tasks[i := ActivationNext(s, a)])
    ensures Activated(s, a).candidates == s.candidates
  {
    ActivatedEffect(s, a);
    ActivatedKeepsCandidates(s, a);
    hide Activated, NextActivation;
  }

  lemma ActivatedKeepsCandidates(s: State, a: Activation)
    ensures Activated(s, a).candidates == s.candidates
  {
  }

  /** The second task swaps the core last, but the first one sets the active index last. */
  lemma Crossed(threshold: nat, s0: State, es: seq<Event>, others: seq<Task>, i: nat, j: nat)
    returns (es': seq<Event>)
    requires Run(threshold, s0, es).tasks == others + [TaskActivating(ToSwap(i)), TaskActivating(ToSwap(j))]
    ensures
      var s, s' := Run(threshold, s0, es), Run(threshold, s0, es');
      && s'.tasks == others + [TaskActivating(ToReadLine(i)), TaskActivating(ToReadLine(j))]
      && s'.core == Via(j) && s'.active == Some(i) && s'.candidates == s.candidates
  {
    hide Run;
    assert Run(threshold, s0, es).tasks == others + [TaskActivating(ToSwap(i))] + [TaskActivating(ToSwap(j))];
    es' := ActivationMove(threshold, s0, es, others, ToSwap(i), [TaskActivating(ToSwap(j))]);
    es' := ActivationMove(threshold, s0, es', others + [TaskActivating(ToSet(i))], ToSwap(j), []);
    es' := ActivationMove(threshold, s0, es', others + [TaskActivating(ToSet(i))], ToSet(j), []);
    assert Run(threshold, s0, es').tasks == others + [TaskActivating(ToSet(i))] + [TaskActivating(ToReadLine(j))];
    es' := ActivationMove(threshold, s0, es', others, ToSet(i), [TaskActivating(ToReadLine(j))]);
  }

  /** Both tasks finish, and nothing else changes. */
  lemma BothFinish(threshold: nat, s0: State, es: seq<Event>, others: seq<Task>, i: nat, j: nat)
    returns (es': seq<Event>)
    requires Run(threshold, s0, es).tasks == others + [TaskActivating(ToReadLine(i)), TaskActivating(ToReadLine(j))]
    ensures
      var s, s' := Run(threshold, s0, es), Run(threshold, s0, es');
      && s'.tasks == others + [Finished(Some(i)), Finished(Some(j))]
      && s'.core == s.core && s'.active == s.active && s'.candidates == s.candidates
  {
    hide Run, LineAt;
    var cs := Run(threshold, s0, es).candidates;
    var atJ := [TaskActivating(ToReadLine(j))];
    assert Run(threshold, s0, es).tasks == others + [TaskActivating(ToReadLine(i))] + atJ;
    es' := ActivationMove(threshold, s0, es, others, ToReadLine(i), atJ);
    es' := ActivationMove(threshold, s0, es', others, ToPublish(i, LineAt(cs, i)), atJ);
    assert others + [Finished(Some(i))] + atJ == others + [Finished(Some(i))] + atJ + [];
    es' := ActivationMove(threshold, s0, es', others + [Finished(Some(i))], ToReadLine(j), []);
    es' := ActivationMove(threshold, s0, es', others + [Finished(Some(i))], ToPublish(j, LineAt(cs, j)), []);
  }

  /** From any state of any run, two bridges added by hand at the same time can leave the core
      running through one of them while the other one is active and health-checked, with both
      tasks finished. */
  lemma OverlapCanDisagree(threshold: nat, s0: State, es: seq<Event>, line: string, line': string)
    returns (es': seq<Event>)
    requires ExtractTransportProtocol(line).None? && ExtractTransportProtocol(line').None?
    ensures
      var s, s' := Run(threshold, s0, es), Run(threshold, s0, es');
      && s'.tasks == s.tasks + [Finished(Some(|s.candidates|)), Finished(Some(|s.candidates| + 1))]
      && s'.core == Via(|s.candidates| + 1) && s'.active == Some(|s.candidates|)
      && s'.candidates == s.candidates + [line, line'] && !Agree(s')
  {
    hide Run, ExtractTransportProtocol;
    var s := Run(threshold, s0, es);
    var n := |s.candidates|;
    es' := TaskReachesSwap(threshold, s0, es, line);
    es' := TaskReachesSwap(threshold, s0, es', line');
    assert Run(threshold, s0, es').candidates == s.candidates + [line, line'];
    assert Run(threshold, s0, es').tasks == s.tasks + [TaskActivating(ToSwap(n)), TaskActivating(ToSwap(n + 1))];
    es' := Crossed(threshold, s0, es', s.tasks, n, n + 1);
    es' := BothFinish(threshold, s0, es', s.tasks, n, n + 1);
  }

  /** Whoever is about to swap the core does. */
  lemma Swap(threshold: nat, s: State, p: Process, j: nat)
    requires Exists(s, p) && Doing(s, p) == Some(ToSwap(j))
    ensures
      var s' := Step(threshold, s, MoveOf(p));
      && Exists(s', p) && Doing(s', p) == Some(ToSet(j)) && s'.core == Via(j)
      && forall q :: q != p ==> SameDoing(s, s', q)
  {
    var e := MoveOf(p);
    ProcessesStay(threshold, s, e);
    StepSharedEffect(threshold, s, e);
    EventMoves(threshold, s, e, p);
    forall q | q != p
      ensures SameDoing(s, Step(threshold, s, e), q)
    {
      if Exists(s, q) {
        EventMoves(threshold, s, e, q);
      }
    }
    hide Step;
  }

  /** Two that are about to swap the core for different bridges can end with the core running
      through one of them and the other one active. */
  lemma TwoSwapsCanDisagree(threshold: nat, s0: State, es: seq<Event>, p: Process, i: nat, q: Process, j: nat)
    returns (es': seq<Event>)
    requires
      var s := Run(threshold, s0, es);
      && Exists(s, p) && Exists(s, q) && p != q && i != j
      && Doing(s, p) == Some(ToSwap(i)) && Doing(s, q) == Some(ToSwap(j))
    ensures
      var s' := Run(threshold, s0, es');
      InFlight(s') == 0 && s'.core == Via(j) && s'.active == Some(i) && !Agree(s')
  {
    hide Step, Doing, InFlight, Run;
    var s := Run(threshold, s0, es);
    Swap(threshold, s, p, i);
    Then(threshold, s0, es, MoveOf(p));
    var e1 := es + [MoveOf(p)];
    var s1 := Run(threshold, s0, e1);
    assert SameDoing(s, s1, q);
    Swap(threshold, s1, q, j);
    Then(threshold, s0, e1, MoveOf(q));
    var e2 := e1 + [MoveOf(q)];
    var s2 := Run(threshold, s0, e2);
    assert SameDoing(s1, s2, p);
    var more := LastPublisherDecides(threshold, s2, p);
    RunJoins(threshold, s0, e2, more);
    es' := e2 + more;
  }

  /** So can a failover of the monitor and a bridge added by hand, from any state of any run in
      which the monitor is about to swap. */
  lemma FailoverAndAdditionCanDisagree(threshold: nat, s0: State, es: seq<Event>, line: string)
    returns (es': seq<Event>)
    requires ExtractTransportProtocol(line).None?
    requires
      var s := Run(threshold, s0, es);
      s.monitor.Activating? && s.monitor.act.ToSwap? && s.monitor.act.bridge < |s.candidates|
    ensures
      var s, s' := Run(threshold, s0, es), Run(threshold, s0, es');
      && InFlight(s') == 0 && s'.core == Via(|s.candidates|) && s'.active == Some(s.monitor.act.bridge)
      && !Agree(s')
  {
    var s := Run(threshold, s0, es);
    es' := TaskReachesSwap(threshold, s0, es, line);
    hide Run, ExtractTransportProtocol, InFlight;
    es' := TwoSwapsCanDisagree(threshold, s0, es', Loop, s.monitor.act.bridge, Hand(|s.tasks|), |s.candidates|);
  }

  predicate Stage(s: State, first: string, second: string, m: Monitor) {
    && s.monitor == m && s.candidates == [first, second] && s.active == Some(0)
    && (m.Sleeping? || m.Reading? || m.Checking? || m.Judging? ==> s.failures == 0)
  }

  /** What the monitor does next does not depend on anything but the stage. */
  lemma SameStageSameMove(s: State, t: State, first: string, second: string, o: Outcome)
    requires Stage(s, first, second, s.monitor) && Stage(t, first, second, s.monitor)
    ensures MonitorStep(1, s, o).monitor == MonitorStep(1, t, o).monitor
  {
    hide Record, Activated, LineAt;
  }

  lemma Onward(s0: State, es: seq<Event>, first: string, second: string, m: Monitor, o: Outcome, m': Monitor)
    returns (es': seq<Event>)
    requires Stage(Run(1, s0, es), first, second, m) && !m.Activating? && !m.Healed?
    requires MonitorStep(1, Started([], [first, second], [], Some(0)).(monitor := m), o).monitor == m'
    requires m.Judging? ==> m'.ToScan?
    requires !m.Judging? && !m.Sleeping? && !m.Reading? && !m.Checking? ==> !(m'.Sleeping? || m'.Reading? || m'.Checking? || m'.Judging?)
    ensures Stage(Run(1, s0, es'), first, second, m')
  {
    var s := Run(1, s0, es);
    es' := es + [MonitorMoves(o)];
    Then(1, s0, es, MonitorMoves(o));
    MonitorKeepsLists(1, s, o);
    MonitorKeepsActive(1, s, o);
    MonitorCounts(1, s, o);
    SameStageSameMove(s, Started([], [first, second], [], Some(0)).(monitor := m), first, second, o);
    hide Run, MonitorStep;
  }

  const FAILED: Outcome := Outcome(false, 0, "")

  lemma MonitorReachesScan(s0: State, first: string, second: string) returns (es: seq<Event>)
    requires Stage(s0, first, second, Sleeping)
    ensures Stage(Run(1, s0, es), first, second, ToScan(0))
  {
    EmptyRun(1, s0);
    hide Run, Record, Activated;
    es := Onward(s0, [], first, second, Sleeping, FINE, Reading(0));
    es := Onward(s0, es, first, second, Reading(0), FINE, Checking(0, first));
    es := Onward(s0, es, first, second, Checking(0, first), FAILED, Judging(0, false));
    es := Onward(s0, es, first, second, Judging(0, false), FINE, ToScan(0));
  }

  lemma MonitorScans(s0: State, es: seq<Event>, first: string, second: string) returns (es': seq<Event>)
    requires Stage(Run(1, s0, es), first, second, ToScan(0))
    ensures Stage(Run(1, s0, es'), first, second, ScanFound(0, 1))
  {
    hide Run, Record, Activated;
    es' := Onward(s0, es, first, second, ToScan(0), FINE, ScanReading(0, 0, 2));
    es' := Onward(s0, es', first, second, ScanReading(0, 0, 2), FINE, ScanChecking(0, 0, 2, first));
    es' := Onward(s0, es', first, second, ScanChecking(0, 0, 2, first), FAILED, ScanReading(0, 1, 2));
    es' := Onward(s0, es', first, second, ScanReading(0, 1, 2), FINE, ScanChecking(0, 1, 2, second));
    es' := Onward(s0, es', first, second, ScanChecking(0, 1, 2, second), FINE, ScanFound(0, 1));
  }

  /** The monitor gets there: with two bridges, the active one failing a check. */
  lemma MonitorReachesSwap(s0: State, first: string, second: string) returns (es: seq<Event>)
    requires Stage(s0, first, second, Sleeping)
    ensures Stage(Run(1, s0, es), first, second, Activating(ToSwap(1)))
  {
    es := MonitorReachesScan(s0, first, second);
    es := MonitorScans(s0, es, first, second);
    hide Run, Record, Activated;
    es := Onward(s0, es, first, second, ScanFound(0, 1), FINE, Bootstrapping(1));
    es := Onward(s0, es, first, second, Bootstrapping(1), FINE, Activating(ToSwap(1)));
  }

  /** From every proper startup with two bridges through the first of them, a failover and a
      bridge added by hand next to it can end with the core running through the added one, and
      the other one active and checked. */
  lemma AdditionNextToTheLoopCanDisagree(transports: seq<TransportBinary>, first: string, second: string,
                                         reports: seq<Report>, line: string)
    returns (es: seq<Event>)
    requires ProperStart(transports, [first, second], reports, Some(0)) && ExtractTransportProtocol(line).None?
    ensures
      var s := Run(1, Started(transports, [first, second], reports, Some(0)), es);
      InFlight(s) == 0 && s.core == Via(2) && s.active == Some(1)
  {
    var s0 := Started(transports, [first, second], reports, Some(0));
    es := MonitorReachesSwap(s0, first, second);
    es := FailoverAndAdditionCanDisagree(1, s0, es, line);
  }
}
