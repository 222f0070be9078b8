/**
 The supervised tor process, as the handle the supervisor keeps on it. What tor prints, and
 how much of it before the time limit, are parameters.
 */
module Supervisor {

  const READY: string := "Bootstrapped 100%"

  datatype Printed = Line(text: string) | Unreadable

  /** One attempt: whether the directory and torrc can be written and the process spawned, what
      it prints before it exits, and how many of these lines come within the time limit. */
  datatype Launch = Launch(writes: bool, spawns: bool, output: seq<Printed>, inTime: nat) {

    /** The line that `start` waits for comes in time, and every line before it is readable. */
    predicate Bootstraps() {
      writes && spawns && exists k :: 0 <= k < |output| && IsReadyAt(k)
    }

    predicate IsReadyAt(k: nat)
      requires k < |output|
    {
      k < inTime && Announces(output[k]) && forall i :: 0 <= i < k ==> output[i].Line?
    }
  }

  predicate OccursAt(s: string, part: string, i: nat) {
    i + |part| <= |s| && s[i..i + |part|] == part
  }

  predicate Announces(o: Printed) {
    o.Line? && exists i :: 0 <= i <= |o.text| && OccursAt(o.text, READY, i)
  }

  class TorSupervisor {
    var child: bool

    constructor ()
      ensures !child
    {
      child := false;
    }

    /** Refuses when a child is already there. Otherwise reads tor's output up to the line that
        says it is ready; a tor that exits, cannot be read or takes too long is killed. */
    method Start(tor: Launch) returns (ok: bool)
      modifies this
      ensures ok == (!old(child) && tor.Bootstraps()) && child == (old(child) || tor.Bootstraps())
    {
      if child {
        return false;
      }
      if !tor.writes || !tor.spawns {
        return false;
      }
      for i := 0 to |tor.output|
        invariant !child
        invariant forall k :: 0 <= k < i ==> k < tor.inTime && tor.output[k].Line? && !Announces(tor.output[k])
      {
        if i >= tor.inTime || tor.output[i].Unreadable? {
          return false;
        }
        if Announces(tor.output[i]) {
          assert tor.IsReadyAt(i);
          child := true;
          return true;
        }
      }
      return false;
    }

    method Stop()
      modifies this
      ensures !child
    {
      child := false;
    }
  }

  /** A line is the awaited one if and only if "Bootstrapped 100%" occurs in it, anywhere. */
  lemma ReadyExactly(text: string)
    ensures Announces(Line(text)) <==> exists a: string, b: string :: text == a + "Bootstrapped 100%" + b
    ensures !Announces(Unreadable)
  {
    if Announces(Line(text)) {
      var i :| 0 <= i <= |text| && OccursAt(text, READY, i);
      assert text == text[..i] + READY + text[i + |READY|..];
    }
    if a: string, b: string :| text == a + "Bootstrapped 100%" + b {
      assert OccursAt(text, READY, |a|);
    }
  }
}
