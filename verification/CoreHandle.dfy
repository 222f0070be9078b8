/**
 The hot-swappable client handle. Every client carries its own isolation policy; all of
 them draw tokens from one process-wide supply. `cores` remembers every client that was
 ever installed, because callers may still be holding one that has been replaced.
 */
module CoreHandles {
  import opened Isolation

  predicate NoSharedToken(a: seq<Token>, b: seq<Token>) {
    forall i, j :: 0 <= i < |a| && 0 <= j < |b| ==> a[i] != b[j]
  }

  class CoreHandle {
    const supply: TokenSupply
    var inner: IsolationPolicy
    ghost var cores: seq<IsolationPolicy>

    ghost predicate Valid()
      reads this, supply, cores
    {
      && |cores| > 0 && inner == cores[|cores| - 1]
      && (forall i, j :: 0 <= i < j < |cores| ==> cores[i] != cores[j])
      && (forall i :: 0 <= i < |cores| ==> cores[i].Valid() && cores[i].Below(supply.next))
      && (forall i, j :: 0 <= i < j < |cores| ==> NoSharedToken(cores[i].issued, cores[j].issued))
    }

    constructor (core: IsolationPolicy, supply: TokenSupply)
      requires core.Valid() && core.log == []
      ensures Valid() && this.supply == supply && inner == core && cores == [core]
    {
      this.supply := supply;
      inner, cores := core, [core];
    }

    /** The client to use for one connection. */
    method Current() returns (core: IsolationPolicy)
      requires Valid()
      ensures core == inner && core in cores
    {
      core := inner;
    }

    /** Swaps in a freshly bootstrapped client; nothing about the earlier ones changes. */
    method Replace(newCore: IsolationPolicy)
      requires Valid() && newCore.Valid() && newCore.log == [] && newCore !in cores
      modifies this`inner, this`cores
      ensures Valid() && inner == newCore && cores == old(cores) + [newCore]
    {
      inner := newCore;
      cores := cores + [newCore];
    }

    /** A caller that obtained `core` earlier, perhaps before several swaps, opens a stream
        through it. Only that client's history moves, and no token of any other client, at
        any time before or after a swap, can equal the one handed out. */
    method ConnectIsolated(core: IsolationPolicy, identity: string, now: nat) returns (token: Token)
      requires Valid() && core in cores
      modifies core`tokens, core`log, core`issued, supply
      ensures Valid() && inner == old(inner) && cores == old(cores)
      ensures core.log == old(core.log) + [Call(identity, now)] && core.issued == old(core.issued) + [token]
      ensures forall c :: c in cores && c != core ==> unchanged(c) && token !in c.issued
    {
      hide LastCall, CallsBetween, Stale, Elapsed, Describes;
      token := core.TokenFor(supply, identity, now);
      forall i, j | 0 <= i < j < |cores|
        ensures NoSharedToken(cores[i].issued, cores[j].issued)
      {
        assert old(NoSharedToken(cores[i].issued, cores[j].issued));
      }
    }
  }
}
