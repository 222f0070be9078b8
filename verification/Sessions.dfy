/**
 SOCKS sessions and the tokens their streams are opened with: the front end's isolation key
 is the identity under which the client handle looks up a token.
 */
module Sessions {
  import opened Bytes
  import opened Wrappers
  import opened Isolation
  import opened CoreHandles
  import opened Socks
  import opened SocksProofs

  /** A session and the token it connects with, if it gets that far. */
  method Serve(client: Client, env: Env, handle: CoreHandle, now: nat)
    returns (r: Result<Target, Error>, token: Option<Token>)
    requires handle.Valid()
    modifies client, handle.inner`tokens, handle.inner`log, handle.inner`issued, handle.supply
    ensures handle.Valid() && handle.inner == old(handle.inner) && handle.cores == old(handle.cores)
    ensures
      var s := Session(old(client.View()), env);
      && client.View() == s.wire && r == s.r && (token.Some? <==> s.attempted.Some?)
      && handle.inner.log ==
         old(handle.inner.log) + (if s.attempted.Some? then [Call(s.attempted.value.identity, now)] else [])
      && handle.inner.issued == old(handle.inner.issued) + (if token.Some? then [token.value] else [])
  {
    var attempted;
    r, attempted := HandleConn(client, env);
    if attempted.None? {
      return r, None;
    }
    var core := handle.Current();
    var t := handle.ConnectIsolated(core, attempted.value.identity, now);
    token := Some(t);
  }

  /** Two sessions' streams are opened with the same token exactly if they went through the same
      client, by the same user (no credentials, the empty username and "default" being one),
      and the same call of that user minted it. So users are never mixed, and never across a
      swap of the client; one user's sessions are kept together up to rotation. */
  lemma SessionsShareATokenExactly(handle: CoreHandle, utf8: seq<Byte> -> Option<string>,
                                   h: Hello, a: nat, i: nat, h': Hello, b: nat, j: nat)
    requires handle.Valid() && WellFormed(h, utf8) && WellFormed(h', utf8)
    requires a < |handle.cores| && i < |handle.cores[a].log| && handle.cores[a].log[i].identity == Identity(h, utf8)
    requires b < |handle.cores| && j < |handle.cores[b].log| && handle.cores[b].log[j].identity == Identity(h', utf8)
    ensures |handle.cores[a].issued| == |handle.cores[a].log| && |handle.cores[b].issued| == |handle.cores[b].log|
    ensures handle.cores[a].issued[i] == handle.cores[b].issued[j] <==>
      && a == b && SameUser(Username(h, utf8), Username(h', utf8))
      && Mint(handle.cores[a].rotation, handle.cores[a].log, i) == Mint(handle.cores[a].rotation, handle.cores[a].log, j)
  {
    var c, c' := handle.cores[a], handle.cores[b];
    assert c.Valid() && c'.Valid();
    SameBucketExactly(h, h', utf8);
    if a == b {
      TokenBelongsToOneIdentity(c.rotation, c.log, i, j);
      hide Mint;
    } else if a < b {
      assert NoSharedToken(c.issued, c'.issued);
    } else {
      assert NoSharedToken(c'.issued, c.issued);
    }
  }

  /** With a bound on uses alone, this can be counted: the same client, the same user, and
      connections of that user whose numbers fall into the same group of max(1, max_uses). */
  lemma SessionsShareATokenByCount(handle: CoreHandle, utf8: seq<Byte> -> Option<string>,
                                   h: Hello, a: nat, i: nat, h': Hello, b: nat, j: nat)
    requires handle.Valid() && WellFormed(h, utf8) && WellFormed(h', utf8)
    requires a < |handle.cores| && i < |handle.cores[a].log| && handle.cores[a].log[i].identity == Identity(h, utf8)
    requires b < |handle.cores| && j < |handle.cores[b].log| && handle.cores[b].log[j].identity == Identity(h', utf8)
    requires handle.cores[a].rotation.maxAge.None? && handle.cores[a].rotation.maxUses.Some?
    ensures |handle.cores[a].issued| == |handle.cores[a].log| && |handle.cores[b].issued| == |handle.cores[b].log|
    ensures handle.cores[a].issued[i] == handle.cores[b].issued[j] <==>
      && a == b && SameUser(Username(h, utf8), Username(h', utf8))
      && (var log, id, size := handle.cores[a].log, Identity(h, utf8), GroupSize(handle.cores[a].rotation);
          CallsBetween(log, 0, i, id) / size == CallsBetween(log, 0, j, id) / size)
  {
    SessionsShareATokenExactly(handle, utf8, h, a, i, h', b, j);
    SameBucketExactly(h, h', utf8);
    var c := handle.cores[a];
    if a == b && c.log[i].identity == c.log[j].identity {
      SameTokenIsSameGroup(c.rotation, c.log, i, j);
    }
    hide Mint, CallsBetween, Identity;
  }

  /** A client without credentials, one with an empty username and one that calls itself
      "default" have three different greetings and one isolation key. */
  lemma ThreeClientsOneBucket(utf8: seq<Byte> -> Option<string>)
    requires utf8([]) == Some("") && utf8([100, 101, 102, 97, 117, 108, 116]) == Some("default")
    ensures
      var dest := IPv4([10, 0, 0, 1]);
      var h := Hello([0], None, 0, dest, 443);
      var h' := Hello([2], Some(([], [])), 0, dest, 443);
      var h'' := Hello([2], Some(([100, 101, 102, 97, 117, 108, 116], [])), 0, dest, 443);
      && WellFormed(h, utf8) && WellFormed(h', utf8) && WellFormed(h'', utf8)
      && Identity(h, utf8) == Identity(h', utf8) == Identity(h'', utf8)
  {
  }
}
