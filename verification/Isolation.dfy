/**
 Stream isolation with rotation: the keyed cache of isolation tokens.

 The reference definition is `Mint`: it looks only at the log of calls and names, for
 every call, the earlier call that minted the token it gets. The class keeps one small
 map instead; `Valid` says that the map is exactly what the log determines.
 */
module Isolation {
  import opened Arithmetic
  import opened Wrappers

  /** Tokens are only ever compared; `TokenSupply` makes every new one different. */
  type Token = nat

  datatype RotationPolicy = RotationPolicy(maxAge: Option<nat>, maxUses: Option<U32>)

  datatype Call = Call(identity: string, now: nat)

  datatype Entry = Entry(token: Token, createdAt: nat, uses: U32)

  /** `Instant::duration_since`, which saturates at zero. */
  function Elapsed(now: nat, since: nat): nat {
    if now >= since then now - since else 0
  }

  predicate Stale(p: RotationPolicy, age: nat, uses: nat) {
    || (p.maxAge.Some? && age >= p.maxAge.value)
    || (p.maxUses.Some? && uses >= p.maxUses.value)
  }

  // ----- the reference definition, on the log of calls -----

  /** The latest call before position n made by `id`. */
  function LastCall(log: seq<Call>, n: nat, id: string): (p: Option<nat>)
    requires n <= |log|
    ensures p.Some? ==> p.value < n && log[p.value].identity == id
  {
    if n == 0 then None
    else if log[n - 1].identity == id then Some(n - 1)
    else LastCall(log, n - 1, id)
  }

  /** How many calls `id` made at positions lo..hi-1. */
  function CallsBetween(log: seq<Call>, lo: nat, hi: nat, id: string): (c: nat)
    requires lo <= hi <= |log|
    ensures c <= hi - lo
    decreases hi
  {
    if lo == hi then 0
    else CallsBetween(log, lo, hi - 1, id) + if log[hi - 1].identity == id then 1 else 0
  }

  /** The call whose token call k returns: k itself if the identity's running group of calls
      is missing or exhausted, and otherwise the call that opened that group. */
  function Mint(p: RotationPolicy, log: seq<Call>, k: nat): (m: nat)
    requires k < |log|
    ensures m <= k && log[m].identity == log[k].identity
  {
    match LastCall(log, k, log[k].identity)
    case None => k
    case Some(q) =>
      var m := Mint(p, log, q);
      if Stale(p, Elapsed(log[k].now, log[m].now), CallsBetween(log, m, k, log[k].identity)) then k else m
  }

  // ----- what the partition of the log satisfies -----

  lemma {:induction false} LastCallIsLatest(log: seq<Call>, n: nat, id: string)
    requires n <= |log|
    ensures
      var p := LastCall(log, n, id);
      forall j :: (if p.Some? then p.value + 1 else 0) <= j < n ==> log[j].identity != id
  {
    if n > 0 && log[n - 1].identity != id {
      LastCallIsLatest(log, n - 1, id);
    }
  }

  lemma {:induction false} LastCallUnique(log: seq<Call>, n: nat, id: string, p: nat)
    requires p < n <= |log| && log[p].identity == id
    requires forall j :: p < j < n ==> log[j].identity != id
    ensures LastCall(log, n, id) == Some(p)
  {
    if p < n - 1 {
      LastCallUnique(log, n - 1, id, p);
    }
  }

  lemma {:induction false} CallsSplit(log: seq<Call>, lo: nat, mid: nat, hi: nat, id: string)
    requires lo <= mid <= hi <= |log|
    ensures CallsBetween(log, lo, hi, id) == CallsBetween(log, lo, mid, id) + CallsBetween(log, mid, hi, id)
    decreases hi
  {
    if mid < hi {
      CallsSplit(log, lo, mid, hi - 1, id);
    }
  }

  lemma {:induction false} NoCalls(log: seq<Call>, lo: nat, hi: nat, id: string)
    requires lo <= hi <= |log|
    requires forall j :: lo <= j < hi ==> log[j].identity != id
    ensures CallsBetween(log, lo, hi, id) == 0
    decreases hi
  {
    if lo < hi {
      NoCalls(log, lo, hi - 1, id);
    }
  }

  /** The calls of one identity that share a token are consecutive among that identity's calls. */
  lemma {:induction false} TokenCallsAreContiguous(p: RotationPolicy, log: seq<Call>, j: nat, k: nat)
    requires j <= k < |log| && log[j].identity == log[k].identity
    requires Mint(p, log, k) <= j
    ensures Mint(p, log, j) == Mint(p, log, k)
    decreases k
  {
    if j < k {
      LastCallIsLatest(log, k, log[k].identity);
      var q := LastCall(log, k, log[k].identity).value;
      TokenCallsAreContiguous(p, log, j, q);
    }
  }

  /** A token that an identity has been rotated away from is never handed out again, to anyone. */
  lemma RetiredTokenNeverReturns(p: RotationPolicy, log: seq<Call>, i: nat, j: nat, k: nat)
    requires i < j <= k < |log|
    requires log[i].identity == log[j].identity
    requires Mint(p, log, i) != Mint(p, log, j)
    ensures Mint(p, log, k) != Mint(p, log, i)
  {
    if Mint(p, log, k) == Mint(p, log, i) {
      TokenCallsAreContiguous(p, log, j, k);
      assert false;
    }
  }

  /** Two calls of different identities never get the same token. */
  lemma TokenBelongsToOneIdentity(p: RotationPolicy, log: seq<Call>, i: nat, j: nat)
    requires i < |log| && j < |log|
    ensures Mint(p, log, i) == Mint(p, log, j) ==> log[i].identity == log[j].identity
  {
  }

  /** Between its minting call and call k, a token was handed out no more often than allowed. */
  lemma TokenUseBound(p: RotationPolicy, log: seq<Call>, k: nat)
    requires k < |log| && p.maxUses.Some?
    ensures
      var uses := CallsBetween(log, Mint(p, log, k), k + 1, log[k].identity);
      1 <= uses <= (if p.maxUses.value == 0 then 1 else p.maxUses.value)
  {
    var id, m := log[k].identity, Mint(p, log, k);
    CallsSplit(log, m, k, k + 1, id);
    assert CallsBetween(log, k, k + 1, id) == 1;
  }

  /** How many calls up to and including position k return the token minted at m. */
  function Handouts(p: RotationPolicy, log: seq<Call>, m: nat, hi: nat): (c: nat)
    requires m <= hi <= |log|
    decreases hi
  {
    if m == hi then 0
    else Handouts(p, log, m, hi - 1) + if Mint(p, log, hi - 1) == m then 1 else 0
  }

  /** Over the whole log, any token is handed out at most max(1, max_uses) times. */
  lemma {:induction false} TokenHandedOutAtMost(p: RotationPolicy, log: seq<Call>, m: nat, hi: nat)
    requires m <= hi <= |log| && p.maxUses.Some?
    ensures Handouts(p, log, m, hi) <= (if p.maxUses.value == 0 then 1 else p.maxUses.value)
    decreases hi
  {
    if m < hi {
      if Mint(p, log, hi - 1) == m {
        HandoutsAreCalls(p, log, m, hi);
        TokenUseBound(p, log, hi - 1);
      } else {
        TokenHandedOutAtMost(p, log, m, hi - 1);
      }
    }
  }

  lemma {:induction false} HandoutsAreCalls(p: RotationPolicy, log: seq<Call>, m: nat, hi: nat)
    requires m < hi <= |log|
    ensures Handouts(p, log, m, hi) <= CallsBetween(log, m, hi, log[m].identity)
    decreases hi
  {
    if m < hi - 1 {
      HandoutsAreCalls(p, log, m, hi - 1);
    }
  }

  /** Rotation happens when a bound is reached and at no other time: when the token's age at this
      call is at least `max_age`, or its uses so far are at least `max_uses`. (A clock behind the
      token's creation counts as age zero.) */
  lemma RotationExactlyAtABound(p: RotationPolicy, log: seq<Call>, j: nat, k: nat)
    requires j < k < |log| && log[j].identity == log[k].identity
    requires forall i :: j < i < k ==> log[i].identity != log[k].identity
    ensures
      var m := Mint(p, log, j);
      var aged := p.maxAge.Some? && (log[k].now >= log[m].now + p.maxAge.value || p.maxAge.value == 0);
      var used := p.maxUses.Some? && CallsBetween(log, m, j + 1, log[j].identity) >= p.maxUses.value;
      Mint(p, log, k) == if aged || used then k else m
  {
    hide Stale, Elapsed;
    var id, m := log[k].identity, Mint(p, log, j);
    LastCallUnique(log, k, id, j);
    CallsSplit(log, m, j + 1, k, id);
    NoCalls(log, j + 1, k, id);
    var uses := CallsBetween(log, m, j + 1, id);
    assert Mint(p, log, k) == if Stale(p, Elapsed(log[k].now, log[m].now), uses) then k else m;
    hide Mint, LastCall, CallsBetween;
    StaleExactly(p, log[k].now, log[m].now, uses);
  }

  lemma StaleExactly(p: RotationPolicy, now: nat, since: nat, uses: nat)
    ensures Stale(p, Elapsed(now, since), uses) <==>
      || (p.maxAge.Some? && (now >= since + p.maxAge.value || p.maxAge.value == 0))
      || (p.maxUses.Some? && uses >= p.maxUses.value)
  {
  }

  /** Over any log, every token that is handed out again is younger than `max_age`. */
  lemma ReusedTokenIsYoung(p: RotationPolicy, log: seq<Call>, k: nat)
    requires k < |log| && p.maxAge.Some? && Mint(p, log, k) != k
    ensures log[k].now < log[Mint(p, log, k)].now + p.maxAge.value
  {
  }

  /** How many tokens `id` was given at positions 0..hi-1. */
  function Mints(p: RotationPolicy, log: seq<Call>, hi: nat, id: string): (c: nat)
    requires hi <= |log|
  {
    if hi == 0 then 0
    else Mints(p, log, hi - 1, id) + if log[hi - 1].identity == id && Mint(p, log, hi - 1) == hi - 1 then 1 else 0
  }

  /** The number of uses after which a token is replaced when only uses are bounded. */
  function GroupSize(p: RotationPolicy): (m: nat)
    requires p.maxUses.Some?
    ensures m >= 1
  {
    if p.maxUses.value == 0 then 1 else p.maxUses.value
  }

  lemma GroupGrows(p: RotationPolicy, log: seq<Call>, k: nat, q: nat, id: string)
    requires q < k < |log| && log[k].identity == id && LastCall(log, k, id) == Some(q)
    ensures CallsBetween(log, Mint(p, log, q), k, id) == CallsBetween(log, Mint(p, log, q), q, id) + 1
    ensures CallsBetween(log, k, k, id) == 0
  {
    hide Mint;
    LastCallIsLatest(log, k, id);
    CallsSplit(log, Mint(p, log, q), q + 1, k, id);
    NoCalls(log, q + 1, k, id);
  }

  lemma MintsGrow(p: RotationPolicy, log: seq<Call>, k: nat, q: nat, id: string)
    requires q < k < |log| && log[k].identity == id && LastCall(log, k, id) == Some(q)
    ensures Mints(p, log, k + 1, id) == Mints(p, log, q + 1, id) + if Mint(p, log, k) == k then 1 else 0
  {
    hide Mint;
    LastCallIsLatest(log, k, id);
    NoMints(p, log, q + 1, k, id);
  }

  /** With no age bound, an identity's n-th call (from 0) gets its floor(n / m)-th token,
      where m is max(1, max_uses). */
  lemma {:induction false} GenerationIsQuotient(p: RotationPolicy, log: seq<Call>, k: nat)
    requires k < |log| && p.maxAge.None? && p.maxUses.Some?
    ensures
      var id, n := log[k].identity, CallsBetween(log, 0, k, log[k].identity);
      && Mints(p, log, k + 1, id) == n / GroupSize(p) + 1
      && CallsBetween(log, Mint(p, log, k), k, id) == n % GroupSize(p)
  {
    var id, size := log[k].identity, GroupSize(p);
    match LastCall(log, k, id)
    case None =>
      LastCallIsLatest(log, k, id);
      NoCalls(log, 0, k, id);
      NoMints(p, log, 0, k, id);
      QuotientUnique(0, size, 0, 0);
    case Some(q) =>
      hide Mint, Mints, LastCall, CallsBetween;
      GenerationIsQuotient(p, log, q);
      NextMint(p, log, k, q);
      OwnPlace(log, id, q, k);
      GroupGrows(p, log, k, q, id);
      MintsGrow(p, log, k, q, id);
      QuotientStep(CallsBetween(log, 0, q, id), size);
  }

  lemma LaterPlace(log: seq<Call>, id: string, a: nat, b: nat)
    requires a < b < |log| && log[a].identity == id
    ensures CallsBetween(log, 0, a, id) < CallsBetween(log, 0, b, id)
  {
    CallsSplit(log, 0, a, b, id);
    CallsSplit(log, a, a + 1, b, id);
    assert CallsBetween(log, a, a, id) == 0;
  }

  lemma MintPlace(p: RotationPolicy, log: seq<Call>, k: nat, id: string)
    requires k < |log| && log[k].identity == id && p.maxAge.None? && p.maxUses.Some?
    ensures CallsBetween(log, 0, Mint(p, log, k), id)
            == CallsBetween(log, 0, k, id) - CallsBetween(log, 0, k, id) % GroupSize(p)
  {
    var m := Mint(p, log, k);
    hide Mint, CallsBetween, GroupSize;
    GenerationIsQuotient(p, log, k);
    CallsSplit(log, 0, m, k, id);
  }

  /** With no age bound, two calls of one identity get the same token exactly if their numbers
      fall into the same group of max(1, max_uses). */
  lemma SameTokenIsSameGroup(p: RotationPolicy, log: seq<Call>, i: nat, j: nat)
    requires i < |log| && j < |log| && log[i].identity == log[j].identity && p.maxAge.None? && p.maxUses.Some?
    ensures
      var id, size := log[i].identity, GroupSize(p);
      Mint(p, log, i) == Mint(p, log, j)
      <==> CallsBetween(log, 0, i, id) / size == CallsBetween(log, 0, j, id) / size
  {
    var id, a, b := log[i].identity, Mint(p, log, i), Mint(p, log, j);
    assert log[a].identity == id && log[b].identity == id;
    hide Mint, CallsBetween, GroupSize;
    MintPlace(p, log, i, id);
    MintPlace(p, log, j, id);
    SameQuotient(CallsBetween(log, 0, i, id), CallsBetween(log, 0, j, id), GroupSize(p));
    if a < b {
      LaterPlace(log, id, a, b);
    } else if b < a {
      LaterPlace(log, id, b, a);
    }
  }

  lemma {:induction false} NoMints(p: RotationPolicy, log: seq<Call>, lo: nat, hi: nat, id: string)
    requires lo <= hi <= |log|
    requires forall j :: lo <= j < hi ==> log[j].identity != id
    ensures Mints(p, log, hi, id) == Mints(p, log, lo, id)
    decreases hi
  {
    if lo < hi {
      NoMints(p, log, lo, hi - 1, id);
    }
  }

  /** The log grows only at its end, so what was decided about earlier calls stays decided. */
  lemma {:induction false} EarlierCallsKeepTheirToken(p: RotationPolicy, log: seq<Call>, more: seq<Call>, k: nat)
    requires k < |log|
    ensures Mint(p, log + more, k) == Mint(p, log, k)
  {
    var id := log[k].identity;
    LastCallInPrefix(log, more, k, id);
    match LastCall(log, k, id)
    case None =>
    case Some(q) =>
      EarlierCallsKeepTheirToken(p, log, more, q);
      CallsInPrefix(log, more, Mint(p, log, q), k, id);
  }

  lemma {:induction false} LastCallInPrefix(log: seq<Call>, more: seq<Call>, n: nat, id: string)
    requires n <= |log|
    ensures LastCall(log + more, n, id) == LastCall(log, n, id)
  {
    if n > 0 {
      LastCallInPrefix(log, more, n - 1, id);
    }
  }

  lemma {:induction false} CallsInPrefix(log: seq<Call>, more: seq<Call>, lo: nat, hi: nat, id: string)
    requires lo <= hi <= |log|
    ensures CallsBetween(log + more, lo, hi, id) == CallsBetween(log, lo, hi, id)
    decreases hi
  {
    if lo < hi {
      CallsInPrefix(log, more, lo, hi - 1, id);
    }
  }

  // ----- an identity's tokens do not depend on what other identities do -----

  /** The calls of one identity, in order. */
  function Only(log: seq<Call>, id: string): (own: seq<Call>)
    ensures |own| == CallsBetween(log, 0, |log|, id)
    ensures forall i :: 0 <= i < |own| ==> own[i].identity == id
  {
    if log == [] then []
    else
      var rest := log[..|log| - 1];
      CallsInPrefix(rest, log[|log| - 1..], 0, |rest|, id);
      assert rest + log[|log| - 1..] == log;
      if log[|log| - 1].identity == id then Only(rest, id) + [log[|log| - 1]] else Only(rest, id)
  }

  lemma {:induction false} OnlyAt(log: seq<Call>, id: string, k: nat)
    requires k < |log| && log[k].identity == id
    ensures CallsBetween(log, 0, k, id) < |Only(log, id)|
    ensures Only(log, id)[CallsBetween(log, 0, k, id)] == log[k]
  {
    var rest, tail := log[..|log| - 1], log[|log| - 1..];
    assert rest + tail == log;
    CallsInPrefix(rest, tail, 0, |rest|, id);
    if k < |rest| {
      OnlyAt(rest, id, k);
      CallsInPrefix(rest, tail, 0, k, id);
    }
  }

  lemma {:induction false} OwnCallsAreAllCalls(own: seq<Call>, id: string, lo: nat, hi: nat)
    requires lo <= hi <= |own|
    requires forall i :: 0 <= i < |own| ==> own[i].identity == id
    ensures CallsBetween(own, lo, hi, id) == hi - lo
    decreases hi
  {
    if lo < hi {
      OwnCallsAreAllCalls(own, id, lo, hi - 1);
    }
  }

  /** One more call of an identity that makes all the calls. */
  lemma OwnMint(p: RotationPolicy, own: seq<Call>, id: string, n: nat)
    requires 1 <= n < |own| && forall i :: 0 <= i < |own| ==> own[i].identity == id
    ensures
      var m := Mint(p, own, n - 1);
      Mint(p, own, n) == if Stale(p, Elapsed(own[n].now, own[m].now), n - m) then n else m
  {
    LastCallUnique(own, n, id, n - 1);
    OwnCallsAreAllCalls(own, id, Mint(p, own, n - 1), n);
    hide LastCall, CallsBetween, Stale, Elapsed;
  }

  /** What its own log knows about one of an identity's calls. */
  lemma OwnPlace(log: seq<Call>, id: string, q: nat, k: nat)
    requires q < k < |log| && log[k].identity == id && LastCall(log, k, id) == Some(q)
    ensures CallsBetween(log, 0, k, id) == CallsBetween(log, 0, q, id) + 1
  {
    LastCallIsLatest(log, k, id);
    CallsSplit(log, 0, q + 1, k, id);
    NoCalls(log, q + 1, k, id);
  }

  lemma NextMint(p: RotationPolicy, log: seq<Call>, k: nat, q: nat)
    requires q < k < |log| && LastCall(log, k, log[k].identity) == Some(q)
    ensures
      var m := Mint(p, log, q);
      Mint(p, log, k)
      == if Stale(p, Elapsed(log[k].now, log[m].now), CallsBetween(log, m, k, log[k].identity)) then k else m
  {
  }

  /** The grouping of call `k`, the n-th of its identity, from that of the call `q` before it:
      `m` opened the group of `q`, and is the m'-th call of the identity. */
  lemma OwnGrouping(p: RotationPolicy, log: seq<Call>, id: string, own: seq<Call>, k: nat, q: nat, n: nat, m: nat, m': nat)
    requires m <= q < k < |log| && log[k].identity == id && LastCall(log, k, id) == Some(q) && Mint(p, log, q) == m
    requires CallsBetween(log, 0, k, id) == n && CallsBetween(log, 0, m, id) == m'
    requires 1 <= n < |own| && m' < |own| && forall i :: 0 <= i < |own| ==> own[i].identity == id
    requires own[n] == log[k] && own[m'] == log[m] && Mint(p, own, n - 1) == m'
    ensures Mint(p, own, n) == CallsBetween(log, 0, Mint(p, log, k), id)
  {
    OwnMint(p, own, id, n);
    hide Mint, LastCall, CallsBetween, Stale, Elapsed;
    CallsSplit(log, 0, m, k, id);
    NextMint(p, log, k, q);
  }

  /** Deleting every other identity's calls from the log leaves the way an identity's own
      calls share tokens exactly as it was. */
  lemma {:induction false} OtherIdentitiesDoNotMatter(p: RotationPolicy, log: seq<Call>, k: nat)
    requires k < |log|
    ensures
      var id, own := log[k].identity, Only(log, log[k].identity);
      && CallsBetween(log, 0, k, id) < |own|
      && Mint(p, own, CallsBetween(log, 0, k, id)) == CallsBetween(log, 0, Mint(p, log, k), id)
  {
    hide CallsBetween, Stale;
    var id := log[k].identity;
    var own, n := Only(log, id), CallsBetween(log, 0, k, id);
    assert forall i :: 0 <= i < |own| ==> own[i].identity == id;
    hide Only;
    OnlyAt(log, id, k);
    match LastCall(log, k, id)
    case None =>
      LastCallIsLatest(log, k, id);
      NoCalls(log, 0, k, id);
    case Some(q) =>
      var m := Mint(p, log, q);
      assert m <= q && log[m].identity == id;
      hide Mint, LastCall;
      OtherIdentitiesDoNotMatter(p, log, q);
      OwnPlace(log, id, q, k);
      OnlyAt(log, id, m);
      OwnGrouping(p, log, id, own, k, q, n, m, CallsBetween(log, 0, m, id));
  }

  // ----- the cache itself -----

  class TokenSupply {
    var next: nat

    constructor ()
      ensures next == 0
    {
      next := 0;
    }

    /** A token that nobody has been given before. */
    method Fresh() returns (t: Token)
      modifies this
      ensures t == old(next) && next == old(next) + 1
    {
      t := next;
      next := next + 1;
    }
  }

  ghost predicate TokensAgree(p: RotationPolicy, log: seq<Call>, issued: seq<Token>) {
    && |issued| == |log|
    && forall i, j :: 0 <= i < |log| && 0 <= j < |log| ==>
         (issued[i] == issued[j] <==> Mint(p, log, i) == Mint(p, log, j))
  }

  /** The map that the log of calls and the issued tokens determine: tokens agree exactly
      when their minting calls do, and every identity that ever called has an entry
      describing its latest group. */
  ghost predicate Consistent(p: RotationPolicy, log: seq<Call>, issued: seq<Token>, tokens: map<string, Entry>) {
    && TokensAgree(p, log, issued)
    && forall id :: Describes(p, log, issued, id, Lookup(tokens, id))
  }

  ghost function LatestMint(p: RotationPolicy, log: seq<Call>, id: string): (m: nat)
    requires LastCall(log, |log|, id).Some?
    ensures m < |log| && log[m].identity == id
  {
    Mint(p, log, LastCall(log, |log|, id).value)
  }

  ghost function LatestEntry(p: RotationPolicy, log: seq<Call>, issued: seq<Token>, id: string): Entry
    requires |issued| == |log| && LastCall(log, |log|, id).Some?
  {
    var m := LatestMint(p, log, id);
    Entry(issued[m], log[m].now, CallsBetween(log, m, |log|, id) % U32_MODULUS)
  }

  /** The use counter is a u32 that wraps; where it takes part in a decision it never does. */
  lemma StoredUsesDecideStaleness(p: RotationPolicy, log: seq<Call>, id: string, now: nat)
    requires LastCall(log, |log|, id).Some?
    ensures
      var m := LatestMint(p, log, id);
      var uses := CallsBetween(log, m, |log|, id);
      && Stale(p, Elapsed(now, log[m].now), uses % U32_MODULUS) == Stale(p, Elapsed(now, log[m].now), uses)
      && (p.maxUses.Some? ==> uses < 0x1_0000_0000)
  {
    var q, m := LastCall(log, |log|, id).value, LatestMint(p, log, id);
    if p.maxUses.Some? {
      LastCallIsLatest(log, |log|, id);
      TokenUseBound(p, log, q);
      CallsSplit(log, m, q + 1, |log|, id);
      NoCalls(log, q + 1, |log|, id);
    }
  }

  function Lookup(tokens: map<string, Entry>, id: string): Option<Entry> {
    if id in tokens then Some(tokens[id]) else None
  }

  /** What a call at time `now` makes of its identity's entry. */
  function Touched(p: RotationPolicy, prior: Option<Entry>, now: nat, unused: Token): Entry {
    match prior
    case Some(e) =>
      if Stale(p, Elapsed(now, e.createdAt), e.uses) then Entry(unused, now, 1)
      else Entry(e.token, e.createdAt, (e.uses + 1) % U32_MODULUS)
    case None => Entry(unused, now, 1)
  }

  ghost predicate Describes(p: RotationPolicy, log: seq<Call>, issued: seq<Token>, id: string, e: Option<Entry>)
    requires |issued| == |log|
  {
    match LastCall(log, |log|, id)
    case None => e.None?
    case Some(q) => e == Some(LatestEntry(p, log, issued, id))
  }

  lemma LatestMintAfter(p: RotationPolicy, log: seq<Call>, c: Call)
    ensures LastCall(log + [c], |log| + 1, c.identity) == Some(|log|)
    ensures LatestMint(p, log + [c], c.identity) == Mint(p, log + [c], |log|)
  {
    LastCallAfter(log, c, c.identity);
    hide Mint;
  }

  /** A call that opens a group of its own. */
  lemma GroupOpened(p: RotationPolicy, log: seq<Call>, issued: seq<Token>, c: Call, unused: Token)
    requires |issued| == |log| && Mint(p, log + [c], |log|) == |log|
    ensures Describes(p, log + [c], issued + [unused], c.identity, Some(Entry(unused, c.now, 1)))
  {
    LatestMintAfter(p, log, c);
    CallsAfter(log, c, |log|, c.identity);
    assert CallsBetween(log, |log|, |log|, c.identity) == 0;
    hide Mint, LastCall, CallsBetween;
  }

  /** A call that joins the latest group of its identity. */
  lemma GroupJoined(p: RotationPolicy, log: seq<Call>, issued: seq<Token>, e: Entry, c: Call)
    requires |issued| == |log| && LastCall(log, |log|, c.identity).Some? && e == LatestEntry(p, log, issued, c.identity)
    requires Mint(p, log + [c], |log|) == LatestMint(p, log, c.identity)
    ensures Describes(p, log + [c], issued + [e.token], c.identity, Some(e.(uses := (e.uses + 1) % U32_MODULUS)))
  {
    var m := LatestMint(p, log, c.identity);
    LatestMintAfter(p, log, c);
    CallsAfter(log, c, m, c.identity);
    NextModulo(CallsBetween(log, m, |log|, c.identity), U32_MODULUS);
    hide Mint, LastCall, CallsBetween, LatestMint;
  }

  /** The caller gets the token its minting call names, and its entry describes that group. */
  lemma CallerEntry(p: RotationPolicy, log: seq<Call>, issued: seq<Token>, prior: Option<Entry>, c: Call, unused: Token)
    requires |issued| == |log| && Describes(p, log, issued, c.identity, prior)
    ensures
      var m, e := Mint(p, log + [c], |log|), Touched(p, prior, c.now, unused);
      && e.token == (if m == |log| then unused else issued[m])
      && Describes(p, log + [c], issued + [e.token], c.identity, Some(e))
  {
    MintAfter(p, log, c);
    if prior.Some? {
      StoredUsesDecideStaleness(p, log, c.identity, c.now);
    }
    hide Mint, LastCall, CallsBetween, Stale, Elapsed;
    if Mint(p, log + [c], |log|) == |log| {
      GroupOpened(p, log, issued, c, unused);
    } else {
      GroupJoined(p, log, issued, prior.value, c);
    }
    hide Describes;
  }

  /** Everybody else's entry still describes their group. */
  lemma OtherEntry(p: RotationPolicy, log: seq<Call>, issued: seq<Token>, c: Call, t: Token, id: string, e: Option<Entry>)
    requires |issued| == |log| && id != c.identity && Describes(p, log, issued, id, e)
    ensures Describes(p, log + [c], issued + [t], id, e)
  {
    LastCallAfter(log, c, id);
    if e.Some? {
      EarlierCallsKeepTheirToken(p, log, [c], LastCall(log, |log|, id).value);
      CallsAfter(log, c, LatestMint(p, log, id), id);
    }
  }

  /** Tokens still agree exactly when minting calls do. */
  lemma AgreementStep(p: RotationPolicy, log: seq<Call>, issued: seq<Token>, c: Call, unused: Token, t: Token)
    requires TokensAgree(p, log, issued)
    requires forall i :: 0 <= i < |issued| ==> issued[i] != unused
    requires var m := Mint(p, log + [c], |log|); t == if m == |log| then unused else issued[m]
    ensures TokensAgree(p, log + [c], issued + [t])
  {
    var log', issued', n := log + [c], issued + [t], |log|;
    var m := Mint(p, log', n);
    MintIsFixed(p, log', n);
    forall i | 0 <= i < n
      ensures Mint(p, log', i) == Mint(p, log, i)
    {
      EarlierCallsKeepTheirToken(p, log, [c], i);
    }
  }

  /** A call keeps the map consistent with the longer log. */
  lemma ConsistencyStep(p: RotationPolicy, log: seq<Call>, issued: seq<Token>, tokens: map<string, Entry>,
                        c: Call, unused: Token)
    requires Consistent(p, log, issued, tokens)
    requires forall i :: 0 <= i < |issued| ==> issued[i] != unused
    ensures
      var e := Touched(p, Lookup(tokens, c.identity), c.now, unused);
      var m := Mint(p, log + [c], |log|);
      && Consistent(p, log + [c], issued + [e.token], tokens[c.identity := e])
      && e.token == if m == |log| then unused else issued[m]
  {
    var prior := Lookup(tokens, c.identity);
    var e := Touched(p, prior, c.now, unused);
    CallerEntry(p, log, issued, prior, c, unused);
    AgreementStep(p, log, issued, c, unused, e.token);
    var log', issued', tokens' := log + [c], issued + [e.token], tokens[c.identity := e];
    forall id
      ensures Describes(p, log', issued', id, Lookup(tokens', id))
    {
      if id != c.identity {
        OtherEntry(p, log, issued, c, e.token, id, Lookup(tokens, id));
      }
    }
  }

  /** The minting call of a group is its own minting call. */
  lemma {:induction false} MintIsFixed(p: RotationPolicy, log: seq<Call>, k: nat)
    requires k < |log|
    ensures Mint(p, log, Mint(p, log, k)) == Mint(p, log, k)
  {
    TokenCallsAreContiguous(p, log, Mint(p, log, k), k);
  }

  class IsolationPolicy {
    const rotation: RotationPolicy
    var tokens: map<string, Entry>
    ghost var log: seq<Call>
    ghost var issued: seq<Token>

    ghost predicate Valid()
      reads this
    {
      Consistent(rotation, log, issued, tokens)
    }

    ghost predicate Below(bound: nat)
      reads this
    {
      forall i :: 0 <= i < |issued| ==> issued[i] < bound
    }

    constructor (rotation: RotationPolicy)
      ensures Valid() && this.rotation == rotation && log == [] && issued == []
    {
      this.rotation := rotation;
      tokens, log, issued := map[], [], [];
    }

    method TokenFor(supply: TokenSupply, identity: string, now: nat) returns (token: Token)
      requires Valid() && Below(supply.next)
      modifies this`tokens, this`log, this`issued, supply
      ensures Valid() && Below(supply.next) && old(supply.next) <= supply.next
      ensures log == old(log) + [Call(identity, now)] && issued == old(issued) + [token]
      ensures
        var m := Mint(rotation, log, |old(log)|);
        token == if m == |old(log)| then old(supply.next) else old(issued)[m]
    {
      var stale := && identity in tokens
                   && Stale(rotation, Elapsed(now, tokens[identity].createdAt), tokens[identity].uses);
      if stale {
        tokens := tokens - {identity};
      }
      if identity !in tokens {
        var t := supply.Fresh();
        tokens := tokens[identity := Entry(t, now, 0)];
      }
      var entry := tokens[identity];
      entry := entry.(uses := (entry.uses + 1) % U32_MODULUS);
      tokens := tokens[identity := entry];
      token := entry.token;

      ghost var c := Call(identity, now);
      assert entry == Touched(rotation, Lookup(old(tokens), identity), now, old(supply.next));
      assert tokens == old(tokens)[identity := entry];
      ConsistencyStep(rotation, log, issued, old(tokens), c, old(supply.next));
      log, issued := log + [Call(identity, now)], issued + [token];
    }

    /** The use counts and ages shown for every tracked identity. */
    method Snapshot(now: nat) returns (view: map<string, (U32, nat)>)
      requires Valid()
      ensures forall id :: id in view <==> exists c :: c in log && c.identity == id
      ensures forall id :: id in view ==>
        && LastCall(log, |log|, id).Some?
        && var m := LatestMint(rotation, log, id);
           view[id] == (CallsBetween(log, m, |log|, id) % 0x1_0000_0000,
                       if now < log[m].now then 0 else now - log[m].now)
    {
      view := map id | id in tokens :: (tokens[id].uses, Elapsed(now, tokens[id].createdAt));
      forall id
        ensures id in view <==> LastCall(log, |log|, id).Some?
        ensures id in view ==>
          var m := LatestMint(rotation, log, id);
          view[id] == (CallsBetween(log, m, |log|, id) % U32_MODULUS, Elapsed(now, log[m].now))
        ensures id in view <==> exists c :: c in log && c.identity == id
      {
        assert Describes(rotation, log, issued, id, Lookup(tokens, id));
        LastCallIsLatest(log, |log|, id);
        if id in view {
          assert log[LastCall(log, |log|, id).value] in log;
        }
      }
    }
  }

  // ----- one more call at the end of the log -----

  lemma LastCallAfter(log: seq<Call>, c: Call, id: string)
    ensures LastCall(log + [c], |log| + 1, id)
            == if id == c.identity then Some(|log|) else LastCall(log, |log|, id)
  {
    LastCallInPrefix(log, [c], |log|, id);
    assert (log + [c])[|log|] == c;
  }

  lemma CallsAfter(log: seq<Call>, c: Call, lo: nat, id: string)
    requires lo <= |log|
    ensures CallsBetween(log + [c], lo, |log| + 1, id)
            == CallsBetween(log, lo, |log|, id) + if id == c.identity then 1 else 0
  {
    CallsInPrefix(log, [c], lo, |log|, id);
    assert (log + [c])[|log|] == c;
  }

  lemma MintAfter(p: RotationPolicy, log: seq<Call>, c: Call)
    ensures Mint(p, log + [c], |log|) ==
      match LastCall(log, |log|, c.identity)
      case None => |log|
      case Some(q) =>
        var m := Mint(p, log, q);
        if Stale(p, Elapsed(c.now, log[m].now), CallsBetween(log, m, |log|, c.identity)) then |log| else m
  {
    LastCallInPrefix(log, [c], |log|, c.identity);
    match LastCall(log, |log|, c.identity)
    case None =>
    case Some(q) =>
      EarlierCallsKeepTheirToken(p, log, [c], q);
      CallsInPrefix(log, [c], Mint(p, log, q), |log|, c.identity);
  }
}
