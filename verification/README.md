# Proofs about the anonymization orchestrator

A Dafny model of the hand-written protocols and state machines around Tor, and proofs of
what they promise. `dafny verify dfyconfig.toml` checks all of it.

- **Bridge failover.** `Coordinator.dfy` is the monitor loop and any number of
  `try_add_bridge` tasks as one transition system: every lock region, telemetry update and
  core swap is a step, and checks, configurations and bootstraps come out as the scheduler
  says. `CoordinatorInvariants.dfy` and `Activations.dfy` prove what every interleaving keeps,
  `Overlaps.dfy` when activations that overlap end in agreement.
  `Failover.dfy` gives the undisturbed loop round by round and proves the machine does the
  same when left alone; `BridgeCoordinator.dfy` is the loop as the program has it.
  `BridgeManager.dfy` and `Telemetry.dfy` are the candidate pool and the published table.
- **Stream isolation.** `Isolation.dfy` defines which token every call gets from the log of
  calls alone, and proves that the small mutable map computes it. `CoreHandle.dfy` extends
  this over client swaps, `Sessions.dfy` to the sessions that use it.
- **DNS shim.** `Dns.dfy` is the parser, the printer and the reply choice, `DnsDecoder.dfy` a
  decoder written from sections 4.1.1 to 4.1.4 of RFC 1035 and section 2.2 of RFC 3596, and
  `DnsProofs.dfy` shows that the two ends agree.
- **SOCKS5 front end.** `Socks.dfy` is the session over a chunked client stream,
  `SocksProofs.dfy` its round trip, locality and safety (sections 3 to 6 of RFC 1928,
  section 2 of RFC 1929).
- **Firewall and full anonymization.** `PacketFilter.dfy` is the fragment of nftables the
  rulesets use, `Addresses.dfy` prefix matching on address bits, `Rulesets.dfy` and
  `Firewall.dfy` the rulesets and the commands, `Supervisor.dfy` the tor process and
  `FullAnon.dfy` the controller.

## Where the code does not do what it is said to do

Each item names the lemma with such an input, and the one that says exactly when.

- README.md:131 and the comment at transparent_redirect.rs:10-13 say that LAN and SSH traffic
  keeps working. The skip rules only exempt it from redirection; the radical switch that is
  always on with it then drops it, except for the exempt user
  (`SshToTheLanIsDropped`, `LanAndSshSurviveOnlyForTheExemptUser`).
- server.rs:9-10 says that distinct usernames get distinct circuits. The empty username and
  `default` are one bucket, together with clients that skip authentication
  (`ThreeClientsOneBucket`, `SessionsShareATokenExactly`).
- coordinator.rs:194-197 says that `try_add_bridge` may run concurrently with the loop
  because both go through locks. Each write does, but an activation is three of them, and two
  overlapping ones can leave the core and the active index naming different bridges
  (`AdditionNextToTheLoopCanDisagree`, `CompletionsAgreeExactly`).
- `build_response` casts the answer count to 16 bits, so a reply of 65536 or more addresses
  is not a decodable message (`UndecodableReply`, `ResponseDecodesExactlyWhenCountFits`).
- Section 4.2.1 of RFC 1035 limits a UDP message to 512 octets and has longer ones marked as
  truncated; replies are printed at any length and never marked (`ReplySize`).
- A DNS label may contain a dot, which the dotted name given to the resolver does not show
  (`TwoQuestionsOneText`, `ResolvedNameSplitsExactly`).
- `disable` and the rollback ignore failed deletions, so the redirect can outlive tor
  (`FailedRollbackLeavesRedirectWithoutTor`, `FailedDeletionLeavesRedirectWithoutTor`,
  `RedirectHasTorThroughoutExactly`).
- `disable` takes the radical switch away before it takes the flag off
  (`FlagWithoutSealExactly`).
- Enabling over a leftover redirect table and failing at the radical switch deletes the
  leftover too (`FailingEnableDeletesLeftover`, `FailingEnableRestoresExactly`).

## Model

| member | source | states |
|---|---|---|
| CoordinatorInvariants.StepKeepsGood | crates/bridges/src/coordinator.rs:81-237 | every step of the monitor or of any task, from any state: all indices in use stay in range, the published line is the line at the published index, every candidate has its transport, and the lists only grow |
| CoordinatorInvariants.EveryRunFromStartIsGood | crates/bridges/src/coordinator.rs:42-237 | the same in every interleaving from startup, whatever checks, configurations and bootstraps come out as |
| CoordinatorInvariants.EveryRunDetectsOnce | crates/bridges/src/lib.rs:138-148 | however many tasks race, auto-detection registers a transport at most once |
| CoordinatorInvariants.TableIsTrueInEveryRun | crates/telemetry/src/lib.rs:81-138 | in every interleaving the published table is strictly sorted and shows, for each index, the latest result anyone recorded, under that candidate's own line |
| CoordinatorInvariants.CounterCountsFailures | crates/bridges/src/coordinator.rs:82-133 | in every interleaving the loop's counter is the number of failed checks since the last successful check or rescan (in 32 bits); the published count equals it as long as nobody has added a bridge by hand |
| CoordinatorInvariants.CounterIsExact | crates/bridges/src/coordinator.rs:82-121 | in every interleaving from startup the counter is exactly that number as long as it is below 2^32 |
| CoordinatorInvariants.ScanStartsExactlyAtThreshold | crates/bridges/src/coordinator.rs:116-130 | in every interleaving from startup, an event starts a scan if and only if it is the monitor judging a check failed with that number now at the threshold (one, for threshold zero) |
| CoordinatorInvariants.EveryScanFindsTheFirstHealthy | crates/bridges/src/lib.rs:352-382 | in every interleaving, whatever is added meanwhile: a bridge the monitor has found, bootstraps or activates is the first that its scan reported healthy, after all before it in order as failed, among those present at the start; a scan without one reported all of those as failed |
| CoordinatorInvariants.EveryActiveBridgeWasHealthy | crates/bridges/src/coordinator.rs:142-237 | in every interleaving from startup, the bridge of the core, the active one and the published one have each been reported healthy, by the startup scan, a failover scan or the task that added them |
| Activations.StepEffect | crates/bridges/src/coordinator.rs:164-178 | a step does exactly one of: swap the core, write the active index, publish, or none of them; and the number of activations that still owe each write changes accordingly, per bridge |
| Activations.SwapsAreAccountedFor | crates/bridges/src/coordinator.rs:164-178 | in every interleaving the number of core swaps is the number of published switches plus the activations between swap and publication; the published total is that number in 64 bits |
| Activations.RunsWithoutOverlapAgree | crates/bridges/src/coordinator.rs:225-234 | in every run without overlapping activations, whenever none is under way the core, the active index and the published index name the same bridge, from direct mode and from an initial bridge |
| Activations.AtRestOnlyTheOrderCanDiffer | crates/bridges/src/coordinator.rs:164-178 | with overlaps allowed, at rest every bridge was swapped in, made active and published equally often: none is lost or doubled |
| Overlaps.CompletionsAgreeExactly | crates/bridges/src/coordinator.rs:164-178 | from any state, every way to complete the activations under way (no new swap) ends with core, active index and publication in agreement if and only if all of them are for the core's bridge and what nobody still owes names it already |
| Overlaps.TwoBridgesCanDisagree | crates/bridges/src/coordinator.rs:225-234 | as soon as activations for two different bridges are under way, some completion ends in disagreement |
| Overlaps.FailoverAndAdditionCanDisagree | crates/bridges/src/coordinator.rs:194-197 | against "safe to run concurrently with the background loop": from any state of any run in which the monitor is about to swap, a bridge added by hand next to it can end with the core on the added one and the failover's one active |
| Overlaps.AdditionNextToTheLoopCanDisagree | crates/bridges/src/coordinator.rs:194-197 | such a run from every proper startup with two configured bridges, transports and scan reports included, and any added line without a transport |
| Overlaps.SwapSettlesExactly | crates/bridges/src/coordinator.rs:164-178 | from any state, agreeing or not, a swap leads to a settled state if and only if nobody owes a write for another bridge |
| Overlaps.NextActivationRestoresAgreement | crates/bridges/src/coordinator.rs:164-178 | from any state at rest, however it disagrees, the next activation that completes without another swap brings all three back into agreement |
| Overlaps.OverlapCanDisagree | crates/bridges/src/coordinator.rs:198-237 | two bridges added by hand at once can finish with the core on one and the other one active |
| Failover.TickIsRound | crates/bridges/src/coordinator.rs:84-133 | the interleaved machine's monitor, left alone for one tick, ends in exactly the state the one-round function gives |
| Failover.ScanFindsFirstHealthy | crates/bridges/src/lib.rs:352-382 | the machine's candidate-by-candidate scan reports what the manager's scan reports and stops at the least healthy index |
| Failover.FailsOverAtTheThreshold | crates/bridges/src/coordinator.rs:116-133 | if the active bridge keeps failing and j is first healthy and comes up, nothing switches before round max(1, threshold) (less the failures already counted), and j is core, active and published after it |
| Failover.RoundsAreARun | crates/bridges/src/coordinator.rs:81-134 | any number of undisturbed rounds is a run of the interleaved machine, so all its invariants hold of the loop |
| Failover.TaskIsAdded | crates/bridges/src/coordinator.rs:198-237 | a task of the interleaved machine, left alone, ends in exactly the state and result the add-a-bridge function gives, on every error path |
| Failover.AddedIsARun | crates/bridges/src/coordinator.rs:198-237 | adding a bridge undisturbed is a run of the interleaved machine |
| BridgeCoordinators.BridgeCoordinator.constructor | crates/bridges/src/coordinator.rs:42-68 | publishes the initial bridge; after seeding and the startup scan the object is the machine's initial state |
| BridgeCoordinators.BridgeCoordinator.RescanAndActivate | crates/bridges/src/coordinator.rs:142-189 | the scan, the re-check of the failing bridge, the three activation writes and the return value, as the rescan function says |
| BridgeCoordinators.BridgeCoordinator.Tick | crates/bridges/src/coordinator.rs:90-132 | one pass of the loop body computes the one-round function, and pushes one latency sample exactly if a bridge was active |
| BridgeCoordinators.BridgeCoordinator.Run | crates/bridges/src/coordinator.rs:81-134 | the loop with its local counter computes the iterated one-round function; the history is the window on all samples pushed |
| BridgeCoordinators.BridgeCoordinator.TryAddBridge | crates/bridges/src/coordinator.rs:198-237 | computes the add-a-bridge function for any value of the loop's counter, which it does not touch |
| Bridges.TransportIsTheFirstField | crates/bridges/src/lib.rs:109-122 | with or without the leading word (any capitals, any spacing), a first field without a colon is the transport named, and one with a colon names none |
| Bridges.UsualLine | crates/bridges/src/lib.rs:104-122 | the same for a line written with the word, single spaces and printable characters |
| Bridges.LineIsUsableExactly | crates/bridges/src/lib.rs:159-172 | an address line is always accepted and registers nothing; a transport line is refused if and only if its transport is neither registered nor located, and then the located path is registered if and only if none was |
| Bridges.BridgeManager.EnsureTransport | crates/bridges/src/lib.rs:138-148 | registers the located binary only if none is registered; succeeds exactly if one is registered afterwards |
| Bridges.BridgeManager.AddBridgeLine | crates/bridges/src/lib.rs:159-172 | appends exactly the line and returns its index, or changes no candidate; every candidate keeps a registered transport |
| Bridges.BridgeManager.FindHealthyConfigReporting | crates/bridges/src/lib.rs:352-382 | reports candidates in order up to the first healthy one and returns that one or its configuration error; the all-failed error exactly when none is healthy |
| Telemetry.HealthStatus.SeedCandidates | crates/telemetry/src/lib.rs:81-92 | every configured line in order, none checked |
| Telemetry.HealthStatus.RecordCandidateResult | crates/telemetry/src/lib.rs:116-138 | updates the first row of the index in place, or inserts one and sorts |
| Telemetry.HealthStatus.PushSample | crates/telemetry/src/lib.rs:94-99 | the new sample is the last one, and the history is the last 120 of what was there and it |
| Telemetry.Window | crates/telemetry/src/lib.rs:94-99 | the last min(n, 120) of n samples, in their order |
| Telemetry.HealthStatus.RecordSwitch | crates/bridges/src/coordinator.rs:169-175 | one update publishes index and line, counts the switch in 64 bits and clears the failures |
| Telemetry.WindowOfWindow | crates/telemetry/src/lib.rs:94-99 | trimming at every push keeps what trimming once at the end would |
| Telemetry.RecordRefinesMap | crates/telemetry/src/lib.rs:116-138 | a report changes what the table says about its own index, keeping the line it had, and about no other |
| Telemetry.TableIsLastWriteWins | crates/telemetry/src/lib.rs:81-138 | after any seeding and reports the table is strictly sorted and has exactly the rows of the last-write-wins map |
| Isolation.IsolationPolicy.TokenFor | crates/core/src/lib.rs:61-82 | the mutable map hands out exactly the token that the greedy partition of the whole call log names, and a never-issued one when the log opens a new group |
| Isolation.IsolationPolicy.Snapshot | crates/core/src/lib.rs:87-94 | shows exactly the identities that ever called, each with the use count and age of its current group |
| Isolation.ConsistencyStep | crates/core/src/lib.rs:61-82 | one call of the cache keeps the map equal to what the log determines, for every identity |
| Isolation.TokenBelongsToOneIdentity | crates/core/src/lib.rs:45-47 | calls of different identities never get the same token |
| Isolation.TokenCallsAreContiguous | crates/core/src/lib.rs:61-82 | an identity's calls that share a token are consecutive among its calls |
| Isolation.RetiredTokenNeverReturns | crates/core/src/lib.rs:61-82 | a token rotated away from is never handed out again, to anyone |
| Isolation.TokenHandedOutAtMost | crates/core/src/lib.rs:23-26 | over the whole log a token is returned at most max(1, max_uses) times |
| Isolation.RotationExactlyAtABound | crates/core/src/lib.rs:65-73 | the next call of an identity rotates if and only if the token's age at that call is at least max_age or its uses so far are at least max_uses |
| Isolation.ReusedTokenIsYoung | crates/core/src/lib.rs:65-73 | over any log, a token handed out again is younger than max_age |
| Isolation.GenerationIsQuotient | crates/core/src/lib.rs:65-80 | without an age bound, an identity's n-th call (from 0) gets its floor(n / max(1, max_uses))-th token, as its (n mod max(1, max_uses))-th use |
| Isolation.SameTokenIsSameGroup | crates/core/src/lib.rs:65-80 | without an age bound, two calls of one identity get the same token if and only if their numbers have the same quotient by max(1, max_uses) |
| Isolation.EarlierCallsKeepTheirToken | crates/core/src/lib.rs:61-82 | later calls never change what an earlier call was given |
| Isolation.OtherIdentitiesDoNotMatter | crates/core/src/lib.rs:61-82 | deleting everybody else's calls from the log leaves an identity's grouping as it was |
| Isolation.StoredUsesDecideStaleness | crates/core/src/lib.rs:80 | with max_uses set the u32 use counter never wraps, and a wrapped counter never takes part in a decision |
| CoreHandles.CoreHandle.Replace | crates/core/src/lib.rs:276-278 | a swap changes nothing about any earlier client, held or not |
| CoreHandles.CoreHandle.ConnectIsolated | crates/core/src/lib.rs:215-228 | a stream opened through a client held since before any number of swaps moves only that client's history, and its token equals none any other client ever handed out |
| Dns.ParseQuery | crates/leakguard/src/dns_shim.rs:115-160 | the loop over labels computes the recursive scan, with the same error in every case, for every datagram |
| DnsProofs.ParseComplete | crates/leakguard/src/dns_shim.rs:115-160 | every well-formed query is accepted with its identifier, name and type, its question re-emitted octet for octet |
| DnsProofs.ParseAcceptsExactlyWellFormed | crates/leakguard/src/dns_shim.rs:115-160 | a datagram is accepted if and only if it has a header, a nonzero QDCOUNT, and behind it an uncompressed name of labels of 1 to 63 octets, a type and class IN |
| DnsProofs.ParseDependsOnWhatItSees | crates/leakguard/src/dns_shim.rs:115-160 | accepted or rejected, any datagram that agrees on what the parser looked at (and in length, if it ended too early) gets the same result, down to the error |
| DnsProofs.ResolvedNameSplitsExactly | crates/leakguard/src/dns_shim.rs:135-146 | the name a query is resolved under splits into its labels again if and only if it has labels and none holds a dot octet |
| DnsProofs.TwoQuestionsOneText | crates/leakguard/src/dns_shim.rs:139-146 | two queries with different questions, resolved under one text |
| DnsProofs.ResolvedNameIsTheQueriedName | crates/leakguard/src/dns_shim.rs:135-146 | for ASCII labels without dots, two queries resolve the same text if and only if they ask for the same name |
| Dns.BuildResponse | crates/leakguard/src/dns_shim.rs:164-196 | the appending loop computes the response octets |
| DnsProofs.ResponseDecodesExactlyWhenCountFits | crates/leakguard/src/dns_shim.rs:164-196 | an independent decoder that follows compression pointers reads the response back to identifier, question, code and exactly the given records, with nothing left over, if and only if the answer count fits 16 bits |
| DnsProofs.AddressesRecovered | crates/leakguard/src/dns_shim.rs:181-193 | reading the addresses back gives the given ones in order if and only if each is of the asked type |
| Dns.OfFamilyKeepsOrder | crates/leakguard/src/dns_shim.rs:88-96 | filtering by family keeps the resolver's order and drops nothing of that family |
| Dns.HandleQuery | crates/leakguard/src/dns_shim.rs:69-111 | sends what the reply function says, fails if that cannot be sent, and sends nothing for a malformed request |
| DnsProofs.ReplySize | crates/leakguard/src/dns_shim.rs:164-196 | a reply has 12 octets, the question and 16 or 28 per address; it is longer than 512 octets, without saying that it is truncated, and than any UDP datagram, exactly from the stated numbers of addresses on |
| DnsProofs.ReplyAnswersTheQuestion | crates/leakguard/src/dns_shim.rs:69-111 | every well-formed query gets a reply that decodes to its own identifier and question, the right code (NOTIMP, SERVFAIL, NXDOMAIN, none) and exactly the addresses of the asked family; undecodable only from 65536 addresses on |
| DnsProofs.UndecodableReply | crates/leakguard/src/dns_shim.rs:170-172 | a query and a resolver whose reply does not decode |
| DnsProofs.OthersAreDropped | crates/leakguard/src/dns_shim.rs:69-76 | a request gets no reply if and only if it is not a well-formed query |
| Socks.Client.ReadExact | crates/socks/src/server.rs:132-230 | reads exactly n octets out of chunks of any size, or fails at the end of input |
| Socks.ReadUserpassIdentity | crates/socks/src/server.rs:159-186 | consumes and sends what the specification of the sub-negotiation says, error by error |
| Socks.NegotiateMethod | crates/socks/src/server.rs:132-154 | the same for method negotiation: username/password is preferred over no authentication |
| Socks.ReadConnectRequest | crates/socks/src/server.rs:188-230 | the same for the request, with the reply codes for other commands and address types |
| Socks.HandleConn | crates/socks/src/server.rs:98-127 | on any chunking the handler consumes, sends, attempts and returns what the session function of the octets says |
| SocksProofs.SessionIsLocal | crates/socks/src/server.rs:98-127 | once the octets so far decide a session, no continuation changes its result, its attempt or what it sent; undecided, what was sent stays sent |
| SocksProofs.HandshakeRecovers | crates/socks/src/server.rs:132-230 | every well-formed handshake followed by any payload yields its identity, destination and port and consumes exactly its own octets |
| SocksProofs.HandshakeAcceptsExactlyWellFormed | crates/socks/src/server.rs:132-230 | the handshake succeeds if and only if the input begins with a well-formed one and the client takes the greetings |
| SocksProofs.HandshakeSound | crates/socks/src/server.rs:132-230 | what an accepting handshake consumed is a well-formed greeting and CONNECT request |
| SocksProofs.WellFormedSession | crates/socks/src/server.rs:98-127 | a well-formed handshake ends in exactly one of three ways, octet for octet: an address under the strict policy is refused with code 2 and nothing attempted; otherwise the target is attempted and answered with code 0, leaving the payload, or with code 1 |
| SocksProofs.RefusedRequest | crates/socks/src/server.rs:188-230 | after a greeting, any command but CONNECT is refused with code 7 and any unknown address type with code 8, octet for octet |
| SocksProofs.RefusedOffer | crates/socks/src/server.rs:132-154 | an offer of neither method is answered with 5, 255 and nothing else |
| Sessions.Serve | crates/socks/src/server.rs:98-127 | a session that gets to connect draws one token of the current client under its own isolation key, and no other session draws any |
| Sessions.SessionsShareATokenExactly | crates/socks/src/server.rs:6-11 | two sessions' streams have the same token if and only if they went through the same client (across any swaps), by the same user (no credentials, the empty name and "default" being one), in the same rotation group |
| Sessions.SessionsShareATokenByCount | crates/core/src/lib.rs:65-80 | with a bound on uses alone: the same token if and only if the same client, the same user, and connection numbers of that user with the same quotient by max(1, max_uses) |
| Sessions.ThreeClientsOneBucket | crates/socks/src/server.rs:9-11 | three clients with different greetings and one isolation key |
| SocksProofs.SessionIsSafe | crates/socks/src/server.rs:98-127 | whatever the client does: greeting octets only, and then the one ten-octet reply whose code fits how the session ended, whole if the client accepts it; the success reply if and only if the upstream connected; no connection attempt to an address under the strict policy |
| Addresses.PrefixIsInterval | crates/leakguard/src/transparent_redirect.rs:33-34 | agreeing with a network on its leading bits is lying in its interval, for any width and length |
| Addresses.ListedPrefixesAreTheLocalRanges | crates/leakguard/src/transparent_redirect.rs:33-34 | the listed prefixes match exactly loopback, RFC 1918, fc00::/7 and fe80::/10 as number ranges |
| Rulesets.ScopedVerdict | crates/leakguard/src/killswitch.rs:47-57 | the scoped rules drop exactly what the protected user sends anywhere but to this host and say nothing about other users |
| Rulesets.RadicalVerdict | crates/leakguard/src/killswitch.rs:58-67 | the radical rules accept exactly lo and the exempt user and drop all the rest |
| Rulesets.RedirectVerdict | crates/leakguard/src/transparent_redirect.rs:29-53 | what the redirect does with any packet: return, DNS port, transparent port or nothing |
| Rulesets.PacketFate | crates/leakguard/src/transparent_redirect.rs:29-53 | what exactly happens to any packet with any combination of the tables, loaded any number of times, in any order |
| Rulesets.NothingLeavesExceptThroughTor | crates/leakguard/src/transparent_redirect.rs:1-8 | with redirect and radical switch on, every packet of another user is redirected to one of the two ports, already on lo, or dropped |
| Rulesets.SealedExactly | crates/leakguard/src/transparent_redirect.rs:4-8 | no packet of another user leaves except through lo if and only if the radical table is there, redirect or not |
| Rulesets.ExemptUserIsUntouched | crates/leakguard/src/transparent_redirect.rs:1-4 | the exempt user's packets are neither redirected nor dropped, unless that user is confined |
| Rulesets.LanAndSshSurviveOnlyForTheExemptUser | crates/leakguard/src/transparent_redirect.rs:10-13 | against "keep working": under the radical switch LAN and SSH packets get out if and only if they are the exempt user's and that user is not confined |
| Rulesets.SshToTheLanIsDropped | README.md:131 | one such packet |
| PacketFilter.FilterIsConjunction | crates/leakguard/src/killswitch.rs:45-69 | a packet passes if and only if neither filter table drops it, whichever was created first |
| PacketFilter.RepeatingIsIdempotent | crates/leakguard/src/killswitch.rs:72-76 | enabling again, which appends the rules again, changes no verdict |
| PacketFilter.LoadEffect | crates/leakguard/src/killswitch.rs:72-76 | loading a table creates it or appends to it, and leaves every other table alone |
| PacketFilter.UnloadEffect | crates/leakguard/src/killswitch.rs:80-87 | deleting a table removes it and leaves every other table alone |
| Rulesets.FirstRadicalDecides | crates/leakguard/src/killswitch.rs:58-76 | of several radical switches turned on, only the first has any effect |
| Firewalls.Firewall.RunNft | crates/leakguard/src/transparent_redirect.rs:88-110 | a script is applied as a whole or not at all; deleting an absent table is its own error |
| Firewalls.Firewall.EnableSwitch | crates/leakguard/src/killswitch.rs:72-76 | the switch's rules are in its own table, if the command worked |
| Firewalls.Firewall.DisableSwitch | crates/leakguard/src/killswitch.rs:80-87 | the switch's table is gone if the command worked; an absent table is no error |
| Firewalls.ActiveSinceExactly | crates/leakguard/src/killswitch.rs:72-87 | a switch is active if and only if it was turned on with no turning off of its kind after it |
| Firewalls.TablesHoldActiveSwitches | crates/leakguard/src/killswitch.rs:72-87 | after any commands the tables hold exactly the rules of the active switches |
| Firewalls.KillSwitchVerdict | crates/leakguard/src/killswitch.rs:45-87 | after any commands a packet is dropped if and only if its user is confined since the last scoped disable and it leaves the host, or a radical switch is active and it is neither on lo nor the exempt user's |
| Supervisor.TorSupervisor.Start | crates/transparent/src/supervisor.rs:66-130 | fails and changes nothing if a child is there; otherwise there is one exactly if the files were written, tor was spawned and its ready line came in time behind readable lines only |
| Supervisor.ReadyExactly | crates/transparent/src/supervisor.rs:103-112 | a line counts as ready if and only if "Bootstrapped 100%" occurs anywhere in it |
| Supervisor.TorSupervisor.Stop | crates/transparent/src/supervisor.rs:132-136 | no child afterwards |
| FullAnon.FullAnonController.Enable | crates/transparent/src/full_anon.rs:41-50 | passes through exactly the specified states, with every external command able to fail |
| FullAnon.FullAnonController.EnableInner | crates/transparent/src/full_anon.rs:52-79 | the same for the three-part activation with its rollbacks |
| FullAnon.FullAnonController.Disable | crates/transparent/src/full_anon.rs:83-94 | the same for the teardown |
| FullAnon.DisableAlwaysEndsOff | crates/transparent/src/full_anon.rs:81-94 | always ends without child and with the flag off; both tables are gone if and only if each deletion worked or had nothing to delete; if both worked, repeating it changes nothing |
| FullAnon.FailingEnableRestoresExactly | crates/transparent/src/full_anon.rs:52-79 | a failing enable restores all three pieces if and only if it failed before the radical switch, or the rollback worked and no redirect table was there before; while tor runs, no step of it touches any of them |
| FullAnon.EnableOrphansExactly | crates/transparent/src/full_anon.rs:52-79 | at every step of an enable the redirect has its tor, if and only if it is not the case that tor starts, the redirect loads, the radical switch fails and its rollback fails too |
| FullAnon.DisableOrphansExactly | crates/transparent/src/full_anon.rs:83-94 | at every step of a disable the redirect has its tor, if and only if its deletion works or there is none |
| FullAnon.RedirectHasTorThroughoutExactly | crates/transparent/src/full_anon.rs:41-94 | over any sequence of calls with any failures, the redirect has its tor at every step of every call if and only if no call is one of those two when it is made |
| FullAnon.FailedRollbackLeavesRedirectWithoutTor | crates/transparent/src/full_anon.rs:71-75 | one such enable |
| FullAnon.FailedDeletionLeavesRedirectWithoutTor | crates/transparent/src/full_anon.rs:90-93 | one such disable, after an enable that worked |
| FullAnon.FailingEnableDeletesLeftover | crates/transparent/src/full_anon.rs:71-75 | a failing enable that deletes a redirect left behind earlier |
| FullAnon.EveryRunKeepsAtRest | crates/transparent/src/full_anon.rs:41-94 | after any sequence of calls with any failures, the flag on means child, redirect and radical switch are all there, and the tables hold only this program's rules |
| FullAnon.FlagOnMeansNothingLeaks | crates/transparent/src/full_anon.rs:37-94 | whenever the flag is on after any sequence of calls, leftovers of failed ones included: exactly where every packet of another user goes - public TCP but SSH to port 9040 on this host, public DNS to port 5300 on this host, what is on lo as it is, the rest nowhere |
| FullAnon.FlagWithoutSealExactly | crates/transparent/src/full_anon.rs:83-94 | over every step of every sequence of calls with any failures, the flag is on while a packet of another user could leave other than through lo exactly at the second and third step of a disable made with the flag on whose radical deletion works |

## Left out

- The Tor client itself, TLS, bootstraps, health-check networking and bridge-line parsing: their outcomes are parameters, so every outcome is covered.
- Discovery of transport binaries on disk: what it finds is a parameter.
- BridgeCoordinators.BridgeCoordinator.Run: models as many ticks as it is given outcomes for, because the loop never returns; sleeping and the check-now wake-up are not modelled.
- Telemetry.HealthStatus.PushSample: timestamps are not modelled, because nothing decides anything by them.
- Dns.ParseQuery: lossy UTF-8 decoding is a parameter; claims about names as text are made for what it returns.
- Dns.HandleQuery: whether a response can be sent is a parameter; that a socket refuses more than 65507 octets, or any other response, is not modelled.
- DnsProofs.ResponseDecodesExactlyWhenCountFits: the decoder does not enforce the limit of 255 octets for a name, which the shim does not check either.
- Socks.HandleConn: ends before the splice; UTF-8 decoding, opening the upstream stream and when the client breaks its side are parameters; the text form of an address handed to Tor is not modelled.
- The accept loop of the SOCKS server and its connection counters: each connection runs the session on its own.
- Isolation.IsolationPolicy.TokenFor: the clock is a parameter whose differences saturate at zero; the use counter is modelled as wrapping, as in release builds, where a debug build would stop.
- CoreHandles.CoreHandle.ConnectIsolated: models the token a stream is opened with, not the stream.
- Poisoned locks, the terminal dashboard, argument parsing, logging, PID files and signals.
- Firewalls.Firewall.RunNft: rulesets are data, not text, and a failed run changes nothing; connection tracking, packets that are not locally generated and the prerouting chain are not modelled.
- Rulesets.PacketFate: radical switches are all for one exempt user, the one the process runs as; Firewalls.KillSwitchVerdict covers several.
- Supervisor.TorSupervisor.Start: the contents of the torrc are not modelled, and the time limit is how many of tor's lines come before it; a tor that dies later on its own is not modelled, the child being the handle.
- FullAnon.FullAnonController.Enable: calls do not overlap, and nobody else touches the tables in between.
