# FluxMesh in Dafny

FluxMesh is a small service mesh. This project models the four parts of it whose correctness is not
plumbing, and proves what they promise on every input and every run:

* **Soft state** (`SoftKV`, `SoftKVOrder`, `SoftKVGarbage`, `Gossip`): a last-writer-wins store with
  per-source sequence numbers, expiry and garbage collection, replicated by lossy gossip.
* **Routing** (`ServiceModel`, `RouteIndex`, `RouteTheorems`, `PlanCompiler`, `PlanTheorems`,
  `ConfiguredRouting`): defaults and validation of service configurations, their compilation into a plan, the
  host and first-byte index through which a request finds its route, and what that comes to in terms of the
  configurations and the host as sent.
* **Balancing and failover** (`Balancing`, `Failover`, `RequestTheorems`, `RelayChains`): orders, rotation,
  shuffling and weighted draws, the retry loop of one request, what clients see of it, and chains of relaying
  nodes.
* **Reconfiguration** (`Registry`, `Snapshot`, `Refresh`, `UdpSessions`): compare-and-swap over a
  revisioned store, the refresh that brings listeners in line with it, and the UDP session table under
  every interleaving.

`Wrappers`, `Strings`, `Sorting` and `Sequences` hold what these share. Code that changes
state is a class or a method with the loops of the original, proved against a function or predicate; the
theorems are about those. `dafny verify dfyconfig.toml` checks everything.

Conventions. A Go string is a Dafny string, one character per byte. Trimming, lower-casing, IPv4 and
address syntax are given functions (`Text`); `Text.Laws` lists the few facts assumed of them. Clocks,
random draws, upstream answers and the success of opening a socket are parameters, so every theorem holds
for all of them. Clocks count nanoseconds; entries carry milliseconds.

Operations are split where the program lets go of a lock: the merge of an entry into its expiry check and its
installation, the creation of a UDP session into look-up, dial and entry, an update into transaction and
read. Anything may happen in between.

Places where the code does less than one might expect:

* The conflict rule is an order on exactly the entries of which no source's sequence number rose while its
  clock fell. An inverted step, and only an inverted one, closes a cycle with a third source
  (`CycleIffInverted`) and lets the order of arrival decide (`MergeOrderMattersIffInverted`).
* Sequence numbers of the unnamed source are not recorded on merge (`UnnamedSourceCanFallBehind`).
* Merge checks the expiry before it takes the lock. An entry that expires in between can be installed although a
  newer version was installed and collected before (`LateVersionComesBack`), and only such an entry can
  (`InstalledVersionsOnlyRise`); any version can be installed twice that way (`AnyVersionCanComeBack`). No Get
  ever shows it (`AnswersOnlyRise`).
* To operations that nothing expires under while they wait for the lock, collection is invisible if and only if,
  per key, newer entries do not expire earlier (`InvisibleIffExpiryFollowsAge`); one TTL of whole milliseconds is enough. To a merge
  that collections fall into it is invisible if and only if the entry is still live under the lock
  (`SpanningMergeBlindIffLive`).
* The index and the scan it replaces agree on all tables exactly up to path prefixes of 1000 bytes
  (`IndexExactUpTo1000`). The scan is reached only for a listener without an index.
* Round-robin shares are exact on all runs if and only if no group is named like another followed by "#direct" or
  "#relay", since such groups share a counter (`SharesExactIffSeparate`).
* Fingerprints of different listings can be equal when both hold a name with an "@", a numeral and a `|` in a row
  (`BarsCollide`); if no name of one of the two does they cannot (`SnapshotIdentifies`).
* Policies and service listeners are filed under the service name as stored but looked up under the trimmed name.
  Among distinct trimmed names, as the registry has them, a service gets its own policy and UDP options, and is
  found as a destination, exactly when its name is its own trim (`OwnPolicyIffTrimmed`, `OwnOptionsIffTrimmed`);
  alone under a name with surrounding space it loses retries, hop limit and UDP options
  (`UntrimmedNameLosesRetries`, `UntrimmedNameLosesOptions`).
* Relay addresses are filed as written but looked up trimmed, while validation and forwarding trim. The relay flag
  says whether a relay target was tried exactly when trimming does not matter to the group's relay addresses
  (`FlagTellsRelaysIffTrimKeeps`); a relay stored with surrounding space answers unnoticed (`SpacedRelayIsMissed`).
* Latencies the other way round: they are filed under trimmed addresses and looked up as written, so a target with
  surrounding space never counts as measured (`MeasuredIffTrimmed`).
* An update that succeeds reports another client's later write, or not found, exactly when the key was touched
  before its closing read (`UpdateReturnsOwnIffUntouched`).
* The UDP reaper closes expired sessions whether a handler is waiting on them or not
  (`ReapClosesIffExpired`), so a time to live below a round trip can cut it off (`ReaperCanCloseInUse`).
* A refresh that recognises its listing returns early, so a TCP or UDP listener that could not be opened
  is only tried again after the listing has changed (`Refresh.Server.Refresh` says that nothing else changes).

## Model

| member | source | states |
|---|---|---|
| SoftKV.Store.Put | internal/softkv/store.go:73-101 | a blank key or a TTL not above zero is refused and changes nothing; otherwise the entry holds the trimmed key, the value, the source, its next sequence number, the clock in milliseconds as update and arrival time and the expiry, and replaces whatever was held |
| SoftKV.Store.Get | internal/softkv/store.go:103-125 | the entry of the trimmed key, unless it is missing or has expired |
| SoftKV.Store.List | internal/softkv/store.go:127-149 | exactly the live entries whose key starts with the trimmed prefix, in strictly ascending key order |
| SoftKV.ListingUnique | internal/softkv/store.go:127-149 | the set of live entries determines the listing |
| SoftKV.Store.Merge | internal/softkv/store.go:151-186 | accepted exactly when the key is not blank, the entry has not expired at the check and nothing is held or the conflict rule prefers it; then the entry is held with its arrival stamp and the sequence map has risen to it |
| SoftKV.Store.MergeUnderLock | internal/softkv/store.go:162-185 | the critical section of a merge: installs with arrival stamp and sequence map exactly when nothing is held or the conflict rule prefers the entry, without looking at the expiry again |
| SoftKV.Store.DeleteExpired | internal/softkv/store.go:188-204 | exactly the expired entries go, the sequence map stays, and the count is what was removed |
| SoftKVOrder.AcceptIsOlderIffNotInverted | internal/softkv/store.go:229-242 | the conflict rule equals the lexicographic order on (update time, source, sequence number) on exactly the pairs that are not inverted |
| SoftKVOrder.CycleIffInverted | internal/softkv/store.go:229-242 | an accepted step can be closed to a cycle of three through another source if and only if it is inverted |
| SoftKVOrder.MergeAllYieldsNewest | internal/softkv/store.go:151-186 | on coherent histories, merging any sequence of live entries with repeats leaves the newest entry ever offered per key |
| SoftKVOrder.MergeOrderIsIrrelevant | internal/softkv/store.go:151-186 | replicas that start alike and are offered the same entries, in any order and any number of times, end alike up to arrival stamps |
| SoftKVOrder.MergeOrderMattersIffInverted | internal/softkv/store.go:229-242 | some third source has an entry that, merged with the two of an accepted step in different orders, leaves different winners if and only if the step is inverted |
| SoftKVOrder.MergeOrderMattersWhenInverted | internal/softkv/store.go:229-242 | a witness: two arrival orders of the same three entries that end differently |
| SoftKVOrder.ReachableStoresCover | internal/softkv/store.go:85-100 | in every reachable store the sequence map is at least the sequence number of every held entry of a named source |
| SoftKVOrder.PutIsAlwaysAcceptable | internal/softkv/store.go:85-100 | in every reachable store a put on a single-writer key is one a merge would accept over the held entry, whatever the clocks say |
| SoftKVOrder.LaterPutWins | internal/softkv/store.go:73-186 | of two puts of one key by different sources in different milliseconds, a store without the key that merges both live, in either order, holds the later |
| SoftKVOrder.UnnamedSourceCanFallBehind | internal/softkv/store.go:167-181 | for the unnamed source that fails |
| SoftKVOrder.RestartCatchesUp | internal/softkv/store.go:162-185 | a restarted source that merges any live entry of its own on its own key numbers its next put higher |
| SoftKVGarbage.LiveBeatsExpired | internal/softkv/store.go:229-242 | with one TTL a live entry is preferred over every expired one of the history |
| SoftKVGarbage.CollectionIsInvisible | internal/softkv/store.go:103-204 | for every interleaving of critical sections with a monotone clock and newer entries not expiring earlier: collecting at arbitrary points changes no put, no get, not the sequence map, no verdict on an entry still live under the lock, and no listed entry still live under the lock |
| SoftKVGarbage.InvisibleIffExpiryFollowsAge | internal/softkv/store.go:103-204 | on a coherent history no run of prompt merges and lists shows collection if and only if per key newer entries do not expire earlier |
| SoftKVGarbage.SpanningMergeBlindIffLive | internal/softkv/store.go:151-186 | a merge that passed its check is blind to collections before its lock, on all single-writer histories, if and only if its entry is still live under the lock |
| SoftKVGarbage.CollectionShowsWithTwoTtls | internal/softkv/store.go:188-204 | a witness with two TTLs: an older, longer-lived entry comes back after a collection |
| SoftKVGarbage.WholeMillisecondsAreUniform | internal/softkv/store.go:85-98 | a TTL of whole milliseconds makes expiry and update time differ by as many, whatever the clock |
| SoftKVGarbage.HalfMillisecondIsNot | internal/softkv/store.go:85-98 | a fraction of a millisecond does not: an older entry can expire later |
| Gossip.NotifyMsg | internal/softkv/memberlist.go:53-71 | own messages, unnamed senders and other events are ignored, a put is merged |
| Gossip.MergeRemoteState | internal/softkv/memberlist.go:93-107 | a received state is merged entry by entry |
| Gossip.EveryRunKeepsInv | internal/softkv/memberlist.go:53-107 | under any loss, duplication, delay, reordering, state exchange and collection, also between the check of a merge and its lock: every message, pending merge and installed version is one its owner put, and a live version once installed is held or superseded |
| Gossip.InstalledVersionsOnlyRise | internal/softkv/store.go:151-204 | on every run a replica installs only versions the owner put, in strictly increasing order except for versions that had expired when they were installed |
| Gossip.LateVersionComesBack | internal/softkv/store.go:151-204 | a run on which that exception happens: check, expiry, collection of the newer version, lock |
| Gossip.AnyVersionCanComeBack | internal/softkv/store.go:151-204 | from every state, a version a replica is about to install can be installed twice: two merges pass the check, the version expires and is swept before the second gets the lock |
| Gossip.AnswersOnlyRise | internal/softkv/store.go:103-125 | of two gets on one replica the later never answers an older version, on every run and without exception |
| Gossip.ReceiverAnswersLatest | internal/softkv/store.go:103-125 | a replica that has received the owner's latest version answers it exactly until it expires there |
| Gossip.ReceiversAgree | internal/softkv/memberlist.go:80-107 | two such replicas give the same answer on every run, however far apart their clocks are |
| Gossip.OneDeliverySuffices | internal/softkv/memberlist.go:53-71 | a merge of the latest version that has passed the check delivers it, whatever happens before it gets the lock |
| Gossip.LiveMessageIsAdmitted | internal/softkv/store.go:151-161 | a message passes the check exactly when it meets a live clock and is not the node's own broadcast |
| Gossip.PutsReachTheNet | internal/softkv/store.go:73-101 | a put by the owner is held by it and broadcast, with the value, source and times of the put |
| Gossip.SharesReachTheNet | internal/softkv/memberlist.go:80-91 | a state exchange offers every live entry of the node, and takes nothing from the net |
| Gossip.AnswerLasts | internal/softkv/store.go:103-204 | whatever happens after receipt, the answer stays as long as the version is the owner's latest and live |
| ServiceModel.ApplyDefaults | internal/model/service.go:85-143 | the defaults of every field, route and target |
| ServiceModel.DefaultsAreIdempotent | internal/model/service.go:85-143 | defaulting a stored configuration again changes nothing |
| ServiceModel.DefaultsFillBlanks | internal/model/service.go:85-143 | what is set in routes and targets is kept, and blanks get weight 100 and all hosts |
| ServiceModel.PolicyDefaultsFillBlanks | internal/model/service.go:85-143 | the same for the policy, field by field with the value of each default |
| ServiceModel.BareServiceIsValid | internal/model/service.go:85-269 | a name, a port, a layer or none, and one route are enough: with the blanks filled in the service is valid |
| ServiceModel.ValidMeans | internal/model/service.go:145-269 | valid are exactly the configurations with every value in its range, protocols that all fit the layer, and groups with targets and names of their own |
| ServiceModel.ValidateTargets | internal/model/service.go:230-240 | all targets of a group are valid |
| ServiceModel.Validate | internal/model/service.go:145-269 | the checks made one after the other accept exactly the valid configurations |
| RouteIndex.PickIsFirstBest | internal/traffic/runtime.go:349-367 | the best-so-far loop returns the first element of highest score, and nothing only if no score is above -1 |
| RouteIndex.HostMatchScore | internal/traffic/runtime.go:615-635 | 2 for a route naming the host, 1 for one open to all hosts, in any order of its hosts |
| RouteIndex.BestRouteMatchSeed | internal/traffic/runtime.go:349-367 | a second list takes over from a first only with a strictly higher score |
| RouteIndex.MatchPathMatcher | internal/traffic/runtime.go:333-347 | the best route under the path's first byte or among the short prefixes |
| RouteIndex.ScanRoutes | internal/traffic/runtime.go:276-303 | the first route of highest score in the whole table |
| RouteIndex.BuildListenerMatcher | internal/traffic/runtime.go:369-400 | under every host class and first byte the index holds exactly the routes belonging there, in table order |
| RouteTheorems.MatchInIsClassPick | internal/traffic/runtime.go:333-347 | looking only under the path's first byte and among short prefixes loses no route of the host class |
| RouteTheorems.IndexEqualsScan | internal/traffic/runtime.go:265-303 | index and scan give the same route for every validated table, host and path, with prefixes of at most 1000 bytes |
| RouteTheorems.IndexExactUpTo1000 | internal/traffic/runtime.go:265-303 | a limit on prefix length makes them agree on all tables if and only if it is at most 1000 |
| RouteTheorems.ScoreOrdersPairs | internal/traffic/runtime.go:349-367 | with weights in 1 to 100 the packed score orders (length, weight) lexicographically |
| RouteTheorems.IndexIsOptimal | internal/traffic/runtime.go:161-176 | on a sorted table the index answers with the first matching route of the best host class |
| RouteTheorems.OptimaAnswerAlike | internal/traffic/runtime.go:161-176 | routes that tie on everything give the same answer |
| PlanCompiler.AddGroups | internal/traffic/runtime.go:97-112 | succeeds exactly when the group names stay globally distinct; then every group is filed with its relay set and strategy |
| PlanCompiler.RelayTagMeans | internal/traffic/runtime.go:549-560 | a tag makes a target a relay exactly when its key reads relay and its value 1, true, yes or on, in any case and with space around |
| PlanCompiler.AddListener | internal/traffic/runtime.go:114-158 | succeeds exactly when the listener may be shared with all services before it; then the tables hold its one binding or its routes |
| PlanCompiler.TablesShowClashes | internal/traffic/runtime.go:114-142 | the program's table lookups find exactly the services that may not share a listener |
| PlanCompiler.SortTables | internal/traffic/runtime.go:161-176 | every table is sorted without losing or gaining a route, and has its index |
| PlanCompiler.BuildPlan | internal/traffic/runtime.go:76-190 | a plan comes out exactly when all configurations validate, group names are globally distinct and no listener clashes; then every L7 route is once in its listener's table and every L4 service has its one binding |
| PlanTheorems.Match | internal/traffic/runtime.go:258-304 | the answer of the plan for a listener, host and path, which ConfiguredRouting.AnswerIsBestOffer and PortIsIgnored describe in terms of configurations and the host as sent |
| PlanTheorems.AnswerIsOptimal | internal/traffic/runtime.go:258-304 | it answers whenever some service's route matches, with the longest prefix, then the heaviest, then the first by service and destination, among the best host class |
| PlanTheorems.OrderIsIrrelevant | internal/traffic/runtime.go:76-274 | every order of services with distinct names and trimmed addresses succeeds or fails alike, answers every route, binding and policy query alike, and has the same groups, strategies, relay addresses and service listeners to resolve destinations by |
| ConfiguredRouting.PortIsIgnored | internal/traffic/runtime.go:606-613 | hosts that agree up to their first colon, after trimming and lower-casing, get the same answer: a name and the name with a port |
| ConfiguredRouting.AnswerIsBestOffer | internal/traffic/runtime.go:258-304 | for the host without its port, there is an answer exactly when some HTTP service of the listener has a route that suits, and it names service, destination and prefix of one no other beats by host, prefix, weight, service name and destination |
| ConfiguredRouting.KeyMeans | internal/traffic/runtime.go:601-604 | two listeners have one key exactly when trimmed address and port are the same |
| ConfiguredRouting.ClashMeans | internal/traffic/runtime.go:114-142 | two services may not coexist exactly when they listen at one address and port, both or neither on UDP, and not both on HTTP |
| ConfiguredRouting.BindingsMean | internal/traffic/runtime.go:114-142 | every TCP and UDP service is bound at its listener to the destination of its first route, and nothing else is bound |
| ConfiguredRouting.GroupsMean | internal/traffic/runtime.go:97-112 | every group is found under its trimmed name, with the strategy its service asks for and the addresses of its relay targets, and no other group is |
| ConfiguredRouting.ServicesMean | internal/traffic/runtime.go:94-95 | services of different names are each found with their own policy and listener, and no other name is found |
| Balancing.PlanState.NextRoundRobinIndex | internal/traffic/balancer.go:119-132 | the counter modulo the number of targets; with more than one target that counter moves by one and no other does |
| Balancing.PlanState.ObserveLatency | internal/traffic/balancer.go:43-62 | the moving average of one upstream, others untouched |
| Balancing.AverageClosesAFifth | internal/traffic/balancer.go:43-62 | a first sample is taken over, every later one closes a fifth of the distance to it, and no other upstream moves |
| Balancing.MeasuredIffTrimmed | internal/traffic/balancer.go:43-62 | over any exchanges a timed target counts as measured if and only if its address is its own trim, and otherwise stays behind every measured one under latency-first |
| Balancing.ShuffleInPlace | internal/traffic/runtime.go:562-579 | in place, the permutation the draws describe |
| Balancing.ShufflePermutes | internal/traffic/runtime.go:562-579 | for every draw a shuffle is a permutation |
| Balancing.EveryOrderHasDraws | internal/traffic/runtime.go:562-579 | and every permutation comes out of some draws |
| Balancing.OrderTargetsByStrategy | internal/traffic/runtime.go:502-534 | the strategy's order of the targets; under round-robin, and only then, the targets from the counter's position on, with that counter moved by one |
| Balancing.StrategyNames | internal/traffic/balancer.go:168-184 | which names, in any case and with space around, ask for which strategy |
| Balancing.OrderedPermutes | internal/traffic/runtime.go:502-534 | every strategy's order is a permutation of the targets |
| Balancing.OrderedIsSorted | internal/traffic/balancer.go:222-245 | load-first and latency-first orders leave no target before one that should precede it |
| Balancing.SplitDirectAndRelay | internal/traffic/runtime.go:536-547 | direct and relay targets, each in the listed order |
| Balancing.SelectInOrder | internal/traffic/runtime.go:536-547 | each kind keeps the listed order, whatever stands between |
| Balancing.OrderedBackendTargets | internal/traffic/runtime.go:485-500 | the addresses of the group, direct targets first, under round-robin from the position of their counter on; the counters of direct and relay targets each move by one under round-robin with more than one such target |
| Balancing.CandidateOrder | internal/traffic/runtime.go:485-547 | for every strategy and draw the order is a permutation of the group with all direct targets before all relay ones |
| Balancing.CycleWindows | internal/traffic/runtime.go:468-483 | any run of as many consecutive candidates as the group has targets uses each target once |
| Balancing.LoadFirstPick | internal/traffic/balancer.go:186-198 | no target weighs more than the picked one, and those that weigh the same have no smaller address |
| Balancing.RoundRobinIsExact | internal/traffic/balancer.go:119-132 | over any run of single picks and orderings of groups with separate names, k times n calls of one use of an n-target group get each position exactly k times |
| Balancing.SharesExactIffSeparate | internal/traffic/runtime.go:485-489 | for a set of group names these shares are exact on all runs if and only if no name is another followed by #direct or #relay |
| Balancing.SharesAreEven | internal/traffic/balancer.go:119-132 | over any run of calls that moves the counters as the methods say they do, k times n calls of one use of an n-target group get each target exactly k times |
| Balancing.ConsecutiveShares | internal/traffic/balancer.go:119-132 | of k times n calls in a row that get n targets in turn, from any start, exactly k get each |
| Balancing.WeightedRandomTarget | internal/traffic/balancer.go:134-165 | the draw falls on the returned target's own stretch of the weights, so the final fallback is never reached |
| Balancing.WeightedSharesAreExact | internal/traffic/balancer.go:134-165 | of the total draws exactly weight-many fall on each target, and no draw on two |
| Failover.RetryBudgetBounds | internal/traffic/server.go:1135-1155 | the budget keeps the first attempt, adds none, and leaves a retry exactly when retries were configured and the ratio is positive |
| Failover.SelectBackendTarget | internal/traffic/balancer.go:97-110 | the single pick of each strategy, as a property of the picked target; under round-robin, and only then, the target at the counter's position, with that counter moved by one |
| Failover.HeadIsPick | internal/traffic/balancer.go:186-209 | without relay targets the first candidate is the target that load-first or latency-first picks from the same state |
| Failover.ResolveDestination | internal/traffic/runtime.go:410-438 | group, then service listener with host and port joined, then direct address, else an error; a group that takes turns moves its counter by one, and nothing else moves one |
| Failover.ResolveForAttempts | internal/traffic/runtime.go:441-483 | for any number of attempts: none without attempts, else as many candidates, cycling the ordered group; a group that takes turns moves the counters of its direct and its relay targets by one |
| Failover.RetryLoop | internal/traffic/server.go:930-979 | every candidate before the last one used was reached and answered 502 or worse; status, attempts, relay flag and measured latency follow |
| Failover.ForwardOnce | internal/traffic/server.go:869-892 | the same for a request without retries |
| Failover.ServeRequest | internal/traffic/server.go:833-979 | the reply for every request: 404 without a route, 400 for a bad hop header, 508 over the limit, 502 unresolved, otherwise that of its candidates; and the balancer state after it |
| Failover.OwnPolicy | internal/traffic/server.go:849-859 | a request is served under its own service's policy exactly when the trimmed name finds a service with the same policy; for trimmed names it always is |
| Failover.OwnPolicyIffTrimmed | internal/traffic/server.go:849-859 | where trimmed names are distinct a service has its own policy, and is found as a destination by any name, if and only if its name is its own trim |
| Failover.UntrimmedNameLosesRetries | internal/traffic/runtime.go:582-588 | a service alone under a name that is not its own trim gets one attempt and the default hop limit, whatever it configures |
| Failover.FlagTellsRelaysIffTrimKeeps | internal/traffic/runtime.go:591-599 | on all lists of addresses of a group the relay flag says whether a target tagged relay was tried, if and only if trimming an address of the group neither takes it out of the relay addresses nor puts it in |
| Failover.SpacedRelayIsMissed | internal/traffic/runtime.go:102-109 | a group whose only target is a relay with space around its address is served through that relay with the relay flag false |
| Failover.FirstGoodAnswerWins | internal/traffic/server.go:930-979 | the client gets the first answer below 502 in candidate order, the attempt count is its position, nothing later is tried |
| Failover.GroupFailover | internal/traffic/server.go:894-976 | with at least two attempts and at least as many as the group has targets, one good target is enough; the relay flag is the program's trimmed lookup over the tried addresses, and says that a target tagged relay was tried where trimming keeps the relay addresses |
| Failover.GoodTargetServes | internal/traffic/server.go:833-979 | hence a request routed to such a group is answered below 502 by one of its targets within as many attempts as there are targets, with the same statements about the relay flag |
| RequestTheorems.HopHeaderDecides | internal/traffic/server.go:853-863 | a routed request without the hop header is admitted; with a numeral it is admitted exactly up to the limit of the service and refused with 508 above; it gets 400 exactly when the header is neither blank nor such a numeral |
| RequestTheorems.Refusals | internal/traffic/server.go:833-879 | without a route 404, and for a blank destination 502 with nobody asked |
| RequestTheorems.BudgetIsShareOfRetries | internal/traffic/server.go:1135-1155 | a ratio between zero and one allows the largest whole number of retries within that share, but at least one |
| RequestTheorems.ClientIsServed | internal/traffic/server.go:833-979 | a request without the hop header, routed to a group with at least as many attempts as targets, is answered by the first good target tried if there is a good one |
| RequestTheorems.AnswersAreUpstreams | internal/traffic/server.go:865-979 | an admitted request gets the status of the last upstream tried, or 502 when that did not complete the exchange or nobody could be asked |
| RequestTheorems.DestinationsMean | internal/traffic/runtime.go:410-438 | a destination that is no group leads to the listener of the service of that name, at the loopback address if it listens everywhere, else to itself if it is an address |
| RequestTheorems.PickMeans | internal/traffic/balancer.go:186-220 | under the name a configuration gives: the heaviest target, the one of least measured latency, some target of the group |
| RequestTheorems.ResolvingTicks | internal/traffic/runtime.go:410-500 | resolving moves the counters of the group itself and of no other |
| RequestTheorems.FirstTriedIsNextInTurn | internal/traffic/server.go:833-979 | under round-robin a request first tries the target its group's counter points at |
| RequestTheorems.RequestsTakeTurns | internal/traffic/server.go:833-979 | of k times n requests in a row for a round-robin group of n targets exactly k try each first; with retries, each of its direct targets |
| RequestTheorems.AnswersAreMeasured | internal/traffic/server.go:930-979 | an answer below 502, and without retries any answer, that took time moves the average of its upstream a fifth of the way and no other; when all candidates of a retried request fail nothing is measured |
| RelayChains.RelayWorkIsBounded | internal/traffic/server.go:853-979 | in any topology with hop limits up to m and at most a attempts per node, a request entering without the header causes at most a + a^2 + ... + a^(m+1) upstream requests |
| RelayChains.ChainsAreShort | internal/traffic/server.go:853-979 | every upstream request made for one that entered without the header carries the number of forwards that led to it, and that is at most m + 1 |
| RelayChains.RelayBoundIsReached | internal/traffic/server.go:853-979 | both bounds are attained |
| Registry.RunKeepsInv | internal/registry/services.go:37-133 | on every interleaving a present key holds its last write at that write's revision, and history only grows |
| Registry.NoLostUpdate | internal/registry/services.go:90-122 | an update expecting the revision it read goes through exactly when nothing touched the key since; it then overwrites the value read and never recreates a deleted configuration |
| Registry.ZeroRevisionCreates | internal/registry/services.go:90-122 | a successful update creates a configuration exactly when it expects no positive revision |
| Registry.UpdateReturnsOwnIffUntouched | internal/registry/services.go:90-122 | whatever happens between a successful transaction and the closing read, the update returns what it wrote at its revision exactly when the key was untouched, otherwise a later write or not found |
| Registry.RevisionIdentifies | internal/registry/services.go:54-71 | two listings of one registry showing the same revision show the same configuration there |
| Registry.PutIsReadBack | internal/registry/services.go:37-52 | after any operations, a valid configuration put under a name is what reading the name gives, at the next revision; an invalid one changes nothing, and no other name reads differently |
| Registry.UpdateIsReadBack | internal/registry/services.go:90-122 | the same for an update that succeeds and one that does not |
| Registry.DeleteIsReadBack | internal/registry/services.go:124-133 | after a delete the name reads as absent and every other name as before |
| Registry.ListingShowsReads | internal/registry/services.go:54-71 | a listing shows exactly what reading each name would |
| Registry.ListingUnique | internal/registry/services.go:54-71 | what is stored determines the listing |
| Registry.Services.Put | internal/registry/services.go:37-52 | stores the defaulted configuration at a fresh revision exactly when it validates; no other key changes |
| Registry.Services.Get | internal/registry/services.go:73-88 | the stored configuration with its revision, or not found |
| Registry.Services.UpdateWithRevision | internal/registry/services.go:90-122 | succeeds exactly when name and configuration are valid and the revision is the current one; the object runs transaction and read back to back, the read after other clients is UpdateReturnsOwnIffUntouched |
| Registry.Services.List | internal/registry/services.go:54-71 | all stored configurations in ascending key order, each with its revision |
| Registry.Services.Delete | internal/registry/services.go:124-133 | removes the configuration or reports that there is none; no other key changes |
| Snapshot.ServiceSnapshotKey | internal/traffic/server.go:438-471 | the fingerprint text, built entry by entry |
| Snapshot.SnapshotIdentifies | internal/traffic/server.go:438-471 | if no name in one of two listings holds an @, a numeral and a bar in a row, their fingerprints are equal exactly when the multisets of trimmed name and revision are |
| Snapshot.BarsCollide | internal/traffic/server.go:460-470 | with a bar in a name two different listings can have one fingerprint |
| Refresh.NextServiceWatchRevision | internal/traffic/server.go:425-436 | the least revision of at least 1 that exceeds every listed one |
| Refresh.PlansAreKeyed | internal/traffic/server.go:283-299 | the keys made again from the listeners of a plan are the plan's own keys |
| Refresh.CloseStale | internal/traffic/server.go:313-334 | exactly the unwanted listeners are closed, each once |
| Refresh.OpenMissing | internal/traffic/server.go:349-386 | up afterwards is what was up or could be opened; what was up is the same listener |
| Refresh.CloseStaleUdp | internal/traffic/server.go:336-347 | the same for UDP, with the options on record replaced for surviving listeners |
| Refresh.OpenMissingUdp | internal/traffic/server.go:388-409 | the same for UDP, with options recorded for new listeners |
| Refresh.Server.Reconcile | internal/traffic/server.go:313-409 | HTTP keys equal the wanted ones, TCP and UDP keys are those that were up or could be opened, survivors keep their identity, no socket is leaked or closed twice |
| Refresh.Server.Refresh | internal/traffic/server.go:259-413 | a failed listing or build changes nothing; a recognised listing only raises the watch revision; otherwise the new plan is in force, with balancer state and surviving listeners kept and the watch revision above every listed one |
| Refresh.Server.RefreshFrom | internal/traffic/server.go:259-413 | along the history of a registry every successful refresh, skipped or not, leaves in force the plan of exactly the current listing, and it succeeds exactly when that listing compiles |
| Refresh.Server.GetServiceWatchRevision | internal/traffic/server.go:415-423 | the watch starts no later than the first event after the listing in force |
| Refresh.SameFingerprintSameListing | internal/traffic/server.go:266-276 | between two states of one registry fingerprints are equal exactly when the listings are |
| Refresh.SkipIsSound | internal/traffic/server.go:266-276 | the same for any operations of any clients before and between the two listings |
| Refresh.OwnOptions | internal/traffic/server.go:291-299 | a UDP listener gets its own service's options exactly when the trimmed name finds a service with the same options; for trimmed names it always does |
| Refresh.OwnOptionsIffTrimmed | internal/traffic/server.go:291-299 | for a listing of the registry a UDP listener gets its own service's options if and only if the service's name is its own trim |
| Refresh.OptionsAreTheService | internal/traffic/server.go:546-554 | the options on record are the sizes and times of the service, each in its place, in nanoseconds |
| Refresh.UntrimmedNameLosesOptions | internal/traffic/server.go:291-299 | every valid UDP service alone under a name that is not its own trim compiles and has zero options |
| UdpSessions.SessionTable.Check | internal/traffic/server.go:564-573 | a live session is touched and returned, an expired one is removed and closed |
| UdpSessions.SessionTable.Insert | internal/traffic/server.go:586-599 | a session that is there already wins and the new connection is closed, otherwise the new one is entered |
| UdpSessions.SessionTable.Reap | internal/traffic/server.go:660-681 | exactly the expired sessions go, each closed once, whatever the order of the visit |
| UdpSessions.ReaperUsesOwnListener | internal/traffic/server.go:660-676 | the listener read back out of a session key is its own, so its service's time to live applies |
| UdpSessions.UseMarks | internal/traffic/server.go:602-630 | the end of a round trip marks its session, and no other, as used at that time |
| UdpSessions.EveryRunKeepsInv | internal/traffic/server.go:560-681 | under any interleaving each open connection is in the table under exactly one key or held by exactly one handler, the table holds open connections only, and none is closed twice |
| UdpSessions.HandlersShare | internal/traffic/server.go:560-600 | from the moment a handler is told to use a connection until that is closed, every handler with the same key is told to use the same |
| UdpSessions.KeysNeverShare | internal/traffic/server.go:560-600 | on every run a connection is handed out under one session key only |
| UdpSessions.KeysTellApart | internal/traffic/server.go:556-558 | equal session keys have the same listener key, client and trimmed upstream, when listener addresses and clients hold no bar |
| UdpSessions.InUseStaysOpen | internal/traffic/server.go:560-681 | a connection handed out stays open over any steps whose reapings and look-ups fall within the time to live of its hand-out |
| UdpSessions.ReapClosesIffExpired | internal/traffic/server.go:660-681 | the reaper closes a connection of the table exactly when it visits it expired, whether a handler uses it or not |
| UdpSessions.ReaperCanCloseInUse | internal/traffic/server.go:560-681 | a reaping later than the time to live closes the connection a first packet has just been told to use |

## Left out

- Sockets, HTTP forwarding, the reverse proxy, header cleaning, URL building, TCP copying and UDP round trips: input and output. Upstreams are functions from address to status, duration and whether the exchange completes.
- Reading and cloning request bodies in the retry loop, and their error replies: I/O.
- The single-candidate branch at internal/traffic/server.go:900: with at least two attempts there are never fewer than two candidates, so it cannot be reached.
- The etcd client, memberlist, JSON and `net` parsing: etcd is a map with a global revision, gossip a growing set of messages, encoding the identity; undecodable stored values, which a listing skips, do not occur.
- Gossip.InstalledVersionsOnlyRise: assumes single-writer keys, one TTL and no source restart, as the deployment has it; a restarted source numbers from one again and peers refuse it until it has caught up (`RestartCatchesUp`). That a late version is excepted is the code's doing, not the model's.
- SoftKVGarbage.CollectionIsInvisible: a list whose clock reading is older than its lock can differ in entries that expired in between; with keys of several writers it asks that merges find their entries live under the lock.
- Two refreshes racing each other (watch loop and fallback loop) and Shutdown, also against the session table: refreshes are serial and the model ends before Shutdown.
- UdpSessions.SessionTable.Reap: a session is named by its connection, so touching a session that has left the table, which nobody can see, is not modelled.
- Balancing.WeightedSharesAreExact: counts draws; that the generator makes them equally likely is not part of this model.
- Balancing.PlanState.ObserveLatency: averages are real numbers, rounding is not modelled; the same for the retry ratio in Failover.RetryBudgetBounds.
- Balancing.PlanState.NextRoundRobinIndex: counters are unbounded, wrap-around at 2^64 is not modelled.
- Failover.ServeRequest: the balancer state after a request is stated for a request served alone; of concurrent requests each counter move is one step of its own (Balancing.RoundRobinIsExact).
- Failover.SelectBackendTarget: only the four built-in balancers are registered; a strategy added at run time answers with an error.
- PlanCompiler.BuildPlan: error texts are dropped, and of several tag keys that read "relay" at most one is expected, since otherwise the iteration order of a Go map decides.
- Library sorting is a sort function with the same comparison; random shuffling is the swaps the library makes, driven by draws.
- ServiceModel.ApplyDefaults: works on a value, so the slices a Go configuration shares with its copy are not modelled; namespaces, versions and other fields no modelled code reads are absent.
- Registry.Services.Put: the audit stamps (update time and author) and store errors are absent.
- Statistics counters, metrics sampling, the event bus and writer, join and lease backoff, node registry, the HTTP API and application wiring: simple code around the parts modelled here.
