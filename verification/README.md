# Verified model of Nyxora's decision engine

Nyxora keeps several tunnels to a remote host and decides, from ping samples, which of
them carry traffic. This project models the parts that decide (the multipath scheduler,
the load balancer, the transport manager, the rate limiter, the resolver cache, the
failover detector, the route engine and the monitor loop), the encoders whose output
another party reads back, and the histogram, and proves what they promise over whole
runs and interleavings.

Run `dafny verify dfyconfig.toml` to check everything.

## How the model is laid out

Objects whose methods update fields are classes (`Multipath.Scheduler`,
`LoadBalancer.Balancer`, `TransportManager.Manager`, `RateLimit.TokenBucket`,
`DnsCache.Resolver`, `Failover.Detector`, `Routing.Engine`, `Orchestrator.Orchestrator`,
`Reality.Connection`, `Histogram.Histogram`). Their methods have the loops and branches
of the source and are proved against functions on values (`Multipath.Apply`,
`LoadBalancer.WrrNext`, `RateLimit.Taken`, ...), and the `*Proofs` and `*Runs` modules
prove the promises about those functions for every input and every run. `Proportion` says
in numbers what the scheduler's weights are.

Concurrency is modelled by step systems whose steps are the lock regions of the source:
`TransportManager.Step` (the workers of ConnectAll), `DnsCache.Step` (callers of Lookup
under the read-write lock, with a clock) and `OrchestratorRuns.Step` (monitor loop,
evaluation and callback goroutines). `DnsCache.LookupIsSoloRun` and
`OrchestratorRuns.EverySoloPass` tie each of the last two to the sequential method.
`TransportRuns` takes whole ConnectAll calls as single steps of longer histories, and
`OutageRuns` follows the health of all transports through runs of `OrchestratorRuns`.

Conventions. `float64` is `real`, and Go's `int` is a mathematical integer; 32-bit and
64-bit wrap-around is written out where the code relies on it (frame lengths, nonce
counter, round-robin counter). Map iteration order is arbitrary: loops pick keys
nondeterministically, and results quantify over every enumeration (`Slices.Enumerates`).
Clock readings, ping results, connect outcomes, upstream DNS answers and the interleaving
are arguments. Path and backend weights are non-negative, which the code takes for
granted.

## Results worth knowing

* Reweighting can starve an active path exactly when at least 22 paths are active
  (`Starvation.StarvesExactlyFrom22`). The tunnel registry lists 12.
* The scheduler's cached total can go stale: the early return keeps the weight of a path
  that just dropped out (`MultipathProofs.StaleTotalReachable`). In weighted mode it is stale
  exactly since an update that took the last scored path, with some weight, out of use, and
  until the next call that recomputes it (`MultipathProofs.StaleExactlySince`); meanwhile the
  surplus falls to whichever path the map yields last (`MultipathProofs.StaleShares`).
* Weighted selection divides by the total without a check, and two calls reach a total of
  zero (`MultipathProofs.DivideByZeroReachable`). After an update with a good sample that
  cannot happen with up to a hundred active paths (`MultipathProofs.GoodUpdateSelectable`), and with
  equal scores a hundred is the exact limit (`MultipathProofs.EqualScoresSelectable`).
* ConnectAll never strands a transport, but DisconnectAll closes only active ones. In smart
  mode WireGuard is connected directly and never activated, so Stop leaves it open
  (`TransportRuns.SmartModeLeavesTunnelOpen`); in all-active mode it outlives Stop exactly if
  its ConnectAll worker does not begin before the deadline (`TransportRuns.AllActiveModeExactly`,
  `TransportRuns.SkippedTunnelStaysOpen`). `TransportRuns.LeftOpenExactly` is the condition for any history.
* A switch made by the monitor counts as two failovers, because both the callback and the
  loop record it; a switch made by the evaluation counts as one
  (`OrchestratorRuns.MonitorSwitchesCountTwice`).
* Every transport is given the same ping, so the evaluation fails over only in the middle of
  the pass that ends an outage, never during one (`OutageRuns.EvaluationFailsOverExactly`).
* A comment in internal/transport/reality.go:365 calls the last four nonce octets random;
  the code leaves them zero, and the model follows the code.
* Read accepts a message up to four octets longer than its buffer and drops what does not
  fit, and its 32-bit limit wraps: a buffer of 2^32 - 32 octets receives nothing
  (`Reality.LimitWraps`, `Reality.HugeBufferRefuses`).
* Removing a key hands its next request a full bucket, so a key's rate is bounded only
  together with its removals (`RateLimitProofs.KeyRate`, `RateLimitProofs.RemovalsRefill`).
* The secrets file round trip holds exactly for maps without `=` or newline in a name and
  without newline in a value (`Secrets.SaveThenLoad`); the DNS query reads back exactly for
  labels of 1 to 63 octets in a name of at most 255 (`DnsQuery.QueryDecodes`), a limit the
  encoder does not check (`DnsQuery.LongNameSent`); the histogram is cumulative exactly
  for ascending bounds, which its constructor does not check (`Histogram.CumulativeExactly`).

## Model

| member | source | states |
|---|---|---|
| `WeightMath.ScalingConserves` | internal/multipath/multipath.go:310-315 | conservation: rescaled weights times the total, plus all discarded remainders, is 100 times the sum of the weights |
| `WeightMath.RescaledSum` | internal/multipath/multipath.go:310-323 | n non-negative weights rescaled by their sum add up to between 101-n and 100, and to 100 exactly when no division leaves a remainder |
| `WeightMath.QuotientTruncates` | internal/multipath/multipath.go:313 | the integer division truncates toward zero, for either sign |
| `WeightMath.RawSumPerScore` | internal/multipath/multipath.go:290-306 | the rounded and clamped weights of n active paths sum to at most 131/24 n plus 55/3 per positive score, less than 24 n |
| `WeightMath.FullReweighting` | internal/multipath/multipath.go:276-324 | the final weights of n active paths sum to between 101-n and 100, are non-negative, and never invert the order of the scores |
| `WeightMath.NobodyStarved` | internal/multipath/multipath.go:276-324 | with at most 21 active paths every one keeps a weight of at least 1 |
| `Starvation.StarvesExactlyFrom22` | internal/multipath/multipath.go:276-324 | n active paths with some positive score can leave one a final weight of 0 exactly when n is at least 22 |
| `Starvation.EqualScores` | internal/multipath/multipath.go:276-324 | n equal positive scores each end at 100/n rounded down, and their total is zero exactly when n exceeds 100 |
| `Multipath.Scheduler.AdjustWeights` | internal/multipath/multipath.go:276-324 | the four loops leave exactly the final weights (what those are in numbers is UpdateNearest) and their exact active total, or change nothing when no active path has a positive score |
| `Multipath.Scheduler.AssignRaw` | internal/multipath/multipath.go:292-306 | with x twenty times its score over the average, an active path gets 5 when x is below 5.5, 60 when x is at least 59.5 and the nearest integer otherwise; an inactive one gets zero, and nothing else changes |
| `Proportion.NearestUnique` | internal/multipath/multipath.go:297-306 | that description leaves one weight only |
| `Multipath.Scheduler.Recalculate` | internal/multipath/multipath.go:266-274 | the cached total becomes the sum of the active weights, whatever order the map is visited in |
| `Multipath.Scheduler.SetMode` | internal/multipath/multipath.go:60-65 | the mode changes and the total is recomputed |
| `Multipath.Scheduler.AddPath` | internal/multipath/multipath.go:67-78 | an inactive, unscored path of the given weight replaces any of that name, and the total is recomputed |
| `Multipath.Scheduler.RemovePath` | internal/multipath/multipath.go:80-85 | the path goes and the total is recomputed |
| `Multipath.Scheduler.UpdatePath` | internal/multipath/multipath.go:87-105 | an unknown path changes nothing; a known one takes the sample, is active exactly for a positive score and a loss under 50, and only weighted mode reweights |
| `Multipath.Scheduler.SetActive` | internal/multipath/multipath.go:107-114 | a known path takes the flag and the total is recomputed |
| `Multipath.Scheduler.SelectPath` | internal/multipath/multipath.go:116-162 | nil exactly without active paths; otherwise an active path of least latency or loss, the indexed one, or the one the cumulative search finds; weighted mode divides by zero exactly when the total is zero |
| `Multipath.Scheduler.SearchWeight` | internal/multipath/multipath.go:153-160 | the search with its trailing fallback stops where the running total first exceeds the residue, else at the last path |
| `Multipath.Scheduler.SelectPaths` | internal/multipath/multipath.go:164-184 | the requested number of active paths, capped; none left out scores higher than one returned; a negative count fails |
| `Multipath.Scheduler.Distribution` | internal/multipath/multipath.go:186-197 | the weight of each active path by its name |
| `Multipath.Scheduler.BestPath` | internal/multipath/multipath.go:199-213 | an active path no active path beats, or nil exactly when none is active |
| `MultipathProofs.UpdateReweights` | internal/multipath/multipath.go:87-105 | a weighted-mode update that leaves its path active ends with inactive weights zero, 101-n to 100 points shared in score order, nobody starved up to 21 paths, and an exact cached total |
| `MultipathProofs.RunCarries` | internal/multipath/multipath.go:67-114 | after any run of calls a path is there and has the kind, score, latency, loss, bandwidth and activity its own last calls gave it |
| `MultipathProofs.SelectionAfterRun` | internal/multipath/multipath.go:116-140 | so lowest-latency and lowest-loss selection compare the latencies and losses of the last samples of the paths, whatever came between |
| `MultipathProofs.UpdateNearest` | internal/multipath/multipath.go:276-324 | in numbers, after a weighted update with a good sample: the raw weights of the active paths are those nearest integers, with the mean over the active positive scores, and each final weight is the raw weight as a percentage of their sum, rounded down |
| `MultipathProofs.MeanScoreIs` | internal/multipath/multipath.go:279-290 | the mean is the sum of the positive scores of active paths by their number |
| `MultipathProofs.UpdateProportional` | internal/multipath/multipath.go:276-324 | after such an update in which no weight is clamped, each of n active paths has a final weight above 100 q - 1 - 2.6 (1/n + q) and at most 100 q + 2.6 (1/n + q), q being its share of the active scores |
| `Proportion.NearCutShares` | internal/multipath/multipath.go:276-324 | with clamping the same holds with 10 for 2.6, q being the share among the scores cut off at a quarter of and three times the mean |
| `MultipathProofs.ReachableCacheSound` | internal/multipath/multipath.go:60-114 | in every reachable state in weighted mode the cached total is at least the active weights, and equal to them whenever an active path has a positive score |
| `MultipathProofs.StaleTotalReachable` | internal/multipath/multipath.go:286-288 | three calls reach a weighted-mode state whose cached total is 10 while the active weights sum to 0 |
| `MultipathProofs.GoesStaleExactly` | internal/multipath/multipath.go:87-105 | corollary of StaleAfterCall: an exact total goes stale exactly by an update that takes an active path with some weight out of use while no other active path has a positive score |
| `MultipathProofs.StaleAfterCall` | internal/multipath/multipath.go:60-114 | for every call in weighted mode: the total is stale afterwards exactly if the call is such an update, or it was stale and the call does not recompute it |
| `MultipathProofs.StaleExactlySince` | internal/multipath/multipath.go:60-114 | in every reachable weighted state the total is stale exactly if some earlier call was such an update and no call since was AddPath, RemovePath, SetMode, SetActive of a known path or a weighted update leaving a scored path |
| `MultipathProofs.DivideByZeroReachable` | internal/multipath/multipath.go:151 | two calls reach a weighted state with an active path and a total of zero |
| `MultipathProofs.ZeroTotalExactly` | internal/multipath/multipath.go:60-114 | in every reachable weighted state the divisor is zero exactly if every active path has weight zero and the total is not stale |
| `MultipathProofs.GoodUpdateSelectable` | internal/multipath/multipath.go:87-105 | after a weighted update with positive score and loss under 50 the total is positive while at most 100 paths are active |
| `MultipathProofs.EqualScoresSelectable` | internal/multipath/multipath.go:87-105 | when all active scores are equal, such an update leaves a total of zero exactly if more than 100 paths are active |
| `MultipathProofs.ExactShares` | internal/multipath/multipath.go:151-160 | with an exact positive total, for every enumeration: each path is chosen by exactly Weight residues, never at weight zero, and the fallback is unreachable |
| `MultipathProofs.StaleShares` | internal/multipath/multipath.go:151-160 | with a total that is too large every path still has its weight, and the surplus goes to the path enumerated last |
| `MultipathProofs.ReachableShares` | internal/multipath/multipath.go:116-162 | in a reachable scored state any totalWeight consecutive ticks are shared exactly by weight |
| `WeightedPick.PickInterval` | internal/loadbalancer/balancer.go:224-231 | a residue selects an index exactly when it lies in the interval of its weight, the last interval being open |
| `WeightedPick.HitsWindow` | internal/loadbalancer/balancer.go:211-232 | any t consecutive residues modulo t give each index its weight, plus for the last index what no weight covers |
| `LoadBalancer.Balancer.AddBackend` | internal/loadbalancer/balancer.go:55-65 | a healthy backend is appended, the others keep their identity and state |
| `LoadBalancer.Balancer.RemoveBackend` | internal/loadbalancer/balancer.go:68-77 | the first backend of that name is cut out, order kept; an unknown name changes nothing |
| `LoadBalancer.Balancer.UpdateMetrics` | internal/loadbalancer/balancer.go:140-150 | the first backend of that name takes latency and connections, all else is unchanged |
| `LoadBalancer.Balancer.MarkHealthy` | internal/loadbalancer/balancer.go:153-163 | the first backend of that name becomes healthy with no failures, all else is unchanged |
| `LoadBalancer.Balancer.MarkUnhealthy` | internal/loadbalancer/balancer.go:166-177 | the first backend of that name becomes unhealthy with one more failure, all else is unchanged |
| `LoadBalancer.Balancer.GetHealthy` | internal/loadbalancer/balancer.go:192-200 | exactly the healthy backends of the pool, each position once and in increasing order |
| `LoadBalancer.HealthyMembers` | internal/loadbalancer/balancer.go:192-200 | the selection function ranges over exactly the backends of the pool whose flag is set |
| `LoadBalancer.HealthyPositions` | internal/loadbalancer/balancer.go:192-200 | it lists them at increasing positions of the pool |
| `LoadBalancer.Balancer.Next` | internal/loadbalancer/balancer.go:80-106 | null exactly when no backend of the pool is healthy, otherwise a healthy one of the pool; the least loaded or fastest of them by those algorithms; which one the others return and how the two counters move; IP hash without an address falls back to round-robin |
| `LoadBalancer.Balancer.NextWithIP` | internal/loadbalancer/balancer.go:109-137 | null exactly when no backend of the pool is healthy, otherwise a healthy one; with IP hash the choice depends on the address and the healthy list alone and no counter moves; otherwise as Next |
| `LoadBalancer.Balancer.WeightedRoundRobinSelect` | internal/loadbalancer/balancer.go:211-232 | the counter steps modulo the total weight and selects by the cumulative search; with all weights zero the first backend and no step |
| `LoadBalancer.Balancer.IPHashSelect` | internal/loadbalancer/balancer.go:270-303 | a function of the digest and the weights that changes nothing |
| `LoadBalancer.Balancer.LeastConnectionsSelect` | internal/loadbalancer/balancer.go:234-245 | the first backend with the fewest connections |
| `LoadBalancer.Balancer.LeastLatencySelect` | internal/loadbalancer/balancer.go:247-258 | the first backend with the least latency |
| `LoadBalancerProofs.WrrFair` | internal/loadbalancer/balancer.go:211-232 | any W consecutive weighted round-robin calls over weights summing to W pick each backend exactly Weight times, from any counter |
| `LoadBalancerProofs.RrFair` | internal/loadbalancer/balancer.go:202-209 | any n consecutive round-robin calls over n backends pick each exactly once, from any counter |
| `LoadBalancerProofs.HashShare` | internal/loadbalancer/balancer.go:270-303 | of the 2^64 digests each backend receives between Weight times floor and Weight times ceil of 2^64/W; with all weights zero, between floor and ceil of 2^64/n |
| `LoadBalancerProofs.HashSkipsZeroWeight` | internal/loadbalancer/balancer.go:292-300 | no digest selects a backend of weight zero while some weight is positive |
| `LoadBalancerProofs.HealUndoesFail` | internal/loadbalancer/balancer.go:153-177 | corollary of the two marking methods: failing and healing a name leaves every other backend as it was and the named one healthy with only its failure time changed |
| `TransportManager.Manager.ConnectAll` | internal/transport/manager.go:109-198 | for every complete interleaving of the workers, the result, the active map and the open transports are as the collected reports settle them |
| `TransportManager.Manager.RunWorkers` | internal/transport/manager.go:132-155 | running the workers step by step queues the reports and opens the transports of the step system |
| `TransportManager.Manager.Settle` | internal/transport/manager.go:157-197 | failures are disconnected, and the candidates kept or dropped by mode around one of best score |
| `TransportManager.Manager.DisconnectAll` | internal/transport/manager.go:281-290 | exactly the active transports are closed and nothing stays active |
| `TransportManager.Manager.Register` | internal/transport/manager.go:32-42 | the transport replaces any of its name and takes the weight of the first registry entry of that name, if there is one |
| `TransportManager.Manager.Activate` | internal/transport/manager.go:212-220 | a registered transport becomes active, an unknown one is refused |
| `TransportManager.Manager.NormalizeWeights` | internal/transport/manager.go:266-279 | every weight is rescaled by the total, or nothing changes when the total is zero |
| `TransportManagerProofs.ConnectAllFromAnyState` | internal/transport/manager.go:109-198 | from any open set and active map, over all outcomes, completion orders and skipped subsets: an error exactly when nothing connected; what was open and did not report stays open; of the rest, best mode leaves open one of maximal score and all-active mode exactly the successes; what DisconnectAll would leave open loses exactly the transports that reported |
| `TransportManagerProofs.ConnectAllByEvents` | internal/transport/manager.go:132-197 | read off what the workers met: an error exactly when none connected, naming each refused transport once and nothing else; otherwise the primary connected with a score no connected one exceeds |
| `TransportManagerProofs.ConnectAllLeaves` | internal/transport/manager.go:157-197 | read off what the workers met: open are the transports taken up and those open before that nobody tried; active those taken up, with all other entries as before |
| `TransportManagerProofs.ReportsAreFinishes` | internal/transport/manager.go:142-152 | the channel holds what each worker met, nothing else and nothing lost |
| `TransportManagerProofs.ConnectAllOutcome` | internal/transport/manager.go:109-198 | corollary with nothing open or active before: best mode leaves open and active one transport of maximal score, all-active mode exactly the successes, and DisconnectAll then leaves nothing open |
| `TransportManagerProofs.WhoReports` | internal/transport/manager.go:132-152 | a transport reports exactly if its worker begins before the deadline passes |
| `TransportManagerProofs.NothingStrandedExactly` | internal/transport/manager.go:109-290 | after ConnectAll, DisconnectAll leaves nothing open exactly if every transport open before was active or begins before the deadline |
| `TransportManagerProofs.EveryoneReports` | internal/transport/manager.go:132-152 | unless the deadline passes, every transport is tried and reports |
| `TransportManagerProofs.OrderOnlyBreaksTies` | internal/transport/manager.go:154-195 | the completion order decides nothing but which of several best-scoring transports is kept |
| `TransportRuns.LeftOpenExactly` | internal/transport/manager.go:109-290 | after any history of direct connections, ConnectAll, Activate, Deactivate and DisconnectAll, DisconnectAll leaves a transport open exactly if some call connected it while inactive or deactivated it while open, and no later call activated it, closed it, or was a ConnectAll that began it in time |
| `TransportRuns.ConnectAllNeverStrands` | internal/transport/manager.go:109-220 | histories without direct connections and deactivations leave nothing for DisconnectAll to miss |
| `TransportRuns.SmartModeLeavesTunnelOpen` | internal/orchestrator/connect.go:119-144 | in smart mode the directly connected WireGuard tunnel is still open after DisconnectAll |
| `TransportRuns.AllActiveModeExactly` | internal/orchestrator/connect.go:119-141 | in all-active mode what DisconnectAll leaves open is the WireGuard tunnel if its worker does not begin before the deadline, and nothing otherwise |
| `TransportRuns.SkippedTunnelStaysOpen` | internal/orchestrator/connect.go:119-141 | a run in which the deadline passes first, ConnectAll fails and the tunnel stays open |
| `TransportManagerProofs.NormalizedWeights` | internal/transport/manager.go:266-279 | normalized weights keep their order and sum to between 101-n and 100, to 100 exactly when every division is exact |
| `RateLimit.TokenBucket.Refill` | internal/ratelimit/ratelimit.go:49-57 | the level is the smaller of the maximum and the old level plus (now - last refill) times the rate, and the refill time is now |
| `RateLimit.TokenBucket.Allow` | internal/ratelimit/ratelimit.go:25-34 | with the level the smaller of the maximum and the old level plus (now - last refill) times the rate: granted exactly when it is at least the request, which is then taken; otherwise only refilled |
| `RateLimit.TokenBucket.Available` | internal/ratelimit/ratelimit.go:59-64 | the level after refilling |
| `RateLimit.TokenBucket.Wait` | internal/ratelimit/ratelimit.go:36-47 | terminates, whatever other callers take between its polls; succeeds at the first poll that can be granted and takes the tokens once; fails only after the deadline, with every poll refused |
| `RateLimit.WaitAlone` | internal/ratelimit/ratelimit.go:36-47 | with nobody else calling, the polls of a Wait decide and leave the bucket as its last poll alone would |
| `RateLimit.RefillComposes` | internal/ratelimit/ratelimit.go:49-57 | refilling at t1 and then t2 equals refilling at t2 |
| `RateLimit.Limiter.GetBucket` | internal/ratelimit/ratelimit.go:91-98 | a missing key gets a fresh full bucket of its own, other keys are untouched |
| `RateLimit.Limiter.Allow` | internal/ratelimit/ratelimit.go:100-105 | a disabled limiter always allows and changes nothing; otherwise the bucket of the key, a full one if it has none, is refilled at the rate and decides, and no other key is touched |
| `RateLimit.Limiter.Remove` | internal/ratelimit/ratelimit.go:107-111 | the key's bucket goes, the others stay |
| `RateLimitProofs.RunSound` | internal/ratelimit/ratelimit.go:25-57 | through any run, negative requests included, no level is negative and what a call finds is between zero and the maximum; without negative requests so is every level |
| `RateLimitProofs.TakenSoundExactly` | internal/ratelimit/ratelimit.go:25-34 | a call keeps the level between zero and the maximum exactly if it does not give back more than the free space |
| `RateLimitProofs.WindowBound` | internal/ratelimit/ratelimit.go:25-57 | over any run and any window of time the tokens granted, net of negative requests, are at most maximum + rate * (hi - lo) |
| `RateLimitProofs.WindowBoundReached` | internal/ratelimit/ratelimit.go:25-57 | for every positive maximum and every window some run is granted exactly maximum + rate * (hi - lo) |
| `RateLimitProofs.WindowBoundTight` | internal/ratelimit/ratelimit.go:25-57 | some run reaches that bound exactly if the maximum is positive or rate * (hi - lo) is zero |
| `RateLimitProofs.IdleChangesNothing` | internal/ratelimit/ratelimit.go:36-64 | an Available call or a refused Allow changes no later answer |
| `RateLimitProofs.EffectiveRun` | internal/ratelimit/ratelimit.go:36-64 | a run without its idle calls grants everything and ends in an indistinguishable bucket |
| `RateLimitProofs.RefusedWaitInvisible` | internal/ratelimit/ratelimit.go:36-47 | a refused Wait leaves a bucket that cannot be told from one that only the other callers used, however they come between its polls |
| `RateLimitProofs.KeysIndependent` | internal/ratelimit/ratelimit.go:91-111 | the decisions about one key in any run of the limiter are those of one bucket given that key's calls alone |
| `RateLimitProofs.KeyWindowBound` | internal/ratelimit/ratelimit.go:91-111 | over any run of the limiter, from any state it can be in, and any window, the tokens granted to a key are at most (1 + removals of the key in the window) * maximum + rate * (hi - lo) |
| `RateLimitProofs.KeyRate` | internal/ratelimit/ratelimit.go:84-111 | the same bound for every run of a new limiter |
| `RateLimitProofs.RemovalsRefill` | internal/ratelimit/ratelimit.go:91-111 | k removals, each followed by a full drain, are granted k bucketfuls with no time passing |
| `DnsCache.Resolver.constructor` | internal/dns/dns.go:26-46 | an empty cache; missing nameservers and a non-positive timeout or lifetime get their defaults |
| `DnsCache.Resolver.Lookup` | internal/dns/dns.go:48-93 | an entry that is fresh at either check is returned and nothing changes; otherwise the first address of the first nameserver that answers with one is returned and stored until now plus the lifetime; with no such nameserver the system resolver decides, with its two errors, which store nothing |
| `DnsCache.UpstreamIs` | internal/dns/dns.go:63-90 | for the least index with a non-empty answer the upstream result is that answer, and the fallback decides only when there is none |
| `DnsCache.CacheSafety` | internal/dns/dns.go:48-93 | for any interleaving of callers, two stores for a host with no clearing between them are a lifetime apart, every cached answer was stored less than a lifetime before its check, and a writer is alone |
| `DnsCache.StoreSpaced` | internal/dns/dns.go:59-75 | the second check under the write lock puts a new store a lifetime after the previous one |
| `DnsCache.LookupIsSoloRun` | internal/dns/dns.go:48-93 | a caller that meets nobody leaves the cache Lookup specifies, and its answer is the one hit the run records, the one store it makes, or an error when there is neither |
| `DnsQuery.SplitDomain` | internal/dns/dns.go:162-175 | the segments before each dot, and a non-empty rest |
| `DnsQuery.MakeDNSQuery` | internal/dns/dns.go:142-160 | header, length-prefixed labels, root, type A, class IN; a length is one octet |
| `DnsQuery.QueryHeader` | internal/dns/dns.go:143-148 | by section 4.1.1 of RFC 1035 the first twelve octets are those of a standard recursive query with one question and no records |
| `DnsQuery.QueryDecodes` | internal/dns/dns.go:142-160 | by the rules of sections 3.1 and 4.1.2 of RFC 1035 the query reads back as one question of type 1 and class 1 for the labels of the name exactly when each has 1 to 63 octets and the name at most 255 |
| `DnsQuery.LongNameSent` | internal/dns/dns.go:142-160 | a name of 321 octets with good labels is encoded all the same, and its query is not readable |
| `DnsQuery.JoinedNameRoundTrip` | internal/dns/dns.go:142-175 | splitting a name joined from good labels gives them back and the query carries exactly them, for any length of name; the question decodes exactly when the name fits in 255 octets; a final dot makes no difference |
| `DnsQuery.QueriesDistinguishNames` | internal/dns/dns.go:142-175 | two names of good labels, of any length, have the same query exactly when they are equal up to one trailing dot |
| `DnsQuery.ParseDNSResponse` | internal/dns/dns.go:177-208 | both error cases; otherwise no index leaves the message, and there are at most ancount and at most one per 16 octets addresses |
| `DnsQuery.RecordsReadBack` | internal/dns/dns.go:195-207 | from where records really start, for every sequence of encoded records the second loop returns exactly the data of those of type 1 and length 4, in order |
| `Splitting.SplitJoin` | internal/dns/dns.go:162-175 | splitting undoes joining separator-free segments whose last is not empty |
| `Splitting.SplitRecovers` | internal/secret/rotation.go:197-210 | a text is recovered from its segments up to one trailing separator, and no segment contains the separator |
| `Failover.Detector.Update` | internal/failover/failover.go:109-141 | the sampled transport is healthy exactly for a latency below 200 and a loss below 10; otherwise it has one more failure and is down from the third on, degraded before; every other state is unchanged, and the recover callback fires exactly when a bad run ends |
| `Failover.Detector.Evaluate` | internal/failover/failover.go:143-177 | one callback for each transport that is down, all to one and the same healthy transport, or none |
| `Failover.StatusFollowsHistory` | internal/failover/failover.go:109-141 | a sample being bad when its latency reaches 200 or its loss 10, after any history: healthy, degraded or down as the trailing bad run has length 0, 1-2 or more; the fail count is that length; one recover callback per bad run that ended |
| `Failover.StatusByLastThree` | internal/failover/failover.go:109-141 | healthy exactly if the last sample was below 200 and 10 or there is none; down exactly if each of the last three reached 200 or 10 |
| `Failover.OwnSamplesDecide` | internal/failover/failover.go:109-141 | the whole state of a transport and its recover callbacks are those of a detector given its own samples alone |
| `Routing.Engine.Update` | internal/routing/engine.go:22-38 | the path is recorded under its name with its score, the rest kept |
| `Routing.Engine.BestPath` | internal/routing/engine.go:52-63 | a recorded path of maximal score, none exactly when nothing is recorded |
| `Routing.Engine.CurrentScore` | internal/orchestrator/lifecycle.go:206-213 | the recorded score of the name, zero if it has none |
| `Orchestrator.Orchestrator.constructor` | internal/orchestrator/orchestrator.go:66-137 | the enabled transports of the registry registered and closed, every registry path added to the scheduler, both callbacks installed, no route |
| `Orchestrator.Orchestrator.ConnectTunnels` | internal/orchestrator/connect.go:106-151 | WireGuard is registered if missing and connected past the manager; if that fails nothing else happens; otherwise all-active mode runs ConnectAll from that state, and WireGuard becomes the route |
| `Orchestrator.Orchestrator.Stop` | internal/orchestrator/lifecycle.go:58 | exactly the active transports are closed |
| `Orchestrator.Orchestrator.OnFailoverCallback` | internal/orchestrator/orchestrator.go:124-128 | sets the route and records one failover with its time |
| `Orchestrator.Orchestrator.MonitorPass` | internal/orchestrator/lifecycle.go:173-200 | records every transport in all three components, in all-active mode copies the active weights to the transport manager, then switches exactly when some path beats the current one by more than 15, to one of maximal score |
| `OrchestratorProofs.GoodPassShares` | internal/orchestrator/lifecycle.go:173-186 | from Init on and after any passes, a pass giving some path a good sample ends with an exact total of at least 101 less the number of registered tunnels, shared in score order, and nobody starved with up to 21 |
| `OrchestratorProofs.RegistryShares` | internal/transport/registry.go:18-163 | with the twelve registered tunnels such a pass leaves every active path a share and a total of 89 to 100 |
| `OrchestratorProofs.InitPlans` | internal/orchestrator/orchestrator.go:116-122 | Init gives every path of the registry its type and weight, inactive and unscored |
| `OrchestratorProofs.PassRecordsRoute` | internal/orchestrator/lifecycle.go:173-178 | each listed transport's route has the ping's latency and loss, its own jitter, stability and bandwidth, and the score of these |
| `OrchestratorProofs.PassSamples` | internal/orchestrator/lifecycle.go:173-178 | each listed transport is sampled with the ping, so healthy exactly below 200 and 10 |
| `OrchestratorProofs.PassUpdatesPath` | internal/orchestrator/lifecycle.go:173-178 | each listed transport's path takes its own score and bandwidth and the ping's latency and loss, and is active exactly for a positive score and a loss under 50 |
| `Orchestrator.AtMostOneSwitch` | internal/orchestrator/lifecycle.go:188-200 | over any number of passes with unchanged scores the route changes at most once |
| `Orchestrator.FlapNeedsSwing` | internal/orchestrator/lifecycle.go:188-200 | corollary of the switching rule: switching to a route and back takes a swing of more than 30 between the two scores |
| `OrchestratorRuns.InterleavingsSafe` | internal/orchestrator/lifecycle.go:158-204 | at every point of every interleaving of monitor, evaluation and callbacks: detector keys are recorded routes, so every failover target is one; the current route is the first or recorded; every monitor switch went to a path of maximal score beating the route it compared by more than 15 |
| `OrchestratorRuns.MonitorSwitchesCountTwice` | internal/orchestrator/lifecycle.go:193-199 | at rest the failover counter is one per switch by a callback plus two per switch by the monitor |
| `OrchestratorRuns.PassIsSoloRun` | internal/orchestrator/lifecycle.go:173-200 | a pass without interference can run to its end, recording, sampling, deciding and counting as MonitorPass specifies |
| `OrchestratorRuns.EverySoloPass` | internal/orchestrator/lifecycle.go:173-200 | every pass without interference ends that way, whichever best path it picks |
| `OutageRuns.EvaluationFailsOverExactly` | internal/failover/failover.go:143-177 | over a fixed set of transports, in every interleaving, the evaluation launches failovers exactly in the middle of a pass that ends an outage, from transports the pass has not sampled yet to one it has |
| `OutageRuns.RecoveryFailsOver` | internal/orchestrator/lifecycle.go:173-178 | such a moment is reached after three bad passes over any two or more transports |
| `Reality.Connection.Encrypt` | internal/transport/reality.go:351-372 | nonce, then the sealed text; the counter advances modulo 2^64 only on success |
| `Reality.Connection.Write` | internal/transport/reality.go:320-348 | on success exactly one frame goes on the wire; otherwise which error, and nothing changes |
| `Reality.FrameOctets` | internal/transport/reality.go:320-372 | four octets of length, the highest first, twelve of nonce and the sealed message, 16 octets longer than the plain one |
| `Reality.NonceOctets` | internal/transport/reality.go:362-368 | the nonce is the counter in eight octets, the lowest first, and four zeros |
| `Reality.Connection.Decrypt` | internal/transport/reality.go:375-404 | which of the three errors, or the opened text |
| `Reality.Connection.Read` | internal/transport/reality.go:284-317 | consumes what one frame occupies, fills the buffer with what fits and leaves the rest of it; on an error the buffer is untouched |
| `Reality.FrameReadBack` | internal/transport/reality.go:284-348 | for every buffer size and every message whose frame length fits 32 bits: the message comes back exactly if the frame is within the limit the buffer comes to in 32 bits, and is refused after its length otherwise |
| `Reality.LimitWraps` | internal/transport/reality.go:300 | below 2^32 - 32 octets a buffer admits messages up to four octets longer than itself, and at 2^32 - 32 none |
| `Reality.HugeBufferRefuses` | internal/transport/reality.go:300-302 | a buffer of 2^32 - 32 octets is refused every message |
| `Reality.MessagesComeBackExactly` | internal/transport/reality.go:284-404 | messages written in sequence and read with the matching key come back exactly and in order, whatever follows, exactly if every buffer is as long as its message and admits its frame |
| `Reality.MessagesComeBack` | internal/transport/reality.go:284-404 | corollary: with buffers below 2^32 - 32 octets it is enough that none is shorter than its message |
| `Reality.WritesMakeStream` | internal/transport/reality.go:320-372 | one more Write appends the frame of the next counter |
| `Reality.NonceReuse` | internal/transport/reality.go:365-368 | frames i and j of a session share a nonce exactly when i and j agree modulo 2^64 |
| `Secrets.SaveSecrets` | internal/secret/rotation.go:168-174 | the text is the name=value lines in some enumeration of the map |
| `Secrets.LoadSecrets` | internal/secret/rotation.go:177-195 | each line with an equals sign sets the name before the first one; other lines are skipped |
| `Secrets.LoadedExactly` | internal/secret/rotation.go:177-219 | the names are exactly those some line sets, each with what follows the equals sign on the last line that sets it |
| `Secrets.SplitLines` | internal/secret/rotation.go:197-210 | the segments before each newline, and a non-empty rest |
| `Secrets.SplitKeyEqualsValue` | internal/secret/rotation.go:212-219 | the two sides of the first equals sign, or the whole line |
| `Secrets.SaveThenLoad` | internal/secret/rotation.go:168-219 | loading gives the saved map back exactly when no name contains = or a newline and no value a newline, for every iteration order |
| `Uuid.ParseUUID` | internal/transport/vless.go:206-245 | the octets of the hyphen-free digits, or which of the two errors and its character |
| `Uuid.ParsesExactly` | internal/transport/vless.go:206-245 | succeeds exactly on texts that are 32 hex digits without their hyphens |
| `Uuid.KeepsOthers` | internal/transport/vless.go:208-213 | what is parsed are the characters other than hyphens, in their order |
| `Uuid.OctetsSpelled` | internal/transport/vless.go:220-244 | each octet is 16 times the digit its first character spells plus the digit of its second |
| `Uuid.RefusalsNamed` | internal/transport/vless.go:215-239 | a refusal gives the length in octets if it is not 32, and otherwise the first octet that spells no digit |
| `Uuid.Utf8Number` | internal/transport/vless.go:209-213 | a character is cleaned to one to four octets, from which its number reads back |
| `Uuid.ParseIgnoresCaseAndHyphens` | internal/transport/vless.go:206-245 | two texts that parse give the same octets exactly when they spell the same digits up to case |
| `Uuid.FormatParsesBack` | internal/transport/vless.go:264-270 | parsing inverts the 8-4-4-4-12 text (section 4 of RFC 9562) of every sixteen octets |
| `Uuid.FormatShape` | internal/transport/vless.go:265-270 | 36 characters, hyphens at 8, 13, 18 and 23 and lower-case digits elsewhere |
| `Histogram.Histogram.constructor` | internal/metrics/metrics.go:51-59 | empty history and zero counters; the nine default bounds when none are given |
| `Histogram.Histogram.Observe` | internal/metrics/metrics.go:61-73 | the total grows by the observation and the count by one; the first bucket whose bound is at least the observation, or the overflow bucket, grows by one and no other changes; all agree with the extended history |
| `Histogram.Histogram.Mean` | internal/metrics/metrics.go:77 | the mean of the history, zero when it is empty |
| `Histogram.CountsSumToCount` | internal/metrics/metrics.go:61-73 | all counts sum to the number of observations, for any bounds |
| `Histogram.CumulativeCounts` | internal/metrics/metrics.go:61-73 | with ascending bounds the counts up to a bucket number the observations at most its bound |
| `Histogram.CumulativeExactly` | internal/metrics/metrics.go:51-73 | the counts are cumulative for every history exactly when the bounds ascend |

## Left out

- Multipath.Scheduler: paths are values in a map, so the aliasing of the pointers SelectPath and BestPath return is not captured; byte counters, uptime and AggregateBandwidth are plain reads.
- Multipath.Scheduler.AddPath: a negative weight, which the source does not check, is not modelled.
- LoadBalancer.Balancer.AddBackend: a negative weight, which the source does not check, is not modelled.
- Slices.SortByKey: stands for sort.Slice; the order of equal keys is one of those sort.Slice may produce, and no result depends on it.
- LoadBalancer.Balancer.Next: the random algorithm's index is an argument; MD5 is an arbitrary function from addresses to 64-bit numbers; the TotalConns field is never written and is not modelled.
- TransportManager.Manager.ConnectAll: Connect bodies, processes and the latency probe are outcomes; the theorems hold from any open set and active map, since the code clears neither and its caller has already connected WireGuard.
- RateLimit.Limiter.Allow: the two clock readings of a first request (making the bucket, then refilling it) are one.
- DnsCache.Resolver.Lookup: timeouts and sockets are folded into the upstream answers.
- DnsQuery.ParseDNSResponse: no claim that the addresses are those of the message, because the search for the end of the question starts inside the header; DnsQuery.RecordsReadBack has the claim for the record loop alone.
- Failover.Detector.Update: NaN samples, for which neither branch is taken, have no counterpart in `real`.
- Orchestrator.Orchestrator.MonitorPass: the ticker and logging; the scoring formula is an arbitrary function.
- Orchestrator.Orchestrator.ConnectTunnels: the SSH session, key exchange, provisioning and secrets around the tunnels.
- OutageRuns.EvaluationFailsOverExactly: assumes that every pass lists the same transports, as after Init and ConnectToRemote, which register all there are.
- OrchestratorRuns.InterleavingsSafe: one monitor loop, as after one ConnectToRemote; a second successful call would start another, and two loops can give transports different pings.
- TransportManagerProofs.NormalizedWeights: negative weights, which SetWeight does not check.
- Reality.MessagesComeBackExactly: a message whose frame is 2^32 octets or longer, whose length field does not tell its size.
- Reality.Connection.Write: one writer at a time (the two conn.Write calls are not under one lock) and no write errors; the handshake is the state it leaves.
- Secrets.SaveSecrets: file I/O; secret rotation is wall-clock bookkeeping.
- The VLESS header, ComputeScore and UpdateStability, DoHClient, the remaining transports, user interfaces, SSH, provisioning, packaging and TLS.
