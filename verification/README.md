# Verified model of gobalancer

gobalancer is a load balancer written in Go. This project models the decision logic behind its
I/O shell in Dafny and proves what that logic guarantees over whole runs, over every
interleaving, and for every input. `dafny verify dfyconfig.toml` checks all of it.

| file | what it models |
|---|---|
| `CircuitBreaker.dfy` | the breaker with whole calls as the unit of interleaving |
| `BreakerProtocol.dfy` | the breaker as a protocol of single atomic steps between any number of callers |
| `BreakerRefinement.dfy` | how the two relate, and the drain loop that can wait for ever |
| `ConsistentHash.dfy` | the hash ring, for an arbitrary hash function |
| `RateLimiter.dfy`, `Eviction.dfy` | the token bucket with whole calls, and its cleanup loop |
| `LimiterProtocol.dfy` | the token bucket as a protocol of single atomic steps |
| `HealthMachines.dfy`, `PassiveHealth.dfy` | the two active checkers and the passive one |
| `Backends.dfy`, `Selectors.dfy`, `Fleet.dfy` | backends, pool, selectors, and all of it running together |
| `Common.dfy` | what several modules share |
| `PathTrie.dfy` | the path-prefix router |
| `Sni.dfy` | the ClientHello parser and the replaying connection |

**Conventions.** Objects that the program updates in place are classes; their methods are proved
against step functions, and the theorems are about runs of those steps. A run is a sequence of
events, and `StateAt(…, i)` is the state after the first `i` of them. What a theorem counts
(failures in a row, probes in a period, promotions, admissions) is read off the history and not
off the counters of the program. Clock readings are parameters, in nanoseconds; "monotone" means
they do not decrease. Integers are unbounded. Rates and ratios are reals.

**Results that go against the code or its documentation.**

- The breaker's drain loop tests the channel's length and then receives, holding the mutex. A
  request that read HalfOpen earlier can take the permit in between; the drain then waits for
  ever, the breaker stays half-open and admits nobody (`WedgedForever`). Whatever the threshold
  and the open duration, that can happen exactly when at least one probe is allowed, and then also
  with a clock that never steps back (`WedgeIff`).
- Truncating each refill means that a client polling faster than one token's worth of time earns
  nothing, however long it polls, and that this is the only way to earn nothing
  (`FastPollingStarves`).
- Under interleaving, a refill can undo a concurrent decrement, so the accounting of the
  call-atomic limiter does not carry over (`DecrementCanBeLost`, `StoreOvershoot`). With time
  stamps swapped in order it does exactly when no gap is worth something but less than the burst
  (`AccountedIff`), and the limit on admissions alone survives under the same condition
  (`WithinLimitIff`): when the burst is at most one, nothing is refilled, or every nanosecond is
  worth a burst (`AllOrNothingIff`).
- A caller that reads the clock and swaps late puts the old time stamp back, and the same stretch
  of time is credited again. If that may happen, any number of requests get through within one
  stretch (`StaleSwapsAdmitAny`), and the window bound holds exactly when the burst or the rate is
  zero, or the burst negative (`WindowHoldsIff`).
- Cleanup of idle buckets is invisible exactly when one nanosecond more than the interval is worth
  a full burst (`CleanupInvisibleIff`). The configuration does not require that.
- DESIGN.md draws M consecutive successes from Probation to Healthy. The code keeps counting the
  successes that led to Probation, so one more is enough (`ProbationIsDecidedNext`).
- The comparison of the two active checkers needs both thresholds to be at least one, which the
  configuration does not enforce either (`NeverHealthierIff`).
- Draining is documented to stop the selector from routing to the backend. The hash ring is never
  rebuilt outside the tests, and once built it ignores the list of healthy backends: it goes on
  choosing a drained backend (`ServeDrained`), exactly for the clients whose owner that is in the
  list the ring was built from (`DisabledIsChosenIff`).
- `extractSNI` compares the length of a name with the data and not with the extension that holds
  it. A name can lie behind its extension, and even behind the record (`NameCanOverrun`); it lies
  inside exactly when the length of the extension leaves room for it (`NameIsInsideIff`).
- `extractSNI` has one input on which it indexes out of range: a bare five-byte handshake header
  that announces an empty record (`ExtractSNI`).

## Model

| member | source | states |
|---|---|---|
| CircuitBreaker.Breaker.constructor | internal/circuitbreaker/breaker.go:64-70 | a new breaker is Closed with no failures and an empty permit channel |
| CircuitBreaker.Breaker.Allow | internal/circuitbreaker/breaker.go:73-110 | the drain and refill loops leave exactly the limit of permits, no send blocks, and answer and new state are those of the step function |
| CircuitBreaker.Breaker.RecordSuccess | internal/circuitbreaker/breaker.go:113-121 | failures go to zero and only a half-open breaker closes |
| CircuitBreaker.Breaker.RecordFailure | internal/circuitbreaker/breaker.go:124-136 | the breaker opens at the threshold or when half-open, unless it already is open |
| CircuitBreaker.Drive | internal/circuitbreaker/breaker.go:64-136 | a live breaker fed any list of calls gives the answers and ends in the state of the run function |
| CircuitBreaker.ClosedCounterIsStreak | internal/circuitbreaker/breaker.go:113-136 | while Closed, the counter is the run of failures since the breaker last became Closed, below the threshold; failures counted while Open never carry over |
| CircuitBreaker.TripsExactlyAtThreshold | internal/circuitbreaker/breaker.go:124-132 | a Closed breaker opens at exactly the failure that completes the threshold, whatever the threshold |
| CircuitBreaker.OpenEndsExactly | internal/circuitbreaker/breaker.go:78-99 | an Open breaker becomes half-open at exactly an Allow that comes OpenDuration or more after the call that opened it; nothing else ends Open |
| CircuitBreaker.HalfOpenEndsExactly | internal/circuitbreaker/breaker.go:113-136 | a half-open breaker closes exactly on a success, opens exactly on a failure, and stays half-open on every Allow |
| CircuitBreaker.ClosedExactlyWhile | internal/circuitbreaker/breaker.go:113-136 | from a new breaker or from the success that closed it, the breaker stays Closed exactly until failures in a row reach the threshold |
| CircuitBreaker.AdmittedAfterRecovery | internal/circuitbreaker/breaker.go:73-76 | until then every Allow is admitted |
| CircuitBreaker.AdmittedExactly | internal/circuitbreaker/breaker.go:73-110 | every answer of Allow, read off the history: Closed always, Open if and only if OpenDuration has passed since the last opening and there is a probe to give, half-open if and only if the period has let fewer than HalfOpenProbes through |
| CircuitBreaker.ShedWhileOpen | internal/circuitbreaker/breaker.go:78-98 | with a monotone clock, every Allow before opening time plus OpenDuration is shed, whatever is recorded meanwhile |
| CircuitBreaker.HalfOpenPermitsBalance | internal/circuitbreaker/breaker.go:85-107 | in each half-open period, probes admitted plus permits left equal HalfOpenProbes, with nothing left over from an earlier period |
| CircuitBreaker.HalfOpeningsAreSpaced | internal/circuitbreaker/breaker.go:79-85 | two half-open periods start at least OpenDuration apart |
| CircuitBreaker.ProbeRateIsBounded | internal/circuitbreaker/breaker.go:73-136 | over a whole run, probes let through times OpenDuration are at most HalfOpenProbes times the time elapsed |
| BreakerProtocol.StepKeepsInv | internal/circuitbreaker/breaker.go:73-136 | every atomic step of every caller keeps the mutex, channel and phase invariants |
| BreakerProtocol.MutualExclusion | internal/circuitbreaker/breaker.go:81-134 | at most one caller is between a lock and its unlock |
| BreakerProtocol.PermitsAreConserved | internal/circuitbreaker/breaker.go:73-136 | under every interleaving, permits sent are taken by admitted requests, drained or still buffered, and the channel never overflows |
| BreakerProtocol.AdmissionsWithinTransitions | internal/circuitbreaker/breaker.go:73-136 | channel admissions are at most HalfOpenProbes per observed Open to HalfOpen transition, with drained and buffered permits counted in |
| BreakerProtocol.RefillNeverBlocks | internal/circuitbreaker/breaker.go:90-92 | a caller about to send a permit always finds room |
| BreakerProtocol.HalfOpenEndsByReport | internal/circuitbreaker/breaker.go:113-136 | under every interleaving, a half-open breaker is closed by exactly the store of a RecordSuccess and opened by exactly that of a RecordFailure |
| BreakerProtocol.SuccessCloses | internal/circuitbreaker/breaker.go:113-121 | a RecordSuccess that reads HalfOpen does not return before it has closed the breaker |
| BreakerProtocol.FailureOpens | internal/circuitbreaker/breaker.go:124-136 | a RecordFailure that reads HalfOpen or counts up to the threshold does not return before the breaker is open |
| BreakerRefinement.SoloAllow | internal/circuitbreaker/breaker.go:73-110 | run alone, the atomic steps of Allow have the effect and the answer of the call-atomic model |
| BreakerRefinement.SoloSuccess | internal/circuitbreaker/breaker.go:113-121 | the same for RecordSuccess |
| BreakerRefinement.SoloFailure | internal/circuitbreaker/breaker.go:124-136 | the same for RecordFailure |
| BreakerRefinement.CallsRefineSteps | internal/circuitbreaker/breaker.go:73-136 | every state of every call-atomic run is reached by some interleaving, with its clock in order if the calls' is |
| BreakerRefinement.WedgeIsReachable | internal/circuitbreaker/breaker.go:81-104 | with at least one probe permit and any threshold and open duration, two callers with a clock in order reach a state where the drain waits on an empty channel with the mutex held |
| BreakerRefinement.WedgeIff | internal/circuitbreaker/breaker.go:64-136 | such a state is reachable, with or without a clock in order, if and only if HalfOpenProbes is at least one |
| BreakerRefinement.WedgedForever | internal/circuitbreaker/breaker.go:73-136 | from there on the breaker stays half-open and nobody gets through the channel again |
| ConsistentHash.Ring.constructor | internal/balancer/consistenthash.go:24-32 | a non-positive number of virtual nodes becomes 150 |
| ConsistentHash.Ring.Build | internal/balancer/consistenthash.go:36-53 | the ring is the sorted bag of all virtual keys, as many as backends times virtual nodes, and the node map holds each key's last writer |
| ConsistentHash.Search | internal/balancer/consistenthash.go:74 | binary search splits the sorted ring at the first position at or after the hash |
| ConsistentHash.SearchIsClockwise | internal/balancer/consistenthash.go:72-78 | that position, wrapped at the end, is the clockwise successor |
| ConsistentHash.Ring.Next | internal/balancer/consistenthash.go:55-79 | the answer is the owner by definition in the list of the last Build; the list passed in matters only while the ring is empty |
| ConsistentHash.NearestOwns | internal/balancer/consistenthash.go:36-79 | for every hash: the backend of the virtual node nearest clockwise, whose text is the id, `#` and the numeral of its number, owns the client, the later backend winning on equal keys |
| ConsistentHash.OwnerIsNearest | internal/balancer/consistenthash.go:36-79 | every client has such a node, so the owner is always found that way |
| ConsistentHash.RemovalMovesOnlyItsOwn | internal/balancer/consistenthash.go:36-79 | for every hash, list, position and client, removing a backend changes the owner only of clients it owned, collisions included |
| ConsistentHash.InsertionMovesOnlyToIt | internal/balancer/consistenthash.go:36-79 | inserting a backend anywhere moves clients only to it |
| RateLimiter.Refill | internal/middleware/ratelimit.go:53-65 | the truncated conversion and cap grant the whole tokens the gap is worth |
| RateLimiter.CreditIsWholeTokens | internal/middleware/ratelimit.go:53-56 | a gap is worth rate tokens for every thousand million nanoseconds, and the credit is the whole part of that, never negative |
| RateLimiter.Limiter.Allow | internal/middleware/ratelimit.go:35-76 | bucket creation, refill and take in one call, for known and unknown clients |
| RateLimiter.Limiter.Sweep | internal/middleware/ratelimit.go:101-107 | exactly the buckets refilled before the cutoff are dropped |
| RateLimiter.SpendingIsCovered | internal/middleware/ratelimit.go:50-76 | between any two points of a run, tokens spent and held grow by no more than the time between is worth |
| RateLimiter.WindowBound | internal/middleware/ratelimit.go:50-76 | in every window of every run, admissions are at most burst plus the whole tokens of the window |
| RateLimiter.NeverBeatsIdeal | internal/middleware/ratelimit.go:50-76 | at every point, the truncating bucket has admitted no more than an independent fractional bucket |
| RateLimiter.WholeGapsMatchIdeal | internal/middleware/ratelimit.go:50-76 | when every gap is worth whole tokens, both buckets agree on state and admissions |
| RateLimiter.FastPollingStarves | internal/middleware/ratelimit.go:55-65 | a run admits and leaves exactly what the bucket held if and only if no gap is worth a whole token, a full bucket excusing the first gap |
| RateLimiter.BurstAtOnce | internal/middleware/ratelimit.go:35-76 | requests that all come at once are admitted exactly as long as there are tokens, so a new client gets the burst |
| Eviction.Replay | internal/middleware/ratelimit.go:35-107 | a live limiter with cleanup gives the answers the run function predicts |
| Eviction.ClientsAreSeparate | internal/middleware/ratelimit.go:35-76 | without cleanup, the bucket of a client is that of a run of its own requests alone, from a full bucket |
| Eviction.AnswersAreSeparate | internal/middleware/ratelimit.go:35-76 | and so is every answer to it |
| Eviction.EnoughCreditIsInvisible | internal/middleware/ratelimit.go:35-107 | with enough credit, evicting gives every client the answers of never evicting, in every run over all clients |
| Eviction.TooLittleCreditShows | internal/middleware/ratelimit.go:101-107 | with less, a client that spends its burst and comes back just after eviction is treated differently |
| Eviction.CleanupInvisibleIff | internal/middleware/ratelimit.go:35-107 | cleanup is invisible in every run if and only if the shortest evicting idle time earns the burst |
| LimiterProtocol.TokensInRange | internal/middleware/ratelimit.go:50-76 | under every interleaving, tokens stay between zero and the burst, even with clocks out of order |
| LimiterProtocol.AdmissionIsDecrement | internal/middleware/ratelimit.go:67-75 | an admission is exactly one decrement of a positive count |
| LimiterProtocol.TokensAreConserved | internal/middleware/ratelimit.go:50-76 | tokens are the burst plus what refill stores added minus admissions |
| LimiterProtocol.AdmissionsAreTheDrop | internal/middleware/ratelimit.go:67-75 | over any stretch without a refill store, admissions equal the drop in tokens |
| LimiterProtocol.FailedSwapMeansProgress | internal/middleware/ratelimit.go:67-75 | a compare-and-swap fails only if another caller was admitted or refilled since the load |
| LimiterProtocol.StoreOvershoot | internal/middleware/ratelimit.go:58-65 | a refill store grants at most its credit, plus what was taken between its load and itself, less what other stores added meanwhile |
| LimiterProtocol.SoloAllow | internal/middleware/ratelimit.go:50-76 | run alone, the atomic steps have the effect and answer of the call-atomic model |
| LimiterProtocol.CallsRefineSteps | internal/middleware/ratelimit.go:50-76 | every call-atomic run on a bucket, with its admissions, is one of the interleavings, with swaps in order if the clock is |
| LimiterProtocol.DecrementCanBeLost | internal/middleware/ratelimit.go:59-64 | whenever a gap is worth some tokens but less than the burst, an interleaving with swaps in order spends and holds more than the burst and the credit together |
| LimiterProtocol.AccountedIff | internal/middleware/ratelimit.go:50-76 | with swaps in order, what is spent and held stays within burst and credit in every interleaving if and only if every gap is worth nothing or at least the burst |
| LimiterProtocol.WithinLimitIff | internal/middleware/ratelimit.go:50-76 | the same for admissions alone: with swaps in order they stay within burst and credit in every interleaving if and only if every gap is worth nothing or at least the burst |
| LimiterProtocol.AllOrNothingIff | internal/middleware/ratelimit.go:53-58 | that is so if and only if the burst is at most one, the rate is not positive, or one nanosecond is worth the burst |
| LimiterProtocol.StaleSwapsAdmitAny | internal/middleware/ratelimit.go:51-58 | with a clock in order but late swaps, any number of requests are admitted within any stretch of time that is worth a token |
| LimiterProtocol.WindowHoldsIff | internal/middleware/ratelimit.go:50-76 | with a clock in order, the window bound holds in every interleaving if and only if the burst is not positive or the rate is zero |
| HealthMachines.StateMachine.Observe | internal/health/statemachine.go:26-115 | one observation, with its two clock readings, moves health and probe state as the step function says, other backends untouched |
| HealthMachines.Checker.Probe | internal/health/checker.go:87-130 | the same for the checker without backoff, given the probe outcome |
| HealthMachines.CountersAreRuns | internal/health/statemachine.go:26-39 | in both checkers the counters are the runs of failures and of successes at the end of the history, whatever else writes the health |
| HealthMachines.FallsExactlyAtThreshold | internal/health/statemachine.go:77-81 | a Healthy backend falls exactly when failures in a row reach the threshold |
| HealthMachines.PromotedExactly | internal/health/statemachine.go:83-98 | an Unhealthy backend is promoted exactly when enough successes in a row meet a backoff, counted from the history, that has expired |
| HealthMachines.BackoffFollowsPromotions | internal/health/statemachine.go:90-113 | the backoff is the base doubled once per promotion since the machine last restored the backend, capped |
| HealthMachines.BackoffSchedule | internal/health/statemachine.go:21-98 | that is 5, 10, 20, 40, 80 and 160 seconds, and 300 from then on |
| HealthMachines.FailedProbationWaits | internal/health/statemachine.go:83-106 | after a failed probation the backend stays out for at least that backoff |
| HealthMachines.ProbationIsDecidedNext | internal/health/statemachine.go:100-114 | on Probation a failure ejects, enough successes in a row restore and fewer change nothing; if only the machine promotes, one observation decides |
| HealthMachines.CheckerDecides | internal/health/checker.go:87-130 | the next health of the checker without backoff, for every health, from the runs of failures and successes |
| HealthMachines.DisabledIsLeftAlone | internal/health/statemachine.go:65-115 | no observation takes a backend into or out of Disabled |
| HealthMachines.NeverHealthier | internal/health/statemachine.go:65-115 | fed the same outcomes and the same outside writes, the machine with backoff is never healthier than the checker without |
| HealthMachines.AgreeWithoutWaiting | internal/health/checker.go:109-130 | the two agree step by step whenever every backoff test passes |
| HealthMachines.NeverHealthierIff | internal/health/statemachine.go:65-115 | the comparison holds in every run if and only if both thresholds are at least one |
| PassiveHealth.Slide | internal/health/passive.go:44-50 | the trim loop drops the stale front and the new event is appended |
| PassiveHealth.ErrorRateIsHigh | internal/health/passive.go:53-66 | the count loop and comparison decide whether the share of errors reaches the limit |
| PassiveHealth.PassiveChecker.Observe | internal/health/passive.go:37-78 | one response updates window, backoff, ejection and health; other backends untouched |
| PassiveHealth.PassiveChecker.TryReadmit | internal/health/passive.go:82-102 | an ejected Unhealthy backend goes to Probation once its backoff is over, with a fresh window and a doubled backoff |
| PassiveHealth.WindowIsRecentHistory | internal/health/passive.go:37-51 | with a monotone clock and a window of any width, what is remembered is the newest response and, of the full history since the last readmission, the recent ones |
| PassiveHealth.JudgedOnSeen | internal/health/passive.go:53-77 | a response changes the health exactly when the backend is Healthy and that history is judged bad, for any way of judging it |
| PassiveHealth.EjectsOnFullHistory | internal/health/passive.go:53-77 | ejection happens exactly when a Healthy backend's error share over that history reaches the limit, whatever else drives its health |
| PassiveHealth.BackoffFollowsReadmissions | internal/health/passive.go:73-99 | the passive backoff is five seconds doubled per readmission, capped, and never reset |
| PassiveHealth.ReadmittedExactly | internal/health/passive.go:82-102 | an attempt to readmit puts the backend on Probation if and only if it is Unhealthy, its last ejection is on record and the backoff counted from the history is over; else nothing changes |
| PassiveHealth.ReadmissionWaits | internal/health/passive.go:89-100 | a readmission comes no sooner after the last ejection than that backoff |
| Backends.New | internal/backend/backend.go:25-38 | fails exactly on a malformed URL; otherwise the backend is idle and Healthy, with the weight asked for or one |
| Backends.Pool.Healthy | internal/backend/pool.go:25-35 | exactly the members whose health is Healthy, each as often as listed and in the order of their positions |
| Backends.Pool.Remove | internal/backend/pool.go:43-53 | drops the first member with the id and keeps the others in order, or reports that there is none |
| Backends.Pool.Get | internal/backend/pool.go:55-64 | finds the first member with the id, or none |
| Selectors.Fairness | internal/balancer/weightedrr.go:59-60 | from any counter and for any number of calls, picks of a backend lie within exact bounds set by its share of the slots |
| Selectors.Shares | internal/balancer/weightedrr.go:59-60 | those bounds in closed form: the share of full cycles, plus what the broken cycle can and must add |
| Selectors.RoundRobin.Next | internal/balancer/roundrobin.go:19-28 | the backend under the counter, which then advances |
| Selectors.ServeRoundRobin | internal/balancer/roundrobin.go:19-28 | any number of live calls gives distinct backends their share rounded down or up |
| Selectors.WeightedRoundRobin.Rebuild | internal/balancer/weightedrr.go:27-41 | the slot table lists each backend as often as its weight, at least once |
| Selectors.ExpandCount | internal/balancer/weightedrr.go:27-37 | a backend fills one slot per unit of effective weight for each time it is listed |
| Selectors.SlotsInOrder | internal/balancer/weightedrr.go:27-37 | after the slots of the backends before it, a backend fills as many as its weight, at least one |
| Selectors.WeightedShare | internal/balancer/weightedrr.go:27-60 | each of a list of distinct backends gets its effective weight's share of the total weight in any consecutive picks, from any counter |
| Selectors.WeightedRoundRobin.Next | internal/balancer/weightedrr.go:43-73 | the slot under the counter if healthy, else the first healthy backend passed in, else an error |
| Selectors.ServeWeighted | internal/balancer/weightedrr.go:27-73 | any number of live calls with healthy slots keeps every backend within its share of the slots, and from an unbuilt or rebuilt table of distinct backends within its effective weight's share of the total weight |
| Selectors.LeastConnections | internal/balancer/leastconn.go:19-35 | the earliest backend with the fewest connections; a nil backend exactly when all are saturated |
| Selectors.Dispatch | internal/proxy/http.go:58-66 | from idle, select-then-count keeps loads within one of each other, sums to the requests, and visits backends in round-robin order |
| Selectors.IpHash | internal/balancer/iphash.go:21-30 | the member at the hash modulo the length, so the same hash and list always give the same one; none exactly for the empty list |
| Selectors.PowerOfTwoChoices | internal/balancer/p2c.go:24-45 | of the two members drawn, the less loaded, the first on a tie |
| Selectors.DrawsArePairs | internal/balancer/p2c.go:33-38 | every ordered pair of different positions comes from exactly one pair of draws |
| Fleet.Balancer.ServeOne | internal/proxy/http.go:51-66 | the selector asked for decides among the members whose health is Healthy, each in its own way; the hash ring chooses the owner in the list of its last Build, or in the healthy list if it was not built; the load of the chosen backend goes up by one and no other changes |
| Fleet.Balancer.ServeDrained | internal/balancer/consistenthash.go:55-79 | for every built ring and every client, the request after a drain still goes by the ring, and to the drained backend if and only if it owns the client |
| Fleet.Balancer.Operate | internal/proxy/http.go:51-66 | a live balancer goes through any run of probes, responses, drains, completions, pool changes, builds and requests moment by moment as the trace relation says, with its answers |
| Fleet.DisabledForever | internal/admin/drain.go:28-30 | in every run a Disabled backend stays Disabled |
| Fleet.AnswersAreHealthy | internal/backend/pool.go:25-35 | five of the selectors answer only with a backend whose health is Healthy at that request |
| Fleet.DrainedIsNotChosen | internal/admin/drain.go:26-30 | after a drain none of the five answers with the backend again |
| Fleet.DisabledIsChosenIff | internal/balancer/consistenthash.go:55-79 | a Disabled backend is answered with if and only if the request goes by hash and the last Build made it the owner |
| Fleet.NeverChosen | internal/balancer/consistenthash.go:55-79 | if no ring is built with it, a Disabled backend is never answered with |
| Fleet.EveryRequestIsAnswered | internal/proxy/http.go:51-66 | while some healthy member is neither judged nor removed, every request gets an answer, saturation under least-connections aside |
| Fleet.LoadsAreConserved | internal/proxy/http.go:65-66 | the load of a backend is what it started with plus the requests it was chosen for, less those completed |
| PathTrie.SegmentsOfRendered | internal/routing/trie.go:28-34 | segments written with any runs of slashes are read back unchanged |
| PathTrie.Trie.Add | internal/routing/trie.go:27-44 | the trie's rules become the old ones with this path overwritten; an empty pool name removes the rule |
| PathTrie.Trie.Match | internal/routing/trie.go:48-74 | longest-prefix lookup in the trie's rules, the root rule being the empty prefix |
| PathTrie.Route | internal/routing/trie.go:27-74 | after any sequence of Add calls, Match is longest-prefix lookup in the plain rule table |
| PathTrie.LongestPrefixIsLongest | internal/routing/trie.go:46-74 | that lookup returns the pool of the longest prefix with a rule, or none if no prefix has one |
| PathTrie.LastRuleWins | internal/routing/trie.go:27-44 | in that table the last rule written for a path decides it |
| Sni.ExtractSNI | internal/tls/passthrough.go:27-84 | computes the specified name with every index in range, except on one input, which it characterises |
| Sni.ScanExtensions | internal/tls/passthrough.go:67-83 | the extension loop computes the specified walk and terminates |
| Sni.ExtractsFirstName | internal/tls/passthrough.go:27-84 | printing any single-record ClientHello and parsing it, with anything after it, returns the first server name |
| Sni.NoExtensionNoName | internal/tls/passthrough.go:67-83 | without a server_name extension the result is empty, whatever follows the record |
| Sni.TruncatedHelloHasNoName | internal/tls/passthrough.go:35-37 | any proper prefix of a printed record yields no name |
| Sni.ScanIsSound | internal/tls/passthrough.go:67-83 | on any input, a name found is held by a server_name extension that the walk comes to, with its header before the end and its length in the data |
| Sni.ScanIsComplete | internal/tls/passthrough.go:67-83 | the first such extension that the walk comes to gives the result |
| Sni.NameFoundIff | internal/tls/passthrough.go:27-84 | on every input, a non-empty name is returned if and only if the walk over the extensions of a complete ClientHello record comes to an extension that holds it |
| Sni.NameIsInsideIff | internal/tls/passthrough.go:67-83 | on every input that gives a name, exactly one extension holds it, and the name consists of that extension's bytes if and only if the length of the extension leaves room for it |
| Sni.NameCanOverrun | internal/tls/passthrough.go:77-79 | for every hello whose last extension is its one server_name, cut short before the name, whatever follows the record is returned |
| Sni.BufConn.Read | internal/tls/passthrough.go:92-97 | a read hands out the next pending bytes and loses none: as many peeked ones as it has room for, and only when there are none what the network delivers |
| Sni.PeekSNI | internal/tls/passthrough.go:12-23 | no connection comes back exactly when the read fails or gets just the bare header that ends the goroutine; otherwise the wrapped connection still has every byte of the original and the name is that of the bytes read |
| Sni.PeekedName | internal/tls/passthrough.go:12-84 | a stream that starts with a well-formed hello gives its first name if and only if the hello has at most 4096 bytes and the first read delivers it all; otherwise it gives none |
| Sni.ReadAfterPeek | internal/tls/passthrough.go:12-97 | unless the first read gets just that header, bytes come out as they were sent, however they are read, at least one with every read that can get one, so enough reads give the whole stream |

## Left out

- HTTP and TCP proxying, tunnels, transports, shadowing, gzip, logging, metrics and request ids: plumbing over libraries.
- TLS termination, mTLS, certificate watching and configuration loading: calls into code that is not part of this model.
- Host, header and canary routers, middleware chaining, the breaker registry and the selector factory: lookups of one key or one random draw each, and composition of handlers.
- The statistics of consistent hashing, canary and power-of-two choices: the two random draws are parameters.
- Backend.SetWeight and the polling loop of Drain: both dereference a nil pointer as written; only the step that sets Disabled is modelled.
- Floating-point rounding in the limiter's rate and the passive error rate, and overflow of 64-bit counters and durations.
- Interleavings inside the health checkers and between bucket lookup and eviction: those calls are atomic here, and the bucket table holds values where the program holds pointers.
- The mutexes of the selectors, the pool and the hash ring: their calls are atomic here.
- ConsistentHash.SortKeys: stands in for the library sort and has its contract, not its algorithm or in-place update.
- ConsistentHash.Ring.Next: takes the client address as a string; extracting it from the request is not modelled.
- Fleet.Balancer.ServeOne: when every healthy backend is saturated, least-connections gives no backend and no error, and the proxy goes on to use the nil backend; here that request just gets none.
- Selectors.Dispatch: covers requests that have not completed; what completions do to the balance is not stated.
- Backends.New: URL parsing is the library's, and comes in as a parameter.
- Sni.PeekSNI: Panic stands for the goroutine ending; what becomes of the connection then is not modelled.
