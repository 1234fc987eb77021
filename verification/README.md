# Echofront, verified

A Dafny 4.11 model of the resilience engine of Echofront, a layer 7 reverse proxy
and load balancer: pools of backends over an injected clock, their four selection
strategies, their ejection state machines and circuit breakers, the retry budget,
and the proxy that ties them together for one request after another.

## How it is laid out

Each component that the program updates in place appears twice.

- As a **value**, with one function for each operation (`Circuit`, `Budget`, `Node`,
  `PoolState`, `ProxyState`, a ring as a map of positions). Runs are sequences of
  operations with arbitrary inputs: clock readings, outcomes, latencies, probe
  answers, sticky keys, exclusions, configurations. The theorems are about these
  runs, for all of them.
- As a **class** (`CircuitBreaker`, `RetryBudget`, `ConsistentHashRing`, `Backend`,
  `Pool`, `Proxy`) whose methods have the loops, early exits and field updates of the
  program. Each method is proved to take the object from one value to the value the
  operation gives, and to keep objects from sharing parts.

| files | content |
|---|---|
| `prelude.dfy`, `sums.dfy` | machine widths, saturating arithmetic, sums over parts of a sequence |
| `ewma.dfy` | the latency average: one fold, repeated folds, the ejection line |
| `breaker.dfy`, `breaker_runs.dfy` | the circuit breaker; its runs against the reference model of the tests |
| `retry.dfy` | the retry budget: conservation, window bound, optimality |
| `mix64.dfy`, `hashring.dfy` | the name hash and finalizer; the ring and its stability |
| `smooth_wrr.dfy`, `fixed_wrr.dfy` | smooth weighted round robin under any changes, and on a fixed set |
| `backend.dfy`, `backend_runs.dfy` | one backend: its operations, and its ejection timers over runs |
| `failure_runs.dfy`, `latency_runs.dfy`, `ramp_runs.dfy`, `health_runs.dfy`, `trials.dfy`, `gates.dfy` | one backend over runs: failures in a row, the average and its ejections, the ramp, probes, overlapping calls, and when all three gates are open |
| `pool.dfy`, `pool_runs.dfy`, `pool_laws.dfy`, `pool_line.dfy`, `pool_sequences.dfy`, `pool_sticky.dfy`, `pool_object.dfy` | the pool: operations, invariant over every run, laws of selection, and the class |
| `pool_history.dfy`, `pool_gates.dfy`, `pool_trials.dfy` | what the runs of single backends and breakers mean inside every run of a pool |
| `pool_exceptions.dfy` | concrete runs on which the program does less than its description says |
| `proxy.dfy`, `proxy_laws.dfy`, `proxy_choice.dfy`, `proxy_runs.dfy`, `proxy_trials.dfy`, `proxy_object.dfy` | the request loop, what each request guarantees, where its attempts go, runs of requests, and the class |

`dafny verify dfyconfig.toml` checks everything. Lemmas turn automatic induction off:
every induction is written out.

## Inputs

Time, what each upstream answers (`upstream: nat -> Reply`; a request calls a backend
at most once), probe answers (`dead`, the backends whose probe fails), the matched
route and the sticky key are parameters. Names and keys are byte sequences.

## Where the program and its description part

The code is modelled as it is. In these places it does less, or more, than its
documentation says. Each has its exact condition, and a concrete input or run that
meets it.

- Round robin is documented as an exact cycle (`DESIGN.md:20`). The cursor is a 64-bit
  counter that wraps, so `n` selections over `n` unchanged candidates are distinct
  exactly when the cursor does not wrap on the way or `n` divides `2^64`, and so are
  consistent hash selections without a key (`RoundRobinExactCycle`).
  `RoundRobinRepeats` reaches the wrap from a new pool of three backends.
- The half-open cap holds when every call is guarded: some time before it begins the
  backend was found available with its breaker polled at that instant, and no other
  call to it began in between (`PoolTrials.HalfOpenCap`). Both parts matter. Two
  selections after one poll, and only then the two calls, put two calls into a trial of
  one (`TwoSelectionsBreakCap`). Asked without the poll, an Open breaker past its
  cooldown admits any number of calls: `AdmissionNeedsPoll` says exactly when the
  answers differ, `UnpolledSelectionAdmits` reaches such a state. The proxy polls once
  for each request and then begins each call right after the selection that chose it,
  so its calls are guarded (`RequestIsCheckedRun`).
- Ejections are documented as saturating at the top of the clock. There the saturated
  end is the present instant, so the ejection is over as soon as it starts and the next
  failure ejects again (`RearmsInstantlyExactlyWhen`,
  `LatencyEjectionOverAtOnceExactlyWhen`, with `TwoEjectionsAtOnce`); the spacing
  theorems say what is left of them there.
- A latency average below a constant sample never reaches it, unless there is no
  smoothing at all: integer rounding stalls it short of the sample
  (`ReachesFromBelowExactlyWhen`, `StallsFromBelow`, with `StallsThreeShort`). From above
  it arrives exactly.

## Beyond fixed sets

The smooth weighted arithmetic is usually analysed on a fixed set of nodes. Here the
candidates, the ramps and even the strategy may change before every pick.
`SmoothWrr.SpreadKept` finds what survives: if no pick hands out more than `cap`, then
every part of `m` of the `n` nodes holds at most `cap * m * (n - m) / 2`. With the sum
being zero this bounds every current weight in every reachable state of a pool, so no
pick of a pool of up to 4096 backends of any 32-bit weights can overflow `i64`.

## Model

| member | source | states |
|---|---|---|
| Ewma.FoldRounds | src/ewma.rs:61-72 | a fold is the exact 128-bit blend of the clamped factor and the saturated sample, rounded down, between previous value and sample, and its final saturation never acts |
| Ewma.BlendBounds | src/ewma.rs:66-70 | the intermediate sum fits in 128 bits and is a weighted mean |
| Ewma.FoldMonotone | src/ewma.rs:61-72 | a larger previous value or a larger latency never gives a smaller average |
| Ewma.StallsExactlyWhen | src/ewma.rs:61-72 | a fold leaves the average unchanged exactly when alpha times the gap from below is less than one unit |
| Ewma.ConvergesFromAbove | src/ewma.rs:61-72 | under a constant sample an average above it reaches it exactly, within as many folds as the gap, and never undershoots |
| Ewma.GeometricGap | src/ewma.rs:61-72 | after n folds the gap has shrunk by the n-th power of one minus alpha (at least, from above; at most, from below) |
| Ewma.StallsFromBelow | src/ewma.rs:61-72 | an average below a constant sample rises to a fixed point at which alpha times the gap is less than one unit |
| Ewma.ReachesFromBelowExactlyWhen | src/ewma.rs:61-72 | from strictly below the sample is ever reached exactly when alpha is at least 1000 |
| Ewma.StallsThreeShort | src/ewma.rs:61-72 | a quarter of smoothing from 1 ms under constant 2 ms: never reached, stuck at 1.997 ms |
| Ewma.LineMonotoneAndSaturating | src/ewma.rs:51-54 | a bigger mean never gives a smaller line; the line is the exact floor below the top and is the top exactly when the product exceeds it |
| Breaker.CircuitBreaker.Poll | src/breaker.rs:73-79 | promotes an Open breaker whose cooldown has elapsed and changes nothing else |
| Breaker.CircuitBreaker.Admits | src/breaker.rs:87-105 | admission on the object agrees with admission on its value, trial cap included |
| Breaker.CircuitBreaker.OnSuccess | src/breaker.rs:107-123 | the object moves as the value does on a success |
| Breaker.CircuitBreaker.OnFailure | src/breaker.rs:125-147 | the object moves as the value does on a failure, trip included |
| BreakerRuns.SimulatesReference | tests/gates.rs:142-212 | on every event sequence and configuration the breaker agrees with the independent reference model on state, running count and callability |
| BreakerRuns.AdmissionNeedsPoll | src/breaker.rs:85-105 | polled and Open is never callable; the exact condition under which asking without a poll admits a call the polled breaker refuses |
| BreakerRuns.CountersNeverOverflow | src/breaker.rs:107-147 | running counters stay below max(threshold, 1) in every reachable state, so 32 bits suffice |
| BreakerRuns.TripsAreSpaced | src/breaker.rs:125-147 | on a nondecreasing clock consecutive trips are at least one cooldown apart, and the trip counter is bounded by the elapsed time |
| BreakerRuns.TripsOneCooldownApart | src/breaker.rs:125-147 | any two trips in one run, from any state, are one cooldown apart |
| BreakerRuns.ClosesExactlyWhen | src/breaker.rs:107-139 | a trial closes exactly at its max(success_threshold, 1)-th success with no failure before, and reopens exactly at a failure |
| Retry.RetryBudget.OnRequest | src/retry.rs:56-58 | the object deposits as the value does |
| Retry.RetryBudget.TryRetry | src/retry.rs:61-70 | the object spends as the value does and answers whether a retry was affordable |
| Retry.Conservation | src/retry.rs:56-70 | tokens left, spent and lost at the cap add up to tokens at the start and deposited |
| Retry.BucketInRange | src/retry.rs:56-70 | the bucket stays between zero and its cap and the deposit does not overflow i64 |
| Retry.WindowBound | src/retry.rs:56-70 | in every window the retries granted cost at most a full bucket plus the deposits of the window |
| Retry.FullBucketGrants | src/retry.rs:38-70 | a new budget grants wishes in a row exactly as long as a full bucket pays for them |
| Retry.RefusedOnlyAfter | src/retry.rs:56-70 | a wish is refused only after every window before it granted what its tokens and deposits, or a full bucket, pay for |
| Retry.GreedyIsOptimal | src/retry.rs:56-70 | no affordable schedule on the same bucket has granted more retries at any prefix of any run |
| Mix64.Fnv1a64 | src/hashring.rs:8-15 | the loop computes FNV-1a of the bytes |
| Mix64.MixWord | src/hashring.rs:19-23 | the step-by-step finalizer computes `Mix` |
| Mix64.MixBijective | src/hashring.rs:19-23 | the finalizer is a bijection of the 64-bit words with an explicit inverse |
| Mix64.VirtualNodesDistinct | src/hashring.rs:44-54 | the virtual nodes of one member never collide with each other |
| Mix64.PositionsAreMixed | src/hashring.rs:44-72 | keys and virtual nodes stand at mixed hashes: unmixing gives the name hash, with the mixed counter added for a virtual node |
| Mix64.KnownHashes | src/hashring.rs:8-15 | the hash has the published FNV-1a values |
| Mix64.KnownMix | src/hashring.rs:19-23 | the finalizer has the published SplitMix64 value |
| HashRing.ConsistentHashRing.Rebuild | src/hashring.rs:44-54 | the nested loops leave exactly the ring freshly built from the list, whatever was there before |
| HashRing.ConsistentHashRing.Lookup | src/hashring.rs:66-79 | the answer is the owner of the first position clockwise from the mixed key hash, wrapping; none on an empty ring |
| HashRing.OwnerIsClockwise | src/hashring.rs:66-79 | the owner is the member at the nearest position at or after the key, or at the lowest one if there is none |
| HashRing.BuiltContents | src/hashring.rs:44-54 | a ring holds exactly the occupied positions and each belongs to the last member in list order that occupies it |
| HashRing.EmptyExactlyWhen | src/hashring.rs:56-69 | a ring is empty exactly without members or virtual nodes |
| HashRing.OneMemberSize | src/hashring.rs:44-54 | a one-member ring has exactly as many positions as virtual nodes |
| HashRing.StableWhileWinnerSurvives | src/hashring.rs:44-79 | in any order-preserving sublist that keeps the winning entry, a position keeps its owner, duplicate identities and collisions included |
| HashRing.MinimalRemap | src/hashring.rs:44-79 | between a list and any order-preserving sublist a key keeps its owner exactly when the owner in the larger list is in the smaller: removal moves only own keys, addition only onto new members |
| SmoothWrr.ScanFindsFirstMaximum | src/pool.rs:361-379 | the left-to-right comparison keeps exactly the lowest-index maximum of the charged weights |
| SmoothWrr.SumConserved | src/pool.rs:363-383 | a pick keeps the sum of all current weights |
| SmoothWrr.SpreadKept | src/pool.rs:356-392 | whatever the candidates and scores of each pick, parts of m of n nodes hold at most cap times m times (n - m) halves |
| SmoothWrr.PickFitsI64 | src/pool.rs:356-392 | weights, charged weights and the running total of a pick stay within i64 when cap times (n + 1) is below 2^64 |
| FixedWrr.Ledger | src/pool.rs:363-383 | a current weight is what the node earned less one total for each pick it won |
| FixedWrr.HarmonicCeiling | src/pool.rs:356-392 | on a fixed set every m participants hold at most m totals times (H_n - H_m) |
| FixedWrr.Smoothness | src/pool.rs:356-392 | after every number of picks each share is less than one total above and at most H_n - 1 totals below exact proportion |
| FixedWrr.CurrentWeightBounds | src/pool.rs:356-392 | on a fixed set a current weight is above minus one total and at most H_n - 1 totals |
| FixedWrr.ExactCycle | src/pool.rs:356-392 | from rest the weights return to where they were after k picks exactly when the total divides every k times score, and then shares are exactly proportional |
| FixedWrr.CycleRepeats | src/pool.rs:356-392 | the pick sequence repeats with every such period |
| FixedWrr.OneTotalIsAPeriod | src/pool.rs:356-392 | in one total of picks every node is picked exactly its score's number of times |
| Backends.Backend.Poll | src/pool.rs:248-307 | the per-backend part of a poll: breaker, reinstatement, ramp and latency judgement in this order |
| Backends.Backend.RecordSuccess | src/pool.rs:435-440 | a success is counted, ends the failure run and reaches the breaker |
| Backends.Backend.RecordSuccessLatency | src/pool.rs:446-452 | and additionally folds the latency when the layer is on |
| Backends.Backend.RecordFailure | src/pool.rs:502-514 | a failure is counted, reaches the breaker and may eject, once for each ejection |
| Backends.Backend.Probe | src/pool.rs:521-546 | one due probe with its hysteresis, nothing when not due |
| BackendRuns.RunningEjectionIsFixed | src/pool.rs:245-308 | until its end a running ejection is neither moved nor recounted nor dropped, whatever happens |
| BackendRuns.ArmingHistory | src/pool.rs:245-308 | both ejection counters together count the armings, and each arming waits for the end of the one before |
| BackendRuns.EjectionsBounded | src/pool.rs:502-514 | ejections of both kinds are bounded by the elapsed time over the shortest duration |
| BackendRuns.CircuitRunsInBackend | src/pool.rs:248-307 | inside every run of a backend its breaker goes through a run of its own |
| BackendRuns.RearmsInstantlyExactlyWhen | src/pool.rs:502-514 | a failure ejection just armed is already over, and the next failure at that instant ejects and counts again, exactly at the top of the clock or with zero duration |
| BackendRuns.TwoEjectionsAtOnce | src/pool.rs:502-514 | two failures at the top of the clock count two ejections of five seconds and leave the node not ejected |
| FailureRuns.CountsFailuresInARow | src/pool.rs:435-514 | the failure count is the failures since the last success or since the poll that last ended an ejection |
| FailureRuns.FailureEjectsExactlyWhen | src/pool.rs:502-514 | an ejection for failures is counted exactly at a failure that makes the failures in a row reach the threshold while no ejection runs |
| FailureRuns.OutExactlyWhile | src/pool.rs:245-308 | a backend is out exactly while the latest ejection of its history has not ended |
| LatencyRuns.AverageReportsLatencies | src/pool.rs:446-452 | there is an average exactly once a latency was recorded, and it lies between the least and the greatest of them, the first sample included |
| LatencyRuns.LatencyEjectsExactlyWhen | src/pool.rs:274-306 | a poll ejects for latency exactly when no ejection runs, the node is over the line with samples enough, and has been at every judgement since a poll one window and enough samples before |
| LatencyRuns.LatencyEjectionJustified | src/pool.rs:274-306 | behind every latency ejection lies a poll at least a window earlier that found no window open and opened one, enough new samples, and the node over the line at every judgement since |
| LatencyRuns.LatencyEjectionsSpaced | src/pool.rs:274-306 | two latency ejections of a node are at least the ejection length plus one window apart |
| LatencyRuns.LatencyEjectionOverAtOnceExactlyWhen | src/pool.rs:290-298 | an ejection for latency is over at once exactly at the top of the clock or with zero duration |
| RampRuns.StepsExactlyWhen | src/pool.rs:264-273 | the ramp steps exactly at a poll that finds the node below full weight, no ejection running, and one ramp window passed since every step and reinstatement |
| RampRuns.RampDoubles | src/pool.rs:250-273 | from a reinstatement on the ramp is the clamped starting percent doubled at each step and capped, full after at most seven |
| RampRuns.FullUntilReinstated | src/pool.rs:250-273 | a backend never reinstated is at full weight |
| RampRuns.RampInRange | src/pool.rs:250-273 | the ramp stays in 1..100 over every run |
| Gates.HealthyExactlyWhen | src/pool.rs:517-547 | the health of a backend is what the answers to the probes really made leave of its configured start |
| Gates.AvailableExactlyWhen | src/pool.rs:174-176 | a backend is available exactly when probes leave it up, its latest ejection has ended, the reference breaker lets a call through, and a trial has a free slot |
| HealthRuns.HealthSimulates | src/pool.rs:517-547 | the health of a backend is that of a one-counter hysteresis model over the answers actually probed |
| HealthRuns.ProbesSpaced | src/pool.rs:521-529 | probes are at least one interval apart, and a check skips only within one interval of the last probe |
| Trials.HalfOpenCap | src/pool.rs:174-176 | over every run of a backend whose calls are guarded, calls, ends, polls and outcomes in any order, the calls in flight that began since the last trip are at most max(half_open_max_calls, 1) until the breaker closes, and in_flight counts the calls in flight |
| Trials.BreaksCapExactlyWhen | src/breaker.rs:87-105 | with no older call outstanding, one more call to a HalfOpen backend breaks the cap exactly when the backend is not available |
| PoolTrials.HalfOpenCap | src/pool.rs:419-426 | the cap for every backend added to a new pool, over all operations of the pool in any order |
| PoolTrials.SelectionChecks | src/pool.rs:335-348 | a selection guards a call to the backend it answers if that breaker was polled at the same instant |
| ProxyTrials.RequestIsCheckedRun | src/proxy.rs:186-250 | a request is a run of pool operations in which every call begins on an available backend with its breaker polled |
| ProxyTrials.HalfOpenCapInService | src/proxy.rs:158-263 | the cap under any mix of requests and guarded calls outside them |
| PoolExceptions.TwoSelectionsBreakCap | src/pool.rs:335-426 | one poll, two selections, two calls: two calls in a trial whose cap is one |
| PoolExceptions.UnpolledSelectionAdmits | src/breaker.rs:85-105 | a reachable Open breaker past its cooldown with its cap in flight: selected without a poll, not selected after it |
| PoolExceptions.RoundRobinRepeats | src/pool.rs:350-354 | a reachable pool of three whose next three selections answer the first backend twice and the last one not at all |
| Pools.AvailableIsCandidates | src/pool.rs:326-330 | the candidate list holds exactly the available backends not excluded, in index order |
| PoolRuns.BackendRunsInPool | src/pool.rs:245-308 | inside every run of a pool each backend, there from the start or added on the way, goes through a run of its own with the line the pool computed |
| PoolRuns.JoinsAsAdded | src/pool.rs:220-223 | a backend not there at the start entered at one add_backend, as new |
| PoolHistory.LatencyEjectsExactlyWhen | src/pool.rs:245-308 | exactly when a poll ejects a backend for latency, for every backend in every run of a new pool, in terms of the factor and the mean of its pool |
| PoolHistory.FailureEjectsExactlyWhen | src/pool.rs:502-514 | exactly when an event ejects a backend for failures, for every backend in every run of a new pool |
| PoolHistory.AverageReportsLatencies | src/pool.rs:446-452 | averages lie between the recorded latencies, for every backend in every run of a new pool |
| PoolGates.KeepsIdentity | src/pool.rs:220-223 | a backend keeps the name, weight and breaker configuration it was added with |
| PoolGates.AvailableExactlyWhen | src/pool.rs:174-176 | exactly when a backend is available, for every backend in every run of a new pool |
| PoolHistory.LatencyEjectionsSpaced | src/pool.rs:245-308 | the spacing of latency ejections, for every backend in every run of a pool |
| PoolHistory.EjectionsBounded | src/pool.rs:502-514 | ejections of both kinds bounded by the elapsed time, for every backend in every run of a new pool |
| PoolHistory.CircuitRunsInPool | src/pool.rs:245-308 | inside every run of a pool each breaker goes through a run of its own |
| PoolHistory.BreakerCountersNeverOverflow | src/breaker.rs:107-147 | the counters of every breaker in every state a new pool can reach stay below their thresholds |
| PoolHistory.BreakerTripsSpaced | src/breaker.rs:125-147 | trips of every breaker in every run of a pool are its cooldown apart |
| PoolHistory.BreakerTripsBounded | src/breaker.rs:125-147 | trips of every breaker in a run of a new pool are bounded by the elapsed time |
| PoolLaws.EveryReachableState | src/pool.rs:190-547 | in every reachable pool state current weights sum to zero and stay spread, ramps are in range and a cached ring is the one its signature says |
| PoolLaws.CurrentWeightsBounded | src/pool.rs:356-392 | in every reachable state each current weight is within cap times (n - 1) halves of zero |
| PoolLaws.PicksNeverOverflow | src/pool.rs:356-392 | in every reachable state no arithmetic of a weighted pick leaves i64 under an explicit bound on the pool |
| PoolLaws.FourThousandBackendsFit | src/pool.rs:389-392 | up to 4096 backends of any 32-bit weights satisfy that bound |
| PoolLaws.SelectionSoundAndComplete | src/pool.rs:335-417 | for all strategies a chosen backend is available and not excluded, none is chosen exactly when there is none (weighted: none of positive weight), and least connections takes the lowest-index minimum |
| PoolLaws.ZeroWeightUntouched | src/pool.rs:363-366 | a zero-weight backend is neither charged nor chosen by the weighted strategy |
| PoolLine.MeanIsFloor | src/pool.rs:311-324 | the mean is the exact floor of the average over qualifying backends, zero when none qualifies, and never saturates |
| PoolLine.LineDecidesFactor | src/pool.rs:279-300 | a poll finds a backend over the line exactly when it has samples enough and averages more than the factor times the mean, rounding and saturation included |
| PoolLine.LineCatchesAFraction | src/pool.rs:245-308 | m of n qualifying backends over the line of a poll satisfy m(line + 1) <= sum < n(mean + 1), and m < n for a factor of at least one |
| PoolLine.FastestIsSpared | src/pool.rs:279-300 | for a factor of at least one a poll never ejects the fastest qualifying backend for latency |
| PoolSequences.WeightedSmooth | src/pool.rs:356-392 | selections in a row on unchanged candidates are smooth in the harmonic sense, ramped scores included |
| PoolSequences.WeightedCycle | src/pool.rs:356-392 | the pool is back where it started exactly when the total divides every k times score; then answers are exactly proportional and repeat |
| PoolSequences.RoundRobinExactCycle | src/pool.rs:350-406 | n selections over n unchanged candidates, by round robin or by consistent hash without a key, are distinct exactly when the cursor does not wrap or n divides 2^64 |
| PoolSticky.CachedRingAgrees | src/pool.rs:404-417 | in every reachable state a keyed selection answers what a freshly built ring answers, the answer is a candidate, the fallback never decides, and the cursor stays |
| PoolSticky.OneCandidateRing | src/pool.rs:404-417 | with one candidate the cached ring has 160 positions, all its own |
| PoolSticky.ExclusionMovesOnlyTried | src/pool.rs:404-417 | excluding tried backends leaves a key where it was exactly when its owner was not tried |
| PoolSticky.KeysMoveOnlyWithOwner | src/pool.rs:404-417 | between any two moments of a run with nested candidate sets a key moves exactly when its owner over the larger set is missing from the smaller |
| PoolObject.Pool.AddBackend | src/pool.rs:220-223 | a backend is appended and the ring signature cleared |
| PoolObject.Pool.Poll | src/pool.rs:245-308 | the loop polls every backend against one line computed before any of them changes |
| PoolObject.Pool.EwmaMean | src/pool.rs:311-324 | the loop computes the mean over qualifying backends |
| PoolObject.Pool.AvailableIndices | src/pool.rs:326-330 | the loop collects the candidate list |
| PoolObject.Pool.Select | src/pool.rs:335-348 | dispatch over strategies, none when there is no candidate |
| PoolObject.Pool.SelectRoundRobin | src/pool.rs:350-354 | the candidate under the cursor, which then advances and wraps at 64 bits |
| PoolObject.Pool.SelectWeighted | src/pool.rs:356-384 | the single add-and-compare pass equals charging every score and then taking the lowest-index maximum |
| PoolObject.Pool.SelectLeastConn | src/pool.rs:394-402 | the loop finds the first least busy candidate |
| PoolObject.Pool.SelectHash | src/pool.rs:404-417 | the ring is rebuilt only for new candidates; without a key it falls back to round robin |
| PoolObject.Pool.RecordFailure | src/pool.rs:502-514 | exactly one backend changes, as its value does on a failure |
| PoolObject.Pool.RunHealthChecks | src/pool.rs:517-547 | every backend is probed as its value is, due or not |
| ProxyLaws.AttemptsBounded | src/proxy.rs:158-263 | at most max_retries + 1 attempts and at most one for each backend, on distinct backends all eligible right after the poll, each with the outcome and latency its backend answered, all but the last failed |
| ProxyLaws.ResponseClassified | src/proxy.rs:158-263 | Ok exactly when the last attempt was answered, with the status that backend answered; NoHealthyUpstream exactly when nothing was eligible; otherwise AllAttemptsFailed with the number of attempts, for one of three reasons |
| ProxyLaws.UnroutedExactlyWhen | src/proxy.rs:158-186 | NoRoute exactly without a pool behind the route; then no attempt, no pool touched, counted and deposited |
| ProxyLaws.FailsOnlyWhen | src/proxy.rs:188-262 | a request fails only when its retries are used, its tokens do not pay for one more, or nobody is left |
| ProxyLaws.FirstFailureRetried | src/proxy.rs:188-262 | the first request of a new proxy gets a second attempt when its first fails, one retry costs at most a full bucket, and another backend is eligible |
| ProxyChoice.AttemptsGuided | src/proxy.rs:193-216 | every attempt goes to the backend its strategy names among those left: the owner of the sticky key, the candidate under the cursor, or the first least busy one |
| ProxyLaws.AttemptsRecorded | src/proxy.rs:215-250 | each attempted backend is its state after the poll with its own reply recorded once, every other backend and pool is untouched, and in-flight counters are restored |
| ProxyLaws.CountersExact | src/proxy.rs:158-263 | retries are granted tokens, failovers are attempts after the first, and a retry without failover is a stranded request |
| ProxyRuns.TotalsConserved | src/proxy.rs:158-263 | over every run granted equals retries, retries less failovers counts the stranded requests, and attempts are at most requests plus failovers |
| ProxyRuns.WindowAmplification | src/proxy.rs:158-263 | in every window of every run retries cost at most a full bucket plus one deposit for each request, and attempts are at most requests plus retries |
| ProxyRuns.BrokeOnlyAfter | src/proxy.rs:158-263 | the proxy cannot afford a retry only after every window before granted what its tokens and deposits, or a full bucket, pay for |
| ProxyRuns.ServedIsAttempts | src/proxy.rs:215-250 | over every run the outcomes recorded by a service grow by exactly the attempts made on it |
| ProxyObject.Proxy.AddPool | src/proxy.rs:105-107 | a pool is added or replaces the one of its name |
| ProxyObject.Proxy.Serve | src/proxy.rs:188-262 | the loop with its exits computes the landing of the flight, counters included |
| ProxyObject.Proxy.Handle | src/proxy.rs:158-263 | one request end to end takes the proxy to the state and result of `Handled`, unrouted requests included |

## Left out

- HTTP parsing, routing and the sticky header lookup: the route and the key are inputs.
- The mock upstream and its scripts: outcomes, latencies and probe answers are inputs.
- System clock, reference counting and trait objects: time is a parameter.
- Floating point reports (`distribution`, `tokens`), display text and strategy name parsing: no decision depends on them.
- Attempt details as text: an attempt keeps backend, name, outcome, latency and whether it is a retry.
- Overflow of long-lived counters (`served`, `trips`, `ejections`, `outlier_failures`, probe and sample counters, `in_flight`): they are unbounded naturals.
- The parts of a poll and of a health check that concern one backend are methods of `Backend`; in the program they are the bodies of the pool's loops.
- `Proxy::run_health_checks` iterates over all pools in hash map order; here health checks are operations on one pool between requests.
- The even spread of keys and the share of keys that move: they depend on hash quality.
- The command line demo and the web page with its own reimplementation.
