# chmicro: verified models of the in-memory algorithms

Dafny models of the algorithms of the chmicro C++ microservice library, with proofs of what they
promise over whole histories and, where the library is concurrent, over every interleaving.
`dafny verify dfyconfig.toml` checks everything.

| file | component |
|---|---|
| `Breaker.dfy` | circuit breaker: its critical sections as functions, and the class proved against them |
| `BreakerHistory.dfy` | a counter-free reference machine that looks back at the callbacks |
| `BreakerRuns.dfy` | the breaker with any number of callers, each loading, reading the clock and locking in separate steps |
| `BreakerWitness.dfy` | how many probes can really be out, exactly, and a closed breaker that refuses |
| `KvStore.dfy`, `KvConcurrent.dfy` | sharded store: one map; `Size` under concurrent puts |
| `LatencyHistogram.dfy`, `LatencyRuns.dfy` | log2 latency histogram and its percentiles; snapshots while recorders run |
| `MetricsHistogram.dfy` | bucketed histogram and its exposition numbers |
| `Labels.dfy`, `Registry.dfy` | label text, registry keys, get-or-create registry |
| `Router.dfy` | middleware chain with re-entrant continuations |
| `RoundRobin.dfy` | load balancer cursors and pool tickets |
| `AppLifecycle.dfy` | one `Run` and any number of `Stop`s, with the pool's gate |
| `QueryString.dfy`, `TraceContext.dfy`, `Retry.dfy` | query strings, trace headers, backoff |
| `Counting.dfy`, `Runs.dfy`, `Words.dfy`, `Numbers.dfy`, `Text.dfy` | shared: counting in logs, runs of steps, machine words, powers of two, string search |

How the models are built. A component that updates fields is a class with those fields; each method
is proved equal to a function of the old state, and the theorems are about that function over all
histories. Interleavings are sequences of atomic steps (a lock-protected section is one step, and so is
an atomic operation); a step whose caller is not at that point leaves the world unchanged, so a theorem
about every sequence of actions covers every schedule. Clocks, random draws and hash functions are
arbitrary parameters. Counters have their C++ widths (`uint32`, `uint64`, wrapping `int64`).

Six things the proofs turned up, each with its exact condition:

- `half_open_max_inflight` bounds the probes that are out only if one success closes the breaker
  (`SlotsBoundProbesIff`). Otherwise a callback of a call admitted before the breaker opened frees a
  probe's slot. The excess is at most the number of such callbacks, all of them successes (`ProbeAccounting`), and the most
  probes that can be out at once is exactly
  `half_open_max_inflight + consecutive_successes_to_close - 1` (`MostProbesOut`), which is also the
  exact bound on the probes that one half-open episode admits.
- For all options a closed breaker can refuse a call that lost a race with the close
  (`ClosedBreakerRefuses`); `RefusedByClosedBreaker` says exactly when.
- As long as `Run` has something left to start it can return with something not stopped, whatever the
  stoppers have done so far: a server up, the pool started, or a worker not joined. Afterwards it can
  exactly if some call of `Stop` has set `stopped_` too soon or can still do so (`Safe` fails): for
  instance one that has passed a server started since, or one of two that overlap, where the one takes
  the pool and the other does not wait for its workers (`AlwaysAllStoppedIff`, every reachable world).
- A percentile of a histogram snapshot taken while recorders run can be 2^63 microseconds whatever was
  recorded (`TornReport`). The loop falls through to that value exactly when the buckets add up to no
  more than the rank, which takes a recorder between its two increments (`TornPercentile`).
- Every metric with labels shares its registry key with a metric whose name spells the labels out;
  `UnsharedIff` and `UnsharedByDecodableIff` say exactly which keys are unambiguous, among all metrics
  and among those with decodable names.
- Round robin is even over every window exactly when the number of endpoints divides 2^64.

In the router, a middleware's script is the sequence of effects and `next` calls it performs in one
request, so middlewares that branch are covered by the script they happen to follow.

The comment at `examples/loadgen/http_loadgen.cpp:115` calls 2^i an upper bound of bucket i; by the
code it is the bucket's lower bound (in latency plus one), and the two-sided bound proved here follows
the code.

## Model

| member | source | states |
|---|---|---|
| Breaker.CircuitBreaker.constructor | src/resilience/circuit_breaker.cpp:5-16 | a breaker starts closed with an empty history and normalised options |
| Breaker.CircuitBreaker.TryTransitionToHalfOpenLocked | src/resilience/circuit_breaker.cpp:18-30 | the fields move to half-open exactly when open for the interval |
| Breaker.CircuitBreaker.AllowRequestLocked | src/resilience/circuit_breaker.cpp:38-54 | the locked part, for a breaker found in any state: the fields stay the replay of the lock history, and a refusal means open or full |
| Breaker.CircuitBreaker.AllowRequest | src/resilience/circuit_breaker.cpp:32-54 | without interference a closed breaker admits and changes nothing |
| Breaker.CircuitBreaker.OnSuccess | src/resilience/circuit_breaker.cpp:56-81 | the fields stay the replay of the history extended by a success |
| Breaker.CircuitBreaker.OnFailure | src/resilience/circuit_breaker.cpp:83-112 | the fields stay the replay of the history extended by a failure at that time |
| Breaker.CoreInvHolds | src/resilience/circuit_breaker.cpp:49-112 | in-flight never exceeds its maximum; closed means failures below the threshold; successes above zero mean half-open and below the threshold; no 32-bit counter wraps |
| Breaker.ClosedAtomicNeverRefuses | src/resilience/circuit_breaker.cpp:32-54 | if no caller locks a closed breaker, a closed breaker has no in-flight residue and would admit |
| BreakerHistory.StateIsFunctionOfHistory | src/resilience/circuit_breaker.cpp:26-112 | for every lock history the state, the failure counter while closed, the opening time while open and the success counter while half-open agree with a machine that has no counters and only looks back at the callbacks of the current phase |
| BreakerHistory.ExactTransitions | src/resilience/circuit_breaker.cpp:56-112 | closed opens exactly at the F-th failure of an unbroken run, half-open closes exactly at the S-th success, every half-open failure reopens, open moves only after the interval |
| BreakerRuns.RunLinearises | src/resilience/circuit_breaker.cpp:32-112 | every interleaving drives the fields as the sequential replay of its critical sections in lock order |
| BreakerRuns.TimedHasSampled | src/resilience/circuit_breaker.cpp:32-43 | a caller takes the lock only with a clock value that it read after it had loaded a state other than closed |
| BreakerRuns.HalfOpenIsThrottled | src/resilience/circuit_breaker.cpp:18-54 | in every interleaving half-open entries are at least the open interval apart and no episode admits more than max + S - 1 probes |
| BreakerRuns.HalfOpenRateBound | src/resilience/circuit_breaker.cpp:18-54 | probes admitted in any time window are at most (entries that fit + 1) times that number |
| BreakerRuns.RacersAreCounted | src/resilience/circuit_breaker.cpp:43-75 | in closed the in-flight counter is the number of locked-path admissions since the last close |
| BreakerRuns.RefusedByClosedBreaker | src/resilience/circuit_breaker.cpp:43-53 | a caller that finds the breaker closed under the lock is refused exactly when max callers lost the same race since the close |
| BreakerRuns.ProbeAccounting | src/resilience/circuit_breaker.cpp:49-106 | if each admitted call reports at most once, in-flight <= outstanding probes of this episode <= in-flight + callbacks of older admissions, of which there are at most the successes of the episode |
| BreakerRuns.HalfOpenRefusal | src/resilience/circuit_breaker.cpp:49-53 | a half-open refusal means max probes of this episode are out; without stale callbacks the count is exact |
| BreakerWitness.QuotaIsReached | src/resilience/circuit_breaker.cpp:49-77 | for all options some honest run admits max + S - 1 probes in one episode |
| BreakerWitness.MostProbesOut | src/resilience/circuit_breaker.cpp:43-77 | for all options the largest number of probes of one episode that are ever out at once is max + S - 1: no run has more, and some run with honest callbacks has that many |
| BreakerWitness.SlotsBoundProbesIff | src/resilience/circuit_breaker.cpp:49-77 | the in-flight option bounds the probes that are out, in every honest run, if and only if one success closes the breaker |
| BreakerWitness.ClosedBreakerRefuses | src/resilience/circuit_breaker.cpp:43-53 | for all options some honest run has a closed breaker refuse |
| KvStore.LookupIsLocal | examples/kv/kv_service.cpp:66-95 | for any placement of keys into shards, looking a key up in its own shard is looking it up in the union of all shards |
| KvStore.PutRefines | examples/kv/kv_service.cpp:60-64 | a put is an update of the one abstract map and keeps every key in its shard |
| KvStore.SizeIsCardinality | examples/kv/kv_service.cpp:77-85 | the shard sizes add up to the size of the abstract map |
| KvStore.ReadsLastWrite | examples/kv/kv_service.cpp:52-85 | after any put history from empty shards each key reads as the value put last and the size is the number of distinct keys |
| KvStore.ShardedKvStore.constructor | examples/kv/kv_service.cpp:52-58 | fresh empty shards; zero shards become one |
| KvStore.ShardedKvStore.Put | examples/kv/kv_service.cpp:60-64 | the abstract map gains exactly this binding |
| KvStore.ShardedKvStore.Get | examples/kv/kv_service.cpp:66-75 | found exactly when the abstract map has the key, and the caller's string is untouched otherwise |
| KvStore.ShardedKvStore.Size | examples/kv/kv_service.cpp:77-85 | with no writer running, the cardinality of the abstract map |
| KvConcurrent.TableIsAfterPuts | examples/kv/kv_service.cpp:60-64 | in every interleaving the shards are what the puts of the run, in order, leave in them |
| KvConcurrent.ScanProgress | examples/kv/kv_service.cpp:77-85 | a Size call began at its last CallSize and has visited one shard for each of its visits since |
| KvConcurrent.SizeIsLinearizable | examples/kv/kv_service.cpp:77-85 | with puts between any two shard visits, a Size call that has visited every shard has counted the different keys put by some moment between its call and its return, at least those put by its call and at most those put by its return |
| LatencyHistogram.Log2Floor | examples/loadgen/http_loadgen.cpp:41-52 | the exponent k with 2^k <= x < 2^(k+1), or -1 for zero |
| LatencyHistogram.BucketOf | examples/loadgen/http_loadgen.cpp:71-80 | one of 64 buckets, determined by the power of two around latency + 1 on 64 bits |
| LatencyHistogram.Histogram.RecordOk | examples/loadgen/http_loadgen.cpp:67-81 | every counter stays its history's count on 64 bits |
| LatencyHistogram.Histogram.Reset | examples/loadgen/http_loadgen.cpp:58-65 | the history is empty again |
| LatencyHistogram.Histogram.Get | examples/loadgen/http_loadgen.cpp:94-104 | a quiescent snapshot represents the recorded latencies while no counter has wrapped |
| LatencyHistogram.ApproxPercentileUs | examples/loadgen/http_loadgen.cpp:106-120 | the loop reports the bound of the first bucket at which the running sum passes the rank, 2^63 if none does, and zero when nothing was recorded |
| LatencyHistogram.PercentileOfAny | examples/loadgen/http_loadgen.cpp:106-120 | for every history, wrapped latencies included, the loop stops inside the buckets and reports r with r <= x' < 2r for the element x' at that rank |
| LatencyHistogram.PercentileErrorBound | examples/loadgen/http_loadgen.cpp:106-120 | r <= x + 1 < 2r for x the order statistic at floor((ok-1)p), for latencies below 2^64 - 1 |
| LatencyHistogram.ErrorBoundIff | examples/loadgen/http_loadgen.cpp:71-80 | the bound holds at every percentile if and only if no latency is 2^64 - 1 |
| LatencyHistogram.PercentileMonotone | examples/loadgen/http_loadgen.cpp:106-120 | a higher percentile never reports a lower value, for any snapshot |
| LatencyRuns.SnapshotSkew | examples/loadgen/http_loadgen.cpp:67-104 | in every interleaving, read off the actions of the run: `ok` is the number of recordings begun by the call, it is at most the buckets' sum plus the recorders between their two increments then, and the sum is at most the recordings begun by the return |
| LatencyRuns.RunBuckets | examples/loadgen/http_loadgen.cpp:67-81 | in every interleaving each bucket, with the recorders on their way to it, counts the recorded latencies that belong there |
| LatencyRuns.QuietGetRepresents | examples/loadgen/http_loadgen.cpp:67-104 | a Get with no recorder busy at its call and none begun since represents all recorded latencies, whatever ran before |
| LatencyRuns.StopsAtFirst | examples/loadgen/http_loadgen.cpp:106-120 | for any snapshot whose sum fits, the loop stops at the first bucket with which the buckets add up to more than the rank |
| LatencyRuns.TornPercentile | examples/loadgen/http_loadgen.cpp:94-120 | of a snapshot taken while recorders run, the percentile loop falls through exactly when the buckets add up to no more than the rank, and never if no recorder was between its increments |
| LatencyRuns.TornReport | examples/loadgen/http_loadgen.cpp:67-120 | for any latency and percentile, a run in which 2^63 is reported for that one recorded latency |
| MetricsHistogram.Sort | src/core/metrics.cpp:46-49 | the same bounds, in order |
| MetricsHistogram.LowerBound | src/core/metrics.cpp:56 | the first bound not below the observation |
| MetricsHistogram.Histogram.constructor | src/core/metrics.cpp:46-49 | sorted bounds and zero counts |
| MetricsHistogram.Histogram.Observe | src/core/metrics.cpp:51-61 | counts, sum and total stay those of the observation history |
| MetricsHistogram.Histogram.Exposition | src/core/metrics.cpp:162-175 | for unsorted or duplicate bounds the i-th cumulative number is the count of observations at most the i-th sorted bound, and +Inf the count of all, on 64 bits |
| MetricsHistogram.CoverageIsMonotone | src/core/metrics.cpp:162-175 | the cumulative counts never decrease and never exceed the number of observations |
| Labels.ToPrometheusLabelText | src/core/metrics.cpp:8-34 | the loop prints the label text, every value escaped |
| Labels.LabelTextOfOne | src/core/metrics.cpp:8-34 | no labels print as nothing, and one as its name and its quoted escaped value in braces, whatever the name |
| Labels.LabelTextConcat | src/core/metrics.cpp:8-34 | the texts of two lists joined by a comma are the text of the whole list, whatever the names |
| Labels.LabelTextRoundTrip | src/core/metrics.cpp:8-34 | for label names without '=', a parser that knows only the three escapes of the text exposition format 0.0.4 recovers the label set from the text |
| Labels.EscapedIsSafe | src/core/metrics.cpp:21-29 | an escaped value has no unescaped quote and no raw newline |
| Labels.PlainValueStays | src/core/metrics.cpp:21-29 | a value without backslash, quote and newline is printed as it is |
| Labels.Key | src/core/metrics.cpp:75-85 | the loop builds the key text |
| Labels.KeyTextConcat | src/core/metrics.cpp:75-85 | the key of any name and labels is the name's line followed by one line for each label |
| Labels.DecodeOfKey | src/core/metrics.cpp:75-85 | for decodable names the key can be taken apart again, the name prefix included |
| Labels.KeyIsInjective | src/core/metrics.cpp:75-85 | decodable names and labels share a key only if they are equal |
| Labels.KeyOfDecoded | src/core/metrics.cpp:75-85 | the other half of the decoding: whatever decodes was the key of just what it decodes to |
| Labels.UnsharedByDecodableIff | src/core/metrics.cpp:75-85 | for every name and label list: no other decodable metric has the same key if and only if the metric is decodable or its key does not decode to a name and a label set |
| Labels.UnsharedIff | src/core/metrics.cpp:75-85 | for every name and label list: no other metric at all has the same key if and only if there are no labels and no '=' stands behind a line break in the name |
| Labels.KeysCollide | src/core/metrics.cpp:75-85 | for arbitrary texts, the two different metrics with one key that a line break in a name, an '=' in a label name and a line break in a value cause |
| Registry.RegistryRefines | src/core/metrics.cpp:87-115 | for every type of metric and after any calls with decodable names, a metric exists once it was named, has the first caller's help and labels, and is in the state that its own calls alone put it in |
| Registry.MetricsRegistry.CounterMetric | src/core/metrics.cpp:87-95 | the same key always yields the same counter; a new one is fresh, zero and shared with no other key |
| Registry.MetricsRegistry.IncThrough | include/chmicro/core/metrics.h:25 | an increment through a kept reference is one call about that metric |
| Registry.MetricsRegistry.HistogramMetric | src/core/metrics.cpp:107-115 | the same key always yields the same histogram; a new one is fresh and shares neither object nor counts with any other |
| Registry.MetricsRegistry.ObserveThrough | src/core/metrics.cpp:51-61 | an observation through a kept reference is one call about that metric |
| Registry.MetricsRegistry.HistogramMeaning | src/core/metrics.cpp:107-115 | after any decodable history the histogram behind a reference has the first caller's sorted bounds, help and labels, and has seen exactly the observations made of that metric |
| Words.SignedIsCongruent | include/chmicro/core/metrics.h:25 | the wrapped value fits in 64 bits, differs by whole laps of 2^64, and is the value itself when that fits |
| Registry.MetricsRegistry.CounterMeaning | src/core/metrics.cpp:87-95 | the value behind a reference is the sum of that metric's increments, exactly as long as that fits in 64 bits and wrapped otherwise, with the first caller's help |
| Router.ChainMeaning | src/http/router.cpp:33-45 | for any scripts the middlewares entered are a registration-order prefix, each once, handler calls + entered = 1 + `next` calls of the entered, and no handler but the route's runs |
| Router.ChainReach | src/http/router.cpp:33-45 | how far the chain gets and how often the handler runs, from the `next` counts alone |
| Router.NothingIsLost | src/http/router.cpp:33-45 | for arbitrary scripts every middleware entered does all of its own effects in script order, and the others none |
| Router.OneAction | src/http/router.cpp:33-45 | an effect is logged under its middleware, and a `next` is one call of the shared closure |
| Router.InterpretInParts | src/http/router.cpp:36-43 | what follows a `next` in a script is done after all that this `next` did, wherever the chain ended |
| Router.RunIsOnion | src/http/router.cpp:33-45 | if every script calls `next` at most once, the trace is the nested composition around the handler, cut at the first script without `next` |
| Router.Continuation.Invoke | src/http/router.cpp:36-43 | the closure with its shared index does what the chain function says, and terminates |
| Router.Continuation.Perform | src/http/router.cpp:36-43 | a middleware that calls back into the closure, likewise |
| Router.HttpRouter.Handle | src/http/router.cpp:18-46 | unmatched requests get the 404 response and run nothing; matched ones run the chain around the handler registered last for that route: each middleware entered does all its effects, and with at most one `next` each the trace is the onion |
| RoundRobin.PicksAreFair | src/governance/load_balancer.cpp:5-14 | in any interleaved history, k consecutive picks of a service with n endpoints choose each position floor(k/n) or ceil(k/n) times if its cursor does not wrap among them, in whatever lap of the cursor they fall |
| RoundRobin.PicksAcrossOneWrap | src/governance/load_balancer.cpp:10-13 | across any one 2^64 wrap two positions differ by at most two picks |
| RoundRobin.FairWithoutWrap | src/runtime/io_context_pool.cpp:26-29 | the same evenness for consecutive tickets |
| RoundRobin.AlwaysFairIff | src/governance/load_balancer.cpp:10-13 | every window is even if and only if the number of endpoints divides 2^64 |
| RoundRobin.RoundRobinLoadBalancer.Choose | src/governance/load_balancer.cpp:5-14 | the endpoint at the service's next position; an empty list fails and leaves the cursors alone |
| RoundRobin.IoContextTickets.Next | src/runtime/io_context_pool.cpp:26-29 | each call takes one ticket, whoever makes it |
| AppLifecycle.BodiesAreBounded | src/runtime/app.cpp:108-145 | shutdown bodies entered are at most 1 + resets |
| AppLifecycle.RunReturnsWhenStopped | src/runtime/app.cpp:132-161 | Run returns only if a shutdown finished after its reset, and no wakeup is lost |
| AppLifecycle.StoppedAfterCleanStart | src/runtime/app.cpp:126-161 | if no shutdown is under way or finished when Run has nothing left to start, everything is stopped when Run returns |
| AppLifecycle.LateStopsStopEverything | src/runtime/app.cpp:141-161 | if every winning exchange comes after startup, all servers and pool workers are stopped when Run returns |
| AppLifecycle.AlwaysAllStoppedIff | src/runtime/app.cpp:108-161 | for every reachable world: Run is sure to return with everything stopped if and only if it has no pool, worker or server left to start and no call of Stop, present or future, can be the next to set `stopped_` before all is stopped, which is read off the calls' places (`Safe`) |
| AppLifecycle.EarlyStopLeavesAllRunning | src/runtime/app.cpp:111-145 | for any number of threads and servers an early Stop can let Run return with everything running |
| QueryString.ParseQuery | src/http/http_server.cpp:33-54 | the loop terminates and is a first-wins fold over the '&'-parts after the first '?' |
| QueryString.TargetCut | src/http/http_server.cpp:25-39 | a target is its path, and behind a '?' its query; without '?' it is all path |
| QueryString.SplitMeaning | src/http/http_server.cpp:40-54 | the parts have no '&' and make up the query with '&' between them |
| QueryString.PartMeaning | src/http/http_server.cpp:43-48 | a part is a key and a value around its first '=', a key with an empty value without one, and nothing when empty |
| QueryString.FirstWinsMeaning | src/http/http_server.cpp:43-48 | present keys keep their values, new keys get the value of their first pair, and there are no others |
| QueryString.TargetRoundTrip | src/http/http_server.cpp:25-54 | printing printable pairs after a '?'-free path and taking the target apart returns both |
| QueryString.DistinctPairsAreTheMap | src/http/http_server.cpp:43-48 | with distinct keys the map is exactly the pairs |
| TraceContext.ParseAccepts | src/core/trace.cpp:85-110 | the accepted language position by position; parse yields a valid context exactly on it and the empty one elsewhere |
| TraceContext.ParseOfPrint | src/core/trace.cpp:85-117 | only a valid context is printed, in 55 characters, and parsing them gives it back |
| TraceContext.PrintOfParse | src/core/trace.cpp:85-117 | printing what was parsed only rewrites the version to "00" |
| TraceContext.BytesToLowerHex | src/core/trace.cpp:14-23 | the buffer holds two digits per byte |
| TraceContext.HexRoundTrip | src/core/trace.cpp:14-39 | the digits determine the bytes |
| TraceContext.NewRootValid | src/core/trace.cpp:66-72 | a root is valid exactly when neither random block is all zero; its ids spell the random bytes and its flags are "01" |
| TraceContext.ChildOfAnyParent | src/core/trace.cpp:74-83 | for any parent: a child with the parent's trace, the random span and the parent's flags, or "01" if it has none, exactly when the trace and flags are well-formed and the random bytes not all zero; otherwise a fresh root |
| TraceContext.ChildOfValidParent | src/core/trace.cpp:74-83 | a child of a valid parent shares trace and flags, with its own span, unless its bytes are all zero |
| Retry.RetryPolicy.constructor | src/resilience/retry.cpp:9-19 | attempts at least one and jitter ratio between zero and one, each kept when it already was; base and maximum kept |
| Retry.RetryPolicy.BackoffBeforeAttempt | src/resilience/retry.cpp:21-43 | no delay before the first attempt; later ones, with m the smaller of base * 2^(attempt-2) and the maximum, for options of any sign: m scaled by the draw less its fraction, cut off at zero and at the maximum; for nonnegative options within m(1-r) - 1 and m(1+r) |
| Retry.RawDoubles | src/resilience/retry.cpp:26-30 | the unjittered delay starts at the base and doubles from attempt to attempt, up to the maximum |
| Retry.RawGrows | src/resilience/retry.cpp:26-30 | the unjittered delay never falls, never exceeds the maximum, and is the maximum exactly once the doubling reaches it |
| Retry.SaturatesIff | src/resilience/retry.cpp:26-30 | in exact arithmetic, with products of any size, the unjittered delay is the maximum for good from some attempt on if and only if the base is positive or the maximum zero |
| Retry.JitterBounds | src/resilience/retry.cpp:38-42 | raw(1-r) - 1 < delay <= raw(1+r), and delay is raw(1+draw) less its fraction, or the maximum |
| Retry.NegativeOnlyByMaximum | src/resilience/retry.cpp:38-42 | for any options a delay is negative exactly when the maximum is |
| Retry.TotalDelayCapped | src/resilience/retry.cpp:21-43 | delays before attempts 2 to n sum to at most (n-1) times the maximum |
| Retry.TotalDelayGeometric | src/resilience/retry.cpp:26-43 | and to at most base(2^(n-1) - 1)(1+r) |

## Left out

- Sockets, acceptors, HTTP sessions and the HTTP client: I/O and foreign asynchronous callbacks.
- Configuration, JSON and logging: thin wrappers over libraries that are not part of this model.
- Service discovery, status values, gauges and command-line parsing: one-branch facts. `GaugeMetric` has the body of `CounterMetric` with another metric type.
- Weak memory ordering: steps are sequentially consistent; the `const_cast` in the breaker's constructor is read as plain assignment.
- Floating point: observations and backoff use exact reals, so rounding, NaN and the text form of bounds are not modelled; the `le` label and the rest of the exposition text are left out.
- Integer overflow of clock differences, of `std::size_t` totals in `Size`, and of the product `base * 2^(attempt-2)`: assumed not to happen.
- Random numbers: bytes and jitter draws are arbitrary values in their range.
- LatencyHistogram.Histogram.Get: states the snapshot with no recorder running; `LatencyRuns` has recorders running, with fewer than 2^64 records and no `Reset` under way.
- AppLifecycle.LateStopsStopEverything: stoppers run outside the pool, because the POSIX signal path calls Stop on a pool worker that the pool would then join.
- AppLifecycle.StoppedAfterCleanStart: joining the workers is one step, because handlers that never finish are not modelled. `Start` and `Stop` of the pool both change its thread list, which in C++ is a data race when they overlap; here each such change is atomic. Whether an unjoined worker still runs or has found its context stopped is not modelled.
- Routes map to handler names, what middlewares and handlers write into the response is theirs, and `next` is called only while `Handle` runs: a `next` kept for later would use locals that are gone.
- Labels: a label set is the key-ordered traversal of a `std::map` (`Ordered`, with names compared as `std::string` does). Round trips and injectivity hold for label lists in any order; the two results about keys shared with no other metric let only label sets count as other metrics.
- Trace Context forms the code does not implement, such as longer strings of higher versions or refusing version "ff".
