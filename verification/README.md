# vyx: a model of the orchestrator's stateful algorithms

vyx is an orchestrator: a gateway takes HTTP requests, looks up the route, and
sends the request over a socket to a worker process that it started and
watches. This project models the small stateful algorithms that this rests on
and proves what they keep over whole runs.

| module | what it models |
|---|---|
| `Paths`, `RouteSpec`, `RouteIndex`, `RouteTrie`, `RouteCoverage`, `RouteLaws` | the route map: a flat meaning of a list of routes, a functional index, the trie on the heap that holds the index, which lists never hide a route, and what is answered in terms of the text of paths and methods |
| `UdsPool`, `UdsLaws`, `UdsLimits` | the socket connection pool: every locked section is one step, dialling happens between steps; each section in full; and how large it can grow |
| `RateLimiter`, `LimiterLaws` | the per-address and per-token limiter, over timed runs, and what each of the two limits promises |
| `Breaker` | the circuit breaker, over timed call histories |
| `Dispatch` | one request through the gateway's pipeline, with the drainer and the breaker |
| `Probes` | many requests on one route, one after the other and overlapping, and what they leave of its breaker |
| `Draining`, `DrainLimits` | acquire, release, drain and cleanup as an interleaving of steps by many requests, and exactly when their promises fail |
| `DrainerLog`, `RequestRuns`, `DispatchRuns` | the pipeline's requests as runs of those steps |
| `Framing`, `FramingLaws`, `Streams` | the wire format with its two readers, the format in numbers, and stream splitting and assembly above it |
| `WorkerIds`, `Selection`, `WorkerPool`, `PoolRuns`, `WorkerManager` | worker names, the arithmetic of choosing a worker, the pool with its index, the pool while requests come and go, and the manager's spawning, replacing and health pass |
| `Backoff`, `LineReader` | the restart back-off table, and line reassembly of a worker's output |

Objects that the program updates in place are classes, and each method is
proved against a function on values; whole-run results are lemmas about those
functions. Those functions are in turn pinned down by lemmas that say in plain
terms - characters, numbers, fields - what each operation answers (the `Laws`
modules and the members named `...InFull`, `...InNumbers` and `...InLetters`).
Clock readings, random draws and the outcomes of dialling, sending,
receiving and spawning are inputs. Ghost fields such as `history`, `repr`,
`counts`, `dialled`, `held` and `shut` record what happened; no result depends
on them.

Where a promise fails, the exact condition under which it holds is proved, or a
witness and a bound:

- A route that fits a path can be hidden by a preferred prefix without an entry.
  `RouteCoverage.EveryFittingPathFoundExactlyWhenNothingHidden` says for which
  lists of routes that never happens.
- The connection pool's counter equation survives `Close` only when as many
  connections are idle as in use (`UdsPool.SumSurvivesCloseExactlyWhenBalanced`).
  Its maximum is MaxSize plus MinSize for every reap whose dials can be under way
  at once (`UdsLimits.NewPoolMaximum`), and that is reached
  (`UdsLimits.OverlappingReapsReachMaximum`). With the default timeouts a reap's
  dials end before the next reap starts unless adding them is delayed, so that
  the maximum is MaxSize plus MinSize rather than MaxSize.
- Requests that end without a report use up the probes of a half-open breaker.
  Once they are spent, the route is refused from then on exactly when no admitted
  request that is still under way will report
  (`Probes.SpentProbesRefuseExactlyWhenNobodyReports`).
- After a cleanup, drains keep their promise exactly when nobody had the worker in
  hand (`DrainLimits.CleanupKeepsDrainsHonestExactlyWhenCareful`), and a release
  can panic exactly when somebody who has yet to look its wait group up for a
  release had a named one (`DrainLimits.CleanupPanicsExactlyWhenHeldAndNamed`).
- A worker that is draining, or whose drain has returned, can still be sent to
  exactly when a pool may select it or a request past its check is on its way to
  it (`DrainLimits.DrainingWorkerCanBeSentToExactlyWhen`).
- A worker added again while requests on it are under way spoils its count down
  to -1, which least-loaded selection takes for no worker
  (`PoolRuns.ReaddedWorkerIsPassedOver`); adding such a name is the only step
  that spoils a count (`PoolRuns.StepKeepsAccountedExactlyWhenCareful`).
- Round robin gives every worker its share of every stretch of selections exactly
  when each selection advances the counter before the next one reads it, or there
  is one worker (`PoolRuns.RoundRobinIsFairExactlyWhenOneByOne`).
- The gateway counts a request only if the worker's name leads back to the pool.
  Least-loaded selection is fair exactly when that holds of every healthy worker,
  or there is one (`PoolRuns.LeastLoadedIsFairExactlyWhenCounted`); it does not
  hold of the names that a health pass or a replacement generates
  (`PoolRuns.GeneratedIsNotCounted`), and such a worker, once selected, takes
  every further request (`PoolRuns.UncountedTakesAll`).
- The end of a stream returns its chunks exactly when the size that its start
  announced can be made into a buffer; a negative one is accepted and makes the
  end panic (`Streams.EndReturnsExactlyWhenSizeCanBeMade`).
- The rate limit holds in every sliding window exactly for limits of at most one
  (`RateLimiter.LimitHoldsExactlyWhenAtMostOne`).

Where comments in the code and the code disagree, the model follows the code:

- `core/application/gateway/ratelimiter.go:10` and `:62` call the window sliding
  or rolling; it is a fixed window that starts with a key's first request, so
  almost twice the limit fits into one window length
  (`RateLimiter.BoundIsAttained`).
- `core/infrastructure/ipc/codec/stream.go` tracks streams by name, but a chunk
  carries no name and goes to every open stream (`Streams.InterleavedPayloadsMix`),
  and the frame reader refuses the stream message types
  (`Streams.StreamMessagesAreNotReadable`).
- `core/domain/pool/manager.go:256` calls a generated worker name unique; two
  made in the same millisecond are equal, and by
  `WorkerPool.AddKeepsIndex` the pool's list then names a worker twice.

## Model

| member | source | states |
|---|---|---|
| Paths.SplitPath | core/domain/gateway/route.go:114-124 | trimming, splitting and compacting within the same slice yields exactly the non-empty pieces between slashes, in order |
| Paths.TrimKeepsSegments | core/domain/gateway/route.go:115 | trimming slashes first never changes the segments |
| Paths.SegmentsAppend | core/domain/gateway/route.go:114-124 | a slash between two strings separates their segments, whatever other slashes there are |
| Paths.SegmentsAreSegments | core/domain/gateway/route.go:114-124 | every segment is non-empty and free of slashes |
| Paths.SegmentsOfJoin | core/domain/gateway/route.go:114-124 | joining segments into a path and splitting it again gives them back |
| RouteSpec.ChosenUnique | core/domain/gateway/route.go:129-155 | at most one shape comes before all other fitting prefixes of route shapes |
| RouteSpec.CapturesUnique | core/domain/gateway/route.go:129-163 | a chosen shape and a path determine the captured parameters |
| RouteSpec.AnswerUnique | core/domain/gateway/route.go:93-112 | routes, method and path determine the answer of a lookup, so meeting the flat meaning fixes it completely |
| RouteSpec.AnswersIgnoreCase | core/domain/gateway/route.go:106-109 | a method answers the same in any letter case |
| RouteSpec.LastEntryFound | core/domain/gateway/route.go:183-184 | of routes with one shape and method, the last listed one answers |
| RouteSpec.OwnShapeChosen | core/domain/gateway/route.go:129-187 | with a route's own pattern as the path, its own shape comes before every other candidate |
| RouteSpec.OwnPatternAnswers | core/application/handshake/handler.go:98-110 | looking up a registered route's own pattern always succeeds, with the last route of that shape and method |
| RouteLaws.UpperAgreesExactlyUpToCase | core/domain/gateway/route.go:106-184 | two methods are identified if and only if they agree letter by letter, up to the case of ASCII letters |
| RouteLaws.AnswerIsListedRoute | core/domain/gateway/route.go:93-112 | an answered entry is listed, its pattern's segments equal the path's or start with a colon, its method is the requested one up to case, and no later route has the same pattern and method |
| RouteLaws.OtherMethodIsNeverAnswered | core/domain/gateway/route.go:106-109 | an entry whose method differs by more than case, or whose pattern does not fit, is never answered |
| RouteLaws.OwnPatternIsServed | core/application/handshake/handler.go:98-110 | a registered pattern, looked up under its method in any case, is answered by the last route of that pattern and method |
| RouteLaws.NameIsAfterColon | core/domain/gateway/route.go:171-175 | a parameter's name is the text after its colon |
| RouteLaws.CapturedByPatternText | core/domain/gateway/route.go:129-175 | the captured names are the texts after the colons in the first route that passes each parameter position of the answered pattern, each with the path's segment at its last position, and nothing else is captured |
| RouteIndex.TouchPathMeaning | core/domain/gateway/route.go:169-182 | walking one route in makes exactly the prefixes of its shape known, keeps older names and entries, and names new parameter nodes by this route |
| RouteIndex.BuildIndexFaithful | core/domain/gateway/route.go:165-187 | for every list, the index knows exactly the prefixes of route shapes, with the first registered parameter name and the last registered entry of each |
| RouteIndex.InsertFaithful | core/domain/gateway/route.go:168-185 | inserting one more route keeps the index faithful to the longer list |
| RouteIndex.WalkFindsFirst | core/domain/gateway/route.go:129-155 | the backtracking search ends at the first fitting known shape in literal-before-parameter order, and fails only if none fits; its parameters are those of that shape alone, with nothing left from abandoned branches |
| RouteIndex.BindFromCaptures | core/domain/gateway/route.go:145-150 | the bound parameters are exactly the parameter positions of the shape under their node names, the later position winning on a repeated name |
| RouteIndex.WalkChooses | core/domain/gateway/route.go:129-155 | a search from the root ends at a shape if and only if it is the chosen one of the flat meaning |
| RouteIndex.WalkCaptures | core/domain/gateway/route.go:129-163 | a search from the root captures what the flat meaning captures |
| RouteIndex.LookUpAnswers | core/domain/gateway/route.go:93-112 | a lookup in an index faithful to a list answers what the list means |
| RouteIndex.FittingRouteGivesChoice | core/domain/gateway/route.go:129-155 | if some route fits the path then some shape is chosen |
| RouteIndex.FoundExactlyWhenChosenIsRegistered | core/domain/gateway/route.go:93-112 | a lookup succeeds if and only if the chosen shape carries an entry for the method |
| RouteIndex.FittingRouteCanBeHidden | core/domain/gateway/route.go:130-143 | the concrete failing family: a longer literal route hides a parameter route that fits, and the lookup answers not found |
| RouteCoverage.SharedPathFits | core/domain/gateway/route.go:129-155 | two compatible shapes have a path that both fit and that fits only known shapes between them |
| RouteCoverage.HiddenRouteIsMissed | core/domain/gateway/route.go:130-143 | a start without an entry that no other start between precedes makes some path of a registered route not found |
| RouteCoverage.FittingRouteIsFound | core/domain/gateway/route.go:129-155 | in a list without such a start, every path that a route with the method fits is found |
| RouteCoverage.EveryFittingPathFoundExactlyWhenNothingHidden | core/domain/gateway/route.go:93-155 | a condition on the list of routes alone, met if and only if every path that a route with the method fits is found |
| RouteTrie.NewChild | core/domain/gateway/route.go:171-180 | links a fresh node below its parent, as its parameter child with the segment's name or under the literal |
| RouteTrie.Descend | core/domain/gateway/route.go:170-182 | one step of an insertion keeps the trie holding the index, reusing an existing child and creating only a missing one |
| RouteTrie.StoreEntry | core/domain/gateway/route.go:183-184 | overwrites one method's entry at one node and changes no other node |
| RouteTrie.Insert | core/domain/gateway/route.go:168-185 | after inserting a route the trie holds the index with that route inserted |
| RouteTrie.BuildTrie | core/domain/gateway/route.go:165-187 | the built trie is fresh and holds the index of the whole list |
| RouteTrie.Traverse | core/domain/gateway/route.go:129-155 | the recursion over heap nodes returns the node of exactly the shape that the search on the index finds, with its parameters |
| RouteTrie.LookupIn | core/domain/gateway/route.go:98-111 | below a loaded root, the answer is the flat meaning of the routes the trie was built from |
| RouteTrie.RouteMap.constructor | core/domain/gateway/route.go:55-60 | a new map serves the given routes |
| RouteTrie.RouteMap.Swap | core/domain/gateway/route.go:64-67 | replaces the whole trie by a fresh one for the new routes |
| RouteTrie.RouteMap.Lookup | core/domain/gateway/route.go:93-112 | answers the flat meaning of the current routes; not found before any are loaded |
| RouteTrie.RouteMap.LookupAcrossSwap | core/domain/gateway/route.go:64-67 | a lookup overtaken by a swap answers wholly from the old routes, the next one wholly from the new |
| RouteTrie.RouteMap.UnregisteredCapabilities | core/application/handshake/handler.go:98-110 | warns exactly of the capabilities no route answers, never of a registered pattern and method, and of all of them before any routes are loaded |
| UdsPool.Normalize | core/infrastructure/ipc/uds/pool.go:90-101 | the defaults leave a positive minimum, a maximum not below it and a positive timeout, and change no configuration that has these |
| UdsLaws.Defaults | core/infrastructure/ipc/uds/pool.go:93-104 | the defaults are 2, 16 and 30 seconds |
| UdsPool.KeptIds | core/infrastructure/ipc/uds/pool.go:316-325 | a reap keeps exactly the idle connections that are neither idle too long nor unused too long, in any order of arrival |
| UdsPool.StepKeepsPartition | core/infrastructure/ipc/uds/pool.go:148-347 | after every step each connection ever dialled is in exactly one place (idle, held, taken out to be closed, about to be added, or closed) and no other connection is anywhere |
| UdsPool.StepKeepsCounts | core/infrastructure/ipc/uds/pool.go:148-347 | every step before Close keeps total equal to idle plus in use, and in use equal to what is out |
| UdsPool.ReceivedWasNotHeld | core/infrastructure/ipc/uds/pool.go:148-195 | the connection that an acquire is about to hand out is held by nobody |
| UdsLaws.LiveNewestIsHandedOut | core/infrastructure/ipc/uds/pool.go:157-175 | a live newest idle connection is held by the caller afterwards and not closed |
| UdsLaws.DeadNewestIsClosed | core/infrastructure/ipc/uds/pool.go:162-168 | a dead one is held by nobody, no longer counts, and is closed before the acquire locks again |
| UdsLaws.DialsExactlyWithRoom | core/infrastructure/ipc/uds/pool.go:151-183 | without an idle connection one is dialled exactly when total is below the maximum; a closed pool gives a newcomer nothing |
| UdsLaws.FailedProbeIsNeverHeldAgain | core/infrastructure/ipc/uds/pool.go:148-347 | in every run afterwards, a connection whose probe failed is neither held nor idle |
| UdsPool.RunKeepsAccounts | core/infrastructure/ipc/uds/pool.go:148-347 | both hold in every state of every interleaving |
| UdsPool.InitialIsAccounted | core/infrastructure/ipc/uds/pool.go:89-136 | and they hold of a newly made pool |
| UdsPool.RunAfterClose | core/infrastructure/ipc/uds/pool.go:225-246 | once closed, the pool stays closed and its idle list empty, and the counters keep their difference |
| UdsPool.CloseLeavesNothingOpen | core/infrastructure/ipc/uds/pool.go:199-246 | in every run with a Close, once nobody holds or dials a connection every connection ever dialled has been closed |
| UdsPool.SumSurvivesCloseExactlyWhenBalanced | core/infrastructure/ipc/uds/pool.go:243 | after Close and any further steps, total is idle plus in use if and only if Close found as many idle as in use |
| UdsLimits.StepWithinMax | core/infrastructure/ipc/uds/pool.go:178-183 | a step leaves total within the maximum if and only if it is not an addition to a full pool |
| UdsLimits.WithinMaxExactlyWhenNeverOverfilled | core/infrastructure/ipc/uds/pool.go:267-287 | a run stays within the maximum throughout if and only if no replenishing dial adds to a full pool |
| UdsLimits.AtomicReplenishStaysWithinMax | core/infrastructure/ipc/uds/pool.go:308-347 | if a reap's dials complete together with it, no run exceeds the maximum |
| UdsLimits.StepOutstanding | core/infrastructure/ipc/uds/pool.go:333-346 | only a reap asks for connections; a dial ends as one added or as none |
| UdsLimits.MaximumUnderOverlappingReaps | core/infrastructure/ipc/uds/pool.go:267-287 | while each reap finds the dials of at most k - 1 others, total and what is outstanding stay within MaxSize and k times MinSize, in every interleaving |
| UdsLimits.NewPoolMaximum | core/infrastructure/ipc/uds/pool.go:308-347 | so a new pool never has more than MaxSize + k * MinSize connections, and MaxSize + MinSize without overlapping reaps |
| UdsLimits.OverlappingReapsReachMaximum | core/infrastructure/ipc/uds/pool.go:308-347 | and for every k and all late enough reap times some run reaches exactly that |
| UdsPool.ReleaseKeepsAccountsExactlyWhenHeld | core/infrastructure/ipc/uds/pool.go:199-221 | a release keeps partition and counters if and only if somebody holds the connection, so a double release breaks them |
| UdsPool.Pool.AddDialled | core/infrastructure/ipc/uds/pool.go:276-287 | a dialled connection joins the idle list and total, or is closed when the pool is closed |
| UdsPool.Pool.AcquireSection | core/infrastructure/ipc/uds/pool.go:149-183 | the locked section of an acquire is one step, with the answer stated by its fields: closed, the newest idle one if it is alive, that one found dead, exhausted, or a dial |
| UdsLaws.ReleaseReturnsOrCloses | core/infrastructure/ipc/uds/pool.go:199-221 | a release appends to the idle list or, in a closed pool or beside a full idle list, closes and uncounts |
| UdsLaws.ReleasedIsNextAcquired | core/infrastructure/ipc/uds/pool.go:148-221 | a released live connection is the one the next acquire gets, and both undo each other |
| UdsLaws.AddJoinsOrCloses | core/infrastructure/ipc/uds/pool.go:276-287 | a replenished connection joins an open pool, full or not, and is closed by a closed one |
| UdsLaws.ReapKeepsFreshAndReplenishes | core/infrastructure/ipc/uds/pool.go:308-347 | exactly the connections idle for at most the timeout stay, and the missing minimum is asked for exactly when it fits |
| UdsLaws.ReapKeepsOrder | core/infrastructure/ipc/uds/pool.go:316-325 | in the order they had |
| UdsLaws.CloseEmptiesIdle | core/infrastructure/ipc/uds/pool.go:225-246 | closing closes every idle connection and subtracts those in use, which stay with their holders |
| UdsPool.Pool.AcquireDialFailed | core/infrastructure/ipc/uds/pool.go:185-192 | a failed dial gives back its reservation |
| UdsPool.Pool.ReleaseConn | core/infrastructure/ipc/uds/pool.go:199-221 | a released connection becomes the newest idle one, or is closed when the pool is closed or full of idle ones; one that is not pooled leaves the pool alone |
| UdsPool.Pool.CloseAll | core/infrastructure/ipc/uds/pool.go:225-246 | closes every idle connection and subtracts the ones in use from total |
| UdsPool.Pool.ReapIdle | core/infrastructure/ipc/uds/pool.go:308-347 | keeps the fresh idle connections, closes exactly the others, and asks for the missing minimum if there is room |
| UdsPool.Pool.CloseStale | core/infrastructure/ipc/uds/pool.go:316-325 | the loop closes and uncounts exactly the stale connections and keeps the others in order |
| UdsPool.NewPool | core/infrastructure/ipc/uds/pool.go:89-136 | succeeds if and only if there is a socket path and all minimum dials do, and then is an initial pool with exactly them; otherwise everything dialled is closed |
| RateLimiter.WithinOneWindow | core/application/gateway/ratelimiter.go:17-37 | until a key's window ends at most the rest of its limit is granted |
| RateLimiter.WithinTwoWindows | core/application/gateway/ratelimiter.go:17-37 | an interval of the window's length reaches into at most one further window |
| RateLimiter.AtMostTwiceTheLimit | core/application/gateway/ratelimiter.go:17-37 | over any timed run and jitter draws, at most 2*limit-1 requests are granted in any closed interval of the window's length |
| RateLimiter.BoundIsAttained | core/application/gateway/ratelimiter.go:17-37 | and for every limit and jitter some run is granted that many |
| RateLimiter.LimitHoldsExactlyWhenAtMostOne | core/application/gateway/ratelimiter.go:17-37 | the limit itself holds in every interval of the window's length, for every run, if and only if it is at most one |
| RateLimiter.NothingGranted | core/application/gateway/ratelimiter.go:29-34 | a limit below one grants nothing |
| RateLimiter.RetryAfterIsExact | core/application/gateway/ratelimiter.go:29-34 | whoever retries within retry-after is refused, and the first request after it is granted |
| RateLimiter.KeysAreIndependent | core/application/gateway/ratelimiter.go:91-129 | a key's answers and grants are those of its own requests served alone |
| RateLimiter.LimiterBound | core/application/gateway/ratelimiter.go:91-129 | from an empty limiter, the bound holds of every key in every timed run of all keys together |
| LimiterLaws.AddressBound | core/application/gateway/ratelimiter.go:91-97 | an address is granted at most twice the address limit less one per window length |
| LimiterLaws.TokenBound | core/application/gateway/ratelimiter.go:102-107 | a token at most twice the token limit less one |
| LimiterLaws.AddressIsGrantedItsLimit | core/application/gateway/ratelimiter.go:91-97 | from an empty limiter, of an address's requests at one time exactly the first as many as the address limit are granted, whatever else comes |
| LimiterLaws.TokenIsGrantedItsLimit | core/application/gateway/ratelimiter.go:102-107 | of a token's, exactly the first as many as the token limit |
| LimiterLaws.WithoutTokenAlwaysGranted | core/application/gateway/ratelimiter.go:102-107 | requests without a token are never limited by token |
| LimiterLaws.NewWindowEndsAfterWindowAndDraw | core/application/gateway/ratelimiter.go:17-28 | the first request after a window's end opens one that lasts the window and the draw, and is counted in it |
| LimiterLaws.FullWindowDenies | core/application/gateway/ratelimiter.go:29-34 | until its end a full window denies and tells how long it lasts |
| LimiterLaws.HalfDropsTowardZero | core/application/gateway/ratelimiter.go:76-78 | the cap on the jitter is half the window, truncated toward zero |
| RateLimiter.Bucket.Allow | core/application/gateway/ratelimiter.go:17-37 | answers and moves the window as the specification does |
| RateLimiter.BucketMap.GetBucket | core/application/gateway/ratelimiter.go:114-129 | returns the key's one bucket, fresh if it had none, and moves no other |
| RateLimiter.BucketMap.Allow | core/application/gateway/ratelimiter.go:91-107 | one key's window changes, every other key's is untouched |
| RateLimiter.RateLimiter.constructor | core/application/gateway/ratelimiter.go:75-87 | jitter is capped at half the window, truncated toward zero |
| RateLimiter.RateLimiter.AllowIP | core/application/gateway/ratelimiter.go:91-97 | the host part, or the whole address when it does not split, is the key |
| RateLimiter.RateLimiter.AllowToken | core/application/gateway/ratelimiter.go:102-107 | an empty token is always granted and leaves no bucket |
| Breaker.Normalize | core/domain/circuit/breaker.go:57-65 | the defaults replace zero settings only |
| Breaker.Defaults | core/domain/circuit/breaker.go:57-65 | the defaults are 5 failures, 30 seconds and 1 probe |
| Breaker.AllowInFull | core/domain/circuit/breaker.go:121-146 | when each mode admits, and what an admission changes |
| Breaker.SuccessInFull | core/domain/circuit/breaker.go:80-95 | a success closes a half-open breaker, clears a closed one, and leaves an open one alone |
| Breaker.FailureInFull | core/domain/circuit/breaker.go:97-119 | a failure is counted and dated, opens a half-open breaker and a closed one at the threshold, and only the latter starts a cooldown |
| Breaker.ClosedCountsConsecutiveFailures | core/domain/circuit/breaker.go:80-111 | while closed, the counter is the failures since the last success or closing, and is below the threshold |
| Breaker.TripsExactlyAtThreshold | core/domain/circuit/breaker.go:97-111 | a call opens a closed breaker if and only if it completes a run of failures of the threshold's length |
| Breaker.ChangesFormAPath | core/domain/circuit/breaker.go:80-176 | the announced changes of every history are a connected path from closed, along the four allowed edges each with its reason, to the present state |
| Breaker.EpisodeAdmitsProbesPlusOne | core/domain/circuit/breaker.go:121-146 | a half-open episode has admitted exactly its probes and the call that opened it, within the configured maximum plus one |
| Breaker.HalfOpenAdmitsExactly | core/domain/circuit/breaker.go:136-143 | a half-open breaker admits a call if and only if its episode has admitted at most the maximum |
| Breaker.UnreportedProbesJamTheBreaker | core/domain/circuit/breaker.go:121-146 | with its probes used up and no reports, it refuses for ever |
| Breaker.CooldownIsOver | core/domain/circuit/breaker.go:112-136 | in a half-open breaker, and in one opened by a failed probe, the cooldown since the trip is already over |
| Breaker.OpenRefusesExactlyWithinCooldownOfTrip | core/domain/circuit/breaker.go:112-136 | an open breaker refuses if and only if it tripped from closed and the cooldown since that call is not over; a failed probe opens it without one |
| Breaker.Breaker.RecordSuccess | core/domain/circuit/breaker.go:80-95 | the fields follow the specification and the announced changes and reasons are its log |
| Breaker.Breaker.RecordFailure | core/domain/circuit/breaker.go:97-119 | likewise for a failure |
| Breaker.Breaker.AllowRequest | core/domain/circuit/breaker.go:121-146 | likewise, and the answer is the specification's |
| Breaker.Registry.Get | core/domain/circuit/breaker.go:193-213 | one breaker a route: the registered one, or a new closed one |
| Breaker.Registry.Remove | core/domain/circuit/breaker.go:215-219 | forgets one route's breaker only |
| Draining.StepKeepsAccounts | core/application/lifecycle/drainer.go:30-43 | a step keeps the accounts (each worker's own group counts its requests between acquire and release, and each such request has that group) if and only if it is not the release of a nameless worker or the cleanup of one in someone's hands |
| Draining.CarefulRunKeepsAccounts | core/application/gateway/dispatcher.go:463-522 | every interleaving of careful steps keeps the accounts |
| Draining.AcquireLoadKeepsAccounts | core/application/lifecycle/drainer.go:30-33 | loading or storing the wait group counts nobody yet |
| Draining.AcquireAddKeepsAccounts | core/application/lifecycle/drainer.go:30-33 | adding one counts exactly the acquirer |
| Draining.ReleaseKeepsAccounts | core/application/lifecycle/drainer.go:37-43 | a release keeps the accounts if and only if the worker has a name |
| Draining.CleanupKeepsAccounts | core/application/lifecycle/drainer.go:88-91 | a cleanup keeps them if and only if nobody has the worker in hand |
| Draining.HolderKeepsCountPositive | core/application/lifecycle/drainer.go:48-71 | while a request holds a worker, a drain of it cannot return nil |
| Draining.StepKeepsWaitedFor | core/application/lifecycle/drainer.go:48-71 | no step takes a request away from a drain that waits for it, except its release |
| Draining.StepKeepsDrainsHonest | core/application/lifecycle/drainer.go:48-71 | every step keeps: a drain that returned nil has outlasted all earlier acquirers |
| Draining.DrainedMeansReleased | core/application/lifecycle/drainer.go:48-71 | so does every careful run |
| Draining.CarefulCallersAreCountedAndDrained | core/application/gateway/dispatcher.go:265-294 | from the start: every worker's count is exactly its holders, and a nil drain means every earlier acquirer has released |
| Draining.CarefulRunNeverPanics | core/application/lifecycle/drainer.go:37-43 | and no release finds its wait group at zero, where Go's would panic |
| Draining.RunKeepsVetted | core/application/gateway/dispatcher.go:366-381 | in every run, whoever is past the drain check has passed it |
| Draining.CheckedWhileDrainingNeverSends | core/application/gateway/dispatcher.go:366-381 | without a pool manager nothing is sent to a worker that was draining when the request was checked; with one, only to a worker other than the route's |
| DrainLimits.PooledRequestReachesDrainingWorker | core/application/gateway/dispatcher.go:524-544 | with a pool manager, a request can be sent to a worker that was draining before its check |
| DrainLimits.RequestCheckedEarlierOutrunsDrain | core/application/gateway/dispatcher.go:265-294 | a request checked before the marking can be sent after the drain returned nil |
| DrainLimits.DrainingWorkerCanBeSentToExactlyWhen | core/application/gateway/dispatcher.go:265-294 | in any state, a draining worker can still be sent to before its cleanup if and only if there is a pool manager or some request past its check is on its way to it and has not sent |
| DrainLimits.CleanupKeepsDrainsHonestExactlyWhenCareful | core/application/lifecycle/drainer.go:48-91 | from any state with right accounts, every careful continuation of a cleanup keeps the promise that a nil drain outlasts all earlier acquirers if and only if nobody had the worker in hand |
| DrainLimits.CleanupPanicsExactlyWhenHeldAndNamed | core/application/lifecycle/drainer.go:37-91 | and some careful continuation takes a wait group below zero if and only if the worker has a name and somebody who has yet to look its group up for a release had it in hand |
| DrainLimits.CleanupWhileHeldFoolsDrain | core/application/lifecycle/service.go:163-187 | such a cleanup is reachable from a new drainer: a stop that cleans up after a timed-out drain lets a later drain return nil while a request holds the worker |
| DrainLimits.CleanupWhileHeldPanics | core/application/lifecycle/service.go:163-187 | and so is the panic: that request's own release takes its wait group below zero |
| RequestRuns.ServedCompletes | core/application/gateway/dispatcher.go:463-522 | selecting, acquiring, sending and releasing is a run of small steps that changes no named worker's count |
| DispatchRuns.DispatchIsARun | core/application/gateway/dispatcher.go:227-294 | by every exit, a request's steps are a run of the interleaving model with exactly the pipeline's acquires, releases and sends |
| Dispatch.AcquireThenRelease | core/application/lifecycle/drainer.go:30-43 | an acquire and its release cancel out on every worker's count |
| Dispatch.WorkerDrainer.Acquire | core/application/lifecycle/drainer.go:30-33 | one worker's count goes up by one, from zero when it had none |
| Dispatch.WorkerDrainer.Release | core/application/lifecycle/drainer.go:37-43 | one worker's count goes down by one; nothing happens for an unknown worker |
| Dispatch.WorkerDrainer.MarkDraining | core/application/lifecycle/drainer.go:75-77 | adds the worker to the draining ones |
| Dispatch.WorkerDrainer.Cleanup | core/application/lifecycle/drainer.go:88-91 | forgets the worker's count and its mark |
| Dispatch.Dispatcher.Dispatch | core/application/gateway/dispatcher.go:227-294 | every exit: its response, error and recorded status, the exact calls on the breaker and the drainer; a worker is acquired if and only if the request passes the breaker, the listeners, the drain check, token, role, schema and hooks and its payload encodes; each refusal by the first check that fails, with its status and error; no count changed for any named worker |
| Dispatch.ReachesWorkerExactlyWhen | core/application/gateway/dispatcher.go:252-293 | the drainer is used if and only if every check before the transport passes |
| Dispatch.ResultInFull | core/application/gateway/dispatcher.go:227-294 | the answer, error and recorded status of each exit, in the order of the checks |
| Dispatch.BreakerCallsInFull | core/application/gateway/dispatcher.go:500-719 | the breaker is always asked, and told the outcome of a request that was sent: success for decoded statuses below 500, failure otherwise, nothing for an undecodable reply |
| Dispatch.DrainerOpsInFull | core/application/gateway/dispatcher.go:466-488 | the selected worker, or else the route's, is acquired, and released if it has a name |
| Dispatch.Dispatcher.Forward | core/application/gateway/dispatcher.go:284-293 | a request past the checks is released once on each of its exits after the acquire |
| Dispatch.Dispatcher.Validate | core/application/gateway/dispatcher.go:390-460 | token, role, schema and hooks refuse in this order with their own status and error |
| Dispatch.Dispatcher.SendAndReceive | core/application/gateway/dispatcher.go:463-522 | the selected worker, or else the route's, is acquired once the payload encodes |
| Dispatch.Dispatcher.Exchange | core/application/gateway/dispatcher.go:500-521 | every outcome of send and receive has its status and error and its report to the breaker; an undecodable reply reports nothing |
| Dispatch.Dispatcher.ReleaseInFlight | core/application/gateway/dispatcher.go:383-387 | releases only a request that acquired a named worker |
| Dispatch.Dispatcher.RecordResult | core/application/gateway/dispatcher.go:711-719 | statuses from 500 are failures, all others successes |
| Probes.VisitUses | core/application/gateway/dispatcher.go:259-293 | a request uses up one of a half-open episode exactly when it is admitted and ends without a report; any other leaves no more used than before |
| Probes.SilentVisitsUseProbes | core/application/gateway/dispatcher.go:259-282 | silent requests one after the other use up the probes until they are gone |
| Probes.JammedStaysJammed | core/application/gateway/dispatcher.go:259-294 | then no sequence of whole requests changes the breaker |
| Probes.VisitsUse | core/application/gateway/dispatcher.go:259-294 | requests one after the other use up at most one each, and less together if one is not silent |
| Probes.RouteClosesForEverExactlyWhenAllSilent | core/application/gateway/dispatcher.go:259-294 | as many whole requests one after the other as probes are left close the route for ever if and only if every one of them ends silently |
| Probes.VisitIsArrivalAndEnd | core/application/gateway/dispatcher.go:259-294 | such a request is an arrival and, if admitted, an end with nothing in between |
| Probes.JammedWhileAllSilent | core/application/gateway/dispatcher.go:259-294 | while only requests that will not report are under way, no interleaving of arrivals and ends frees a jammed breaker |
| Probes.SpentProbesRefuseExactlyWhenNobodyReports | core/application/gateway/dispatcher.go:259-294 | once the probes are spent, every continuation with overlapping requests refuses if and only if no admitted request still under way will report |
| Dispatch.MetricStatusMatchesResponse | core/application/gateway/dispatcher.go:241-245 | the metrics see the caller's status, except for unknown routes, undecodable replies and listeners that answer without one |
| Framing.Uint32OfPut | core/infrastructure/ipc/framing/framing.go:29 | the little-endian length round-trips for every 32-bit number |
| Framing.PutOfUint32 | core/infrastructure/ipc/framing/framing.go:49 | and so do any four bytes |
| FramingLaws.FrameLayout | core/infrastructure/ipc/framing/framing.go:25-39 | the written bytes one by one: length modulo 4 GiB lowest byte first, type, payload |
| FramingLaws.ReadInFull | core/infrastructure/ipc/framing/framing.go:43-83 | what a read makes of any bytes, in numbers: types 1 to 8, at most 16777216 bytes |
| FramingLaws.ParseInFull | packages/worker/src/dispatch.ts:28-46 | what the worker's parser makes of any bytes, in numbers |
| FramingLaws.WrittenIsRead | core/infrastructure/ipc/framing/framing.go:25-83 | every message of types 1 to 8 with at most 16777216 bytes is read back as written |
| FramingLaws.OthersAreRefused | core/infrastructure/ipc/framing/framing.go:52-83 | type 0 and types from 9 are unknown; longer messages of types 1 to 8 are too large |
| FramingLaws.BothReadersReturnWhatIsWritten | core/infrastructure/ipc/framing/framing.go:25-83 | within those bounds repeated reads and the worker's parser return exactly what was written |
| FramingLaws.HandledInNumbers | packages/worker/src/dispatch.ts:285-310 | type 3 is answered with its five bytes, type 1 is dispatched, dropped or throws, all others are ignored |
| Framing.ParseFrames | packages/worker/src/dispatch.ts:28-46 | the loop yields the complete frames of the buffer and the rest |
| Framing.ParseLosesNothing | packages/worker/src/dispatch.ts:28-46 | for any bytes, re-encoding the frames and appending the rest gives the buffer back, and the rest holds no complete frame |
| Framing.ParseOfFrames | packages/worker/src/dispatch.ts:28-46 | parsing concatenated frames and an incomplete tail returns exactly those messages and that tail |
| Framing.ParseContinues | packages/worker/src/dispatch.ts:28-46 | parsing more bytes after the rest of earlier ones is parsing them all at once |
| Framing.ChunksDoNotMatter | packages/worker/src/dispatch.ts:277-313 | feeding bytes in any chunks yields what feeding them whole yields |
| Framing.FramesArriveInAnyChunks | packages/worker/src/dispatch.ts:277-313 | written messages arrive complete and in order, however the stream is chunked |
| Framing.Connection.OnData | packages/worker/src/dispatch.ts:229-234 | the buffer, the frames seen, the heartbeats written and the requests dispatched follow from all the bytes received; after a request that is null nothing more is handled |
| Framing.Connection.Handle | packages/worker/src/dispatch.ts:285-310 | one heartbeat frame back for each heartbeat, one dispatch for each request that decodes, in order, nothing for other types; the loop ends at the first request that is null, whose handling throws |
| Framing.SurvivedMeans | packages/worker/src/dispatch.ts:285-310 | the handled frames are those before the first that throws, and all of them if none does |
| Framing.Write | core/infrastructure/ipc/framing/framing.go:25-39 | the bytes written are length, type and payload, with the 32-bit cut of the length |
| Framing.Reader.ReadFull | core/infrastructure/ipc/framing/framing.go:43-66 | takes exactly n bytes, or all of them and fails |
| Framing.Reader.Read | core/infrastructure/ipc/framing/framing.go:43-83 | one message or the code's error, in the code's order of checks, leaving the bytes after it |
| Framing.ReadBackExactlyWhenReadable | core/infrastructure/ipc/framing/framing.go:43-83 | a written message is read back if and only if its type is known and its payload within 16 MiB, with the error otherwise |
| Framing.ParseBackExactlyWhenItFits | packages/worker/src/dispatch.ts:28-46 | a written message is parsed back if and only if its payload is shorter than 4 GiB |
| Framing.BothReadersAgree | core/infrastructure/ipc/framing/framing.go:25-83 | for messages of known type and size, repeated reads and the worker's parser both return exactly what was written |
| Streams.Split | core/infrastructure/ipc/codec/stream.go:30-63 | a start with the length, the payload's pieces, an end |
| Streams.ChunkSizeInFull | core/infrastructure/ipc/codec/stream.go:30-34 | the default chunk is 1 MiB |
| Streams.FeedInFull | core/infrastructure/ipc/codec/stream.go:85-132 | the answers and effects of starts, chunks, malformed headers and other messages |
| Streams.WireTypesInFull | core/domain/ipc/message.go:28-33 | starts, chunks and ends travel as types 9, 10 and 11 |
| Streams.PiecesPartitionPayload | core/infrastructure/ipc/codec/stream.go:44-54 | the pieces concatenate to the payload, are non-empty, all but the last are full, and there are as many as the rounded-up quotient |
| Streams.StreamHoldsChunksSinceStart | core/infrastructure/ipc/codec/stream.go:85-108 | after any feeds, a stream is open if and only if its last start has no end after it, and holds every chunk since and the announced size |
| Streams.EndReturnsChunksSinceStart | core/infrastructure/ipc/codec/stream.go:111-128 | an end returns unknown stream, or the concatenation of all chunks since the latest start, or panics when that start's size cannot be made into a buffer |
| Streams.EndReturnsExactlyWhenSizeCanBeMade | core/infrastructure/ipc/codec/stream.go:119-128 | the end of an open stream returns its chunks if and only if the announced size is neither negative nor beyond what can be allocated |
| Streams.NegativeSizePanics | core/infrastructure/ipc/codec/stream.go:87-124 | a start with a negative size is accepted, and the end of its stream panics, whatever was fed before and between |
| Streams.SplitThenFeed | core/infrastructure/ipc/codec/stream.go:30-133 | after any feeds, a split payload that can be allocated reassembles to itself, unless its name is empty |
| Streams.InterleavedPayloadsMix | core/infrastructure/ipc/codec/stream.go:103-109 | a payload streamed while another stream is open is appended to that one too, spoiling it unless it is empty |
| Streams.StreamMessagesAreNotReadable | core/infrastructure/ipc/framing/framing.go:70-83 | the frame reader refuses every stream message |
| Streams.StreamAssembler.Feed | core/infrastructure/ipc/codec/stream.go:85-133 | the assembler's map and answers, panics included, follow the history of feeds |
| Streams.StreamAssembler.AppendToAll | core/infrastructure/ipc/codec/stream.go:104-107 | a chunk joins every open stream |
| Streams.Gather | core/infrastructure/ipc/codec/stream.go:124-127 | the chunks are concatenated in order |
| WorkerIds.Itoa | core/domain/pool/manager.go:262-272 | the digit loop prints the decimal of a number, and nothing for a negative one |
| WorkerIds.ValueOfDigits | core/domain/pool/manager.go:262-272 | reading the digits back gives the number |
| WorkerIds.DecimalIsReadable | core/domain/pool/manager.go:262-272 | and so it does with the special case of zero |
| WorkerIds.DecimalInjective | core/domain/pool/manager.go:262-272 | different numbers print differently |
| WorkerIds.DecimalInLetters | core/domain/pool/manager.go:262-272 | digit by digit in characters |
| WorkerIds.InstancesInLetters | core/domain/pool/manager.go:99-103 | the first instance has the bare prefix, the others a dash and their number |
| WorkerIds.PrefixInLetters | core/domain/pool/manager.go:236-254 | a name is cut at the dash, not its first letter, that only the digits 0 to 9 follow; other names are not cut |
| WorkerIds.CutIsUnique | core/domain/pool/manager.go:236-254 | at most one dash can separate a prefix from digits |
| WorkerIds.ExtractPrefix | core/domain/pool/manager.go:236-254 | the backward scan cuts at that dash, or returns the whole name |
| WorkerIds.InstanceIdsDistinct | core/domain/pool/manager.go:99-103 | the names of one pool's instances differ |
| WorkerIds.PrefixRecoveredExactlyForNumbers | core/application/gateway/dispatcher.go:547-565 | the prefix is recovered from prefix, dash, suffix if and only if it is non-empty and the suffix is all digits |
| WorkerIds.InstanceBelongsToPrefix | core/domain/pool/manager.go:99-103 | every numbered instance belongs to its pool; the first one if and only if the pool's own name cannot be cut |
| WorkerIds.ReplacementIsItsOwnPrefix | core/domain/pool/manager.go:257-259 | a generated replacement name, which ends in a fraction, belongs to no pool but its own full name |
| WorkerPool.AddKeepsIndex | core/domain/pool/pool.go:51-61 | the list enumerates the map once each after an add if and only if the name was new |
| WorkerPool.RemoveKeepsIndex | core/domain/pool/pool.go:64-75 | a removal keeps that and shortens the list by at most one |
| WorkerPool.HealthyMeans | core/domain/pool/pool.go:104-117 | the healthy list has exactly the living workers of the map |
| WorkerPool.HealthyIsDistinct | core/domain/pool/pool.go:104-117 | and names nobody twice if the pool's list does not |
| WorkerPool.HealthyInFull | core/domain/pool/pool.go:104-117 | in the order of the pool's list |
| WorkerPool.ChangesInFull | core/domain/pool/pool.go:51-143 | adds, updates and counts change one worker as stated and no other |
| WorkerPool.SelectionInFull | core/domain/pool/pool.go:146-169 | round robin takes the turn of the counter and advances it; least loaded and an empty list leave it |
| Selection.PicksFollowCycle | core/domain/pool/pool.go:161-169 | how often an index is picked is determined by where the cycle starts and ends |
| Selection.FairExactlyWhenOneByOne | core/domain/pool/pool.go:161-169 | of all ways in which reads and advances of the counter can interleave, exactly those one by one give n > 1 workers their share of every stretch of picks |
| PoolRuns.LogIsPicked | core/domain/pool/pool.go:146-169 | the selections of a run of a pool take what its reads and advances pick |
| PoolRuns.SelectIsReadThenAdvance | core/domain/pool/pool.go:161-169 | one call of the pool is a read and an advance with nothing in between |
| Selection.OverlappingSelectionsStarve | core/domain/pool/pool.go:161-169 | in the worst case n overlapping selections, repeated for ever, all pick one of n workers |
| Selection.ScanFindsMinimumUnlessMinusOne | core/domain/pool/pool.go:172-197 | the scan, which uses -1 for none yet, finds a minimum if and only if -1 is not the least load or stands last |
| Selection.ScanTakesFirstMinimum | core/domain/pool/pool.go:172-197 | for non-negative loads it takes the first minimum |
| Selection.SelectionsStayLevel | core/domain/pool/pool.go:172-197 | selecting and counting from zero keeps all loads within one of each other, and their sum the number of selections |
| PoolRuns.RoundRobinIsFairExactlyWhenOneByOne | core/domain/pool/pool.go:146-169 | in any run of a pool whose selections, in any overlap, see the same n healthy workers, each is selected the floor or the ceiling of k/n times in every stretch of k selections if and only if no selection reads the counter before the one before it has advanced it, or n is one |
| PoolRuns.ServeCounts | core/application/gateway/dispatcher.go:490-496 | in the gateway a least-loaded selection goes to the worker where the scan stops and counts one more for it if its name leads back to the pool, and nothing otherwise |
| PoolRuns.LeastLoadedIsFairExactlyWhenCounted | core/application/gateway/dispatcher.go:490-544 | from idle workers, the gateway's requests give each of n healthy workers the floor or the ceiling of k/n for every k if and only if n is one or every healthy worker's name leads back to the pool |
| PoolRuns.ServingLevelsLoads | core/domain/pool/pool.go:130-197 | while every selected worker is counted, each load is the number of requests sent to that worker |
| PoolRuns.UncountedTakesAll | core/application/gateway/dispatcher.go:490-496 | a worker that is not counted, once selected, is selected for every further request while the pool stays as it is |
| PoolRuns.GeneratedIsNotCounted | core/domain/pool/manager.go:257-259 | a name that a health pass or a replacement generates is not counted in its pool |
| PoolRuns.StepKeepsAccountedExactlyWhenCareful | core/domain/pool/pool.go:51-143 | a step keeps every worker's count equal to its counted requests under way if and only if it does not add a counted name that requests are under way for |
| PoolRuns.RunKeepsAccounted | core/domain/pool/pool.go:51-143 | and so does every careful run of adds, removals, updates, selections and requests |
| PoolRuns.LeastLoadedHasFewestRequests | core/domain/pool/pool.go:172-197 | after every careful run, least-loaded selection takes the first healthy worker with the fewest counted requests under way, which are all of them for names that lead back to the pool |
| PoolRuns.ReaddedWorkerIsPassedOver | core/domain/pool/pool.go:51-61 | without care a worker's count reaches -1 and the scan takes a busier worker instead |
| WorkerPool.Pool.AddWorker | core/domain/pool/pool.go:51-61 | appends the name and stores the worker with no active requests |
| WorkerPool.Pool.RemoveWorker | core/domain/pool/pool.go:64-75 | splices the first occurrence out and deletes the worker |
| WorkerPool.Pool.UpdateWorker | core/domain/pool/pool.go:78-87 | replaces a known worker's state and keeps its request count |
| WorkerPool.Pool.HealthyWorkers | core/domain/pool/pool.go:104-117 | the living workers in list order |
| WorkerPool.Pool.SelectWorker | core/domain/pool/pool.go:146-169 | none without healthy workers, otherwise the cycle's turn or the least loaded; only a turn of the cycle advances the counter |
| WorkerPool.Pool.SelectLeastLoaded | core/domain/pool/pool.go:172-197 | the loop over candidates takes what the scan of their loads takes |
| WorkerPool.Pool.IncrementActiveReqs | core/domain/pool/pool.go:130-135 | one known worker's count goes up |
| WorkerPool.Pool.DecrementActiveReqs | core/domain/pool/pool.go:138-143 | one known worker's count goes down |
| WorkerManager.AddAllKeepsIndexExactlyWhenFresh | core/domain/pool/manager.go:99-113 | adding many workers keeps the list an enumeration if and only if their names are new and differ |
| WorkerManager.SpawnedIsFresh | core/domain/pool/manager.go:203-212 | whichever spawns fail, the workers that did start have fresh names |
| WorkerManager.InstanceIdsAreFresh | core/domain/pool/manager.go:99-103 | the names of one spawning differ from each other |
| WorkerManager.SpawnIsFreshExactlyWhenUnused | core/domain/pool/manager.go:99-103 | spawning is fresh if and only if the pool has none of the names it starts, so a second spawning of a pool is not |
| WorkerManager.HealthIsFreshUnderFreshNames | core/domain/pool/manager.go:203-212 | a health pass that generates fresh names uses fresh names |
| WorkerManager.PurgeKeepsIndex | core/domain/pool/manager.go:162-170 | removing the dead keeps the list an enumeration, of the living alone |
| WorkerManager.ReplaceKeepsIndex | core/domain/pool/manager.go:119-151 | a replacement keeps it if and only if the new name is free once the old is gone, and the size unless the spawn fails |
| WorkerManager.CallKeepsIndexExactlyWhenFresh | core/domain/pool/manager.go:76-214 | any spawning, replacement or health pass keeps the list an enumeration if and only if the names it adds are fresh |
| WorkerManager.CallKeepsCap | core/domain/pool/manager.go:83-93 | none of them takes a pool within its cap beyond it |
| WorkerManager.RegisteredPoolStaysIndexedAndCapped | core/domain/pool/manager.go:45-214 | so from registration, through every sequence of calls with fresh names and deaths of workers, the list enumerates the map and a positive cap holds |
| WorkerManager.HealthPassRestoresReplicas | core/domain/pool/manager.go:154-214 | under a running base configuration with working spawns a health pass leaves only the living, survivors as they were, and as many as survived or as the replicas within the cap, whichever is more |
| WorkerManager.InitialCountInFull | core/domain/pool/manager.go:45-93 | a spawning starts the replicas, one by default, or what the cap leaves |
| WorkerManager.SpawnInFull | core/domain/pool/manager.go:95-113 | successful spawns add exactly that many workers, under prefix, prefix-1 and so on, in the configured state and without requests |
| WorkerManager.MissingInFull | core/domain/pool/manager.go:187-200 | a health pass is short of the replicas less the healthy, within what the cap leaves |
| WorkerManager.HealthAddsInFull | core/domain/pool/manager.go:202-213 | what it adds comes last, in the state of the base configuration and without requests |
| WorkerManager.HealthKeepsExactlyTheLiving | core/domain/pool/manager.go:154-214 | for every configuration, of the workers there before exactly the living stay, as they were, and nothing is added without a base configuration |
| WorkerManager.ReplaceInFull | core/domain/pool/manager.go:131-150 | a replacement comes last, alive as the old worker was and without requests |
| WorkerManager.EnsureReplicas | core/domain/pool/manager.go:177-214 | adds the missing replicas within the cap, passing over failed spawns; nothing without a base configuration |
| WorkerManager.RemoveDead | core/domain/pool/manager.go:163-170 | removes exactly the workers that are not alive and keeps the order of the others |
| WorkerManager.MonitorHealth | core/domain/pool/manager.go:154-174 | its whole new state; the list stays an enumeration if and only if the names used are fresh, and the cap is kept |
| WorkerManager.SpawnWorkers | core/domain/pool/manager.go:76-116 | an unknown prefix is an error; otherwise instances are started up to the first failure, never beyond the cap, and the list stays an enumeration if and only if those names are new |
| WorkerManager.ReplaceWorker | core/domain/pool/manager.go:119-151 | finds the pool by the cut prefix, removes the worker, and adds a new one with its state unless the spawn fails, which leaves the pool one short |
| Backoff.RunKeepsOrder | core/application/monitor/monitor.go:125-148 | after any adds and removals the order enumerates the table once each and its size is within capacity |
| Backoff.CountIsAddsSinceStart | core/application/monitor/monitor.go:125-136 | each count is the adds since the worker's tracking began |
| Backoff.OrderIsByStart | core/application/monitor/monitor.go:125-136 | the order is by when tracking began, so an eviction removes the worker tracked longest |
| Backoff.AddInFull | core/application/monitor/monitor.go:125-136 | a tracked worker is counted again; a new one is tracked last, and only at capacity is the first evicted for it |
| Backoff.RemoveInFull | core/application/monitor/monitor.go:140-148 | a removal leaves all other workers tracked as they were |
| Backoff.DelaysInFull | core/application/monitor/monitor.go:110-120 | 1, 2, 4, 8, 16 and then 30 seconds |
| Backoff.DelayIsMonotone | core/application/monitor/monitor.go:110-120 | the delay doubles from one second, never decreases, and is thirty from the fifth attempt |
| Backoff.ProductFitsExactlyUpTo33 | core/application/monitor/monitor.go:115 | the product of a second and the power of two fits 64 bits if and only if there are at most 33 attempts |
| Backoff.DelayStaysAtCapExactlyWhen | core/application/monitor/monitor.go:115-119 | the delay never exceeds the cap, and never decreases if and only if no conversion of a product beyond 64 bits falls below the cap |
| Backoff.Monitor.AddBackoffEntry | core/application/monitor/monitor.go:125-136 | map and order follow the history of calls |
| Backoff.Monitor.RemoveBackoffEntry | core/application/monitor/monitor.go:140-148 | likewise, splicing the order |
| Backoff.Monitor.NextBackoff | core/application/monitor/monitor.go:110-120 | the delay of the worker's count, zero attempts if it is not tracked; beyond 33 attempts what the platform's conversion gives, capped |
| LineReader.CutLosesNothing | core/infrastructure/process/manager.go:183-201 | pieces and rest, rejoined by newlines, are the bytes, and none of them holds a newline |
| LineReader.CutContinues | core/infrastructure/process/manager.go:149-201 | cutting the rest with the next bytes is cutting them all at once |
| LineReader.LineByLine | core/infrastructure/process/manager.go:183-201 | taken off the front, each line ends at a byte 10, and empty lines are dropped |
| LineReader.ConsumedInFull | core/infrastructure/process/manager.go:162-176 | bytes that come with a failed read still count, and none after it |
| LineReader.ProcessChunk | core/infrastructure/process/manager.go:183-201 | passes on the non-empty complete lines and returns the unterminated rest |
| LineReader.PipeLog | core/infrastructure/process/manager.go:149-178 | for any reads, the written lines are exactly the non-empty newline-separated pieces of everything read, with a final unterminated one |

## Left out

- Sockets, dialling, process start and stop, HTTP, TLS, WebSocket pumping and named pipes: only their outcomes are inputs.
- JSON, JWT, JSON Schema, metrics and logging: a token is valid or not, a payload encodes or not; loading a route map from its file is not modelled.
- RouteSpec.Upper: upper-cases ASCII letters only, where Go's function also maps other scripts.
- RateLimiter.RateLimiter.AllowIP: takes the result of splitting host and port as an input.
- Integer width: durations, counters and the round-robin counter are unbounded; wrap-around of 64-bit values is not modelled (the 32-bit cut of a frame's length is).
- Backoff.Monitor.NextBackoff: takes what the conversion of a product beyond 64 bits gives as an input, because Go leaves it to the platform.
- Breaker.Breaker.RecordSuccess: an announced change carries its modes and its reason, not the route's name and a clock reading; the same holds of the other calls.
- RouteSpec.AnswersIgnoreCase: letter case is that of ASCII letters.
- UdsPool.Pool.ReleaseConn: does not model the write of a connection's last-used time before the lock is taken.
- UdsPool.Pool.ReapIdle: the ticker that calls it and the timeout of its dials are not modelled; a dial may end at any later step, and the number of reaps whose dials overlap is a parameter of the bounds.
- Dispatch.Dispatcher.Dispatch: one route's breaker is a field, where the code looks it up in the registry by method and pattern; there is always a drainer; listeners and hooks can stop a request but not change its context; correlation ids, headers, bodies and the pool's active-request counters are not followed through the pipeline.
- Dispatch.Dispatcher.SendAndReceive: the worker that a pool selects is an input; counting its active requests up and down is modelled in `PoolRuns` and not inside the pipeline. The same holds of Dispatch.Dispatcher.Forward.
- Draining: after a wait group goes below zero the model goes on where the code panics; the marking, the drain and the cleanup may come at any time and in any order; restart and stop orchestration in the lifecycle service is not modelled beyond that.
- Framing.Connection.Handle: whether a payload decodes is an input, and the replies that dispatched requests send later, or the exceptions that they raise later, are not followed; nothing runs after a request that is null.
- Framing.Write: the writer accepts the whole frame; a worker's own writer, which throws for payloads of 4 GiB, is not modelled.
- Streams.Split: the start and end headers are records, where the code formats JSON.
- Streams.Gather: chunks longer than the announced size make the buffer grow, which is taken to succeed.
- Streams.StreamAssembler.Feed: start and end messages are already parsed records, so a stream name that needs escaping in JSON, which the splitter does not do, is not modelled; nor is a chunk's sharing of memory with the caller's buffer.
- WorkerManager.MonitorHealth: one pool at a time, with generated names as inputs and no concurrent calls; generated names depend on the clock.
- WorkerManager.ReplaceWorker: the new name is an input, and stopping the old worker is not modelled.
- WorkerPool.Pool.SelectWorker: the method reads and advances the counter with nothing in between; calls that overlap are steps of the runs in `PoolRuns`, where fairness is stated for selections that see the same healthy workers.
- Stopping all workers, heartbeats, the lifecycle service, configuration, annotation scanners, the command line, the terminal interface, redaction, log ring buffer, client addresses, the Python worker library and the worker's own route matching: plumbing, or properties easier than the ones above.
