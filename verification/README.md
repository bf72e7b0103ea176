# tod-serve, verified

A model in Dafny of the parts of tod-serve that decide what its users are told, with proofs of what those parts
promise. tod-serve keeps an append-only log of raid-target deaths for many circles, and turns it into one answer per
target: when the mob died, when its window opens and closes, and how far to trust that.

`dafny verify dfyconfig.toml` checks everything.

## How it is laid out

| files | what they hold |
|---|---|
| `Core`, `ConsensusTypes` | shared vocabulary; Go's truncating division |
| `Window`, `WindowProperties` | windows, progress, status; which stored windows are admissible |
| `Cluster`, `SortProperties`, `SweepProperties`, `EstimateProperties`, `Tolerance` | the sweep into kill events and the lower median |
| `Derive`, `DeriveSteps` | the derivation as a function of the log, and as the loops that compute it |
| `Horizon`, `CachedRow`, `Accounting`, `ConfidenceProperties`, `ContestProperties`, `LogAlgebra`, `Symmetry`, `Recovery` | what the derivation promises |
| `RateLimit`, `RateLimitProperties`, `RateLimitSharpness` | the shared token bucket, over whole runs |
| `Idempotency`, `IdempotencyProperties`, `Settlement`, `IdempotencyStore` | the idempotency protocol under any interleaving, what it keeps, and its two code paths |
| `Encoding`, `Audit` | the length-prefixed encoding and the hash chain |
| `CatalogueTypes`, `Resolve`, `Ladder`, `Spelling`, `NameTables`, `TargetSeed`, `Namespace`, `NamespaceProperties`, `NamespaceRuns`, `SeedCounts` | one namespace of spellings, and the ladder that reads it |
| `TimerCatalogue`, `TimerService`, `TimerRuns`, `BoardRuns` | the precedence between windows, the boards recomputed when one moves, and rebuilds that overlap |
| `TimerSeed`, `TimerSeedProperties` | a seed of windows, one transaction each |
| `WrittenFields` | what writes store and boards show, field by field |
| `Paging` | cursor paging |

Code that changes state step by step is a class or a method with a loop, proved against a specification function; the
properties are lemmas about the specification functions. Sets of steps that interleave are a state machine over values.

## What is assumed

- An id names one row (`KeyedById`, `Keyed`), and ids compare as numbers, as ULIDs do.
- The clock handed to the rate limiter never goes back (`Chronological`), nor does the idempotency protocol's (`Tick`).
- The tables have the unique keys their migrations declare: (membership, key), (circle, target), (target, server),
  one row per normalised alias. A transaction is one step; a push that fails inside one rolls it back.
- No circle is created or removed during a run of timer writes, and reports and quakes are never deleted.
- Audit ids are minted in increasing order within a circle, so a circle's newest row is the one appended last.
- Normalising and trimming are any two functions on strings; the hash is any function on bytes, of a fixed non-zero
  length where that is stated.

## Where the code and its documentation differ

The model follows the code.

- `internal/consensus/project.go:8-12` says status and window depend only on the timer, the stored estimate, the quake
  and the instant. The stored estimate itself depends on the instant when a circle has raised its threshold above one:
  `ProjectHorizon` gives the exact horizon and `HorizonPassed` a log that passes it.
- `internal/projection/projection.go:323` says a board row re-derives everything that moves. The contest reason moves
  with the instant too, even at the default threshold, and is served as stored: `ReasonWhileShown` and
  `ReasonAfterHolding` say exactly when it is out of date, `ContestOutlivesItsReason` gives a log.
- `internal/consensus/cluster.go:31` says a tolerance of zero makes every report its own kill. Reports at one instant
  are still joined (`SameInstantIsOneKill`); it holds exactly when no two are of one instant (`OwnKillExactly`).
- The quarter-of-the-window guarantee of `internal/consensus/cluster.go:10-31` holds only while the five-minute floor
  does not bind. `RealKillsRecovered` needs an open offset over ten minutes and `ShortRespawnsMerge` shows that is sharp.
- `internal/api/ratelimit.go:114-116` says that when everybody is still limited the newest caller is simply not tracked.
  It is tracked, and an arbitrary tracked caller is dropped in its place (`DroppedIsAStranger`); each drop hands that
  caller a fresh Burst (`RateBound`, `DropsRestoreTheBurst`).
- The advertised retry wait is truncated to whole seconds and may be short (`AdvertisedWaitSuffices`,
  `AdvertisedWaitFallsShort`).
- A refill that is not commensurate with a microsecond admits more than the documented rate (`RateBoundExactly`).
- `Listing.Total` is documented as counted before the page is cut; it is counted after the cursor is applied
  (`TotalCountsFromTheCursor`).
- `ResolveTimers` is documented for active targets and as sharing one code path with `ResolveTimer`; it answers for
  retired targets too, and the single path has its own copy of the precedence. They agree (`ResolveTimers`).
- `checkNamespace` refuses an alias that is its own target's name, but `Update` hands it aliases read before the
  transaction (`RenameOntoOwnAliasExactly`, `StaleReadMissesTheRename`). Ownership of spellings is not affected.
- `internal/catalogue/invalidate.go:59-100` says what each write recomputes so that boards follow it. That holds of the
  writes (`WritesStaleNothing`), but `Get`, the board's read-miss rebuild and `Rebuild` store outside any transaction
  what they derived under a timer read earlier (`internal/projection/projection.go:193-222`,
  `internal/projection/rebuild.go:83-170` and `636-676`; the nightly verify too,
  `internal/projection/verify.go:77-155`). A timer written in between leaves a stale board, as the
  comments there say; `RightExactly` says exactly when, and `OvertakenRebuild` is such a run. It is replaced by the next
  push that reaches it as well as by the next report (`StaleExactly`). A report or a quake in between is lost the same
  way (`OutrunByAReport`).
- `internal/catalogue/timer.go:233` says the service refuses exactly what four CHECK constraints refuse. The window
  columns have five, none of them on the epsilon, and a negative epsilon is refused all the same
  (`RefusedDespiteTheChecks`, `ServiceStricterThanSchema`).
- `docs/errors/idempotency_conflict.md:15-16` says a retry will replay once the original completes, and
  `internal/api/idempotent_handler.go:24-27` and `110-111` that a handler which fails to record runs again and costs a
  replay only. A request that vanishes, or whose answer cannot be stored, leaves an incomplete record that conflicts
  with every retry for a day (`OrphansBlock`, `UnwrittenAnswerOrphans`, `AbandonedRun`). Any other conflict
  does mean a request in flight (`ConflictExactly`).
- `docs/design/01-domain-model.md:281-282` lists what drops a cached row: a report, a quake, a timer change. A circle's
  threshold and its revoked members are read by every derivation and drop nothing, so a board outlives a change of
  either until the next of those (`NothingLeftToRecompute`, `OutlivesItsThreshold`).
- The audit chain does not distinguish a NULL column from an empty string (`BlindSpot`).

## Model

| member | source | states |
|---|---|---|
| `Clusters.EpsilonSeconds` | internal/consensus/cluster.go:32-40 | The tolerance exactly: the stored epsilon, or zero for a negative one; thirty minutes without a window; otherwise the whole seconds of a quarter of the open offset, held between five and thirty minutes |
| `Tolerance.OneKillExactly` | internal/consensus/cluster.go:32-75 | Two reports are one kill event if and only if they lie no further apart than that tolerance, two otherwise |
| `Tolerance.StoredToleranceGroups` | internal/catalogue/timer.go:181-198 | A tolerance stored with a window is the one reports are grouped by |
| `Clusters.ClusterReports` | internal/consensus/cluster.go:52-76 | The loop that grows the last run or starts another computes the division `Group` specifies |
| `Clusters.EstimateCluster` | internal/consensus/cluster.go:86-101 | The loop over log lines and the indexing compute the specified estimate |
| `SortProperties.SortPermutation` | internal/consensus/cluster.go:53-61 | Two arrivals of the same rows in any order sort to one sequence, so a derivation cannot depend on arrival order |
| `SweepProperties.SweepDivides` | internal/consensus/cluster.go:64-75 | Flattening the kill events gives back the sorted reports; every event keeps each gap within the tolerance and its span within twice it; no event could have taken the report that starts the next |
| `SweepProperties.SweepUnique` | internal/consensus/cluster.go:64-75 | The division is the only one of the sorted reports in which every event reaches as far as both limits allow |
| `SweepProperties.SweepOptimal` | internal/consensus/cluster.go:64-75 | No division of the sorted reports into consecutive runs obeying both limits has fewer runs |
| `SweepProperties.SweepSeparates` | internal/consensus/cluster.go:64-75 | Every report of one event is strictly earlier than every report of a later one, so reports of one instant are never split, a zero tolerance included |
| `SweepProperties.OwnKillExactly` | internal/consensus/cluster.go:29-31 | With a tolerance of zero every report, in whatever order filed, is its own kill if and only if no two are of one instant |
| `SweepProperties.SameInstantIsOneKill` | internal/consensus/cluster.go:29-31 | Any two reports of one instant are one kill under a tolerance of zero |
| `EstimateProperties.EstimateMinimises` | internal/consensus/cluster.go:86-101 | The estimate is the least instant with the smallest total distance to the estimators, lies inside its cluster, is the instant of one of its reports, and of a log line if there is one |
| `EstimateProperties.LeastMinimiserUnique` | internal/consensus/cluster.go:78-101 | That description fixes the estimate: no other instant meets it |
| `EstimateProperties.EstimatesIncrease` | internal/consensus/cluster.go:52-101 | Later events are shown at strictly later instants |
| `DeriveSteps.KindsOf` | internal/consensus/derive.go:74-77 | The map names only kinds that are in the log, and every row is in it |
| `DeriveSteps.FoldRetractions` | internal/consensus/derive.go:73-101 | The three loops keep exactly the kills no retraction names, in log order |
| `DeriveSteps.TruncateAtQuake` | internal/consensus/derive.go:108-130 | For a quake target the loops keep exactly the kills at or after the latest quake and report `up` exactly when none is left |
| `DeriveSteps.SelectCurrentCluster` | internal/consensus/derive.go:140-158 | The backward scan returns the specified choice and whether it is held |
| `DeriveSteps.IsThinlySuperseded` | internal/consensus/derive.go:187-198 | The scan answers whether some older live cluster has strictly more reporters |
| `DeriveSteps.ImplausibleReportIds` | internal/consensus/derive.go:209-228 | The loop collects the reports of every cluster closer to the answer than one respawn, oldest first, as `ImplausibleExactly` then says of the whole answer |
| `ContestProperties.ImplausibleExactly` | internal/consensus/derive.go:168-228 | A report is flagged if and only if it is of a kill event other than the one shown and dated less than one respawn from it, none without an open offset; the answer is contested as implausible if and only if some report is flagged |
| `ContestProperties.ShownExactly` | internal/consensus/derive.go:140-158 | The newest event is shown, unless it has fewer people than the circle asks for and an older one still in play has more: then the newest such |
| `ContestProperties.ContestExactly` | internal/consensus/derive.go:27-65 | Which event is shown, and why it is contested: the first that holds of contradicted, held, outweighed by an older one in play, reports over five minutes apart; confidence, evidence and window are that event's |
| `ContestProperties.NothingToShow` | internal/consensus/derive.go:38-46 | With no report that counts nothing is said but the kind of the timer and, after a quake, that the target is up |
| `ContestProperties.AlternativesExactly` | internal/consensus/derive.go:236-262 | Every other event in play is counted; three at most are listed, newest first, each with its own instant, people, window, confidence and report ids |
| `ContestProperties.EvidenceExactly` | internal/consensus/derive.go:265-286 | The counts are of the event's reports, its different people, its log lines and its revoked people; the spread is the whole seconds from its first report to its last |
| `ContestProperties.ConsideredExactly` | internal/consensus/derive.go:67-130 | A report counts if and only if it is a kill that no retraction names and, for a quake target, no quake came after it |
| `ContestProperties.EventsInOrder` | internal/consensus/cluster.go:52-62 | Within an event reports stand by the instant of death and, at one instant, by id |
| `DeriveSteps.LiveAlternatives` | internal/consensus/derive.go:236-256 | The backward loop renders every live rival, newest first |
| `DeriveSteps.AlternativesOf` | internal/consensus/derive.go:236-262 | The shown alternatives are the first three of those, and the total counts all of them |
| `DeriveSteps.CountEvidence` | internal/consensus/derive.go:265-286 | The counters and sets of one pass are the specified evidence: reports, distinct reporters, log lines, spread, revoked reporters, ids |
| `DeriveSteps.Confide` | internal/consensus/derive.go:296-320 | The loop and branches compute the specified confidence |
| `DeriveSteps.IsCorroborated` | internal/consensus/derive.go:329-344 | The loop answers whether, within five minutes of the estimate, there are a log line and two reporters |
| `DeriveSteps.Contest` | internal/consensus/derive.go:168-183 | The reasons are tried in the order implausible, held, thin, wide spread |
| `DeriveSteps.Run` | internal/consensus/derive.go:27-65 | The whole derivation, step by step over loops, equals the specified function of log, quakes, timer, instant and threshold |
| `Horizon.ProjectHorizon` | internal/consensus/project.go:5-25 | Re-rendering a stored estimate at a later instant equals a fresh derivation there if and only if the stored answer was not a held one or the held window is still open at that instant |
| `Horizon.ProjectNeverStaleByDefault` | internal/consensus/project.go:5-25 | A circle whose threshold is at most one never re-renders anything a fresh derivation would not |
| `Horizon.HorizonPassed` | internal/consensus/project.go:5-25 | A log, a timer and two instants at which the cached estimate, re-rendered, is not what a fresh derivation answers |
| `Horizon.EstimateMovesOnce` | internal/consensus/derive.go:140-158 | With no new rows the estimate never moves back and changes at most once, when the held window closes |
| `CachedRow.CachedFieldsHold` | internal/projection/projection.go:323-368 | The stored estimate is a later derivation's if and only if the cluster shown was not held or its window is still open, and then so are its confidence, its evidence and the reports it contradicts |
| `CachedRow.ReasonWhileShown` | internal/projection/projection.go:348-353 | While that cluster is shown the stored contest reason is a later derivation's if and only if it was not a thin supersede or an older cluster with more reporters still has its window open |
| `CachedRow.ReasonAfterHolding` | internal/projection/projection.go:348-353 | Once a held cluster has given way it is so if and only if the stored reason was a contradiction and the newest cluster has one too |
| `CachedRow.ContestOutlivesItsReason` | internal/projection/projection.go:348-353 | A log and two instants at the default threshold: contested as thinly superseded at the first, not at the second |
| `Horizon.LiveIsUpwardClosed` | internal/consensus/window.go:110-116 | A live cluster keeps every later one live, so live clusters form a suffix |
| `Derivation.HolderIsNewest` | internal/consensus/derive.go:149-156 | What is held is the newest older cluster that is live and has strictly more reporters; nothing is held exactly when there is none |
| `Accounting.RivalsAccountedFor` | internal/consensus/derive.go:236-262 | The live clusters are a suffix; each is the current one or counted in the total; the shown alternatives are the newest three at most, each identified by its position |
| `Accounting.ReportsNamedOnce` | internal/consensus/derive.go:27-65 | Evidence, alternatives and implausible ids name only retained kills; evidence is disjoint from the other two and the alternatives from each other |
| `Accounting.PendingHoldsTheBetterCluster` | internal/consensus/derive.go:140-183 | An answer is held exactly when the latest cluster is under the threshold and an older live one has more reporters; it is then the newest such, never overdue, and the contest reason says so unless reports contradict |
| `ConfidenceProperties.CorroborationNeedsTwo` | internal/consensus/derive.go:329-344 | With a log line in the cluster, corroboration comes down to two reporters within five minutes of the estimate |
| `ConfidenceProperties.HighExactly` | internal/consensus/derive.go:296-320 | Confidence in every case: high for two different people if everybody is within five minutes or a log line and two people are near the estimate, otherwise medium; for one person medium with a log line and low without |
| `ConfidenceProperties.OneReporterIsNeverHigh` | internal/consensus/derive.go:288-320 | One person filing any number of reports never reaches high confidence |
| `LogAlgebra.RetractionDeletes` | internal/consensus/derive.go:67-101 | Appending a retraction of a kill gives the answer of the log without that kill |
| `LogAlgebra.ReportThenRetract` | internal/consensus/derive.go:67-101 | Reporting a kill and retracting it leaves the whole answer as it was |
| `LogAlgebra.RetractionEffect` | internal/consensus/derive.go:67-101 | A retraction changes the retained kills if and only if it names one of them, and otherwise changes nothing of the answer |
| `LogAlgebra.RepeatedRetraction` | internal/consensus/derive.go:67-101 | Retracting again changes nothing |
| `LogAlgebra.RetractedRetraction` | internal/consensus/derive.go:86-94 | Retracting a retraction changes nothing |
| `LogAlgebra.OlderQuake` | internal/consensus/derive.go:108-130 | A quake no later than the latest changes nothing |
| `LogAlgebra.KillBeforeQuake` | internal/consensus/derive.go:108-130 | For a quake target a kill before the latest quake changes nothing, however late it is reported |
| `LogAlgebra.UpExactly` | internal/consensus/derive.go:38-46 | The target is up exactly when it is a quake target, there was a quake, and no retained kill is at or after the latest |
| `Symmetry.DeriveIgnoresOrder` | internal/consensus/cluster.go:52-62 | Permuting reports and quakes leaves every field of the answer identical |
| `Symmetry.DeriveMovesWithTime` | internal/consensus/derive.go:27-65 | Shifting every death, every quake and the instant by one amount shifts every instant of the answer by it and leaves counts, confidence, contest, progress and countdowns as they were |
| `Symmetry.DeriveIgnoresArrival` | internal/consensus/derive.go:27-65 | Changing when reports were filed changes nothing |
| `Recovery.ClustersAreKills` | internal/consensus/cluster.go:10-31 | Reports off by at most half the tolerance, of kills more than the tolerance plus twice that error apart, are grouped exactly by real kill, each dated within the error |
| `Recovery.DerivedEpsilonIsSafe` | internal/consensus/cluster.go:10-40 | The derived tolerance leaves a respawn more than two of itself if and only if the open offset is over ten minutes, and four from twenty minutes on |
| `Recovery.RealKillsRecovered` | internal/consensus/cluster.go:10-31 | With the derived tolerance and an open offset over ten minutes, kills a respawn apart are recovered exactly |
| `Recovery.RealKillsDoNotContradict` | internal/consensus/derive.go:200-228 | Kills further apart than a respawn by the error on both sides are never flagged implausible |
| `Recovery.ShortRespawnsMerge` | internal/consensus/cluster.go:10-31 | For every open offset of ten minutes or less, two kills that far apart, reported within the allowed error, are merged into one |
| `Windows.ProgressBP` | internal/consensus/window.go:67-75 | Progress is between 0 and 10000 basis points for any window and instant, with no division by zero |
| `Windows.Validate` | internal/catalogue/timer.go:233-286 | A request is accepted exactly when its kind is known, the row it asks for meets the five CHECK constraints on a window, and no negative epsilon is sent; then that row is what is written |
| `WindowProperties.RefusedDespiteTheChecks` | internal/catalogue/timer.go:233-286 | Of the rows the schema would take, the service refuses exactly those with a negative epsilon |
| `WindowProperties.ServiceStricterThanSchema` | internal/catalogue/timer.go:233-286 | One such request: an unknown window with an epsilon of minus one |
| `WindowProperties.ValidatedWindow` | internal/consensus/window.go:20-59 | A validated timer yields exactly the bounds its offsets and grace say, in order, and never `no_timer`, unless it is unknown; a point spawns at its open, a band has progress |
| `WindowProperties.WindowExactly` | internal/consensus/window.go:20-103 | For a band the window runs from death plus open offset to death plus close offset, for a point from its spawn to its grace after; before, in and overdue are exactly the instants before, inside and after it, and both countdowns the whole seconds left, rounded toward zero |
| `WindowProperties.ProgressExactly` | internal/consensus/window.go:67-75 | A band's progress is zero until it opens, all of it once closed, and in between the share gone, rounded down |
| `WindowProperties.NoWindowExactly` | internal/consensus/window.go:84-103 | Without a window only the kind is said; a quake outranks everything |
| `WindowProperties.OpenExactly` | internal/consensus/window.go:110-116 | A cluster is in play if and only if there is no window or its close has not passed |
| `WindowProperties.StoredWindowExactly` | internal/catalogue/timer.go:181-198 | A stored window puts on the board the instants its own columns say, grace included |
| `WindowProperties.StoredAsSent` | internal/catalogue/timer.go:239-286 | An accepted request is stored as sent; only a grace not sent is filled in, with fifteen minutes |
| `WindowProperties.ProgressInside` | internal/consensus/window.go:67-75 | Inside the window progress is the elapsed share, rounded down to a basis point |
| `WindowProperties.ProgressMonotone` | internal/consensus/window.go:67-75 | Progress never goes back as the instant advances |
| `WindowProperties.ProgressFitsInt64` | internal/consensus/window.go:61-75 | The intermediate product fits an int64 at every instant of a window if and only if the window is at most 922337203685478 microseconds wide |
| `WindowProperties.StatusOnlyAdvances` | internal/consensus/window.go:84-103 | For one estimate the status moves only through before, in and after the window |
| `WindowProperties.RenderingAgrees` | internal/consensus/window.go:37-103 | Status, both countdowns and progress never contradict each other |
| `RateLimit.Limiter.constructor` | internal/api/ratelimit.go:61-67 | A limiter starts with nobody tracked; a missing burst is ten, a missing refill six seconds, a missing bound 4096 callers |
| `RateLimit.Limiter.Allow` | internal/api/ratelimit.go:70-99 | The map, the answer and the wait are those of one attempt on the map after room was made for the caller; stored tokens stay between 0 and Burst - 1 and the map within its bound |
| `RateLimit.Limiter.Evict` | internal/api/ratelimit.go:104-121 | Exactly the fully refilled callers are forgotten; if all are still limited one of them, any one, is dropped |
| `RateLimitProperties.ForgottenExactly` | internal/api/ratelimit.go:104-121 | Making room forgets exactly the callers silent for a whole burst of refills, and the one dropped; one is dropped if and only if the others still fill the map |
| `RateLimitProperties.RefusalIsFree` | internal/api/ratelimit.go:88-91 | A refused attempt leaves the caller's bucket exactly as it was |
| `RateLimitProperties.ReadmittedExactly` | internal/api/ratelimit.go:70-121 | In any run, whatever it and the others try in between, a refused caller's next admission is at its first attempt with a whole refill gone since its last admitted token was earned, or after an arbitrary drop of it, and at no attempt before |
| `RateLimitProperties.DroppedIsAStranger` | internal/api/ratelimit.go:113-120 | An arbitrary drop forgets somebody tracked to make room for a newcomer, who is tracked from then on and admitted |
| `RateLimitProperties.AdvertisedWaitSuffices` | internal/api/ratelimit.go:88-91 | Waiting the advertised whole seconds suffices if and only if the exact wait was at most a second or a whole number of them |
| `RateLimitProperties.AdvertisedWaitFallsShort` | internal/api/ratelimit.go:88-91 | At one token every second and a half a caller told to wait one second is still refused after it |
| `RateLimitProperties.RateBound` | internal/api/ratelimit.go:70-121 | Over any stretch of any run a caller is admitted at most Burst plus one per Refill elapsed, plus one more Burst each time it was arbitrarily dropped in that stretch, for limits the microsecond clock represents |
| `RateLimitSharpness.RateBoundExactly` | internal/api/ratelimit.go:70-121 | The bound, drops counted, holds of every run if and only if the limit is one of those: Refill divides or is divided by a microsecond, Burst is 1, or a full refill fits in a microsecond |
| `RateLimitSharpness.DropsRestoreTheBurst` | internal/api/ratelimit.go:104-121 | The term for the drops is needed in full: for every limit, every number of places and every number of drops there is a run, all at one instant, that admits a caller Burst times more for each |
| `RateLimitProperties.EvictionInvisible` | internal/api/ratelimit.go:74-121 | Until somebody still limited is first dropped, every answer and wait equals that of a limiter that forgets nobody |
| `RateLimitProperties.MemoryBounded` | internal/api/ratelimit.go:74-121 | The map never exceeds its bound in any run |
| `RateLimitProperties.RunStaysSane` | internal/api/ratelimit.go:70-99 | In every run each stored bucket holds 0 to Burst - 1 tokens and is never dated in the future |
| `IdempotencyStore.Store.ReplayOrRun` | internal/api/idempotency.go:144-276 | The middleware path, statement by statement and with any store call or the minting of an id failing, leaves the table and gives the reply `Served` specifies; what it keeps is `MiddlewareSettles` |
| `IdempotencyStore.Store.RunIdempotentHandler` | internal/api/idempotent_handler.go:29-115 | The handler variant likewise: an empty key is refused first, the outcome is settled by the error returned and stored as a success, and a stored answer that cannot be parsed or a new one that cannot be written is an internal error |
| `IdempotencyStore.ServedIsTheProtocolAlone` | internal/api/idempotency.go:144-209 | Those two code paths are the interleaved protocol when no other request steps |
| `Settlement.MiddlewareSettles` | internal/api/idempotency.go:248-276 | In every reachable state, settling a middleware run keeps an answer below 500 exactly as it was given, touching no other slot, and leaves no record of one from 500 on |
| `Settlement.HandlerSettles` | internal/api/idempotent_handler.go:84-115 | Settling the handler variant keeps its body as a 200 if it returned no error and leaves no record if it did; an answer that cannot be written is an internal error and changes no record |
| `Settlement.KeptIsReplayed` | internal/api/idempotency.go:164-180 | From then until its day is over, whatever happens in between, a retry of the same request is answered with exactly what was kept, and another request under the key is refused |
| `Settlement.FreeKeyRuns` | internal/api/idempotency.go:152-208 | A key that is free, or whose record is past its day, is taken for 24 hours and its handler runs, an old record cleared first |
| `Settlement.FailedStoreAnswers` | internal/api/idempotency.go:152-208 | A store that fails before the handler runs stops the request and touches no record: a failed look or clearing is an internal error, a failed insert a conflict |
| `Settlement.LostRaceAnswers` | internal/api/idempotency.go:182-198 | Losing the race for the slot is a conflict, an id that cannot be minted an internal error |
| `Settlement.SweepExactly` | db/queries/idempotency_record.sql:32-33 | The sweep removes exactly the records already past their day |
| `IdempotencyProperties.ExecuteKeeps` | internal/api/idempotency.go:152-208 | Every interleaving keeps: stored records are runs, a record holds only what its run succeeded with, and a run leaves the table only failed or past its day |
| `IdempotencyProperties.OneRunPerKeyAndDay` | internal/api/idempotency.go:152-276 | Of any two runs of one key, one failed or is past its day |
| `IdempotencyProperties.HandlersDoNotOverlap` | internal/api/idempotency.go:182-208 | Two handlers running one key at once have different records, and one has outlived its day |
| `IdempotencyProperties.ProceedsOnlyPastExpiry` | internal/api/idempotency.go:156-198 | An insert succeeds only if every earlier run of the key failed or is past its day, so of two requests racing over one expired record only one proceeds |
| `IdempotencyProperties.ClearedOnlyAfterExpiry` | internal/api/idempotency.go:156-163 | A record disappears under its running handler only after its expiry |
| `IdempotencyProperties.ReplaysAreRecordedRuns` | internal/api/idempotency.go:164-180 | Every replay is exactly the response recorded by an earlier run of the same key and request hash |
| `IdempotencyProperties.FailedRunLeavesNothing` | internal/api/idempotent_handler.go:84-93 | A run that failed has nothing to replay, in that state and in every later one |
| `IdempotencyProperties.ClearingIsFinal` | internal/api/idempotent_handler.go:84-93 | Once a failed run's clearing lands its record is in no slot, and never is again |
| `IdempotencyProperties.OrphansBlock` | internal/api/idempotent_handler.go:52-59 | A record left incomplete by a request that is over answers every retry with a conflict until its day is over, whatever happens in between |
| `IdempotencyProperties.ConflictExactly` | internal/api/idempotent_handler.go:52-59 | In every reachable state a retry before expiry meets a conflict if and only if the key's record has no response, and that is if and only if its run is still in flight or was left behind |
| `IdempotencyProperties.AbandonedRun` | internal/api/idempotency.go:182-209 | A run that leaves a record behind: one request looks, takes its key, begins its handler and vanishes |
| `IdempotencyProperties.UnwrittenAnswerOrphans` | internal/api/idempotent_handler.go:97-100 | An answer that cannot be written down after a run that took effect is an internal error to the client and leaves its key so |
| `IdempotencyProperties.RetriesReplay` | internal/api/idempotency.go:164-180 | Once recorded, and until its day is over, a response answers every retry through any further steps, and a different request under the key is refused |
| `Encoding.WriteParts` | internal/api/idempotent_handler.go:119-128 | The bytes fed to the hash are the length-prefixed encoding of the parts |
| `Encoding.EqualHash` | internal/api/idempotent_handler.go:130-140 | The early-exit loop is equality |
| `Encoding.DecodeEncode` | internal/audit/audit.go:140-164 | Any list of byte strings is read back exactly from its encoding |
| `Encoding.EncodeInjective` | internal/api/idempotent_handler.go:119-128 | Two lists of parts are hashed from the same bytes only if they are the same list |
| `Audit.AuditLog.Append` | internal/audit/audit.go:87-138 | A named entry is appended as one row chained to the head of its circle, other circles untouched and every chain still verifying; an entry with no action or entity is refused |
| `Audit.HashedColumns` | internal/audit/audit.go:140-178 | What is hashed for a row reads back as its nine columns, the previous hash first, and no other way |
| `Audit.TamperEvidence` | internal/audit/audit.go:140-178 | For any hash of fixed non-zero length, two verifying logs with one head are the same rows or yield two explicit different inputs with one hash |
| `Audit.RemovalIsEvident` | internal/audit/audit.go:140-178 | Two verifying logs of different lengths with one head yield such a pair |
| `Audit.BlindSpot` | internal/audit/audit.go:152-185 | A NULL actor, entity or previous hash rewritten as empty, or back, leaves the chain verifying and its head as it was; by `TamperEvidence` nothing else does |
| `Resolve.ResolveName` | internal/catalogue/resolve.go:124-175 | The nested loops compute the ladder: the first rung anything matches decides, and a tie there is an ambiguity; what each rung matches is `OwnedExactly` and `UnownedExactly` |
| `Resolve.RegisteredSpellingResolves` | internal/catalogue/resolve.go:124-175 | If no spelling has two owners, any input normalising to a registered one resolves to its owner on one of the four exact rungs, whatever the order of the list |
| `Ladder.OwnedExactly` | internal/catalogue/resolve.go:124-143 | An owned spelling resolves to its owner, and says whether by its name or an alias, as typed or normalised, in that order |
| `Ladder.UnownedExactly` | internal/catalogue/resolve.go:144-175 | A spelling nobody owns: the active targets with a spelling starting with it decide; failing those, the active targets with a spelling containing it; failing those nothing matches. One is the answer, several are an ambiguity between exactly those |
| `Ladder.NothingTyped` | internal/catalogue/resolve.go:124-130 | What has nothing in it once normalised is refused before the ladder, and nothing else is |
| `Resolve.AdditionsDoNotSteal` | internal/catalogue/resolve.go:124-175 | Targets and aliases added later never change what such a spelling resolves to |
| `Resolve.ResolvedIsListed` | internal/catalogue/resolve.go:124-175 | Whatever the ladder answers is one of the targets it was given |
| `Spelling.ValidateIdentity` | internal/catalogue/catalogue.go:634-677 | An identity is accepted exactly when its trimmed name and zone are 1 to 120 characters, the name has a letter or digit, and expansion and category are in their lists |
| `Spelling.AliasesAdmittedExactly` | internal/catalogue/catalogue.go:684-707 | Aliases are admitted if and only if there are at most 32 and each still has something in it once trimmed and normalised |
| `Spelling.ValidateAliases` | internal/catalogue/catalogue.go:684-707 | The loop over raw aliases computes the cleaned list |
| `Spelling.CleanKeepsEverySpelling` | internal/catalogue/catalogue.go:684-707 | The cleaned list has the same normal forms as what was sent, each once, in a trimmed spelling that was sent; it is refused exactly when one of them is empty |
| `Spelling.CheckNamespace` | internal/catalogue/catalogue.go:559-609 | The map-filling loops find the first spelling that is taken |
| `Spelling.ClashesExactlyWhenNotFree` | internal/catalogue/catalogue.go:545-609 | A write is let through exactly when its name and aliases are pairwise different and nobody else's |
| `WrittenFields.AdmittedExactly` | internal/catalogue/catalogue.go:545-609 | The same of the tables alone: no spelling sent is owned by another target, and no two of them are one |
| `Namespace.Catalogue.Create` | internal/catalogue/catalogue.go:351-391 | A target is written whole or not at all, exactly when valid and free; one namespace is kept and no unique index or trigger can fire |
| `Namespace.Catalogue.Update` | internal/catalogue/catalogue.go:426-521 | With `current` read at any earlier time, the update is refused and changes nothing or rewrites the one target as planned; one namespace is kept |
| `Namespace.Catalogue.SeedTargets` | internal/catalogue/embedded.go:408-522 | The nested loops over the running owner map do what the seed specifies, or on a refusal change nothing; one namespace is kept |
| `Namespace.Catalogue.LoadTargets` | internal/catalogue/catalogue.go:713-738 | Every target is listed once with exactly its aliases |
| `Namespace.Catalogue.ResolveRef` | internal/catalogue/resolve.go:82-117 | Exactly one of id and name is accepted; an id names its target or nothing; a name is trimmed, and over the stored catalogue, whatever writes made it, an owned spelling resolves to its owner |
| `NamespaceProperties.CreateAddsExactly` | internal/catalogue/catalogue.go:351-391 | The new target owns exactly its name and aliases, nobody else gains or loses a spelling, and no row already there changes |
| `WrittenFields.CreateStoresWhatWasSent` | internal/catalogue/catalogue.go:351-391 | A new target is what was sent, trimmed, active, with its flag |
| `WrittenFields.UpdateStoresWhatWasSent` | internal/catalogue/catalogue.go:426-521 | An update changes the fields sent and keeps the others as read; without new aliases the old ones stay |
| `WrittenFields.SeedStoresTheIdentity` | internal/catalogue/embedded.go:408-522 | A seeded target is the identity shipped, active, and a quake target unless immune |
| `NamespaceProperties.UpdateRewritesExactly` | internal/catalogue/catalogue.go:493-505 | The updated target owns exactly its new name and its new aliases, or its stored ones if none were sent; nobody else gains or loses a spelling |
| `NamespaceProperties.RenameOntoOwnAliasExactly` | internal/catalogue/catalogue.go:593-609 | An update leaves an alias repeating its own target's name if and only if it renames onto an alias held now without replacing the set |
| `NamespaceProperties.FreshReadCatchesTheRename` | internal/catalogue/catalogue.go:600-606 | With an up-to-date read the check always refuses that |
| `NamespaceProperties.StaleReadMissesTheRename` | internal/catalogue/catalogue.go:432-483 | With a stale read it can be let through: a concrete update |
| `NamespaceProperties.SeedOnlyAdds` | internal/catalogue/embedded.go:397-503 | A seed run changes no row that was there, whatever the list |
| `NamespaceProperties.SecondSeedAddsNothing` | internal/catalogue/embedded.go:397-503 | For a list with pairwise different normalised names, a second run changes no row and finds every target present or its name taken |
| `SeedCounts.SeedReportExact` | internal/catalogue/embedded.go:408-522 | The report of a run is exact: targets and aliases added are the rows gained, present are those whose name some target had at the start, and every wanted target is added, present or found with its name taken |
| `SeedCounts.AliasCounts` | internal/catalogue/embedded.go:484-503 | An alias is added if nobody has its spelling and counted as taken if somebody else does |
| `NamespaceRuns.NameRun` | internal/catalogue/catalogue.go:351-521 | Any sequence of creates, updates with reads of any age, and seed runs, refused or not, leaves every normalised spelling with at most one owner |
| `NamespaceRuns.AdditionsNeverSteal` | internal/catalogue/resolve.go:124-175 | After any sequence of creates and seed runs a spelling still resolves to the target it resolved to before |
| `TimerService.Instance.ResolveTimer` | internal/catalogue/timer.go:67-111 | One target read rung by rung gets the timer in force, with the error for an unknown server or target |
| `TimerService.Instance.ResolveTimers` | internal/catalogue/timer.go:118-178 | The whole-board path, through maps and the shared helper, gives every target exactly the single path's answer |
| `WrittenFields.BoardShowsWhatCounts` | internal/catalogue/timer.go:67-111 | A board shows the window of its circle's override or, without one, of the catalogue on its circle's server: open and close are the instants its columns say |
| `WrittenFields.UnseededIsHonest` | internal/catalogue/timer.go:200-206 | With neither stored there is no window to show, reports are grouped within thirty minutes, and the quake flag still holds |
| `TimerService.Instance.OnTimerChange` | internal/projection/rebuild.go:474-486 | One circle's board for the target is recomputed, whatever its source; an unknown circle is an error |
| `TimerService.Instance.OnCatalogueTimerChange` | internal/projection/rebuild.go:506-529 | An unknown server is refused; otherwise exactly the live circles on the server without an override are recomputed, or the failures named |
| `TimerService.Instance.OnQuakeTargetChange` | internal/projection/rebuild.go:549-568 | Every live circle is recomputed, overridden or not |
| `TimerService.Instance.FanOut` | internal/projection/rebuild.go:579-628 | Every circle is attempted, in any order; the failures are exactly those the push should have moved and could not; without one the boards are those of the specified push and the counts are exact |
| `TimerService.Instance.PutTimer` | internal/catalogue/timer.go:299-341 | The row is written and pushed, or nothing is, a failed push included; no board becomes stale |
| `TimerService.Instance.PutOverride` | internal/catalogue/timer.go:434-486 | Likewise for one circle's override and the audit row beside it, rolled back whole if the circle is gone or its push fails |
| `TimerService.Instance.DeleteOverride` | internal/catalogue/timer.go:500-547 | Answers with the override that was there and falls back to the catalogue, boards and audit row included, or changes nothing |
| `TimerService.Instance.Update` | internal/catalogue/catalogue.go:426-516 | Succeeds if and only if the request is admitted against the tables as they are inside the transaction and the flag stands still or every live circle could be recomputed; then the row is written and boards are recomputed exactly when the stored flag moved, whatever was read before; otherwise nothing changes; no board becomes stale |
| `TimerService.Instance.Create` | internal/catalogue/catalogue.go:351-391 | Succeeds if and only if the request is admitted, writing exactly the new target and its aliases, and moves no timer |
| `TimerService.Instance.SeedTargets` | internal/catalogue/embedded.go:397-522 | Writes exactly what the seed specifies with its report, or on a refusal nothing; identities move no timer, so no board becomes stale with nothing pushed |
| `TimerService.Instance.StoreOrDrop` | internal/projection/rebuild.go:317-335 | A rebuild stores its answer under the timer it read if the log it read had rows, and drops the row otherwise |
| `TimerCatalogue.PushRestoresCoherence` | internal/catalogue/invalidate.go:59-100 | Recomputing the cells whose timer a write moved is enough for every reachable board to be right |
| `TimerCatalogue.CatalogueWriteMovesOnly` | internal/catalogue/invalidate.go:67-77 | A catalogue timer moves the timer in force only on its server and only where nobody overrode it |
| `TimerCatalogue.OverrideMovesOnly` | internal/catalogue/invalidate.go:60-66 | Setting or clearing an override moves one cell |
| `TimerCatalogue.FlagPushMustNotSkip` | internal/catalogue/invalidate.go:78-100 | After a flag flip, a push that skipped overridden circles would be right if and only if none of them had a board for the target |
| `TimerCatalogue.WritesStaleNothing` | internal/catalogue/invalidate.go:59-100 | After any write, refused or not, a board is stale if and only if it was and the write neither recomputes nor drops it |
| `TimerRuns.RightExactly` | internal/projection/projection.go:193-222 | After any run of writes and overlapping rebuilds a board was derived under the timer in force now if and only if a push wrote it last, or a rebuild did and the writes since its snapshot leave the timer as it read it, judged from this cell's override, its server's catalogue row and its target's flag |
| `TimerRuns.StaleExactly` | internal/projection/projection.go:202-211 | One action makes a board stale only by storing a rebuild under a timer no longer in force; a stale board stays so exactly through the actions that neither push, drop nor rebuild it |
| `TimerRuns.StaleLasts` | internal/projection/projection.go:202-211 | So a stale board lasts through any number of writes and rebuilds of other boards |
| `TimerRuns.StaleHeals` | internal/projection/projection.go:202-211 | The first write that reaches it or drops it ends that |
| `TimerRuns.StaleWasOvertaken` | internal/projection/rebuild.go:159-163 | A stale board was written by a rebuild, and after that one's snapshot came a write to its override, its window or its target |
| `BoardRuns.OvertakenRebuild` | internal/projection/projection.go:193-222 | A run in which that happens: a snapshot, a timer written, the rebuild stored; the board is stale, outlives another window's write, and goes with the next report |
| `TimerRuns.RunKeeps` | internal/catalogue/invalidate.go:59-100 | With no rebuild stored, any sequence of timer writes, overrides set and cleared, target rewrites, reports and quakes keeps every reachable board derived under the timer in force |
| `BoardRuns.NothingLeftToRecompute` | internal/projection/rebuild.go:83-170 | After any run a board was derived from exactly what deriving it now would read if and only if a push wrote it last and the circle's threshold and revoked members are as they were then, or a rebuild did and since its snapshot the timer and the threshold are again as it read them and there was no quake, and since it read the log no report and the same members are revoked |
| `BoardRuns.OutrunByAReport` | internal/projection/rebuild.go:83-170 | A run in which no timer moves: a snapshot, a report, the rebuild stored over the report's deletion; the board lacks the report |
| `BoardRuns.OutlivesItsThreshold` | internal/circle/circle.go:268-339 | A run with nothing overtaken: the circle's threshold is raised and its board keeps the old answer |
| `TimerSeed.ResolveFile` | internal/catalogue/seed.go:251-277 | Every row is resolved and validated before anything is written; the first that fails is named |
| `WrittenFields.SeedRowExactly` | internal/catalogue/seed.go:251-277 | A row names a target by its id, or by a spelling whose owner it is; it is accepted if and only if its server and its window are, and the window is what is written |
| `TimerSeed.GroupRows` | internal/catalogue/seed.go:284-299 | The loop with the position map groups rows by window in order of first appearance |
| `TimerSeed.WriteWindows` | internal/catalogue/seed.go:301-323 | Windows are written one transaction each until the store refuses one, and the report counts what committed |
| `TimerSeed.ApplySeed` | internal/catalogue/seed.go:240-323 | A rejected file writes nothing; otherwise the tables are those after the windows that committed, and the report is exact also on the failure path |
| `TimerSeedProperties.GroupingKeepsEveryRow` | internal/catalogue/seed.go:284-299 | Grouping loses no row, moves none to another window and keeps each window's rows in file order |
| `TimerSeedProperties.GroupedEqualsFileOrder` | internal/catalogue/seed.go:284-323 | Applying the grouped windows gives the timers of upserting the rows in file order |
| `TimerSeedProperties.RerunConverges` | internal/catalogue/seed.go:225-233 | A run stopped after any window and run again ends in the same timers and the same boards as one full run |
| `TimerSeedProperties.SeedHealsWhatItReaches` | internal/catalogue/seed.go:301-323 | After any number of its windows a board is stale if and only if it was and none of them reaches it |
| `TimerSeedProperties.ReportIsExact` | internal/catalogue/seed.go:301-321 | A full run counts every row, and names every window of the file once and no other |
| `Paging.ListIn` | internal/catalogue/catalogue.go:252-323 | The filter, sort, cursor cut and page cut compute the specified page |
| `Paging.ListsExactly` | internal/catalogue/catalogue.go:276-298 | Without a cursor or a limit a listing has exactly the targets in the state, expansion and zone asked for and with a spelling containing the query |
| `Paging.PageIs` | internal/catalogue/catalogue.go:276-322 | A page lists, once each and in id order, exactly the wanted targets past the cursor and up to the next; a page that says there is more is full |
| `Paging.WalkIsExact` | internal/catalogue/catalogue.go:300-322 | Following the cursor until there is no more lists every target wanted throughout exactly once in id order, whatever changes between pages |
| `Paging.WalkEnds` | internal/catalogue/catalogue.go:300-322 | Such a walk ends: n full pages need n times the limit different targets |
| `Paging.PagesMakeTheWhole` | internal/catalogue/catalogue.go:300-322 | Over an unchanging catalogue the pages laid end to end are the unlimited listing |
| `Paging.TotalCountsFromTheCursor` | internal/catalogue/catalogue.go:300-311 | The total is what is left from the cursor on: short by everything before it |

## Left out

- Windows.Stored: offsets and instants are unbounded integers; the one product the code forms in an int64 has its exact safe width in `ProgressFitsInt64`, other sums of timestamps are not bounded.
- Clusters.Sort: the library sort is a function (insertion) with its order and permutation proved; the in-place algorithm is not modelled. The same holds of `Paging.SortById`.
- Derivation.Derive: report notes, zones and raw lines, which no step reads.
- RateLimit.Limiter.Allow: the wait is divided as integers where the code goes through a float of seconds; the lock and the address parsing are not modelled.
- RateLimitSharpness.RateBoundExactly: refills are bounded only by positivity, with no int64 overflow of Burst times Refill.
- Idempotency.Step: modelled on values, one store statement a step, because requests interleave; the two code paths are also written as methods and tied to it for one request alone. Response headers, the recorder around the response writer, the text of a response and the five-second deadline of the outcome write are not modelled.
- IdempotencyStore.Store.ReplayOrRun: the middleware's own checks of the key (`internal/api/idempotency.go:118-138`) and how a stored body is sent, which come before and after the steps modelled.
- Encoding.WriteParts: the running hasher is the sequence of bytes written to it; `requestHash`, which is not length-prefixed, is an opaque hash of the request.
- Audit.AuditLog.Append: detail JSON is bytes.
- Resolve.ResolveName: the candidate list of an ambiguity is the hits; its sorting, cap and rendered text are left out.
- Spelling.CheckNamespace: only which spelling is taken, not the name of its owner in the message.
- Namespace.Catalogue.Create: row timestamps and alias row ids; an id is minted only when the write succeeds.
- NamespaceProperties.SecondSeedAddsNothing: the list of shipped targets is any list with different names; the literal list (`internal/catalogue/embedded.go:54-370`) is not reproduced.
- TimerService.Instance.Recompute: a board is the timer it was derived under; in `BoardRuns` also how much of the log, the quakes and the circle's settings it was derived from. The rest of a cached row is `Derivation.Derive` of those and is not stored in the model. The audit row beside an override is a mark naming the action, the circle and the target. A circle's creation and removal are left out.
- TimerService.Instance.AppendReport: stands for every transaction that adds a report; a quake, which drops its circle's boards, is a write of the runs (`WriteQuake`) without a method of its own.
- BoardRuns.NothingLeftToRecompute: boards are compared by what they were derived from, so one that lacks a report that would not have changed the answer counts as changed; the log and the revoked members of a read-miss rebuild are read in one step. The nightly verify stores in the same way and is such a rebuild.
- TimerSeed.ApplySeed: reading and parsing the file (`ParseSeed`), provenance and row timestamps; a store failure is the number of transactions it accepts.
- Paging.ListIn: the catalogue timer folded into each entry when a server is named.
- The HTTP layer, sessions, tokens, permissions, Discord and OAuth, health and metrics: wiring and tables with no property of this kind.
- The board's own sort and page (`internal/projection/projection.go:257-300`) and what the nightly verify reports: they repeat the derivation.
