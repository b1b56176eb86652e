# PGPulse core models

PGPulse watches PostgreSQL servers: it collects metrics, shows who blocks whom, forecasts maintenance work,
raises alerts and runs guided playbooks. This project models the parts of it whose correctness is not visible in
a single function, and proves what they promise for all inputs, all runs and all interleavings.

| files | what they model |
|---|---|
| `LockGraph`, `LockChains`, `LockTree`, `LockStats`, `LockRelation`, `LockLongest` | the two searches over the blocking graph, how their answers relate, and what the chain depth says of the longest chain |
| `Regression`, `Threshold` | least-squares fitting and the vacuum/analyze threshold projection |
| `WeightedRate`, `Eta` | the decayed rate of an operation and its estimated end |
| `Tracker`, `TrackerTrace`, `TrackerRecords` | the debounced map of running maintenance operations |
| `BaselineState`, `BaselineHistory`, `BaselineMeaning`, `Baseline` | the seasonal baseline: its value, its history, what it says, and the class with its ring buffers |
| `PlaybookStore`, `PlaybookProtocol`, `PlaybookOutcome` | step rows, the handlers racing on them, and what a row says afterwards |
| `AlertKeys`, `AlertMachine`, `AlertHistory`, `AlertEvaluator`, `AlertRuns`, `AlertOverlap` | alert state keys, the three-state machine, the history table, batches, runs with restarts, and overlapping evaluations |
| `Dispatcher` | the notification queue, its worker and the cooldowns |
| `PoolCache`, `CollectionCycle` | the per-database pool cache and the goroutines of one collection cycle |
| `RateLimiter` | the sliding-window login limiter |
| `Sorting`, `Basics`, `RealFacts` | sorting, map enumeration and small facts used by the rest |

`float64` is `real`, integers are unbounded, and times are integers in nanoseconds. Clock readings, failing store
calls, connection results, the reindex probe and the statistics of gonum are parameters; a theorem that needs a store
call to succeed says so. Objects that the program updates in place are classes whose methods are tied to a function of the
old state; concurrent parts are state machines over their atomic steps, and theorems about them range over every
trace of enabled steps.

## Where the code and a plausible reading differ

- `lock_tree.go` documents a longest chain, 0 for no blocking; the code computes the greatest shortest-path distance
  from a single root. `LockLongest.ShortcutHidesChain` and `LockLongest.DeadlockHasDepthZero` are inputs where that
  differs, and `DepthIsLongestIff` and `ZeroMeansNoBlockingIff` say exactly when it does not.
- `linear.go` takes its flat branch for any spread below 1e-15, not only for equal x values.
  `Regression.DegenerateNotOptimal` gives an input where the flat line is not the best one, and
  `Regression.FlatOptimalIff` says exactly when it is. Over whole seconds the case cannot arise
  (`Threshold.ComputeRate`).
- Reloading a baseline forgets the slope and moves the season on by one, so forecasts straight after it differ
  (`BaselineState.ReloadChangesForecast`) unless the condition of `ForecastAfterReloadIff` holds.
- `RetryAfter` promises the time at which the window resets, but looks at the oldest failure only. When more than
  the allowed number are in the window that can be too early (`RateLimiter.OverfullWaitTooShort`); `RetryAfterIff` says
  exactly when it is not.
- `labelsMatch` promises that required labels are present, but lets an empty one match a point without it
  (`AlertEvaluator.MissingLabelMatches`); `LabelsMatchIff` and `LabelsMatchAlwaysIff` say when that shows.
- `Evaluate` releases its lock before it stores an event, and the groups of an instance evaluate concurrently
  (internal/orchestrator/group.go:137-141, internal/orchestrator/runner.go:140-144). Two calls that hold events of one
  pair can store them the wrong way round: `AlertOverlap.FailingInterleaving` ends with an open row and a state that
  does not fire, and `AlertOverlap.AgreementIff` says exactly when no order can do that.
- When a store call fails, `Evaluate` has already moved the state and emits no event, so state and history part
  (`AlertRuns.ItemKeepsOwn` is an equivalence, `AlertRuns.RefusedStoreParts` an input).

## Preconditions

- `Tracker`, `Baseline`: window and period at least 1; the program indexes or divides by them.
- `Threshold.Evaluate`: a positive `MinDataPoints` or a non-empty history; the program indexes the last point.
- `RateLimiter.Limiter.RetryAfter`: at least one allowed attempt or one failure in the window; the program indexes the
  first entry.
- `Baseline.STLBaseline.Load`: a window of at least 1; the program divides by it.
- `RateLimiter`, `Dispatcher`: clock readings do not go backwards, as with Go's monotonic clock.
- `AlertRuns`, `AlertKeys`: rule ids hold no colon, which the API's validation ensures (`AlertKeys.SlugHasNoColon`), and
  are distinct.
- `Dispatcher`: no `Dispatch` and no second `Stop` after `Stop`; both panic in Go.
- `PlaybookProtocol`: step orders of one playbook are distinct, as the table's constraint demands
  (internal/storage/migrations/018_playbooks.sql:41).

## Model

| member | source | states |
|---|---|---|
| `LockTree.BuildLockTree` | internal/api/handler_locks.go:146-271 | for every row list (cycles, self-blocks, absent blockers, repeated rows) the search ends; a pid is listed iff it is reachable from an unblocked blocker that is among the rows, once, in order of (depth, pid); each entry shows the shortest and then smallest blocking chain to its pid; the summary counts roots and listed non-roots and gives the greatest listed depth |
| `LockTree.ResponseUnique` | internal/api/handler_locks.go:146-271 | that specification leaves no freedom: any two responses meeting it are equal, so map iteration order cannot show |
| `LockTree.ListedFacts` | internal/api/handler_locks.go:219-234 | a listed depth is the distance from the nearest present root; root iff depth 0 iff no parent; otherwise the parent is listed, is a direct blocker and sits one level up; no depth exceeds MaxDepth |
| `LockTree.ListedCounts` | internal/api/handler_locks.go:229-230 | an entry counts the edges that block its pid and the edges by which it blocks |
| `LockTree.ListedSession` | internal/api/handler_locks.go:219-228 | an entry shows the session of the last row of its pid |
| `LockTree.IndexRows` | internal/api/handler_locks.go:147-150 | the index holds exactly the pids of the rows, each with its last row |
| `LockTree.BuildAdjacency` | internal/api/handler_locks.go:152-162 | the two maps hold every blocker and every victim of each pid in row order, and no empty list |
| `LockTree.FindRoots` | internal/api/handler_locks.go:164-183 | the roots are the pids that block someone and are blocked by nobody, each once, ascending |
| `LockTree.Search` | internal/api/handler_locks.go:192-246 | the queue loop ends with an empty queue and every pid settled on its best chain |
| `LockTree.Turn` | internal/api/handler_locks.go:201-246 | one turn keeps the search invariant and either visits a new pid or shortens the queue |
| `LockTree.Visit` | internal/api/handler_locks.go:210-245 | visiting a pid adds its entry when it has a row, raises the maximum depth, and queues its unvisited victims in pid order one level down |
| `LockTree.CountBlocked` | internal/api/handler_locks.go:256-261 | the count is the number of distinct listed pids that are not roots |
| `LockGraph.HeadIsShortest` | internal/api/handler_locks.go:201-208 | in a breadth-first queue the first occurrence of a pid carries its shortest distance, although pids are marked only when dequeued |
| `LockGraph.FrontierDone` | internal/api/handler_locks.go:200-246 | when the queue is empty the settled pids are exactly the reachable ones |
| `LockChains.HeadIsBest` | internal/api/handler_locks.go:236-245 | the chain of the first occurrence is least, by pids, among all shortest chains, which fixes ParentPID |
| `LockChains.BestChainUnique` | internal/api/handler_locks.go:236-245 | there is one best chain per pid |
| `LockStats.BfsMaxDepth` | internal/collector/lock_tree.go:154-177 | the result is the greatest shortest-path distance from the start pid, reached by some pid |
| `LockStats.ComputeLockStats` | internal/collector/lock_tree.go:105-149 | counts of roots and of blocked pids, and the greatest distance of a pid from any one root; 0 without a root |
| `LockStats.StatsUnique` | internal/collector/lock_tree.go:105-149 | the statistics are determined by the edges, whatever the map iteration order |
| `LockLongest.DocumentedDepth` | internal/collector/lock_tree.go:32-37 | the collector run on any edges, against the documented longest chain, 0 = no blocking: never more than the longest chain without a repeated pid, with the exact conditions for both halves |
| `LockLongest.ChainDepthZeroIff` | internal/collector/lock_tree.go:132-141 | the depth is 0 iff there is no unblocked blocker |
| `LockLongest.ZeroMeansNoBlockingIff` | internal/collector/lock_tree.go:36-36 | 0 stands for no blocking unless there are edges and every blocker is itself blocked |
| `LockLongest.DeadlockHasDepthZero` | internal/collector/lock_tree.go:101-104 | two sessions blocking each other have depth 0 |
| `LockLongest.ShortestIsSimple` | internal/collector/lock_tree.go:154-177 | a shortest blocking chain repeats no pid |
| `LockLongest.DepthIsLongestIff` | internal/collector/lock_tree.go:36-36 | the depth is at most the longest chain below a root, and equals it iff some longest chain ends at a pid that its root does not reach sooner |
| `LockLongest.LongestExists` | internal/collector/lock_tree.go:36-36 | every graph, with cycles or not, has a longest chain |
| `LockLongest.ShortcutHidesChain` | internal/collector/lock_tree.go:154-177 | 1 blocks 2 and both block 3: the longest chain has two steps and the depth is 1 |
| `LockRelation.TreeAgreesWithStats` | internal/api/handler_locks.go:256-270 | on the edges of one row list: equal root counts; MaxDepth at most MaxChainDepth; TotalBlocked at most BlockedCount, with equality iff every blocked pid is reachable from a present root |
| `LockRelation.BothViews` | internal/collector/lock_tree.go:105-149 | running both algorithms on any row list gives answers related in all these ways, with the exact conditions for equal depths and equal blocked counts |
| `LockRelation.SingleRootDepth` | internal/collector/lock_tree.go:132-141 | with exactly one root, present in the rows, the two depths are equal |
| `LockRelation.DepthsEqualIff` | internal/collector/lock_tree.go:132-141 | the depths are equal iff there is no chain at all or some pid at the greatest single-root distance is no nearer to any present root |
| `LockRelation.TwoRootsGap` | internal/api/handler_locks.go:200-212 | 1 blocks 2 blocks 3 and 4 blocks 3, all of them rows: the tree is 1 deep and the chain depth 2 |
| `LockRelation.DepthAtMostChain` | internal/collector/lock_tree.go:132-141 | the tree is never deeper than the longest per-root distance |
| `LockRelation.NonRootsAre` | internal/api/handler_locks.go:256-261 | the pids counted as blocked are the blocked pids reachable from a present root |
| `LockRelation.AbsentRootGap` | internal/api/handler_locks.go:214-217 | a row blocked only by an absent pid makes the two answers differ in depth and in blocked count |
| `Regression.LinearRegression` | internal/ml/linear.go:18-70 | error cases; below the 1e-15 spread the flat mean line with RSquared 0; otherwise no line whatever has a smaller squared error, and RSquared is the explained share and lies in [0,1] |
| `Regression.FittedIsBest` | internal/ml/linear.go:47-48 | the closed-form slope and intercept meet both normal equations and minimise the squared error over all lines |
| `Regression.LeastSquaresSlope` | internal/ml/linear.go:47-48 | conversely, any optimal line has that slope |
| `Regression.CovIsPairSum` | internal/ml/linear.go:35-47 | n*sumXY - sumX*sumY is the sum over pairs i<j of (xi-xj)(yi-yj) |
| `Regression.DenomNonNegative` | internal/ml/linear.go:35-37 | the denominator is never negative and is at least every single squared gap |
| `Regression.RSquaredInUnit` | internal/ml/linear.go:50-62 | an optimal line has RSquared in [0,1] |
| `Regression.RSquaredMeans` | internal/ml/linear.go:50-62 | RSquared times the squared distances from the mean is what the line takes off them; it is 1 iff every point lies on the line, and 0 below the tolerance |
| `Regression.FlatOptimalIff` | internal/ml/linear.go:37-45 | the line returned by the degenerate branch is optimal iff the data are uncorrelated, and always when all x are equal |
| `Regression.FitOptimalIff` | internal/ml/linear.go:35-69 | the line returned for any data is a least-squares line iff the spread is at least 1e-15 or the data are uncorrelated |
| `Regression.DegenerateNotOptimal` | internal/ml/linear.go:37-45 | a spread below 1e-15 with different x values: the flat line is not optimal there |
| `Regression.LinearData` | internal/ml/linear.go:47-47 | points on a line have covariance slope times spread |
| `Regression.MonotoneData` | internal/ml/linear.go:47-47 | increasing x with non-decreasing, non-constant y gives a positive numerator |
| `Threshold.ComputeRate` | internal/forecast/evaluator.go:312-330 | the rate is the least-squares slope over Unix seconds, 0 with fewer than two points or one common second; the tolerance never bites since seconds are whole |
| `Threshold.Evaluate` | internal/forecast/evaluator.go:123-230 | the five statuses partition all inputs; when a time is predicted, current + rate * TimeUntilSec is exactly the limit and imminent means at most an hour |
| `Threshold.PredictedAtMeans` | internal/forecast/evaluator.go:162-174 | a time is predicted iff imminent or predicted, TimeUntilSec from now cut to the nanosecond, never in the past |
| `Threshold.UnixIs` | internal/forecast/evaluator.go:319-323 | timestamps count in whole seconds, rounded down |
| `Threshold.LinearHistory` | internal/forecast/evaluator.go:312-330 | a linear history over two distinct seconds recovers its rate exactly |
| `Threshold.GrowingRate` | internal/forecast/evaluator.go:312-330 | a non-decreasing, non-constant history at increasing seconds has a positive rate |
| `Threshold.GrowingNeverNotNeeded` | internal/forecast/evaluator.go:154-160 | such a history is never not_needed |
| `WeightedRate.WeightedMovingAverage` | internal/ml/wma.go:31-91 | error cases; otherwise the decay-weighted mean of the rates of the positive intervals in the window, and the root of their weighted mean square distance, taken of a value that is never negative; 0 when there is no such interval |
| `WeightedRate.CollectRates` | internal/ml/wma.go:51-60 | the rates are those of the intervals of positive length in the window, in order |
| `WeightedRate.IntervalUsedIff` | internal/ml/wma.go:40-53 | an interval counts iff it ends at one of the last WindowSize samples, and all do without a positive window |
| `WeightedRate.RateOfInterval` | internal/ml/wma.go:53-60 | each interval that took time adds its increase per second, and no other adds anything |
| `WeightedRate.DecayIs` | internal/ml/wma.go:46-49 | a decay outside (0, 1) becomes 0.85 |
| `WeightedRate.Average` | internal/ml/wma.go:66-90 | mean and deviation under weights decay^(m-1-i) |
| `WeightedRate.AverageWithin` | internal/ml/wma.go:66-76 | the weighted rate lies between any lower and upper bound of the rates |
| `WeightedRate.DeviationMeans` | internal/ml/wma.go:78-84 | with a true square root the deviation is the root mean square distance from the rate, and 0 iff all rates used are equal |
| `WeightedRate.VarianceIdentity` | internal/ml/wma.go:78-84 | the weighted squared distances from the rate are the weighted squares less those of the rate itself |
| `WeightedRate.WeightedIsRecency` | internal/ml/wma.go:66-74 | the weighted sum equals the recursion that decays everything seen so far and adds the newest at weight one |
| `WeightedRate.ConstantRates` | internal/ml/wma.go:51-60 | work growing at one rate gives that rate in every kept interval |
| `Eta.ComputeOne` | internal/forecast/eta.go:69-137 | estimating, stalled or an estimate whose product with the rate is the remaining work; percentage, elapsed time and confidence |
| `Eta.EtaExact` | internal/forecast/eta.go:95-136 | constant-rate work as the tracker stores it: the ETA times the rate is exactly the work left, for any decay, window and repeated timestamps that leave one positive interval |
| `Eta.EtaNonNegativeIff` | internal/forecast/eta.go:119-129 | an estimate is not negative iff more work is announced than done or, failing that, 0 < PctDone < 100 and the work done is not negative, or announced and done work are equal |
| `Eta.EtaShows` | internal/forecast/eta.go:70-137 | elapsed time, the moment the work should end, cut to the nanosecond, and high confidence iff at least eight samples |
| `Eta.WmaOfConstant` | internal/ml/wma.go:51-76 | the weighted rate of constant-rate work is that rate |
| `Tracker.OperationTracker.UpdateOrStart` | internal/forecast/tracker.go:161-205 | every observed key is refreshed or started through the reindex gate, every other key is untouched |
| `Tracker.OperationTracker.CheckCompleted` | internal/forecast/tracker.go:208-221 | one missed poll is tolerated, the second finalizes with the record that TrackerRecords describes, and the operation is dropped whether or not that could be written; nothing else changes |
| `Tracker.OperationTracker.DropFinished` | internal/forecast/tracker.go:207-221 | the completion pass over the whole map, in any iteration order, treats each key alone |
| `Tracker.OperationTracker.RunTick` | internal/forecast/tracker.go:161-222 | a tick moves each key and what is finalized for it as that key alone would move |
| `Tracker.OperationTracker.FlushAll` | internal/forecast/tracker.go:307-315 | every active operation is finalized once, written or not, and the map is empty |
| `TrackerTrace.LastNSnoc` | internal/forecast/tracker.go:318-323 | appending to a buffer that holds the last n observations leaves the last n |
| `TrackerTrace.Run` | internal/forecast/tracker.go:73-85 | a whole run with its closing flush finalizes, per key, the operations of its trace and then the one still active, and says which records the store took |
| `TrackerTrace.ActiveIffRecent` | internal/forecast/tracker.go:161-222 | after any ticks an ungated key is active iff observed in one of the last two; StartedAt is the first observation of the episode and Samples are its last min(window, k) observations in order |
| `TrackerTrace.EpisodesConserved` | internal/forecast/tracker.go:161-222 | episodes in the trace = operations finalized + (1 if active): each episode is finalized exactly once |
| `TrackerTrace.StartsConserved` | internal/forecast/tracker.go:161-222 | starts = finalizations + active for every key, gated or not |
| `TrackerTrace.FinalizedEpisode` | internal/forecast/tracker.go:267-304 | a tick finalizes a key iff it is the second miss in a row after an observation, and the record carries the start of that episode |
| `TrackerTrace.StartsInOrder` | internal/forecast/tracker.go:161-222 | the start times of the finalized operations, then of the active one, are the episode starts in order |
| `TrackerRecords.FinishedRecord` | internal/forecast/tracker.go:250-304 | the record of an ended episode in terms of its polls: completed iff the last percentage is at least 99, otherwise disappeared iff seen for more than two seconds, otherwise unknown; duration, final percentage and the rate between the oldest kept and the last sample; name and start of the first observation |
| `TrackerRecords.FlushedRecord` | internal/forecast/tracker.go:307-315 | the same for the operation still active at the end, with outcome unknown |
| `TrackerRecords.OutcomeMeans` | internal/forecast/tracker.go:250-264 | the outcome in terms of the first and the last observation |
| `TrackerRecords.ObservationIs` | internal/forecast/tracker.go:170-175 | each stored sample has the time, work and percentage of its sighting, and total 0 |
| `TrackerRecords.GatedStart` | internal/forecast/tracker.go:178-185 | an index build is taken up iff the probe says it is a reindex, and as reindex_concurrent |
| `Baseline.STLBaseline.constructor` | internal/ml/baseline.go:33-46 | an empty baseline with the window and smoothing factor of its period |
| `Baseline.STLBaseline.Observe` | internal/ml/baseline.go:49-85 | the in-place update of both rings, trend, seasonal means and sums is the update of the abstract state; both rings keep the last windowSize values in order |
| `Baseline.STLBaseline.NextValues` | internal/ml/baseline.go:50-72 | the new trend, bucket mean and residual |
| `Baseline.STLBaseline.ScoreValue` | internal/ml/baseline.go:89-115 | z-score and IQR verdict depend only on the abstract state |
| `BaselineState.FlaggedIff` | internal/ml/baseline.go:89-112 | nothing before two periods of residuals; then a value is flagged iff it lies outside the quartile fence around trend plus the coming bucket mean less the overall mean |
| `BaselineState.ZScoreMeans` | internal/ml/baseline.go:95-106 | the z-score grows by h per deviation, is 0 exactly at the expected value plus the mean residual, and 0 throughout when the deviation is at most 1e-10 |
| `BaselineState.SeasonMovesScore` | internal/ml/baseline.go:94-97 | a coming bucket mean higher by delta makes x + delta score as x did |
| `BaselineMeaning.ReadyIff` | internal/ml/baseline.go:90-92 | scoring starts once two periods have been observed |
| `Baseline.STLBaseline.Predict` | internal/ml/baseline.go:147-175 | the forecast points of the abstract state |
| `BaselineMeaning.ForecastOfHistory` | internal/ml/baseline.go:152-165 | horizon k of any history: the average, moved on k times by its last change, plus the mean of the observations of the bucket that the horizon falls on |
| `BaselineMeaning.ForecastDrift` | internal/ml/baseline.go:152-165 | a period further on, the forecast differs by the last change of the average times the period |
| `BaselineMeaning.ForecastShape` | internal/ml/baseline.go:147-175 | no point before a full period; then one per horizon, an interval apart, with the same margin on both sides |
| `Baseline.STLBaseline.Snapshot` | internal/ml/baseline.go:195-217 | the snapshot holds the residuals oldest first, with its counters |
| `Baseline.STLBaseline.Load` | internal/ml/baseline.go:220-242 | any snapshot with a window is taken as it stands, its residuals cut or zero-filled to the window; the result meets the invariant of the class iff period, lists and counters of the snapshot fit together, and then has its residuals, a flat trend and the season at totalSeen mod Period |
| `Baseline.Roundtrip` | internal/ml/baseline.go:195-242 | snapshot and load together reset trend memory and season position and keep everything else |
| `Baseline.PushView` | internal/ml/baseline.go:74-84 | writing at the ring head is dropping the oldest of the chronological view and appending, wherever the head stands |
| `Baseline.PushRing` | internal/ml/baseline.go:74-84 | the same for the array in place |
| `Baseline.ViewAt` | internal/ml/baseline.go:131-140 | the modular index arithmetic of residualSlice reads the chronological view |
| `BaselineState.ReloadBisimulation` | internal/ml/baseline.go:220-242 | for every reachable baseline a reload scores every value alike, now and after any common further updates; one update makes the states equal |
| `BaselineState.RestartsDoNotShow` | internal/ml/baseline.go:195-242 | with any number of reloads anywhere between the updates every score is that of the updates alone, and so is the whole state once an update has followed the last reload |
| `BaselineState.ReloadForecasts` | internal/ml/baseline.go:147-175 | forecasts agree at every horizon once one update has followed the reload |
| `BaselineState.ForecastAfterReloadIff` | internal/ml/baseline.go:238-240 | straight after a reload the values agree at every horizon iff the slope was 0 and all seasonal means are equal |
| `BaselineState.ReloadChangesForecast` | internal/ml/baseline.go:238-240 | after the history 0, 1 with period 1 a reload does change the forecast |
| `BaselineState.WholeForecastAfterReloadIff` | internal/ml/baseline.go:147-175 | the same of the returned point lists, which also agree, being empty, before a full period |
| `BaselineHistory.SeasonalIsMean` | internal/ml/baseline.go:60-68 | after any history seasonal[b]*seasonN[b] is the sum of the observations at indices b mod Period, seasonN[b] their number, sumAll the total |
| `BaselineHistory.BucketsPartition` | internal/ml/baseline.go:60-70 | the bucket counts sum to totalSeen and the weighted seasonal means to sumAll |
| `BaselineHistory.EwmaWithinData` | internal/ml/baseline.go:50-54 | the moving average stays between the least and greatest observation |
| `BaselineMeaning.EwmaIsWeighted` | internal/ml/baseline.go:33-54 | the average is the exponentially weighted sum of all observations with alpha = 2 / (window + 1) |
| `BaselineMeaning.ResidualIs` | internal/ml/baseline.go:60-72 | a residual is the distance from the average less the distance of the bucket mean from the mean of all, the observation included |
| `BaselineMeaning.SeasonalIsBucketMean` | internal/ml/baseline.go:60-63 | a seasonal value is the mean of the observations of its bucket |
| `BaselineHistory.ResidualWindow` | internal/ml/baseline.go:70-78 | the live residuals are the last min(n, windowSize) residuals of the history |
| `BaselineHistory.TranslationInvariant` | internal/ml/baseline.go:49-115 | histories v and v+c keep equal residuals and score x and x+c alike, for arbitrary mean, deviation and quantile |
| `PlaybookStore.PGStore.CreateRunStep` | internal/playbook/pgstore.go:427-450 | insert or overwrite |
| `PlaybookStore.PGStore.UpdateRunStep` | internal/playbook/pgstore.go:453-465 | an unconditional overwrite of an existing row, nothing otherwise |
| `PlaybookStore.PGStore.LockStepForExecution` | internal/playbook/pgstore.go:512-526 | succeeds iff the row is pending, awaiting confirmation or pending approval, and makes it running; a second lock then fails |
| `PlaybookStore.PGStore.ResetStepForRetry` | internal/playbook/pgstore.go:529-534 | only a failed row returns to pending |
| `PlaybookStore.PGStore.RequestStepApproval` | internal/playbook/pgstore.go:537-542 | only a pending or awaiting row changes |
| `PlaybookProtocol.Invariant` | internal/api/playbooks.go:401-460 | in every interleaving of every handler on every step, with statements that may be lost, no lockable or failed row has an execution in flight or a success behind it |
| `PlaybookProtocol.AtMostOnce` | internal/api/playbooks.go:401-460 | executions in flight plus successes never exceed 1; begun = in flight + succeeded + failed; begun at most 1 + resets of a failed row |
| `PlaybookProtocol.NoneAfterSuccess` | internal/api/playbooks.go:484-550 | after a success no action whatever starts that step again |
| `PlaybookProtocol.ExecuteKeeps` | internal/api/playbooks.go:358-407 | the tier gate and the lock keep the invariant of a step |
| `PlaybookProtocol.FinishKeeps` | internal/api/playbooks.go:410-460 | writing a result keeps it, even over a concurrent skip |
| `PlaybookProtocol.RetryKeeps` | internal/api/playbooks.go:517-530 | retry and approve keep it |
| `PlaybookOutcome.RowTellsOutcome` | internal/api/playbooks.go:401-460 | in a run without lost replies, skips and acknowledgements on a step, a row with nothing in flight is completed iff an execution succeeded, and failed iff none has and one more has failed than was reset |
| `PlaybookOutcome.RetryStartsAgain` | internal/api/playbooks.go:411-431 | a failed execution leaves a failed row with its error, a retry makes it pending, and the next admitted request starts the step again |
| `PlaybookOutcome.SuccessCompletes` | internal/api/playbooks.go:447-460 | a successful one completes its row |
| `PlaybookOutcome.StartedIff` | internal/api/playbooks.go:358-407 | a step is started iff an answered request passes its tier (confirmed, authorised, never external) on a row in one of the three waiting statuses |
| `PlaybookOutcome.ClosedWithoutExecution` | internal/api/playbooks.go:382-397 | an acknowledged external step is completed and a skipped one skipped, without an execution |
| `PlaybookOutcome.CountersAreFinishes` | internal/api/playbooks.go:410-460 | successes and failures are the executions of the trace that ended so |
| `AlertKeys.StateKeyWithLabels` | internal/alert/evaluator.go:343-356 | the key lists the labels in sorted order whatever order the map yields them |
| `AlertKeys.KeyInjective` | internal/alert/evaluator.go:343-356 | for colon-free rule ids and labels fixed by the rule, equal keys mean equal rule and equal instance, even for instances holding colons |
| `AlertKeys.StateKeyInjective` | internal/alert/evaluator.go:338-340 | the same for label-free keys |
| `AlertKeys.ColonCollides` | internal/alert/evaluator.go:338-340 | a rule id holding a colon can share its key with another pair |
| `AlertKeys.LabelFreeKey` | internal/alert/evaluator.go:343-347 | without labels the two key functions agree, which restart relies on |
| `AlertKeys.OneLabelKey` | internal/alert/evaluator.go:343-356 | the key of a rule with one label, written out |
| `AlertKeys.LabelLengthens` | internal/alert/evaluator.go:343-356 | with a label they differ |
| `AlertKeys.SlugHasNoColon` | internal/api/alerts.go:39-47 | a validated rule id holds no colon |
| `AlertMachine.StateIsBreachRun` | internal/alert/evaluator.go:250-282 | with N = max(1, ConsecutiveCount): firing iff the trailing breach run is at least N, pending iff 1..N-1, ok iff 0 |
| `AlertMachine.FiringMeans` | internal/alert/alert.go:40-60 | operator by operator, over values and thresholds: firing iff there are N observations and each of the last N compares so; an unknown operator never fires |
| `AlertMachine.OkMeans` | internal/alert/alert.go:40-60 | operator by operator: OK iff the last value does not compare so |
| `AlertMachine.EventCarries` | internal/alert/evaluator.go:285-327 | an event shows the rule, the point and the time that raised it |
| `AlertMachine.FiringEntry` | internal/alert/evaluator.go:285-303 | a firing entry keeps the severity of its rule and its fire time as the time of the last notice |
| `AlertMachine.EventIffRun` | internal/alert/evaluator.go:250-327 | a fire event occurs exactly when the run reaches N, a resolution exactly at the first non-breach after a run of at least N |
| `AlertMachine.EventsAlternate` | internal/alert/evaluator.go:285-327 | events strictly alternate and each resolution carries the FiredAt of its fire |
| `AlertMachine.PairedStep` | internal/alert/evaluator.go:285-327 | one transition keeps fire and resolution paired, from any well-paired past |
| `AlertHistory.HistoryStore.Record` | internal/alert/pgstore.go:269-288 | appends one open row with the fields of the event |
| `AlertHistory.HistoryStore.Resolve` | internal/alert/pgstore.go:291-301 | every open row of the pair gets the resolution time, nothing else changes |
| `AlertHistory.HistoryStore.ListUnresolved` | internal/alert/pgstore.go:304-324 | exactly the open rows, latest first |
| `AlertHistory.HistoryStore.Cleanup` | internal/alert/pgstore.go:351-362 | drops the resolved rows older than the cutoff and counts them |
| `AlertHistory.OpenResolved` | internal/alert/pgstore.go:291-301 | resolving empties the open rows of its pair and no other |
| `AlertHistory.OpenCleaned` | internal/alert/pgstore.go:351-362 | cleanup never loses an open row |
| `AlertEvaluator.IndexPoints` | internal/alert/evaluator.go:359-365 | each metric maps to its points in batch order |
| `AlertEvaluator.FindMatchingPoints` | internal/alert/evaluator.go:368-395 | the points with the metric and the required labels, in batch order |
| `AlertEvaluator.LabelsMatchIff` | internal/alert/evaluator.go:386-395 | matching is implied by all required labels being present with their values, and differs from it iff it succeeds past a required empty label that the point lacks |
| `AlertEvaluator.LabelsMatchAlwaysIff` | internal/alert/evaluator.go:386-395 | the two agree on every point iff the rule requires no empty label |
| `AlertEvaluator.MissingLabelMatches` | internal/alert/evaluator.go:388-395 | a required empty label matches a point without labels |
| `AlertEvaluator.Evaluator.ProcessTransition` | internal/alert/evaluator.go:250-282 | moves one entry as the machine does and no other |
| `AlertEvaluator.Evaluator.FireAlert` | internal/alert/evaluator.go:285-303 | the firing entry and its event |
| `AlertEvaluator.Evaluator.HandlePoint` | internal/alert/evaluator.go:103-125 | one point under one rule: state, history rows and emitted events, also when the store call fails |
| `AlertEvaluator.Evaluator.HandlePoints` | internal/alert/evaluator.go:103-125 | the matching points of one rule are the fold of its items |
| `AlertEvaluator.Evaluator.Evaluate` | internal/alert/evaluator.go:82-137 | the indexed batch is the fold over rules and matching points |
| `AlertEvaluator.EvalLater` | internal/alert/evaluator.go:92-126 | a batch does the same whatever was emitted and stored before it; earlier events and calls only stand in front |
| `AlertEvaluator.Evaluator.RecordEvent` | internal/alert/evaluator.go:330-335 | a resolution closes rows, a fire adds one |
| `AlertEvaluator.Evaluator.RestoreState` | internal/alert/evaluator.go:58-78 | every unresolved row seeds a firing entry under its label-free key; a failing query changes nothing |
| `AlertRuns.BatchProjects` | internal/alert/evaluator.go:82-126 | a batch moves every (rule, instance) exactly as its own machine over its own matching points in batch order, and emits its events, whatever else the batch holds |
| `AlertRuns.ItemKeepsOwn` | internal/alert/evaluator.go:107-124 | state and history stay in agreement after a point iff it raised no event or its store call succeeded |
| `AlertRuns.RefusedStoreParts` | internal/alert/evaluator.go:114-124 | a first breach whose record the store refuses leaves the state firing without any row |
| `AlertRuns.RestartKeeps` | internal/alert/evaluator.go:58-78 | a restart seeded from the history keeps the agreement |
| `AlertRuns.SeededFrom` | internal/alert/evaluator.go:64-73 | a restored entry has the fire time and severity of an unresolved row with its key |
| `AlertRuns.LabelledRestartIff` | internal/alert/evaluator.go:64-73 | for a labelled rule, whose key no open row restores, a restart keeps the agreement of a pair iff it was not firing |
| `AlertRuns.LabelledRestartForgets` | internal/alert/evaluator.go:64-73 | the first alert of any labelled rule is forgotten by a restart and its row stays open |
| `AlertRuns.CleanupKeeps` | internal/alert/pgstore.go:351-362 | so does cleanup |
| `AlertRuns.StateAgreesWithHistory` | internal/alert/evaluator.go:58-335 | after any run of evaluations one at a time, cleanups and restarts of label-free rules: firing iff exactly one open row, otherwise none, with the same FiredAt; events alternate and every resolution carries the FiredAt of its fire, across restarts |
| `AlertRuns.Replay` | internal/alert/evaluator.go:58-137 | evaluator and store objects driven through any batches, cleanups and restarts hold exactly the values of that run, so they agree on every pair |
| `AlertOverlap.OrderlyAgrees` | internal/alert/evaluator.go:103-125 | in every interleaving of any number of overlapping evaluations, cleanups and crashes: if the events of a pair are stored in the order its machine raised them, then stored and held events together are that order, and a pair with nothing held agrees with its history |
| `AlertOverlap.NeverTwoAgrees` | internal/alert/evaluator.go:107-124 | that is so in particular when no two calls ever hold an event of the pair at once |
| `AlertOverlap.AgreementIff` | internal/alert/evaluator.go:107-124 | after any such run every way of finishing the stores in flight ends in agreement iff at most one call holds an event of the pair |
| `AlertOverlap.TwoHeldCanDisagree` | internal/alert/evaluator.go:115-124 | with two or more held, some order of the stores ends firing without an open row, or with an open row and not firing |
| `AlertOverlap.FailingInterleaving` | internal/alert/evaluator.go:107-124 | a breach and a recovery in two calls, the recovery stored first: the state is OK and one row stays open |
| `AlertOverlap.CrashKeeps` | internal/alert/evaluator.go:58-78 | a crash that loses every call in flight leaves a restored state in agreement |
| `AlertOverlap.AloneIsItemStep` | internal/alert/evaluator.go:103-125 | a call that nobody overlaps moves and stores as the sequential evaluation does |
| `Dispatcher.Worker.SendWithRetry` | internal/alert/dispatcher.go:165-196 | stops at the first success, fails iff all allowed attempts fail |
| `Dispatcher.Worker.ProcessEvent` | internal/alert/dispatcher.go:98-156 | suppressed iff firing and cooling down; otherwise one delivery per channel with a notifier; the cooldown of a firing event is recorded even if every send failed |
| `Dispatcher.Serve` | internal/alert/dispatcher.go:91-138 | processing the head of the queue with the worker object is the take step and, unless suppressed, the finish step, with the same cooldowns |
| `Dispatcher.DispatcherInvariant` | internal/alert/dispatcher.go:73-156 | in every interleaving: accepted = processed + in hand + queued in order, queue at most 100; two notes under one key are at least the cooldown apart; only firing events are suppressed |
| `Dispatcher.SuppressedIff` | internal/alert/dispatcher.go:98-149 | in every reachable state the worker passes over an event iff it is a fire and one with its key was notified less than the cooldown ago |
| `Dispatcher.NotedWhenDelivered` | internal/alert/dispatcher.go:126-156 | a delivered fire is noted when it is finished, and nothing else is |
| `Dispatcher.DispatchIff` | internal/alert/dispatcher.go:73-82 | an event is taken iff fewer than a hundred wait |
| `Dispatcher.CooldownKeyInjective` | internal/alert/dispatcher.go:212-214 | for colon-free rules and severities, equal keys mean equal rule, instance and severity |
| `Dispatcher.StopDrains` | internal/alert/dispatcher.go:85-96 | after Stop the worker is never stuck, every step shortens what is left, and at the end all accepted events were processed in order |
| `Dispatcher.SpacedStep` | internal/alert/dispatcher.go:140-156 | one step keeps the spacing |
| `PoolCache.DBRunner.EvictStalePools` | internal/orchestrator/db_runner.go:209-231 | every cached database ages as it alone would, whatever the iteration order; an evicted pool is closed once |
| `PoolCache.DBRunner.GetOrCreatePool` | internal/orchestrator/db_runner.go:234-257 | returns the cached pool or a new one, and none iff creation fails |
| `PoolCache.DBRunner.ClosePool` | internal/orchestrator/db_runner.go:220-225 | moves one pool from open to closed |
| `PoolCache.DBRunner.RunCycle` | internal/orchestrator/db_runner.go:75-99 | one discovery cycle moves each database as it alone would, and a database is pooled iff it has a pool afterwards |
| `PoolCache.DBRunner.Close` | internal/orchestrator/db_runner.go:286-293 | every pool ever created has been closed exactly once |
| `PoolCache.OpenIffRecent` | internal/orchestrator/db_runner.go:209-257 | while creation succeeds a database has a pool iff one of the last three discoveries found it, and its counter says which |
| `PoolCache.Replay` | internal/orchestrator/db_runner.go:75-99 | the runner after any cycles is that trace predicate, with created = open + closed |
| `PoolCache.PoolRemoved` | internal/orchestrator/db_runner.go:220-225 | closing keeps created = open + closed with no pool closed twice |
| `CollectionCycle.CycleInvariant` | internal/orchestrator/db_runner.go:84-136 | in every interleaving at most the semaphore size hold a slot, and the counters account for every failed pool and counted goroutine once |
| `CollectionCycle.CountersAddUp` | internal/orchestrator/db_runner.go:84-137 | at the end collected + all errors = collectors * pooled databases + pool failures |
| `CollectionCycle.CountersAreResults` | internal/orchestrator/db_runner.go:90-134 | each counter counts its own results in the trace, failed pools among the other errors |
| `CollectionCycle.CycleProgress` | internal/orchestrator/db_runner.go:84-137 | with at least one slot the cycle is never stuck and every step shortens it |
| `CollectionCycle.JobCounts` | internal/orchestrator/db_runner.go:90-104 | the jobs of a cycle: one per collector of each pooled database, one per failed pool |
| `RateLimiter.Limiter.PruneExpired` | internal/auth/ratelimit.go:66-79 | dropping the expired prefix leaves exactly the failures of the whole history inside the window |
| `RateLimiter.Limiter.Allow` | internal/auth/ratelimit.go:30-36 | allowed iff fewer than maxAttempts of all failures ever recorded lie in the window |
| `RateLimiter.Limiter.RecordFailure` | internal/auth/ratelimit.go:39-44 | adds one failure to the history and keeps every stored list faithful |
| `RateLimiter.Limiter.RetryAfter` | internal/auth/ratelimit.go:48-62 | the wait computed from exactly the failures in the window, at the second clock reading |
| `RateLimiter.WaitPositiveIff` | internal/auth/ratelimit.go:52-61 | a wait is promised iff the limit is reached and the oldest entry is still inside the window at the second reading; it ends after that entry has left, by at most a second |
| `RateLimiter.RetryAfterIff` | internal/auth/ratelimit.go:48-62 | waiting that long is enough iff the entry that must leave the window is less far behind the oldest than the wait was rounded up, which always holds with exactly maxAttempts entries |
| `RateLimiter.RetryThenAllow` | internal/auth/ratelimit.go:30-62 | the same from RetryAfter to a later Allow over the whole history |
| `RateLimiter.FewerIff` | internal/auth/ratelimit.go:30-36 | fewer than n in the window iff the n-th newest has left it |
| `RateLimiter.OverfullWaitTooShort` | internal/auth/ratelimit.go:57-61 | one attempt allowed in 15 seconds, failures recorded at 0 and 10: RetryAfter says 6 and Allow still refuses then |

## Left out

- HTTP decoding, routing, JSON, SQL text, connection pools, logging, templates, the desktop shell and the CLI: input and output only.
- Floating-point rounding, overflow of `int64` and of `time.Duration`, NaN and infinities.
- gonum's Mean, StdDev and Quantile and `math.Sqrt`: arbitrary functions in the model.
- Pointers shared inside `BuildLockTree` (rows by reference, victim lists sorted in place): modelled on values.
- Forecast-threshold alerts (`runForecastAlerts`) and the history rows they write.
- AlertRuns.StateAgreesWithHistory: label-free rules only, because a restart restores keys without labels (`AlertRuns.LabelledRestartIff`); it assumes store calls that succeed, and `AlertRuns.ItemKeepsOwn` says exactly what a failing one does to its pair. Evaluations follow one another there; `AlertOverlap` has them overlap.
- A store statement of the alert history that reports an error after taking effect, deletion of history rows with their rule, and the microsecond resolution of stored timestamps.
- TrackerTrace.ActiveIffRecent: keys without the reindex gate; `StartsConserved` and `RunTick` cover gated ones with the probe's answers as input.
- The part of `tick` that turns metric points into current operations, and the reindex and base backup forecasts: single-branch code.
- PoolCache.OpenIffRecent: databases whose pool creation succeeds; `RunCycle` covers failures. A failed discovery leaves the runner unchanged and is not a cycle.
- The run row of a playbook with its status and abandoning; results, verdicts and branching of steps.
- Remediation and hooks called by the dispatcher, and the order of goroutines waiting for a semaphore slot.
- Eta.EtaExact: 0 < PctDone < 100 only; `Eta.EtaNonNegativeIff` covers the sign of every estimate.
- Root cause analysis, remediation rules, statement diffs, metric storage, access control, built-in rules and playbooks.
