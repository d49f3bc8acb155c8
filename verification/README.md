# Verified models of the metadata server's core

The distributed file system's metadata server rests on a handful of small state machines: a
replicated log with its Ready handler, a load balancer, a rate limiter, a failure detector feeding
a cluster manager, a flat-map namespace store and a path-lock manager. This project models each of
them in Dafny and proves what they guarantee over every input and every run, and, where they do
not guarantee what their comments or tests suggest, exactly when they do.

`dafny verify dfyconfig.toml` checks everything.

| file | what it models |
|---|---|
| `RaftLog.dfy`, `RaftNode.dfy`, `RaftApply.dfy` | in-memory log storage, the Ready handler, the apply stream (`common/consensus/raft/node.go`) |
| `Statistics.dfy`, `Strategy.dfy`, `Rounds.dfy` | the imbalance test, the sort-and-pair planner, the effect of its plans (`rebalance/strategy.go`) |
| `Migrator.dfy`, `RebalanceGate.dfy` | the migration worker pool and the rate gate (`rebalance/migrator.go`, `rebalance/manager.go`) |
| `RateLimit.dfy` | the sliding-window rate limiter (`middleware/rate_limit.go`) |
| `Heartbeat.dfy`, `ClusterManager.dfy`, `SplitQueries.dfy`, `EventLoop.dfy` | failure detector, mirror and cache, queries that interleave with leader changes, and how the detector's lock and the event loop interact (`heartbeat/manager.go`, `cluster/manager.go`) |
| `Paths.dfy`, `MemoryStore.dfy` | slash-separated paths and the namespace store (`server/store.go`) |
| `Locks.dfy` | path locks (`metadata/lock/manager.go`) |

## How it is modelled

- An object whose methods update its fields is a class whose methods are proved against functions
  on values. Where goroutines interleave, the same functions (or, for the locks, the pool and the
  gate, their atomic steps) are the steps of a state machine, and the theorems are about every
  sequence of steps.
- Time is a clock reading passed in. The rate limiter and the gate need readings that never
  decrease; where a theorem needs that, it says so. `float64` is `real`; the square root in the
  imbalance score is avoided by squaring both sides, and `ExceedsIsScoreAboveThreshold` proves the
  two tests equal.
- A Go map is visited in an arbitrary order: loops pick any remaining key, and where two visits of
  one map meet, theorems are stated for two permutations. `sort.Slice` is not stable: theorems hold
  for every descending order.
- The raft library supplies Readys. What it must supply is a predicate (`Supplied`: entries
  contiguous, above the snapshot and no later than the last index plus one; snapshots not older).
  Unmarshalling and applying configuration changes are functions whose results are arbitrary.
- `ClusterManager` takes a query as one step; `SplitQueries` takes the leader read, the
  status read, each node's answer and the two halves of a leader change as steps of their own.
- Client addresses, election answers, task and plan identifiers and the context's cancellation
  are parameters.

## Where the code does not do what it says

- A Ready that carries a snapshot and the entries after it stores the entries first. If the snapshot
  jumps past a non-empty log, the handler panics (`SnapshotReadyOutcome`, `SnapshotPastLogPanics`);
  in every other case it is harmless.
- `Term` at the snapshot's own index answers only while no entry is stored above it, although the
  library asks for it to match logs (`MemoryStorage.Term`).
- Creating a directory looks up the directory itself as its parent, and creating a file looks up
  its parent without the slash every directory key carries. No directory other than a missing root
  can be created, and every file of every reachable store sits directly under the root
  (`CreateDirectorySucceedsOnlyForMissingRoot`, `CreateFileSucceedsOnlyInRoot`,
  `ReachableStoresAreFlat`), except that a file named "/" is accepted beside the root directory and
  listed inside it (`RootCanBeAFile`). The repository's unit tests expect nested directories. The
  theorems on deletion and listing are stated for every tree-shaped store; every reachable store is
  one (`ReachableStoresAreTrees`).
- A cluster without shards can be judged in need of rebalancing and get no plan; a source lighter
  than its target still gives a shard; beyond thirty nodes a plan can have priority zero, outside the
  documented 1 to 10, exactly when the eleventh pair's gap reaches the planner's limit.
- Registering a node resets it silently, so the cluster manager's mirror can go on saying dead
  (`MirrorIsRightIff`).
- A query reads the leader and writes the cache in separate steps. One that read the old leader and
  has the old or the new one still to write when a leader change has been handled can leave a wrong
  flag, and if it has the old one still to write, listings that show two leaders; without such a
  query they never do. A wrong entry ends with the next change or the cache's TTL (`TermIsCleanIff`,
  `NewListingsShowOneLeaderIff`, `WrongFlagsExpire`).
- Handling a change empties the node's cache entry, but a query that read the old status before can
  put it back (`SplitQueries.ChangeIsSeenIff`).
- A query reads a status before it dates the entry it caches. A served status can be older than the
  TTL by as long as that takes, and by no more (`ServedStatusAgeIff`).
- The event loop can deadlock with the detector whenever this node leads
  (`LeaderCanAlwaysGetStuck`, `StuckReachableIffLeading`).
- A cancelled task can still be run and completed; exactly when is `FailedIsFinalIff`.
- A read lock is not upgraded, not even for its owner. Exclusion needs three things of the clients
  and fails without each: that no two share an owner name (`ExclusiveIffOneClientPerName`), that no
  held lock outlives its timeout (`SweepBreaksExclusionIffExpired`), and that no client tries a path
  it holds. A second read is granted on the same lock, which the first release deletes: read, read,
  release, and another client can write (`SecondReadBreaksExclusionIff`).

## Model

| member | source | states |
|---|---|---|
| `RaftLog.OffsetIsDifference` | common/consensus/raft/node.go:189 | the wrapped unsigned subtraction converted to int is the true difference of two positions below 2^63 |
| `RaftLog.PanicsExactlyOnGap` | common/consensus/raft/node.go:178-207 | a Ready panics if and only if its entries start above the last index plus one of a non-empty log |
| `RaftLog.EarlierBranchIsDead` | common/consensus/raft/node.go:191-193 | under the library's promise the offset is never negative and never past the end |
| `RaftLog.StoreRefines` | common/consensus/raft/node.go:178-209 | storing keeps the positions below the first new one, installs the new range and drops everything above, as an operation on the index-to-entry map |
| `RaftLog.CompactRefines` | common/consensus/raft/node.go:212-225 | installing a snapshot drops exactly the positions up to its own and leaves the rest contiguous right above it |
| `RaftLog.StepRefines` | common/consensus/raft/node.go:170-226 | one Ready the library supplies keeps the storage invariant and acts on the map as overwrite then compact |
| `RaftLog.ReadyOnEntries` | common/consensus/raft/node.go:178-226 | after one supplied Ready an entry is stored iff it was stored below the first new one or is new, and lies above the snapshot |
| `RaftLog.EarlierEntriesReplaceLog` | common/consensus/raft/node.go:191-193 | entries that start before the whole log, which the library does not supply, replace it |
| `RaftLog.RunRefinesMap` | common/consensus/raft/node.go:170-226 | over every run of supplied Readys the gap panic is never reached, the log stays contiguous above the snapshot, and it holds what the same run on the map holds |
| `RaftLog.ViewIsMembership` | common/consensus/raft/node.go:306-313 | the map of a contiguous log holds exactly the stored entries, each under its own index |
| `RaftLog.SliceIsView` | common/consensus/raft/node.go:333-338 | a slice computed by subtracting the first index holds the map's entries of those positions |
| `RaftLog.SnapshotReadyOutcome` | common/consensus/raft/node.go:178-226 | a Ready with a snapshot and the entries after it panics iff the snapshot is past the end of a non-empty log, and otherwise leaves exactly those entries |
| `RaftLog.RunOutcome` | common/consensus/raft/node.go:170-226 | over every run that mixes such Readys with those that continue the log, the handler panics iff some snapshot with entries jumps past a non-empty log; otherwise the log ends well formed and equal to the map run |
| `RaftLog.SnapshotPastLogPanics` | common/consensus/raft/node.go:203-206 | a concrete log and Ready that panic |
| `RaftLog.PageIsLongest` | common/consensus/raft/node.go:340-349 | a page is a prefix of its range, never empty for a non-empty one, more than one entry only if they fit, and no longer prefix fits |
| `RaftLog.PagesReassemble` | common/consensus/raft/node.go:316-350 | pages each asked for where the ones before stopped join to a prefix of the range, with at most one page per entry |
| `RaftNode.ReadAll` | common/consensus/raft/node.go:316-350 | calling `Entries` again from where each page stopped ends after at most one request per entry and has read exactly the positions asked for |
| `RaftNode.MemoryStorage.Entries` | common/consensus/raft/node.go:316-350 | each page is a prefix of the clamped range, non-empty for a non-empty range, maximal within the size limit; compacted, unavailable and run-time-panic cases exactly |
| `RaftNode.MemoryStorage.FirstIndex` | common/consensus/raft/node.go:353-363 | always one above the snapshot, below or at every stored index |
| `RaftNode.MemoryStorage.LastIndexOf` | common/consensus/raft/node.go:374-383 | the stored indices are exactly those above the snapshot up to this one |
| `RaftLog.SnapshotIsLastInstalled` | common/consensus/raft/node.go:212-225 | after every supplied run the stored snapshot, which `Snapshot` returns, is the last one installed and the furthest; the initial one iff none was |
| `RaftNode.MemoryStorage.Term` | common/consensus/raft/node.go:398-426 | the map's term on every stored index, errors outside; the snapshot's index is answered iff the log is empty |
| `RaftNode.RaftNode.HandleReady` | common/consensus/raft/node.go:170-303 | when it panics and what it leaves behind then; otherwise the new log, the snapshot message and the committed commands, the outbox, membership and when it is stored, leadership and the Advance call |
| `RaftNode.RaftNode.StoreNew` | common/consensus/raft/node.go:178-209 | the in-place store realises the four-way branch |
| `RaftNode.RaftNode.InstallSnapshot` | common/consensus/raft/node.go:212-236 | the filter loop keeps exactly the entries above the snapshot, and one snapshot message is sent |
| `RaftNode.RaftNode.ApplyCommitted` | common/consensus/raft/node.go:244-283 | the loop sends the delivered entries in order and tracks the membership; the stored configuration changes iff some change decodes |
| `RaftApply.CommandsIndependentOfReadys` | common/consensus/raft/node.go:228-283 | however committed entries are cut into Readys, the commands sent are those of the whole committed log |
| `RaftApply.AppliedExactlyOnceInOrder` | common/consensus/raft/node.go:244-283 | a command is sent iff it is the data, index and term of a committed entry that is a non-empty normal one or a configuration change that decodes; at strictly increasing indices, hence once each |
| `RaftApply.MembershipFollowsChanges` | common/consensus/raft/node.go:258-283 | the membership is the given one after one library call per decodable configuration change, in order, each on what the one before returned; it is stored iff there was one |
| `RaftApply.SnapshotComesFirst` | common/consensus/raft/node.go:228-283 | the stream of a Ready is its snapshot message, if it has a snapshot, and then its commands |
| `RaftApply.PrefixLogsGivePrefixStreams` | common/consensus/raft/node.go:244-283 | a longer committed log extends the applied stream |
| `RaftApply.NodesApplyTheSameCommands` | common/consensus/raft/node.go:228-283 | two nodes with prefix-related committed logs apply prefix-related command streams, whatever Readys they saw |
| `Strategy.CalculateNodeScore` | internal/metaserver/core/cluster/rebalance/strategy.go:218-238 | the loop computes the weighted sum of CPU, gigabytes, disk and shards relative to the cluster's average, or zero shards part without any |
| `Strategy.Evaluate` | internal/metaserver/core/cluster/rebalance/strategy.go:73-116 | the verdict is the threshold test on mean and variance of the loads, 20 per cent unless a positive threshold was given; fewer than two nodes are never unbalanced |
| `Strategy.ExceedsIsScoreAboveThreshold` | internal/metaserver/core/cluster/rebalance/strategy.go:98-115 | the root-free test equals root of variance over mean times 100 above the threshold |
| `Strategy.SortByLoad` | internal/metaserver/core/cluster/rebalance/strategy.go:141-144 | a permutation in descending order of load |
| `Strategy.GeneratePlan` | internal/metaserver/core/cluster/rebalance/strategy.go:119-215 | the plans are those of some descending order of the same nodes; an error exactly below two nodes |
| `Strategy.MoveSizes` | internal/metaserver/core/cluster/rebalance/strategy.go:171-189 | how many shards each strategy moves, in whole numbers, for every pair of counts; at least one even from an empty source |
| `Strategy.PlansGoDownhill` | internal/metaserver/core/cluster/rebalance/strategy.go:149-212 | the i-th heaviest node gives to the i-th lightest, strictly lighter, the right number of shards at priority 10 - i, exactly while pairs are left and their loads lie far enough apart |
| `Strategy.PlansAreLeadingPairs` | internal/metaserver/core/cluster/rebalance/strategy.go:156-164 | passing over a close pair is stopping: the plans are those of the first k pairs with priorities 10, 9, ... |
| `Strategy.PlansUseNodesOnce` | internal/metaserver/core/cluster/rebalance/strategy.go:149-158 | every node is in at most one plan; at most ceil(n/3) plans, two for access frequency |
| `Strategy.PrioritiesDocumentedIff` | internal/metaserver/core/cluster/rebalance/strategy.go:32 | priorities are within 1 to 10 iff there is no eleventh pair or its gap is below the planner's limit; always up to thirty nodes |
| `Strategy.PriorityZeroBeyondThirty` | internal/metaserver/core/cluster/rebalance/strategy.go:316-355 | for every larger size some cluster gets a plan of priority zero |
| `Strategy.TopPairIsPlanned` | internal/metaserver/core/cluster/rebalance/strategy.go:161-164 | a planner returns nothing iff the widest gap is below its limit |
| `Strategy.MeanScoreDecomposes` | internal/metaserver/core/cluster/rebalance/strategy.go:218-238 | with any shard in the cluster the mean default score is 20 plus the weighted means of the other metrics |
| `Strategy.NeededRebalanceIsPlanned` | internal/metaserver/core/cluster/rebalance/strategy.go:73-215 | with the default weights, non-negative metrics and a shard in the cluster, a needed rebalance yields at least one plan, in whatever orders maps are visited and ties sorted |
| `Strategy.IdleClusterNeedsButPlansNothing` | internal/metaserver/core/cluster/rebalance/strategy.go:73-215 | without shards that fails: a concrete cluster is judged unbalanced and gets no plan |
| `Strategy.VerdictIgnoresScale` | internal/metaserver/core/cluster/rebalance/strategy.go:85-104 | scaling all loads by a positive factor changes no verdict |
| `Statistics.ScaledLoads` | internal/metaserver/core/cluster/rebalance/strategy.go:85-104 | scaling all loads scales the mean, and the variance by the square, so the score stays |
| `Statistics.VarianceOfPermutation` | internal/metaserver/core/cluster/rebalance/strategy.go:80-96 | mean and variance do not depend on the order in which the map is visited |
| `Statistics.ImbalanceAtMostAllOnOneNode` | internal/metaserver/core/cluster/rebalance/strategy.go:264-283 | for non-negative loads the squared score is at most (n - 1) times 100 squared |
| `Statistics.NoImbalanceIffAllEqual` | internal/metaserver/core/cluster/rebalance/strategy.go:264-283 | the score is zero iff all loads are equal |
| `Rounds.WeightedMoveNarrowsIff` | internal/metaserver/core/cluster/rebalance/strategy.go:171-189 | the weighted move is at least one, and at most half the gap iff the source has two shards more than the target |
| `Rounds.RoundLowersSquares` | internal/metaserver/core/cluster/rebalance/strategy.go:156-212 | a round of disjoint narrowing plans keeps the shard total and lowers the sum of squares by two per plan |
| `Rounds.PlanTakesEffect` | internal/metaserver/core/cluster/rebalance/strategy.go:202-209 | each plan shows in full at its two nodes and no source ends below its target |
| `Rounds.BystanderKeepsCount` | internal/metaserver/core/cluster/rebalance/strategy.go:202-209 | a node outside all plans keeps its shards |
| `Rounds.WeightedRoundBalances` | internal/metaserver/core/cluster/rebalance/strategy.go:119-215 | one weighted round with the two-shard guard conserves the total, leaves no source below its target and strictly lowers the squares |
| `Rounds.RoundsComeToAnEnd` | internal/metaserver/core/cluster/rebalance/strategy.go:119-215 | weighted rounds planned one after the other from the counts they find, each with the two-shard guard, number at most half the initial sum of squares, whatever metrics they meet |
| `Rounds.LighterSourceStillGives` | internal/metaserver/core/cluster/rebalance/strategy.go:187-189 | without the guard a node with one shard is planned to give it to one with two |
| `Migrator.Migrator.SubmitTasks` | internal/metaserver/core/cluster/rebalance/migrator.go:89-128 | every task is recorded; those that find room in the queue of a hundred are pending and queued in order, the others have failed; the same as storing and offering one by one |
| `Migrator.QueueIsFifo` | internal/metaserver/core/cluster/rebalance/migrator.go:159-175 | tasks leave the queue in the order they entered it, whatever else happens |
| `Migrator.Migrator.CancelTask` | internal/metaserver/core/cluster/rebalance/migrator.go:264-283 | succeeds iff the task is pending or running, and then only marks it failed; the pool's check step followed by its write step |
| `Migrator.Migrator.GetAllActiveTasks` | internal/metaserver/core/cluster/rebalance/migrator.go:142-156 | returns each pending or running task exactly once |
| `Migrator.Migrator.ProcessTask` | internal/metaserver/core/cluster/rebalance/migrator.go:177-212 | undisturbed, a task completes iff it has shards and the context outlasts them, completed means all moved, and it is a run of the pool's steps by one worker |
| `Migrator.Migrator.ExecuteMigration` | internal/metaserver/core/cluster/rebalance/migrator.go:215-261 | success iff every shard of a non-empty plan was moved before the context's end was noticed, as a run of the worker's steps |
| `Migrator.RunKeepsInv` | internal/metaserver/core/cluster/rebalance/migrator.go:57-283 | in every interleaving no task is in two places, none returns to the queue, and nothing active is nowhere |
| `Migrator.ExecutedAtMostOnce` | internal/metaserver/core/cluster/rebalance/migrator.go:159-212 | no task is executed twice or held by two workers; completed implies all shards of a non-empty plan moved |
| `Migrator.ActiveTasksAreBounded` | internal/metaserver/core/cluster/rebalance/migrator.go:53-66 | pending and running tasks number at most the queue capacity, the workers and the submissions in progress |
| `Migrator.SettledForever` | internal/metaserver/core/cluster/rebalance/migrator.go:89-283 | a task neither submitted, queued nor held is completed or failed for ever, and unchanged unless a cancel had already found it active |
| `Migrator.FailedIsFinalIff` | internal/metaserver/core/cluster/rebalance/migrator.go:177-212 | in every reachable pool a cancelled or otherwise failed task stays failed in every continuation iff it is not on its way to a worker that is left, nor with a worker that can still start, finish or complete it |
| `Migrator.CancelledTaskCompletes` | internal/metaserver/core/cluster/rebalance/migrator.go:264-283 | a concrete run completes a cancelled task |
| `RebalanceGate.Manager.EvaluateAndRebalance` | internal/metaserver/core/cluster/rebalance/manager.go:178-239 | an undisturbed call goes ahead iff no round is under way and none was dated less than the interval ago; it then dates the round if one is needed, and submits iff there are plans |
| `RebalanceGate.RoundOutcome` | internal/metaserver/core/cluster/rebalance/manager.go:178-261 | an admitted and needed round dates itself even without plans, and submits iff there are plans; any other call changes nothing |
| `RebalanceGate.RoundsAreSoloAndSpaced` | internal/metaserver/core/cluster/rebalance/manager.go:178-261 | for any number of concurrent callers at most one is inside, and any two submissions are at least the minimum interval apart |
| `RebalanceGate.GateOpensIff` | internal/metaserver/core/cluster/rebalance/manager.go:178-208 | in every run with nobody inside, the next caller gets in iff no round was ever dated or the interval has passed since the last one |
| `RateLimit.RateLimiter.Sweep` | internal/metaserver/server/middleware/rate_limit.go:22-42 | one sweep keeps exactly the active times and forgets clients without any |
| `RateLimit.SweepForgets` | internal/metaserver/server/middleware/rate_limit.go:22-42 | after a sweep exactly the clients with a time younger than the window are left, with exactly those times |
| `RateLimit.RateLimiter.Request` | internal/metaserver/server/middleware/rate_limit.go:45-73 | one request is one step of the limiter's state machine |
| `RateLimit.PrunedDecidesLikeReference` | internal/metaserver/server/middleware/rate_limit.go:22-78 | in every interleaving of requests and sweeps, every decision equals that of a limiter that keeps all admissions |
| `RateLimit.AtMostLimitPerWindow` | internal/metaserver/server/middleware/rate_limit.go:62-72 | any half-open interval of window length contains at most limit admissions of a client |
| `RateLimit.RejectionMeansFullWindow` | internal/metaserver/server/middleware/rate_limit.go:62-69 | a request is rejected iff the last window already contains limit admissions, and then exactly limit |
| `Heartbeat.Manager.RegisterNode` | internal/metaserver/core/cluster/heartbeat/manager.go:90-102 | a silent reset to healthy |
| `Heartbeat.Manager.RecordHeartbeat` | internal/metaserver/core/cluster/heartbeat/manager.go:114-144 | healthy from now on, announced iff it was not healthy or not known |
| `Heartbeat.Manager.CheckHeartbeats` | internal/metaserver/core/cluster/heartbeat/manager.go:222-253 | one tick is a check step per node, in some order, each once |
| `Heartbeat.Manager.CheckNode` | internal/metaserver/core/cluster/heartbeat/manager.go:226-251 | the in-place check is the node's check step, with its announcement |
| `Heartbeat.Manager.CleanupDeadNodes` | internal/metaserver/core/cluster/heartbeat/manager.go:267-280 | one tick is a cleanup step per node, in some order, each once, and forgets exactly the expired nodes |
| `Heartbeat.TickChecksEveryNode` | internal/metaserver/core/cluster/heartbeat/manager.go:226-251 | in whatever order a tick visits the nodes, each is checked once against the same reading |
| `Heartbeat.MonitoredIff` | internal/metaserver/core/cluster/heartbeat/manager.go:90-144 | in every run a node is monitored iff it was registered or heard of and since then neither unregistered nor cleaned up dead after three times DeadTimeout |
| `Heartbeat.StatusIsDeterminedByTrace` | internal/metaserver/core/cluster/heartbeat/manager.go:113-144 | in every run a node is suspect or dead iff a check since its last heartbeat saw silence above SuspectTimeout, and dead iff a later one saw silence above DeadTimeout; failure count zero or one |
| `Heartbeat.PunctualNodeStaysHealthy` | internal/metaserver/core/cluster/heartbeat/manager.go:232-242 | in every run, a node whose heartbeats are at most SuspectTimeout apart is never suspected, at any point; checks may have read their clock before a heartbeat that took the lock first |
| `Heartbeat.SelfStaysHealthy` | internal/metaserver/core/cluster/heartbeat/manager.go:227-230 | this node never suspects itself |
| `Heartbeat.DeadOnlyFromSuspect` | internal/metaserver/core/cluster/heartbeat/manager.go:243-250 | a node becomes dead only from suspect, by a check after silence above DeadTimeout |
| `Heartbeat.ForgottenOnlyAfterLongSilence` | internal/metaserver/core/cluster/heartbeat/manager.go:271-277 | the cleanup forgets only a dead node silent for more than three times DeadTimeout |
| `Heartbeat.SilentNodeIsDeadInTime` | internal/metaserver/core/cluster/heartbeat/manager.go:214-282 | with checks at least every d, a silent node is dead or gone by its last heartbeat + max(SuspectTimeout, DeadTimeout) + 2d |
| `Heartbeat.MirrorStaysInStep` | internal/metaserver/core/cluster/manager.go:235-243 | at every step handling the queued changes gives the detector's status for every node whose latest change was announced; the channel stays within capacity |
| `Heartbeat.MirrorIsRightIff` | internal/metaserver/core/cluster/heartbeat/manager.go:90-102 | in every run the drained mirror gives a monitored node's status iff its latest change was announced or the last thing announced of it was healthy: silent registration is the only gap |
| `Heartbeat.SilentResetLeavesMirrorBehind` | internal/metaserver/core/cluster/heartbeat/manager.go:90-102 | a concrete run: after a silent reset the mirror says dead of a healthy node with nothing queued |
| `EventLoop.BlockedExactlyWhenStuck` | internal/metaserver/core/cluster/manager.go:165-192 | neither detector nor event loop can go on iff the lock holder waits for a full channel while the loop waits for the lock |
| `EventLoop.StuckForever` | internal/metaserver/core/cluster/heartbeat/manager.go:224-253 | that state is never left, whoever is elected |
| `EventLoop.FollowerNeverWaits` | internal/metaserver/core/cluster/manager.go:251-268 | as long as this node is not elected the loop never waits for the lock, whatever was announced |
| `EventLoop.LeaderCanAlwaysGetStuck` | internal/metaserver/core/cluster/manager.go:251-259 | from every state in which this node leads, or the loop already waits, a stuck one can still be reached, even with every change announced on its own |
| `EventLoop.StuckReachableIffLeading` | internal/metaserver/core/cluster/manager.go:251-268 | in every reachable state, without a later election, a stuck one can be reached iff this node leads now or the loop already waits for the lock |
| `ClusterManager.ClusterManager.HandleLeaderChange` | internal/metaserver/core/cluster/manager.go:195-232 | records the leader, empties the cache, forwards the change unless the channel is full |
| `ClusterManager.ClusterManager.HandleNodeStateChange` | internal/metaserver/core/cluster/manager.go:235-269 | updates the mirror, takes exactly the node's entry out of the cache, unregisters a dead node only as leader after a successful removal |
| `ClusterManager.ClusterManager.UnregisterNode` | internal/metaserver/core/cluster/manager.go:345-353 | takes exactly the node out of the detector and the cache |
| `ClusterManager.ClusterManager.GetNodeInfo` | internal/metaserver/core/cluster/manager.go:535-566 | a fresh cache entry is returned as it is; otherwise built from the current status and leader and remembered; unknown nodes give nothing |
| `ClusterManager.ClusterManager.ListNodes` | internal/metaserver/core/cluster/manager.go:434-475 | every monitored node once, in some order, answered and remembered in turn |
| `ClusterManager.FlagsAgreeOnceLeaderKnown` | internal/metaserver/core/cluster/manager.go:195-232 | from the first handled leader change on, every cached leader flag agrees with the known leader |
| `ClusterManager.ListingShowsOneLeader` | internal/metaserver/core/cluster/manager.go:434-475 | no listing taken then shows two leaders |
| `SplitQueries.WriteBackIsRightIff` | internal/metaserver/core/cluster/manager.go:492-503 | with the leader read and the write-back apart, what is cached is right iff the query read the present leader or the node is neither of the two |
| `SplitQueries.FlagsStayIff` | internal/metaserver/core/cluster/manager.go:446-468 | until the next leader change every cached flag agrees with the leader, whatever queries do, iff all do now and no open query that read another leader has either of the two leaders still to write |
| `SplitQueries.WrongFlagsExpire` | internal/metaserver/core/cluster/manager.go:478-503 | once no such query is open, only entries of before can be wrong, and none is served later than the TTL after the newest of them |
| `SplitQueries.TermIsCleanIff` | internal/metaserver/core/cluster/manager.go:195-232 | in every run, once a leader change is handled: the flags stay right for its term iff no query open then is of that kind, and no listing begun in the term shows two leaders iff none has the old leader it read still to write |
| `SplitQueries.QuietChangeIsClean` | internal/metaserver/core/cluster/manager.go:195-232 | if no query was open when the leader was stored, the term is clean from the clearing of the cache on |
| `SplitQueries.NewListingsShowOneLeaderIff` | internal/metaserver/core/cluster/manager.go:434-475 | with no false leader cached, no query begun before the next leader change shows two leaders iff no open query has the other leader it read still to write |
| `SplitQueries.MisleadingQueryShowsTwoLeaders` | internal/metaserver/core/cluster/manager.go:446-468 | from any state with such a query open, a listing begun afterwards can show two leaders |
| `SplitQueries.ServedStatusAgeIff` | internal/metaserver/core/cluster/manager.go:478-503 | if entries are dated at most d after their query read the statuses, every served status was read less than the TTL and e before, in every run, iff d <= e |
| `ClusterManager.ReturnedStatusHeldRecently` | internal/metaserver/core/cluster/manager.go:478-503 | with a query as one step, every returned status was the node's status at a moment less than the cache TTL ago |
| `ClusterManager.ChangeIsSeen` | internal/metaserver/core/cluster/manager.go:245-248 | with a query as one step, whatever is returned for a node after a change of it was handled was its status when a query asked after that |
| `SplitQueries.ChangeIsSeenIff` | internal/metaserver/core/cluster/manager.go:245-248 | from every state, after a change was handled the cache serves only statuses read after that, whatever queries do, iff no query had read one before that it may still write |
| `Paths.CleanIsIdempotent` | internal/metaserver/server/store.go:101 | cleaning a cleaned path changes nothing, for every string |
| `Paths.CleanOneMore` | internal/metaserver/server/store.go:101 | a further name is added to the components, ".." takes it away again, "." and a trailing slash change nothing |
| `Paths.CleanAboveStart` | internal/metaserver/server/store.go:101 | ".." stops at the root and is kept at the start of a relative path |
| `Paths.DirOfDirectoryIsItself` | internal/metaserver/server/store.go:301-317 | the parent computed for a slash-terminated directory path is that directory |
| `Paths.ParentKeyOfFile` | internal/metaserver/server/store.go:269-272 | the parent key of a file is the directory key of its components but the last |
| `Paths.BaseOfKeys` | internal/metaserver/server/store.go:328-330 | the default name is the last component, for files and for slash-terminated directories |
| `Paths.KeyPrefixIsDescent` | internal/metaserver/server/store.go:369 | string prefix of directory keys is component-wise descent |
| `Paths.SlashesCountLevels` | internal/metaserver/server/store.go:245 | the slashes after a directory's key count the levels below it |
| `MemoryStore.MemoryStore.CreateFile` | internal/metaserver/server/store.go:92-132 | which outcome when, and on success exactly the new record with its name and size |
| `MemoryStore.MemoryStore.DeleteFile` | internal/metaserver/server/store.go:182-202 | removes exactly the cleaned path, or reports why not |
| `MemoryStore.MemoryStore.CreateDirectory` | internal/metaserver/server/store.go:293-337 | outcome and new store of creating a directory |
| `MemoryStore.MemoryStore.DeleteDirectory` | internal/metaserver/server/store.go:340-420 | outcome of every case; on success everything whose key starts with the directory's is gone, otherwise nothing changed |
| `MemoryStore.MemoryStore.ListDirectory` | internal/metaserver/server/store.go:205-290 | each match at most once; all of them if there is no limit or it was not reached; never more than the limit |
| `MemoryStore.ListedEntries` | internal/metaserver/server/store.go:250-284 | the entries carry the recorded names, paths and sizes of the matching directories and then of the matching files |
| `MemoryStore.ListingCount` | internal/metaserver/server/store.go:228-268 | a listing has as many entries as there are matches, or as the limit allows if that is fewer |
| `MemoryStore.PrefixTestsMeanDescent` | internal/metaserver/server/store.go:369-385 | on tree-shaped stores the two prefix tests mean at or below the directory |
| `MemoryStore.DeleteRemovesSubtree` | internal/metaserver/server/store.go:340-420 | a successful delete removes exactly the directory and its descendants and leaves a tree; without recursion just the directory |
| `MemoryStore.RecursiveListingIsSubtree` | internal/metaserver/server/store.go:228-287 | a recursive listing matches exactly the proper descendants, and at the root also a file named "/" |
| `MemoryStore.PlainListingIsChildren` | internal/metaserver/server/store.go:228-287 | a plain listing matches exactly what has the directory as parent; a file named "/" has the root |
| `MemoryStore.PlainDeleteIffListingEmpty` | internal/metaserver/server/store.go:364-393 | a non-recursive delete of an existing directory succeeds iff its recursive listing is empty |
| `MemoryStore.PlainDeleteIffNothingBelow` | internal/metaserver/server/store.go:364-393 | in tree terms, iff nothing lies below |
| `MemoryStore.CreateDirectorySucceedsOnlyForMissingRoot` | internal/metaserver/server/store.go:313-320 | creation succeeds iff the store is initialised, the path is the root and the root is missing |
| `MemoryStore.CreateFileSucceedsOnlyInRoot` | internal/metaserver/server/store.go:109-115 | on slash-terminated directory keys creation succeeds iff the name is new and its path.Dir is the root, which the path "/" itself meets |
| `MemoryStore.ReachableStoresAreTrees` | internal/metaserver/server/store.go:92-420 | every reachable store is tree-shaped, so what is proved of trees holds of every run |
| `MemoryStore.ReachableStoresAreFlat` | internal/metaserver/server/store.go:92-420 | in every run no directory but the root exists and every file but one named "/" is directly under it; all are iff "/" is no file |
| `MemoryStore.RootCanBeAFile` | internal/metaserver/server/store.go:109-115 | in every initialised run without it, a file named "/" can be created beside the root directory and is then listed inside it |
| `Locks.Manager.TryLock` | internal/metaserver/core/metadata/lock/manager.go:132-155 | a free path is taken; a held one is never changed and granted only as `Grants` says |
| `Locks.Manager.Unlock` | internal/metaserver/core/metadata/lock/manager.go:114-129 | undisturbed, removes the caller's lock or nothing |
| `Locks.Manager.CleanupExpiredLocks` | internal/metaserver/core/metadata/lock/manager.go:69-81 | removes exactly the locks older than the timeout |
| `Locks.Manager.Lock` | internal/metaserver/core/metadata/lock/manager.go:89-111 | at most 302 tries when every wait lasts 100 ms, acquired iff the last try was granted, and 302 is reached |
| `Locks.LockStaysAsAcquired` | internal/metaserver/core/metadata/lock/manager.go:132-164 | in every run a lock stays exactly as it was acquired until it is removed: no try upgrades, extends or takes it over, and whoever else comes to hold the path bears the owner's name and reads |
| `Locks.LocksAreExclusive` | internal/metaserver/core/metadata/lock/manager.go:63-155 | with one client per name and no lock outliving its timeout, in every interleaving no release deletes another owner's lock, and no two clients hold a path if no client tries a path it holds |
| `Locks.ExclusiveIffOneClientPerName` | internal/metaserver/core/metadata/lock/manager.go:159-164 | as long as nothing expires and no client tries a path it holds, no two clients ever hold a path iff no two clients share a name |
| `Locks.SecondReadBreaksExclusionIff` | internal/metaserver/core/metadata/lock/manager.go:115-152 | after any good run, a second try by the holder and one release let another client onto the path iff it reads again what it holds for reading |
| `Locks.ReleasesOwnIff` | internal/metaserver/core/metadata/lock/manager.go:115-128 | as long as nothing expires, no release ever deletes another owner's lock iff no two clients share a name or all do |
| `Locks.SweepBreaksExclusionIffExpired` | internal/metaserver/core/metadata/lock/manager.go:71-81 | after any good run, a sweep and a try put a second client on a held path iff the lock has outlived the timeout |

## Left out

- The raft library, message transport, and decoding of configuration changes: only what the handler passes to and gets from them.
- Positions of 2^63 and more, and a page payload of 2^64 bytes and more, where the unsigned sums would wrap.
- Floating-point rounding, plan identifiers, placeholder shard identifiers and estimated bytes.
- The composite strategy, which forwards to one of the three and selects none when all scores are zero.
- Aliasing of the log's backing array by `append`: readers get copies, so the log is a sequence value.
- A sender waiting on the full channel holds the detector's lock: `Heartbeat` shows the state once the send has happened; the waiting itself is in `EventLoop`.
- ReturnedStatusHeldRecently: takes a query as one step; how old a status can be as queries really run is `SplitQueries.ServedStatusAgeIff`.
- The detector's heartbeat sender, node metrics attached to listings, and timestamps in answers: I/O, or copied through unchanged.
- The worker pool's progress percentage, start and end times and error texts; the percentage follows from the shards moved.
- Directory entries' child counts, file contents, metadata updates and timestamps in the store.
- Locks' retry loop inside the interleaving model: `Locks.Manager.Lock` is proved for one caller with arbitrary surroundings, the interleaving for single tries.
- Election manager, HTTP layers, client-address extraction, configuration, transactions, permissions, logging and metrics.
