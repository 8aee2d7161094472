# megamon: the up/down event log, verified

megamon watches TPU workloads on Kubernetes. For every JobSet, node pool, slice and so on it keeps a log of up and
down events in an object store and reports up time, down time, interruptions, recoveries and their means. This project
models that engine in Dafny and proves what its numbers mean, over every stream of observations and every run.

| file | what it models |
|---|---|
| `Wrappers.dfy` | `Option` and `Result` |
| `MachineInts.dfy` | 32- and 64-bit integers, `time.Duration` and the saturating `time.Time.Sub` |
| `Events.dfy` | the log of one resource: `AppendUpEvent` and `Summarize`, as a class whose methods update it |
| `SummaryLaws.dfy` | laws of the summary on every log: conservation, attribution, bounds, continuity, pairing |
| `Streams.dfy` | the deduplicated log against the raw stream of observations |
| `UpnessThreshold.dfy` | when a resource counts as up |
| `StateChanges.dfy` | one round of observations of all resources of a kind, updating the records in place |
| `Runs.dfy` | whole runs of rounds, and which logs can arise at all |
| `EventLog.dfy` | the in-memory observed store and the read-modify-write on a store that can fail at any call |
| `Retries.dfy` | batches that fail half way and are tried again |
| `Interleaving.dfy` | the node poller and the workload reconciler running at the same time |
| `Aggregation.dfy` | the ticks of the polling and the aggregation loop, and the start-up gate |
| `Kubernetes.dfy`, `SliceReconciler.dfy` | the slice reconciler and its persistent memory of owners |
| `SliceHistory.dfy` | what that memory does for the history of a slice, over whole runs |
| `Topology.dfy`, `Replicas.dfy`, `NodeCounting.dfy` | topology strings, sizes of node pools and JobSets, node counts |
| `NodeOrder.dfy` | when the node counts depend on the order of the node list |
| `Report.dfy` | the join of logs and observations that is reported |
| `Engine.dfy` | both writers, any interleaving and any failures, from an empty bucket to the report |
| `Witnesses.dfy` | concrete inputs for the claims below that something goes wrong |

`dafny verify dfyconfig.toml` checks the whole project.

## Assumptions

Time is an integer number of nanoseconds. A failed `Put` leaves the object as it was, a `Get` returns a fresh copy, and
an absent object reads as the empty map (internal/gcsclient/client.go:29-31). Theorems that need time not to run
backwards, or a history of less than 292 years, say so in their `requires`; the others hold for all time stamps.
Methods whose source iterates over a Go map pick the next key arbitrarily, so their contracts hold for every order.

## What the proofs say about the code

- `Summarize` charges each gap to a state by looking at the later event only. That is right exactly as long as the log
  alternates, that is as long as `failed` and `expectedDown` change only together with `up` (`AlwaysTrueIff`,
  `ClocksAlwaysTrueIff`). `SummaryOfStream` and `TruthfulIff` give the exact error for every other stream, and
  `FailedWhileUp` with `ErrorPoolIsMisreported` a case that three polls produce: a node pool that turns
  `RUNNING_WITH_ERROR` while all its nodes are ready is charged down time it never had and credited with a recovery that
  never happened.
- If a flag changes before a resource is first up, its summary is blank or frozen for as long as the log lives, even
  when the resource comes up later (`UnsteadyStream`, `UnsteadyForever`; `LateStart` shows a case).
- A pool whose own size is zero takes its size from a node, and nodes listed before that one may not be counted
  (`UnsizedPoolNodeCounts`). `OrderFreeIff` says exactly when its counts depend on the order of the node list, and
  `OrderDecidesState` gives a pool that is up in one order and down in the other.
- docs/arch.md calls the reconciler's update of the event log a single atomic batch. Only the update of the in-memory
  store is; the files are written one after the other and a failure leaves the earlier ones written
  (`AppendStateChanges`). The batch is atomic exactly if it alters at most one file (`AtomicIff`); a first reconcile
  can alter two (`FirstReconcileIsTorn`). `RetriesAreHarmless` shows that trying the same observations again repairs
  that up to time stamps.
- `Aggregate` takes `now` before it reads the store, so the last event can be later than `now`. Then the clock of the
  present state lags by that difference, and a resource that has just come up reports a negative up time
  (`EarlyReport`, `EarlyBounds`).
- The comment at internal/controller/workload_reconciler.go:319 says that an entry is deleted when its owner is "gone or
  not terminal"; the code deletes it when the owner is gone or terminal, and so does the model.

## Model

| member | source | states |
|---|---|---|
| Events.EventRecords.Summarize | internal/records/events.go:72-174 | For every log and in the program's 64-bit arithmetic, the loop computes `Summary`: sums over the whole log that the laws below give their meaning |
| Events.EventRecords.AppendUpEvent | internal/records/events.go:176-199 | The log becomes `Appended` of the old one, and the result says whether it changed |
| Events.Appended | internal/records/events.go:176-199 | Old events are never touched and the last event always shows the flags just observed |
| Events.AppendedIs | internal/records/events.go:176-199 | The log stays as it is exactly if all three flags are those of its last event; else the observation is appended, to a new log after a down event with its other two flags |
| MachineInts.SubIsNearest | internal/records/events.go:86-169 | The 64-bit difference of two times is the representable duration nearest to the true one |
| MachineInts.TruncDivIsOdd | internal/records/events.go:153-162 | A negative total is divided like its absolute value: means round toward zero |
| MachineInts.Extremes | internal/records/events.go:123-150 | The extreme 32- and 64-bit values in decimal, and that one step beyond each wraps to the other |
| Events.TallyStep | internal/records/events.go:123-150 | Wrapping after every addition gives the same accumulators as wrapping the sums once |
| Streams.FoldIsDestuttering | internal/records/events.go:176-199 | The log of a stream is the stream, seeded with a down observation, without the elements equal in all flags to their direct predecessor |
| Streams.FoldPreserves | internal/records/events.go:176-199 | Deduplication preserves the time in each state up to any moment, and the numbers of interruptions, recoveries and flag flips |
| Streams.EndToEnd | internal/records/events.go:72-199 | If flags change only together with `up`, the summary of the deduplicated log equals the times and counts read off the raw stream |
| Streams.EndToEndInt64 | internal/records/events.go:72-199 | The same for the 64-bit result when time is ordered and spans less than 292 years |
| Streams.EndToEndTotals | internal/records/events.go:123-170 | So do the totals and means: without the start and the state still open they are the time really spent up or down, and that time divided by the true counts |
| Streams.SummaryOfStream | internal/records/events.go:93-170 | For every stream whose flags are steady until the first `up`: each reported number equals the truth plus a named error term |
| Streams.TruthfulIff | internal/records/events.go:72-199 | For every non-empty stream, exactly when up time, down time, interruptions and recoveries are each the truth; unsteady streams included |
| Streams.ClocksAlwaysTrueIff | internal/records/events.go:72-199 | With strictly increasing times both clocks are true after every observation and at any later time exactly if flags change only together with `up` |
| Streams.UnsteadyStream | internal/records/events.go:93-103 | The first flag change before any `up` decides the whole summary: blank, or frozen as a failed start that lasted until that change |
| Streams.UnsteadyForever | internal/records/events.go:93-103 | From then on no observation and no passing of time changes the summary |
| Streams.LateStart | internal/records/events.go:93-103 | A concrete stream that comes up after such a change: up time, down time and interruptions are all wrong |
| Streams.WellStartedIff | internal/records/events.go:81-103 | A log passes the validity guards exactly if no flag changed before the first `up` |
| Streams.FailedWhileUp | internal/records/events.go:123-135 | A concrete non-alternating log whose summary is wrong |
| Streams.ProvisioningOfStream | internal/records/events.go:86-108 | Provisioning lasts from the first observation to the first one that is up, else until now |
| Streams.CountsDecompose | internal/records/events.go:123-149 | Every counted interruption or recovery is a true transition or a flag flip after the first `up` |
| SummaryLaws.Conservation | internal/records/events.go:86-170 | On every log past the guards up time and down time add up to now minus the first time stamp, and down time to its three parts |
| SummaryLaws.Attribution | internal/records/events.go:105-170 | Up time is wrong by exactly the down-to-down gaps minus the up-to-up gaps after index 1 |
| SummaryLaws.AlternatingIsExact | internal/records/events.go:105-170 | On alternating logs up and down time are the true times in those states |
| SummaryLaws.AlwaysTrueIff | internal/records/events.go:105-170 | The up time is true whenever an event has just been logged exactly on alternating logs, if time passes between events |
| SummaryLaws.AccumulatorsBounded | internal/records/events.go:123-150 | At every loop iteration the accumulators stay within the time read so far, so the 64-bit sums are the exact sums |
| SummaryLaws.LoopNeverWraps | internal/records/events.go:123-150 | After any number of iterations the 64-bit up, down and total times are the exact sums and lie in [0, now - first] |
| SummaryLaws.MachineIsIdeal | internal/records/events.go:72-174 | With ordered time and a span below 2^63 ns no duration saturates or overflows |
| SummaryLaws.SummaryBounded | internal/records/events.go:123-170 | All durations lie in [0, now - first], the means are the rounded-down quotients, and totals vanish without interruptions |
| SummaryLaws.EarlyReport | internal/aggregator/aggregator.go:164-170 | If now is before the last event, the clock of the present state is less by exactly the difference and every other number is as at that event |
| SummaryLaws.EarlyBounds | internal/records/events.go:160-170 | No clock is then below minus that difference or above the time logged, and a resource that just came up shows exactly that negative up time |
| SummaryLaws.LatestIsLast | internal/records/events.go:126-138 | The reported latest down time is the gap before the last up event after index 1, the latest up time that before the last down event, and zero if there is none |
| SummaryLaws.TransitionContinuity | internal/records/events.go:86-199 | Logging a transition moves no clock and counts at most one interruption or recovery, by the expected-down rule |
| SummaryLaws.ClockContinuity | internal/records/events.go:86-170 | As now advances only the component of the current state grows, and nothing after a failed start |
| SummaryLaws.SummaryPairing | internal/records/events.go:123-150 | On alternating logs interruptions exceed recoveries by one exactly while an unexpected outage is open |
| UpnessThreshold.RoundSpec | internal/records/report.go:93 | The rounded bound is the one nearest integer, even at ties |
| UpnessThreshold.MaxUnknownBounds | internal/records/report.go:92-101 | For a valid threshold the bound lies between 0 and the expected count, within one half of the product |
| UpnessThreshold.UpIff | internal/records/report.go:92-101 | For every threshold: a resource is up exactly if its unknown members are at most the integer nearest to expected times threshold, the even one at a tie, and no member is missing |
| UpnessThreshold.UpMonotone | internal/records/report.go:92-101 | Raising the threshold never takes a resource down |
| UpnessThreshold.UpKeptWhenUnknownBecomeReady | internal/records/report.go:92-101 | Unknown members turning ready never take a resource down, wrap-around included |
| UpnessThreshold.UpAtTheEnds | internal/records/report.go:92-101 | At threshold 0 no unknown member is tolerated, at 1 all are |
| StateChanges.AppendStateChangeEvents | internal/records/events.go:201-235 | In any iteration order: exactly the observed keys remain, each log extended by its observation, and true is returned exactly if the map changed |
| StateChanges.BothLoops | internal/records/events.go:206-232 | Extending and deleting compute the round, and neither hides a change made by the other |
| Runs.StoredIsHistory | internal/records/events.go:206-232 | After any run a key is stored exactly if the latest round has it, and its log is that of the maximal suffix of rounds that have it |
| Runs.PresentFor | internal/records/events.go:226-232 | The length of that maximal suffix |
| Runs.StoredIsReachable | internal/records/events.go:176-223 | Every stored log starts down, changes some flag at every event, has ordered times and is never up while expected down |
| Runs.ReachableIsStored | internal/records/events.go:176-223 | Conversely every log of that shape is stored by some run of updates |
| Runs.ReachableIff | internal/records/events.go:201-235 | A log can arise from updates with any counts at ordered times exactly if it has that shape |
| Runs.GaugeAgreesWithLog | internal/metrics/metrics.go:313-318 | After a round the exported gauge of every observed resource is the last logged state |
| EventLog.EventLogImpl.AppendToEventStore | internal/aggregator/events/eventlog.go:53-66 | Success stores the round, unobservably skipping an unchanged write; an error means that exactly one store call failed, and changes nothing |
| EventLog.EventLogImpl.AppendStateChange | internal/aggregator/events/eventlog.go:45-51 | The observation is kept even if storing fails; it succeeds exactly if no store call failed, and then gauge and log agree for every key |
| EventLog.EventLogImpl.AppendStateChanges | internal/aggregator/events/eventlog.go:32-42 | It stops at the first failed store call and only there: each file is wholly old or wholly new, and all are new exactly if no call failed |
| EventLog.AtomicIff | internal/aggregator/events/eventlog.go:32-42 | Wherever the stores stop, the bucket is as before the batch or as after all of it, exactly if the batch alters at most one file |
| EventLog.CurrentObservedStore.UpdateBatch | internal/aggregator/events/observed_store.go:36-45 | Every file of the batch is replaced and no other is touched, in any order |
| EventLog.CurrentObservedStore.IsPopulated | internal/aggregator/events/observed_store.go:63-73 | True exactly if every requested file has been observed |
| Retries.ReconciledTwice | internal/aggregator/events/eventlog.go:53-66 | Storing the same observations again, at any later time, changes nothing |
| Retries.FirstStoreWins | internal/aggregator/events/eventlog.go:32-42 | Of several stores of the same observations only the first counts |
| Retries.EpisodeIsClean | internal/aggregator/events/eventlog.go:32-42 | Failures and retries of one batch end in the states of a store without failures |
| Retries.RetriesAreHarmless | internal/aggregator/events/eventlog.go:32-66 | Over any run, every key of every file has the same sequence of states as in a failure-free run |
| Retries.RetriesAreEpisode | internal/aggregator/events/eventlog.go:32-42 | Handing over the same counts again, at any times, until all files are stored is such an episode |
| Interleaving.RunAgrees | internal/aggregator/aggregator.go:74-82 | In every interleaving each file is as its owner alone would have left it, and pending snapshots stay current |
| Interleaving.CallIsRun | internal/aggregator/events/eventlog.go:53-66 | A read followed by a write or by giving up has exactly the effect that the contract of `AppendToEventStore` promises |
| Interleaving.BatchIsRun | internal/aggregator/events/eventlog.go:32-42 | Every outcome that the contract of `AppendStateChanges` allows is that of a run of such steps, by one writer on the stored files |
| Interleaving.InterleavingIsSerial | internal/controller/workload_reconciler.go:119-136 | Any interleaving of the two writers leaves the store as running one after the other, in either order |
| Interleaving.LostUpdate | internal/aggregator/events/eventlog.go:53-66 | Without disjoint files the later write undoes the other writer's event, and the file is as in neither serial order |
| Aggregation.Aggregator.PollTick | internal/aggregator/aggregator.go:72-83 | A poll tick observes the node pools and stores their round unless the poll or a store call fails, and touches no file of the other writer |
| Aggregation.Aggregator.DeliverReconcile | internal/controller/workload_reconciler.go:119-136 | Each kind of counts becomes the latest observation of its own file and is stored in that file, in all of them exactly if no store call fails; what is disabled and the node pools stay as they are |
| Aggregation.Aggregator.Tick | internal/aggregator/aggregator.go:110-124 | The loop is ready after its first tick and aggregates exactly if latched or populated now |
| Aggregation.LatchIsRecheck | internal/aggregator/aggregator.go:104-124 | The one-shot latch admits exactly the aggregations that checking at every tick would |
| Aggregation.GateOpens | internal/aggregator/aggregator.go:93-124 | A tick aggregates exactly if both a poll and a reconcile have been delivered before it |
| Aggregation.Changes | internal/controller/workload_reconciler.go:119-132 | A reconcile hands over the JobSets always, their nodes without slices, worker sets and slices if enabled, each under its own file, and never the node pools |
| Kubernetes.GetJobSetTerminalState | internal/k8sutils/utils.go:34-44 | The first true terminal condition, and whether there is one |
| Kubernetes.TerminalStateIsFirst | internal/k8sutils/utils.go:34-44 | The first true "Completed", "Failed" or "Suspended" condition gives that very kind; without one there is no terminal state |
| SliceReconciler.GetOwnerStatus | internal/controller/workload_reconciler.go:397-424 | The lookup computes `StatusOf`, lookup errors included |
| SliceReconciler.LowerIs | internal/controller/workload_reconciler.go:402 | Lowering gives a word exactly for its letters in any mixture of cases, Kelvin signs for k included |
| SliceReconciler.ActiveIff | internal/controller/workload_reconciler.go:397-433 | An owner is active exactly if it is fully named, its kind spells "jobset" or "leaderworkerset" in whatever case, and it is found without error and not terminal |
| SliceReconciler.ListedIs | internal/controller/workload_reconciler.go:253-293 | A listed slice is one expected member, ready or unknown as its first "Ready" condition says unless it is being deleted, expected down exactly if its owner is not active |
| SliceReconciler.UnknownIsUpIff | internal/records/report.go:92-101 | A slice whose state is unknown is up exactly if its owner is active and the threshold is above one half |
| SliceReconciler.ProcessSlices | internal/controller/workload_reconciler.go:231-328 | In any iteration order, reported slices and remembered owners are `NextUps` and `NextOwners`; with distinct names the changed flag is exact |
| SliceReconciler.WorkloadReconciler.ReconcileSlices | internal/controller/workload_reconciler.go:326-352 | The saved map is up to date exactly unless a save failed: skipping the save loses nothing |
| SliceReconciler.PruningKeepsChanges | internal/controller/workload_reconciler.go:299-324 | Dropping entries never restores the map that registering changed |
| SliceReconciler.ReportedKeys | internal/controller/workload_reconciler.go:244-324 | The reported slices are exactly the listed and the remembered ones |
| SliceReconciler.UnlistedKeptIff | internal/controller/workload_reconciler.go:299-324 | An unlisted entry is kept, and reported as down, exactly if its owner is active |
| SliceReconciler.ListedRemembered | internal/controller/workload_reconciler.go:244-293 | A listed slice is remembered with its current owner, unless that is wholly empty and the slice was unknown |
| SliceHistory.HistoryKeptIff | internal/controller/workload_reconciler.go:299-324 | A round keeps a slice's history exactly if the slice is listed or its remembered owner is active |
| SliceHistory.HistorySurvives | internal/controller/workload_reconciler.go:244-324 | Over any run whose rounds each list the slice or find its owner, as remembered by then, active, its log only grows; and it is never without a log exactly in such runs |
| SliceHistory.LogsArePrefixes | internal/controller/workload_reconciler.go:244-324 | In such a run each earlier log is a prefix of each later one |
| SliceHistory.OneOwnerKeeps | internal/controller/workload_reconciler.go:244-324 | With one owner throughout, rounds that list the slice or find that owner active make such a run |
| SliceHistory.EndIsExpected | internal/controller/workload_reconciler.go:257-272 | A listed slice whose owner is gone or terminal is logged as an expected down: up time stops and no interruption is counted |
| SliceHistory.OutageLogsTwoEvents | internal/controller/workload_reconciler.go:262-317 | However many rounds an up slice is away while its owner is active, exactly one unexpected down event and one up event are logged |
| SliceHistory.AwayCountsOnce | internal/records/events.go:123-170 | As soon as the slice is away, however many rounds and whether or not it returns, it counts as one interruption and the up time stands still |
| SliceHistory.OutageCountsOnce | internal/records/events.go:123-170 | Once over, it counts as one interruption and one recovery and moves exactly its length from up time to down time, also in 64-bit arithmetic |
| Topology.SplitOfJoin | internal/k8sutils/utils.go:150 | Splitting undoes joining for parts without the separator |
| Topology.GetTpuTopologyToChipCount | internal/k8sutils/utils.go:148-163 | The loop computes `ChipCount`, failures included |
| Topology.ValueOfDecimal | internal/k8sutils/utils.go:156 | Reading undoes writing: the value of the decimal digits of a number is that number |
| Topology.LeadingZero | internal/k8sutils/utils.go:156 | A leading zero does not change the value |
| Topology.AtoiOfDecimal | internal/k8sutils/utils.go:156 | Decimal numbers are read with or without a sign exactly if they fit 64 bits |
| Topology.AtoiRejects | internal/k8sutils/utils.go:156 | Nothing else than digits after an optional sign is read |
| Topology.TopologyOf | internal/k8sutils/utils.go:148-163 | Two or more numbers written in decimal with "x" between them are read as their product |
| Topology.ChipCountIff | internal/k8sutils/utils.go:148-163 | Exactly the strings that spell two or more integers joined by "x" are read at all, as the wrapped product |
| Topology.MachineChipsOf | internal/aggregator/utils/utils.go:136-152 | The decimal number after the last dash of a machine type is its chip count, with or without a "t" |
| Topology.MachineChipsIff | internal/aggregator/utils/utils.go:136-152 | A machine type has a chip count exactly if a positive integer follows its last dash |
| Topology.GetExpectedTPUNodePoolSize | internal/aggregator/utils/utils.go:104-134 | The separate parsing loop agrees with `ChipCount` on value and on failure |
| Topology.GetExpectedNodeSize | internal/k8sutils/utils.go:118-146 | The size from a node's labels follows the same rule |
| Topology.PoolSizeFits | internal/aggregator/utils/utils.go:132-133 | The size is the largest number of machines whose chips fit the topology |
| Replicas.GetJobSetReplicas | internal/k8sutils/utils.go:51-64 | Adding in 32 bits gives the wrapped totals of specified and of ready replicas |
| Replicas.GetExpectedNodeCount | internal/k8sutils/utils.go:82-94 | The same for the nodes, replicas times parallelism with 1 as default |
| Replicas.OneMoreJob | internal/k8sutils/utils.go:51-94 | One more replicated job adds its replicas, and as many nodes on each as its parallelism says, or one |
| Replicas.OneMoreReady | internal/k8sutils/utils.go:59-61 | One more status adds its ready replicas |
| NodeCounting.ProcessJobSets | internal/controller/workload_reconciler.go:144-204 | The loops compute the JobSet observations and count the nodes one after the other |
| NodeCounting.JobSetUpsAt | internal/controller/workload_reconciler.go:152-172 | A JobSet is up exactly if as many replicas are ready as specified and it has not completed; expected down and failed follow its first terminal condition |
| NodeCounting.PollResources | internal/aggregator/poller/node_poller.go:43-117 | The loops compute the pool observations and count the nodes, sizing unsized pools on the way; a failed list call fails the poll |
| NodeCounting.JobSetKeys | internal/controller/workload_reconciler.go:152-178 | Exactly the listed JobSets are reported, in both maps |
| NodeCounting.JobSetNodeCounts | internal/controller/workload_reconciler.go:148-200 | The counts of a JobSet are the numbers of ready and unknown nodes labelled with it, and its nodes are neither failed nor expected to be down |
| NodeCounting.JobSetNodesUpIff | internal/records/report.go:92-101 | The nodes of a JobSet are logged as up exactly if all expected ones are labelled with it and ready or unknown, the unknown ones within the tolerated share |
| NodeCounting.PoolKeys | internal/aggregator/poller/node_poller.go:54-90 | Exactly the pools are reported whose topology and machine type can both be read |
| NodeCounting.PoolSizeIs | internal/aggregator/utils/utils.go:104-134 | The size of a pool is the largest number of its machines whose chips fit the product of the sides of its topology |
| NodeCounting.NodeSizeIs | internal/k8sutils/utils.go:118-146 | The same size from the labels of a node |
| NodeCounting.PoolNodeCounts | internal/aggregator/poller/node_poller.go:54-112 | The counts of a pool of known non-zero size are the numbers of its ready and unknown TPU nodes by label, its flags follow its status |
| NodeCounting.UnsizedPoolNodeCounts | internal/aggregator/poller/node_poller.go:95-109 | A pool of size zero takes the size of its first node that tells one; before that, or if there is none, it counts only nodes from which some size can be read |
| NodeCounting.CountsAreExact | internal/aggregator/poller/node_poller.go:95-109 | For every key and any starting counts: the counts rise by the heeded nodes modulo 2^32, and the size is that of `SizeAfter` |
| NodeCounting.FirstSizeDecides | internal/aggregator/poller/node_poller.go:95-102 | What that size and those nodes are for a pool without a size |
| NodeOrder.OrderIsIrrelevant | internal/controller/workload_reconciler.go:182-199 | The reported counts of a JobSet or a sized pool do not depend on the order of the node list |
| NodeOrder.OrderFreeIff | internal/aggregator/poller/node_poller.go:80-112 | With less than 2^31 nodes, counts from zero are the same for every order of the list exactly for a JobSet, a sized pool, a pool no node of which tells a size, or one whose nodes agree on the size and are all readable if ready or unknown |
| NodeOrder.OrderMatters | internal/aggregator/poller/node_poller.go:95-102 | Of two ready nodes of a pool without a size, the one that tells none is counted exactly if it is listed second |
| NodeCounting.CountsAreDisjoint | internal/controller/workload_reconciler.go:182-199 | All reported ready and unknown counts together are at most the number of nodes, pools without a size included |
| NodeCounting.UidKeyInjective | internal/controller/workload_reconciler.go:148-150 | "namespace/name" determines both when the JobSet's names contain no slash |
| NodeCounting.ErrorPoolIsUpAndFailed | internal/aggregator/poller/node_poller.go:59-64 | A pool running with an error whose nodes are all counted as ready is observed as up and failed |
| Report.Summarize | internal/aggregator/report/report.go:99-115 | Every stored log is summarised and joined with the attributes last observed, if any |
| Report.ReportIsTruth | internal/aggregator/report/report.go:99-115 | After any run, exactly the resources of the latest round are reported, each with the attributes last observed and the truth about the time since it last appeared |
| Engine.BucketIsHistory | internal/aggregator/events/eventlog.go:32-66 | However the two writers interleave and fail, from an empty bucket every file holds for each key of its last stored round the log since that key last appeared |
| Engine.BucketReportsTruth | internal/aggregator/report/report.go:99-115 | So the summary of any stored log is the truth about those observations, if flags follow `up` and time is ordered |
| Witnesses.ErrorPoolIsMisreported | internal/aggregator/poller/node_poller.go:54-112 | Three polls of a concrete pool, counted, stored and summarised, report no up time although it was up, and a recovery that did not happen |
| Witnesses.OrderDecidesState | internal/aggregator/poller/node_poller.go:95-112 | A concrete pool of size zero is up or down depending on the order in which its two ready nodes are listed |
| Witnesses.FirstReconcileIsTorn | internal/aggregator/events/eventlog.go:32-42 | A concrete batch and a run that leaves the bucket neither as before nor as after it |

## Left out

- HistorySurvives: takes saves and stores to succeed and counts a failed owner lookup as an inactive owner, as the code does; nothing is claimed for rounds in which a save is lost.
- UpMonotone: models the threshold as a real number, without the floating-point rounding of the product.
- ProcessSlices: looks owners up in a state of its own for each slice name; only two slices of one name share it.
- InterleavingIsSerial: assumes one reconcile at a time, which is the controller's default.
- Cross-file snapshots: readers take one file at a time, so only per-file atomicity holds.
- JSON encoding, the cloud storage, GKE and Kubernetes clients, and errors that end a reconcile before it observes anything.
- How descriptive attributes are extracted: they are inputs, carried along, and no decision reads them.
- LeaderWorkerSet observations, which are copied from fields.
- The three-minute rule for unknown nodes: a node's status is an input.
- Exporters, metrics registration, HTTP servers, the pod reconciler and the node pool scheduling map: no hard property.
