# Verified model of the Greyhound fail-slow detector on MetaX

Greyhound watches a distributed training job, notices when it slows down, validates the suspected
communicators and re-plans the work. This project models the parts of it (and of the Megatron-LM it
drives) whose correctness depends on several functions, processes or whole runs, and proves what they are
for. Verify with `dafny verify dfyconfig.toml`.

| file | what it models |
|---|---|
| `TaskSplit.dfy`, `GlobalTopo.dfy` | ring walk and its decomposition into rounds of disjoint transfers |
| `TaskText.dfy` | the keys and task texts in the key-value store and their parser |
| `ValidationProtocol.dfy`, `ValidationProgress.dfy`, `RingValidation.dfy` | one controller and N workers over the store, step by step, in every interleaving; that they can always finish; then with the rounds of a real ring |
| `ControlSignal.dfy` | the control-state broadcast and the pause loop on all ranks |
| `RecordRing.dfy`, `SnapshotReader.dfy`, `SnapshotRetry.dfy` | the shared-memory record ring, its optimistic reader interleaved word by word with the writers, and how often that reader tries |
| `ProbeCompressor.dfy` | folding AllGather/ReduceScatter runs into single records, inside and outside of groups |
| `ReplicaMax.dfy`, `TimeArray.dfy`, `LayerSplit.dfy`, `LayerMargin.dfy` | the planning arithmetic |
| `DocumentMask.dfy`, `ContextParallel.dfy`, `RampUp.dfy`, `QkvReorder.dfy`, `ParamScheduler.dfy`, `SchedulerLaws.dfy` | numeric and index code of Megatron-LM |
| `CommunicatorCodec.dfy` | the byte format of communicators |
| `RowMajor.dfy`, `FiniteSets.dfy`, `RealSeqs.dfy`, `Wrappers.dfy` | shared helpers |

State that the program updates in place is a class or an array; concurrent systems are state machines
whose `Exec` ranges over every sequence of atomic steps. Floating-point numbers are exact reals; Python's
`round` is round-half-to-even. 64-bit counters wrap explicitly.

## What the proofs found

- The comment at greyhound-metax/metax_eval/detect_runner.py:69-70 says that a snapshot cannot mix two ring
  states. From a ring at rest, some interleaving in which no push completes makes the reader accept such a
  snapshot exactly when the ring is full and is not a single word (`SnapshotReader.TearsIff`). Only the
  oldest record is affected (`SnapshotReader.AcceptedSnapshot`).
- Protocol safety needs each round to name a rank at most once; for rounds that are otherwise served this
  is exactly the condition (`ValidationProtocol.SafeIffDistinctRanks`), and every round of `split_ring`
  meets it.
- A worker ignores a task text of five characters or fewer, so a transfer task is taken exactly when the
  peer or the address has a second digit (`TaskText.TakesCommText`); `RingValidation` assumes real
  addresses.
- The ring walk stops exactly when no two members share a ring index (`GlobalTopo.WalkStopsIff`).
- Rings are told apart by their group ranks alone: none is dropped exactly when no two have the same ranks
  (`GlobalTopo.NothingDroppedIff`), and of several cliques with the same group ranks only one ring would be
  kept (`GlobalTopo.OneRingPerRanks`). The callers build the topology of one clique at a time
  (greyhound-metax/detector/control_plane/global_controller.py:182-187), so several cliques do not meet there.
- A stored state takes two control checks instead of one exactly when it equals the held state while the
  cell differs, which happens only right after a pause (`ControlSignal.AdoptedAtOnceIff`,
  `ControlSignal.OutOfStepOnlyAfterPause`).
- Training for the predicted iterations stays within the samples, for every positive number of them,
  exactly when the second batch of the ramp-up already has the final size, or the third after a first batch
  of a single sample (`RampUp.NeverOvershootsIff`). For any ramp-up it does when the samples reach beyond the
  ramp (`RampUp.PredictionUsesSamples`). With no samples the program does not train
  (greyhound-metax/Megatron-LM/megatron/training.py:458).
- Rounding can leave the last pipeline stage a negative number of layers. For a total T, n stages and a share
  s of the last one, no weighting does so exactly when s >= (T-1)/2, or s > (n-1)/2 - 1, or s is equal to
  that bound and not both T is odd and T >= 2n-3 (`LayerMargin.SafeShareIff`); whatever the total, exactly
  when s > (n-1)/2 - 1 (`LayerMargin.NeverNegativeIff`).
- After a restored checkpoint the parameter groups are at once as in the original exactly when the fresh
  scheduler's weight decay at that step is the original's or no group uses weight decay
  (`ParamScheduler.RestoreExactIff`); from the next step on they always are.

## Model

| member | source | states |
|---|---|---|
| `TaskSplit.SplitRoundsAreMatchings` | greyhound-metax/detector/control_plane/task_split.py:5-25 | for every duplicate-free ring of at least two ranks, each round has as many senders as receivers and names no rank twice |
| `TaskSplit.SplitMeasuresEachLinkOnce` | greyhound-metax/detector/control_plane/task_split.py:5-25 | each link (position to next position) is transfer t of round k for exactly one pair (k, t) |
| `TaskSplit.SplitIsMinimal` | greyhound-metax/detector/control_plane/task_split.py:5-25 | any schedule of matchings that covers the ring has at least as many rounds as `split_ring` |
| `TaskSplit.SplitIsRunnableCover` | greyhound-metax/detector/control_plane/task_split.py:5-25 | the decomposition is itself such a schedule, so the bound is attained |
| `TaskSplit.TwoRoundsAlternate` | greyhound-metax/detector/control_plane/task_split.py:18-25 | a two-round schedule must alternate along the ring, which is why an odd ring needs three |
| `GlobalTopo.WalkRing` | greyhound-metax/detector/control_plane/global_topo.py:28-35 | on a cycle with distinct indices the walk stops after exactly as many steps as members and returns the cycle's indices |
| `GlobalTopo.BuildRing` | greyhound-metax/detector/control_plane/global_topo.py:22-35 | for any clique whose next pointers form one cycle and whose indices are group ranks, the ring is that cycle starting at the first member |
| `GlobalTopo.RingHasAllRanks` | greyhound-metax/detector/control_plane/global_topo.py:25-35 | the ring has the group rank of every member once, so no two members share one |
| `GlobalTopo.RingFollowsPointers` | greyhound-metax/detector/control_plane/global_topo.py:30-34 | in the ring every member is followed by the rank its next pointer names |
| `GlobalTopo.BuildRings` | greyhound-metax/detector/control_plane/global_topo.py:22-44 | over all cliques: each is walked, and a ring is kept unless an earlier one has the same ranks |
| `GlobalTopo.UniqueKeepsEachOnce` | greyhound-metax/detector/control_plane/global_topo.py:37-44 | no set of ranks is lost, no two kept rings have the same ranks, and kept rings were walked |
| `GlobalTopo.NothingDroppedIff` | greyhound-metax/detector/control_plane/global_topo.py:37-44 | no ring is dropped if and only if no two have the same ranks |
| `GlobalTopo.OneRingPerRanks` | greyhound-metax/detector/control_plane/global_topo.py:37-44 | of all cliques with the same group ranks exactly one ring is kept |
| `GlobalTopo.SharedIndexNeverStops` | greyhound-metax/detector/control_plane/global_topo.py:31-34 | if two members share an index, the walk along the next pointers never sees as many indices as there are members, however long it runs |
| `GlobalTopo.WalkStopsIff` | greyhound-metax/detector/control_plane/global_topo.py:31-34 | the walk along the pointers of a cycle comes to see as many indices as members if and only if no two members share one |
| `GlobalTopo.RingRoundsMeasureEachPointerOnce` | greyhound-metax/detector/control_plane/global_topo.py:22-35 | walk and decomposition together: the rounds hold the transfer from each rank to the rank it points to, exactly once |
| `TaskText.NumeralRoundTrip` | greyhound-metax/detector/event_handler.cpp:10-22 | reading a decimal numeral returns the number written |
| `TaskText.KeysNeverCollide` | greyhound-metax/detector/control_plane/global_controller.py:78-107 | task keys and result keys of different ranks differ, and no task key is a result key |
| `TaskText.TaskRoundTrip` | greyhound-metax/detector/event_handler.cpp:10-22 | parsing the text the controller writes returns its role, peer and address |
| `TaskText.TakesCommText` | greyhound-metax/detector/event_handler.cpp:165-171 | a transfer text is taken if and only if the peer or the address has a second digit; it is never the computation text |
| `ValidationProtocol.StepKeepsInv` | greyhound-metax/detector/control_plane/global_controller.py:73-109 | every step of the controller and of any worker keeps the protocol invariant |
| `ValidationProtocol.ReachableInv` | greyhound-metax/detector/event_handler.cpp:153-196 | every interleaving from an empty store satisfies the invariant |
| `ValidationProtocol.TasksSurvive` | greyhound-metax/detector/control_plane/global_controller.py:73-94 | in every run, no posted task is overwritten before its worker acknowledges that very task |
| `ValidationProtocol.ResultsSurvive` | greyhound-metax/detector/control_plane/global_controller.py:96-109 | a published result changes or disappears only when the controller deletes it while holding an equal copy |
| `ValidationProtocol.CollectedExactlyOnce` | greyhound-metax/detector/control_plane/global_controller.py:96-109 | once a round is collected, each named rank has run its task exactly once, the result is that run's, and no other rank ran anything |
| `ValidationProtocol.AllCollected` | greyhound-metax/detector/control_plane/global_controller.py:98-100 | when the number of results equals the number of asked ranks, they are the results of all of them |
| `ValidationProtocol.PollFindsTask` | greyhound-metax/detector/control_plane/global_controller.py:85-93 | whenever the controller polls a task key, the key exists, so decoding it cannot raise |
| `ValidationProtocol.OnlyWritersChangeTasks` | greyhound-metax/detector/event_handler.cpp:172-174 | only posting and acknowledging change a task key |
| `ValidationProtocol.RepeatedRankOverwrites` | greyhound-metax/detector/control_plane/global_controller.py:75-83 | naming a rank twice in a round has a run that loses the first task |
| `ValidationProtocol.SafeIffDistinctRanks` | greyhound-metax/detector/control_plane/global_controller.py:73-94 | a served round never loses a task in any interleaving if and only if it names no rank twice |
| `ValidationProgress.NextAction` | greyhound-metax/detector/control_plane/global_controller.py:73-109 | from every state of the invariant that is not finished, some step brings the protocol closer to the end, in a well-founded order |
| `ValidationProgress.CanAlwaysFinish` | greyhound-metax/detector/control_plane/global_controller.py:120-129 | from every reachable state some continuation finishes the plan, with the results of all rounds collected |
| `RingValidation.MatchingRoundWellFormed` | greyhound-metax/detector/control_plane/global_controller.py:73-109 | a matching over a clique becomes a round the protocol serves: distinct ranks, all awaited, exactly those collected |
| `RingValidation.RingRoundWellFormed` | greyhound-metax/detector/control_plane/global_controller.py:120-129 | so does each round of a ring |
| `RingValidation.ComputationRoundWellFormed` | greyhound-metax/detector/control_plane/global_controller.py:145-170 | and the computation round over all ranks |
| `RingValidation.ComputationMeasured` | greyhound-metax/detector/control_plane/global_controller.py:145-170 | once a computation round is collected, every rank has run the computation, once, and its result is the collected one |
| `RingValidation.ControllerPlansAreWellFormed` | greyhound-metax/detector/control_plane/global_controller.py:194-212 | any plan made of computation and ring rounds is served correctly |
| `RingValidation.CampaignMeasuresLink` | greyhound-metax/detector/control_plane/global_controller.py:120-129 | in every interleaving, once a ring's rounds are collected, each link was measured in its own round (the sender ran its end exactly once, and so did the receiver) and in every other round nothing that either end ran was a transfer over it |
| `RingValidation.CampaignMeasuresLinkOnce` | greyhound-metax/detector/control_plane/global_controller.py:120-129 | the same of each collected round while later rounds are still under way: nothing that either end ran in it is a transfer over a link of another round |
| `RingValidation.ReportedPointerMeasured` | greyhound-metax/detector/control_plane/global_controller.py:197-212 | from reported communicators to measured links: for a ring walked along the members' pointers, the link from every member to the member it points to was measured in exactly one round |
| `ControlSignal.EventHandler.HandleAsRoot` | greyhound-metax/detector/event_handler.cpp:198-262 | one control check on rank 0, pause loop included, is the root machine on the values read and the follower machine on the values sent; each turn of the loop looks for a task once |
| `ControlSignal.EventHandler.HandleAsFollower` | greyhound-metax/detector/event_handler.cpp:219-262 | one control check on another rank is the follower machine on the broadcasts it uses, with one look for a task in each turn of the loop |
| `ControlSignal.RunConsistent` | greyhound-metax/detector/event_handler.cpp:198-262 | in every run of all ranks, each rank is where its completed broadcasts put it |
| `ControlSignal.RanksAgree` | greyhound-metax/detector/event_handler.cpp:217-258 | ranks that completed the same broadcasts (at least one) hold the same state and are inside or outside the pause loop together |
| `ControlSignal.AdoptedWithinTwoChecks` | greyhound-metax/detector/event_handler.cpp:200-224 | from any state and cell, an unchanged stored value is adopted within two checks |
| `ControlSignal.AdoptedAtOnceIff` | greyhound-metax/detector/event_handler.cpp:215-224 | one check is enough if and only if the stored state differs from the held one or the cell equals it |
| `ControlSignal.OutOfStepOnlyAfterPause` | greyhound-metax/detector/event_handler.cpp:226-258 | cell and state differ only right after a pause |
| `ControlSignal.EveryRankAdopts` | greyhound-metax/detector/event_handler.cpp:198-262 | every rank that completed those broadcasts holds the stored state |
| `ControlSignal.CanAgree` | greyhound-metax/detector/event_handler.cpp:217-223 | from every reachable state some continuation without a further broadcast brings all ranks into agreement |
| `ControlSignal.StoredStateIsRead` | greyhound-metax/detector/event_handler.cpp:202-212 | rank 0 reads back the number the controller stores; nothing stored is the monitor state |
| `ControlSignal.PausesIff` | greyhound-metax/detector/event_handler.cpp:222-229 | unless a pause has just ended, a check pauses the ranks if and only if the stored text begins with a 2 |
| `ControlSignal.PauseEndsIff` | greyhound-metax/detector/event_handler.cpp:236-258 | a pause ends with the first read of a stored text that does not begin with a 2, and with no other read |
| `RecordRing.RecordBuffer.constructor` | greyhound-metax/detector/shm_storage.cpp:17-31 | the first process makes an empty ring and leaves the counter; later ones change nothing |
| `RecordRing.RecordBuffer.LoadMeta` | greyhound-metax/detector/shm_storage.cpp:35-43 | the local copy equals the shared metadata |
| `RecordRing.RecordBuffer.UpdateMeta` | greyhound-metax/detector/shm_storage.cpp:45-54 | writes the five words, increments the counter modulo 2^64 and touches no slot |
| `RecordRing.RecordBuffer.Advance` | greyhound-metax/detector/shm_storage.cpp:64-68 | head, tail and count for one more record, within capacity |
| `RecordRing.RecordBuffer.Push` | greyhound-metax/detector/shm_storage.cpp:56-71 | the contents gain the record at the end, unchanged but for the event number in its last cell, the oldest making room when full; the ring invariant and the sizes stay |
| `RecordRing.RecordBuffer.StoreRecord` | greyhound-metax/detector/shm_storage.cpp:63 | the slot at the tail becomes the record; the other slots and the metadata stay |
| `RecordRing.PushContents` | greyhound-metax/detector/shm_storage.cpp:62-69 | one slot written and the metadata advanced amount to that change of contents |
| `RecordRing.PushKeepsRing` | greyhound-metax/detector/shm_storage.cpp:64-69 | head, tail and count stay consistent |
| `RecordRing.Clear` | greyhound-metax/detector/control_plane/local_analyzer.py:86-89 | empties the contents, keeps ring and counter |
| `RecordRing.GetItem` | greyhound-metax/detector/control_plane/local_analyzer.py:104-110 | item i is the i-th oldest record, or none |
| `RecordRing.Iterate` | greyhound-metax/detector/control_plane/local_analyzer.py:95-110 | iteration yields the contents in order |
| `RecordRing.Serve` | greyhound-metax/detector/shm_storage.cpp:110-114 | after any history of pushes by any processes and clears, the ring holds the last min(n, capacity) records since the last clear, in push order, each as it was handed over but for its number, and the counter is the number of pushes |
| `RecordRing.ServeFresh` | greyhound-metax/detector/shm_storage.cpp:17-31 | the same from zero-filled shared memory to which any number of processes attach |
| `RecordRing.HoldsAtStart` | greyhound-metax/detector/shm_storage.cpp:25-30 | an empty ring with its counter at zero holds the empty history |
| `RecordRing.StampedIsNumbered` | greyhound-metax/detector/shm_storage.cpp:61-63 | what is stored of the k-th push is the record that was handed over, with number k in its last cell |
| `RecordRing.HoldsMeansLast` | greyhound-metax/detector/shm_storage.cpp:56-71 | a ring that holds the window of a history holds the last records handed over, with their numbers |
| `RecordRing.WindowNumbers` | greyhound-metax/detector/shm_storage.cpp:61-62 | the records in the ring carry consecutive event numbers ending just before the counter |
| `RecordRing.EventNumbers` | greyhound-metax/detector/shm_storage.cpp:52-62 | the k-th push of a history carries number k, whatever clears lie between |
| `RecordRing.NumbersNeverRepeat` | greyhound-metax/detector/shm_storage.cpp:52-62 | no two of fewer than 2^64 successive pushes share a number |
| `SnapshotReader.AcceptedSnapshot` | greyhound-metax/metax_eval/detect_runner.py:68-88 | in every word-by-word interleaving, an accepted snapshot is the ring after e or e+1 pushes, except that on a full ring the oldest record alone may mix old and new words; below capacity it is exact |
| `SnapshotReader.FullRingCanTear` | greyhound-metax/metax_eval/detect_runner.py:69-87 | on every full ring of two or more records, whatever is pushed next, some interleaving makes the reader accept a snapshot that is not exact |
| `SnapshotReader.SingleRingCanTear` | greyhound-metax/metax_eval/detect_runner.py:69-87 | the same on a full ring of one record of two or more words, for every pushed record with another first word |
| `SnapshotReader.TearsIff` | greyhound-metax/metax_eval/detect_runner.py:69-87 | from a ring at rest, some interleaving in which no push completes makes the reader accept an inexact snapshot if and only if the ring is full and is not a single word |
| `SnapshotReader.HistoryLeavesNumberUnused` | greyhound-metax/detector/shm_storage.cpp:61-62 | a ring left by any history satisfies the premise of the three previous rows: no record carries the next number |
| `SnapshotReader.PushCompletes` | greyhound-metax/detector/shm_storage.cpp:45-71 | the last word of a push turns the old contents into the pushed contents |
| `SnapshotReader.WriterKeepsInv` | greyhound-metax/detector/shm_storage.cpp:45-71 | every word a writer stores keeps the invariant relating memory, push under way and reader |
| `SnapshotReader.ReadKeepsInv` | greyhound-metax/metax_eval/detect_runner.py:71-87 | and so does every word the reader loads |
| `SnapshotReader.ExecInv` | greyhound-metax/metax_eval/detect_runner.py:68-88 | hence every interleaving satisfies it |
| `SnapshotRetry.GivingUpTakesTenPushes` | greyhound-metax/metax_eval/detect_runner.py:71-88 | in every interleaving each failed attempt saw a push of its own, there are at most ten, and the reader gives up only after ten pushes |
| `SnapshotRetry.TenPushesCanSpoil` | greyhound-metax/metax_eval/detect_runner.py:71-88 | ten pushes, one in each attempt, can make it give up |
| `SnapshotRetry.IdleReaderSucceeds` | greyhound-metax/metax_eval/detect_runner.py:71-87 | from every reachable state without a push under way and with fewer than nine failed attempts, loads alone lead to a snapshot: the one already accepted, or the ring as it stands |
| `ProbeCompressor.CompressAppend` | greyhound-metax/detector/ncclprobe.cpp:107-153 | the run compression seen call by call: a compressible call extends the pending run, any other writes it with its sum and last operation and communicator, then itself |
| `ProbeCompressor.CountConserved` | greyhound-metax/detector/global_status.cpp:192-207 | records and pending run together hold the sum of all counts modulo 2^64 |
| `ProbeCompressor.ProbeCompresses` | greyhound-metax/detector/ncclprobe.cpp:92-172 | for every sequence of collectives, group starts and group ends, storage followed by the group buffer is the compression of the large calls and the accumulators are the pending run |
| `ProbeCompressor.ProbeConservesCount` | greyhound-metax/detector/ncclprobe.cpp:92-172 | storage, buffer and accumulator together hold the sum of all large calls |
| `ProbeCompressor.GroupsAreTransparent` | greyhound-metax/detector/ncclprobe.cpp:449-513 | equal calls leave equal storage however they are grouped |
| `ProbeCompressor.FirstCall` | greyhound-metax/detector/ncclprobe.cpp:113-172 | a first large call is stored as it is, unless it is an AllGather or a ReduceScatter, which is accumulated |
| `ProbeCompressor.SmallCallIgnored` | greyhound-metax/detector/ncclprobe.cpp:103-105 | a call of fewer than 1024 elements leaves no trace |
| `ProbeCompressor.GlobalStatus.UpdateAccumulation` | greyhound-metax/detector/global_status.cpp:201-207 | adds the call to the accumulators and changes nothing else |
| `ProbeCompressor.GlobalStatus.ResetAccumulation` | greyhound-metax/detector/global_status.cpp:192-199 | forgets the run and changes nothing else |
| `ProbeCompressor.GlobalStatus.LogEvent` | greyhound-metax/detector/ncclprobe.cpp:92-172 | logging a call is one step of the probe machine |
| `ProbeCompressor.GlobalStatus.GroupStart` | greyhound-metax/detector/global_status.cpp:220-225 | so is a group start |
| `ProbeCompressor.GlobalStatus.GroupEnd` | greyhound-metax/detector/ncclprobe.cpp:460-513 | so is a group end in monitor state: the buffer moves to the storage in order |
| `ProbeCompressor.Observe` | greyhound-metax/detector/ncclprobe.cpp:92-172 | the probe after any events stores and accumulates what the compression says |
| `ReplicaMax.SyncPass` | greyhound-metax/detector/control_plane/mitigation_plan.py:22-39 | one in-place pass gives every covered rank the maximum over its clique of the values before the pass, whatever the clique order, as minimum, maximum and average with no deviation |
| `ReplicaMax.CliquesPartition` | greyhound-metax/detector/control_plane/mitigation_plan.py:23-39 | the cliques of one kind on a grid are disjoint or equal |
| `ReplicaMax.MaxOfMaxima` | greyhound-metax/detector/control_plane/mitigation_plan.py:31-39 | the maximum over a tensor group of pipeline maxima is the maximum over the replica |
| `ReplicaMax.TwoPassesReachReplica` | greyhound-metax/detector/control_plane/mitigation_plan.py:22-39 | after both passes every rank holds its replica's maximum |
| `ReplicaMax.ReplicaAgrees` | greyhound-metax/detector/control_plane/mitigation_plan.py:40-46 | ranks of one replica hold one value, so all DP cliques write the same |
| `ReplicaMax.GroupByReplica` | greyhound-metax/detector/control_plane/mitigation_plan.py:19-48 | the result has exactly the DP indices (none without DP cliques), each with the maximum compute time over all TP and PP ranks of that replica, for any grid and clique order |
| `TimeArray.DividesByZeroIff` | greyhound-metax/detector/control_plane/dp_planner.py:18-28 | for positive latencies the slope divides by zero if and only if the threshold is below one and all latencies are equal |
| `TimeArray.EntryMissingIff` | greyhound-metax/detector/control_plane/dp_planner.py:20-30 | some entry is not a number if and only if the slope divides by zero |
| `TimeArray.MedianSplits` | greyhound-metax/detector/control_plane/dp_planner.py:19 | half of the sorted values are at most the median and half at least |
| `TimeArray.StatsMeaning` | greyhound-metax/detector/control_plane/dp_planner.py:17-19 | lowest and highest are measured values that bound all others, and twice the median is the sum of the two middle values |
| `TimeArray.NormalTimeIff` | greyhound-metax/detector/control_plane/dp_planner.py:20-30 | a replica keeps the normal time if and only if it is within the threshold times the median |
| `TimeArray.SlowOnLine` | greyhound-metax/detector/control_plane/dp_planner.py:26-30 | a slow replica lies on the line through (lowest latency, normal time) and (highest latency, slow time) |
| `TimeArray.EstimateInRange` | greyhound-metax/detector/control_plane/dp_planner.py:20-30 | estimates lie between normal and slow time; the slowest slow replica gets the slow time |
| `TimeArray.EstimateMonotone` | greyhound-metax/detector/control_plane/dp_planner.py:20-30 | a larger latency never gets a smaller estimate, across both branches |
| `TimeArray.TimesFollowLatencies` | greyhound-metax/detector/control_plane/dp_planner.py:9-31 | for positive latencies and a threshold of at least one, the entries of any two ranks are numbers between normal and slow time, ordered as the latencies |
| `TimeArray.GetTimeArray` | greyhound-metax/detector/control_plane/dp_planner.py:9-31 | succeeds if and only if there are ranks and all fit the array; then every slot holds the entry of its own rank |
| `LayerSplit.Weights` | greyhound-metax/detector/control_plane/mitigation_plan.py:100-102 | one positive weight per stage, summing to one |
| `LayerSplit.WeightsAreInverse` | greyhound-metax/detector/control_plane/mitigation_plan.py:100-102 | weight times latency is the same for all stages, which with the sum determines the weights |
| `LayerSplit.FasterGetsMore` | greyhound-metax/detector/control_plane/mitigation_plan.py:100-106 | of two stages before the last, the faster never gets fewer layers |
| `LayerSplit.SplitLayers` | greyhound-metax/detector/control_plane/mitigation_plan.py:103-108 | the stages sum to the total and all but the last are their rounded shares |
| `LayerSplit.SplitNearShares` | greyhound-metax/detector/control_plane/mitigation_plan.py:105-108 | every stage but the last is within 1/2 of its exact share, the last within (n-1)/2 |
| `LayerMargin.SplitNonNegative` | greyhound-metax/detector/control_plane/mitigation_plan.py:105-108 | with a safe share of the last stage no stage is negative |
| `LayerMargin.LastStageCanBeNegative` | greyhound-metax/detector/control_plane/mitigation_plan.py:107-108 | for every total, number of stages and share that is not safe, positive weights that leave the last stage with -1 |
| `LayerMargin.SafeShareIff` | greyhound-metax/detector/control_plane/mitigation_plan.py:105-108 | for every total T, number of stages n and share s of the last stage, no positive weighting with that share leaves a stage negative if and only if s >= (T-1)/2, or s > (n-1)/2 - 1, or s equals that bound and T is even or below 2n-3 |
| `LayerMargin.NeverNegativeIff` | greyhound-metax/detector/control_plane/mitigation_plan.py:105-108 | whatever the total, no positive weighting with share s of the last of n stages leaves a stage negative if and only if s > (n-1)/2 - 1 |
| `LayerMargin.NegativeSplitExample` | greyhound-metax/detector/control_plane/mitigation_plan.py:105-108 | an instance: positive weights for four stages and five layers that are split 2, 2, 2 and -1 |
| `LayerSplit.Store.ApplyLayerSplit` | greyhound-metax/detector/control_plane/pp_planner.py:6-11 | publishes each stage's size and the sum of the sizes before it, under keys that never collide, and touches no other key |
| `LayerSplit.PublishedStagesAbut` | greyhound-metax/detector/control_plane/pp_planner.py:6-11 | each published stage starts where the one before ends, the first at zero, and the last ends at the total |
| `LayerSplit.AdjustPipeline` | greyhound-metax/detector/control_plane/mitigation_plan.py:100-109 | for positive latencies, what is published is a split of the total by the normalised weights, and of two stages before the last the one with the smaller latency never gets fewer layers |
| `DocumentMask.VisibleIffSameDocument` | greyhound-metax/Megatron-LM/megatron/utils.py:206-216 | a key is visible (not later, no document end in between) if and only if it lies in the query's document so far |
| `DocumentMask.PositionCountsVisibleKeys` | greyhound-metax/Megatron-LM/megatron/utils.py:206-216 | position plus one is the number of visible keys |
| `DocumentMask.FindEods` | greyhound-metax/Megatron-LM/megatron/utils.py:200-204 | exactly the indices of the end-of-document tokens, in order |
| `DocumentMask.ResetPositions` | greyhound-metax/Megatron-LM/megatron/utils.py:206-216 | subtracting from suffixes restarts the positions at every document; other rows stay |
| `DocumentMask.ResetMask` | greyhound-metax/Megatron-LM/megatron/utils.py:206-212 | zeroing the blocks leaves one exactly where no end-of-document lies between key and query |
| `DocumentMask.LeftToRightMasks` | greyhound-metax/Megatron-LM/megatron/utils.py:164-221 | the mask, loss mask and positions of every row, for all settings of the three switches |
| `ContextParallel.SliceSucceedsIff` | greyhound-metax/Megatron-LM/megatron/utils.py:242-251 | slicing works if and only if the sequence axis exists, divides into 2 * size chunks and no other axis is empty |
| `ContextParallel.SliceShape` | greyhound-metax/Megatron-LM/megatron/utils.py:242-251 | the result keeps all axes but the sequence, which holds two chunks |
| `ContextParallel.SliceIsShare` | greyhound-metax/Megatron-LM/megatron/utils.py:242-251 | every rank gets an equal share of the sequence |
| `ContextParallel.HeldChunks` | greyhound-metax/Megatron-LM/megatron/utils.py:229-234 | rank r holds chunk r from the front, then chunk r from the back, each in order |
| `ContextParallel.EntryShape` | greyhound-metax/Megatron-LM/megatron/utils.py:240-251 | the attention mask is sliced along its third axis, every other entry along its second |
| `ContextParallel.SliceElement` | greyhound-metax/Megatron-LM/megatron/utils.py:242-251 | entry (o, q, i) of the flat result is entry (o, position held at q, i) of the flat tensor |
| `ContextParallel.EveryPositionHeldOnce` | greyhound-metax/Megatron-LM/megatron/utils.py:229-251 | every sequence position is held by exactly one rank, at one place |
| `ContextParallel.WorkIsBalanced` | greyhound-metax/Megatron-LM/megatron/utils.py:229-234 | the causal work (sum of position + 1) is the same on every rank, its share of the triangle |
| `ContextParallel.Batch.OnThisRank` | greyhound-metax/Megatron-LM/megatron/utils.py:224-254 | every present entry is replaced by its slice along its own axis, in dictionary order up to the first that cannot be sliced; one rank alone changes nothing |
| `RampUp.BatchInRange` | greyhound-metax/Megatron-LM/megatron/microbatches.py:167-175 | the batch size stays between start and final size, so the inner assertion never fails |
| `RampUp.BatchMonotone` | greyhound-metax/Megatron-LM/megatron/microbatches.py:167-175 | it never shrinks as samples are consumed |
| `RampUp.BatchReaches` | greyhound-metax/Megatron-LM/megatron/microbatches.py:158-175 | the batch size has gone up by k increments exactly when k equal shares of the ramp's samples are consumed |
| `RampUp.BatchIsWholeIncrements` | greyhound-metax/Megatron-LM/megatron/microbatches.py:172-174 | it is the start size plus whole increments |
| `RampUp.BatchDivisible` | greyhound-metax/Megatron-LM/megatron/microbatches.py:177-185 | with divisible start and increment every batch size passes the consistency check |
| `RampUp.RampupBatchsize.constructor` | greyhound-metax/Megatron-LM/megatron/microbatches.py:139-164 | after construction the batch size is the start size and the micro-batches are its share |
| `RampUp.RampupBatchsize.Update` | greyhound-metax/Megatron-LM/megatron/microbatches.py:167-185 | the batch size for the samples consumed, failing only the consistency check |
| `RampUp.Build` | greyhound-metax/Megatron-LM/megatron/microbatches.py:139-164 | construction fails if and only if an assertion or a division by zero rejects the configuration |
| `RampUp.PredictIterations` | greyhound-metax/Megatron-LM/megatron/training.py:315-330 | the prediction loop ends, having replayed exactly the ramp |
| `RampUp.Train` | greyhound-metax/Megatron-LM/megatron/training.py:994-1018 | training consumes what the batch-size function says, iteration by iteration |
| `RampUp.PredictionUsesSamples` | greyhound-metax/Megatron-LM/megatron/training.py:326-330 | the predicted iterations consume more than train_samples minus a batch, and at most train_samples when these reach beyond the ramp |
| `RampUp.TrainBySamples` | greyhound-metax/Megatron-LM/megatron/training.py:315-330 | prediction followed by training: both bounds, and more samples than given are consumed exactly when the prediction overshoots, never for a ramp that is final in time |
| `RampUp.ShortRunsOvershoot` | greyhound-metax/Megatron-LM/megatron/training.py:328-330 | for every configuration whose ramp is not final in time, a positive number of samples that training exceeds |
| `RampUp.WithinSamplesWhenRampsInTime` | greyhound-metax/Megatron-LM/megatron/training.py:320-330 | in these cases training never exceeds the samples |
| `RampUp.InTimeExample` | greyhound-metax/Megatron-LM/megatron/training.py:320-330 | an instance of the second case: sizes 1, 2, 3 over 2 samples |
| `RampUp.NeverOvershootsIff` | greyhound-metax/Megatron-LM/megatron/training.py:320-330 | for every usable configuration: training stays within every positive number of samples if and only if the second batch has the final size, or the third after a first batch of one sample |
| `RampUp.OvershootExample` | greyhound-metax/Megatron-LM/megatron/training.py:328-330 | an instance that fails: sizes 1 to 4 over 3 samples consume two samples when given one |
| `RampUp.QuotientIsPredicted` | greyhound-metax/Megatron-LM/megatron/training.py:328-330 | the predicted count is never negative and fills the samples beyond (or short of) the ramp with whole final batches |
| `QkvReorder.ReorderingIsBijection` | greyhound-metax/Megatron-LM/megatron/checkpointing.py:395-431 | each reordering is a bijection on row indices, for all sizes |
| `QkvReorder.ReorderReachesCurrent` | greyhound-metax/Megatron-LM/megatron/checkpointing.py:404-429 | a matrix stored in either old order is reordered to the current one |
| `QkvReorder.VersionsAgree` | greyhound-metax/Megatron-LM/megatron/checkpointing.py:395-431 | version 0 and version 1 checkpoints of one logical matrix reorder to the same rows |
| `QkvReorder.FixedIsCurrent` | greyhound-metax/Megatron-LM/megatron/checkpointing.py:442-460 | a parameter stored as in version 0 or version 1, with three or two splits by its name, is in the current order after the fix for that version |
| `QkvReorder.ReorderedNames` | greyhound-metax/Megatron-LM/megatron/checkpointing.py:443-452 | names with one of the four endings are reordered with three or two splits, whatever precedes the ending |
| `QkvReorder.OtherNames` | greyhound-metax/Megatron-LM/megatron/checkpointing.py:443-452 | and no other names are |
| `QkvReorder.SuffixesExclusive` | greyhound-metax/Megatron-LM/megatron/checkpointing.py:443-452 | no parameter name matches both suffix tests, so none is reordered twice |
| `QkvReorder.FixOrdering` | greyhound-metax/Megatron-LM/megatron/checkpointing.py:434-462 | in place: exactly the query-key-value and key-value parameters are reordered; other versions below two exit without change if there is one |
| `ParamScheduler.Scheduler.constructor` | greyhound-metax/Megatron-LM/megatron/optimizer_param_scheduler.py:12-50 | the groups hold the rates of step zero |
| `ParamScheduler.Build` | greyhound-metax/Megatron-LM/megatron/optimizer_param_scheduler.py:12-50 | construction fails if and only if an assertion or a schedule at step zero raises |
| `ParamScheduler.Scheduler.Step` | greyhound-metax/Megatron-LM/megatron/optimizer_param_scheduler.py:127-134 | every group gets the scheduled rate and decay times its multipliers; on an exception only the count moved |
| `SchedulerLaws.LinearGroupRates` | greyhound-metax/Megatron-LM/megatron/optimizer_param_scheduler.py:127-134 | a group without multipliers under linear schedules: its rate rises on the warm-up line, falls on the decay line and stays minimal; its weight decay rises on a line and stays |
| `SchedulerLaws.GroupRates` | greyhound-metax/Megatron-LM/megatron/optimizer_param_scheduler.py:132-134 | every group has the two scheduled values times its own multipliers, which count as one when missing |
| `SchedulerLaws.WarmupIsLine` | greyhound-metax/Megatron-LM/megatron/optimizer_param_scheduler.py:83-92 | warm-up goes from the initial rate at step 0 to the maximal rate at its end on a line, for every style |
| `SchedulerLaws.EqualSteps` | greyhound-metax/Megatron-LM/megatron/optimizer_param_scheduler.py:83-92 | points of a line at successive steps are equally far apart |
| `SchedulerLaws.LinearDecay` | greyhound-metax/Megatron-LM/megatron/optimizer_param_scheduler.py:98-124 | linear decay goes from the maximal rate at the end of the warm-up to the minimal rate at the last decay step on a line, and stays there |
| `SchedulerLaws.CosineDecay` | greyhound-metax/Megatron-LM/megatron/optimizer_param_scheduler.py:109-124 | cosine decay goes along its shape between the same ends |
| `SchedulerLaws.InverseSquareRootDecay` | greyhound-metax/Megatron-LM/megatron/optimizer_param_scheduler.py:102-107 | the rate is at least minimal, and above that its square falls as one over the step |
| `SchedulerLaws.ConstantRate` | greyhound-metax/Megatron-LM/megatron/optimizer_param_scheduler.py:94-96 | a constant rate is the maximal one after the warm-up |
| `SchedulerLaws.AfterDecay` | greyhound-metax/Megatron-LM/megatron/optimizer_param_scheduler.py:98-100 | any other rate is minimal after the decay |
| `SchedulerLaws.LrRaisesIff` | greyhound-metax/Megatron-LM/megatron/optimizer_param_scheduler.py:102-122 | the rate raises an exception if and only if the style is unknown, between the end of the warm-up and the end of the decay |
| `SchedulerLaws.LinearRateInRange` | greyhound-metax/Megatron-LM/megatron/optimizer_param_scheduler.py:24-32 | for accepted settings linear rates never exceed the maximal rate nor fall below both the initial and the minimal one |
| `SchedulerLaws.LinearWeightDecay` | greyhound-metax/Megatron-LM/megatron/optimizer_param_scheduler.py:54-76 | linear weight decay goes from the start value at step 0 to the end value at the last step on a line, and stays there |
| `SchedulerLaws.CosineWeightDecay` | greyhound-metax/Megatron-LM/megatron/optimizer_param_scheduler.py:63-76 | cosine weight decay goes along its shape between the same ends |
| `SchedulerLaws.ConstantWeightDecay` | greyhound-metax/Megatron-LM/megatron/optimizer_param_scheduler.py:59-61 | constant weight decay is its one value, and raises an exception when start and end differ |
| `SchedulerLaws.WdRaisesIff` | greyhound-metax/Megatron-LM/megatron/optimizer_param_scheduler.py:63-74 | the other styles raise an exception if and only if there are no steps or the style is unknown, until the steps are over |
| `SchedulerLaws.LinearDecayInRange` | greyhound-metax/Megatron-LM/megatron/optimizer_param_scheduler.py:36-41 | for accepted settings linear weight decay stays between its start and its end |
| `ParamScheduler.Scheduler.LoadStateDict` | greyhound-metax/Megatron-LM/megatron/optimizer_param_scheduler.py:169-227 | when loading succeeds, and what settings, count and groups are then and after each way of failing, with the step taken between the two parts |
| `ParamScheduler.SavedSettingsLoad` | greyhound-metax/Megatron-LM/megatron/optimizer_param_scheduler.py:137-166 | in use-checkpoint mode a saved state brings back every setting and the count |
| `SchedulerLaws.OverridingKeepsOwn` | greyhound-metax/Megatron-LM/megatron/optimizer_param_scheduler.py:153-158 | in overriding mode a load keeps the scheduler's own settings |
| `SchedulerLaws.DefaultLoadsIff` | greyhound-metax/Megatron-LM/megatron/optimizer_param_scheduler.py:160-166 | in the default mode a state loads if and only if it has the scheduler's own settings |
| `SchedulerLaws.OlderCheckpointLoads` | greyhound-metax/Megatron-LM/megatron/optimizer_param_scheduler.py:171-215 | checkpoints with either of the older sets of names bring back the same learning-rate settings and count and leave the weight decay |
| `ParamScheduler.WdDefinedLater` | greyhound-metax/Megatron-LM/megatron/optimizer_param_scheduler.py:54-76 | a weight-decay schedule that could take step zero raises at no later step |
| `ParamScheduler.RestoreSucceeds` | greyhound-metax/Megatron-LM/megatron/optimizer_param_scheduler.py:169-227 | restoring into a fresh scheduler never fails and brings back settings, count and learning rates |
| `ParamScheduler.RestoreExactIff` | greyhound-metax/Megatron-LM/megatron/optimizer_param_scheduler.py:212-227 | the restored groups equal the original's before any step if and only if the two weight-decay schedules agree at this step or every group's weight-decay multiplier is zero |
| `ParamScheduler.RestoredThenStep` | greyhound-metax/Megatron-LM/megatron/optimizer_param_scheduler.py:127-227 | after any further step, the restored scheduler has the outcome, rates and decays of the original |
| `ParamScheduler.DecayStaleUntilStep` | greyhound-metax/Megatron-LM/megatron/optimizer_param_scheduler.py:212-227 | an instance in which the weight decay is another one before that step |
| `ParamScheduler.Resume` | greyhound-metax/Megatron-LM/megatron/optimizer_param_scheduler.py:127-227 | the same for the two objects: save, load, step both, equal groups |
| `CommunicatorCodec.CommunicatorRoundTrip` | greyhound-metax/detector/shm_topo.cpp:54-82 | decoding returns every field of any communicator, whatever the padding bytes and whatever follows |
| `CommunicatorCodec.BytesOfCommunicator` | greyhound-metax/detector/shm_topo.cpp:54-67 | every byte string of the right length is the serialisation of what it decodes to: only padding is free |
| `CommunicatorCodec.RingRoundTrip` | greyhound-metax/detector/control_plane/communicator.py:73-76 | a 24-byte ring node, four bytes of it padding, decodes to its fields |
| `CommunicatorCodec.TreeRoundTrip` | greyhound-metax/detector/control_plane/communicator.py:78-82 | a 20-byte tree node decodes to its fields |
| `CommunicatorCodec.Serialize` | greyhound-metax/detector/shm_topo.cpp:54-67 | the sequential writes give the format |
| `CommunicatorCodec.Deserialize` | greyhound-metax/detector/control_plane/communicator.py:63-87 | the controller's reader decodes the format and rejects short input |
| `CommunicatorCodec.FromStream` | greyhound-metax/detector/shm_topo.cpp:69-82 | reading into the memory of an object replaces its first bytes by those of the stream, as many as there are; with a whole communicator it decodes as the controller's reader does |

## Left out

- Liveness of validation: that it can always finish is proved (`ValidationProgress.CanAlwaysFinish`); whether a blocked transfer or a slow worker ever does depends on NCCL and on fairness.
- Redis connections, subprocesses, logging, sleeps, symbol interception, CUDA timing: only store reads and writes and abstract durations are kept.
- The store of the validation protocol starts without task or result keys; the control cells may start with anything for agreement, and `ControlSignal.OutOfStepOnlyAfterPause` takes the root's cell to start at the monitor state, which the code does not initialise.
- `build_trees`, `split_tree` and tree validation: marked as unfinished in the source, and their callers are commented out.
- `GlobalTopo.BuildRing`: cliques whose pointers do not form one cycle with indices equal to group ranks are not walked; for shared indices see `SharedIndexNeverStops`.
- `solve_dp`, change-point detection, autocorrelation and peak finding: opaque library solvers.
- `parse_communication_results`: its window runs past the end of the list when the TP degree exceeds one; the layer split takes the stage latencies as input.
- `mitigate_failslow`: its loop does not implement the ski-rental rule its shape suggests, so there is no ratio to prove.
- Group handling of the probe in profile state: the early return at greyhound-metax/detector/ncclprobe.cpp:479-483 skips the buffer clear, and the state is unreachable in the MetaX build.
- The lookup of a communicator's device count and the clock in `log_event` are inputs of the call.
- Shared-memory creation, mutex re-initialisation, and a clear that races with a push: `RecordRing.Clear` is atomic.
- Weaker memory models: `SnapshotReader` is sequentially consistent.
- `TaskText.ParseNumber`: signs and leading white space, which the controller never writes, are not accepted.
- Tensor devices and element types; tensors are contiguous, as after `contiguous()`.
- The shapes of the cosine and inverse-square-root schedules are parameters.
- `ParamScheduler.Scheduler.constructor`: covers configurations for which the source's constructor raises nothing; see `Build` for the others.
- `TimeArray.GetTimeArray`: the two infinities inside a slope that divides by zero always cancel to not-a-number, which the model writes as a missing entry.
- Fail-slow-aware micro-batch counts across ranks: the distribution module is not part of this model and the synchronising all-reduce is commented out.
- Floating-point rounding throughout.
