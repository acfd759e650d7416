# Bob in Dafny

Bob is a replicated blob store. A key belongs to a virtual disk, and a virtual disk lists replicas,
each a disk of a node; one node may hold several. Any node can coordinate a request. This project
models the decisions Bob takes and proves what they guarantee.

`dafny verify dfyconfig.toml` checks everything.

## Parts

- **Routing and configuration** (`Topology`, `ClusterConfig`): from a validated config to the replicas of a key.
- **Put** (`Stores`, `PutProtocol`, `PutInvariant`, `PutBooks`, `Durability`, `Provenance`, `Overwrites`,
  `Coordinator`): the quorum put as a state machine. A state holds all stores and all puts ever started. An action carries
  everything the network, the disks and the scheduler decide, and an action that is not enabled changes
  nothing, so every sequence of actions is a run and every theorem about `Run` is about all runs.
  Tombstones of deletes are actions too, so deletes go on beside the puts. A put remembers what it was
  told, and `PutBooks` proves that what its coordinator concludes is exactly that.
  `Coordinator` has the coordinator's own loops and variables and shows that they move the cluster
  along such a run while others act in between.
- **Get, exist, delete** (`ClusterGet`, `ClusterExist`, `ReadAgreement`, `Tombstones`, `DeleteSteps`, `ClusterDelete`,
  `DeletedReads`, `Operations`, `Backend`): answers come in any order (`:|` picks the next one) and any may be missing.
  Deletes leave tombstones in the stores, which reads respect.
- **Support nodes** (`SupportNodes`, `SupportNames`, `Counting`): the choice of helpers while
  connection flags change under the search.
- **Partitions** (`StartTimestamp`, `Holders`, `Skipping`, `GroupHistory`, `Group`, `SkippedReads`, `PartitionName`):
  a vdisk's data split by time. `GroupHistory` replays any history of puts, forced deletes and
  restarts, in which any write may fail, and remembers the acknowledged operations; reads are
  compared with these. `Group` is the same in place, with the source's loops. What a scan may
  answer is the relation `Scans`, so wrong answers can be stated as well as right ones.
- **Config generator** (`Ccg`, `RackSpread`, `Greedy`, `Center`): which disks the replicas of a vdisk get. The racks of
  a vdisk are a plan that follows from the rack counters before it is placed; within a rack each replica takes the
  first least used disk of the nodes not used yet, and `Greedy` bounds how uneven that can get.
- **Key order** (`KeyOrder`) and **node credentials** (`Resolve`).

The network, disks, clock, hash order and connection flags are parameters: functions or values
that the theorems quantify over.

## What does not hold, and when it does

- *A put acknowledged by quorum stays readable.* `get_alien` starts its search for the newest record
  at timestamp 0 and wants a larger one, so an alien record stamped 0 is never returned. Durability
  holds for all clusters and runs exactly for positive timestamps (`DurableExactlyWhenStamped`).
  For the same reason `get` and `exist` differ by exactly these records (`ExistMatchesGet`).
- *A read is at least as new as the last acknowledged put.* `get` takes the first record it meets, so a
  replica that missed a put answers with what it had: one node with two disks suffices
  (`OlderRecordIsRead`). If no target failed and none keeps a fallback copy, every read that reaches
  a target is at least as new (`CompletePutIsReadNewest`).
- *After a delete answered with Ok only newer records are read.* A target that did not confirm has its
  tombstone in an alien store and still shows the record, and alien groups without the tombstone do
  too; these are the only ways (`ReadAfterDelete`), and without them it holds (`CleanReadsNewer`).
- *A partition start is found for every time.* With a period between a day and a week the weekday
  minus one underflows on Mondays. Times and partition ends beyond the calendar abort the process
  for every period (`StartOfMeaning`).
- *Skipping old partitions is safe.* The comment on the option asks for twice the longest period.
  Reads are right on all recorded groups if and only if the longest period used is at most the
  current period plus the step plus 2, for positive and negative steps (`SkippingIsRightExactly`).
  Shortening the period can break this: a delete, a restart and a put then end in a wrong read
  (`ShortenedPeriodMisreads`). With the clock ahead, all reads after all histories are right exactly if
  the first period is at most the new one plus the larger of the setting and twice the new one plus
  one, plus 2 (`SettingsAreRightExactly`). The step is computed from unsigned differences, so a partition that
  starts d seconds after the clock makes it act as minus (2d - 1) (`FutureStartWraps`); reads stay
  right exactly for d = 1 (`FutureStartIsRightExactly`, `FutureRestartAllowed`), and from d = 2 on
  every period of up to a day has histories that lose the newest put (`FutureStartMisreads`).
- *One resolver per node.* A second `set_nodes_credentials` starts a second resolver for a node
  that is being resolved; the rule survives exactly if no such node is named (`SetNodesCredentials`).
- *With as many nodes as replicas, replicas are on distinct nodes.* True of one rack. With several, the
  racks are chosen first and the third replica goes back to the first rack. With one node in rack A
  and three in rack B, three replicas end up on a, b1 and a again, with one disk on a twice the same
  replica (`LopsidedVDisk`), which the config check rejects. Nodes are distinct exactly if no rack is
  given more replicas than it has nodes with disks (`SpreadExactly`), and how many each is given
  follows from the rack counters (`PlannedExactly`, `TwoRacksExactly`).
- *A vdisk gets as many replicas as asked for.* `create_vdisk` places one replica when asked for none.

## Model

| member | source | states |
|---|---|---|
| `Topology.GetVDiskIdByMod` | bob-common/src/mapper.rs:260-264 | The byte-wise fold gives the key's little-endian value modulo the number of vdisks. |
| `Topology.FoldStep` | bob-common/src/mapper.rs:260-264 | Each step keeps the residue of the prefix, and no intermediate value exceeds 256 times the number of vdisks. |
| `Topology.GetOperation` | bob-common/src/mapper.rs:295-315 | The disks found are those of the local replicas in replica order, as many as the node holds; none exactly if it holds no replica. |
| `Topology.GetReplicasCountByNode` | bob-common/src/mapper.rs:325-334 | The map has exactly the nodes with replicas, each with its positive number of replicas. |
| `Topology.VDiskNodes` | bob-common/src/mapper.rs:74-90 | Target nodes are exactly the cluster nodes with a replica, in config order. |
| `Topology.TargetsConserveReplicas` | bob-common/src/mapper.rs:128-131 | Targets are distinct cluster nodes, and their replica counts add up to the vdisk's replicas, at least the quorum; the vdisk of every key exists. |
| `ClusterConfig.CheckIds` | bob-common/src/configs/cluster.rs:461-469 | Accepted ids are exactly the permutations of 0 to n - 1; a reported duplicate occurs twice, and an id is missing before a reported gap. |
| `ClusterConfig.FindDuplicate` | bob-common/src/configs/validation.rs:22-30 | Succeeds exactly on duplicate-free sequences; otherwise reports the first value that occurs again. |
| `ClusterConfig.ReplicasOk` | bob-common/src/configs/cluster.rs:494-504 | With the replica list itself, accepts exactly nonempty lists of distinct replicas on existing disks of existing nodes. |
| `ClusterConfig.Validate` | bob-common/src/configs/cluster.rs:443-508 | Accepts exactly the configs whose nodes, ids and replicas are well formed. |
| `ClusterConfig.QuorumFits` | bob-common/src/configs/cluster.rs:354-363 | Passes exactly if no vdisk has fewer replicas than the quorum. |
| `ClusterConfig.BuildMapper` | bob-common/src/mapper.rs:74-90 | A validated and checked config gives a mapper in which every id below the count has its vdisk and quorum replicas on known nodes. |
| `Stores.WritePathEffect` | bob-backend/src/core.rs:304-342 | Whatever way a path write succeeds, the node then holds a record at least as new where that way puts it, on the disk or in the alien group, and nothing stored before gets lost or older. |
| `Stores.BackendPutEffect` | bob-backend/src/core.rs:243-287 | After the loop over the paths the record is behind every path that did not fail completely, whatever happened to the others. |
| `Stores.ConfirmedIsHeld` | bob-backend/src/core.rs:243-287 | A confirmed backend put has left the record behind every one of the node's replica paths. |
| `Backend.Put` | bob-backend/src/core.rs:243-287 | The loop over all paths has that effect and reports an error exactly if a path failed completely. |
| `Backend.GroupKeysByOperations` | bob-backend/src/core.rs:425-444 | Every batch lists, in step, exactly the keys and positions that ask for its store. |
| `Backend.Exist` | bob-backend/src/core.rs:407-423 | Per key, the batched check is the disjunction over the key's own stores that answer. |
| `PutInvariant.StartInv` | bob/src/cluster/quorum.rs:33-50 | A new put satisfies the invariant in any stores. |
| `PutInvariant.TakeAnswerInv` | bob/src/cluster/operations.rs:25-67 | Taking an answer keeps every remote target in exactly one of waiting, answered, confirmed, failed, and the count equal to the replicas on confirmed nodes, each of which holds the record. |
| `PutInvariant.LocalWriteInv` | bob/src/cluster/operations.rs:295-313 | Local writes go through the paths in order, and every counted one has left the record on the node. |
| `PutInvariant.FailureBelowQuorum` | bob/src/cluster/quorum.rs:55-76 | With all tasks done and the quorum missed, some target failed. |
| `PutInvariant.DecideInv` | bob/src/cluster/quorum.rs:47-87 | The decision after the join keeps the invariant and never reaches the failing assertion. |
| `PutInvariant.BeginAliensInv` | bob/src/cluster/quorum.rs:139-164 | Draining as many failed names as there are support nodes is in range and loses no name. |
| `PutInvariant.BackgroundDoneInv` | bob/src/cluster/quorum.rs:90-118 | The background put ends or hands off with the invariant kept. |
| `PutInvariant.AskSupportInv` | bob/src/cluster/operations.rs:270-293 | After a support request its name is held by the support node or stays for the local store. |
| `PutInvariant.LocalAlienInv` | bob/src/cluster/operations.rs:243-267 | After a local alien write the name is held or recorded as lost. |
| `PutInvariant.StepPutInv` | bob/src/cluster/quorum.rs:33-185 | Every move of a put keeps its invariant. |
| `PutInvariant.ApplyInv` | bob/src/cluster/quorum.rs:33-185 | Every action, tombstones included, keeps the invariant of every put, and no record is lost or older. |
| `PutInvariant.RunInv` | bob/src/cluster/quorum.rs:33-185 | After any sequence of actions the invariant holds and no record of the beginning is lost or older. |
| `PutInvariant.RunKeepsOlder` | bob/src/cluster/quorum.rs:190-251 | Tombstones come from deletes only: if those of the beginning and all deletes of the run are older than a time, so are all tombstones at its end. |
| `PutBooks.TakeAnswerBooks` | bob/src/cluster/operations.rs:25-67 | Taking an answer books the node as confirmed exactly if it confirmed and as failed exactly if it did not. |
| `PutBooks.RunBooks` | bob/src/cluster/quorum.rs:33-185 | In every reachable state of every put: the confirmed nodes are exactly those whose taken answer was a confirmation, the failed ones besides the coordinator exactly those whose taken answer was not; the local paths counted are exactly those that did not fail; the names left to the local store are those without a support node or a confirmed request, and the lost ones those it did not keep. |
| `PutBooks.QuorumIsDecidedRightly` | bob/src/cluster/quorum.rs:47-87 | In every run, a decided put is answered by quorum if and only if the replicas on remote targets that confirmed and the local paths that took the write reach the quorum. |
| `PutBooks.RunAnswers` | bob/src/cluster/operations.rs:25-67 | In every run, what a put knows of a target is the first action of the run that ended the request to it. |
| `Durability.QuorumOutlives` | bob/src/cluster/quorum.rs:55-69 | Nodes with fewer replicas than the quorum cannot contain every confirmed copy of an acknowledged put. |
| `Durability.RunExtends` | bob/src/cluster/quorum.rs:33-118 | A longer run knows every put of a shorter one and never takes a quorum answer back. |
| `Durability.AcknowledgedPutStaysReadable` | bob/src/cluster/quorum.rs:33-69 | A stamped put answered by quorum, newer than all tombstones of its key at the beginning and all deletes of the run, is found after any further actions by `get` on any live node, while down nodes hold fewer replicas than the quorum. |
| `Provenance.RunTraced` | bob/src/cluster/quorum.rs:33-185 | In every reachable state every record was stored at the beginning or is the value of a put of its key. |
| `Provenance.AcknowledgedPutIsReadBack` | bob/src/cluster/quorum.rs:420-445 | If the key was absent, is put with one value only and every delete of it is older, `get` then returns exactly that value. |
| `Overwrites.OlderRecordIsRead` | bob-backend/src/core.rs:370-382 | A put is acknowledged by quorum, and the only record that any read returns is the one from before it, however old. |
| `Overwrites.CompletePutIsReadNewest` | bob/src/cluster/quorum.rs:420-445 | After a put that finished without a failed target and without fallback copies on targets, newer than all deletes, every read that reaches a target is at least as new, whatever else the run contains. |
| `Durability.StampZeroIsNotDurable` | bob-backend/src/pearl/disk_controller.rs:468-491 | A one-node cluster acknowledges a record stamped 0 that no read finds. |
| `Durability.DurableExactlyWhenStamped` | bob/src/cluster/quorum.rs:420-445 | Durability over all clusters and runs holds if and only if the timestamp is positive. |
| `Durability.FinishedPutCoversTargets` | bob/src/cluster/quorum.rs:139-185 | When a put has finished with no lost name, every target has all its replicas or an alien copy on the coordinator or on a distinct non-target helper. |
| `Durability.QuorumMissIsFullyKnown` | bob/src/cluster/quorum.rs:70-88 | A put that missed the quorum has no running task, and its failed names are a nonempty list of distinct targets; the error called unreachable is not reached. |
| `Coordinator.Cluster.JoinPuts` | bob/src/cluster/quorum.rs:33-53 | Whatever others do in between, the code's counters equal those of the protocol; it stops with enough replicas or no task left, and with all local paths written. |
| `Coordinator.Cluster.TakeTask` | bob/src/cluster/operations.rs:25-67 | Exactly the taken node leaves the running tasks; its replicas are counted if its answer was a confirmation, and otherwise it is added to the failed nodes. |
| `Coordinator.Cluster.AskSupports` | bob/src/cluster/operations.rs:270-293 | All support nodes were asked; the names left are those without a support node and, of the others, exactly those without a confirmed request. |
| `Coordinator.Cluster.WriteAliens` | bob/src/cluster/operations.rs:243-267 | Every name left was tried, and the reported ones are exactly those whose local alien write failed. |
| `Coordinator.Cluster.PutAliens` | bob/src/cluster/quorum.rs:139-185 | The hand-off finishes, the lost names are those neither a support node nor the local store took, and it succeeds exactly if there is none. |
| `Coordinator.Cluster.DecideAndAnswer` | bob/src/cluster/quorum.rs:54-88 | The answer is by quorum exactly if enough replicas are confirmed; otherwise the put finishes with Ok exactly if no name is lost. |
| `Coordinator.Cluster.PutAtLeast` | bob/src/cluster/quorum.rs:33-88 | The code always answers, with the answer of a protocol run and any actions of others at each of its waits. The answer is by quorum if and only if the remote targets that confirmed in this run and the local paths that did not fail have at least quorum replicas; if no one else ends its requests, these are the targets and paths that the network and the disks let succeed. An answer by quorum to a stamped record is durable from then on. |
| `Coordinator.Cluster.BackgroundPut` | bob/src/cluster/quorum.rs:90-118 | The background part always finishes and leaves the answer as it was. |
| `Operations.FinishAtLeastHandles` | bob/src/cluster/operations.rs:51-67 | Tasks are taken until enough replicas are confirmed and not one more; tasks are left only if the goal was reached; a missed goal means a failed node or too few replicas. |
| `Operations.DrainCollect` | bob/src/cluster/support_types.rs:9-26 | As many members as asked for, or all, are moved; together with the rest they are the old set. |
| `ClusterGet.ReadNormal` | bob-backend/src/core.rs:370-382 | Finds the key exactly if a replica disk of the node has it, and returns the first such disk's record. |
| `ClusterGet.GetAlien` | bob-backend/src/pearl/disk_controller.rs:468-491 | Returns a newest record of all alien groups with a positive timestamp, if there is one. |
| `ClusterGet.GetAnyNormal` | bob/src/cluster/operations.rs:114-126 | Finds the key exactly if an asked node does. |
| `ClusterGet.GetNormal` | bob/src/cluster/quorum.rs:420-432 | Among the targets: the record of the local node if it is a target and shows the key, otherwise one of an answering target that does. |
| `ClusterGet.GetAliens` | bob/src/cluster/quorum.rs:433-445 | Among the aliens: a newest one of the local node if it has one, otherwise a newest one of some answering node. |
| `ClusterGet.Get` | bob/src/cluster/quorum.rs:420-445 | Finds the key exactly if a consulted store shows it; the local disks come before remote targets, targets before aliens, local aliens before remote ones. |
| `ClusterExist.WhereNotExists` | bob/src/cluster/support_types.rs:101-110 | Lists exactly the positions not found. |
| `ClusterExist.RetainNotExisted` | bob/src/cluster/support_types.rs:153-158 | Keeps exactly the listed positions that are still not found. |
| `ClusterExist.UpdateExistence` | bob/src/cluster/support_types.rs:142-150 | In place, ORs each answer into the position it stands for and touches no other. |
| `ClusterExist.GroupByNodes` | bob/src/cluster/quorum.rs:365-410 | Primary and secondary nodes are disjoint, every node's list is exactly the keys it is a target of, and the first round reaches every key not left to secondary nodes altogether. |
| `ClusterExist.CollectRemoteExists` | bob/src/cluster/quorum.rs:325-363 | One round adds exactly what its answering nodes hold of their lists. |
| `ClusterExist.Exist` | bob/src/cluster/quorum.rs:447-519 | The staged check equals, key by key, the disjunction over all answering stores. |
| `ReadAgreement.ExistMatchesGet` | bob-backend/src/pearl/disk_controller.rs:516-540 | `exist` and `get` differ exactly by alien records stamped 0. |
| `Tombstones.DeleteLocal` | bob-backend/src/core.rs:496-505 | Every path is tried; the answer is Ok exactly if all confirmed, and then every path has a tombstone at least as new; records stay as they are. |
| `Tombstones.DeleteAliens` | bob-backend/src/core.rs:476-495 | The groups of all target names are tried, the named ones with force; the answer is Ok exactly if all confirmed. Whatever it is, every group that has the key and took the delete has the tombstone, and from Ok every forced name has one. |
| `Tombstones.DeleteOwnerEffect` | bob-backend/src/pearl/disk_controller.rs:570-617 | A group that took a delete, forced or not, has the tombstone if it has the key; after a confirmed forced one even if it has not. |
| `ClusterDelete.DeleteOnTargets` | bob/src/cluster/quorum.rs:190-251 | The failed nodes are exactly the targets that did not confirm on all their replicas; the stores are those after the local paths and the requests, in the order they ended. |
| `ClusterDelete.ConfirmedIsErased` | bob/src/cluster/quorum.rs:190-251 | A target that confirmed has a tombstone on every one of its replica disks, whatever the order. |
| `ClusterDelete.CallAll` | bob/src/cluster/operations.rs:97-110 | The unconfirmed names are exactly those of failed requests. |
| `ClusterDelete.DeleteOnLocalAliens` | bob/src/cluster/operations.rs:384-413 | Fails exactly for forced names whose local delete failed. |
| `ClusterDelete.DeleteAliens` | bob/src/cluster/quorum.rs:254-321 | Every other node is asked exactly once; the names left for the local store are those without a confirmed request, and it succeeds exactly if the local store confirms all of these. |
| `ClusterDelete.FailedAreBuried` | bob/src/cluster/quorum.rs:254-321 | Then every failed target has a tombstone under its name in the alien store of the coordinator or of a node that is no target. |
| `ClusterDelete.DeleteOnNodes` | bob/src/cluster/quorum.rs:190-225 | Ok if and only if every target confirmed itself or has a confirmed forced tombstone elsewhere. Whatever the answer, on the coordinator and on every other node whose request arrived, every target's alien group that has the key and took the delete has the tombstone. From Ok, every target has tombstones on all its replica disks, or one under its name lies in the alien store of the coordinator or of a non-target node; the stores change by tombstone actions of runs only. |
| `DeleteSteps.DeleteExtendsRun` | bob/src/cluster/quorum.rs:190-321 | What a delete does to the stores of a run is a continuation of the run by tombstone actions of its key and time; puts are untouched. |
| `DeletedReads.ReadAfterDelete` | bob/src/cluster/quorum.rs:420-445 | After Ok, a record not newer than the delete comes from a target that did not confirm and has its tombstone elsewhere, or from an alien group without one. |
| `DeletedReads.CleanReadsNewer` | bob/src/cluster/quorum.rs:420-445 | If all consulted targets confirmed and all consulted alien groups that show the key have the tombstone, only newer records are read. |
| `DeletedReads.DeleteEverywhere` | bob/src/cluster/quorum.rs:190-321 | A delete whose requests all arrive and are applied everywhere is answered with Ok, and afterwards every read on any node, whichever nodes answer, is newer than it. |
| `SupportNodes.OnePass` | bob-common/src/mapper.rs:137-159 | With stable flags, returns the available node after `offset` others or their number; in any case at most `offset` are counted when it fails. |
| `SupportNodes.FindOffset` | bob-common/src/mapper.rs:163-188 | Terminates however flags change; with stable flags, the start is the available node the offset stands for. |
| `SupportNodes.SupportFrom` | bob-common/src/mapper.rs:193-250 | Returns min(count, non-targets) distinct non-target nodes under any flags; with stable flags no disconnected one while an available one is left out. |
| `SupportNodes.RoundRobinIsFair` | bob-common/src/mapper.rs:163-188 | Over any M * A consecutive offsets each of the A available among M non-target nodes is selected exactly M times. |
| `SupportNodes.Virtual.FirstChoices` | bob-common/src/mapper.rs:193-229 | Over M * A consecutive calls with the flags at rest, every available non-target node comes first exactly M times. |
| `SupportNodes.Virtual.GetSupportNodes` | bob-common/src/mapper.rs:193-250 | The same guarantees, and the counter moves by one exactly when a choice is made. |
| `SupportNames.GetSupportNodes` | bob-common/src/mapper.rs:193-250 | Every result is a choice the put protocol allows for. |
| `StartTimestamp.GetStartTimestamp` | bob-backend/src/pearl/utils.rs:85-128 | The search gives the last grid point not after the time, and aborts exactly in the cases of `StartOf`. |
| `StartTimestamp.StartOfMeaning` | bob-backend/src/pearl/utils.rs:85-128 | Within the calendar, periods of up to a day always have a start; from a day to a week, after the first days of 1970, exactly Mondays have none. |
| `StartTimestamp.GridPointUnique` | bob-backend/src/pearl/utils.rs:106-128 | There is only one such grid point. |
| `StartTimestamp.AlignedAcrossDays` | bob-backend/src/pearl/utils.rs:106-128 | With a period that divides the day, starts are multiples of the period on all days. |
| `Holders.FindActualHolder` | bob-backend/src/pearl/group.rs:150-169 | The first of the covering holders with the latest start; none exactly if no holder covers the time. |
| `Holders.Get` | bob-backend/src/pearl/group.rs:269-318 | The loop's answer is one the scan relation allows: holders from last to first, filter, skip, newest record, errors. Wherever reads may skip, and whichever holders fail, it is data of a newest put among the readable records, unless there is none or no readable put is newer than some readable tombstone. |
| `Holders.ExistKey` | bob-backend/src/pearl/group.rs:334-366 | The same scan, with a failed read counted as not found; found exactly as an answer right on the readable records says. |
| `Holders.ScanFindsNewest` | bob-backend/src/pearl/group.rs:369-373 | If reads may skip, a full scan cannot miss an operation, even if no tombstone reached an older holder. |
| `Holders.ScanIsRight` | bob-backend/src/pearl/group.rs:269-366 | A scan without failing reads answers as a newest acknowledged operation says. |
| `Holders.ScanIsRightOnReadable` | bob-backend/src/pearl/group.rs:269-366 | The same for any set of failing holders, on the records that can be read. |
| `Holders.NewestPutIsAnswered` | bob-backend/src/pearl/group.rs:269-318 | So if the newest readable record is a put, the answer is data as new, and a failed read is reported only otherwise. |
| `Holders.ScanSkipsFailures` | bob-backend/src/pearl/group.rs:269-318 | Not-found is only said if every failing holder lies too far before a found tombstone. |
| `Holders.DistinctStampsAgree` | bob-backend/src/pearl/group.rs:269-366 | With distinct timestamps per key there is only one right answer. |
| `Skipping.SafeTimestampStep` | bob-backend/src/pearl/group.rs:246-267 | The step is the larger of the setting and twice the largest difference plus one, in unsigned 64-bit arithmetic. |
| `Skipping.StepInPast` | bob-backend/src/pearl/group.rs:246-267 | If no partition starts after the clock, nothing wraps. |
| `Skipping.StepExceedsGaps` | bob-backend/src/pearl/group.rs:246-267 | The step then exceeds twice the distance between any neighbours and to the clock. |
| `Skipping.FutureStartWraps` | bob-backend/src/pearl/group.rs:256-261 | For any sorted starts whose last lies d seconds after the clock, the step is the unsigned form of minus (2d - 1). |
| `Skipping.SkippingIsRightExactly` | bob-backend/src/pearl/group.rs:369-373 | Reads are right on all recorded groups if and only if the longest period is at most the current one plus the signed step plus 2. |
| `Skipping.FutureStartIsRightExactly` | bob-backend/src/pearl/group.rs:369-373 | For a last partition d seconds after the clock: if and only if d = 1 and no earlier period was longer by more than a second. |
| `SkippedReads.ShortenedPeriodMisreads` | bob-backend/src/pearl/group.rs:246-318 | Whenever shortening the period breaks the condition, a history of a delete, a restart and a put ends in a read of the put although the delete is newer. |
| `SkippedReads.SettingsAreRightExactly` | bob-backend/src/pearl/group.rs:89-94 | With restarts to one period under a clock that is ahead, every read after every history is right if and only if the first period is at most the new one plus the larger of the setting and twice the new one plus one, plus 2. |
| `SkippedReads.FutureStartMisreads` | bob-backend/src/pearl/group.rs:246-318 | For every unchanged period of up to a day and every d from 2 on that the calendar has room for, a history with distinct timestamps ends in not-found although the newest operation is a put. |
| `GroupHistory.GridIsDisjoint` | bob-backend/src/pearl/group.rs:527-562 | On the period grid partitions do not overlap, so at most one holder covers a time. |
| `GroupHistory.HistoryDisjoint` | bob-backend/src/pearl/group.rs:132-207 | This holds after every history in which a period that divides the day did not change. |
| `GroupHistory.HistoryKeeps` | bob-backend/src/pearl/group.rs:209-438 | After every history, whichever writes failed in it, holders and acknowledged operations agree. |
| `GroupHistory.ApplyAllowed` | bob-backend/src/pearl/group.rs:209-438 | What a caller can check before an event so that reads may still skip after it. |
| `GroupHistory.RestartAllowed` | bob-backend/src/pearl/group.rs:89-94 | With the clock ahead, reads may skip after a restart exactly if the computed step makes up for the longest period. |
| `GroupHistory.FutureRestartAllowed` | bob-backend/src/pearl/group.rs:89-94 | With the last partition d seconds after the clock, exactly if minus (2d - 1) still does. |
| `GroupHistory.HistoryReads` | bob-backend/src/pearl/group.rs:209-438 | After any history of events that fit, `get` answers as a newest acknowledged operation says; with distinct timestamps this is the only right answer and `exist` agrees with it. |
| `GroupHistory.HistoryReadsReadable` | bob-backend/src/pearl/group.rs:269-318 | After any history of events that fit, with any holders failing, the answer is right on the readable records. |
| `GroupHistory.SettledFits` | bob-backend/src/pearl/group.rs:89-94 | Under such settings, the unchanged period among them, all events of a history fit. |
| `Group.Group.GetOrCreateActualHolder` | bob-backend/src/pearl/group.rs:132-207 | The holder found or created covers the time and starts latest; a new one is added only if none covered it; on failure nothing changes. |
| `Group.Group.Put` | bob-backend/src/pearl/group.rs:209-225 | An acknowledged put is placed in that holder and nothing else changes; a failed one leaves at most one new empty holder; reads may skip afterwards if they could before and the time fits. |
| `Group.Group.DeleteInHoldersBefore` | bob-backend/src/pearl/group.rs:415-438 | Exactly the older holders that have the key and take the write get the tombstone. |
| `Group.Group.Delete` | bob-backend/src/pearl/group.rs:376-413 | An acknowledged forced delete is placed where a put of its time would be, and exactly the holders that start before, have the key and take the write get the tombstone too; the same promises on failure and on skipping. |
| `Group.Group.Restart` | bob-backend/src/pearl/group.rs:89-94 | Keeps all operations and states the step; with the clock ahead reads may skip exactly if it makes up for the longest period. |
| `Group.Group.Get` | bob-backend/src/pearl/group.rs:269-318 | Data is never made up; without failing reads, and if reads may skip, the answer is that of a newest acknowledged operation; with failing reads it is that of the readable records: data of a newest put unless none is newer than a readable tombstone. |
| `Group.Group.Exist` | bob-backend/src/pearl/group.rs:334-366 | The same for existence, key by key. |
| `Group.Run` | bob-backend/src/pearl/group.rs:89-438 | Every history is one of calls on a new group. |
| `PartitionName.NameRoundTrip` | bob-backend/src/pearl/group.rs:800-821 | A printed name is read back if and only if its timestamp fits 64 bits and its hash has no underscore. |
| `PartitionName.AsciiTranslation` | bob-backend/src/pearl/group.rs:765-773 | The filtered table has 64 entries in order, so every 6-bit index is in range. |
| `PartitionName.OwnerNodeHash` | bob-backend/src/pearl/group.rs:593-622 | The loop gives the truncated text of the digest's 6-bit groups, without underscore. |
| `PartitionName.SixesBits` | bob-backend/src/pearl/group.rs:593-622 | The 6-bit groups put together are the bits of the digest, 3 bytes at a time, in the order the code packs them (the third group has the high bits of the third byte first); no bit is lost or repeated. |
| `PartitionName.HashTextInjective` | bob-backend/src/pearl/group.rs:593-622 | Before truncation the text determines a digest of given length. |
| `PartitionName.CreatedNamesRoundTrip` | bob-backend/src/pearl/group.rs:792-821 | Every directory name the group creates is read back. |
| `Ccg.IncKeeps` | bob-apps/bin/config_cluster_generator/center.rs:198-211 | Placing on a least used disk of its node keeps disks of a node within one of each other and node and rack counters equal to the sums below them. |
| `Ccg.MinByKey` | bob-apps/bin/config_cluster_generator/center.rs:455-461 | The first of the least used disks. |
| `Ccg.MinFromList` | bob-apps/bin/config_cluster_generator/center.rs:231-244 | The first listed one of the least used disks; none exactly if no least used disk is in the list. |
| `Ccg.PreferredIsChosen` | bob-apps/bin/config_cluster_generator/center.rs:224-244 | The first disk of a vdisk placed anew is the first old one among the least used disks of the cluster, or else the first least used. |
| `Ccg.NextDisk` | bob-apps/bin/config_cluster_generator/center.rs:416-425 | The first least used disk on a node not used yet, or of all if there is none; least used in its node. |
| `Ccg.NextRack` | bob-apps/bin/config_cluster_generator/center.rs:252-259 | The first of the least used racks. |
| `RackSpread.SpreadOne` | bob-apps/bin/config_cluster_generator/center.rs:416-425 | A candidate disk of any rack keeps this: nodes are distinct if and only if no rack has more replicas than nodes with disks. |
| `RackSpread.SpreadExactly` | bob-apps/bin/config_cluster_generator/center.rs:287-313 | For any racks the same if and only if; it suffices that every rack has a node for each replica, and with one rack this is necessary. |
| `RackSpread.PlannedExactly` | bob-apps/bin/config_cluster_generator/center.rs:287-363 | Replicas picked along a plan of racks are on distinct nodes if and only if the plan names no rack more often than it has nodes with disks. |
| `RackSpread.TwoRacksExactly` | bob-apps/bin/config_cluster_generator/center.rs:283-305 | In a new cluster of two racks the plan for three replicas fits if and only if the first has two nodes with disks and the second one. |
| `Greedy.FairStep` | bob-apps/bin/config_cluster_generator/center.rs:416-425 | Taking a least used disk of the nodes not used yet keeps any two nodes of the rack close: in load per disk for the node with more disks, and in the use of a disk against the load of the other node. |
| `Greedy.FairVDisk` | bob-apps/bin/config_cluster_generator/center.rs:287-313 | With one rack and at most as many replicas as it has nodes with disks, a whole vdisk keeps this. |
| `Greedy.FairIsEven` | bob-apps/bin/config_cluster_generator/center.rs:416-425 | Then a disk is used at most twice more than one on a node with no more disks, and at most as often as the number of disks of the other's node times one more than the other's use. |
| `Center.Center.PushReplica` | bob-apps/bin/config_cluster_generator/center.rs:198-211 | The counters move by exactly the placed replica and stay balanced. |
| `Center.Center.CreateVDisk` | bob-apps/bin/config_cluster_generator/center.rs:287-313 | The asked number of replicas (at least one), the third in the rack of the first, in the racks of a plan computed from the rack counters before the call; there are counters from the old to the new ones such that each replica is the first least used candidate by the counters at its turn and the next ones have its disk one higher; on distinct nodes if and only if that plan fits. |
| `Center.Center.PreferredRack` | bob-apps/bin/config_cluster_generator/center.rs:261-281 | A least used rack, from the list if a least used one is in it. |
| `Center.Center.PreferredDisk` | bob-apps/bin/config_cluster_generator/center.rs:427-453 | The first old disk among the least used allowed ones if there is one, otherwise the first least used candidate. |
| `Center.Center.CreateVDiskFromAnother` | bob-apps/bin/config_cluster_generator/center.rs:315-363 | Same id and number of replicas; the first replica is the first old disk among the least used of the cluster, or else the first least used; every further one is, by the counters at its turn, the first old disk among the least used allowed ones of its rack, or else its first least used candidate; distinct nodes if and only if the plan from its rack, the preferred racks and the counters fits. |
| `Center.Center.SimpleGen` | bob-apps/bin/ccg.rs:128-154 | Ids from 0, each vdisk placed step by step as `create_vdisk` does from the counters the one before it left, on distinct nodes if and only if its plan fits, which follows from the counters at the start; a disk's counter is the number of replicas it got; with one rack and at most as many replicas as nodes with disks, the uses of any two disks stay within the bounds of `EvenUse`; with one replica and p per disk, every disk gets exactly p. |
| `Center.GeneratedFairly` | bob-apps/bin/ccg.rs:145-150 | The bounds for any number of vdisks, from those steps. |
| `Center.ThreeInTwoRacks` | bob-apps/bin/config_cluster_generator/center.rs:287-313 | In a new cluster of two racks three replicas go to the first, the second and the first rack, on distinct nodes if and only if the first rack has two nodes with disks. |
| `Center.LopsidedTwice` | bob-apps/bin/config_cluster_generator/center.rs:416-425 | With one node in the first rack and three in the second, such replicas contain the only disk of the first rack twice, although four nodes have disks. |
| `Center.LopsidedVDisk` | bob-apps/bin/config_cluster_generator/center.rs:287-313 | The code places them so. |
| `Center.Center.SimpleExpand` | bob-apps/bin/ccg.rs:96-126 | Every old vdisk is placed anew under its id, from the counters the one before it left, with old disks preferred replica by replica; on distinct nodes if and only if no rack got more replicas than nodes with disks, with balance kept throughout. |
| `Center.CeilMeaning` | bob-apps/bin/config_cluster_generator/utils.rs:86-92 | The least number of vdisks whose replicas cover the asked number. |
| `Center.EvenIsEqual` | bob-apps/bin/ccg.rs:137-150 | Uses within one of each other that add up to k times their number are all k. |
| `KeyOrder.KeyOrderIsTotal` | bob-backend/src/pearl/data.rs:56-89 | Keys of one length are totally ordered, and only identical keys are equal. |
| `KeyOrder.CompareByWords` | bob-backend/src/pearl/data.rs:63-79 | Comparing words from the top is comparing little-endian integers. |
| `KeyOrder.CompareByBytes` | bob-backend/src/pearl/data.rs:80-87 | Comparing bytes from the top is comparing the same integers. |
| `KeyOrder.LeCmpKeys` | bob-backend/src/pearl/data.rs:56-89 | All three branches give the integer order. |
| `KeyOrder.LeCmpKeysSized` | bob-apps/bin/blob_recovery_tool/key.rs:3-33 | The size-generic version gives the same order. |
| `Resolve.SkippedUpdateIsNoOp` | bob-access/src/credentials.rs:247-278 | An update is skipped exactly when it would change and start nothing. |
| `Resolve.ResolverStartIsJustified` | bob-access/src/credentials.rs:127-142 | A resolver is started only for a hostname, on the third counted failure, with none running. |
| `Resolve.Basic.SetNodesCredentials` | bob-access/src/authenticator/basic.rs:46-67 | Exact new guards and workers; the one-worker rule survives if and only if no node being resolved is named. |
| `Resolve.InterleavingKeeps` | bob-access/src/authenticator/basic.rs:73-130 | In every interleaving of lock sections: one worker exactly for nodes in progress, failure counts below the threshold, the same nodes. |
| `Resolve.Basic.CheckNodeRequest` | bob-access/src/authenticator/basic.rs:106-130 | The answer is that of the addresses known at the look, whatever others do before the update; undisturbed, looking first equals updating in any case under one write lock. |
| `Resolve.ProcessedKeeps` | bob-access/src/authenticator/basic.rs:96-104 | An authentication result touches its node only, keeps its credentials, and keeps the one-worker rule. |
| `Resolve.Basic.ProcessAuthResult` | bob-access/src/authenticator/basic.rs:96-104 | The lock section has that effect. |
| `Resolve.FinishedKeeps` | bob-access/src/authenticator/basic.rs:73-94 | A resolver that ends was the only one of its node, which was being resolved; afterwards there is none, the node has exactly the addresses found, its hostname as before, no counted failure and the new protection time; no other node changes. |
| `Resolve.Basic.WorkerDone` | bob-access/src/authenticator/basic.rs:73-94 | The lock section at the end of a resolver has that effect. |
| `Resolve.CredentialsFollow` | bob-access/src/authenticator/basic.rs:73-104 | In every interleaving a node has its hostname and exactly the addresses of its last resolution. |
| `Resolve.ProtectedStays` | bob-access/src/authenticator/basic.rs:96-104 | Failures before the protection time ends are not counted and start no resolver. |
| `Resolve.FailuresCounted` | bob-access/src/credentials.rs:127-142 | In every interleaving the count of a resolved node is exactly its failures in a row since the protection ended, and its resolver was started if and only if these reached the threshold. |
| `Resolve.Basic.ResolveThenCheck` | bob-access/src/authenticator/basic.rs:73-130 | After a resolution and any further sections a check is authenticated exactly for the addresses found. |

## Left out

- gRPC and REST servers, clients, TLS, YAML, command lines, metrics and logs.
- Blob files, indexes and bloom filters: a holder returns a newest record of a key, and a filter never leaves out a holder that has it.
- Disk controller states, `attach`, `detach` and `remount`; alien groups and deletes that are not forced in the skip theorem.
- A panicking task aborts the process, so join errors do not occur in the model.
- A support request that is applied after its answer was given up; a late copy would only add to the stores.
- The alien group a failed local write falls back to is any owner's: the operation keeps its disk path.
- Group operations are atomic; the locks and the retry inside holder creation are not modelled.
- StartTimestamp.GetStartTimestamp: the end of the calendar is that of the `chrono` library from version 0.4.32 on; the repository does not fix a version.
- Skipping.SkippingIsRightExactly: for groups in which the end of a holder plus the signed step is an unsigned 64-bit number; `Reached` in `Holders` says it holder by holder where it is not.
- Skipping.FutureStartIsRightExactly: the same range.
- SkippedReads.SettingsAreRightExactly: the failing histories are given for first periods of up to a day; that settings which cover the first period are right is proved for all periods (`CoveringIsRight`).
- Tombstones.DeleteLocal: a node without replicas answers a local delete with an error; the cluster delete never sends it one.
- ClusterDelete.DeleteOnNodes: its own loops run undisturbed; in runs its tombstones interleave with all other actions one by one.
- SupportNodes.Virtual.GetSupportNodes: the round-robin counter is unbounded; the wrap-around of the machine counter is not modelled.
- ClusterConfig.Validate: racks, addresses and empty names are not part of the model.
- Center.Center.SimpleExpand: reading racks from a config and listing old hardware first are inputs.
- Resolve.Basic.WorkerDone: the sleeping and lookups before the worker's end are not modelled.
- ClusterExist.UpdateExistence: the index map itself is a value; the result slice is updated in place.
- The put's state machine keeps stores as values; only the coordinator's loops are imperative.
- SHA-256: the owner hash starts from any digest.
- The `simple.rs` policy and the other tools would only add easy members.
