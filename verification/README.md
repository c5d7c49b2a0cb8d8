# A verified model of the agent's storage and job core

The agent keeps three kinds of distributed state. This project models each of them in Dafny, step by step, and proves
what holds over every run.

**Metadata store** (`agent/src/raft/store.rs`). `SledLogStore` keeps Raft entries in an ordered byte-keyed tree;
`SledStateMachine` folds committed entries into a job registry and an enrolment-token table, persists the fold, and
builds and installs snapshots.
- `Bytes`, `OrderedTree`: big- and little-endian integers, the byte order of keys, and the tree's iteration order.
- `RaftTypes`, `LogStore`, `StateMachine`: the data and the two stores, as classes proved against functions.
- `LogRefinement`: the tree refines one contiguous log, through every disciplined run and every interrupted purge.
- `RegistryLaws`: what a whole log makes of one job and of one token.
- `Replication`: replicas sharing one committed log. They batch as they like, read their own clocks, crash between any
  two writes and halfway through purges and truncations, restart, append and drop uncommitted entries, purge, and
  install each other's snapshots.

**Object store** (`agent/src/storage`, `TransferChunk`). An object is compressed, length-prefixed, split into padded
shards, written file by file, and then indexed; peers receive copies of the shards.
- `Erasure`, `Decimals`, `ShardNames`: the shard layout and the file names.
- `ObjectStore`, `ObjectLaws`: one node, its operations as sequences of single writes, and the laws of these sequences.
- `ReplicaLaws`, `KeyCollisions`: the fan-out and its receivers; keys that share shard files.
- `StorageCluster`: puts, transfers, deletes and gets of many nodes, interleaved write by write and read by read, with
  abandoned operations and arbitrary damage to files.
- `Placement`: the placement rule and what its recoverability check counts.

**Delegated jobs** (`agent/src/api_rest`, `executor`, `grpc_server`, `grpc_client`). An origin and an executor each hold
a record of one job; acknowledgement, terminal report and cancel requests race.
- `JobRecords`: the record, the wire format of reports, and a node's job table.
- `JobProtocol`, `JobFinality`: all interleavings of one job's submissions, executions, reports and cancels.
- `Scheduler`: the choice of the node.

The classes' methods are proved equal to specification functions (`ReadRange`, `ApplyAll`, `PutWrites`, `Ended`, ...),
and the transition systems are built from these same functions, so what is proved of runs is about the methods.

What these functions mean is pinned by facts that do not name them: replies, records and reports field by field
(`RegistryLaws`, `JobRecords.JobTable`), paths and policy tables letter by letter (`ObjectStore.PathsSpelled`,
`PolicyTable`, `UnknownPolicyText`, `JobRecords.StatusTable`, `WhitespaceMeans`), bytes one by one
(`Bytes.LEBytes`, `Bytes.LexMeaning`, `Erasure.EncodedByte`), and stores key by key (`LogStore.ContainsMeans`,
`AppendStores`, `AppendSpares`, `LogRefinement.SliceMeans`, `ObjectStore.WriteMeans`, `GetMeans`).

Where the code does less than its documentation or its names suggest, the model follows the code and the exact condition
is proved: parity shards are zeros, so a chunk that counts as recoverable need not be readable, although
`docs/architecture/storage.md:53` speaks of recovery from partial shard loss (`Placement.RecoverableVersusReadable`,
`ObjectLaws.LossTolerance`); the placement rule gives an erasure-coded chunk a single node, which its own check never
counts as recoverable (`Placement.OwnPlacementTolerance`); keys that differ only in `/` and `-` share shard files
(`KeyCollisions.MangledKeysCollide`); a bucket with a slash, which a percent-encoded request can carry, is never served
by a peer that started without its shards (`ReplicaLaws.DeliveryConverges`, `ReplicaLaws.FanOutMissesSlashBuckets`); a
truncation stopped halfway leaves a hole (`LogRefinement.InterruptedTruncate`); a token can be consumed once per store,
not once for ever (`RegistryLaws.ConsumeResponses`); a second dispatch can replace an outcome
(`JobProtocol.RetryOverwrites`), and when it cannot is an iff (`JobFinality.FinalIffQuiet`); a cancel before the start
is lost (`JobProtocol.CancelBeforeStartIsLost`), and one granted while the task runs is kept for the rest of the run
unless spawning or waiting fails, which replaces it (`JobProtocol.CancelAfterStartSurvives`).

## Model

| member | source | states |
|---|---|---|
| LogStore.IndexRoundTrip | agent/src/raft/store.rs:54-62 | decoding an encoded index gives the index back, for every 64-bit index |
| LogStore.KeyRoundTrip | agent/src/raft/store.rs:54-62 | every eight-byte key is the encoding of the index it decodes to, so no two keys stand for one index |
| LogStore.KeyOrder | agent/src/raft/store.rs:54-62 | byte order of keys is numeric order of indices: iterating the tree is walking the log, and its last key is the greatest index |
| LogStore.SortIsNoOp | agent/src/raft/store.rs:116 | the stable sort that ends a range read changes nothing on entries that are already in index order |
| LogStore.SortSorts | agent/src/raft/store.rs:116 | on any entries that sort yields the same entries in index order |
| LogStore.ReadFails | agent/src/raft/store.rs:108-115 | a range read fails iff some key in range holds a value that is no entry, and then with a log read error |
| LogStore.LogStateFails | agent/src/raft/store.rs:128-140 | the log state fails to be read iff the purge record is no log id or the value at the greatest key is no entry |
| LogStore.SledLogStore.TryGetLogEntries | agent/src/raft/store.rs:101-118 | the scan with its early error return equals the range read that `ReadIsSlice` characterises |
| LogStore.SledLogStore.GetLogState | agent/src/raft/store.rs:124-146 | reads the recorded purge and the entry at the greatest key, with both decoding failures |
| LogStore.SledLogStore.Append | agent/src/raft/store.rs:193-213 | the batch, applied at once, equals inserting the entries one after the other, later ones winning |
| LogStore.SledLogStore.Truncate | agent/src/raft/store.rs:215-231 | keys gathered first and removed one by one: exactly the entries from the given index on disappear |
| LogStore.SledLogStore.Purge | agent/src/raft/store.rs:233-250 | exactly the entries up to the given index disappear, and the purge is recorded |
| LogRefinement.ReadIsSlice | agent/src/raft/store.rs:101-118 | a range read with any bounds returns exactly the log's entries with indices in the range, ascending and complete |
| LogRefinement.StateIsLastEntry | agent/src/raft/store.rs:124-146 | the log state names the recorded purge and the greatest stored entry, and no entry when nothing is stored, even after a purge |
| LogRefinement.StepRefines | agent/src/raft/store.rs:193-250 | append, truncate, purge and a purge stopped anywhere each keep the tree a representation of one contiguous log |
| LogRefinement.RunRefines | agent/src/raft/store.rs:193-250 | after every disciplined run the keys are exactly the indices of one contiguous log, each with its own entry |
| LogRefinement.FirstFollowsPurge | agent/src/raft/store.rs:233-250 | without interrupted purges the first kept index is the one after the recorded purge |
| LogRefinement.CrashedPurgeRefines | agent/src/raft/store.rs:237-245 | a purge stopped after any number of removals leaves a contiguous suffix of the log under the old purge record |
| LogRefinement.InterruptedPurgeResumes | agent/src/raft/store.rs:233-250 | rerunning a stopped purge ends with the entries and the record of a purge that was never stopped |
| LogRefinement.InterruptedTruncate | agent/src/raft/store.rs:220-228 | a truncation stopped after n removals leaves the stored indices contiguous iff n is none or all, or nothing is kept below |
| StateMachine.ApplyAllConcat | agent/src/raft/store.rs:422-455 | two batches in a row give the state and the responses of one batch |
| StateMachine.SledStateMachine.Open | agent/src/raft/store.rs:263-270 | the state is the persisted one, or the empty one when there is no blob or it does not decode |
| StateMachine.SledStateMachine.Execute | agent/src/raft/store.rs:272-379 | the in-place update and its response are those of the command function that the registry and agreement laws are about |
| StateMachine.SledStateMachine.Apply | agent/src/raft/store.rs:422-455 | memory and responses are the fold over the batch, and what is persisted is the final state |
| StateMachine.SledStateMachine.BuildSnapshot | agent/src/raft/store.rs:389-402 | installing the snapshot, anywhere, yields exactly the state it was taken of, and its data alone decode to that state |
| StateMachine.SledStateMachine.GetCurrentSnapshot | agent/src/raft/store.rs:484-500 | there is a snapshot iff something was applied, and installing it yields exactly the current state |
| StateMachine.SledStateMachine.InstallSnapshot | agent/src/raft/store.rs:469-482 | a decodable snapshot replaces memory and blob, log id and membership from its metadata, jobs and tokens from its data; an undecodable one changes nothing |
| RegistryLaws.LastConfig | agent/src/raft/store.rs:430-450 | after any log the last applied id is that of its last entry, and the membership is that of the last membership entry under its own log id, or the default one when there is none |
| RegistryLaws.UnknownJob | agent/src/raft/store.rs:305-325 | a job never registered is not in the registry, and every update of it is refused as not found |
| RegistryLaws.FirstWriterWins | agent/src/raft/store.rs:274-325 | node, runtime and creation time are those of the first registration for ever; status and update time are those of the last update after it, else "queued" and the creation time |
| RegistryLaws.RegistrationResponses | agent/src/raft/store.rs:274-325 | over any log: a registration succeeds iff it is the job's first and else answers "already registered"; an update succeeds iff a registration precedes it and else answers that the job is not found |
| RegistryLaws.TokenIsLastStore | agent/src/raft/store.rs:334-377 | the table holds what the last store said, marked used iff a consume followed that store |
| RegistryLaws.ConsumeResponses | agent/src/raft/store.rs:354-377 | over any log: a consume answers "token not found" iff the token was never stored before, success iff it is the first consume since the latest store, and "token already used" otherwise |
| RegistryLaws.OtherResponses | agent/src/raft/store.rs:326-353 | over any log: blank and membership entries, member commands and token stores always answer success without error |
| RegistryLaws.ConsumesAreBacked | agent/src/raft/store.rs:334-377 | successful consumes, plus one if the token is stored and unused, never exceed the number of stores |
| Replication.EraseIsAgree | agent/src/raft/store.rs:68-74 | erasing the update times makes two states equal iff they agree on ids, membership, tokens and all other job fields |
| Replication.BatchTracks | agent/src/raft/store.rs:422-455 | from any state that tracks the log, any batch at any times tracks it further and answers every entry as the reference machine does |
| Replication.RunKeepsInv | agent/src/raft/store.rs:193-482 | at every moment of every run each persisted blob is a fold of a committed prefix with the entries still to be applied in the tree, and every snapshot and every reply ever given matches the committed log |
| Replication.ReplicasAgree | agent/src/raft/store.rs:263-270 | two running replicas at one log position, at any moments of any run, agree on everything except update times |
| Replication.RepliesAgree | agent/src/raft/store.rs:422-455 | all replies to one entry, by any replica and in any replay, are equal and are the reference machine's |
| Replication.CrashRecovery | agent/src/raft/store.rs:263-270 | at every moment the blob is the fold of a completed prefix; reopening and replaying the replica's own log reaches the state of a machine that never crashed |
| Erasure.EncodeErasure | agent/src/storage/chunks.rs:35-66 | as many shards as asked for, each of the ceiling of (8 + length) / data shards bytes, cut by the loops from the padded, length-prefixed data; every parity byte is zero |
| Erasure.EncodedByte | agent/src/storage/chunks.rs:40-63 | each byte of each shard by its position: the length, least significant byte first, then the data, then zeros |
| Erasure.DecodeShards | agent/src/storage/chunks.rs:69-93 | the joining loop, over the data shards there are, with its three failure cases |
| Erasure.DecodesExactly | agent/src/storage/chunks.rs:83-92 | decoding succeeds iff the bytes are a length prefix and at least that many bytes, which it returns; each of the three failures has its exact condition |
| Erasure.PrefixDecodes | agent/src/storage/chunks.rs:69-93 | a reader with any number of data shards of its own, over encoded shards, fails too short, fails with too long a length, or returns the data, exactly by the room its shards have |
| Erasure.ErasureRoundTrip | agent/src/storage/chunks.rs:35-93 | decoding any shard list that starts with the encoded data shards gives the data back, for all data of representable length and all shard counts |
| ShardNames.ObjectIdsAgree | agent/src/grpc_server/mod.rs:252-254 | the put path and the peer handlers give an object one id iff its bucket has no slash |
| ShardNames.ShardNameInjective | agent/src/storage/chunks.rs:108-121 | within any bucket and under either naming a shard name determines the mangled key and the shard number, even for keys that contain "-shard-" |
| ShardNames.ShardIsNotMeta | agent/src/storage/chunks.rs:126 | no shard path is the path of a `.meta` file |
| Decimals.IntTextMeans | agent/src/executor/mod.rs:130 | the text of an exit code: a minus sign iff negative, then its absolute value in decimal without leading zeros |
| ObjectStore.PolicyTablesAgree | agent/src/storage/chunks.rs:166-172 | the policy text in the index gives the reader the shard counts and level that the writer used, the fan-out their sum, and the transfer handler the same policy |
| ObjectStore.PolicyTable | agent/src/storage/mod.rs:27-63 | replicas, data and parity shards, compression level and text of each of the four policies |
| ObjectStore.PutOrder | agent/src/storage/chunks.rs:118-143 | a put writes shard by shard, each with its `.meta` file after it, and the index entry last of all |
| ObjectStore.StorageNode.PutObject | agent/src/storage/chunks.rs:96-155 | the put performs exactly its sequence of single writes, the index entry last |
| ObjectStore.StorageNode.GetChunks | agent/src/storage/chunks.rs:158-213 | the loop over all shards, optional parity files included, returns what index entry and data shards alone determine |
| ObjectStore.StorageNode.TransferChunk | agent/src/grpc_server/mod.rs:229-303 | an accepted transfer is exactly three writes: shard and `.meta` under the peer's names, index entry under the received policy; a refused one changes nothing |
| ObjectStore.StorageNode.ReadShards | agent/src/storage/mod.rs:121-152 | the fan-out reads the shards present under the peer's names, in order, each under its number and with its own hash |
| ObjectStore.PresentShardsExactly | agent/src/storage/mod.rs:141-150 | a shard is sent iff its file exists, with that file's bytes and hash, whichever others are missing |
| ObjectStore.PresentShardsAscend | agent/src/storage/mod.rs:141-150 | the shards sent stand in ascending order of their numbers |
| ObjectStore.StorageNode.FetchChunk | agent/src/grpc_server/mod.rs:305-345 | a shard with its hash iff its file exists; without a slash in the bucket it is the very file that a get reads |
| ObjectStore.StorageNode.DeleteObject | agent/src/storage/index.rs:95-101 | exactly the index entry goes; the files stay |
| ObjectLaws.DeleteHides | agent/src/storage/index.rs:95-101 | after a delete the get finds nothing and every other get is as before, and a put makes the object readable again |
| ObjectLaws.PutShowsLast | agent/src/storage/chunks.rs:118-143 | a put stopped before its last write has changed no index entry |
| ObjectLaws.MetaAfterPut | agent/src/storage/chunks.rs:124-137 | after a put the `.meta` file of each shard holds that shard's own number and hash |
| ObjectLaws.WritesConverge | agent/src/storage/chunks.rs:118-143 | writes in any order and number, interleaved with writes that do not compete, on any disk: once the entry and all data shards are written a get returns the object |
| ObjectLaws.PutThenGet | agent/src/storage/chunks.rs:96-213 | on any disk, in any bucket and under all four policies a put makes the get return the bytes, and no loss or corruption of parity shards changes that |
| ObjectLaws.LossTolerance | agent/src/storage/chunks.rs:179-190 | after losing any set of shard files, in any bucket, a get fails iff a data shard is among them, and otherwise returns the bytes |
| ReplicaLaws.PeerPathsCoincide | agent/src/grpc_server/mod.rs:252-255 | the path of a shard at a peer is the path that a get reads iff the bucket has no slash and the shard numbers are equal |
| ReplicaLaws.FanOutReadsAll | agent/src/storage/mod.rs:121-152 | right after a put into a bucket without a slash the fan-out finds every shard, data and parity, and sends what was encoded |
| ReplicaLaws.FanOutMissesSlashBuckets | agent/src/storage/mod.rs:137-150 | right after a put into a bucket with a slash the fan-out finds no shard at all |
| ReplicaLaws.ReplicaConvergence | agent/src/grpc_server/mod.rs:229-303 | single writes of transfers, in any order and number, make the peer serve the same bytes under the same etag, size and policy once every data shard has arrived, for buckets without a slash |
| ReplicaLaws.DeliveryConverges | agent/src/api_rest/mod.rs:534-567 | whole transfer calls, in any order and number, on any disk: the peer serves the object, under the etag, size and policy of the put, once all data shards have arrived for a bucket without a slash; on a disk without the object's data shards it otherwise reports insufficient shards |
| ObjectLaws.ShardPathInjective | agent/src/storage/chunks.rs:103-122 | two shard files coincide iff bucket, mangled key and shard number do |
| ObjectLaws.PutIsolation | agent/src/storage/chunks.rs:118-143 | a put changes no get, successful or failing, whose bucket or mangled key differs |
| KeyCollisions.MangledKeysCollide | agent/src/storage/chunks.rs:108 | after puts of two keys with one mangled form, under any two policies, the exact result of a get of the first: one of four errors, or its own bytes |
| KeyCollisions.CollisionByPolicy | agent/src/storage/chunks.rs:166-210 | what this result is by policy: for a reader with as many data shards and the same kind of compression it is success iff the data are equal and corruption otherwise, for a Hot entry over erasure-coded shards always a decoding error, and never the other key's bytes |
| StorageCluster.RunKeepsInv | agent/src/grpc_server/mod.rs:252-292 | on every node, at every moment of every run, each index entry stands under its own bucket and key and has the etag of a client put to them |
| StorageCluster.ReadSafety | agent/src/api_rest/mod.rs:510-567 | every successful get on any node returns exactly the bytes of some client put, begun before, to the bucket and key that the get asked for: no mixture, no content of another key |
| Placement.DeterminePlacement | agent/src/storage/placement.rs:23-43 | the round robin picks the first nodes: three for Hot, as far as there are, and one for each erasure policy |
| Placement.ErasureTolerance | agent/src/storage/placement.rs:46-77 | an erasure-coded placement counts as recoverable iff at least 4, 6 or 8 of its nodes are left; with one node per shard, iff at most `parity` failed |
| Placement.OwnPlacementTolerance | agent/src/storage/placement.rs:23-77 | over distinct nodes the placement that the rule itself chooses counts as recoverable iff the policy is Hot and fewer than min(3, n) chosen nodes failed: never for an erasure policy |
| Placement.RecoverabilityAntitone | agent/src/storage/placement.rs:46-77 | more failures never make a chunk recoverable |
| Placement.RecoverableVersusReadable | agent/src/storage/placement.rs:46-77 | for one and the same failure list, with shard i on the i-th node: the check says recoverable iff at most `parity` nodes failed, the get fails iff a node with a data shard failed and otherwise returns the bytes |
| Placement.RecoverableButUnreadable | agent/src/storage/chunks.rs:60-63 | the failure of any one node that holds a data shard counts as recoverable, yet makes the get fail |
| JobRecords.ReportRoundTrip | agent/src/grpc_client/mod.rs:121-157 | an outcome survives encoding and decoding iff its exit code fits its status and its error text is not blank |
| JobRecords.ReportedOutcomeArrives | agent/src/grpc_server/mod.rs:62-95 | every outcome that an executor reports arrives unchanged and is Completed or Failed |
| JobRecords.JobTable.Enqueue | agent/src/api_rest/mod.rs:878-935 | a job with resources gets a queued record, assigned to the picked node or else this one; without resources nothing changes |
| JobRecords.JobTable.EnqueueRemote | agent/src/api_rest/mod.rs:937-995 | a delegated job gets a queued record assigned to this node, whatever record was there |
| JobRecords.JobTable.MarkRunning | agent/src/executor/mod.rs:38-46 | sets Running whatever the status was, or gives up without a record |
| JobRecords.JobTable.Settle | agent/src/executor/mod.rs:63-176 | an exit settles the record unless it was cancelled, a failed spawn or wait always marks it Failed, and the report says in each case how the process ended |
| JobRecords.JobTable.AcknowledgeDispatch | agent/src/api_rest/mod.rs:1082-1093 | a queued record becomes Running and assigned to the node that accepted; any other record stays as it is |
| JobRecords.JobTable.ApplyTerminalUpdate | agent/src/api_rest/mod.rs:997-1037 | the decoded report overwrites status, exit code and error of any record |
| JobRecords.JobTable.Cancel | agent/src/api_rest/mod.rs:1221-1266 | unknown and finished jobs are refused; otherwise only the status changes |
| JobProtocol.LeavingTerminal | agent/src/executor/mod.rs:38-46 | a node's record leaves a terminal state iff a task starts there or a submission arrives there; submissions never reach the origin |
| JobProtocol.AcknowledgedOrigin | agent/src/api_rest/mod.rs:1082-1093 | in every run: an acknowledgement makes a queued origin show Running, without exit code and error, on the node that accepted, and leaves any other record as it is |
| JobProtocol.AssignedNodes | agent/src/api_rest/mod.rs:886-914 | over every run: executors assign the job to themselves, the origin to the node first picked or to one that accepted a submission |
| JobFinality.FinalIffQuiet | agent/src/api_rest/mod.rs:1004-1012 | for every run: what the origin shows is final over all continuations without new dispatches iff it is terminal, no submission is under way, every task is over and every delegated one ended with the outcome shown |
| JobFinality.UnquietCanChange | agent/src/grpc_server/mod.rs:62-95 | when one of the conditions for a final outcome fails, a continuation without new dispatches that changes what the origin shows: a cancel, a pending submission or report carried through, or a local task that starts or fails |
| JobProtocol.RetryOverwrites | agent/src/api_rest/mod.rs:1126-1165 | a run in which a second dispatch's failure replaces Completed on the origin |
| JobProtocol.TerminalStays | agent/src/executor/mod.rs:38-46 | a terminal record of any node, a granted cancel included, stays terminal from any moment to any later one between which no task starts there and no submission arrives there |
| JobProtocol.OriginStaysTerminal | agent/src/api_rest/mod.rs:1082-1093 | as long as all executors are remote, however many and however often, a terminal origin stays terminal: no late acknowledgement revives it |
| JobProtocol.OriginIsSourced | agent/src/api_rest/mod.rs:1004-1012 | with remote executors, however many dispatches were accepted: the origin shows Cancelled only after a cancel granted there, and Completed or Failed only with the status, exit code and error of some task that ended |
| JobProtocol.OriginAgrees | agent/src/api_rest/mod.rs:1004-1012 | one dispatch accepted, by a remote node, after any number of lost attempts, and no cancel: whenever the origin's record is terminal its status, exit code and error are those of the executor, another node |
| JobProtocol.ReportedRecords | agent/src/executor/mod.rs:116-154 | one dispatch accepted, cancels anywhere: a reported origin shows how the process ended, and the executor shows the same iff its own record was not cancelled |
| JobProtocol.ReportedIsFinal | agent/src/grpc_server/mod.rs:62-95 | as long as one dispatch was accepted, nothing that happens after an applied report changes what the origin shows |
| JobProtocol.CancelBeforeStartIsLost | agent/src/executor/mod.rs:40-42 | a run in which a granted cancel is undone by the start of the job |
| JobProtocol.LocalFinality | agent/src/executor/mod.rs:116-133 | for a job run on the node that accepted it, if need be after lost remote attempts, Completed and Failed, with exit code and error, are final under every interleaving |
| JobProtocol.CancelAfterStartSurvives | agent/src/executor/mod.rs:116-133 | a cancel granted while the task is running, on its node: at every later moment of the run the node shows Cancelled with exit code and error empty while the process runs, and once it ended iff it exited |
| Scheduler.PickNode | agent/src/scheduler/mod.rs:10-51 | the pick is the eligible node with the least id text, and there is none iff no node is eligible |
| Scheduler.IdLessMeans | agent/src/scheduler/mod.rs:27 | ids are ordered as texts: a proper prefix first, and otherwise by the first differing character |
| Scheduler.EligibleMeans | agent/src/scheduler/mod.rs:39-51 | which status, tier and capabilities make a node eligible for which runtime |
| Scheduler.PickIgnoresOrder | agent/src/scheduler/mod.rs:15-20 | any two iteration orders of the node map give the same pick |

## Left out

- Raft consensus, elections and RPC transport belong to openraft. Its calling discipline is stated as `Allowed` (log operations) and `Enabled` (replication): contiguous appends above what is committed, truncation only of uncommitted entries, purges only of what is persisted as applied, newer snapshots only.
- `save_vote`, `read_vote`, `save_committed` and `read_committed` store and return one value each.
- sled, serde, zstd and SHA-256 are taken as an ordered map with atomic single writes and batches, injective encoders, an inverse pair and an injective function (`LawfulExists` shows that the last two can be met). The tree's iterator is modelled by repeatedly taking the least remaining key. A failing write or read shows up only as an operation that stops partway.
- A crash between the in-memory fold of `apply` and its single persisting write is a crash before the call, since memory is lost.
- `fs::write` may leave a partial file; in `StorageCluster` this is damage to the file, elsewhere a file write is one step. Paths are compared as texts, so bucket names with `..`, `.` or empty segments are left out.
- ObjectStore.StorageNode.TransferChunk: whether the shard file can be written at all is a parameter. It covers the storage role, the creation of the directory, the write itself, and the missing directory that a slash in the bucket may lead to. Later writes that fail are ignored by the code and do not fail in the model.
- ObjectStore.StorageNode.FetchChunk: an existing file that cannot be read is left out.
- ObjectStore.StorageNode.PutObject: requires stored bytes whose prefixed length fits 64 bits, which memory guarantees; creation and modification times are left out.
- Erasure.DecodeShards: an overflowing length prefix is the error `Panic`, whether the addition or the slice after it panics.
- In `StorageCluster` a fan-out may send any bytes as a shard, which covers shards read while another put is writing them.
- `list_objects` filters the ordered index by prefix and stops at a limit; `list_buckets`, `bucket_exists` and `create_bucket` are single calls.
- Timestamps of job records and objects, and the job's runtime, source and command, take no part in the protocols. In the registry update times are kept and are what replicas may disagree on.
- Processes, their output streams and resource limits are reduced to how they end. Ids are texts; the parsing of UUIDs is left out.
- The retry loop's limit of 60 attempts and its check that the job is still queued: the protocol allows any number of dispatches at any time. Acknowledgements and reports may arrive repeatedly or never.
- Progress of the job protocol: two nodes that hold their job tables locked while reporting to each other can block, and a failed first dispatch is not retried, so only safety is claimed.
- Recovery of lost data shards from parity shards is not in the code.
- Token expiry is not in the code.
- Joining, certificates, shared secrets, discovery, configuration, metrics, event streams and the dashboard.
